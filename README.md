# ldap-import: a verified model of the import pipeline

ldap-import is a desktop tool. It reads an address book exported as a
small subset of LDIF, shows the records as an organisation / department /
unit tree, and loads them into an LDAP directory. Loading first deletes
every person entry under the chosen unit, then adds one entry per record.
`main.go` also contains a flat LDIF exporter, `exportToLDIF`, which
nothing calls as the code stands.

This project models the four sequential pieces of `main.go` and proves
properties of them:

- **The record parser** (`parseLDIF`), module `LdifParser`. It is a loop
  over the lines of the file with three pieces of state: the records
  emitted, the record being filled, and the flag saying a `dn:` line has
  opened it. The method `ParseLdif` keeps that loop. It is proved equal
  to `Parse`, a left fold of `Step` over the kind of each line. The
  properties are proved about `Parse`.
- **The organisation tree** (`buildOrgTree`), module `OrgTree`. The loop
  finds or creates the organisation, the department and the unit of each
  record. `BuildOrgTree` keeps that loop and is proved equal to `TreeOf`,
  which adds each record's path in turn.
- **The two synchronisation passes** (`deleteOldEntries`, `addNewEntries`)
  and the "Load data" handler that runs them, module `DirectorySync`.
  - Each pass dials and binds its own connection, so "Load data" takes
    two views of the server, one per pass (`atDelete`, `atAdd`). The add
    pass can fail to connect or bind after the delete pass succeeded
    (`AddConnectionFails`).
  - The LDAP server is an oracle: which addresses answer, which
    credentials bind, what a search lists, and which iterations of each
    pass it refuses. Refusals are keyed by iteration, not by request, so
    two equal requests in one pass may get different answers: an add of
    a DN that an earlier add of the same pass created fails
    (`SameDNSecondRefused`).
  - Cancellation is one boolean per loop iteration.
  - A pass returns the requests it sent, the `i/total` counts it
    reported and how it ended.
- **The flat LDIF export** (the buffer loop of `exportToLDIF`), module
  `LdifExport`. `ExportToLdif` appends one block per record to a buffer,
  one write per line, as the source does. It is proved equal to the lines
  `ExportLines`, each ended by a newline.
- **Export, then import**, module `RoundTrip`. The parser reads the
  exported lines back. Each record returns in order with all its fields,
  except two: the DN comes back as `cn=<dn>,<baseDN>`, and the object
  class is lost.

`Text` models Go's `strings.TrimSpace` with the white-space set of
`unicode.IsSpace`, and `strings.SplitN(s, sep, 2)`. `LdifRecord` models
the `LDIFEntry` record, the thirteen recognised attribute names and the
names the tool writes.

Where the code and its written description disagree, the model follows
the code:

- A second `dn:` line inside an open record overwrites the first
  (`LaterKeyWins`).
- Attribute lines of a block without a `dn:` line are not discarded. The
  blank line resets the accumulator only when a record is open, so those
  fields are carried into the next record (`DnLessFieldsCarryOver`).
- Cancelling during a pass is returned as an error. "Load data" then
  reports it like any other failure (`DeleteFailed(Canceled)`,
  `AddFailed(Canceled)`). A cancel between the passes ends the load
  quietly (`Stopped`).
- The export writes the record's `dn` value as the `cn` of a new DN
  under the base DN, `dn: cn=<dn>,<baseDN>`. It writes the object class
  under the name `objectClass`, which the parser does not recognise (it
  knows only `objectclass`). So an exported file read back has each DN
  wrapped once more and no object class (`ExportRoundTrip`).

## Model

| member | source | states |
|---|---|---|
| Text.TrimStripsEnds | main.go:406 | the trimmed line is the slice of the line left once its leading and trailing white space are cut off, and it has no white space at either end |
| Text.TrimEmptyIffAllSpace | main.go:406-408 | a line counts as blank exactly when every character of it is white space |
| Text.SplitFirst | main.go:421-424 | there is no second part exactly when the separator is absent; otherwise the head holds no separator and head, separator and tail rebuild the input |
| LdifRecord.FieldOfRecognised | main.go:429-457 | exactly the thirteen case-sensitive names of the switch select a field, and each selects its own: "objectclass" the object class, every other name the field it names |
| LdifRecord.Put | main.go:430-456 | one case of the switch: the chosen field takes the value and every other field keeps its value |
| LdifRecord.Set | main.go:429-457 | a recognised name overwrites its own field and no other; an unrecognised name leaves the record unchanged |
| LdifRecord.PutOverwrites | main.go:429-457 | setting a field twice is the same as setting it once to the later value |
| LdifRecord.PutCommutes | main.go:429-457 | setting two different fields gives the same record in either order |
| LdifRecord.NameReadBack | main.go:433-456 | every written attribute name except "objectClass" is read back as its own field; "objectClass" is not recognised |
| LdifRecord.NameInjective | main.go:738-764 | different fields are written under different names |
| LdifRecord.NameShape | main.go:738-764 | each written name is non-empty, has no white space at either end, contains no ':' and does not start with '#' |
| LdifRecord.Filled | main.go:742-765 | the kept fields are exactly the given fields whose value is non-empty, with no duplicates if the input had none |
| LdifRecord.FilledInOrder | main.go:742-765 | any two kept fields occur in the given fields in the same order, so the optional attributes go out as title, mail, givenName, initials, telephoneNumber, l, postalAddress, o |
| LdifParser.ClassifyMeaning | main.go:406-424 | a line is blank exactly when it trims to nothing, a comment exactly when it trims to something starting with '#', and skipped as malformed exactly when the trimmed line has no ':' |
| LdifParser.ClassifyKey | main.go:421-457 | a key that is not recognised contains no ':' and selects no field |
| LdifParser.ClassifyValue | main.go:426-427 | the value stored in a field has no white space at either end |
| LdifParser.ClassifyAttributeLine | main.go:421-457 | a line written as "key: value" with a plain key and a trimmed value is read as exactly that key and value |
| LdifParser.Step | main.go:408-457 | comments, lines without ':' and unrecognised keys change nothing; a blank line outside a record changes nothing; a blank line inside one emits the record and resets the accumulator; the accumulator changes only on an attribute line or an emission |
| LdifParser.ParseLdif | main.go:393-469 | the loop returns the records of the fold of the line steps plus the record still open at end of input |
| LdifParser.SetIsStep | main.go:429-432 | overwriting the field and raising the flag on "dn" is the step on a key/value line |
| LdifParser.RunKeepsEntries | main.go:410 | records are only ever appended, so earlier output is a prefix of later output |
| LdifParser.CommentTransparent | main.go:417-419 | inserting a comment line anywhere, inside a record or not, leaves the parsed records unchanged |
| LdifParser.CommentsIgnored | main.go:417-419 | removing every comment line leaves the parsed records unchanged |
| LdifParser.StepsCommute | main.go:429-457 | two non-blank lines that do not set the same field have the same effect in either order |
| LdifParser.KeyOrderIndependent | main.go:429-457 | swapping two adjacent lines that are not blank and do not set the same field gives the same records |
| LdifParser.LaterKeyWins | main.go:429-457 | of two adjacent lines setting the same field, a second dn: included, the first has no effect |
| LdifParser.InEntryIffOpenBlock | main.go:408-432 | the in-record flag is set exactly when some dn: line has no blank line after it |
| LdifParser.EmittedAtClosings | main.go:408-415 | the number of records emitted in the loop is the number of blank lines that close an open record |
| LdifParser.RecordCount | main.go:405-462 | the parser returns one record per blank line that closes an open block, plus one if a block is still open at end of input |
| LdifParser.DnLessFieldsCarryOver | main.go:408-415 | a field line, a blank line and a dn: line give one record holding both the field and the DN |
| OrgTree.OrgDeptSplit | main.go:489-494 | with a ',' the organisation and the department are the trimmed parts before and after the first one |
| OrgTree.OrgWithoutDept | main.go:489-494 | without a ',' the trimmed value is the organisation and there is no department; an organisation name never contains ',' |
| OrgTree.AddOne | main.go:519-536 | adding one name creates the child only when it is missing and otherwise keeps the existing child with everything below it |
| OrgTree.BuildOrgTree | main.go:477-541 | the loop returns the tree obtained by adding each record's organisation/department/unit path in turn to the empty root |
| OrgTree.AddPathPaths | main.go:496-537 | after find-or-create along a path, the tree has exactly its old paths plus the prefixes of the added path |
| OrgTree.AddPathHas | main.go:496-537 | the added path is present afterwards |
| OrgTree.AddPathPresent | main.go:496-537 | adding a path that is already present changes nothing |
| OrgTree.AddPathCommutes | main.go:496-537 | two paths added in either order give the same tree |
| OrgTree.SwapNeighbours | main.go:483-538 | swapping two adjacent records leaves the tree unchanged |
| OrgTree.TreePaths | main.go:477-541 | the tree's paths are exactly the empty path and the prefixes of the records' paths |
| OrgTree.SkippedRecord | main.go:484-487 | a record with an empty organisation or the organisation "filial" adds nothing |
| OrgTree.RepeatedRecord | main.go:496-537 | a record filed under the same names as an earlier one adds nothing, so feeding a record twice is feeding it once |
| OrgTree.TreeWellFormed | main.go:477-541 | the root is "Organization" and every node carries the name it is filed under, so names are unique among siblings |
| OrgTree.PathLength | main.go:489-537 | a record is filed at most three levels deep, and at most two when its organisation has no ',' |
| OrgTree.TreeDepth | main.go:489-537 | the tree is at most three levels deep below the root, and at most two when no organisation contains ',' |
| DirectorySync.EntryDNInUnit | main.go:735 | the text of an added entry's DN is "cn=", the cn, a comma, then the base that the delete pass searches; cn is inserted unescaped, so this is a statement about the text, not about the DN's parent |
| DirectorySync.EntryDNInjective | main.go:735 | two records get the same DN only when they have the same cn |
| DirectorySync.AddAttributes | main.go:738-765 | the add request carries one attribute per sent field, in the order sent, each under the field's LDAP name |
| DirectorySync.AlwaysSent | main.go:738-741 | the first four attributes are always objectClass=inetOrgPerson, sn, cn and ou |
| DirectorySync.OptionalSentIffFilled | main.go:742-765 | each of title, mail, givenName, initials, telephoneNumber, l, postalAddress and o is sent exactly when it is non-empty |
| DirectorySync.FilledIsSent | main.go:742-765 | a non-empty optional field is sent |
| DirectorySync.SentOptionalIsFilled | main.go:742-765 | an optional field that is sent is non-empty |
| DirectorySync.SentFieldsDistinct | main.go:738-765 | no field is sent twice |
| DirectorySync.AttributeNamesDistinct | main.go:738-765 | no attribute name occurs twice in an add request |
| DirectorySync.StopFrom | main.go:696-711 | the stopping iteration is the first one that sees cancellation or is refused, or the end |
| DirectorySync.Counts | main.go:706-710 | after i successful requests, the reports are 1/total up to i/total |
| DirectorySync.DeleteRequests | main.go:696-704 | one delete per listed DN, in the order listed |
| DirectorySync.AddRequests | main.go:730-769 | one add per record, in record order |
| DirectorySync.DeleteOldEntries | main.go:670-715 | connect, bind and search failures end the pass before any delete; then the loop sends, reports and stops as the shared loop specification says |
| DirectorySync.AddNewEntries | main.go:717-779 | connect and bind failures end the pass before any add; then the loop sends, reports and stops as the shared loop specification says |
| DirectorySync.StopsAt | main.go:696-711 | the pass stops at iteration i when every earlier iteration went on and iteration i does not |
| DirectorySync.CancelStops | main.go:697-699 | cancellation seen at iteration i: requests 0..i-1 were sent, none from i on, i successes reported, and the pass fails as canceled |
| DirectorySync.RefusalStops | main.go:702-704 | a refused request i: requests 0..i were sent, none after it, i successes reported, and the error names request i |
| DirectorySync.DoneIffAllProceed | main.go:696-714 | a pass succeeds exactly when no iteration sees cancellation and no request is refused, and it has then sent and reported every request |
| DirectorySync.SentInOrder | main.go:696-711 | whatever happens, the requests sent are a prefix of the requests in order, and report j is (j+1)/total after a request that went through |
| DirectorySync.SameDNSecondRefused | main.go:730-769 | two records with the same DN, the second refused because the first add created it: both adds are sent, one success is reported, and the pass fails naming the shared DN |
| DirectorySync.AddRefusalNamesEntry | main.go:767-769 | a refused add names the DN of some record i, and exactly the adds for records 0..i were sent |
| DirectorySync.LoadData | main.go:299-345 | the handler refuses without a target unit, then runs the delete pass on its connection, stops on its failure or on a cancel between the passes, and otherwise runs the add pass on the parsed records over a second connection |
| DirectorySync.AddConnectionFails | main.go:717-727 | after a successful delete pass, a failure to connect or bind the add pass's own connection sends no add and is reported as that failure |
| DirectorySync.AddsOnlyAfterDeletion | main.go:322-334 | an add is sent only when a target unit was chosen, the delete pass succeeded and the user did not cancel between the passes |
| DirectorySync.LoadedSendsEverything | main.go:299-345 | a successful load sent the search, a delete for every listed entry, then an add for every parsed record in file order |
| LdifExport.PrefixIsName | main.go:1051-1082 | each written line starts with the field's LDAP name followed by ": " |
| LdifExport.PrefixInjective | main.go:1051-1082 | two written lines with the same text belong to the same field and carry the same value |
| LdifExport.HeaderText | main.go:1051-1054 | the four header writes produce the dn, objectClass, cn and sn lines, in that order |
| LdifExport.WrittenInOrder | main.go:1051-1082 | the block text is the four header lines followed by the text of each optional field in the order ou, title, mail, givenName, initials, telephoneNumber, l, postalAddress, o |
| LdifExport.WrittenIsJoined | main.go:1056-1082 | the block text so far is the header lines and the lines of the non-empty optional fields, each ended by a newline |
| LdifExport.FinishRecord | main.go:1083 | the final empty line completes the record's block of lines |
| LdifExport.WriteIfSet | main.go:1056-1058 | an optional line is appended exactly when its value is non-empty, and nothing else changes |
| LdifExport.WriteRecord | main.go:1050-1084 | one iteration appends exactly the record's block: header lines, non-empty optional lines, then an empty line |
| LdifExport.ExportToLdif | main.go:1049-1084 | the buffer holds the blocks of all records in order, each line ended by a newline |
| LdifExport.JoinedAppend | main.go:1049-1084 | the text of two runs of lines is the text of one followed by the other |
| LdifExport.NotInHeader | main.go:1051-1054 | no header line is the line of an optional field |
| LdifExport.InOptionalLines | main.go:1056-1082 | among the optional lines of the filled fields, a field's line is present exactly when its value is non-empty |
| LdifExport.OptionalLineIff | main.go:1056-1082 | an optional field's line is in the record's block exactly when the field is non-empty |
| RoundTrip.ReimportedAll | main.go:1050-1084 | one read-back record per exported record, in order |
| RoundTrip.PrefixedLine | main.go:421-457 | a written attribute line with a trimmed value is read back as its field and value, except objectClass, which is read as an unrecognised name |
| RoundTrip.HeaderLineKinds | main.go:1051-1054 | the parser reads the dn, cn and sn header lines as those fields and the objectClass line as an unrecognised name |
| RoundTrip.HeaderRun | main.go:1051-1054 | outside a record, the four header lines open a record holding the DN, cn and sn |
| RoundTrip.OptionalRun | main.go:1056-1082 | after the header, the optional lines fill every remaining field of the record |
| RoundTrip.EntryRun | main.go:1050-1083 | one exported block read from outside a record emits exactly the read-back record and leaves no record open |
| RoundTrip.ReimportedFields | main.go:1056-1082 | copying the non-empty optional fields onto the header record gives the read-back record |
| RoundTrip.PutsGet | main.go:429-457 | after a run of attribute lines, each field holds its last value from the run, or its earlier value if the run does not set it |
| RoundTrip.ExportRoundTrip | main.go:1049-1084 | parsing the exported lines gives back every record in order with every field, the DN wrapped as cn=<dn>,<baseDN> and no object class |

## Left out

- File I/O: opening the LDIF file, the scanner's read errors and 64 KB
  line limit, creating and writing the export file, and the file-name
  checks in the handler. The parser takes the file as its lines, already
  split. The export ends at the text of the buffer.
- RoundTrip.ExportRoundTrip: stated on lines, not on the written text.
  Splitting the text back into lines is not modelled, so values that
  contain a newline are not covered. Values must have no white space at
  either end and the base DN must be trimmed, because the parser's
  TrimSpace would alter them.
- Invalid UTF-8 is not modelled: strings are sequences of code points.
  `strings.TrimSpace` is modelled with the exact white-space set of
  `unicode.IsSpace`.
- The GUI: windows, dialogs, file choosers, the tree view, and reading
  the settings from the form. The settings are an immutable `Config`
  parameter instead of the global `config`.
- The LDAP client calls (`Dial`, `Bind`, `Search`, `Del`, `Add`,
  `getOUs`). A `Directory` oracle answers them, one per connection. It
  does not compute the server's state: which iterations of each pass are refused is the
  oracle's input, so the model does not derive a refusal from the
  deletes and adds sent before it.
- The goroutine, the progress dialog's mutex and `glib.IdleAdd`. The
  cancel button becomes one boolean per loop iteration, plus one
  boolean for the check between the passes.
- The floating-point progress fraction. Only the integer `i+1`/`total`
  counts are kept.
- The text of error messages. A failure is the `SyncError` value that
  identifies it: connect, bind, search, cancel, or the refused request.
- DN syntax: DNs are text. The cn and the target unit are inserted
  without escaping (main.go:735), so a cn holding a comma gives a DN
  whose parent is not the searched unit; the model neither parses DNs
  nor states anything about their hierarchy.
- The empty `if len(entries) == 0 {}` in the handler: it does nothing.
- How the export is reached: its only call, at main.go:582, is
  commented out. The model covers what the body of `exportToLDIF` does.
- `exportTreeToLDIF`: its body is commented out, so it has no behaviour.
  `populateTreeStore` and `showTreeWindow` are presentation only.
- OrgTree: nodes are values, not shared pointers. The source never
  shares a node between two parents, so nothing observable is lost. Map
  iteration order, which only affects display, is not modelled.
