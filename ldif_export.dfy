/** exportToLDIF: the records written back out as flat LDIF, one block of
    "name: value" lines per record followed by an empty line. The buffer is
    the text written so far; choosing and writing the file is not modelled. */
module LdifExport {
  import opened Text
  import opened Sequences
  import opened LdifRecord
  import LdifParser

  /** The fields written only when they are not empty, in the order written. */
  const ExportOptional := [Ou, Title, Mail, GivenName, Initials, TelephoneNumber, L, PostalAddress, O]

  /** The start of an attribute line, "name: ", as the format strings of
      exportToLDIF spell it out. The literals are kept as written there
      rather than derived from Name, so that a misspelt name would show up
      as a failure of PrefixIsName, which ties each one to the name the
      parser and the add request use. */
  function Prefix(f: Field): string {
    match f
    case Dn => "dn: "
    case ObjectClass => "objectClass: "
    case Sn => "sn: "
    case Cn => "cn: "
    case Ou => "ou: "
    case Title => "title: "
    case Mail => "mail: "
    case GivenName => "givenName: "
    case Initials => "initials: "
    case TelephoneNumber => "telephoneNumber: "
    case L => "l: "
    case PostalAddress => "postalAddress: "
    case O => "o: "
  }

  /** Each line starts with the field's LDAP name and ": ". */
  lemma PrefixIsName(f: Field)
    ensures Prefix(f) == Name(f) + ": "
  {
  }

  /** The DN written for a record: its dn value made the cn of an entry
      directly under the base DN. */
  function DnValue(e: LdifEntry, baseDN: string): string {
    "cn=" + e.dn + "," + baseDN
  }

  function OptionalLines(e: LdifEntry, fs: seq<Field>): (r: seq<string>)
    ensures |r| == |fs|
    ensures forall i :: 0 <= i < |fs| ==> r[i] == Prefix(fs[i]) + Get(e, fs[i])
  {
    seq(|fs|, i requires 0 <= i < |fs| => Prefix(fs[i]) + Get(e, fs[i]))
  }

  /** The four lines written for every record. */
  function Header(e: LdifEntry, baseDN: string): seq<string> {
    [Prefix(Dn) + DnValue(e, baseDN), Prefix(ObjectClass) + "inetOrgPerson", Prefix(Cn) + e.cn, Prefix(Sn) + e.sn]
  }

  /** The block written for one record: dn, objectClass, cn and sn always,
      then each optional field that is not empty, then an empty line. */
  function EntryLines(e: LdifEntry, baseDN: string): seq<string> {
    Header(e, baseDN) + OptionalLines(e, Filled(e, ExportOptional)) + [""]
  }

  /** The lines written for the records, in order. */
  function ExportLines(entries: seq<LdifEntry>, baseDN: string): seq<string> {
    if entries == [] then []
    else ExportLines(entries[..|entries| - 1], baseDN) + EntryLines(entries[|entries| - 1], baseDN)
  }

  lemma ExportLast(entries: seq<LdifEntry>, e: LdifEntry, baseDN: string)
    ensures ExportLines(entries + [e], baseDN) == ExportLines(entries, baseDN) + EntryLines(e, baseDN)
  {
    DropLastAppend(entries, [e]);
  }

  /** The text of some lines, each ended by a newline. */
  function Joined(lines: seq<string>): string {
    if lines == [] then []
    else Joined(lines[..|lines| - 1]) + (lines[|lines| - 1] + "\n")
  }

  /** Writing one more line onto text already written. */
  lemma WriteLine(start: string, lines: seq<string>, line: string)
    ensures start + Joined(lines) + (line + "\n") == start + Joined(lines + [line])
  {
    DropLastAppend(lines, [line]);
  }

  lemma {:induction false} JoinedAppend(a: seq<string>, b: seq<string>)
    ensures Joined(a + b) == Joined(a) + Joined(b)
    decreases |b|
  {
    if b == [] {
      assert a + b == a;
    } else {
      DropLastAppend(a, b);
      JoinedAppend(a, b[..|b| - 1]);
    }
  }

  /** The text written for one optional field: its line when the value is
      not empty, nothing otherwise. */
  function OptionalText(f: Field, value: string): string {
    if value != [] then Prefix(f) + value + "\n" else []
  }

  /** The text of a record's block so far: the header, then the text of
      each of the fields done. */
  function Written(e: LdifEntry, baseDN: string, done: seq<Field>): string {
    if done == [] then Joined(Header(e, baseDN))
    else
      var f := done[|done| - 1];
      Written(e, baseDN, done[..|done| - 1]) + OptionalText(f, Get(e, f))
  }

  lemma WrittenLast(e: LdifEntry, baseDN: string, start: string, done: seq<Field>, f: Field, next: seq<Field>)
    requires next == done + [f]
    ensures start + Written(e, baseDN, next) == start + Written(e, baseDN, done) + OptionalText(f, Get(e, f))
  {
    DropLastAppend(done, [f]);
  }

  lemma FilledLast(e: LdifEntry, fs: seq<Field>, f: Field)
    ensures Filled(e, fs + [f]) == Filled(e, fs) + (if Get(e, f) != [] then [f] else [])
  {
    DropLastAppend(fs, [f]);
  }

  lemma OptionalLinesLast(e: LdifEntry, fs: seq<Field>, f: Field)
    ensures OptionalLines(e, fs + [f]) == OptionalLines(e, fs) + [Prefix(f) + Get(e, f)]
  {
  }

  lemma JoinedFour(a: string, b: string, c: string, d: string)
    ensures Joined([a, b, c, d]) == (a + "\n") + (b + "\n") + (c + "\n") + (d + "\n")
  {
    WriteLine([], [a, b, c], d);
    WriteLine([], [a, b], c);
    WriteLine([], [a], b);
    WriteLine([], [], a);
    assert [a, b, c] + [d] == [a, b, c, d];
    assert [a, b] + [c] == [a, b, c];
    assert [a] + [b] == [a, b];
    assert [] + [a] == [a];
  }

  lemma HeaderText(e: LdifEntry, baseDN: string, start: string)
    ensures start + Joined(Header(e, baseDN))
            == start + ("dn: cn=" + e.dn + "," + baseDN + "\n") + "objectClass: inetOrgPerson\n"
               + ("cn: " + e.cn + "\n") + ("sn: " + e.sn + "\n")
  {
    var a, b, c, d := Prefix(Dn) + DnValue(e, baseDN), Prefix(ObjectClass) + "inetOrgPerson", Prefix(Cn) + e.cn, Prefix(Sn) + e.sn;
    JoinedFour(a, b, c, d);
    assert a + "\n" == "dn: cn=" + e.dn + "," + baseDN + "\n";
    assert b + "\n" == "objectClass: inetOrgPerson\n";
  }

  /** The record's block as the loop body writes it: the four header
      lines, then the text of each optional field in turn. */
  lemma WrittenInOrder(e: LdifEntry, baseDN: string, start: string)
    ensures start + Written(e, baseDN, ExportOptional)
            == start + ("dn: cn=" + e.dn + "," + baseDN + "\n") + "objectClass: inetOrgPerson\n"
               + ("cn: " + e.cn + "\n") + ("sn: " + e.sn + "\n") + OptionalText(Ou, e.ou) + OptionalText(Title, e.title)
               + OptionalText(Mail, e.mail) + OptionalText(GivenName, e.givenName)
               + OptionalText(Initials, e.initials) + OptionalText(TelephoneNumber, e.telephoneNumber)
               + OptionalText(L, e.l) + OptionalText(PostalAddress, e.postalAddress) + OptionalText(O, e.o)
  {
    HeaderText(e, baseDN, start);
    WrittenLast(e, baseDN, start, [], Ou, [Ou]);
    WrittenLast(e, baseDN, start, [Ou], Title, [Ou, Title]);
    WrittenLast(e, baseDN, start, [Ou, Title], Mail, [Ou, Title, Mail]);
    WrittenLast(e, baseDN, start, [Ou, Title, Mail], GivenName, [Ou, Title, Mail, GivenName]);
    WrittenLast(e, baseDN, start, [Ou, Title, Mail, GivenName], Initials, [Ou, Title, Mail, GivenName, Initials]);
    WrittenLast(e, baseDN, start, [Ou, Title, Mail, GivenName, Initials], TelephoneNumber, [Ou, Title, Mail, GivenName, Initials, TelephoneNumber]);
    WrittenLast(e, baseDN, start, [Ou, Title, Mail, GivenName, Initials, TelephoneNumber], L, [Ou, Title, Mail, GivenName, Initials, TelephoneNumber, L]);
    WrittenLast(e, baseDN, start, [Ou, Title, Mail, GivenName, Initials, TelephoneNumber, L], PostalAddress, [Ou, Title, Mail, GivenName, Initials, TelephoneNumber, L, PostalAddress]);
    WrittenLast(e, baseDN, start, [Ou, Title, Mail, GivenName, Initials, TelephoneNumber, L, PostalAddress], O, ExportOptional);
  }

  /** The block text is the header and the optional lines of the filled
      fields, each ended by a newline. */
  lemma {:induction false} WrittenIsJoined(e: LdifEntry, baseDN: string, done: seq<Field>)
    ensures Written(e, baseDN, done) == Joined(Header(e, baseDN) + OptionalLines(e, Filled(e, done)))
    decreases |done|
  {
    if done == [] {
      assert OptionalLines(e, Filled(e, [])) == [];
      assert Header(e, baseDN) + [] == Header(e, baseDN);
    } else {
      var init, f := done[..|done| - 1], done[|done| - 1];
      assert done == init + [f];
      WrittenIsJoined(e, baseDN, init);
      WrittenLast(e, baseDN, [], init, f, done);
      FilledLast(e, init, f);
      var before := Header(e, baseDN) + OptionalLines(e, Filled(e, init));
      if Get(e, f) != [] {
        var line := Prefix(f) + Get(e, f);
        OptionalLinesLast(e, Filled(e, init), f);
        assert Header(e, baseDN) + OptionalLines(e, Filled(e, done)) == before + [line];
        WriteLine([], before, line);
      } else {
        assert Filled(e, done) == Filled(e, init) + [];
        assert Filled(e, init) + [] == Filled(e, init);
      }
    }
  }

  /** The end of a record's block: the empty line. */
  lemma FinishRecord(e: LdifEntry, baseDN: string, start: string, buf: string)
    requires buf == start + Written(e, baseDN, ExportOptional)
    ensures buf + "\n" == start + Joined(EntryLines(e, baseDN))
  {
    WrittenIsJoined(e, baseDN, ExportOptional);
    WriteLine(start, Header(e, baseDN) + OptionalLines(e, Filled(e, ExportOptional)), "");
  }

  /** The optional fields are exactly those outside the header. */
  lemma OptionalMembers()
    ensures forall g :: g in ExportOptional <==> g != Dn && g != ObjectClass && g != Cn && g != Sn
  {
  }

  lemma ColonSpace(n: string, v: string)
    ensures (n + ": ") + v == n + [':'] + ([' '] + v)
  {
  }

  /** A written line names its field: two lines with the same text belong
      to the same field and carry the same value. */
  lemma PrefixInjective(f: Field, g: Field, v: string, w: string)
    requires Prefix(f) + v == Prefix(g) + w
    ensures f == g && v == w
  {
    PrefixIsName(f);
    PrefixIsName(g);
    NameShape(f);
    NameShape(g);
    ColonSpace(Name(f), v);
    ColonSpace(Name(g), w);
    SeparatorUnique(Name(f), [' '] + v, Name(g), [' '] + w, ':');
    if f != g {
      NameInjective(f, g);
    }
    assert v == ([' '] + v)[1..];
  }

  /** No header line is an optional field's line. */
  lemma NotInHeader(e: LdifEntry, baseDN: string, f: Field, line: string)
    requires f != Dn && f != ObjectClass && f != Cn && f != Sn
    requires line == Prefix(f) + Get(e, f)
    ensures line !in Header(e, baseDN)
  {
    var h := Header(e, baseDN);
    if line == h[0] {
      PrefixInjective(f, Dn, Get(e, f), DnValue(e, baseDN));
    }
    if line == h[1] {
      PrefixInjective(f, ObjectClass, Get(e, f), "inetOrgPerson");
    }
    if line == h[2] {
      PrefixInjective(f, Cn, Get(e, f), e.cn);
    }
    if line == h[3] {
      PrefixInjective(f, Sn, Get(e, f), e.sn);
    }
  }

  /** Among the optional lines of the filled fields, a field's line is
      there exactly when its value is not empty. */
  lemma InOptionalLines(e: LdifEntry, f: Field, fs: seq<Field>, line: string)
    requires forall g :: g in fs <==> g in ExportOptional && Get(e, g) != []
    requires f in ExportOptional && line == Prefix(f) + Get(e, f)
    ensures line in OptionalLines(e, fs) <==> Get(e, f) != []
  {
    var o := OptionalLines(e, fs);
    if Get(e, f) != [] {
      var i :| 0 <= i < |fs| && fs[i] == f;
      assert o[i] == line;
    }
    if line in o {
      var j :| 0 <= j < |o| && o[j] == line;
      PrefixInjective(f, fs[j], Get(e, f), Get(e, fs[j]));
    }
  }

  /** An optional field's line is in the record's block exactly when its
      value is not empty. */
  lemma OptionalLineIff(e: LdifEntry, baseDN: string, f: Field)
    requires f in ExportOptional
    ensures Prefix(f) + Get(e, f) in EntryLines(e, baseDN) <==> Get(e, f) != []
  {
    var line := Prefix(f) + Get(e, f);
    var h, o := Header(e, baseDN), OptionalLines(e, Filled(e, ExportOptional));
    OptionalMembers();
    NotInHeader(e, baseDN, f, line);
    InOptionalLines(e, f, Filled(e, ExportOptional), line);
    assert line != "";
    assert line in h + o + [""] <==> line in h || line in o || line == "";
  }

  /** One optional attribute: its line is appended only when the value is
      not empty. */
  method WriteIfSet(buf: string, f: Field, value: string) returns (out: string)
    ensures out == buf + OptionalText(f, value)
  {
    out := buf;
    if value != "" {
      out := out + (Prefix(f) + value + "\n");
    }
  }

  /** The body of exportToLDIF's loop: the block of one record appended to
      the buffer, one WriteString per line. */
  method WriteRecord(start: string, entry: LdifEntry, baseDN: string) returns (buf: string)
    ensures buf == start + Joined(EntryLines(entry, baseDN))
  {
    buf := start;
    buf := buf + ("dn: cn=" + entry.dn + "," + baseDN + "\n");
    buf := buf + "objectClass: inetOrgPerson\n";
    buf := buf + ("cn: " + entry.cn + "\n");
    buf := buf + ("sn: " + entry.sn + "\n");
    buf := WriteIfSet(buf, Ou, entry.ou);
    buf := WriteIfSet(buf, Title, entry.title);
    buf := WriteIfSet(buf, Mail, entry.mail);
    buf := WriteIfSet(buf, GivenName, entry.givenName);
    buf := WriteIfSet(buf, Initials, entry.initials);
    buf := WriteIfSet(buf, TelephoneNumber, entry.telephoneNumber);
    buf := WriteIfSet(buf, L, entry.l);
    buf := WriteIfSet(buf, PostalAddress, entry.postalAddress);
    buf := WriteIfSet(buf, O, entry.o);
    WrittenInOrder(entry, baseDN, start);
    FinishRecord(entry, baseDN, start, buf);
    buf := buf + "\n";
  }

  /** exportToLDIF's loop: the blocks of the records, in order. */
  method ExportToLdif(entries: seq<LdifEntry>, baseDN: string) returns (buf: string)
    ensures buf == Joined(ExportLines(entries, baseDN))
  {
    buf := [];
    for i := 0 to |entries|
      invariant buf == Joined(ExportLines(entries[..i], baseDN))
    {
      buf := WriteRecord(buf, entries[i], baseDN);
      TakeNext(entries, i);
      ExportLast(entries[..i], entries[i], baseDN);
      JoinedAppend(ExportLines(entries[..i], baseDN), EntryLines(entries[i], baseDN));
    }
    assert entries[..|entries|] == entries;
  }
}
