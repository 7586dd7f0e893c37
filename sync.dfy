/** The two synchronisation passes run by the "Load data" button:
    deleteOldEntries empties the target unit of the address book, then
    addNewEntries writes one entry per imported record. The LDAP server is an
    oracle: which addresses answer, which credentials bind, what a search
    lists and which iterations of each pass it refuses. What each pass does is the list of
    requests it sends on its connection, the progress it reports and how it
    ends. */
module DirectorySync {
  import opened Text
  import opened Sequences
  import opened LdifRecord
  import LdifParser

  /** The connection settings of the main window. */
  datatype Config = Config(host: string, port: string, bindDN: string, password: string, baseDN: string)

  /** One attribute of an add request, with its single value. */
  datatype Attribute = Attribute(name: string, value: string)

  /** A request sent to the server. */
  datatype Op = Search(base: string, filter: string) | Delete(dn: string) | Add(dn: string, attributes: seq<Attribute>)

  /** The server as seen through one connection. A search of a base that is not a
      key of listings fails; otherwise it lists the DNs found there. The
      server refuses the delete sent at iteration i of the delete pass when
      i is in refusedDeletes, and the add sent at iteration i of the add
      pass when i is in refusedAdds: whether a request succeeds may depend
      on what was sent before it (an add of a DN that an earlier add
      created fails), so two equal requests may get different answers. */
  datatype Directory = Directory(
    listening: set<string>,
    accounts: set<(string, string)>,
    listings: map<string, seq<string>>,
    refusedDeletes: set<nat>,
    refusedAdds: set<nat>)

  /** The "Deleting entries... i/total" and "Adding entries... i/total"
      counts. */
  datatype Progress = Progress(done: nat, total: nat)

  datatype SyncError = ConnectFailed | BindFailed | SearchFailed | Canceled | Refused(op: Op)

  datatype Outcome = Done | Failed(error: SyncError)

  /** The requests sent, the progress reported and how a pass ended. */
  datatype Run = Run(sent: seq<Op>, progress: seq<Progress>, outcome: Outcome)

  /** The dial address "host:port". */
  function Address(config: Config): string {
    config.host + ":" + config.port
  }

  /** The unit that receives the imported records. */
  function UnitBase(targetOU: string, baseDN: string): string {
    "ou=" + targetOU + ",ou=abook," + baseDN
  }

  const PersonFilter := "(objectClass=inetOrgPerson)"

  /** The DN of the entry added for a record. */
  function EntryDN(e: LdifEntry, targetOU: string, baseDN: string): string {
    "cn=" + e.cn + ",ou=" + targetOU + ",ou=abook," + baseDN
  }

  /** An added entry sits directly in the unit that the delete pass lists. */
  lemma EntryDNInUnit(e: LdifEntry, targetOU: string, baseDN: string)
    ensures EntryDN(e, targetOU, baseDN) == "cn=" + e.cn + "," + UnitBase(targetOU, baseDN)
  {
  }

  /** Records with different common names get different DNs. */
  lemma EntryDNInjective(a: LdifEntry, b: LdifEntry, targetOU: string, baseDN: string)
    requires EntryDN(a, targetOU, baseDN) == EntryDN(b, targetOU, baseDN)
    ensures a.cn == b.cn
  {
    var tail := ",ou=" + targetOU + ",ou=abook," + baseDN;
    assert EntryDN(a, targetOU, baseDN) == "cn=" + a.cn + tail;
    assert EntryDN(b, targetOU, baseDN) == "cn=" + b.cn + tail;
    CancelAround("cn=", a.cn, b.cn, tail);
  }

  /** The fields sent only when they are not empty, in the order they are sent. */
  const OptionalFields := [Title, Mail, GivenName, Initials, TelephoneNumber, L, PostalAddress, O]

  /** The always-sent fields, then the optional ones that are not empty. */
  function SentFields(e: LdifEntry): seq<Field> {
    [ObjectClass, Sn, Cn, Ou] + Filled(e, OptionalFields)
  }

  /** The value sent for a field; the object class is always inetOrgPerson. */
  function SentValue(e: LdifEntry, f: Field): string {
    if f == ObjectClass then "inetOrgPerson" else Get(e, f)
  }

  function FieldAttribute(e: LdifEntry, f: Field): Attribute {
    Attribute(Name(f), SentValue(e, f))
  }

  /** The attributes of the add request for a record: the object class and
      sn, cn and ou always, then each optional field that is not empty. */
  function AddAttributes(e: LdifEntry): (r: seq<Attribute>)
    ensures |r| == |SentFields(e)|
    ensures forall i :: 0 <= i < |r| ==> r[i] == FieldAttribute(e, SentFields(e)[i])
  {
    var fields := SentFields(e);
    seq(|fields|, i requires 0 <= i < |fields| => FieldAttribute(e, fields[i]))
  }

  /** The first four attributes are always objectClass=inetOrgPerson, sn,
      cn and ou. */
  lemma AlwaysSent(e: LdifEntry)
    ensures |AddAttributes(e)| >= 4
    ensures AddAttributes(e)[..4] == [Attribute("objectClass", "inetOrgPerson"), Attribute("sn", e.sn),
                                      Attribute("cn", e.cn), Attribute("ou", e.ou)]
  {
  }

  /** An optional field is sent exactly when it is not empty. */
  lemma OptionalSentIffFilled(e: LdifEntry, f: Field)
    requires f in OptionalFields
    ensures FieldAttribute(e, f) in AddAttributes(e) <==> Get(e, f) != []
  {
    if Get(e, f) != [] {
      FilledIsSent(e, f);
    }
    if FieldAttribute(e, f) in AddAttributes(e) {
      var i :| 0 <= i < |AddAttributes(e)| && AddAttributes(e)[i] == FieldAttribute(e, f);
      if SentFields(e)[i] != f {
        NameInjective(SentFields(e)[i], f);
      }
      SentOptionalIsFilled(e, i);
    }
  }

  lemma FilledIsSent(e: LdifEntry, f: Field)
    requires f in OptionalFields && Get(e, f) != []
    ensures FieldAttribute(e, f) in AddAttributes(e)
  {
    var optional := Filled(e, OptionalFields);
    var i :| 0 <= i < |optional| && optional[i] == f;
    assert SentFields(e)[4 + i] == f;
    assert AddAttributes(e)[4 + i] == FieldAttribute(e, f);
  }

  lemma SentOptionalIsFilled(e: LdifEntry, i: nat)
    requires i < |SentFields(e)| && SentFields(e)[i] in OptionalFields
    ensures Get(e, SentFields(e)[i]) != []
  {
    var fields := SentFields(e);
    var optional := Filled(e, OptionalFields);
    assert fields[0] == ObjectClass && fields[1] == Sn && fields[2] == Cn && fields[3] == Ou;
    assert i != 0 && i != 1 && i != 2 && i != 3;
    assert fields[i] == optional[i - 4];
  }

  /** No field is sent twice. */
  lemma SentFieldsDistinct(e: LdifEntry)
    ensures NoDuplicates(SentFields(e))
  {
    var optional := Filled(e, OptionalFields);
    var fields := SentFields(e);
    assert NoDuplicates(OptionalFields);
    forall i, j | 0 <= i < j < |fields|
      ensures fields[i] != fields[j]
    {
      if j >= 4 {
        assert fields[j] == optional[j - 4];
        assert fields[j] in optional;
      }
      if i >= 4 {
        assert fields[i] == optional[i - 4];
      }
    }
  }

  /** No attribute is sent twice. */
  lemma AttributeNamesDistinct(e: LdifEntry)
    ensures forall i, j :: 0 <= i < j < |AddAttributes(e)| ==> AddAttributes(e)[i].name != AddAttributes(e)[j].name
  {
    var r := AddAttributes(e);
    var fields := SentFields(e);
    SentFieldsDistinct(e);
    forall i, j | 0 <= i < j < |r|
      ensures r[i].name != r[j].name
    {
      assert r[i].name == Name(fields[i]) && r[j].name == Name(fields[j]);
      NameInjective(fields[i], fields[j]);
    }
  }

  function AddRequest(e: LdifEntry, targetOU: string, baseDN: string): Op {
    Add(EntryDN(e, targetOU, baseDN), AddAttributes(e))
  }

  /** Cancellation as sampled at the start of iteration i; the dialog is
      not canceled at iterations beyond the samples. */
  predicate CanceledAt(canceled: seq<bool>, i: nat) {
    i < |canceled| && canceled[i]
  }

  /** Iteration i of a pass sends its request and goes on to the next one. */
  predicate Proceeds(ops: seq<Op>, canceled: seq<bool>, refused: set<nat>, i: nat) {
    i < |ops| && !CanceledAt(canceled, i) && i !in refused
  }

  /** The iteration at which a pass stops, from iteration i on: the first
      that observes cancellation or is refused, or |ops|. */
  function StopFrom(ops: seq<Op>, canceled: seq<bool>, refused: set<nat>, i: nat): (k: nat)
    requires i <= |ops|
    ensures i <= k <= |ops|
    ensures forall j :: i <= j < k ==> Proceeds(ops, canceled, refused, j)
    ensures k < |ops| ==> !Proceeds(ops, canceled, refused, k)
    decreases |ops| - i
  {
    if i == |ops| || !Proceeds(ops, canceled, refused, i) then i
    else StopFrom(ops, canceled, refused, i + 1)
  }

  /** The loop shared by both passes: before each request, stop if the
      user has canceled; send the request; stop at the first refusal;
      report i+1 of the total after each success. */
  function Loop(ops: seq<Op>, canceled: seq<bool>, refused: set<nat>): Run {
    var k := StopFrom(ops, canceled, refused, 0);
    if k == |ops| then Run(ops, Counts(k, |ops|), Done)
    else if CanceledAt(canceled, k) then Run(ops[..k], Counts(k, |ops|), Failed(Canceled))
    else Run(ops[..k + 1], Counts(k, |ops|), Failed(Refused(ops[k])))
  }

  lemma CountsNext(n: nat, total: nat)
    ensures Counts(n + 1, total) == Counts(n, total) + [Progress(n + 1, total)]
  {
  }

  /** The progress reports after the first n of total requests. */
  function Counts(n: nat, total: nat): (r: seq<Progress>)
    ensures |r| == n
    ensures forall j :: 0 <= j < n ==> r[j] == Progress(j + 1, total)
  {
    seq(n, j requires 0 <= j < n => Progress(j + 1, total))
  }

  /** deleteOldEntries: connect, bind, list the target unit, then delete
      every entry listed. */
  function DeletePass(dir: Directory, config: Config, targetOU: string, canceled: seq<bool>): Run {
    if Address(config) !in dir.listening then Run([], [], Failed(ConnectFailed))
    else if (config.bindDN, config.password) !in dir.accounts then Run([], [], Failed(BindFailed))
    else
      var search := Search(UnitBase(targetOU, config.baseDN), PersonFilter);
      if search.base !in dir.listings then Run([search], [], Failed(SearchFailed))
      else
        var run := Loop(DeleteRequests(dir.listings[search.base]), canceled, dir.refusedDeletes);
        Run([search] + run.sent, run.progress, run.outcome)
  }

  function DeleteRequests(dns: seq<string>): (r: seq<Op>)
    ensures |r| == |dns|
    ensures forall i :: 0 <= i < |dns| ==> r[i] == Delete(dns[i])
  {
    seq(|dns|, i requires 0 <= i < |dns| => Delete(dns[i]))
  }

  /** addNewEntries: connect, bind, then add one entry per record. */
  function AddPass(dir: Directory, config: Config, targetOU: string, entries: seq<LdifEntry>, canceled: seq<bool>): Run {
    if Address(config) !in dir.listening then Run([], [], Failed(ConnectFailed))
    else if (config.bindDN, config.password) !in dir.accounts then Run([], [], Failed(BindFailed))
    else Loop(AddRequests(entries, targetOU, config.baseDN), canceled, dir.refusedAdds)
  }

  function AddRequests(entries: seq<LdifEntry>, targetOU: string, baseDN: string): (r: seq<Op>)
    ensures |r| == |entries|
    ensures forall i :: 0 <= i < |entries| ==> r[i] == AddRequest(entries[i], targetOU, baseDN)
  {
    seq(|entries|, i requires 0 <= i < |entries| => AddRequest(entries[i], targetOU, baseDN))
  }

  /** deleteOldEntries' loop over the listed entries. */
  method DeleteOldEntries(dir: Directory, config: Config, targetOU: string, canceled: seq<bool>)
    returns (sent: seq<Op>, progress: seq<Progress>, outcome: Outcome)
    ensures Run(sent, progress, outcome) == DeletePass(dir, config, targetOU, canceled)
  {
    sent := [];
    progress := [];
    if Address(config) !in dir.listening {
      outcome := Failed(ConnectFailed);
      return;
    }
    if (config.bindDN, config.password) !in dir.accounts {
      outcome := Failed(BindFailed);
      return;
    }
    var search := Search(UnitBase(targetOU, config.baseDN), PersonFilter);
    sent := [search];
    if search.base !in dir.listings {
      outcome := Failed(SearchFailed);
      return;
    }
    var found := dir.listings[search.base];
    ghost var ops := DeleteRequests(found);
    ghost var k := StopFrom(ops, canceled, dir.refusedDeletes, 0);
    var total := |found|;
    for i := 0 to |found|
      invariant i <= k
      invariant sent == [search] + ops[..i]
      invariant progress == Counts(i, total)
    {
      if CanceledAt(canceled, i) {
        assert !Proceeds(ops, canceled, dir.refusedDeletes, i);
        assert i == k;
        outcome := Failed(Canceled);
        return;
      }
      var request := Delete(found[i]);
      TakeNext(ops, i);
      sent := sent + [request];
      if i in dir.refusedDeletes {
        assert !Proceeds(ops, canceled, dir.refusedDeletes, i);
        assert i == k;
        outcome := Failed(Refused(request));
        return;
      }
      CountsNext(i, total);
      progress := progress + [Progress(i + 1, total)];
    }
    assert ops[..|found|] == ops;
    outcome := Done;
  }

  /** addNewEntries' loop over the imported records. */
  method AddNewEntries(dir: Directory, config: Config, targetOU: string, entries: seq<LdifEntry>, canceled: seq<bool>)
    returns (sent: seq<Op>, progress: seq<Progress>, outcome: Outcome)
    ensures Run(sent, progress, outcome) == AddPass(dir, config, targetOU, entries, canceled)
  {
    sent := [];
    progress := [];
    if Address(config) !in dir.listening {
      outcome := Failed(ConnectFailed);
      return;
    }
    if (config.bindDN, config.password) !in dir.accounts {
      outcome := Failed(BindFailed);
      return;
    }
    ghost var ops := AddRequests(entries, targetOU, config.baseDN);
    ghost var k := StopFrom(ops, canceled, dir.refusedAdds, 0);
    var total := |entries|;
    for i := 0 to |entries|
      invariant i <= k
      invariant sent == ops[..i]
      invariant progress == Counts(i, total)
    {
      if CanceledAt(canceled, i) {
        assert !Proceeds(ops, canceled, dir.refusedAdds, i);
        assert i == k;
        outcome := Failed(Canceled);
        return;
      }
      var entry := entries[i];
      var dn := EntryDN(entry, targetOU, config.baseDN);
      var request := Add(dn, AddAttributes(entry));
      assert request == ops[i];
      TakeNext(ops, i);
      sent := sent + [request];
      if i in dir.refusedAdds {
        assert !Proceeds(ops, canceled, dir.refusedAdds, i);
        assert i == k;
        outcome := Failed(Refused(request));
        return;
      }
      CountsNext(i, total);
      progress := progress + [Progress(i + 1, total)];
    }
    assert ops[..|entries|] == ops;
    outcome := Done;
  }

  /** The pass stops at iteration i when every iteration before it went on
      and iteration i does not. */
  lemma StopsAt(ops: seq<Op>, canceled: seq<bool>, refused: set<nat>, i: nat)
    requires i <= |ops|
    requires forall j :: 0 <= j < i ==> Proceeds(ops, canceled, refused, j)
    requires i < |ops| ==> !Proceeds(ops, canceled, refused, i)
    ensures StopFrom(ops, canceled, refused, 0) == i
  {

  }

  /** Cancellation observed at iteration i: requests 0..i-1 were sent, none
      from i on, i of them were reported, and the pass fails as canceled. */
  lemma CancelStops(ops: seq<Op>, canceled: seq<bool>, refused: set<nat>, i: nat)
    requires i < |ops| && CanceledAt(canceled, i)
    requires forall j :: 0 <= j < i ==> Proceeds(ops, canceled, refused, j)
    ensures Loop(ops, canceled, refused) == Run(ops[..i], Counts(i, |ops|), Failed(Canceled))
  {
    StopsAt(ops, canceled, refused, i);
  }

  /** A refused request i: requests 0..i were sent, none after, i were
      reported, and the error names request i. */
  lemma RefusalStops(ops: seq<Op>, canceled: seq<bool>, refused: set<nat>, i: nat)
    requires i < |ops| && !CanceledAt(canceled, i) && i in refused
    requires forall j :: 0 <= j < i ==> Proceeds(ops, canceled, refused, j)
    ensures Loop(ops, canceled, refused) == Run(ops[..i + 1], Counts(i, |ops|), Failed(Refused(ops[i])))
  {
    StopsAt(ops, canceled, refused, i);
  }

  /** A pass succeeds exactly when no iteration observes cancellation and
      no request is refused; it has then sent every request and reported
      each of them. */
  lemma DoneIffAllProceed(ops: seq<Op>, canceled: seq<bool>, refused: set<nat>)
    ensures Loop(ops, canceled, refused).outcome == Done
        <==> forall j :: 0 <= j < |ops| ==> Proceeds(ops, canceled, refused, j)
    ensures Loop(ops, canceled, refused).outcome == Done
        ==> Loop(ops, canceled, refused) == Run(ops, Counts(|ops|, |ops|), Done)
  {
    if forall j :: 0 <= j < |ops| ==> Proceeds(ops, canceled, refused, j) {
      StopsAt(ops, canceled, refused, |ops|);
    }
  }

  /** Whatever happens, the requests sent are the first ones, in order, and
      progress i+1 of the total is reported after the i-th success. */
  lemma SentInOrder(ops: seq<Op>, canceled: seq<bool>, refused: set<nat>)
    ensures Loop(ops, canceled, refused).sent <= ops
    ensures forall j :: 0 <= j < |Loop(ops, canceled, refused).progress| ==>
              (Loop(ops, canceled, refused).progress[j] == Progress(j + 1, |ops|)
               && Proceeds(ops, canceled, refused, j))
  {
  }

  /** A refused add names the DN of the record it was adding, and nothing
      after that record was sent. */
  lemma AddRefusalNamesEntry(dir: Directory, config: Config, targetOU: string, entries: seq<LdifEntry>, canceled: seq<bool>)
    requires AddPass(dir, config, targetOU, entries, canceled).outcome.Failed?
    requires AddPass(dir, config, targetOU, entries, canceled).outcome.error.Refused?
    ensures var run := AddPass(dir, config, targetOU, entries, canceled);
            exists i :: 0 <= i < |entries|
              && run.outcome.error.op.dn == EntryDN(entries[i], targetOU, config.baseDN)
              && run.sent == AddRequests(entries, targetOU, config.baseDN)[..i + 1]
  {
    var ops := AddRequests(entries, targetOU, config.baseDN);
    var k := StopFrom(ops, canceled, dir.refusedAdds, 0);
    assert ops[k] == AddRequest(entries[k], targetOU, config.baseDN);
  }

  /** Two records with the same DN, the second refused by the server
      because the first add created that DN: both adds are sent, the first
      is reported, and the pass fails naming the shared DN. */
  lemma SameDNSecondRefused(dir: Directory, config: Config, targetOU: string, a: LdifEntry, b: LdifEntry)
    requires Address(config) in dir.listening && (config.bindDN, config.password) in dir.accounts
    requires EntryDN(a, targetOU, config.baseDN) == EntryDN(b, targetOU, config.baseDN)
    requires 0 !in dir.refusedAdds && 1 in dir.refusedAdds
    ensures var run := AddPass(dir, config, targetOU, [a, b], []);
            run.sent == [AddRequest(a, targetOU, config.baseDN), AddRequest(b, targetOU, config.baseDN)]
            && run.progress == [Progress(1, 2)]
            && run.outcome == Failed(Refused(AddRequest(b, targetOU, config.baseDN)))
            && run.outcome.error.op.dn == EntryDN(a, targetOU, config.baseDN)
  {
    var ops := AddRequests([a, b], targetOU, config.baseDN);
    RefusalStops(ops, [], dir.refusedAdds, 1);
    assert ops[..2] == ops == [AddRequest(a, targetOU, config.baseDN), AddRequest(b, targetOU, config.baseDN)];
    assert Counts(1, 2) == [Progress(1, 2)];
  }

  /** How the "Load data" button ends. */
  datatype LoadResult = NoTarget | DeleteFailed(error: SyncError) | Stopped | AddFailed(error: SyncError) | Loaded

  /** The requests of both passes, in order, and how the loading ended. */
  datatype Loading = Loading(sent: seq<Op>, result: LoadResult)

  /** The "Load data" handler: refuse without a target unit, parse the file,
      empty the unit, stop quietly if the user canceled in between, then add
      the records. Each pass dials and binds its own connection, so each
      sees the server as it then is: atDelete for the delete pass, atAdd
      for the add pass. */
  function Load(atDelete: Directory, atAdd: Directory, config: Config, targetOU: string, lines: seq<string>,
                cancelDelete: seq<bool>, cancelBetween: bool, cancelAdd: seq<bool>): Loading
  {
    if targetOU == [] then Loading([], NoTarget)
    else
      var deletion := DeletePass(atDelete, config, targetOU, cancelDelete);
      if deletion.outcome.Failed? then Loading(deletion.sent, DeleteFailed(deletion.outcome.error))
      else if cancelBetween then Loading(deletion.sent, Stopped)
      else
        var addition := AddPass(atAdd, config, targetOU, LdifParser.Parse(lines), cancelAdd);
        Loading(deletion.sent + addition.sent,
                if addition.outcome.Failed? then AddFailed(addition.outcome.error) else Loaded)
  }

  /** The handler of the "Load data" button, from the lines of the chosen
      file. */
  method LoadData(atDelete: Directory, atAdd: Directory, config: Config, targetOU: string, lines: seq<string>,
                  cancelDelete: seq<bool>, cancelBetween: bool, cancelAdd: seq<bool>)
    returns (sent: seq<Op>, result: LoadResult)
    ensures Loading(sent, result) == Load(atDelete, atAdd, config, targetOU, lines, cancelDelete, cancelBetween, cancelAdd)
  {
    if targetOU == [] {
      return [], NoTarget;
    }
    var entries := LdifParser.ParseLdif(lines);
    var deleted, _, deleteOutcome := DeleteOldEntries(atDelete, config, targetOU, cancelDelete);
    sent := deleted;
    if deleteOutcome.Failed? {
      return sent, DeleteFailed(deleteOutcome.error);
    }
    if cancelBetween {
      return sent, Stopped;
    }
    var added, _, addOutcome := AddNewEntries(atAdd, config, targetOU, entries, cancelAdd);
    sent := sent + added;
    if addOutcome.Failed? {
      return sent, AddFailed(addOutcome.error);
    }
    result := Loaded;
  }

  /** The add pass's own connection can fail after the delete pass
      succeeded: the unit has then been emptied, nothing is added, and the
      handler reports the connect or bind failure. */
  lemma AddConnectionFails(atDelete: Directory, atAdd: Directory, config: Config, targetOU: string,
                           lines: seq<string>, cancelDelete: seq<bool>, cancelAdd: seq<bool>)
    requires targetOU != [] && DeletePass(atDelete, config, targetOU, cancelDelete).outcome == Done
    requires Address(config) !in atAdd.listening || (config.bindDN, config.password) !in atAdd.accounts
    ensures var loading := Load(atDelete, atAdd, config, targetOU, lines, cancelDelete, false, cancelAdd);
            loading.sent == DeletePass(atDelete, config, targetOU, cancelDelete).sent
            && loading.result == AddFailed(if Address(config) !in atAdd.listening then ConnectFailed else BindFailed)
  {
    var deletion := DeletePass(atDelete, config, targetOU, cancelDelete);
    assert deletion.sent + [] == deletion.sent;
  }

  /** Nothing is added unless the unit was emptied without error and the
      user did not cancel in between. */
  lemma AddsOnlyAfterDeletion(atDelete: Directory, atAdd: Directory, config: Config, targetOU: string,
                              lines: seq<string>, cancelDelete: seq<bool>, cancelBetween: bool, cancelAdd: seq<bool>)
    requires exists op :: op in Load(atDelete, atAdd, config, targetOU, lines, cancelDelete, cancelBetween, cancelAdd).sent
                           && op.Add?
    ensures targetOU != [] && !cancelBetween
    ensures DeletePass(atDelete, config, targetOU, cancelDelete).outcome == Done
  {
    var deletion := DeletePass(atDelete, config, targetOU, cancelDelete);
    if targetOU != [] && Address(config) in atDelete.listening
       && (config.bindDN, config.password) in atDelete.accounts {
      var search := Search(UnitBase(targetOU, config.baseDN), PersonFilter);
      if search.base in atDelete.listings {
        var dels := DeleteRequests(atDelete.listings[search.base]);
        SentInOrder(dels, cancelDelete, atDelete.refusedDeletes);
        assert forall op :: op in deletion.sent ==> !op.Add?;
      }
    }
  }

  /** A successful load sent the search, a delete for every listed entry,
      then an add for every parsed record, in file order. */
  lemma LoadedSendsEverything(atDelete: Directory, atAdd: Directory, config: Config, targetOU: string,
                              lines: seq<string>, cancelDelete: seq<bool>, cancelBetween: bool, cancelAdd: seq<bool>)
    requires Load(atDelete, atAdd, config, targetOU, lines, cancelDelete, cancelBetween, cancelAdd).result == Loaded
    ensures var base := UnitBase(targetOU, config.baseDN);
            base in atDelete.listings
            && Load(atDelete, atAdd, config, targetOU, lines, cancelDelete, cancelBetween, cancelAdd).sent
               == [Search(base, PersonFilter)] + DeleteRequests(atDelete.listings[base])
                  + AddRequests(LdifParser.Parse(lines), targetOU, config.baseDN)
  {
    var base := UnitBase(targetOU, config.baseDN);
    var dels := DeleteRequests(atDelete.listings[base]);
    var adds := AddRequests(LdifParser.Parse(lines), targetOU, config.baseDN);
    DoneIffAllProceed(dels, cancelDelete, atDelete.refusedDeletes);
    DoneIffAllProceed(adds, cancelAdd, atAdd.refusedAdds);
    assert DeletePass(atDelete, config, targetOU, cancelDelete).sent == [Search(base, PersonFilter)] + dels;
    assert AddPass(atAdd, config, targetOU, LdifParser.Parse(lines), cancelAdd).sent == adds;
  }
}
