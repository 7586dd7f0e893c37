/** Reading an exported file back with the parser: every record comes back,
    in order, with each field it had, except that its dn has become the full
    DN "cn=<dn>,<baseDN>" and its object class is lost, because the export
    writes the name "objectClass" and the parser only knows "objectclass". */
module RoundTrip {
  import opened Text
  import opened Sequences
  import opened LdifRecord
  import opened LdifParser
  import opened LdifExport

  /** The record the parser reads back for an exported record. */
  function Reimported(e: LdifEntry, baseDN: string): LdifEntry {
    e.(dn := DnValue(e, baseDN), objectClass := "")
  }

  function ReimportedAll(entries: seq<LdifEntry>, baseDN: string): (r: seq<LdifEntry>)
    ensures |r| == |entries|
    ensures forall i :: 0 <= i < |entries| ==> r[i] == Reimported(entries[i], baseDN)
  {
    if entries == [] then []
    else ReimportedAll(entries[..|entries| - 1], baseDN) + [Reimported(entries[|entries| - 1], baseDN)]
  }

  /** The values that survive the parser's TrimSpace unchanged: every field
      written as a value of its own (the dn is written inside the DN). */
  predicate Exportable(e: LdifEntry) {
    forall f :: f != Dn && f != ObjectClass ==> Trimmed(Get(e, f))
  }

  /** The record after the given fields of e have been copied onto c, one
      attribute line each. */
  function Puts(c: LdifEntry, e: LdifEntry, fs: seq<Field>): LdifEntry {
    if fs == [] then c
    else Put(Puts(c, e, fs[..|fs| - 1]), fs[|fs| - 1], Get(e, fs[|fs| - 1]))
  }

  lemma {:induction false} PutsGet(c: LdifEntry, e: LdifEntry, fs: seq<Field>, g: Field)
    ensures Get(Puts(c, e, fs), g) == if g in fs then Get(e, g) else Get(c, g)
    decreases |fs|
  {
    if fs != [] {
      var init := fs[..|fs| - 1];
      assert fs == init + [fs[|fs| - 1]];
      PutsGet(c, e, init, g);
    }
  }

  /** The kinds of the optional lines: one attribute per field written. */
  function Fills(e: LdifEntry, fs: seq<Field>): (r: seq<LineKind>)
    ensures |r| == |fs|
  {
    if fs == [] then [] else Fills(e, fs[..|fs| - 1]) + [Attribute(fs[|fs| - 1], Get(e, fs[|fs| - 1]))]
  }

  /** An attribute line written with a value without surrounding white
      space is read back as that field and value, except the object class,
      whose written name the parser does not know. */
  lemma PrefixedLine(f: Field, value: string)
    requires Trimmed(value)
    ensures Classify(Prefix(f) + value)
            == if f == ObjectClass then Unrecognized(Name(f)) else Attribute(f, value)
  {
    PrefixIsName(f);
    NameShape(f);
    NameReadBack(f);
    ClassifyAttributeLine(Name(f), value);
  }

  /** Each optional line is read back as its own field and value. */
  lemma {:induction false} OptionalKinds(e: LdifEntry, fs: seq<Field>)
    requires Exportable(e)
    requires forall f :: f in fs ==> f != Dn && f != ObjectClass
    ensures Kinds(OptionalLines(e, fs)) == Fills(e, fs)
    decreases |fs|
  {
    if fs != [] {
      var init, last := fs[..|fs| - 1], fs[|fs| - 1];
      assert fs == init + [last];
      assert forall g :: g in init ==> g in fs;
      assert last in fs;
      assert last != Dn && last != ObjectClass;
      assert Trimmed(Get(e, last));
      OptionalKinds(e, init);
      OptionalLinesLast(e, init, last);
      KindsLast(OptionalLines(e, init), Prefix(last) + Get(e, last));
      PrefixedLine(last, Get(e, last));
      assert Classify(Prefix(last) + Get(e, last)) == Attribute(last, Get(e, last));
      assert Fills(e, fs) == Fills(e, init) + [Attribute(last, Get(e, last))];
    }
  }

  /** Inside an open record, the optional lines copy their fields. */
  lemma {:induction false} RunFills(st: ParserState, e: LdifEntry, fs: seq<Field>)
    requires st.inEntry
    ensures Run(st, Fills(e, fs)) == ParserState(st.entries, Puts(st.current, e, fs), true)
    decreases |fs|
  {
    if fs != [] {
      var init := fs[..|fs| - 1];
      RunFills(st, e, init);
      assert Fills(e, fs)[..|fs| - 1] == Fills(e, init);
    }
  }

  /** One more line through the parser's loop. */
  lemma RunNext(st: ParserState, lines: seq<string>, x: string)
    ensures Run(st, Kinds(lines + [x])) == Step(Run(st, Kinds(lines)), Classify(x))
  {
    KindsLast(lines, x);
    RunLast(st, Kinds(lines), Classify(x));
  }

  /** The record as the four header lines leave it. */
  function HeaderRecord(e: LdifEntry, baseDN: string): LdifEntry {
    Put(Put(Put(Empty, Dn, DnValue(e, baseDN)), Cn, e.cn), Sn, e.sn)
  }

  /** How the parser reads the four header lines. */
  lemma HeaderLineKinds(e: LdifEntry, baseDN: string)
    requires Exportable(e) && Trimmed(baseDN)
    ensures Classify(Prefix(Dn) + DnValue(e, baseDN)) == Attribute(Dn, DnValue(e, baseDN))
    ensures Classify(Prefix(ObjectClass) + "inetOrgPerson") == Unrecognized(Name(ObjectClass))
    ensures Classify(Prefix(Cn) + e.cn) == Attribute(Cn, e.cn)
    ensures Classify(Prefix(Sn) + e.sn) == Attribute(Sn, e.sn)
  {
    DnTrimmed(e, baseDN);
    PrefixedLine(Dn, DnValue(e, baseDN));
    ObjectClassTrimmed();
    PrefixedLine(ObjectClass, "inetOrgPerson");
    assert Get(e, Cn) == e.cn && Get(e, Sn) == e.sn;
    PrefixedLine(Cn, e.cn);
    PrefixedLine(Sn, e.sn);
  }

  lemma ObjectClassTrimmed()
    ensures Trimmed("inetOrgPerson")
  {
    var v := "inetOrgPerson";
    assert v[0] == 'i' && v[|v| - 1] == 'n';
  }

  /** One more attribute line: its field is overwritten. */
  lemma RunAttribute(st: ParserState, lines: seq<string>, x: string, acc: seq<LdifEntry>, c: LdifEntry,
                     open: bool, f: Field, v: string)
    requires Run(st, Kinds(lines)) == ParserState(acc, c, open) && Classify(x) == Attribute(f, v)
    ensures Run(st, Kinds(lines + [x])) == ParserState(acc, Put(c, f, v), open || f == Dn)
  {
    RunNext(st, lines, x);
  }

  /** One more line with a name the parser does not know: nothing changes. */
  lemma RunUnrecognized(st: ParserState, lines: seq<string>, x: string, key: string)
    requires Classify(x) == Unrecognized(key)
    ensures Run(st, Kinds(lines + [x])) == Run(st, Kinds(lines))
  {
    RunNext(st, lines, x);
  }

  /** Four lines read as a dn, an unrecognised name, a cn and an sn. */
  lemma RunFour(acc: seq<LdifEntry>, a: string, b: string, c: string, d: string, dn: string, cn: string, sn: string)
    requires Classify(a) == Attribute(Dn, dn) && Classify(b) == Unrecognized(Name(ObjectClass))
    requires Classify(c) == Attribute(Cn, cn) && Classify(d) == Attribute(Sn, sn)
    ensures Run(ParserState(acc, Empty, false), Kinds([a, b, c, d]))
            == ParserState(acc, Put(Put(Put(Empty, Dn, dn), Cn, cn), Sn, sn), true)
  {
    var st := ParserState(acc, Empty, false);
    var r0 := Put(Empty, Dn, dn);
    assert Kinds([]) == [];
    RunAttribute(st, [], a, acc, Empty, false, Dn, dn);
    RunUnrecognized(st, [] + [a], b, Name(ObjectClass));
    RunAttribute(st, [] + [a] + [b], c, acc, r0, true, Cn, cn);
    RunAttribute(st, [] + [a] + [b] + [c], d, acc, Put(r0, Cn, cn), true, Sn, sn);
    FourAppended(a, b, c, d);
  }

  lemma FourAppended<T>(a: T, b: T, c: T, d: T)
    ensures [] + [a] + [b] + [c] + [d] == [a, b, c, d]
  {
  }

  /** The four header lines: the dn opens the record, objectClass is not a
      recognised name, cn and sn are copied. */
  lemma HeaderRun(acc: seq<LdifEntry>, e: LdifEntry, baseDN: string)
    requires Exportable(e) && Trimmed(baseDN)
    ensures Run(ParserState(acc, Empty, false), Kinds(Header(e, baseDN)))
            == ParserState(acc, HeaderRecord(e, baseDN), true)
  {
    HeaderLineKinds(e, baseDN);
    RunFour(acc, Prefix(Dn) + DnValue(e, baseDN), Prefix(ObjectClass) + "inetOrgPerson", Prefix(Cn) + e.cn,
            Prefix(Sn) + e.sn, DnValue(e, baseDN), e.cn, e.sn);
  }

  lemma DnTrimmed(e: LdifEntry, baseDN: string)
    requires Trimmed(baseDN)
    ensures Trimmed(DnValue(e, baseDN))
  {
    var d := DnValue(e, baseDN);
    assert d[0] == 'c';
    if baseDN != [] {
      assert d[|d| - 1] == baseDN[|baseDN| - 1];
    } else {
      assert d[|d| - 1] == ',';
    }
  }

  lemma ReimportedGet(e: LdifEntry, baseDN: string, g: Field)
    ensures Get(Reimported(e, baseDN), g)
            == if g == Dn then DnValue(e, baseDN) else if g == ObjectClass then "" else Get(e, g)
  {
  }

  lemma HeaderGet(e: LdifEntry, baseDN: string, g: Field)
    ensures Get(HeaderRecord(e, baseDN), g)
            == if g == Dn then DnValue(e, baseDN) else if g == Cn then e.cn else if g == Sn then e.sn else ""
  {
  }

  lemma ReimportedField(e: LdifEntry, baseDN: string, fs: seq<Field>, g: Field)
    requires forall f :: f in fs <==> f != Dn && f != ObjectClass && f != Cn && f != Sn && Get(e, f) != []
    ensures Get(Puts(HeaderRecord(e, baseDN), e, fs), g) == Get(Reimported(e, baseDN), g)
  {
    PutsGet(HeaderRecord(e, baseDN), e, fs, g);
    ReimportedGet(e, baseDN, g);
    HeaderGet(e, baseDN, g);
  }

  /** The fields copied onto the header record give back the record, with
      its dn as the full DN and without its object class. */
  lemma ReimportedFields(e: LdifEntry, baseDN: string, fs: seq<Field>)
    requires fs == Filled(e, ExportOptional)
    ensures Puts(HeaderRecord(e, baseDN), e, fs) == Reimported(e, baseDN)
  {
    OptionalMembers();
    forall g {
      ReimportedField(e, baseDN, fs, g);
    }
    Extensionality(Puts(HeaderRecord(e, baseDN), e, fs), Reimported(e, baseDN));
  }

  lemma BlankLine()
    ensures Classify("") == Blank
  {
  }

  /** The block of one record, read from outside any record, emits exactly
      that record as the parser sees it and leaves no record open. */
  lemma EntryRun(acc: seq<LdifEntry>, e: LdifEntry, baseDN: string)
    requires Exportable(e) && Trimmed(baseDN)
    ensures Run(ParserState(acc, Empty, false), Kinds(EntryLines(e, baseDN)))
            == ParserState(acc + [Reimported(e, baseDN)], Empty, false)
  {
    var st := ParserState(acc, Empty, false);
    var h, fs := Header(e, baseDN), Filled(e, ExportOptional);
    var o := OptionalLines(e, fs);
    RunNext(st, h + o, "");
    BlankLine();
    KindsAppend(h, o);
    RunAppend(st, Kinds(h), Kinds(o));
    HeaderRun(acc, e, baseDN);
    OptionalRun(acc, e, baseDN, fs);
  }

  /** After the header, the optional lines complete the record. */
  lemma OptionalRun(acc: seq<LdifEntry>, e: LdifEntry, baseDN: string, fs: seq<Field>)
    requires Exportable(e) && fs == Filled(e, ExportOptional)
    ensures Run(ParserState(acc, HeaderRecord(e, baseDN), true), Kinds(OptionalLines(e, fs)))
            == ParserState(acc, Reimported(e, baseDN), true)
  {
    OptionalMembers();
    OptionalKinds(e, fs);
    RunFills(ParserState(acc, HeaderRecord(e, baseDN), true), e, fs);
    ReimportedFields(e, baseDN, fs);
  }

  lemma {:induction false} ExportRun(entries: seq<LdifEntry>, baseDN: string)
    requires Trimmed(baseDN)
    requires forall i :: 0 <= i < |entries| ==> Exportable(entries[i])
    ensures Run(Start, Kinds(ExportLines(entries, baseDN))) == ParserState(ReimportedAll(entries, baseDN), Empty, false)
    decreases |entries|
  {
    if entries == [] {
      assert Kinds([]) == [];
    } else {
      var init, last := entries[..|entries| - 1], entries[|entries| - 1];
      assert forall i :: 0 <= i < |init| ==> init[i] == entries[i];
      assert Exportable(last);
      assert ExportLines(entries, baseDN) == ExportLines(init, baseDN) + EntryLines(last, baseDN);
      ExportRun(init, baseDN);
      KindsAppend(ExportLines(init, baseDN), EntryLines(last, baseDN));
      RunAppend(Start, Kinds(ExportLines(init, baseDN)), Kinds(EntryLines(last, baseDN)));
      EntryRun(ReimportedAll(init, baseDN), last, baseDN);
    }
  }

  /** Reading an export back: one record per exported record, in order,
      each with the fields it had, its dn replaced by the full DN and its
      object class empty. The values must not start or end with white
      space, which the parser trims. */
  lemma ExportRoundTrip(entries: seq<LdifEntry>, baseDN: string)
    requires Trimmed(baseDN)
    requires forall i :: 0 <= i < |entries| ==> Exportable(entries[i])
    ensures Parse(ExportLines(entries, baseDN)) == ReimportedAll(entries, baseDN)
  {
    ExportRun(entries, baseDN);
  }
}
