/** parseLDIF: the line loop that turns an LDIF-subset export into records.
    The file is given as its lines, already split; opening and reading the
    file is not modelled. */
module LdifParser {
  import opened Text
  import opened Sequences
  import opened LdifRecord

  /** What one line is, after strings.TrimSpace: blank, a '#' comment, a
      line without ':', a "key: value" line whose key is not one of the
      recognised names, or one that fills a field. */
  datatype LineKind = Blank | Comment | Malformed | Unrecognized(key: string)
                    | Attribute(field: Field, value: string)

  /** Key and value are split at the first ':' and both are trimmed; the key
      is matched case-sensitively against the recognised names. */
  function Classify(line: string): LineKind {
    ClassifyTrimmed(Trim(line))
  }

  /** The classification of a line that has already been trimmed. */
  function ClassifyTrimmed(t: string): LineKind {
    if t == [] then Blank
    else if t[0] == '#' then Comment
    else match SplitFirst(t, ':')
      case NoSeparator => Malformed
      case Parts(head, rest) => KeyValue(Trim(head), Trim(rest))
  }

  /** A split line: a recognised key fills its field, any other is kept aside. */
  function KeyValue(key: string, value: string): LineKind {
    match FieldOf(key)
    case None => Unrecognized(key)
    case Some(f) => Attribute(f, value)
  }

  /** What each kind of line means for the text of the line. */
  lemma ClassifyMeaning(line: string)
    ensures Classify(line).Blank? <==> Trim(line) == []
    ensures Classify(line).Comment? <==> Trim(line) != [] && Trim(line)[0] == '#'
    ensures Classify(line).Malformed? <==> Trim(line) != [] && Trim(line)[0] != '#' && ':' !in Trim(line)
  {
  }

  /** An unrecognised key contains no ':'. */
  lemma ClassifyKey(line: string)
    ensures Classify(line).Unrecognized? ==> FieldOf(Classify(line).key).None? && ':' !in Classify(line).key
  {
    var t := Trim(line);
    if t != [] && t[0] != '#' {
      match SplitFirst(t, ':')
      case NoSeparator =>
      case Parts(head, rest) =>
        TrimKeepsAbsent(head, ':');
        assert Classify(line) == KeyValue(Trim(head), Trim(rest));
    }
  }

  /** A field value has no white space at either end. */
  lemma ClassifyValue(line: string)
    ensures Classify(line).Attribute? ==> Trimmed(Classify(line).value)
  {
  }

  /** Trimming a "key: value" line with a trimmed key touches only the
      spaces after the ':'. */
  lemma TrimAttributeLine(key: string, value: string)
    requires key != [] && key[0] != '#' && Trimmed(key)
    ensures Trim(key + ": " + value) == key + [':'] + TrimRight([' '] + value)
  {
    var rest := [' '] + value;
    assert key + ": " + value == (key + [':']) + rest;
    TrimRightAfter(key + [':'], rest);
    var t := key + [':'] + TrimRight(rest);
    assert TrimLeft(t) == t;
  }

  /** The inverse direction: a line written as "key: value" with a trimmed
      value is read back as exactly that key and value. */
  lemma ClassifyAttributeLine(key: string, value: string)
    requires key != [] && key[0] != '#' && Trimmed(key) && ':' !in key
    requires Trimmed(value)
    ensures Classify(key + ": " + value) == KeyValue(key, value)
  {
    var rest := TrimRight([' '] + value);
    TrimAttributeLine(key, value);
    SplitFirstAt(key, ':', rest);
    assert Classify(key + ": " + value) == KeyValue(Trim(key), Trim(rest));
    TrimAfterTrimRight([' '] + value);
    TrimSpaceBefore(value);
  }

  /** The kind of each line, in order. */
  function Kinds(lines: seq<string>): (r: seq<LineKind>)
    ensures |r| == |lines|
  {
    if lines == [] then [] else Kinds(lines[..|lines| - 1]) + [Classify(lines[|lines| - 1])]
  }

  lemma KindsLast(a: seq<string>, line: string)
    ensures Kinds(a + [line]) == Kinds(a) + [Classify(line)]
  {
    DropLastAppend(a, [line]);
  }

  lemma {:induction false} KindsAppend(a: seq<string>, b: seq<string>)
    ensures Kinds(a + b) == Kinds(a) + Kinds(b)
    decreases |b|
  {
    if b == [] {
      assert a + b == a;
    } else {
      var n := |b| - 1;
      DropLastAppend(a, b);
      KindsAppend(a, b[..n]);
    }
  }

  /** The loop's state: the records emitted so far, the accumulator
      currentEntry and the flag inEntry. */
  datatype ParserState = ParserState(entries: seq<LdifEntry>, current: LdifEntry, inEntry: bool)

  const Start := ParserState([], Empty, false)

  /** One iteration of the loop, on a line of the given kind. A blank line
      emits the open record and resets the accumulator; a comment or a line
      without ':' is skipped; an attribute line overwrites one field, and a
      dn: line also opens the record. */
  function Step(st: ParserState, kind: LineKind): (r: ParserState)
    ensures kind.Comment? || kind.Malformed? || kind.Unrecognized? ==> r == st
    ensures kind.Blank? && !st.inEntry ==> r == st
    ensures r.entries == if kind.Blank? && st.inEntry then st.entries + [st.current] else st.entries
    ensures r.entries != st.entries ==> r.current == Empty && !r.inEntry
    ensures r.entries == st.entries && r.current != st.current ==> kind.Attribute?
  {
    match kind
    case Blank => if st.inEntry then ParserState(st.entries + [st.current], Empty, false) else st
    case Comment => st
    case Malformed => st
    case Unrecognized(_) => st
    case Attribute(field, value) => ParserState(st.entries, Put(st.current, field, value), st.inEntry || field == Dn)
  }

  /** The state after the loop has consumed lines of the given kinds. */
  function Run(st: ParserState, kinds: seq<LineKind>): ParserState
  {
    if kinds == [] then st else Step(Run(st, kinds[..|kinds| - 1]), kinds[|kinds| - 1])
  }

  /** After the loop: a record still open at end of input is emitted too. */
  function Finish(st: ParserState): seq<LdifEntry> {
    if st.inEntry then st.entries + [st.current] else st.entries
  }

  /** What parseLDIF returns for a file with these lines. */
  function Parse(lines: seq<string>): seq<LdifEntry> {
    Finish(Run(Start, Kinds(lines)))
  }

  /** parseLDIF's loop over the lines of the file. */
  method ParseLdif(lines: seq<string>) returns (entries: seq<LdifEntry>)
    ensures entries == Parse(lines)
  {
    entries := [];
    var currentEntry := Empty;
    var inEntry := false;
    for i := 0 to |lines|
      invariant ParserState(entries, currentEntry, inEntry) == Run(Start, Kinds(lines[..i]))
    {
      TakeNext(lines, i);
      KindsLast(lines[..i], lines[i]);
      RunLast(Start, Kinds(lines[..i]), Classify(lines[i]));
      ghost var kind := Classify(lines[i]);
      var line := Trim(lines[i]);
      assert kind == ClassifyTrimmed(line);
      if line == [] {
        if inEntry {
          entries := entries + [currentEntry];
          currentEntry := Empty;
          inEntry := false;
        }
        continue;
      }
      if line[0] == '#' {
        continue;
      }
      match SplitFirst(line, ':')
      case NoSeparator =>
        continue;
      case Parts(head, rest) =>
        var key := Trim(head);
        var value := Trim(rest);
        SetIsStep(ParserState(entries, currentEntry, inEntry), key, value);
        currentEntry := Set(currentEntry, key, value);
        if key == "dn" {
          inEntry := true;
        }
    }
    assert lines[..|lines|] == lines;
    if inEntry {
      entries := entries + [currentEntry];
    }
  }

  /** Set on the accumulator, plus raising the flag on "dn", is the step on
      a key/value line. */
  lemma SetIsStep(st: ParserState, key: string, value: string)
    ensures Step(st, KeyValue(key, value))
         == ParserState(st.entries, Set(st.current, key, value), st.inEntry || key == "dn")
  {
  }

  lemma RunLast(st: ParserState, a: seq<LineKind>, k: LineKind)
    ensures Run(st, a + [k]) == Step(Run(st, a), k)
  {
    DropLastAppend(a, [k]);
  }

  /** Consuming two stretches of lines is consuming them one after the other. */
  lemma {:induction false} RunAppend(st: ParserState, a: seq<LineKind>, b: seq<LineKind>)
    ensures Run(st, a + b) == Run(Run(st, a), b)
    decreases |b|
  {
    if b == [] {
      assert a + b == a;
    } else {
      DropLastAppend(a, b);
      RunAppend(st, a, b[..|b| - 1]);
    }
  }

  /** Records are only ever appended: the output keeps source order. */
  lemma {:induction false} RunKeepsEntries(st: ParserState, kinds: seq<LineKind>)
    ensures st.entries <= Run(st, kinds).entries
    decreases |kinds|
  {
    if kinds != [] {
      RunKeepsEntries(st, kinds[..|kinds| - 1]);
    }
  }

  /** Inserting a comment line anywhere, inside a record or not, changes nothing. */
  lemma CommentTransparent(a: seq<string>, c: string, b: seq<string>)
    requires Classify(c).Comment?
    ensures Parse(a + [c] + b) == Parse(a + b)
  {
    KindsAppend(a + [c], b);
    KindsAppend(a, [c]);
    KindsAppend(a, b);
    RunAppend(Start, Kinds(a) + Kinds([c]), Kinds(b));
    RunLast(Start, Kinds(a), Comment);
    RunAppend(Start, Kinds(a), Kinds(b));
  }

  /** The lines that are not comments, in order. */
  function WithoutComments(lines: seq<string>): seq<string>
  {
    if lines == [] then []
    else if Classify(lines[|lines| - 1]).Comment? then WithoutComments(lines[..|lines| - 1])
    else WithoutComments(lines[..|lines| - 1]) + [lines[|lines| - 1]]
  }

  lemma {:induction false} RunWithoutComments(st: ParserState, lines: seq<string>)
    ensures Run(st, Kinds(lines)) == Run(st, Kinds(WithoutComments(lines)))
    decreases |lines|
  {
    if lines != [] {
      var n := |lines| - 1;
      var init := lines[..n];
      RunWithoutComments(st, init);
      SplitLast(lines);
      KindsAppend(init, [lines[n]]);
      RunLast(st, Kinds(init), Classify(lines[n]));
      if !Classify(lines[n]).Comment? {
        KindsAppend(WithoutComments(init), [lines[n]]);
        RunLast(st, Kinds(WithoutComments(init)), Classify(lines[n]));
      }
    }
  }

  /** Removing every comment line leaves the parsed records as they were. */
  lemma CommentsIgnored(lines: seq<string>)
    ensures Parse(lines) == Parse(WithoutComments(lines))
  {
    RunWithoutComments(Start, lines);
  }

  /** Two adjacent non-blank lines that do not set the same attribute can be
      consumed in either order. */
  lemma StepsCommute(st: ParserState, k1: LineKind, k2: LineKind)
    requires !k1.Blank? && !k2.Blank?
    requires !(k1.Attribute? && k2.Attribute? && k1.field == k2.field)
    ensures Step(Step(st, k1), k2) == Step(Step(st, k2), k1)
  {
    if k1.Attribute? && k2.Attribute? {
      PutCommutes(st.current, k1.field, k1.value, k2.field, k2.value);
    }
  }

  lemma ParseAround(a: seq<string>, mid: seq<string>, b: seq<string>)
    ensures Parse(a + mid + b) == Finish(Run(Run(Run(Start, Kinds(a)), Kinds(mid)), Kinds(b)))
  {
    KindsAppend(a + mid, b);
    KindsAppend(a, mid);
    RunAppend(Start, Kinds(a) + Kinds(mid), Kinds(b));
    RunAppend(Start, Kinds(a), Kinds(mid));
  }

  lemma RunPair(st: ParserState, l1: string, l2: string)
    ensures Run(st, Kinds([l1, l2])) == Step(Step(st, Classify(l1)), Classify(l2))
  {
    RunLast(st, [Classify(l1)], Classify(l2));
    RunLast(st, [], Classify(l1));
  }

  /** Attribute lines with different names can be permuted within a record. */
  lemma KeyOrderIndependent(a: seq<string>, l1: string, l2: string, b: seq<string>)
    requires !Classify(l1).Blank? && !Classify(l2).Blank?
    requires !(Classify(l1).Attribute? && Classify(l2).Attribute? && Classify(l1).field == Classify(l2).field)
    ensures Parse(a + [l1, l2] + b) == Parse(a + [l2, l1] + b)
  {
    ParseAround(a, [l1, l2], b);
    ParseAround(a, [l2, l1], b);
    RunPair(Run(Start, Kinds(a)), l1, l2);
    RunPair(Run(Start, Kinds(a)), l2, l1);
    StepsCommute(Run(Start, Kinds(a)), Classify(l1), Classify(l2));
  }

  /** Of two lines setting the same attribute, the later one wins
      (a second dn: line included). */
  lemma LaterKeyWins(a: seq<string>, l1: string, l2: string, b: seq<string>)
    requires Classify(l1).Attribute? && Classify(l2).Attribute?
    requires Classify(l1).field == Classify(l2).field
    ensures Parse(a + [l1, l2] + b) == Parse(a + [l2] + b)
  {
    var st := Run(Start, Kinds(a));
    ParseAround(a, [l1, l2], b);
    ParseAround(a, [l2], b);
    RunPair(st, l1, l2);
    RunLast(st, [], Classify(l2));
    PutOverwrites(st.current, Classify(l1).field, Classify(l1).value, Classify(l2).value);
  }

  predicate IsDn(kind: LineKind) {
    kind.Attribute? && kind.field == Dn
  }

  /** A record is open after lines of these kinds: some dn: line has no
      blank line after it. */
  ghost predicate OpenBlock(kinds: seq<LineKind>) {
    exists j: nat :: j < |kinds| && IsDn(kinds[j]) && NoBlankAfter(kinds, j)
  }

  ghost predicate NoBlankAfter(kinds: seq<LineKind>, j: nat) {
    forall k :: j < k < |kinds| ==> !kinds[k].Blank?
  }

  /** The flag inEntry is set exactly when a dn: line has been seen since
      the last blank line. */
  lemma {:induction false} InEntryIffOpenBlock(kinds: seq<LineKind>)
    ensures Run(Start, kinds).inEntry <==> OpenBlock(kinds)
    decreases |kinds|
  {
    if kinds != [] {
      var n := |kinds| - 1;
      var init := kinds[..n];
      InEntryIffOpenBlock(init);
      if kinds[n].Blank? {
        forall j: nat | j < |kinds| && IsDn(kinds[j])
          ensures !NoBlankAfter(kinds, j)
        {
          assert j != n;
        }
      } else if IsDn(kinds[n]) {
        assert NoBlankAfter(kinds, n);
      } else {
        if OpenBlock(init) {
          var j: nat :| j < n && IsDn(init[j]) && NoBlankAfter(init, j);
          assert NoBlankAfter(kinds, j);
        }
        if OpenBlock(kinds) {
          var j: nat :| j < |kinds| && IsDn(kinds[j]) && NoBlankAfter(kinds, j);
          assert j != n;
          assert NoBlankAfter(init, j);
        }
      }
    }
  }

  /** The number of blank lines that close an open record. */
  ghost function Closings(kinds: seq<LineKind>): nat {
    if kinds == [] then 0
    else
      var n := |kinds| - 1;
      Closings(kinds[..n]) + (if kinds[n].Blank? && OpenBlock(kinds[..n]) then 1 else 0)
  }

  lemma {:induction false} EmittedAtClosings(kinds: seq<LineKind>)
    ensures |Run(Start, kinds).entries| == Closings(kinds)
    decreases |kinds|
  {
    if kinds != [] {
      EmittedAtClosings(kinds[..|kinds| - 1]);
      InEntryIffOpenBlock(kinds[..|kinds| - 1]);
    }
  }

  /** One record per block opened by a dn: line: one for every blank line
      that closes an open block, and one more if a block is still open at
      end of input. */
  lemma RecordCount(lines: seq<string>)
    ensures |Parse(lines)| == Closings(Kinds(lines)) + (if OpenBlock(Kinds(lines)) then 1 else 0)
  {
    EmittedAtClosings(Kinds(lines));
    InEntryIffOpenBlock(Kinds(lines));
  }

  /** Fields set before any dn: line are not dropped: a blank line resets
      the accumulator only when a record is open, so they are carried into
      the next record. */
  lemma DnLessFieldsCarryOver(a: LineKind, b: LineKind, d: LineKind)
    requires a.Attribute? && a.field != Dn && b.Blank? && IsDn(d)
    ensures Finish(Run(Start, [a, b, d])) == [Put(Put(Empty, a.field, a.value), Dn, d.value)]
  {
    var st := ParserState([], Put(Empty, a.field, a.value), false);
    RunLast(Start, [], a);
    assert Run(Start, [a]) == st;
    RunLast(Start, [a], b);
    assert [a] + [b] == [a, b];
    RunLast(Start, [a, b], d);
    assert [a, b] + [d] == [a, b, d];
  }
}
