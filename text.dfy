/** The string helpers of Go's standard library that the importer relies on,
    over strings of Unicode code points: strings.TrimSpace and
    strings.SplitN(s, sep, 2) for a one-character separator. */
module Text {
  import opened Sequences

  datatype Option<T> = None | Some(value: T)

  /** unicode.IsSpace: the Latin-1 white space characters and the characters
      above U+00FF that have Unicode's White_Space property. */
  predicate IsSpace(c: char) {
    c == ' ' || c == '\U{9}' || c == '\U{A}' || c == '\U{B}' || c == '\U{C}' || c == '\U{D}'
    || c == '\U{85}' || c == '\U{A0}' || c == '\U{1680}'
    || ('\U{2000}' <= c <= '\U{200A}')
    || c == '\U{2028}' || c == '\U{2029}' || c == '\U{202F}' || c == '\U{205F}' || c == '\U{3000}'
  }

  /** A string with no white space at either end. */
  predicate Trimmed(s: string) {
    s == [] || (!IsSpace(s[0]) && !IsSpace(s[|s| - 1]))
  }

  /** The string without its trailing white space. */
  function TrimRight(s: string): (r: string)
    ensures r <= s
    ensures r == [] || !IsSpace(r[|r| - 1])
  {
    if s != [] && IsSpace(s[|s| - 1]) then TrimRight(s[..|s| - 1]) else s
  }

  /** The string without its leading white space. */
  function TrimLeft(s: string): (r: string)
    ensures |r| <= |s| && r == s[|s| - |r|..]
    ensures r == [] || !IsSpace(r[0])
  {
    if s != [] && IsSpace(s[0]) then TrimLeft(s[1..]) else s
  }

  /** strings.TrimSpace. */
  function Trim(s: string): (r: string)
    ensures Trimmed(r)
    ensures |r| <= |s|
    ensures Trimmed(s) ==> r == s
  {
    var right := TrimRight(s);
    TrimLeft(right)
  }

  /** What TrimRight removes is white space. */
  lemma {:induction false} TrimRightRemovesSpace(s: string)
    ensures forall i :: |TrimRight(s)| <= i < |s| ==> IsSpace(s[i])
    decreases |s|
  {
    if s != [] && IsSpace(s[|s| - 1]) {
      TrimRightRemovesSpace(s[..|s| - 1]);
    }
  }

  /** What TrimLeft removes is white space. */
  lemma {:induction false} TrimLeftRemovesSpace(s: string)
    ensures forall i :: 0 <= i < |s| - |TrimLeft(s)| ==> IsSpace(s[i])
    decreases |s|
  {
    if s != [] && IsSpace(s[0]) {
      TrimLeftRemovesSpace(s[1..]);
    }
  }

  /** strings.TrimSpace removes the white space at both ends and nothing
      else: the result is the slice s[i..j] that is left once the leading
      white space s[..i] and the trailing white space s[j..] are cut off,
      and it has no white space left at either end. */
  lemma TrimStripsEnds(s: string)
    ensures Trimmed(Trim(s))
    ensures exists i, j :: 0 <= i <= j <= |s| && Trim(s) == s[i..j]
              && (forall k :: 0 <= k < i ==> IsSpace(s[k]))
              && (forall k :: j <= k < |s| ==> IsSpace(s[k]))
  {
    var right := TrimRight(s);
    var j := |right|;
    var i := j - |Trim(s)|;
    TrimRightRemovesSpace(s);
    TrimLeftRemovesSpace(right);
    PrefixSlice(right, s, i);
    assert Trim(s) == right[i..] == s[i..j];
    assert forall k :: 0 <= k < i ==> IsSpace(s[k]);
    assert 0 <= i <= j <= |s| && Trim(s) == s[i..j]
      && (forall k :: 0 <= k < i ==> IsSpace(s[k]))
      && (forall k :: j <= k < |s| ==> IsSpace(s[k]));
  }

  /** A string trims to nothing exactly when it is all white space. */
  lemma TrimEmptyIffAllSpace(s: string)
    ensures Trim(s) == [] <==> forall i :: 0 <= i < |s| ==> IsSpace(s[i])
  {
    TrimRightRemovesSpace(s);
    TrimLeftRemovesSpace(TrimRight(s));
  }

  /** Trim only removes characters: one absent from s is absent from Trim(s). */
  lemma TrimKeepsAbsent(s: string, c: char)
    requires c !in s
    ensures c !in Trim(s)
  {
    var right := TrimRight(s);
    assert c !in right;
    assert Trim(s) == right[|right| - |Trim(s)|..];
  }

  /** The outcome of strings.SplitN(s, sep, 2): either no separator occurs
      (one part) or the text before the first separator and the rest. */
  datatype Split = NoSeparator | Parts(head: string, tail: string)

  function SplitFirst(s: string, sep: char): (r: Split)
    ensures r.NoSeparator? <==> sep !in s
    ensures r.Parts? ==> s == r.head + [sep] + r.tail && sep !in r.head
  {
    if s == [] then NoSeparator
    else if s[0] == sep then Parts([], s[1..])
    else match SplitFirst(s[1..], sep)
      case NoSeparator => NoSeparator
      case Parts(h, t) =>
        assert s == [s[0]] + s[1..];
        Parts([s[0]] + h, t)
  }

  /** The split is at the FIRST separator: any way of writing s around a
      separator with none before it is the one SplitFirst finds. */
  lemma {:induction false} SplitFirstAt(h: string, sep: char, t: string)
    requires sep !in h
    ensures SplitFirst(h + [sep] + t, sep) == Parts(h, t)
  {
    var s := h + [sep] + t;
    var r := SplitFirst(s, sep);
    assert s[|h|] == sep;
    assert r.Parts? && s[|r.head|] == sep;
    assert forall i :: 0 <= i < |h| ==> s[i] == h[i] != sep;
    assert forall i :: 0 <= i < |r.head| ==> s[i] == r.head[i] != sep;
    assert |r.head| == |h|;
    assert r.head == s[..|h|] == h;
    assert r.tail == s[|h| + 1..] == t;
  }

  /** A string is written around its first separator in one way only. */
  lemma SeparatorUnique(h1: string, t1: string, h2: string, t2: string, sep: char)
    requires sep !in h1 && sep !in h2 && h1 + [sep] + t1 == h2 + [sep] + t2
    ensures h1 == h2 && t1 == t2
  {
    SplitFirstAt(h1, sep, t1);
    SplitFirstAt(h2, sep, t2);
  }

  /** Trailing white space is only ever taken from the end: a prefix that
      ends in a visible character survives. */
  lemma {:induction false} TrimRightAfter(p: string, w: string)
    requires p != [] && !IsSpace(p[|p| - 1])
    ensures TrimRight(p + w) == p + TrimRight(w)
    decreases |w|
  {
    if w != [] && IsSpace(w[|w| - 1]) {
      assert (p + w)[..|p + w| - 1] == p + w[..|w| - 1];
      TrimRightAfter(p, w[..|w| - 1]);
    } else if w == [] {
      assert p + w == p;
    }
  }

  lemma {:induction false} TrimRightIdempotent(s: string)
    ensures TrimRight(TrimRight(s)) == TrimRight(s)
  {
  }

  /** Trimming the trailing part first does not change the trimmed result. */
  lemma TrimAfterTrimRight(s: string)
    ensures Trim(TrimRight(s)) == Trim(s)
  {
    TrimRightIdempotent(s);
  }

  /** A single space before a trimmed value is removed by Trim. */
  lemma {:induction false} TrimSpaceBefore(v: string)
    requires Trimmed(v)
    ensures Trim([' '] + v) == v
  {
    if v == [] {
      assert TrimRight([' ']) == TrimRight([]);
    } else {
      assert TrimRight([' '] + v) == [' '] + v;
      assert ([' '] + v)[1..] == v;
      assert TrimLeft([' '] + v) == TrimLeft(v);
    }
  }
}
