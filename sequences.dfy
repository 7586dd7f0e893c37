/** Facts about sequences in general that the models of the parser, the
    tree, the passes and the export share. */
module Sequences {

  /** No element occurs twice. */
  predicate NoDuplicates<T(==)>(s: seq<T>) {
    forall i, j :: 0 <= i < j < |s| ==> s[i] != s[j]
  }

  /** u occurs in s before some occurrence of v. */
  ghost predicate OccursBefore<T>(s: seq<T>, u: T, v: T) {
    exists a, b :: 0 <= a < b < |s| && s[a] == u && s[b] == v
  }

  /** Any two elements of r occur in s in the same order. */
  ghost predicate KeepsOrder<T>(r: seq<T>, s: seq<T>) {
    forall i, j :: 0 <= i < j < |r| ==> OccursBefore(s, r[i], r[j])
  }

  /** Appending x to s keeps the order of r, and of r + [x] when every
      element of r is in s. */
  lemma KeepsOrderAppend<T>(r: seq<T>, s: seq<T>, x: T)
    requires KeepsOrder(r, s)
    ensures KeepsOrder(r, s + [x])
    ensures (forall k :: 0 <= k < |r| ==> r[k] in s) ==> KeepsOrder(r + [x], s + [x])
  {
    var t := s + [x];
    forall i, j | 0 <= i < j < |r|
      ensures OccursBefore(t, r[i], r[j])
    {
      assert OccursBefore(s, r[i], r[j]);
      var a, b :| 0 <= a < b < |s| && s[a] == r[i] && s[b] == r[j];
      assert t[a] == r[i] && t[b] == r[j];
    }
    if forall k :: 0 <= k < |r| ==> r[k] in s {
      var u := r + [x];
      forall i, j | 0 <= i < j < |u|
        ensures OccursBefore(t, u[i], u[j])
      {
        assert u[i] == r[i];
        if j < |r| {
          assert u[j] == r[j];
          assert OccursBefore(t, r[i], r[j]);
        } else {
          assert r[i] in s;
          var a :| 0 <= a < |s| && s[a] == r[i];
          assert t[a] == u[i] && t[|s|] == u[j];
        }
      }
    }
  }

  /** A suffix of a prefix of b is a slice of b. */
  lemma PrefixSlice<T>(a: seq<T>, b: seq<T>, i: nat)
    requires a <= b && i <= |a|
    ensures a[i..] == b[i..|a|]
    ensures forall k :: 0 <= k < |a| ==> a[k] == b[k]
  {
  }

  /** A non-empty sequence is its prefix followed by its last element. */
  lemma SplitLast<T>(s: seq<T>)
    requires s != []
    ensures s == s[..|s| - 1] + [s[|s| - 1]]
  {
  }

  /** A prefix one longer is the prefix followed by the next element. */
  lemma TakeNext<T>(s: seq<T>, i: nat)
    requires i < |s|
    ensures s[..i + 1] == s[..i] + [s[i]]
  {
  }

  /** Dropping the last element of a + b, b non-empty, drops it from b. */
  lemma DropLastAppend<T>(a: seq<T>, b: seq<T>)
    requires b != []
    ensures (a + b)[..|a + b| - 1] == a + b[..|b| - 1]
  {
  }

  /** Equal sequences with a common prefix and suffix agree in between. */
  lemma CancelAround<T>(p: seq<T>, a: seq<T>, b: seq<T>, t: seq<T>)
    requires p + a + t == p + b + t
    ensures a == b
  {
    assert |a| == |b|;
    assert a == (p + a + t)[|p|..|p| + |a|];
    assert b == (p + b + t)[|p|..|p| + |b|];
  }
}
