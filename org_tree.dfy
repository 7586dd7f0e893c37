/** buildOrgTree: the organisation / department / unit hierarchy shown in the
    tree window, built from the o and ou attributes of the imported records.
    Nodes are values: a node is its name and its children by name. */
module OrgTree {
  import opened Text
  import opened Sequences
  import opened LdifRecord

  datatype OrgNode = OrgNode(name: string, children: map<string, OrgNode>)

  /** The name of the root node. */
  const RootName := "Organization"

  /** The organisation value that marks a record as belonging to a branch
      office; such records do not appear in the tree. */
  const Branch := "filial"

  /** The organisation: the o value up to its first ',', trimmed. */
  function OrgName(o: string): string {
    match SplitFirst(o, ',')
    case NoSeparator => Trim(o)
    case Parts(head, _) => Trim(head)
  }

  /** The department: the o value after its first ',', trimmed; empty when
      there is no ','. */
  function DeptName(o: string): string {
    match SplitFirst(o, ',')
    case NoSeparator => []
    case Parts(_, tail) => Trim(tail)
  }

  /** With a ',' the organisation and department are the trimmed parts on
      either side of the first one. */
  lemma OrgDeptSplit(head: string, tail: string)
    requires ',' !in head
    ensures OrgName(head + [','] + tail) == Trim(head)
    ensures DeptName(head + [','] + tail) == Trim(tail)
  {
    SplitFirstAt(head, ',', tail);
  }

  /** Without a ',' the whole value, trimmed, is the organisation and there
      is no department; the organisation never holds a ','. */
  lemma OrgWithoutDept(o: string)
    ensures ',' !in o ==> OrgName(o) == Trim(o) && DeptName(o) == []
    ensures ',' !in OrgName(o)
  {
    match SplitFirst(o, ',')
    case NoSeparator => TrimKeepsAbsent(o, ',');
    case Parts(head, _) => TrimKeepsAbsent(head, ',');
  }

  /** The names, from the root down, under which one record is filed:
      nothing for a record with no organisation or of the branch office,
      else the organisation, then the department when there is one, then
      the unit when there is one. */
  function PathOf(e: LdifEntry): seq<string> {
    if e.o == [] || e.o == Branch then []
    else [OrgName(e.o)] + (Present(DeptName(e.o)) + Present(e.ou))
  }

  /** A name when it is not empty. */
  function Present(name: string): seq<string> {
    if name != [] then [name] else []
  }

  /** Find-or-create along a path: every missing node is created empty, an
      existing node is kept with all that is below it. */
  function AddPath(n: OrgNode, path: seq<string>): OrgNode
    decreases |path|
  {
    if path == [] then n
    else OrgNode(n.name, n.children[path[0] := AddPath(Child(n, path[0]), path[1..])])
  }

  /** The child of that name, or a new node with no children. */
  function Child(n: OrgNode, name: string): OrgNode {
    if name in n.children then n.children[name] else OrgNode(name, map[])
  }

  lemma AddFirst(n: OrgNode, name: string, rest: seq<string>)
    ensures AddPath(n, [name] + rest) == OrgNode(n.name, n.children[name := AddPath(Child(n, name), rest)])
  {
    assert ([name] + rest)[1..] == rest;
  }

  /** Adding a single name creates the child only when it is missing. */
  lemma AddOne(n: OrgNode, name: string)
    ensures AddPath(n, [name]) == if name in n.children then n else OrgNode(n.name, n.children[name := OrgNode(name, map[])])
  {
    AddFirst(n, name, []);
    if name in n.children {
      assert n.children[name := n.children[name]] == n.children;
    }
  }

  /** The node at the end of the path exists. */
  predicate HasPath(n: OrgNode, path: seq<string>)
    decreases |path|
  {
    path == [] || (path[0] in n.children && HasPath(n.children[path[0]], path[1..]))
  }

  /** The tree after filing the records in order into n. */
  function Grow(n: OrgNode, entries: seq<LdifEntry>): OrgNode {
    if entries == [] then n
    else AddPath(Grow(n, entries[..|entries| - 1]), PathOf(entries[|entries| - 1]))
  }

  /** The root with nothing below it. */
  const EmptyRoot := OrgNode(RootName, map[])

  /** What buildOrgTree returns for these records. */
  function TreeOf(entries: seq<LdifEntry>): OrgNode {
    Grow(EmptyRoot, entries)
  }

  lemma GrowLast(n: OrgNode, entries: seq<LdifEntry>, e: LdifEntry)
    ensures Grow(n, entries + [e]) == AddPath(Grow(n, entries), PathOf(e))
  {
    DropLastAppend(entries, [e]);
  }

  /** buildOrgTree's loop over the records. */
  method BuildOrgTree(entries: seq<LdifEntry>) returns (root: OrgNode)
    ensures root == TreeOf(entries)
  {
    root := EmptyRoot;
    for i := 0 to |entries|
      invariant root == TreeOf(entries[..i])
    {
      TakeNext(entries, i);
      GrowLast(EmptyRoot, entries[..i], entries[i]);
      var entry := entries[i];
      var str := entry.o;
      if str == Branch || |str| == 0 {
        assert PathOf(entry) == [];
        continue;
      }
      ghost var tree := root;
      ghost var unit := Present(entry.ou);
      var orgName, deptName;
      match SplitFirst(entry.o, ',') {
        case NoSeparator =>
          orgName := Trim(entry.o);
          deptName := [];
        case Parts(head, tail) =>
          orgName := Trim(head);
          deptName := Trim(tail);
      }
      assert orgName == OrgName(entry.o) && deptName == DeptName(entry.o);
      var orgNode := if orgName in root.children then root.children[orgName] else OrgNode(orgName, map[]);
      assert orgNode == Child(tree, orgName);
      ghost var orgPath: seq<string>;
      if deptName != [] {
        var deptNode := if deptName in orgNode.children then orgNode.children[deptName] else OrgNode(deptName, map[]);
        assert deptNode == Child(orgNode, deptName);
        ghost var dept := deptNode;
        if entry.ou != [] {
          AddOne(deptNode, entry.ou);
          if entry.ou !in deptNode.children {
            deptNode := OrgNode(deptNode.name, deptNode.children[entry.ou := OrgNode(entry.ou, map[])]);
          }
        }
        assert deptNode == AddPath(dept, unit);
        AddFirst(orgNode, deptName, unit);
        orgPath := Present(deptName) + unit;
        orgNode := OrgNode(orgNode.name, orgNode.children[deptName := deptNode]);
      } else {
        ghost var org := orgNode;
        if entry.ou != [] {
          AddOne(orgNode, entry.ou);
          if entry.ou !in orgNode.children {
            orgNode := OrgNode(orgNode.name, orgNode.children[entry.ou := OrgNode(entry.ou, map[])]);
          }
        }
        orgPath := Present(deptName) + unit;
        assert orgNode == AddPath(org, orgPath);
      }
      AddFirst(tree, orgName, orgPath);
      assert PathOf(entry) == [orgName] + orgPath;
      root := OrgNode(root.name, root.children[orgName := orgNode]);
    }
    assert entries[..|entries|] == entries;
  }

  /** A node with no children has only the empty path. */
  lemma LeafPaths(name: string, q: seq<string>)
    ensures HasPath(OrgNode(name, map[]), q) <==> q == []
  {
  }

  /** After adding a path, the tree has exactly the paths it had before and
      the prefixes of the added path: nothing is lost and nothing else is
      created. */
  lemma {:induction false} AddPathPaths(n: OrgNode, p: seq<string>, q: seq<string>)
    ensures HasPath(AddPath(n, p), q) <==> HasPath(n, q) || q <= p
    decreases |p|
  {
    if p != [] && q != [] {
      var k := p[0];
      if q[0] == k {
        AddPathPaths(Child(n, k), p[1..], q[1..]);
        LeafPaths(k, q[1..]);
        assert q <= p <==> q[1..] <= p[1..];
      }
    }
  }

  /** The added path is there afterwards. */
  lemma AddPathHas(n: OrgNode, p: seq<string>)
    ensures HasPath(AddPath(n, p), p)
  {
    AddPathPaths(n, p, p);
  }

  /** Adding a path that is already there changes nothing: find-or-create
      finds. */
  lemma {:induction false} AddPathPresent(n: OrgNode, p: seq<string>)
    requires HasPath(n, p)
    ensures AddPath(n, p) == n
    decreases |p|
  {
    if p != [] {
      AddPathPresent(n.children[p[0]], p[1..]);
      assert n.children[p[0] := n.children[p[0]]] == n.children;
    }
  }

  /** Two paths can be added in either order. */
  lemma {:induction false} AddPathCommutes(n: OrgNode, p: seq<string>, q: seq<string>)
    ensures AddPath(AddPath(n, p), q) == AddPath(AddPath(n, q), p)
    decreases |p|
  {
    if p != [] && q != [] {
      if p[0] == q[0] {
        var k := p[0];
        AddPathCommutes(Child(n, k), p[1..], q[1..]);
        AddSameFirst(n, p, q);
      } else {
        AddDifferentFirst(n, p, q);
      }
    }
  }

  lemma AddSameFirst(n: OrgNode, p: seq<string>, q: seq<string>)
    requires p != [] && q != [] && p[0] == q[0]
    requires AddPath(AddPath(Child(n, p[0]), p[1..]), q[1..]) == AddPath(AddPath(Child(n, p[0]), q[1..]), p[1..])
    ensures AddPath(AddPath(n, p), q) == AddPath(AddPath(n, q), p)
  {
    var k := p[0];
    var both := AddPath(AddPath(Child(n, k), p[1..]), q[1..]);
    AddTwice(n, k, p[1..], q[1..]);
    AddTwice(n, k, q[1..], p[1..]);
    assert AddPath(AddPath(n, p), q) == OrgNode(n.name, n.children[k := both]);
  }

  /** Adding two paths below the same child rebuilds only that child. */
  lemma AddTwice(n: OrgNode, k: string, p: seq<string>, q: seq<string>)
    ensures AddPath(AddPath(n, [k] + p), [k] + q)
         == OrgNode(n.name, n.children[k := AddPath(AddPath(Child(n, k), p), q)])
  {
    AddFirst(n, k, p);
    var np := AddPath(n, [k] + p);
    AddFirst(np, k, q);
    assert Child(np, k) == AddPath(Child(n, k), p);
    assert np.children[k := AddPath(Child(np, k), q)] == n.children[k := AddPath(AddPath(Child(n, k), p), q)];
  }

  lemma AddDifferentFirst(n: OrgNode, p: seq<string>, q: seq<string>)
    requires p != [] && q != [] && p[0] != q[0]
    ensures AddPath(AddPath(n, p), q) == AddPath(AddPath(n, q), p)
  {
    assert Child(AddPath(n, p), q[0]) == Child(n, q[0]);
    assert Child(AddPath(n, q), p[0]) == Child(n, p[0]);
    assert AddPath(AddPath(n, p), q).children == AddPath(AddPath(n, q), p).children;
  }

  /** Filing two runs of records is filing one after the other. */
  lemma {:induction false} GrowAppend(n: OrgNode, a: seq<LdifEntry>, b: seq<LdifEntry>)
    ensures Grow(n, a + b) == Grow(Grow(n, a), b)
    decreases |b|
  {
    if b == [] {
      assert a + b == a;
    } else {
      DropLastAppend(a, b);
      GrowAppend(n, a, b[..|b| - 1]);
    }
  }

  /** Two neighbouring records can be swapped: the tree does not depend on
      the order of the records. */
  lemma SwapNeighbours(a: seq<LdifEntry>, e1: LdifEntry, e2: LdifEntry, b: seq<LdifEntry>)
    ensures TreeOf(a + [e1, e2] + b) == TreeOf(a + [e2, e1] + b)
  {
    GrowAppend(EmptyRoot, a + [e1, e2], b);
    GrowAppend(EmptyRoot, a + [e2, e1], b);
    GrowAppend(EmptyRoot, a, [e1, e2]);
    GrowAppend(EmptyRoot, a, [e2, e1]);
    GrowLast(Grow(EmptyRoot, a), [e1], e2);
    GrowLast(Grow(EmptyRoot, a), [e2], e1);
    GrowLast(Grow(EmptyRoot, a), [], e1);
    GrowLast(Grow(EmptyRoot, a), [], e2);
    AddPathCommutes(Grow(EmptyRoot, a), PathOf(e1), PathOf(e2));
  }

  /** Some record is filed under a path that q is a prefix of. */
  predicate Filed(entries: seq<LdifEntry>, q: seq<string>) {
    exists i :: 0 <= i < |entries| && q <= PathOf(entries[i])
  }

  lemma FiledLast(init: seq<LdifEntry>, e: LdifEntry, q: seq<string>)
    ensures Filed(init + [e], q) <==> Filed(init, q) || q <= PathOf(e)
  {
    var entries := init + [e];
    if Filed(init, q) {
      var i :| 0 <= i < |init| && q <= PathOf(init[i]);
      assert entries[i] == init[i];
    }
    assert entries[|init|] == e;
  }

  /** The paths of the tree are exactly the empty path and the prefixes of
      the records' paths. */
  lemma {:induction false} TreePaths(entries: seq<LdifEntry>, q: seq<string>)
    ensures HasPath(TreeOf(entries), q) <==> q == [] || Filed(entries, q)
    decreases |entries|
  {
    if entries == [] {
      LeafPaths(RootName, q);
    } else {
      var n := |entries| - 1;
      var init := entries[..n];
      TreePaths(init, q);
      AddPathPaths(TreeOf(init), PathOf(entries[n]), q);
      FiledLast(init, entries[n], q);
      SplitLast(entries);
    }
  }

  /** A record without an organisation, or of the branch office, leaves the
      tree as it was. */
  lemma SkippedRecord(entries: seq<LdifEntry>, e: LdifEntry)
    requires e.o == [] || e.o == Branch
    ensures TreeOf(entries + [e]) == TreeOf(entries)
  {
    GrowLast(EmptyRoot, entries, e);
  }

  /** A record filed under the same names as an earlier one adds nothing. */
  lemma RepeatedRecord(entries: seq<LdifEntry>, e: LdifEntry)
    requires exists i :: 0 <= i < |entries| && PathOf(entries[i]) == PathOf(e)
    ensures TreeOf(entries + [e]) == TreeOf(entries)
  {
    GrowLast(EmptyRoot, entries, e);
    TreePaths(entries, PathOf(e));
    AddPathPresent(TreeOf(entries), PathOf(e));
  }

  /** Every child is filed under its own name, at every level. */
  ghost predicate WellFormed(n: OrgNode) {
    forall k :: k in n.children ==> n.children[k].name == k && WellFormed(n.children[k])
  }

  lemma {:induction false} AddPathWellFormed(n: OrgNode, p: seq<string>)
    requires WellFormed(n)
    ensures WellFormed(AddPath(n, p)) && AddPath(n, p).name == n.name
    decreases |p|
  {
    if p != [] {
      AddPathWellFormed(Child(n, p[0]), p[1..]);
    }
  }

  /** The tree is rooted at "Organization" and every node carries the name it
      is filed under. */
  lemma {:induction false} TreeWellFormed(entries: seq<LdifEntry>)
    ensures WellFormed(TreeOf(entries)) && TreeOf(entries).name == RootName
    decreases |entries|
  {
    if entries != [] {
      TreeWellFormed(entries[..|entries| - 1]);
      AddPathWellFormed(TreeOf(entries[..|entries| - 1]), PathOf(entries[|entries| - 1]));
    }
  }

  /** No node lies more than d levels below n. */
  ghost predicate DepthAtMost(n: OrgNode, d: nat) {
    forall k :: k in n.children ==> d > 0 && DepthAtMost(n.children[k], d - 1)
  }

  lemma {:induction false} AddPathDepth(n: OrgNode, p: seq<string>, d: nat)
    requires DepthAtMost(n, d) && |p| <= d
    ensures DepthAtMost(AddPath(n, p), d)
    decreases |p|
  {
    if p != [] {
      AddPathDepth(Child(n, p[0]), p[1..], d - 1);
    }
  }

  /** A record is filed at most three levels deep (organisation, department,
      unit), and at most two when its o value has no ','. */
  lemma PathLength(e: LdifEntry)
    ensures |PathOf(e)| <= 3
    ensures ',' !in e.o ==> |PathOf(e)| <= 2
  {
  }

  /** The tree has at most three levels below the root, and at most two when
      no organisation names a department. */
  lemma {:induction false} TreeDepth(entries: seq<LdifEntry>, d: nat)
    requires d == 3 || (d == 2 && forall i :: 0 <= i < |entries| ==> ',' !in entries[i].o)
    ensures DepthAtMost(TreeOf(entries), d)
    decreases |entries|
  {
    if entries != [] {
      var n := |entries| - 1;
      TreeDepth(entries[..n], d);
      PathLength(entries[n]);
      AddPathDepth(TreeOf(entries[..n]), PathOf(entries[n]), d);
    }
  }
}
