/** The snapshot tree the browser walks: lists per directory, sizes, and how every
    node is reached. */
module SnapshotBrowse {
  import opened RunModel
  import opened SnapshotTrees

  function ChildrenOf(children: map<Path, seq<LsNode>>, d: Path): seq<LsNode> {
    if d in children then children[d] else []
  }

  predicate IsChild(nodes: map<Path, LsNode>, among: set<Path>, d: Path, n: LsNode) {
    n.path != [] && Parent(n.path) == d && n.path in among && n.path in nodes && nodes[n.path] == n
  }

  ghost predicate OnlyChildren(list: seq<LsNode>, nodes: map<Path, LsNode>, among: set<Path>, d: Path) {
    forall i | 0 <= i < |list| :: IsChild(nodes, among, d, list[i])
  }

  ghost predicate NoneMissing(list: seq<LsNode>, nodes: map<Path, LsNode>, among: set<Path>, d: Path) {
    forall p | p in among && p in nodes && p != [] && Parent(p) == d :: nodes[p] in list
  }

  ghost predicate Once(list: seq<LsNode>) {
    forall i, j | 0 <= i < j < |list| :: list[i].path != list[j].path
  }

  /** The list holds exactly the nodes among the given paths directly inside d,
      each of them once. */
  ghost predicate ExactList(list: seq<LsNode>, nodes: map<Path, LsNode>, among: set<Path>, d: Path) {
    OnlyChildren(list, nodes, among, d) && NoneMissing(list, nodes, among, d) && Once(list)
  }

  ghost predicate Named(nodes: map<Path, LsNode>) {
    [] !in nodes && forall p | p in nodes :: nodes[p].path == p
  }

  function Sized(n: LsNode, sizes: map<Path, int>): LsNode {
    if n.dir then n.(size := SizeOf(sizes, n.path)) else n
  }

  lemma OneMoreChild(list: seq<LsNode>, nodes: map<Path, LsNode>, done: set<Path>, p: Path, d: Path)
    requires Named(nodes) && p in nodes && p !in done && Parent(p) == d
    requires ExactList(list, nodes, done, d)
    ensures ExactList(list + [nodes[p]], nodes, done + {p}, d)
  {
    var more := list + [nodes[p]];
    assert more[|list|] == nodes[p];
    assert OnlyChildren(more, nodes, done + {p}, d) by {
      forall i | 0 <= i < |list| ensures IsChild(nodes, done + {p}, d, list[i]) {
        assert IsChild(nodes, done, d, list[i]);
      }
    }
    assert Once(more) by {
      forall i | 0 <= i < |list| ensures list[i].path != nodes[p].path {
        assert IsChild(nodes, done, d, list[i]);
      }
    }
  }

  lemma OtherChild(list: seq<LsNode>, nodes: map<Path, LsNode>, done: set<Path>, p: Path, d: Path)
    requires p != [] && Parent(p) != d && ExactList(list, nodes, done, d)
    ensures ExactList(list, nodes, done + {p}, d)
  {
    forall i | 0 <= i < |list| ensures IsChild(nodes, done + {p}, d, list[i]) {
      assert IsChild(nodes, done, d, list[i]);
    }
  }

  ghost predicate Exact(children: map<Path, seq<LsNode>>, nodes: map<Path, LsNode>, among: set<Path>) {
    forall d :: ExactList(ChildrenOf(children, d), nodes, among, d)
  }

  lemma LinkOne(children: map<Path, seq<LsNode>>, nodes: map<Path, LsNode>, done: set<Path>, p: Path)
    requires Named(nodes) && p in nodes && p !in done && Exact(children, nodes, done)
    ensures Exact(children[Parent(p) := ChildrenOf(children, Parent(p)) + [nodes[p]]], nodes, done + {p})
  {
    var more := children[Parent(p) := ChildrenOf(children, Parent(p)) + [nodes[p]]];
    forall d ensures ExactList(ChildrenOf(more, d), nodes, done + {p}, d) {
      assert ExactList(ChildrenOf(children, d), nodes, done, d);
      if d == Parent(p) {
        OneMoreChild(ChildrenOf(children, d), nodes, done, p, d);
      } else {
        OtherChild(ChildrenOf(children, d), nodes, done, p, d);
      }
    }
  }

  /** The paths left still have their bare nodes, the others their final ones. */
  ghost predicate Partly(nodes: map<Path, LsNode>, final: map<Path, LsNode>, left: set<Path>, out: map<Path, LsNode>) {
    && out.Keys == nodes.Keys == final.Keys
    && forall p | p in nodes :: out[p] == if p in left then nodes[p] else final[p]
  }

  ghost predicate Linked(nodes: map<Path, LsNode>, final: map<Path, LsNode>, left: set<Path>,
                         out: map<Path, LsNode>, children: map<Path, seq<LsNode>>)
  {
    left <= nodes.Keys && Partly(nodes, final, left, out) && Exact(children, final, nodes.Keys - left)
  }

  /** Gives one directory its size and one node its place in its parent's list. */
  method LinkNode(nodes: map<Path, LsNode>, sizes: map<Path, int>, p: Path, out: map<Path, LsNode>,
                  children: map<Path, seq<LsNode>>, ghost final: map<Path, LsNode>, ghost left: set<Path>)
    returns (out': map<Path, LsNode>, children': map<Path, seq<LsNode>>)
    requires Named(nodes) && final == map q | q in nodes :: Sized(nodes[q], sizes)
    requires Linked(nodes, final, left, out, children) && p in left
    ensures Linked(nodes, final, left - {p}, out', children')
  {
    out' := if out[p].dir then out[p := out[p].(size := SizeOf(sizes, p))] else out;
    children' := children[Parent(p) := ChildrenOf(children, Parent(p)) + [out'[p]]];
    assert Named(final);
    LinkOne(children, final, nodes.Keys - left, p);
    assert nodes.Keys - (left - {p}) == nodes.Keys - left + {p};
  }

  /** Gives every directory its size and every node its place in its parent's list. */
  method LinkChildren(nodes: map<Path, LsNode>, sizes: map<Path, int>)
    returns (out: map<Path, LsNode>, children: map<Path, seq<LsNode>>)
    requires Named(nodes)
    ensures out == map p | p in nodes :: Sized(nodes[p], sizes)
    ensures Exact(children, out, out.Keys)
  {
    ghost var final := map p | p in nodes :: Sized(nodes[p], sizes);
    out, children := nodes, map[];
    var left := nodes.Keys;
    assert Exact(children, final, {});
    assert nodes.Keys - left == {};
    while left != {}
      invariant Linked(nodes, final, left, out, children)
      decreases |left|
    {
      var p :| p in left;
      out, children := LinkNode(nodes, sizes, p, out, children, final, left);
      left := left - {p};
    }
    assert nodes.Keys - left == nodes.Keys;
    assert out == final;
  }

  /** What a node of the tree is: as listed, a directory with the total size of the
      files below it. */
  ghost predicate IsNode(listed: seq<LsNode>, nodes: map<Path, LsNode>, p: Path) {
    p in nodes ==>
      var n := NodeFor(listed, p);
      nodes[p] == if n.dir then n.(size := Total(nodes, FilesBelow(nodes, nodes.Keys, p))) else n
  }

  ghost predicate Indexed(listed: seq<LsNode>, nodes: map<Path, LsNode>, children: map<Path, seq<LsNode>>) {
    && (forall p :: p in nodes <==> Spanned(listed, p))
    && (forall p :: IsNode(listed, nodes, p))
    && Exact(children, nodes, nodes.Keys)
  }

  lemma FinalNode(listed: seq<LsNode>, nodes: map<Path, LsNode>, sizes: map<Path, int>, out: map<Path, LsNode>, p: Path)
    requires Named(nodes) && p in nodes && nodes[p] == NodeFor(listed, p)
    requires SizeOf(sizes, p) == Total(nodes, FilesBelow(nodes, nodes.Keys, p))
    requires out == map q | q in nodes :: Sized(nodes[q], sizes)
    ensures IsNode(listed, out, p)
  {
    var files := FilesBelow(nodes, nodes.Keys, p);
    assert files == FilesBelow(out, out.Keys, p);
    TotalSame(nodes, out, files);
  }

  class SnapshotTree {
    var nodes: map<Path, LsNode>
    var children: map<Path, seq<LsNode>>
    ghost const listed: seq<LsNode>

    ghost predicate Valid()
      reads this
    {
      Indexed(listed, nodes, children)
    }

    constructor (listing: seq<LsNode>)
      requires BelowRoot(listing)
      ensures Valid() && listed == listing
    {
      listed := listing;
      nodes, children := map[], map[];
      new;
      var bare := IndexNodes(listing);
      forall p | p in bare ensures bare[p].path == p { LastListedOf(listing, p); }
      var sizes := SumSizes(bare);
      var out, lists := LinkChildren(bare, sizes);
      forall p ensures IsNode(listing, out, p) {
        if p in out { FinalNode(listing, bare, sizes, out, p); }
      }
      nodes, children := out, lists;
    }

    /** The entries directly inside a directory, and whether it is one. */
    method List(dir: Path) returns (list: seq<LsNode>, found: bool)
      requires Valid()
      ensures found <==> dir == [] || (dir in nodes && nodes[dir].dir)
      ensures found ==> ExactList(list, nodes, nodes.Keys, dir)
      ensures !found ==> list == []
    {
      if dir != [] {
        if dir !in nodes || !nodes[dir].dir {
          return [], false;
        }
      }
      return ChildrenOf(children, dir), true;
    }

    method Has(p: Path) returns (has: bool)
      requires Valid()
      ensures has <==> Spanned(listed, p)
    {
      has := p in nodes;
    }
  }

  // ---- the tree --------------------------------------------------------------------

  /** restic lists a path with something below it as a directory. */
  ghost predicate DirsAbove(listed: seq<LsNode>) {
    forall n, p | n in listed && Below(p, n.path) :: NodeFor(listed, p).dir
  }

  /** The tree is closed under parents, and all of them are directories. */
  lemma ParentIsDir(listed: seq<LsNode>, nodes: map<Path, LsNode>, children: map<Path, seq<LsNode>>, p: Path)
    requires Indexed(listed, nodes, children) && DirsAbove(listed)
    requires p in nodes && |p| > 1
    ensures Parent(p) in nodes && nodes[Parent(p)].dir
  {
    SpannedParent(listed, p);
    assert IsNode(listed, nodes, Parent(p));
    var n :| n in listed && Within(p, n.path);
    WithinTrans(Parent(p), p, n.path);
    assert Below(Parent(p), n.path);
  }

  lemma {:induction false} AncestorIsDir(listed: seq<LsNode>, nodes: map<Path, LsNode>, children: map<Path, seq<LsNode>>,
                                         p: Path, k: nat)
    requires Indexed(listed, nodes, children) && DirsAbove(listed)
    requires p in nodes && 1 <= k < |p|
    ensures p[..k] in nodes && nodes[p[..k]].dir
    decreases |p|
  {
    ParentIsDir(listed, nodes, children, p);
    if k < |p| - 1 {
      AncestorIsDir(listed, nodes, children, Parent(p), k);
      assert Parent(p)[..k] == p[..k];
    }
  }

  function SumList(list: seq<LsNode>): int {
    if list == [] then 0 else SumList(list[..|list| - 1]) + list[|list| - 1].size
  }

  ghost function FilesWithin(nodes: map<Path, LsNode>, c: Path): set<Path> {
    set p | p in nodes && !nodes[p].dir && Within(c, p)
  }

  ghost function FilesUnder(nodes: map<Path, LsNode>, list: seq<LsNode>): set<Path> {
    set p | p in nodes && !nodes[p].dir && exists n :: n in list && Within(n.path, p)
  }

  /** A child's size is the total size of the files it is or holds. */
  lemma ChildSize(listed: seq<LsNode>, nodes: map<Path, LsNode>, children: map<Path, seq<LsNode>>, c: Path)
    requires Indexed(listed, nodes, children) && DirsAbove(listed) && c in nodes
    ensures Total(nodes, FilesWithin(nodes, c)) == nodes[c].size
  {
    assert IsNode(listed, nodes, c);
    if nodes[c].dir {
      assert forall p | p in nodes && |p| == |c| && Within(c, p) :: p == p[..|c|] == c;
      assert FilesWithin(nodes, c) == FilesBelow(nodes, nodes.Keys, c);
    } else {
      forall p | p in nodes && Within(c, p) ensures p == c {
        if |c| < |p| {
          AncestorIsDir(listed, nodes, children, p, |c|);
        } else {
          assert p == p[..|c|];
        }
      }
      assert Within(c, c);
      assert FilesWithin(nodes, c) == {c};
      TotalRemove(nodes, {c}, c);
    }
  }

  lemma {:induction false} ChildrenSum(listed: seq<LsNode>, nodes: map<Path, LsNode>, children: map<Path, seq<LsNode>>,
                                       d: Path, list: seq<LsNode>)
    requires Indexed(listed, nodes, children) && DirsAbove(listed)
    requires list <= ChildrenOf(children, d)
    ensures SumList(list) == Total(nodes, FilesUnder(nodes, list))
    decreases |list|
  {
    if list == [] {
      assert FilesUnder(nodes, list) == {};
    } else {
      var init, c := list[..|list| - 1], list[|list| - 1];
      assert list == init + [c];
      LastApart(nodes, list, d, ChildrenOf(children, d));
      ChildrenSum(listed, nodes, children, d, init);
      ChildSize(listed, nodes, children, c.path);
      TotalUnion(nodes, FilesUnder(nodes, init), FilesWithin(nodes, c.path));
    }
  }

  lemma LastApart(nodes: map<Path, LsNode>, list: seq<LsNode>, d: Path, all: seq<LsNode>)
    requires list != [] && list <= all && ExactList(all, nodes, nodes.Keys, d)
    ensures var init, c := list[..|list| - 1], list[|list| - 1];
            && c.path in nodes && nodes[c.path] == c
            && FilesUnder(nodes, list) == FilesUnder(nodes, init) + FilesWithin(nodes, c.path)
            && FilesUnder(nodes, init) !! FilesWithin(nodes, c.path)
  {
    var init, k := list[..|list| - 1], |list| - 1;
    var c := all[k];
    assert list == init + [c];
    assert IsChild(nodes, nodes.Keys, d, c);
    forall p | p in FilesUnder(nodes, init) ensures p !in FilesWithin(nodes, c.path) {
      var n :| n in init && Within(n.path, p);
      var i :| 0 <= i < |init| && init[i] == n;
      assert all[i] == n && IsChild(nodes, nodes.Keys, d, all[i]);
      SiblingsApart(n.path, c.path, d, p);
    }
  }

  lemma SiblingsApart(a: Path, b: Path, d: Path, p: Path)
    requires a != [] && b != [] && Parent(a) == d == Parent(b) && a != b
    ensures !(Within(a, p) && Within(b, p))
  {
  }

  /** The sizes of a directory's entries add up to the total size of the files
      below it, which is the size of the directory. */
  lemma SizeIsSumOfChildren(listed: seq<LsNode>, nodes: map<Path, LsNode>, children: map<Path, seq<LsNode>>, d: Path)
    requires Indexed(listed, nodes, children) && DirsAbove(listed)
    requires d == [] || (d in nodes && nodes[d].dir)
    ensures SumList(ChildrenOf(children, d)) == Total(nodes, FilesBelow(nodes, nodes.Keys, d))
    ensures d != [] ==> nodes[d].size == SumList(ChildrenOf(children, d))
  {
    var list := ChildrenOf(children, d);
    assert ExactList(list, nodes, nodes.Keys, d);
    ChildrenSum(listed, nodes, children, d, list);
    forall p | p in nodes && !nodes[p].dir ensures Below(d, p) <==> exists n :: n in list && Within(n.path, p) {
      BelowThroughChild(listed, nodes, children, d, p);
    }
    assert FilesUnder(nodes, list) == FilesBelow(nodes, nodes.Keys, d);
    assert IsNode(listed, nodes, d);
  }

  lemma BelowThroughChild(listed: seq<LsNode>, nodes: map<Path, LsNode>, children: map<Path, seq<LsNode>>, d: Path, p: Path)
    requires Indexed(listed, nodes, children) && DirsAbove(listed) && p in nodes
    ensures Below(d, p) <==> exists n :: n in ChildrenOf(children, d) && Within(n.path, p)
  {
    var list := ChildrenOf(children, d);
    assert ExactList(list, nodes, nodes.Keys, d);
    if Below(d, p) {
      var c := p[..|d| + 1];
      if |d| + 1 < |p| { AncestorIsDir(listed, nodes, children, p, |d| + 1); } else { assert c == p; }
      ChildListed(listed, nodes, children, d, c);
    }
    if n :| n in list && Within(n.path, p) {
      WithinTrans(d, n.path, p);
    }
  }

  lemma ChildListed(listed: seq<LsNode>, nodes: map<Path, LsNode>, children: map<Path, seq<LsNode>>, d: Path, c: Path)
    requires Indexed(listed, nodes, children) && c in nodes && c != [] && Parent(c) == d
    ensures nodes[c] in ChildrenOf(children, d) && nodes[c].path == c
  {
    assert ExactList(ChildrenOf(children, d), nodes, nodes.Keys, d);
    assert IsNode(listed, nodes, c);
    LastListedOf(listed, c);
  }

  // ---- the walk from the root ----------------------------------------------------------

  /** Opening d shows p. */
  ghost predicate Shows(nodes: map<Path, LsNode>, children: map<Path, seq<LsNode>>, d: Path, p: Path) {
    && (d == [] || (d in nodes && nodes[d].dir))
    && exists n :: n in ChildrenOf(children, d) && n.path == p
  }

  /** Clicking from the root through the entries listed. */
  ghost predicate Walk(nodes: map<Path, LsNode>, children: map<Path, seq<LsNode>>, w: seq<Path>) {
    && w != [] && w[0] == []
    && forall i | 0 < i < |w| :: Shows(nodes, children, w[i - 1], w[i])
  }

  function Prefixes(p: Path): seq<Path> {
    if p == [] then [[]] else Prefixes(Parent(p)) + [p]
  }

  lemma {:induction false} WalkThere(listed: seq<LsNode>, nodes: map<Path, LsNode>, children: map<Path, seq<LsNode>>, p: Path)
    requires Indexed(listed, nodes, children) && DirsAbove(listed)
    requires p in nodes || p == []
    ensures Walk(nodes, children, Prefixes(p)) && Prefixes(p)[|Prefixes(p)| - 1] == p
    decreases |p|
  {
    if p != [] {
      if |p| > 1 { ParentIsDir(listed, nodes, children, p); }
      WalkThere(listed, nodes, children, Parent(p));
      ChildListed(listed, nodes, children, Parent(p), p);
      assert Shows(nodes, children, Parent(p), p);
    }
  }

  lemma ShownChild(listed: seq<LsNode>, nodes: map<Path, LsNode>, children: map<Path, seq<LsNode>>, d: Path, p: Path)
    requires Indexed(listed, nodes, children) && Shows(nodes, children, d, p)
    ensures p in nodes && p != [] && Parent(p) == d
  {
    var list := ChildrenOf(children, d);
    assert ExactList(list, nodes, nodes.Keys, d);
    var n :| n in list && n.path == p;
    var i :| 0 <= i < |list| && list[i] == n;
    assert IsChild(nodes, nodes.Keys, d, list[i]);
  }

  lemma WalkInit(nodes: map<Path, LsNode>, children: map<Path, seq<LsNode>>, w: seq<Path>)
    requires Walk(nodes, children, w) && |w| > 1
    ensures Walk(nodes, children, w[..|w| - 1]) && Shows(nodes, children, w[|w| - 2], w[|w| - 1])
  {
  }

  ghost predicate ShowsChildren(nodes: map<Path, LsNode>, children: map<Path, seq<LsNode>>) {
    forall d, p | Shows(nodes, children, d, p) :: p in nodes && p != [] && Parent(p) == d
  }

  lemma {:induction false} OnlyWalk(nodes: map<Path, LsNode>, children: map<Path, seq<LsNode>>, w: seq<Path>)
    requires ShowsChildren(nodes, children) && Walk(nodes, children, w)
    ensures w == Prefixes(w[|w| - 1]) && (|w| > 1 ==> w[|w| - 1] in nodes)
    decreases |w|
  {
    if |w| > 1 {
      WalkInit(nodes, children, w);
      OnlyWalk(nodes, children, w[..|w| - 1]);
      assert w == w[..|w| - 1] + [w[|w| - 1]];
    } else {
      assert w == [[]];
    }
  }

  /** Walking from the root reaches every node, each in exactly one way. */
  lemma ReachedOnce(listed: seq<LsNode>, nodes: map<Path, LsNode>, children: map<Path, seq<LsNode>>, w: seq<Path>, p: Path)
    requires Indexed(listed, nodes, children) && DirsAbove(listed) && p in nodes
    ensures Walk(nodes, children, w) && w[|w| - 1] == p <==> w == Prefixes(p)
  {
    WalkThere(listed, nodes, children, p);
    forall d, q | Shows(nodes, children, d, q) ensures q in nodes && q != [] && Parent(q) == d {
      ShownChild(listed, nodes, children, d, q);
    }
    if Walk(nodes, children, w) { OnlyWalk(nodes, children, w); }
  }
}
