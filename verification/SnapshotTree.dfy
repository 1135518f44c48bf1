/** The index of a snapshot's nodes by directory. A path is its list of names;
    the root "/" is the empty list. */
module SnapshotTrees {
  import opened RunModel

  type Path = seq<string>

  datatype LsNode = LsNode(path: Path, name: string, dir: bool, size: int)

  /** What restic lists: nodes below the root. */
  ghost predicate BelowRoot(listed: seq<LsNode>) {
    forall n | n in listed :: n.path != []
  }

  function Parent(p: Path): Path
    requires p != []
  {
    p[..|p| - 1]
  }

  function Base(p: Path): string {
    if p == [] then "" else p[|p| - 1]
  }

  /** p is d or lies below it. */
  predicate Within(d: Path, p: Path) {
    |d| <= |p| && p[..|d|] == d
  }

  /** p lies below d. */
  predicate Below(d: Path, p: Path) {
    |d| < |p| && Within(d, p)
  }

  lemma WithinTrans(a: Path, b: Path, c: Path)
    requires Within(a, b) && Within(b, c)
    ensures Within(a, c)
  {
    assert c[..|a|] == c[..|b|][..|a|];
  }

  /** The last node listed under a path. */
  function LastListed(listed: seq<LsNode>, p: Path): Option<LsNode> {
    if listed == [] then None
    else if listed[|listed| - 1].path == p then Some(listed[|listed| - 1])
    else LastListed(listed[..|listed| - 1], p)
  }

  /** The path is a listed one or an ancestor of one. */
  ghost predicate Spanned(listed: seq<LsNode>, p: Path) {
    p != [] && exists n :: n in listed && Within(p, n.path)
  }

  function Directory(p: Path): LsNode {
    LsNode(p, Base(p), true, 0)
  }

  /** The node that stands for a path: as listed, or a directory. */
  function NodeFor(listed: seq<LsNode>, p: Path): LsNode {
    match LastListed(listed, p)
    case Some(n) => n
    case None => Directory(p)
  }

  lemma {:induction false} LastListedOf(listed: seq<LsNode>, p: Path)
    ensures LastListed(listed, p).Some? <==> exists n :: n in listed && n.path == p
    ensures LastListed(listed, p).Some? ==> LastListed(listed, p).value.path == p && IsLastOf(listed, p, LastListed(listed, p).value)
  {
    if listed != [] {
      var init, k := listed[..|listed| - 1], |listed| - 1;
      assert listed == init + [listed[k]];
      if listed[k].path != p {
        LastListedOf(init, p);
        if LastListed(init, p).Some? {
          var i :| 0 <= i < |init| && init[i] == LastListed(init, p).value && forall j | i < j < |init| :: init[j].path != p;
          assert listed[i] == init[i] && forall j | i < j < k :: listed[j] == init[j];
        }
      }
    }
  }

  /** n stands last among the nodes listed under the path. */
  ghost predicate IsLastOf(listed: seq<LsNode>, p: Path, n: LsNode) {
    exists i :: 0 <= i < |listed| && listed[i] == n && n.path == p && forall j | i < j < |listed| :: listed[j].path != p
  }

  /** A listed path stands for what was listed under it last; any other for a
      directory of its last name, without a size of its own. */
  lemma NodeForExactly(listed: seq<LsNode>, p: Path)
    ensures if exists n :: n in listed && n.path == p then IsLastOf(listed, p, NodeFor(listed, p))
            else NodeFor(listed, p) == LsNode(p, if p == [] then "" else p[|p| - 1], true, 0)
  {
    LastListedOf(listed, p);
  }

  // ---- every ancestor is a node ------------------------------------------------------

  predicate ParentIn(nodes: map<Path, LsNode>, p: Path) {
    |p| <= 1 || Parent(p) in nodes
  }

  /** Every node outside `pending` has its parent. */
  ghost predicate ClosedBut(nodes: map<Path, LsNode>, pending: set<Path>) {
    forall p | p in nodes && p !in pending :: ParentIn(nodes, p)
  }

  ghost function Paths(listed: seq<LsNode>): set<Path> {
    set n | n in listed :: n.path
  }

  ghost predicate NodeOk(listed: seq<LsNode>, nodes: map<Path, LsNode>, p: Path) {
    p in nodes ==> Spanned(listed, p) && nodes[p] == NodeFor(listed, p)
  }

  ghost predicate AsListed(listed: seq<LsNode>, nodes: map<Path, LsNode>) {
    Paths(listed) <= nodes.Keys && forall p :: NodeOk(listed, nodes, p)
  }

  method IndexListed(listed: seq<LsNode>) returns (nodes: map<Path, LsNode>)
    requires BelowRoot(listed)
    ensures AsListed(listed, nodes) && nodes.Keys == Paths(listed)
  {
    nodes := map[];
    for i := 0 to |listed|
      invariant forall p :: p in nodes <==> LastListed(listed[..i], p).Some?
      invariant forall p | p in nodes :: nodes[p] == LastListed(listed[..i], p).value
    {
      assert listed[..i + 1][..i] == listed[..i];
      nodes := nodes[listed[i].path := listed[i]];
    }
    assert listed[..|listed|] == listed;
    forall p ensures p in nodes <==> p in Paths(listed) {
      LastListedOf(listed, p);
    }
    forall p | p in nodes ensures NodeOk(listed, nodes, p) {
      LastListedOf(listed, p);
      assert Within(p, p);
    }
  }

  lemma SpannedParent(listed: seq<LsNode>, p: Path)
    requires Spanned(listed, p) && |p| > 1
    ensures Spanned(listed, Parent(p))
  {
    var n :| n in listed && Within(p, n.path);
    WithinTrans(Parent(p), p, n.path);
  }

  lemma AddsAncestor(listed: seq<LsNode>, nodes: map<Path, LsNode>, child: Path, pending: set<Path>)
    requires AsListed(listed, nodes) && child in nodes && |child| > 1
    requires ClosedBut(nodes, pending + {child}) && Parent(child) !in nodes
    ensures var dir := Parent(child);
            var more := nodes[dir := Directory(dir)];
            AsListed(listed, more) && ClosedBut(more, pending + {dir})
  {
    var dir := Parent(child);
    var more := nodes[dir := Directory(dir)];
    LastListedOf(listed, dir);
    assert NodeOk(listed, nodes, child);
    SpannedParent(listed, child);
    forall p ensures NodeOk(listed, more, p) {
      assert NodeOk(listed, nodes, p);
    }
    forall p | p in more && p !in pending + {dir} ensures ParentIn(more, p) {
      assert p == child || ParentIn(nodes, p);
    }
  }

  /** Adds the ancestors of a node, up to the first that is there already. */
  method AddAncestors(listed: seq<LsNode>, path: Path, before: map<Path, LsNode>, ghost pending: set<Path>)
    returns (nodes: map<Path, LsNode>)
    requires AsListed(listed, before) && ClosedBut(before, pending + {path})
    requires path in before && path != []
    ensures AsListed(listed, nodes) && ClosedBut(nodes, pending)
  {
    nodes := before;
    var dir := Parent(path);
    ghost var child := path;
    while dir != []
      invariant child in nodes && child != [] && dir == Parent(child)
      invariant AsListed(listed, nodes) && ClosedBut(nodes, pending + {child})
      decreases |dir|
    {
      if dir in nodes {
        break;
      }
      AddsAncestor(listed, nodes, child, pending);
      nodes := nodes[dir := Directory(dir)];
      child := dir;
      dir := Parent(dir);
    }
    DropPending(nodes, child, pending);
  }

  lemma DropPending(nodes: map<Path, LsNode>, child: Path, pending: set<Path>)
    requires ClosedBut(nodes, pending + {child}) && ParentIn(nodes, child)
    ensures ClosedBut(nodes, pending)
  {
    forall p | p in nodes && p !in pending ensures ParentIn(nodes, p) {
      assert p == child || p !in pending + {child};
    }
  }

  /** The nodes are exactly the listed paths and their ancestors: the early break
      misses none. */
  method IndexNodes(listed: seq<LsNode>) returns (nodes: map<Path, LsNode>)
    requires BelowRoot(listed)
    ensures forall p :: p in nodes <==> Spanned(listed, p)
    ensures forall p | p in nodes :: nodes[p] == NodeFor(listed, p)
  {
    nodes := IndexListed(listed);
    for i := 0 to |listed|
      invariant AsListed(listed, nodes) && ClosedBut(nodes, Paths(listed[i..]))
    {
      assert Paths(listed[i..]) == Paths(listed[i + 1..]) + {listed[i].path};
      assert listed[i].path in Paths(listed);
      nodes := AddAncestors(listed, listed[i].path, nodes, Paths(listed[i + 1..]));
    }
    forall p ensures (p in nodes <==> Spanned(listed, p)) && (p in nodes ==> nodes[p] == NodeFor(listed, p)) {
      ExactlySpanned(listed, nodes, p);
    }
  }

  lemma ExactlySpanned(listed: seq<LsNode>, nodes: map<Path, LsNode>, p: Path)
    requires AsListed(listed, nodes) && ClosedBut(nodes, {})
    ensures p in nodes <==> Spanned(listed, p)
    ensures p in nodes ==> nodes[p] == NodeFor(listed, p)
  {
    assert NodeOk(listed, nodes, p);
    if Spanned(listed, p) {
      var n :| n in listed && Within(p, n.path);
      assert n.path in Paths(listed);
      AncestorIn(nodes, n.path, |p|);
    }
  }

  lemma {:induction false} AncestorIn(nodes: map<Path, LsNode>, p: Path, k: nat)
    requires ClosedBut(nodes, {}) && p in nodes && 1 <= k <= |p|
    ensures p[..k] in nodes
    decreases |p|
  {
    if k < |p| {
      assert ParentIn(nodes, p);
      AncestorIn(nodes, Parent(p), k);
      assert Parent(p)[..k] == p[..k];
    } else {
      assert p[..k] == p;
    }
  }

  // ---- sizes -----------------------------------------------------------------------

  ghost function Total(nodes: map<Path, LsNode>, s: set<Path>): int
    requires s <= nodes.Keys
  {
    if s == {} then 0 else
    var p :| p in s;
    nodes[p].size + Total(nodes, s - {p})
  }

  lemma {:induction false} TotalRemove(nodes: map<Path, LsNode>, s: set<Path>, p: Path)
    requires s <= nodes.Keys && p in s
    ensures Total(nodes, s) == nodes[p].size + Total(nodes, s - {p})
    decreases |s|
  {
    var q :| q in s && Total(nodes, s) == nodes[q].size + Total(nodes, s - {q});
    if q != p {
      TotalRemove(nodes, s - {q}, p);
      TotalRemove(nodes, s - {p}, q);
      assert s - {q} - {p} == s - {p} - {q};
    }
  }

  lemma {:induction false} TotalUnion(nodes: map<Path, LsNode>, a: set<Path>, b: set<Path>)
    requires a + b <= nodes.Keys && a !! b
    ensures Total(nodes, a + b) == Total(nodes, a) + Total(nodes, b)
    decreases |a|
  {
    if a == {} {
      assert a + b == b;
    } else {
      var p :| p in a;
      TotalUnion(nodes, a - {p}, b);
      TotalRemove(nodes, a, p);
      TotalRemove(nodes, a + b, p);
      assert a + b - {p} == (a - {p}) + b;
    }
  }

  lemma {:induction false} TotalSame(nodes: map<Path, LsNode>, other: map<Path, LsNode>, s: set<Path>)
    requires s <= nodes.Keys && s <= other.Keys
    requires forall p | p in s :: nodes[p].size == other[p].size
    ensures Total(nodes, s) == Total(other, s)
    decreases |s|
  {
    if s != {} {
      var p :| p in s;
      TotalSame(nodes, other, s - {p});
      TotalRemove(nodes, s, p);
      TotalRemove(other, s, p);
    }
  }

  /** The files among some paths that lie below a directory. */
  ghost function FilesBelow(nodes: map<Path, LsNode>, among: set<Path>, d: Path): set<Path> {
    set p | p in among && p in nodes && !nodes[p].dir && Below(d, p)
  }

  function SizeOf(sizes: map<Path, int>, d: Path): int {
    if d in sizes then sizes[d] else 0
  }

  /** Adds a file's size to each of its ancestors. */
  method AddUp(before: map<Path, int>, p: Path, size: int) returns (sizes: map<Path, int>)
    requires p != []
    ensures forall d :: SizeOf(sizes, d) == SizeOf(before, d) + if Below(d, p) then size else 0
  {
    sizes := before;
    var dir := Parent(p);
    while true
      invariant Below(dir, p)
      invariant forall d :: SizeOf(sizes, d) == SizeOf(before, d) + if Below(d, p) && |d| > |dir| then size else 0
      decreases |dir|
    {
      forall d | Below(d, p) && |d| == |dir| ensures d == dir {
        assert d == p[..|d|];
      }
      sizes := sizes[dir := SizeOf(sizes, dir) + size];
      if dir == [] {
        break;
      }
      WithinTrans(Parent(dir), dir, p);
      dir := Parent(dir);
    }
  }

  method SumSizes(nodes: map<Path, LsNode>) returns (sizes: map<Path, int>)
    requires [] !in nodes
    ensures forall d :: SizeOf(sizes, d) == Total(nodes, FilesBelow(nodes, nodes.Keys, d))
  {
    sizes := map[];
    var left := nodes.Keys;
    while left != {}
      invariant left <= nodes.Keys
      invariant forall d :: SizeOf(sizes, d) == Total(nodes, FilesBelow(nodes, nodes.Keys - left, d))
      decreases |left|
    {
      var p :| p in left;
      ghost var done := nodes.Keys - left;
      forall d ensures Total(nodes, FilesBelow(nodes, done + {p}, d)) ==
                       Total(nodes, FilesBelow(nodes, done, d)) + if !nodes[p].dir && Below(d, p) then nodes[p].size else 0 {
        OneMoreFile(nodes, done, p, d);
      }
      if !nodes[p].dir {
        sizes := AddUp(sizes, p, nodes[p].size);
      }
      left := left - {p};
      assert nodes.Keys - left == done + {p};
    }
    assert nodes.Keys - left == nodes.Keys;
  }

  lemma OneMoreFile(nodes: map<Path, LsNode>, done: set<Path>, p: Path, d: Path)
    requires p in nodes && p !in done
    ensures Total(nodes, FilesBelow(nodes, done + {p}, d)) ==
            Total(nodes, FilesBelow(nodes, done, d)) + if !nodes[p].dir && Below(d, p) then nodes[p].size else 0
  {
    var was, now := FilesBelow(nodes, done, d), FilesBelow(nodes, done + {p}, d);
    if !nodes[p].dir && Below(d, p) {
      TotalRemove(nodes, now, p);
      assert now - {p} == was;
    } else {
      assert now == was;
    }
  }
}
