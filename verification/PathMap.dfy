/** The map between paths on the Docker host and paths inside this container. */
module PathMaps {
  import opened RunModel
  import opened Paths

  /** A mount: `from` is a folder on one side and `to` the same folder on the other. */
  datatype Mapping = Mapping(from: string, to: string)

  /** filepath.Join of two elements. */
  function PathJoin(a: string, b: string): string {
    if a == "" && b == "" then ""
    else if a == "" then Clean(b)
    else if b == "" then Clean(a)
    else Clean(a + "/" + b)
  }

  predicate Contains(m: seq<Mapping>, i: nat, p: string)
    requires i < |m|
  {
    PathWithin(p, m[i].from).Some?
  }

  /** Mapping i is the first of the longest that contain the path. */
  ghost predicate Chosen(m: seq<Mapping>, i: nat, p: string) {
    && i < |m| && Contains(m, i, p)
    && (forall j: nat | j < i && Contains(m, j, p) :: |m[j].from| < |m[i].from|)
    && (forall j: nat | i < j < |m| && Contains(m, j, p) :: |m[j].from| <= |m[i].from|)
  }

  function Mapped(m: seq<Mapping>, i: nat, p: string): string
    requires i < |m| && Contains(m, i, p)
  {
    PathJoin(m[i].to, PathWithin(p, m[i].from).value)
  }

  /** pathMap.toLocal and, with the two sides exchanged, pathMap.toHost. */
  method Translate(m: seq<Mapping>, path: string) returns (best: string, ok: bool)
    ensures ok <==> exists i: nat :: i < |m| && Contains(m, i, Clean(path))
    ensures ok ==> exists i: nat :: Chosen(m, i, Clean(path)) && best == Mapped(m, i, Clean(path))
    ensures !ok ==> best == ""
  {
    var p := Clean(path);
    best := "";
    var bestLen := -1;
    ghost var at: nat := 0;
    for n := 0 to |m|
      invariant SoFar(m, n, p, best, bestLen, at)
    {
      var rel := PathWithin(p, m[n].from);
      if bestLen != -1 { ChosenGrows(m, n, at, p); } else if rel.Some? { ChosenFirst(m, n, p); }
      if rel.Some? && |m[n].from| > bestLen {
        best, bestLen := PathJoin(m[n].to, rel.value), |m[n].from|;
        at := n;
      }
    }
    assert m[..|m|] == m;
    ok := bestLen >= 0;
  }

  /** What is known of the first n mappings. */
  ghost predicate SoFar(m: seq<Mapping>, n: nat, p: string, best: string, bestLen: int, at: nat) {
    n <= |m| &&
    if bestLen == -1 then best == "" && forall j: nat | j < n :: !Contains(m, j, p)
    else at < n && Chosen(m[..n], at, p) && Contains(m, at, p) && best == Mapped(m, at, p) && bestLen == |m[at].from|
  }

  lemma ChosenGrows(m: seq<Mapping>, n: nat, at: nat, p: string)
    requires n < |m| && Chosen(m[..n], at, p)
    ensures Chosen(m[..n + 1], if Contains(m, n, p) && |m[n].from| > |m[at].from| then n else at, p)
  {
    assert forall j: nat | j < n :: m[..n][j] == m[j] && Contains(m[..n], j, p) == Contains(m, j, p);
    assert forall j: nat | j <= n :: m[..n + 1][j] == m[j] && Contains(m[..n + 1], j, p) == Contains(m, j, p);
  }

  lemma ChosenFirst(m: seq<Mapping>, n: nat, p: string)
    requires n < |m| && Contains(m, n, p) && forall j: nat | j < n :: !Contains(m, j, p)
    ensures Chosen(m[..n + 1], n, p)
  {
    assert forall j: nat | j <= n :: m[..n + 1][j] == m[j] && Contains(m[..n + 1], j, p) == Contains(m, j, p);
  }

  // ---- clean absolute paths -----------------------------------------------------------

  /** A mapping between clean absolute folders, by their names. */
  datatype Mount = Mount(from: seq<string>, to: seq<string>) {
    function Paths(): Mapping {
      Mapping(Abs(from), Abs(to))
    }

    function Back(): Mount {
      Mount(to, from)
    }
  }

  ghost predicate AllNames(ms: seq<Mount>) {
    forall i | 0 <= i < |ms| :: Names(ms[i].from) && Names(ms[i].to)
  }

  function Mappings(ms: seq<Mount>): seq<Mapping> {
    seq(|ms|, i requires 0 <= i < |ms| => ms[i].Paths())
  }

  function Reverse(ms: seq<Mount>): seq<Mount> {
    seq(|ms|, i requires 0 <= i < |ms| => ms[i].Back())
  }

  lemma SliceNames(a: seq<string>, k: nat)
    requires Names(a) && k <= |a|
    ensures Names(a[..k]) && Names(a[k..])
  {
  }

  /** Joining a folder and the names below it appends them. */
  lemma JoinIsAppend(l: seq<string>, rest: seq<string>)
    requires Names(l) && Names(rest)
    ensures Names(l + rest) && PathJoin(Abs(l), Join(rest)) == Abs(l + rest)
  {
    JoinEmpty(rest);
    if rest == [] {
      assert l + rest == l;
      NamesClean(l);
    } else if l == [] {
      assert l + rest == rest;
      var s := Abs(l) + "/" + Join(rest);
      assert s == "" + "/" + Abs(rest);
      SplitConcat("", Abs(rest));
      ReduceSkipsEmpty(Split(Abs(rest)), true);
      NamesClean(rest);
    } else {
      AbsConcat(l, rest);
      NamesClean(l + rest);
    }
  }

  /** A path inside a mount keeps its names below the mounted folder. */
  lemma MappedNames(ms: seq<Mount>, i: nat, a: seq<string>)
    requires AllNames(ms) && Names(a) && i < |ms|
    ensures Contains(Mappings(ms), i, Abs(a)) <==> ms[i].from <= a
    ensures ms[i].from <= a ==> Mapped(Mappings(ms), i, Abs(a)) == Abs(ms[i].to + a[|ms[i].from|..])
  {
    PathWithinIs(a, ms[i].from);
    if ms[i].from <= a {
      SliceNames(a, |ms[i].from|);
      JoinIsAppend(ms[i].to, a[|ms[i].from|..]);
    }
  }

  lemma AbsLonger(a: seq<string>, b: seq<string>)
    requires Names(b) && a <= b && |a| < |b|
    ensures |Abs(a)| < |Abs(b)|
  {
    var c := b[|a|..];
    assert b == a + c && c[0] in b;
    if a != [] { AbsConcat(a, c); } else { JoinEmpty(b); }
  }

  /** The mount chosen is the one with the deepest folder around the path. */
  lemma DeepestChosen(ms: seq<Mount>, i: nat, j: nat, a: seq<string>)
    requires AllNames(ms) && Names(a) && Chosen(Mappings(ms), i, Abs(a))
    requires j < |ms| && ms[j].from <= a
    ensures ms[i].from <= a && |ms[j].from| <= |ms[i].from|
  {
    MappedNames(ms, i, a);
    MappedNames(ms, j, a);
    if |ms[i].from| < |ms[j].from| {
      assert ms[i].from == a[..|ms[i].from|] && ms[j].from == a[..|ms[j].from|];
      AbsLonger(ms[i].from, ms[j].from);
    }
  }

  /** Mapping a path and mapping the result back gives the path again, if and only
      if the mount chosen on the way back lies as deep on this side, below the
      first mount, as on the other. */
  lemma BackAgainExactly(ms: seq<Mount>, i: nat, j: nat, a: seq<string>)
    requires AllNames(ms) && Names(a) && Chosen(Mappings(ms), i, Abs(a))
    requires var p := Mapped(Mappings(ms), i, Abs(a)); Chosen(Mappings(Reverse(ms)), j, p)
    ensures |ms[i].to| <= |ms[j].to|
    ensures Mapped(Mappings(Reverse(ms)), j, Mapped(Mappings(ms), i, Abs(a))) == Abs(a)
            <==> ms[j].from == ms[i].from + ms[j].to[|ms[i].to|..]
  {
    var back := Reverse(ms);
    MappedNames(ms, i, a);
    var h, l := ms[i].from, ms[i].to;
    var r := a[|h|..];
    SliceNames(a, |h|);
    assert a == h + r;
    var b := l + r;
    MappedNames(back, j, b);
    assert back[i].from == l && l <= b;
    DeepestChosen(back, j, i, b);
    assert back[j].from == ms[j].to && back[j].to == ms[j].from;
    SameBelow(h, l, ms[j].from, ms[j].to, r);
    SliceNames(b, |ms[j].to|);
    var again := ms[j].from + b[|ms[j].to|..];
    assert Names(again);
    if Abs(again) == Abs(a) { AbsInjective(again, a); }
  }

  lemma SameBelow(h: seq<string>, l: seq<string>, h': seq<string>, l': seq<string>, r: seq<string>)
    requires |l| <= |l'| && l' <= l + r
    ensures h' + (l + r)[|l'|..] == h + r <==> h' == h + l'[|l|..]
  {
    var k := |l'| - |l|;
    assert l' == (l + r)[..|l'|];
    assert l'[|l|..] == r[..k] && (l + r)[|l'|..] == r[k..];
    assert h + r == (h + r[..k]) + r[k..];
    if h' + r[k..] == h + r {
      assert |h'| == |h| + k;
      assert h' == (h' + r[k..])[..|h'|];
    }
  }
}
