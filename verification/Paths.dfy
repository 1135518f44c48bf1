/** Unix paths as strings: cleaning, containment, and the map between host paths
    and this container's paths. */
module Paths {
  import opened RunModel
  import opened Sequences

  // ---- names -----------------------------------------------------------------------

  predicate NoSlash(c: string) {
    '/' !in c
  }

  /** A component that cleaning keeps as it is. */
  predicate Name(c: string) {
    c != "" && c != "." && c != ".." && NoSlash(c)
  }

  ghost predicate Names(cs: seq<string>) {
    forall c | c in cs :: Name(c)
  }

  function Split(s: string): (cs: seq<string>)
    ensures cs != []
  {
    if s == "" then [""]
    else if s[0] == '/' then [""] + Split(s[1..])
    else var rest := Split(s[1..]); [[s[0]] + rest[0]] + rest[1..]
  }

  function Join(cs: seq<string>): string {
    if cs == [] then ""
    else if |cs| == 1 then cs[0]
    else cs[0] + "/" + Join(cs[1..])
  }

  /** The absolute path of these names. */
  function Abs(names: seq<string>): string {
    "/" + Join(names)
  }

  lemma {:induction false} SplitNoSlash(s: string)
    requires NoSlash(s)
    ensures Split(s) == [s]
  {
    if s != "" {
      assert s == [s[0]] + s[1..];
      SplitNoSlash(s[1..]);
    }
  }

  lemma {:induction false} SplitParts(s: string)
    ensures forall c | c in Split(s) :: NoSlash(c)
  {
    if s != "" {
      var rest := Split(s[1..]);
      SplitParts(s[1..]);
      assert rest[0] in rest;
    }
  }

  lemma {:induction false} SplitConcat(s: string, t: string)
    ensures Split(s + "/" + t) == Split(s) + Split(t)
  {
    var u := s + "/" + t;
    if s == "" {
      assert u[1..] == t;
    } else {
      assert u[1..] == s[1..] + "/" + t;
      SplitConcat(s[1..], t);
    }
  }

  lemma {:induction false} SplitJoin(cs: seq<string>)
    requires cs != [] && forall c | c in cs :: NoSlash(c)
    ensures Split(Join(cs)) == cs
  {
    SplitNoSlash(cs[0]);
    if |cs| > 1 {
      SplitJoin(cs[1..]);
      SplitConcat(cs[0], Join(cs[1..]));
    }
  }

  lemma {:induction false} JoinConcat(a: seq<string>, b: seq<string>)
    requires a != [] && b != []
    ensures Join(a + b) == Join(a) + "/" + Join(b)
  {
    if |a| == 1 {
      assert (a + b)[1..] == b;
    } else {
      JoinConcat(a[1..], b);
      assert (a + b)[1..] == a[1..] + b;
      Assoc(a[0] + "/", Join(a[1..]), "/" + Join(b));
      Assoc(Join(a[1..]), "/", Join(b));
      Assoc(a[0] + "/" + Join(a[1..]), "/", Join(b));
    }
  }

  // ---- cleaning ----------------------------------------------------------------------

  /** One more component, ".." taking back the one before. */
  function Push(done: seq<string>, c: string, rooted: bool): seq<string> {
    if c == "" || c == "." then done
    else if c != ".." then done + [c]
    else if done != [] && done[|done| - 1] != ".." then done[..|done| - 1]
    else if rooted then done
    else done + [c]
  }

  function Reduce(cs: seq<string>, rooted: bool): seq<string> {
    if cs == [] then [] else Push(Reduce(cs[..|cs| - 1], rooted), cs[|cs| - 1], rooted)
  }

  predicate IsAbs(s: string) {
    s != "" && s[0] == '/'
  }

  function Render(cs: seq<string>, rooted: bool): string {
    if rooted then Abs(cs) else if cs == [] then "." else Join(cs)
  }

  /** filepath.Clean. */
  function Clean(s: string): string {
    Render(Reduce(Split(s), IsAbs(s)), IsAbs(s))
  }

  /** Nothing left to clean: ".." occurs only in front, and not in an absolute path. */
  ghost predicate Reduced(cs: seq<string>, rooted: bool) {
    forall i | 0 <= i < |cs| ::
      && cs[i] != "" && cs[i] != "." && NoSlash(cs[i])
      && (cs[i] == ".." ==> !rooted && forall j | 0 <= j < i :: cs[j] == "..")
  }

  lemma {:induction false} ReduceReduced(cs: seq<string>, rooted: bool)
    requires forall c | c in cs :: NoSlash(c)
    ensures Reduced(Reduce(cs, rooted), rooted)
  {
    if cs != [] {
      ReduceReduced(cs[..|cs| - 1], rooted);
      PushReduced(Reduce(cs[..|cs| - 1], rooted), cs[|cs| - 1], rooted);
    }
  }

  lemma PushReduced(done: seq<string>, c: string, rooted: bool)
    requires Reduced(done, rooted) && NoSlash(c)
    ensures Reduced(Push(done, c, rooted), rooted)
  {
    if c == ".." && done != [] && done[|done| - 1] == ".." {
      assert forall j | 0 <= j < |done| - 1 :: done[j] == "..";
    }
  }

  lemma {:induction false} ReduceFixed(cs: seq<string>, rooted: bool)
    requires Reduced(cs, rooted)
    ensures Reduce(cs, rooted) == cs
  {
    if cs != [] {
      ReduceFixed(cs[..|cs| - 1], rooted);
    }
  }

  lemma {:induction false} ReduceSkipsEmpty(cs: seq<string>, rooted: bool)
    ensures Reduce([""] + cs, rooted) == Reduce(cs, rooted)
  {
    if cs == [] {
      assert [""] + cs == [""];
      assert Reduce([""], rooted) == Push(Reduce([""][..0], rooted), "", rooted);
    } else {
      assert ([""] + cs)[..|cs|] == [""] + cs[..|cs| - 1];
      ReduceSkipsEmpty(cs[..|cs| - 1], rooted);
    }
  }

  /** Cleaning a path that is clean changes nothing. */
  lemma RenderClean(cs: seq<string>, rooted: bool)
    requires Reduced(cs, rooted)
    ensures Clean(Render(cs, rooted)) == Render(cs, rooted)
    ensures IsAbs(Render(cs, rooted)) == rooted
  {
    ReduceFixed(cs, rooted);
    if cs == [] {
      assert Split("") == [""];
      ReduceSkipsEmpty([""], true);
      ReduceSkipsEmpty([], true);
      SplitNoSlash(".");
      assert Reduce(["."], false) == Push(Reduce(["."][..0], false), ".", false);
    } else {
      SplitJoin(cs);
      if rooted {
        ReduceSkipsEmpty(cs, true);
      } else {
        assert Join(cs)[0] == cs[0][0];
        assert cs[0][0] in cs[0];
      }
    }
  }

  lemma CleanIdempotent(s: string)
    ensures Clean(Clean(s)) == Clean(s) && IsAbs(Clean(s)) == IsAbs(s)
  {
    SplitParts(s);
    ReduceReduced(Split(s), IsAbs(s));
    RenderClean(Reduce(Split(s), IsAbs(s)), IsAbs(s));
  }

  /** What more components make of a path depends only on what was there. */
  lemma {:induction false} ReduceGoesOn(a: seq<string>, b: seq<string>, more: seq<string>, rooted: bool)
    requires Reduce(a, rooted) == Reduce(b, rooted)
    ensures Reduce(a + more, rooted) == Reduce(b + more, rooted)
  {
    if more == [] {
      assert a + more == a && b + more == b;
    } else {
      var k := |more| - 1;
      ReduceGoesOn(a, b, more[..k], rooted);
      assert (a + more)[..|a + more| - 1] == a + more[..k];
      assert (b + more)[..|b + more| - 1] == b + more[..k];
    }
  }

  lemma ReduceNext(cs: seq<string>, c: string, rooted: bool)
    ensures Reduce(cs + [c], rooted) == Push(Reduce(cs, rooted), c, rooted)
  {
    assert (cs + [c])[..|cs|] == cs;
  }

  /** An empty component or "." changes nothing, nor does a name that ".." takes back. */
  lemma ReduceRules(cs: seq<string>, c: string, more: seq<string>, rooted: bool)
    ensures Reduce(cs + [""] + more, rooted) == Reduce(cs + more, rooted)
    ensures Reduce(cs + ["."] + more, rooted) == Reduce(cs + more, rooted)
    ensures Name(c) ==> Reduce(cs + [c] + [".."] + more, rooted) == Reduce(cs + more, rooted)
  {
    ReduceNext(cs, "", rooted);
    ReduceGoesOn(cs + [""], cs, more, rooted);
    ReduceNext(cs, ".", rooted);
    ReduceGoesOn(cs + ["."], cs, more, rooted);
    if Name(c) {
      ReduceNext(cs, c, rooted);
      ReduceNext(cs + [c], "..", rooted);
      ReduceGoesOn(cs + [c] + [".."], cs, more, rooted);
    }
  }

  lemma SplitBetween(s: string, c: string, t: string)
    requires NoSlash(c)
    ensures Split(s + "/" + c + "/" + t) == Split(s) + [c] + Split(t)
  {
    SplitConcat(s + "/" + c, t);
    SplitConcat(s, c);
    SplitNoSlash(c);
  }

  /** The rules of filepath.Clean: slashes in a row count as one, "." is dropped, a name
      and a ".." behind it are dropped, and there is nothing above the root. */
  lemma CleanRules(s: string, c: string, t: string)
    ensures Clean(s + "/" + "" + "/" + t) == Clean(s + "/" + t)
    ensures Clean(s + "/" + "." + "/" + t) == Clean(s + "/" + t)
    ensures Name(c) ==> Clean(s + "/" + c + "/" + ".." + "/" + t) == Clean(s + "/" + t)
    ensures Clean("/../" + t) == Clean("/" + t)
    ensures Clean("") == "."
  {
    var rooted := IsAbs(s + "/" + t);
    SplitBetween(s, "", t);
    SplitBetween(s, ".", t);
    SplitConcat(s, t);
    ReduceRules(Split(s), c, Split(t), rooted);
    if Name(c) {
      SplitBetween(s + "/" + c, "..", t);
      SplitConcat(s, c);
      SplitNoSlash(c);
    }
    NothingAbove(t);
    assert Reduce([""], false) == Push(Reduce([""][..0], false), "", false);
  }

  lemma NothingAbove(t: string)
    ensures Clean("/../" + t) == Clean("/" + t)
  {
    SplitBetween("", "..", t);
    assert "" + "/" + ".." + "/" + t == "/../" + t;
    assert Split("") == [""];
    ReduceNext([], "", true);
    ReduceNext([""], "..", true);
    assert [] + [""] == [""];
    ReduceGoesOn([""] + [".."], [""], Split(t), true);
  }

  /** A clean absolute path is made of names. */
  lemma CleanAbs(s: string) returns (names: seq<string>)
    requires IsAbs(s)
    ensures Names(names) && Clean(s) == Abs(names)
  {
    names := Reduce(Split(s), true);
    SplitParts(s);
    ReduceReduced(Split(s), true);
  }

  lemma NamesClean(names: seq<string>)
    requires Names(names)
    ensures Clean(Abs(names)) == Abs(names)
  {
    assert forall i | 0 <= i < |names| :: names[i] in names;
    assert Reduced(names, true);
    RenderClean(names, true);
  }

  // ---- containment --------------------------------------------------------------------

  function TrimPrefix(s: string, prefix: string): string {
    if prefix <= s then s[|prefix|..] else s
  }

  /** pathWithin: what is left of p below base, or None outside it. */
  function PathWithin(p: string, base: string): Option<string> {
    if base == "/" then Some(TrimPrefix(p, "/"))
    else if p == base then Some("")
    else if base + "/" <= p then Some(p[|base| + 1..])
    else None
  }

  lemma JoinEmpty(a: seq<string>)
    requires Names(a)
    ensures Join(a) == "" <==> a == []
  {
    if a != [] { assert a[0] in a; }
  }

  lemma AbsInjective(a: seq<string>, b: seq<string>)
    requires Names(a) && Names(b) && Abs(a) == Abs(b)
    ensures a == b
  {
    assert Abs(a)[1..] == Join(a) && Abs(b)[1..] == Join(b);
    JoinEmpty(a);
    JoinEmpty(b);
    if a != [] { SplitJoin(a); }
    if b != [] { SplitJoin(b); }
  }

  lemma AbsConcat(b: seq<string>, c: seq<string>)
    requires b != [] && c != []
    ensures Abs(b + c) == Abs(b) + "/" + Join(c)
  {
    JoinConcat(b, c);
    Assoc("/", Join(b) + "/", Join(c));
    Assoc("/", Join(b), "/");
  }

  lemma PrefixSplits(a: seq<string>, b: seq<string>)
    requires Names(a) && Names(b) && b != [] && Abs(b) + "/" <= Abs(a)
    ensures b <= a && |b| < |a|
  {
    var rest := Abs(a)[|Abs(b)| + 1..];
    assert Abs(a) == Abs(b) + "/" + rest;
    Assoc("/", Join(b), "/" + rest);
    Assoc(Join(b), "/", rest);
    Assoc(Abs(b), "/", rest);
    assert Abs(a)[1..] == Join(a) == Join(b) + "/" + rest;
    SplitConcat(Join(b), rest);
    SplitJoin(b);
    if a != [] { SplitJoin(a); }
    assert Split("") == [""];
  }

  /** On clean absolute paths the string test is containment name by name. */
  lemma PathWithinIs(a: seq<string>, b: seq<string>)
    requires Names(a) && Names(b)
    ensures PathWithin(Abs(a), Abs(b)).Some? <==> b <= a
    ensures b <= a ==> PathWithin(Abs(a), Abs(b)) == Some(Join(a[|b|..]))
  {
    if b == [] {
      assert a[0..] == a;
      assert Abs(a)[1..] == Join(a);
    } else {
      JoinEmpty(b);
      assert Abs(b) != "/";
      if b <= a && |b| < |a| {
        var c := a[|b|..];
        assert a == b + c;
        AbsConcat(b, c);
        assert Abs(a)[|Abs(b)| + 1..] == Join(c);
      }
      if Abs(b) + "/" <= Abs(a) { PrefixSplits(a, b); }
      if Abs(a) == Abs(b) {
        AbsInjective(a, b);
        assert a[|b|..] == [];
      }
      if b <= a && |b| == |a| { assert a == b; }
    }
  }
}
