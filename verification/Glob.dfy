/** restic reads an include as a glob pattern, component by component. */
module Glob {
  import opened RunModel
  import opened Paths
  import opened Sequences

  // ---- filepath.Match ----------------------------------------------------------------

  /** The next character of a class and what follows it; None if malformed. */
  function GetEsc(p: string): (r: Option<(char, string)>)
    ensures r.Some? ==> |r.value.1| < |p|
  {
    if p == "" || p[0] == '-' || p[0] == ']' then None
    else
      var q := if p[0] == '\\' then p[1..] else p;
      if |q| < 2 then None else Some((q[0], q[1..]))
  }

  /** Whether a character is in the class that the pattern goes on with, and the
      pattern behind it; None if malformed. */
  function Class(p: string, c: char, ranges: nat, hit: bool): (r: Option<(bool, string)>)
    ensures r.Some? ==> |r.value.1| < |p|
    decreases |p|
  {
    if p != "" && p[0] == ']' && ranges > 0 then Some((hit, p[1..])) else
    match GetEsc(p)
    case None => None
    case Some((lo, rest)) =>
      if rest[0] != '-' then Class(rest, c, ranges + 1, hit || lo == c) else
      match GetEsc(rest[1..])
      case None => None
      case Some((hi, more)) => Class(more, c, ranges + 1, hit || lo <= c <= hi)
  }

  /** The pattern is well formed as far as it is read, and matches the whole string. */
  predicate Matches(p: string, s: string)
    decreases |p| + |s|
  {
    if p == "" then s == "" else
    match p[0]
    case '*' => Matches(p[1..], s) || (s != "" && s[0] != '/' && Matches(p, s[1..]))
    case '?' => s != "" && s[0] != '/' && Matches(p[1..], s[1..])
    case '[' =>
      s != "" &&
      (var negated := |p| > 1 && p[1] == '^';
       match Class(if negated then p[2..] else p[1..], s[0], 0, false)
       case None => false
       case Some((hit, rest)) => hit != negated && Matches(rest, s[1..]))
    case '\\' => |p| > 1 && s != "" && s[0] == p[1] && Matches(p[2..], s[1..])
    case c => s != "" && s[0] == c && Matches(p[1..], s[1..])
  }

  // ---- escaping ------------------------------------------------------------------------

  predicate Special(c: char) {
    c == '\\' || c == '*' || c == '?' || c == '['
  }

  function Escape(p: string): string {
    if p == "" then ""
    else (if Special(p[0]) then ['\\', p[0]] else [p[0]]) + Escape(p[1..])
  }

  /** escapeResticPattern, with its loop over the characters. */
  method EscapePattern(p: string) returns (b: string)
    ensures b == Escape(p)
  {
    b := "";
    for i := 0 to |p|
      invariant b + Escape(p[i..]) == Escape(p)
    {
      ghost var was := b;
      if Special(p[i]) {
        b := b + ['\\'];
      }
      b := b + [p[i]];
      assert p[i..][1..] == p[i + 1..];
      Assoc(was, if Special(p[i]) then ['\\', p[i]] else [p[i]], Escape(p[i + 1..]));
      assert b == was + if Special(p[i]) then ['\\', p[i]] else [p[i]];
    }
    assert p[|p|..] == "";
  }

  /** A path that has no character with a meaning in patterns is left as it is, and only
      such a one. */
  lemma {:induction false} EscapeChangesExactly(p: string)
    ensures |Escape(p)| >= |p|
    ensures Escape(p) == p <==> forall c | c in p :: c != '\\' && c != '*' && c != '?' && c != '['
  {
    assert (forall c | c in p :: !Special(c)) <==> forall c | c in p :: c != '\\' && c != '*' && c != '?' && c != '[';
    if p != "" {
      assert p == [p[0]] + p[1..];
      EscapeChangesExactly(p[1..]);
      var head := if Special(p[0]) then ['\\', p[0]] else [p[0]];
      assert Escape(p)[|head|..] == Escape(p[1..]);
      assert (forall c | c in p :: !Special(c)) <==> !Special(p[0]) && forall c | c in p[1..] :: !Special(c);
    }
  }

  /** An escaped path, read as a pattern, matches exactly itself. */
  lemma {:induction false} EscapedMatchesItself(p: string, q: string)
    ensures Matches(Escape(p), q) <==> p == q
  {
    if p != "" {
      var e := Escape(p);
      var rest := Escape(p[1..]);
      assert p == [p[0]] + p[1..];
      if Special(p[0]) {
        assert e[0] == '\\' && e[1] == p[0] && e[2..] == rest;
      } else {
        assert e[0] == p[0] && e[1..] == rest;
      }
      if q != "" {
        assert q == [q[0]] + q[1..];
        EscapedMatchesItself(p[1..], q[1..]);
      }
    }
  }

  /** Without escaping, a name may miss itself and match another. */
  lemma UnescapedMatchesAnother()
    ensures !Matches("a[1]", "a[1]") && Matches("a[1]", "a1")
  {
    assert "a[1]"[1..] == "[1]" && "a1"[1..] == "1" && "[1]"[1..] == "1]" && "1]"[1..] == "]" && "]"[1..] == "";
    assert "a[1]"[1..] == "[1]" && "1"[1..] == "";
    assert Class("1]", '1', 0, false) == Some((true, ""));
    assert Class("1]", '[', 0, false) == Some((false, ""));
  }

  // ---- includes ------------------------------------------------------------------------

  /** An absolute include covers a path if its components match the first ones of
      the path: the folder itself and everything below it. Patterns with the
      component "**" are not part of this model. */
  ghost predicate Covers(pattern: string, path: string) {
    var ps, cs := Split(pattern), Split(path);
    |ps| <= |cs| && forall i | 0 <= i < |ps| :: Matches(ps[i], cs[i])
  }

  function Escapes(cs: seq<string>): seq<string> {
    if cs == [] then [] else [Escape(cs[0])] + Escapes(cs[1..])
  }

  lemma {:induction false} EscapesAt(cs: seq<string>)
    ensures |Escapes(cs)| == |cs| && forall i | 0 <= i < |cs| :: Escapes(cs)[i] == Escape(cs[i])
  {
    if cs != [] { EscapesAt(cs[1..]); }
  }

  lemma SplitCons(c: char, t: string)
    requires c != '/'
    ensures Split([c] + t) == [[c] + Split(t)[0]] + Split(t)[1..]
  {
    assert ([c] + t)[1..] == t;
  }

  lemma EscapeCons(c: char, t: string)
    ensures Escape([c] + t) == (if Special(c) then ['\\', c] else [c]) + Escape(t)
  {
    assert ([c] + t)[1..] == t;
  }

  lemma SplitCons2(c: char, d: char, t: string)
    requires c != '/' && d != '/'
    ensures Split([c, d] + t) == [[c, d] + Split(t)[0]] + Split(t)[1..]
  {
    SplitCons(d, t);
    SplitCons(c, [d] + t);
    assert [c, d] + t == [c] + ([d] + t);
    assert [c, d] + Split(t)[0] == [c] + ([d] + Split(t)[0]);
  }

  /** Escaping keeps the components apart. */
  lemma {:induction false} SplitEscape(s: string)
    ensures Split(Escape(s)) == Escapes(Split(s))
  {
    if s != "" {
      SplitEscape(s[1..]);
      if s[0] == '/' {
        assert Escape(s)[1..] == Escape(s[1..]);
      } else {
        SplitEscapeCons(s[0], s[1..]);
        assert s == [s[0]] + s[1..];
      }
    }
  }

  lemma SplitEscapeCons(c: char, t: string)
    requires c != '/' && Split(Escape(t)) == Escapes(Split(t))
    ensures Split(Escape([c] + t)) == Escapes(Split([c] + t))
  {
    var rest, e := Split(t), Escape(t);
    EscapeCons(c, t);
    EscapeCons(c, rest[0]);
    SplitCons(c, t);
    if Special(c) { SplitCons2('\\', c, e); } else { SplitCons(c, e); }
    EscapesCons([c] + rest[0], rest[1..]);
    assert Escapes(rest)[0] == Escape(rest[0]) && Escapes(rest)[1..] == Escapes(rest[1..]);
  }

  lemma EscapesCons(c: string, cs: seq<string>)
    ensures Escapes([c] + cs) == [Escape(c)] + Escapes(cs)
  {
    assert ([c] + cs)[1..] == cs;
  }

  /** No escaped component is "**". */
  lemma NotDoubleStar(c: string)
    ensures Escape(c) != "**"
  {
    if c != "" { assert Escape(c)[0] != '*'; }
  }

  /** The components of an absolute path: an empty one and its names, and two empty
      ones for "/". */
  function Parts(a: seq<string>): seq<string> {
    if a == [] then ["", ""] else [""] + a
  }

  lemma SplitAbs(a: seq<string>)
    requires Names(a)
    ensures Split(Abs(a)) == Parts(a)
  {
    SplitConcat("", Join(a));
    assert "" + "/" + Join(a) == Abs(a);
    assert Split("") == [""];
    if a != [] { SplitJoin(a); }
  }

  /** The escaped include of a folder covers exactly the folder and what lies below
      it; that of "/" covers only "/". */
  lemma CoversExactly(a: seq<string>, b: seq<string>)
    requires Names(a) && Names(b)
    ensures Covers(Escape(Abs(a)), Abs(b)) <==> if a == [] then b == [] else a <= b
  {
    var ps, cs := Split(Escape(Abs(a))), Split(Abs(b));
    SplitAbs(a);
    SplitAbs(b);
    SplitEscape(Abs(a));
    EscapesAt(Parts(a));
    forall i | 0 <= i < |ps| && i < |cs| ensures Matches(ps[i], cs[i]) <==> Parts(a)[i] == Parts(b)[i] {
      EscapedMatchesItself(Parts(a)[i], cs[i]);
    }
    PartsPrefix(a, b);
  }

  lemma PartsPrefix(a: seq<string>, b: seq<string>)
    requires Names(a) && Names(b)
    ensures |Parts(a)| <= |Parts(b)| && (forall i | 0 <= i < |Parts(a)| :: Parts(a)[i] == Parts(b)[i])
            <==> if a == [] then b == [] else a <= b
  {
    assert b != [] ==> b[0] in b;
    assert a != [] ==> a[0] in a;
    if a == [] {
      assert b != [] ==> Parts(a)[1] != Parts(b)[1];
    } else if |a| <= |b| {
      assert forall i | 0 <= i < |a| :: Parts(a)[i + 1] == a[i] && Parts(b)[i + 1] == b[i];
    } else {
      assert b == [] ==> Parts(a)[1] != Parts(b)[1];
    }
  }
}
