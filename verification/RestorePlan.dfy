/** Where a restore writes and what it may replace. */
module RestorePlans {
  import opened RunModel
  import opened Paths
  import opened Glob
  import opened Sequences

  // ---- white space --------------------------------------------------------------------

  /** unicode.IsSpace. */
  predicate IsSpace(c: char) {
    || c == '\t' || c == '\n' || c == '\U{0B}' || c == '\U{0C}' || c == '\r' || c == ' ' || c == '\U{85}' || c == '\U{A0}'
    || c == '\U{1680}' || ('\U{2000}' <= c <= '\U{200A}') || c == '\U{2028}' || c == '\U{2029}' || c == '\U{202F}'
    || c == '\U{205F}' || c == '\U{3000}'
  }

  function TrimLeft(s: string): string {
    if s != "" && IsSpace(s[0]) then TrimLeft(s[1..]) else s
  }

  function TrimRight(s: string): string {
    if s != "" && IsSpace(s[|s| - 1]) then TrimRight(s[..|s| - 1]) else s
  }

  function TrimSpace(s: string): string {
    TrimRight(TrimLeft(s))
  }

  lemma {:induction false} TrimLeftShorter(s: string)
    ensures |TrimLeft(s)| <= |s| && (|TrimLeft(s)| == |s| ==> TrimLeft(s) == s)
  {
    if s != "" && IsSpace(s[0]) { TrimLeftShorter(s[1..]); }
  }

  lemma {:induction false} TrimRightShorter(s: string)
    ensures |TrimRight(s)| <= |s| && (|TrimRight(s)| == |s| ==> TrimRight(s) == s)
  {
    if s != "" && IsSpace(s[|s| - 1]) { TrimRightShorter(s[..|s| - 1]); }
  }

  lemma TrimShorter(s: string)
    ensures |TrimSpace(s)| <= |s| && (|TrimSpace(s)| == |s| ==> TrimSpace(s) == s)
  {
    TrimLeftShorter(s);
    TrimRightShorter(TrimLeft(s));
  }

  ghost predicate AllSpace(s: string) {
    forall c | c in s :: IsSpace(c)
  }

  lemma {:induction false} TrimLeftIs(s: string) returns (a: string)
    ensures AllSpace(a) && s == a + TrimLeft(s)
    ensures TrimLeft(s) != "" ==> !IsSpace(TrimLeft(s)[0])
  {
    a := "";
    if s != "" && IsSpace(s[0]) {
      var rest := TrimLeftIs(s[1..]);
      a := [s[0]] + rest;
      assert s == [s[0]] + s[1..];
    }
  }

  lemma {:induction false} TrimRightIs(s: string) returns (b: string)
    ensures AllSpace(b) && s == TrimRight(s) + b
    ensures TrimRight(s) != "" ==> !IsSpace(TrimRight(s)[|TrimRight(s)| - 1])
    ensures TrimRight(s) == "" || TrimRight(s)[0] == s[0]
  {
    b := "";
    if s != "" && IsSpace(s[|s| - 1]) {
      var rest := TrimRightIs(s[..|s| - 1]);
      b := rest + [s[|s| - 1]];
      assert s == s[..|s| - 1] + [s[|s| - 1]];
    }
  }

  /** Exactly the white space around the text is gone. */
  lemma TrimSpaceIs(s: string) returns (a: string, b: string)
    ensures AllSpace(a) && AllSpace(b) && s == a + TrimSpace(s) + b
    ensures var t := TrimSpace(s);
            t != "" ==> !IsSpace(t[0]) && !IsSpace(t[|t| - 1])
  {
    a := TrimLeftIs(s);
    b := TrimRightIs(TrimLeft(s));
    Assoc(a, TrimSpace(s), b);
  }

  // ---- the plan ------------------------------------------------------------------------

  datatype Plan = Plan(target: string, includes: seq<string>)

  datatype PlanError =
    | NotAbsolute(path: string)
    | NotInSnapshot(path: string)
    | Outside(path: string, folder: string)
    | NothingToLimit

  datatype Result<T> = Ok(value: T) | Err(error: PlanError)

  function Tidy(p: string): string {
    Clean(TrimSpace(p))
  }

  predicate IsRootTarget(target: string) {
    Tidy(target) == "/"
  }

  predicate Kept(p: string) {
    p != "" && p != "."
  }

  /** The tidied paths in order, each once, without "" and ".". */
  function CleanIncludes(paths: seq<string>): seq<string> {
    if paths == [] then [] else
    var out := CleanIncludes(paths[..|paths| - 1]);
    var p := Tidy(paths[|paths| - 1]);
    if !Kept(p) || p in out then out else out + [p]
  }

  method CleanRestoreIncludes(paths: seq<string>) returns (out: seq<string>)
    ensures out == CleanIncludes(paths)
  {
    out := [];
    var seen := {};
    for i := 0 to |paths|
      invariant out == CleanIncludes(paths[..i])
      invariant forall p :: p in seen <==> p in out
    {
      assert paths[..i + 1][..i] == paths[..i];
      var p := Tidy(paths[i]);
      if p == "" || p == "." {
        continue;
      }
      if p in seen {
        continue;
      }
      seen := seen + {p};
      out := out + [p];
    }
    assert paths[..|paths|] == paths;
  }

  lemma IncludesNext(init: seq<string>, last: string)
    ensures var out, t := CleanIncludes(init), Tidy(last);
            CleanIncludes(init + [last]) == if !Kept(t) || t in out then out else out + [t]
  {
    assert (init + [last])[..|init|] == init;
  }

  ghost predicate TidiedFrom(p: string, paths: seq<string>) {
    Kept(p) && exists q :: q in paths && Tidy(q) == p
  }

  lemma TidiedMore(p: string, paths: seq<string>, last: string)
    ensures TidiedFrom(p, paths + [last]) <==> TidiedFrom(p, paths) || (Kept(p) && Tidy(last) == p)
  {
    assert last in paths + [last];
  }

  lemma {:induction false} CleanIncludesHold(paths: seq<string>, p: string)
    ensures p in CleanIncludes(paths) <==> TidiedFrom(p, paths)
  {
    if paths != [] {
      var init, last := paths[..|paths| - 1], paths[|paths| - 1];
      assert paths == init + [last];
      CleanIncludesHold(init, p);
      IncludesNext(init, last);
      TidiedMore(p, init, last);
    }
  }

  lemma {:induction false} CleanIncludesOnce(paths: seq<string>)
    ensures Distinct(CleanIncludes(paths))
  {
    if paths != [] {
      CleanIncludesOnce(paths[..|paths| - 1]);
    }
  }

  /** More paths only append to the list, so each stands where it first came. */
  lemma {:induction false} CleanIncludesGrow(paths: seq<string>, k: nat)
    requires k <= |paths|
    ensures CleanIncludes(paths[..k]) <= CleanIncludes(paths)
  {
    if k == |paths| {
      assert paths[..k] == paths;
    } else {
      assert paths[..|paths| - 1][..k] == paths[..k];
      CleanIncludesGrow(paths[..|paths| - 1], k);
    }
  }

  /** The list holds exactly the tidied paths that are not empty or ".", each once, in
      the order in which they first come. */
  lemma CleanIncludesAre(paths: seq<string>)
    ensures forall p :: p in CleanIncludes(paths) <==> p != "" && p != "." && exists q :: q in paths && Clean(TrimSpace(q)) == p
    ensures Distinct(CleanIncludes(paths))
    ensures forall k: nat | k <= |paths| :: CleanIncludes(paths[..k]) <= CleanIncludes(paths)
  {
    forall p ensures p in CleanIncludes(paths) <==> TidiedFrom(p, paths) { CleanIncludesHold(paths, p); }
    CleanIncludesOnce(paths);
    forall k: nat | k <= |paths| ensures CleanIncludes(paths[..k]) <= CleanIncludes(paths) { CleanIncludesGrow(paths, k); }
  }

  ghost predicate BackedUp(p: string, snapshotPaths: seq<string>) {
    exists q :: q in snapshotPaths && Tidy(q) == p
  }

  /** resolveResticRestoreTarget: in place exactly for a folder that was backed up. */
  method ResolveTarget(requested: string, snapshotPaths: seq<string>) returns (target: string)
    ensures target == if BackedUp(Tidy(requested), snapshotPaths) then "/" else requested
  {
    var req := Tidy(requested);
    for i := 0 to |snapshotPaths|
      invariant !BackedUp(req, snapshotPaths[..i])
    {
      if Tidy(snapshotPaths[i]) == req {
        return "/";
      }
    }
    assert snapshotPaths[..|snapshotPaths|] == snapshotPaths;
    return requested;
  }

  ghost function PlanOf(requested: string, snapshotPaths: seq<string>): Plan {
    var target := if BackedUp(Tidy(requested), snapshotPaths) then "/" else requested;
    if !IsRootTarget(target) then Plan(target, [])
    else if Tidy(requested) != "/" then Plan(target, [Tidy(requested)])
    else Plan(target, CleanIncludes(snapshotPaths))
  }

  lemma RootIsRoot()
    ensures TrimSpace("/") == "/" && Clean("/") == "/"
  {
    RenderClean([], true);
  }

  /** planResticRestore. */
  method PlanRestore(requested: string, snapshotPaths: seq<string>) returns (plan: Plan)
    ensures plan == PlanOf(requested, snapshotPaths)
  {
    var target := ResolveTarget(requested, snapshotPaths);
    if !IsRootTarget(target) {
      return Plan(target, []);
    }
    var req := Tidy(requested);
    CleanNotEmpty(TrimSpace(requested));
    if req != "" && req != "/" {
      return Plan(target, [req]);
    }
    var includes := CleanRestoreIncludes(snapshotPaths);
    return Plan(target, includes);
  }

  lemma CleanNotEmpty(s: string)
    ensures Clean(s) != ""
  {
    SplitParts(s);
    ReduceReduced(Split(s), IsAbs(s));
  }

  ghost predicate InSnapshot(p: string, snapshotPaths: seq<string>) {
    exists q :: q in snapshotPaths && PathWithin(p, Clean(q)).Some?
  }

  /** What a selected path has to be. */
  ghost predicate Selectable(p: string, requested: string, plan: Plan, snapshotPaths: seq<string>) {
    && IsAbs(p) && InSnapshot(p, snapshotPaths)
    && (IsRootTarget(plan.target) && Tidy(requested) != "/" ==> PathWithin(p, Tidy(requested)).Some?)
  }

  /** The error names the path and the first of the three things that is wrong. */
  ghost predicate Blames(e: PlanError, p: string, requested: string, plan: Plan, snapshotPaths: seq<string>) {
    if !IsAbs(p) then e == NotAbsolute(p)
    else if !InSnapshot(p, snapshotPaths) then e == NotInSnapshot(p)
    else
      && IsRootTarget(plan.target) && Tidy(requested) != "/" && PathWithin(p, Tidy(requested)).None?
      && e == Outside(p, Tidy(requested))
  }

  /** The error is about the first path that may not be selected. */
  ghost predicate FirstFault(e: PlanError, sel: seq<string>, requested: string, plan: Plan, snapshotPaths: seq<string>) {
    exists i :: 0 <= i < |sel| && Blames(e, sel[i], requested, plan, snapshotPaths)
                && forall j | 0 <= j < i :: Selectable(sel[j], requested, plan, snapshotPaths)
  }

  method FindInSnapshot(p: string, snapshotPaths: seq<string>) returns (inSnapshot: bool)
    ensures inSnapshot == InSnapshot(p, snapshotPaths)
  {
    inSnapshot := false;
    for i := 0 to |snapshotPaths|
      invariant !InSnapshot(p, snapshotPaths[..i])
    {
      if PathWithin(p, Clean(snapshotPaths[i])).Some? {
        return true;
      }
    }
    assert snapshotPaths[..|snapshotPaths|] == snapshotPaths;
  }

  method CheckSelected(p: string, requested: string, plan: Plan, snapshotPaths: seq<string>) returns (fault: Option<PlanError>)
    ensures fault.None? <==> Selectable(p, requested, plan, snapshotPaths)
    ensures fault.Some? ==> Blames(fault.value, p, requested, plan, snapshotPaths)
  {
    var req := Tidy(requested);
    if !IsAbs(p) {
      return Some(NotAbsolute(p));
    }
    var inSnapshot := FindInSnapshot(p, snapshotPaths);
    if !inSnapshot {
      return Some(NotInSnapshot(p));
    }
    if IsRootTarget(plan.target) && req != "/" {
      if PathWithin(p, req).None? {
        return Some(Outside(p, req));
      }
    }
    return None;
  }

  ghost predicate AllSelectable(sel: seq<string>, requested: string, plan: Plan, snapshotPaths: seq<string>) {
    forall i | 0 <= i < |sel| :: Selectable(sel[i], requested, plan, snapshotPaths)
  }

  /** The first fault among the selected paths. */
  method CheckAll(sel: seq<string>, requested: string, plan: Plan, snapshotPaths: seq<string>) returns (fault: Option<PlanError>)
    ensures fault.None? <==> AllSelectable(sel, requested, plan, snapshotPaths)
    ensures fault.Some? ==> FirstFault(fault.value, sel, requested, plan, snapshotPaths)
  {
    for i := 0 to |sel|
      invariant forall j | 0 <= j < i :: Selectable(sel[j], requested, plan, snapshotPaths)
    {
      fault := CheckSelected(sel[i], requested, plan, snapshotPaths);
      if fault.Some? {
        return;
      }
    }
    return None;
  }

  /** planResticRestoreSelection: the plan limited to the selected paths, if all of
      them may be selected. */
  method PlanSelection(requested: string, snapshotPaths: seq<string>, selected: seq<string>) returns (r: Result<Plan>)
    ensures var base, sel := PlanOf(requested, snapshotPaths), CleanIncludes(selected);
            && (r.Ok? <==> AllSelectable(sel, requested, base, snapshotPaths))
            && (r.Err? ==> FirstFault(r.error, sel, requested, base, snapshotPaths))
    ensures r.Ok? ==> Planned(r.value, requested, snapshotPaths, selected)
  {
    var plan := PlanRestore(requested, snapshotPaths);
    var sel := CleanRestoreIncludes(selected);
    if |sel| == 0 {
      return Ok(plan);
    }
    var fault := CheckAll(sel, requested, plan, snapshotPaths);
    if fault.Some? {
      return Err(fault.value);
    }
    return Ok(plan.(includes := sel));
  }

  /** What planning a restore of a selection ends in, if it succeeds. */
  ghost predicate Planned(plan: Plan, requested: string, snapshotPaths: seq<string>, selected: seq<string>) {
    var base, sel := PlanOf(requested, snapshotPaths), CleanIncludes(selected);
    && AllSelectable(sel, requested, base, snapshotPaths)
    && plan == if sel == [] then base else base.(includes := sel)
  }

  // ---- the command -----------------------------------------------------------------------

  function IncludeArgs(filters: seq<string>): seq<string> {
    if filters == [] then []
    else IncludeArgs(filters[..|filters| - 1]) + ["--include", Escape(filters[|filters| - 1])]
  }

  /** The restore command, argument by argument. */
  ghost predicate IsCommand(args: seq<string>, snapshotID: string, target: string, filters: seq<string>) {
    var n := |filters|;
    && |args| == 7 + 2 * n
    && args[..5] == ["restore", "--target", target, "--delete", "--json"]
    && (forall k | 0 <= k < n :: args[5 + 2 * k] == "--include" && args[6 + 2 * k] == Escape(filters[k]))
    && args[5 + 2 * n..] == ["--", snapshotID]
  }

  lemma {:induction false} IncludeArgsAt(filters: seq<string>)
    ensures var args := IncludeArgs(filters);
            && |args| == 2 * |filters|
            && forall k | 0 <= k < |filters| :: args[2 * k] == "--include" && args[2 * k + 1] == Escape(filters[k])
  {
    if filters != [] { IncludeArgsAt(filters[..|filters| - 1]); }
  }

  lemma CommandArgs(snapshotID: string, target: string, filters: seq<string>)
    ensures IsCommand(["restore", "--target", target, "--delete", "--json"] + IncludeArgs(filters) + ["--", snapshotID],
                      snapshotID, target, filters)
  {
    IncludeArgsAt(filters);
    var head, mid, tail := ["restore", "--target", target, "--delete", "--json"], IncludeArgs(filters), ["--", snapshotID];
    var args := head + mid + tail;
    assert args[..5] == head;
    forall k | 0 <= k < |filters| ensures args[5 + 2 * k] == mid[2 * k] && args[6 + 2 * k] == mid[2 * k + 1] {}
  }

  /** restoreArgs: nothing is replaced below "/" without a filter. */
  method RestoreArgs(snapshotID: string, target: string, includes: seq<string>) returns (r: Result<seq<string>>)
    ensures r.Err? <==> IsRootTarget(target) && CleanIncludes(includes) == []
    ensures r.Ok? ==> IsCommand(r.value, snapshotID, target, CleanIncludes(includes))
  {
    var filters := CleanRestoreIncludes(includes);
    if IsRootTarget(target) && |filters| == 0 {
      return Err(NothingToLimit);
    }
    var head := ["restore", "--target", target, "--delete", "--json"];
    var args := head;
    for i := 0 to |filters|
      invariant args == head + IncludeArgs(filters[..i])
    {
      assert filters[..i + 1][..i] == filters[..i];
      var pattern := EscapePattern(filters[i]);
      args := args + ["--include", pattern];
    }
    assert filters[..|filters|] == filters;
    CommandArgs(snapshotID, target, filters);
    return Ok(args + ["--", snapshotID]);
  }

  // ---- what an in-place restore may replace ------------------------------------------------

  ghost predicate AllClean(paths: seq<string>) {
    forall p | p in paths :: Clean(p) == p && p != ""
  }

  lemma {:induction false} CleanIncludesClean(paths: seq<string>)
    ensures AllClean(CleanIncludes(paths))
  {
    if paths != [] {
      CleanIncludesClean(paths[..|paths| - 1]);
      CleanIdempotent(TrimSpace(paths[|paths| - 1]));
    }
  }

  lemma IncludesClean(plan: Plan, requested: string, snapshotPaths: seq<string>, selected: seq<string>)
    requires Planned(plan, requested, snapshotPaths, selected)
    ensures Distinct(plan.includes) && AllClean(plan.includes)
  {
    CleanIncludesOnce(selected);
    CleanIncludesOnce(snapshotPaths);
    CleanIncludesClean(selected);
    CleanIncludesClean(snapshotPaths);
    CleanIdempotent(TrimSpace(requested));
    CleanNotEmpty(TrimSpace(requested));
  }

  /** The restore goes back into a folder other than "/" that was backed up. */
  ghost predicate InPlace(requested: string, snapshotPaths: seq<string>) {
    Tidy(requested) != "/" && BackedUp(Tidy(requested), snapshotPaths)
  }

  /** Without a selection: a backed-up folder goes back in place, limited to itself;
      "/" is limited to all that was backed up; any other destination is taken as it
      was requested, with no limit. A selection takes the place of the limit. */
  lemma PlannedExactly(plan: Plan, requested: string, snapshotPaths: seq<string>, selected: seq<string>)
    requires Planned(plan, requested, snapshotPaths, selected)
    ensures plan.target == if BackedUp(Tidy(requested), snapshotPaths) then "/" else requested
    ensures plan.includes ==
            if CleanIncludes(selected) != [] then CleanIncludes(selected)
            else if InPlace(requested, snapshotPaths) then [Tidy(requested)]
            else if Tidy(requested) == "/" then CleanIncludes(snapshotPaths)
            else []
  {
    RootIsRoot();
  }

  /** Paths may be selected exactly if each is absolute, below a snapshot path, and, for
      a folder restored in place, inside that folder. */
  lemma SelectableExactly(sel: seq<string>, requested: string, snapshotPaths: seq<string>)
    ensures AllSelectable(sel, requested, PlanOf(requested, snapshotPaths), snapshotPaths) <==>
            forall p | p in sel ::
              && p != "" && p[0] == '/'
              && (exists q :: q in snapshotPaths && PathWithin(p, Clean(q)).Some?)
              && (InPlace(requested, snapshotPaths) ==> PathWithin(p, Tidy(requested)).Some?)
  {
    RootIsRoot();
    var plan := PlanOf(requested, snapshotPaths);
    assert IsRootTarget(plan.target) && Tidy(requested) != "/" <==> InPlace(requested, snapshotPaths);
    assert forall i | 0 <= i < |sel| :: sel[i] in sel;
  }

  /** A plan targets "/" exactly for such a folder and for "/" itself. */
  lemma RootExactly(plan: Plan, requested: string, snapshotPaths: seq<string>, selected: seq<string>)
    requires Planned(plan, requested, snapshotPaths, selected)
    ensures IsRootTarget(plan.target) <==> InPlace(requested, snapshotPaths) || Tidy(requested) == "/"
  {
    RootIsRoot();
  }

  /** A planned in-place restore of a folder other than "/" always has includes,
      and each lies inside that folder. */
  lemma InPlaceConfined(plan: Plan, requested: string, snapshotPaths: seq<string>, selected: seq<string>)
    requires Planned(plan, requested, snapshotPaths, selected)
    requires InPlace(requested, snapshotPaths)
    ensures IsRootTarget(plan.target) && plan.includes != []
    ensures forall p | p in plan.includes :: PathWithin(p, Tidy(requested)).Some?
  {
    RootIsRoot();
  }

  /** Name by name: the included folder is the requested one or below it. */
  lemma InPlaceBelow(plan: Plan, requested: string, snapshotPaths: seq<string>, selected: seq<string>, p: string)
    returns (folder: seq<string>, names: seq<string>)
    requires Planned(plan, requested, snapshotPaths, selected)
    requires InPlace(requested, snapshotPaths) && IsAbs(TrimSpace(requested))
    requires p in plan.includes
    ensures Names(folder) && Names(names) && Tidy(requested) == Abs(folder) && p == Abs(names)
    ensures folder != [] && folder <= names
  {
    InPlaceConfined(plan, requested, snapshotPaths, selected);
    folder := CleanAbs(TrimSpace(requested));
    CleanIdempotent(TrimSpace(requested));
    IncludesClean(plan, requested, snapshotPaths, selected);
    names := CleanAbs(p);
    PathWithinIs(names, folder);
  }

  /** They also all lie under a snapshot path, if and only if something was selected
      or a snapshot path, taken as it is, contains the requested folder; so they do
      if no snapshot path has white space around it. */
  lemma IncludesInSnapshotExactly(plan: Plan, requested: string, snapshotPaths: seq<string>, selected: seq<string>)
    requires Planned(plan, requested, snapshotPaths, selected)
    requires InPlace(requested, snapshotPaths)
    ensures (forall p | p in plan.includes :: InSnapshot(p, snapshotPaths))
            <==> CleanIncludes(selected) != [] || InSnapshot(Tidy(requested), snapshotPaths)
    ensures (forall q | q in snapshotPaths :: TrimSpace(q) == q) ==> InSnapshot(Tidy(requested), snapshotPaths)
  {
    RootIsRoot();
    var sel := CleanIncludes(selected);
    if sel == [] {
      assert plan.includes == [Tidy(requested)];
      assert plan.includes[0] in plan.includes;
    } else {
      forall p | p in plan.includes ensures InSnapshot(p, snapshotPaths) {
        var i :| 0 <= i < |sel| && sel[i] == p;
        assert Selectable(sel[i], requested, PlanOf(requested, snapshotPaths), snapshotPaths);
      }
    }
    var q :| q in snapshotPaths && Tidy(q) == Tidy(requested);
    assert TrimSpace(q) == q ==> PathWithin(Tidy(requested), Clean(q)).Some?;
  }

  // ---- what the command then limits itself to ---------------------------------------------

  function Size(cs: seq<string>): nat {
    if cs == [] then 0 else Size(cs[..|cs| - 1]) + |cs[|cs| - 1]| + 1
  }

  lemma {:induction false} SizeCons(c: string, cs: seq<string>)
    ensures Size([c] + cs) == |c| + 1 + Size(cs)
  {
    if cs == [] {
      assert [c] + cs == [c] && Size([c][..0]) == 0;
    } else {
      assert ([c] + cs)[..|cs|] == [c] + cs[..|cs| - 1];
      SizeCons(c, cs[..|cs| - 1]);
    }
  }

  lemma {:induction false} SizeSplit(s: string)
    ensures Size(Split(s)) == |s| + 1
  {
    if s == "" {
      SizeCons("", []);
      assert [""] + [] == [""];
    } else {
      SizeSplit(s[1..]);
      var rest := Split(s[1..]);
      assert rest == [rest[0]] + rest[1..];
      SizeCons(rest[0], rest[1..]);
      SizeCons([s[0]] + rest[0], rest[1..]);
      SizeCons("", rest);
    }
  }

  lemma {:induction false} SizeJoin(cs: seq<string>)
    requires cs != []
    ensures Size(cs) == |Join(cs)| + 1
  {
    assert cs == [cs[0]] + cs[1..];
    SizeCons(cs[0], cs[1..]);
    if |cs| > 1 { SizeJoin(cs[1..]); }
  }

  lemma {:induction false} SizeReduce(cs: seq<string>, rooted: bool)
    ensures Size(Reduce(cs, rooted)) <= Size(cs)
  {
    if cs != [] {
      SizeReduce(cs[..|cs| - 1], rooted);
      var done, c := Reduce(cs[..|cs| - 1], rooted), cs[|cs| - 1];
      assert (done + [c])[..|done|] == done;
    }
  }

  /** Cleaning never makes a path longer. */
  lemma CleanShorter(s: string)
    requires s != ""
    ensures |Clean(s)| <= |s|
  {
    var cs := Reduce(Split(s), IsAbs(s));
    SizeSplit(s);
    SizeReduce(Split(s), IsAbs(s));
    if cs != [] { SizeJoin(cs); }
    if IsAbs(s) {
      var rest := Split(s[1..]);
      ReduceSkipsEmpty(rest, true);
      SizeSplit(s[1..]);
      SizeReduce(rest, true);
    }
  }

  /** Tidying a clean path leaves it alone exactly if it has no white space around
      it. */
  lemma TidyAgain(p: string)
    requires Clean(p) == p && p != ""
    ensures Tidy(p) == p <==> TrimSpace(p) == p
  {
    TrimShorter(p);
    if TrimSpace(p) != "" {
      CleanShorter(TrimSpace(p));
    } else {
      assert Clean("") == ".";
      assert TrimSpace(".") == ".";
    }
  }

  ghost predicate AllTidy(paths: seq<string>) {
    forall p | p in paths :: Tidy(p) == p && Kept(p)
  }

  lemma FixedIncludes(paths: seq<string>)
    ensures CleanIncludes(paths) == paths <==> Distinct(paths) && AllTidy(paths)
  {
    CleanIncludesAre(paths);
    if Distinct(paths) && AllTidy(paths) {
      CleanIncludesFixed(paths);
    }
    if CleanIncludes(paths) == paths {
      FixedTidy(paths);
    }
  }

  lemma TidyParts(init: seq<string>, p: string)
    requires Distinct(init + [p]) && AllTidy(init + [p])
    ensures Distinct(init) && AllTidy(init) && Tidy(p) == p && Kept(p) && p !in init
  {
    var all := init + [p];
    assert all[|init|] == p && p in all;
    assert forall i | 0 <= i < |init| :: init[i] == all[i] && all[i] != all[|init|];
  }

  lemma {:induction false} CleanIncludesFixed(paths: seq<string>)
    requires Distinct(paths) && AllTidy(paths)
    ensures CleanIncludes(paths) == paths
  {
    if paths != [] {
      var init, p := paths[..|paths| - 1], paths[|paths| - 1];
      assert paths == init + [p];
      TidyParts(init, p);
      CleanIncludesFixed(init);
      IncludesNext(init, p);
    }
  }

  lemma {:induction false} CleanIncludesLength(paths: seq<string>)
    ensures |CleanIncludes(paths)| <= |paths|
  {
    if paths != [] { CleanIncludesLength(paths[..|paths| - 1]); }
  }

  lemma {:induction false} FixedTidy(paths: seq<string>)
    requires CleanIncludes(paths) == paths
    ensures AllTidy(paths)
  {
    if paths != [] {
      var init := paths[..|paths| - 1];
      CleanIncludesLength(init);
      assert CleanIncludes(paths)[..|paths| - 1] == init;
      FixedTidy(init);
      assert paths == init + [paths[|paths| - 1]];
    }
  }

  /** None is "." or has white space around it. */
  ghost predicate Trimmed(includes: seq<string>) {
    forall p | p in includes :: TrimSpace(p) == p && p != "."
  }

  /** The command limits itself to exactly the planned includes, if and only if
      none of them is "." or has white space around it. */
  lemma CommandKeepsIncludes(plan: Plan, requested: string, snapshotPaths: seq<string>, selected: seq<string>)
    requires Planned(plan, requested, snapshotPaths, selected)
    ensures CleanIncludes(plan.includes) == plan.includes
            <==> Trimmed(plan.includes)
  {
    IncludesClean(plan, requested, snapshotPaths, selected);
    FixedIncludes(plan.includes);
    forall p | p in plan.includes ensures Tidy(p) == p <==> TrimSpace(p) == p { TidyAgain(p); }
  }

  /** What the filter covers all lies in the folder. */
  ghost predicate StaysBelow(filter: string, folder: seq<string>) {
    forall file | Names(file) && Covers(filter, Abs(file)) :: folder <= file
  }

  /** The filter that the command makes of a planned include covers nothing outside
      the requested folder, if and only if, tidied once more, it still lies inside;
      and it does if it has no white space around it. */
  lemma FilterStaysExactly(plan: Plan, requested: string, snapshotPaths: seq<string>, selected: seq<string>,
                           folder: seq<string>, p: string)
    requires Planned(plan, requested, snapshotPaths, selected) && InPlace(requested, snapshotPaths)
    requires Names(folder) && Tidy(requested) == Abs(folder) && p in plan.includes
    ensures StaysBelow(Escape(Tidy(p)), folder) <==> PathWithin(Tidy(p), Tidy(requested)).Some?
    ensures TrimSpace(p) == p ==> PathWithin(Tidy(p), Tidy(requested)).Some?
  {
    CleanIdempotent(TrimSpace(requested));
    var f, names := InPlaceBelow(plan, requested, snapshotPaths, selected, p);
    AbsInjective(f, folder);
    var filter := FilterNames(p, names);
    PathWithinIs(filter, folder);
    forall file | Names(file) ensures Covers(Escape(Tidy(p)), Abs(file)) <==> if filter == [] then file == [] else filter <= file {
      CoversExactly(filter, file);
    }
    if TrimSpace(p) == p {
      NamesClean(names);
      AbsInjective(filter, names);
    }
  }

  lemma IncludeKept(plan: Plan, requested: string, snapshotPaths: seq<string>, selected: seq<string>, p: string)
    requires Planned(plan, requested, snapshotPaths, selected) && InPlace(requested, snapshotPaths)
    requires IsAbs(TrimSpace(requested)) && p in plan.includes
    ensures Tidy(p) in CleanIncludes(plan.includes)
  {
    var _, names := InPlaceBelow(plan, requested, snapshotPaths, selected, p);
    var filter := FilterNames(p, names);
    assert Abs(filter)[0] == '/';
    CleanIncludesHold(plan.includes, Tidy(p));
  }

  /** So no filter of the whole command covers anything outside the requested folder,
      if and only if every planned include, tidied once more, lies inside. */
  lemma CommandStaysExactly(plan: Plan, requested: string, snapshotPaths: seq<string>, selected: seq<string>,
                            folder: seq<string>, snapshotID: string, args: seq<string>)
    requires Planned(plan, requested, snapshotPaths, selected) && InPlace(requested, snapshotPaths)
    requires Names(folder) && Tidy(requested) == Abs(folder)
    requires IsCommand(args, snapshotID, plan.target, CleanIncludes(plan.includes))
    ensures (forall k: nat | 7 + 2 * k < |args| :: args[5 + 2 * k] == "--include" && StaysBelow(args[6 + 2 * k], folder))
            <==> forall p | p in plan.includes :: PathWithin(Tidy(p), Tidy(requested)).Some?
  {
    var filters := CleanIncludes(plan.includes);
    CleanIdempotent(TrimSpace(requested));
    forall p | p in plan.includes
      ensures Tidy(p) in filters && (StaysBelow(Escape(Tidy(p)), folder) <==> PathWithin(Tidy(p), Tidy(requested)).Some?) {
      IncludeKept(plan, requested, snapshotPaths, selected, p);
      FilterStaysExactly(plan, requested, snapshotPaths, selected, folder, p);
    }
    forall k: nat | k < |filters| ensures TidiedFrom(filters[k], plan.includes) {
      CleanIncludesHold(plan.includes, filters[k]);
    }
    assert forall k: nat :: k < |filters| <==> 7 + 2 * k < |args|;
  }

  lemma FilterNames(p: string, names: seq<string>) returns (filter: seq<string>)
    requires Names(names) && p == Abs(names)
    ensures Names(filter) && Tidy(p) == Abs(filter)
  {
    AbsTrimmed(names);
    filter := CleanAbs(TrimSpace(p));
  }

  lemma AbsTrimmed(names: seq<string>)
    ensures IsAbs(TrimSpace(Abs(names)))
  {
    TrimRightKeepsSlash(Abs(names));
  }

  lemma {:induction false} TrimRightKeepsSlash(s: string)
    requires IsAbs(s)
    ensures IsAbs(TrimRight(s))
  {
    if IsSpace(s[|s| - 1]) { TrimRightKeepsSlash(s[..|s| - 1]); }
  }

  // ---- folders whose names end in a space ------------------------------------------------

  /** The folder beside this one whose name has one more space. */
  function Spaced(names: seq<string>): seq<string>
    requires names != []
  {
    names[..|names| - 1] + [names[|names| - 1] + " "]
  }

  lemma {:induction false} JoinSpaced(names: seq<string>)
    requires names != []
    ensures Join(Spaced(names)) == Join(names) + " "
  {
    if |names| > 1 {
      JoinSpaced(names[1..]);
      assert Spaced(names)[1..] == Spaced(names[1..]);
      Assoc(names[0] + "/", Join(names[1..]), " ");
    }
  }

  lemma SpacedNames(names: seq<string>)
    requires Names(names) && names != []
    ensures Names(Spaced(names)) && Abs(Spaced(names)) == Abs(names) + " " && !(Spaced(names) <= names)
  {
    JoinSpaced(names);
    Assoc("/", Join(names), " ");
    var last := names[|names| - 1];
    assert Name(last);
    assert (last + " ")[|last|] == ' ' && |last + " "| >= 2;
    assert last[0] in last;
    assert Name(last + " ");
    assert Spaced(names)[|names| - 1] == last + " ";
  }

  lemma TrimSpaced(p: string)
    requires IsAbs(p) && TrimSpace(p) == p
    ensures TrimSpace(p + " ") == p && TrimSpace(p + " /") == p + " /"
  {
    assert TrimLeft(p) == p;
    assert (p + " ")[..|p|] == p;
    assert TrimRight(p + " ") == TrimRight((p + " ")[..|p|]);
  }

  /** How the two folders are tidied. */
  lemma TidySpaced(names: seq<string>)
    requires Names(names) && names != [] && TrimSpace(Abs(names)) == Abs(names)
    ensures var p, q := Abs(names), Abs(names) + " ";
            && Clean(q) == q && Tidy(p) == Tidy(q) == p && Tidy(q + "/") == q && PathWithin(p, q).None? && p != "/" && q != "/"
  {
    var p := Abs(names);
    SpacedNames(names);
    NamesClean(names);
    NamesClean(Spaced(names));
    TrimSpaced(p);
    assert p + " " + "/" == p + " /";
    CleanTrailingSlash(Spaced(names));
    PathWithinIs(names, Spaced(names));
    JoinEmpty(names);
  }

  /** Whatever the folder: if its snapshot was recorded with a space behind the path,
      the plan includes a folder that the snapshot does not hold. */
  lemma UntrimmedSnapshotPath(names: seq<string>)
    requires Names(names) && names != [] && TrimSpace(Abs(names)) == Abs(names)
    ensures var p := Abs(names);
            && InPlace(p, [p + " "]) && PlanOf(p, [p + " "]) == Plan("/", [p])
            && !InSnapshot(p, [p + " "])
  {
    var p := Abs(names);
    TidySpaced(names);
    RootIsRoot();
    assert [p + " "][0] == p + " ";
    assert BackedUp(p, [p + " "]);
  }

  /** And if the folder's own name ends in a space, the command limits itself to the
      folder without it. */
  lemma SpaceChangesFolder(names: seq<string>)
    requires Names(names) && names != [] && TrimSpace(Abs(names)) == Abs(names)
    ensures var p, q := Abs(names), Abs(names) + " ";
            && PlanOf(q + "/", [q + "/"]) == Plan("/", [q])
            && CleanIncludes([q]) == [p] && PathWithin(p, q).None?
  {
    var q := Abs(names) + " ";
    TidySpaced(names);
    RootIsRoot();
    assert [q + "/"][0] == q + "/";
    assert BackedUp(q, [q + "/"]);
    IncludesNext([], q);
    assert [] + [q] == [q];
    assert Kept(Abs(names)) by { assert Abs(names)[0] == '/'; }
  }

  /** A slash at the end is cleaned away. */
  lemma CleanTrailingSlash(names: seq<string>)
    requires Names(names) && names != []
    ensures Clean(Abs(names) + "/") == Abs(names)
  {
    var s := Abs(names) + "/";
    SplitConcat(Abs(names), "");
    assert Abs(names) + "/" + "" == s;
    assert Split("") == [""];
    NamesClean(names);
    NamesReduced(names);
    var cs := Split(Abs(names));
    assert (cs + [""])[..|cs|] == cs;
    assert Reduce(cs + [""], true) == Push(Reduce(cs, true), "", true);
  }

  lemma NamesReduced(names: seq<string>)
    requires Names(names) && names != []
    ensures Reduce(Split(Abs(names)), true) == names
  {
    SplitAbs(names);
    ReduceSkipsEmpty(names, true);
    assert forall i | 0 <= i < |names| :: names[i] in names;
    ReduceFixed(names, true);
  }
}
