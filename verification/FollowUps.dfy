/** Waiting, after a run, for the runs that started as it finished. */
module FollowUps {
  import opened RunModel
  import opened RunEngine
  import opened RunInvariant
  import opened RunSafety

  /** A following run is always a later one. */
  ghost predicate LinksForward(final: map<RunId, Record>) {
    forall p | p in final && final[p].followUp.Some? :: p < final[p].followUp.value
  }

  /** How many records are not earlier than n. */
  ghost function Later(final: map<RunId, Record>, n: RunId): nat {
    |set id | id in final && id >= n|
  }

  /** The runs named one after the other from `next` on, up to the first that
      cannot be waited for. */
  ghost function Chain(final: map<RunId, Record>, next: Option<RunId>): (c: seq<RunId>)
    requires LinksForward(final)
    decreases if next.Some? then 1 + Later(final, next.value) else 0
  {
    if next.None? || next.value !in final then [] else
    var after := final[next.value].followUp;
    SmallerLater(final, next.value, after);
    [next.value] + Chain(final, after)
  }

  lemma SmallerLater(final: map<RunId, Record>, n: RunId, after: Option<RunId>)
    requires n in final && (after.Some? ==> n < after.value)
    ensures after.Some? ==> Later(final, after.value) < Later(final, n)
  {
    if after.Some? {
      var big, small := set id | id in final && id >= n, set id | id in final && id >= after.value;
      assert n in big && small <= big - {n};
      SubsetSize(small, big - {n});
    }
  }

  lemma {:induction false} SubsetSize(a: set<RunId>, b: set<RunId>)
    requires a <= b
    ensures |a| <= |b|
  {
    if a != {} {
      var x :| x in a;
      SubsetSize(a - {x}, b - {x});
    }
  }

  /** `final` holds what waiting for a run returns; waiting for an absent one fails. */
  method WaitForFollowUps(finished: Record, final: map<RunId, Record>) returns (out: seq<RunId>, failed: bool)
    requires LinksForward(final)
    ensures out == Chain(final, finished.followUp)
    ensures forall i | 0 <= i < |out| :: out[i] in final
    ensures var last := if out == [] then finished.followUp else final[out[|out|-1]].followUp;
            if failed then last.Some? && last.value !in final else last == None
  {
    out, failed := [], false;
    var next := finished.followUp;
    while next.Some?
      invariant forall i | 0 <= i < |out| :: out[i] in final
      invariant out + Chain(final, next) == Chain(final, finished.followUp)
      invariant next == if out == [] then finished.followUp else final[out[|out|-1]].followUp
      decreases if next.Some? then 1 + Later(final, next.value) else 0
    {
      if next.value !in final {
        assert Chain(final, next) == [];
        return out, true;
      }
      SmallerLater(final, next.value, final[next.value].followUp);
      assert out + Chain(final, next) == (out + [next.value]) + Chain(final, final[next.value].followUp);
      out := out + [next.value];
      next := final[next.value].followUp;
    }
  }

  lemma ReachableLinksForward(s: State)
    requires Reachable(s)
    ensures LinksForward(s.db)
  {
    ReachableInv(s);
    forall p | p in s.db && s.db[p].followUp.Some? ensures p < s.db[p].followUp.value { Know(s, p); }
  }

  /** Waiting after a final run misses no run started as it finished, nor any
      started as those finished: it waits for exactly the one that p started. */
  lemma WaitMissesNone(s: State, p: RunId)
    requires Reachable(s) && p in s.db && s.db[p].status.Terminal() && s.db[p].status != Interrupted
    requires p in s.follows ==> s.follows[p] in s.db
    ensures LinksForward(s.db)
    ensures Chain(s.db, s.db[p].followUp) == if p in s.follows then [s.follows[p]] else []
    ensures p in s.follows ==> s.follows[p] !in s.follows
  {
    ReachableInv(s);
    ReachableLinksForward(s);
    Know(s, p);
    if p in s.follows {
      var n := s.follows[p];
      Know(s, n);
      assert s.db[n].followUp == None;
      assert Chain(s.db, Some(n)) == [n] + Chain(s.db, None);
    }
  }
}
