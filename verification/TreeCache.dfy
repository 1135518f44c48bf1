/** The cache of the most recently browsed snapshot trees, against an unbounded
    recency list and an unbounded map. */
module TreeCache {
  import opened RunModel
  import opened Sequences

  datatype Op<T> = Get(key: string) | Put(key: string, tree: T)

  /** The list without the first occurrence of the key. */
  function Without(s: seq<string>, key: string): seq<string> {
    if s == [] then []
    else if s[0] == key then s[1..]
    else [s[0]] + Without(s[1..], key)
  }

  /** The key becomes the most recent one. */
  function Touch(s: seq<string>, key: string): seq<string> {
    Without(s, key) + [key]
  }

  function LastN(s: seq<string>, n: nat): seq<string> {
    if |s| <= n then s else s[|s| - n..]
  }

  /** What follows the first occurrence of the key. */
  function After(s: seq<string>, key: string): seq<string> {
    if s == [] then []
    else if s[0] == key then s[1..]
    else After(s[1..], key)
  }

  // ---- the reference ---------------------------------------------------------------

  /** The key an operation uses: putting a key uses it, and so does finding it
      among the `max` most recently used. */
  function Use<T>(max: nat, recent: seq<string>, op: Op<T>): Option<string> {
    match op
    case Put(key, _) => Some(key)
    case Get(key) => if key in LastN(recent, max) then Some(key) else None
  }

  /** Every key ever put, the least recently used first. */
  function Recency<T>(max: nat, ops: seq<Op<T>>): seq<string> {
    if ops == [] then [] else
    var r := Recency(max, ops[..|ops| - 1]);
    match Use(max, r, ops[|ops| - 1])
    case Some(key) => Touch(r, key)
    case None => r
  }

  /** What was last put under each key. */
  function LastPut<T>(ops: seq<Op<T>>): map<string, T> {
    if ops == [] then map[] else
    match ops[|ops| - 1]
    case Put(key, tree) => LastPut(ops[..|ops| - 1])[key := tree]
    case Get(_) => LastPut(ops[..|ops| - 1])
  }

  /** The bounded cache agrees with the reference: it holds exactly the last-put
      values of the `max` most recently used keys, in order of use. */
  ghost predicate Agrees<T>(max: nat, recent: seq<string>, put: map<string, T>, order: seq<string>, entries: map<string, T>) {
    && order == LastN(recent, max)
    && Distinct(order)
    && SameKeys(order, entries) && ValuesFrom(put, entries)
  }

  ghost predicate SameKeys<T>(order: seq<string>, entries: map<string, T>) {
    forall key :: key in entries <==> key in order
  }

  ghost predicate ValuesFrom<T>(put: map<string, T>, entries: map<string, T>) {
    forall key | key in entries :: key in put && entries[key] == put[key]
  }

  // ---- lists ------------------------------------------------------------------------

  lemma {:induction false} WithoutConcat(a: seq<string>, b: seq<string>, key: string)
    ensures Without(a + b, key) == if key in a then Without(a, key) + b else a + Without(b, key)
  {
    if a == [] {
      assert a + b == b;
    } else {
      var head, tail := [a[0]], a[1..];
      assert a == head + tail;
      Assoc(head, tail, b);
      assert (a + b)[1..] == tail + b;
      if a[0] != key {
        WithoutConcat(tail, b, key);
        Assoc(head, Without(tail, key), b);
        Assoc(head, tail, Without(b, key));
      }
    }
  }

  lemma {:induction false} WithoutAbsent(s: seq<string>, key: string)
    requires key !in s
    ensures Without(s, key) == s
  {
    if s != [] { WithoutAbsent(s[1..], key); }
  }

  lemma {:induction false} WithoutMembers(s: seq<string>, key: string)
    ensures forall k :: k in Without(s, key) ==> k in s
    ensures forall k :: k in s && k != key ==> k in Without(s, key)
    ensures |Without(s, key)| == if key in s then |s| - 1 else |s|
  {
    if s != [] {
      assert s == [s[0]] + s[1..];
      if s[0] != key { WithoutMembers(s[1..], key); }
    }
  }

  lemma DistinctCons(x: string, s: seq<string>)
    ensures Distinct([x] + s) <==> Distinct(s) && x !in s
  {
    var t := [x] + s;
    assert t[1..] == s;
    if Distinct(t) {
      assert forall i, j | 0 <= i < j < |s| :: s[i] == t[i + 1] && s[j] == t[j + 1];
      assert forall j | 0 <= j < |s| :: t[0] != t[j + 1] == s[j];
    }
  }

  lemma {:induction false} WithoutDistinct(s: seq<string>, key: string)
    requires Distinct(s)
    ensures Distinct(Without(s, key)) && key !in Without(s, key)
  {
    if s != [] {
      assert s == [s[0]] + s[1..];
      DistinctCons(s[0], s[1..]);
      if s[0] != key {
        WithoutDistinct(s[1..], key);
        WithoutMembers(s[1..], key);
        DistinctCons(s[0], Without(s[1..], key));
      }
    }
  }

  lemma TouchDistinct(s: seq<string>, key: string)
    requires Distinct(s)
    ensures Distinct(Touch(s, key)) && key !in Without(s, key)
    ensures forall k :: k in Touch(s, key) <==> k in s || k == key
    ensures |Without(s, key)| == if key in s then |s| - 1 else |s|
  {
    WithoutMembers(s, key);
    WithoutDistinct(s, key);
  }

  lemma {:induction false} AfterConcat(s: seq<string>, t: seq<string>, key: string)
    requires key in s
    ensures After(s + t, key) == After(s, key) + t
    ensures forall k | k in After(s, key) :: k in s
  {
    assert (s + t)[1..] == s[1..] + t;
    if s[0] != key { AfterConcat(s[1..], t, key); }
  }

  /** Touching a key also moves it to the end of what follows any other. */
  lemma {:induction false} AfterTouch(s: seq<string>, key: string, k: string)
    requires Distinct(s) && k in s && k != key
    ensures After(Touch(s, key), k) == Touch(After(s, k), key)
  {
    if s[0] == key {
      AfterConcat(s[1..], [key], k);
      WithoutAbsent(After(s[1..], k), key);
    } else {
      assert Touch(s, key) == [s[0]] + Touch(s[1..], key);
      if s[0] != k { AfterTouch(s[1..], key, k); }
    }
  }

  lemma {:induction false} AfterLast(s: seq<string>, key: string)
    requires key !in s
    ensures After(s + [key], key) == []
  {
    if s != [] {
      assert (s + [key])[1..] == s[1..] + [key];
      AfterLast(s[1..], key);
    }
  }

  lemma NotInFront(a: seq<string>, b: seq<string>, key: string)
    requires Distinct(a + b) && key in b
    ensures key !in a
  {
    var j :| 0 <= j < |b| && b[j] == key;
    assert (a + b)[|a| + j] == key;
    forall i | 0 <= i < |a| ensures a[i] != key { assert (a + b)[i] == a[i]; }
  }

  lemma TouchBack(a: seq<string>, b: seq<string>, key: string)
    requires Distinct(a + b) && key in b
    ensures Touch(a + b, key) == a + Touch(b, key) && |Touch(b, key)| == |b|
  {
    NotInFront(a, b, key);
    WithoutConcat(a, b, key);
    WithoutMembers(b, key);
  }

  lemma LastNBack(a: seq<string>, b: seq<string>, max: nat)
    requires |b| == max || (|b| < max && a == [])
    ensures LastN(a + b, max) == b
  {
    assert |b| < max ==> a + b == b;
  }

  /** Touching a cached key commutes with forgetting the oldest ones. */
  lemma TouchCached(r: seq<string>, max: nat, key: string)
    requires Distinct(r) && key in LastN(r, max)
    ensures LastN(Touch(r, key), max) == Touch(LastN(r, max), key)
  {
    var b := LastN(r, max);
    var a := r[..|r| - |b|];
    assert r == a + b;
    TouchBack(a, b, key);
    LastNBack(a, Touch(b, key), max);
  }

  /** Touching a key that is not cached pushes out the oldest cached one. */
  lemma TouchMissing(r: seq<string>, max: nat, key: string)
    requires Distinct(r) && max > 0 && key !in LastN(r, max)
    ensures LastN(Touch(r, key), max) == (if |LastN(r, max)| >= max then LastN(r, max)[1..] else LastN(r, max)) + [key]
  {
    var b := LastN(r, max);
    var a := r[..|r| - |b|];
    assert r == a + b;
    if key in a {
      WithoutConcat(a, b, key);
      WithoutMembers(a, key);
      MissingBack(Without(a, key), b, max, key);
    } else {
      WithoutAbsent(r, key);
      MissingBack(a, b, max, key);
    }
  }

  /** One more key behind a list that ends in the cached ones. */
  lemma MissingBack(a: seq<string>, b: seq<string>, max: nat, key: string)
    requires max > 0 && (|b| == max || (|b| < max && a == []))
    ensures LastN(a + b + [key], max) == (if |b| >= max then b[1..] else b) + [key]
  {
    if |b| == max {
      assert b == [b[0]] + b[1..];
      assert a + b + [key] == (a + [b[0]]) + (b[1..] + [key]);
      LastNBack(a + [b[0]], b[1..] + [key], max);
    } else {
      assert a + b == b;
      LastNBack([], b + [key], max);
      assert [] + (b + [key]) == b + [key];
    }
  }

  // ---- one more operation -------------------------------------------------------------

  function OrderAfterPut(max: nat, order: seq<string>, key: string): seq<string> {
    Touch(if key !in order && |order| >= max > 0 then order[1..] else order, key)
  }

  lemma RecencySnoc<T>(max: nat, ops: seq<Op<T>>, op: Op<T>)
    ensures Recency(max, ops + [op]) ==
            match Use(max, Recency(max, ops), op) case Some(key) => Touch(Recency(max, ops), key) case None => Recency(max, ops)
    ensures LastPut(ops + [op]) == match op case Put(key, tree) => LastPut(ops)[key := tree] case Get(_) => LastPut(ops)
  {
    assert (ops + [op])[..|ops|] == ops;
  }

  // ---- any sequence of operations -----------------------------------------------------

  lemma {:induction false} RecencyDistinct<T>(max: nat, ops: seq<Op<T>>)
    ensures Distinct(Recency(max, ops))
    ensures forall key | key in Recency(max, ops) :: key in LastPut(ops)
  {
    if ops != [] {
      var r := Recency(max, ops[..|ops| - 1]);
      RecencyDistinct(max, ops[..|ops| - 1]);
      TouchDistinct(r, ops[|ops| - 1].key);
      LastNIn(r, max);
    }
  }

  lemma LastNIn(r: seq<string>, max: nat)
    ensures forall k | k in LastN(r, max) :: k in r
    ensures Distinct(r) ==> Distinct(LastN(r, max))
  {
  }

  /** The keys used, one after the other. */
  function Uses<T>(max: nat, ops: seq<Op<T>>): seq<string> {
    if ops == [] then [] else
    var used := Uses(max, ops[..|ops| - 1]);
    match Use(max, Recency(max, ops[..|ops| - 1]), ops[|ops| - 1])
    case Some(key) => used + [key]
    case None => used
  }

  /** Putting a key counts as a use, and so does looking one up, if and only if its
      tree is found. */
  lemma UsesExactly<T>(max: nat, ops: seq<Op<T>>, key: string, tree: T)
    ensures Uses(max, ops + [Op.Put(key, tree)]) == Uses(max, ops) + [key]
    ensures Uses(max, ops + [Op.Get(key)]) ==
            Uses(max, ops) + if Cached(max, Recency(max, ops), LastPut(ops), key).Some? then [key] else []
  {
    assert (ops + [Op.Put(key, tree)])[..|ops|] == ops;
    assert (ops + [Op<T>.Get(key)])[..|ops|] == ops;
    RecencyDistinct(max, ops);
    LastNIn(Recency(max, ops), max);
  }

  /** The different keys used since the last use of a key. */
  function Since(used: seq<string>, key: string): set<string> {
    if used == [] || used[|used| - 1] == key then {}
    else Since(used[..|used| - 1], key) + {used[|used| - 1]}
  }

  function Elements(s: seq<string>): set<string> {
    set k | k in s
  }

  lemma {:induction false} RecencyIsUse<T>(max: nat, ops: seq<Op<T>>, key: string)
    ensures key in Recency(max, ops) <==> key in Uses(max, ops)
    ensures key in Recency(max, ops) ==> Elements(After(Recency(max, ops), key)) == Since(Uses(max, ops), key)
  {
    if ops != [] {
      var before := ops[..|ops| - 1];
      var r := Recency(max, before);
      RecencyIsUse(max, before, key);
      RecencyDistinct(max, before);
      var use := Use(max, r, ops[|ops| - 1]);
      if use.Some? {
        TouchStep(r, use.value, key, Uses(max, before));
      }
    }
  }

  lemma TouchStep(r: seq<string>, use: string, key: string, used: seq<string>)
    requires Distinct(r)
    requires key in r ==> Elements(After(r, key)) == Since(used, key)
    ensures key in Touch(r, use) <==> key in r || key == use
    ensures key in Touch(r, use) ==> Elements(After(Touch(r, use), key)) == Since(used + [use], key)
  {
    TouchDistinct(r, use);
    assert (used + [use])[..|used|] == used;
    if key == use {
      AfterLast(Without(r, use), use);
    } else if key in r {
      AfterTouch(r, use, key);
      AfterDistinct(r, key);
      TouchElements(After(r, key), use);
    }
  }

  lemma TouchElements(s: seq<string>, key: string)
    requires Distinct(s)
    ensures Elements(Touch(s, key)) == Elements(s) + {key}
  {
    TouchDistinct(s, key);
  }

  lemma {:induction false} AfterDistinct(r: seq<string>, key: string)
    requires Distinct(r) && key in r
    ensures exists i :: 0 <= i < |r| && r[i] == key && After(r, key) == r[i + 1..]
    ensures Distinct(After(r, key))
  {
    if r[0] == key {
      assert After(r, key) == r[0 + 1..];
    } else {
      AfterDistinct(r[1..], key);
      var i :| 0 <= i < |r[1..]| && r[1..][i] == key && After(r[1..], key) == r[1..][i + 1..];
      assert r[i + 1] == key && r[1..][i + 1..] == r[i + 2..];
    }
  }

  lemma {:induction false} DistinctSize(s: seq<string>)
    requires Distinct(s)
    ensures |Elements(s)| == |s|
  {
    if s != [] {
      DistinctSize(s[1..]);
      assert Elements(s) == Elements(s[1..]) + {s[0]};
    }
  }

  /** After any operations a key is cached exactly if it was put and fewer than
      `max` other keys were used since its last use. */
  lemma CachedExactly<T>(max: nat, ops: seq<Op<T>>, key: string)
    ensures key in LastN(Recency(max, ops), max) <==>
            key in Uses(max, ops) && |Since(Uses(max, ops), key)| < max
  {
    var r := Recency(max, ops);
    RecencyIsUse(max, ops, key);
    RecencyDistinct(max, ops);
    LastNIn(r, max);
    if key in r {
      AfterDistinct(r, key);
      DistinctSize(After(r, key));
      var i :| 0 <= i < |r| && r[i] == key && After(r, key) == r[i + 1..];
      LastNAt(r, max, i);
    }
  }

  lemma LastNAt(r: seq<string>, max: nat, i: nat)
    requires Distinct(r) && i < |r|
    ensures r[i] in LastN(r, max) <==> |r| - 1 - i < max
  {
    var d := |r| - max;
    if d > 0 {
      if r[i] in LastN(r, max) {
        var j :| 0 <= j < max && LastN(r, max)[j] == r[i];
        assert r[d + j] == r[i];
      }
      if i >= d { assert LastN(r, max)[i - d] == r[i]; }
    }
  }

  /** What the reference answers: the last-put tree of a key among the `max` most
      recently used. */
  function Cached<T>(max: nat, recent: seq<string>, put: map<string, T>, key: string): Option<T> {
    if key in LastN(recent, max) && key in put then Some(put[key]) else None
  }

  lemma GetFinds<T>(max: nat, recent: seq<string>, put: map<string, T>, order: seq<string>, entries: map<string, T>, key: string)
    requires Agrees(max, recent, put, order, entries)
    ensures Cached(max, recent, put, key) == if key in entries then Some(entries[key]) else None
    ensures Use(max, recent, Op<T>.Get(key)) == if key in entries then Some(key) else None
  {
  }

  /** Finding a key keeps the agreement. */
  lemma GetKeeps<T>(max: nat, recent: seq<string>, put: map<string, T>, order: seq<string>, entries: map<string, T>, key: string)
    requires Distinct(recent) && Agrees(max, recent, put, order, entries) && key in entries
    ensures Agrees(max, Touch(recent, key), put, Touch(order, key), entries)
  {
    TouchCached(recent, max, key);
    TouchDistinct(order, key);
  }

  lemma PutOrder(max: nat, r: seq<string>, key: string)
    requires max > 0 && Distinct(r)
    ensures OrderAfterPut(max, LastN(r, max), key) == LastN(Touch(r, key), max)
  {
    var order := LastN(r, max);
    if key in order {
      TouchCached(r, max, key);
    } else {
      TouchMissing(r, max, key);
      WithoutAbsent(order, key);
      if |order| >= max { WithoutAbsent(order[1..], key); }
    }
  }

  lemma PutDistinct(max: nat, order: seq<string>, key: string)
    requires max > 0 && Distinct(order)
    ensures Distinct(OrderAfterPut(max, order, key))
    ensures forall k :: k in OrderAfterPut(max, order, key) <==>
              k == key || (k in order && (key in order || |order| < max || k != order[0]))
  {
    if key !in order && |order| >= max {
      assert order == [order[0]] + order[1..];
      DistinctCons(order[0], order[1..]);
      TouchDistinct(order[1..], key);
    } else {
      TouchDistinct(order, key);
    }
  }

  function EntriesAfterPut<T>(max: nat, order: seq<string>, entries: map<string, T>, key: string, tree: T): map<string, T> {
    (if key !in entries && |order| >= max > 0 then entries - {order[0]} else entries)[key := tree]
  }

  lemma PutKeys<T>(max: nat, order: seq<string>, entries: map<string, T>, key: string, tree: T)
    requires max > 0 && Distinct(order) && SameKeys(order, entries)
    ensures SameKeys(OrderAfterPut(max, order, key), EntriesAfterPut(max, order, entries, key, tree))
  {
    PutDistinct(max, order, key);
  }

  lemma PutValues<T>(max: nat, order: seq<string>, put: map<string, T>, entries: map<string, T>, key: string, tree: T)
    requires ValuesFrom(put, entries)
    ensures ValuesFrom(put[key := tree], EntriesAfterPut(max, order, entries, key, tree))
  {
  }

  /** Putting a tree keeps the agreement. */
  lemma PutKeeps<T>(max: nat, recent: seq<string>, put: map<string, T>, order: seq<string>, entries: map<string, T>,
                    key: string, tree: T)
    requires max > 0 && Distinct(recent) && Agrees(max, recent, put, order, entries)
    ensures Agrees(max, Touch(recent, key), put[key := tree], OrderAfterPut(max, order, key),
                   EntriesAfterPut(max, order, entries, key, tree))
  {
    PutOrder(max, recent, key);
    PutDistinct(max, order, key);
    PutKeys(max, order, entries, key, tree);
    PutValues(max, order, put, entries, key, tree);
  }

  // ---- the cache ------------------------------------------------------------------------

  class SnapshotTreeCache<T> {
    var order: seq<string>
    var entries: map<string, T>
    const max: nat
    ghost var ops: seq<Op<T>>

    ghost predicate Valid()
      reads this
    {
      max > 0 && Agrees(max, Recency(max, ops), LastPut(ops), order, entries)
    }

    constructor ()
      ensures Valid() && max == 4 && ops == []
    {
      order, entries, max, ops := [], map[], 4, [];
    }

    /** The key is the last one in order, once. */
    method MoveToBack(key: string)
      modifies this`order
      ensures order == Touch(old(order), key)
    {
      var i := 0;
      while i < |order|
        invariant i <= |order| && order == old(order)
        invariant key !in order[..i]
      {
        if order[i] == key {
          WithoutConcat(order[..i], order[i..], key);
          assert order == order[..i] + order[i..];
          order := order[..i] + order[i + 1..];
          break;
        }
        i := i + 1;
      }
      if i == |old(order)| {
        assert old(order)[..i] == old(order);
        WithoutAbsent(old(order), key);
      }
      order := order + [key];
    }

    /** Finds exactly the last-put tree of a cached key. */
    method Get(key: string) returns (tree: Option<T>)
      requires Valid()
      modifies this
      ensures Valid() && ops == old(ops) + [Op.Get(key)]
      ensures tree == Cached(max, Recency(max, old(ops)), LastPut(old(ops)), key)
    {
      ghost var recent, put := Recency(max, ops), LastPut(ops);
      RecencyDistinct(max, ops);
      RecencySnoc(max, ops, Op.Get(key));
      GetFinds(max, recent, put, order, entries, key);
      if key in entries {
        GetKeeps(max, recent, put, order, entries, key);
        tree := Some(entries[key]);
        MoveToBack(key);
      } else {
        tree := None;
      }
      ops := ops + [Op.Get(key)];
    }

    /** Caches the tree, in place of the least recently used one if need be. */
    method Put(key: string, tree: T)
      requires Valid()
      modifies this
      ensures Valid() && ops == old(ops) + [Op.Put(key, tree)]
      ensures key in entries && entries[key] == tree
    {
      RecencyDistinct(max, ops);
      RecencySnoc(max, ops, Op.Put(key, tree));
      PutKeeps(max, Recency(max, ops), LastPut(ops), order, entries, key, tree);
      if key !in entries && |order| >= max {
        var oldest := order[0];
        order := order[1..];
        entries := entries - {oldest};
      }
      entries := entries[key := tree];
      MoveToBack(key);
      ops := ops + [Op.Put(key, tree)];
    }
  }
}
