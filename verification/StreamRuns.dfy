/** One connection to a run's live stream, under every interleaving of storing,
    publishing, subscribing, replaying and receiving. */
module StreamRuns {
  import opened EventStream
  import opened Sequences

  datatype Connection =
    | NotConnected
    | Subscribed(queue: seq<Message>)
    // the backlog has been written; `covered` is how far `sent` reaches, see InOrder
    | Tailing(queue: seq<Message>, sent: seq<int>, max: int, covered: nat)

  /** A run's log of n lines, of which `unpublished` have been stored but not yet
      handed to subscribers, and one connection resuming after a given line.
      `inOrder` records whether lines have so far been published in order, the
      last being `published`, and `lossless` whether none found a full buffer. Of the
      connection, `heard` is the lines its channel has taken since it subscribed and
      `base` how far the log reached when it read the backlog. */
  datatype Stream = Stream(n: nat, unpublished: set<int>, conn: Connection, inOrder: bool, published: nat, lossless: bool,
                           heard: seq<int>, base: nat)

  const START := Stream(0, {}, NotConnected, true, 0, true, [], 0)

  datatype Event = Commit | Publish(number: int) | PublishOther | Subscribe | ReadBacklog | Receive

  predicate Possible(s: Stream, e: Event) {
    match e
    case Publish(k) => k in s.unpublished
    case Subscribe => s.conn.NotConnected?
    case ReadBacklog => s.conn.Subscribed?
    case Receive => s.conn.Tailing? && s.conn.queue != []
    case _ => true
  }

  function Offered(c: Connection, msg: Message): Connection {
    match c
    case NotConnected => c
    case Subscribed(q) => Subscribed(Deliver(q, msg))
    case Tailing(q, sent, max, covered) => Tailing(Deliver(q, msg), sent, max, covered)
  }

  /** The first waiting message is written, unless it is a line not above those
      written already. */
  function Pass(c: Connection): Connection
    requires c.Tailing? && c.queue != []
  {
    var Tailing(q, sent, max, covered) := c;
    var rest := q[1..];
    if q[0].LogLine? && q[0].number > max
    then Tailing(rest, sent + [q[0].number], q[0].number, if q[0].number >= 0 then q[0].number else 0)
    else if q[0].LogLine? && q[0].number > covered then Tailing(rest, sent, max, q[0].number)
    else Tailing(rest, sent, max, covered)
  }

  /** The connection's channel takes the next message. */
  predicate Takes(c: Connection) {
    c != NotConnected && |c.queue| < SSE_BUFFER
  }

  function Happens(s: Stream, e: Event, after: int): Stream
    requires Possible(s, e)
  {
    match e
    case Commit => s.(n := s.n + 1, unpublished := s.unpublished + {s.n + 1})
    case Publish(k) =>
      s.(unpublished := s.unpublished - {k}, conn := Offered(s.conn, LogLine(k)),
         inOrder := s.inOrder && k == s.published + 1, published := if k > s.published then k else s.published,
         lossless := s.lossless && (s.conn.NotConnected? || Takes(s.conn)),
         heard := if Takes(s.conn) then s.heard + [k] else s.heard)
    case PublishOther => s.(conn := Offered(s.conn, Other))
    case Subscribe => s.(conn := Subscribed([]), heard := [])
    case ReadBacklog =>
      var backlog := Stored(after, s.n);
      s.(conn := Tailing(s.conn.queue, backlog, if backlog == [] then after else s.n, s.n), base := s.n)
    case Receive => s.(conn := Pass(s.conn))
  }

  predicate CanHappen(s: Stream, events: seq<Event>, after: int)
    decreases |events|
  {
    events != [] ==> Possible(s, events[0]) && CanHappen(Happens(s, events[0], after), events[1..], after)
  }

  function Later(s: Stream, events: seq<Event>, after: int): Stream
    requires CanHappen(s, events, after)
    decreases |events|
  {
    if events == [] then s else Later(Happens(s, events[0], after), events[1..], after)
  }

  /** What holds of a connection in every interleaving. */
  ghost predicate ConnectionOk(c: Connection, n: nat, after: int) {
    && (c != NotConnected ==> forall k | k in LinesOf(c.queue) :: 1 <= k <= n)
    && (c.Tailing? ==>
          && Increasing(c.sent)
          && (forall k | k in c.sent :: after < k <= n)
          && c.max == if c.sent == [] then after else c.sent[|c.sent|-1])
  }

  /** What holds in every interleaving. */
  ghost predicate Always(s: Stream, after: int) {
    (forall k | k in s.unpublished :: 1 <= k <= s.n) && ConnectionOk(s.conn, s.n, after)
  }

  lemma {:induction false} LinesAppend(q: seq<Message>, m: Message)
    ensures LinesOf(q + [m]) == LinesOf(q) + if m.LogLine? then [m.number] else []
  {
    if q != [] {
      assert (q + [m])[1..] == q[1..] + [m];
      LinesAppend(q[1..], m);
    } else {
      assert [m][1..] == [];
    }
  }

  lemma IncreasingSnoc(s: seq<int>, x: int)
    requires Increasing(s) && (s != [] ==> s[|s| - 1] < x)
    ensures Increasing(s + [x])
  {
  }

  lemma PassOk(c: Connection, n: nat, after: int)
    requires ConnectionOk(c, n, after) && c.Tailing? && c.queue != []
    ensures ConnectionOk(Pass(c), n, after)
  {
    FirstLine(c.queue);
    var c' := Pass(c);
    assert c.sent != [] ==> c.sent[|c.sent| - 1] in c.sent;
    if c'.sent != c.sent {
      IncreasingSnoc(c.sent, c'.max);
    }
  }

  lemma AlwaysStep(s: Stream, e: Event, after: int)
    requires Always(s, after) && Possible(s, e)
    ensures Always(Happens(s, e, after), after)
  {
    match e
    case Publish(k) => if s.conn != NotConnected { LinesAppend(s.conn.queue, LogLine(k)); }
    case PublishOther => if s.conn != NotConnected { LinesAppend(s.conn.queue, Other); }
    case ReadBacklog => StoredMembers(after, s.n);
    case Receive => PassOk(s.conn, s.n, after);
    case _ =>
  }

  /** In every interleaving, the numbers a connection writes are strictly
      increasing, above its resume point and stored. */
  lemma {:induction false} SentIncreasing(s: Stream, events: seq<Event>, after: int)
    requires Always(s, after) && CanHappen(s, events, after)
    ensures Always(Later(s, events, after), after)
    decreases |events|
  {
    if events != [] {
      AlwaysStep(s, events[0], after);
      SentIncreasing(Happens(s, events[0], after), events[1..], after);
    }
  }

  lemma {:induction false} StoredFirst(q: nat, p: nat)
    requires q < p
    ensures Stored(q, p) == [q + 1] + Stored(q + 1, p)
    decreases p
  {
    if q + 1 < p {
      StoredFirst(q, p - 1);
    } else {
      assert Stored(q, p - 1) == [] == Stored(q + 1, p);
    }
  }

  /** As long as lines are published in order and none is dropped: the queued
      lines are the latest published ones, and what was written together with
      them leaves nothing out. */
  ghost predicate InOrder(s: Stream, after: int) {
    s.inOrder ==>
      && s.published <= s.n
      && (forall k :: k in s.unpublished <==> s.published < k <= s.n)
      && (s.lossless && s.conn != NotConnected ==> Gapless(s.conn, s.published, s.n, after))
  }

  ghost predicate Gapless(c: Connection, published: nat, n: nat, after: int)
    requires c != NotConnected
  {
    var lines := LinesOf(c.queue);
    && |lines| <= published
    && lines == Stored(published - |lines|, published)
    && (c.Tailing? ==> published - |lines| <= c.covered <= n && c.sent == Stored(after, c.covered))
  }

  lemma PublishGapless(s: Stream, after: int, k: int)
    requires Always(s, after) && InOrder(s, after) && k in s.unpublished
    ensures InOrder(Happens(s, Publish(k), after), after)
  {
    var s' := Happens(s, Publish(k), after);
    if s'.inOrder && s'.lossless && s.conn != NotConnected {
      LinesAppend(s.conn.queue, LogLine(k));
      assert LinesOf(s'.conn.queue) == LinesOf(s.conn.queue) + [k];
    }
  }

  lemma PassGapless(c: Connection, published: nat, n: nat, after: int)
    requires ConnectionOk(c, n, after) && c.Tailing? && c.queue != [] && published <= n
    requires Gapless(c, published, n, after)
    ensures Gapless(Pass(c), published, n, after)
  {
    FirstLine(c.queue);
    if c.queue[0].LogLine? {
      var from := published - |LinesOf(c.queue)|;
      StoredFirst(from, published);
      assert ([from + 1] + Stored(from + 1, published))[1..] == Stored(from + 1, published);
      StoredMembers(after, c.covered);
    }
  }

  lemma InOrderStep(s: Stream, e: Event, after: int)
    requires Always(s, after) && InOrder(s, after) && Possible(s, e)
    ensures InOrder(Happens(s, e, after), after)
  {
    match e
    case Publish(k) => PublishGapless(s, after, k);
    case Receive => if s.inOrder && s.lossless { PassGapless(s.conn, s.published, s.n, after); }
    case PublishOther => if s.conn != NotConnected { LinesAppend(s.conn.queue, Other); }
    case _ =>
  }

  lemma {:induction false} InOrderRun(s: Stream, events: seq<Event>, after: int)
    requires Always(s, after) && InOrder(s, after) && CanHappen(s, events, after)
    ensures Always(Later(s, events, after), after) && InOrder(Later(s, events, after), after)
    decreases |events|
  {
    if events != [] {
      AlwaysStep(s, events[0], after);
      InOrderStep(s, events[0], after);
      InOrderRun(Happens(s, events[0], after), events[1..], after);
    }
  }

  /** With in-order publication and no full buffer, a connection that has caught
      up has written exactly the stored lines after its resume point: none lost
      or doubled where the backlog meets the tail. At any time it has written a
      prefix of them. */
  lemma StreamComplete(events: seq<Event>, after: int)
    requires CanHappen(START, events, after)
    ensures var s := Later(START, events, after);
            s.inOrder && s.lossless && s.conn.Tailing? ==>
              && s.conn.covered <= s.n && s.conn.sent == Stored(after, s.conn.covered)
              && (s.unpublished == {} && LinesOf(s.conn.queue) == [] ==> s.conn.sent == Stored(after, s.n))
  {
    InOrderRun(START, events, after);
    var s := Later(START, events, after);
    if s.inOrder && s.unpublished == {} && s.published < s.n {
      assert s.n in s.unpublished;
    }
  }

  /** Out-of-order publication can lose a line for good: line 2 is published
      before line 1, and line 1 is never written. */
  lemma OutOfOrderLoses()
    ensures exists events: seq<Event> ::
              && CanHappen(START, events, 0)
              && var s := Later(START, events, 0);
                 s.n == 2 && s.unpublished == {} && s.conn.Tailing? && s.conn.queue == [] && s.lossless && s.conn.sent == [2]
  {
    var events: seq<Event> := [];
    var s := START;
    events, s := Extend(events, s, Subscribe, 0);
    events, s := Extend(events, s, ReadBacklog, 0);
    events, s := Extend(events, s, Commit, 0);
    events, s := Extend(events, s, Commit, 0);
    assert s.unpublished == {1, 2};
    events, s := Extend(events, s, Publish(2), 0);
    events, s := Extend(events, s, Publish(1), 0);
    assert s.conn.queue == [LogLine(2), LogLine(1)];
    events, s := Extend(events, s, Receive, 0);
    assert s.conn.queue == [LogLine(1)] && s.conn.sent == [2];
    events, s := Extend(events, s, Receive, 0);
    assert s.conn.queue == [] && s.conn.sent == [2];
  }

  lemma Extend(events: seq<Event>, s: Stream, e: Event, after: int) returns (events': seq<Event>, s': Stream)
    requires CanHappen(START, events, after) && Later(START, events, after) == s && Possible(s, e)
    ensures events' == events + [e] && s' == Happens(s, e, after)
    ensures CanHappen(START, events', after) && Later(START, events', after) == s'
  {
    events', s' := events + [e], Happens(s, e, after);
    ExtendFrom(START, events, e, after);
  }

  lemma {:induction false} ExtendFrom(s: Stream, events: seq<Event>, e: Event, after: int)
    requires CanHappen(s, events, after) && Possible(Later(s, events, after), e)
    ensures CanHappen(s, events + [e], after)
    ensures Later(s, events + [e], after) == Happens(Later(s, events, after), e, after)
    decreases |events|
  {
    if events == [] {
      assert [] + [e] == [e] && [e][1..] == [];
    } else {
      assert (events + [e])[1..] == events[1..] + [e];
      ExtendFrom(Happens(s, events[0], after), events[1..], e, after);
    }
  }

  // ---- exactly when nothing is missing -------------------------------------------------

  /** The highest number a connection has written once the backlog is replayed. */
  function Start(after: int, base: nat): int {
    if Stored(after, base) == [] then after else base
  }

  /** The lines heard are stored, published, and each heard once; what is written and
      what waits add up to the backlog and what passes of the lines heard. */
  ghost predicate HistoryOk(s: Stream, after: int) {
    s.conn != NotConnected ==>
      && Distinct(s.heard)
      && (forall k | k in s.heard :: 1 <= k <= s.n && k !in s.unpublished)
      && (s.conn.Subscribed? ==> LinesOf(s.conn.queue) == s.heard)
      && (s.conn.Tailing? ==> Written(s.conn, s.heard, s.base, after) && s.base <= s.n)
  }

  ghost predicate Written(c: Connection, heard: seq<int>, base: nat, after: int)
    requires c.Tailing?
  {
    c.sent + Passed(c.max, LinesOf(c.queue)) == Stored(after, base) + Passed(Start(after, base), heard)
  }

  /** The last number of a list, or what it starts after. */
  function LastOr(s: seq<int>, after: int): int {
    if s == [] then after else s[|s| - 1]
  }

  lemma {:induction false} PassedSnoc(max: int, lines: seq<int>, k: int)
    ensures Passed(max, lines + [k]) == Passed(max, lines) + if k > LastOr(Passed(max, lines), max) then [k] else []
    decreases |lines|
  {
    if lines == [] {
      assert lines + [k] == [k] && [k][1..] == [];
    } else {
      assert (lines + [k])[1..] == lines[1..] + [k];
      PassedSnoc(if lines[0] > max then lines[0] else max, lines[1..], k);
    }
  }

  lemma LastOrConcat(a: seq<int>, b: seq<int>, after: int)
    ensures LastOr(a + b, after) == LastOr(b, LastOr(a, after))
  {
  }

  /** A line taken by the channel is passed on now or later, if its turn comes. */
  lemma TakenWritten(c: Connection, heard: seq<int>, base: nat, n: nat, after: int, k: int)
    requires ConnectionOk(c, n, after) && c.Tailing? && Written(c, heard, base, after)
    ensures Written(c.(queue := c.queue + [LogLine(k)]), heard + [k], base, after)
  {
    var lines, start := LinesOf(c.queue), Start(after, base);
    LinesAppend(c.queue, LogLine(k));
    PassedSnoc(c.max, lines, k);
    PassedSnoc(start, heard, k);
    StoredMembers(after, base);
    LastOrConcat(c.sent, Passed(c.max, lines), after);
    LastOrConcat(Stored(after, base), Passed(start, heard), after);
    var more := if k > LastOr(Passed(c.max, lines), c.max) then [k] else [];
    Assoc(c.sent, Passed(c.max, lines), more);
    Assoc(Stored(after, base), Passed(start, heard), more);
  }

  lemma PublishHistory(s: Stream, after: int, k: int)
    requires Always(s, after) && HistoryOk(s, after) && k in s.unpublished
    ensures HistoryOk(Happens(s, Publish(k), after), after)
  {
    if Takes(s.conn) {
      LinesAppend(s.conn.queue, LogLine(k));
      if s.conn.Tailing? { TakenWritten(s.conn, s.heard, s.base, s.n, after, k); }
      assert k !in s.heard;
    }
  }

  lemma HistoryStep(s: Stream, e: Event, after: int)
    requires Always(s, after) && HistoryOk(s, after) && Possible(s, e)
    ensures HistoryOk(Happens(s, e, after), after)
  {
    match e
    case Publish(k) => PublishHistory(s, after, k);
    case PublishOther =>
      if s.conn != NotConnected {
        LinesAppend(s.conn.queue, Other);
        assert LinesOf(s.conn.queue) + [] == LinesOf(s.conn.queue);
      }
    case Receive => PassedFirst(s.conn.max, s.conn.queue, s.conn.sent);
    case _ =>
  }

  lemma {:induction false} HistoryRun(s: Stream, events: seq<Event>, after: int)
    requires Always(s, after) && HistoryOk(s, after) && CanHappen(s, events, after)
    ensures Always(Later(s, events, after), after) && HistoryOk(Later(s, events, after), after)
    decreases |events|
  {
    if events != [] {
      AlwaysStep(s, events[0], after);
      HistoryStep(s, events[0], after);
      HistoryRun(Happens(s, events[0], after), events[1..], after);
    }
  }

  lemma {:induction false} IncreasingSame(a: seq<int>, b: seq<int>)
    requires Increasing(a) && Increasing(b) && forall k :: k in a <==> k in b
    ensures a == b
    decreases |a|
  {
    if a != [] { assert a[0] in a; }
    if b != [] { assert b[0] in b; }
    if a != [] {
      LeastFirst(a, b[0]);
      LeastFirst(b, a[0]);
      forall k ensures k in a[1..] <==> k in b[1..] {
        TailMembers(a, k);
        TailMembers(b, k);
      }
      IncreasingSame(a[1..], b[1..]);
      assert a == [a[0]] + a[1..] && b == [b[0]] + b[1..];
    }
  }

  lemma LeastFirst(s: seq<int>, k: int)
    requires Increasing(s) && k in s
    ensures s[0] <= k
  {
    var i :| 0 <= i < |s| && s[i] == k;
  }

  lemma TailMembers(s: seq<int>, k: int)
    requires Increasing(s) && s != []
    ensures k in s[1..] <==> k in s && k != s[0]
  {
    assert s == [s[0]] + s[1..];
    if k in s[1..] { var i :| 0 <= i < |s| - 1 && s[1..][i] == k; }
  }

  /** What passes of distinct lines up to n is all of those above the start, if and
      only if all of them were heard and none after a higher one. */
  lemma PassedAllExactly(start: int, n: nat, heard: seq<int>)
    requires start >= 0 && Distinct(heard) && forall k | k in heard :: 1 <= k <= n
    ensures Passed(start, heard) == Stored(start, n) <==>
            (forall k | start < k <= n :: k in heard) && NewInOrder(start, heard)
  {
    StoredMembers(start, n);
    PassedIncreasing(start, heard);
    PassedExactly(start, heard);
    if (forall k | start < k <= n :: k in heard) && NewInOrder(start, heard) {
      IncreasingSame(Passed(start, heard), Stored(start, n));
    }
  }

  /** In every interleaving: a connection with no line left in its queue has written
      exactly the stored lines after its resume point, if and only if its channel took
      every line stored above what it starts from, and none after a higher one. */
  lemma StreamExactly(events: seq<Event>, after: int)
    requires CanHappen(START, events, after) && after >= 0
    requires var s := Later(START, events, after); s.conn.Tailing? && LinesOf(s.conn.queue) == []
    ensures var s := Later(START, events, after);
            s.conn.sent == Stored(after, s.n) <==>
            (forall k | Start(after, s.base) < k <= s.n :: k in s.heard) && NewInOrder(Start(after, s.base), s.heard)
  {
    HistoryRun(START, events, after);
    WrittenExactly(Later(START, events, after), after);
  }

  lemma WrittenExactly(s: Stream, after: int)
    requires Always(s, after) && HistoryOk(s, after) && after >= 0
    requires s.conn.Tailing? && LinesOf(s.conn.queue) == []
    ensures s.conn.sent == Stored(after, s.n) <==>
            (forall k | Start(after, s.base) < k <= s.n :: k in s.heard) && NewInOrder(Start(after, s.base), s.heard)
  {
    var start, backlog := Start(after, s.base), Stored(after, s.base);
    StoredMembers(after, s.base);
    StoredSplit(after, s.base, s.n);
    assert s.conn.sent == backlog + Passed(start, s.heard);
    assert Stored(after, s.n) == backlog + Stored(start, s.n) by {
      if after < s.base { StoredNonEmpty(after, s.base); }
    }
    SamePrefix(backlog, Passed(start, s.heard), Stored(start, s.n));
    PassedAllExactly(start, s.n, s.heard);
  }

  lemma StoredNonEmpty(after: int, n: nat)
    requires 0 <= after < n
    ensures Stored(after, n) != []
  {
  }

  lemma SamePrefix(a: seq<int>, b: seq<int>, c: seq<int>)
    ensures a + b == a + c <==> b == c
  {
    if a + b == a + c {
      assert b == (a + b)[|a|..] && c == (a + c)[|a|..];
    }
  }

  // ---- the machine and the handler --------------------------------------------------

  function Receives(n: nat): seq<Event> {
    if n == 0 then [] else [Receive] + Receives(n - 1)
  }

  lemma PassLine(c: Connection)
    requires c.Tailing? && c.queue != []
    ensures var c' := Pass(c);
            && c'.Tailing? && c'.queue == c.queue[1..]
            && c'.sent + Passed(c'.max, LinesOf(c'.queue)) == c.sent + Passed(c.max, LinesOf(c.queue))
  {
    PassedFirst(c.max, c.queue, c.sent);
  }

  /** Receiving everything that waits passes it on as the handler's tail loop does. */
  lemma {:induction false} ReceivesPass(s: Stream, after: int)
    requires s.conn.Tailing?
    ensures var n := |s.conn.queue|;
            && CanHappen(s, Receives(n), after)
            && Later(s, Receives(n), after).conn.Tailing?
            && Later(s, Receives(n), after).conn.sent == s.conn.sent + Passed(s.conn.max, LinesOf(s.conn.queue))
    decreases |s.conn.queue|
  {
    var q := s.conn.queue;
    if q != [] {
      var s' := Happens(s, Receive, after);
      PassLine(s.conn);
      ReceivesPass(s', after);
      assert Receives(|q|)[1..] == Receives(|q| - 1);
    }
  }

  /** A connection that replays the backlog and then receives what has queued up
      writes exactly what handleRunEvents writes for them. */
  lemma ConnectionIsHandler(s: Stream, after: int)
    requires s.conn.Subscribed?
    ensures var backlog := Stored(after, s.n);
            var events := [ReadBacklog] + Receives(|s.conn.queue|);
            && CanHappen(s, events, after) && Later(s, events, after).conn.Tailing?
            && Later(s, events, after).conn.sent ==
               backlog + Passed(if backlog == [] then after else backlog[|backlog| - 1], LinesOf(s.conn.queue))
  {
    StoredMembers(after, s.n);
    ReceivesPass(Happens(s, ReadBacklog, after), after);
    var rest := Receives(|s.conn.queue|);
    assert ([ReadBacklog] + rest)[1..] == rest;
  }
}
