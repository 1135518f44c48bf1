/** The browser's line list across reconnects. */
module ClientStream {
  import opened EventStream
  import opened Sequences
  import opened StreamRuns

  // ---- the client's rule -------------------------------------------------------------

  /** A numbered line not above the last one seen is skipped; a line numbered 0 is
      not a numbered line. */
  function ClientLines(seen: int, events: seq<int>): seq<int>
    decreases |events|
  {
    if events == [] then []
    else if events[0] != 0 && events[0] <= seen then ClientLines(seen, events[1..])
    else [events[0]] + ClientLines(if events[0] != 0 then events[0] else seen, events[1..])
  }

  /** The last number seen after these lines. */
  function Seen(seen: int, events: seq<int>): int
    decreases |events|
  {
    if events == [] then seen
    else if events[0] != 0 && events[0] <= seen then Seen(seen, events[1..])
    else Seen(if events[0] != 0 then events[0] else seen, events[1..])
  }

  lemma {:induction false} ClientConcat(seen: int, a: seq<int>, b: seq<int>)
    ensures ClientLines(seen, a + b) == ClientLines(seen, a) + ClientLines(Seen(seen, a), b)
    ensures Seen(seen, a + b) == Seen(Seen(seen, a), b)
    decreases |a|
  {
    if a == [] {
      assert a + b == b;
    } else {
      assert (a + b)[1..] == a[1..] + b;
      ClientConcat(if a[0] != 0 && a[0] > seen then a[0] else seen, a[1..], b);
    }
  }

  /** On numbered lines the client keeps what a connection would pass on. */
  lemma {:induction false} ClientPasses(seen: int, events: seq<int>)
    requires 0 !in events
    ensures ClientLines(seen, events) == Passed(seen, events)
    decreases |events|
  {
    if events != [] {
      assert events[0] in events && forall k | k in events[1..] :: k in events;
      ClientPasses(if events[0] > seen then events[0] else seen, events[1..]);
    }
  }

  /** The browser's list is strictly increasing whatever arrives. */
  lemma ClientIncreasing(events: seq<int>)
    requires 0 !in events
    ensures Increasing(ClientLines(0, events))
  {
    ClientPasses(0, events);
    PassedIncreasing(0, events);
  }

  class RunStream {
    var seenSeq: int
    var lines: seq<int>
    ghost var received: seq<int>

    /** The list is what the rule keeps of all that was received. */
    ghost predicate Valid()
      reads this
    {
      && lines == ClientLines(0, received) && seenSeq == Seen(0, received)
      && seenSeq >= 0 && (seenSeq > 0 ==> seenSeq in lines) && (forall k | k in lines :: k <= seenSeq)
      && (0 !in received ==> Increasing(lines))
    }

    constructor ()
      ensures Valid() && received == []
    {
      seenSeq, lines, received := 0, [], [];
    }

    /** A line is appended exactly if it has no number, or a higher one than all lines
        in the list; so the numbered ones are increasing, none twice. */
    method OnLog(line: int)
      requires Valid()
      modifies this
      ensures Valid() && received == old(received) + [line]
      ensures lines == if line == 0 || (line > 0 && forall k | k in old(lines) :: k < line) then old(lines) + [line] else old(lines)
    {
      ClientConcat(0, received, [line]);
      assert [line][1..] == [];
      received := received + [line];
      if 0 !in received { ClientIncreasing(received); }
      if line != 0 && line <= seenSeq {
        return;
      }
      if line != 0 {
        seenSeq := line;
      }
      lines := lines + [line];
    }
  }

  // ---- a session of several connections ----------------------------------------------

  /** The run's stream, the line the browser resumes after, and the numbers it has
      received over its earlier connections. */
  datatype Session = Session(stream: Stream, after: int, received: seq<int>)

  /** A connection breaks after the browser received the first `delivered` of the
      lines written to it. */
  datatype Event = Server(event: StreamRuns.Event) | Disconnect(delivered: nat)

  const NEW := Session(START, 0, [])

  function SentBy(c: Connection): seq<int> {
    if c.Tailing? then c.sent else []
  }

  predicate CanStep(s: Session, e: Event) {
    match e
    case Server(x) => Possible(s.stream, x)
    case Disconnect(k) => s.stream.conn != NotConnected && k <= |SentBy(s.stream.conn)|
  }

  function Step(s: Session, e: Event): Session
    requires CanStep(s, e)
  {
    match e
    case Server(x) => s.(stream := Happens(s.stream, x, s.after))
    case Disconnect(k) =>
      var got := SentBy(s.stream.conn)[..k];
      Session(s.stream.(conn := NotConnected), if k == 0 then s.after else got[k - 1], s.received + got)
  }

  predicate CanGo(s: Session, events: seq<Event>)
    decreases |events|
  {
    events != [] ==> CanStep(s, events[0]) && CanGo(Step(s, events[0]), events[1..])
  }

  function Go(s: Session, events: seq<Event>): Session
    requires CanGo(s, events)
    decreases |events|
  {
    if events == [] then s else Go(Step(s, events[0]), events[1..])
  }

  /** What was received so far is increasing, up to the resume point; and while
      lines are published in order and none is dropped, it is all of them. */
  ghost predicate ReceivedOk(s: Session) {
    && 0 <= s.after <= s.stream.n && Increasing(s.received)
    && (forall k | k in s.received :: 1 <= k <= s.after)
    && (s.stream.inOrder && s.stream.lossless ==> s.received == Stored(0, s.after))
  }

  ghost predicate SessionOk(s: Session) {
    Always(s.stream, s.after) && InOrder(s.stream, s.after) && HistoryOk(s.stream, s.after) && ReceivedOk(s)
  }

  lemma {:induction false} StoredAt(after: nat, n: nat)
    requires after <= n
    ensures |Stored(after, n)| == n - after
    ensures forall i | 0 <= i < n - after :: Stored(after, n)[i] == after + 1 + i
  {
    if after < n { StoredAt(after, n - 1); }
  }

  lemma StoredPrefix(after: nat, n: nat, k: nat)
    requires k <= |Stored(after, n)|
    ensures Stored(after, n)[..k] == Stored(after, after + k)
    ensures Stored(0, after) + Stored(after, n)[..k] == Stored(0, after + k)
  {
    if after < n { StoredAt(after, n); }
    StoredAt(after, after + k);
    StoredSplit(0, after, after + k);
  }

  lemma IncreasingConcat(a: seq<int>, b: seq<int>, m: int)
    requires Increasing(a) && Increasing(b)
    requires (forall k | k in a :: k <= m) && (forall k | k in b :: k > m)
    ensures Increasing(a + b)
  {
    forall i, j | 0 <= i < j < |a + b| ensures (a + b)[i] < (a + b)[j] {
      if i < |a| { assert a[i] in a; }
      if j >= |a| { assert b[j - |a|] in b; }
    }
  }

  lemma PrefixOf(s: seq<int>, k: nat)
    requires Increasing(s) && k <= |s|
    ensures Increasing(s[..k]) && forall x | x in s[..k] :: x in s && x <= s[k - 1]
  {
    forall x | x in s[..k] ensures x in s && x <= s[k - 1] { var i :| 0 <= i < k && s[i] == x; }
  }

  lemma DisconnectReceived(s: Session, k: nat)
    requires Always(s.stream, s.after) && ReceivedOk(s) && CanStep(s, Disconnect(k))
    ensures ReceivedOk(Step(s, Disconnect(k)).(stream := s.stream.(inOrder := false)))
  {
    var sent := SentBy(s.stream.conn);
    if k > 0 {
      assert sent[k - 1] in sent;
      PrefixOf(sent, k);
    }
    IncreasingConcat(s.received, sent[..k], s.after);
  }

  lemma DisconnectComplete(s: Session, k: nat)
    requires SessionOk(s) && CanStep(s, Disconnect(k)) && s.stream.inOrder && s.stream.lossless
    ensures var s' := Step(s, Disconnect(k)); s'.after >= 0 && s'.received == Stored(0, s'.after)
  {
    if s.stream.conn.Tailing? {
      StoredPrefix(s.after, s.stream.conn.covered, k);
      StoredAt(s.after, s.after + k);
    }
  }

  lemma DisconnectKeeps(s: Session, k: nat)
    requires SessionOk(s) && CanStep(s, Disconnect(k))
    ensures SessionOk(Step(s, Disconnect(k)))
  {
    DisconnectReceived(s, k);
    if s.stream.inOrder && s.stream.lossless { DisconnectComplete(s, k); }
  }

  lemma ServerKeeps(s: Session, e: StreamRuns.Event)
    requires SessionOk(s) && Possible(s.stream, e)
    ensures SessionOk(Step(s, Server(e)))
  {
    AlwaysStep(s.stream, e, s.after);
    InOrderStep(s.stream, e, s.after);
    HistoryStep(s.stream, e, s.after);
  }

  lemma {:induction false} SessionRun(s: Session, events: seq<Event>)
    requires SessionOk(s) && CanGo(s, events)
    ensures SessionOk(Go(s, events))
    decreases |events|
  {
    if events != [] {
      match events[0] {
        case Server(e) => ServerKeeps(s, e);
        case Disconnect(k) => DisconnectKeeps(s, k);
      }
      SessionRun(Step(s, events[0]), events[1..]);
    }
  }

  /** What the browser has received once it has the first k lines of its current
      connection. */
  function Received(s: Session, k: nat): seq<int>
    requires k <= |SentBy(s.stream.conn)|
  {
    s.received + SentBy(s.stream.conn)[..k]
  }

  lemma ReceivedIsOk(s: Session, k: nat) returns (upTo: nat)
    requires SessionOk(s) && k <= |SentBy(s.stream.conn)|
    ensures Increasing(Received(s, k)) && forall n | n in Received(s, k) :: n >= 1
    ensures s.stream.inOrder && s.stream.lossless ==> Received(s, k) == Stored(0, upTo)
  {
    if s.stream.conn != NotConnected {
      DisconnectKeeps(s, k);
      upTo := Step(s, Disconnect(k)).after;
    } else {
      assert Received(s, k) == s.received;
      upTo := s.after;
    }
  }

  /** Lines have been published in order and none was dropped. */
  predicate Lossless(s: Session) {
    s.stream.inOrder && s.stream.lossless
  }

  /** Nothing is on its way to the browser any more. */
  predicate CaughtUp(s: Session, k: nat) {
    && s.stream.conn.Tailing? && k == |s.stream.conn.sent|
    && s.stream.unpublished == {} && LinesOf(s.stream.conn.queue) == []
  }

  /** Over any number of connections that break at any point, under every
      interleaving: the browser's list is all it received, strictly increasing; and
      with in-order publication and no full buffer it is exactly the first stored
      lines, without gaps or duplicates, in the end all of them. */
  lemma ReconnectsLoseNothing(events: seq<Event>, k: nat) returns (upTo: nat)
    requires CanGo(NEW, events) && k <= |SentBy(Go(NEW, events).stream.conn)|
    ensures var s := Go(NEW, events);
            var list := ClientLines(0, Received(s, k));
            && Increasing(list) && list == Received(s, k)
            && (Lossless(s) ==> list == Stored(0, upTo))
            && (Lossless(s) && CaughtUp(s, k) ==> upTo == s.stream.n)
  {
    SessionRun(NEW, events);
    var s := Go(NEW, events);
    upTo := ReceivedIsOk(s, k);
    ListIsReceived(s, k);
    if Lossless(s) && CaughtUp(s, k) {
      ReceivedAll(s);
      upTo := s.stream.n;
    }
  }

  lemma ListIsReceived(s: Session, k: nat)
    requires SessionOk(s) && k <= |SentBy(s.stream.conn)|
    ensures ClientLines(0, Received(s, k)) == Received(s, k)
  {
    var _ := ReceivedIsOk(s, k);
    ClientPasses(0, Received(s, k));
    PassedAll(0, Received(s, k));
  }

  lemma ReceivedAll(s: Session)
    requires SessionOk(s) && Lossless(s) && CaughtUp(s, |SentBy(s.stream.conn)|)
    ensures Received(s, |SentBy(s.stream.conn)|) == Stored(0, s.stream.n)
  {
    assert s.stream.n in s.stream.unpublished <==> s.stream.published < s.stream.n;
    StoredSplit(0, s.after, s.stream.n);
    assert s.stream.conn.sent[..|s.stream.conn.sent|] == s.stream.conn.sent;
  }

  /** After any reconnects, the current connection has written exactly the stored
      lines after its resume point, once nothing waits in its queue, if and only if
      its channel took every line stored above what it starts from, and none after a
      higher one. */
  lemma ConnectionExactly(events: seq<Event>)
    requires CanGo(NEW, events)
    requires var c := Go(NEW, events).stream.conn; c.Tailing? && LinesOf(c.queue) == []
    ensures var s := Go(NEW, events);
            var start := Start(s.after, s.stream.base);
            s.stream.conn.sent == Stored(s.after, s.stream.n) <==>
            (forall k | start < k <= s.stream.n :: k in s.stream.heard) && NewInOrder(start, s.stream.heard)
  {
    SessionRun(NEW, events);
    WrittenExactly(Go(NEW, events).stream, Go(NEW, events).after);
  }

  lemma {:induction false} PassedAll(max: int, lines: seq<int>)
    requires Increasing(lines) && forall k | k in lines :: k > max
    ensures Passed(max, lines) == lines
    decreases |lines|
  {
    if lines != [] {
      var rest := lines[1..];
      assert lines == [lines[0]] + rest && lines[0] in lines;
      assert forall i | 0 <= i < |rest| :: rest[i] == lines[i+1];
      forall k | k in rest ensures k > lines[0] { var i :| 0 <= i < |rest| && rest[i] == k; }
      PassedAll(lines[0], lines[1..]);
    }
  }
}
