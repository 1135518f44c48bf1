/** A run's live stream: bounded, dropping delivery to a subscriber, and what a
    connection writes that replays the stored log and then tails its channel. Log
    lines are their sequence numbers; the stored log of a run is 1..n. */
module EventStream {
  import opened Sequences

  const SSE_BUFFER := 256

  /** Anything sent to a subscriber; only log lines carry a number. */
  datatype Message = LogLine(number: int) | Other

  /** send: a full buffer drops the message. */
  function Deliver(queue: seq<Message>, msg: Message): seq<Message> {
    if |queue| < SSE_BUFFER then queue + [msg] else queue
  }

  /** The stored lines after `after`, up to n. */
  function Stored(after: int, n: nat): seq<int> {
    if after >= n then [] else if n == 0 then [] else Stored(after, n - 1) + [n]
  }

  lemma {:induction false} StoredMembers(after: int, n: nat)
    ensures forall k: int :: k in Stored(after, n) <==> after < k <= n && 1 <= k
    ensures Increasing(Stored(after, n))
    ensures Stored(after, n) != [] ==> Stored(after, n)[|Stored(after, n)|-1] == n
  {
    if after < n && n > 0 { StoredMembers(after, n - 1); }
  }

  lemma {:induction false} StoredSplit(after: int, m: nat, n: nat)
    requires m <= n
    ensures Stored(after, n) == Stored(after, m) + Stored(if after < m then m else after, n)
    decreases n
  {
    if m < n {
      StoredSplit(after, m, n - 1);
    } else if after < m {
      assert Stored(m, n) == [];
    }
  }

  // ---- what a connection writes ----------------------------------------------------

  /** The log lines of some messages. */
  function LinesOf(msgs: seq<Message>): seq<int> {
    if msgs == [] then []
    else (if msgs[0].LogLine? then [msgs[0].number] else []) + LinesOf(msgs[1..])
  }

  /** The lines passed on when `max` is the highest number written so far: each
      one above all before it. */
  function Passed(max: int, lines: seq<int>): seq<int>
    decreases |lines|
  {
    if lines == [] then []
    else if lines[0] > max then [lines[0]] + Passed(lines[0], lines[1..])
    else Passed(max, lines[1..])
  }

  /** The first message and the lines of the others. */
  lemma FirstLine(q: seq<Message>)
    requires q != []
    ensures if q[0].LogLine?
            then LinesOf(q) != [] && LinesOf(q)[0] == q[0].number && LinesOf(q)[1..] == LinesOf(q[1..]) && q[0].number in LinesOf(q)
            else LinesOf(q) == LinesOf(q[1..])
    ensures forall k | k in LinesOf(q[1..]) :: k in LinesOf(q)
  {
  }

  /** What the first message adds to what is passed on. */
  lemma PassedFirst(max: int, q: seq<Message>, sent: seq<int>)
    requires q != []
    ensures sent + Passed(max, LinesOf(q)) ==
            if q[0].LogLine? && q[0].number > max
            then sent + [q[0].number] + Passed(q[0].number, LinesOf(q[1..]))
            else sent + Passed(max, LinesOf(q[1..]))
  {
    FirstLine(q);
    if q[0].LogLine? && q[0].number > max {
      Assoc(sent, [q[0].number], Passed(q[0].number, LinesOf(q[1..])));
    }
  }

  /** handleRunEvents after it has subscribed: the stored lines found by the
      backlog read, then the channel. Returns the numbers written. */
  method HandleRunEvents(after: int, backlog: seq<int>, channel: seq<Message>) returns (sent: seq<int>, max: int)
    requires Increasing(backlog) && forall i | 0 <= i < |backlog| :: backlog[i] > after
    ensures sent == backlog + Passed(if backlog == [] then after else backlog[|backlog|-1], LinesOf(channel))
    ensures max == if sent == [] then after else sent[|sent|-1]
  {
    sent, max := [], after;
    for i := 0 to |backlog|
      invariant sent == backlog[..i]
      invariant max == if i == 0 then after else backlog[i-1]
    {
      sent := sent + [backlog[i]];
      if backlog[i] > max {
        max := backlog[i];
      }
    }
    assert sent == backlog;
    ghost var all := backlog + Passed(max, LinesOf(channel));
    var i := 0;
    while i < |channel|
      invariant 0 <= i <= |channel|
      invariant sent + Passed(max, LinesOf(channel[i..])) == all
      invariant max == if sent == [] then after else sent[|sent|-1]
    {
      var msg := channel[i];
      PassedFirst(max, channel[i..], sent);
      assert channel[i..][1..] == channel[i + 1..];
      i := i + 1;
      if msg.LogLine? {
        if msg.number <= max {
          continue;
        }
        max := msg.number;
        sent := sent + [max];
      }
    }
    assert channel[i..] == [];
  }

  /** Whatever arrives on the channel, what is passed on is strictly increasing,
      above everything written before, and from the channel. */
  lemma {:induction false} PassedIncreasing(max: int, lines: seq<int>)
    ensures Increasing(Passed(max, lines))
    ensures forall k | k in Passed(max, lines) :: k > max && k in lines
    decreases |lines|
  {
    if lines != [] {
      var rest := lines[1..];
      if lines[0] > max {
        PassedIncreasing(lines[0], rest);
        var p := Passed(lines[0], rest);
        forall i, j | 0 <= i < j < |[lines[0]] + p| ensures ([lines[0]] + p)[i] < ([lines[0]] + p)[j] {
          assert p[j-1] in p;
        }
      } else {
        PassedIncreasing(max, rest);
      }
    }
  }

  /** No new line arrives after a higher one. */
  ghost predicate NewInOrder(max: int, lines: seq<int>) {
    forall i, j | 0 <= i < j < |lines| && lines[j] > max :: lines[i] <= lines[j]
  }

  lemma {:induction false} InOrderKept(max: int, lines: seq<int>, k: int)
    requires NewInOrder(max, lines) && k in lines && k > max
    ensures k in Passed(max, lines)
    decreases |lines|
  {
    var rest := lines[1..];
    assert forall i | 0 <= i < |rest| :: rest[i] == lines[i+1];
    if k != lines[0] {
      var j :| 0 <= j < |rest| && rest[j] == k;
      assert lines[0] <= lines[j+1];
      InOrderKept(if lines[0] > max then lines[0] else max, rest, k);
    }
  }

  lemma {:induction false} OvertakenLost(max: int, lines: seq<int>, i: nat, j: nat)
    requires i < j < |lines| && max < lines[j] < lines[i]
    requires Distinct(lines)
    ensures lines[j] !in Passed(max, lines)
    decreases |lines|
  {
    var rest := lines[1..];
    assert lines[j] == rest[j-1];
    var max' := if lines[0] > max then lines[0] else max;
    PassedIncreasing(max', rest);
    if i > 0 && lines[j] > max' {
      assert Distinct(rest) by {
        forall a, b | 0 <= a < b < |rest| ensures rest[a] != rest[b] { assert lines[a+1] != lines[b+1]; }
      }
      OvertakenLost(max', rest, i - 1, j - 1);
    }
  }

  /** Every new line is passed on if and only if the new lines arrive in order:
      one that comes after a higher one is lost. */
  lemma PassedExactly(max: int, lines: seq<int>)
    requires Distinct(lines)
    ensures (forall k | k in lines && k > max :: k in Passed(max, lines)) <==> NewInOrder(max, lines)
  {
    if NewInOrder(max, lines) {
      forall k | k in lines && k > max ensures k in Passed(max, lines) { InOrderKept(max, lines, k); }
    } else {
      var i, j :| 0 <= i < j < |lines| && lines[j] > max && lines[i] > lines[j];
      OvertakenLost(max, lines, i, j);
    }
  }
}
