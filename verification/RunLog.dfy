/** The append-only log of one run, written by its handle and, line by line, by
    other processes; the table refuses a second line with the same number. */
module RunLog {
  type Log = map<nat, string>

  /** COALESCE(MAX(seq), 0). */
  ghost predicate IsMaxSeq(log: Log, m: nat) {
    (m == 0 && log == map[]) || (m in log && forall k | k in log :: k <= m)
  }

  /** What the handle is in the middle of, under its own lock. */
  datatype Handle =
    | Idle
    | Collided(message: string)   // its insert was refused
    | CaughtUp(message: string)   // it has re-read the highest number

  /** `counter` is the handle's; `pending` holds, for each other process in the
      middle of an append, the highest number it read and its message. */
  datatype State = State(log: Log, counter: nat, handle: Handle, pending: map<nat, (nat, string)>)

  const INIT := State(map[], 0, Idle, map[])

  datatype Step =
    | Insert(message: string)       // the handle's first try
    | CatchUp
    | Retry
    | ForeignRead(who: nat, message: string)
    | ForeignInsert(who: nat)

  ghost predicate Next(s: State, step: Step, s': State) {
    match step
    case Insert(m) =>
      && s.handle == Idle
      && s' == if s.counter + 1 in s.log then s.(handle := Collided(m))
               else s.(log := s.log[s.counter + 1 := m], counter := s.counter + 1)
    case CatchUp =>
      && s.handle.Collided? && IsMaxSeq(s.log, s'.counter)
      && s' == s.(handle := CaughtUp(s.handle.message), counter := s'.counter)
    case Retry =>
      && s.handle.CaughtUp?
      && s' == if s.counter + 1 in s.log then s.(handle := Idle)
               else s.(log := s.log[s.counter + 1 := s.handle.message], counter := s.counter + 1, handle := Idle)
    case ForeignRead(who, m) =>
      && who !in s.pending
      && who in s'.pending && IsMaxSeq(s.log, s'.pending[who].0)
      && s' == s.(pending := s.pending[who := (s'.pending[who].0, m)])
    case ForeignInsert(who) =>
      && who in s.pending
      && var (max, m) := s.pending[who];
         var rest := s.pending - {who};
         s' == if max + 1 in s.log then s.(pending := rest) else s.(log := s.log[max + 1 := m], pending := rest)
  }

  /** trace[0], trace[1], … is a run of the log under some interleaving. */
  ghost predicate IsRun(trace: seq<State>, steps: seq<Step>) {
    |trace| == |steps| + 1 && forall i | 0 <= i < |steps| :: Next(trace[i], steps[i], trace[i+1])
  }

  /** The log is exactly 1..n, and nobody's number is ahead of it. */
  ghost predicate Dense(s: State, n: nat) {
    && (forall k :: k in s.log <==> 1 <= k <= n)
    && s.counter <= n
    && (forall who | who in s.pending :: s.pending[who].0 <= n)
  }

  /** Nothing written is lost or rewritten. */
  ghost predicate Extends(log': Log, log: Log) {
    forall k | k in log :: k in log' && log'[k] == log[k]
  }

  lemma MaxIsLength(s: State, m: nat, n: nat)
    requires Dense(s, n) && IsMaxSeq(s.log, m)
    ensures m == n
  {
    if n > 0 { assert n in s.log; }
  }

  lemma DenseStep(s: State, step: Step, s': State, n: nat) returns (n': nat)
    requires Dense(s, n) && Next(s, step, s')
    ensures n <= n' <= n + 1 && Dense(s', n') && Extends(s'.log, s.log)
    ensures n' == n ==> s'.log == s.log
  {
    n' := if n + 1 in s'.log then n + 1 else n;
    match step
    case CatchUp => MaxIsLength(s, s'.counter, n);
    case ForeignRead(who, _) => MaxIsLength(s, s'.pending[who].0, n);
    case ForeignInsert(who) => assert s'.log == s.log || s'.log == s.log[n + 1 := s.pending[who].1];
    case _ => assert s'.log == s.log || s'.log == s.log[n + 1 := s'.log[n + 1]];
  }

  /** In every interleaving the durable log is 1..n without gaps or duplicates,
      lines once written stay, and the handle's counter never exceeds n. */
  lemma {:induction false} LogDense(trace: seq<State>, steps: seq<Step>, i: nat, j: nat) returns (m: nat, n: nat)
    requires IsRun(trace, steps) && trace[0] == INIT && i <= j < |trace|
    ensures m <= n && Dense(trace[i], m) && Dense(trace[j], n) && Extends(trace[j].log, trace[i].log)
    ensures m == n ==> trace[j].log == trace[i].log
    decreases j
  {
    if j == 0 {
      m, n := 0, 0;
    } else if i == j {
      m, n := LogDense(trace, steps, i - 1, j - 1);
      n := DenseStep(trace[j-1], steps[j-1], trace[j], n);
      m := n;
    } else {
      m, n := LogDense(trace, steps, i, j - 1);
      n := DenseStep(trace[j-1], steps[j-1], trace[j], n);
    }
  }

  /** A retry lands, as the next line, exactly if no line was appended since the
      catch-up read; otherwise the handle's line is lost. */
  lemma RetryLandsExactly(trace: seq<State>, steps: seq<Step>, c: nat, r: nat)
    requires IsRun(trace, steps) && trace[0] == INIT
    requires c < r < |steps| && steps[c] == CatchUp && steps[r] == Retry
    requires forall i | c < i < r :: steps[i] != Retry && steps[i] != CatchUp
    ensures trace[c].handle.Collided?
    ensures var next := trace[c+1].counter + 1;
            && next !in trace[c].log && (forall k | k in trace[c].log :: k < next)
            && (if trace[r].log == trace[c].log
                then trace[r+1].log == trace[c].log[next := trace[c].handle.message]
                else trace[r+1].log == trace[r].log)
  {
    assert Next(trace[c], CatchUp, trace[c+1]) && Next(trace[r], Retry, trace[r+1]);
    var m, n := LogDense(trace, steps, c, r);
    MaxIsLength(trace[c], trace[c+1].counter, m);
    HandleWaits(trace, steps, c, r);
    assert trace[r].log != trace[c].log ==> m + 1 in trace[r].log;
  }

  /** Between catching up and retrying, the handle's own state does not change. */
  lemma {:induction false} HandleWaits(trace: seq<State>, steps: seq<Step>, c: nat, r: nat)
    requires IsRun(trace, steps) && c < r <= |steps| && steps[c] == CatchUp
    requires forall i | c < i < r :: steps[i] != Retry && steps[i] != CatchUp
    ensures trace[c].handle.Collided?
    ensures trace[r].handle == CaughtUp(trace[c].handle.message) && trace[r].counter == trace[c+1].counter
    decreases r
  {
    assert Next(trace[c], steps[c], trace[c+1]);
    assert Next(trace[r-1], steps[r-1], trace[r]);
    if r > c + 1 {
      HandleWaits(trace, steps, c, r - 1);
    }
  }

  // ---- the handle as an object ------------------------------------------------------

  class RunHandle {
    var log: Log
    var counter: nat
    var done: bool

    ghost predicate Valid()
      reads this
    {
      (forall k :: k in log <==> 1 <= k <= |log|) && counter <= |log|
    }

    constructor ()
      ensures Valid() && log == map[] && counter == 0 && !done
    {
      log, counter, done := map[], 0, false;
    }

    /** Stores the line as the next one; refused if that number is taken. The
        counter moves only on success. */
    method InsertLog(message: string) returns (ok: bool)
      requires Valid()
      modifies `log, `counter
      ensures Valid()
      ensures ok <==> old(counter) == |old(log)|
      ensures log == (if ok then old(log)[old(counter) + 1 := message] else old(log))
      ensures counter == if ok then old(counter) + 1 else old(counter)
    {
      ok := counter + 1 !in log;
      if ok {
        log := log[counter + 1 := message];
        counter := counter + 1;
      }
    }

    /** A line from another process, numbered by the table itself. */
    method AppendSystemLine(message: string)
      requires Valid()
      modifies `log
      ensures Valid() && log == old(log)[|old(log)| + 1 := message] && |log| == |old(log)| + 1
    {
      log := log[|log| + 1 := message];
      assert log.Keys == old(log.Keys) + {|old(log)| + 1};
    }

    /** Logs a line; `meanwhile` is what other processes append between the
        catch-up read and the retry, if it comes to that. */
    method Log(message: string, meanwhile: seq<string>) returns (landed: bool)
      requires Valid()
      modifies `log, `counter
      ensures Valid()
      ensures old(done) ==> !landed && log == old(log)
      ensures !old(done) ==> (landed <==> old(counter) == |old(log)| || meanwhile == [])
      ensures landed ==> counter == |log| == |old(log)| + 1 && log == old(log)[|old(log)| + 1 := message]
      ensures !old(done) && !landed ==> counter == |old(log)| && |log| == |old(log)| + |meanwhile|
      ensures !old(done) && !landed ==> forall k | 0 <= k < |meanwhile| :: |old(log)| + 1 + k in log && log[|old(log)| + 1 + k] == meanwhile[k]
      ensures forall k | k in old(log) :: k in log && log[k] == old(log)[k]
    {
      if done {
        return false;
      }
      landed := InsertLog(message);
      if landed {
        return true;
      }
      counter := |log|;
      for i := 0 to |meanwhile|
        invariant Valid() && counter == |old(log)| && |log| == |old(log)| + i
        invariant i == 0 ==> log == old(log)
        invariant forall k | 0 <= k < i :: |old(log)| + 1 + k in log && log[|old(log)| + 1 + k] == meanwhile[k]
        invariant forall k | k in old(log) :: k in log && log[k] == old(log)[k]
      {
        AppendSystemLine(meanwhile[i]);
      }
      landed := InsertLog(message);
    }
  }
}
