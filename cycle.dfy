/**
  Sequences of store operations: the invariants every reachable state keeps,
  the append-only history, and the pomodoro/break schedule.
 */
module Cycle {
  import opened Timer

  /** One call on the timer store. */
  datatype Op =
    | Start
    | Pause
    | Reset
    | Tick(seconds: nat)
    | Complete(now: Timestamp)
    | ChangeSettings(patch: SettingsPatch)

  function Apply(st: TimerState, op: Op): TimerState {
    match op
    case Start => StartTimer(st)
    case Pause => PauseTimer(st)
    case Reset => ResetTimer(st)
    case Tick(seconds) => UpdateRemaining(st, seconds)
    case Complete(now) => CompleteSession(st, now)
    case ChangeSettings(patch) => UpdateSettings(st, patch)
  }

  /** The state after the calls `ops`, issued one at a time, from `st`. */
  function Run(st: TimerState, ops: seq<Op>): TimerState
    decreases |ops|
  {
    if ops == [] then st else Run(Apply(st, ops[0]), ops[1..])
  }

  /** The number of completions among `ops`. */
  function Completions(ops: seq<Op>): nat {
    if ops == [] then 0 else (if ops[0].Complete? then 1 else 0) + Completions(ops[1..])
  }

  // ---------------------------------------------------------------------------
  // History is append-only

  /** Each call appends at most one entry to the history and changes no earlier one. */
  lemma ApplyAppendOnly(st: TimerState, op: Op)
    ensures st.completedSessions <= Apply(st, op).completedSessions
    ensures |Apply(st, op).completedSessions|
         == |st.completedSessions| + (if op.Complete? then 1 else 0)
  {
  }

  /**
    Over any sequence of calls the history only grows, by one entry per
    completion, and the entries already there are never changed.
   */
  lemma {:induction false} RunAppendOnly(st: TimerState, ops: seq<Op>)
    ensures st.completedSessions <= Run(st, ops).completedSessions
    ensures |Run(st, ops).completedSessions| == |st.completedSessions| + Completions(ops)
    decreases |ops|
  {
    if ops != [] {
      ApplyAppendOnly(st, ops[0]);
      RunAppendOnly(Apply(st, ops[0]), ops[1..]);
    }
  }

  // ---------------------------------------------------------------------------
  // The state invariant

  /** An entry of the history: archived as idle, with its completion time. */
  predicate Archived(s: Session) {
    s.status == Idle && s.completedAt.Some?
  }

  /**
    What every reachable state satisfies: the current session is not archived,
    its length is the one the settings give its type, and every history entry
    is archived.
   */
  predicate Invariant(st: TimerState) {
    && st.currentSession.completedAt == None
    && st.currentSession.duration == DurationFor(st.currentSession.kind, st.settings)
    && forall i :: 0 <= i < |st.completedSessions| ==> Archived(st.completedSessions[i])
  }

  lemma InitialInvariant()
    ensures Invariant(Initial())
  {
  }

  lemma ApplyInvariant(st: TimerState, op: Op)
    requires Invariant(st)
    ensures Invariant(Apply(st, op))
  {
  }

  lemma {:induction false} RunInvariant(st: TimerState, ops: seq<Op>)
    requires Invariant(st)
    ensures Invariant(Run(st, ops))
    decreases |ops|
  {
    if ops != [] {
      ApplyInvariant(st, ops[0]);
      RunInvariant(Apply(st, ops[0]), ops[1..]);
    }
  }

  /** Every state the store can reach from startup satisfies the invariant. */
  lemma ReachableInvariant(ops: seq<Op>)
    ensures Invariant(Run(Initial(), ops))
  {
    InitialInvariant();
    RunInvariant(Initial(), ops);
  }

  /**
    The reducer keeps `remaining <= duration` except through a tick above the
    session's length: it does no bounds checking of its own.
   */
  lemma ApplyKeepsProgressBound(st: TimerState, op: Op)
    requires st.currentSession.remaining <= st.currentSession.duration
    ensures var r := Apply(st, op);
      r.currentSession.remaining <= r.currentSession.duration
      <==> !(op.Tick? && op.seconds > st.currentSession.duration)
  {
  }

  // ---------------------------------------------------------------------------
  // The pomodoro / break schedule

  /**
    The type of the session at position `i` (from 0) of an uninterrupted cycle
    with long-break interval `k`: pomodoros at even positions; at odd position
    `i` the break after pomodoro number (i + 1) / 2, long when that number is a
    multiple of `k`.
   */
  function ScheduledType(i: nat, k: nat): SessionType {
    if i % 2 == 0 then Pomodoro
    else if k > 0 && ((i + 1) / 2) % k == 0 then LongBreak
    else ShortBreak
  }

  /** The break after the `n`-th pomodoro is long exactly when `n` is a multiple of `k`. */
  lemma BreakAfterPomodoro(n: nat, k: nat)
    requires n >= 1
    ensures ScheduledType(2 * n - 2, k) == Pomodoro
    ensures ScheduledType(2 * n - 1, k) == (if k > 0 && n % k == 0 then LongBreak else ShortBreak)
  {
  }

  /** The history and the current session follow the schedule of the state's own interval. */
  predicate OnSchedule(st: TimerState) {
    var k := st.settings.longBreakInterval;
    && (forall i :: 0 <= i < |st.completedSessions| ==>
          st.completedSessions[i].kind == ScheduledType(i, k))
    && st.currentSession.kind == ScheduledType(|st.completedSessions|, k)
  }

  /** A call that does not change the long-break interval `k`. */
  predicate KeepsInterval(op: Op, k: nat) {
    op.ChangeSettings? ==> op.patch.longBreakInterval.GetOr(k) == k
  }

  /** A history on schedule holds one pomodoro per even position. */
  lemma {:induction false} CountOnSchedule(h: seq<Session>, k: nat)
    requires forall i :: 0 <= i < |h| ==> h[i].kind == ScheduledType(i, k)
    ensures CountPomodoros(h) == (|h| + 1) / 2
    decreases |h|
  {
    if h != [] {
      var front := h[..|h| - 1];
      forall i | 0 <= i < |front| ensures front[i].kind == ScheduledType(i, k) {
        assert front[i] == h[i];
      }
      CountOnSchedule(front, k);
    }
  }

  lemma InitialOnSchedule()
    ensures OnSchedule(Initial())
  {
  }

  lemma ApplyOnSchedule(st: TimerState, op: Op)
    requires OnSchedule(st)
    requires KeepsInterval(op, st.settings.longBreakInterval)
    ensures OnSchedule(Apply(st, op))
    ensures Apply(st, op).settings.longBreakInterval == st.settings.longBreakInterval
  {
    if op.Complete? {
      var k := st.settings.longBreakInterval;
      var h := st.completedSessions;
      var r := Apply(st, op);
      CountOnSchedule(h, k);
      forall i | 0 <= i < |r.completedSessions|
        ensures r.completedSessions[i].kind == ScheduledType(i, k)
      {
        if i < |h| {
          assert r.completedSessions[i] == r.completedSessions[..|h|][i];
        }
      }
      if |h| % 2 == 0 {
        assert (|h| + 1) / 2 + 1 == (|h| + 2) / 2;
      }
    }
  }

  /**
    However the completions are interleaved with other calls, as long as the
    long-break interval stays `k`, every archived session and the current one
    have the type the schedule gives their position.
   */
  lemma {:induction false} RunOnSchedule(st: TimerState, ops: seq<Op>)
    requires OnSchedule(st)
    requires forall i :: 0 <= i < |ops| ==> KeepsInterval(ops[i], st.settings.longBreakInterval)
    ensures OnSchedule(Run(st, ops))
    ensures Run(st, ops).settings.longBreakInterval == st.settings.longBreakInterval
    decreases |ops|
  {
    if ops != [] {
      ApplyOnSchedule(st, ops[0]);
      var rest := ops[1..];
      forall i | 0 <= i < |rest|
        ensures KeepsInterval(rest[i], Apply(st, ops[0]).settings.longBreakInterval)
      {
        assert rest[i] == ops[i + 1];
      }
      RunOnSchedule(Apply(st, ops[0]), rest);
    }
  }

  /**
    From startup with the default interval of 4: the first ten sessions are
    pomodoro, short, pomodoro, short, pomodoro, short, pomodoro, LONG,
    pomodoro, short. So the 4th pomodoro is followed by a long break and the
    1st to 3rd and the 5th by short ones.
   */
  lemma DefaultRhythm(ops: seq<Op>)
    requires forall i :: 0 <= i < |ops| ==> KeepsInterval(ops[i], 4)
    requires |Run(Initial(), ops).completedSessions| >= 10
    ensures var h := Run(Initial(), ops).completedSessions;
      [h[0].kind, h[1].kind, h[2].kind, h[3].kind, h[4].kind,
       h[5].kind, h[6].kind, h[7].kind, h[8].kind, h[9].kind]
      == [Pomodoro, ShortBreak, Pomodoro, ShortBreak, Pomodoro,
          ShortBreak, Pomodoro, LongBreak, Pomodoro, ShortBreak]
  {
    InitialOnSchedule();
    RunOnSchedule(Initial(), ops);
    var h := Run(Initial(), ops).completedSessions;
    // The break after pomodoro n sits at position 2n - 1.
    BreakAfterPomodoro(1, 4);
    BreakAfterPomodoro(2, 4);
    BreakAfterPomodoro(3, 4);
    BreakAfterPomodoro(4, 4);
    BreakAfterPomodoro(5, 4);
    assert h[1].kind == ScheduledType(1, 4);
    assert h[3].kind == ScheduledType(3, 4);
    assert h[5].kind == ScheduledType(5, 4);
    assert h[7].kind == ScheduledType(7, 4);
    assert h[9].kind == ScheduledType(9, 4);
  }

  /**
    Four instant completions from startup archive pomodoro, short break,
    pomodoro, short break, and leave an idle, full-length pomodoro current.
   */
  lemma FourCompletions(t1: Timestamp, t2: Timestamp, t3: Timestamp, t4: Timestamp)
    ensures var r := Run(Initial(), [Complete(t1), Complete(t2), Complete(t3), Complete(t4)]);
      && |r.completedSessions| == 4
      && [r.completedSessions[0].kind, r.completedSessions[1].kind,
          r.completedSessions[2].kind, r.completedSessions[3].kind]
         == [Pomodoro, ShortBreak, Pomodoro, ShortBreak]
      && r.completedSessions[3].completedAt == Some(t4)
      && r.currentSession == Session(Pomodoro, 1500, 1500, Idle, None)
  {
    var ops := [Complete(t1), Complete(t2), Complete(t3), Complete(t4)];
    var s1 := CompleteSession(Initial(), t1);
    var s2 := CompleteSession(s1, t2);
    var s3 := CompleteSession(s2, t3);
    var s4 := CompleteSession(s3, t4);
    assert Run(s4, ops[4..]) == s4;
    assert Run(s3, ops[3..]) == Run(s4, ops[4..]);
    assert Run(s2, ops[2..]) == Run(s3, ops[3..]);
    assert Run(s1, ops[1..]) == Run(s2, ops[2..]);
    assert Run(Initial(), ops) == Run(s1, ops[1..]);
  }
}
