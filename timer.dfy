/**
  The session reducer of a Pomodoro timer: the record held by the timer store
  and the six operations that each replace it by a successor value.

  Every operation is a total function from the old state to the new one; no
  operation fails and none is guarded by the session's status.
 */
module Timer {

  datatype Option<T> = None | Some(value: T) {
    /** The wrapped value, or `default` when there is none. */
    function GetOr(default: T): T {
      match this
      case Some(v) => v
      case None => default
    }
  }

  /** Wall-clock time of a completion, as read by the caller (milliseconds since the epoch). */
  type Timestamp = nat

  datatype SessionType = Pomodoro | ShortBreak | LongBreak

  datatype SessionStatus = Idle | Running | Paused

  /** One timer interval; `completedAt` is set only on the copy archived into history. */
  datatype Session = Session(
    kind: SessionType,
    duration: nat,
    remaining: nat,
    status: SessionStatus,
    completedAt: Option<Timestamp>)

  /** Durations in seconds, and the number of pomodoros between long breaks. */
  datatype Settings = Settings(
    pomodoroDuration: nat,
    shortBreakDuration: nat,
    longBreakDuration: nat,
    longBreakInterval: nat)

  /** A partial settings record: `None` marks a field the caller leaves out. */
  datatype SettingsPatch = SettingsPatch(
    pomodoroDuration: Option<nat>,
    shortBreakDuration: Option<nat>,
    longBreakDuration: Option<nat>,
    longBreakInterval: Option<nat>)

  datatype TimerState = TimerState(
    currentSession: Session,
    completedSessions: seq<Session>,
    settings: Settings)

  const NoChanges := SettingsPatch(None, None, None, None)

  /** 25, 5 and 15 minutes, and a long break after every 4 pomodoros. */
  function DefaultSettings(): (s: Settings)
    ensures s.pomodoroDuration == 1500 && s.shortBreakDuration == 300
    ensures s.longBreakDuration == 900 && s.longBreakInterval == 4
  {
    Settings(25 * 60, 5 * 60, 15 * 60, 4)
  }

  /** The settings entry that holds the length of a session of type `t`. */
  function DurationFor(t: SessionType, s: Settings): (d: nat)
    ensures t == Pomodoro ==> d == s.pomodoroDuration
    ensures t == ShortBreak ==> d == s.shortBreakDuration
    ensures t == LongBreak ==> d == s.longBreakDuration
  {
    match t
    case Pomodoro => s.pomodoroDuration
    case ShortBreak => s.shortBreakDuration
    case LongBreak => s.longBreakDuration
  }

  /** The state at startup: an idle, full-length pomodoro, an empty history, the defaults. */
  function Initial(): (st: TimerState)
    ensures st.completedSessions == [] && st.settings == DefaultSettings()
    ensures st.currentSession.kind == Pomodoro && st.currentSession.status == Idle
    ensures st.currentSession.duration == st.currentSession.remaining == 1500
    ensures st.currentSession.completedAt == None
  {
    var d := DefaultSettings().pomodoroDuration;
    TimerState(Session(Pomodoro, d, d, Idle, None), [], DefaultSettings())
  }

  /** The types of the sessions of `history`, in order. */
  function Kinds(history: seq<Session>): (ks: seq<SessionType>)
    ensures |ks| == |history|
    ensures forall i :: 0 <= i < |history| ==> ks[i] == history[i].kind
  {
    seq(|history|, i requires 0 <= i < |history| => history[i].kind)
  }

  /** The number of pomodoros in `history`, as `filter` on the type followed by `length` gives it. */
  function CountPomodoros(history: seq<Session>): (n: nat)
    ensures n <= |history|
    ensures n == 0 <==> forall i :: 0 <= i < |history| ==> history[i].kind != Pomodoro
  {
    if history == [] then 0
    else
      var last := history[|history| - 1];
      CountPomodoros(history[..|history| - 1]) + (if last.kind == Pomodoro then 1 else 0)
  }

  /** CountPomodoros is the number of occurrences of `Pomodoro` among the history's types. */
  lemma {:induction false} CountPomodorosCountsKinds(history: seq<Session>)
    ensures CountPomodoros(history) == multiset(Kinds(history))[Pomodoro]
    decreases |history|
  {
    if history != [] {
      var front := history[..|history| - 1];
      assert Kinds(history) == Kinds(front) + [history[|history| - 1].kind];
      CountPomodorosCountsKinds(front);
    }
  }

  /**
    The type of the session that follows one of type `current`: a pomodoro after
    any break; after a pomodoro, a long break when the pomodoros completed so far,
    this one included, are a multiple of `interval`, and a short break otherwise.
    With `interval == 0` the remainder is never zero, so every break is short.
   */
  function NextType(current: SessionType, history: seq<Session>, interval: nat): (t: SessionType)
    ensures current != Pomodoro ==> t == Pomodoro
    ensures current == Pomodoro ==> t != Pomodoro
    ensures current == Pomodoro ==>
      (t == LongBreak <==> interval > 0 && (CountPomodoros(history) + 1) % interval == 0)
  {
    if current == Pomodoro then
      if interval > 0 && (CountPomodoros(history) + 1) % interval == 0 then LongBreak else ShortBreak
    else
      Pomodoro
  }

  function StartTimer(st: TimerState): (r: TimerState)
    ensures r.currentSession.status == Running
    ensures r.currentSession.kind == st.currentSession.kind
    ensures r.currentSession.duration == st.currentSession.duration
    ensures r.currentSession.remaining == st.currentSession.remaining
    ensures r.currentSession.completedAt == st.currentSession.completedAt
    ensures r.completedSessions == st.completedSessions && r.settings == st.settings
  {
    st.(currentSession := st.currentSession.(status := Running))
  }

  function PauseTimer(st: TimerState): (r: TimerState)
    ensures r.currentSession.status == Paused
    ensures r.currentSession.kind == st.currentSession.kind
    ensures r.currentSession.duration == st.currentSession.duration
    ensures r.currentSession.remaining == st.currentSession.remaining
    ensures r.currentSession.completedAt == st.currentSession.completedAt
    ensures r.completedSessions == st.completedSessions && r.settings == st.settings
  {
    st.(currentSession := st.currentSession.(status := Paused))
  }

  /** Discards the elapsed progress; nothing is archived. */
  function ResetTimer(st: TimerState): (r: TimerState)
    ensures r.currentSession.status == Idle
    ensures r.currentSession.remaining == r.currentSession.duration == st.currentSession.duration
    ensures r.currentSession.kind == st.currentSession.kind
    ensures r.currentSession.completedAt == st.currentSession.completedAt
    ensures r.completedSessions == st.completedSessions && r.settings == st.settings
  {
    st.(currentSession := st.currentSession.(remaining := st.currentSession.duration, status := Idle))
  }

  /** Stores `seconds` verbatim: no bound check, and completion is left to the caller. */
  function UpdateRemaining(st: TimerState, seconds: nat): (r: TimerState)
    ensures r.currentSession.remaining == seconds
    ensures r.currentSession.kind == st.currentSession.kind
    ensures r.currentSession.duration == st.currentSession.duration
    ensures r.currentSession.status == st.currentSession.status
    ensures r.currentSession.completedAt == st.currentSession.completedAt
    ensures r.completedSessions == st.completedSessions && r.settings == st.settings
  {
    st.(currentSession := st.currentSession.(remaining := seconds))
  }

  /**
    Archives the current session (idle, stamped with `now`) and starts an idle,
    full-length session of the next type.
   */
  function CompleteSession(st: TimerState, now: Timestamp): (r: TimerState)
    ensures |r.completedSessions| == |st.completedSessions| + 1
    ensures r.completedSessions[..|st.completedSessions|] == st.completedSessions
    ensures r.completedSessions[|st.completedSessions|]
         == st.currentSession.(status := Idle, completedAt := Some(now))
    ensures r.settings == st.settings
    ensures st.currentSession.kind != Pomodoro ==> r.currentSession.kind == Pomodoro
    ensures st.currentSession.kind == Pomodoro ==>
      (r.currentSession.kind == LongBreak <==>
         st.settings.longBreakInterval > 0
         && (CountPomodoros(st.completedSessions) + 1) % st.settings.longBreakInterval == 0)
    ensures st.currentSession.kind == Pomodoro ==> r.currentSession.kind != Pomodoro
    ensures r.currentSession.status == Idle && r.currentSession.completedAt == None
    ensures r.currentSession.duration == r.currentSession.remaining
         == DurationFor(r.currentSession.kind, st.settings)
  {
    var archived := st.currentSession.(status := Idle, completedAt := Some(now));
    var next := NextType(st.currentSession.kind, st.completedSessions, st.settings.longBreakInterval);
    var d := DurationFor(next, st.settings);
    st.(currentSession := Session(next, d, d, Idle, None),
        completedSessions := st.completedSessions + [archived])
  }

  /** The settings with every field that `p` supplies replaced; the others kept. */
  function MergeSettings(s: Settings, p: SettingsPatch): (r: Settings)
    ensures p.pomodoroDuration.Some? ==> r.pomodoroDuration == p.pomodoroDuration.value
    ensures p.pomodoroDuration.None? ==> r.pomodoroDuration == s.pomodoroDuration
    ensures p.shortBreakDuration.Some? ==> r.shortBreakDuration == p.shortBreakDuration.value
    ensures p.shortBreakDuration.None? ==> r.shortBreakDuration == s.shortBreakDuration
    ensures p.longBreakDuration.Some? ==> r.longBreakDuration == p.longBreakDuration.value
    ensures p.longBreakDuration.None? ==> r.longBreakDuration == s.longBreakDuration
    ensures p.longBreakInterval.Some? ==> r.longBreakInterval == p.longBreakInterval.value
    ensures p.longBreakInterval.None? ==> r.longBreakInterval == s.longBreakInterval
  {
    Settings(
      p.pomodoroDuration.GetOr(s.pomodoroDuration),
      p.shortBreakDuration.GetOr(s.shortBreakDuration),
      p.longBreakDuration.GetOr(s.longBreakDuration),
      p.longBreakInterval.GetOr(s.longBreakInterval))
  }

  /**
    Merges `p` into the settings and restarts the current session, idle and at
    the full length that the new settings give its (unchanged) type.
   */
  function UpdateSettings(st: TimerState, p: SettingsPatch): (r: TimerState)
    ensures r.settings == MergeSettings(st.settings, p)
    ensures r.currentSession.kind == st.currentSession.kind
    ensures r.currentSession.duration == r.currentSession.remaining
         == DurationFor(st.currentSession.kind, r.settings)
    ensures r.currentSession.status == Idle
    ensures r.currentSession.completedAt == st.currentSession.completedAt
    ensures r.completedSessions == st.completedSessions
  {
    var settings := MergeSettings(st.settings, p);
    var d := DurationFor(st.currentSession.kind, settings);
    st.(settings := settings,
        currentSession := st.currentSession.(duration := d, remaining := d, status := Idle))
  }

  /** The patch that supplies every field of `q`, and those fields of `p` that `q` leaves out. */
  function CombinePatches(p: SettingsPatch, q: SettingsPatch): SettingsPatch {
    SettingsPatch(
      if q.pomodoroDuration.Some? then q.pomodoroDuration else p.pomodoroDuration,
      if q.shortBreakDuration.Some? then q.shortBreakDuration else p.shortBreakDuration,
      if q.longBreakDuration.Some? then q.longBreakDuration else p.longBreakDuration,
      if q.longBreakInterval.Some? then q.longBreakInterval else p.longBreakInterval)
  }

  // ---------------------------------------------------------------------------
  // Algebraic properties of the operations

  lemma StartTimerIdempotent(st: TimerState)
    ensures StartTimer(StartTimer(st)) == StartTimer(st)
  {
  }

  lemma PauseTimerIdempotent(st: TimerState)
    ensures PauseTimer(PauseTimer(st)) == PauseTimer(st)
  {
  }

  /** Reset forgets every earlier status change and every tick. */
  lemma ResetForgetsProgress(st: TimerState, seconds: nat)
    ensures ResetTimer(UpdateRemaining(st, seconds)) == ResetTimer(st)
    ensures ResetTimer(StartTimer(st)) == ResetTimer(st)
    ensures ResetTimer(PauseTimer(st)) == ResetTimer(st)
    ensures ResetTimer(ResetTimer(st)) == ResetTimer(st)
  {
  }

  /** The last tick wins. */
  lemma UpdateRemainingLastWins(st: TimerState, a: nat, b: nat)
    ensures UpdateRemaining(UpdateRemaining(st, a), b) == UpdateRemaining(st, b)
  {
  }

  /** Merging nothing keeps the settings; merging twice is merging once. */
  lemma MergeSettingsNeutralAndIdempotent(s: Settings, p: SettingsPatch)
    ensures MergeSettings(s, NoChanges) == s
    ensures MergeSettings(MergeSettings(s, p), p) == MergeSettings(s, p)
  {
  }

  /** Two successive settings updates act as one update with the combined patch. */
  lemma UpdateSettingsCompose(st: TimerState, p: SettingsPatch, q: SettingsPatch)
    ensures UpdateSettings(UpdateSettings(st, p), q) == UpdateSettings(st, CombinePatches(p, q))
  {
  }

  /**
    A patch that leaves out the duration of the current session's type leaves
    the session's length as it was, provided that length was taken from the
    settings (which every reachable state satisfies, see Cycle.Invariant).
   */
  lemma UpdateSettingsKeepsOtherDurations(st: TimerState, p: SettingsPatch)
    requires st.currentSession.duration == DurationFor(st.currentSession.kind, st.settings)
    requires st.currentSession.kind == Pomodoro ==> p.pomodoroDuration.None?
    requires st.currentSession.kind == ShortBreak ==> p.shortBreakDuration.None?
    requires st.currentSession.kind == LongBreak ==> p.longBreakDuration.None?
    ensures UpdateSettings(st, p).currentSession.duration == st.currentSession.duration
  {
  }

  /** Changing the pomodoro length during a short break keeps the break's length. */
  lemma PomodoroChangeDuringShortBreak(st: TimerState, seconds: nat)
    requires st.currentSession.kind == ShortBreak
    requires st.currentSession.duration == st.settings.shortBreakDuration
    ensures var r := UpdateSettings(st, NoChanges.(pomodoroDuration := Some(seconds)));
      r.currentSession.duration == r.currentSession.remaining == st.currentSession.duration
      && r.currentSession.status == Idle
  {
  }

  /** Changing the pomodoro length during a pomodoro applies at once. */
  lemma PomodoroChangeDuringPomodoro(st: TimerState, seconds: nat)
    requires st.currentSession.kind == Pomodoro
    ensures var r := UpdateSettings(st, NoChanges.(pomodoroDuration := Some(seconds)));
      r.currentSession.duration == r.currentSession.remaining == seconds
      && r.currentSession.status == Idle
  {
  }
}
