/**
  The timer store: one cell holding the current `TimerState`, which each
  operation replaces by the reducer's successor state.
 */
module Store {
  import Timer
  import Cycle

  class TimerStore {
    var state: Timer.TimerState

    /** The store keeps the invariant that every reachable state satisfies. */
    ghost predicate Valid()
      reads this
    {
      Cycle.Invariant(state)
    }

    /** The store starts from the initial state. */
    constructor ()
      ensures state == Timer.Initial() && Valid()
    {
      state := Timer.Initial();
      Cycle.InitialInvariant();
    }

    method StartTimer()
      requires Valid()
      modifies this
      ensures state == Timer.StartTimer(old(state)) && Valid()
    {
      Cycle.ApplyInvariant(state, Cycle.Start);
      state := Timer.StartTimer(state);
    }

    method PauseTimer()
      requires Valid()
      modifies this
      ensures state == Timer.PauseTimer(old(state)) && Valid()
    {
      Cycle.ApplyInvariant(state, Cycle.Pause);
      state := Timer.PauseTimer(state);
    }

    method ResetTimer()
      requires Valid()
      modifies this
      ensures state == Timer.ResetTimer(old(state)) && Valid()
    {
      Cycle.ApplyInvariant(state, Cycle.Reset);
      state := Timer.ResetTimer(state);
    }

    method UpdateRemaining(seconds: nat)
      requires Valid()
      modifies this
      ensures state == Timer.UpdateRemaining(old(state), seconds) && Valid()
    {
      Cycle.ApplyInvariant(state, Cycle.Tick(seconds));
      state := Timer.UpdateRemaining(state, seconds);
    }

    /** `now` is the completion time the caller read from its clock. */
    method CompleteSession(now: Timer.Timestamp)
      requires Valid()
      modifies this
      ensures state == Timer.CompleteSession(old(state), now) && Valid()
    {
      Cycle.ApplyInvariant(state, Cycle.Complete(now));
      state := Timer.CompleteSession(state, now);
    }

    method UpdateSettings(patch: Timer.SettingsPatch)
      requires Valid()
      modifies this
      ensures state == Timer.UpdateSettings(old(state), patch) && Valid()
    {
      Cycle.ApplyInvariant(state, Cycle.ChangeSettings(patch));
      state := Timer.UpdateSettings(state, patch);
    }
  }
}
