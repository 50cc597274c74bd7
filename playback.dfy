/** The playback state of the SequentialAnimations page and what each of
    its four events does to it.

    The page keeps two state cells, isPlaying and currentStep. Two kinds of
    host timer act on them: the restart timeout queued by every click on
    "Play Animation Sequence", which nothing ever cancels, and the one-shot
    timer of the step effect, which the effect's cleanup cancels whenever a
    dependency of the effect changes. Time itself is not modelled: a timer
    firing is an event. */
module Playback {

  /** The step at which a run is complete; the step effect schedules
      nothing from here on. */
  const FinalStep: int := 4

  /** Delay in milliseconds between a click and the restart it queues
      (documentation only: the model has no clock). */
  const SettleDelayMs: int := 300

  /** Delay in milliseconds between two steps (documentation only). */
  const TickDelayMs: int := 1000

  datatype Option<T> = None | Some(value: T)

  /** isPlaying and currentStep are the component's state cells.
      pendingSettles counts the restart timeouts that clicks have queued and
      that have not fired yet. tickTimer is the step effect's live timer, if
      any, holding the value of currentStep the effect captured when it
      scheduled that timer. */
  datatype State = State(
    isPlaying: bool,
    currentStep: int,
    pendingSettles: nat,
    tickTimer: Option<int>)

  /** What one run of the step effect schedules for the given dependencies:
      a timer that captured `step` while playing below the final step,
      nothing otherwise. */
  function Scheduled(playing: bool, step: int): (t: Option<int>)
    ensures t.Some? <==> playing && step < FinalStep
    ensures t.Some? ==> t.value == step && t.value + 1 <= FinalStep
  {
    if playing && step < FinalStep then Some(step) else None
  }

  /** The invariant of the page: the step stays within the five steps, and
      the live timer (if any) is the one the effect scheduled for the
      current state, so at most one timer is live and it belongs to the
      current state. */
  predicate Valid(s: State)
  {
    && 0 <= s.currentStep <= FinalStep
    && s.tickTimer == Scheduled(s.isPlaying, s.currentStep)
  }

  /** The state at page load: not playing, step 0, no timer queued. */
  function Initial(): (s: State)
    ensures Valid(s)
    ensures !s.isPlaying && s.currentStep == 0
    ensures s.pendingSettles == 0 && s.tickTimer == None
  {
    State(false, 0, 0, None)
  }

  /** One render's worth of state updates: the new values of isPlaying and
      currentStep are stored, and the step effect is re-evaluated. React
      re-runs the effect only when one of its two dependencies changed; then
      the cleanup of the previous run cancels the old timer and the new run
      schedules afresh. When neither changed, the old timer stays live. */
  function Commit(s: State, playing: bool, step: int): (r: State)
    ensures r.isPlaying == playing && r.currentStep == step
    ensures r.pendingSettles == s.pendingSettles
    ensures s.tickTimer == Scheduled(s.isPlaying, s.currentStep) ==> r.tickTimer == Scheduled(playing, step)
    ensures playing != s.isPlaying || step != s.currentStep ==> r.tickTimer == Scheduled(playing, step)
  {
    if playing == s.isPlaying && step == s.currentStep then s
    else s.(isPlaying := playing, currentStep := step, tickTimer := Scheduled(playing, step))
  }

  /** The Reset button's handler: stop playing and keep the step. */
  function Stop(s: State): (r: State)
    ensures !r.isPlaying && r.currentStep == s.currentStep
    ensures r.pendingSettles == s.pendingSettles
    ensures Valid(s) ==> Valid(r) && r.tickTimer == None
  {
    Commit(s, false, s.currentStep)
  }

  /** The Play button's handler: stop playing at once, keep the step, and
      queue one more restart timeout. */
  function Play(s: State): (r: State)
    ensures !r.isPlaying && r.currentStep == s.currentStep
    ensures r.pendingSettles == s.pendingSettles + 1
    ensures Valid(s) ==> Valid(r) && r.tickTimer == None
  {
    var stopped := Stop(s);
    stopped.(pendingSettles := stopped.pendingSettles + 1)
  }

  /** One queued restart timeout fires: the step goes back to 0 and playing
      starts, whatever the state was. Its two updates are batched into one
      render. */
  function Settle(s: State): (r: State)
    requires s.pendingSettles > 0
    ensures r.isPlaying && r.currentStep == 0
    ensures r.pendingSettles == s.pendingSettles - 1
    ensures Valid(s) ==> Valid(r) && r.tickTimer == Some(0)
  {
    Commit(s.(pendingSettles := s.pendingSettles - 1), true, 0)
  }

  /** The step effect's timer fires: it writes the step it captured plus
      one, not the current step plus one. Only while the timer belongs to
      the current state (Valid) is that the next step. */
  function Tick(s: State): (r: State)
    requires s.tickTimer.Some?
    ensures r.isPlaying == s.isPlaying && r.pendingSettles == s.pendingSettles
    ensures r.currentStep == s.tickTimer.value + 1
    ensures Valid(s) ==> Valid(r) && r.currentStep == s.currentStep + 1
  {
    var captured := s.tickTimer.value;
    Commit(s.(tickTimer := None), s.isPlaying, captured + 1)
  }

  /** A step timer is live exactly while playing below the final step. */
  lemma TimerLiveIff(s: State)
    requires Valid(s)
    ensures s.tickTimer.Some? <==> s.isPlaying && s.currentStep < FinalStep
    ensures s.tickTimer.Some? ==> s.tickTimer.value == s.currentStep
  {
  }

  /** The restart does not depend on the state it interrupts: two states
      that differ in everything but their queue of restarts settle to the
      same state. */
  lemma SettleForgetsPast(s: State, t: State)
    requires Valid(s) && Valid(t)
    requires s.pendingSettles == t.pendingSettles > 0
    ensures Settle(s) == Settle(t)
    ensures Settle(s) == State(true, 0, s.pendingSettles - 1, Some(0))
  {
  }

  /** Firing a second queued restart right after a first one changes
      nothing but the queue: repeated clicks are idempotent in effect. */
  lemma SettleIdempotent(s: State)
    requires Valid(s) && s.pendingSettles >= 2
    ensures Settle(Settle(s)) == Settle(s).(pendingSettles := s.pendingSettles - 2)
  {
  }

  /** Clicking Play twice leaves the visible state as one click does, with
      one more restart queued. */
  lemma PlayIdempotent(s: State)
    requires Valid(s)
    ensures Play(Play(s)) == Play(s).(pendingSettles := s.pendingSettles + 2)
  {
  }
}
