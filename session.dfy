/** Sequences of events on the page and what holds along them. */
module Session {
  import opened Playback
  import opened View

  /** The four things that can happen: a click on Play, a queued restart
      timeout firing, the step timer firing, a click on Reset. */
  datatype Event = PlayClick | SettleFires | TickFires | ResetClick

  /** An event can happen when its timer is queued or its control is on
      screen; the Play button is always on screen. */
  function Enabled(s: State, e: Event): (enabled: bool)
    ensures e == PlayClick ==> enabled
    ensures Valid(s) && e == TickFires ==> (enabled <==> s.isPlaying && s.currentStep < FinalStep)
    ensures Valid(s) && e == ResetClick ==> (enabled <==> s.isPlaying && s.currentStep == FinalStep)
  {
    match e
    case PlayClick => true
    case SettleFires => s.pendingSettles > 0
    case TickFires => s.tickTimer.Some?
    case ResetClick => ResetVisible(s)
  }

  function Next(s: State, e: Event): State
    requires Enabled(s, e)
  {
    match e
    case PlayClick => Play(s)
    case SettleFires => Settle(s)
    case TickFires => Tick(s)
    case ResetClick => Stop(s)
  }

  /** Every event of `es` is enabled when its turn comes. */
  predicate Executable(s: State, es: seq<Event>)
    decreases |es|
  {
    |es| == 0 || (Enabled(s, es[0]) && Executable(Next(s, es[0]), es[1..]))
  }

  function Run(s: State, es: seq<Event>): State
    requires Executable(s, es)
    decreases |es|
  {
    if |es| == 0 then s else Run(Next(s, es[0]), es[1..])
  }

  /** `n` step timer firings in a row. */
  function Ticks(n: nat): (es: seq<Event>)
    ensures |es| == n && forall i :: 0 <= i < n ==> es[i] == TickFires
  {
    if n == 0 then [] else [TickFires] + Ticks(n - 1)
  }

  /** What one event does to the step: a restart sets it to 0, a tick adds
      one, the two clicks leave it alone. */
  lemma NextStep(s: State, e: Event)
    requires Valid(s) && Enabled(s, e)
    ensures Valid(Next(s, e))
    ensures Next(s, e).currentStep == match e
      case SettleFires => 0
      case TickFires => s.currentStep + 1
      case _ => s.currentStep
  {
  }

  /** Running a concatenation runs one part after the other. */
  lemma {:induction false} RunAppend(s: State, a: seq<Event>, b: seq<Event>)
    ensures Executable(s, a + b) <==> Executable(s, a) && Executable(Run(s, a), b)
    ensures Executable(s, a + b) ==> Run(s, a + b) == Run(Run(s, a), b)
    decreases |a|
  {
    if |a| > 0 {
      assert (a + b)[0] == a[0];
      assert (a + b)[1..] == a[1..] + b;
      if Enabled(s, a[0]) {
        RunAppend(Next(s, a[0]), a[1..], b);
      }
    } else {
      assert a + b == b;
    }
  }

  /** Every event keeps the invariant, so every sequence does. */
  lemma {:induction false} RunPreservesValid(s: State, es: seq<Event>)
    requires Valid(s) && Executable(s, es)
    ensures Valid(Run(s, es))
    decreases |es|
  {
    if |es| > 0 {
      NextStep(s, es[0]);
      RunPreservesValid(Next(s, es[0]), es[1..]);
    }
  }

  /** From page load, whatever happens, the step stays within 0..4 and at
      most one step timer is live, the one of the current state. */
  lemma ReachableBounded(es: seq<Event>)
    requires Executable(Initial(), es)
    ensures 0 <= Run(Initial(), es).currentStep <= FinalStep
    ensures Run(Initial(), es).tickTimer == Scheduled(Run(Initial(), es).isPlaying, Run(Initial(), es).currentStep)
  {
    RunPreservesValid(Initial(), es);
  }

  /** The step never goes down unless a restart fires. */
  lemma {:induction false} StepDropsOnlyOnSettle(s: State, es: seq<Event>)
    requires Valid(s) && Executable(s, es)
    requires forall i :: 0 <= i < |es| ==> es[i] != SettleFires
    ensures Run(s, es).currentStep >= s.currentStep
    decreases |es|
  {
    if |es| > 0 {
      NextStep(s, es[0]);
      StepDropsOnlyOnSettle(Next(s, es[0]), es[1..]);
    }
  }

  /** Once stopped, the page stays stopped at the same step, with no step
      timer, until a restart fires: clicks only queue restarts. */
  lemma {:induction false} StoppedStaysPut(s: State, es: seq<Event>)
    requires Valid(s) && !s.isPlaying && Executable(s, es)
    requires forall i :: 0 <= i < |es| ==> es[i] != SettleFires
    ensures !Run(s, es).isPlaying && Run(s, es).currentStep == s.currentStep
    ensures Run(s, es).tickTimer == None
    decreases |es|
  {
    if |es| > 0 {
      assert es[0] == PlayClick;
      StoppedStaysPut(Next(s, es[0]), es[1..]);
    }
  }

  /** While playing, `n` ticks are possible as long as they do not pass the
      final step; each adds exactly one and mounts stages without hiding
      any. */
  lemma {:induction false} TicksAdvance(s: State, n: nat)
    requires Valid(s) && s.isPlaying && s.currentStep + n <= FinalStep
    ensures Executable(s, Ticks(n))
    ensures Run(s, Ticks(n)) == s.(currentStep := s.currentStep + n, tickTimer := Scheduled(true, s.currentStep + n))
    ensures VisibleStages(s) <= VisibleStages(Run(s, Ticks(n)))
    decreases n
  {
    if n > 0 {
      var es := Ticks(n);
      assert es[0] == TickFires && es[1..] == Ticks(n - 1);
      TickRevealsNextStage(s);
      TicksAdvance(Tick(s), n - 1);
    }
  }

  /** Click Play on the freshly loaded page and let the timers run: the
      restart shows step 0, then each tick shows the next step, and after
      four ticks the run is complete: no timer is left, the Reset control
      shows and every stage is mounted. */
  lemma PlayFromIdle(n: nat)
    requires n <= FinalStep
    ensures Executable(Initial(), [PlayClick, SettleFires] + Ticks(n))
    ensures Run(Initial(), [PlayClick, SettleFires] + Ticks(n)) == State(true, n, 0, Scheduled(true, n))
    ensures n == FinalStep ==> var done := Run(Initial(), [PlayClick, SettleFires] + Ticks(n));
      !Enabled(done, TickFires) && ResetVisible(done) && VisibleStages(done) == AllStages
  {
    var started := Run(Initial(), [PlayClick, SettleFires]);
    assert started == State(true, 0, 0, Some(0));
    TicksAdvance(started, n);
    RunAppend(Initial(), [PlayClick, SettleFires], Ticks(n));
  }

  /** Clicking Play during a run stops it at once, keeping the step; the
      restart then begins a fresh run at step 0, not at the old step. */
  lemma RestartMidRun(s: State)
    requires Valid(s) && s.isPlaying
    ensures Executable(s, [PlayClick, SettleFires])
    ensures var stopped := Run(s, [PlayClick]);
      !stopped.isPlaying && stopped.currentStep == s.currentStep && VisibleStages(stopped) == {}
    ensures Run(s, [PlayClick, SettleFires]) == State(true, 0, s.pendingSettles, Some(0))
  {
    VisibleStagesPrefix(Play(s));
  }

  /** Reset cancels no queued restart: one queued before the click still
      fires after it and starts a fresh run. */
  lemma ResetKeepsQueuedRestart(s: State)
    requires Valid(s) && ResetVisible(s) && s.pendingSettles > 0
    ensures Executable(s, [ResetClick, SettleFires])
    ensures !Run(s, [ResetClick]).isPlaying
    ensures Run(s, [ResetClick, SettleFires]) == State(true, 0, s.pendingSettles - 1, Some(0))
  {
    var stopped := Stop(s);
    assert Run(s, [ResetClick]) == stopped;
    assert Executable(stopped, [SettleFires]);
  }

  /** The untimed model reaches a state the real delays never do: two quick
      clicks, the first restart and four ticks show the Reset control while
      the second restart is still queued. */
  lemma StaleRestartReachable()
    ensures Executable(Initial(), [PlayClick, PlayClick, SettleFires] + Ticks(FinalStep))
    ensures var s := Run(Initial(), [PlayClick, PlayClick, SettleFires] + Ticks(FinalStep));
      ResetVisible(s) && s.pendingSettles == 1
  {
    var started := Run(Initial(), [PlayClick, PlayClick, SettleFires]);
    assert started == State(true, 0, 1, Some(0));
    TicksAdvance(started, FinalStep);
    RunAppend(Initial(), [PlayClick, PlayClick, SettleFires], Ticks(FinalStep));
  }

  /** A single event either keeps every mounted stage, hides all of them, or
      (a restart) leaves just the title mounted: stages never disappear
      one by one except through a restart. */
  lemma EventVisibility(s: State, e: Event)
    requires Valid(s) && Enabled(s, e)
    ensures e == SettleFires ==> VisibleStages(Next(s, e)) == {Title}
    ensures e == TickFires ==> VisibleStages(s) <= VisibleStages(Next(s, e))
    ensures e == PlayClick || e == ResetClick ==> VisibleStages(Next(s, e)) == {}
  {
    match e
    case SettleFires =>
      assert StageVisible(Settle(s), Title);
      VisibleStagesPrefix(Settle(s));
    case TickFires =>
      TickRevealsNextStage(s);
    case PlayClick =>
      VisibleStagesPrefix(Play(s));
    case ResetClick =>
      VisibleStagesPrefix(Stop(s));
  }
}
