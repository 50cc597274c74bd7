# Animation Sequence: the playback state machine

The page `SequentialAnimations` (app/page.tsx) plays four animated stages
one after the other, then shows a completion control. Behind the
animations is a small state machine with two state cells. `isPlaying` says
whether a run is under way. `currentStep` runs from 0 to 4. Two kinds of
timer drive it:

- a click on "Play Animation Sequence" stops playback at once and queues a
  300 ms restart timeout. When that timeout fires it sets the step to 0 and
  starts playing. Nothing ever cancels it, so several can be queued.
- a step effect that runs whenever either state cell changes. While playing
  below step 4 it schedules a one-shot 1000 ms timer that writes the step it
  captured, plus one. The effect's cleanup cancels that timer as soon as the
  state changes.

The Reset button, shown only at the end of a run, stops playback and keeps
the step. Everything on screen is a boolean function of the two cells: the
four stages of the card, the Reset control and the five progress dots.

The project has four modules:

- `Playback` (playback.dfy) holds the state and what each event does to it,
  as functions. The state is the two cells plus the host's timers. The
  timers are a count of queued restarts and the effect's live timer with
  the step it captured. `Valid` is the invariant: the step lies in 0..4,
  and the live timer is exactly the one the effect schedules for the
  current state. That second half is why writing "captured step + 1"
  always advances by exactly one.
- `View` (view.dfy) holds the render predicates and their lemmas.
- `Session` (session.dfy) holds sequences of events and the properties
  that hold along any of them, proved by induction.
- `Component` (component.dfy) holds the component as a class whose fields
  are updated in place. Each handler is proved equal to its `Playback`
  function and to keep `Valid`.

Time is not modelled. A timer firing is an event, and events may come in
any order in which they are enabled.

## Model

| member | source | states |
|---|---|---|
| Playback.Scheduled | app/page.tsx:23-28 | the step effect schedules a timer if and only if playing below step 4; that timer captures the current step, and its step plus one is still at most 4 |
| Playback.Initial | app/page.tsx:9-10 | at page load the page is not playing, the step is 0, no timer is queued, and the invariant holds |
| Playback.Commit | app/page.tsx:22-32 | after a state update, if the timer belonged to the old state then the live timer is the one scheduled for the new state; if a dependency changed, that holds unconditionally (the cleanup cancels the old timer) |
| Playback.Stop | app/page.tsx:138 | Reset stops playback, keeps the step and the queued restarts, keeps the invariant and leaves no step timer |
| Playback.Play | app/page.tsx:13-19 | a Play click stops playback at once, keeps the step, queues exactly one more restart and leaves no step timer |
| Playback.Settle | app/page.tsx:15-18 | a firing restart starts playing at step 0 from any state, uses up one queued restart, and leaves a timer live for step 0 |
| Playback.Tick | app/page.tsx:26-28 | the step timer writes its captured step plus one; under the invariant that is the current step plus one, with nothing else changed, and the invariant is kept |
| Playback.TimerLiveIff | app/page.tsx:23-28 | a step timer is live if and only if playing below step 4, and it captured the current step |
| Playback.SettleForgetsPast | app/page.tsx:15-18 | the state after a restart does not depend on the state it interrupted, only on the queue of restarts |
| Playback.SettleIdempotent | app/page.tsx:15-18 | a second restart right after a first changes nothing but the queue |
| Playback.PlayIdempotent | app/page.tsx:13-19 | two Play clicks equal one, except that two restarts are queued |
| View.Threshold | app/page.tsx:68-110 | each of the four stages has a threshold step below 4: title 0, list 1, circle 2, text 3 (the guards at lines 68, 82, 96 and 110) |
| View.StageVisible | app/page.tsx:68-110 | a stage is mounted if and only if playing and the step has reached its threshold; nothing is mounted when stopped, the title is mounted as soon as playing starts, and every stage is mounted from step 3 on |
| View.ResetVisible | app/page.tsx:132 | the Reset control is shown if and only if playing at step 4 or more; it shows only when every stage is mounted, and under the invariant exactly when playing with no step timer live |
| View.Dots | app/page.tsx:146-157 | the progress indicator has five dots while playing and none when stopped; dot k is filled if and only if k is at most the step, and a pulsing dot is always filled |
| View.VisibleStagesPrefix | app/page.tsx:68-110 | stopped: no stage is mounted; playing: exactly the first min(step+1, 4) stages are mounted, and the mounted stages form a prefix of the stage order |
| View.TickRevealsNextStage | app/page.tsx:68-110 | a tick hides no mounted stage and mounts exactly the stage whose threshold is the new step |
| View.ResetVisibleIffComplete | app/page.tsx:132 | the Reset control shows if and only if playing at step 4, which is exactly when playing with no step timer live |
| View.OneDotPulses | app/page.tsx:146-157 | while playing there are five dots, exactly one pulses (the current step's), and dot k is filled if and only if k is at most the step |
| View.DotsMirrorStages | app/page.tsx:146-151 | while playing, a stage's dot is filled if and only if the stage is mounted; stopped, there are no dots, no stages and no Reset control |
| Session.Enabled | app/page.tsx:128-138 | a Play click is always possible, since the button is always rendered (line 128); a step timer fires only while playing below step 4; a Reset click is possible only while the control is rendered (line 132), which under the invariant is exactly playing at step 4 |
| Session.NextStep | app/page.tsx:13-32 | every enabled event keeps the invariant; a restart sets the step to 0, a tick adds one, the two clicks keep it |
| Session.RunAppend | app/page.tsx:13-32 | running two event sequences back to back is the same as running their concatenation |
| Session.RunPreservesValid | app/page.tsx:22-32 | any enabled event sequence from a valid state ends in a valid state |
| Session.ReachableBounded | app/page.tsx:9-32 | from page load, after any event sequence, the step is in 0..4 and at most one step timer is live, the one of the current state |
| Session.StepDropsOnlyOnSettle | app/page.tsx:16-27 | along any sequence without a restart the step never decreases |
| Session.StoppedStaysPut | app/page.tsx:23 | once stopped, until a restart fires, the page stays stopped at the same step with no step timer |
| Session.TicksAdvance | app/page.tsx:25-28 | while playing, n ticks are possible as long as step+n is at most 4; they add exactly n and hide no stage |
| Session.PlayFromIdle | app/page.tsx:13-32 | from page load, a click and its restart show step 0, each of n ticks then shows step n, and after four ticks no timer is left, the Reset control shows and every stage is mounted |
| Session.RestartMidRun | app/page.tsx:13-19 | clicking Play during a run stops it at once at the same step with nothing mounted, and the restart resumes at step 0, not at the old step |
| Session.ResetKeepsQueuedRestart | app/page.tsx:15-18 | a Reset click does not cancel a queued restart: after Reset the restart still fires and starts a fresh run at step 0 (the starting state, Reset shown with a restart queued, is reachable only without the real delays) |
| Session.StaleRestartReachable | app/page.tsx:13-19 | the untimed model reaches a state where the Reset control shows while a restart is still queued: two clicks, the first restart and four ticks. With the real delays this state never occurs |
| Session.EventVisibility | app/page.tsx:68-110 | a tick keeps every mounted stage, a click hides all of them, a restart leaves only the title mounted |
| Component.SequentialAnimations.constructor | app/page.tsx:9-10 | a new page is valid, not playing, at step 0 |
| Component.SequentialAnimations.Render | app/page.tsx:22-32 | the in-place state update with effect re-evaluation equals `Playback.Commit` and leaves the object valid, given a step in 0..4 and a live timer that belongs to the current state unless a dependency changes |
| Component.SequentialAnimations.Stop | app/page.tsx:138 | the Reset handler equals `Playback.Stop`, keeps the invariant, stops and keeps the step |
| Component.SequentialAnimations.Play | app/page.tsx:13-19 | the Play handler equals `Playback.Play`, keeps the invariant, stops, keeps the step and queues one restart |
| Component.SequentialAnimations.FireSettle | app/page.tsx:15-18 | the restart callback equals `Playback.Settle`, keeps the invariant, plays from step 0 |
| Component.SequentialAnimations.Tick | app/page.tsx:26-28 | the step timer callback equals `Playback.Tick`, keeps the invariant and adds exactly one to the step |

## Notes on the code

- The Reset control, and so the Reset click, exists only while playing at
  step 4 (app/page.tsx:132). A Reset click at an earlier step cannot
  happen. `Session.Enabled` allows it only then. The handler itself,
  `Playback.Stop`, is defined for every state.
- Only four card stages are gated by the step, with thresholds 0 to 3
  (app/page.tsx:68-110). Step 4 gates the Reset control instead
  (app/page.tsx:132).
- A Play click always stops playback and queues a restart, whether or not
  a run is under way (app/page.tsx:13-19). Earlier restarts stay queued.

## Left out

- The animation library: variants, springs, durations, stagger, enter and
  exit transitions, and the infinite pulse repeat. These are floating-point
  parameters of a foreign library. Only whether each dot pulses is
  modelled.
- Layout, styling, colours, the static texts, and the Button and Card
  components. These are presentation only.
- Real time. The 300 ms and 1000 ms delays are constants kept for
  documentation, and timers firing are events that may come in any enabled
  order. The model therefore admits interleavings that the real delays rule
  out, such as a step timer firing while a restart is still queued. Every
  property above is proved for this larger set of behaviours. One
  consequence is that `Session.EventVisibility` has to allow a restart to
  reset a run that is under way. With the real delays, that happens only
  when the run is already at step 0. Likewise, the state that
  `Session.ResetKeepsQueuedRestart` starts from exists only in the untimed
  model. That state is the Reset control showing while a restart is still
  queued, and `Session.StaleRestartReachable` shows it is reachable there.
  With the real delays, every queued restart fires before the first tick,
  so Reset never shows while one is queued.
- React's scheduling. The two updates of the restart callback are treated
  as one batched render, as React 18 does inside timeouts. Without
  batching there would be one extra intermediate render with the same end
  state.
