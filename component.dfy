/** The SequentialAnimations component as an object whose handlers update
    its state in place. Each handler is proved to do what the matching
    function of Playback says, so every property proved about those
    functions holds of the object. */
module Component {
  import opened Playback

  class SequentialAnimations {
    var isPlaying: bool
    var currentStep: int
    /** Restart timeouts queued by clicks and not yet fired. */
    var pendingSettles: nat
    /** The step effect's live timer and the step it captured. */
    var tickTimer: Option<int>

    function Snapshot(): State
      reads this
    {
      State(isPlaying, currentStep, pendingSettles, tickTimer)
    }

    ghost predicate Valid()
      reads this
    {
      Playback.Valid(Snapshot())
    }

    constructor ()
      ensures Valid() && Snapshot() == Initial()
      ensures !isPlaying && currentStep == 0
    {
      isPlaying, currentStep := false, 0;
      pendingSettles, tickTimer := 0, None;
    }

    /** Stores new values of the two state cells in one render, then
        re-evaluates the step effect if either changed: the cleanup cancels
        the live timer, and the new run schedules one while playing below
        the final step. The live timer must belong to the current state
        unless the update changes a dependency (a firing timer has just
        consumed itself, and then writes a new step). */
    method Render(playing: bool, step: int)
      requires 0 <= step <= FinalStep
      requires tickTimer == Scheduled(isPlaying, currentStep) || playing != isPlaying || step != currentStep
      modifies this
      ensures Valid() && Snapshot() == Playback.Commit(old(Snapshot()), playing, step)
    {
      var depsChanged := playing != isPlaying || step != currentStep;
      isPlaying, currentStep := playing, step;
      if depsChanged {
        tickTimer := None;
        if isPlaying && currentStep < FinalStep {
          tickTimer := Some(currentStep);
        }
      }
    }

    /** The Reset button's handler. */
    method Stop()
      requires Valid()
      modifies this
      ensures Valid() && Snapshot() == Playback.Stop(old(Snapshot()))
      ensures !isPlaying && currentStep == old(currentStep) && pendingSettles == old(pendingSettles)
      ensures tickTimer == None
    {
      Render(false, currentStep);
    }

    /** The Play button's handler: stop at once and queue a restart. */
    method Play()
      requires Valid()
      modifies this
      ensures Valid() && Snapshot() == Playback.Play(old(Snapshot()))
      ensures !isPlaying && currentStep == old(currentStep) && pendingSettles == old(pendingSettles) + 1
      ensures tickTimer == None
    {
      Render(false, currentStep);
      pendingSettles := pendingSettles + 1;
    }

    /** A queued restart timeout fires. */
    method FireSettle()
      requires Valid() && pendingSettles > 0
      modifies this
      ensures Valid() && Snapshot() == Playback.Settle(old(Snapshot()))
      ensures isPlaying && currentStep == 0 && pendingSettles == old(pendingSettles) - 1
      ensures tickTimer == Some(0)
    {
      pendingSettles := pendingSettles - 1;
      Render(true, 0);
    }

    /** The step effect's timer fires and writes the step it captured plus
        one. */
    method Tick()
      requires Valid() && tickTimer.Some?
      modifies this
      ensures Valid() && Snapshot() == Playback.Tick(old(Snapshot()))
      ensures isPlaying == old(isPlaying) && currentStep == old(currentStep) + 1
      ensures pendingSettles == old(pendingSettles)
    {
      var captured := tickTimer.value;
      tickTimer := None;
      Render(isPlaying, captured + 1);
    }
  }
}
