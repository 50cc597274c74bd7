/** What the page renders, as predicates over the playback state: the four
    stages of the card, the Reset control and the five progress dots. */
module View {
  import opened Playback

  /** The four stages the card mounts, in the order they appear. */
  datatype Stage = Title | Items | Circle | Reveal

  const AllStages: set<Stage> := {Title, Items, Circle, Reveal}

  /** The step from which a stage is mounted. */
  function Threshold(st: Stage): (n: nat)
    ensures n < FinalStep
  {
    match st
    case Title => 0
    case Items => 1
    case Circle => 2
    case Reveal => 3
  }

  /** A stage is mounted while playing once the step has reached it. */
  function StageVisible(s: State, st: Stage): (visible: bool)
    ensures visible ==> s.isPlaying
    ensures Valid(s) && s.isPlaying && st == Title ==> visible
    ensures s.isPlaying && s.currentStep >= FinalStep - 1 ==> visible
  {
    s.isPlaying && s.currentStep >= Threshold(st)
  }

  /** The set of mounted stages. */
  function VisibleStages(s: State): set<Stage>
  {
    set st | st in AllStages && StageVisible(s, st)
  }

  /** The Reset control is shown while playing once the last step is
      reached. */
  function ResetVisible(s: State): (visible: bool)
    ensures visible ==> s.isPlaying && forall st :: StageVisible(s, st)
    ensures Valid(s) ==> (visible <==> s.isPlaying && s.tickTimer == None)
  {
    s.isPlaying && s.currentStep >= FinalStep
  }

  /** Number of progress dots. */
  const DotCount: nat := 5

  /** How one progress dot is drawn. */
  datatype Dot = Dot(filled: bool, pulsing: bool)

  /** The progress indicator: no dots unless playing; otherwise dot k is
      filled once the step has reached k and pulses while the step is k. */
  function Dots(s: State): (dots: seq<Dot>)
    ensures |dots| == if s.isPlaying then DotCount else 0
    ensures forall k :: 0 <= k < |dots| && dots[k].pulsing ==> dots[k].filled
    ensures forall k :: 0 <= k < |dots| ==> (dots[k].filled <==> k <= s.currentStep)
  {
    if s.isPlaying then seq(DotCount, k => Dot(s.currentStep >= k, s.currentStep == k)) else []
  }

  function Min(a: int, b: int): int
  {
    if a <= b then a else b
  }

  /** Mounted stages form a prefix of the stage order: while playing,
      exactly the first min(step + 1, 4) are shown, and none when stopped. */
  lemma VisibleStagesPrefix(s: State)
    requires Valid(s)
    ensures !s.isPlaying ==> VisibleStages(s) == {}
    ensures s.isPlaying ==> |VisibleStages(s)| == Min(s.currentStep + 1, |AllStages|)
    ensures forall a, b :: StageVisible(s, b) && Threshold(a) <= Threshold(b) ==> StageVisible(s, a)
  {
    assert |AllStages| == 4 by {
      assert AllStages == {Title} + {Items} + {Circle} + {Reveal};
    }
    if s.isPlaying {
      var v := VisibleStages(s);
      if s.currentStep == 0 {
        assert v == {Title};
      } else if s.currentStep == 1 {
        assert v == {Title, Items};
      } else if s.currentStep == 2 {
        assert v == {Title, Items, Circle};
      } else {
        assert v == AllStages;
      }
    }
  }

  /** A step tick never hides a mounted stage: it keeps all of them and
      mounts the next one, if any is left. */
  lemma TickRevealsNextStage(s: State)
    requires Valid(s) && s.tickTimer.Some?
    ensures VisibleStages(s) <= VisibleStages(Tick(s))
    ensures forall st :: StageVisible(Tick(s), st) && !StageVisible(s, st) <==> Threshold(st) == s.currentStep + 1
    ensures |VisibleStages(Tick(s))| == Min(s.currentStep + 2, |AllStages|)
  {
    VisibleStagesPrefix(Tick(s));
  }

  /** The Reset control shows exactly when a run is complete: playing at the
      final step, which is also when no step timer is live. */
  lemma ResetVisibleIffComplete(s: State)
    requires Valid(s)
    ensures ResetVisible(s) <==> s.isPlaying && s.currentStep == FinalStep
    ensures ResetVisible(s) <==> s.isPlaying && s.tickTimer == None
  {
  }

  /** While playing, exactly one dot pulses, the one of the current step,
      and the filled dots are exactly those up to it. */
  lemma OneDotPulses(s: State)
    requires Valid(s) && s.isPlaying
    ensures |Dots(s)| == DotCount
    ensures (set k | 0 <= k < |Dots(s)| && Dots(s)[k].pulsing) == {s.currentStep}
    ensures forall k :: 0 <= k < |Dots(s)| ==> (Dots(s)[k].filled <==> k <= s.currentStep)
  {
    var d := Dots(s);
    var pulsing := set k | 0 <= k < |d| && d[k].pulsing;
    assert s.currentStep in pulsing;
    forall k | k in pulsing ensures k == s.currentStep {
    }
  }

  /** The dots mirror the card: while playing, the dot of a stage's step is
      filled exactly when that stage is mounted; when stopped, there are no
      dots and no stages. */
  lemma DotsMirrorStages(s: State, st: Stage)
    requires Valid(s)
    ensures s.isPlaying ==> Threshold(st) < |Dots(s)| && (Dots(s)[Threshold(st)].filled <==> StageVisible(s, st))
    ensures !s.isPlaying ==> Dots(s) == [] && !StageVisible(s, st) && !ResetVisible(s)
  {
  }
}
