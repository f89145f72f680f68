/**
  The live view's consecutive-bad-frame counter. A good frame resets the
  counter, a bad frame increments it, and a frame without a detected pose
  leaves it alone. Once a bad frame brings the counter above
  `AlertThreshold` the view shows a general alert.
*/
module Alert {
  import opened Wrappers
  import opened Classifier

  /** The alert threshold of the live view. */
  const AlertThreshold: nat := 100

  /** One camera frame as the live view sees it. */
  datatype Observation = Unseen | Seen(angles: Angles)

  /** The counter after a frame, the message drawn (if any) and the alert. */
  datatype FrameOutcome = FrameOutcome(count: nat, feedback: Option<Feedback>, alert: bool)

  /** A frame is bad when a pose was seen and it fails the live thresholds. */
  predicate IsBad(o: Observation)
  {
    o.Seen? && !IsGood(LiveThresholds, o.angles)
  }

  /** One iteration of the live view's loop, as far as the counter goes. */
  function ProcessFrame(count: nat, o: Observation): (r: FrameOutcome)
    ensures o.Unseen? ==> r == FrameOutcome(count, None, false)
    ensures o.Seen? && !IsBad(o) ==> r.count == 0 && !r.alert && r.feedback == Some(Good)
    ensures IsBad(o) ==> r.count == count + 1 && r.feedback == Some(Judge(o.angles)) && r.feedback != Some(Good)
    ensures r.alert <==> IsBad(o) && count >= AlertThreshold
  {
    match o
    case Unseen => FrameOutcome(count, None, false)
    case Seen(a) =>
      if IsGood(LiveThresholds, a) then FrameOutcome(0, Some(Good), false)
      else
        var n := count + 1;
        FrameOutcome(n, Some(Judge(a)), n > AlertThreshold)
  }

  /** The good/bad verdicts of the frames in which a pose was seen, in order. */
  function Verdicts(frames: seq<Observation>): (v: seq<bool>)
    ensures |v| <= |frames|
  {
    if |frames| == 0 then []
    else
      var last := frames[|frames| - 1];
      Verdicts(frames[..|frames| - 1]) + (if last.Seen? then [!IsBad(last)] else [])
  }

  /**
    The length of the run of bad verdicts at the end of `v`: every verdict
    in that suffix is bad, and the verdict just before it, if any, is good.
  */
  function TrailingBad(v: seq<bool>): (n: nat)
    ensures n <= |v|
    ensures forall j :: |v| - n <= j < |v| ==> !v[j]
    ensures n < |v| ==> v[|v| - n - 1]
  {
    if |v| == 0 || v[|v| - 1] then 0
    else TrailingBad(v[..|v| - 1]) + 1
  }

  /** The length of the bad run that frame `i` ends. */
  function RunAt(frames: seq<Observation>, i: nat): (n: nat)
    requires i < |frames|
    ensures n <= i + 1
  {
    TrailingBad(Verdicts(frames[..i + 1]))
  }

  /** The alert is shown on frame `i`: a bad frame ending a run of more than 100. */
  predicate AlertAt(frames: seq<Observation>, i: nat)
    requires i < |frames|
  {
    IsBad(frames[i]) && RunAt(frames, i) > AlertThreshold
  }

  /**
    Processing frame `i` takes the counter from the bad run before the
    frame to the bad run that includes it, and shows the alert exactly
    when that run is longer than the threshold.
  */
  lemma CounterStep(frames: seq<Observation>, i: nat)
    requires i < |frames|
    ensures ProcessFrame(TrailingBad(Verdicts(frames[..i])), frames[i]).count == RunAt(frames, i)
    ensures ProcessFrame(TrailingBad(Verdicts(frames[..i])), frames[i]).alert == AlertAt(frames, i)
  {
    assert frames[..i + 1][..i] == frames[..i];
    var v := Verdicts(frames[..i]);
    if frames[i].Seen? {
      var g := !IsBad(frames[i]);
      assert Verdicts(frames[..i + 1]) == v + [g];
      assert (v + [g])[..|v|] == v;
    } else {
      assert Verdicts(frames[..i + 1]) == v;
    }
  }

  /**
    The live view's loop over a sequence of frames. It returns the counter
    after the last frame, which is the length of the current run of bad
    frames, and, per frame, whether the alert was shown. The first 100
    frames never show it.
  */
  method Monitor(frames: seq<Observation>) returns (count: nat, alerts: seq<bool>)
    ensures count == TrailingBad(Verdicts(frames))
    ensures |alerts| == |frames|
    ensures forall i :: 0 <= i < |frames| ==> (alerts[i] <==> AlertAt(frames, i))
    ensures forall i :: 0 <= i < |frames| && i < AlertThreshold ==> !alerts[i]
  {
    count := 0;
    alerts := [];
    var i := 0;
    while i < |frames|
      invariant 0 <= i <= |frames|
      invariant |alerts| == i
      invariant count == TrailingBad(Verdicts(frames[..i]))
      invariant forall k :: 0 <= k < i ==> (alerts[k] <==> AlertAt(frames, k))
    {
      CounterStep(frames, i);
      var r := ProcessFrame(count, frames[i]);
      count := r.count;
      alerts := alerts + [r.alert];
      i := i + 1;
    }
    assert frames[..i] == frames;
  }
}
