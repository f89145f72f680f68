/**
  The posture verdict: three joint angles compared with fixed thresholds.

  The repository carries two threshold sets. The desktop application
  (PosturePolice.py) accepts a torso angle in [65, 110] and upper-back and
  neck angles of at least 160 degrees; the stand-alone live view
  (posturedetection.py) accepts [60, 105] and at least 165. Every comparison
  is inclusive. The live view also picks one prioritised feedback message
  for a bad frame.
*/
module Classifier {
  import opened Geometry

  /**
    The three joint angles of one frame, in degrees: at the hip between knee
    and shoulder (KHS), at the shoulder between hip and ear (HSE), and at the
    ear between shoulder and the virtual point above the ear (SEV).
  */
  datatype Angles = Angles(khs: real, hse: real, sev: real)

  /** An inclusive band for KHS and inclusive lower bounds for HSE and SEV. */
  datatype Thresholds = Thresholds(khsLow: real, khsHigh: real, hseMin: real, sevMin: real)

  /** The thresholds of the desktop application's `analyze_posture`. */
  const AppThresholds: Thresholds := Thresholds(65.0, 110.0, 160.0, 160.0)

  /** The thresholds of the live view's frame loop. */
  const LiveThresholds: Thresholds := Thresholds(60.0, 105.0, 165.0, 165.0)

  predicate ValidKHS(t: Thresholds, a: Angles)
  {
    t.khsLow <= a.khs <= t.khsHigh
  }

  predicate ValidHSE(t: Thresholds, a: Angles)
  {
    a.hse >= t.hseMin
  }

  predicate ValidSEV(t: Thresholds, a: Angles)
  {
    a.sev >= t.sevMin
  }

  /** Good posture: all three checks pass. */
  predicate IsGood(t: Thresholds, a: Angles)
  {
    ValidKHS(t, a) && ValidHSE(t, a) && ValidSEV(t, a)
  }

  /**
    The three angles measured from the four landmarks. Each angle is the
    zero sentinel when one of its two rays has zero length, that is, when
    its vertex coincides with a neighbour.
  */
  function Measure(arc: Arc, knee: Point, hip: Point, shoulder: Point, ear: Point): (a: Angles)
    ensures knee == hip || shoulder == hip ==> a.khs == 0.0
    ensures hip == shoulder || ear == shoulder ==> a.hse == 0.0
    ensures shoulder == ear ==> a.sev == 0.0
    ensures knee != hip && shoulder != hip ==> a.khs == arc(Ray(hip, knee), Ray(hip, shoulder))
    ensures hip != shoulder && ear != shoulder ==> a.hse == arc(Ray(shoulder, hip), Ray(shoulder, ear))
    ensures shoulder != ear ==> a.sev == arc(Ray(ear, shoulder), Point(0.0, -0.1))
  {
    NeckAngleGuard(arc, shoulder, ear);
    Angles(FindAngle(arc, knee, hip, shoulder),
           FindAngle(arc, hip, shoulder, ear),
           FindAngle(arc, shoulder, ear, VirtualPoint(ear)))
  }

  /**
    What the desktop application obtains for one camera frame: no frame at
    all, a frame in which the detector found no pose, a failure while
    reading the landmarks, or the four landmarks it needs.
  */
  datatype Detection =
    | NoFrame
    | NoPose
    | LandmarkError
    | Landmarks(knee: Point, hip: Point, shoulder: Point, ear: Point)

  /**
    `analyze_posture`: true means "slouching". Every way of not getting the
    four landmarks yields false; otherwise the verdict is the negation of
    the three inclusive checks with the application's thresholds.
  */
  function AnalyzePosture(arc: Arc, d: Detection): (slouch: bool)
    ensures !d.Landmarks? ==> !slouch
    ensures d.Landmarks? ==>
      var a := Measure(arc, d.knee, d.hip, d.shoulder, d.ear);
      (slouch <==> !(65.0 <= a.khs <= 110.0 && a.hse >= 160.0 && a.sev >= 160.0))
  {
    match d
    case Landmarks(knee, hip, shoulder, ear) =>
      !IsGood(AppThresholds, Measure(arc, knee, hip, shoulder, ear))
    case _ => false
  }

  /**
    A landmark sitting on its neighbour drives the torso or the neck angle
    to the zero sentinel, which lies outside the torso band and below the
    minimum, so the frame is a slouch under either threshold set.
  */
  lemma CoincidentLandmarksSlouch(arc: Arc, knee: Point, hip: Point, shoulder: Point, ear: Point, t: Thresholds)
    requires t == AppThresholds || t == LiveThresholds
    requires knee == hip || hip == shoulder || shoulder == ear
    ensures !IsGood(t, Measure(arc, knee, hip, shoulder, ear))
    ensures AnalyzePosture(arc, Landmarks(knee, hip, shoulder, ear))
  {
    var a := Measure(arc, knee, hip, shoulder, ear);
    if shoulder == ear {
      assert a.sev == 0.0 && !ValidSEV(t, a);
    } else {
      assert a.khs == 0.0 && !ValidKHS(t, a);
    }
  }

  /**
    The two threshold sets disagree in both directions: neither verdict
    implies the other.
  */
  lemma ThresholdSetsDisagree()
    ensures exists a :: IsGood(LiveThresholds, a) && !IsGood(AppThresholds, a)
    ensures exists a :: IsGood(AppThresholds, a) && !IsGood(LiveThresholds, a)
  {
    var low := Angles(62.0, 170.0, 170.0);
    assert IsGood(LiveThresholds, low) && !IsGood(AppThresholds, low);
    var lenient := Angles(90.0, 162.0, 170.0);
    assert IsGood(AppThresholds, lenient) && !IsGood(LiveThresholds, lenient);
  }

  /** The live view's on-screen verdict for one frame. */
  datatype Feedback = Good | SitUpStraight | FixShoulder | FixNeck

  /** The text the live view draws for each verdict. */
  function Message(f: Feedback): string
  {
    match f
    case Good => "GOOD POSTURE!"
    case SitUpStraight => "SIT UP STRAIGHT!"
    case FixShoulder => "FIX SHOULDER POSITION!"
    case FixNeck => "FIX NECK POSITION!"
  }

  /**
    The live view's verdict: good when all three checks pass, otherwise the
    message of the first failing check in the order torso, upper back,
    neck.
  */
  function Judge(a: Angles): (f: Feedback)
    ensures f == Good <==> 60.0 <= a.khs <= 105.0 && a.hse >= 165.0 && a.sev >= 165.0
    ensures f == SitUpStraight <==> !(60.0 <= a.khs <= 105.0)
    ensures f == FixShoulder <==> 60.0 <= a.khs <= 105.0 && a.hse < 165.0
    ensures f == FixNeck <==> 60.0 <= a.khs <= 105.0 && a.hse >= 165.0 && a.sev < 165.0
  {
    var t := LiveThresholds;
    if IsGood(t, a) then Good
    else if !ValidKHS(t, a) then SitUpStraight
    else if !ValidHSE(t, a) then FixShoulder
    else FixNeck
  }

  /**
    The last feedback branch is reached only when the neck angle is the one
    that fails, and every bad frame gets exactly one of the three messages.
  */
  lemma NeckMessageOnlyForNeck(a: Angles)
    ensures Judge(a) == FixNeck ==> !ValidSEV(LiveThresholds, a) && ValidKHS(LiveThresholds, a) && ValidHSE(LiveThresholds, a)
    ensures !IsGood(LiveThresholds, a) <==> Judge(a) in {SitUpStraight, FixShoulder, FixNeck}
    ensures Message(Judge(a)) == "FIX NECK POSITION!" <==> Judge(a) == FixNeck
  {
  }
}
