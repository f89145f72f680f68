/**
  The desktop application's session bookkeeping: the periodic
  `update_test` step, the final record written by `on_closing`, the serial
  command choice and the good-posture ratio shown on the timer labels.

  Clock readings (`time.time()`) are parameters. The database insert is
  modelled as the record the step emits; the serial write as the command it
  asks for.
*/
module Session {
  import opened Wrappers
  import Classifier
  import Geometry

  /** The two status strings the application logs. */
  datatype Status = GoodPosture | SlouchDetected

  function StatusText(s: Status): string
  {
    match s
    case GoodPosture => "Good Posture"
    case SlouchDetected => "Slouch Detected"
  }

  /** The status `update_test` derives from the slouch verdict. */
  function StatusOf(slouch: bool): (s: Status)
    ensures s == SlouchDetected <==> slouch
  {
    if slouch then SlouchDetected else GoodPosture
  }

  /** The two commands a microcontroller can receive: bad or good posture. */
  datatype Command = BP | GP

  /** The bytes written to the serial port for a command. */
  function Wire(c: Command): string
  {
    match c
    case BP => "BP\n"
    case GP => "GP\n"
  }

  /** `send_serial_command`: the command chosen for a status. */
  function CommandFor(s: Status): (c: Command)
    ensures Wire(c) == "BP\n" <==> StatusText(s) == "Slouch Detected"
    ensures Wire(c) == "GP\n" <==> StatusText(s) != "Slouch Detected"
  {
    if s == SlouchDetected then BP else GP
  }

  /**
    `send_serial_command`: nothing is written when no serial port was
    selected at start-up; otherwise the command string for the status.
  */
  function SendSerialCommand(attached: bool, s: Status): (written: Option<string>)
    ensures written.Some? <==> attached
    ensures written.Some? ==> (written.value == "BP\n" <==> s == SlouchDetected)
    ensures written.Some? ==> (written.value == "GP\n" <==> s == GoodPosture)
  {
    if attached then Some(Wire(CommandFor(s))) else None
  }

  /** A database row of the current user: a status and how long it lasted. */
  datatype Entry = Entry(status: Status, duration: real)

  /**
    The session fields of the test window: the last status (None before the
    first tick), when it last changed, and the two accumulators.
  */
  datatype State = State(last: Option<Status>, changeTime: real, goodTime: real, slouchTime: real)

  /** The state `create_test_ui` sets up at time `start`. */
  function Initial(start: real): (s: State)
    ensures s.last.None? && s.goodTime == 0.0 && s.slouchTime == 0.0
  {
    State(None, start, 0.0, 0.0)
  }

  /** The outcome of one tick: the new state, the row logged and the command sent. */
  datatype StepResult = StepResult(state: State, entry: Option<Entry>, command: Option<Command>)

  /**
    One `update_test` tick at time `now` with the given slouch verdict.

    As written, `duration` is measured from the last status change, not
    from the previous tick, so while the status stays the same each tick
    adds the whole time since the change to the accumulator again. The
    logged rows are unaffected: a row is written only on a change and
    carries the length of the run that just ended.
  */
  function Step(s: State, slouch: bool, now: real): (r: StepResult)
    // The accumulators: untouched on the first tick, otherwise only the one
    // of the previous status grows, by the time since the last change.
    ensures s.last.None? ==> r.state.goodTime == s.goodTime && r.state.slouchTime == s.slouchTime
    ensures s.last == Some(GoodPosture) ==>
      r.state.goodTime == s.goodTime + (now - s.changeTime) && r.state.slouchTime == s.slouchTime
    ensures s.last == Some(SlouchDetected) ==>
      r.state.slouchTime == s.slouchTime + (now - s.changeTime) && r.state.goodTime == s.goodTime
    ensures now >= s.changeTime ==> r.state.goodTime >= s.goodTime && r.state.slouchTime >= s.slouchTime
    // The status becomes the current one; the change time moves only on a change.
    ensures r.state.last == Some(StatusOf(slouch))
    ensures r.state.changeTime == if s.last == Some(StatusOf(slouch)) then s.changeTime else now
    // A row is logged only on a change away from an earlier status, and it
    // carries that earlier status and how long it lasted.
    ensures r.entry.Some? <==> s.last.Some? && s.last != Some(StatusOf(slouch))
    ensures r.entry.Some? ==> r.entry.value == Entry(s.last.value, now - s.changeTime)
    // A command goes out on every change and on every unchanged slouch
    // tick, never on an unchanged good tick, and it is BP exactly for a slouch.
    ensures r.command.Some? <==> s.last != Some(StatusOf(slouch)) || slouch
    ensures r.command.Some? ==> (r.command.value == BP <==> slouch)
  {
    var current := StatusOf(slouch);
    var duration := now - s.changeTime;
    var good := if s.last == Some(GoodPosture) then s.goodTime + duration else s.goodTime;
    var bad := if s.last == Some(SlouchDetected) then s.slouchTime + duration else s.slouchTime;
    if s.last != Some(current) then
      var entry := if s.last.Some? then Some(Entry(s.last.value, duration)) else None;
      StepResult(State(Some(current), now, good, bad), entry, Some(CommandFor(current)))
    else
      var command := if current == SlouchDetected then Some(CommandFor(current)) else None;
      StepResult(State(s.last, s.changeTime, good, bad), None, command)
  }

  /**
    `update_test` end to end: the frame is classified with the
    application's thresholds and the verdict drives the step. A missing
    frame, a frame without a pose or a landmark failure counts as good
    posture, so it never makes the step send BP.
  */
  function Tick(arc: Geometry.Arc, s: State, d: Classifier.Detection, now: real): (r: StepResult)
    ensures !d.Landmarks? ==> r.state.last == Some(GoodPosture) && r.command != Some(BP)
    ensures r.state.last == Some(StatusOf(Classifier.AnalyzePosture(arc, d)))
  {
    Step(s, Classifier.AnalyzePosture(arc, d), now)
  }

  /** `on_closing`: the final row, written iff some status was ever seen. */
  function Close(s: State, now: real): (e: Option<Entry>)
    ensures e.Some? <==> s.last.Some?
    ensures e.Some? ==> e.value == Entry(s.last.value, now - s.changeTime)
  {
    if s.last.Some? then Some(Entry(s.last.value, now - s.changeTime)) else None
  }

  /**
    `update_time_labels`: the good-posture percentage, shown only once the
    accumulated time is positive.
  */
  function LabelRatio(good: real, slouch: real): (ratio: Option<real>)
    ensures ratio.Some? <==> good + slouch > 0.0
    ensures ratio.Some? && good >= 0.0 && slouch >= 0.0 ==> 0.0 <= ratio.value <= 100.0
    ensures ratio.Some? && slouch == 0.0 ==> ratio.value == 100.0
    ensures ratio.Some? && good == 0.0 ==> ratio.value == 0.0
  {
    var total := good + slouch;
    if total > 0.0 then Some(good / total * 100.0) else None
  }

  /** A tick of `update_test`: the verdict and the clock reading. */
  datatype Sample = Sample(slouch: bool, time: real)

  /** Ticks taken no earlier than `start`, in clock order, before `close`. */
  predicate Chronological(start: real, samples: seq<Sample>, close: real)
  {
    && (forall i :: 0 <= i < |samples| ==> start <= samples[i].time <= close)
    && (forall i, j :: 0 <= i < j < |samples| ==> samples[i].time <= samples[j].time)
  }

  /** The summed durations of a log. */
  function Total(log: seq<Entry>): real
  {
    if |log| == 0 then 0.0 else Total(log[..|log| - 1]) + log[|log| - 1].duration
  }

  /** Consecutive rows of a log never carry the same status. */
  predicate Alternating(log: seq<Entry>)
  {
    forall i :: 0 < i < |log| ==> log[i - 1].status != log[i].status
  }

  /**
    Logging a row whose status differs from the last one keeps the log
    alternating and adds its duration to the total.
  */
  lemma AppendEntry(log: seq<Entry>, e: Entry)
    requires Alternating(log)
    requires |log| > 0 ==> log[|log| - 1].status != e.status
    requires forall k :: 0 <= k < |log| ==> log[k].duration >= 0.0
    requires e.duration >= 0.0
    ensures Alternating(log + [e])
    ensures Total(log + [e]) == Total(log) + e.duration
    ensures forall k :: 0 <= k < |log + [e]| ==> (log + [e])[k].duration >= 0.0
  {
    assert (log + [e])[..|log|] == log;
  }

  /**
    The clock part of what holds after the first `i` ticks of a session:
    the state has the last tick's status, the last change lies between the
    first and the last tick, and the accumulators cover at least the time
    from the first tick to the last one.
  */
  predicate ClockReplayed(start: real, samples: seq<Sample>, i: nat, s: State)
    requires i <= |samples|
  {
    && (i == 0 ==> s == Initial(start))
    && (i > 0 ==> s.last == Some(StatusOf(samples[i - 1].slouch)))
    && (i > 0 ==> samples[0].time <= s.changeTime <= samples[i - 1].time)
    && (i > 0 ==> s.goodTime + s.slouchTime >= samples[i - 1].time - samples[0].time)
  }

  /**
    The log part: the logged rows cover the time from the first tick to the
    last change, their durations are non-negative, and they alternate, the
    last of them differing from the current status.
  */
  predicate LogReplayed(samples: seq<Sample>, i: nat, s: State, log: seq<Entry>)
    requires 0 < i <= |samples|
  {
    && Total(log) == s.changeTime - samples[0].time
    && (forall k :: 0 <= k < |log| ==> log[k].duration >= 0.0)
    && Alternating(log)
    && (|log| > 0 ==> s.last.Some? && log[|log| - 1].status != s.last.value)
  }

  /** What holds after the first `i` ticks of a session. */
  predicate Replayed(start: real, samples: seq<Sample>, i: nat, s: State, log: seq<Entry>)
    requires i <= |samples|
  {
    && ClockReplayed(start, samples, i, s)
    && (i == 0 ==> log == [])
    && (i > 0 ==> LogReplayed(samples, i, s, log))
  }

  /** One `update_test` tick keeps the clock part of `Replayed`. */
  lemma ClockStep(start: real, samples: seq<Sample>, close: real, i: nat, s: State)
    requires Chronological(start, samples, close)
    requires i < |samples| && ClockReplayed(start, samples, i, s)
    ensures ClockReplayed(start, samples, i + 1, Step(s, samples[i].slouch, samples[i].time).state)
  {
    if i > 0 {
      assert samples[i - 1].time <= samples[i].time;
    }
  }

  /** One `update_test` tick keeps the log part, with the row it logs appended. */
  lemma LogStep(start: real, samples: seq<Sample>, close: real, i: nat, s: State, log: seq<Entry>)
    requires Chronological(start, samples, close)
    requires i < |samples| && ClockReplayed(start, samples, i, s)
    requires i == 0 ==> log == []
    requires i > 0 ==> LogReplayed(samples, i, s, log)
    ensures
      var r := Step(s, samples[i].slouch, samples[i].time);
      LogReplayed(samples, i + 1, r.state, if r.entry.Some? then log + [r.entry.value] else log)
  {
    var r := Step(s, samples[i].slouch, samples[i].time);
    if r.entry.Some? {
      assert samples[i - 1].time <= samples[i].time;
      LogChange(samples, i, s, log, r);
    } else if i == 0 {
      assert r.state.changeTime == samples[0].time;
    }
  }

  /** A tick that changes the status logs a row that keeps the log part. */
  lemma LogChange(samples: seq<Sample>, i: nat, s: State, log: seq<Entry>, r: StepResult)
    requires 0 < i < |samples| && LogReplayed(samples, i, s, log)
    requires s.changeTime <= samples[i].time
    requires r == Step(s, samples[i].slouch, samples[i].time) && r.entry.Some?
    ensures LogReplayed(samples, i + 1, r.state, log + [r.entry.value])
  {
    AppendEntry(log, r.entry.value);
  }

  /** One `update_test` tick keeps `Replayed`, with the row it logs appended. */
  lemma ReplayStep(start: real, samples: seq<Sample>, close: real, i: nat, s: State, log: seq<Entry>)
    requires Chronological(start, samples, close)
    requires i < |samples| && Replayed(start, samples, i, s, log)
    ensures
      var r := Step(s, samples[i].slouch, samples[i].time);
      Replayed(start, samples, i + 1, r.state, if r.entry.Some? then log + [r.entry.value] else log)
  {
    ClockStep(start, samples, close, i, s);
    LogStep(start, samples, close, i, s, log);
  }

  /**
    A whole session: the window opens at `start`, `update_test` runs once
    per sample, and the window closes at `close`. The rows logged split the
    time from the first tick to the close into runs of one status each, so
    their durations add up to exactly that time. The accumulators, which
    re-add the time since the last change on every tick, add up to at least
    the time from the first tick to the last.
  */
  method RunSession(start: real, samples: seq<Sample>, close: real) returns (log: seq<Entry>, final: State)
    requires Chronological(start, samples, close)
    ensures |log| == 0 <==> |samples| == 0
    ensures |samples| > 0 ==> Total(log) == close - samples[0].time
    ensures |samples| > 0 ==> log[|log| - 1].status == StatusOf(samples[|samples| - 1].slouch)
    ensures |samples| > 0 ==>
      final.goodTime + final.slouchTime >= samples[|samples| - 1].time - samples[0].time
    ensures forall i :: 0 <= i < |log| ==> log[i].duration >= 0.0
    ensures Alternating(log)
  {
    var s := Initial(start);
    log := [];
    var i := 0;
    while i < |samples|
      invariant 0 <= i <= |samples|
      invariant Replayed(start, samples, i, s, log)
    {
      var r := Step(s, samples[i].slouch, samples[i].time);
      ReplayStep(start, samples, close, i, s, log);
      if r.entry.Some? {
        log := log + [r.entry.value];
      }
      s := r.state;
      i := i + 1;
    }
    var e := Close(s, close);
    if e.Some? {
      AppendEntry(log, e.value);
      log := log + [e.value];
    }
    final := s;
  }

  /**
    The accumulators as written overcount. Three good ticks at 0, 2 and 4
    seconds cover 4 seconds of good posture, but the second tick adds 2 and
    the third adds 4, both measured from the change at 0.
  */
  lemma AccumulatorOvercount()
    ensures
      var s1 := Step(Initial(0.0), false, 0.0).state;
      var s2 := Step(s1, false, 2.0).state;
      var s3 := Step(s2, false, 4.0).state;
      s3.goodTime == 6.0 && s3.goodTime > 4.0 - 0.0
  {
  }

  /**
    The accumulators as evidently intended: each tick adds the time since
    the previous tick, not since the last change, to the status that held
    during that interval.
  */
  datatype Tally = Tally(last: Option<Status>, lastTick: real, goodTime: real, slouchTime: real)

  function TallyStep(t: Tally, slouch: bool, now: real): (u: Tally)
    ensures u.last == Some(StatusOf(slouch)) && u.lastTick == now
    ensures t.last.None? ==> u.goodTime == t.goodTime && u.slouchTime == t.slouchTime
    ensures t.last == Some(GoodPosture) ==>
      u.goodTime == t.goodTime + (now - t.lastTick) && u.slouchTime == t.slouchTime
    ensures t.last == Some(SlouchDetected) ==>
      u.slouchTime == t.slouchTime + (now - t.lastTick) && u.goodTime == t.goodTime
  {
    var delta := now - t.lastTick;
    match t.last
    case None => Tally(Some(StatusOf(slouch)), now, t.goodTime, t.slouchTime)
    case Some(GoodPosture) => Tally(Some(StatusOf(slouch)), now, t.goodTime + delta, t.slouchTime)
    case Some(SlouchDetected) => Tally(Some(StatusOf(slouch)), now, t.goodTime, t.slouchTime + delta)
  }

  /** The corrected accumulators after a sequence of ticks. */
  function Replay(t: Tally, samples: seq<Sample>): Tally
  {
    if |samples| == 0 then t
    else
      var n := |samples| - 1;
      TallyStep(Replay(t, samples[..n]), samples[n].slouch, samples[n].time)
  }

  /**
    With the corrected accumulators, good and slouch time add up to exactly
    the time from the first tick to the last.
  */
  lemma {:induction false} TallyMatchesElapsed(start: real, samples: seq<Sample>)
    requires |samples| > 0
    ensures Replay(Tally(None, start, 0.0, 0.0), samples).lastTick == samples[|samples| - 1].time
    ensures Replay(Tally(None, start, 0.0, 0.0), samples).goodTime
          + Replay(Tally(None, start, 0.0, 0.0), samples).slouchTime
         == samples[|samples| - 1].time - samples[0].time
  {
    var n := |samples| - 1;
    if n > 0 {
      var prefix := samples[..n];
      assert prefix[0] == samples[0] && prefix[n - 1] == samples[n - 1];
      TallyMatchesElapsed(start, prefix);
    }
  }

  /** The corrected accumulators never overcount the three-tick session above. */
  lemma TallyNoOvercount()
    ensures
      var t := Replay(Tally(None, 0.0, 0.0, 0.0), [Sample(false, 0.0), Sample(false, 2.0), Sample(false, 4.0)]);
      t.goodTime == 4.0 && t.slouchTime == 0.0
  {
    var t0 := Tally(None, 0.0, 0.0, 0.0);
    var samples := [Sample(false, 0.0), Sample(false, 2.0), Sample(false, 4.0)];
    assert samples[..2] == [Sample(false, 0.0), Sample(false, 2.0)];
    assert samples[..1] == [Sample(false, 0.0)];
    assert Replay(t0, samples[..1]) == Tally(Some(GoodPosture), 0.0, 0.0, 0.0) by {
      assert samples[..1][..0] == [];
    }
    assert Replay(t0, samples[..2]) == Tally(Some(GoodPosture), 2.0, 2.0, 0.0) by {
      assert samples[..2][..1] == samples[..1];
    }
  }
}
