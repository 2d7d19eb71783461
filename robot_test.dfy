/** The test variant of the measurement script: the same cycle (target,
    lifted by 80, random jitter, back to the target), with moves sent
    without a preceding joint-position read, a gauge stub that always reads
    0, and a record only for iterations whose gauge value is not `None`. */
module RobotTest {
  import opened Outcomes
  import opened PoseCycle

  /** `move_robot` of the test script: `HRIF_MoveL` is sent at once, then
      the wait; `sent` is the pose handed to the controller. */
  method MoveRobot(pose: Pose, m: MotionReplies) returns (o: Outcome<Move>, sent: seq<Pose>, polls: nat)
    ensures o == MoveAndWait(m)
    ensures sent == [pose]
    ensures m.moveStatus != 0 ==> polls == 0
    ensures m.moveStatus == 0 && o.Returned? ==> 1 <= polls <= |m.done| && Stops(m.done[polls - 1])
    ensures polls <= |m.done|
    ensures m.moveStatus == 0 ==>
              forall j :: 0 <= j < polls && (o.Aborted? || j < polls - 1) ==> !Stops(m.done[j])
  {
    sent := [pose];
    o, polls := MoveLAndWait(m);
  }

  /** The test script's `random_movement`: the jittered pose is moved to and
      not returned. */
  method RandomMovement(current: Pose, offsets: seq<Offset>, m: MotionReplies)
    returns (o: Outcome<Move>, sent: seq<Pose>)
    requires |offsets| == |current|
    ensures o == MoveAndWait(m)
    ensures sent == [RandomPose(current, offsets)]
  {
    var pose := RandomPose(current, offsets);
    var polls;
    o, sent, polls := MoveRobot(pose, m);
  }

  /** The stub `get_gauge_reading`: always the reading 0, never `None`. */
  function GetGaugeReading(): (g: Option<int>)
    ensures g.Some? && g.value == 0
  {
    Some(0)
  }

  /** `{'Iteration': i + 1, 'Gauge Reading (mm)': gauge_data}` */
  datatype Record = Record(iteration: nat, gaugeReading: int)

  /** The record policy: iteration `i` contributes a record exactly when its
      gauge value is not `None`, and the record carries that value. */
  function RecordFor(i: nat, gauge: Option<int>): (records: seq<Record>)
    ensures |records| == (if gauge.Some? then 1 else 0)
    ensures gauge.Some? ==> records[0].iteration == i + 1 && records[0].gaugeReading == gauge.value
  {
    match gauge
    case Some(reading) => [Record(i + 1, reading)]
    case None => []
  }

  /** The controller's answers for the four moves of one iteration, and the
      offsets `random.uniform` draws. */
  datatype Iteration = Iteration(
    toTarget: MotionReplies, toAdjusted: MotionReplies,
    offsets: seq<Offset>, toRandom: MotionReplies, toReturn: MotionReplies)

  /** What a stretch of the loop produced: its records and the poses sent. */
  datatype Run = Run(records: seq<Record>, moves: seq<Pose>)

  /** One pass of the loop in `measure_repeatability` for index `i`.  It
      finishes exactly when the four waits finish and the target has an index
      -4; it then sends the target, the lifted pose, a random pose within 5 of
      the lifted one, and the target once more. */
  function IterationSpec(i: nat, target: Pose, it: Iteration): (r: Outcome<Run>)
    requires |it.offsets| == |target|
    ensures r.Returned? <==>
              MoveAndWait(it.toTarget).Returned? && |target| >= VerticalFromEnd &&
              MoveAndWait(it.toAdjusted).Returned? && MoveAndWait(it.toRandom).Returned? &&
              MoveAndWait(it.toReturn).Returned?
    ensures r.Returned? ==>
              var moves := r.value.moves;
              |moves| == 4 && moves[0] == target && moves[3] == target &&
              moves[1] == AdjustedPose(target).value &&
              |moves[2]| == |target| &&
              (forall k :: 0 <= k < |target| ==>
                 moves[1][k] - JitterBound <= moves[2][k] <= moves[1][k] + JitterBound) &&
              r.value.records == RecordFor(i, GetGaugeReading())
  {
    var toTarget :- MoveAndWait(it.toTarget);
    var adjusted :- AdjustedPose(target);
    var toAdjusted :- MoveAndWait(it.toAdjusted);
    var random := RandomPose(adjusted, it.offsets);
    var toRandom :- MoveAndWait(it.toRandom);
    var toReturn :- MoveAndWait(it.toReturn);
    Returned(Run(RecordFor(i, GetGaugeReading()), [target, adjusted, random, target]))
  }

  /** One pass of the loop, with the lifted pose made by updating a copy of
      the target in place. */
  method MeasureIteration(i: nat, target: Pose, it: Iteration) returns (r: Outcome<Run>)
    requires |it.offsets| == |target|
    ensures r == IterationSpec(i, target, it)
  {
    var o, sent, polls := MoveRobot(target, it.toTarget);
    if o.Aborted? {
      return Aborted(o.reason);
    }
    var moves := sent;

    var adjusted := target;
    if |adjusted| < VerticalFromEnd {
      return Aborted(IndexError);
    }
    adjusted := adjusted[|adjusted| - VerticalFromEnd := adjusted[|adjusted| - VerticalFromEnd] + HeightOffset];
    o, sent, polls := MoveRobot(adjusted, it.toAdjusted);
    if o.Aborted? {
      return Aborted(o.reason);
    }
    moves := moves + sent;

    o, sent := RandomMovement(adjusted, it.offsets, it.toRandom);
    if o.Aborted? {
      return Aborted(o.reason);
    }
    moves := moves + sent;

    o, sent, polls := MoveRobot(target, it.toReturn);
    if o.Aborted? {
      return Aborted(o.reason);
    }
    moves := moves + sent;

    var gauge := GetGaugeReading();
    var records: seq<Record> := [];
    if gauge.Some? {
      records := [Record(i + 1, gauge.value)];
    }
    assert moves == [target, adjusted, RandomPose(adjusted, it.offsets), target];
    r := Returned(Run(records, moves));
  }

  /** The iteration loop over the answers of iterations `0 .. |env|-1`; the
      first iteration that raises ends the program. */
  function MeasureLoop(target: Pose, env: seq<Iteration>): Outcome<Run>
    requires forall i :: 0 <= i < |env| ==> |env[i].offsets| == |target|
  {
    if env == [] then Returned(Run([], []))
    else
      var before :- MeasureLoop(target, env[..|env| - 1]);
      var cycle :- IterationSpec(|env| - 1, target, env[|env| - 1]);
      Returned(Run(before.records + cycle.records, before.moves + cycle.moves))
  }

  /** `measure_repeatability` with `iterations == |env|`: an empty target
      yields no records and moves nothing. */
  function Measure(target: Pose, env: seq<Iteration>): (r: Outcome<Run>)
    requires forall i :: 0 <= i < |env| ==> |env[i].offsets| == |target|
    ensures target == [] ==> r == Returned(Run([], []))
  {
    if target == [] then Returned(Run([], [])) else MeasureLoop(target, env)
  }

  /** Once an iteration has raised, nothing later changes the outcome. */
  lemma {:induction false} MeasureLoopAbsorbs(target: Pose, env: seq<Iteration>, k: nat)
    requires forall i :: 0 <= i < |env| ==> |env[i].offsets| == |target|
    requires k <= |env|
    requires MeasureLoop(target, env[..k]).Aborted?
    ensures MeasureLoop(target, env) == MeasureLoop(target, env[..k])
    decreases |env| - k
  {
    if k < |env| {
      var longer := env[..k + 1];
      assert longer[..|longer| - 1] == env[..k];
      MeasureLoopAbsorbs(target, env, k + 1);
    } else {
      assert env[..k] == env;
    }
  }

  /** `measure_repeatability` of the test script. */
  method MeasureRepeatability(target: Pose, env: seq<Iteration>) returns (r: Outcome<Run>)
    requires forall i :: 0 <= i < |env| ==> |env[i].offsets| == |target|
    ensures r == Measure(target, env)
  {
    if target == [] {
      return Returned(Run([], []));
    }
    var records: seq<Record> := [];
    var moves: seq<Pose> := [];
    for i := 0 to |env|
      invariant MeasureLoop(target, env[..i]) == Returned(Run(records, moves))
    {
      assert env[..i + 1][..i] == env[..i];
      var cycle := MeasureIteration(i, target, env[i]);
      if cycle.Aborted? {
        MeasureLoopAbsorbs(target, env, i + 1);
        return Aborted(cycle.reason);
      }
      records := records + cycle.value.records;
      moves := moves + cycle.value.moves;
    }
    assert env[..|env|] == env;
    r := Returned(Run(records, moves));
  }

  /** With the stub gauge every finished iteration is recorded: a finished
      loop holds the records `{Iteration: i + 1, reading: 0}` for every
      `i`, in order, and four poses sent per iteration. */
  lemma {:induction false} EveryIterationRecorded(target: Pose, env: seq<Iteration>)
    requires forall i :: 0 <= i < |env| ==> |env[i].offsets| == |target|
    requires MeasureLoop(target, env).Returned?
    ensures var run := MeasureLoop(target, env).value;
            |run.records| == |env| && |run.moves| == 4 * |env| &&
            forall i :: 0 <= i < |env| ==> run.records[i] == Record(i + 1, 0)
    decreases |env|
  {
    if env != [] {
      var n := |env| - 1;
      var front := env[..n];
      assert forall i :: 0 <= i < n ==> front[i] == env[i];
      EveryIterationRecorded(target, front);
      var before := MeasureLoop(target, front).value;
      var cycle := IterationSpec(n, target, env[n]).value;
      assert cycle.records == [Record(n + 1, 0)];
      assert MeasureLoop(target, env).value == Run(before.records + cycle.records, before.moves + cycle.moves);
    }
  }

  /** The loop finishes exactly when every iteration does. */
  lemma {:induction false} MeasureLoopFinishes(target: Pose, env: seq<Iteration>)
    requires forall i :: 0 <= i < |env| ==> |env[i].offsets| == |target|
    ensures MeasureLoop(target, env).Returned? <==>
              forall i :: 0 <= i < |env| ==> IterationSpec(i, target, env[i]).Returned?
    decreases |env|
  {
    if env != [] {
      var n := |env| - 1;
      var front := env[..n];
      assert forall i :: 0 <= i < n ==> front[i] == env[i];
      MeasureLoopFinishes(target, front);
    }
  }

  /** The test script measures two iterations. */
  const ScriptIterations: nat := 2

  /** A finished test script with a configured target saves exactly the two
      records `{1, 0}` and `{2, 0}` and sends eight poses. */
  lemma ScriptSavesTwoRecords(config: Pose, env: seq<Iteration>)
    requires |env| == ScriptIterations
    requires forall i :: 0 <= i < |env| ==> |env[i].offsets| == |config|
    requires config != [] && Measure(config, env).Returned?
    ensures Measure(config, env).value.records == [Record(1, 0), Record(2, 0)]
    ensures |Measure(config, env).value.moves| == 8
  {
    EveryIterationRecorded(config, env);
  }
}
