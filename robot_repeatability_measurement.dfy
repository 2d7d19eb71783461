/** The repeatability measurement: for each iteration the arm goes to the
    configured target, lifts by 80, makes a random move of at most 5 per
    coordinate, returns to the target, and the dial gauges are read; one
    record per iteration collects the poses, the telemetry read back after
    each move and the gauge averages.  After the last iteration the script
    parks the arm at the lifted pose.

    The controller and the gauge are inputs: for every call the answers they
    give are part of an `Iteration`. */
module RobotRepeatability {
  import opened Outcomes
  import opened PoseCycle
  import HubDataReader

  /** Joint angles and position/orientation values per telemetry half. */
  const TelemetryWidth: nat := 6

  /** `[None] * 6` */
  function Missing(n: nat): (xs: seq<Option<real>>)
    ensures |xs| == n && forall i :: 0 <= i < n ==> xs[i].None?
  {
    seq(n, i => None)
  }

  /** Readings that are all present. */
  function Present(values: seq<real>): (xs: seq<Option<real>>)
    ensures |xs| == |values| && forall i :: 0 <= i < |values| ==> xs[i] == Some(values[i])
  {
    seq(|values|, i requires 0 <= i < |values| => Some(values[i]))
  }

  // ---------------------------------------------------------------------
  // Telemetry

  /** What `HRIF_ReadCmdJointPos` answers: a status and the list it leaves
      behind, already converted with `float`. */
  datatype JointRead = JointRead(status: int, points: seq<real>)

  /** The two halves that `get_end_effector_data` returns. */
  datatype Telemetry = Telemetry(jointAngles: seq<Option<real>>, positionOrientation: seq<Option<real>>)

  /** `get_end_effector_data`: on status 0 the first six points are the
      joint angles and the rest the position and orientation; on any other
      status both halves are six `None`s. */
  function EndEffectorData(read: JointRead): (t: Telemetry)
    ensures read.status == 0 ==>
              |t.jointAngles| == (if |read.points| < TelemetryWidth then |read.points| else TelemetryWidth) &&
              |t.jointAngles| + |t.positionOrientation| == |read.points| &&
              (forall j :: 0 <= j < |t.jointAngles| ==> t.jointAngles[j] == Some(read.points[j])) &&
              forall j :: 0 <= j < |t.positionOrientation| ==>
                t.positionOrientation[j] == Some(read.points[|t.jointAngles| + j])
    ensures read.status != 0 ==>
              |t.jointAngles| == TelemetryWidth && |t.positionOrientation| == TelemetryWidth &&
              (forall j :: 0 <= j < TelemetryWidth ==> t.jointAngles[j].None?) &&
              forall j :: 0 <= j < TelemetryWidth ==> t.positionOrientation[j].None?
  {
    if read.status == 0 then
      var points := Present(read.points);
      if |points| <= TelemetryWidth then Telemetry(points, [])
      else Telemetry(points[..TelemetryWidth], points[TelemetryWidth..])
    else Telemetry(Missing(TelemetryWidth), Missing(TelemetryWidth))
  }

  /** The telemetry has a missing value exactly when the read failed; a
      successful read loses nothing, the two halves put together are the
      points read. */
  lemma TelemetryMissingIffFailed(read: JointRead)
    ensures var t := EndEffectorData(read);
            var all := t.jointAngles + t.positionOrientation;
            (exists j :: 0 <= j < |all| && all[j].None?) <==> read.status != 0
    ensures read.status == 0 ==>
              var t := EndEffectorData(read);
              t.jointAngles + t.positionOrientation == Present(read.points)
  {
    var t := EndEffectorData(read);
    var all := t.jointAngles + t.positionOrientation;
    if read.status != 0 {
      assert all[0].None?;
    } else {
      assert forall j :: 0 <= j < |all| ==> all[j] == Some(read.points[j]);
    }
  }

  // ---------------------------------------------------------------------
  // Moving

  /** The answers for one `move_robot`: the status of the joint-position read
      that comes first, then those of the move and its polls. */
  datatype MoveReplies = MoveReplies(preRead: int, motion: MotionReplies)

  /** `move_robot`: a failed joint-position read disconnects and calls
      `exit()`; otherwise the linear move is sent and waited for. */
  function MoveSpec(m: MoveReplies): (o: Outcome<Move>)
    ensures m.preRead != 0 <==> o == Aborted(SystemExit)
    ensures m.preRead == 0 ==> (o.Returned? <==> m.motion.moveStatus != 0 || WaitResult(m.motion.done).Returned?)
  {
    if m.preRead != 0 then Aborted(SystemExit) else MoveAndWait(m.motion)
  }

  /** `move_robot` with the read made first.  `sent` is what reaches
      `HRIF_MoveL`: the pose, unless the program has already exited. */
  method MoveRobot(pose: Pose, m: MoveReplies) returns (o: Outcome<Move>, sent: seq<Pose>, polls: nat)
    ensures o == MoveSpec(m)
    ensures sent == (if m.preRead == 0 then [pose] else [])
    ensures m.preRead != 0 || m.motion.moveStatus != 0 ==> polls == 0
    ensures polls <= |m.motion.done|
  {
    if m.preRead != 0 {
      return Aborted(SystemExit), [], 0;
    }
    sent := [pose];
    o, polls := MoveLAndWait(m.motion);
  }

  /** A negative `HRIF_IsMotionDone` status ends the wait with the error
      printed; `move_robot` returns normally and the cycle goes on. */
  lemma MotionErrorDoesNotAbort(m: MoveReplies)
    requires m.preRead == 0 && m.motion.moveStatus == 0
    requires |m.motion.done| > 0 && m.motion.done[0].status < 0
    ensures MoveSpec(m) == Returned(Settled(MotionError(m.motion.done[0].status)))
  {
  }

  /** `random_movement`: jitter every coordinate by its drawn offset, move
      there, and return the pose. */
  method RandomMovement(current: Pose, offsets: seq<Offset>, m: MoveReplies)
    returns (pose: Pose, o: Outcome<Move>, sent: seq<Pose>)
    requires |offsets| == |current|
    ensures pose == RandomPose(current, offsets)
    ensures o == MoveSpec(m)
    ensures sent == (if m.preRead == 0 then [pose] else [])
  {
    pose := RandomPose(current, offsets);
    var polls;
    o, sent, polls := MoveRobot(pose, m);
  }

  // ---------------------------------------------------------------------
  // The gauge

  /** `get_gauge_reading`: the averaged gauge values from `read_average_data`
      as it is written, with the default address and register count, so a
      port that does not open raises `UnboundLocalError`. */
  method GetGaugeReading(opens: bool, attempts: seq<HubDataReader.Attempt>)
    returns (r: Outcome<Option<seq<Option<real>>>>)
    requires |attempts| == HubDataReader.ReadAttempts
    ensures r == HubDataReader.ReadAverageAsWritten(opens, attempts)
  {
    r := HubDataReader.ReadAverageDataAsWritten(opens, attempts, HubDataReader.DefaultAddress, HubDataReader.DefaultDataCount);
  }

  /** The `Gauge_j Reading` fields of a record: the readings in order when
      there is a list, six `None`s otherwise. */
  function GaugeColumns(gauge: Option<seq<Option<real>>>): (columns: seq<Option<real>>)
    ensures gauge.Some? ==> columns == gauge.value
    ensures gauge.None? ==> |columns| == TelemetryWidth && forall j :: 0 <= j < |columns| ==> columns[j].None?
  {
    match gauge
    case Some(readings) => readings
    case None => Missing(TelemetryWidth)
  }

  // ---------------------------------------------------------------------
  // One iteration

  /** Everything the controller and the gauge answer during one iteration,
      in the order the calls are made, and the offsets `random.uniform`
      draws. */
  datatype Iteration = Iteration(
    toTarget: MoveReplies, atTarget: JointRead,
    toAdjusted: MoveReplies, atAdjusted: JointRead,
    offsets: seq<Offset>, toRandom: MoveReplies, atRandom: JointRead,
    toReturn: MoveReplies, atReturn: JointRead,
    gaugeOpens: bool, gaugeAttempts: seq<HubDataReader.Attempt>)

  /** One offset per coordinate, and three serial reads. */
  predicate Feasible(target: Pose, it: Iteration) {
    |it.offsets| == |target| && |it.gaugeAttempts| == HubDataReader.ReadAttempts
  }

  /** One `data_record`. */
  datatype Record = Record(
    iteration: nat,
    gauge: seq<Option<real>>,
    initialTargetPose: Pose, adjustedPose: Pose, randomPose: Pose,
    initial: Telemetry, adjusted: Telemetry, random: Telemetry, returned: Telemetry)

  /** The poses one iteration sends to `HRIF_MoveL`, in order. */
  function CycleMoves(r: Record): seq<Pose> {
    [r.initialTargetPose, r.adjustedPose, r.randomPose, r.initialTargetPose]
  }

  /** The loop body of `measure_repeatability` for index `i`: the four
      moves with a telemetry read after each, the gauge read, and the
      record. */
  function IterationSpec(i: nat, target: Pose, it: Iteration): (r: Outcome<Record>)
    requires Feasible(target, it)
  {
    var toTarget :- MoveSpec(it.toTarget);
    var adjusted :- AdjustedPose(target);
    var toAdjusted :- MoveSpec(it.toAdjusted);
    var random := RandomPose(adjusted, it.offsets);
    var toRandom :- MoveSpec(it.toRandom);
    var toReturn :- MoveSpec(it.toReturn);
    var gauge :- HubDataReader.ReadAverageAsWritten(it.gaugeOpens, it.gaugeAttempts);
    Returned(Record(i + 1, GaugeColumns(gauge), target, adjusted, random,
                    EndEffectorData(it.atTarget), EndEffectorData(it.atAdjusted),
                    EndEffectorData(it.atRandom), EndEffectorData(it.atReturn)))
  }

  /** An iteration finishes exactly when every move gets past its
      joint-position read and its wait, the target has an index -4, and the
      gauge read does not raise; then the record carries the iteration
      number `i + 1`, the three poses (the lifted one differing from the
      target only by 80 at index -4, the random one within 5 of the lifted
      one everywhere), the four telemetry reads and the gauge columns. */
  lemma IterationOutcome(i: nat, target: Pose, it: Iteration)
    requires Feasible(target, it)
    ensures var r := IterationSpec(i, target, it);
            r.Returned? <==>
              MoveSpec(it.toTarget).Returned? && |target| >= VerticalFromEnd &&
              MoveSpec(it.toAdjusted).Returned? && MoveSpec(it.toRandom).Returned? &&
              MoveSpec(it.toReturn).Returned? &&
              HubDataReader.ReadAverageAsWritten(it.gaugeOpens, it.gaugeAttempts).Returned?
    ensures var r := IterationSpec(i, target, it);
            r.Returned? ==>
              var rec := r.value;
              rec.iteration == i + 1 && rec.initialTargetPose == target &&
              |rec.adjustedPose| == |target| && |rec.randomPose| == |target| &&
              rec.adjustedPose[|target| - VerticalFromEnd] == target[|target| - VerticalFromEnd] + HeightOffset &&
              (forall k :: 0 <= k < |target| && k != |target| - VerticalFromEnd ==> rec.adjustedPose[k] == target[k]) &&
              (forall k :: 0 <= k < |target| ==>
                 rec.adjustedPose[k] - JitterBound <= rec.randomPose[k] <= rec.adjustedPose[k] + JitterBound) &&
              rec.initial == EndEffectorData(it.atTarget) && rec.adjusted == EndEffectorData(it.atAdjusted) &&
              rec.random == EndEffectorData(it.atRandom) && rec.returned == EndEffectorData(it.atReturn) &&
              rec.gauge == GaugeColumns(HubDataReader.ReadAverageAsWritten(it.gaugeOpens, it.gaugeAttempts).value)
  {
  }

  /** A gauge port that does not open ends the run: once the four moves of
      the iteration have returned, `read_average_data` raises
      `UnboundLocalError` from its `finally` block and no record is made. */
  lemma UnopenedGaugeCrashes(i: nat, target: Pose, it: Iteration)
    requires Feasible(target, it) && !it.gaugeOpens
    requires MoveSpec(it.toTarget).Returned? && |target| >= VerticalFromEnd &&
             MoveSpec(it.toAdjusted).Returned? && MoveSpec(it.toRandom).Returned? &&
             MoveSpec(it.toReturn).Returned?
    ensures IterationSpec(i, target, it) == Aborted(UnboundLocalError)
  {
  }

  /** One pass of the loop in `measure_repeatability`, filling the record
      as the source does; `moves` are the poses sent to `HRIF_MoveL`. */
  method MeasureIteration(i: nat, target: Pose, it: Iteration) returns (r: Outcome<Record>, moves: seq<Pose>)
    requires Feasible(target, it)
    ensures r == IterationSpec(i, target, it)
    ensures r.Returned? ==> moves == CycleMoves(r.value)
  {
    var o, sent, polls := MoveRobot(target, it.toTarget);
    if o.Aborted? {
      return Aborted(o.reason), [];
    }
    moves := sent;
    var initial := EndEffectorData(it.atTarget);

    var adjusted := target;
    if |adjusted| < VerticalFromEnd {
      return Aborted(IndexError), moves;
    }
    adjusted := adjusted[|adjusted| - VerticalFromEnd := adjusted[|adjusted| - VerticalFromEnd] + HeightOffset];
    o, sent, polls := MoveRobot(adjusted, it.toAdjusted);
    if o.Aborted? {
      return Aborted(o.reason), moves;
    }
    moves := moves + sent;
    var atAdjusted := EndEffectorData(it.atAdjusted);

    var random;
    random, o, sent := RandomMovement(adjusted, it.offsets, it.toRandom);
    if o.Aborted? {
      return Aborted(o.reason), moves;
    }
    moves := moves + sent;
    var atRandom := EndEffectorData(it.atRandom);

    o, sent, polls := MoveRobot(target, it.toReturn);
    if o.Aborted? {
      return Aborted(o.reason), moves;
    }
    moves := moves + sent;
    var atReturn := EndEffectorData(it.atReturn);

    var gauge := GetGaugeReading(it.gaugeOpens, it.gaugeAttempts);
    if gauge.Aborted? {
      return Aborted(gauge.reason), moves;
    }
    r := Returned(Record(i + 1, GaugeColumns(gauge.value), target, adjusted, random,
                         initial, atAdjusted, atRandom, atReturn));
  }

  // ---------------------------------------------------------------------
  // The whole measurement

  /** The records collected and the poses sent to `HRIF_MoveL`. */
  datatype Run = Run(records: seq<Record>, moves: seq<Pose>)

  /** The iteration loop over the answers of iterations `0 .. |env|-1`; the
      first iteration that raises ends the program. */
  function MeasureLoop(target: Pose, env: seq<Iteration>): Outcome<Run>
    requires forall i :: 0 <= i < |env| ==> Feasible(target, env[i])
  {
    if env == [] then Returned(Run([], []))
    else
      var before :- MeasureLoop(target, env[..|env| - 1]);
      var record :- IterationSpec(|env| - 1, target, env[|env| - 1]);
      Returned(Run(before.records + [record], before.moves + CycleMoves(record)))
  }

  /** `measure_repeatability` with `iterations == |env|`: an empty target
      yields nothing and moves nothing. */
  function Measure(target: Pose, env: seq<Iteration>): (r: Outcome<Run>)
    requires forall i :: 0 <= i < |env| ==> Feasible(target, env[i])
    ensures target == [] ==> r == Returned(Run([], []))
  {
    if target == [] then Returned(Run([], [])) else MeasureLoop(target, env)
  }

  /** Once an iteration has raised, nothing later changes the outcome. */
  lemma {:induction false} MeasureLoopAbsorbs(target: Pose, env: seq<Iteration>, k: nat)
    requires forall i :: 0 <= i < |env| ==> Feasible(target, env[i])
    requires k <= |env|
    requires MeasureLoop(target, env[..k]).Aborted?
    ensures MeasureLoop(target, env) == MeasureLoop(target, env[..k])
    decreases |env| - k
  {
    if k < |env| {
      var longer := env[..k + 1];
      assert longer[..|longer| - 1] == env[..k];
      MeasureLoopAbsorbs(target, env, k + 1);
    } else {
      assert env[..k] == env;
    }
  }

  /** `measure_repeatability`: the loop collects records and the poses sent,
      and stops at the first iteration that raises. */
  method MeasureRepeatability(target: Pose, env: seq<Iteration>) returns (r: Outcome<Run>)
    requires forall i :: 0 <= i < |env| ==> Feasible(target, env[i])
    ensures r == Measure(target, env)
  {
    if target == [] {
      return Returned(Run([], []));
    }
    var records: seq<Record> := [];
    var moves: seq<Pose> := [];
    for i := 0 to |env|
      invariant MeasureLoop(target, env[..i]) == Returned(Run(records, moves))
    {
      assert env[..i + 1][..i] == env[..i];
      var record, sent := MeasureIteration(i, target, env[i]);
      if record.Aborted? {
        MeasureLoopAbsorbs(target, env, i + 1);
        return Aborted(record.reason);
      }
      records := records + [record.value];
      moves := moves + sent;
    }
    assert env[..|env|] == env;
    r := Returned(Run(records, moves));
  }

  /** The poses of every cycle of `records`, in turn. */
  function AllMoves(records: seq<Record>): (moves: seq<Pose>)
    ensures |moves| == 4 * |records|
  {
    if records == [] then []
    else AllMoves(records[..|records| - 1]) + CycleMoves(records[|records| - 1])
  }

  /** Cycle `i` of `AllMoves` occupies positions `4i .. 4i+3`. */
  lemma {:induction false} AllMovesCycle(records: seq<Record>, i: nat)
    requires i < |records|
    ensures AllMoves(records)[4 * i .. 4 * i + 4] == CycleMoves(records[i])
    decreases |records|
  {
    var n := |records| - 1;
    var front := records[..n];
    if i < n {
      AllMovesCycle(front, i);
      assert AllMoves(records)[4 * i .. 4 * i + 4] == AllMoves(front)[4 * i .. 4 * i + 4];
    } else {
      assert AllMoves(records)[4 * i .. 4 * i + 4] == AllMoves(records)[|AllMoves(front)|..];
    }
  }

  /** One more iteration: a finished loop over `env` is the finished loop
      over all but the last iteration, followed by the last iteration's record
      and its four poses. */
  lemma MeasureLoopStep(target: Pose, env: seq<Iteration>)
    requires forall i :: 0 <= i < |env| ==> Feasible(target, env[i])
    requires env != [] && MeasureLoop(target, env).Returned?
    ensures var front := env[..|env| - 1];
            var last := IterationSpec(|env| - 1, target, env[|env| - 1]);
            MeasureLoop(target, front).Returned? && last.Returned? &&
            MeasureLoop(target, env).value ==
              Run(MeasureLoop(target, front).value.records + [last.value],
                  MeasureLoop(target, front).value.moves + CycleMoves(last.value))
  {
  }

  /** A finished loop has one record per iteration, in order, each the
      iteration's own record, and the poses sent are the four poses of every
      cycle in turn. */
  lemma {:induction false} MeasureLoopRecords(target: Pose, env: seq<Iteration>)
    requires forall i :: 0 <= i < |env| ==> Feasible(target, env[i])
    requires MeasureLoop(target, env).Returned?
    ensures var run := MeasureLoop(target, env).value;
            |run.records| == |env| && run.moves == AllMoves(run.records) &&
            forall i :: 0 <= i < |env| ==> IterationSpec(i, target, env[i]) == Returned(run.records[i])
    decreases |env|
  {
    if env != [] {
      var n := |env| - 1;
      var front := env[..n];
      MeasureLoopStep(target, env);
      MeasureLoopRecords(target, front);
      var before := MeasureLoop(target, front).value;
      var record := IterationSpec(n, target, env[n]).value;
      var records := before.records + [record];
      assert records[..n] == before.records;
      assert AllMoves(records) == AllMoves(before.records) + CycleMoves(record);
      forall i | 0 <= i < |env|
        ensures IterationSpec(i, target, env[i]) == Returned(records[i])
      {
        if i < n {
          assert front[i] == env[i];
        }
      }
    }
  }

  /** For a configured target the measurement finishes exactly when every
      iteration does. */
  lemma MeasureFinishes(target: Pose, env: seq<Iteration>)
    requires forall i :: 0 <= i < |env| ==> Feasible(target, env[i])
    requires target != []
    ensures Measure(target, env).Returned? <==>
              forall i :: 0 <= i < |env| ==> IterationSpec(i, target, env[i]).Returned?
  {
    if Measure(target, env).Returned? {
      MeasureLoopRecords(target, env);
    } else {
      MeasureLoopFails(target, env);
    }
  }

  /** A finished measurement of a configured target yields `|env|` records
      numbered 1, 2, ... in order, each holding the target, its lifted pose
      and a random pose within 5 of the lifted one. */
  lemma MeasureRecords(target: Pose, env: seq<Iteration>)
    requires forall i :: 0 <= i < |env| ==> Feasible(target, env[i])
    requires target != [] && Measure(target, env).Returned?
    ensures var run := Measure(target, env).value;
            |run.records| == |env| &&
            forall i :: 0 <= i < |env| ==>
              run.records[i].iteration == i + 1 &&
              run.records[i].initialTargetPose == target &&
              run.records[i].adjustedPose == AdjustedPose(target).value &&
              |run.records[i].randomPose| == |target| &&
              forall k :: 0 <= k < |target| ==>
                run.records[i].adjustedPose[k] - JitterBound <= run.records[i].randomPose[k]
                                                          <= run.records[i].adjustedPose[k] + JitterBound
  {
    MeasureLoopRecords(target, env);
    var run := Measure(target, env).value;
    forall i | 0 <= i < |env|
      ensures run.records[i].iteration == i + 1
      ensures run.records[i].initialTargetPose == target
      ensures run.records[i].adjustedPose == AdjustedPose(target).value
      ensures |run.records[i].randomPose| == |target|
      ensures forall k :: 0 <= k < |target| ==>
                run.records[i].adjustedPose[k] - JitterBound <= run.records[i].randomPose[k]
                                                          <= run.records[i].adjustedPose[k] + JitterBound
    {
      IterationOutcome(i, target, env[i]);
      var a := run.records[i].adjustedPose;
      assert forall k :: 0 <= k < |a| ==> a[k] == AdjustedPose(target).value[k];
    }
  }

  /** A loop that raises has an iteration that raises. */
  lemma {:induction false} MeasureLoopFails(target: Pose, env: seq<Iteration>)
    requires forall i :: 0 <= i < |env| ==> Feasible(target, env[i])
    requires MeasureLoop(target, env).Aborted?
    ensures exists i :: 0 <= i < |env| && IterationSpec(i, target, env[i]).Aborted?
    decreases |env|
  {
    var n := |env| - 1;
    var front := env[..n];
    assert forall i :: 0 <= i < n ==> front[i] == env[i];
    if MeasureLoop(target, front).Aborted? {
      MeasureLoopFails(target, front);
      var i :| 0 <= i < n && IterationSpec(i, target, front[i]).Aborted?;
      assert IterationSpec(i, target, env[i]).Aborted?;
    } else {
      assert IterationSpec(n, target, env[n]).Aborted?;
    }
  }

  /** A configured target with fewer than four coordinates crashes the first
      iteration: with `IndexError` once the first move has returned. */
  lemma ShortTargetCrashes(target: Pose, env: seq<Iteration>)
    requires forall i :: 0 <= i < |env| ==> Feasible(target, env[i])
    requires 0 < |target| < VerticalFromEnd && |env| > 0
    ensures Measure(target, env).Aborted?
    ensures MoveSpec(env[0].toTarget).Returned? ==> Measure(target, env) == Aborted(IndexError)
  {
    var first := env[..1];
    assert first[..0] == [];
    assert first[0] == env[0];
    MeasureLoopAbsorbs(target, env, 1);
  }

  /** The configured pose [100, 0, 200, 0, 0, 0] is lifted to 280 on its
      third coordinate, the one at index -4. */
  lemma LiftExample()
    ensures AdjustedPose([100.0, 0.0, 200.0, 0.0, 0.0, 0.0]) == Returned([100.0, 0.0, 280.0, 0.0, 0.0, 0.0])
  {
    var target := [100.0, 0.0, 200.0, 0.0, 0.0, 0.0];
    assert |target| - VerticalFromEnd == 2;
    assert target[2 := 280.0] == [100.0, 0.0, 280.0, 0.0, 0.0, 0.0];
  }

  // ---------------------------------------------------------------------
  // The script

  /** The script measures 200 iterations. */
  const ScriptIterations: nat := 200

  /** What the script does: nothing without a configured target, otherwise
      the records it saves, every pose it sends to the arm, and how the park
      move at the end went. */
  datatype Session = NotConfigured | Measured(records: seq<Record>, moves: seq<Pose>, park: Outcome<Move>)

  /** The script body: measure, save, then park at the target lifted by 80
      at index -4 (the saving itself is not modelled).  The records are saved
      before the park move, so a park that raises (an `exit()` after a failed
      joint-position read, or a wait that never ends) keeps them; it is
      recorded in `park`. */
  function Script(config: Pose, env: seq<Iteration>, park: MoveReplies): (s: Outcome<Session>)
    requires |env| == ScriptIterations
    requires forall i :: 0 <= i < |env| ==> Feasible(config, env[i])
    ensures config == [] ==> s == Returned(NotConfigured)
    ensures config != [] ==> (s.Returned? <==> Measure(config, env).Returned?)
    ensures s.Returned? && config != [] ==>
              s.value.Measured? && s.value.records == Measure(config, env).value.records
  {
    if config == [] then Returned(NotConfigured)
    else
      var run :- Measure(config, env);
      match AdjustedPose(config)
      case Aborted(reason) => Returned(Measured(run.records, run.moves, Aborted(reason)))
      case Returned(parkPose) =>
        var sent := if park.preRead == 0 then [parkPose] else [];
        Returned(Measured(run.records, run.moves + sent, MoveSpec(park)))
  }

  /** A finished measurement with a configured target saved 200 records
      whatever the park move does; when the joint-position read before the
      park succeeds, 801 poses were sent: four per iteration, ending with the
      target at index -4 raised by 80. */
  lemma ScriptParksLifted(config: Pose, env: seq<Iteration>, park: MoveReplies)
    requires |env| == ScriptIterations
    requires forall i :: 0 <= i < |env| ==> Feasible(config, env[i])
    requires config != [] && Measure(config, env).Returned?
    ensures Script(config, env, park).Returned?
    ensures var s := Script(config, env, park).value;
            s.Measured? && |s.records| == ScriptIterations && s.park == MoveSpec(park) &&
            |config| >= VerticalFromEnd
    ensures park.preRead == 0 ==>
              var s := Script(config, env, park).value;
              |s.moves| == 4 * ScriptIterations + 1 &&
              var last := s.moves[|s.moves| - 1];
              |last| == |config| &&
              last[|config| - VerticalFromEnd] == config[|config| - VerticalFromEnd] + HeightOffset &&
              forall k :: 0 <= k < |config| && k != |config| - VerticalFromEnd ==> last[k] == config[k]
    ensures park.preRead != 0 ==> |Script(config, env, park).value.moves| == 4 * ScriptIterations
  {
    MeasureLoopRecords(config, env);
    IterationOutcome(0, config, env[0]);
  }
}
