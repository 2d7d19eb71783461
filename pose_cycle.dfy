/** The pieces of a measurement cycle that both robot scripts share: the pose
    arithmetic (lift by 80 along the coordinate at index -4, random jitter of
    at most 5 per coordinate) and the `HRIF_IsMotionDone` polling loop that
    waits for a linear move to finish. */
module PoseCycle {
  import opened Outcomes

  /** A Cartesian target as configured: position and orientation values. */
  type Pose = seq<real>

  /** How far the cycle lifts the tool between the target and the random move. */
  const HeightOffset: real := 80.0

  /** The vertical coordinate, counted from the end of the pose (index -4). */
  const VerticalFromEnd: nat := 4

  /** `random.uniform(-5, 5)` returns values in this range. */
  const JitterBound: real := 5.0

  /** One random offset, as drawn by `random.uniform(-5, 5)`. */
  type Offset = r: real | -JitterBound <= r <= JitterBound

  /** `adjusted_pose = target_pose.copy(); adjusted_pose[-4] += 80`: a list
      shorter than four entries has no index -4 and Python raises
      `IndexError`. */
  function AdjustedPose(target: Pose): (adjusted: Outcome<Pose>)
    ensures adjusted.Aborted? <==> |target| < VerticalFromEnd
    ensures adjusted.Aborted? ==> adjusted.reason == IndexError
    ensures adjusted.Returned? ==>
              |adjusted.value| == |target| &&
              adjusted.value[|target| - VerticalFromEnd] == target[|target| - VerticalFromEnd] + HeightOffset &&
              forall i :: 0 <= i < |target| && i != |target| - VerticalFromEnd ==> adjusted.value[i] == target[i]
  {
    if |target| < VerticalFromEnd then Aborted(IndexError)
    else
      var v := |target| - VerticalFromEnd;
      Returned(target[v := target[v] + HeightOffset])
  }

  /** The lift is undone by subtracting the offset at the same index: the
      adjusted pose carries the whole target. */
  lemma AdjustedPoseRecoversTarget(target: Pose)
    requires |target| >= VerticalFromEnd
    ensures var a := AdjustedPose(target).value;
            a[|a| - VerticalFromEnd := a[|a| - VerticalFromEnd] - HeightOffset] == target
  {
    var a := AdjustedPose(target).value;
    var back := a[|a| - VerticalFromEnd := a[|a| - VerticalFromEnd] - HeightOffset];
    assert forall i :: 0 <= i < |target| ==> back[i] == target[i];
  }

  /** `[current_pose[i] + random_offsets[i] for i in range(len(current_pose))]`,
      with the offsets drawn beforehand, one per coordinate. */
  function RandomPose(current: Pose, offsets: seq<Offset>): (pose: Pose)
    requires |offsets| == |current|
    ensures |pose| == |current|
    ensures forall i :: 0 <= i < |current| ==>
              current[i] - JitterBound <= pose[i] <= current[i] + JitterBound
  {
    seq(|current|, i requires 0 <= i < |current| => current[i] + offsets[i])
  }

  /** The random pose determines its offsets: subtracting the current pose
      gives back exactly the offsets that were drawn. */
  lemma RandomPoseOffsets(current: Pose, offsets: seq<Offset>)
    requires |offsets| == |current|
    ensures forall i :: 0 <= i < |current| ==> RandomPose(current, offsets)[i] - current[i] == offsets[i]
  {
  }

  /** Zero offsets leave the pose where it is. */
  lemma RandomPoseZero(current: Pose)
    ensures RandomPose(current, seq(|current|, i => 0.0)) == current
  {
    var zero: seq<Offset> := seq(|current|, i => 0.0);
    assert forall i :: 0 <= i < |current| ==> RandomPose(current, zero)[i] == current[i];
  }

  // ---------------------------------------------------------------------
  // Waiting for a move to finish

  /** One answer of `HRIF_IsMotionDone`: its status code and the list it
      filled in. */
  datatype DoneReply = DoneReply(status: int, result: seq<int>)

  /** `motion_done == 0 and motion_done_result and motion_done_result[0] == 1` */
  predicate IsDone(reply: DoneReply) {
    reply.status == 0 && |reply.result| > 0 && reply.result[0] == 1
  }

  /** `motion_done < 0` */
  predicate IsFault(reply: DoneReply) {
    reply.status < 0
  }

  /** A reply that ends the polling loop. */
  predicate Stops(reply: DoneReply) {
    IsDone(reply) || IsFault(reply)
  }

  /** How the wait ended: the move finished, or the controller reported an
      error code (which is printed; the caller carries on either way). */
  datatype Wait = Done | MotionError(code: int)

  /** The polling loop over the replies the controller gives, one per poll.
      When the replies run out before one stops the loop, the program would
      still be polling. */
  function WaitResult(replies: seq<DoneReply>): (w: Outcome<Wait>)
    ensures w.Aborted? ==> w.reason == Unfinished
  {
    if replies == [] then Aborted(Unfinished)
    else if IsDone(replies[0]) then Returned(Done)
    else if IsFault(replies[0]) then Returned(MotionError(replies[0].status))
    else WaitResult(replies[1..])
  }

  /** The index of the first reply that stops the loop, if there is one. */
  function FirstStop(replies: seq<DoneReply>): (k: Option<nat>)
    ensures k.Some? ==> k.value < |replies| && Stops(replies[k.value]) &&
                        forall j :: 0 <= j < k.value ==> !Stops(replies[j])
    ensures k.None? ==> forall j :: 0 <= j < |replies| ==> !Stops(replies[j])
  {
    if replies == [] then None
    else if Stops(replies[0]) then Some(0)
    else
      match FirstStop(replies[1..])
      case None => None
      case Some(k) => Some(k + 1)
  }

  /** The wait is decided by the first stopping reply alone: it finishes
      exactly when some reply stops the loop, and its result is what that
      reply says (done, or the negative status it carries). */
  lemma {:induction false} WaitResultFirstStop(replies: seq<DoneReply>)
    ensures WaitResult(replies).Returned? <==> FirstStop(replies).Some?
    ensures FirstStop(replies).Some? ==>
              var r := replies[FirstStop(replies).value];
              WaitResult(replies).value == (if IsDone(r) then Done else MotionError(r.status))
    ensures FirstStop(replies).None? ==> WaitResult(replies) == Aborted(Unfinished)
    decreases |replies|
  {
    if replies != [] && !Stops(replies[0]) {
      WaitResultFirstStop(replies[1..]);
    }
  }

  /** The replies after the first stopping one are never looked at. */
  lemma {:induction false} WaitResultIgnoresLater(replies: seq<DoneReply>, later: seq<DoneReply>)
    requires FirstStop(replies).Some?
    ensures WaitResult(replies + later) == WaitResult(replies)
    decreases |replies|
  {
    if !Stops(replies[0]) {
      assert (replies + later)[1..] == replies[1..] + later;
      WaitResultIgnoresLater(replies[1..], later);
    }
  }

  /** `while True:` poll `HRIF_IsMotionDone`, stop on a done reply or a
      negative status, otherwise sleep and poll again.  `polls` counts the
      calls made. */
  method WaitMotionDone(replies: seq<DoneReply>) returns (w: Outcome<Wait>, polls: nat)
    ensures w == WaitResult(replies)
    ensures w.Returned? ==> 1 <= polls <= |replies| && Stops(replies[polls - 1])
    ensures w.Aborted? ==> polls == |replies|
    ensures forall j :: 0 <= j < polls && (w.Aborted? || j < polls - 1) ==> !Stops(replies[j])
  {
    polls := 0;
    while true
      invariant polls <= |replies|
      invariant forall j :: 0 <= j < polls ==> !Stops(replies[j])
      invariant WaitResult(replies) == WaitResult(replies[polls..])
      decreases |replies| - polls
    {
      if polls == |replies| {
        return Aborted(Unfinished), polls;
      }
      var reply := replies[polls];
      assert replies[polls..][1..] == replies[polls + 1..];
      polls := polls + 1;
      if reply.status == 0 && |reply.result| > 0 && reply.result[0] == 1 {
        return Returned(Done), polls;
      } else if reply.status < 0 {
        return Returned(MotionError(reply.status)), polls;
      }
    }
  }

  /** The answers of the controller for one `move_robot`: the status of
      `HRIF_MoveL`, then one reply per `HRIF_IsMotionDone` poll. */
  datatype MotionReplies = MotionReplies(moveStatus: int, done: seq<DoneReply>)

  /** How a linear move ended: refused by the controller (the code is
      printed), or accepted and waited for. */
  datatype Move = Rejected(code: int) | Settled(wait: Wait)

  /** `HRIF_MoveL`, then the wait only when the move was accepted. */
  function MoveAndWait(m: MotionReplies): (o: Outcome<Move>)
    ensures m.moveStatus != 0 ==> o == Returned(Rejected(m.moveStatus))
    ensures m.moveStatus == 0 ==> (o.Returned? <==> WaitResult(m.done).Returned?)
    ensures o.Returned? && o.value.Settled? ==> o.value.wait == WaitResult(m.done).value
    ensures o.Aborted? ==> o.reason == Unfinished
  {
    if m.moveStatus != 0 then Returned(Rejected(m.moveStatus))
    else
      var w :- WaitResult(m.done);
      Returned(Settled(w))
  }

  /** The move followed by its wait; no poll is made for a refused move. */
  method MoveLAndWait(m: MotionReplies) returns (o: Outcome<Move>, polls: nat)
    ensures o == MoveAndWait(m)
    ensures m.moveStatus != 0 ==> polls == 0
    ensures m.moveStatus == 0 && o.Returned? ==> 1 <= polls <= |m.done| && Stops(m.done[polls - 1])
    ensures polls <= |m.done|
    ensures m.moveStatus == 0 ==>
              forall j :: 0 <= j < polls && (o.Aborted? || j < polls - 1) ==> !Stops(m.done[j])
  {
    if m.moveStatus != 0 {
      return Returned(Rejected(m.moveStatus)), 0;
    }
    var w;
    w, polls := WaitMotionDone(m.done);
    if w.Aborted? {
      return Aborted(w.reason), polls;
    }
    o := Returned(Settled(w.value));
  }
}
