/**
 The push-up counter: a push-up is credited when the elbow angle goes below
 90 degrees and then above 160 degrees; the counter counts up from 0 with no
 target.  A separate shoulder/hip height check is only displayed.
 */
module PushupCounter {
  import opened Landmarks
  import opened Geometry

  const DownAngle: real := 90.0
  const UpAngle: real := 160.0
  const FormYDiffMax: real := 0.15

  /** `stage`: None before the first push-up, "down" or "up". */
  datatype Stage = NoStage | Down | Up

  /** `counter` and `stage`. */
  datatype PushupState = PushupState(counter: int, stage: Stage)

  const Begin: PushupState := PushupState(0, NoStage)

  /** What one tick measures: no landmarks at all, or the right elbow angle
      together with the heights of the right shoulder and right hip. */
  datatype Reading = NoPose | Pose(elbowAngle: real, shoulderY: real, hipY: real)

  /** The measuring part of one loop iteration.  No landmark access is
      guarded, so a landmark list too short for the shoulder, elbow, wrist or
      hip raises IndexError out of the loop. */
  function Classify(pose: Option<Frame>, atan2: (real, real) -> real): (r: Result<Reading>)
    ensures pose.None? <==> r == Ok(NoPose)
    ensures r.IndexError? <==> pose.Some? && |pose.value| <= RightHip
    ensures r.Ok? && r.value.Pose? ==>
      && r.value.elbowAngle <= 180.0
      && r.value.shoulderY == pose.value[RightShoulder].y
      && r.value.hipY == pose.value[RightHip].y
    // the angle that drives the counter is the one at the right elbow
    ensures r.Ok? && r.value.Pose? ==>
      r.value.elbowAngle == JointAngle(atan2, Position(pose.value[RightShoulder]), Position(pose.value[RightElbow]),
                                       Position(pose.value[RightWrist]))
  {
    match pose
    case None => Ok(NoPose)
    case Some(frame) =>
      if |frame| <= RightHip then IndexError
      else
        var angle := JointAngle(atan2, Position(frame[RightShoulder]), Position(frame[RightElbow]),
                                Position(frame[RightWrist]));
        Ok(Pose(angle, frame[RightShoulder].y, frame[RightHip].y))
  }

  const ArmJoints: seq<nat> := [RightShoulder, RightElbow, RightWrist, RightHip]

  /** Only the right shoulder, elbow, wrist and hip matter: two frames that
      are both long enough and agree on those joints classify alike. */
  lemma ClassifyDependsOnlyOnArmJoints(f1: Frame, f2: Frame, atan2: (real, real) -> real)
    requires RightHip < |f1| && RightHip < |f2|
    requires forall i :: 0 <= i < |ArmJoints| ==> f1[ArmJoints[i]] == f2[ArmJoints[i]]
    ensures Classify(Some(f1), atan2) == Classify(Some(f2), atan2)
  {
    assert ArmJoints[0] == RightShoulder && ArmJoints[1] == RightElbow;
    assert ArmJoints[2] == RightWrist && ArmJoints[3] == RightHip;
  }

  /** The displayed form verdict: shoulder and hip at nearly the same height. */
  function FormCorrect(r: Reading): (good: Option<bool>)
    ensures r.NoPose? <==> good.None?
    ensures good == Some(true) ==> -FormYDiffMax < r.shoulderY - r.hipY < FormYDiffMax
    ensures r.Pose? && -FormYDiffMax < r.shoulderY - r.hipY < FormYDiffMax ==> good == Some(true)
  {
    match r
    case NoPose => None
    case Pose(_, shoulderY, hipY) => Some(Abs(shoulderY - hipY) < FormYDiffMax)
  }

  /** The stage and counter update of one tick. */
  function Step(s: PushupState, r: Reading): (t: PushupState)
    ensures r.NoPose? ==> t == s
    // the counter only ever goes up, by one, on an extension after a "down"
    ensures t.counter == s.counter || t.counter == s.counter + 1
    ensures t.counter == s.counter + 1 <==> r.Pose? && r.elbowAngle > UpAngle && s.stage == Down
    ensures t.counter > s.counter ==> t.stage == Up
    // a bent elbow enters "down"; a tick cannot both enter "down" and credit
    ensures r.Pose? && r.elbowAngle < DownAngle ==> t == PushupState(s.counter, Down)
    ensures r.Pose? && DownAngle <= r.elbowAngle <= UpAngle ==> t == s
    ensures r.Pose? && r.elbowAngle > UpAngle && s.stage != Down ==> t == s
  {
    match r
    case NoPose => s
    case Pose(angle, _, _) =>
      var stage := if angle < DownAngle then Down else s.stage;
      if angle > UpAngle && stage == Down then PushupState(s.counter + 1, Up)
      else PushupState(s.counter, stage)
  }

  /** The form check never influences counting: two readings with the same
      elbow angle move the counter and stage alike. */
  lemma FormDoesNotAffectCounting(s: PushupState, angle: real, y1: real, y2: real, y3: real, y4: real)
    ensures Step(s, Pose(angle, y1, y2)) == Step(s, Pose(angle, y3, y4))
  {
  }

  /** The state after all of `rs`. */
  function Replay(s: PushupState, rs: seq<Reading>): PushupState
    decreases |rs|
  {
    if |rs| == 0 then s else Replay(Step(s, rs[0]), rs[1..])
  }

  /** How many readings are deep elbow bends. */
  function Dips(rs: seq<Reading>): nat
    decreases |rs|
  {
    if |rs| == 0 then 0
    else (if rs[0].Pose? && rs[0].elbowAngle < DownAngle then 1 else 0) + Dips(rs[1..])
  }

  function DownBit(s: PushupState): nat {
    if s.stage == Down then 1 else 0
  }

  /** Over any run the counter never decreases, and every push-up it gains
      is paid for by a deep elbow bend (or by the "down" the run started in). */
  lemma {:induction false} CreditsNeedDips(s: PushupState, rs: seq<Reading>)
    ensures s.counter <= Replay(s, rs).counter
    ensures Replay(s, rs).counter - s.counter + DownBit(Replay(s, rs)) <= Dips(rs) + DownBit(s)
    decreases |rs|
  {
    if |rs| > 0 {
      CreditsNeedDips(Step(s, rs[0]), rs[1..]);
    }
  }

  /** n full push-ups: a bend below 90 then an extension above 160, each. */
  function PushUps(n: nat, down: Reading, up: Reading): (rs: seq<Reading>)
    ensures |rs| == 2 * n
  {
    if n == 0 then [] else [down, up] + PushUps(n - 1, down, up)
  }

  /** Each full push-up is counted exactly once. */
  lemma {:induction false} FullPushUpsCount(s: PushupState, n: nat, down: Reading, up: Reading)
    requires down.Pose? && down.elbowAngle < DownAngle
    requires up.Pose? && up.elbowAngle > UpAngle
    ensures Replay(s, PushUps(n, down, up)).counter == s.counter + n
    decreases n
  {
    if n > 0 {
      var rs := PushUps(n, down, up);
      assert rs[1..] == [up] + PushUps(n - 1, down, up);
      assert rs[1..][1..] == PushUps(n - 1, down, up);
      var t := Step(Step(s, down), up);
      assert t.counter == s.counter + 1;
      FullPushUpsCount(t, n - 1, down, up);
    }
  }
}
