/**
 The squat counter: a squat is credited when the knee angle goes below 100
 degrees and then above 165 degrees; each credited squat lowers the count,
 which starts at the session target, and the session ends when it reaches 0.
 */
module SquatCounter {
  import opened Landmarks
  import opened Geometry

  const VisibilityThreshold: real := 0.5
  const SquatThresholdAngle: real := 100.0
  const StandAngle: real := 165.0

  const BodyJoints: seq<nat> := [RightShoulder, RightHip, RightKnee, RightAnkle]

  /** `stage`: None before the first squat and after an unseen frame,
      "down", "up", or "COMPLETED!" once the count reaches 0. */
  datatype Stage = NoStage | Down | Up | Completed

  /** `count` (squats still to do) and `stage`. */
  datatype SquatState = SquatState(count: int, stage: Stage)

  function Begin(target: int): SquatState {
    SquatState(target, NoStage)
  }

  /** What one tick contributes: nothing (no landmarks, or a landmark lookup
      that failed inside the tick's `try`), a body not fully visible, or the
      knee angle of a visible body. */
  datatype Reading = Unchanged | NotVisible | KneeAngle(angle: real)

  /** The classification part of one loop iteration.  Every landmark access
      sits inside a `try` whose handler does nothing, so a short landmark list
      leaves the tick without effect. */
  function Classify(pose: Option<Frame>, atan2: (real, real) -> real): (r: Reading)
    ensures r == Unchanged <==> pose.None? || |pose.value| <= RightAnkle
    ensures r == NotVisible <==>
      pose.Some? && RightAnkle < |pose.value| && !AllSeen(pose.value, BodyJoints, VisibilityThreshold)
    ensures r.KneeAngle? ==> AllSeen(pose.value, BodyJoints, VisibilityThreshold) && r.angle <= 180.0
    // the depth measure is the angle at the right knee between hip and ankle
    ensures r.KneeAngle? ==>
      r.angle == JointAngle(atan2, Position(pose.value[RightHip]), Position(pose.value[RightKnee]),
                            Position(pose.value[RightAnkle]))
  {
    match pose
    case None => Unchanged
    case Some(frame) =>
      if |frame| <= RightAnkle then Unchanged
      else
        var visible := AllSeen(frame, BodyJoints, VisibilityThreshold);
        if !visible then NotVisible
        else KneeAngle(JointAngle(atan2, Position(frame[RightHip]), Position(frame[RightKnee]),
                                  Position(frame[RightAnkle])))
  }

  /** Only the four body joints matter: two frames that are both long enough
      and agree on those joints classify alike, whatever else they hold. */
  lemma ClassifyDependsOnlyOnBodyJoints(f1: Frame, f2: Frame, atan2: (real, real) -> real)
    requires RightAnkle < |f1| && RightAnkle < |f2|
    requires forall i :: 0 <= i < |BodyJoints| ==> f1[BodyJoints[i]] == f2[BodyJoints[i]]
    ensures Classify(Some(f1), atan2) == Classify(Some(f2), atan2)
  {
    assert f1[RightHip] == f2[RightHip] && f1[RightKnee] == f2[RightKnee] && f1[RightAnkle] == f2[RightAnkle] by {
      assert BodyJoints[1] == RightHip && BodyJoints[2] == RightKnee && BodyJoints[3] == RightAnkle;
    }
  }

  /** The stage and count update of one tick. */
  function Step(s: SquatState, r: Reading): (t: SquatState)
    ensures r == Unchanged ==> t == s
    // an unseen body cancels a squat in progress but keeps the count
    ensures r == NotVisible ==> t == SquatState(s.count, NoStage)
    // a squat is credited exactly when the knee straightens after a "down"
    ensures t.count == s.count || t.count == s.count - 1
    ensures t.count == s.count - 1 <==> r.KneeAngle? && r.angle > StandAngle && s.stage == Down
    ensures t.count < s.count ==> t.stage == (if t.count == 0 then Completed else Up)
    // a deep knee bend enters "down"
    ensures r.KneeAngle? && r.angle < SquatThresholdAngle ==> t == SquatState(s.count, Down)
    // between the two thresholds nothing changes
    ensures r.KneeAngle? && SquatThresholdAngle <= r.angle <= StandAngle ==> t == s
    ensures r.KneeAngle? && r.angle > StandAngle && s.stage != Down ==> t == s
  {
    match r
    case Unchanged => s
    case NotVisible => SquatState(s.count, NoStage)
    case KneeAngle(a) =>
      var stage := if a < SquatThresholdAngle then Down else s.stage;
      if a > StandAngle && stage == Down then
        var count := s.count - 1;
        SquatState(count, if count == 0 then Completed else Up)
      else SquatState(s.count, stage)
  }

  /** The loop ends after any tick that leaves the count at or below 0. */
  predicate Finished(s: SquatState) {
    s.count <= 0
  }

  /** The state after all of `rs`, ignoring the loop's exit. */
  function Replay(s: SquatState, rs: seq<Reading>): SquatState
    decreases |rs|
  {
    if |rs| == 0 then s else Replay(Step(s, rs[0]), rs[1..])
  }

  /** How many readings are deep knee bends. */
  function Dips(rs: seq<Reading>): nat
    decreases |rs|
  {
    if |rs| == 0 then 0
    else (if rs[0].KneeAngle? && rs[0].angle < SquatThresholdAngle then 1 else 0) + Dips(rs[1..])
  }

  function DownBit(s: SquatState): nat {
    if s.stage == Down then 1 else 0
  }

  /** Hysteresis: every credited squat is paid for by a deep knee bend
      (or by the "down" the replay started in), so noise around one
      threshold can never be credited. */
  lemma {:induction false} CreditsNeedDips(s: SquatState, rs: seq<Reading>)
    ensures s.count - Replay(s, rs).count + DownBit(Replay(s, rs)) <= Dips(rs) + DownBit(s)
    ensures Replay(s, rs).count <= s.count
    decreases |rs|
  {
    if |rs| > 0 {
      CreditsNeedDips(Step(s, rs[0]), rs[1..]);
    }
  }

  /** After a credited squat, a second straight-knee tick credits nothing. */
  lemma NoDoubleCredit(s: SquatState, a: real, b: real)
    requires s.stage == Down && a > StandAngle && b > StandAngle
    ensures Step(s, KneeAngle(a)).count == s.count - 1
    ensures Step(Step(s, KneeAngle(a)), KneeAngle(b)) == Step(s, KneeAngle(a))
  {
  }

  /** A body lost from view mid-squat cancels that squat: standing up
      afterwards is not credited. */
  lemma LostViewCancelsSquat(count: int, a: real)
    requires a > StandAngle
    ensures Replay(SquatState(count, Down), [NotVisible, KneeAngle(a)]) == SquatState(count, NoStage)
  {
    var s := SquatState(count, Down);
    var rs := [NotVisible, KneeAngle(a)];
    assert rs[1..] == [KneeAngle(a)] && rs[1..][1..] == [];
    var lost := SquatState(count, NoStage);
    assert Replay(s, rs) == Replay(lost, [KneeAngle(a)]);
    assert Replay(lost, [KneeAngle(a)]) == Replay(Step(lost, KneeAngle(a)), []);
  }

  /** The ticks the loop consumes before it ends: the ticks are processed in
      order and the loop stops right after the first one that leaves the
      count at or below 0. */
  datatype SessionEnd = SessionEnd(state: SquatState, consumed: nat)

  function Session(s: SquatState, rs: seq<Reading>): (e: SessionEnd)
    ensures e.consumed <= |rs|
    ensures e.state == Replay(s, rs[..e.consumed])
    // no tick before the last one consumed ended the loop
    ensures forall k :: 1 <= k < e.consumed ==> !Finished(Replay(s, rs[..k]))
    ensures e.consumed < |rs| ==> Finished(e.state)
    // the loop reads a frame before it first tests the count
    ensures |rs| > 0 ==> e.consumed >= 1
    decreases |rs|
  {
    if |rs| == 0 then SessionEnd(s, 0)
    else
      var t := Step(s, rs[0]);
      if Finished(t) then
        assert rs[..1][1..] == [];
        SessionEnd(t, 1)
      else
        var e := Session(t, rs[1..]);
        assert forall k :: 1 <= k <= e.consumed + 1 ==> Replay(s, rs[..k]) == Replay(t, rs[1..][..k - 1]) by {
          forall k | 1 <= k <= e.consumed + 1
            ensures Replay(s, rs[..k]) == Replay(t, rs[1..][..k - 1])
          {
            assert rs[..k][1..] == rs[1..][..k - 1];
          }
        }
        SessionEnd(e.state, e.consumed + 1)
  }

  /** From a positive count, the count moves down towards 0 and never
      passes it: when the loop ends early, it ends at exactly 0 with the
      stage "COMPLETED!". */
  lemma {:induction false} EndsAtZeroCompleted(s: SquatState, rs: seq<Reading>)
    requires s.count >= 1
    ensures 0 <= Session(s, rs).state.count <= s.count
    ensures Finished(Session(s, rs).state) ==> Session(s, rs).state == SquatState(0, Completed)
    decreases |rs|
  {
    if |rs| > 0 {
      var t := Step(s, rs[0]);
      if !Finished(t) {
        EndsAtZeroCompleted(t, rs[1..]);
      }
    }
  }

  /** n full squats, each a knee bend below 100 then a straightening above 165. */
  function Squats(n: nat, down: real, up: real): (rs: seq<Reading>)
    ensures |rs| == 2 * n
  {
    if n == 0 then [] else [KneeAngle(down), KneeAngle(up)] + Squats(n - 1, down, up)
  }

  /** Counting down from c, exactly c full squats complete the session, and
      whatever follows them is never read. */
  lemma {:induction false} FullSquatsComplete(c: nat, stage: Stage, down: real, up: real, rest: seq<Reading>)
    requires c >= 1 && down < SquatThresholdAngle && up > StandAngle
    ensures Session(SquatState(c, stage), Squats(c, down, up) + rest) == SessionEnd(SquatState(0, Completed), 2 * c)
    decreases c
  {
    var rs := Squats(c, down, up) + rest;
    assert rs[0] == KneeAngle(down) && rs[1] == KneeAngle(up);
    var mid := Step(SquatState(c, stage), KneeAngle(down));
    assert mid == SquatState(c, Down);
    var after := Step(mid, KneeAngle(up));
    assert rs[1..][0] == KneeAngle(up);
    if c == 1 {
      assert after == SquatState(0, Completed);
    } else {
      assert after == SquatState(c - 1, Up);
      assert rs[1..][1..] == Squats(c - 1, down, up) + rest;
      FullSquatsComplete(c - 1, Up, down, up, rest);
    }
  }
}
