/**
 The earlier plank countdown: good form must be held for 60 seconds in one
 unbroken attempt; a bad-form frame throws the countdown back to 60 seconds.
 */
module Prank {
  import opened Landmarks
  import opened Geometry

  const TargetSeconds: real := 60.0
  const HipAngleMin: real := 160.0
  const YOffsetMax: real := 0.15

  /** The two criteria on right-side shoulder, hip, knee and ankle:
      shoulder-hip-knee nearly straight, and the hip height within 0.15 of
      the midpoint of shoulder and ankle heights. */
  predicate GoodPlank(atan2: (real, real) -> real, shoulder: Point, hip: Point, knee: Point, ankle: Point) {
    && JointAngle(atan2, shoulder, hip, knee) > HipAngleMin
    && Abs(hip.y - (shoulder.y + ankle.y) / 2.0) < YOffsetMax
  }

  /** `check_plank_form`: good iff both criteria hold, reported with the hip
      angle; a missing landmark is caught and reported as (False, 0). */
  function CheckPlankForm(frame: Frame, atan2: (real, real) -> real): (r: FormCheck)
    ensures |frame| <= RightAnkle ==> r == FormCheck(false, 0.0)
    ensures r.good <==>
      && RightAnkle < |frame|
      && GoodPlank(atan2, Position(frame[RightShoulder]), Position(frame[RightHip]),
                   Position(frame[RightKnee]), Position(frame[RightAnkle]))
    ensures r.good ==> HipAngleMin < r.hipAngle <= 180.0
  {
    match (Get(frame, RightShoulder), Get(frame, RightHip), Get(frame, RightKnee), Get(frame, RightAnkle))
    case (Some(s), Some(h), Some(k), Some(a)) =>
      var shoulder, hip, knee, ankle := Position(s), Position(h), Position(k), Position(a);
      FormCheck(GoodPlank(atan2, shoulder, hip, knee, ankle), JointAngle(atan2, shoulder, hip, knee))
    case _ => FormCheck(false, 0.0)
  }

  /** What one tick sees: no landmarks, or the form verdict of a pose. */
  datatype Reading = NoPose | Form(good: bool)

  function Classify(pose: Option<Frame>, atan2: (real, real) -> real): (r: Reading)
    ensures pose.None? <==> r == NoPose
    ensures r == Form(true) <==> pose.Some? && CheckPlankForm(pose.value, atan2).good
  {
    match pose
    case None => NoPose
    case Some(frame) => Form(CheckPlankForm(frame, atan2).good)
  }

  /** `plank_active` and `start_time`. */
  datatype PrankState = PrankState(active: bool, start: Option<real>)

  const Start: PrankState := PrankState(false, None)

  /** An active attempt has a start time. */
  predicate Valid(s: PrankState) {
    s.active ==> s.start.Some?
  }

  datatype Status = NotDetected | Good | BadFormReset | Completed

  /** The outcome of one tick: the new state, the label shown and the
      remaining seconds shown. */
  datatype PrankTick = PrankTick(state: PrankState, status: Status, remaining: real)

  /** One iteration of the camera loop at clock time `now`. */
  function Advance(s: PrankState, r: Reading, now: real): (t: PrankTick)
    requires Valid(s)
    ensures Valid(t.state)
    ensures t.remaining >= 0.0
    // no landmarks: the full 60 seconds are shown and the attempt is kept
    ensures r == NoPose ==> t == PrankTick(s, NotDetected, TargetSeconds)
    // bad form throws all progress away
    ensures r == Form(false) ==> t == PrankTick(PrankState(false, None), BadFormReset, TargetSeconds)
    // good form with no attempt running starts one now
    ensures r == Form(true) && !s.active ==> t == PrankTick(PrankState(true, Some(now)), Good, TargetSeconds)
    // good form during an attempt shows what is left of the 60 seconds, and
    // ends the attempt as completed when nothing is left
    ensures r == Form(true) && s.active ==>
      var elapsed := now - s.start.value;
      if elapsed < TargetSeconds then t == PrankTick(s, Good, TargetSeconds - elapsed)
      else t == PrankTick(PrankState(false, s.start), Completed, 0.0)
    ensures s.active && s.start.value <= now ==> t.remaining <= TargetSeconds
  {
    match r
    case NoPose => PrankTick(s, NotDetected, TargetSeconds)
    case Form(false) => PrankTick(PrankState(false, None), BadFormReset, TargetSeconds)
    case Form(true) =>
      var s1 := if !s.active then PrankState(true, Some(now)) else s;
      var elapsed := now - s1.start.value;
      var remaining := Max(0.0, TargetSeconds - elapsed);
      if remaining <= 0.0 then PrankTick(PrankState(false, s1.start), Completed, 0.0)
      else PrankTick(s1, Good, remaining)
  }

  /** Completion is not sticky: the attempt is over, so the next good frame
      starts a fresh 60-second attempt. */
  lemma CompletionNotSticky(s: PrankState, now1: real, now2: real)
    requires s.active && s.start.Some? && now1 - s.start.value >= TargetSeconds
    ensures Advance(s, Form(true), now1).status == Completed
    ensures Advance(Advance(s, Form(true), now1).state, Form(true), now2)
         == PrankTick(PrankState(true, Some(now2)), Good, TargetSeconds)
  {
  }

  /** The state after the first `n` ticks, from `s`. */
  function Replay(s: PrankState, ticks: seq<Tick<Reading>>, n: nat): (s': PrankState)
    requires Valid(s) && n <= |ticks|
    ensures Valid(s')
  {
    if n == 0 then s
    else Advance(Replay(s, ticks, n - 1), ticks[n - 1].reading, ticks[n - 1].now).state
  }

  /** An attempt that starts at the first tick and is never broken by bad
      form keeps measuring from that first tick, as long as its 60 seconds
      have not run out: frames with no landmarks in between change nothing. */
  lemma {:induction false} UnbrokenAttempt(s: PrankState, ticks: seq<Tick<Reading>>, n: nat)
    requires Valid(s) && !s.active
    requires 1 <= n <= |ticks| && ticks[0].reading == Form(true)
    requires forall k :: 0 <= k < n ==> ticks[k].reading != Form(false)
    requires forall k :: 0 <= k < n ==> ticks[0].now <= ticks[k].now < ticks[0].now + TargetSeconds
    ensures Replay(s, ticks, n) == PrankState(true, Some(ticks[0].now))
    decreases n
  {
    if n > 1 {
      UnbrokenAttempt(s, ticks, n - 1);
      assert ticks[n - 1].reading != Form(false);
    }
  }

  /** After any history, once the attempt is reset (by a bad frame or at
      start-up), the countdown shown during the next unbroken attempt is
      60 seconds minus the time since that attempt's first good frame. */
  lemma CountdownMeasuresFromAttemptStart(s: PrankState, ticks: seq<Tick<Reading>>, n: nat)
    requires Valid(s) && !s.active
    requires 1 <= n < |ticks| && ticks[0].reading == Form(true) && ticks[n].reading == Form(true)
    requires forall k :: 0 <= k < n ==> ticks[k].reading != Form(false)
    requires MonotoneClock(ticks)
    requires ticks[n - 1].now < ticks[0].now + TargetSeconds
    ensures Advance(Replay(s, ticks, n), ticks[n].reading, ticks[n].now).remaining
         == Max(0.0, TargetSeconds - (ticks[n].now - ticks[0].now))
  {
    forall k | 0 <= k < n
      ensures ticks[0].now <= ticks[k].now < ticks[0].now + TargetSeconds
    {
      assert ticks[k].now <= ticks[n - 1].now;
    }
    UnbrokenAttempt(s, ticks, n);
  }
}
