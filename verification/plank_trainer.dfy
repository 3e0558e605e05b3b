/**
 The plank hold trainer: time spent in good plank form accumulates tick by
 tick toward a target; a bad or unseen frame pauses the clock without losing
 progress, and the session ends once the target is reached.
 */
module PlankTrainer {
  import opened Landmarks
  import opened Geometry

  const VisibilityThreshold: real := 0.8
  const HipAngleMin: real := 160.0
  const YOffsetMaxLine: real := 0.05

  const RightUpperBody: seq<nat> := [RightShoulder, RightElbow, RightHip]
  const LeftUpperBody: seq<nat> := [LeftShoulder, LeftElbow, LeftHip]

  // ---------------------------------------------------------------------
  // Classification of one frame
  // ---------------------------------------------------------------------

  /** `check_visibility`: the right-side or the left-side shoulder, elbow and
      hip all seen with confidence above 0.8.  The check is not guarded, so
      either `all` reaching a joint the landmark list is too short for raises
      IndexError out of the tick. */
  function CheckVisibility(frame: Frame): (r: Result<bool>)
    ensures r.Ok? ==> (r.value <==> AllSeen(frame, RightUpperBody, 0.8) || AllSeen(frame, LeftUpperBody, 0.8))
    ensures r.IndexError? <==>
      ReachesMissing(frame, RightUpperBody, 0.8) || ReachesMissing(frame, LeftUpperBody, 0.8)
    ensures RightHip < |frame| ==> r.Ok?
  {
    var right := AllAbove(frame, RightUpperBody, VisibilityThreshold);
    var left := AllAbove(frame, LeftUpperBody, VisibilityThreshold);
    if right.IndexError? || left.IndexError? then IndexError
    else Ok(right.value || left.value)
  }

  /** The three plank criteria on right-side shoulder, hip, knee and ankle,
      with the hip-to-line test as `distance_point_to_line` computes it:
      shoulder-hip-knee nearly straight, the hip's distance from the
      shoulder-ankle line below 0.05, and the hip not raised above the
      shoulder by more than 0.05 (image y grows downwards). */
  predicate GoodPlank(atan2: (real, real) -> real, shoulder: Point, hip: Point, knee: Point, ankle: Point) {
    && JointAngle(atan2, shoulder, hip, knee) > HipAngleMin
    && NearLineAsWritten(hip, shoulder, ankle, YOffsetMaxLine)
    && hip.y > shoulder.y - YOffsetMaxLine
  }

  /** The same criteria with the line's constant term corrected, so that the
      distance test measures the distance to the shoulder-ankle line. */
  predicate GoodPlankCorrected(atan2: (real, real) -> real, shoulder: Point, hip: Point, knee: Point, ankle: Point) {
    && JointAngle(atan2, shoulder, hip, knee) > HipAngleMin
    && NearLine(hip, shoulder, ankle, YOffsetMaxLine)
    && hip.y > shoulder.y - YOffsetMaxLine
  }

  /** `check_plank_form`: good iff all three criteria hold, reported with the
      hip angle; a missing landmark is caught and reported as (False, 0). */
  function CheckPlankForm(frame: Frame, atan2: (real, real) -> real): (r: FormCheck)
    ensures |frame| <= RightAnkle ==> r == FormCheck(false, 0.0)
    ensures r.good <==>
      && RightAnkle < |frame|
      && GoodPlank(atan2, Position(frame[RightShoulder]), Position(frame[RightHip]),
                   Position(frame[RightKnee]), Position(frame[RightAnkle]))
    ensures r.good ==> HipAngleMin < r.hipAngle <= 180.0
  {
    match (Get(frame, RightShoulder), Get(frame, RightHip), Get(frame, RightKnee), Get(frame, RightAnkle))
    case (Some(s), Some(h), Some(k), Some(a)) =>
      var shoulder, hip, knee, ankle := Position(s), Position(h), Position(k), Position(a);
      var hipAngle := JointAngle(atan2, shoulder, hip, knee);
      FormCheck(GoodPlank(atan2, shoulder, hip, knee, ankle), hipAngle)
    case _ => FormCheck(false, 0.0)
  }

  /** `check_plank_form` with the corrected distance test. */
  function CheckPlankFormCorrected(frame: Frame, atan2: (real, real) -> real): (r: FormCheck)
    ensures |frame| <= RightAnkle ==> r == FormCheck(false, 0.0)
    ensures r.good <==>
      && RightAnkle < |frame|
      && GoodPlankCorrected(atan2, Position(frame[RightShoulder]), Position(frame[RightHip]),
                            Position(frame[RightKnee]), Position(frame[RightAnkle]))
    ensures r.good ==> HipAngleMin < r.hipAngle <= 180.0
  {
    match (Get(frame, RightShoulder), Get(frame, RightHip), Get(frame, RightKnee), Get(frame, RightAnkle))
    case (Some(s), Some(h), Some(k), Some(a)) =>
      var shoulder, hip, knee, ankle := Position(s), Position(h), Position(k), Position(a);
      var hipAngle := JointAngle(atan2, shoulder, hip, knee);
      FormCheck(GoodPlankCorrected(atan2, shoulder, hip, knee, ankle), hipAngle)
    case _ => FormCheck(false, 0.0)
  }

  /** With the hip on the shoulder-ankle line, the corrected check needs only
      the hip angle.  The check as written measures such a hip at about twice
      the line's distance from the image origin, so it rejects every plank
      whose body line is more than about 0.025 from the origin.  Here:
      shoulder (0.3, 0.5), hip (0.55, 0.525), ankle (0.8, 0.55), a line whose
      as-written distance from its own midpoint is about 0.94. */
  lemma AsWrittenRejectsStraightPlank(frame: Frame, atan2: (real, real) -> real)
    requires RightAnkle < |frame|
    requires Position(frame[RightShoulder]) == Point(0.3, 0.5)
    requires Position(frame[RightHip]) == Point(0.55, 0.525)
    requires Position(frame[RightAnkle]) == Point(0.8, 0.55)
    ensures !CheckPlankForm(frame, atan2).good
    ensures CheckPlankFormCorrected(frame, atan2).good <==>
      JointAngle(atan2, Point(0.3, 0.5), Point(0.55, 0.525), Position(frame[RightKnee])) > HipAngleMin
  {
    var shoulder, hip, ankle := Point(0.3, 0.5), Point(0.55, 0.525), Point(0.8, 0.55);
    assert hip == Along(shoulder, ankle, 0.5);
    PointOnLineIsNear(shoulder, ankle, 0.5, YOffsetMaxLine);
    assert ResidualAsWritten(hip, shoulder, ankle) == -0.47;
    assert LineNormSquared(shoulder, ankle) == 0.252501;
    assert !RatioBelow(-0.47, YOffsetMaxLine, 0.252501);
  }

  /** What one tick of the camera loop sees: no pose at all, a pose whose
      upper body is not visible, a visible pose in bad form, or good form. */
  datatype Reading = NoPose | NotVisible | BadForm | GoodForm

  /** The classification part of one loop iteration (`pose` is None when the
      detector found no landmarks), with the form check as written. */
  function Classify(pose: Option<Frame>, atan2: (real, real) -> real): (r: Result<Reading>)
    ensures pose.None? <==> r == Ok(NoPose)
    // the tick dies exactly when the visibility check raises
    ensures r.IndexError? <==>
      pose.Some? && (ReachesMissing(pose.value, RightUpperBody, 0.8) || ReachesMissing(pose.value, LeftUpperBody, 0.8))
    ensures pose.Some? && RightHip < |pose.value| ==> r.Ok?
    ensures r == Ok(GoodForm) <==>
      pose.Some? && CheckVisibility(pose.value) == Ok(true) && CheckPlankForm(pose.value, atan2).good
    ensures r == Ok(NotVisible) <==> pose.Some? && CheckVisibility(pose.value) == Ok(false)
  {
    match pose
    case None => Ok(NoPose)
    case Some(frame) =>
      match CheckVisibility(frame)
      case IndexError => IndexError
      case Ok(visible) =>
        if !visible then Ok(NotVisible)
        else if CheckPlankForm(frame, atan2).good then Ok(GoodForm)
        else Ok(BadForm)
  }

  // ---------------------------------------------------------------------
  // The hold timer
  // ---------------------------------------------------------------------

  /** `plank_time_accumulated`, `last_good_form_time`, `is_counting`. */
  datatype PlankState = PlankState(accumulated: real, lastGood: Option<real>, counting: bool)

  const Start: PlankState := PlankState(0.0, None, false)

  /** While the clock runs it has a time to measure from. */
  predicate Valid(s: PlankState) {
    s.counting ==> s.lastGood.Some?
  }

  /** The form label the trainer displays for a tick. */
  datatype Status = NotDetected | Good | BadFormAdjustView | CannotSeeBody | Completed

  /** The outcome of one tick: the new state, the label, the remaining time
      shown, and whether the loop ends after this tick. */
  datatype PlankTick = PlankTick(state: PlankState, status: Status, remaining: real, exit: bool)

  /** The state after the form and visibility branch, before the completion check. */
  function Track(s: PlankState, r: Reading, now: real): (s': PlankState)
    requires Valid(s)
    requires r != NoPose
  {
    match r
    case GoodForm =>
      var since := if s.counting then s.lastGood.value else now;
      PlankState(s.accumulated + (now - since), Some(now), true)
    case _ => PlankState(s.accumulated, None, false)
  }

  /** One iteration of the camera loop at clock time `now`, for a hold
      target of `target` seconds. */
  function Advance(s: PlankState, target: int, r: Reading, now: real): (t: PlankTick)
    requires Valid(s)
    ensures Valid(t.state)
    // the remaining time is what is still missing of the target, never negative
    ensures t.remaining >= 0.0
    ensures t.remaining == 0.0 <==> t.state.accumulated >= target as real
    ensures t.remaining > 0.0 ==> t.state.accumulated + t.remaining == target as real
    ensures t.exit <==> t.state.accumulated >= target as real
    // no landmarks: nothing changes
    ensures r == NoPose ==> t.state == s && t.status == NotDetected
    // completion clamps to the target and stops the clock
    ensures r != NoPose ==> (t.status == Completed <==> t.state.accumulated >= target as real)
    ensures t.status == Completed ==> t.state.accumulated == target as real && !t.state.counting
    // once the target is reached, any frame with landmarks holds it there
    ensures r != NoPose && !s.counting && s.accumulated >= target as real ==>
      t.state.accumulated == target as real && !t.state.counting
    // a pause keeps the progress made so far
    ensures (r == BadForm || r == NotVisible) && s.accumulated < target as real ==>
      && t.state == PlankState(s.accumulated, None, false)
      && t.status == (if r == BadForm then BadFormAdjustView else CannotSeeBody)
    // a Good tick that (re)starts the clock credits nothing
    ensures r == GoodForm && !s.counting && s.accumulated < target as real ==>
      t.state == PlankState(s.accumulated, Some(now), true) && t.status == Good
    // a Good tick while counting credits the time since the last Good tick
    ensures r == GoodForm && s.counting ==>
      var gained := s.accumulated + (now - s.lastGood.value);
      if gained < target as real
      then t.state == PlankState(gained, Some(now), true) && t.status == Good
      else t.state == PlankState(target as real, Some(now), false) && t.status == Completed
    // with a clock that does not run backwards, progress toward the target never shrinks
    ensures s.accumulated < target as real && (s.counting ==> s.lastGood.value <= now) ==>
      s.accumulated <= t.state.accumulated
  {
    if r == NoPose then
      var remaining := Max(0.0, target as real - s.accumulated);
      PlankTick(s, NotDetected, remaining, remaining <= 0.0)
    else
      var s1 := Track(s, r, now);
      var shown :=
        if r == GoodForm then Good
        else if r == BadForm then BadFormAdjustView
        else CannotSeeBody;
      var done := s1.accumulated >= target as real;
      var s2 := if done then PlankState(target as real, s1.lastGood, false) else s1;
      var remaining := Max(0.0, target as real - s2.accumulated);
      PlankTick(s2, if done then Completed else shown, remaining, remaining <= 0.0 || done)
  }

  // ---------------------------------------------------------------------
  // Whole sessions
  // ---------------------------------------------------------------------

  /** The state after the first `n` ticks, starting from the initial state. */
  function Replay(target: int, ticks: seq<Tick<Reading>>, n: nat): (s: PlankState)
    requires n <= |ticks|
    ensures Valid(s)
  {
    if n == 0 then Start
    else
      var prev := Replay(target, ticks, n - 1);
      Advance(prev, target, ticks[n - 1].reading, ticks[n - 1].now).state
  }

  /** Reference view of the hold: the index of the Good tick that the tick
      at `j` continues from.  Scanning back from tick j - 1, ticks with no
      pose are skipped, a Good tick is the answer, and a bad or unseen tick
      means there is no hold in progress. */
  function HoldStart(ticks: seq<Tick<Reading>>, j: nat): (h: Option<nat>)
    requires j <= |ticks|
    ensures h.Some? ==> h.value < j && ticks[h.value].reading == GoodForm
  {
    if j == 0 then None
    else match ticks[j - 1].reading
      case NoPose => HoldStart(ticks, j - 1)
      case GoodForm => Some(j - 1)
      case _ => None
  }

  /** What the tick at `j` adds to the hold: the time since the Good tick it
      continues from, if it is a Good tick continuing one. */
  function Gain(ticks: seq<Tick<Reading>>, j: nat): real
    requires j < |ticks|
  {
    match HoldStart(ticks, j)
    case Some(h) => if ticks[j].reading == GoodForm then ticks[j].now - ticks[h].now else 0.0
    case None => 0.0
  }

  /** The total good-form time of the first `n` ticks: the sum of the time
      differences between consecutive Good ticks that no bad or unseen tick
      separates. */
  function Credit(ticks: seq<Tick<Reading>>, n: nat): real
    requires n <= |ticks|
  {
    if n == 0 then 0.0 else Credit(ticks, n - 1) + Gain(ticks, n - 1)
  }

  lemma {:induction false} GainNonNegative(ticks: seq<Tick<Reading>>, j: nat)
    requires j < |ticks| && MonotoneClock(ticks)
    ensures Gain(ticks, j) >= 0.0
  {
    match HoldStart(ticks, j)
    case Some(h) =>
      assert ticks[h].now <= ticks[j].now;
    case None =>
  }

  lemma {:induction false} CreditMonotone(ticks: seq<Tick<Reading>>, m: nat, n: nat)
    requires m <= n <= |ticks| && MonotoneClock(ticks)
    ensures 0.0 <= Credit(ticks, m) <= Credit(ticks, n)
    decreases n, n - m
  {
    if n == 0 {
    } else if m == n {
      CreditMonotone(ticks, n - 1, n - 1);
      GainNonNegative(ticks, n - 1);
    } else {
      CreditMonotone(ticks, m, n - 1);
      GainNonNegative(ticks, n - 1);
    }
  }

  /** The timer agrees with the reference view: the accumulated time is the
      good-form time credited so far, clamped to the target; while the target
      is not reached the clock is running exactly when a hold is in progress,
      measuring from that hold's latest Good tick; once it is reached the
      clock is stopped. */
  lemma {:induction false} ReplayMatchesCredit(target: int, ticks: seq<Tick<Reading>>, n: nat)
    requires target >= 0 && n <= |ticks| && MonotoneClock(ticks)
    ensures Replay(target, ticks, n).accumulated == Min(target as real, Credit(ticks, n))
    ensures Credit(ticks, n) < target as real ==>
      var s := Replay(target, ticks, n);
      && (s.counting <==> HoldStart(ticks, n).Some?)
      && (s.counting ==> s.lastGood == Some(ticks[HoldStart(ticks, n).value].now))
    ensures Credit(ticks, n) >= target as real ==> !Replay(target, ticks, n).counting
  {
    if n == 0 {
      return;
    }
    ReplayMatchesCredit(target, ticks, n - 1);
    CreditMonotone(ticks, n - 1, n);
    GainNonNegative(ticks, n - 1);
    var s := Replay(target, ticks, n - 1);
    var t := ticks[n - 1];
    if Credit(ticks, n - 1) >= target as real {
      assert s.accumulated == target as real && !s.counting;
    } else {
      match t.reading {
        case NoPose =>
          assert HoldStart(ticks, n) == HoldStart(ticks, n - 1);
        case GoodForm =>
          assert HoldStart(ticks, n) == Some(n - 1);
          match HoldStart(ticks, n - 1) {
            case Some(h) =>
              assert ticks[h].now <= t.now;
            case None =>
          }
        case _ =>
      }
    }
  }

  /** Ticks with no landmarks do not pause the clock: a Good tick after them
      credits the whole gap since the last Good tick. */
  lemma GapWithoutPoseIsCredited(s: PlankState, target: int, t1: real, t2: real)
    requires Valid(s) && s.counting && s.accumulated + (t2 - s.lastGood.value) < target as real
    ensures Advance(Advance(s, target, NoPose, t1).state, target, GoodForm, t2).state
         == PlankState(s.accumulated + (t2 - s.lastGood.value), Some(t2), true)
  {
  }

  /** Over any session, the accumulated time never goes down. */
  lemma AccumulatedNeverDecreases(target: int, ticks: seq<Tick<Reading>>, m: nat, n: nat)
    requires target >= 0 && m <= n <= |ticks| && MonotoneClock(ticks)
    ensures Replay(target, ticks, m).accumulated <= Replay(target, ticks, n).accumulated
    ensures Replay(target, ticks, n).accumulated <= target as real
  {
    ReplayMatchesCredit(target, ticks, m);
    ReplayMatchesCredit(target, ticks, n);
    CreditMonotone(ticks, m, n);
  }

  /** Good form held without a break, one tick per second from `t0`. */
  function SteadyHold(t0: real, n: nat): (ticks: seq<Tick<Reading>>)
    ensures |ticks| == n
    ensures forall i :: 0 <= i < n ==> ticks[i] == Tick(GoodForm, t0 + i as real)
  {
    seq(n, i => Tick(GoodForm, t0 + i as real))
  }

  /** The first k of n Good ticks one second apart earn k - 1 seconds: the
      first tick only starts the clock. */
  lemma {:induction false} SteadyHoldPrefixCredit(t0: real, n: nat, k: nat)
    requires 1 <= k <= n
    ensures Credit(SteadyHold(t0, n), k) == (k - 1) as real
    decreases k
  {
    var ticks := SteadyHold(t0, n);
    if k == 1 {
      assert HoldStart(ticks, 0) == None;
    } else {
      SteadyHoldPrefixCredit(t0, n, k - 1);
      assert HoldStart(ticks, k - 1) == Some(k - 2);
      assert Gain(ticks, k - 1) == 1.0;
    }
  }

  lemma SteadyHoldMonotone(t0: real, n: nat)
    ensures MonotoneClock(SteadyHold(t0, n))
  {
    var ticks := SteadyHold(t0, n);
    forall i, j | 0 <= i <= j < n
      ensures ticks[i].now <= ticks[j].now
    {
      assert ticks[i].now == t0 + i as real && ticks[j].now == t0 + j as real;
    }
  }

  /** A target of T seconds held steadily at one tick per second is reached
      on the (T + 1)-th tick and not before. */
  lemma SteadyHoldCompletesAfterTargetPlusOneTicks(t0: real, target: nat)
    ensures Replay(target, SteadyHold(t0, target + 1), target + 1).accumulated == target as real
    ensures target > 0 ==> Replay(target, SteadyHold(t0, target + 1), target).accumulated < target as real
  {
    var ticks := SteadyHold(t0, target + 1);
    SteadyHoldMonotone(t0, target + 1);
    SteadyHoldPrefixCredit(t0, target + 1, target + 1);
    ReplayMatchesCredit(target, ticks, target + 1);
    if target > 0 {
      SteadyHoldPrefixCredit(t0, target + 1, target);
      ReplayMatchesCredit(target, ticks, target);
    }
  }

  /** The tick at index k (0-based) ends the loop. */
  predicate ExitsAt(target: int, ticks: seq<Tick<Reading>>, k: nat)
    requires k < |ticks|
  {
    Advance(Replay(target, ticks, k), target, ticks[k].reading, ticks[k].now).exit
  }

  /** The camera loop: ticks are consumed until one ends the session (or the
      stream ends).  `consumed` ticks were processed, the last of them ended
      the session when `finished` holds, and none before it did. */
  method RunSession(target: int, ticks: seq<Tick<Reading>>) returns (s: PlankState, consumed: nat, finished: bool)
    ensures consumed <= |ticks|
    ensures s == Replay(target, ticks, consumed)
    ensures forall k :: 0 <= k < consumed - 1 ==> !ExitsAt(target, ticks, k)
    ensures finished ==> consumed >= 1 && ExitsAt(target, ticks, consumed - 1)
    ensures finished <==> s.accumulated >= target as real && consumed >= 1
    ensures !finished ==> consumed == |ticks|
  {
    s := Start;
    consumed := 0;
    finished := false;
    while consumed < |ticks| && !finished
      invariant consumed <= |ticks|
      invariant s == Replay(target, ticks, consumed)
      invariant forall k :: 0 <= k < consumed - 1 ==> !ExitsAt(target, ticks, k)
      invariant finished ==> consumed >= 1 && ExitsAt(target, ticks, consumed - 1)
      invariant !finished && consumed >= 1 ==> !ExitsAt(target, ticks, consumed - 1)
      invariant finished <==> s.accumulated >= target as real && consumed >= 1
    {
      var t := Advance(s, target, ticks[consumed].reading, ticks[consumed].now);
      s := t.state;
      consumed := consumed + 1;
      finished := t.exit;
    }
  }
}
