# Exercise engine of the webcam trainers

This project models the per-frame exercise logic of four webcam scripts:

- the plank hold trainer `plank_trainer.py`;
- the squat counter `squat_counter.py`;
- the push-up counter `pushup_counter.py`;
- the earlier 60-second plank countdown `prank.py`.

Every script reads camera frames and runs a pose detector on each one. It then
classifies the detected body landmarks and advances a small state machine once
per frame. The model keeps the classification and the state machines. It drops
the camera, the detector and the drawing.

Modules, one file each:

- `Landmarks` (`landmarks.dfy`): a frame is a sequence of landmarks
  `(x, y, visibility)`, indexed by the detector's joint numbers (right shoulder
  12, right hip 24, and so on). A list too short for a joint is the IndexError
  Python raises. Python's short-circuiting `all(...)` over visibility scores
  is modelled here.
- `Geometry` (`geometry.dfy`):
  - `calculate_angle` with its fold above 180 degrees;
  - the point-to-line test `distance_point_to_line(...) < bound`, squared on
    both sides so no square root is needed.

  The library `arctan2` is a function parameter.
- `Targets` (`targets.dfy`): the session goal, which is a base plus a penalty
  per wrong quiz answer. The wrong count is read from the command line and
  falls back to 0.
- `PlankTrainer` (`plank_trainer.dfy`): visibility and form checks, and the
  accumulate/pause/complete timer, tick by tick and over whole sessions. A
  reference definition (`Credit`) sums the gaps between consecutive good
  frames, and the timer is proved to agree with it.
- `SquatCounter` (`squat_counter.dfy`): the down/up hysteresis that counts
  down from the target. The session ends when the count reaches 0.
- `PushupCounter` (`pushup_counter.dfy`): the down/up hysteresis that counts
  up from 0, plus a form check that is only displayed.
- `Prank` (`prank.dfy`): a countdown from 60 seconds that a bad frame
  resets.

Clock reads become a caller-supplied time `now`. On the first good frame of a
hold, the plank trainer reads `time.time()` twice. The model uses one `now` for
both reads, so that frame credits exactly 0 seconds rather than the few
microseconds between the two calls. `prank.py` has the same pattern at lines
110-113 and is treated the same way.

Behaviour of the scripts that a reader might not expect:

- The push-up counter counts up from 0. It has no target and never completes.
- In `plank_trainer.py` the first good frame only starts the clock. A T-second
  target therefore needs T + 1 good frames one second apart
  (`PlankTrainer.SteadyHoldCompletesAfterTargetPlusOneTicks`).
- A landmark list too short for a joint is treated differently by each
  script:
  - `plank_trainer.py` raises IndexError only when one of the two `all`
    calls in `check_visibility` reaches a missing joint, that is, when every
    joint before it on that side passes the 0.8 test. A short list whose two
    shoulders are barely visible is reported as not visible;
  - `pushup_counter.py` dies whenever the list is too short for the right hip;
  - `squat_counter.py` swallows the exception, so the frame has no effect;
  - both `check_plank_form` functions report bad form.
- Completion ends the loop in `plank_trainer.py` and `squat_counter.py`. In
  `prank.py` it does not: the next good frame starts a new 60-second attempt
  (`Prank.CompletionNotSticky`).
- The hip-to-line test in `plank_trainer.py` has a sign error (see
  "## Findings"). `PlankTrainer.CheckPlankForm` and `PlankTrainer.Classify`
  model the test as written. `PlankTrainer.CheckPlankFormCorrected` models
  the evidently intended test.

## Model

| member | source | states |
|---|---|---|
| `Landmarks.AllAbove` | plank_trainer.py:112-115 | Python's `all` over visibility scores is true exactly when every listed joint is present with visibility above the threshold. It raises IndexError exactly when it reaches a missing joint, that is, when some joint is missing and every joint before it passes the test. It never raises when every joint is present. |
| `Geometry.FoldAngle` | plank_trainer.py:49-54 | The folded angle is at most 180. For a raw difference in [0, 360] it is at least 0 and equals the smaller of the angle and its complement to 360. |
| `Geometry.JointAngle` | plank_trainer.py:42-54 | The angle at the middle point never exceeds 180 degrees, whatever `arctan2` returns. |
| `Geometry.JointAngleInRange` | plank_trainer.py:48-54 | When `arctan2` stays in [-np.pi, np.pi], the joint angle lies in [0, 180]. |
| `Geometry.JointAngleSymmetric` | plank_trainer.py:48-49 | The angle at the vertex does not depend on which outer point is named first. |
| `Geometry.LineNormSquared` | plank_trainer.py:69 | The denominator of the distance formula, including its 1e-6 term, is always positive, so the division is always defined. |
| `Geometry.ResidualIsCross` | plank_trainer.py:65-67 | With the constant term corrected, the numerator of the distance formula is the cross product of p - a with b - a. |
| `Geometry.ResidualOnLine` | plank_trainer.py:65-67 | With the corrected constant term, every point of the line through a and b has a zero numerator. |
| `Geometry.PointOnLineIsNear` | plank_trainer.py:56-70 | Every point on the line through a and b, including the case where a equals b, passes the corrected "closer than the bound" test for any positive bound. |
| `Geometry.NearLineSymmetric` | plank_trainer.py:56-70 | The corrected distance test is the same whichever of the two line points is named first. |
| `Geometry.AsWrittenEndpointResidual` | plank_trainer.py:65-69 | As written, the numerator at the line's own endpoint a is 2(a.x b.y - b.x a.y), not 0. The corrected numerator is 0. |
| `Geometry.AsWrittenMissesPointOnLine` | plank_trainer.py:62-70 | As written, the point (0, 1) on the line through (0, 1) and (1, 1) is not within 0.05 of it. The corrected test accepts it. |
| `Targets.WrongCount` | plank_trainer.py:20-27 | The wrong count is the parsed integer, of either sign, and 0 when the argument is missing or not an integer. |
| `Targets.PlankTarget` | plank_trainer.py:18-29 | The hold target is 30 + 3n seconds for an integer argument n, and 30 otherwise. |
| `Targets.SquatTarget` | squat_counter.py:16-27 | The squat count starts at 25 + 2n for an integer argument n, and at 25 otherwise. |
| `Targets.TargetsDetermineWrongCount` | plank_trainer.py:29 | The wrong count can be read back from either target, so different counts give different goals. |
| `Targets.TargetsStrictlyIncrease` | squat_counter.py:27 | Each extra wrong answer adds at least 3 seconds and 2 squats. |
| `Targets.FallbackIsZeroPenalty` | squat_counter.py:20-24 | A missing or unparsable argument gives the same goal as an explicit 0: 30 seconds and 25 squats. |
| `PlankTrainer.CheckVisibility` | plank_trainer.py:107-117 | The upper body is visible iff the right shoulder, elbow and hip, or the left ones, all have visibility above 0.8. The check raises IndexError exactly when either `all` reaches a missing joint, and never when the list reaches the right hip. |
| `PlankTrainer.CheckPlankForm` | plank_trainer.py:56-105 | Form is good iff all of these hold: <br>- the landmarks reach the right ankle; <br>- the shoulder-hip-knee angle exceeds 160; <br>- the hip passes the distance test as written, with constant term `a.x*b.y - b.x*a.y`, below 0.05; <br>- the hip is not more than 0.05 above the shoulder. <br>A short list gives (false, 0). A good verdict carries an angle in (160, 180]. |
| `PlankTrainer.CheckPlankFormCorrected` | plank_trainer.py:56-105 | The same three criteria with the distance to the shoulder-ankle line computed correctly. A short list gives (false, 0). A good verdict carries an angle in (160, 180]. |
| `PlankTrainer.AsWrittenRejectsStraightPlank` | plank_trainer.py:65-95 | With shoulder (0.3, 0.5), hip (0.55, 0.525) on the line to ankle (0.8, 0.55), the form check as written reports bad form whatever the hip angle. The corrected check reports good form exactly when the hip angle exceeds 160. |
| `PlankTrainer.Classify` | plank_trainer.py:145-183 | No landmarks gives NoPose. The tick raises IndexError exactly when the visibility check reaches a missing joint. Otherwise: failed visibility gives NotVisible, and good form needs both visibility and the form check as written. |
| `PlankTrainer.Advance` | plank_trainer.py:140-192 | The effect of one tick: <br>- remaining time is never negative, and adds up with the accumulated time to the target; <br>- the loop exits iff the target is reached; <br>- a frame with no landmarks changes nothing; <br>- bad or unseen frames pause without losing progress; <br>- a good frame that starts the clock credits 0, and later good frames credit the time since the last good frame; <br>- completion clamps to exactly the target and stops the clock; <br>- progress never shrinks while the clock runs forward. |
| `PlankTrainer.GapWithoutPoseIsCredited` | plank_trainer.py:140-171 | A frame with no landmarks does not pause the clock, so the next good frame credits the whole gap since the last good one. |
| `PlankTrainer.CreditMonotone` | plank_trainer.py:167-171 | With a clock that never runs backwards, the reference credit is non-negative and grows with the number of ticks. |
| `PlankTrainer.ReplayMatchesCredit` | plank_trainer.py:155-189 | After any sequence of ticks, the accumulated time equals the reference credit clamped to the target. Before completion the clock runs exactly when a hold is in progress, measured from the last good frame of that hold. After completion the clock is stopped. |
| `PlankTrainer.AccumulatedNeverDecreases` | plank_trainer.py:167-189 | For a target of at least 0, the accumulated time over a session never goes down and never exceeds the target. |
| `PlankTrainer.SteadyHoldPrefixCredit` | plank_trainer.py:163-171 | k good frames one second apart earn k - 1 seconds. |
| `PlankTrainer.SteadyHoldCompletesAfterTargetPlusOneTicks` | plank_trainer.py:159-192 | A steady hold reaches a T-second target on its (T + 1)-th frame and not before. |
| `PlankTrainer.RunSession` | plank_trainer.py:121-291 | The camera loop processes ticks in order and stops right after the first tick that reaches the target. Otherwise it stops when the stream ends. Its state is the replay of exactly the ticks it consumed. |
| `SquatCounter.Classify` | squat_counter.py:79-101 | No landmarks, or a list too short for the right ankle (the swallowed exception), leave the tick without effect. Otherwise the body is visible iff the right shoulder, hip, knee and ankle all have visibility above 0.5. A visible body yields the angle at the right knee between hip and ankle, which is at most 180. |
| `SquatCounter.ClassifyDependsOnlyOnBodyJoints` | squat_counter.py:85-101 | Two frames long enough for the right ankle that agree on the right shoulder, hip, knee and ankle classify alike. |
| `SquatCounter.Step` | squat_counter.py:96-120 | The effect of one tick: <br>- an unseen body resets the stage and keeps the count; <br>- a knee angle below 100 enters "down"; <br>- angles from 100 to 165 change nothing; <br>- the count drops by exactly one iff the knee passes 165 from "down"; <br>- after a credit the stage is "up", or "COMPLETED!" when the count reaches 0. |
| `SquatCounter.CreditsNeedDips` | squat_counter.py:105-117 | Over any run the count never increases, and every squat credited is paid for by a distinct knee bend below 100. |
| `SquatCounter.NoDoubleCredit` | squat_counter.py:113-117 | After a credit, another straight-knee frame credits nothing. |
| `SquatCounter.LostViewCancelsSquat` | squat_counter.py:96-98 | A body lost from view mid-squat cancels that squat: standing up afterwards is not credited. |
| `SquatCounter.Session` | squat_counter.py:60-195 | The loop consumes ticks in order and always reads at least one, because the count is tested only after a frame is processed. No tick before the last one consumed leaves the count at or below 0. It stops early only right after a tick that does. Its state is the replay of the consumed ticks. |
| `SquatCounter.EndsAtZeroCompleted` | squat_counter.py:112-195 | From a positive count, the count over a whole session stays between 0 and where it started. Whenever the session ends because the count reached 0 or below, the count is exactly 0 and the stage is "COMPLETED!", because each credit lowers the count by one and the loop stops at the first count of 0. |
| `SquatCounter.FullSquatsComplete` | squat_counter.py:105-120 | Counting down from c, exactly c full squats end the session with count 0 and stage "COMPLETED!", and later ticks are never read. |
| `PushupCounter.Classify` | pushup_counter.py:50-88 | No landmarks gives NoPose. A list too short for the right hip raises IndexError. Otherwise the result carries the angle at the right elbow between shoulder and wrist, which is at most 180, and the right shoulder and hip heights. |
| `PushupCounter.ClassifyDependsOnlyOnArmJoints` | pushup_counter.py:60-88 | Two frames long enough for the right hip that agree on the right shoulder, elbow, wrist and hip classify alike. |
| `PushupCounter.FormCorrect` | pushup_counter.py:87-95 | The form verdict is present iff there is a pose, and is good iff the shoulder and hip heights differ by less than 0.15. |
| `PushupCounter.Step` | pushup_counter.py:76-82 | The effect of one tick: <br>- a missing pose changes nothing; <br>- an elbow below 90 enters "down" without crediting; <br>- the counter rises by exactly one iff the elbow passes 160 from "down", which leaves the stage "up"; <br>- otherwise nothing changes. |
| `PushupCounter.FormDoesNotAffectCounting` | pushup_counter.py:76-95 | The displayed form check never influences the counter or the stage. |
| `PushupCounter.CreditsNeedDips` | pushup_counter.py:76-82 | Over any run the counter never decreases, and every push-up credited is paid for by a distinct elbow bend below 90. |
| `PushupCounter.FullPushUpsCount` | pushup_counter.py:76-82 | n full push-ups add exactly n to the counter. |
| `Prank.CheckPlankForm` | prank.py:38-71 | Form is good iff the landmarks reach the right ankle, the shoulder-hip-knee angle exceeds 160, and the hip height is within 0.15 of the midpoint of shoulder and ankle heights. A short list gives (false, 0). A good verdict carries an angle in (160, 180]. |
| `Prank.Classify` | prank.py:95-99 | A frame without landmarks is NoPose. Otherwise the verdict is good iff the form check passes. |
| `Prank.Advance` | prank.py:91-127 | The effect of one tick: <br>- no landmarks shows 60 and keeps the attempt; <br>- a bad frame discards the attempt and shows 60; <br>- a good frame starts an attempt now if none is running; <br>- during an attempt it shows 60 minus the elapsed time, which lies in [0, 60]; <br>- when nothing is left it ends the attempt as completed, showing 0. |
| `Prank.CompletionNotSticky` | prank.py:107-120 | The good frame after a completion starts a fresh 60-second attempt. |
| `Prank.UnbrokenAttempt` | prank.py:104-114 | An attempt that no bad frame interrupts keeps its start at its first good frame until its 60 seconds run out. Frames with no landmarks do not interrupt it. |
| `Prank.CountdownMeasuresFromAttemptStart` | prank.py:104-127 | After a reset, the countdown shown on a good frame of the next unbroken attempt is 60 minus the time since that attempt's first good frame, floored at 0. |

## Left out

- Camera capture, colour conversion, drawing, text layout, window display and the quit key: these are I/O and user interface. The exit after the 2-second "COMPLETED!" display is modelled only as the loop ending.
- The pose detector: its output is the input frame, or no pose.
- `np.arctan2`: it is a floating-point library call, so it is a function parameter. The square root in the distance formula is replaced by comparing squares, which over the reals decides the same comparison.
- Floating point: coordinates, angles and times are mathematical reals, so rounding is not modelled. `np.pi` is the exact value of its double, 3.141592653589793115997963468544185161590576171875. A real-valued `arctan2` can return values that a double cannot, so `Geometry.JointAngle` alone does not rule out a slightly negative angle; `Geometry.JointAngleInRange` does, for any `arctan2` within [-np.pi, np.pi].
- `time.time()`: each tick's clock reading is a parameter `now`. The two reads on a plank's first good frame are one reading (see above).
- The displayed values that feed no decision: the timer's minutes and seconds formatting, `int(remaining_time)`, the hip angle text and the colours.
- `demo.py`: the quiz GUI, the HTTP client, spreadsheet loading, answer normalisation and the subprocess launch are user interface and foreign calls. It also starts the trainers without a wrong-count argument (demo.py:435), so every session it launches uses the base goal (`Targets.FallbackIsZeroPenalty`).
- Command-line parsing: it is reduced to three outcomes: no argument, a token `int()` rejects, or an integer.
- Geometry.JointAngle: its contract gives only the upper bound of 180. The lower bound 0 depends on the range of `arctan2`, so it is stated separately by `Geometry.JointAngleInRange` under that assumption.
- PlankTrainer.ReplayMatchesCredit: it requires a target of at least 0. A wrong count of -11 or less gives a negative target, and the session then ends on its first tick (`PlankTrainer.Advance` covers that tick).
- PlankTrainer.AccumulatedNeverDecreases: it requires a target of at least 0. With a negative target, the first tick that has landmarks and does not raise IndexError completes the session and sets the accumulated time to the negative target, which is below the starting 0.
- SquatCounter.EndsAtZeroCompleted: it requires a starting count of at least 1. A wrong count of -13 or less gives a target of 0 or less. The loop then ends after its first tick, with that count or one less.

## Findings

| source | as written | input that shows it | evidently intended | confidence | as-written member | corrected member |
|---|---|---|---|---|---|---|
| plank_trainer.py:67 | The constant term of the line through a and b is `C = a.x*b.y - b.x*a.y`. The numerator then equals the true residual plus 2(a.x b.y - b.x a.y), so a point on the line is judged off it by twice the line's distance from the image origin. | p = a = (0, 1), b = (1, 1): the numerator is -2, so the distance is about 2, not 0, and the hip check with bound 0.05 fails. | `C = b.x*a.y - a.x*b.y`, which makes A x + B y + C vanish at a and at b. The hip check then measures the distance to the shoulder-ankle line. | high; not executed | `PlankTrainer.AsWrittenRejectsStraightPlank` | `Geometry.PointOnLineIsNear` |

With the constant as written, a typical side-view plank fails the test. For example, with shoulder (0.3, 0.5) and ankle (0.8, 0.55), a hip at the midpoint of the line is judged about 0.94 away from it, so the plank trainer rejects every plank whose body line is more than about 0.025 from the image origin (`PlankTrainer.AsWrittenRejectsStraightPlank`). `Geometry.AsWrittenMissesPointOnLine` shows the same effect on the bare distance test. `PlankTrainer.CheckPlankForm` keeps the constant as written. `PlankTrainer.CheckPlankFormCorrected` and `Geometry.NearLine` use the corrected one.
