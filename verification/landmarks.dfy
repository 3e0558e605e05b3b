/**
 The per-frame input of every trainer: the pose detector's list of body
 landmarks, indexed by the detector's joint numbers.  A frame is a plain
 sequence, so a joint the list is too short to contain is an IndexError,
 exactly as `landmarks[i]` is in the scripts.  The shared shapes of what the
 trainers make of a frame live here too: a form check's verdict, and a tick
 of the camera loop with its clock reading.
 */
module Landmarks {

  datatype Option<+T> = None | Some(value: T)

  /** The outcome of a tick whose landmark access is not guarded by `try`:
      either a value or the uncaught IndexError that ends the script. */
  datatype Result<+T> = Ok(value: T) | IndexError

  /** One detected keypoint: normalised image coordinates and the detector's
      confidence that the joint is visible. */
  datatype Landmark = Landmark(x: real, y: real, visibility: real)

  datatype Point = Point(x: real, y: real)

  type Frame = seq<Landmark>

  // Joint numbers of the pose detector's 33-landmark body model.
  const LeftShoulder: nat := 11
  const RightShoulder: nat := 12
  const LeftElbow: nat := 13
  const RightElbow: nat := 14
  const RightWrist: nat := 16
  const LeftHip: nat := 23
  const RightHip: nat := 24
  const RightKnee: nat := 26
  const RightAnkle: nat := 28

  /** What a form check reports about a frame: its verdict and the hip
      angle it measured. */
  datatype FormCheck = FormCheck(good: bool, hipAngle: real)

  /** One camera tick as a timer consumes it: what the frame was classified
      as, and the clock time `time.time()` returns during that tick. */
  datatype Tick<R> = Tick(reading: R, now: real)

  /** The clock never runs backwards over the ticks. */
  predicate MonotoneClock<R>(ticks: seq<Tick<R>>) {
    forall i, j :: 0 <= i <= j < |ticks| ==> ticks[i].now <= ticks[j].now
  }

  /** `landmarks[j]`, with the IndexError of a short list made explicit. */
  function Get(frame: Frame, j: nat): (r: Option<Landmark>)
    ensures r.Some? <==> j < |frame|
    ensures r.Some? ==> r.value == frame[j]
  {
    if j < |frame| then Some(frame[j]) else None
  }

  /** `[landmarks[j].x, landmarks[j].y]` */
  function Position(l: Landmark): Point {
    Point(l.x, l.y)
  }

  /** True iff every joint of `joints` is present in the frame. */
  predicate HasAll(frame: Frame, joints: seq<nat>) {
    forall i :: 0 <= i < |joints| ==> joints[i] < |frame|
  }

  /** True iff every joint of `joints` is present with visibility above `threshold`. */
  predicate AllSeen(frame: Frame, joints: seq<nat>, threshold: real) {
    forall i :: 0 <= i < |joints| ==> joints[i] < |frame| && frame[joints[i]].visibility > threshold
  }

  /** Python's `all(...)` over `joints` reaches a missing joint: some joint is
      absent from the frame and every joint before it passes the test, so the
      generator gets that far. */
  predicate ReachesMissing(frame: Frame, joints: seq<nat>, threshold: real) {
    exists k :: 0 <= k < |joints| && joints[k] >= |frame| && AllSeen(frame, joints[..k], threshold)
  }

  /** Python's `all(landmarks[j].visibility > threshold for j in joints)`:
      the generator stops at the first joint that fails the test, and raises
      IndexError at the first missing joint it reaches. */
  function AllAbove(frame: Frame, joints: seq<nat>, threshold: real): (r: Result<bool>)
    ensures r == Ok(true) <==> AllSeen(frame, joints, threshold)
    ensures r.IndexError? <==> ReachesMissing(frame, joints, threshold)
    ensures HasAll(frame, joints) ==> r.Ok?
    decreases |joints|
  {
    if |joints| == 0 then Ok(true)
    else if joints[0] >= |frame| then
      assert joints[..0] == [];
      IndexError
    else if frame[joints[0]].visibility <= threshold then
      assert !ReachesMissing(frame, joints, threshold) by {
        forall k | 0 < k < |joints|
          ensures !AllSeen(frame, joints[..k], threshold)
        {
          assert joints[..k][0] == joints[0];
        }
      }
      Ok(false)
    else
      var rest := AllAbove(frame, joints[1..], threshold);
      assert forall i :: 1 <= i < |joints| ==> joints[i] == joints[1..][i - 1];
      assert ReachesMissing(frame, joints, threshold) <==> ReachesMissing(frame, joints[1..], threshold) by {
        forall k | 0 < k <= |joints|
          ensures AllSeen(frame, joints[..k], threshold) <==> AllSeen(frame, joints[1..][..k - 1], threshold)
        {
          assert forall i :: 1 <= i < k ==> joints[..k][i] == joints[1..][..k - 1][i - 1];
        }
        if ReachesMissing(frame, joints, threshold) {
          var k :| 0 <= k < |joints| && joints[k] >= |frame| && AllSeen(frame, joints[..k], threshold);
          assert joints[1..][k - 1] == joints[k];
        }
        if ReachesMissing(frame, joints[1..], threshold) {
          var k :| 0 <= k < |joints[1..]| && joints[1..][k] >= |frame| && AllSeen(frame, joints[1..][..k], threshold);
          assert joints[k + 1] >= |frame|;
        }
      }
      rest
  }
}
