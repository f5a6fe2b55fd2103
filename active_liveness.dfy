/**
 * Active behavioural liveness over a video: blinks, head movement, head
 * jitter and mouth movement, folded into a confidence score. The face mesh,
 * eye aspect ratio, Euclidean norms and standard deviation are computed
 * outside the model and passed in.
 */
module ActiveLiveness {
  import opened Types
  import opened VideoProcessing
  import opened Stats

  const EAR_THRESHOLD: real := 0.20
  const BLINK_MIN_FRAMES: nat := 2
  const MIN_CONFIDENCE_SCORE: real := 0.4
  const MAX_FRAMES: nat := 180
  const NOSE_HISTORY: nat := 20
  const MIN_SAMPLES: nat := 5

  datatype Point = Point(x: real, y: real)

  /** What the face mesh gives for a frame with a face: the mean eye aspect ratio of both eyes, the nose tip, the mouth opening. */
  datatype Landmarks = Landmarks(ear: real, nose: Point, mouthOpen: real)

  /** The Euclidean distance of two points and the standard deviation of a list. */
  datatype Numerics = Numerics(dist: (Point, Point) -> real, std: seq<real> -> real)

  /** The dictionary `active_liveness_from_video` returns: an error, or the measurements. */
  datatype ActiveResult =
    | ActiveError(error: string)
    | Measured(isLive: bool, confidence: real, blinkCount: nat, headMovement: real,
               jitter: real, mouthVariance: real, framesProcessed: nat)

  predicate Closed(ear: real)
  {
    ear < EAR_THRESHOLD
  }

  /** The landmarks of the frames in which a face was found, in order. */
  function Faced(frames: seq<Frame>, mesh: Frame -> Option<Landmarks>): (faced: seq<Landmarks>)
    ensures |faced| <= |frames|
  {
    if frames == [] then []
    else
      var init := Faced(frames[..|frames| - 1], mesh);
      match mesh(frames[|frames| - 1])
      case None => init
      case Some(lm) => init + [lm]
  }

  function Ears(ls: seq<Landmarks>): (ears: seq<real>)
    ensures |ears| == |ls|
  {
    if ls == [] then [] else Ears(ls[..|ls| - 1]) + [ls[|ls| - 1].ear]
  }

  function Noses(ls: seq<Landmarks>): (noses: seq<Point>)
    ensures |noses| == |ls|
  {
    if ls == [] then [] else Noses(ls[..|ls| - 1]) + [ls[|ls| - 1].nose]
  }

  function Mouths(ls: seq<Landmarks>): (mouths: seq<real>)
    ensures |mouths| == |ls|
  {
    if ls == [] then [] else Mouths(ls[..|ls| - 1]) + [ls[|ls| - 1].mouthOpen]
  }

  /** The length of the run of closed-eye frames at the end of `ears`: the value of `blink_counter`. */
  function TrailingClosed(ears: seq<real>): nat
  {
    if ears == [] || !Closed(ears[|ears| - 1]) then 0 else TrailingClosed(ears[..|ears| - 1]) + 1
  }

  /** A blink ends at `j`: the eye is open there and at least BLINK_MIN_FRAMES closed frames come right before. */
  predicate BlinkEndsAt(ears: seq<real>, j: nat)
    requires j < |ears|
  {
    !Closed(ears[j]) && j >= BLINK_MIN_FRAMES &&
    forall k :: j - BLINK_MIN_FRAMES <= k < j ==> Closed(ears[k])
  }

  /** The number of blinks in `ears`, as the number of positions where a blink ends. */
  function BlinkEvents(ears: seq<real>): nat
  {
    if ears == [] then 0
    else BlinkEvents(ears[..|ears| - 1]) + (if BlinkEndsAt(ears, |ears| - 1) then 1 else 0)
  }

  /** The last `n` elements of `s` (all of them when there are fewer): a deque with `maxlen=n`. */
  function LastN<T>(s: seq<T>, n: nat): (r: seq<T>)
    ensures |r| == if |s| <= n then |s| else n
  {
    if |s| <= n then s else s[|s| - n..]
  }

  /** The values `blink_counter`, `total_blinks`, `nose_positions` and `mouth_movements` hold between frames. */
  datatype Tracker = Tracker(run: nat, blinks: nat, nose: seq<Point>, mouth: seq<real>)

  /** How one faced frame updates the tracked values. */
  function Step(t: Tracker, lm: Landmarks): Tracker
  {
    var run := if Closed(lm.ear) then t.run + 1 else 0;
    var blinks := if !Closed(lm.ear) && t.run >= BLINK_MIN_FRAMES then t.blinks + 1 else t.blinks;
    var nose := if |t.nose| == NOSE_HISTORY then t.nose[1..] + [lm.nose] else t.nose + [lm.nose];
    Tracker(run, blinks, nose, t.mouth + [lm.mouthOpen])
  }

  /** The tracked values after the faced frames `faced`, one `Step` per frame from the initial values. */
  function Track(faced: seq<Landmarks>): Tracker
  {
    if faced == [] then Tracker(0, 0, [], [])
    else Step(Track(faced[..|faced| - 1]), faced[|faced| - 1])
  }

  /** `compute_head_movement(points)`: the mean step distance, 0.0 for fewer than two points. */
  function HeadMovement(points: seq<Point>, dist: (Point, Point) -> real): (m: real)
    ensures |points| < 2 ==> m == 0.0
    ensures (forall p, q :: dist(p, q) >= 0.0) ==> m >= 0.0
  {
    if |points| < 2 then 0.0
    else
      HeadMovementNonNegative(points, dist);
      Mean(Steps(points, dist))
  }

  lemma HeadMovementNonNegative(points: seq<Point>, dist: (Point, Point) -> real)
    requires |points| >= 2
    ensures (forall p, q :: dist(p, q) >= 0.0) ==> Mean(Steps(points, dist)) >= 0.0
  {
    if forall p, q :: dist(p, q) >= 0.0 {
      StepsNonNegative(points, dist);
      MeanNonNegative(Steps(points, dist));
    }
  }

  /** The confidence score, before rounding. */
  function Score(blinks: nat, headMovement: real, jitter: real, mouthVariance: real): (s: real)
    ensures headMovement >= 0.0 && jitter >= 0.0 && mouthVariance >= 0.0 ==> 0.0 <= s <= 0.9
  {
    Min1(blinks as real / 2.0) * 0.30 + Min1(headMovement / 3.0) * 0.30 +
    Min1(jitter / 1.0) * 0.20 + Min1(mouthVariance / 3.0) * 0.10
  }

  function Min1(x: real): real
  {
    if x <= 1.0 then x else 1.0
  }

  /** The measurements taken from the blink total, the nose history and the mouth openings, after `framesProcessed` frames were read. */
  function Summary(blinks: nat, nose: seq<Point>, mouth: seq<real>, framesProcessed: nat, num: Numerics): (r: ActiveResult)
    ensures r.Measured? && r.framesProcessed == framesProcessed && r.blinkCount == blinks
    ensures r.headMovement == HeadMovement(nose, num.dist)
    ensures |nose| <= MIN_SAMPLES ==> r.jitter == 0.0
    ensures |nose| > MIN_SAMPLES ==> r.jitter == num.std(Steps(nose, num.dist))
    ensures |mouth| <= MIN_SAMPLES ==> r.mouthVariance == 0.0
    ensures |mouth| > MIN_SAMPLES ==> r.mouthVariance == num.std(mouth)
    ensures r.confidence == Score(blinks, r.headMovement, r.jitter, r.mouthVariance)
    ensures r.isLive <==> r.confidence >= MIN_CONFIDENCE_SCORE
    ensures (forall p, q :: num.dist(p, q) >= 0.0) && (forall xs :: num.std(xs) >= 0.0) ==> 0.0 <= r.confidence <= 0.9
  {
    var head := HeadMovement(nose, num.dist);
    var jitter := if |nose| > MIN_SAMPLES then num.std(Steps(nose, num.dist)) else 0.0;
    var mouthVariance := if |mouth| > MIN_SAMPLES then num.std(mouth) else 0.0;
    var score := Score(blinks, head, jitter, mouthVariance);
    Measured(score >= MIN_CONFIDENCE_SCORE, score, blinks, head, jitter, mouthVariance, framesProcessed)
  }

  /** The measurements taken from the faced frames' landmarks. */
  function Measure(faced: seq<Landmarks>, framesProcessed: nat, num: Numerics): (r: ActiveResult)
    ensures r.Measured? && r.framesProcessed == framesProcessed
    ensures r.blinkCount == BlinkEvents(Ears(faced))
  {
    Summary(BlinkEvents(Ears(faced)), LastN(Noses(faced), NOSE_HISTORY), Mouths(faced), framesProcessed, num)
  }

  /** The result the function promises, stated over the frames a fresh capture of the video yields. */
  function ActiveSpec(video: Video, mesh: Frame -> Option<Landmarks>, num: Numerics): (r: ActiveResult)
    ensures !video.present ==> r == ActiveError("video_not_found")
    ensures video.present && !video.opens ==> r == ActiveError("cannot_open_video")
    ensures r.Measured? ==> r.framesProcessed <= MAX_FRAMES && (r.isLive <==> r.confidence >= MIN_CONFIDENCE_SCORE)
    ensures r.Measured? && (forall p, q :: num.dist(p, q) >= 0.0) && (forall xs :: num.std(xs) >= 0.0) ==> 0.0 <= r.confidence <= 0.9
  {
    if !video.present then ActiveError("video_not_found")
    else if !video.opens then ActiveError("cannot_open_video")
    else
      var processed := Captured(video, MAX_FRAMES);
      Measure(Faced(processed, mesh), |processed|, num)
  }

  /** `active_liveness_from_video(video_path)`. */
  method ActiveLivenessFromVideo(video: Video, mesh: Frame -> Option<Landmarks>, num: Numerics) returns (r: ActiveResult)
    ensures r == ActiveSpec(video, mesh, num)
  {
    if !video.present {
      return ActiveError("video_not_found");
    }
    if !video.opens {
      return ActiveError("cannot_open_video");
    }
    var blinkCounter: nat := 0;
    var totalBlinks: nat := 0;
    var nosePositions: seq<Point> := [];
    var mouthMovements: seq<real> := [];
    var frames: nat := 0;
    ghost var seen: seq<Frame> := [];
    while frames < MAX_FRAMES
      invariant frames == |seen| <= MAX_FRAMES && frames <= |video.stream|
      invariant forall i :: 0 <= i < frames ==> video.stream[i] == Some(seen[i])
      invariant Tracker(blinkCounter, totalBlinks, nosePositions, mouthMovements) == Track(Faced(seen, mesh))
      decreases MAX_FRAMES - frames
    {
      if frames == |video.stream| || video.stream[frames].None? {
        break;
      }
      var frame := video.stream[frames].value;
      ghost var before := Faced(seen, mesh);
      ghost var prev := seen;
      frames := frames + 1;
      seen := seen + [frame];
      assert forall i :: 0 <= i < frames ==> video.stream[i] == Some(seen[i]) by {
        forall i | 0 <= i < frames ensures video.stream[i] == Some(seen[i]) {
          if i < frames - 1 { assert seen[i] == prev[i]; }
        }
      }
      match mesh(frame) {
        case None =>
          assert Faced(seen, mesh) == before by { FacedStep(prev, frame, mesh); }
        case Some(lm) =>
          assert Faced(seen, mesh) == before + [lm] by { FacedStep(prev, frame, mesh); }
          TrackStep(before, lm);
          if lm.ear < EAR_THRESHOLD {
            blinkCounter := blinkCounter + 1;
          } else {
            if blinkCounter >= BLINK_MIN_FRAMES {
              totalBlinks := totalBlinks + 1;
            }
            blinkCounter := 0;
          }
          nosePositions := if |nosePositions| == NOSE_HISTORY then nosePositions[1..] + [lm.nose] else nosePositions + [lm.nose];
          mouthMovements := mouthMovements + [lm.mouthOpen];
      }
    }
    r := Summary(totalBlinks, nosePositions, mouthMovements, frames, num);
    assert r == ActiveSpec(video, mesh, num) by {
      PrefixUnique(video.stream, MAX_FRAMES, seen);
      TrackMeaning(Faced(seen, mesh));
    }
  }

  /** One more frame read: its landmarks join the faced list exactly when a face is found. */
  lemma FacedStep(frames: seq<Frame>, frame: Frame, mesh: Frame -> Option<Landmarks>)
    ensures mesh(frame).None? ==> Faced(frames + [frame], mesh) == Faced(frames, mesh)
    ensures mesh(frame).Some? ==> Faced(frames + [frame], mesh) == Faced(frames, mesh) + [mesh(frame).value]
  {
    assert (frames + [frame])[..|frames|] == frames;
  }

  /** One more faced frame extends each per-face list by its own measurement. */
  lemma ProjectionsStep(ls: seq<Landmarks>, lm: Landmarks)
    ensures Ears(ls + [lm]) == Ears(ls) + [lm.ear]
    ensures Noses(ls + [lm]) == Noses(ls) + [lm.nose]
    ensures Mouths(ls + [lm]) == Mouths(ls) + [lm.mouthOpen]
  {
    assert (ls + [lm])[..|ls|] == ls;
  }

  /** Appending to a full history drops its oldest element. */
  lemma LastNPush<T>(s: seq<T>, x: T, n: nat)
    requires n > 0
    ensures LastN(s + [x], n) == if |LastN(s, n)| == n then LastN(s, n)[1..] + [x] else LastN(s, n) + [x]
  {
  }

  /** The run counter is at least `n` exactly when the last `n` frames are all closed. */
  lemma {:induction false} TrailingClosedRun(ears: seq<real>, n: nat)
    ensures TrailingClosed(ears) >= n <==> |ears| >= n && forall k :: |ears| - n <= k < |ears| ==> Closed(ears[k])
  {
    if n > 0 && ears != [] {
      var init := ears[..|ears| - 1];
      TrailingClosedRun(init, n - 1);
      if Closed(ears[|ears| - 1]) && |ears| >= n && forall k :: |init| - (n - 1) <= k < |init| ==> Closed(init[k]) {
        forall k | |ears| - n <= k < |ears| ensures Closed(ears[k]) {
          if k < |init| { assert ears[k] == init[k]; }
        }
      }
      if |ears| >= n && forall k :: |ears| - n <= k < |ears| ==> Closed(ears[k]) {
        assert Closed(ears[|ears| - 1]);
        forall k | |init| - (n - 1) <= k < |init| ensures Closed(init[k]) {
          assert init[k] == ears[k];
        }
      }
    }
  }

  /**
   * One more faced frame: a closed eye lengthens the run and counts nothing;
   * an open eye ends the run and counts a blink exactly when the run had
   * reached BLINK_MIN_FRAMES.
   */
  lemma BlinkStep(ears: seq<real>, ear: real)
    ensures Closed(ear) ==> TrailingClosed(ears + [ear]) == TrailingClosed(ears) + 1
    ensures Closed(ear) ==> BlinkEvents(ears + [ear]) == BlinkEvents(ears)
    ensures !Closed(ear) ==> TrailingClosed(ears + [ear]) == 0
    ensures !Closed(ear) ==>
      BlinkEvents(ears + [ear]) == BlinkEvents(ears) + (if TrailingClosed(ears) >= BLINK_MIN_FRAMES then 1 else 0)
  {
    var e := ears + [ear];
    assert e[..|e| - 1] == ears;
    TrailingClosedRun(ears, BLINK_MIN_FRAMES);
    if !Closed(ear) {
      if BlinkEndsAt(e, |ears|) {
        forall k | |ears| - BLINK_MIN_FRAMES <= k < |ears| ensures Closed(ears[k]) {
          assert e[k] == ears[k];
        }
      }
      if TrailingClosed(ears) >= BLINK_MIN_FRAMES {
        forall k | |ears| - BLINK_MIN_FRAMES <= k < |ears| ensures Closed(e[k]) {
          assert e[k] == ears[k];
        }
      }
    }
  }

  /**
   * The step-by-step tracker agrees with the definitions over the whole
   * faced sequence: the run counter is the trailing closed run, the blink
   * total counts blink ends, the nose history is the last NOSE_HISTORY
   * positions and the mouth list holds every opening.
   */
  lemma {:induction false} TrackMeaning(faced: seq<Landmarks>)
    ensures Track(faced) == Tracker(TrailingClosed(Ears(faced)), BlinkEvents(Ears(faced)), LastN(Noses(faced), NOSE_HISTORY), Mouths(faced))
  {
    if faced != [] {
      var init := faced[..|faced| - 1];
      var lm := faced[|faced| - 1];
      assert faced == init + [lm];
      TrackMeaning(init);
      ProjectionsStep(init, lm);
      BlinkStep(Ears(init), lm.ear);
      LastNPush(Noses(init), lm.nose, NOSE_HISTORY);
    }
  }

  /** One more faced frame applies one `Step` to the tracked values. */
  lemma TrackStep(faced: seq<Landmarks>, lm: Landmarks)
    ensures Track(faced + [lm]) == Step(Track(faced), lm)
  {
    assert (faced + [lm])[..|faced|] == faced;
  }

  /** Frames in none of which the mesh finds a face leave nothing to measure. */
  lemma {:induction false} NoFaceFaced(frames: seq<Frame>, mesh: Frame -> Option<Landmarks>)
    requires forall i :: 0 <= i < |frames| ==> mesh(frames[i]).None?
    ensures Faced(frames, mesh) == []
  {
    if frames != [] {
      var init := frames[..|frames| - 1];
      assert forall i :: 0 <= i < |init| ==> init[i] == frames[i];
      NoFaceFaced(init, mesh);
      assert mesh(frames[|frames| - 1]).None?;
    }
  }

  /** A video that opens but shows no face is measured with confidence 0 and judged not live. */
  lemma NoFaceNotLive(video: Video, mesh: Frame -> Option<Landmarks>, num: Numerics)
    requires video.present && video.opens
    requires forall f :: mesh(f).None?
    ensures ActiveSpec(video, mesh, num) == Measured(false, 0.0, 0, 0.0, 0.0, 0.0, |Captured(video, MAX_FRAMES)|)
  {
    NoFaceFaced(Captured(video, MAX_FRAMES), mesh);
  }

  /** A run of closed frames still open when the video ends is not counted. */
  lemma {:induction false} OpenRunNotCounted(ears: seq<real>, closed: seq<real>)
    requires forall i :: 0 <= i < |closed| ==> Closed(closed[i])
    ensures BlinkEvents(ears + closed) == BlinkEvents(ears)
    decreases |closed|
  {
    if closed == [] {
      assert ears + closed == ears;
    } else {
      var init := closed[..|closed| - 1];
      var e := ears + closed;
      assert e[..|e| - 1] == ears + init;
      assert e[|e| - 1] == closed[|closed| - 1];
      OpenRunNotCounted(ears, init);
    }
  }
}
