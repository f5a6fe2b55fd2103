/**
 * The deepfake heuristic over a list of frames: how far the face embedding
 * drifts and how much the key points move between consecutive faced frames.
 * The face-analysis model and the Euclidean norm of a difference are passed in.
 */
module DeepfakeCheck {
  import opened Types
  import opened Stats

  /** `np.linalg.norm(a - b)`. */
  type Norm = (seq<real>, seq<real>) -> real

  /** The score returned when fewer than two frames show a face. */
  const UNKNOWN_RISK: real := 0.5

  /** The first faces of the frames in which the model finds one, in order. */
  function FacesIn(frames: seq<Frame>, faces: Frame -> Option<Face>): (fs: seq<Face>)
    ensures |fs| <= |frames|
  {
    if frames == [] then []
    else
      var init := FacesIn(frames[..|frames| - 1], faces);
      match faces(frames[|frames| - 1])
      case None => init
      case Some(face) => init + [face]
  }

  function Embeddings(fs: seq<Face>): (es: seq<Embedding>)
    ensures |es| == |fs| && forall i :: 0 <= i < |fs| ==> es[i] == fs[i].embedding
  {
    seq(|fs|, i requires 0 <= i < |fs| => fs[i].embedding)
  }

  function KeyPoints(fs: seq<Face>): (ks: seq<seq<real>>)
    ensures |ks| == |fs| && forall i :: 0 <= i < |fs| ==> ks[i] == fs[i].kps
  {
    seq(|fs|, i requires 0 <= i < |fs| => fs[i].kps)
  }

  /** `min(risk, 1.0)`. */
  function Cap(risk: real): (c: real)
    ensures c <= 1.0 && c <= risk && (c == risk || c == 1.0)
  {
    if 1.0 < risk then 1.0 else risk
  }

  /**
   * The risk `deepfake_risk` returns: 0.5 when fewer than two frames show a
   * face, otherwise half the mean embedding drift plus a hundredth of the
   * mean key-point motion, capped at 1.0.
   */
  function DeepfakeSpec(frames: seq<Frame>, faces: Frame -> Option<Face>, norm: Norm): (risk: real)
    ensures risk <= 1.0
    ensures |FacesIn(frames, faces)| < 2 ==> risk == UNKNOWN_RISK
  {
    var fs := FacesIn(frames, faces);
    if |fs| < 2 then UNKNOWN_RISK
    else
      var motion := Steps(KeyPoints(fs), norm);
      var jitter := if motion != [] then Mean(motion) else 0.0;
      Cap(Mean(Steps(Embeddings(fs), norm)) * 0.5 + jitter * 0.01)
  }

  /** `deepfake_risk(frames)`. */
  method DeepfakeRisk(frames: seq<Frame>, faces: Frame -> Option<Face>, norm: Norm) returns (risk: real)
    ensures risk == DeepfakeSpec(frames, faces, norm)
  {
    var embeddings: seq<Embedding> := [];
    var landmarkMotion: seq<real> := [];
    var prevLandmarks: Option<seq<real>> := None;
    ghost var fs: seq<Face> := [];
    for k := 0 to |frames|
      invariant fs == FacesIn(frames[..k], faces)
      invariant embeddings == Embeddings(fs)
      invariant landmarkMotion == Steps(KeyPoints(fs), norm)
      invariant prevLandmarks == if fs == [] then None else Some(fs[|fs| - 1].kps)
    {
      match faces(frames[k]) {
        case None =>
          FacesStep(frames, k, faces);
        case Some(face) =>
          FacesStep(frames, k, faces);
          CollectStep(fs, face, norm);
          embeddings := embeddings + [face.embedding];
          var lm := face.kps;
          if prevLandmarks.Some? {
            landmarkMotion := landmarkMotion + [norm(lm, prevLandmarks.value)];
          }
          prevLandmarks := Some(lm);
          fs := fs + [face];
      }
    }
    if |embeddings| < 2 {
      assert frames[..|frames|] == frames;
      return UNKNOWN_RISK;
    }
    var drift := Mean(Steps(embeddings, norm));
    var jitter := if landmarkMotion != [] then Mean(landmarkMotion) else 0.0;
    risk := drift * 0.5 + jitter * 0.01;
    risk := Cap(risk);
    assert risk == DeepfakeSpec(frames, faces, norm) by {
      assert frames[..|frames|] == frames;
    }
  }

  /** Reading frame `k`: its face joins the list exactly when the model finds one. */
  lemma FacesStep(frames: seq<Frame>, k: nat, faces: Frame -> Option<Face>)
    requires k < |frames|
    ensures faces(frames[k]).None? ==> FacesIn(frames[..k + 1], faces) == FacesIn(frames[..k], faces)
    ensures faces(frames[k]).Some? ==> FacesIn(frames[..k + 1], faces) == FacesIn(frames[..k], faces) + [faces(frames[k]).value]
  {
    assert frames[..k + 1][..k] == frames[..k];
  }

  /** One more face: its embedding and key points are appended, and its motion is measured against the previous face's key points. */
  lemma CollectStep(fs: seq<Face>, face: Face, norm: Norm)
    ensures Embeddings(fs + [face]) == Embeddings(fs) + [face.embedding]
    ensures KeyPoints(fs + [face]) == KeyPoints(fs) + [face.kps]
    ensures Steps(KeyPoints(fs + [face]), norm) ==
      if fs == [] then [] else Steps(KeyPoints(fs), norm) + [norm(face.kps, fs[|fs| - 1].kps)]
  {
    var ks := KeyPoints(fs + [face]);
    assert ks == KeyPoints(fs) + [face.kps];
    assert ks[..|fs|] == KeyPoints(fs);
  }

  /** Once two frames show a face, there is always some key-point motion to average: the `else 0` fallback never applies. */
  lemma MotionAlwaysMeasured(fs: seq<Face>, norm: Norm)
    requires |fs| >= 2
    ensures |Steps(KeyPoints(fs), norm)| == |fs| - 1 >= 1
  {
  }

  /** With a non-negative norm, the risk is a score between 0 and 1. */
  lemma RiskInUnitRange(frames: seq<Frame>, faces: Frame -> Option<Face>, norm: Norm)
    requires forall a, b :: norm(a, b) >= 0.0
    ensures 0.0 <= DeepfakeSpec(frames, faces, norm) <= 1.0
  {
    var fs := FacesIn(frames, faces);
    if |fs| >= 2 {
      StepsNonNegative(Embeddings(fs), norm);
      MeanNonNegative(Steps(Embeddings(fs), norm));
      StepsNonNegative(KeyPoints(fs), norm);
      MeanNonNegative(Steps(KeyPoints(fs), norm));
    }
  }

  /** A face that neither changes its embedding nor moves its key points carries no risk, when the norm of a zero difference is 0. */
  lemma StillFaceNoRisk(frames: seq<Frame>, faces: Frame -> Option<Face>, norm: Norm, face: Face)
    requires forall x :: norm(x, x) == 0.0
    requires |FacesIn(frames, faces)| >= 2
    requires forall i :: 0 <= i < |FacesIn(frames, faces)| ==> FacesIn(frames, faces)[i] == face
    ensures DeepfakeSpec(frames, faces, norm) == 0.0
  {
    var fs := FacesIn(frames, faces);
    StepsOfConstant(Embeddings(fs), norm, face.embedding);
    StepsOfConstant(KeyPoints(fs), norm, face.kps);
    SumOfZeros(Steps(Embeddings(fs), norm));
    SumOfZeros(Steps(KeyPoints(fs), norm));
  }

  lemma StepsOfConstant(xs: seq<seq<real>>, norm: Norm, x: seq<real>)
    requires forall y :: norm(y, y) == 0.0
    requires forall i :: 0 <= i < |xs| ==> xs[i] == x
    ensures forall i :: 0 <= i < |Steps(xs, norm)| ==> Steps(xs, norm)[i] == 0.0
  {
    var d := Steps(xs, norm);
    forall i | 0 <= i < |d| ensures d[i] == 0.0 {
      assert d[i] == norm(xs[i + 1], xs[i]);
    }
  }

  lemma {:induction false} SumOfZeros(xs: seq<real>)
    requires forall i :: 0 <= i < |xs| ==> xs[i] == 0.0
    ensures Sum(xs) == 0.0
  {
    if xs != [] {
      var init := xs[..|xs| - 1];
      assert forall i :: 0 <= i < |init| ==> init[i] == xs[i];
      SumOfZeros(init);
    }
  }
}
