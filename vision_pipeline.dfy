/** The fail-fast two-frame vision gate chain. */
module VisionPipeline {
  import opened Types
  import opened ImageQuality
  import Liveness

  /**
   * The vision models the chain consults: the blur and brightness metrics of
   * a frame, the face detector, and the face-analysis model whose first face
   * supplies the embedding.
   */
  datatype Vision = Vision(
    blur: Frame -> real,
    brightness: Frame -> real,
    detectFace: Frame -> bool,
    faces: Frame -> Option<Face>)

  /** The embedding of the first face in `frame`, if there is a face. */
  function GetEmbedding(v: Vision, frame: Frame): (e: Option<Embedding>)
    ensures e.Some? <==> v.faces(frame).Some?
  {
    match v.faces(frame)
    case None => None
    case Some(face) => Some(face.embedding)
  }

  function QualityOf(v: Vision, frame: Frame): Quality
  {
    CheckImageQuality(v.blur(frame), v.brightness(frame))
  }

  /** The dictionary `run_vision_pipeline` returns. */
  datatype PipelineResult = PipelineResult(success: bool, error: Option<string>, liveness: bool, embedding: Option<Embedding>)

  function Failure(error: string, liveness: bool): PipelineResult
  {
    PipelineResult(false, Some(error), liveness, None)
  }

  /** Both frames show a face, they differ by enough motion, and the second frame yields an embedding. */
  predicate AllGatesPass(frame1: Frame, frame2: Frame, v: Vision)
  {
    v.detectFace(frame1) && v.detectFace(frame2) &&
    Liveness.LivenessCheck(frame1, frame2) == Ok(true) &&
    GetEmbedding(v, frame2).Some?
  }

  /**
   * `run_vision_pipeline(frame1, frame2)`. Only the liveness subtraction can
   * raise, on frames of different lengths.
   */
  function RunVisionPipeline(frame1: Frame, frame2: Frame, v: Vision): (r: Result<PipelineResult>)
    ensures r.Raised? <==> v.detectFace(frame1) && v.detectFace(frame2) && |frame1| != |frame2|
    ensures r.Ok? ==> (r.value.success <==> AllGatesPass(frame1, frame2, v))
    ensures r.Ok? && r.value.success ==>
      r.value.error == None && r.value.liveness && r.value.embedding == GetEmbedding(v, frame2) && r.value.embedding.Some?
    ensures r.Ok? && !r.value.success ==> r.value.embedding == None && r.value.error.Some?
    ensures r.Ok? && !r.value.success ==> (r.value.liveness <==> r.value.error == Some("embedding failed"))
    ensures !v.detectFace(frame1) ==> r == Ok(Failure("no face detected in image 1", false))
    ensures v.detectFace(frame1) && !v.detectFace(frame2) ==> r == Ok(Failure("no face detected in image 2", false))
    ensures v.detectFace(frame1) && v.detectFace(frame2) && Liveness.LivenessCheck(frame1, frame2) == Ok(false) ==>
      r == Ok(Failure("liveness failed", false))
    ensures v.detectFace(frame1) && v.detectFace(frame2) && Liveness.LivenessCheck(frame1, frame2) == Ok(true) && GetEmbedding(v, frame2).None? ==>
      r == Ok(Failure("embedding failed", true))
    ensures v.detectFace(frame1) && v.detectFace(frame2) && Liveness.LivenessCheck(frame1, frame2) == Ok(true) && GetEmbedding(v, frame2).Some? ==>
      r == Ok(PipelineResult(true, None, true, GetEmbedding(v, frame2)))
    ensures r.Ok? ==> r.value.error != Some("image too blurry")
  {
    AlwaysTruthy(v.blur(frame1), v.brightness(frame1));
    AlwaysTruthy(v.blur(frame2), v.brightness(frame2));
    if !Truthy(QualityOf(v, frame1)) || !Truthy(QualityOf(v, frame2)) then
      Ok(Failure("image too blurry", false))
    else if !v.detectFace(frame1) then
      Ok(Failure("no face detected in image 1", false))
    else if !v.detectFace(frame2) then
      Ok(Failure("no face detected in image 2", false))
    else
      match Liveness.LivenessCheck(frame1, frame2)
      case Raised(m) => Raised(m)
      case Ok(live) =>
        if !live then Ok(Failure("liveness failed", false))
        else
          match GetEmbedding(v, frame2)
          case None => Ok(Failure("embedding failed", live))
          case Some(e) => Ok(PipelineResult(true, None, live, Some(e)))
  }

  /** The quality gate decides nothing: changing the blur and brightness metrics, to any values, leaves the result as it was. */
  lemma QualityIgnored(frame1: Frame, frame2: Frame, v: Vision, blur: Frame -> real, brightness: Frame -> real)
    ensures RunVisionPipeline(frame1, frame2, v) == RunVisionPipeline(frame1, frame2, v.(blur := blur, brightness := brightness))
  {
  }

  /** A frame too blurry for `check_image_quality` still passes the chain when every other gate passes. */
  lemma BlurryFramePasses(frame1: Frame, frame2: Frame, v: Vision)
    requires v.blur(frame1) < BLUR_THRESHOLD
    requires AllGatesPass(frame1, frame2, v)
    ensures !QualityOf(v, frame1).isValid
    ensures RunVisionPipeline(frame1, frame2, v).Ok? && RunVisionPipeline(frame1, frame2, v).value.success
  {
  }

  /** The embedding comes from the second frame alone: the first frame's face is never embedded. */
  lemma EmbeddingFromSecondFrame(frame1: Frame, frame2: Frame, v: Vision, faces: Frame -> Option<Face>)
    requires faces(frame2) == v.faces(frame2)
    ensures RunVisionPipeline(frame1, frame2, v) == RunVisionPipeline(frame1, frame2, v.(faces := faces))
  {
  }
}
