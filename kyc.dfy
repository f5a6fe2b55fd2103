/**
 * The KYC routes: two-image verification, identity search, layered video
 * verification and the registry reset. Each route is a method over the
 * store, proved against a ghost function giving its response and what it
 * stores.
 */
module Kyc {
  import opened Types
  import opened VectorStore
  import opened Similarity
  import opened DecisionEngine
  import opened VisionPipeline
  import opened VideoProcessing
  import ActiveLiveness
  import DeepfakeCheck

  /** The risk above which `verify_video` suspects a deepfake. */
  const DEEPFAKE_THRESHOLD: real := 1.2

  /** The models and numerics the routes call into. */
  datatype Env = Env(
    vision: Vision,
    sim: SimilarityFn,
    mesh: Frame -> Option<ActiveLiveness.Landmarks>,
    num: ActiveLiveness.Numerics,
    norm: DeepfakeCheck.Norm)

  /** The frame and embedding a route hands to `store_face`. */
  datatype Stored = Stored(frame: Frame, embedding: Embedding)

  /** A route's response, and what it stores, if anything. */
  datatype Outcome = Outcome(response: Response, stored: Option<Stored>)

  /**
   * How a route leaves the store: unchanged when it stores nothing, and
   * otherwise with the frame saved as `<hex>.jpg` and the embedding appended
   * to the loaded registry, as `store_face` does.
   */
  twostate predicate Applied(store: Store, stored: Option<Stored>, hex: string)
    reads store
  {
    if stored.None? then store.dbFile == old(store.dbFile) && store.imageDir == old(store.imageDir)
    else
      store.imageDir == Dir(old(store.Files())[hex + ".jpg" := stored.value.frame]) &&
      store.dbFile == Saved(LoadDb(old(store.dbFile)) + [stored.value.embedding])
  }

  /**
   * The step both verification routes end with: check the embedding against
   * the loaded registry, decide, and store the frame and embedding exactly
   * when the decision is approved.
   */
  method Register(store: Store, frame: Frame, embedding: Embedding, live: bool, env: Env, hex: string) returns (decision: Response)
    requires IsUuidHex(hex) && hex + ".jpg" !in store.Files()
    modifies store
    ensures decision == Decide(live, IsDuplicate(LoadDb(old(store.dbFile)), embedding, env.sim))
    ensures Applied(store, if decision.status == "approved" then Some(Stored(frame, embedding)) else None, hex)
  {
    var duplicate := CheckDuplicate(LoadDb(store.dbFile), embedding, env.sim);
    decision := Decide(live, duplicate);
    if decision.status == "approved" {
      var filename := store.StoreFace(frame, embedding, hex);
    }
  }

  /* ---------------- /kyc/verify ---------------- */

  /** What `verify(image1, image2)` answers and stores against the registry `db`; an undecodable image is `None`. */
  ghost function VerifySpec(db: seq<Embedding>, image1: Option<Frame>, image2: Option<Frame>, env: Env): (o: Outcome)
    ensures o.stored.Some? <==> o.response.status == "approved"
    ensures image1.None? || image2.None? ==> o == Outcome(Reply("rejected", "invalid image"), None)
    ensures image1.Some? && image2.Some? && RunVisionPipeline(image1.value, image2.value, env.vision).Raised? ==>
      o == Outcome(Reply("error", "verification failed"), None)
    ensures o.response.status == "approved" <==>
      image1.Some? && image2.Some? && AllGatesPass(image1.value, image2.value, env.vision) &&
      RunVisionPipeline(image1.value, image2.value, env.vision).Ok? &&
      !IsDuplicate(db, GetEmbedding(env.vision, image2.value).value, env.sim)
    ensures o.stored.Some? ==> o.stored.value == Stored(image2.value, GetEmbedding(env.vision, image2.value).value)
  {
    if image1.None? || image2.None? then Outcome(Reply("rejected", "invalid image"), None)
    else
      match RunVisionPipeline(image1.value, image2.value, env.vision)
      case Raised(_) => Outcome(Reply("error", "verification failed"), None)
      case Ok(result) =>
        if !result.success then Outcome(Reply("rejected", result.error.value), None)
        else
          var embedding := result.embedding.value;
          var decision := Decide(result.liveness, IsDuplicate(db, embedding, env.sim));
          Outcome(decision, if decision.status == "approved" then Some(Stored(image2.value, embedding)) else None)
  }

  /** `verify(image1, image2)`; `hex` is the fresh `uuid4().hex` naming the stored image. */
  method Verify(store: Store, image1: Option<Frame>, image2: Option<Frame>, env: Env, hex: string) returns (response: Response)
    requires IsUuidHex(hex) && hex + ".jpg" !in store.Files()
    modifies store
    ensures var o := VerifySpec(LoadDb(old(store.dbFile)), image1, image2, env);
      response == o.response && Applied(store, o.stored, hex)
  {
    if image1.None? || image2.None? {
      return Reply("rejected", "invalid image");
    }
    var frame1, frame2 := image1.value, image2.value;
    var pipeline := RunVisionPipeline(frame1, frame2, env.vision);
    if pipeline.Raised? {
      return Reply("error", "verification failed");
    }
    var result := pipeline.value;
    if !result.success {
      return Reply("rejected", result.error.value);
    }
    response := Register(store, frame2, result.embedding.value, result.liveness, env, hex);
  }

  /** A pipeline failure is rejected with the pipeline's own error. */
  lemma VerifyPassesPipelineError(db: seq<Embedding>, frame1: Frame, frame2: Frame, env: Env)
    requires RunVisionPipeline(frame1, frame2, env.vision).Ok? && !RunVisionPipeline(frame1, frame2, env.vision).value.success
    ensures VerifySpec(db, Some(frame1), Some(frame2), env).response ==
      Reply("rejected", RunVisionPipeline(frame1, frame2, env.vision).value.error.value)
    ensures VerifySpec(db, Some(frame1), Some(frame2), env).stored == None
  {
  }

  /**
   * Verifying the same two images again, once the first approval is stored,
   * is refused as a duplicate, when the stored embedding scores above the
   * threshold against itself (cosine similarity gives 1).
   */
  lemma ReverifyIsDuplicate(db: seq<Embedding>, image1: Option<Frame>, image2: Option<Frame>, env: Env)
    requires VerifySpec(db, image1, image2, env).stored.Some?
    requires var e := VerifySpec(db, image1, image2, env).stored.value.embedding; env.sim(e, e) > SIM_THRESHOLD
    ensures var e := VerifySpec(db, image1, image2, env).stored.value.embedding;
      VerifySpec(db + [e], image1, image2, env) == Outcome(Reply("rejected", "duplicate identity"), None)
  {
    var e := VerifySpec(db, image1, image2, env).stored.value.embedding;
    AppendedIsDuplicate(db, e, e, env.sim);
  }

  /* ---------------- /kyc/search ---------------- */

  /** `search(image)`: reads the registry and stores nothing. */
  method Search(store: Store, image: Option<Frame>, env: Env) returns (response: Response)
    ensures image.None? ==> response == Reply("error", "invalid image")
    ensures image.Some? && GetEmbedding(env.vision, image.value).None? ==> response == Reply("rejected", "encoding failed")
    ensures image.Some? && GetEmbedding(env.vision, image.value).Some? ==>
      var e := GetEmbedding(env.vision, image.value).value;
      var db := LoadDb(store.dbFile);
      var key := if response.status == "match_found" then "similarity_score" else "closest_score";
      response.reason == None &&
      (response.status == "match_found" || response.status == "no_match") &&
      (response.status == "match_found" <==> IsDuplicate(db, e, env.sim)) &&
      key in response.metrics && response.metrics == map[key := response.metrics[key]] &&
      IsSearchScore(db, e, env.sim, response.metrics[key])
  {
    if image.None? {
      return Reply("error", "invalid image");
    }
    var embedding := GetEmbedding(env.vision, image.value);
    if embedding.None? {
      return Reply("rejected", "encoding failed");
    }
    var found, score := SearchFace(LoadDb(store.dbFile), embedding.value, env.sim);
    if found {
      return Response("match_found", None, map["similarity_score" := score]);
    }
    return Response("no_match", None, map["closest_score" := score]);
  }

  /* ---------------- /kyc/verify-video ---------------- */

  /** The pipeline runs on the consecutive pairs: `runs[k]` is the run on `(frames[k], frames[k + 1])`. */
  function PairRuns(frames: seq<Frame>, v: Vision): (runs: seq<Result<PipelineResult>>)
    ensures |runs| == if |frames| < 2 then 0 else |frames| - 1
    ensures forall k :: 0 <= k < |runs| ==> runs[k] == RunVisionPipeline(frames[k], frames[k + 1], v)
  {
    if |frames| < 2 then []
    else seq(|frames| - 1, k requires 0 <= k < |frames| - 1 => RunVisionPipeline(frames[k], frames[k + 1], v))
  }

  /** A run that returns without success, so the scan moves on to the next pair. */
  predicate Unsuccessful(run: Result<PipelineResult>)
  {
    run.Ok? && !run.value.success
  }

  /**
   * The passive gate scanning the runs from index `from` on: the index of
   * the first run that succeeds, `None` if none does, or the exception of a
   * run that raises first.
   */
  function FirstPass(runs: seq<Result<PipelineResult>>, from: nat): (r: Result<Option<nat>>)
    ensures r.Ok? && r.value.Some? ==>
      from <= r.value.value < |runs| && runs[r.value.value].Ok? && runs[r.value.value].value.success
    decreases |runs| - from
  {
    if from >= |runs| then Ok(None)
    else
      match runs[from]
      case Raised(m) => Raised(m)
      case Ok(test) => if test.success then Ok(Some(from)) else FirstPass(runs, from + 1)
  }

  /** The run `FirstPass` picks is the first that succeeds: every run before it returns without success. */
  lemma {:induction false} FirstPassIsFirst(runs: seq<Result<PipelineResult>>, from: nat)
    ensures FirstPass(runs, from).Ok? && FirstPass(runs, from).value.Some? ==>
      forall k :: from <= k < FirstPass(runs, from).value.value ==> Unsuccessful(runs[k])
    ensures FirstPass(runs, from) == Ok(None) ==> forall k :: from <= k < |runs| ==> Unsuccessful(runs[k])
    decreases |runs| - from
  {
    if from < |runs| && Unsuccessful(runs[from]) {
      FirstPassIsFirst(runs, from + 1);
    }
  }

  /** Conversely, when every run from `from` on returns without success, the scan finds nothing. */
  lemma {:induction false} NoPassFromHere(runs: seq<Result<PipelineResult>>, from: nat)
    requires forall k :: from <= k < |runs| ==> Unsuccessful(runs[k])
    ensures FirstPass(runs, from) == Ok(None)
    decreases |runs| - from
  {
    if from < |runs| {
      assert Unsuccessful(runs[from]);
      NoPassFromHere(runs, from + 1);
    }
  }

  /** A run that raises ends the scan with its exception, once every earlier run returned without success. */
  lemma {:induction false} FirstPassRaises(runs: seq<Result<PipelineResult>>, from: nat, j: nat)
    requires from <= j < |runs| && runs[j].Raised?
    requires forall k :: from <= k < j ==> Unsuccessful(runs[k])
    ensures FirstPass(runs, from) == Raised(runs[j].message)
    decreases j - from
  {
    if from < j {
      assert Unsuccessful(runs[from]);
      FirstPassRaises(runs, from + 1, j);
    }
  }

  /** `active.get("confidence", 0)`. */
  function ConfidenceOrZero(active: ActiveLiveness.ActiveResult): real
  {
    if active.Measured? then active.confidence else 0.0
  }

  /**
   * What `verify_video(video)` answers and stores once the pair scan picked the
   * passing run `passive`, whose second frame is `selected`: active liveness,
   * the deepfake gate, then the duplicate check and the decision.
   */
  ghost function AfterPassive(db: seq<Embedding>, video: Video, env: Env, passive: PipelineResult, selected: Frame): (o: Outcome)
    requires passive.embedding.Some?
    ensures o.stored.Some? <==> o.response.status == "approved"
    ensures o.stored.Some? ==> o.stored.value == Stored(selected, passive.embedding.value)
    ensures var active := ActiveLiveness.ActiveSpec(video, env.mesh, env.num);
      !(active.Measured? && active.isLive) ==>
        o == Outcome(Response("rejected", Some("active liveness failed"), map["confidence" := ConfidenceOrZero(active)]), None)
    ensures var active := ActiveLiveness.ActiveSpec(video, env.mesh, env.num);
      var decision := Decide(passive.liveness, IsDuplicate(db, passive.embedding.value, env.sim));
      active.Measured? && active.isLive ==>
        o.response == decision.(metrics := decision.metrics["active_confidence" := active.confidence])
  {
    DeepfakeGateDead(Captured(video, DEFAULT_MAX_FRAMES), env.vision.faces, env.norm);
    var active := ActiveLiveness.ActiveSpec(video, env.mesh, env.num);
    if !(active.Measured? && active.isLive) then
      Outcome(Response("rejected", Some("active liveness failed"), map["confidence" := ConfidenceOrZero(active)]), None)
    else if DeepfakeCheck.DeepfakeSpec(Captured(video, DEFAULT_MAX_FRAMES), env.vision.faces, env.norm) > DEEPFAKE_THRESHOLD then
      Outcome(Reply("rejected", "deepfake suspicion"), None)
    else
      var decision := Decide(passive.liveness, IsDuplicate(db, passive.embedding.value, env.sim));
      Outcome(decision.(metrics := decision.metrics["active_confidence" := active.confidence]),
              if decision.status == "approved" then Some(Stored(selected, passive.embedding.value)) else None)
  }

  /** What `verify_video(video)` answers and stores against the registry `db`, for the saved upload `video`. */
  ghost function VideoSpec(db: seq<Embedding>, video: Video, env: Env): (o: Outcome)
    ensures o.stored.Some? <==> o.response.status == "approved"
    ensures |Captured(video, DEFAULT_MAX_FRAMES)| < 2 ==> o == Outcome(Reply("rejected", "not enough frames"), None)
    ensures o.response.reason != Some("deepfake suspicion")
    ensures var frames := Captured(video, DEFAULT_MAX_FRAMES);
      |frames| >= 2 && FirstPass(PairRuns(frames, env.vision), 0).Raised? ==>
        o == Outcome(Reply("error", "verification pipeline failure"), None)
    ensures var frames := Captured(video, DEFAULT_MAX_FRAMES);
      |frames| >= 2 && FirstPass(PairRuns(frames, env.vision), 0) == Ok(None) ==>
        o == Outcome(Reply("rejected", "passive liveness failed"), None)
    ensures var frames := Captured(video, DEFAULT_MAX_FRAMES);
      var active := ActiveLiveness.ActiveSpec(video, env.mesh, env.num);
      |frames| >= 2 && FirstPass(PairRuns(frames, env.vision), 0).Ok? && FirstPass(PairRuns(frames, env.vision), 0).value.Some? &&
      !(active.Measured? && active.isLive) ==>
        o == Outcome(Response("rejected", Some("active liveness failed"), map["confidence" := ConfidenceOrZero(active)]), None)
  {
    var frames := Captured(video, DEFAULT_MAX_FRAMES);
    if |frames| < 2 then Outcome(Reply("rejected", "not enough frames"), None)
    else
      var runs := PairRuns(frames, env.vision);
      var pick := FirstPass(runs, 0);
      if pick.Raised? then Outcome(Reply("error", "verification pipeline failure"), None)
      else if pick.value.None? then Outcome(Reply("rejected", "passive liveness failed"), None)
      else
        var i := pick.value.value;
        AfterPassive(db, video, env, runs[i].value, frames[i + 1])
  }

  /** The stages of `verify_video` after the pair scan, on the frames `video` yields. */
  method AfterPassiveStages(store: Store, video: Video, frames: seq<Frame>, passive: PipelineResult, selected: Frame, env: Env, hex: string)
    returns (response: Response)
    requires frames == Captured(video, DEFAULT_MAX_FRAMES) && passive.embedding.Some?
    requires IsUuidHex(hex) && hex + ".jpg" !in store.Files()
    modifies store
    ensures var o := AfterPassive(LoadDb(old(store.dbFile)), video, env, passive, selected);
      response == o.response && Applied(store, o.stored, hex)
  {
    var active := ActiveLiveness.ActiveLivenessFromVideo(video, env.mesh, env.num);
    if !(active.Measured? && active.isLive) {
      return Response("rejected", Some("active liveness failed"), map["confidence" := ConfidenceOrZero(active)]);
    }
    var risk := DeepfakeCheck.DeepfakeRisk(frames, env.vision.faces, env.norm);
    if risk > DEEPFAKE_THRESHOLD {
      return Reply("rejected", "deepfake suspicion");
    }
    var decision := Register(store, selected, passive.embedding.value, passive.liveness, env, hex);
    response := decision.(metrics := decision.metrics["active_confidence" := active.confidence]);
  }

  /** `verify_video(video)`: the upload is saved to a temporary file, which exists; `opens` and `stream` describe reading it. */
  method VerifyVideo(store: Store, opens: bool, stream: seq<Option<Frame>>, env: Env, hex: string) returns (response: Response)
    requires IsUuidHex(hex) && hex + ".jpg" !in store.Files()
    modifies store
    ensures var o := VideoSpec(LoadDb(old(store.dbFile)), Video(true, opens, stream), env);
      response == o.response && Applied(store, o.stored, hex)
  {
    var video := Video(true, opens, stream);
    var frames := ExtractFrames(video, DEFAULT_MAX_FRAMES);
    if |frames| < 2 {
      return Reply("rejected", "not enough frames");
    }
    var passive: Option<PipelineResult> := None;
    var selected: Frame := [];
    ghost var runs := PairRuns(frames, env.vision);
    var i := 0;
    while i < |frames| - 1
      invariant 0 <= i <= |frames| - 1
      invariant FirstPass(runs, 0) == FirstPass(runs, i)
      decreases |frames| - i
    {
      var test := RunVisionPipeline(frames[i], frames[i + 1], env.vision);
      assert test == runs[i];
      if test.Raised? {
        return Reply("error", "verification pipeline failure");
      }
      if test.value.success {
        passive := Some(test.value);
        selected := frames[i + 1];
        break;
      }
      i := i + 1;
    }
    if passive.None? {
      return Reply("rejected", "passive liveness failed");
    }
    assert FirstPass(runs, 0) == Ok(Some(i)) && passive.value == runs[i].value && selected == frames[i + 1];
    response := AfterPassiveStages(store, video, frames, passive.value, selected, env, hex);
  }


  /** The deepfake gate never fires: the risk is at most 1.0, below the 1.2 threshold, whatever the norm. */
  lemma DeepfakeGateDead(frames: seq<Frame>, faces: Frame -> Option<Face>, norm: DeepfakeCheck.Norm)
    ensures !(DeepfakeCheck.DeepfakeSpec(frames, faces, norm) > DEEPFAKE_THRESHOLD)
  {
  }

  /** Accordingly, the norm the deepfake heuristic uses has no influence on `verify_video`. */
  lemma VideoIgnoresDeepfakeNorm(db: seq<Embedding>, video: Video, env: Env, norm: DeepfakeCheck.Norm)
    ensures VideoSpec(db, video, env) == VideoSpec(db, video, env.(norm := norm))
  {
    var frames := Captured(video, DEFAULT_MAX_FRAMES);
    DeepfakeGateDead(frames, env.vision.faces, env.norm);
    DeepfakeGateDead(frames, env.vision.faces, norm);
  }

  /**
   * Past the passive and active gates, the decision is approved exactly when
   * the selected embedding is no duplicate, and it carries the active
   * confidence.
   */
  lemma VideoApprovedIffNotDuplicate(db: seq<Embedding>, video: Video, env: Env, i: nat)
    requires |Captured(video, DEFAULT_MAX_FRAMES)| >= 2
    requires FirstPass(PairRuns(Captured(video, DEFAULT_MAX_FRAMES), env.vision), 0) == Ok(Some(i))
    requires ActiveLiveness.ActiveSpec(video, env.mesh, env.num).Measured? && ActiveLiveness.ActiveSpec(video, env.mesh, env.num).isLive
    ensures var frames := Captured(video, DEFAULT_MAX_FRAMES);
      var o := VideoSpec(db, video, env);
      (o.response.status == "approved" <==> !IsDuplicate(db, GetEmbedding(env.vision, frames[i + 1]).value, env.sim)) &&
      o.response.metrics == map["active_confidence" := ActiveLiveness.ActiveSpec(video, env.mesh, env.num).confidence] &&
      (o.stored.Some? ==> o.stored.value == Stored(frames[i + 1], GetEmbedding(env.vision, frames[i + 1]).value))
  {
    DeepfakeGateDead(Captured(video, DEFAULT_MAX_FRAMES), env.vision.faces, env.norm);
  }

  /** A video none of whose pairs passes the pipeline is rejected before any active measurement. */
  lemma NoPassingPairRejected(db: seq<Embedding>, video: Video, env: Env)
    requires |Captured(video, DEFAULT_MAX_FRAMES)| >= 2
    requires var frames := Captured(video, DEFAULT_MAX_FRAMES);
      forall k: nat :: k + 1 < |frames| ==> Unsuccessful(RunVisionPipeline(frames[k], frames[k + 1], env.vision))
    ensures VideoSpec(db, video, env) == Outcome(Reply("rejected", "passive liveness failed"), None)
  {
    var runs := PairRuns(Captured(video, DEFAULT_MAX_FRAMES), env.vision);
    NoPassFromHere(runs, 0);
  }

  /* ---------------- /kyc/reset ---------------- */

  /** `reset()`: clears the registry and answers "registry cleared". */
  method Reset(store: Store) returns (response: Response)
    modifies store
    ensures response == Response("registry cleared", None, map[])
    ensures store.dbFile == Missing && LoadDb(store.dbFile) == [] && store.IdentityCount() == 0
    ensures old(store.imageDir).Dir? ==> store.imageDir == Dir(map[])
    ensures old(store.imageDir).NoDir? ==> store.imageDir == NoDir
  {
    store.ResetRegistry();
    response := Response("registry cleared", None, map[]);
  }
}
