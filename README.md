# Verified model of the Bruh_KYC verification backend

Bruh_KYC is a FastAPI backend that decides whether a person registering for know-your-customer verification is live and new. This project models and proves its decision core. It covers:

- **The `/kyc` routes.**
  - `verify`: two images, run through the vision gate chain.
  - `search`: the best match in the registry.
  - `verify_video`: frame extraction, a passive liveness scan over consecutive frame pairs, active behavioural liveness, the deepfake heuristic, the duplicate check and the decision.
  - `reset`.
- **The services behind the routes.** Image quality, motion liveness, frame extraction, the vision pipeline, active liveness, the deepfake risk, duplicate detection and search.
- **Storage.** The registry of embeddings and stored images, the attempt log, and the admin read-outs of that log.
- **Admission state.** The per-client rate limiter and the session table.

Each source module is one Dafny module:

| Dafny module | source module |
|---|---|
| `RateLimit` | `security/rate_limit.py` |
| `SessionGuard` | `security/session_guard.py` |
| `DecisionEngine` | `decision/decision_engine.py` |
| `Similarity` | `services/similarity.py` |
| `VectorStore` | `db/vector_store.py` |
| `AttemptLogger` | `admin/attempt_logger.py` |
| `AdminRoutes` | `admin/admin_routes.py` |
| `ImageQuality` | `services/image_quality.py` |
| `Liveness` | `services/liveness.py` |
| `VideoProcessing` | `services/video_processing.py` |
| `VisionPipeline` | `services/vision_pipeline.py` |
| `ActiveLiveness` | `services/active_liveness.py` |
| `DeepfakeCheck` | `services/deepfake_check.py` |
| `Kyc` | `api/kyc.py` |

`Types` holds the shared values, and `Stats` holds the numpy means and step distances.

Module-level state that the code changes in place becomes a class:

- `_requests` becomes `RateLimit.RateLimiter`.
- `_sessions` becomes `SessionGuard.Guard`.
- The embeddings file and image directory become `VectorStore.Store`.
- The log file becomes `AttemptLogger.AttemptLog`.

The loops become methods with invariants, each proved against a specification: most against a function they are shown to equal, the best-match scan against the relation `Similarity.IsSearchScore`, and the directory listing against the set of `.jpg` names. The lemmas are stated over those specifications. The loops are the blink loop, the deepfake loop, frame extraction, the duplicate scan, the best-match scan, the session sweep, the directory listing and clearing, and the passive pair scan of `verify_video`.

Exceptions are values: `Result.Raised`. Inputs from outside are parameters:

- the clock, as `now` and `timestamp`;
- the fresh `secrets.token_hex` and `uuid4().hex` strings;
- the decoded upload;
- the contents of a video;
- the filesystem, as abstract states.

The numerical models are also parameters, as functions:

- the blur and brightness metrics;
- face detection;
- the face-analysis model;
- the face mesh with its eye aspect ratio;
- Euclidean norms and the standard deviation;
- cosine similarity.

Reals are exact.

Facts that follow from the code as written, each proved:

- **The deepfake gate never fires.** `DeepfakeCheck.DeepfakeSpec` caps the risk, at `min(risk, 1.0)`. So the `risk > 1.2` rejection in `verify_video` cannot fire (`Kyc.DeepfakeGateDead`), and the norm the heuristic uses has no influence on the route (`Kyc.VideoIgnoresDeepfakeNorm`).
- **The quality gate is inert.** `check_image_quality` returns a 2-tuple, and a 2-tuple is always truthy. So the "image too blurry" branch of the pipeline is unreachable, and the blur and brightness metrics decide nothing (`VisionPipeline.QualityIgnored`, `VisionPipeline.BlurryFramePasses`).
- **A video approval depends only on duplication.** In `verify_video` a passing pipeline result always has `liveness` true, so past the active gate the decision is approved exactly when the embedding is no duplicate (`Kyc.VideoApprovedIffNotDuplicate`).

Facts about the code the model relies on:

- **Logging and admission are not wired in.** No route calls `log_attempt`, `rate_limit` or the session functions, so they are modelled as stand-alone operations. `main.py` mounts only the `/kyc` router, so the admin routes of `AdminRoutes` are not served either.
- **The identity count uses the images.** It is the number of `*.jpg` files in the image directory (`backend/app/db/vector_store.py:78`).
- **The deepfake risk is bounded.** `deepfake_risk` returns `min(risk, 1.0)`.
- **Every approval appends one embedding.** `store_face` appends the new embedding to the loaded list.
- **Validation leaves the token in place.** `validate_session` does not remove the token it checks.

## Model

| member | source | states |
|---|---|---|
| RateLimit.Prune | backend/app/security/rate_limit.py:16 | the pruned history keeps exactly the timestamps strictly younger than WINDOW, each as many times as it occurs, in their order, as a subsequence |
| RateLimit.RateLimiter.constructor | backend/app/security/rate_limit.py:3 | the request table starts empty |
| RateLimit.RateLimiter.RateLimit | backend/app/security/rate_limit.py:9-24 | admits iff the pruned history is below MAX_REQUESTS; on admission the client's history becomes the pruned history plus `now`, of length at most MAX_REQUESTS; on refusal the table is unchanged; every other client keeps its history |
| RateLimit.NewClientAdmitted | backend/app/security/rate_limit.py:13-24 | a client with no history is admitted and its history becomes `[now]` |
| RateLimit.PruneKeepsRecent | backend/app/security/rate_limit.py:16 | a history wholly inside the window survives pruning unchanged |
| RateLimit.BurstRefused | backend/app/security/rate_limit.py:16-19 | MAX_REQUESTS requests inside the window make the next one refused |
| RateLimit.AdmittedAfterWindow | backend/app/security/rate_limit.py:16-24 | once every request is at least WINDOW old, the entry exactly WINDOW old included, the history prunes to empty and the client is admitted |
| SessionGuard.Live | backend/app/security/session_guard.py:10-19 | a sweep keeps exactly the tokens at most SESSION_TTL old, with their issue times, and never grows the table |
| SessionGuard.Guard.constructor | backend/app/security/session_guard.py:4 | the session table starts empty |
| SessionGuard.Guard.CleanupSessions | backend/app/security/session_guard.py:10-19 | deleting the expired tokens one by one leaves exactly the swept table |
| SessionGuard.Guard.CreateSession | backend/app/security/session_guard.py:22-33 | at capacity after the sweep it raises "Too many active sessions" and inserts nothing; otherwise it inserts the fresh token at `now` and returns it, with the table within MAX_SESSIONS |
| SessionGuard.Guard.ValidateSession | backend/app/security/session_guard.py:36-43 | sweeps, and answers true iff the token was present and unexpired |
| SessionGuard.CapacityAfterCreate | backend/app/security/session_guard.py:24-31 | inserting a fresh token below capacity grows the table by one and keeps it within MAX_SESSIONS |
| SessionGuard.CreatedTokenLifetime | backend/app/security/session_guard.py:30-43 | a created token survives a later sweep iff it is at most SESSION_TTL old then |
| SessionGuard.RepeatedValidation | backend/app/security/session_guard.py:36-43 | validation does not consume a token: a second sweep before expiry still finds it |
| SessionGuard.SweepIdempotent | backend/app/security/session_guard.py:10-19 | sweeping twice at one instant equals sweeping once |
| DecisionEngine.Decide | backend/app/decision/decision_engine.py:1-9 | approved iff live and not duplicate; not live gives "liveness failed" whatever the duplicate flag; live and duplicate gives "duplicate identity"; a reason is present iff rejected |
| Similarity.CheckDuplicate | backend/app/services/similarity.py:17-29 | true iff some stored embedding scores strictly above 0.6; false on an empty registry |
| Similarity.SearchFace | backend/app/services/similarity.py:32-53 | `(False, 0.0)` on an empty registry; otherwise the score bounds every entry's similarity and is some entry's similarity unless every entry scores below the -1 seed; the flag is true iff the score exceeds 0.6, iff `check_duplicate` would answer true |
| Similarity.AppendedIsDuplicate | backend/app/services/similarity.py:17-29 | an appended embedding is found by any probe scoring above the threshold against it |
| Similarity.DuplicateStable | backend/app/services/similarity.py:17-29 | appending never hides an earlier duplicate |
| VectorStore.LoadDb | backend/app/db/vector_store.py:15-33 | a missing or unreadable file loads as the empty registry, a saved one as its list |
| VectorStore.SaveDb | backend/app/db/vector_store.py:36-42 | what is saved loads back unchanged |
| VectorStore.JpgNames | backend/app/db/vector_store.py:75-78 | the glob lists exactly the directory's `.jpg` names, none when the directory is missing |
| VectorStore.Store.IdentityCount | backend/app/db/vector_store.py:70-78 | 0 when the image directory is missing |
| VectorStore.Store.StoreFace | backend/app/db/vector_store.py:45-63 | returns `<hex>.jpg`; the directory gains exactly that file; the file becomes the loaded registry plus the embedding, exactly `[embedding]` from a missing or corrupt file; the count grows by one |
| VectorStore.Store.ListIdentities | backend/app/db/vector_store.py:81-88 | lists each `.jpg` name exactly once, so its length is the identity count |
| VectorStore.Store.ResetRegistry | backend/app/db/vector_store.py:91-100 | the embeddings file is gone, an existing directory is emptied, a missing one stays missing; the registry loads empty and the count is 0 |
| AttemptLogger.NewEntry | backend/app/admin/attempt_logger.py:10-13 | the entry has the keys of `data` plus "timestamp", the values of `data` win, the generated time fills a missing timestamp |
| AttemptLogger.PriorLogs | backend/app/admin/attempt_logger.py:15-22 | the stored records, or nothing for a missing or unreadable log |
| AttemptLogger.AttemptLog.LogAttempt | backend/app/admin/attempt_logger.py:8-27 | a readable log grows by one entry at the end, its old entries unchanged; a missing or unreadable log is replaced by `[entry]` |
| AdminRoutes.GetAttempts | backend/app/admin/admin_routes.py:12-19 | `[]` for a missing log, the records unchanged otherwise, a raise for an unparseable file |
| AdminRoutes.CountStatus | backend/app/admin/admin_routes.py:31-32 | a status count never exceeds the number of entries |
| AdminRoutes.GetStats | backend/app/admin/admin_routes.py:22-38 | `{"total": 0}` for a missing log; a raise for an unparseable file or a missing "status" key; a readable log whose entries all have a "status" gives the counts, the total being the log length and approved and rejected the numbers of entries with that status, their sum never exceeding the total |
| AdminRoutes.CountAppend | backend/app/admin/admin_routes.py:31-32 | counts split over concatenation |
| AdminRoutes.CountPush | backend/app/admin/admin_routes.py:31-32 | one more entry adds one to the count of its own status and nothing to the others |
| AdminRoutes.ApprovedPlusRejected | backend/app/admin/admin_routes.py:31-37 | approved plus rejected is at most the total, "error" entries counting in neither |
| AdminRoutes.LoggedAttemptCounted | backend/app/admin/admin_routes.py:31-37 | logging an attempt of status `s` raises the total by one and the count of `s` by one |
| ImageQuality.CheckImageQuality | backend/app/services/image_quality.py:10-41 | blur below 20 gives "image blurry" whatever the brightness; then below 40 "too dark"; then above 220 "too bright"; valid iff blur at least 20 and brightness in [40, 220], with both bounds accepted; valid iff no reason |
| ImageQuality.AlwaysTruthy | backend/app/services/image_quality.py:32-41 | every result is a 2-tuple, which is truthy |
| Liveness.AbsDiffSum | backend/app/services/liveness.py:6 | identical frames differ by 0 |
| Liveness.LivenessCheck | backend/app/services/liveness.py:1-10 | raises iff the flat lengths differ; otherwise true iff the mean absolute difference exceeds 5; identical frames, and empty ones, give false |
| Liveness.AbsDiffSumSymmetric | backend/app/services/liveness.py:6 | the summed difference is symmetric |
| Liveness.LivenessSymmetric | backend/app/services/liveness.py:1-10 | the verdict does not depend on the order of the frames |
| Liveness.DiffBounded | backend/app/services/liveness.py:6 | for 8-bit frames the summed difference is at most 255 per pixel |
| Liveness.MeanDiffInRange | backend/app/services/liveness.py:6 | for 8-bit frames the mean difference lies in [0, 255] |
| VideoProcessing.ReadablePrefix | backend/app/services/video_processing.py:13-20 | at most `cap` frames, in stream order, stopping only at the cap, the end or a failed read |
| VideoProcessing.ExtractFrames | backend/app/services/video_processing.py:4-24 | the read loop yields exactly the readable prefix, at most `max_frames` frames, and nothing for an unopenable or empty video |
| VideoProcessing.PrefixUnique | backend/app/services/video_processing.py:13-20 | any run of successful reads ending at the cap, the end or a failed read is the readable prefix |
| VisionPipeline.GetEmbedding | backend/app/services/embedding.py:3-9 | an embedding exactly when the model finds a face |
| VisionPipeline.RunVisionPipeline | backend/app/services/vision_pipeline.py:9-76 | success iff both faces are found, the motion liveness passes and the second frame yields an embedding; then no error, liveness true and the second frame's embedding; every failure has no embedding and a message, with liveness true only on "embedding failed"; the face, liveness and embedding failures, in that order, and the success result when every gate passes; a raise iff the liveness subtraction meets frames of different lengths; never "image too blurry" |
| VisionPipeline.QualityIgnored | backend/app/services/vision_pipeline.py:23-29 | any blur and brightness metrics give the same result |
| VisionPipeline.BlurryFramePasses | backend/app/services/vision_pipeline.py:23-29 | a frame `check_image_quality` calls blurry still passes when the other gates pass |
| VisionPipeline.EmbeddingFromSecondFrame | backend/app/services/vision_pipeline.py:59-60 | only the second frame's face is embedded |
| Stats.Steps | backend/app/services/active_liveness.py:38-41 | one distance per consecutive pair, later point first |
| ActiveLiveness.Faced | backend/app/services/active_liveness.py:66-73 | the faced landmarks never outnumber the frames read |
| ActiveLiveness.LastN | backend/app/services/active_liveness.py:56 | the deque holds at most the last 20 positions |
| ActiveLiveness.HeadMovement | backend/app/services/active_liveness.py:35-42 | 0.0 for fewer than two points, non-negative for a non-negative distance |
| ActiveLiveness.Score | backend/app/services/active_liveness.py:112-116 | with non-negative metrics the score lies in [0, 0.9] |
| ActiveLiveness.Summary | backend/app/services/active_liveness.py:101-127 | the frames processed and blink count are reported as given; the head movement is the mean step of the kept nose positions; jitter is 0 with at most 5 nose positions and otherwise the deviation of their steps; mouth variance is 0 with at most 5 samples and otherwise their deviation; the confidence is the weighted score of these; live iff the unrounded score is at least 0.4; the score is in [0, 0.9] for non-negative norms and deviations |
| ActiveLiveness.Measure | backend/app/services/active_liveness.py:101-127 | the blink count is the number of blink ends in the faced frames |
| ActiveLiveness.ActiveSpec | backend/app/services/active_liveness.py:45-128 | a missing path gives "video_not_found", an unopenable one "cannot_open_video"; a measurement has at most 180 frames processed, live iff the score is at least 0.4, and a score in [0, 0.9] |
| ActiveLiveness.ActiveLivenessFromVideo | backend/app/services/active_liveness.py:45-128 | the frame loop computes exactly the specified result |
| ActiveLiveness.FacedStep | backend/app/services/active_liveness.py:66-71 | a frame without a face changes no tracked list; one with a face appends its landmarks |
| ActiveLiveness.ProjectionsStep | backend/app/services/active_liveness.py:80-97 | a faced frame appends its eye ratio, nose tip and mouth opening |
| ActiveLiveness.LastNPush | backend/app/services/active_liveness.py:93 | pushing onto a full deque drops its oldest element |
| ActiveLiveness.TrailingClosedRun | backend/app/services/active_liveness.py:85-90 | the run counter is at least `n` iff the last `n` faced frames are all closed |
| ActiveLiveness.BlinkStep | backend/app/services/active_liveness.py:85-90 | a closed eye lengthens the run and counts nothing; an open eye resets it and counts a blink iff the run had reached 2 |
| ActiveLiveness.TrackMeaning | backend/app/services/active_liveness.py:53-97 | the loop's counters equal the trailing closed run, the number of blink ends, the last 20 nose positions and all mouth openings |
| ActiveLiveness.TrackStep | backend/app/services/active_liveness.py:61-97 | each faced frame applies one update step |
| ActiveLiveness.NoFaceFaced | backend/app/services/active_liveness.py:70-71 | frames without a face leave nothing to measure |
| ActiveLiveness.NoFaceNotLive | backend/app/services/active_liveness.py:61-118 | an opened video without faces measures confidence 0 and is not live, its frames still counted |
| ActiveLiveness.OpenRunNotCounted | backend/app/services/active_liveness.py:85-90 | a closed run still open at the end is not counted as a blink |
| DeepfakeCheck.FacesIn | backend/app/services/deepfake_check.py:15-20 | frames without a face are skipped |
| DeepfakeCheck.Embeddings | backend/app/services/deepfake_check.py:25 | one embedding per faced frame, in order |
| DeepfakeCheck.KeyPoints | backend/app/services/deepfake_check.py:28 | one key-point set per faced frame, in order |
| DeepfakeCheck.Cap | backend/app/services/deepfake_check.py:55 | the capped risk is at most 1.0 and at most the risk, and is one of them |
| DeepfakeCheck.DeepfakeSpec | backend/app/services/deepfake_check.py:5-55 | the risk is at most 1.0, and exactly 0.5 with fewer than two faced frames |
| DeepfakeCheck.DeepfakeRisk | backend/app/services/deepfake_check.py:5-55 | the frame loop computes exactly the specified risk |
| DeepfakeCheck.FacesStep | backend/app/services/deepfake_check.py:15-20 | a frame joins the faces exactly when the model finds one |
| DeepfakeCheck.CollectStep | backend/app/services/deepfake_check.py:24-34 | a face appends its embedding and key points, and its motion against the previous face's key points |
| DeepfakeCheck.MotionAlwaysMeasured | backend/app/services/deepfake_check.py:46 | with two faces there is at least one motion sample, one fewer than the embeddings, so the `else 0` fallback never applies |
| DeepfakeCheck.RiskInUnitRange | backend/app/services/deepfake_check.py:49-55 | with a non-negative norm the risk is in [0, 1] |
| DeepfakeCheck.StillFaceNoRisk | backend/app/services/deepfake_check.py:40-55 | an unchanging face carries risk 0 |
| Kyc.Register | backend/app/api/kyc.py:66-74 | the decision on the loaded registry's duplicate check; the frame and embedding are stored iff approved, and nothing changes otherwise |
| Kyc.VerifySpec | backend/app/api/kyc.py:43-80 | stored iff approved; an undecodable image gives "invalid image"; a pipeline raise gives error "verification failed"; approved iff both images decode, every gate passes and the second image's embedding is no duplicate; what is stored is the second image and its embedding |
| Kyc.Verify | backend/app/api/kyc.py:43-80 | the route answers and stores exactly as specified |
| Kyc.VerifyPassesPipelineError | backend/app/api/kyc.py:58-62 | a pipeline failure is rejected with the pipeline's own error and stores nothing |
| Kyc.ReverifyIsDuplicate | backend/app/api/kyc.py:66-74 | verifying the same images after an approval is rejected as "duplicate identity" |
| Kyc.Search | backend/app/api/kyc.py:87-121 | an undecodable image gives error "invalid image", no face "encoding failed"; otherwise match_found iff duplicate, with only its score under "similarity_score" or "closest_score", the best-match score, and no reason |
| Kyc.PairRuns | backend/app/api/kyc.py:159-160 | one pipeline run per consecutive pair |
| Kyc.FirstPass | backend/app/api/kyc.py:159-164 | a picked index is in range and its run succeeded |
| Kyc.FirstPassIsFirst | backend/app/api/kyc.py:159-164 | every run before the picked one returned without success; with none picked, every run did |
| Kyc.NoPassFromHere | backend/app/api/kyc.py:159-171 | when every run returns without success, nothing is picked |
| Kyc.FirstPassRaises | backend/app/api/kyc.py:159-164 | a run that raises after only unsuccessful runs ends the scan with its exception |
| Kyc.AfterPassive | backend/app/api/kyc.py:176-216 | stored iff approved; what is stored is the selected frame and the passing run's embedding; when active liveness is not measured or not live, "active liveness failed" with `confidence` (0 when missing) and nothing stored; otherwise the decision on liveness and duplication with `active_confidence` attached, the deepfake gate never intervening |
| Kyc.AfterPassiveStages | backend/app/api/kyc.py:176-216 | active liveness, the deepfake gate and the decision answer and store as specified |
| Kyc.VideoSpec | backend/app/api/kyc.py:128-223 | stored iff approved; fewer than two frames gives "not enough frames"; a pair run that raises before any success gives error "verification pipeline failure"; no passing pair gives "passive liveness failed"; after a passing pair, a failed active check gives "active liveness failed" with its confidence; nothing is stored on any of these; "deepfake suspicion" never occurs |
| Kyc.VerifyVideo | backend/app/api/kyc.py:128-223 | the route answers and stores exactly as specified |
| Kyc.DeepfakeGateDead | backend/app/api/kyc.py:190-196 | the risk never exceeds 1.2 |
| Kyc.VideoIgnoresDeepfakeNorm | backend/app/api/kyc.py:190-196 | the deepfake norm has no influence on the route's outcome |
| Kyc.VideoApprovedIffNotDuplicate | backend/app/api/kyc.py:201-214 | past the passive and active gates, approved iff the selected frame's embedding is no duplicate, answering only "active_confidence" and storing `frames[i + 1]` |
| Kyc.NoPassingPairRejected | backend/app/api/kyc.py:159-171 | a video none of whose pairs passes is rejected with "passive liveness failed" and stores nothing |
| Kyc.Reset | backend/app/api/kyc.py:240-243 | answers "registry cleared" with the registry empty and the count 0 |

## Left out

- Floating point: reals are exact and numpy's float arithmetic and NaN handling are not modelled, beyond the NaN mean of an empty frame comparing false.
- ActiveLiveness.Summary: the reported confidence, head movement, jitter and mouth variance are unrounded; `round(·, 2)` and `round(·, 3)` are not modelled, and `is_live` uses the unrounded score as the source does.
- Kyc.AfterPassive: `active.get("confidence", 0)` yields the integer 0 when the key is missing; the model answers 0.0.
- The numerical models are parameters, not modelled: Laplacian variance, mean brightness, `detect_face`, the InsightFace model, the face mesh and eye aspect ratio, `np.linalg.norm`, `np.std` and `cosine_similarity`.
- `app.services.face_detection` and `app.utils.logger` are not part of this model. Face detection is a parameter, and the `log` calls are omitted.
- Console output is not modelled: the `print` calls in `check_image_quality` (image_quality.py:28), `liveness_check` (liveness.py:8) and `deepfake_risk` (deepfake_check.py:51-53), and the recovery message of `load_db` (vector_store.py:32), change no result.
- Kyc.Search: the "search failed" exception path is not modelled, since no modelled step of the route raises.
- The routes' exception handlers cover only the modelled raise, the liveness subtraction on frames of different lengths. Exceptions from `imwrite`, `np.save`, `json.dump` or the deepfake norm on mismatched shapes are not modelled.
- Temporary files are not modelled. `verify_video` writes the upload to a temporary file, and the model takes the file to exist; `os.remove` is omitted.
- The count and identities routes are not modelled. They only wrap `Store.IdentityCount` and `Store.ListIdentities` in a dictionary.
- Kyc.Verify: the fresh `uuid4().hex` is a parameter required to name no existing image, as a UUID collision is not modelled.
- SessionGuard.Guard.CreateSession: the fresh token is a parameter required to be absent from the table, and the two clock reads are one instant.
- Liveness.LivenessCheck: frames are flat sequences with no dimensions, so two frames of equal size but different shape, such as 480×640 and 640×480, are compared pixel by pixel, where numpy's subtraction would raise and `verify` would answer "verification failed". Numpy broadcasting of other shapes is not modelled either.
- Subdirectories of the image directory and names that fail to decode are not modelled: the directory maps names to frames and `os.listdir` lists those names.
- AttemptLogger.AttemptLog.LogAttempt: a log file that parses as JSON but is not an array, on which `logs.append` would raise, is not modelled; the file is missing, unparseable or an array of objects.
- `auth.py` (the API-key dependency of the admin routes), `main.py` (application wiring, which mounts only the `/kyc` router) and the frontend are not modelled.
- ActiveLiveness.ActiveSpec: the face mesh is a pure function of one frame. The module-level MediaPipe `FaceMesh` runs with `static_image_mode=False` and tracks faces across frames and across calls; that tracker state is not modelled.
- Concurrency between requests is not modelled: each route runs alone on the store.
