/**
 * Duplicate detection and best-match search over the stored embeddings.
 * The cosine similarity is a parameter `sim`: its floating-point formula is not modelled.
 */
module Similarity {
  import opened Types

  const SIM_THRESHOLD: real := 0.6

  type SimilarityFn = (Embedding, Embedding) -> real

  /** Some stored embedding scores strictly above the threshold against `probe`. */
  ghost predicate IsDuplicate(db: seq<Embedding>, probe: Embedding, sim: SimilarityFn)
  {
    exists i :: 0 <= i < |db| && sim(probe, db[i]) > SIM_THRESHOLD
  }

  /** `check_duplicate(new_emb)` over the loaded registry `db`: a scan that returns at the first hit. */
  method CheckDuplicate(db: seq<Embedding>, probe: Embedding, sim: SimilarityFn) returns (duplicate: bool)
    ensures duplicate <==> IsDuplicate(db, probe, sim)
    ensures db == [] ==> !duplicate
  {
    for i := 0 to |db|
      invariant forall j :: 0 <= j < i ==> sim(probe, db[j]) <= SIM_THRESHOLD
    {
      var score := sim(probe, db[i]);
      if score > SIM_THRESHOLD {
        return true;
      }
    }
    return false;
  }

  /** The larger of two scores, as Python's `max`. */
  function Max(a: real, b: real): real
  {
    if b > a then b else a
  }

  /**
   * What the score `search_face` reports means: 0.0 for an empty registry;
   * otherwise an upper bound of every entry's similarity that is the -1 seed
   * or some entry's similarity, and the latter whenever some entry scores at
   * least -1.
   */
  ghost predicate IsSearchScore(db: seq<Embedding>, probe: Embedding, sim: SimilarityFn, score: real)
  {
    (db == [] ==> score == 0.0) &&
    (forall i :: 0 <= i < |db| ==> sim(probe, db[i]) <= score) &&
    (db != [] ==> score == -1.0 || exists i :: 0 <= i < |db| && score == sim(probe, db[i])) &&
    ((exists i :: 0 <= i < |db| && sim(probe, db[i]) >= -1.0) ==> exists i :: 0 <= i < |db| && score == sim(probe, db[i]))
  }

  /**
   * `search_face(new_emb)` over the loaded registry `db`. On a non-empty
   * registry the score is the best similarity, seeded with -1.
   */
  method SearchFace(db: seq<Embedding>, probe: Embedding, sim: SimilarityFn) returns (found: bool, score: real)
    ensures db == [] ==> !found && score == 0.0
    ensures IsSearchScore(db, probe, sim, score)
    ensures db != [] ==> (found <==> score > SIM_THRESHOLD)
    ensures found <==> IsDuplicate(db, probe, sim)
  {
    if db == [] {
      return false, 0.0;
    }
    var best := -1.0;
    for i := 0 to |db|
      invariant best >= -1.0
      invariant forall j :: 0 <= j < i ==> sim(probe, db[j]) <= best
      invariant best == -1.0 || exists j :: 0 <= j < i && best == sim(probe, db[j])
      invariant (exists j :: 0 <= j < i && sim(probe, db[j]) >= -1.0) ==> exists j :: 0 <= j < i && best == sim(probe, db[j])
    {
      var s := sim(probe, db[i]);
      best := Max(best, s);
    }
    if best > SIM_THRESHOLD {
      return true, best;
    }
    return false, best;
  }

  /** An embedding appended to the registry is found again by any probe that scores above the threshold against it. */
  lemma AppendedIsDuplicate(db: seq<Embedding>, stored: Embedding, probe: Embedding, sim: SimilarityFn)
    requires sim(probe, stored) > SIM_THRESHOLD
    ensures IsDuplicate(db + [stored], probe, sim)
  {
    assert (db + [stored])[|db|] == stored;
  }

  /** Appending never hides an earlier duplicate. */
  lemma DuplicateStable(db: seq<Embedding>, stored: Embedding, probe: Embedding, sim: SimilarityFn)
    requires IsDuplicate(db, probe, sim)
    ensures IsDuplicate(db + [stored], probe, sim)
  {
    var i :| 0 <= i < |db| && sim(probe, db[i]) > SIM_THRESHOLD;
    assert (db + [stored])[i] == db[i];
  }
}
