/** Values shared by every module of the verification backend. */
module Types {

  datatype Option<T> = None | Some(value: T)

  /** The outcome of a Python call that may raise: a value, or the exception it raised. */
  datatype Result<T> = Ok(value: T) | Raised(message: string)

  /** A decoded image, as the flat sequence of its 8-bit channel intensities. */
  type Frame = seq<int>

  /** A face embedding vector. */
  type Embedding = seq<real>

  /** The first face the face-analysis model finds in a frame: its embedding and its key points. */
  datatype Face = Face(embedding: Embedding, kps: seq<real>)

  /**
   * The JSON object a route returns: the "status" and optional "reason"
   * strings, and the numeric fields some routes attach (such as
   * "confidence", "active_confidence", "similarity_score", "closest_score").
   */
  datatype Response = Response(status: string, reason: Option<string>, metrics: map<string, real>)

  function Reply(status: string, reason: string): (r: Response)
    ensures r.status == status && r.reason == Some(reason) && r.metrics == map[]
  {
    Response(status, Some(reason), map[])
  }
}
