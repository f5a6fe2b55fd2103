/**
 * Image-quality classification from a frame's blur score (variance of the
 * Laplacian) and mean grey brightness, both computed outside the model.
 */
module ImageQuality {
  import opened Types

  const BLUR_THRESHOLD: real := 20.0
  const BRIGHT_MIN: real := 40.0
  const BRIGHT_MAX: real := 220.0

  /** The pair `(is_valid, reason)` that `check_image_quality` returns. */
  datatype Quality = Quality(isValid: bool, reason: Option<string>)

  /** `check_image_quality(frame)`: blur first, then too dark, then too bright. */
  function CheckImageQuality(blur: real, brightness: real): (q: Quality)
    ensures blur < BLUR_THRESHOLD ==> q == Quality(false, Some("image blurry"))
    ensures blur >= BLUR_THRESHOLD && brightness < BRIGHT_MIN ==> q == Quality(false, Some("too dark"))
    ensures blur >= BLUR_THRESHOLD && brightness > BRIGHT_MAX ==> q == Quality(false, Some("too bright"))
    ensures q.isValid <==> blur >= BLUR_THRESHOLD && BRIGHT_MIN <= brightness <= BRIGHT_MAX
    ensures q.isValid <==> q.reason == None
  {
    if blur < BLUR_THRESHOLD then Quality(false, Some("image blurry"))
    else if brightness < BRIGHT_MIN then Quality(false, Some("too dark"))
    else if brightness > BRIGHT_MAX then Quality(false, Some("too bright"))
    else Quality(true, None)
  }

  /** Every result is a Python 2-tuple. */
  function Arity(q: Quality): nat
  {
    2
  }

  /** Python's truth value of a tuple: true exactly when it has an item. */
  predicate Truthy(q: Quality)
  {
    Arity(q) > 0
  }

  /** Whatever the metrics, the result tests true in a boolean context, so `not check_image_quality(...)` is always false. */
  lemma AlwaysTruthy(blur: real, brightness: real)
    ensures Truthy(CheckImageQuality(blur, brightness))
  {
  }
}
