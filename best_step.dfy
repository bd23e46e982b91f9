/** The engine's best-step bookkeeping: `bestStepRating` and `bestStep`, and the
    strict-improvement rule of `rememberBestStep`. */
module BestStep {
  import opened Board

  /** The pair (bestStepRating, bestStep). */
  datatype Best = Best(rating: int, step: Step)

  /** The neutral state findMove starts from: rating 0 and no step. */
  const Reset: Best := Best(0, NoStep)

  /** An offered rating beats the stored one: greater when the engine plays X,
      smaller when it plays O. */
  predicate Improves(isAIFigureX: bool, rating: int, stored: int) {
    if isAIFigureX then rating > stored else rating < stored
  }

  /** `x` is at least as good as `y` for the engine's side. */
  predicate AtLeast(isAIFigureX: bool, x: int, y: int) {
    if isAIFigureX then x >= y else x <= y
  }

  /** The state after rememberBestStep(rating, step). */
  function Remember(isAIFigureX: bool, b: Best, rating: int, step: Step): (r: Best)
    // only the offered pair can be recorded, and only when it is strictly better
    ensures r == b || (r == Best(rating, step) && Improves(isAIFigureX, rating, b.rating))
    // a strictly better offer is always taken
    ensures Improves(isAIFigureX, rating, b.rating) ==> r.rating == rating && r.step == step
    // the stored rating never gets worse
    ensures AtLeast(isAIFigureX, r.rating, b.rating)
    // a tie keeps the step found earlier
    ensures rating == b.rating ==> r == b
  {
    if Improves(isAIFigureX, rating, b.rating) then Best(rating, step) else b
  }

  /** Offering the same pair twice changes nothing the second time. */
  lemma RememberIdempotent(isAIFigureX: bool, b: Best, rating: int, step: Step)
    ensures var once := Remember(isAIFigureX, b, rating, step);
      Remember(isAIFigureX, once, rating, step) == once
  {
  }
}
