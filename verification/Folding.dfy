/** A predicate whose body reads `forall u :: Unfold(u) ==> ...` is shown to the verifier only where
    `Unfold` is mentioned. */
module Folding {
  predicate Unfold(u: bool) { u }
}
