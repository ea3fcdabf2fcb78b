/**
 A way to keep a large predicate folded. A quantifier triggered by a predicate that is always true stays shut
 until a proof mentions that predicate, which spares the verifier the details where they do not matter.
 */
module Folding {
  /** Unfolds the invariants of objects. */
  ghost predicate Key(k: nat) { true }

  /** Unfolds invariants of values. */
  ghost predicate ModelKey(k: nat) { true }
}
