/** The Some/None datatype used in place of null, and a way to keep the parts of a
    predicate out of proofs that do not need them. */
module Wrappers {

  datatype Option<+T> = None | Some(value: T)

  /** Always true.  A predicate written as a quantifier over Look shows its parts
      only to a proof that mentions Look, which then reads `assert Look(0)`. */
  predicate Look(u: nat) {
    u + 1 > u
  }

  /** Equality taken as a whole: no proof about it goes into the elements. */
  ghost predicate Same<T>(x: T, y: T) {
    Some(x) == Some(y)
  }

  /** Like Look, for a part that only few proofs need beside the others. */
  predicate Study(u: nat) {
    u + 1 > u
  }
}
