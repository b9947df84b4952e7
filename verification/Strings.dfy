/** Facts about concatenation that the solver does not volunteer. */
module Strings {

  lemma Assoc(x: string, y: string, z: string)
    ensures x + y + z == x + (y + z)
  {}
}
