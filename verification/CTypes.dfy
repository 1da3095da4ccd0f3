/** What several of the programs take from C. */
module CTypes {

  /** The value of a comparison. */
  function Truth(b: bool): int {
    if b then 1 else 0
  }

  predicate IsDigit(c: char) {
    '0' <= c <= '9'
  }
}
