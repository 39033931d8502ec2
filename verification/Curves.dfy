/** Where the constants of the two curves come from. */
module Curves {
  import FieldElement
  import Gfp
  import Lattice

  /** The parameter of bn256. */
  const U: int := 4965661367192848881

  /** The prime is 36u^4 + 36u^3 + 24u^2 + 6u + 1 and the order 36u^4 + 36u^3 + 18u^2 + 6u + 1,
      for this u, which is not the cube of 1868033. */
  lemma Bn256Parameter()
    ensures Gfp.P == 36 * U * U * U * U + 36 * U * U * U + 24 * U * U + 6 * U + 1
    ensures Lattice.ORDER == 36 * U * U * U * U + 36 * U * U * U + 18 * U * U + 6 * U + 1
    ensures U != 1868033 * 1868033 * 1868033
  {
  }

  /** The parameter of BLS12-381. */
  const X: int := -0xd201000000010000

  /** The modulus is (x - 1)^2 * (x^4 - x^2 + 1) / 3 + x. */
  lemma Bls12381Parameter()
    ensures 3 * (FieldElement.Q - X) == (X - 1) * (X - 1) * (X * X * X * X - X * X + 1)
  {
  }
}
