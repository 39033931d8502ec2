/** The 64-bit machine words of Go and the carry primitives of `math/bits`.
    Wrap-around is written out: every result is a value below 2^64. */
module Words {

  const W: int := 0x1_0000_0000_0000_0000
  const W2: int := 0x1_0000_0000_0000_0000_0000_0000_0000_0000
  const HALF: int := 0x8000_0000_0000_0000

  type Word = x: int | 0 <= x < 0x1_0000_0000_0000_0000

  /** bits.Add64 */
  method Add64(x: Word, y: Word, carry: Word) returns (sum: Word, carryOut: Word)
    requires carry <= 1
    ensures sum + W * carryOut == x + y + carry && carryOut <= 1
  {
    sum := (x + y + carry) % W;
    carryOut := (x + y + carry) / W;
  }

  /** bits.Sub64 */
  method Sub64(x: Word, y: Word, borrow: Word) returns (diff: Word, borrowOut: Word)
    requires borrow <= 1
    ensures diff - W * borrowOut == x - y - borrow && borrowOut <= 1
  {
    diff := (x - y - borrow) % W;
    borrowOut := if x < y + borrow then 1 else 0;
  }

  lemma ProductBound(x: int, y: int, b: int)
    requires 0 <= x <= b && 0 <= y <= b
    ensures 0 <= x * y <= b * b
  {
    MulMonotone(x, y, b);
    MulMonotone(b, x, b);
  }

  lemma MulMonotone(a: int, x: int, y: int)
    requires 0 <= a && 0 <= x <= y
    ensures 0 <= a * x <= a * y
    ensures 0 <= x * a <= y * a
  {
  }

  /** bits.Mul64 */
  method Mul64(x: Word, y: Word) returns (hi: Word, lo: Word)
    ensures hi * W + lo == x * y && hi <= W - 2
  {
    ProductBound(x, y, W - 1);
    hi, lo := (x * y) / W, (x * y) % W;
  }

  /** The truncated product of Go's `*` on uint64. */
  method MulLow(x: Word, y: Word) returns (lo: Word, ghost k: int)
    ensures lo + k * W == x * y
  {
    lo, k := (x * y) % W, (x * y) / W;
  }
}
