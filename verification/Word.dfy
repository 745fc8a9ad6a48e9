/** 32-bit machine words as bounded integers: arithmetic wraps explicitly, bitwise operators
    work digit by digit. */
module Word {

  const WORD_SPAN := 0x1_0000_0000

  type word = x: int | 0 <= x < 0x1_0000_0000
  type byte = x: int | 0 <= x < 256

  datatype Option<+T> = None | Some(value: T)

  /** Three coordinates, as in block and grid dimensions. */
  datatype Dim3 = Dim3(x: word, y: word, z: word)

  function Add(a: word, b: word): word { (a + b) % WORD_SPAN }

  function Sub(a: word, b: word): word { (a - b) % WORD_SPAN }

  function Mul(a: word, b: word): word { (a * b) % WORD_SPAN }

  /** The bitwise operators, digit by digit. */
  datatype Gate = AndGate | OrGate | XorGate

  predicate Gated(gate: Gate, x: bool, y: bool) {
    match gate
    case AndGate => x && y
    case OrGate => x || y
    case XorGate => x != y
  }

  function Bitwise(gate: Gate, a: nat, b: nat, n: nat): (r: nat)
    ensures r < Pow2(n)
  {
    if n == 0 then 0 else FromBool(Gated(gate, a % 2 == 1, b % 2 == 1)) + 2 * Bitwise(gate, a / 2, b / 2, n - 1)
  }

  lemma Pow2Word()
    ensures Pow2(32) == WORD_SPAN
  {
    assert Pow2(8) == 0x100 && Pow2(16) == 0x1_0000 && Pow2(24) == 0x100_0000;
  }

  function BitwiseWord(gate: Gate, a: word, b: word): word {
    Pow2Word();
    Bitwise(gate, a, b, 32)
  }

  function And(a: word, b: word): word { BitwiseWord(AndGate, a, b) }

  function Or(a: word, b: word): word { BitwiseWord(OrGate, a, b) }

  function Xor(a: word, b: word): word { BitwiseWord(XorGate, a, b) }

  function Not(a: word): word { 0xffff_ffff - a }

  function Pow2(n: nat): (p: nat)
    ensures p >= 1
  {
    if n == 0 then 1 else 2 * Pow2(n - 1)
  }

  function Shl(a: word, n: nat): word { (a * Pow2(n)) % WORD_SPAN }

  function Shr(a: word, n: nat): (r: word)
    ensures r <= a
  {
    DivShrinks(a, Pow2(n));
    a / Pow2(n)
  }

  /** Arithmetic right shift: the sign bit is replicated. */
  function Sra(a: word, n: nat): word {
    if a < 0x8000_0000 then Shr(a, n) else Not(Shr(Not(a), n))
  }

  function Signed(a: word): int { if a < 0x8000_0000 then a else a - WORD_SPAN }

  /** The low bits of `value` below `span`, a power of two, read as a signed number. */
  function SignExtend(value: word, span: nat): word
    requires 2 <= span <= WORD_SPAN
  {
    var low := value % span;
    if low < span / 2 then low else low + WORD_SPAN - span
  }

  function FromBool(b: bool): word { if b then 1 else 0 }

  lemma DivShrinks(a: nat, d: nat)
    requires d >= 1
    ensures 0 <= a / d <= a
  {
    if d > a {
      assert a / d == 0;
    }
  }
}
