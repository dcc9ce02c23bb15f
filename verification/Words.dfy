// 64-bit machine words: stu_uint_t and stu_int_t of stu_config.h on a 64-bit target.
module Words {
  const MODULUS: int := 0x1_0000_0000_0000_0000
  const HALF: int := 0x8000_0000_0000_0000

  type Word = x: int | 0 <= x < 0x1_0000_0000_0000_0000

  // Conversion of any integer to an unsigned word.
  function Wrap(x: int): Word {
    x % MODULUS
  }

  // Conversion of an unsigned word to a signed one.
  function Signed(w: Word): int {
    if w < HALF then w else w - MODULUS
  }

  function Pow2(k: int): (p: int)
    ensures p >= 1
  {
    if k <= 0 then 1 else 2 * Pow2(k - 1)
  }

  // Subtracting wrapped values and reading the result as signed recovers the true
  // difference whenever that difference fits in a signed word.
  lemma WrappedDifference(a: int, b: int)
    requires -0x8000_0000_0000_0000 <= a - b < 0x8000_0000_0000_0000
    ensures Signed(Wrap(Wrap(a) - Wrap(b))) == a - b
  {
    var d := Wrap(a) - Wrap(b);
    var k := a / MODULUS - b / MODULUS;
    assert a - b == d + k * MODULUS;
    if k >= 2 || k <= -2 {
      assert false;
    }
  }

  lemma WrapAdd(a: int, b: int)
    ensures Wrap(Wrap(a) + b) == Wrap(a + b)
  {
    assert a + b == Wrap(a) + b + MODULUS * (a / MODULUS);
  }

  lemma WrapSmall(x: int)
    requires 0 <= x < 0x1_0000_0000_0000_0000
    ensures Wrap(x) == x
  {
  }

  lemma WrapMultiple(a: int, k: int)
    ensures Wrap(a + k * 0x1_0000_0000_0000_0000) == Wrap(a)
  {
  }
}
