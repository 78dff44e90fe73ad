/** Unsigned 64-bit arithmetic, which wraps. */
module Words {

  const WORD: int := 0x1_0000_0000_0000_0000

  function Wrap(x: int): (w: int)
    ensures 0 <= w < WORD && (0 <= x < WORD ==> w == x)
  {
    x % WORD
  }

  lemma {:induction false} WrapShift(x: int, k: int)
    ensures Wrap(x + k * WORD) == Wrap(x)
    decreases if k < 0 then -k else k
  {
    if k > 0 {
      WrapShift(x, k - 1);
    } else if k < 0 {
      WrapShift(x, k + 1);
    }
  }

  lemma {:induction false} WrapOfSum(x: int, y: int)
    ensures Wrap(Wrap(x) + y) == Wrap(x + y) && Wrap(x + Wrap(y)) == Wrap(x + y)
  {
    WrapShift(Wrap(x) + y, x / WORD);
    WrapShift(x + Wrap(y), y / WORD);
  }

  lemma {:induction false} WrapOfDifference(x: int, y: int)
    ensures Wrap(Wrap(x) - Wrap(y)) == Wrap(x - y)
  {
    WrapShift(Wrap(x) - Wrap(y), x / WORD - y / WORD);
  }

  lemma {:induction false} WrapOfProduct(x: int, y: int)
    ensures Wrap(Wrap(x) * y) == Wrap(x * y)
  {
    var k := x / WORD;
    assert x * y == Wrap(x) * y + (k * y) * WORD by {
      assert x == Wrap(x) + k * WORD;
      assert (Wrap(x) + k * WORD) * y == Wrap(x) * y + k * WORD * y;
    }
    WrapShift(Wrap(x) * y, k * y);
  }

  lemma WrapOfSquare(x: int)
    ensures Wrap(Wrap(x) * Wrap(x)) == Wrap(x * x)
  {
    WrapOfProduct(x, Wrap(x));
    WrapOfProduct(x, x);
  }
}
