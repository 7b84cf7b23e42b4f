/** C#'s 32-bit `int` and its unchecked (wrap-around) arithmetic. */
module CSharpInt {

  const TwoTo31: int := 0x8000_0000
  const TwoTo32: int := 0x1_0000_0000

  /** The values of a C# `int`. */
  type Int32 = x: int | -TwoTo31 <= x < TwoTo31

  /** The `int` that C# produces for the exact integer result `x` in an
      unchecked context: the unique value in range congruent to `x` modulo 2^32. */
  function Wrap32(x: int): (r: Int32)
    ensures (r - x) % TwoTo32 == 0
    ensures -TwoTo31 <= x < TwoTo31 ==> r == x
  {
    (x + TwoTo31) % TwoTo32 - TwoTo31
  }

  /** Only one `int` is congruent to a given integer, so Wrap32 is determined
      by its two properties. */
  lemma WrapUnique(x: int, r: int)
    requires -TwoTo31 <= r < TwoTo31
    requires (r - x) % TwoTo32 == 0
    ensures r == Wrap32(x)
  {
    var w := Wrap32(x);
    assert (r - w) % TwoTo32 == 0 by {
      assert r - w == (r - x) - (w - x);
    }
  }

  /** Wrapping an intermediate product does not change the wrapped final product:
      `unchecked(unchecked(a) * b) == unchecked(a * b)`. */
  lemma WrapMul(a: int, b: int)
    ensures Wrap32(Wrap32(a) * b) == Wrap32(a * b)
  {
    var w := Wrap32(a);
    var q := (w - a) / TwoTo32;
    assert w - a == TwoTo32 * q;
    assert w * b - a * b == TwoTo32 * (q * b) by {
      assert w * b - a * b == (w - a) * b;
    }
    var r := Wrap32(w * b);
    assert (r - a * b) % TwoTo32 == 0 by {
      assert r - a * b == (r - w * b) + TwoTo32 * (q * b);
    }
    WrapUnique(a * b, r);
  }
}
