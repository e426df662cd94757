/** The parts of C integer arithmetic that differ from Dafny's. */
module CArithmetic {

  const INT32_MAX: int := 0x7fff_ffff
  const INT32_MIN: int := -0x8000_0000

  /** C division truncates toward zero. */
  function TruncDiv(a: int, b: int): (q: int)
    requires b > 0
    ensures a >= 0 ==> q >= 0 && q * b <= a < (q + 1) * b
    ensures a < 0 ==> q <= 0 && (q - 1) * b < a <= q * b
  {
    if a >= 0 then
      Quotient(a, b);
      a / b
    else
      Quotient(-a, b);
      Negated(-a, (-a) / b, b);
      -((-a) / b)
  }

  lemma Quotient(a: nat, b: int)
    requires b > 0
    ensures 0 <= a / b
    ensures a / b * b <= a < (a / b + 1) * b
  {
  }

  lemma Negated(a: int, q: int, b: int)
    requires q * b <= a < (q + 1) * b
    ensures (-q - 1) * b < -a <= -q * b
  {
  }

  predicate IsInt32(x: int) { INT32_MIN <= x <= INT32_MAX }

  /** Conversion to int32_t. */
  function ToInt32(x: int): (y: int)
    ensures IsInt32(y)
    ensures IsInt32(x) ==> y == x
  {
    var m := x % 0x1_0000_0000;
    if m > INT32_MAX then m - 0x1_0000_0000 else m
  }

  /** Conversion to uint16_t and uint8_t. */
  function ToUint16(x: int): (y: nat)
    ensures 0 <= y < 0x1_0000
    ensures 0 <= x < 0x1_0000 ==> y == x
  {
    x % 0x1_0000
  }

  function ToUint8(x: int): (y: nat)
    ensures 0 <= y < 0x100
    ensures 0 <= x < 0x100 ==> y == x
  {
    x % 0x100
  }

  function Min(a: int, b: int): int { if a < b then a else b }

  function Max(a: int, b: int): int { if a < b then b else a }

  lemma MultiplyOrder(a: int, b: int, d: int)
    requires d >= 0
    ensures a <= b ==> a * d <= b * d
  {
  }

  /** A truncated quotient of a value between lo*d and hi*d lies between lo and hi. */
  lemma {:induction false} TruncDivBounds(a: int, d: int, lo: int, hi: int)
    requires d > 0 && lo * d <= a <= hi * d
    ensures lo <= TruncDiv(a, d) <= hi
  {
    hide TruncDiv;
    var q := TruncDiv(a, d);
    QuotientBelow(q, a, d, lo, hi);
  }

  /** A quotient q that is not past a towards zero, and less than one from it. */
  lemma {:induction false} QuotientBelow(q: int, a: int, d: int, lo: int, hi: int)
    requires d > 0 && lo * d <= a <= hi * d
    requires (0 <= q && 0 <= q * d <= a < (q + 1) * d) || (q <= 0 && (q - 1) * d < a <= q * d && a <= 0)
    ensures lo <= q <= hi
  {
    if q < lo {
      MultiplyOrder(q + 1, lo, d);
      assert false;
    }
    if q > hi {
      MultiplyOrder(hi, q - 1, d);
      MultiplyOrder(hi + 1, q, d);
    }
  }

  lemma {:induction false} TruncDivExact(q: int, d: int)
    requires d > 0
    ensures TruncDiv(q * d, d) == q
  {
    TruncDivBounds(q * d, d, q, q);
  }
}
