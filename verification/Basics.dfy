/** Vocabulary shared by the model: optional values, results, and the fixed-width
    integers and truncating division of Go. */
module Basics {

  datatype Option<+T> = None | Some(value: T)

  datatype Result<+T, +E> = Ok(value: T) | Err(error: E)

  const TWO_63: int := 0x8000_0000_0000_0000
  const TWO_64: int := 0x1_0000_0000_0000_0000

  type int64 = x: int | -0x8000_0000_0000_0000 <= x < 0x8000_0000_0000_0000

  type uint64 = x: int | 0 <= x < 0x1_0000_0000_0000_0000

  /** Two's-complement wrap-around of a 64-bit signed result. */
  function WrapInt64(x: int): (r: int64)
    ensures (r - x) % TWO_64 == 0
    ensures -TWO_63 <= x < TWO_63 ==> r == x
  {
    (x + TWO_63) % TWO_64 - TWO_63
  }

  /** Unsigned 64-bit subtraction. */
  function SubUint64(a: uint64, b: uint64): (r: uint64)
    ensures r == if b <= a then a - b else a - b + TWO_64
  {
    (a - b) % TWO_64
  }

  /** Go's integer division: the quotient is truncated toward zero. */
  function TruncDiv(a: int, b: int): int
    requires 0 < b
  {
    if 0 <= a then a / b else -(-a / b)
  }

  /** Go's remainder: it takes the sign of the dividend. */
  function TruncMod(a: int, b: int): int
    requires 0 < b
  {
    a - b * TruncDiv(a, b)
  }

  /** Truncation toward zero: the remainder is smaller than the divisor and has the sign of
      the dividend. */
  lemma TruncIs(a: int, b: int)
    requires 0 < b
    ensures a == b * TruncDiv(a, b) + TruncMod(a, b)
    ensures if 0 <= a then 0 <= TruncMod(a, b) < b else -b < TruncMod(a, b) <= 0
  {
    if a < 0 {
      assert -a == b * (-a / b) + -a % b;
    } else {
      assert a == b * (a / b) + a % b;
    }
  }

  lemma TruncNonNegative(a: nat, b: nat)
    requires 0 < b
    ensures TruncDiv(a, b) == a / b && TruncMod(a, b) == a % b
  {
    assert a == b * (a / b) + a % b;
  }

  function Abs(x: int): nat {
    if x < 0 then -x else x
  }

  lemma ConcatAssociative<T>(a: seq<T>, b: seq<T>, c: seq<T>)
    ensures a + (b + c) == (a + b) + c
  {
  }

  /** a can be obtained from b by deleting elements. */
  ghost predicate IsSubsequence<T(!new)>(a: seq<T>, b: seq<T>) {
    if a == [] then true
    else if b == [] then false
    else
      || (a[|a| - 1] == b[|b| - 1] && IsSubsequence(a[..|a| - 1], b[..|b| - 1]))
      || IsSubsequence(a, b[..|b| - 1])
  }

  lemma SubsequenceSkip<T(!new)>(a: seq<T>, b: seq<T>, x: T)
    requires IsSubsequence(a, b)
    ensures IsSubsequence(a, b + [x])
  {
    assert (b + [x])[..|b|] == b;
  }

  lemma SubsequenceTake<T(!new)>(a: seq<T>, b: seq<T>, x: T)
    requires IsSubsequence(a, b)
    ensures IsSubsequence(a + [x], b + [x])
  {
    assert (a + [x])[..|a|] == a && (b + [x])[..|b|] == b;
  }
}
