// Fixed-width integers, the casts the library relies on, and sums of reals.

module Numeric {
  datatype Option<+T> = None | Some(value: T)

  type u8 = x: int | 0 <= x < 0x100
  type u16 = x: int | 0 <= x < 0x1_0000
  type u32 = x: int | 0 <= x < 0x1_0000_0000

  function Wrap16(x: int): u16 {
    x % 0x1_0000
  }

  function Wrap32(x: int): u32 {
    x % 0x1_0000_0000
  }

  // A double cast to uint32_t. C++ defines it where the value fits; elsewhere the model keeps the
  // low 32 bits.
  function ToU32(x: real): u32 {
    Wrap32(x.Floor)
  }

  // A double cast to a signed integer truncates towards zero.
  function Truncate(x: real): int {
    if x >= 0.0 then x.Floor else -((-x).Floor)
  }

  function Ceiling(x: real): int {
    -((-x).Floor)
  }

  // The index of the first element with the property, or the number of elements.
  function FindFirst<T>(xs: seq<T>, p: T -> bool): (i: nat)
    ensures i <= |xs| && (i < |xs| ==> p(xs[i])) && forall j :: 0 <= j < i ==> !p(xs[j])
  {
    if xs == [] || p(xs[0]) then 0 else 1 + FindFirst(xs[1..], p)
  }

  function Power(b: real, n: nat): real {
    if n == 0 then 1.0 else b * Power(b, n - 1)
  }

  // Multiplication by name, so that a proof can treat a product as a value.
  function Times(x: real, y: real): real {
    x * y
  }

  function Max(x: real, y: real): real {
    if x < y then y else x
  }

  function Abs(x: real): real {
    if x < 0.0 then -x else x
  }

  function Sum(xs: seq<real>): real {
    if xs == [] then 0.0 else Sum(xs[..|xs| - 1]) + xs[|xs| - 1]
  }

  lemma SumStep(xs: seq<real>, n: nat)
    requires n < |xs|
    ensures Sum(xs[..n + 1]) == Sum(xs[..n]) + xs[n]
  {
    assert xs[..n + 1][..n] == xs[..n];
  }

  lemma {:induction false} SumPrefixMonotone(xs: seq<real>, m: nat, n: nat)
    requires m <= n <= |xs| && forall k :: 0 <= k < |xs| ==> xs[k] >= 0.0
    ensures 0.0 <= Sum(xs[..m]) <= Sum(xs[..n])
    decreases n
  {
    if m < n {
      SumPrefixMonotone(xs, m, n - 1);
      SumStep(xs, n - 1);
    } else if m > 0 {
      SumPrefixMonotone(xs, m - 1, m - 1);
      SumStep(xs, m - 1);
    } else {
      assert xs[..m] == [];
    }
  }

  lemma WrapIdentity32(x: u32)
    ensures Wrap32(x) == x
  {
  }

  lemma WrapShift32(z: int, q: int)
    ensures Wrap32(z + 0x1_0000_0000 * q) == Wrap32(z)
  {
    assert (z + 0x1_0000_0000 * q) / 0x1_0000_0000 == z / 0x1_0000_0000 + q;
  }

  lemma WrapAdd32(x: int, y: int)
    ensures Wrap32(Wrap32(x) + y) == Wrap32(x + y)
  {
    WrapShift32(x + y, -(x / 0x1_0000_0000));
  }

  lemma WrapAdd16(x: int, y: int)
    ensures Wrap16(Wrap16(x) + y) == Wrap16(x + y)
  {
    var q := x / 0x1_0000;
    assert (x + y + 0x1_0000 * -q) / 0x1_0000 == (x + y) / 0x1_0000 - q;
  }

  lemma WrapSub32(x: int, y: int)
    ensures Wrap32(y - Wrap32(x)) == Wrap32(y - x)
  {
    WrapShift32(y - x, x / 0x1_0000_0000);
  }

  lemma PowerStep(b: real, n: nat)
    ensures Power(b, n + 1) == b * Power(b, n)
    ensures b > 0.0 ==> Power(b, n) > 0.0
  {
    if n > 0 {
      PowerStep(b, n - 1);
    }
  }

  lemma QuotientTimes(a: real, b: real)
    requires b != 0.0
    ensures Times(a / b, b) == a
  {
  }

  lemma TimesOrder(a: real, b: real, c: real)
    requires c > 0.0
    ensures a <= b <==> Times(a, c) <= Times(b, c)
  {
    assert b * c - a * c == (b - a) * c;
  }

  lemma TimesAdd(a: real, b: real, c: real)
    ensures Times(a + b, c) == Times(a, c) + Times(b, c)
    ensures Times(0.0, c) == 0.0
  {
  }

  // Values that agree modulo 2^32 and differ by less than 2^32 are equal.
  lemma WrapCancel32(x: int, y: int)
    requires Wrap32(x) == Wrap32(y) && -0x1_0000_0000 < x - y < 0x1_0000_0000
    ensures x == y
  {
  }
}
