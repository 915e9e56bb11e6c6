/** `atomicMaxFloat` of `sgl-kernel/include/utils.h`: the maximum of floating-point numbers computed
    by an integer maximum or minimum on their bit patterns. A pattern is a number below 2^32; what
    it means is read off its sign, exponent and fraction (section 3.4 of IEEE 754-2019). */
module FloatMax {
  import opened Common

  const SIGN: int := 0x8000_0000

  /** A 32-bit pattern, as an unsigned integer. */
  type Bits = b: int | 0 <= b < 0x1_0000_0000

  /** The pattern without its sign bit. */
  function Magnitude(b: Bits): int { if b < SIGN then b else b - SIGN }

  predicate IsNaN(b: Bits) { Magnitude(b) > 0x7F80_0000 }

  const NEGATIVE_ZERO: Bits := SIGN

  /** The number with exponent field `e` and fraction field `f`, in units of 2^-149. */
  function FieldsScaled(e: nat, f: nat): int {
    if e == 0 then f else (0x80_0000 + f) * Pow2(e - 1)
  }

  /** The number a magnitude stands for; infinity counts as 2^128. */
  function Scaled(m: int): int
    requires 0 <= m
  {
    FieldsScaled(m / 0x80_0000, m % 0x80_0000)
  }

  /** The number a pattern stands for, in the same units; the two zeros are equal. */
  function Numeric(b: Bits): int {
    if b < SIGN then Scaled(Magnitude(b)) else -Scaled(Magnitude(b))
  }

  /** The pattern read as a signed integer. */
  function Signed(b: Bits): int { if b < SIGN then b else b - 0x1_0000_0000 }

  /** `value >= 0` as a comparison of floating-point numbers. */
  predicate NotBelowZero(b: Bits) { !IsNaN(b) && Numeric(b) >= 0 }

  /** The cell after an update. */
  function Updated(cell: Bits, value: Bits): Bits {
    if NotBelowZero(value) then (if Signed(cell) < Signed(value) then value else cell)
    else (if value < cell then value else cell)
  }

  /** `atomicMaxFloat`, with the signed `atomicMax` and the unsigned `atomicMin` written out. */
  method AtomicMaxFloat(mem: array<Bits>, addr: nat, value: Bits) returns (before: Bits)
    requires addr < mem.Length
    modifies mem
    ensures before == old(mem[addr])
    ensures mem[..] == old(mem[..])[addr := Updated(old(mem[addr]), value)]
  {
    before := mem[addr];
    if NotBelowZero(value) {
      if Signed(mem[addr]) < Signed(value) {
        mem[addr] := value;
      }
    } else {
      if value < mem[addr] {
        mem[addr] := value;
      }
    }
  }

  // ----- bit patterns are ordered like numbers -----

  lemma {:induction false} Pow2Monotone(m: nat, n: nat)
    requires m <= n
    ensures Pow2(m) <= Pow2(n)
    decreases n
  {
    if m < n {
      Pow2Monotone(m, n - 1);
    }
  }

  lemma MulLess(a: int, b: int, k: int)
    requires a < b && 0 < k
    ensures a * k < b * k
  {
  }

  lemma MulLessOrEqual(a: int, k: int, k': int)
    requires 0 <= a && k <= k'
    ensures a * k <= a * k'
  {
  }

  /** The numbers with one exponent field lie between two powers of two. */
  lemma FieldsBounds(e: nat, f: nat)
    requires f < 0x80_0000
    ensures 0 <= FieldsScaled(e, f) < 0x80_0000 * Pow2(e)
    ensures 0 < e ==> 0x80_0000 * Pow2(e - 1) <= FieldsScaled(e, f)
  {
    if e > 0 {
      MulLess(0x80_0000 + f, 0x100_0000, Pow2(e - 1));
      MulLessOrEqual(Pow2(e - 1), 0x80_0000, 0x80_0000 + f);
    }
  }

  lemma FieldsMonotone(e: nat, f: nat, e': nat, f': nat)
    requires f < 0x80_0000 && f' < 0x80_0000 && (e < e' || (e == e' && f < f'))
    ensures FieldsScaled(e, f) < FieldsScaled(e', f')
  {
    if e == e' {
      if e > 0 {
        MulLess(0x80_0000 + f, 0x80_0000 + f', Pow2(e - 1));
      }
    } else {
      FieldsBounds(e, f);
      FieldsBounds(e', f');
      Pow2Monotone(e, e' - 1);
    }
  }

  lemma ScaledMonotone(m: int, n: int)
    requires 0 <= m < n
    ensures 0 <= Scaled(m) < Scaled(n)
  {
    FieldsBounds(m / 0x80_0000, m % 0x80_0000);
    FieldsMonotone(m / 0x80_0000, m % 0x80_0000, n / 0x80_0000, n % 0x80_0000);
  }

  /** An integer in the order of the numbers, with -0 just below +0. */
  function Key(b: Bits): int { if b < SIGN then b else SIGN - 1 - b }

  lemma KeyOrder(a: Bits, b: Bits)
    ensures Key(a) <= Key(b) ==> Numeric(a) <= Numeric(b)
    ensures Numeric(a) < Numeric(b) ==> Key(a) < Key(b)
    ensures Numeric(a) >= 0 <==> Key(a) >= -1
  {
    var m, n := Magnitude(a), Magnitude(b);
    if m < n {
      ScaledMonotone(m, n);
    } else if n < m {
      ScaledMonotone(n, m);
    }
    if 0 < m {
      ScaledMonotone(0, m);
    }
    if 0 < n {
      ScaledMonotone(0, n);
    }
  }

  /** An update takes the maximum by key, except that negative zero never changes anything. */
  lemma UpdateByKey(cell: Bits, value: Bits)
    requires !IsNaN(cell) && !IsNaN(value)
    ensures value != NEGATIVE_ZERO ==> Key(Updated(cell, value)) == Max(Key(cell), Key(value))
    ensures value == NEGATIVE_ZERO ==> Updated(cell, value) == cell
  {
    KeyOrder(value, value);
  }

  /** One update computes the maximum exactly if it is not negative zero meeting a cell below zero. */
  lemma UpdateIsMaximum(cell: Bits, value: Bits)
    requires !IsNaN(cell) && !IsNaN(value)
    ensures Numeric(Updated(cell, value)) == Max(Numeric(cell), Numeric(value)) <==>
            !(value == NEGATIVE_ZERO && Numeric(cell) < 0)
  {
    UpdateByKey(cell, value);
    KeyOrder(cell, value);
    KeyOrder(value, cell);
    ScaledMonotone(0, 1);
  }

  // ----- any number of updates, in any order -----

  function UpdatedBy(cell: Bits, values: seq<Bits>): Bits {
    if values == [] then cell else Updated(UpdatedBy(cell, values[..|values| - 1]), values[|values| - 1])
  }

  ghost predicate NoNaN(values: seq<Bits>) { forall v | v in values :: !IsNaN(v) }

  /** The values that can make a difference. */
  ghost predicate Counts(cell: Bits, values: seq<Bits>, b: Bits) { b == cell || (b in values && b != NEGATIVE_ZERO) }

  /** The cell ends up holding one of the values that count, and none of them has a larger key. */
  lemma {:induction false} EndsAtLargestKey(cell: Bits, values: seq<Bits>)
    requires !IsNaN(cell) && NoNaN(values)
    ensures Counts(cell, values, UpdatedBy(cell, values)) && !IsNaN(UpdatedBy(cell, values))
    ensures forall b | Counts(cell, values, b) :: Key(b) <= Key(UpdatedBy(cell, values))
    decreases |values|
  {
    if values != [] {
      var n := |values| - 1;
      EndsAtLargestKey(cell, values[..n]);
      UpdateByKey(UpdatedBy(cell, values[..n]), values[n]);
      assert values == values[..n] + [values[n]];
    }
  }

  /** For updates that are neither NaN nor negative zero the cell ends at the maximum of all numbers. */
  lemma EndsAtMaximum(cell: Bits, values: seq<Bits>)
    requires !IsNaN(cell) && NoNaN(values) && NEGATIVE_ZERO !in values
    ensures UpdatedBy(cell, values) == cell || UpdatedBy(cell, values) in values
    ensures Numeric(cell) <= Numeric(UpdatedBy(cell, values))
    ensures forall v | v in values :: Numeric(v) <= Numeric(UpdatedBy(cell, values))
  {
    EndsAtLargestKey(cell, values);
    assert Counts(cell, values, cell);
    KeyOrder(cell, UpdatedBy(cell, values));
    forall v | v in values ensures Numeric(v) <= Numeric(UpdatedBy(cell, values)) {
      assert Counts(cell, values, v);
      KeyOrder(v, UpdatedBy(cell, values));
    }
  }

  /** With negative zeros among the updates, the maximum of all numbers is reached exactly if there are
      none or the cell or some other update is not below zero. */
  lemma MaximumExactlyIf(cell: Bits, values: seq<Bits>)
    requires !IsNaN(cell) && NoNaN(values)
    ensures (forall v | v in values + [cell] :: Numeric(v) <= Numeric(UpdatedBy(cell, values))) <==>
            (NEGATIVE_ZERO in values ==> exists b :: Counts(cell, values, b) && Numeric(b) >= 0)
  {
    var r := UpdatedBy(cell, values);
    EndsAtLargestKey(cell, values);
    assert Counts(cell, values, r);
    forall v | Counts(cell, values, v) ensures Numeric(v) <= Numeric(r) {
      KeyOrder(v, r);
    }
    assert Numeric(NEGATIVE_ZERO) == 0;
    if NEGATIVE_ZERO in values && Numeric(r) < 0 {
      assert NEGATIVE_ZERO in values + [cell];
    }
  }

  /** The order of the updates does not matter, down to the bits. */
  lemma AnyOrder(cell: Bits, values: seq<Bits>, values': seq<Bits>)
    requires !IsNaN(cell) && NoNaN(values) && multiset(values) == multiset(values')
    ensures UpdatedBy(cell, values) == UpdatedBy(cell, values')
  {
    forall v ensures v in values <==> v in values' {
      assert v in values <==> v in multiset(values);
      assert v in values' <==> v in multiset(values');
    }
    EndsAtLargestKey(cell, values);
    EndsAtLargestKey(cell, values');
    assert Counts(cell, values, UpdatedBy(cell, values'));
    assert Counts(cell, values', UpdatedBy(cell, values));
  }

  /** Minus one is never raised to negative zero, although that is the larger number. */
  lemma NegativeZeroIsLost()
    ensures UpdatedBy(0xBF80_0000, [NEGATIVE_ZERO]) == 0xBF80_0000 && Numeric(0xBF80_0000) < Numeric(NEGATIVE_ZERO)
  {
    var cell: Bits := 0xBF80_0000;
    ScaledMonotone(0, Magnitude(cell));
    UpdateByKey(cell, NEGATIVE_ZERO);
    assert [NEGATIVE_ZERO][..0] == [];
  }

  // ----- patterns that are numbers -----

  lemma Pow2Add(m: nat, n: nat)
    ensures Pow2(m + n) == Pow2(m) * Pow2(n)
  {
    if m > 0 {
      Pow2Add(m - 1, n);
      MulAssociate(2, Pow2(m - 1), Pow2(n));
    }
  }

  lemma MulAssociate(a: int, b: int, c: int)
    ensures a * (b * c) == (a * b) * c
  {
  }

  lemma Pow2Of23(n: nat)
    requires n == 23
    ensures Pow2(n) == 0x80_0000
  {
    assert Pow2(3) == 8 && Pow2(5) == 32;
    Pow2Add(5, 5);
    Pow2Add(10, 10);
    Pow2Add(20, n - 20);
  }

  lemma NoFraction(e: nat)
    requires 0 < e
    ensures FieldsScaled(e, 0) == 0x80_0000 * Pow2(e - 1)
  {
  }

  /** Infinity is 2^128, and numbers count in units of 2^-149. */
  lemma InfinityIs(inf: int, n: nat)
    requires inf == 0x7F80_0000 && n == 128 + 149
    ensures Scaled(inf) == Pow2(n)
  {
    var e := inf / 0x80_0000;
    Pow2Of23(23);
    assert inf % 0x80_0000 == 0 && e == 255 && Scaled(inf) == FieldsScaled(e, 0);
    NoFraction(e);
    Pow2Add(23, e - 1);
  }

  /** The patterns that are not NaN are exactly those whose number lies between minus and plus 2^128,
      infinities included. */
  lemma NumbersExactlyIf(b: Bits, n: nat)
    requires n == 128 + 149
    ensures !IsNaN(b) <==> 0 - Pow2(n) <= Numeric(b) <= Pow2(n)
  {
    MagnitudeBounded(Magnitude(b), 0x7F80_0000, n);
  }

  lemma MagnitudeBounded(m: int, inf: int, n: nat)
    requires 0 <= m && inf == 0x7F80_0000 && n == 128 + 149
    ensures 0 <= Scaled(m) && (m <= inf <==> Scaled(m) <= Pow2(n))
  {
    InfinityIs(inf, n);
    if m < inf {
      ScaledMonotone(m, inf);
    } else if inf < m {
      ScaledMonotone(inf, m);
    }
  }
}
