/**
 * Python's integer bit operations on non-negative integers (`&`, `|`,
 * `& ~`, `<<`, `>>`), written out bit by bit, with the lemmas that turn
 * them into arithmetic.  Every register value the tools handle is a
 * non-negative Python int; the few places where a negative int appears
 * are modelled where they occur.
 */
module Bits {

  type u8 = x: nat | x < 0x100
  type u16 = x: nat | x < 0x1_0000
  type u32 = x: nat | x < 0x1_0000_0000

  function Pow2(n: nat): (r: nat)
    ensures r > 0
  {
    if n == 0 then 1 else 2 * Pow2(n - 1)
  }

  /** `(1 << n) - 1` */
  function LowMask(n: nat): nat
  {
    Pow2(n) - 1
  }

  /** `x << n` */
  function Shl(x: nat, n: nat): nat
  {
    x * Pow2(n)
  }

  /** `x >> n` (floor division by 2**n) */
  function Shr(x: nat, n: nat): nat
  {
    if n == 0 then x else Shr(x / 2, n - 1)
  }

  /** Bit `i` of `x`, that is `(x >> i) & 1`. */
  function Bit(x: nat, i: nat): nat
  {
    if i == 0 then x % 2 else Bit(x / 2, i - 1)
  }

  /** `a & b` */
  function And(a: nat, b: nat): nat
  {
    if a == 0 || b == 0 then 0
    else 2 * And(a / 2, b / 2) + (if a % 2 == 1 && b % 2 == 1 then 1 else 0)
  }

  /** `a | b` */
  function Or(a: nat, b: nat): nat
    decreases a + b
  {
    if a == 0 then b
    else if b == 0 then a
    else 2 * Or(a / 2, b / 2) + (if a % 2 == 1 || b % 2 == 1 then 1 else 0)
  }

  /** `a & ~m` (Python's `~m` is the infinite two's complement of `m`) */
  function AndNot(a: nat, m: nat): nat
  {
    if a == 0 then 0
    else 2 * AndNot(a / 2, m / 2) + (if a % 2 == 1 && m % 2 == 0 then 1 else 0)
  }

  /** The mask of a `width`-bit field starting at bit `lo`. */
  function FieldMask(lo: nat, width: nat): nat
  {
    Shl(LowMask(width), lo)
  }

  /** The value of the `width`-bit field at bit `lo`: `(x >> lo) & ((1 << width) - 1)`. */
  function Field(x: nat, lo: nat, width: nat): nat
  {
    And(Shr(x, lo), LowMask(width))
  }

  // ---------------------------------------------------------------------
  // Powers of two

  lemma {:induction false} Pow2Add(a: nat, b: nat)
    ensures Pow2(a + b) == Pow2(a) * Pow2(b)
    decreases a
  {
    if a > 0 {
      Pow2Add(a - 1, b);
    }
  }

  lemma {:induction false} Pow2Monotone(a: nat, b: nat)
    requires a <= b
    ensures Pow2(a) <= Pow2(b)
    decreases b
  {
    if a < b {
      Pow2Monotone(a, b - 1);
    }
  }

  lemma Pow2Values()
    ensures Pow2(4) == 0x10 && Pow2(8) == 0x100 && Pow2(12) == 0x1000
    ensures Pow2(16) == 0x1_0000 && Pow2(20) == 0x10_0000
    ensures Pow2(24) == 0x100_0000 && Pow2(28) == 0x1000_0000
    ensures Pow2(32) == 0x1_0000_0000
    ensures Pow2(48) == 0x1_0000_0000_0000
    ensures Pow2(64) == 0x1_0000_0000_0000_0000
  {
    assert Pow2(4) == 0x10;
    assert Pow2(8) == 0x100;
    Pow2Add(8, 4);
    Pow2Add(8, 8);
    Pow2Add(16, 4);
    Pow2Add(16, 8);
    Pow2Add(16, 12);
    Pow2Add(16, 16);
    Pow2Add(32, 16);
    Pow2Add(32, 32);
  }

  lemma Pow2Of16()
    ensures Pow2(16) == 0x1_0000
  {
    Pow2Add(8, 8);
  }

  lemma Pow2Of32()
    ensures Pow2(32) == 0x1_0000_0000
  {
    Pow2Of16();
    Pow2Add(16, 16);
  }

  lemma Pow2Of64()
    ensures Pow2(64) == 0x1_0000_0000_0000_0000
  {
    Pow2Of32();
    Pow2Add(32, 32);
  }

  // ---------------------------------------------------------------------
  // Bits

  lemma BitRange(x: nat, i: nat)
    ensures Bit(x, i) == 0 || Bit(x, i) == 1
  {
  }

  lemma {:induction false} BitOfZero(i: nat)
    ensures Bit(0, i) == 0
  {
    if i > 0 {
      BitOfZero(i - 1);
    }
  }

  /** Bit `i` of `2*y + c`. */
  lemma BitCons(y: nat, c: nat, i: nat)
    requires c < 2
    ensures Bit(2 * y + c, i) == if i == 0 then c else Bit(y, i - 1)
  {
    assert (2 * y + c) % 2 == c;
    assert (2 * y + c) / 2 == y;
  }

  /** Two integers with the same bits are equal. */
  lemma {:induction false} BitsEqual(a: nat, b: nat)
    requires forall i: nat :: Bit(a, i) == Bit(b, i)
    ensures a == b
    decreases a + b
  {
    if a != 0 || b != 0 {
      assert a % 2 == Bit(a, 0) == Bit(b, 0) == b % 2;
      forall i: nat
        ensures Bit(a / 2, i) == Bit(b / 2, i)
      {
        assert Bit(a, i + 1) == Bit(b, i + 1);
      }
      BitsEqual(a / 2, b / 2);
    }
  }

  /** A number below `2**n` has no bit at or above `n`. */
  lemma {:induction false} BitAbove(x: nat, n: nat, i: nat)
    requires x < Pow2(n) && n <= i
    ensures Bit(x, i) == 0
    decreases n
  {
    if n == 0 {
      BitOfZero(i);
    } else {
      BitAbove(x / 2, n - 1, i - 1);
    }
  }

  /** A number whose bits at or above `n` are all clear is below `2**n`. */
  lemma {:induction false} BelowPow2(x: nat, n: nat)
    requires forall i: nat :: n <= i ==> Bit(x, i) == 0
    ensures x < Pow2(n)
    decreases x
  {
    if x != 0 {
      if n == 0 {
        // x > 0 has a set bit somewhere
        HasSetBit(x);
      } else {
        forall i: nat | n - 1 <= i
          ensures Bit(x / 2, i) == 0
        {
          assert Bit(x, i + 1) == 0;
        }
        BelowPow2(x / 2, n - 1);
      }
    }
  }

  lemma {:induction false} HasSetBit(x: nat)
    requires x != 0
    ensures exists i: nat :: Bit(x, i) == 1
    decreases x
  {
    if x % 2 == 1 {
      assert Bit(x, 0) == 1;
    } else {
      HasSetBit(x / 2);
      var i: nat :| Bit(x / 2, i) == 1;
      assert Bit(x, i + 1) == 1;
    }
  }

  lemma {:induction false} BitShr(x: nat, n: nat, i: nat)
    ensures Bit(Shr(x, n), i) == Bit(x, i + n)
    decreases n
  {
    if n > 0 {
      BitShr(x / 2, n - 1, i);
    }
  }

  lemma {:induction false} BitShl(x: nat, n: nat, i: nat)
    ensures Bit(Shl(x, n), i) == if i < n then 0 else Bit(x, i - n)
    decreases n
  {
    if n > 0 {
      assert Shl(x, n) == 2 * Shl(x, n - 1);
      BitCons(Shl(x, n - 1), 0, i);
      if i > 0 {
        BitShl(x, n - 1, i - 1);
      }
    }
  }

  lemma {:induction false} BitLowMask(n: nat, i: nat)
    ensures Bit(LowMask(n), i) == if i < n then 1 else 0
    decreases n
  {
    if n == 0 {
      BitOfZero(i);
    } else {
      assert LowMask(n) == 2 * LowMask(n - 1) + 1;
      BitCons(LowMask(n - 1), 1, i);
      if i > 0 {
        BitLowMask(n - 1, i - 1);
      }
    }
  }

  lemma {:induction false} BitPow2(n: nat, i: nat)
    ensures Bit(Pow2(n), i) == if i == n then 1 else 0
  {
    assert Pow2(n) == Shl(1, n);
    BitShl(1, n, i);
    if i > n {
      BitOfZero(i - n - 1);
    }
  }

  lemma {:induction false} BitAnd(a: nat, b: nat, i: nat)
    ensures Bit(And(a, b), i) == if Bit(a, i) == 1 && Bit(b, i) == 1 then 1 else 0
    decreases a
  {
    if a == 0 || b == 0 {
      BitOfZero(i);
    } else {
      BitCons(And(a / 2, b / 2), if a % 2 == 1 && b % 2 == 1 then 1 else 0, i);
      if i > 0 {
        BitAnd(a / 2, b / 2, i - 1);
      }
    }
  }

  lemma {:induction false} BitOr(a: nat, b: nat, i: nat)
    ensures Bit(Or(a, b), i) == if Bit(a, i) == 1 || Bit(b, i) == 1 then 1 else 0
    decreases a + b
  {
    BitRange(a, i);
    BitRange(b, i);
    if a == 0 {
      BitOfZero(i);
    } else if b == 0 {
      BitOfZero(i);
    } else {
      BitCons(Or(a / 2, b / 2), if a % 2 == 1 || b % 2 == 1 then 1 else 0, i);
      if i > 0 {
        BitOr(a / 2, b / 2, i - 1);
      }
    }
  }

  lemma {:induction false} BitAndNot(a: nat, m: nat, i: nat)
    ensures Bit(AndNot(a, m), i) == if Bit(a, i) == 1 && Bit(m, i) == 0 then 1 else 0
    decreases a
  {
    if a == 0 {
      BitOfZero(i);
    } else {
      BitCons(AndNot(a / 2, m / 2), if a % 2 == 1 && m % 2 == 0 then 1 else 0, i);
      if i > 0 {
        BitAndNot(a / 2, m / 2, i - 1);
      }
    }
  }

  // ---------------------------------------------------------------------
  // Arithmetic forms

  /** `>>` is floor division by a power of two. */
  lemma {:induction false} ShrIsDiv(x: nat, n: nat)
    ensures Shr(x, n) == x / Pow2(n)
    decreases n
  {
    if n > 0 {
      ShrIsDiv(x / 2, n - 1);
      DivDiv(x, 2, Pow2(n - 1));
    }
  }

  lemma DivDiv(x: nat, a: nat, b: nat)
    requires a > 0 && b > 0
    ensures x / a / b == x / (a * b)
  {
    var q := x / a / b;
    var r1 := x % a;
    var r2 := (x / a) % b;
    assert x == a * (x / a) + r1;
    assert x / a == b * q + r2;
    MulRegroup(a, b, q, r2);
    MulBelow(a, r2, b);
    MulNonNegative(a, r2);
    DivUnique(x, a * b, q, a * r2 + r1);
  }

  lemma MulRegroup(a: int, b: int, q: int, r: int)
    ensures a * (b * q + r) == (a * b) * q + a * r
  {
  }

  lemma MulBelow(a: nat, r: nat, b: nat)
    requires r < b
    ensures a * r + a <= a * b
  {
    assert a * (r + 1) <= a * b;
  }

  lemma MulNonNegative(a: nat, b: nat)
    ensures a * b >= 0
  {
  }

  lemma DivUnique(x: nat, d: nat, q: nat, r: nat)
    requires d > 0 && r < d && x == d * q + r
    ensures x / d == q && x % d == r
  {
    var q' := x / d;
    var r' := x % d;
    assert d * q' + r' == d * q + r;
    if q' < q {
      MulAtLeast(d, q - q');
    } else if q' > q {
      MulAtLeast(d, q' - q);
    }
  }

  lemma {:induction false} MulAtLeast(d: nat, k: nat)
    requires k >= 1
    ensures d * k >= d
    decreases k
  {
    if k > 1 {
      MulAtLeast(d, k - 1);
      assert d * k == d * (k - 1) + d;
    }
  }

  /** An all-ones mask as wide as `x` keeps all of it. */
  lemma AndFullMask(x: nat, n: nat)
    requires x < Pow2(n)
    ensures And(x, LowMask(n)) == x
  {
    AndLowMask(x, n);
    DivUnique(x, Pow2(n), 0, x);
  }

  /** `x & ((1 << n) - 1)` is `x % 2**n`. */
  lemma AndLowMask(x: nat, n: nat)
    ensures And(x, LowMask(n)) == x % Pow2(n)
  {
    var a := And(x, LowMask(n));
    var b := x % Pow2(n);
    forall i: nat
      ensures Bit(a, i) == Bit(b, i)
    {
      BitAnd(x, LowMask(n), i);
      BitLowMask(n, i);
      BitMod(x, n, i);
      BitRange(x, i);
    }
    BitsEqual(a, b);
  }

  lemma {:induction false} BitMod(x: nat, n: nat, i: nat)
    ensures Bit(x % Pow2(n), i) == if i < n then Bit(x, i) else 0
    decreases n
  {
    if n == 0 {
      BitOfZero(i);
    } else {
      // x % 2**n == 2 * ((x / 2) % 2**(n-1)) + x % 2
      var q := (x / 2) / Pow2(n - 1);
      var t := (x / 2) % Pow2(n - 1);
      assert x == Pow2(n) * q + (2 * t + x % 2);
      DivUnique(x, Pow2(n), q, 2 * t + x % 2);
      BitCons(t, x % 2, i);
      if i > 0 {
        BitMod(x / 2, n - 1, i - 1);
      }
    }
  }

  /** `a | b` plus `a & b` is `a + b`; so `|` of disjoint values is `+`. */
  lemma {:induction false} OrPlusAnd(a: nat, b: nat)
    ensures Or(a, b) + And(a, b) == a + b
    decreases a + b
  {
    if a != 0 && b != 0 {
      OrPlusAnd(a / 2, b / 2);
    }
  }

  /** `a & ~m` plus `a & m` is `a`. */
  lemma {:induction false} AndNotPlusAnd(a: nat, m: nat)
    ensures AndNot(a, m) + And(a, m) == a
    decreases a
  {
    if a != 0 {
      AndNotPlusAnd(a / 2, m / 2);
      if m == 0 {
        AndZero(a / 2);
      }
    }
  }

  lemma {:induction false} AndZero(a: nat)
    ensures And(a, 0) == 0 && And(0, a) == 0
  {
  }

  lemma AndComm(a: nat, b: nat)
    ensures And(a, b) == And(b, a)
  {
    forall i: nat
      ensures Bit(And(a, b), i) == Bit(And(b, a), i)
    {
      BitAnd(a, b, i);
      BitAnd(b, a, i);
    }
    BitsEqual(And(a, b), And(b, a));
  }

  lemma AndBelow(a: nat, b: nat, n: nat)
    requires a < Pow2(n) || b < Pow2(n)
    ensures And(a, b) < Pow2(n)
  {
    forall i: nat | n <= i
      ensures Bit(And(a, b), i) == 0
    {
      BitAnd(a, b, i);
      if a < Pow2(n) {
        BitAbove(a, n, i);
      } else {
        BitAbove(b, n, i);
      }
    }
    BelowPow2(And(a, b), n);
  }

  lemma AndNotBelow(a: nat, m: nat, n: nat)
    requires a < Pow2(n)
    ensures AndNot(a, m) < Pow2(n)
  {
    AndNotPlusAnd(a, m);
  }

  /** A field within the low `n` bits has its mask below `2**n`. */
  lemma FieldMaskBelow(lo: nat, width: nat, n: nat)
    requires lo + width <= n
    ensures FieldMask(lo, width) < Pow2(n)
  {
    Pow2Add(width, lo);
    Pow2Monotone(lo + width, n);
    MulBelow(Pow2(lo), LowMask(width), Pow2(width));
  }

  lemma OrBelow(a: nat, b: nat, n: nat)
    requires a < Pow2(n) && b < Pow2(n)
    ensures Or(a, b) < Pow2(n)
  {
    forall i: nat | n <= i
      ensures Bit(Or(a, b), i) == 0
    {
      BitOr(a, b, i);
      BitAbove(a, n, i);
      BitAbove(b, n, i);
    }
    BelowPow2(Or(a, b), n);
  }

  /** Two values with no bit in common are OR-ed by adding them. */
  lemma OrDisjoint(a: nat, b: nat)
    requires And(a, b) == 0
    ensures Or(a, b) == a + b
  {
    OrPlusAnd(a, b);
  }

  /** A value below `2**n` shares no bit with a value shifted left by `n`. */
  lemma AndShlDisjoint(a: nat, b: nat, n: nat)
    requires a < Pow2(n)
    ensures And(a, Shl(b, n)) == 0 && Or(a, Shl(b, n)) == a + Shl(b, n)
  {
    forall i: nat
      ensures Bit(And(a, Shl(b, n)), i) == Bit(0, i)
    {
      BitAnd(a, Shl(b, n), i);
      BitShl(b, n, i);
      BitOfZero(i);
      if n <= i {
        BitAbove(a, n, i);
      }
    }
    BitsEqual(And(a, Shl(b, n)), 0);
    OrDisjoint(a, Shl(b, n));
  }

  /** The bit of a field value. */
  lemma BitField(x: nat, lo: nat, width: nat, i: nat)
    ensures Bit(Field(x, lo, width), i) == if i < width then Bit(x, lo + i) else 0
  {
    BitAnd(Shr(x, lo), LowMask(width), i);
    BitLowMask(width, i);
    BitShr(x, lo, i);
    BitRange(x, lo + i);
  }

  /** A field is the value's bits in its range, shifted down. */
  lemma FieldIsDivMod(x: nat, lo: nat, width: nat)
    ensures Field(x, lo, width) == (x / Pow2(lo)) % Pow2(width)
    ensures Field(x, lo, width) < Pow2(width)
  {
    AndLowMask(Shr(x, lo), width);
    ShrIsDiv(x, lo);
  }

  /** `(x & mask) >> lo` reads the same field as `(x >> lo) & ((1 << width) - 1)`. */
  lemma MaskThenShift(x: nat, lo: nat, width: nat)
    ensures Shr(And(x, FieldMask(lo, width)), lo) == Field(x, lo, width)
  {
    forall i: nat
      ensures Bit(Shr(And(x, FieldMask(lo, width)), lo), i) == Bit(Field(x, lo, width), i)
    {
      BitShr(And(x, FieldMask(lo, width)), lo, i);
      BitAnd(x, FieldMask(lo, width), i + lo);
      BitShl(LowMask(width), lo, i + lo);
      BitLowMask(width, i);
      BitField(x, lo, width, i);
      BitRange(x, i + lo);
    }
    BitsEqual(Shr(And(x, FieldMask(lo, width)), lo), Field(x, lo, width));
  }

  /** `x & (1 << i)` is non-zero exactly when bit `i` of `x` is set. */
  lemma AndPow2(x: nat, i: nat)
    ensures And(x, Pow2(i)) != 0 <==> Bit(x, i) == 1
  {
    BitAnd(x, Pow2(i), i);
    BitPow2(i, i);
    if Bit(x, i) == 0 {
      forall j: nat
        ensures Bit(And(x, Pow2(i)), j) == Bit(0, j)
      {
        BitAnd(x, Pow2(i), j);
        BitPow2(i, j);
        BitOfZero(j);
      }
      BitsEqual(And(x, Pow2(i)), 0);
    } else {
      BitOfZero(i);
    }
  }

  // ---------------------------------------------------------------------
  // Writing a field: `(x & ~mask) | ((v << lo) & mask)`

  function SetField(x: nat, lo: nat, width: nat, v: nat): nat
  {
    Or(AndNot(x, FieldMask(lo, width)), And(Shl(v, lo), FieldMask(lo, width)))
  }

  lemma BitSetField(x: nat, lo: nat, width: nat, v: nat, i: nat)
    ensures Bit(SetField(x, lo, width, v), i)
      == if lo <= i < lo + width then Bit(v, i - lo) else Bit(x, i)
  {
    var m := FieldMask(lo, width);
    BitOr(AndNot(x, m), And(Shl(v, lo), m), i);
    BitAndNot(x, m, i);
    BitAnd(Shl(v, lo), m, i);
    BitShl(v, lo, i);
    BitShl(LowMask(width), lo, i);
    if lo <= i {
      BitLowMask(width, i - lo);
    }
    BitRange(x, i);
    BitRange(v, if i < lo then 0 else i - lo);
  }

  /** Reading back the field just written gives the value truncated to the field. */
  lemma FieldOfSetField(x: nat, lo: nat, width: nat, v: nat)
    ensures Field(SetField(x, lo, width, v), lo, width) == v % Pow2(width)
  {
    forall i: nat
      ensures Bit(Field(SetField(x, lo, width, v), lo, width), i) == Bit(v % Pow2(width), i)
    {
      BitField(SetField(x, lo, width, v), lo, width, i);
      BitSetField(x, lo, width, v, lo + i);
      BitMod(v, width, i);
    }
    BitsEqual(Field(SetField(x, lo, width, v), lo, width), v % Pow2(width));
  }

  /** Writing a field leaves every field that does not overlap it unchanged. */
  lemma FieldOfSetOtherField(x: nat, lo: nat, width: nat, v: nat, lo2: nat, width2: nat)
    requires lo2 + width2 <= lo || lo + width <= lo2
    ensures Field(SetField(x, lo, width, v), lo2, width2) == Field(x, lo2, width2)
  {
    forall i: nat
      ensures Bit(Field(SetField(x, lo, width, v), lo2, width2), i) == Bit(Field(x, lo2, width2), i)
    {
      BitField(SetField(x, lo, width, v), lo2, width2, i);
      BitField(x, lo2, width2, i);
      BitSetField(x, lo, width, v, lo2 + i);
    }
    BitsEqual(Field(SetField(x, lo, width, v), lo2, width2), Field(x, lo2, width2));
  }

  /** Writing a field keeps a 32-bit register value within 32 bits. */
  lemma SetFieldBelow(x: nat, lo: nat, width: nat, v: nat, n: nat)
    requires x < Pow2(n) && lo + width <= n
    ensures SetField(x, lo, width, v) < Pow2(n)
  {
    forall i: nat | n <= i
      ensures Bit(SetField(x, lo, width, v), i) == 0
    {
      BitSetField(x, lo, width, v, i);
      BitAbove(x, n, i);
    }
    BelowPow2(SetField(x, lo, width, v), n);
  }
}
