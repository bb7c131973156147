/** Bitwise operations on unbounded naturals, read bit by bit from the least significant end.
    A value below 2^n stands for an n-bit pattern; the operations never leave that range. */
module Bitwise {

  function Pow2(n: nat): (r: nat)
    ensures r >= 1
  {
    if n == 0 then 1 else 2 * Pow2(n - 1)
  }

  /** The one-bit truth tables. */
  function AndBit(x: nat, y: nat): nat { if x == 1 && y == 1 then 1 else 0 }
  function OrBit(x: nat, y: nat): nat { if x == 1 || y == 1 then 1 else 0 }
  function XorBit(x: nat, y: nat): nat { if x == y then 0 else 1 }

  function And(x: nat, y: nat): nat
    decreases x + y
  {
    if x == 0 && y == 0 then 0 else AndBit(x % 2, y % 2) + 2 * And(x / 2, y / 2)
  }

  function Or(x: nat, y: nat): nat
    decreases x + y
  {
    if x == 0 && y == 0 then 0 else OrBit(x % 2, y % 2) + 2 * Or(x / 2, y / 2)
  }

  function Xor(x: nat, y: nat): nat
    decreases x + y
  {
    if x == 0 && y == 0 then 0 else XorBit(x % 2, y % 2) + 2 * Xor(x / 2, y / 2)
  }

  /** A bit followed by more bits: the lowest bit and the rest are read back exactly. */
  lemma LowBit(r: nat, b: nat, rest: nat)
    requires b < 2 && r == b + 2 * rest
    ensures r % 2 == b && r / 2 == rest
  {
  }

  /** Every operation splits into its lowest bit and the operation on the remaining bits. */
  lemma Split(x: nat, y: nat)
    ensures And(x, y) % 2 == AndBit(x % 2, y % 2) && And(x, y) / 2 == And(x / 2, y / 2)
    ensures Or(x, y) % 2 == OrBit(x % 2, y % 2) && Or(x, y) / 2 == Or(x / 2, y / 2)
    ensures Xor(x, y) % 2 == XorBit(x % 2, y % 2) && Xor(x, y) / 2 == Xor(x / 2, y / 2)
  {
    LowBit(And(x, y), AndBit(x % 2, y % 2), And(x / 2, y / 2));
    LowBit(Or(x, y), OrBit(x % 2, y % 2), Or(x / 2, y / 2));
    LowBit(Xor(x, y), XorBit(x % 2, y % 2), Xor(x / 2, y / 2));
  }

  /** On n-bit operands each operation yields an n-bit result. */
  lemma {:induction false} Bounded(x: nat, y: nat, n: nat)
    requires x < Pow2(n) && y < Pow2(n)
    ensures And(x, y) < Pow2(n) && Or(x, y) < Pow2(n) && Xor(x, y) < Pow2(n)
  {
    if n > 0 {
      Bounded(x / 2, y / 2, n - 1);
    }
  }

  /** The sum bit of a full adder. */
  function Xor3(x: nat, y: nat, z: nat): nat { Xor(Xor(x, y), z) }

  /** The carry bit of a full adder: set where at least two of the operands are set. */
  function Majority(x: nat, y: nat, z: nat): nat { Or(Or(And(x, y), And(y, z)), And(z, x)) }

  /** A full adder applied to every bit position at once: the three operands add up to the
      sum bits plus twice the carry bits. */
  lemma {:induction false} FullAdder(x: nat, y: nat, z: nat)
    ensures x + y + z == Xor3(x, y, z) + 2 * Majority(x, y, z)
    decreases x + y + z
  {
    if x + y + z > 0 {
      FullAdder(x / 2, y / 2, z / 2);
      Split(x, y);
      Split(y, z);
      Split(z, x);
      Split(Xor(x, y), z);
      Split(And(x, y), And(y, z));
      Split(Or(And(x, y), And(y, z)), And(z, x));
      var s := Xor3(x, y, z);
      var m := Majority(x, y, z);
      assert s == s % 2 + 2 * (s / 2);
      assert m == m % 2 + 2 * (m / 2);
      assert s / 2 == Xor3(x / 2, y / 2, z / 2);
      assert m / 2 == Majority(x / 2, y / 2, z / 2);
    }
  }

  /** Bit i of x, counting from 0 at the least significant end; bits below 0 read as 0. */
  function BitAt(x: nat, i: int): nat
  {
    if i < 0 then 0 else (x / Pow2(i)) % 2
  }

  lemma MulMonotone(p: int, a: int, b: int)
    requires p > 0 && a <= b
    ensures p * a <= p * b
  {
  }

  /** Quotient and remainder are determined by any decomposition with a remainder in range. */
  lemma DivModUnique(x: int, p: int, q: int, m: int)
    requires p > 0 && 0 <= m < p && x == p * q + m
    ensures x / p == q && x % p == m
  {
    var d := q - x / p;
    assert p * d == x % p - m by {
      assert p * d == p * q - p * (x / p);
    }
    if d >= 1 {
      MulMonotone(p, 1, d);
    } else if d <= -1 {
      MulMonotone(p, 1, -d);
    }
  }

  /** Keeping one more low bit adds that bit at its weight. */
  lemma ModStep(x: nat, i: nat)
    ensures x % Pow2(i + 1) == x % Pow2(i) + Pow2(i) * BitAt(x, i)
  {
    var p := Pow2(i);
    var q := x / p;
    var h := q / 2;
    var bit := q % 2;
    assert x == p * q + x % p;
    assert p * q == (2 * p) * h + p * bit by {
      assert q == 2 * h + bit;
    }
    assert p * bit <= p by {
      MulMonotone(p, bit, 1);
    }
    DivModUnique(x, 2 * p, h, p * bit + x % p);
  }

  /** A value below 2^n has no bits at or above position n. */
  lemma HighBitsZero(x: nat, n: nat, i: nat)
    requires x < Pow2(n) && n <= i
    ensures BitAt(x, i) == 0
  {
    Pow2Monotone(n, i);
    DivModUnique(x, Pow2(i), 0, x);
  }

  lemma {:induction false} Pow2Monotone(m: nat, n: nat)
    requires m <= n
    ensures Pow2(m) <= Pow2(n)
    decreases n
  {
    if m < n {
      Pow2Monotone(m, n - 1);
    }
  }

  lemma {:induction false} Pow2Add(m: nat, n: nat)
    ensures Pow2(m + n) == Pow2(m) * Pow2(n)
    decreases n
  {
    if n > 0 {
      Pow2Add(m, n - 1);
      assert Pow2(m + n) == 2 * Pow2(m + n - 1);
    }
  }

  /** `(x >> shift) & (2^width - 1)`: the width-bit field of x starting at bit `shift`. */
  function Field(x: nat, shift: nat, width: nat): nat
  {
    (x / Pow2(shift)) % Pow2(width)
  }

  lemma DivNonnegative(x: nat, p: nat)
    requires p > 0
    ensures x / p >= 0
  {
  }

  lemma DivDiv(x: nat, p: nat, q: nat)
    requires p > 0 && q > 0
    ensures x / (p * q) == (x / p) / q
  {
    var y := x / p;
    assert x == p * y + x % p;
    assert y == q * (y / q) + y % q;
    assert x == (p * q) * (y / q) + (p * (y % q) + x % p);
    assert p * (y % q) <= p * (q - 1) by {
      MulMonotone(p, y % q, q - 1);
    }
    DivModUnique(x, p * q, y / q, p * (y % q) + x % p);
  }

  lemma DivOfMod(x: nat, p: nat, q: nat)
    requires p > 0 && q > 0
    ensures (x % (p * q)) / p == (x / p) % q
  {
    var h := x / (p * q);
    var r := x % (p * q);
    var k := r / p;
    assert k < q by {
      assert r == p * k + r % p;
      if k >= q {
        MulMonotone(p, q, k);
      }
    }
    assert x == p * (q * h + k) + r % p by {
      assert x == (p * q) * h + r;
      assert r == p * k + r % p;
    }
    DivModUnique(x, p, q * h + k, r % p);
    DivModUnique(x / p, q, h, k);
  }

  lemma ModOfModEven(y: nat, half: nat)
    requires half > 0
    ensures (y % (2 * half)) % 2 == y % 2
  {
    var g := y / (2 * half);
    var m := y % (2 * half);
    assert y == 2 * (half * g + m / 2) + m % 2;
    DivModUnique(y, 2, half * g + m / 2, m % 2);
  }

  /** Keeping the low n bits keeps every bit below n and clears the rest. */
  lemma BitOfLow(x: nat, n: nat, i: nat)
    ensures BitAt(x % Pow2(n), i) == if i < n then BitAt(x, i) else 0
  {
    if i < n {
      var p := Pow2(i);
      var half := Pow2(n - i - 1);
      var q := 2 * half;
      assert Pow2(n) == p * q by {
        Pow2Add(i, n - i);
      }
      DivNonnegative(x, p);
      var y: nat := x / p;
      assert (x % (p * q)) / p == y % q by {
        DivOfMod(x, p, q);
      }
      assert (y % q) % 2 == y % 2 by {
        ModOfModEven(y, half);
      }
    } else {
      HighBitsZero(x % Pow2(n), n, i);
    }
  }

  /** Bit j of a field is bit shift + j of the whole, inside the field's width. */
  lemma BitOfField(x: nat, shift: nat, width: nat, j: nat)
    ensures BitAt(Field(x, shift, width), j) == if j < width then BitAt(x, shift + j) else 0
  {
    DivNonnegative(x, Pow2(shift));
    var y := x / Pow2(shift);
    var f := y % Pow2(width);
    assert Field(x, shift, width) == f;
    assert BitAt(f, j) == if j < width then BitAt(y, j) else 0 by {
      BitOfLow(y, width, j);
    }
    if j < width {
      assert y / Pow2(j) == x / Pow2(shift + j) by {
        Pow2Add(shift, j);
        DivDiv(x, Pow2(shift), Pow2(j));
      }
    }
  }

  /** A field starting at or above a value's width is empty. */
  lemma FieldAboveWidth(x: nat, n: nat, shift: nat, width: nat)
    requires x < Pow2(n) && n <= shift
    ensures Field(x, shift, width) == 0
  {
    Pow2Monotone(n, shift);
    DivModUnique(x, Pow2(shift), 0, x);
  }

  lemma ZeroFields()
    ensures forall i: nat, w: nat {:trigger Field(0, i, w)} :: Field(0, i, w) == 0
  {
    forall i: nat, w: nat
      ensures Field(0, i, w) == 0
    {
      DivModUnique(0, Pow2(i), 0, 0);
    }
  }
}
