/** The radix-4 Booth half of the `test_csamul.py` multiplier: `BoothEncoder.build`, the
    `Driver` input sequence, and the product the whole pipeline logs. Which multiples of a each
    partial product adds is kept apart from the 64-bit arithmetic that forms it, so the two can
    be reasoned about separately. Arithmetic is taken mod 2^64 throughout. */
module BoothEncoder {
  import opened Bitwise
  import opened Wrappers
  import opened CsaMultiplier

  /** The shape of one partial product `((timesA * a + timesComp * a_comp) << shift)`. */
  datatype Select = Select(timesA: nat, timesComp: nat, shift: nat)

  /** One partial product as a 64-bit pattern; `a_comp` is -2a. */
  function PartialProduct(a: int, s: Select): Word64
  {
    ((s.timesA * a + s.timesComp * (-2 * a)) * Pow2(s.shift)) % Modulus
  }

  function Products(a: int, ss: seq<Select>): (r: seq<Word64>)
    ensures |r| == |ss|
  {
    if |ss| == 0 then [] else Products(a, ss[..|ss| - 1]) + [PartialProduct(a, ss[|ss| - 1])]
  }

  /** The multiple of a a select stands for: its digit at its weight. */
  function Weight(s: Select): int
  {
    (s.timesA - 2 * s.timesComp) * Pow2(s.shift)
  }

  function Weighted(ss: seq<Select>): int
  {
    if |ss| == 0 then 0 else Weighted(ss[..|ss| - 1]) + Weight(ss[|ss| - 1])
  }

  lemma ProductTerm(x: int, y: int, a: int, p: int)
    ensures (x * a + y * (-2 * a)) * p == a * ((x - 2 * y) * p)
  {
  }

  lemma Distribute(a: int, u: int, v: int)
    ensures a * u + a * v == a * (u + v)
  {
  }

  lemma ModIdempotent(v: int)
    ensures (v % Modulus) % Modulus == v % Modulus
  {
    DivModUnique(v % Modulus, Modulus, 0, v % Modulus);
  }

  /** The partial products add up to a times the weighted selects, mod 2^64. */
  lemma {:induction false} ProductsSum(a: int, ss: seq<Select>)
    ensures Sum(Products(a, ss)) % Modulus == (a * Weighted(ss)) % Modulus
  {
    if |ss| > 0 {
      var n := |ss| - 1;
      var s := ss[n];
      var r := Products(a, ss);
      ProductsSum(a, ss[..n]);
      assert Sum(r) == Sum(Products(a, ss[..n])) + PartialProduct(a, s) by {
        assert r[..n] == Products(a, ss[..n]);
      }
      assert PartialProduct(a, s) % Modulus == (a * Weight(s)) % Modulus by {
        ProductTerm(s.timesA, s.timesComp, a, Pow2(s.shift));
        ModIdempotent(a * Weight(s));
      }
      AddCongruent(Sum(Products(a, ss[..n])), PartialProduct(a, s), a * Weighted(ss[..n]), a * Weight(s));
      Distribute(a, Weighted(ss[..n]), Weight(s));
    }
  }

  /** Window j of the encoder as written: the first is `b_unsigned` itself, every later one is
      `(previous >> 6) & 31`, shifted out of the previous, already cut window. */
  function AsWrittenWindow(bu: nat, j: nat): nat
  {
    if j == 0 then bu else Field(AsWrittenWindow(bu, j - 1), 6, 5)
  }

  /** The bits `b0` .. `b5` read from window j (i = 0 .. 5), and the `b5` carried in from the
      window before (i = -1), which is `b01 = 0` for the first window. */
  function WindowBit(bu: nat, j: nat, i: int): nat
    requires -1 <= i <= 5
  {
    if i >= 0 then Field(AsWrittenWindow(bu, j), i, 1)
    else if j == 0 then 0
    else Field(AsWrittenWindow(bu, j - 1), 5, 1)
  }

  /** Partial product k of `BoothEncoder.build`: it is digit k % 3 of window k / 3 and adds
      `(b(2p-1) + b(2p)) * a + b(2p+1) * a_comp`, shifted left by 2k. */
  function SelectAsWritten(bu: nat, k: nat): Select
  {
    var j := k / 3;
    var p := k % 3;
    Select(WindowBit(bu, j, 2 * p - 1) + WindowBit(bu, j, 2 * p), WindowBit(bu, j, 2 * p + 1), 2 * k)
  }

  /** The sixteen selects of `BoothEncoder.build` as written: three per window, one from the
      last. */
  function SelectsAsWritten(b: Int32): (r: seq<Select>)
    ensures |r| == 16
  {
    seq(16, k requires 0 <= k < 16 => SelectAsWritten(b % Pow32, k))
  }

  /** `booth0` .. `booth15` as `BoothEncoder.build` computes them. */
  function BoothAsWritten(a: Int32, b: Int32): (r: seq<Word64>)
    ensures |r| == 16
  {
    Products(a, SelectsAsWritten(b))
  }

  /** Radix-4 Booth digit k of a bit pattern: `bit(2k-1) + bit(2k) - 2 bit(2k+1)` at 4^k. */
  function RecodeSelect(bu: nat, k: nat): Select
  {
    Select(BitAt(bu, 2 * k - 1) + BitAt(bu, 2 * k), BitAt(bu, 2 * k + 1), 2 * k)
  }

  /** The sixteen digits of the radix-4 Booth recoding of a 32-bit pattern. */
  function Recode(bu: nat): (r: seq<Select>)
    ensures |r| == 16
  {
    seq(16, k requires 0 <= k < 16 => RecodeSelect(bu, k))
  }

  /** The encoder with every window read from `b_unsigned` itself. */
  function Booth(a: Int32, b: Int32): (r: seq<Word64>)
    ensures |r| == 16
  {
    Products(a, Recode(b % Pow32))
  }

  /** The signed reading of a 32-bit pattern. */
  function Signed32(bu: nat): int
    requires bu < Pow32
  {
    if bu < Pow31 then bu else bu - Pow32
  }

  /** The first m digits stand for the low 2m bits, with bit 2m-1 read as a sign bit. */
  lemma {:induction false} RecodePrefixValue(bu: nat, m: nat)
    requires m <= 16
    ensures Weighted(Recode(bu)[..m]) == bu % Pow2(2 * m) - Pow2(2 * m) * BitAt(bu, 2 * m - 1)
  {
    if m == 0 {
      assert Recode(bu)[..0] == [];
      DivModUnique(bu, 1, bu, 0);
    } else {
      var n := m - 1;
      RecodePrefixValue(bu, n);
      assert Weighted(Recode(bu)[..m]) == Weighted(Recode(bu)[..n]) + Weight(RecodeSelect(bu, n)) by {
        assert Recode(bu)[..m][..n] == Recode(bu)[..n];
      }
      DigitValue(bu, n);
    }
  }

  /** Adding digit n to the value of the first n digits gives the value of the first n + 1. */
  lemma DigitValue(bu: nat, n: nat)
    ensures bu % Pow2(2 * n) - Pow2(2 * n) * BitAt(bu, 2 * n - 1) + Weight(RecodeSelect(bu, n))
            == bu % Pow2(2 * n + 2) - Pow2(2 * n + 2) * BitAt(bu, 2 * n + 1)
  {
    var p := Pow2(2 * n);
    var x: int := BitAt(bu, 2 * n - 1);
    var y: int := BitAt(bu, 2 * n);
    var z: int := BitAt(bu, 2 * n + 1);
    var m1 := bu % p;
    var m2 := bu % Pow2(2 * n + 1);
    var m3 := bu % Pow2(2 * n + 2);
    assert m2 == m1 + p * y by {
      ModStep(bu, 2 * n);
    }
    assert m3 == m2 + 2 * (p * z) by {
      ModStep(bu, 2 * n + 1);
      Scale(Pow2(2 * n + 1), 2, p, z);
    }
    assert Weight(RecodeSelect(bu, n)) == x * p + y * p - 2 * (z * p) by {
      assert Weight(RecodeSelect(bu, n)) == (x + y - 2 * z) * p;
      Distribute3(x, y, z, p);
    }
    assert Pow2(2 * n + 2) * z == 4 * (p * z) by {
      assert Pow2(2 * n + 2) == 4 * p;
      Scale(Pow2(2 * n + 2), 4, p, z);
    }
    DigitStep(m1 - p * x, m1 - p * x + Weight(RecodeSelect(bu, n)), Weight(RecodeSelect(bu, n)),
              m1, m2, m3, p, x, y, z, Pow2(2 * n + 2));
  }

  lemma Distribute3(x: int, y: int, z: int, p: int)
    ensures (x + y - 2 * z) * p == x * p + y * p - 2 * (z * p)
  {
  }

  lemma Scale(q: int, k: int, p: int, z: int)
    requires q == k * p
    ensures q * z == k * (p * z)
  {
  }

  /** The arithmetic of one recoding step, with the products kept as they are. */
  lemma DigitStep(wn: int, wm: int, wt: int, m1: int, m2: int, m3: int, p: int, x: int, y: int, z: int, q: int)
    requires wn == m1 - p * x && wm == wn + wt
    requires m2 == m1 + p * y && m3 == m2 + 2 * (p * z)
    requires wt == x * p + y * p - 2 * (z * p) && q * z == 4 * (p * z)
    ensures wm == m3 - q * z
  {
  }

  /** The sixteen digits stand for the signed reading of the pattern. */
  lemma RecodeValue(bu: nat)
    requires bu < Pow32
    ensures Weighted(Recode(bu)) == Signed32(bu)
  {
    assert Recode(bu)[..16] == Recode(bu);
    RecodePrefixValue(bu, 16);
    Pow2Values();
    DivModUnique(bu, Pow32, 0, bu);
    if bu < Pow31 {
      DivModUnique(bu, Pow31, 0, bu);
    } else {
      DivModUnique(bu, Pow31, 1, bu - Pow31);
    }
  }

  lemma Signed32OfPattern(b: Int32)
    ensures b % Pow32 < Pow32 && Signed32(b % Pow32) == b
  {
    if b < 0 {
      DivModUnique(b, Pow32, -1, b + Pow32);
    } else {
      DivModUnique(b, Pow32, 0, b);
    }
  }

  /** The full encoder's partial products add up to a * b, mod 2^64. */
  lemma BoothSum(a: Int32, b: Int32)
    ensures Sum(Booth(a, b)) % Modulus == (a * b) % Modulus
  {
    Signed32OfPattern(b);
    RecodeValue(b % Pow32);
    ProductsSum(a, Recode(b % Pow32));
  }

  lemma FieldOfOneBit(x: nat, i: nat)
    ensures Field(x, i, 1) == BitAt(x, i)
  {
    assert Pow2(1) == 2;
  }

  /** From the third window on, every window as written is empty: the second is cut to five
      bits, so nothing is left to shift out of it. */
  lemma {:induction false} LateWindowsEmpty(bu: nat, j: nat)
    requires j >= 2
    ensures AsWrittenWindow(bu, j) == 0
  {
    if j == 2 {
      var w1 := AsWrittenWindow(bu, 1);
      assert w1 < Pow2(5) by {
        DivNonnegative(bu, Pow2(6));
      }
      FieldAboveWidth(w1, 5, 6, 5);
    } else {
      LateWindowsEmpty(bu, j - 1);
      ZeroFields();
    }
  }

  /** Every bit the encoder as written reads is the bit at the same position of the multiplier's
      low eleven bits; position 11 and everything above it read as 0. */
  lemma WindowBitIsLowBit(bu: nat, j: nat, i: int)
    requires -1 <= i <= 5
    ensures WindowBit(bu, j, i) == BitAt(bu % Pow2(11), 6 * j + i)
  {
    if j == 0 {
      FirstWindowBit(bu, i);
    } else if j == 1 {
      SecondWindowBit(bu, i);
    } else {
      LateWindowBit(bu, j, i);
    }
  }

  lemma FirstWindowBit(bu: nat, i: int)
    requires -1 <= i <= 5
    ensures WindowBit(bu, 0, i) == BitAt(bu % Pow2(11), i)
  {
    if i >= 0 {
      FieldOfOneBit(bu, i);
      BitOfLow(bu, 11, i);
    }
  }

  /** The second window, cut to five bits, holds bits 6 .. 10 and reads bit 11 as 0. */
  lemma SecondWindowBit(bu: nat, i: int)
    requires -1 <= i <= 5
    ensures WindowBit(bu, 1, i) == BitAt(bu % Pow2(11), 6 + i)
  {
    if i >= 0 {
      var w1 := AsWrittenWindow(bu, 1);
      assert AsWrittenWindow(bu, 0) == bu;
      assert w1 == Field(bu, 6, 5);
      assert WindowBit(bu, 1, i) == Field(w1, i, 1);
      FieldOfOneBit(w1, i);
      BitOfField(bu, 6, 5, i);
      BitOfLow(bu, 11, 6 + i);
    } else {
      assert WindowBit(bu, 1, i) == Field(bu, 5, 1);
      FieldOfOneBit(bu, 5);
      BitOfLow(bu, 11, 5);
    }
  }

  lemma LateWindowBit(bu: nat, j: nat, i: int)
    requires -1 <= i <= 5 && j >= 2
    ensures WindowBit(bu, j, i) == BitAt(bu % Pow2(11), 6 * j + i)
  {
    HighBitsZero(bu % Pow2(11), 11, 6 * j + i);
    if i >= 0 {
      LateWindowsEmpty(bu, j);
      ZeroFields();
    } else if j == 2 {
      var w1 := AsWrittenWindow(bu, 1);
      assert w1 < Pow2(5) by {
        DivNonnegative(bu, Pow2(6));
      }
      FieldAboveWidth(w1, 5, 5, 1);
    } else {
      LateWindowsEmpty(bu, j - 1);
      ZeroFields();
    }
  }

  /** Each partial product as written is the radix-4 digit of the multiplier's low eleven bits. */
  lemma SelectAsWrittenIsRecode(bu: nat, k: nat)
    ensures SelectAsWritten(bu, k) == RecodeSelect(bu % Pow2(11), k)
  {
    var j := k / 3;
    var p := k % 3;
    assert 6 * j + 2 * p == 2 * k;
    WindowBitIsLowBit(bu, j, 2 * p - 1);
    WindowBitIsLowBit(bu, j, 2 * p);
    WindowBitIsLowBit(bu, j, 2 * p + 1);
  }

  /** The encoder as written recodes only the multiplier's low eleven bits. */
  lemma SelectsAsWrittenTruncated(b: Int32)
    ensures SelectsAsWritten(b) == Recode((b % Pow32) % 2048)
  {
    Pow2Values();
    forall k | 0 <= k < 16
      ensures SelectsAsWritten(b)[k] == Recode((b % Pow32) % 2048)[k]
    {
      SelectAsWrittenIsRecode(b % Pow32, k);
    }
  }

  /** The encoder as written is the full encoder applied to the low eleven bits of b. */
  lemma BoothAsWrittenIsTruncated(a: Int32, b: Int32)
    ensures BoothAsWritten(a, b) == Booth(a, (b % Pow32) % 2048)
  {
    var t := (b % Pow32) % 2048;
    SelectsAsWrittenTruncated(b);
    DivModUnique(t, Pow32, 0, t);
  }

  /** `booth6` .. `booth15` are identically zero in the encoder as written. */
  lemma BoothAsWrittenHighZero(a: Int32, b: Int32)
    ensures forall k :: 6 <= k < 16 ==> BoothAsWritten(a, b)[k] == 0
  {
    var bu := b % Pow32;
    var ss := SelectsAsWritten(b);
    forall k | 6 <= k < 16
      ensures BoothAsWritten(a, b)[k] == 0
    {
      var j := k / 3;
      var p := k % 3;
      WindowBitIsLowBit(bu, j, 2 * p - 1);
      WindowBitIsLowBit(bu, j, 2 * p);
      WindowBitIsLowBit(bu, j, 2 * p + 1);
      HighBitsZero(bu % Pow2(11), 11, 2 * k - 1);
      HighBitsZero(bu % Pow2(11), 11, 2 * k);
      HighBitsZero(bu % Pow2(11), 11, 2 * k + 1);
      assert ss[k] == Select(0, 0, 2 * k);
      ProductsAt(a, ss, k);
    }
  }

  lemma {:induction false} ProductsAt(a: int, ss: seq<Select>, k: nat)
    requires k < |ss|
    ensures Products(a, ss)[k] == PartialProduct(a, ss[k])
  {
    if k < |ss| - 1 {
      ProductsAt(a, ss[..|ss| - 1], k);
    }
  }

  /** The product logged by `FinalAdder` for the encoder as written. */
  function MultiplyAsWritten(a: Int32, b: Int32): int
  {
    var t := Tree(BoothAsWritten(a, b));
    FinalAdder(t[0], t[1])
  }

  /** The product logged by `FinalAdder` when every window is read from `b_unsigned`. */
  function Multiply(a: Int32, b: Int32): int
  {
    var t := Tree(Booth(a, b));
    FinalAdder(t[0], t[1])
  }

  lemma ProductFits(a: Int32, v: int)
    requires -(Pow31 as int) <= v <= Pow31
    ensures -(Modulus as int) / 2 <= a * v < Modulus / 2
  {
    var x: int := if a < 0 then -(a as int) else a as int;
    var y: int := if v < 0 then -v else v;
    MulMonotone(Pow31, x, Pow31);
    if y > 0 {
      MulMonotone(y, x, Pow31);
    }
    assert x * y <= Pow31 * Pow31;
    assert a * v == x * y || a * v == -(x * y);
  }

  /** The corrected encoder multiplies every pair of 32-bit operands. */
  lemma MultiplyCorrect(a: Int32, b: Int32)
    ensures Multiply(a, b) == a * b
  {
    BoothSum(a, b);
    ProductFits(a, b);
    TreeResult(Booth(a, b), a * b);
  }

  /** The encoder as written multiplies a by the low eleven bits of b only. */
  lemma MultiplyAsWrittenValue(a: Int32, b: Int32)
    ensures MultiplyAsWritten(a, b) == a * ((b % Pow32) % 2048)
    ensures 0 <= b < 2048 ==> MultiplyAsWritten(a, b) == a * b
  {
    var t := (b % Pow32) % 2048;
    BoothAsWrittenIsTruncated(a, b);
    BoothSum(a, t);
    ProductFits(a, t);
    TreeResult(BoothAsWritten(a, b), a * t);
    if 0 <= b < 2048 {
      DivModUnique(b, Pow32, 0, b);
      DivModUnique(b, 2048, 0, b);
    }
  }

  /** 1 * 2048: the encoder as written logs 0. */
  lemma MultiplyAsWrittenCounterexample(a: Int32, b: Int32)
    requires a == 1 && b == 2048
    ensures MultiplyAsWritten(a, b) == 0
    ensures Multiply(a, b) == 2048
  {
    MultiplyAsWrittenValue(a, b);
    assert (b % Pow32) % 2048 == 0 by {
      DivModUnique(b, Pow32, 0, b);
      DivModUnique(b, 2048, 1, 0);
    }
    MultiplyCorrect(a, b);
  }

  /** The value of the Driver's registers `cnt`, `input_a` and `input_b` in its k-th cycle,
      counting from 0: all three start at 0 and are incremented together, wrapping as Int(32). */
  function DriverValue(k: nat): Int32
  {
    var v := k % Pow32;
    if v < Pow31 then v else v - Pow32
  }

  /** The call the Driver issues in its k-th cycle, `(a, b, cnt)`, guarded by `cnt < 95`. */
  function DriverCall(k: nat): (r: Option<(Int32, Int32, Int32)>)
    ensures r.Some? ==> r.value.0 == r.value.1 == r.value.2 < 95
  {
    var v := DriverValue(k);
    if v < 95 then Some((v, v, v)) else None
  }

  /** Before the counter wraps, the calls are exactly those with a = b = cnt = k for k = 0 .. 94,
      and the logged product of each is a * b. */
  lemma DriverCalls(k: nat)
    requires k < Pow31
    ensures DriverCall(k).Some? <==> k < 95
    ensures DriverCall(k).Some? ==> DriverCall(k).value == (k, k, k)
    ensures DriverCall(k).Some? ==> MultiplyAsWritten(k, k) == k * k
  {
    DivModUnique(k, Pow32, 0, k);
    if k < 95 {
      MultiplyAsWrittenValue(k, k);
    }
  }
}
