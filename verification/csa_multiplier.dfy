/** The carry-save half of the `test_csamul.py` multiplier: the `csa` cell, the reduction loop
    of `CSATree.build` and the addition in `FinalAdder`. Every 64-bit port is a bit pattern in
    [0, 2^64); arithmetic on the ports is taken mod 2^64. */
module CsaMultiplier {
  import opened Bitwise

  const Modulus: nat := 0x1_0000_0000_0000_0000
  const Pow31: nat := 0x8000_0000
  const Pow32: nat := 0x1_0000_0000

  type Word64 = x: nat | x < Modulus
  type Int32 = x: int | -0x8000_0000 <= x < 0x8000_0000

  lemma Pow2Values()
    ensures Pow2(11) == 2048 && Pow2(31) == Pow31 && Pow2(32) == Pow32 && Pow2(64) == Modulus
  {
    assert Pow2(3) == 8;
    Pow2Add(3, 3);
    Pow2Add(8, 3);
    Pow2Add(8, 8);
    Pow2Add(16, 16);
    Pow2Add(32, 32);
    assert Pow2(32) == 2 * Pow2(31);
  }

  /** The signed reading of a 64-bit pattern (`bitcast(Int(64))`). */
  function Signed64(x: Word64): int
  {
    if x < Modulus / 2 then x else x - Modulus
  }

  /** Reading back a value that fits in 64 signed bits gives the value itself. */
  lemma Signed64OfFitting(v: int)
    requires -(Modulus as int) / 2 <= v < Modulus / 2
    ensures Signed64(v % Modulus) == v
  {
    if v < 0 {
      DivModUnique(v, Modulus, -1, v + Modulus);
    } else {
      DivModUnique(v, Modulus, 0, v);
    }
  }

  lemma ModAdd(u: int, v: int)
    ensures (u + v % Modulus) % Modulus == (u + v) % Modulus
    ensures (u % Modulus + v) % Modulus == (u + v) % Modulus
  {
    DivModUnique(u + v % Modulus, Modulus, (u + v) / Modulus - v / Modulus, (u + v) % Modulus);
    DivModUnique(u % Modulus + v, Modulus, (u + v) / Modulus - u / Modulus, (u + v) % Modulus);
  }

  /** The sum of the operands, read from the back. */
  function Sum(s: seq<int>): int
  {
    if |s| == 0 then 0 else Sum(s[..|s| - 1]) + s[|s| - 1]
  }

  lemma {:induction false} SumAppend(a: seq<int>, b: seq<int>)
    ensures Sum(a + b) == Sum(a) + Sum(b)
    decreases |b|
  {
    if |b| > 0 {
      assert (a + b)[..|a + b| - 1] == a + b[..|b| - 1];
      SumAppend(a, b[..|b| - 1]);
    } else {
      assert a + b == a;
    }
  }

  /** `csa`: the sum bits `x1 ^ x2 ^ x3` and the majority bits shifted left by one; together they
      carry the same total as the three inputs. */
  function Csa(x1: Word64, x2: Word64, x3: Word64): (r: (Word64, Word64))
    ensures (r.0 + r.1) % Modulus == (x1 + x2 + x3) % Modulus
    ensures r.1 % 2 == 0
  {
    CsaFacts(x1, x2, x3);
    (Xor3(x1, x2, x3), (2 * Majority(x1, x2, x3)) % Modulus)
  }

  lemma CsaFacts(x1: Word64, x2: Word64, x3: Word64)
    ensures Xor3(x1, x2, x3) < Modulus
    ensures (Xor3(x1, x2, x3) + (2 * Majority(x1, x2, x3)) % Modulus) % Modulus == (x1 + x2 + x3) % Modulus
    ensures ((2 * Majority(x1, x2, x3)) % Modulus) % 2 == 0
  {
    assert Xor3(x1, x2, x3) < Modulus by {
      Pow2Values();
      Bounded(x1, x2, 64);
      Bounded(Xor(x1, x2), x3, 64);
    }
    var s := Xor3(x1, x2, x3);
    var m := Majority(x1, x2, x3);
    assert x1 + x2 + x3 == s + 2 * m by {
      FullAdder(x1, x2, x3);
    }
    ModAdd(s, 2 * m);
    EvenMod(m);
  }

  /** Reducing an even number mod 2^64 keeps it even. */
  lemma EvenMod(m: nat)
    ensures ((2 * m) % Modulus) % 2 == 0
  {
    var q := (2 * m) / Modulus;
    var h := m - q * (Modulus / 2);
    assert 2 * m == Modulus * q + (2 * m) % Modulus;
    assert (2 * m) % Modulus == 2 * h;
  }

  lemma Sum2(x: int, y: int)
    ensures Sum([x, y]) == x + y
  {
    assert [x, y][..1] == [x];
    assert Sum([x]) == x by {
      assert [x][..0] == [];
    }
  }

  lemma Sum3(x: int, y: int, z: int)
    ensures Sum([x, y, z]) == x + y + z
  {
    assert [x, y, z][..2] == [x, y];
    Sum2(x, y);
  }

  /** One pass of the reduction loop: each complete group of three operands becomes its sum and
      carry, in place; the one or two operands left over are copied after them. */
  function ReducePass(pps: seq<Word64>): (r: seq<Word64>)
    ensures |r| == 2 * (|pps| / 3) + |pps| % 3
    ensures Sum(r) % Modulus == Sum(pps) % Modulus
    decreases |pps|
  {
    if |pps| < 3 then pps
    else
      var sc := Csa(pps[0], pps[1], pps[2]);
      var rest := ReducePass(pps[3..]);
      GroupSum(pps, sc.0, sc.1, rest);
      [sc.0, sc.1] + rest
  }

  /** The bookkeeping behind one step of `ReducePass`. */
  lemma GroupSum(pps: seq<Word64>, s: Word64, c: Word64, rest: seq<Word64>)
    requires |pps| >= 3
    requires (s + c) % Modulus == (pps[0] + pps[1] + pps[2]) % Modulus
    requires Sum(rest) % Modulus == Sum(pps[3..]) % Modulus
    ensures Sum([s, c] + rest) % Modulus == Sum(pps) % Modulus
  {
    SumAppend([s, c], rest);
    assert pps == [pps[0], pps[1], pps[2]] + pps[3..];
    SumAppend([pps[0], pps[1], pps[2]], pps[3..]);
    Sum2(s, c);
    Sum3(pps[0], pps[1], pps[2]);
    AddCongruent(s as int + c, Sum(rest), pps[0] as int + pps[1] + pps[2], Sum(pps[3..]));
  }

  /** Sums of congruent terms are congruent. */
  lemma AddCongruent(a: int, b: int, x: int, y: int)
    requires a % Modulus == x % Modulus && b % Modulus == y % Modulus
    ensures (a + b) % Modulus == (x + y) % Modulus
  {
    ModAdd(a, b);
    ModAdd(a % Modulus, b);
    ModAdd(x, y);
    ModAdd(x % Modulus, y);
  }

  /** Passes are repeated while more than two operands remain. */
  function Tree(pps: seq<Word64>): (r: seq<Word64>)
    ensures |pps| >= 2 ==> |r| == 2
    ensures |pps| <= 2 ==> r == pps
    ensures Sum(r) % Modulus == Sum(pps) % Modulus
    ensures |pps| >= 2 ==> (r[0] + r[1]) % Modulus == Sum(pps) % Modulus
    decreases |pps|
  {
    if |pps| <= 2 then
      if |pps| == 2 then PairSum(pps); pps else pps
    else Tree(ReducePass(pps))
  }

  /** Sixteen partial products shrink 16, 11, 8, 6, 4, 3, 2 over six passes. */
  lemma ReductionSchedule(pps: seq<Word64>)
    requires |pps| == 16
    ensures var p1 := ReducePass(pps); var p2 := ReducePass(p1); var p3 := ReducePass(p2);
            var p4 := ReducePass(p3); var p5 := ReducePass(p4); var p6 := ReducePass(p5);
            |p1| == 11 && |p2| == 8 && |p3| == 6 && |p4| == 4 && |p5| == 3 && |p6| == 2
            && Tree(pps) == p6
  {
    var p1 := ReducePass(pps);
    var p2 := ReducePass(p1);
    var p3 := ReducePass(p2);
    var p4 := ReducePass(p3);
    var p5 := ReducePass(p4);
    var p6 := ReducePass(p5);
    assert Tree(p5) == p6;
    assert Tree(p4) == Tree(p5);
    assert Tree(p3) == Tree(p4);
    assert Tree(p2) == Tree(p3);
    assert Tree(p1) == Tree(p2);
  }

  /** `CSATree.build`: the outer loop of the reduction, returning `final_s` and `final_carry`. */
  method CsaTree(booths: seq<Word64>) returns (finalS: Word64, finalCarry: Word64)
    requires |booths| >= 2
    ensures [finalS, finalCarry] == Tree(booths)
    ensures (finalS + finalCarry) % Modulus == Sum(booths) % Modulus
  {
    var current := booths;
    while |current| > 2
      invariant |current| >= 2
      invariant Tree(current) == Tree(booths)
      decreases |current|
    {
      current := ReduceOnce(current);
    }
    finalS := current[0];
    finalCarry := current[1];
    assert [finalS, finalCarry] == current;
    Sum2(finalS, finalCarry);
  }

  /** One iteration of the outer loop: the group loop followed by the copy of the leftovers. */
  method ReduceOnce(current: seq<Word64>) returns (next: seq<Word64>)
    ensures next == ReducePass(current)
  {
    var i;
    next, i := ReduceGroups(current);
    var n := |current|;
    while i < n
      invariant 0 <= i <= n
      invariant next + current[i..] == ReducePass(current)
    {
      MoveFront(next, current, i);
      next := next + [current[i]];
      i := i + 1;
    }
    assert current[i..] == [];
  }

  lemma MoveFront<T>(a: seq<T>, s: seq<T>, i: nat)
    requires i < |s|
    ensures a + s[i..] == (a + [s[i]]) + s[i + 1..]
  {
  }

  /** The group loop: `(s, c)` of every complete group of three, in order. */
  method ReduceGroups(current: seq<Word64>) returns (next: seq<Word64>, i: nat)
    ensures i <= |current| && |current[i..]| < 3
    ensures next + current[i..] == ReducePass(current)
  {
    next := [];
    var n := |current|;
    i := 0;
    while i + 2 < n
      invariant 0 <= i <= n
      invariant next + ReducePass(current[i..]) == ReducePass(current)
    {
      var sc := Csa(current[i], current[i + 1], current[i + 2]);
      PassStep(current, i);
      next := next + [sc.0, sc.1];
      i := i + 3;
    }
  }

  /** The group starting at position i is the next one `ReducePass` combines. */
  lemma PassStep(p: seq<Word64>, i: nat)
    requires i + 2 < |p|
    ensures ReducePass(p[i..]) == [Csa(p[i], p[i + 1], p[i + 2]).0, Csa(p[i], p[i + 1], p[i + 2]).1] + ReducePass(p[i + 3..])
  {
    assert p[i..][3..] == p[i + 3..];
    assert p[i..][0] == p[i] && p[i..][1] == p[i + 1] && p[i..][2] == p[i + 2];
  }

  /** `FinalAdder`: `s + carry` on 64-bit ports, read as a signed result. */
  function FinalAdder(s: Word64, carry: Word64): int
  {
    Signed64((s + carry) % Modulus)
  }

  /** Sum and carry of the tree add up to the sum of its inputs; if that sum is congruent to a
      value that fits in 64 signed bits, `FinalAdder` yields that value. */
  lemma TreeResult(pps: seq<Word64>, v: int)
    requires |pps| >= 2
    requires Sum(pps) % Modulus == v % Modulus
    requires -(Modulus as int) / 2 <= v < Modulus / 2
    ensures var t := Tree(pps); FinalAdder(t[0], t[1]) == v
  {
    Signed64OfFitting(v);
  }

  lemma PairSum(t: seq<int>)
    requires |t| == 2
    ensures Sum(t) == t[0] + t[1]
  {
    assert t == [t[0], t[1]];
    Sum2(t[0], t[1]);
  }
}
