/** The indirect-increment test `tests/array_increment.py`: an FSM that performs
    `a[b[i]] += 1` for i = 0 .. 99 over 128-entry register arrays, and the loading of `b`'s
    initial contents from a hexadecimal file. One call of `Step` is one cycle of
    `ArrayIncrementFSM.build`; the register writes it makes are visible from the next cycle on,
    which a pure update of the state expresses directly. */
module ArrayIncrement {
  import opened Wrappers
  import opened Text
  import opened PythonInt

  const ArraySize: nat := 128
  const LoopCount: nat := 100
  const IndexBits: nat := 7
  const Pow32: nat := 0x1_0000_0000

  /** The three register arrays: `i` (one UInt(32)), `b` (UInt(7) indices) and `a` (UInt(32)
      counters). */
  datatype State = State(i: nat, b: seq<nat>, a: seq<nat>)

  predicate Valid(s: State)
  {
    && s.i < Pow32
    && |s.b| == ArraySize && |s.a| == ArraySize
    && (forall k :: 0 <= k < |s.b| ==> s.b[k] < ArraySize)
    && (forall k :: 0 <= k < |s.a| ==> s.a[k] < Pow32)
  }

  /** What one cycle does: either the increment block fires, or `finish()` is raised. */
  datatype Cycle = Continue(next: State) | Finish

  /** One cycle: while `i < 100` the counter selected by `b[i]` and `i` are incremented as
      UInt(32); otherwise the simulation finishes. The two guards are read on the same `i`, so
      exactly one of them holds. */
  function Step(s: State): (r: Cycle)
    requires Valid(s)
    ensures r.Finish? <==> s.i >= LoopCount
    ensures r.Continue? ==> Valid(r.next) && r.next.i == s.i + 1 && r.next.b == s.b
    ensures r.Continue? ==> r.next.a[s.b[s.i]] == (s.a[s.b[s.i]] + 1) % Pow32
    ensures r.Continue? ==> forall k :: 0 <= k < ArraySize && k != s.b[s.i] ==> r.next.a[k] == s.a[k]
  {
    if s.i < LoopCount then
      var idx := s.b[s.i];
      Continue(State(s.i + 1, s.b, s.a[idx := (s.a[idx] + 1) % Pow32]))
    else Finish
  }

  function Initial(b: seq<nat>): State
  {
    State(0, b, seq(ArraySize, _ => 0))
  }

  /** The total of the counters. */
  function Total(a: seq<nat>): nat
  {
    if |a| == 0 then 0 else Total(a[..|a| - 1]) + a[|a| - 1]
  }

  lemma {:induction false} TotalIncrement(a: seq<nat>, k: nat)
    requires k < |a|
    ensures Total(a[k := a[k] + 1]) == Total(a) + 1
    decreases |a|
  {
    var n := |a| - 1;
    var a' := a[k := a[k] + 1];
    if k < n {
      assert a'[..n] == a[..n][k := a[k] + 1];
      TotalIncrement(a[..n], k);
    } else {
      assert a'[..n] == a[..n];
    }
  }

  lemma {:induction false} TotalZeros(n: nat)
    ensures Total(seq(n, _ => 0)) == 0
  {
    if n > 0 {
      assert seq(n, _ => 0)[..n - 1] == seq(n - 1, _ => 0);
      TotalZeros(n - 1);
    }
  }

  /** The number of occurrences of a value in a sequence never exceeds its length. */
  lemma {:induction false} CountBound(s: seq<nat>, x: nat)
    ensures multiset(s)[x] <= |s|
  {
    if |s| > 0 {
      assert s == s[..|s| - 1] + [s[|s| - 1]];
      CountBound(s[..|s| - 1], x);
    }
  }

  /** A state after n increments of the run that starts from `Initial(b)`: `a` is the
      histogram of the first n indices and holds n increments in total. */
  predicate Histogram(s: State, b: seq<nat>, n: nat)
    requires |b| == ArraySize
  {
    && Valid(s) && s.b == b && s.i == n && n <= LoopCount
    && (forall k :: 0 <= k < ArraySize ==> s.a[k] == multiset(b[..n])[k])
    && Total(s.a) == n
  }

  /** One increment extends the histogram by the next index. */
  lemma StepHistogram(s: State, b: seq<nat>, n: nat)
    requires |b| == ArraySize && Histogram(s, b, n) && n < LoopCount
    ensures Step(s).Continue? && Histogram(Step(s).next, b, n + 1)
  {
    var idx := b[n];
    var next := Step(s).next;
    assert s.a[idx] + 1 < Pow32 by {
      CountBound(b[..n], idx);
    }
    assert next.a == s.a[idx := s.a[idx] + 1];
    assert forall k :: 0 <= k < ArraySize ==> next.a[k] == multiset(b[..n + 1])[k] by {
      assert b[..n + 1] == b[..n] + [idx];
    }
    assert Total(next.a) == n + 1 by {
      TotalIncrement(s.a, idx);
    }
  }

  /** The simulation from `Initial(b)`: 100 increment cycles and the finishing cycle. On
      return `a[k]` is the number of j < 100 with `b[j] == k`, the counters add up to 100, and
      `finish` was raised in cycle 101, the first one that found `i >= 100`. */
  method Simulate(b: seq<nat>) returns (a: seq<nat>, cycles: nat)
    requires |b| == ArraySize && forall k :: 0 <= k < |b| ==> b[k] < ArraySize
    ensures cycles == LoopCount + 1
    ensures |a| == ArraySize
    ensures forall k :: 0 <= k < ArraySize ==> a[k] == multiset(b[..LoopCount])[k]
    ensures Total(a) == LoopCount
  {
    var s := Initial(b);
    TotalZeros(ArraySize);
    cycles := 0;
    var done := false;
    while !done
      invariant Histogram(s, b, s.i)
      invariant done ==> s.i == LoopCount
      invariant cycles == s.i + (if done then 1 else 0)
      decreases LoopCount - s.i, !done
    {
      var c := Step(s);
      cycles := cycles + 1;
      if c.Finish? {
        done := true;
      } else {
        StepHistogram(s, b, s.i);
        s := c.next;
      }
    }
    a := s.a;
  }

  /** `b_init`: every non-blank line, stripped, read with `int(line, 16)`; a line that does not
      parse raises `ValueError`, which aborts the script. */
  function ParseIndices(lines: seq<string>): (r: Result<seq<int>>)
    ensures r.Ok? ==> |r.value| <= |lines|
    ensures |lines| == 0 ==> r == Ok([])
    decreases |lines|
  {
    if |lines| == 0 then Ok([])
    else
      var t := Strip(lines[0]);
      var rest := ParseIndices(lines[1..]);
      if t == "" then rest
      else
        var v := ParseBase16(t);
        if v.None? then Err("invalid literal for int() with base 16")
        else if rest.Err? then rest
        else Ok([v.value] + rest.value)
  }

  /** One line per value, as a hexadecimal file holds them: two zero-padded digits and a
      newline. */
  function IndexLines(vs: seq<nat>): (lines: seq<string>)
    ensures |lines| == |vs|
  {
    if |vs| == 0 then [] else [FormatHex(vs[0], 2) + "\n"] + IndexLines(vs[1..])
  }

  /** A file of hexadecimal lines reads back as the values written; blank lines after them
      are ignored. */
  lemma {:induction false} ParseIndexLines(vs: seq<nat>, blanks: nat)
    ensures ParseIndices(IndexLines(vs) + Blanks(blanks)) == Ok(vs)
    decreases |vs|
  {
    var all := IndexLines(vs) + Blanks(blanks);
    if |vs| == 0 {
      assert all == Blanks(blanks);
      ParseBlanks(blanks);
    } else {
      assert [vs[0]] + vs[1..] == vs;
      var line := FormatHex(vs[0], 2) + "\n";
      var rest := IndexLines(vs[1..]) + Blanks(blanks);
      assert all == [line] + rest;
      assert ParseIndices([line] + rest) == Ok([vs[0]] + vs[1..]) by {
        ParseIndexLine(vs[0]);
        ParseIndexLines(vs[1..], blanks);
        ParseCons(line, rest, vs[0], vs[1..]);
      }
    }
  }

  /** `n` blank lines. */
  function Blanks(n: nat): seq<string>
  {
    if n == 0 then [] else ["\n"] + Blanks(n - 1)
  }

  lemma {:induction false} ParseBlanks(n: nat)
    ensures ParseIndices(Blanks(n)) == Ok([])
  {
    if n > 0 {
      ParseBlanks(n - 1);
      ParseBlankCons(n);
    }
  }

  /** A blank line is skipped. */
  lemma ParseBlankCons(n: nat)
    requires n > 0 && ParseIndices(Blanks(n - 1)) == Ok([])
    ensures ParseIndices(Blanks(n)) == Ok([])
  {
    var line := "\n";
    assert Blanks(n)[0] == line && Blanks(n)[1..] == Blanks(n - 1);
    assert Strip(line) == "" by {
      StripIsInfix(line);
    }
  }

  lemma ParseCons(line: string, rest: seq<string>, v: int, vs: seq<int>)
    requires Strip(line) != "" && ParseBase16(Strip(line)) == Some(v)
    requires ParseIndices(rest) == Ok(vs)
    ensures ParseIndices([line] + rest) == Ok([v] + vs)
  {
    assert ([line] + rest)[0] == line && ([line] + rest)[1..] == rest;
  }

  lemma ParseIndexLine(v: nat)
    ensures var t := Strip(FormatHex(v, 2) + "\n"); t != "" && ParseBase16(t) == Some(v)
  {
    var f := FormatHex(v, 2);
    FormatHexIsLowerHex(v, 2);
    StripNewline(f);
    ParseBase16OfFormatHex(v, 2);
  }

  /** The padding of `b_init`: zero-extended to 128 entries, then cut to 128. */
  function PadIndices(vals: seq<int>): (r: seq<int>)
    ensures |r| == ArraySize
  {
    var padded := if |vals| < ArraySize then vals + seq(ArraySize - |vals|, _ => 0) else vals;
    padded[..ArraySize]
  }

  /** The padded list keeps the file's first min(n, 128) values and fills the rest with 0. */
  lemma PadIndicesContents(vals: seq<int>)
    ensures forall k :: 0 <= k < ArraySize ==> PadIndices(vals)[k] == if k < |vals| then vals[k] else 0
    ensures |vals| >= ArraySize ==> PadIndices(vals) == vals[..ArraySize]
    ensures |vals| <= ArraySize ==> PadIndices(vals)[..|vals|] == vals
  {
  }

  /** The contents of the UInt(7) register array `b`: each entry reduced to its low seven bits. */
  function IndexArray(vals: seq<int>): (b: seq<nat>)
    ensures |b| == ArraySize
    ensures forall k :: 0 <= k < ArraySize ==> b[k] < ArraySize
  {
    var p := PadIndices(vals);
    seq(ArraySize, k requires 0 <= k < ArraySize => p[k] % ArraySize)
  }

  /** Values already in 0 .. 127 are loaded unchanged. */
  lemma IndexArrayKeepsIndices(vals: seq<int>)
    requires forall k :: 0 <= k < |vals| ==> 0 <= vals[k] < ArraySize
    ensures forall k :: 0 <= k < ArraySize ==> IndexArray(vals)[k] == if k < |vals| then vals[k] else 0
  {
    PadIndicesContents(vals);
  }

  /** The script as a whole: the file's lines in, the final `a` and cycle count out, or the
      `ValueError` of a malformed line. */
  method RunScript(lines: seq<string>) returns (r: Result<(seq<nat>, nat)>)
    ensures ParseIndices(lines).Err? <==> r.Err?
    ensures r.Ok? ==> var b := IndexArray(ParseIndices(lines).value);
      && r.value.1 == LoopCount + 1
      && |r.value.0| == ArraySize
      && (forall k :: 0 <= k < ArraySize ==> r.value.0[k] == multiset(b[..LoopCount])[k])
  {
    var parsed := ParseIndices(lines);
    if parsed.Err? {
      return Err(parsed.msg);
    }
    var b := IndexArray(parsed.value);
    var a, cycles := Simulate(b);
    r := Ok((a, cycles));
  }
}
