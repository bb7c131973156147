/** The hex-file utilities: `generate_hex` (utils/update_hex_files.py), `main` of
    test_sum/make_hex.py, utils/process_hex.py and utils/gen_hex.py. File contents are
    parameters: a missing file is `None`. */
module HexTools {
  import opened Wrappers
  import opened Text
  import opened PythonInt
  import Bitwise

  type Byte = x: nat | x < 256

  const Pow32: nat := 0x1_0000_0000

  /** `while len(content) % 4 != 0: content += b"\x00"` */
  function PadToWord(content: seq<Byte>): (r: seq<Byte>)
    ensures |r| % 4 == 0
    ensures |content| <= |r| < |content| + 4
    ensures r[..|content|] == content
    ensures forall i :: |content| <= i < |r| ==> r[i] == 0
    decreases 3 - (|content| + 3) % 4
  {
    if |content| % 4 == 0 then content else PadToWord(content + [0])
  }

  /** `struct.unpack("<I", four_bytes)[0]`: the little-endian value of four bytes. */
  function LittleEndian(b: seq<Byte>): (w: nat)
    requires |b| == 4
    ensures w < Pow32
  {
    b[0] as nat + 256 * (b[1] as nat) + 65536 * (b[2] as nat) + 16777216 * (b[3] as nat)
  }

  /** The four bytes, least significant first, of a 32-bit word. */
  function WordBytes(w: nat): (b: seq<Byte>)
    requires w < Pow32
    ensures |b| == 4
  {
    [w % 256, (w / 256) % 256, (w / 65536) % 256, w / 16777216]
  }

  lemma WordBytesOfLittleEndian(b: seq<Byte>)
    requires |b| == 4
    ensures WordBytes(LittleEndian(b)) == b
  {
    var w := LittleEndian(b);
    var b0, b1, b2, b3 := b[0] as nat, b[1] as nat, b[2] as nat, b[3] as nat;
    var h1 := b1 + 256 * b2 + 65536 * b3;
    var h2 := b2 + 256 * b3;
    Bitwise.DivModUnique(w, 256, h1, b0);
    Bitwise.DivModUnique(h1, 256, h2, b1);
    Bitwise.DivModUnique(w, 65536, h2, b0 + 256 * b1);
    Bitwise.DivModUnique(h2, 256, b3, b2);
    Bitwise.DivModUnique(w, 16777216, b3, b0 + 256 * b1 + 65536 * b2);
  }

  /** The little-endian words of a buffer whose length is a multiple of four, in order. */
  function Words(content: seq<Byte>): (ws: seq<nat>)
    requires |content| % 4 == 0
    ensures |ws| == |content| / 4
    ensures forall k :: 0 <= k < |ws| ==> ws[k] == LittleEndian(content[4 * k..4 * k + 4])
  {
    if |content| == 0 then []
    else
      var rest := Words(content[4..]);
      assert forall k :: 0 <= k < |rest| ==> content[4..][4 * k..4 * k + 4] == content[4 * (k + 1)..4 * (k + 1) + 4];
      [LittleEndian(content[..4])] + rest
  }

  function Unwords(ws: seq<nat>): (content: seq<Byte>)
    requires forall k :: 0 <= k < |ws| ==> ws[k] < Pow32
    ensures |content| == 4 * |ws|
  {
    if |ws| == 0 then [] else WordBytes(ws[0]) + Unwords(ws[1..])
  }

  lemma {:induction false} UnwordsWords(content: seq<Byte>)
    requires |content| % 4 == 0
    ensures Unwords(Words(content)) == content
    decreases |content|
  {
    if |content| > 0 {
      var ws := Words(content);
      assert ws[1..] == Words(content[4..]);
      UnwordsWords(content[4..]);
      WordBytesOfLittleEndian(content[..4]);
      assert content == content[..4] + content[4..];
    }
  }

  /** `f"0x{w:08x}"` */
  function HexWordLine(w: nat): string
  {
    "0x" + FormatHex(w, 8)
  }

  lemma HexWordLineShape(w: nat)
    requires w < Pow32
    ensures |HexWordLine(w)| == 10 && HexWordLine(w)[..2] == "0x"
    ensures forall i :: 2 <= i < 10 ==> IsLowerHexDigit(HexWordLine(w)[i])
  {
    assert Pow(16, 8) == Pow32;
    FormatHexLength(w, 8);
    FormatHexIsLowerHex(w, 8);
  }

  /** The lines `generate_hex` writes (each ends with a newline); `None` when the input file is
      missing, in which case no output file is written. */
  function GenerateHex(input: Option<seq<Byte>>): (out: Option<seq<string>>)
    ensures input.None? <==> out.None?
    ensures input.Some? ==> |out.value| == (|input.value| + 3) / 4
    ensures input.Some? ==> forall k :: 0 <= k < |out.value| ==>
      out.value[k] == HexWordLine(LittleEndian(PadToWord(input.value)[4 * k..4 * k + 4])) + "\n"
  {
    if input.None? then None
    else
      Some(HexLines(Words(PadToWord(input.value))))
  }

  /** Reads back one written line: `0x`, hexadecimal digits, newline. */
  function DecodeLine(line: string): Option<nat>
  {
    if |line| >= 3 && line[..2] == "0x" && line[|line| - 1] == '\n'
    then ParseHexDigits(line[2..|line| - 1])
    else None
  }

  function DecodeLines(lines: seq<string>): (r: Option<seq<nat>>)
    ensures r.Some? ==> |r.value| == |lines|
  {
    if |lines| == 0 then Some([])
    else
      var w := DecodeLine(lines[0]);
      var rest := DecodeLines(lines[1..]);
      if w.None? || rest.None? then None else Some([w.value] + rest.value)
  }

  /** One `0x`-line, newline included, per word. */
  function HexLines(ws: seq<nat>): (lines: seq<string>)
    ensures |lines| == |ws|
    ensures forall k :: 0 <= k < |ws| ==> lines[k] == HexWordLine(ws[k]) + "\n"
  {
    if |ws| == 0 then [] else [HexWordLine(ws[0]) + "\n"] + HexLines(ws[1..])
  }

  /** One generated line reads back as its word. */
  lemma DecodeHexWordLine(w: nat)
    requires w < Pow32
    ensures DecodeLine(HexWordLine(w) + "\n") == Some(w)
  {
    var h := HexWordLine(w);
    var l := h + "\n";
    HexWordLineShape(w);
    assert l[..2] == h[..2];
    assert l[2..|l| - 1] == FormatHex(w, 8);
    FormatHexRoundTrip(w, 8);
  }

  lemma {:induction false} DecodeGeneratedLines(ws: seq<nat>)
    requires forall k :: 0 <= k < |ws| ==> ws[k] < Pow32
    ensures DecodeLines(HexLines(ws)) == Some(ws)
    decreases |ws|
  {
    if |ws| > 0 {
      DecodeHexWordLine(ws[0]);
      DecodeGeneratedLines(ws[1..]);
      DecodeCons(HexWordLine(ws[0]) + "\n", HexLines(ws[1..]), ws[0], ws[1..]);
      assert [ws[0]] + ws[1..] == ws;
    }
  }

  lemma DecodeCons(line: string, rest: seq<string>, w: nat, ws: seq<nat>)
    requires DecodeLine(line) == Some(w) && DecodeLines(rest) == Some(ws)
    ensures DecodeLines([line] + rest) == Some([w] + ws)
  {
    assert ([line] + rest)[0] == line && ([line] + rest)[1..] == rest;
  }

  /** Decoding the generated file gives back the input bytes followed by fewer than four zero
      bytes: every line is one little-endian word of the padded input, in order. */
  lemma GenerateHexRoundTrip(content: seq<Byte>)
    ensures GenerateHex(Some(content)).Some?
    ensures var lines := GenerateHex(Some(content)).value;
      var ws := DecodeLines(lines);
      && ws.Some?
      && (forall k :: 0 <= k < |ws.value| ==> ws.value[k] < Pow32)
      && var back := Unwords(ws.value);
      && |content| <= |back| < |content| + 4
      && back[..|content|] == content
      && (forall i :: |content| <= i < |back| ==> back[i] == 0)
  {
    var padded := PadToWord(content);
    var ws := Words(padded);
    DecodeGeneratedLines(ws);
    UnwordsWords(padded);
  }

  /** Every generated line is `0x`, exactly eight lower-case hexadecimal digits and a newline. */
  lemma GenerateHexLineShape(content: seq<Byte>, k: nat)
    requires k < |GenerateHex(Some(content)).value|
    ensures var line := GenerateHex(Some(content)).value[k];
      && |line| == 11 && line[..2] == "0x" && line[10] == '\n'
      && (forall i :: 2 <= i < 10 ==> IsLowerHexDigit(line[i]))
  {
    var ws := Words(PadToWord(content));
    HexWordLineShape(ws[k]);
  }

  /** The observable result of running a script: exit status and the lines printed. */
  datatype Run = Run(exitCode: nat, stdout: seq<string>, stderr: seq<string>)

  /** test_sum/make_hex.py `main`: `argv` includes the script name; `readFile` gives the bytes of
      a path (`None` for a missing file, which raises and ends the script with status 1). */
  function MakeHex(argv: seq<string>, readFile: string -> Option<seq<Byte>>): (run: Run)
    ensures run.exitCode == 0 <==> |argv| >= 2 && readFile(argv[1]).Some?
    ensures run.exitCode != 0 ==> run.exitCode == 1 && run.stdout == [] && |run.stderr| == 1
    ensures |argv| < 2 ==> run.exitCode == 1 && run.stdout == []
    ensures |argv| >= 2 && readFile(argv[1]).Some? ==>
      && run.exitCode == 0
      && |run.stdout| == (|readFile(argv[1]).value| + 3) / 4
      && forall k :: 0 <= k < |run.stdout| ==>
           run.stdout[k] == HexWordLine(LittleEndian(PadToWord(readFile(argv[1]).value)[4 * k..4 * k + 4]))
  {
    if |argv| < 2 then Run(1, [], ["Usage: python3 make_hex.py <binary_file>"])
    else
      var content := readFile(argv[1]);
      if content.None? then Run(1, [], ["FileNotFoundError"])
      else
        var ws := Words(PadToWord(content.value));
        Run(0, seq(|ws|, k requires 0 <= k < |ws| => HexWordLine(ws[k])), [])
  }

  /** utils/process_hex.py for one line: strip, then drop one leading lower-case `0x`. The
      stripped line is the result, with `0x` put back in front exactly when it began so. */
  function ProcessLine(line: string): (r: string)
    ensures Strip(line) == r || Strip(line) == "0x" + r
    ensures Strip(line) == "0x" + r <==> StartsWith(Strip(line), "0x")
  {
    var t := Strip(line);
    if StartsWith(t, "0x") then t[2..] else t
  }

  /** The written lines and the reported count of utils/process_hex.py: one output line per
      input line, each ended by a newline, holding the stripped input without a leading
      lower-case `0x`; the count is the number of lines. */
  function ProcessHex(lines: seq<string>): (r: (seq<string>, nat))
    ensures |r.0| == |lines| && r.1 == |lines|
    ensures forall k :: 0 <= k < |lines| ==> |r.0[k]| > 0 && r.0[k][|r.0[k]| - 1] == '\n'
    ensures forall k :: 0 <= k < |lines| ==>
      var t := r.0[k][..|r.0[k]| - 1];
      if StartsWith(Strip(lines[k]), "0x") then Strip(lines[k]) == "0x" + t else Strip(lines[k]) == t
  {
    (seq(|lines|, k requires 0 <= k < |lines| => ProcessLine(lines[k]) + "\n"), |lines|)
  }

  /** Only a lower-case prefix is removed: a stripped line starting with `0X` is kept whole. */
  lemma ProcessLineKeepsUpperPrefix(line: string)
    requires StartsWith(Strip(line), "0X")
    ensures ProcessLine(line) == Strip(line)
  {
    assert Strip(line)[1] == 'X';
  }

  /** At most one prefix is removed: `0x0x12` becomes `0x12`. */
  lemma ProcessLineRemovesOnePrefix(rest: string)
    requires |rest| > 0 && !IsSpace(rest[|rest| - 1])
    ensures ProcessLine("0x0x" + rest) == "0x" + rest
  {
    var s := "0x0x" + rest;
    StripUnpadded(s);
    assert s[..2] == "0x";
    assert s[2..] == "0x" + rest;
  }

  /** utils/gen_hex.py `to_hex`: Python's `f"{v:08x}"`, whose width counts a minus sign. */
  function ToHex(v: int): (s: string)
    ensures v >= 0 ==> s == FormatHex(v, 8)
  {
    if v >= 0 then FormatHex(v, 8) else "-" + FormatHex(-v, 7)
  }

  lemma ToHexRoundTrip(v: int)
    ensures ParseBase16(ToHex(v)) == Some(v)
    ensures |ToHex(v)| >= 8
    ensures 0 <= v < Pow32 ==> |ToHex(v)| == 8
  {
    if v >= 0 {
      ParseBase16OfFormatHex(v, 8);
      if v < Pow32 {
        assert Pow(16, 8) == Pow32;
        FormatHexLength(v, 8);
      }
    } else {
      var f := FormatHex(-v, 7);
      FormatHexRoundTrip(-v, 7);
      FormatHexIsLowerHex(-v, 7);
      var s := "-" + f;
      assert s[1..] == f;
      if |f| >= 2 && f[0] == '0' {
        assert f[1] != 'x' && f[1] != 'X';
      }
    }
  }

  const InputData1: seq<int> := [1, 2, 3, 4, 5, 6, 7, 8, 9, 10]
  const InputData2: seq<int> := [10, 9, 8, 7, 6, 5, 4, 3, 2, 1]
  const VerifyData: seq<int> := [10, 18, 24, 28, 30, 30, 28, 24, 18, 10]

  /** The lines utils/gen_hex.py writes: both inputs, then the expected products. */
  function GenHexLines(): (lines: seq<string>)
    ensures |lines| == 30
  {
    var all := InputData1 + InputData2 + VerifyData;
    seq(|all|, k requires 0 <= k < |all| => ToHex(all[k]) + "\n")
  }

  /** The third block holds the element-wise products of the first two, and each written line
      reads back as its datum. */
  lemma GenHexData()
    ensures |InputData1| == |InputData2| == |VerifyData| == 10
    ensures forall i :: 0 <= i < 10 ==> VerifyData[i] == InputData1[i] * InputData2[i]
    ensures forall k :: 0 <= k < 30 ==>
      ParseBase16(GenHexLines()[k][..|GenHexLines()[k]| - 1]) == Some((InputData1 + InputData2 + VerifyData)[k])
  {
    var all := InputData1 + InputData2 + VerifyData;
    forall k | 0 <= k < 30
      ensures ParseBase16(GenHexLines()[k][..|GenHexLines()[k]| - 1]) == Some(all[k])
    {
      var line := GenHexLines()[k];
      assert line == ToHex(all[k]) + "\n";
      assert line[..|line| - 1] == ToHex(all[k]);
      ToHexRoundTrip(all[k]);
    }
  }
}
