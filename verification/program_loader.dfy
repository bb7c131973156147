/** `init_memory`, the program loader of both RV32I builds, and the instruction memory
    initialiser of `build_cpu`. A file is the sequence of its lines (newlines included) and the
    file system a map from path to file; a path missing from the map raises
    `FileNotFoundError`. */
module ProgramLoader {
  import opened Wrappers
  import opened Text
  import opened PythonInt

  type FileSystem = map<string, seq<string>>

  /** The default of `program_file`. */
  const DefaultProgramFile := "test_program.txt"

  /** A stripped line the loop skips: empty, or a `#` comment. */
  predicate Skipped(line: string)
  {
    |line| == 0 || line[0] == '#'
  }

  /** The value of a stripped line: `int(line, 16)` after a `0x`/`0X` prefix, else
      `int(line, 0)`; `None` where `int` raises `ValueError`. */
  function LineValue(line: string): Option<int>
  {
    if StartsWith(line, "0x") || StartsWith(line, "0X") then ParseBase16(line) else ParseBase0(line)
  }

  /** A line the loop gets past: skipped, or parsed. */
  predicate Accepted(line: string)
  {
    Skipped(Strip(line)) || LineValue(Strip(line)).Some?
  }

  /** The `for line in f` loop. A line `int` rejects raises out of the loop; the handler
      prints and the function returns what was appended so far. */
  function LoadLines(lines: seq<string>): (program: seq<int>)
    ensures |program| <= |lines|
  {
    if |lines| == 0 then []
    else
      var line := Strip(lines[0]);
      if Skipped(line) then LoadLines(lines[1..])
      else match LineValue(line)
        case None => []
        case Some(v) => [v] + LoadLines(lines[1..])
  }

  /** `init_memory` reading `programFile`. */
  function InitMemory(fs: FileSystem, programFile: string): seq<int>
  {
    if programFile in fs then LoadLines(fs[programFile]) else []
  }

  /** `build_cpu` calls the module-level `init_memory(self, program_file=...)` as
      `init_memory(program_file)`: the path binds to `self`, and the file read is always the
      default. */
  function InitMemoryAsCalled(fs: FileSystem, programFile: string): seq<int>
  {
    InitMemory(fs, DefaultProgramFile)
  }

  /** The loader as evidently intended: the requested file is read. */
  function LoadProgram(fs: FileSystem, programFile: string): seq<int>
  {
    InitMemory(fs, programFile)
  }

  /** The number of lines that carry a value. */
  function CountValues(lines: seq<string>): nat
  {
    if |lines| == 0 then 0 else (if Skipped(Strip(lines[0])) then 0 else 1) + CountValues(lines[1..])
  }

  /** Loading a concatenation is loading each part, as long as every line of the first part is
      accepted. */
  lemma {:induction false} LoadAppend(a: seq<string>, b: seq<string>)
    requires forall i :: 0 <= i < |a| ==> Accepted(a[i])
    ensures LoadLines(a + b) == LoadLines(a) + LoadLines(b)
  {
    if |a| > 0 {
      assert (a + b)[0] == a[0] && Accepted(a[0]);
      assert (a + b)[1..] == a[1..] + b;
      assert forall i :: 0 <= i < |a[1..]| ==> a[1..][i] == a[i + 1];
      LoadAppend(a[1..], b);
    } else {
      assert a + b == b;
    }
  }

  /** The first rejected line ends the load: nothing after it is read. */
  lemma StopsAtFirstError(a: seq<string>, bad: string, b: seq<string>)
    requires forall i :: 0 <= i < |a| ==> Accepted(a[i])
    requires !Accepted(bad)
    ensures LoadLines(a + [bad] + b) == LoadLines(a)
  {
    LoadAppend(a, [bad] + b);
    assert a + [bad] + b == a + ([bad] + b);
  }

  /** When every line is accepted, there is one value per line that is neither blank nor a
      comment. */
  lemma {:induction false} OneValuePerLine(lines: seq<string>)
    requires forall i :: 0 <= i < |lines| ==> Accepted(lines[i])
    ensures |LoadLines(lines)| == CountValues(lines)
  {
    if |lines| > 0 {
      OneValuePerLine(lines[1..]);
    }
  }

  /** A missing file gives the empty program. */
  lemma MissingFileIsEmpty(fs: FileSystem, programFile: string)
    requires programFile !in fs
    ensures InitMemory(fs, programFile) == []
  {
  }

  /** The text of a program in the format the test programs use: one `0x`-prefixed,
      eight-digit hexadecimal word per line. */
  function ProgramText(words: seq<nat>): seq<string>
  {
    if |words| == 0 then [] else ["0x" + FormatHex(words[0], 8) + "\n"] + ProgramText(words[1..])
  }

  lemma ProgramLine(v: nat)
    ensures Strip("0x" + FormatHex(v, 8) + "\n") == "0x" + FormatHex(v, 8)
    ensures LineValue("0x" + FormatHex(v, 8)) == Some(v)
  {
    var t := "0x" + FormatHex(v, 8);
    FormatHexIsLowerHex(v, 8);
    FormatHexRoundTrip(v, 8);
    StripNewline(t);
    assert StartsWith(t, "0x");
    ParseBase16OfFormatHex(v, 8);
  }

  /** Loading the text of a program gives the program back. */
  lemma {:induction false} LoadProgramText(words: seq<nat>)
    ensures LoadLines(ProgramText(words)) == words
  {
    if |words| > 0 {
      ProgramLine(words[0]);
      assert ProgramText(words)[1..] == ProgramText(words[1..]);
      LoadProgramText(words[1..]);
    }
  }

  /** A comment or blank line anywhere before a program is ignored. */
  lemma SkipsCommentsAndBlanks(line: string, rest: seq<string>)
    requires Skipped(Strip(line))
    ensures LoadLines([line] + rest) == LoadLines(rest)
  {
    assert ([line] + rest)[1..] == rest;
  }

  /** The loader as called reads the default file whatever path is passed: a program at a
      path of its own is not loaded. */
  lemma InitMemoryIgnoresPath()
    ensures var fs := map["prog.txt" := ProgramText([0x13])];
      InitMemoryAsCalled(fs, "prog.txt") == [] && LoadProgram(fs, "prog.txt") == [0x13]
  {
    LoadProgramText([0x13]);
  }

  /** The corrected loader reads the file that was asked for, and gives back the program whose
      text it holds. */
  lemma LoadProgramReadsPath(fs: FileSystem, programFile: string, words: seq<nat>)
    requires programFile in fs && fs[programFile] == ProgramText(words)
    ensures LoadProgram(fs, programFile) == words
  {
    LoadProgramText(words);
  }

  // ---------------------------------------------------------------------------------------
  // Instruction memory

  /** `instruction_memory` depth in the RV32I build with a branch predictor. */
  const PredictorBuildDepth := 2048
  /** `instruction_memory` depth in the RV32I build without one. */
  const PlainBuildDepth := 1024

  /** `test_program + [0]*(depth - len(test_program))`; Python repeats a list a negative number
      of times as the empty list. */
  function MemoryImage(program: seq<int>, depth: nat): (image: seq<int>)
  {
    program + seq(if |program| < depth then depth - |program| else 0, _ => 0)
  }

  /** The image starts with the program and is zero after it; it has exactly `depth` entries
      if and only if the program fits, and the program unchanged otherwise. */
  lemma MemoryImageShape(program: seq<int>, depth: nat)
    ensures var image := MemoryImage(program, depth);
      && image[..|program|] == program
      && (forall i :: |program| <= i < |image| ==> image[i] == 0)
      && (|image| == depth <==> |program| <= depth)
      && (|program| > depth ==> image == program)
  {
  }
}
