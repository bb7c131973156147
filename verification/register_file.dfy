/** The SystemVerilog register files of `generate_register_file_sv_files` in the Verilog
    backend's `elaborate.py`: for every array that is not a memory payload, one module with a
    clock, a reset, a (w_port, widx_port, wdata_port) triple per write port, a ridx_port per read
    port when the array has index bits, an rdata_port per read port, a reset block and one guarded
    nonblocking write per write port. The generator is modelled as a pure function from array
    metadata to the lines of each file; writing the files is not modelled. */
module RegisterFile {
  import opened Wrappers
  import opened Text
  import opened Bitwise

  /** Decimal rendering of a possibly negative integer, as `f"{x}"` prints it. */
  function DecimalInt(x: int): string
  {
    if x < 0 then "-" + Decimal(-x) else Decimal(x)
  }

  // ---------------------------------------------------------------------------------------
  // Initializer literals

  function HexDigitCount(width: nat): (n: nat)
    ensures n >= 1 && 4 * n >= width
  {
    if (width + 3) / 4 > 1 then (width + 3) / 4 else 1
  }

  /** `_sv_literal_for_initializer`: the value masked to `width` bits (to 0 when the width is 0)
      as `<width>'h` followed by at least one zero-padded lower-case hexadecimal digit. */
  function SvLiteral(value: int, width: nat): string
  {
    var masked := if width > 0 then value % Pow2(width) else 0;
    Decimal(width) + "'h" + FormatHex(masked, HexDigitCount(width))
  }

  /** The first position of a character. */
  function IndexOf(s: string, c: char): (r: Option<nat>)
    ensures r.Some? ==> r.value < |s| && s[r.value] == c
    ensures r.Some? ==> forall i :: 0 <= i < r.value ==> s[i] != c
    ensures r.None? ==> forall i :: 0 <= i < |s| ==> s[i] != c
  {
    if |s| == 0 then None
    else if s[0] == c then Some(0)
    else
      var r := IndexOf(s[1..], c);
      if r.None? then None else Some(r.value + 1)
  }

  /** Reads a sized hexadecimal literal `<width>'h<digits>` back as (width, value). */
  function ParseSvLiteral(s: string): Option<(nat, nat)>
  {
    var q := IndexOf(s, '\'');
    if q.None? || q.value + 1 >= |s| || s[q.value + 1] != 'h' then None
    else
      var w := ParseDigits(s[..q.value], 10);
      var v := ParseDigits(s[q.value + 2..], 16);
      if w.None? || v.None? then None else Some((w.value, v.value))
  }

  lemma {:induction false} Pow16(n: nat)
    ensures Pow(16, n) == Pow2(4 * n)
  {
    if n > 0 {
      Pow16(n - 1);
      Pow2Add(4 * (n - 1), 4);
      assert Pow2(4) == 16;
    }
  }

  /** A character at position n with none before it is found at n. */
  lemma IndexOfAt(s: string, c: char, n: nat)
    requires n < |s| && s[n] == c
    requires forall i :: 0 <= i < n ==> s[i] != c
    ensures IndexOf(s, c) == Some(n)
  {
  }

  /** The literal reads back as its width and the value reduced mod 2^width; its digit string
      has exactly max(1, ceil(width / 4)) lower-case hexadecimal digits. */
  lemma SvLiteralRoundTrip(value: int, width: nat)
    ensures ParseSvLiteral(SvLiteral(value, width)) == Some((width, value % Pow2(width)))
    ensures var s := SvLiteral(value, width);
      && |s| == |Decimal(width)| + 2 + HexDigitCount(width)
      && s[|Decimal(width)|..|Decimal(width)| + 2] == "'h"
      && forall i :: |Decimal(width)| + 2 <= i < |s| ==> IsLowerHexDigit(s[i])
  {
    var n := HexDigitCount(width);
    var masked := if width > 0 then value % Pow2(width) else 0;
    MaskedFits(value, width);
    var d := Decimal(width);
    var f := FormatHex(masked, n);
    assert SvLiteral(value, width) == d + "'h" + f;
    FormatHexLength(masked, n);
    FormatHexIsLowerHex(masked, n);
    FormatHexRoundTrip(masked, n);
    DigitsRoundTrip(width, 10);
    DigitsAreLowerHex(width, 10);
    ParseLiteralParts(d, f, width, masked);
  }

  lemma MaskedFits(value: int, width: nat)
    ensures var masked := if width > 0 then value % Pow2(width) else 0;
      masked == value % Pow2(width) && masked < Pow(16, HexDigitCount(width))
  {
    var n := HexDigitCount(width);
    if width == 0 {
      assert Pow2(0) == 1;
    }
    Pow16(n);
    Pow2Monotone(width, 4 * n);
  }

  lemma ParseLiteralParts(d: string, f: string, w: nat, v: nat)
    requires forall i :: 0 <= i < |d| ==> IsLowerHexDigit(d[i])
    requires ParseDigits(d, 10) == Some(w) && ParseDigits(f, 16) == Some(v)
    ensures ParseSvLiteral(d + "'h" + f) == Some((w, v))
  {
    var s := d + "'h" + f;
    LiteralShape(d, f);
    IndexOfAt(s, '\'', |d|);
    ParseAt(s, |d|, w, v);
  }

  /** Where the width, the `'h` and the digits sit in a literal. */
  lemma LiteralShape(d: string, f: string)
    requires forall i :: 0 <= i < |d| ==> IsLowerHexDigit(d[i])
    ensures var s := d + "'h" + f;
      && |d| + 1 < |s| && s[|d|] == '\'' && s[|d| + 1] == 'h'
      && s[..|d|] == d && s[|d| + 2..] == f
      && forall i :: 0 <= i < |d| ==> s[i] != '\''
  {
    var s := d + "'h" + f;
    assert s[..|d|] == d;
    assert s[|d| + 2..] == f;
    forall i | 0 <= i < |d|
      ensures s[i] != '\''
    {
      assert s[i] == d[i] && IsLowerHexDigit(d[i]);
    }
  }

  lemma ParseAt(s: string, n: nat, w: nat, v: nat)
    requires IndexOf(s, '\'') == Some(n) && n + 1 < |s| && s[n + 1] == 'h'
    requires ParseDigits(s[..n], 10) == Some(w) && ParseDigits(s[n + 2..], 16) == Some(v)
    ensures ParseSvLiteral(s) == Some((w, v))
  {
  }

  // ---------------------------------------------------------------------------------------
  // Port list

  predicate EndsWithComma(s: string)
  {
    |s| > 0 && s[|s| - 1] == ','
  }

  /** `str.rstrip(",")`. */
  function RStripCommas(s: string): (r: string)
    ensures !EndsWithComma(r)
  {
    if EndsWithComma(s) then RStripCommas(s[..|s| - 1]) else s
  }

  /** One entry of the module's port list. */
  datatype PortDecl =
    | Clock
    | Reset
    | WriteEnable(k: nat)
    | WriteIndex(k: nat)
    | WriteData(k: nat)
    | ReadIndex(k: nat)
    | ReadData(k: nat)

  /** The declaration text of a port, without its separating comma. */
  function RenderPort(p: PortDecl, addrWidth: nat, dataWidth: nat): string
  {
    match p
    case Clock => "  input  logic        clk"
    case Reset => "  input  logic        rst"
    case WriteEnable(k) => "  input  logic        w_port" + Decimal(k)
    case WriteIndex(k) => "  input  logic [" + DecimalInt(addrWidth - 1) + ":0]  widx_port" + Decimal(k)
    case WriteData(k) => "  input  logic [" + DecimalInt(dataWidth - 1) + ":0] wdata_port" + Decimal(k)
    case ReadIndex(k) => "  input  logic [" + DecimalInt(addrWidth - 1) + ":0]  ridx_port" + Decimal(k)
    case ReadData(k) => "  output logic [" + DecimalInt(dataWidth - 1) + ":0] rdata_port" + Decimal(k)
  }

  /** The ports a module with these counts declares. */
  predicate Declared(p: PortDecl, numWrite: nat, numRead: nat, readIndex: bool)
  {
    match p
    case Clock => true
    case Reset => true
    case WriteEnable(k) => k < numWrite
    case WriteIndex(k) => k < numWrite
    case WriteData(k) => k < numWrite
    case ReadIndex(k) => readIndex && k < numRead
    case ReadData(k) => k < numRead
  }

  /** The port list in header order: clock, reset, the write triples port by port, the read
      indices when the array has index bits, the read data outputs. */
  function Declarations(numWrite: nat, numRead: nat, readIndex: bool): (d: seq<PortDecl>)
    ensures |d| == 2 + 3 * numWrite + (if readIndex then numRead else 0) + numRead
  {
    [Clock, Reset] + WriteTriples(numWrite)
      + (if readIndex then ReadIndexDecls(numRead) else []) + ReadDataDecls(numRead)
  }

  function WriteTriples(n: nat): (d: seq<PortDecl>)
    ensures |d| == 3 * n
  {
    if n == 0 then []
    else WriteTriples(n - 1) + [WriteEnable(n - 1), WriteIndex(n - 1), WriteData(n - 1)]
  }

  /** Write port k contributes its enable, index and data inputs at positions 3k .. 3k + 2. */
  lemma {:induction false} WriteTriplesAt(n: nat, k: nat)
    requires k < n
    ensures var d := WriteTriples(n);
      d[3 * k] == WriteEnable(k) && d[3 * k + 1] == WriteIndex(k) && d[3 * k + 2] == WriteData(k)
  {
    if k < n - 1 {
      WriteTriplesAt(n - 1, k);
    }
  }

  /** The write triples hold the three write ports of every port below n, and nothing else. */
  lemma {:induction false} WriteTriplesMembers(n: nat, p: PortDecl)
    ensures p in WriteTriples(n) <==> (p.WriteEnable? || p.WriteIndex? || p.WriteData?) && p.k < n
  {
    if n > 0 {
      WriteTriplesMembers(n - 1, p);
      var last := [WriteEnable(n - 1), WriteIndex(n - 1), WriteData(n - 1)];
      InAppend(p, WriteTriples(n - 1), last);
      assert p in last <==> p == WriteEnable(n - 1) || p == WriteIndex(n - 1) || p == WriteData(n - 1);
    }
  }

  function ReadIndexDecls(n: nat): (d: seq<PortDecl>)
    ensures |d| == n && forall k :: 0 <= k < n ==> d[k] == ReadIndex(k)
  {
    seq(n, k requires 0 <= k < n => ReadIndex(k))
  }

  function ReadDataDecls(n: nat): (d: seq<PortDecl>)
    ensures |d| == n && forall k :: 0 <= k < n ==> d[k] == ReadData(k)
  {
    seq(n, k requires 0 <= k < n => ReadData(k))
  }

  /** A port appears in the list exactly when the counts call for it: `ridx_port` inputs only
      for arrays with index bits. */
  lemma DeclaredPorts(numWrite: nat, numRead: nat, readIndex: bool, p: PortDecl)
    ensures p in Declarations(numWrite, numRead, readIndex) <==> Declared(p, numWrite, numRead, readIndex)
  {
    var w := WriteTriples(numWrite);
    var ri := if readIndex then ReadIndexDecls(numRead) else [];
    var rd := ReadDataDecls(numRead);
    WriteTriplesMembers(numWrite, p);
    assert p in Declarations(numWrite, numRead, readIndex) <==> p in [Clock, Reset] || p in w || p in ri || p in rd;
    if p.ReadIndex? && readIndex && p.k < numRead {
      assert ri[p.k] == p;
    }
    if p.ReadData? && p.k < numRead {
      assert rd[p.k] == p;
    }
  }

  /** Clock and reset open the list, then `w_port`, `widx_port` and `wdata_port` of each write
      port in turn, then the `ridx_port` inputs when present, and the `rdata_port` outputs
      last. */
  lemma DeclarationOrder(numWrite: nat, numRead: nat, readIndex: bool)
    ensures var d := Declarations(numWrite, numRead, readIndex);
      && d[0] == Clock && d[1] == Reset
      && (forall k :: 0 <= k < numWrite ==>
        d[2 + 3 * k] == WriteEnable(k) && d[3 + 3 * k] == WriteIndex(k) && d[4 + 3 * k] == WriteData(k))
      && (readIndex ==> forall k :: 0 <= k < numRead ==> d[2 + 3 * numWrite + k] == ReadIndex(k))
      && (forall k :: 0 <= k < numRead ==> d[|d| - numRead + k] == ReadData(k))
  {
    var d := Declarations(numWrite, numRead, readIndex);
    var cr := [Clock, Reset];
    var w := WriteTriples(numWrite);
    var ri := if readIndex then ReadIndexDecls(numRead) else [];
    var rd := ReadDataDecls(numRead);
    assert d == cr + w + ri + rd;
    forall k | 0 <= k < numWrite
      ensures d[2 + 3 * k] == WriteEnable(k) && d[3 + 3 * k] == WriteIndex(k) && d[4 + 3 * k] == WriteData(k)
    {
      WriteTriplesAt(numWrite, k);
      InSecond(cr, w, ri, rd, 3 * k);
      InSecond(cr, w, ri, rd, 3 * k + 1);
      InSecond(cr, w, ri, rd, 3 * k + 2);
    }
    forall k | readIndex && 0 <= k < numRead
      ensures d[2 + 3 * numWrite + k] == ReadIndex(k)
    {
      InThird(cr, w, ri, rd, k);
    }
    forall k | 0 <= k < numRead
      ensures d[|d| - numRead + k] == ReadData(k)
    {
      ConcatBack(cr + w + ri, rd, k);
    }
    ConcatFront(cr + w + ri, rd, 0);
    ConcatFront(cr + w, ri, 0);
    ConcatFront(cr, w, 0);
    ConcatFront(cr + w + ri, rd, 1);
    ConcatFront(cr + w, ri, 1);
    ConcatFront(cr, w, 1);
  }

  /** The header lines as the generator builds them: every declaration gets a comma except the
      last read-data output; with no read ports the trailing comma of the last line is
      stripped. */
  function PortLines(numWrite: nat, numRead: nat, addrWidth: nat, dataWidth: nat, readIndex: bool): seq<Line>
  {
    var d := Declarations(numWrite, numRead, readIndex);
    var lines := CommaLines(d, numRead, addrWidth, dataWidth);
    if numRead == 0 then lines[..|d| - 1] + [StripComma(lines[|d| - 1])] else lines
  }

  /** Each declaration with its comma, which only the last read-data output lacks. */
  function CommaLines(d: seq<PortDecl>, numRead: nat, addrWidth: nat, dataWidth: nat): (lines: seq<Line>)
    ensures |lines| == |d|
  {
    if |d| == 0 then []
    else
      [PortLine(d[0], addrWidth, dataWidth, !(d[0].ReadData? && d[0].k + 1 == numRead))]
        + CommaLines(d[1..], numRead, addrWidth, dataWidth)
  }

  /** Line j renders declaration j, with a comma unless it is the last read-data output. */
  lemma {:induction false} CommaLinesAt(d: seq<PortDecl>, numRead: nat, addrWidth: nat, dataWidth: nat, j: nat)
    requires j < |d|
    ensures CommaLines(d, numRead, addrWidth, dataWidth)[j]
      == PortLine(d[j], addrWidth, dataWidth, !(d[j].ReadData? && d[j].k + 1 == numRead))
    decreases j
  {
    if j > 0 {
      CommaLinesAt(d[1..], numRead, addrWidth, dataWidth, j - 1);
    }
  }

  /** `rstrip(",")` applied to a header line. */
  function StripComma(l: Line): Line
  {
    if l.PortLine? then l.(comma := false) else l
  }

  /** Stripping the trailing commas of a rendered header line gives the line without its
      comma: no declaration itself ends in a comma. */
  lemma StripCommaRendered(p: PortDecl, addrWidth: nat, dataWidth: nat)
    ensures var l := PortLine(p, addrWidth, dataWidth, true);
      EndsWithComma(Render(l)) && RStripCommas(Render(l)) == Render(StripComma(l))
  {
    var s := RenderPort(p, addrWidth, dataWidth);
    RenderedEnd(p, addrWidth, dataWidth);
    assert (s + ",")[..|s|] == s;
  }

  /** The header is the declarations separated by commas: one line per port, in list order,
      and a comma on every line but the last. */
  lemma PortLinesAreSeparated(numWrite: nat, numRead: nat, addrWidth: nat, dataWidth: nat, readIndex: bool)
    ensures var d := Declarations(numWrite, numRead, readIndex);
      var r := PortLines(numWrite, numRead, addrWidth, dataWidth, readIndex);
      && |r| == |d|
      && forall j :: 0 <= j < |r| ==> r[j] == PortLine(d[j], addrWidth, dataWidth, j < |r| - 1)
  {
    var d := Declarations(numWrite, numRead, readIndex);
    var n := |d|;
    var lines := CommaLines(d, numRead, addrWidth, dataWidth);
    var r := PortLines(numWrite, numRead, addrWidth, dataWidth, readIndex);
    if numRead > 0 {
      assert r == lines;
      forall j | 0 <= j < n
        ensures r[j] == PortLine(d[j], addrWidth, dataWidth, j < n - 1)
      {
        CommaLinesAt(d, numRead, addrWidth, dataWidth, j);
        if j < n - 1 {
          ReadDataOnce(numWrite, numRead, readIndex, j);
        } else {
          LastIsReadData(numWrite, numRead, readIndex);
        }
      }
    } else {
      assert r == lines[..n - 1] + [StripComma(lines[n - 1])];
      ReplaceLast(lines, StripComma(lines[n - 1]));
      forall j | 0 <= j < n
        ensures r[j] == PortLine(d[j], addrWidth, dataWidth, j < n - 1)
      {
        CommaLinesAt(d, numRead, addrWidth, dataWidth, j);
      }
    }
  }

  /** The last read-data output occurs only at the end of the list. */
  lemma ReadDataOnce(numWrite: nat, numRead: nat, readIndex: bool, j: nat)
    requires numRead > 0
    requires j < |Declarations(numWrite, numRead, readIndex)| - 1
    ensures var d := Declarations(numWrite, numRead, readIndex);
      !(d[j].ReadData? && d[j].k + 1 == numRead)
  {
    var front := [Clock, Reset] + WriteTriples(numWrite) + (if readIndex then ReadIndexDecls(numRead) else []);
    var rd := ReadDataDecls(numRead);
    if j < |front| {
      ConcatFront(front, rd, j);
      var x := front[j];
      assert x in front;
      WriteTriplesMembers(numWrite, x);
      if readIndex && x in ReadIndexDecls(numRead) {
        var i :| 0 <= i < numRead && ReadIndexDecls(numRead)[i] == x;
      }
    } else {
      ConcatBack(front, rd, j - |front|);
    }
  }

  lemma LastIsReadData(numWrite: nat, numRead: nat, readIndex: bool)
    requires numRead > 0
    ensures var d := Declarations(numWrite, numRead, readIndex); d[|d| - 1] == ReadData(numRead - 1)
  {
    var front := [Clock, Reset] + WriteTriples(numWrite) + (if readIndex then ReadIndexDecls(numRead) else []);
    ConcatBack(front, ReadDataDecls(numRead), numRead - 1);
  }

  /** No declaration ends in a comma: each ends in a port number or in `clk`/`rst`. */
  lemma RenderedEnd(p: PortDecl, addrWidth: nat, dataWidth: nat)
    ensures !EndsWithComma(RenderPort(p, addrWidth, dataWidth))
  {
    if !p.Clock? && !p.Reset? {
      DigitsAreLowerHex(p.k, 10);
    }
  }

  // ---------------------------------------------------------------------------------------
  // Lines of a generated file

  /** The lines the generator emits; `Render` gives each its text. */
  datatype Line =
    | Banner
    | ModuleOpen(name: string)
    | PortLine(port: PortDecl, addrWidth: nat, dataWidth: nat, comma: bool)
    | HeaderClose
    | Blank
    | MemoryDecl(dataWidth: nat, depth: nat)
    | IndexVar
    | AlwaysOpen
    | ResetOpen
    | ZeroLoopOpen(depth: nat)
    | ZeroLoopBody
    | InitEntry(k: nat, value: int, width: nat)
    | BlockEnd
    | ElseOpen
    | GuardOpen(k: nat)
    | GuardWrite(k: nat)
    | ElseClose
    | AlwaysClose
    | ReadAssign(k: nat, readIndex: bool)
    | EndModule

  function Render(l: Line): string
  {
    match l
    case Banner => "// Auto-generated by assassyn.codegen.verilog (external regfile)"
    case ModuleOpen(name) => "module " + name + "("
    case PortLine(p, aw, dw, comma) => RenderPort(p, aw, dw) + (if comma then "," else "")
    case HeaderClose => ");"
    case Blank => ""
    case MemoryDecl(dw, depth) => "  logic [" + DecimalInt(dw - 1) + ":0] mem [0:" + DecimalInt(depth - 1) + "];"
    case IndexVar => "  integer i;"
    case AlwaysOpen => "  always_ff @(posedge clk) begin"
    case ResetOpen => "    if (rst) begin"
    case ZeroLoopOpen(depth) => "      for (i = 0; i < " + Decimal(depth) + "; i = i + 1) begin"
    case ZeroLoopBody => "        mem[i] <= '0;"
    case InitEntry(k, v, w) => "      mem[" + Decimal(k) + "] <= " + SvLiteral(v, w) + ";"
    case BlockEnd => "      end"
    case ElseOpen => "    end else begin"
    case GuardOpen(k) => "      if (w_port" + Decimal(k) + ") begin"
    case GuardWrite(k) => "        mem[widx_port" + Decimal(k) + "] <= wdata_port" + Decimal(k) + ";"
    case ElseClose => "    end"
    case AlwaysClose => "  end"
    case ReadAssign(k, ri) =>
      "  assign rdata_port" + Decimal(k) + " = " + (if ri then "mem[ridx_port" + Decimal(k) + "]" else "mem[0]") + ";"
    case EndModule => "endmodule"
  }

  /** The text of a file: its rendered lines joined by newlines. */
  function FileText(lines: seq<Line>): string
  {
    if |lines| == 0 then ""
    else if |lines| == 1 then Render(lines[0])
    else Render(lines[0]) + "\n" + FileText(lines[1..])
  }

  // ---------------------------------------------------------------------------------------
  // Write guards and their commit semantics

  /** `range(num_write_ports - 1, -1, -1)`: the order the guard blocks are emitted in. */
  function Descending(n: nat): (order: seq<nat>)
    ensures |order| == n
    ensures forall j :: 0 <= j < n ==> order[j] == n - 1 - j
  {
    seq(n, j requires 0 <= j < n => n - 1 - j)
  }

  /** Emission in port order, the corrected generator's choice. */
  function Ascending(n: nat): (order: seq<nat>)
    ensures |order| == n
    ensures forall j :: 0 <= j < n ==> order[j] == j
  {
    seq(n, j requires 0 <= j < n => j)
  }

  /** Both orders list every port exactly once; the emitted one strictly decreases. */
  lemma OrdersArePermutations(n: nat)
    ensures forall k :: 0 <= k < n ==> k in Descending(n) && k in Ascending(n)
    ensures forall j :: 0 <= j < n ==> Descending(n)[j] < n && Ascending(n)[j] < n
    ensures forall i, j :: 0 <= i < j < n ==> Descending(n)[i] > Descending(n)[j]
    ensures forall i, j :: 0 <= i < j < n ==> Ascending(n)[i] < Ascending(n)[j]
  {
    forall k | 0 <= k < n
      ensures k in Descending(n)
    {
      assert Descending(n)[n - 1 - k] == k;
    }
    forall k | 0 <= k < n
      ensures k in Ascending(n)
    {
      assert Ascending(n)[k] == k;
    }
  }

  /** One `if (w_portK) begin mem[widx_portK] <= wdata_portK; end` block per port, in order. */
  function GuardLines(order: seq<nat>): (lines: seq<Line>)
    ensures |lines| == 3 * |order|
  {
    if |order| == 0 then []
    else GuardLines(order[..|order| - 1]) + [GuardOpen(order[|order| - 1]), GuardWrite(order[|order| - 1]), BlockEnd]
  }

  /** The j-th port of the order gets the j-th three-line block. */
  lemma {:induction false} GuardLinesAt(order: seq<nat>, j: nat)
    requires j < |order|
    ensures var lines := GuardLines(order);
      lines[3 * j] == GuardOpen(order[j]) && lines[3 * j + 1] == GuardWrite(order[j]) && lines[3 * j + 2] == BlockEnd
    decreases |order|
  {
    var n := |order| - 1;
    if j < n {
      GuardLinesAt(order[..n], j);
      assert order[..n][j] == order[j];
    }
  }

  /** The values on one write port in a clock cycle. */
  datatype WritePort = WritePort(enable: bool, index: nat, data: nat)

  predicate Writes(p: WritePort, x: nat)
  {
    p.enable && p.index == x
  }

  /** The memory after the clock edge: the guards run in emission order and each enabled one
      schedules `mem[widx] <= wdata`; the scheduled updates take effect in the order they were
      scheduled (section 4.6 of IEEE 1800-2017), so a later one to the same address overrides
      an earlier one. An index outside the memory changes nothing. */
  function Commit(mem: seq<nat>, ports: seq<WritePort>, order: seq<nat>): (r: seq<nat>)
    requires forall j :: 0 <= j < |order| ==> order[j] < |ports|
    ensures |r| == |mem|
  {
    if |order| == 0 then mem
    else
      var m := Commit(mem, ports, order[..|order| - 1]);
      var p := ports[order[|order| - 1]];
      if p.enable && p.index < |m| then m[p.index := p.data] else m
  }

  /** The address receives the data of the last guard in emission order that writes it. */
  lemma {:induction false} LastWriterWins(mem: seq<nat>, ports: seq<WritePort>, order: seq<nat>, x: nat, j: nat)
    requires forall i :: 0 <= i < |order| ==> order[i] < |ports|
    requires x < |mem| && j < |order| && Writes(ports[order[j]], x)
    requires forall i :: j < i < |order| ==> !Writes(ports[order[i]], x)
    ensures Commit(mem, ports, order)[x] == ports[order[j]].data
    decreases |order|
  {
    var n := |order| - 1;
    if j < n {
      var pre := order[..n];
      assert forall i :: 0 <= i < n ==> pre[i] == order[i];
      LastWriterWins(mem, ports, pre, x, j);
      assert !Writes(ports[order[n]], x);
    }
  }

  /** An address no enabled guard writes keeps its value. */
  lemma {:induction false} UnwrittenKept(mem: seq<nat>, ports: seq<WritePort>, order: seq<nat>, x: nat)
    requires forall i :: 0 <= i < |order| ==> order[i] < |ports|
    requires x < |mem|
    requires forall i :: 0 <= i < |order| ==> !Writes(ports[order[i]], x)
    ensures Commit(mem, ports, order)[x] == mem[x]
    decreases |order|
  {
    if |order| > 0 {
      var n := |order| - 1;
      var pre := order[..n];
      assert forall i :: 0 <= i < n ==> pre[i] == order[i];
      UnwrittenKept(mem, ports, pre, x);
      assert !Writes(ports[order[n]], x);
    }
  }

  /** As emitted (highest port first), the lowest-numbered enabled port writing an address is
      the one whose data the address holds after the edge. */
  lemma LowestPortWins(mem: seq<nat>, ports: seq<WritePort>, x: nat, k: nat)
    requires x < |mem| && k < |ports|
    requires Writes(ports[k], x)
    requires forall j :: 0 <= j < k ==> !Writes(ports[j], x)
    ensures Commit(mem, ports, Descending(|ports|))[x] == ports[k].data
  {
    var n := |ports|;
    var order := Descending(n);
    assert order[n - 1 - k] == k;
    assert forall i :: n - 1 - k < i < n ==> order[i] < k;
    LastWriterWins(mem, ports, order, x, n - 1 - k);
  }

  /** Emitting the guards in port order makes the highest-numbered enabled port win, the
      priority the generator's own test describes. */
  lemma HighestPortWins(mem: seq<nat>, ports: seq<WritePort>, x: nat, k: nat)
    requires x < |mem| && k < |ports|
    requires Writes(ports[k], x)
    requires forall j :: k < j < |ports| ==> !Writes(ports[j], x)
    ensures Commit(mem, ports, Ascending(|ports|))[x] == ports[k].data
  {
    var order := Ascending(|ports|);
    assert order[k] == k;
    assert forall i :: k < i < |ports| ==> order[i] == i;
    LastWriterWins(mem, ports, order, x, k);
  }

  /** Ports 0 and 1 both write address 0 of a one-entry memory, with data 10 and 20: the file as
      emitted commits port 0's value, not the highest port's. */
  lemma WritePriorityCounterexample(ports: seq<WritePort>)
    requires ports == [WritePort(true, 0, 10), WritePort(true, 0, 20)]
    ensures Commit([0], ports, Descending(2)) == [10]
    ensures Commit([0], ports, Ascending(2)) == [20]
  {
    LowestPortWins([0], ports, 0, 0);
    HighestPortWins([0], ports, 0, 1);
  }

  // ---------------------------------------------------------------------------------------
  // Whole files

  datatype PortCounts = PortCounts(writers: nat, readers: nat)

  /** What the generator reads from one array: its (namified) name, whether it is the payload
      of a memory, the write ports the array itself records, the port counts of the metadata
      registry when it has an entry, its depth, element width, index bits and initializer. */
  datatype ArrayInfo = ArrayInfo(
    name: string,
    memoryPayload: bool,
    arrayWritePorts: nat,
    metadata: Option<PortCounts>,
    depth: nat,
    dataWidth: nat,
    indexBits: nat,
    initializer: Option<seq<int>>)

  /** Without a metadata entry the array's own write ports are used and there are no reads. */
  function Ports(a: ArrayInfo): PortCounts
  {
    if a.metadata.None? then PortCounts(a.arrayWritePorts, 0) else a.metadata.value
  }

  /** Whether reads select an entry: only arrays with index bits get `ridx_port` inputs. */
  predicate HasIndex(a: ArrayInfo)
  {
    a.indexBits > 0
  }

  function AddrWidth(a: ArrayInfo): (w: nat)
    ensures w >= 1
    ensures a.indexBits > 0 ==> w == a.indexBits
    ensures a.indexBits == 0 ==> w == 1
  {
    if a.indexBits > 0 then a.indexBits else 1
  }

  /** The reset branch: a loop zeroing every entry, or one sized literal per initializer
      entry. */
  function ResetLines(a: ArrayInfo): (lines: seq<Line>)
    requires a.initializer.Some? ==> |a.initializer.value| == a.depth
  {
    if a.initializer.None? then [ZeroLoopOpen(a.depth), ZeroLoopBody, BlockEnd]
    else
      var init := a.initializer.value;
      seq(a.depth, k requires 0 <= k < a.depth => InitEntry(k, init[k], a.dataWidth))
  }

  function ReadLines(numRead: nat, readIndex: bool): (lines: seq<Line>)
    ensures |lines| == numRead
  {
    seq(numRead, k requires 0 <= k < numRead => ReadAssign(k, readIndex))
  }

  /** Everything before the write guards. */
  function Front(a: ArrayInfo): seq<Line>
    requires a.initializer.Some? ==> |a.initializer.value| == a.depth
  {
    [Banner, ModuleOpen(a.name)]
      + PortLines(Ports(a).writers, Ports(a).readers, AddrWidth(a), a.dataWidth, a.indexBits > 0)
      + [HeaderClose, Blank, MemoryDecl(a.dataWidth, a.depth), IndexVar, Blank, AlwaysOpen, ResetOpen]
      + ResetLines(a) + [ElseOpen]
  }

  /** Everything after the write guards. */
  function Back(a: ArrayInfo): seq<Line>
  {
    [ElseClose, AlwaysClose, Blank] + ReadLines(Ports(a).readers, a.indexBits > 0) + [EndModule, Blank]
  }

  /** The `ValueError` raised for an initializer whose length is not the depth. */
  datatype LengthMismatch = LengthMismatch(length: nat, depth: nat, name: string)

  function Message(e: LengthMismatch): string
  {
    "Initializer length " + Decimal(e.length) + " does not match depth " + Decimal(e.depth) + " for " + e.name
  }

  /** The lines of one file, or the error that aborts the generator. */
  datatype Outcome = Emitted(lines: seq<Line>) | Rejected(error: LengthMismatch)

  /** One array's file, or the `ValueError` of an initializer whose length is not the depth. */
  function Generate(a: ArrayInfo): (r: Outcome)
    ensures r.Rejected? <==> a.initializer.Some? && |a.initializer.value| != a.depth
    ensures r.Rejected? ==> r.error == LengthMismatch(|a.initializer.value|, a.depth, a.name)
  {
    if a.initializer.Some? && |a.initializer.value| != a.depth then
      Rejected(LengthMismatch(|a.initializer.value|, a.depth, a.name))
    else Emitted(Front(a) + GuardLines(Descending(Ports(a).writers)) + Back(a))
  }

  /** The same file with the guards in port order. */
  function GenerateCorrected(a: ArrayInfo): (r: Outcome)
    ensures r.Rejected? <==> a.initializer.Some? && |a.initializer.value| != a.depth
  {
    if a.initializer.Some? && |a.initializer.value| != a.depth then Generate(a)
    else Emitted(Front(a) + GuardLines(Ascending(Ports(a).writers)) + Back(a))
  }

  /** The number of header lines: one per declared port. */
  function HeaderSize(a: ArrayInfo): nat
  {
    var pc := Ports(a);
    2 + 3 * pc.writers + (if a.indexBits > 0 then pc.readers else 0) + pc.readers
  }

  /** A generated file opens with the banner, the module line and one comma-separated line
      per declared port, the last without its comma. */
  lemma GenerateHeader(a: ArrayInfo, j: nat)
    requires Generate(a).Emitted? && j < HeaderSize(a)
    ensures var lines := Generate(a).lines;
      var d := Declarations(Ports(a).writers, Ports(a).readers, a.indexBits > 0);
      && |d| == HeaderSize(a) && 2 + j < |lines|
      && lines[0] == Banner && lines[1] == ModuleOpen(a.name)
      && lines[2 + j] == PortLine(d[j], AddrWidth(a), a.dataWidth, j < HeaderSize(a) - 1)
  {
    var pc := Ports(a);
    var bm := [Banner, ModuleOpen(a.name)];
    var p := PortLines(pc.writers, pc.readers, AddrWidth(a), a.dataWidth, a.indexBits > 0);
    PortLinesAreSeparated(pc.writers, pc.readers, AddrWidth(a), a.dataWidth, a.indexBits > 0);
    var mid := [HeaderClose, Blank, MemoryDecl(a.dataWidth, a.depth), IndexVar, Blank, AlwaysOpen, ResetOpen];
    var guards := GuardLines(Descending(pc.writers));
    assert Generate(a).lines == bm + p + mid + ResetLines(a) + [ElseOpen] + guards + Back(a);
    PrefixAt(bm + p, mid, ResetLines(a), [ElseOpen], guards, Back(a), 0);
    PrefixAt(bm + p, mid, ResetLines(a), [ElseOpen], guards, Back(a), 1);
    PrefixAt(bm + p, mid, ResetLines(a), [ElseOpen], guards, Back(a), 2 + j);
    ConcatBack(bm, p, j);
  }

  /** After the header come the memory declaration and the reset branch, which ends where the
      else branch opens. */
  lemma GenerateMemory(a: ArrayInfo)
    requires Generate(a).Emitted?
    ensures var lines := Generate(a).lines;
      var o := 2 + HeaderSize(a);
      && |lines| > o + 7 + |ResetLines(a)|
      && lines[o + 2] == MemoryDecl(a.dataWidth, a.depth)
      && lines[o + 6] == ResetOpen
      && lines[o + 7 + |ResetLines(a)|] == ElseOpen
  {
    ResetAtGenerate(a);
    var pc := Ports(a);
    ResetAt([Banner, ModuleOpen(a.name)] + PortLines(pc.writers, pc.readers, AddrWidth(a), a.dataWidth, a.indexBits > 0),
      a, GuardLines(Descending(pc.writers)) + Back(a));
  }

  /** The reset branch: a loop zeroing every entry, or the sized literal of each initializer
      entry in index order. */
  lemma GenerateReset(a: ArrayInfo)
    requires Generate(a).Emitted?
    ensures var lines := Generate(a).lines;
      var o := 2 + HeaderSize(a);
      && |lines| > o + 7 + |ResetLines(a)|
      && (a.initializer.None? ==>
        lines[o + 7] == ZeroLoopOpen(a.depth) && lines[o + 8] == ZeroLoopBody && lines[o + 9] == BlockEnd)
      && (a.initializer.Some? ==> forall k :: 0 <= k < a.depth ==>
        lines[o + 7 + k] == InitEntry(k, a.initializer.value[k], a.dataWidth))
  {
    ResetAtGenerate(a);
    var pc := Ports(a);
    ResetAt([Banner, ModuleOpen(a.name)] + PortLines(pc.writers, pc.readers, AddrWidth(a), a.dataWidth, a.indexBits > 0),
      a, GuardLines(Descending(pc.writers)) + Back(a));
  }

  /** `Generate`'s lines in the shape `ResetAt` speaks about. */
  lemma ResetAtGenerate(a: ArrayInfo)
    requires Generate(a).Emitted?
    ensures var pc := Ports(a);
      var head := [Banner, ModuleOpen(a.name)] + PortLines(pc.writers, pc.readers, AddrWidth(a), a.dataWidth, a.indexBits > 0);
      var rest := GuardLines(Descending(pc.writers)) + Back(a);
      && |head| == 2 + HeaderSize(a)
      && Generate(a).lines == head + [HeaderClose, Blank, MemoryDecl(a.dataWidth, a.depth), IndexVar, Blank, AlwaysOpen, ResetOpen]
        + ResetLines(a) + [ElseOpen] + rest
  {
    var pc := Ports(a);
    var head := [Banner, ModuleOpen(a.name)] + PortLines(pc.writers, pc.readers, AddrWidth(a), a.dataWidth, a.indexBits > 0);
    assert |head| == 2 + HeaderSize(a) by {
      PortLinesAreSeparated(pc.writers, pc.readers, AddrWidth(a), a.dataWidth, a.indexBits > 0);
    }
    var guards := GuardLines(Descending(pc.writers));
    AppendAssoc(Front(a), guards, Back(a));
  }

  lemma ResetAt(head: seq<Line>, a: ArrayInfo, rest: seq<Line>)
    requires a.initializer.Some? ==> |a.initializer.value| == a.depth
    ensures var o := |head|;
      var r := ResetLines(a);
      var lines := head + [HeaderClose, Blank, MemoryDecl(a.dataWidth, a.depth), IndexVar, Blank, AlwaysOpen, ResetOpen]
        + r + [ElseOpen] + rest;
      && |lines| > o + 7 + |r|
      && lines[o + 2] == MemoryDecl(a.dataWidth, a.depth)
      && lines[o + 6] == ResetOpen
      && (a.initializer.None? ==>
        lines[o + 7] == ZeroLoopOpen(a.depth) && lines[o + 8] == ZeroLoopBody && lines[o + 9] == BlockEnd)
      && (a.initializer.Some? ==> forall k :: 0 <= k < a.depth ==>
        lines[o + 7 + k] == InitEntry(k, a.initializer.value[k], a.dataWidth))
      && lines[o + 7 + |r|] == ElseOpen
  {
    var mid := [HeaderClose, Blank, MemoryDecl(a.dataWidth, a.depth), IndexVar, Blank, AlwaysOpen, ResetOpen];
    Layout(head, mid, ResetLines(a), [ElseOpen], rest);
  }

  /** The write guards follow the reset branch, one three-line block per write port, the
      highest-numbered port first. */
  lemma GenerateGuards(a: ArrayInfo, j: nat)
    requires Generate(a).Emitted? && j < Ports(a).writers
    ensures var lines := Generate(a).lines;
      var g := |Front(a)|;
      var k := Ports(a).writers - 1 - j;
      && g + 3 * j + 2 < |lines|
      && lines[g + 3 * j] == GuardOpen(k)
      && lines[g + 3 * j + 1] == GuardWrite(k)
      && lines[g + 3 * j + 2] == BlockEnd
  {
    var n := Ports(a).writers;
    var lines := Generate(a).lines;
    assert lines == Front(a) + GuardLines(Descending(n)) + Back(a);
    GuardsAt(Front(a), n, Back(a), j);
  }

  lemma GuardsAt(front: seq<Line>, n: nat, back: seq<Line>, j: nat)
    requires j < n
    ensures var lines := front + GuardLines(Descending(n)) + back;
      var g := |front|;
      && g + 3 * j + 2 < |lines|
      && lines[g + 3 * j] == GuardOpen(n - 1 - j)
      && lines[g + 3 * j + 1] == GuardWrite(n - 1 - j)
      && lines[g + 3 * j + 2] == BlockEnd
  {
    var guards := GuardLines(Descending(n));
    GuardLinesAt(Descending(n), j);
    ConcatFront(front + guards, back, |front| + 3 * j);
    ConcatFront(front + guards, back, |front| + 3 * j + 1);
    ConcatFront(front + guards, back, |front| + 3 * j + 2);
    ConcatBack(front, guards, 3 * j);
    ConcatBack(front, guards, 3 * j + 1);
    ConcatBack(front, guards, 3 * j + 2);
  }

  /** The file closes with one read assignment per read port, reading the entry its
      `ridx_port` selects exactly when the array has index bits, then `endmodule`. */
  lemma GenerateReads(a: ArrayInfo)
    requires Generate(a).Emitted?
    ensures var lines := Generate(a).lines;
      var n := Ports(a).readers;
      var rd := |Front(a)| + 3 * Ports(a).writers + 3;
      && |lines| == rd + n + 2
      && (forall k :: 0 <= k < n ==> lines[rd + k] == ReadAssign(k, HasIndex(a)))
      && lines[rd + n] == EndModule
  {
    var front := Front(a) + GuardLines(Descending(Ports(a).writers));
    assert Generate(a).lines == front + Back(a);
    ReadsAt(front, Ports(a).readers, HasIndex(a));
  }

  lemma ReadsAt(front: seq<Line>, n: nat, ri: bool)
    ensures var lines := front + ([ElseClose, AlwaysClose, Blank] + ReadLines(n, ri) + [EndModule, Blank]);
      && |lines| == |front| + 3 + n + 2
      && (forall k :: 0 <= k < n ==> lines[|front| + 3 + k] == ReadAssign(k, ri))
      && lines[|front| + 3 + n] == EndModule
  {
    var b := [ElseClose, AlwaysClose, Blank];
    var rl := ReadLines(n, ri);
    var e := [EndModule, Blank];
    var tail := b + rl + e;
    forall k | 0 <= k < n
      ensures (front + tail)[|front| + 3 + k] == ReadAssign(k, ri)
    {
      ConcatBack(front, tail, 3 + k);
      ConcatFront(b + rl, e, 3 + k);
      ConcatBack(b, rl, k);
    }
    ConcatBack(front, tail, 3 + n);
    ConcatBack(b + rl, e, 0);
  }

  /** Where each part of a five-part concatenation sits. */
  lemma Layout<T>(a: seq<T>, b: seq<T>, c: seq<T>, d: seq<T>, e: seq<T>)
    ensures var s := a + b + c + d + e;
      && |s| == |a| + |b| + |c| + |d| + |e|
      && (forall i :: 0 <= i < |b| ==> s[|a| + i] == b[i])
      && (forall i :: 0 <= i < |c| ==> s[|a| + |b| + i] == c[i])
      && (forall i :: 0 <= i < |d| ==> s[|a| + |b| + |c| + i] == d[i])
  {
  }

  /** The arrays a file is generated for: every array that is not a memory payload, in order. */
  function Kept(arrays: seq<ArrayInfo>): (r: seq<ArrayInfo>)
    ensures |r| <= |arrays|
    ensures forall k :: 0 <= k < |r| ==> !r[k].memoryPayload
  {
    if |arrays| == 0 then []
    else
      var rest := Kept(arrays[1..]);
      if arrays[0].memoryPayload then rest else [arrays[0]] + rest
  }

  /** The kept arrays are exactly the arrays that are not memory payloads. */
  lemma {:induction false} KeptMembers(arrays: seq<ArrayInfo>, a: ArrayInfo)
    ensures a in Kept(arrays) <==> a in arrays && !a.memoryPayload
    decreases |arrays|
  {
    if |arrays| > 0 {
      KeptMembers(arrays[1..], a);
      assert arrays == [arrays[0]] + arrays[1..];
    }
  }

  /** A generated file: the module name (the file is `<name>.sv`) and its lines. */
  datatype SvFile = SvFile(moduleName: string, lines: seq<Line>)

  /** All files, or the error of the first array whose file cannot be generated together with
      the files already written for the arrays before it. */
  datatype Batch = Written(files: seq<SvFile>) | Aborted(files: seq<SvFile>, error: LengthMismatch)

  /** `generate_register_file_sv_files`: one file per kept array, in array order, up to the
      first `ValueError`. */
  method GenerateFiles(arrays: seq<ArrayInfo>) returns (r: Batch)
    ensures r.Aborted? <==> exists a :: a in Kept(arrays) && Generate(a).Rejected?
    ensures |r.files| <= |Kept(arrays)|
    ensures forall k :: 0 <= k < |r.files| ==>
      Generate(Kept(arrays)[k]).Emitted? && r.files[k] == SvFile(Kept(arrays)[k].name, Generate(Kept(arrays)[k]).lines)
    ensures r.Written? ==> |r.files| == |Kept(arrays)|
    ensures r.Aborted? ==> |r.files| < |Kept(arrays)| && Generate(Kept(arrays)[|r.files|]) == Rejected(r.error)
  {
    var kept := Kept(arrays);
    var outcomes := seq(|kept|, k requires 0 <= k < |kept| => Generate(kept[k]));
    var names := seq(|kept|, k requires 0 <= k < |kept| => kept[k].name);
    r := Collect(names, outcomes);
    forall k | 0 <= k < |r.files|
      ensures Generate(kept[k]).Emitted? && r.files[k] == SvFile(kept[k].name, Generate(kept[k]).lines)
    {
      assert outcomes[k] == Generate(kept[k]) && names[k] == kept[k].name;
    }
    if r.Aborted? {
      assert kept[|r.files|] in kept;
    } else {
      forall a | a in kept
        ensures Generate(a).Emitted?
      {
        var k :| 0 <= k < |kept| && kept[k] == a;
        assert outcomes[k].Emitted?;
      }
    }
  }

  /** The loop of `GenerateFiles`, over the outcomes of the kept arrays in order: each file is
      written as it is generated, and the first rejection aborts the batch. */
  method Collect(names: seq<string>, outcomes: seq<Outcome>) returns (r: Batch)
    requires |names| == |outcomes|
    ensures r.Aborted? <==> exists k :: 0 <= k < |outcomes| && outcomes[k].Rejected?
    ensures |r.files| <= |outcomes|
    ensures forall k :: 0 <= k < |r.files| ==>
      outcomes[k].Emitted? && r.files[k] == SvFile(names[k], outcomes[k].lines)
    ensures r.Written? ==> |r.files| == |outcomes|
    ensures r.Aborted? ==> |r.files| < |outcomes| && outcomes[|r.files|] == Rejected(r.error)
  {
    var files: seq<SvFile> := [];
    var j := 0;
    while j < |outcomes|
      invariant 0 <= j <= |outcomes| && |files| == j
      invariant forall k :: 0 <= k < j ==> outcomes[k].Emitted?
      invariant forall k :: 0 <= k < j ==> files[k] == SvFile(names[k], outcomes[k].lines)
    {
      var g := outcomes[j];
      if g.Rejected? {
        return Aborted(files, g.error);
      }
      files := files + [SvFile(names[j], g.lines)];
      j := j + 1;
    }
    return Written(files);
  }

  /** Filtering splits at any position, one array at a time. */
  lemma {:induction false} KeptAppend(xs: seq<ArrayInfo>, ys: seq<ArrayInfo>)
    ensures Kept(xs + ys) == Kept(xs) + Kept(ys)
    decreases |xs|
  {
    if |xs| > 0 {
      ConsAppend(xs, ys);
      KeptAppend(xs[1..], ys);
    } else {
      EmptyAppend(xs, ys);
    }
  }

  lemma ConsAppend<T>(xs: seq<T>, ys: seq<T>)
    requires |xs| > 0
    ensures (xs + ys)[0] == xs[0] && (xs + ys)[1..] == xs[1..] + ys
  {
  }

  lemma AppendAssoc<T>(x: seq<T>, y: seq<T>, z: seq<T>)
    ensures x + y + z == x + (y + z)
  {
  }

  lemma EmptyAppend<T>(xs: seq<T>, ys: seq<T>)
    requires |xs| == 0
    ensures xs + ys == ys
  {
  }

  /** A position in the first part of a six-part concatenation. */
  lemma PrefixAt<T>(x: seq<T>, b: seq<T>, c: seq<T>, d: seq<T>, e: seq<T>, f: seq<T>, i: nat)
    requires i < |x|
    ensures (x + b + c + d + e + f)[i] == x[i]
  {
  }

  lemma InSecond<T>(a: seq<T>, b: seq<T>, c: seq<T>, d: seq<T>, i: nat)
    requires i < |b|
    ensures (a + b + c + d)[|a| + i] == b[i]
  {
  }

  lemma InThird<T>(a: seq<T>, b: seq<T>, c: seq<T>, d: seq<T>, i: nat)
    requires i < |c|
    ensures (a + b + c + d)[|a| + |b| + i] == c[i]
  {
  }

  lemma ConcatFront<T>(x: seq<T>, y: seq<T>, i: nat)
    requires i < |x|
    ensures (x + y)[i] == x[i]
  {
  }

  lemma ConcatBack<T>(x: seq<T>, y: seq<T>, i: nat)
    requires i < |y|
    ensures (x + y)[|x| + i] == y[i]
  {
  }

  lemma ReplaceLast<T>(s: seq<T>, x: T)
    requires |s| > 0
    ensures var r := s[..|s| - 1] + [x];
      |r| == |s| && r[|s| - 1] == x && forall j :: 0 <= j < |s| - 1 ==> r[j] == s[j]
  {
  }

  lemma InAppend<T>(x: T, s: seq<T>, t: seq<T>)
    ensures x in s + t <==> x in s || x in t
  {
  }
}
