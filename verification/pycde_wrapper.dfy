/** `build_register_file` in `pycde_wrapper.py`: the port declaration CIRCT sees for an
    external multi-port register file. It settles the address width, checks the initializer
    against the depth and lists the module's attributes in insertion order: the parameters,
    then the ports. The element type of the data ports is left abstract. */
module PycdeWrapper {
  import opened Wrappers
  import opened Bitwise
  import RegisterFile

  /** `int.bit_length()` of a non-negative integer. */
  function BitLength(n: nat): (r: nat)
    ensures n < Pow2(r)
    ensures n > 0 ==> r >= 1 && Pow2(r - 1) <= n
  {
    if n == 0 then 0 else 1 + BitLength(n / 2)
  }

  /** `max(1, (depth - 1).bit_length()) if depth > 0 else 1`. */
  function ComputedAddrWidth(depth: int): (w: nat)
    ensures w >= 1
  {
    if depth > 0 then
      var b := BitLength(depth - 1);
      if b > 1 then b else 1
    else 1
  }

  /** The computed width addresses every entry, and for two or more entries no narrower
      width does. */
  lemma ComputedAddrWidthIsMinimal(depth: int)
    ensures depth > 0 ==> depth <= Pow2(ComputedAddrWidth(depth))
    ensures depth >= 2 ==> forall v: nat :: v < ComputedAddrWidth(depth) ==> Pow2(v) < depth
  {
    if depth >= 2 {
      var w := ComputedAddrWidth(depth);
      assert w == BitLength(depth - 1);
      forall v: nat | v < w
        ensures Pow2(v) < depth
      {
        Pow2Monotone(v, w - 1);
      }
    } else if depth == 1 {
      assert Pow2(1) == 2;
    }
  }

  /** What each attribute declares: the clock and reset inputs, a bit vector input of a given
      width, or an input or output of the array's element type. */
  datatype PortKind = ClockInput | ResetInput | BitsInput(width: nat) | DataInput | DataOutput

  /** One port attribute: its name (the same names the emitted SystemVerilog header uses) and
      its kind. */
  datatype Port = Port(decl: RegisterFile.PortDecl, kind: PortKind)

  /** The module class: `module_name`, the four parameter attributes and the ports in the order
      they were inserted. */
  datatype ModuleClass = ModuleClass(
    name: string,
    addrWidth: nat,
    depth: int,
    numWritePorts: int,
    numReadPorts: int,
    ports: seq<Port>)

  /** The class, or the `ValueError` of an initializer whose length is not the depth. */
  datatype Build = Built(m: ModuleClass) | InitializerMismatch(length: nat, depth: int)

  /** `range(n)` has no elements for n <= 0. */
  function Count(n: int): nat
  {
    if n > 0 then n else 0
  }

  /** The loop over `range(num_write_ports)`: three attributes per port. */
  function WriteAttrs(n: nat, addrWidth: nat): (ps: seq<Port>)
    ensures |ps| == 3 * n
  {
    if n == 0 then []
    else
      WriteAttrs(n - 1, addrWidth) + [
        Port(RegisterFile.WriteEnable(n - 1), BitsInput(1)),
        Port(RegisterFile.WriteIndex(n - 1), BitsInput(addrWidth)),
        Port(RegisterFile.WriteData(n - 1), DataInput)]
  }

  /** The `ridx_port` loop. */
  function ReadIndexAttrs(n: nat, addrWidth: nat): (ps: seq<Port>)
    ensures |ps| == n
  {
    if n == 0 then [] else ReadIndexAttrs(n - 1, addrWidth) + [Port(RegisterFile.ReadIndex(n - 1), BitsInput(addrWidth))]
  }

  /** The `rdata_port` loop. */
  function ReadDataAttrs(n: nat): (ps: seq<Port>)
    ensures |ps| == n
  {
    if n == 0 then [] else ReadDataAttrs(n - 1) + [Port(RegisterFile.ReadData(n - 1), DataOutput)]
  }

  function BuildRegisterFile(
    name: string, depth: int, numWritePorts: int, numReadPorts: int,
    addrWidth: Option<int>, includeReadIndex: bool, initializer: Option<seq<int>>): (r: Build)
    ensures r.InitializerMismatch? <==> initializer.Some? && |initializer.value| != depth
    ensures r.InitializerMismatch? ==> r.length == |initializer.value| && r.depth == depth
    ensures r.Built? ==>
      && r.m.name == name && r.m.depth == depth
      && r.m.numWritePorts == numWritePorts && r.m.numReadPorts == numReadPorts
      && r.m.addrWidth >= 1
    ensures r.Built? && addrWidth.None? && depth > 0 ==> depth <= Pow2(r.m.addrWidth)
    ensures r.Built? && addrWidth.None? && depth >= 2 ==>
      forall v: nat :: v < r.m.addrWidth ==> Pow2(v) < depth
    ensures r.Built? && addrWidth.None? && depth <= 2 ==> r.m.addrWidth == 1
    ensures r.Built? && addrWidth.Some? && addrWidth.value >= 1 ==> r.m.addrWidth == addrWidth.value
    ensures r.Built? && addrWidth.Some? && addrWidth.value < 1 ==> r.m.addrWidth == 1
  {
    var computed := ComputedAddrWidth(depth);
    var requested := if addrWidth.None? then computed else addrWidth.value;
    var aw: nat := if requested >= 1 then requested else 1;
    if initializer.Some? && |initializer.value| != depth then
      InitializerMismatch(|initializer.value|, depth)
    else
      ComputedAddrWidthIsMinimal(depth);
      var ports := [Port(RegisterFile.Clock, ClockInput), Port(RegisterFile.Reset, ResetInput)]
        + WriteAttrs(Count(numWritePorts), aw)
        + (if includeReadIndex then ReadIndexAttrs(Count(numReadPorts), aw) else [])
        + ReadDataAttrs(Count(numReadPorts));
      Built(ModuleClass(name, aw, depth, numWritePorts, numReadPorts, ports))
  }

  /** The port names, in attribute order. */
  function Decls(ps: seq<Port>): (d: seq<RegisterFile.PortDecl>)
    ensures |d| == |ps|
  {
    if |ps| == 0 then [] else Decls(ps[..|ps| - 1]) + [ps[|ps| - 1].decl]
  }

  lemma {:induction false} DeclsAppend(xs: seq<Port>, ys: seq<Port>)
    ensures Decls(xs + ys) == Decls(xs) + Decls(ys)
    decreases |ys|
  {
    if |ys| == 0 {
      assert xs + ys == xs;
    } else {
      var n := |ys| - 1;
      assert (xs + ys)[..|xs + ys| - 1] == xs + ys[..n];
      DeclsAppend(xs, ys[..n]);
    }
  }

  lemma DeclsSnoc(ps: seq<Port>, p: Port)
    ensures Decls(ps + [p]) == Decls(ps) + [p.decl]
  {
    assert (ps + [p])[..|ps|] == ps;
  }

  lemma {:induction false} WriteAttrsDecls(n: nat, addrWidth: nat)
    ensures Decls(WriteAttrs(n, addrWidth)) == RegisterFile.WriteTriples(n)
  {
    if n > 0 {
      var p0 := Port(RegisterFile.WriteEnable(n - 1), BitsInput(1));
      var p1 := Port(RegisterFile.WriteIndex(n - 1), BitsInput(addrWidth));
      var p2 := Port(RegisterFile.WriteData(n - 1), DataInput);
      var last := [p0, p1, p2];
      WriteAttrsDecls(n - 1, addrWidth);
      DeclsAppend(WriteAttrs(n - 1, addrWidth), last);
      assert Decls(last) == [p0.decl, p1.decl, p2.decl] by {
        DeclsSnoc([], p0);
        assert [] + [p0] == [p0];
        DeclsSnoc([p0], p1);
        assert [p0] + [p1] == [p0, p1];
        DeclsSnoc([p0, p1], p2);
        assert [p0, p1] + [p2] == last;
      }
    }
  }

  lemma {:induction false} ReadIndexAttrsDecls(n: nat, addrWidth: nat)
    ensures Decls(ReadIndexAttrs(n, addrWidth)) == RegisterFile.ReadIndexDecls(n)
  {
    if n > 0 {
      var last := [Port(RegisterFile.ReadIndex(n - 1), BitsInput(addrWidth))];
      ReadIndexAttrsDecls(n - 1, addrWidth);
      DeclsAppend(ReadIndexAttrs(n - 1, addrWidth), last);
      assert last[..0] == [];
      assert RegisterFile.ReadIndexDecls(n) == RegisterFile.ReadIndexDecls(n - 1) + [RegisterFile.ReadIndex(n - 1)];
    }
  }

  lemma {:induction false} ReadDataAttrsDecls(n: nat)
    ensures Decls(ReadDataAttrs(n)) == RegisterFile.ReadDataDecls(n)
  {
    if n > 0 {
      var last := [Port(RegisterFile.ReadData(n - 1), DataOutput)];
      ReadDataAttrsDecls(n - 1);
      DeclsAppend(ReadDataAttrs(n - 1), last);
      assert last[..0] == [];
      assert RegisterFile.ReadDataDecls(n) == RegisterFile.ReadDataDecls(n - 1) + [RegisterFile.ReadData(n - 1)];
    }
  }

  /** The wrapper declares exactly the ports of the emitted SystemVerilog module, in the same
      order, when both agree on whether reads carry an index: clock, reset, a write triple per
      write port, the read indices when requested, the read data outputs. */
  lemma PortsMatchEmittedHeader(
    name: string, depth: int, numWritePorts: int, numReadPorts: int,
    addrWidth: Option<int>, includeReadIndex: bool, initializer: Option<seq<int>>)
    requires BuildRegisterFile(name, depth, numWritePorts, numReadPorts, addrWidth, includeReadIndex, initializer).Built?
    ensures var m := BuildRegisterFile(name, depth, numWritePorts, numReadPorts, addrWidth, includeReadIndex, initializer).m;
      Decls(m.ports) == RegisterFile.Declarations(Count(numWritePorts), Count(numReadPorts), includeReadIndex)
  {
    var m := BuildRegisterFile(name, depth, numWritePorts, numReadPorts, addrWidth, includeReadIndex, initializer).m;
    var nw := Count(numWritePorts);
    var nr := Count(numReadPorts);
    var aw := m.addrWidth;
    var cr := [Port(RegisterFile.Clock, ClockInput), Port(RegisterFile.Reset, ResetInput)];
    var w := WriteAttrs(nw, aw);
    var ri := if includeReadIndex then ReadIndexAttrs(nr, aw) else [];
    var rd := ReadDataAttrs(nr);
    assert m.ports == cr + w + ri + rd;
    DeclsAppend(cr + w + ri, rd);
    DeclsAppend(cr + w, ri);
    DeclsAppend(cr, w);
    assert Decls(cr) == [RegisterFile.Clock, RegisterFile.Reset] by {
      assert cr[..1] == [cr[0]];
    }
    WriteAttrsDecls(nw, aw);
    if includeReadIndex {
      ReadIndexAttrsDecls(nr, aw);
    }
    ReadDataAttrsDecls(nr);
  }

  /** The kind each port gets: one-bit write enables, index inputs of the address width, data
      inputs and outputs of the element type. */
  predicate KindFits(p: Port, addrWidth: nat)
  {
    match p.decl
    case Clock => p.kind == ClockInput
    case Reset => p.kind == ResetInput
    case WriteEnable(_) => p.kind == BitsInput(1)
    case WriteIndex(_) => p.kind == BitsInput(addrWidth)
    case WriteData(_) => p.kind == DataInput
    case ReadIndex(_) => p.kind == BitsInput(addrWidth)
    case ReadData(_) => p.kind == DataOutput
  }

  lemma {:induction false} WriteAttrsKinds(n: nat, addrWidth: nat)
    ensures forall j :: 0 <= j < |WriteAttrs(n, addrWidth)| ==> KindFits(WriteAttrs(n, addrWidth)[j], addrWidth)
  {
    if n > 0 {
      WriteAttrsKinds(n - 1, addrWidth);
    }
  }

  lemma {:induction false} ReadIndexAttrsKinds(n: nat, addrWidth: nat)
    ensures forall j :: 0 <= j < |ReadIndexAttrs(n, addrWidth)| ==> KindFits(ReadIndexAttrs(n, addrWidth)[j], addrWidth)
  {
    if n > 0 {
      ReadIndexAttrsKinds(n - 1, addrWidth);
    }
  }

  lemma {:induction false} ReadDataAttrsKinds(n: nat, addrWidth: nat)
    ensures forall j :: 0 <= j < |ReadDataAttrs(n)| ==> KindFits(ReadDataAttrs(n)[j], addrWidth)
  {
    if n > 0 {
      ReadDataAttrsKinds(n - 1, addrWidth);
    }
  }

  /** Every port is declared with the kind its name calls for, the index inputs with the
      module's address width. */
  lemma PortKinds(
    name: string, depth: int, numWritePorts: int, numReadPorts: int,
    addrWidth: Option<int>, includeReadIndex: bool, initializer: Option<seq<int>>)
    requires BuildRegisterFile(name, depth, numWritePorts, numReadPorts, addrWidth, includeReadIndex, initializer).Built?
    ensures var m := BuildRegisterFile(name, depth, numWritePorts, numReadPorts, addrWidth, includeReadIndex, initializer).m;
      forall j :: 0 <= j < |m.ports| ==> KindFits(m.ports[j], m.addrWidth)
  {
    var m := BuildRegisterFile(name, depth, numWritePorts, numReadPorts, addrWidth, includeReadIndex, initializer).m;
    var nw := Count(numWritePorts);
    var nr := Count(numReadPorts);
    var aw := m.addrWidth;
    var cr := [Port(RegisterFile.Clock, ClockInput), Port(RegisterFile.Reset, ResetInput)];
    var w := WriteAttrs(nw, aw);
    var ri := if includeReadIndex then ReadIndexAttrs(nr, aw) else [];
    var rd := ReadDataAttrs(nr);
    assert m.ports == cr + w + ri + rd;
    WriteAttrsKinds(nw, aw);
    ReadIndexAttrsKinds(nr, aw);
    ReadDataAttrsKinds(nr, aw);
    forall j | 0 <= j < |m.ports|
      ensures KindFits(m.ports[j], aw)
    {
      if j < 2 {
      } else if j < 2 + |w| {
        assert m.ports[j] == w[j - 2];
      } else if j < 2 + |w| + |ri| {
        assert m.ports[j] == ri[j - 2 - |w|];
      } else {
        assert m.ports[j] == rd[j - 2 - |w| - |ri|];
      }
    }
  }

  /** A port is declared exactly when the counts call for it: `ridx_port` only when read
      indices are requested, `rdata_port` for every read port regardless. */
  lemma PortMembership(
    name: string, depth: int, numWritePorts: int, numReadPorts: int,
    addrWidth: Option<int>, includeReadIndex: bool, initializer: Option<seq<int>>, p: RegisterFile.PortDecl)
    requires BuildRegisterFile(name, depth, numWritePorts, numReadPorts, addrWidth, includeReadIndex, initializer).Built?
    ensures var m := BuildRegisterFile(name, depth, numWritePorts, numReadPorts, addrWidth, includeReadIndex, initializer).m;
      p in Decls(m.ports) <==> RegisterFile.Declared(p, Count(numWritePorts), Count(numReadPorts), includeReadIndex)
  {
    PortsMatchEmittedHeader(name, depth, numWritePorts, numReadPorts, addrWidth, includeReadIndex, initializer);
    RegisterFile.DeclaredPorts(Count(numWritePorts), Count(numReadPorts), includeReadIndex, p);
  }
}
