/** The five-valued gates of assasyn_simulator.py: output values of `AndGate`, `OrGate`,
    `NotGate` and `CElement.evaluate`. Whether the gate's delay has elapsed is an input here;
    the floating-point clock it is computed from is not modelled. */
module Gates {

  datatype SignalValue = Zero | One | Unknown | Rising | Falling

  /** The AND truth table of `AndGate.evaluate`. */
  function And(a: SignalValue, b: SignalValue): SignalValue
  {
    if a == Zero || b == Zero then Zero
    else if a == One && b == One then One
    else if a == Rising && b == One then Rising
    else if a == One && b == Rising then Rising
    else if a == Falling && b == One then Falling
    else if a == One && b == Falling then Falling
    else Unknown
  }

  /** The OR truth table of `OrGate.evaluate`. */
  function Or(a: SignalValue, b: SignalValue): SignalValue
  {
    if a == One || b == One then One
    else if a == Zero && b == Zero then Zero
    else if a == Rising && b == Zero then Rising
    else if a == Zero && b == Rising then Rising
    else if a == Falling && b == Zero then Falling
    else if a == Zero && b == Falling then Falling
    else Unknown
  }

  /** The NOT truth table of `NotGate.evaluate`. */
  function Not(a: SignalValue): SignalValue
  {
    match a
    case Zero => One
    case One => Zero
    case Rising => Falling
    case Falling => Rising
    case Unknown => Unknown
  }

  /** An edge is passed through an AND only when the other input is ONE. */
  lemma AndCharacterisation(a: SignalValue, b: SignalValue)
    ensures And(a, b) == Zero <==> (a == Zero || b == Zero)
    ensures And(a, b) == One <==> (a == One && b == One)
    ensures And(a, b) == Rising <==> ((a == Rising && b == One) || (a == One && b == Rising))
    ensures And(a, b) == Falling <==> ((a == Falling && b == One) || (a == One && b == Falling))
    ensures And(a, b) == And(b, a)
  {
  }

  /** An edge is passed through an OR only when the other input is ZERO. */
  lemma OrCharacterisation(a: SignalValue, b: SignalValue)
    ensures Or(a, b) == One <==> (a == One || b == One)
    ensures Or(a, b) == Zero <==> (a == Zero && b == Zero)
    ensures Or(a, b) == Rising <==> ((a == Rising && b == Zero) || (a == Zero && b == Rising))
    ensures Or(a, b) == Falling <==> ((a == Falling && b == Zero) || (a == Zero && b == Falling))
    ensures Or(a, b) == Or(b, a)
  {
  }

  lemma NotInvolution(a: SignalValue)
    ensures Not(Not(a)) == a
    ensures Not(a) == Unknown <==> a == Unknown
  {
  }

  /** De Morgan holds on all 25 input pairs of the five-valued tables. */
  lemma DeMorgan(a: SignalValue, b: SignalValue)
    ensures Not(And(a, b)) == Or(Not(a), Not(b))
    ensures Not(Or(a, b)) == And(Not(a), Not(b))
  {
  }

  /** The C-element's next output: agreement on ZERO or ONE sets it, anything else holds. */
  function CElementOutput(a: SignalValue, b: SignalValue, memory: SignalValue): SignalValue
  {
    if a == Zero && b == Zero then Zero
    else if a == One && b == One then One
    else memory
  }

  /** A gate's observable state: its output signal and, for a C-element, its memory. */
  datatype Gate = Gate(kind: Kind, inputs: seq<SignalValue>, output: SignalValue, memory: SignalValue)
  datatype Kind = AndKind | OrKind | NotKind | CElementKind

  function Arity(k: Kind): nat
  {
    if k == NotKind then 1 else 2
  }

  /** The value the gate computes from its first inputs. */
  function NewOutput(g: Gate): SignalValue
    requires |g.inputs| >= Arity(g.kind)
  {
    match g.kind
    case AndKind => And(g.inputs[0], g.inputs[1])
    case OrKind => Or(g.inputs[0], g.inputs[1])
    case NotKind => Not(g.inputs[0])
    case CElementKind => CElementOutput(g.inputs[0], g.inputs[1], g.memory)
  }

  /** `evaluate`: with too few inputs nothing happens; otherwise the output (and a C-element's
      memory) takes the new value when it differs and the delay has elapsed. The boolean is
      whether the output changed. */
  function Evaluate(g: Gate, delayElapsed: bool): (r: (Gate, bool))
    ensures |g.inputs| < Arity(g.kind) ==> r == (g, false)
    ensures r.0.kind == g.kind && r.0.inputs == g.inputs
    ensures r.1 <==> (r.0.output != g.output)
    ensures r.1 <==> |g.inputs| >= Arity(g.kind) && delayElapsed && NewOutput(g) != g.output
    ensures r.1 ==> r.0.output == NewOutput(g)
    ensures g.kind != CElementKind ==> r.0.memory == g.memory
    ensures g.kind == CElementKind && r.0.memory != g.memory ==> r.1 && r.0.memory == r.0.output
  {
    if |g.inputs| < Arity(g.kind) then (g, false)
    else
      var v := NewOutput(g);
      if v != g.output && delayElapsed then
        var m := if g.kind == CElementKind then v else g.memory;
        (g.(output := v, memory := m), true)
      else (g, false)
  }

  /** Once a gate has switched, a second evaluation with unchanged inputs changes nothing. */
  lemma EvaluateSettles(g: Gate, delayElapsed: bool, again: bool)
    ensures Evaluate(g, delayElapsed).1 ==> Evaluate(Evaluate(g, delayElapsed).0, again) == (Evaluate(g, delayElapsed).0, false)
  {
  }
}
