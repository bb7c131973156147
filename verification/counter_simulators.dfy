/** The generated cycle simulators of `simple_counter` and `counter_system`: one module over
    the one-entry `u32` array `cnt`, and a step loop like that of `processor_system`. The two
    differ only in the module's name. The body of `counter_system`'s module is not part of this
    model, so the step loop takes the body as a parameter. */
module CounterSimulators {
  import opened Wrappers
  import opened SimRuntime

  datatype Sim = Sim(stamp: nat, cnt: Array<nat>, triggered: bool, event: seq<nat>)

  /** `Simulator::new()`. */
  const New: Sim := Sim(0, Array(0, []), false, [])

  /** A module body: the next state and whether it succeeded. */
  type Body = Sim -> (Sim, bool)

  /** `SimpleCounterInstance`: reads the committed `cnt` and stages `cnt + 1` for this cycle's
      tick; until the tick `cnt` reads as before, and after it `cnt` has gone up by one modulo
      2^32. */
  function SimpleCounterInstance(s: Sim): (r: (Sim, bool))
    ensures r.1
    ensures TickArray(r.0.cnt) == Array(U32(s.cnt.payload + 1), [])
    ensures r.0.cnt.payload == s.cnt.payload
    ensures r.0.cnt.staged == s.cnt.staged + [Staged(TickStamp(s.stamp), U32(s.cnt.payload + 1))]
    ensures r.0.(cnt := s.cnt) == s
  {
    (s.(cnt := Write(s.cnt, TickStamp(s.stamp), U32(s.cnt.payload + 1))), true)
  }

  /** Run and ticked, the body counts: `cnt` goes up by one, wrapping at 2^32. */
  lemma SimpleCounterCounts(s: Sim)
    ensures TickArray(SimpleCounterInstance(s).0.cnt) == Array(U32(s.cnt.payload + 1), [])
    ensures s.cnt.payload < 0xFFFF_FFFF ==> TickArray(SimpleCounterInstance(s).0.cnt).payload == s.cnt.payload + 1
    ensures s.cnt.payload == 0xFFFF_FFFF ==> TickArray(SimpleCounterInstance(s).0.cnt).payload == 0
  {
  }

  /** `simulate_X`: the body runs only on a valid credit, which it consumes when it succeeds. */
  function SimulateModule(body: Body, s: Sim): Sim
  {
    if EventValid(s.event, s.stamp) then
      var r := body(s);
      r.0.(event := Consume(r.0.event, s.stamp, r.1), triggered := r.1)
    else s
  }

  /** The bodies of cycle `i`, after `reset_downstream` cleared the flag. */
  function Cycle(body: Body, s: Sim, i: nat): (Sim, bool)
  {
    var s' := SimulateModule(body, s.(stamp := CycleStamp(i), triggered := false));
    (s', s'.triggered)
  }

  /** With no credit the body is never called: the cycle only moves the stamp and clears the
      flag, whatever the body. */
  lemma NoCreditNoRun(body: Body, s: Sim, i: nat)
    requires s.event == []
    ensures Cycle(body, s, i) == (s.(stamp := CycleStamp(i), triggered := false), false)
  {
  }

  /** `stamp += 50` and `tick_registers()`. */
  function Tick(s: Sim): Sim
  {
    s.(stamp := s.stamp + 50, cnt := TickArray(s.cnt))
  }

  /** The `for i in 1..=100` loop from cycle `i` on, with `idle_count` equal to `idle`. */
  function Run(body: Body, s: Sim, i: nat, idle: nat): Outcome<Sim>
    decreases MaxCycles + 1 - i
  {
    if i > MaxCycles then Outcome(s, 0, false)
    else
      var (s', any) := Cycle(body, s, i);
      match IdleStep(idle, any)
      case None => Outcome(s', 0, true)
      case Some(n) =>
        var o := Run(body, Tick(s'), i + 1, n);
        o.(ticks := o.ticks + 1)
  }

  function Simulate(body: Body): Outcome<Sim>
  {
    Run(body, New, 1, 0)
  }

  /** An idle cycle before the last one counts one more idle cycle and ticks. */
  lemma IdleStepOn(body: Body, s: Sim, i: nat)
    requires 1 <= i < MaxCycles && s.event == []
    ensures Run(body, s, i, i - 1)
      == Run(body, Tick(s.(stamp := CycleStamp(i), triggered := false)), i + 1, i).(
           ticks := Run(body, Tick(s.(stamp := CycleStamp(i), triggered := false)), i + 1, i).ticks + 1)
  {
    NoCreditNoRun(body, s, i);
    IdleStepRule(i - 1, false);
  }

  /** With no credit ever pushed, every cycle is idle: after cycle `k` `idle_count` is `k`, the
      loop breaks in cycle 100 before its tick, and `cnt` never changes. */
  lemma {:induction false} IdleRun(body: Body, s: Sim, i: nat)
    requires 1 <= i <= MaxCycles && s.event == [] && s.cnt.staged == []
    decreases MaxCycles - i
    ensures Run(body, s, i, i - 1) == Outcome(s.(stamp := CycleStamp(100), triggered := false), 100 - i, true)
  {
    if i < MaxCycles {
      IdleStepOn(body, s, i);
      var s' := Tick(s.(stamp := CycleStamp(i), triggered := false));
      assert s'.cnt == s.cnt && s'.event == [];
      IdleRun(body, s', i + 1);
    } else {
      NoCreditNoRun(body, s, i);
    }
  }

  /** `simple_counter`: its module never runs, `cnt` stays 0, and the idle threshold stops the
      loop in cycle 100 after 99 ticks. */
  lemma SimpleCounterOutcome()
    ensures Simulate(SimpleCounterInstance) == Outcome(Sim(10000, Array(0, []), false, []), 99, true)
  {
    IdleRun(SimpleCounterInstance, New, 1);
  }

  /** `counter_system` ends the same way, whatever its module does. */
  lemma CounterSystemOutcome(body: Body)
    ensures Simulate(body) == Outcome(Sim(10000, Array(0, []), false, []), 99, true)
  {
    IdleRun(body, New, 1);
  }
}
