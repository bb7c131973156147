/** The generated cycle simulator of `processor_system`: three modules, `CounterInstance`,
    `DataProcessorInstance` and `Driver`, over four one-entry `u32` arrays and the two input
    FIFOs of `DataProcessorInstance`. A body is a pure function from the simulator state to the
    next state and whether it succeeded; `simulate()` is `Run` from `Preloaded`. */
module ProcessorSystem {
  import opened Wrappers
  import opened SimRuntime

  datatype Sim = Sim(
    stamp: nat,
    cnt: Array<nat>,
    processedData: Array<nat>,
    cycleCnt: Array<nat>,
    testData: Array<nat>,
    counterTriggered: bool,
    counterEvent: seq<nat>,
    processorTriggered: bool,
    processorEvent: seq<nat>,
    dataIn: Fifo<nat>,
    enable: Fifo<bool>,
    driverTriggered: bool,
    driverEvent: seq<nat>)

  /** `Simulator::new()`: every array zero, every queue and FIFO empty. */
  const New: Sim := Sim(0, Array(0, []), Array(0, []), Array(0, []), Array(0, []),
    false, [], false, [], Fifo([], [], []), Fifo([], [], []), false, [])

  /** A credit queue holding one credit for each of the `count` cycles from cycle `first` on. */
  ghost predicate CreditsFrom(q: seq<nat>, first: nat, count: nat)
  {
    |q| == count && forall j :: 0 <= j < count ==> q[j] == CycleStamp(first + j)
  }

  function Credits(first: nat, count: nat): (c: seq<nat>)
    ensures CreditsFrom(c, first, count)
    decreases count
  {
    if count == 0 then [] else [CycleStamp(first)] + Credits(first + 1, count - 1)
  }

  /** The credits `simulate()` gives `Driver` before the loop, at the stamps 100, 200, ...,
      10000. */
  const DriverCredits: seq<nat> := Credits(1, 100)

  const Preloaded: Sim := New.(driverEvent := DriverCredits)

  // ---------------------------------------------------------------------------------------
  // Bodies

  /** `CounterInstance`: reads the committed `cnt` and stages `cnt + 1` for this cycle's tick;
      until the tick `cnt` reads as before, and after it `cnt` has gone up by one modulo 2^32. */
  function CounterInstance(s: Sim): (r: (Sim, bool))
    ensures r.1
    ensures r.0.cnt.payload == s.cnt.payload
    ensures TickArray(r.0.cnt) == Array(U32(s.cnt.payload + 1), [])
    ensures r.0.cnt == Write(s.cnt, TickStamp(s.stamp), U32(s.cnt.payload + 1))
    ensures r.0.(cnt := s.cnt) == s
  {
    (s.(cnt := Write(s.cnt, TickStamp(s.stamp), U32(s.cnt.payload + 1))), true)
  }

  /** `Driver`: from the committed `cycle_cnt`, stages `cycle_cnt + 1` and `test_data :=
      cycle_cnt * 3` for this cycle's tick; pushes the committed `test_data` and whether
      `cycle_cnt` is even to the processor's FIFOs at `stamp + 50`; gives the processor one
      credit for the next cycle. After the tick `cycle_cnt` has gone up by one, `test_data` is
      three times the old `cycle_cnt`, and each FIFO holds the pushed value behind its old
      contents; the credit lands at the start of the next cycle. */
  function Driver(s: Sim): (r: (Sim, bool))
    ensures r.1
    ensures TickArray(r.0.cycleCnt) == Array(U32(s.cycleCnt.payload + 1), [])
    ensures TickArray(r.0.testData) == Array(U32(s.cycleCnt.payload * 3), [])
    ensures TickFifo(r.0.dataIn).payload == TickFifo(s.dataIn).payload + [s.testData.payload]
    ensures TickFifo(r.0.enable).payload == TickFifo(s.enable).payload + [s.cycleCnt.payload % 2 == 0]
    ensures |r.0.processorEvent| == |s.processorEvent| + 1
    ensures var e := r.0.processorEvent[|s.processorEvent|]; s.stamp < e <= s.stamp + 100 && e % 100 == 0
    ensures r.0.cycleCnt == Write(s.cycleCnt, TickStamp(s.stamp), U32(s.cycleCnt.payload + 1))
    ensures r.0.testData == Write(s.testData, TickStamp(s.stamp), U32(s.cycleCnt.payload * 3))
    ensures r.0.dataIn == Push(s.dataIn, s.stamp + 50, s.testData.payload)
    ensures r.0.enable == Push(s.enable, s.stamp + 50, s.cycleCnt.payload % 2 == 0)
    ensures r.0.processorEvent == s.processorEvent + [NextCycleStamp(s.stamp)]
    ensures r.0.(cycleCnt := s.cycleCnt, testData := s.testData, dataIn := s.dataIn,
                 enable := s.enable, processorEvent := s.processorEvent) == s
  {
    var rd := s.cycleCnt.payload;
    var tick := TickStamp(s.stamp);
    var s' := s.(
      cycleCnt := Write(s.cycleCnt, tick, U32(rd + 1)),
      testData := Write(s.testData, tick, U32(rd * 3)),
      dataIn := Push(s.dataIn, s.stamp + 50, s.testData.payload),
      enable := Push(s.enable, s.stamp + 50, rd % 2 == 0),
      processorEvent := s.processorEvent + [NextCycleStamp(s.stamp)]);
    (s', true)
  }

  /** `DataProcessorInstance`: refuses to run unless both input FIFOs hold a value; otherwise
      pops both at this cycle's tick and, when the `enable` it read is true, stages
      `processed_data := data_in * 2`. After the tick `processed_data` is twice the value read
      when `enable` was true and unchanged otherwise, and each FIFO has lost its front. */
  function DataProcessorInstance(s: Sim): (r: (Sim, bool))
    ensures r.1 <==> |s.dataIn.payload| > 0 && |s.enable.payload| > 0
    ensures !r.1 ==> r.0 == s
    ensures r.1 && s.enable.payload[0] ==>
      TickArray(r.0.processedData) == Array(U32(s.dataIn.payload[0] * 2), [])
    ensures r.1 && !s.enable.payload[0] ==> r.0.processedData == s.processedData
    ensures r.1 && |s.dataIn.pops| < |s.dataIn.payload| ==>
      TickFifo(r.0.dataIn).payload == TickFifo(s.dataIn).payload[1..]
    ensures r.1 && |s.enable.pops| < |s.enable.payload| ==>
      TickFifo(r.0.enable).payload == TickFifo(s.enable).payload[1..]
    ensures r.1 ==>
      && r.0.dataIn == Pop(s.dataIn, TickStamp(s.stamp))
      && r.0.enable == Pop(s.enable, TickStamp(s.stamp))
      && r.0.processedData == (if s.enable.payload[0]
        then Write(s.processedData, TickStamp(s.stamp), U32(s.dataIn.payload[0] * 2))
        else s.processedData)
    ensures r.0.(dataIn := s.dataIn, enable := s.enable, processedData := s.processedData) == s
  {
    if |s.dataIn.payload| == 0 || |s.enable.payload| == 0 then (s, false)
    else
      var tick := TickStamp(s.stamp);
      var dataIn := s.dataIn.payload[0];
      var enable := s.enable.payload[0];
      var processed := if enable then Write(s.processedData, tick, U32(dataIn * 2)) else s.processedData;
      (s.(dataIn := Pop(s.dataIn, tick), enable := Pop(s.enable, tick), processedData := processed), true)
  }

  // ---------------------------------------------------------------------------------------
  // The `simulate_X` wrappers and the step loop

  function SimulateCounter(s: Sim): Sim
  {
    if EventValid(s.counterEvent, s.stamp) then
      var r := CounterInstance(s);
      r.0.(counterEvent := Consume(r.0.counterEvent, s.stamp, r.1), counterTriggered := r.1)
    else s
  }

  function SimulateProcessor(s: Sim): Sim
  {
    if EventValid(s.processorEvent, s.stamp) then
      var r := DataProcessorInstance(s);
      r.0.(processorEvent := Consume(r.0.processorEvent, s.stamp, r.1), processorTriggered := r.1)
    else s
  }

  function SimulateDriver(s: Sim): Sim
  {
    if EventValid(s.driverEvent, s.stamp) then
      var r := Driver(s);
      r.0.(driverEvent := Consume(r.0.driverEvent, s.stamp, r.1), driverTriggered := r.1)
    else s
  }

  /** A module's wrapper runs the body only on a valid credit; the credit is consumed and the
      triggered flag set exactly when the body succeeds, and a failed body leaves the state as
      it was apart from the flag, so the module retries on its next credit check. */
  lemma ProcessorCreditRule(s: Sim)
    ensures var r := SimulateProcessor(s);
      && (!EventValid(s.processorEvent, s.stamp) ==> r == s)
      && (EventValid(s.processorEvent, s.stamp) ==>
            (r.processorTriggered <==> |s.dataIn.payload| > 0 && |s.enable.payload| > 0))
      && (EventValid(s.processorEvent, s.stamp) && r.processorTriggered ==>
            s.processorEvent == [s.processorEvent[0]] + r.processorEvent)
      && (EventValid(s.processorEvent, s.stamp) && !r.processorTriggered ==>
            r == s.(processorTriggered := false))
  {
  }

  /** The `Driver` and `CounterInstance` wrappers consume their credit whenever it is valid,
      since those bodies always succeed. */
  lemma AlwaysSucceedingCreditRule(s: Sim)
    ensures EventValid(s.driverEvent, s.stamp) ==>
      SimulateDriver(s).driverTriggered && s.driverEvent[1..] == SimulateDriver(s).driverEvent
    ensures !EventValid(s.driverEvent, s.stamp) ==> SimulateDriver(s) == s
    ensures EventValid(s.counterEvent, s.stamp) ==>
      SimulateCounter(s).counterTriggered && s.counterEvent[1..] == SimulateCounter(s).counterEvent
    ensures !EventValid(s.counterEvent, s.stamp) ==> SimulateCounter(s) == s
  {
  }

  /** The bodies of cycle `i`: the stamp moves to `100 * i`, every triggered flag is cleared,
      and the wrappers run in the order `CounterInstance`, `DataProcessorInstance`, `Driver`;
      the downstream list is empty. Also returns whether any module triggered. */
  function Cycle(s: Sim, i: nat): (Sim, bool)
  {
    var cleared := s.(stamp := CycleStamp(i), counterTriggered := false,
                      processorTriggered := false, driverTriggered := false);
    var s' := SimulateDriver(SimulateProcessor(SimulateCounter(cleared)));
    (s', s'.counterTriggered || s'.processorTriggered || s'.driverTriggered)
  }

  /** A triggered flag after a cycle means that module's body ran and succeeded in that cycle:
      no flag survives from an earlier cycle. */
  lemma FlagsAreThisCycle(s: Sim, i: nat)
    ensures var s' := Cycle(s, i).0;
      && (s'.counterTriggered ==> EventValid(s.counterEvent, CycleStamp(i)))
      && (s'.driverTriggered ==> EventValid(s.driverEvent, CycleStamp(i)))
      && (s'.processorTriggered ==> EventValid(s.processorEvent, CycleStamp(i)))
  {
  }

  /** `stamp += 50` and `tick_registers()`: every array and FIFO ticks once. */
  function Tick(s: Sim): Sim
  {
    var t := s.stamp + 50;
    s.(stamp := t,
       cnt := TickArray(s.cnt), processedData := TickArray(s.processedData),
       cycleCnt := TickArray(s.cycleCnt), testData := TickArray(s.testData),
       dataIn := TickFifo(s.dataIn), enable := TickFifo(s.enable))
  }

  /** The `for i in 1..=100` loop from cycle `i` on, with `idle_count` equal to `idle`. */
  function Run(s: Sim, i: nat, idle: nat): Outcome<Sim>
    decreases MaxCycles + 1 - i
  {
    if i > MaxCycles then Outcome(s, 0, false)
    else
      var (s', any) := Cycle(s, i);
      match IdleStep(idle, any)
      case None => Outcome(s', 0, true)
      case Some(n) =>
        var o := Run(Tick(s'), i + 1, n);
        o.(ticks := o.ticks + 1)
  }

  function Simulate(): Outcome<Sim>
  {
    Run(Preloaded, 1, 0)
  }

  // ---------------------------------------------------------------------------------------
  // The run

  /** `test_data` after `k` cycles: `Driver` of cycle `k` stored the count of the cycles before
      it, times three. */
  function TestDataAfter(k: nat): nat
  {
    if k == 0 then 0 else 3 * (k - 1)
  }

  /** `processed_data` after `k` cycles: the processor runs from cycle 2 on, reading what
      `Driver` pushed a cycle earlier, and writes only in even cycles, where `enable` was
      pushed true; so the last write is that of the last even cycle. */
  function ProcessedAfter(k: nat): nat
  {
    var even := if k % 2 == 0 then k else k - 1;
    if even >= 2 then 2 * TestDataAfter(even - 2) else 0
  }

  /** The contents of `data_in` and `enable` after `k` cycles: what `Driver` pushed in cycle
      `k`, from the values committed before it. */
  function DataInAfter(k: nat): seq<nat>
  {
    if k == 0 then [] else [TestDataAfter(k - 1)]
  }

  function EnableAfter(k: nat): seq<bool>
  {
    if k == 0 then [] else [(k - 1) % 2 == 0]
  }

  /** The state after the tick of cycle `k`, every staged value committed; `credits` is what
      is left of `Driver`'s credits. */
  function AfterCycle(k: nat, credits: seq<nat>): Sim
  {
    Sim(if k == 0 then 0 else CycleStamp(k) + 50,
      Array(0, []), Array(ProcessedAfter(k), []), Array(k, []), Array(TestDataAfter(k), []),
      false, [],
      k >= 2, if k == 0 then [] else [CycleStamp(k + 1)],
      Fifo(DataInAfter(k), [], []), Fifo(EnableAfter(k), [], []),
      k >= 1, credits)
  }

  /** The state after the bodies of cycle `k + 1`, before its tick. */
  function AfterBodies(k: nat, credits: seq<nat>): Sim
  {
    var t := CycleStamp(k + 1) + 50;
    var pops: seq<nat> := if k == 0 then [] else [t];
    Sim(CycleStamp(k + 1),
      Array(0, []),
      Array(ProcessedAfter(k), if k >= 1 && (k - 1) % 2 == 0 then [Staged(t, 2 * TestDataAfter(k - 1))] else []),
      Array(k, [Staged(t, k + 1)]),
      Array(TestDataAfter(k), [Staged(t, 3 * k)]),
      false, [],
      k >= 1, [CycleStamp(k + 2)],
      Fifo(DataInAfter(k), [Staged(t, TestDataAfter(k))], pops),
      Fifo(EnableAfter(k), [Staged(t, k % 2 == 0)], pops),
      true, credits)
  }

  /** `CounterInstance` has no credit and `DataProcessorInstance` from cycle 2 on finds the
      values `Driver` pushed a cycle earlier, pops them and writes when `enable` was true. */
  lemma ProcessorStage(k: nat, credits: seq<nat>)
    requires k < 100
    ensures var c := AfterCycle(k, credits).(stamp := CycleStamp(k + 1),
                                            processorTriggered := false, driverTriggered := false);
      SimulateProcessor(SimulateCounter(c)) == BeforeDriver(k, credits)
  {
    CycleStamps(k + 1);
    var c := AfterCycle(k, credits).(stamp := CycleStamp(k + 1),
                                    processorTriggered := false, driverTriggered := false);
    assert SimulateCounter(c) == c;
    if k == 0 {
      assert !EventValid(c.processorEvent, c.stamp);
    } else {
      assert EventValid(c.processorEvent, c.stamp);
      var t := CycleStamp(k + 1) + 50;
      var r := DataProcessorInstance(c);
      assert r.1;
      assert r.0.dataIn == Fifo(DataInAfter(k), [], [t]);
      assert r.0.enable == Fifo(EnableAfter(k), [], [t]);
      assert r.0.processedData == BeforeDriver(k, credits).processedData;
      assert SimulateProcessor(c) == r.0.(processorEvent := [], processorTriggered := true);
    }
  }

  /** What `Driver` of cycle `k + 1` finds: the processor's work of the cycle done. */
  function BeforeDriver(k: nat, credits: seq<nat>): Sim
  {
    var b := AfterBodies(k, credits);
    b.(cycleCnt := Array(k, []), testData := Array(TestDataAfter(k), []), processorEvent := [],
       driverTriggered := false, dataIn := b.dataIn.(pushes := []), enable := b.enable.(pushes := []))
  }

  /** `Driver` always has a credit, and stages and pushes from the values committed after
      cycle `k`. */
  lemma DriverStage(k: nat, credits: seq<nat>)
    requires k < 100 && |credits| > 0 && credits[0] == CycleStamp(k + 1)
    ensures SimulateDriver(BeforeDriver(k, credits)) == AfterBodies(k, credits[1..])
  {
    CycleStamps(k + 1);
    var b := BeforeDriver(k, credits);
    assert EventValid(b.driverEvent, b.stamp);
    var r := Driver(b);
    var a := AfterBodies(k, credits[1..]);
    assert r.0.dataIn == a.dataIn && r.0.enable == a.enable;
    assert r.0.cycleCnt == a.cycleCnt && r.0.testData == a.testData;
  }

  lemma Bodies(k: nat, credits: seq<nat>)
    requires k < 100 && |credits| > 0 && credits[0] == CycleStamp(k + 1)
    ensures Cycle(AfterCycle(k, credits), k + 1) == (AfterBodies(k, credits[1..]), true)
  {
    ProcessorStage(k, credits);
    DriverStage(k, credits);
  }

  /** The arithmetic of one cycle: `test_data` takes three times the old count, and
      `processed_data` changes only in even cycles. */
  lemma AfterStep(k: nat)
    ensures TestDataAfter(k + 1) == 3 * k
    ensures ProcessedAfter(k + 1) == (if k >= 1 && (k - 1) % 2 == 0
      then 2 * TestDataAfter(k - 1) else ProcessedAfter(k))
  {
  }

  lemma TickOfBodies(k: nat, credits: seq<nat>)
    ensures Tick(AfterBodies(k, credits)) == AfterCycle(k + 1, credits)
  {
    var t := CycleStamp(k + 1) + 50;
    AfterStep(k);
    if k >= 1 {
      TickFifoShift(TestDataAfter(k - 1), t, TestDataAfter(k), t);
      TickFifoShift((k - 1) % 2 == 0, t, k % 2 == 0, t);
    } else {
      TickFifoShift(0, t, 0, t);
      TickFifoShift(true, t, true, t);
    }
  }

  /** A cycle in which some module triggered resets `idle_count` and goes on to the tick and
      the next cycle. */
  lemma RunStep(s: Sim, i: nat, idle: nat, s': Sim)
    requires i <= MaxCycles && Cycle(s, i) == (s', true)
    ensures Run(s, i, idle) == Run(Tick(s'), i + 1, 0).(ticks := Run(Tick(s'), i + 1, 0).ticks + 1)
  {
  }

  /** Cycle `i` triggers `Driver`, resets `idle_count` and ticks into the state after it. */
  lemma Advance(i: nat, idle: nat, credits: seq<nat>)
    requires 1 <= i <= MaxCycles && |credits| > 0 && credits[0] == CycleStamp(i)
    ensures Run(AfterCycle(i - 1, credits), i, idle)
      == Run(AfterCycle(i, credits[1..]), i + 1, 0).(ticks := Run(AfterCycle(i, credits[1..]), i + 1, 0).ticks + 1)
  {
    var s' := AfterBodies(i - 1, credits[1..]);
    Bodies(i - 1, credits);
    RunStep(AfterCycle(i - 1, credits), i, idle, s');
    TickOfBodies(i - 1, credits[1..]);
  }

  /** Every cycle triggers `Driver`, so `idle_count` stays zero, the idle break never fires,
      and the loop runs to cycle 100, ticking once per cycle. */
  lemma {:induction false} RunFrom(i: nat, idle: nat, credits: seq<nat>)
    requires 1 <= i <= 101 && CreditsFrom(credits, i, 101 - i)
    decreases 101 - i
    ensures Run(AfterCycle(i - 1, credits), i, idle) == Outcome(AfterCycle(100, []), 101 - i, false)
  {
    if i <= MaxCycles {
      Advance(i, idle, credits);
      RunFrom(i + 1, 0, credits[1..]);
    } else {
      assert credits == [];
    }
  }

  /** `simulate()` runs all 100 cycles without the idle break. `CounterInstance` never runs,
      since nothing pushes a credit to it; at the end `cycle_cnt` is 100, `test_data` holds
      99 * 3, and `processed_data` holds twice the `test_data` that `Driver` pushed in cycle 99. */
  lemma SimulateOutcome()
    ensures Simulate().ticks == 100 && !Simulate().idleStop
    ensures var s := Simulate().state;
      && s.cnt.payload == 0 && s.counterEvent == [] && !s.counterTriggered
      && s.cycleCnt.payload == 100
      && s.testData.payload == 297
      && s.processedData.payload == 582
      && s.stamp == 10050
  {
    assert AfterCycle(0, DriverCredits) == Preloaded;
    RunFrom(1, 0, DriverCredits);
  }
}
