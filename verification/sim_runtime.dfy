/** The pieces of the simulator runtime that the generated cycle simulators use: stamps, credit
    queues, register arrays whose writes are staged, FIFOs whose pushes and pops are staged, and
    the idle threshold of the step loop.

    The runtime crate itself is not part of this model. Its `tick` is modelled as committing
    every write, pop and push staged since the previous tick, in staging order, pops before
    pushes; the generated code stamps every one of them with the stamp of the tick that
    follows, which the contracts of the bodies state. Every array of the generated simulators
    has a single entry, written at index 0, so an array is its one payload. */
module SimRuntime {
  import opened Wrappers

  /** The number of cycles `simulate()` runs at most, and the idle threshold it stops at. */
  const MaxCycles: nat := 100
  const IdleThreshold: nat := 100

  /** Cycle `i` runs its bodies at stamp `100 * i`. */
  function CycleStamp(i: nat): nat
  {
    i * 100
  }

  /** `stamp - stamp % 100 + 50`: the tick of the cycle `stamp` lies in. */
  function TickStamp(stamp: nat): nat
  {
    stamp - stamp % 100 + 50
  }

  /** `stamp - stamp % 100 + 100`: the start of the next cycle. */
  function NextCycleStamp(stamp: nat): nat
  {
    stamp - stamp % 100 + 100
  }

  /** Staged from inside cycle `i`, a value commits at that cycle's own tick, and a credit lands
      on the next cycle; the tick lies strictly between the two. */
  lemma CycleStamps(i: nat)
    ensures TickStamp(CycleStamp(i)) == CycleStamp(i) + 50
    ensures NextCycleStamp(CycleStamp(i)) == CycleStamp(i + 1)
    ensures CycleStamp(i) < TickStamp(CycleStamp(i)) < CycleStamp(i + 1)
  {
  }

  /** `event_valid`: the front credit of a module's queue has arrived. */
  predicate EventValid(event: seq<nat>, stamp: nat)
  {
    |event| > 0 && event[0] <= stamp
  }

  /** An empty queue is never valid, and a credit that has arrived stays valid at every later
      stamp until it is consumed. */
  lemma EventValidRule(event: seq<nat>, stamp: nat, later: nat)
    ensures |event| == 0 ==> !EventValid(event, stamp)
    ensures EventValid(event, stamp) && stamp <= later ==> EventValid(event, later)
  {
  }

  /** The credit bookkeeping of a `simulate_X` wrapper: when the queue is valid and the body
      succeeded the front credit is popped, and otherwise the queue is left as it was. What
      is left is a suffix of the queue, one credit shorter exactly when a credit was used, and
      the credit used is one that had arrived. */
  function Consume(event: seq<nat>, stamp: nat, succeeded: bool): (rest: seq<nat>)
    ensures |rest| == (if EventValid(event, stamp) && succeeded then |event| - 1 else |event|)
    ensures rest == event[|event| - |rest|..]
    ensures |rest| < |event| ==> succeeded && event[0] <= stamp
    ensures !(EventValid(event, stamp) && succeeded) ==> rest == event
  {
    if EventValid(event, stamp) && succeeded then event[1..] else event
  }

  /** A value staged with the stamp at which it commits. */
  datatype Staged<T> = Staged(stamp: nat, value: T)

  /** The values of staged entries, in staging order. */
  function Values<T>(xs: seq<Staged<T>>): (vs: seq<T>)
    ensures |vs| == |xs|
  {
    if |xs| == 0 then [] else [xs[0].value] + Values(xs[1..])
  }

  /** Staging one more entry adds its value at the end. */
  lemma {:induction false} ValuesAppend<T>(xs: seq<Staged<T>>, x: Staged<T>)
    ensures Values(xs + [x]) == Values(xs) + [x.value]
  {
    if |xs| == 0 {
      assert (xs + [x])[1..] == [];
    } else {
      assert (xs + [x])[1..] == xs[1..] + [x];
      ValuesAppend(xs[1..], x);
    }
  }

  /** Every staged entry carries the stamp `t`. */
  predicate AllAt<T>(xs: seq<Staged<T>>, t: nat)
  {
    forall k :: 0 <= k < |xs| ==> xs[k].stamp == t
  }

  /** An `Array<T>` of one entry: its committed payload and the writes staged to it. */
  datatype Array<T> = Array(payload: T, staged: seq<Staged<T>>)

  /** `write(0, ArrayWrite::new(stamp, 0, value, ..))`: reads before the tick still see the
      old payload, and after the tick the value written last is the payload, whatever was
      staged before it. */
  function Write<T>(a: Array<T>, stamp: nat, value: T): (r: Array<T>)
    ensures r.payload == a.payload
    ensures TickArray(r) == Array(value, [])
    ensures r.staged == a.staged + [Staged(stamp, value)]
    ensures Values(r.staged) == Values(a.staged) + [value]
  {
    ValuesAppend(a.staged, Staged(stamp, value));
    a.(staged := a.staged + [Staged(stamp, value)])
  }

  /** `tick` of an array: every write staged since the previous tick commits, and the last
      one wins. */
  function TickArray<T>(a: Array<T>): (r: Array<T>)
    ensures r.staged == []
  {
    Array(if |a.staged| == 0 then a.payload else a.staged[|a.staged| - 1].value, [])
  }

  /** A tick with nothing staged keeps the payload; otherwise the value written last is the
      new payload, whatever was written before it, and reads before the tick still see the old
      payload. */
  lemma TickArrayRule<T>(a: Array<T>, stamp: nat, v: T)
    ensures TickArray(a.(staged := [])) == a.(staged := [])
    ensures TickArray(Write(a, stamp, v)).payload == v
    ensures Write(a, stamp, v).payload == a.payload
  {
  }

  /** A `FIFO<T>`: its committed contents, front first, and the pushes and pops staged to it. */
  datatype Fifo<T> = Fifo(payload: seq<T>, pushes: seq<Staged<T>>, pops: seq<nat>)

  /** `push.push(FIFOPush::new(stamp, value, ..))`: the contents are unchanged until the tick,
      and after it the value is at the back, behind everything the FIFO would have held
      without it. */
  function Push<T>(f: Fifo<T>, stamp: nat, value: T): (r: Fifo<T>)
    ensures r.payload == f.payload && r.pops == f.pops
    ensures r.pushes == f.pushes + [Staged(stamp, value)]
    ensures TickFifo(r).payload == TickFifo(f).payload + [value]
  {
    ValuesAppend(f.pushes, Staged(stamp, value));
    f.(pushes := f.pushes + [Staged(stamp, value)])
  }

  /** `pop.push(FIFOPop::new(stamp, ..))`: the contents are unchanged until the tick, and after
      it one more element has left the front, as long as there was one to leave. */
  function Pop<T>(f: Fifo<T>, stamp: nat): (r: Fifo<T>)
    ensures r.payload == f.payload && r.pushes == f.pushes
    ensures r.pops == f.pops + [stamp]
    ensures |f.pops| < |f.payload| ==> TickFifo(r).payload == TickFifo(f).payload[1..]
  {
    f.(pops := f.pops + [stamp])
  }

  /** `tick` of a FIFO: one element leaves the front per staged pop, then the staged pushes
      join the back in staging order. */
  function TickFifo<T>(f: Fifo<T>): (r: Fifo<T>)
    ensures r.pushes == [] && r.pops == []
  {
    var kept := if |f.pops| <= |f.payload| then f.payload[|f.pops|..] else [];
    Fifo(kept + Values(f.pushes), [], [])
  }

  /** The FIFO is first in, first out: what was in it before the tick stays ahead of what was
      pushed, and as many elements leave the front as pops were staged. */
  lemma TickFifoRule<T>(f: Fifo<T>)
    requires |f.pops| <= |f.payload|
    ensures TickFifo(f).payload[..|f.payload| - |f.pops|] == f.payload[|f.pops|..]
    ensures TickFifo(f).payload[|f.payload| - |f.pops|..] == Values(f.pushes)
    ensures |TickFifo(f).payload| == |f.payload| - |f.pops| + |f.pushes|
  {
  }

  /** The ticks of the generated simulators: one pop and one push shift a one-element FIFO,
      and one push fills an empty one. */
  lemma TickFifoShift<T>(x: T, stamp: nat, y: T, popStamp: nat)
    ensures TickFifo(Fifo([x], [Staged(stamp, y)], [popStamp])) == Fifo([y], [], [])
    ensures TickFifo(Fifo([], [Staged(stamp, y)], [])) == Fifo([y], [], [])
  {
    assert [Staged(stamp, y)][1..] == [];
  }

  /** `x as u32`: the generated code stores into `u32` arrays and adds in `u32`; values are
      reduced modulo 2^32. */
  function U32(x: nat): (r: nat)
    ensures r < 0x1_0000_0000
    ensures x < 0x1_0000_0000 ==> r == x
  {
    x % 0x1_0000_0000
  }

  /** The idle bookkeeping at the end of a cycle's bodies: `None` when the loop breaks, else the
      new `idle_count`. */
  function IdleStep(idle: nat, anyTriggered: bool): (next: Option<nat>)
  {
    if anyTriggered then Some(0)
    else if idle + 1 >= IdleThreshold then None
    else Some(idle + 1)
  }

  /** A triggered cycle resets the count and never breaks; an idle cycle counts one more and
      breaks exactly when that reaches the threshold. */
  lemma IdleStepRule(idle: nat, anyTriggered: bool)
    ensures IdleStep(idle, anyTriggered).None? <==> !anyTriggered && idle + 1 >= 100
    ensures IdleStep(idle, anyTriggered).Some? ==>
      IdleStep(idle, anyTriggered).value == (if anyTriggered then 0 else idle + 1)
  {
  }

  /** How a run of the step loop ends: the simulator state, the number of ticks it made and
      whether the idle threshold stopped it. */
  datatype Outcome<S> = Outcome(state: S, ticks: nat, idleStop: bool)
}
