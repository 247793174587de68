/** The per-process L3 queue as a machine: one step for each stretch of code between two awaits. */
module QueueModel {

  datatype Option<T> = None | Some(value: T)

  /** What a chain belongs to: a key, or the clears. */
  datatype Slot = CLEAR | Key(name: string)

  /** An accepted push. `id` counts them in push order; a set carries a value, a delete none. */
  datatype Op = Op(id: nat, slot: Slot, val: Option<string>, bytes: nat)

  /** An operation and the pushes that settle with it. */
  datatype Item = Item(op: Op, covers: set<nat>)

  /** Where the run loop of a chain is waiting. `NotRunning` occurs only inside a step. */
  datatype Phase =
    | NotRunning
    | Gated(released: bool)
    | AtWire(released: bool)
    | Attempt(landed: bool)
    | Backoff

  datatype Chain = Chain(pending: Option<Item>, inflight: Option<Item>, phase: Phase)

  datatype Event = Sent(id: nat) | Settled(ids: set<nat>, ok: bool)

  /** The fields of the queue, then the L3 store, then what the proof keeps: the accepted pushes, the
      store they describe one after the other (`spec`), for each push the operation that settles or
      settled it (`boss`), the outcomes, the operations that reached L3, those that are queued or in
      flight (`out`), the chains that are on the wire, and what was sent and settled in which order. */
  datatype Queue = Queue(
    chains: map<Slot, Chain>, bytes: int, count: int, clears: int, gate: bool, onWire: int,
    closed: bool, drains: nat,
    store: map<string, string>,
    ops: seq<Op>, spec: map<string, string>, boss: seq<nat>, settled: map<nat, bool>, landed: set<nat>,
    out: set<nat>, wire: set<Slot>, failed: nat, log: seq<Event>)

  datatype Verdict = Success | Retry | Abandon

  datatype Step =
    | Push(slot: Slot, val: Option<string>, bytes: nat)
    | GateWake(slot: Slot)
    | WireWake
    | Lands(slot: Slot)
    | Settles(slot: Slot, verdict: Verdict)
    | BackoffWake(slot: Slot)
    | Drain
    | Close

  /** A new queue against an L3 store that holds whatever it holds. */
  function Start(store: map<string, string>): Queue {
    Queue(map[], 0, 0, 0, false, 0, false, 0, store, [], store, [], map[], {}, {}, {}, 0, [])
  }

  /** The effect of an operation on a store. */
  function Apply(store: map<string, string>, slot: Slot, val: Option<string>): map<string, string> {
    match slot
    case CLEAR => map[]
    case Key(k) => if val.Some? then store[k := val.value] else store - {k}
  }

  /** The bytes of the operations in ids. */
  function Bytes(ops: seq<Op>, ids: set<nat>): nat {
    if ops == [] then 0
    else Bytes(ops[..|ops| - 1], ids) + if |ops| - 1 in ids then ops[|ops| - 1].bytes else 0
  }

  // --------------------------------------------------------------------------- sending

  function Boss(boss: seq<nat>, covers: set<nat>, id: nat): (b: seq<nat>)
    ensures |b| == |boss|
  {
    seq(|boss|, i requires 0 <= i < |boss| => if i in covers then id else boss[i])
  }

  /** The operation goes on the wire. */
  function Send(s: Queue, slot: Slot): Queue
    requires slot in s.chains && s.chains[slot].inflight.Some?
  {
    s.(chains := s.chains[slot := s.chains[slot].(phase := Attempt(false))],
       onWire := s.onWire + 1, wire := s.wire + {slot},
       log := s.log + [Sent(s.chains[slot].inflight.value.op.id)])
  }

  /** The head of the run loop: end, wait at the gate, or claim what is pending. A clear then waits
      for the wire to be empty. */
  function Top(s: Queue, slot: Slot): Queue
    requires slot in s.chains
  {
    var c := s.chains[slot];
    if c.pending.None? then s.(chains := s.chains - {slot})
    else if slot != CLEAR && s.gate then s.(chains := s.chains[slot := c.(phase := Gated(false))])
    else
      var claimed := s.(chains := s.chains[slot := Chain(None, c.pending, AtWire(s.onWire == 0))]);
      if slot == CLEAR then claimed else Send(claimed, slot)
  }

  // --------------------------------------------------------------------------- pushing

  /** The push is accepted: `spec` says what it means. */
  function Accept(s: Queue, slot: Slot, val: Option<string>, bytes: nat): Queue {
    s.(ops := s.ops + [Op(|s.ops|, slot, val, bytes)], boss := s.boss + [|s.ops|], spec := Apply(s.spec, slot, val),
       bytes := s.bytes + bytes, count := s.count + 1, out := s.out + {|s.ops|})
  }

  function PendingOf(chains: map<Slot, Chain>, slot: Slot): Option<Item> {
    if slot in chains then chains[slot].pending else None
  }

  function CoversOf(p: Option<Item>): set<nat> {
    if p.Some? then p.value.covers else {}
  }

  function IdsOf(p: Option<Item>): set<nat> {
    if p.Some? then {p.value.op.id} else {}
  }

  /** The chain with a newer operation in its pending slot. */
  function Taking(chains: map<Slot, Chain>, slot: Slot, op: Op): Chain {
    var c := if slot in chains then chains[slot] else Chain(None, None, NotRunning);
    c.(pending := Some(Item(op, CoversOf(c.pending) + {op.id})))
  }

  /** The operation that was just accepted takes the pending slot of its chain. What was pending there
      is superseded: its pushes settle with the newer operation. */
  function Enqueue(s: Queue, slot: Slot): Queue
    requires |s.ops| > 0
  {
    var op, prev := s.ops[|s.ops| - 1], PendingOf(s.chains, slot);
    s.(chains := s.chains[slot := Taking(s.chains, slot, op)],
       bytes := s.bytes - (if prev.Some? then prev.value.op.bytes else 0), count := s.count - |IdsOf(prev)|,
       out := s.out - IdsOf(prev), boss := Boss(s.boss, CoversOf(prev), op.id))
  }

  // The operations of keys that are queued and not sent.
  function Unsent(chains: map<Slot, Chain>): set<Slot> {
    set k | k in chains && k != CLEAR && chains[k].pending.Some?
  }

  function UnsentIds(chains: map<Slot, Chain>): set<nat> {
    set k | k in Unsent(chains) :: chains[k].pending.value.op.id
  }

  function UnsentCovers(chains: map<Slot, Chain>): set<nat> {
    set k, i | k in Unsent(chains) && i in chains[k].pending.value.covers :: i
  }

  function Emptied(chains: map<Slot, Chain>): (r: map<Slot, Chain>)
    ensures r.Keys == chains.Keys
  {
    map k | k in chains :: if k in Unsent(chains) then chains[k].(pending := None) else chains[k]
  }

  /** A clear drops what is queued and not sent; those pushes settle with the clear. */
  function Sweep(s: Queue): Queue
    requires CLEAR in s.chains && s.chains[CLEAR].pending.Some?
  {
    var ids, covers := UnsentIds(s.chains), UnsentCovers(s.chains);
    var c := s.chains[CLEAR].pending.value;
    var chains := Emptied(s.chains);
    s.(chains := chains[CLEAR := chains[CLEAR].(pending := Some(Item(c.op, c.covers + covers)))],
       bytes := s.bytes - Bytes(s.ops, ids), count := s.count - |ids|, out := s.out - ids,
       boss := Boss(s.boss, covers, c.op.id))
  }

  function Arm(s: Queue): Queue {
    s.(clears := s.clears + 1, gate := true)
  }

  function Released(chains: map<Slot, Chain>): (r: map<Slot, Chain>)
    ensures r.Keys == chains.Keys
  {
    map k | k in chains :: if chains[k].phase.Gated? then chains[k].(phase := Gated(true)) else chains[k]
  }

  function Disarm(s: Queue): Queue {
    if s.clears - 1 > 0 then s.(clears := s.clears - 1)
    else s.(clears := s.clears - 1, gate := false, chains := Released(s.chains))
  }

  /** A clear arms the gate; one that replaces a clear not yet sent takes over its hold on it. */
  function Hold(s: Queue): Queue {
    if PendingOf(s.chains, CLEAR).Some? then Disarm(Arm(s)) else Arm(s)
  }

  /** Everything of a push but the start of the run loop. */
  function Queued(s: Queue, slot: Slot, val: Option<string>, bytes: nat): (q: Queue)
    ensures slot in q.chains
  {
    if slot != CLEAR then Enqueue(Accept(s, slot, val, bytes), slot)
    else Sweep(Enqueue(Accept(Hold(s), CLEAR, val, bytes), CLEAR))
  }

  // -------------------------------------------------------------------------- settling

  function WireFreed(chains: map<Slot, Chain>): map<Slot, Chain> {
    if CLEAR in chains && chains[CLEAR].phase.AtWire?
    then chains[CLEAR := chains[CLEAR].(phase := AtWire(true))] else chains
  }

  /** The operation in flight is over: it leaves the wire and the books, and the gate falls with the
      last clear. */
  function Leave(s: Queue, slot: Slot, it: Item): Queue
    requires slot in s.chains
  {
    var chains := s.chains[slot := s.chains[slot].(inflight := None, phase := NotRunning)];
    s.(onWire := s.onWire - 1, wire := s.wire - {slot},
       chains := if s.onWire - 1 == 0 then WireFreed(chains) else chains,
       bytes := s.bytes - it.op.bytes, count := s.count - 1, out := s.out - {it.op.id})
  }

  function Outcome(s: Queue, it: Item, ok: bool): Queue {
    s.(settled := s.settled + (map i | i in it.covers :: ok),
       log := s.log + [Settled(it.covers, ok)],
       failed := if ok then s.failed else s.failed + 1,
       drains := if s.count == 0 then 0 else s.drains)
  }

  function Finish(s: Queue, slot: Slot, ok: bool): (q: Queue)
    requires slot in s.chains && s.chains[slot].inflight.Some?
    ensures slot in q.chains
  {
    var it := s.chains[slot].inflight.value;
    var left := Leave(s, slot, it);
    Outcome(if slot == CLEAR then Disarm(left) else left, it, ok)
  }

  // ----------------------------------------------------------------------- the machine

  predicate Enabled(s: Queue, a: Step) {
    match a
    case Push(_, _, _) => true
    case GateWake(slot) => slot in s.chains && s.chains[slot].phase == Gated(true)
    case WireWake => CLEAR in s.chains && s.chains[CLEAR].phase == AtWire(true) && s.chains[CLEAR].inflight.Some?
    case Lands(slot) => slot in s.chains && s.chains[slot].phase == Attempt(false) && s.chains[slot].inflight.Some?
    case Settles(slot, v) =>
      slot in s.chains && s.chains[slot].phase.Attempt? && s.chains[slot].inflight.Some? &&
      match v {
        case Success => s.chains[slot].phase.landed
        case Retry => !s.closed
        case Abandon => true
      }
    case BackoffWake(slot) => slot in s.chains && s.chains[slot].phase == Backoff
    case Drain => true
    case Close => true
  }

  /** Is the push turned away because the queue is full? */
  predicate Sheds(s: Queue, slot: Slot, bytes: nat, maxBytes: nat) {
    slot != CLEAR && s.bytes + bytes > maxBytes
  }

  function Next(s: Queue, a: Step, maxBytes: nat): Queue
    requires Enabled(s, a)
  {
    match a
    case Push(slot, val, bytes) =>
      if Sheds(s, slot, bytes, maxBytes) then s
      else
        var q := Queued(s, slot, val, bytes);
        if slot in s.chains then q else Top(q, slot)
    case GateWake(slot) => Top(s, slot)
    case WireWake => Send(s, CLEAR)
    case Lands(slot) =>
      var op := s.chains[slot].inflight.value.op;
      s.(chains := s.chains[slot := s.chains[slot].(phase := Attempt(true))],
         store := Apply(s.store, slot, op.val), landed := s.landed + {op.id})
    case Settles(slot, v) =>
      if v == Retry then s.(chains := s.chains[slot := s.chains[slot].(phase := Backoff)])
      else Top(Finish(s, slot, v == Success), slot)
    case BackoffWake(slot) => s.(chains := s.chains[slot := s.chains[slot].(phase := Attempt(false))])
    case Drain => if s.count == 0 then s else s.(drains := s.drains + 1)
    case Close => s.(closed := true)
  }

  /** The step a leads from s to n. */
  predicate Steps(s: Queue, a: Step, n: Queue, maxBytes: nat) {
    Enabled(s, a) && n == Next(s, a, maxBytes)
  }
}
