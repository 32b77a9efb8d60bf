/** The queue of src/util/spsc_queue.hpp as two threads that take one atomic step at a time. */
module SpscSteps {
  // ---------- Indices and counters ----------

  /** The index computation both Push and Pop make. */
  function NextIdx(i: nat, size: nat): nat {
    if i + 1 == size then 0 else i + 1
  }

  /** The ring index of the k-th element ever pushed or popped. */
  function Idx(k: nat, size: nat): (i: nat)
    requires size > 0
    ensures i < size
  {
    if k == 0 then 0 else NextIdx(Idx(k - 1, size), size)
  }

  lemma {:induction false} IdxAhead(k: nat, d: nat, size: nat)
    requires 0 <= d < size
    ensures Idx(k + d, size) == if Idx(k, size) + d < size then Idx(k, size) + d else Idx(k, size) + d - size
    decreases d
  {
    if d > 0 {
      IdxAhead(k, d - 1, size);
    }
  }

  /** Fewer than size counters in a row have different indices. */
  lemma IdxDistinct(a: nat, b: nat, size: nat)
    requires a < b < a + size
    ensures Idx(a, size) != Idx(b, size)
  {
    IdxAhead(a, b - a, size);
  }

  lemma IdxPeriod(k: nat, size: nat)
    requires size > 0
    ensures Idx(k + size, size) == Idx(k, size)
  {
    IdxAhead(k, size - 1, size);
  }

  // ---------- State ----------

  /** A slot of raw memory, one that holds a constructed value, or one moved from and not yet destroyed. The stamp is the
      position of the release store that publishes the last access to the slot, in the order of the stores of the thread
      that made it; 0 stands for the start. */
  datatype Slot<T> = Raw(stamp: nat) | Live(value: T, stamp: nat) | Moved(stamp: nat)

  /** Where Push stands: between its statements, with its local variables. */
  datatype Producer<T> =
    | PIdle
    | PLoaded(value: T, idx: nat, next: nat)   // own index read, other index still to be read
    | PFree(value: T, idx: nat, next: nat)     // room was seen, nothing written yet
    | PBuilt(value: T, next: nat)              // value constructed, not yet published

  /** Where Pop stands. */
  datatype Consumer<T> =
    | CIdle
    | CLoaded(idx: nat)
    | CReady(idx: nat, next: nat)
    | CMoved(idx: nat, next: nat, value: T)
    | CDestroyed(next: nat, value: T)

  /** readIdxs and writeIdxs are the values ever stored to _read_idx and _write_idx, oldest first. An acquire load by the other
      thread returns any of them that is not older than the one it returned before; seenRead and seenWrite are the
      positions of those. pushed and popped log the values published by Push and by Pop. */
  datatype State<T> = State(
    size: nat,
    slots: seq<Slot<T>>,
    readIdxs: seq<nat>,
    writeIdxs: seq<nat>,
    producer: Producer<T>,
    consumer: Consumer<T>,
    seenRead: nat,
    seenWrite: nat,
    pushed: seq<T>,
    popped: seq<T>
  ) {
    /** The counters behind the two indices. */
    function R(): int { |readIdxs| - 1 }
    function W(): int { |writeIdxs| - 1 }
  }

  function Start<T>(size: nat): State<T> {
    State(size, seq(size, _ => Raw(0)), [0], [0], PIdle, CIdle, 0, 0, [], [])
  }

  // ---------- Steps ----------

  datatype Act<T> =
    | PushStart(value: T) | PushLoad(at: nat) | PushConstruct | PushPublish
    | PopStart | PopLoad(from: nat) | PopMove | PopDestroy | PopPublish

  ghost predicate Enabled<T>(s: State<T>, a: Act<T>) {
    && s.readIdxs != [] && s.writeIdxs != []
    && match a
       case PushStart(_) => s.producer.PIdle?
       case PushLoad(at) => s.producer.PLoaded? && s.seenRead <= at < |s.readIdxs|
       case PushConstruct => s.producer.PFree?
       case PushPublish => s.producer.PBuilt?
       case PopStart => s.consumer.CIdle?
       case PopLoad(from) => s.consumer.CLoaded? && s.seenWrite <= from < |s.writeIdxs|
       case PopMove => s.consumer.CReady?
       case PopDestroy => s.consumer.CMoved?
       case PopPublish => s.consumer.CDestroyed?
  }

  /** What the language demands of a step: construct in raw memory, move out of a constructed value, and only after
      the last access of the other thread to the slot has been acquired. */
  ghost predicate Legal<T>(s: State<T>, a: Act<T>) {
    match a
    case PushConstruct =>
      s.producer.PFree? ==>
        && s.producer.idx < |s.slots|
        && s.slots[s.producer.idx].Raw? && s.slots[s.producer.idx].stamp <= s.seenRead
    case PopMove =>
      s.consumer.CReady? ==>
        && s.consumer.idx < |s.slots|
        && s.slots[s.consumer.idx].Live? && s.slots[s.consumer.idx].stamp <= s.seenWrite
    case PopDestroy =>
      s.consumer.CMoved? ==> s.consumer.idx < |s.slots| && s.slots[s.consumer.idx].Moved?
    case _ => true
  }

  function Do<T>(s: State<T>, a: Act<T>): State<T>
    requires Enabled(s, a) && Legal(s, a)
  {
    match a
    case PushStart(value) =>
      var idx := s.writeIdxs[|s.writeIdxs| - 1];
      s.(producer := PLoaded(value, idx, NextIdx(idx, s.size)))
    case PushLoad(at) =>
      var p := s.producer;
      s.(seenRead := at, producer := if p.next == s.readIdxs[at] then PIdle else PFree(p.value, p.idx, p.next))
    case PushConstruct =>
      var p := s.producer;
      s.(slots := s.slots[p.idx := Live(p.value, |s.writeIdxs|)], producer := PBuilt(p.value, p.next))
    case PushPublish =>
      s.(writeIdxs := s.writeIdxs + [s.producer.next], pushed := s.pushed + [s.producer.value], producer := PIdle)
    case PopStart =>
      s.(consumer := CLoaded(s.readIdxs[|s.readIdxs| - 1]))
    case PopLoad(from) =>
      var idx := s.consumer.idx;
      s.(seenWrite := from, consumer := if idx == s.writeIdxs[from] then CIdle else CReady(idx, NextIdx(idx, s.size)))
    case PopMove =>
      var c := s.consumer;
      s.(slots := s.slots[c.idx := Moved(|s.readIdxs|)], consumer := CMoved(c.idx, c.next, s.slots[c.idx].value))
    case PopDestroy =>
      var c := s.consumer;
      s.(slots := s.slots[c.idx := Raw(|s.readIdxs|)], consumer := CDestroyed(c.next, c.value))
    case PopPublish =>
      s.(readIdxs := s.readIdxs + [s.consumer.next], popped := s.popped + [s.consumer.value], consumer := CIdle)
  }

  // ---------- The invariant ----------

  /** The consumer has touched the slot it is about to give back. */
  predicate Taking<T>(c: Consumer<T>) {
    c.CMoved? || c.CDestroyed?
  }

  ghost predicate Counters<T>(s: State<T>) {
    && s.size >= 2 && |s.slots| == s.size
    && s.readIdxs != [] && s.writeIdxs != []
    && (forall k :: 0 <= k < |s.readIdxs| ==> s.readIdxs[k] == Idx(k, s.size))
    && (forall k :: 0 <= k < |s.writeIdxs| ==> s.writeIdxs[k] == Idx(k, s.size))
    && s.seenRead <= s.R() <= s.seenWrite <= s.W() <= s.seenRead + s.size - 1
    && |s.pushed| == s.W() && s.popped == s.pushed[..s.R()]
  }

  ghost predicate Locals<T>(s: State<T>)
    requires Counters(s)
  {
    && (match s.producer
        case PIdle => true
        case PLoaded(_, idx, next) => idx == Idx(s.W(), s.size) && next == Idx(s.W() + 1, s.size)
        case PFree(_, idx, next) => idx == Idx(s.W(), s.size) && next == Idx(s.W() + 1, s.size) && s.W() < s.seenRead + s.size - 1
        case PBuilt(_, next) => next == Idx(s.W() + 1, s.size) && s.W() < s.seenRead + s.size - 1)
    && (match s.consumer
        case CIdle => true
        case CLoaded(idx) => idx == Idx(s.R(), s.size)
        case CReady(idx, next) => idx == Idx(s.R(), s.size) && next == Idx(s.R() + 1, s.size) && s.R() < s.seenWrite
        case CMoved(idx, next, value) =>
          idx == Idx(s.R(), s.size) && next == Idx(s.R() + 1, s.size) && s.R() < s.seenWrite && value == s.pushed[s.R()]
        case CDestroyed(next, value) => next == Idx(s.R() + 1, s.size) && s.R() < s.seenWrite && value == s.pushed[s.R()])
  }

  /** What the slot of counter k holds: a value from r up to w, raw memory from there to the next lap,
      each with the stamp of its last access, and in between what a step in progress has done. */
  ghost predicate SlotOk<T>(s: State<T>, k: nat)
    requires Counters(s) && s.R() <= k < s.R() + s.size
  {
    var slot := s.slots[Idx(k, s.size)];
    if k < s.W() then
      if k == s.R() && s.consumer.CMoved? then slot == Moved(k + 1)
      else if k == s.R() && s.consumer.CDestroyed? then slot == Raw(k + 1)
      else slot == Live(s.pushed[k], k + 1)
    else if k == s.W() && s.producer.PBuilt? then slot == Live(s.producer.value, k + 1)
    else slot == Raw(if k >= s.size then k - s.size + 1 else 0)
  }

  ghost predicate Inv<T>(s: State<T>) {
    && Counters(s)
    && Locals(s)
    && forall k: nat :: s.R() <= k < s.R() + s.size ==> SlotOk(s, k)
  }

  lemma StartInv<T>(size: nat)
    requires size >= 2
    ensures Inv(Start<T>(size))
  {
    var s := Start<T>(size);
    forall k | 0 <= k < size ensures SlotOk(s, k) {
    }
  }

  /** Every enabled step is legal: no slot is constructed twice, moved from when raw, or touched by both threads without
      an acquire of the other's last access in between. */
  lemma StepLegal<T>(s: State<T>, a: Act<T>)
    requires Inv(s) && Enabled(s, a)
    ensures Legal(s, a)
  {
    assert s.producer.PFree? ==> SlotOk(s, s.W());
    assert s.consumer.CReady? || s.consumer.CMoved? ==> SlotOk(s, s.R());
  }

  /** A step that changes only slot Idx(k) leaves the slots of the other counters alone. */
  lemma OtherSlot<T>(s: State<T>, t: State<T>, k: nat, j: nat)
    requires Counters(s) && |t.slots| == s.size
    requires s.R() <= k < s.R() + s.size && s.R() <= j < s.R() + s.size && j != k
    requires forall i :: 0 <= i < s.size && i != Idx(k, s.size) ==> t.slots[i] == s.slots[i]
    ensures t.slots[Idx(j, s.size)] == s.slots[Idx(j, s.size)]
  {
    if j < k { IdxDistinct(j, k, s.size); } else { IdxDistinct(k, j, s.size); }
  }

  lemma NextIdxs<T>(s: State<T>)
    requires Counters(s)
    ensures Idx(s.W() + 1, s.size) == NextIdx(Idx(s.W(), s.size), s.size)
    ensures Idx(s.R() + 1, s.size) == NextIdx(Idx(s.R(), s.size), s.size)
    ensures Idx(s.R() + s.size, s.size) == Idx(s.R(), s.size)
  {
    IdxPeriod(s.R(), s.size);
  }

  /** A step that touches no slot and publishes nothing keeps every slot as it should be. */
  lemma SameSlots<T>(s: State<T>, t: State<T>)
    requires Inv(s) && Counters(t)
    requires t.slots == s.slots && t.size == s.size && t.readIdxs == s.readIdxs && t.writeIdxs == s.writeIdxs && t.pushed == s.pushed
    requires s.producer.PBuilt? == t.producer.PBuilt? && (s.producer.PBuilt? ==> s.producer == t.producer)
    requires Taking(s.consumer) == Taking(t.consumer) && (Taking(s.consumer) ==> s.consumer == t.consumer)
    ensures forall k: nat :: t.R() <= k < t.R() + t.size ==> SlotOk(t, k)
  {
    forall k: nat | t.R() <= k < t.R() + t.size ensures SlotOk(t, k) {
      assert SlotOk(s, k);
    }
  }

  lemma PushStartInv<T>(s: State<T>, a: Act<T>)
    requires Inv(s) && Enabled(s, a) && a.PushStart?
    ensures Inv(Do(s, a))
  {
    NextIdxs(s);
    SameSlots(s, Do(s, a));
  }

  lemma PushLoadInv<T>(s: State<T>, a: Act<T>)
    requires Inv(s) && Enabled(s, a) && a.PushLoad?
    ensures Inv(Do(s, a))
  {
    if s.W() == a.at + s.size - 1 {
      IdxPeriod(a.at, s.size);
    }
    SameSlots(s, Do(s, a));
  }

  lemma PushConstructInv<T>(s: State<T>, a: Act<T>)
    requires Inv(s) && Enabled(s, a) && Legal(s, a) && a.PushConstruct?
    ensures Inv(Do(s, a))
  {
    var t := Do(s, a);
    forall k: nat | t.R() <= k < t.R() + t.size ensures SlotOk(t, k) {
      assert SlotOk(s, k);
      if k != s.W() { OtherSlot(s, t, s.W(), k); }
    }
  }

  lemma PushPublishCounters<T>(s: State<T>, a: Act<T>)
    requires Inv(s) && Enabled(s, a) && a.PushPublish?
    ensures Counters(Do(s, a)) && Locals(Do(s, a))
  {
    hide SlotOk, Idx;
    NextIdxs(s);
  }

  lemma PushPublishInv<T>(s: State<T>, a: Act<T>)
    requires Inv(s) && Enabled(s, a) && a.PushPublish?
    ensures Inv(Do(s, a))
  {
    hide Idx;
    var t := Do(s, a);
    PushPublishCounters(s, a);
    hide Counters, Locals;
    forall k: nat | t.R() <= k < t.R() + t.size ensures SlotOk(t, k) {
      assert SlotOk(s, k);
    }
  }

  lemma PopStartInv<T>(s: State<T>, a: Act<T>)
    requires Inv(s) && Enabled(s, a) && a.PopStart?
    ensures Inv(Do(s, a))
  {
    SameSlots(s, Do(s, a));
  }

  lemma PopLoadInv<T>(s: State<T>, a: Act<T>)
    requires Inv(s) && Enabled(s, a) && a.PopLoad?
    ensures Inv(Do(s, a))
  {
    NextIdxs(s);
    SameSlots(s, Do(s, a));
  }

  lemma PopMoveInv<T>(s: State<T>, a: Act<T>)
    requires Inv(s) && Enabled(s, a) && Legal(s, a) && a.PopMove?
    ensures Inv(Do(s, a))
  {
    var t := Do(s, a);
    assert SlotOk(s, s.R());
    forall k: nat | t.R() <= k < t.R() + t.size ensures SlotOk(t, k) {
      assert SlotOk(s, k);
      if k != s.R() { OtherSlot(s, t, s.R(), k); }
    }
  }

  lemma PopDestroyInv<T>(s: State<T>, a: Act<T>)
    requires Inv(s) && Enabled(s, a) && Legal(s, a) && a.PopDestroy?
    ensures Inv(Do(s, a))
  {
    var t := Do(s, a);
    forall k: nat | t.R() <= k < t.R() + t.size ensures SlotOk(t, k) {
      assert SlotOk(s, k);
      if k != s.R() { OtherSlot(s, t, s.R(), k); }
    }
  }

  lemma PopPublishCounters<T>(s: State<T>, a: Act<T>)
    requires Inv(s) && Enabled(s, a) && a.PopPublish?
    ensures Counters(Do(s, a)) && Locals(Do(s, a))
  {
    hide SlotOk, Idx;
    NextIdxs(s);
    var t := Do(s, a);
    assert s.popped + [s.pushed[s.R()]] == s.pushed[..s.R() + 1];
  }

  lemma PopPublishInv<T>(s: State<T>, a: Act<T>)
    requires Inv(s) && Enabled(s, a) && a.PopPublish?
    ensures Inv(Do(s, a))
  {
    var t := Do(s, a);
    PopPublishCounters(s, a);
    NextIdxs(s);
    hide Counters, Locals, Idx;
    assert SlotOk(s, s.R());
    forall k: nat | t.R() <= k < t.R() + t.size ensures SlotOk(t, k) {
      if k < s.R() + s.size { assert SlotOk(s, k); }
    }
  }

  lemma StepInv<T>(s: State<T>, a: Act<T>)
    requires Inv(s) && Enabled(s, a)
    ensures Legal(s, a) && Inv(Do(s, a))
  {
    hide Inv, Do;
    StepLegal(s, a);
    match a {
      case PushStart(_) => PushStartInv(s, a);
      case PushLoad(_) => PushLoadInv(s, a);
      case PushConstruct => PushConstructInv(s, a);
      case PushPublish => PushPublishInv(s, a);
      case PopStart => PopStartInv(s, a);
      case PopLoad(_) => PopLoadInv(s, a);
      case PopMove => PopMoveInv(s, a);
      case PopDestroy => PopDestroyInv(s, a);
      case PopPublish => PopPublishInv(s, a);
    }
  }

  // ---------- Every interleaving ----------

  /** A run of the two threads, their steps in any order. */
  ghost predicate IsRun<T>(states: seq<State<T>>, acts: seq<Act<T>>) {
    && |states| == |acts| + 1
    && states[0].size >= 2 && states[0] == Start(states[0].size)
    && (forall i :: 0 <= i < |acts| ==>
          Enabled(states[i], acts[i]) && (Legal(states[i], acts[i]) ==> states[i + 1] == Do(states[i], acts[i])))
  }

  /** In every interleaving, with loads of the other side's index as stale as they may be, every step is legal. */
  lemma {:induction false} RunSafe<T>(states: seq<State<T>>, acts: seq<Act<T>>, k: nat)
    requires IsRun(states, acts) && k <= |acts|
    ensures Inv(states[k])
    ensures forall i :: 0 <= i < k ==> Legal(states[i], acts[i])
    decreases k
  {
    if k == 0 {
      StartInv<T>(states[0].size);
    } else {
      RunSafe(states, acts, k - 1);
      StepInv(states[k - 1], acts[k - 1]);
      assert states[k - 1 + 1] == Do(states[k - 1], acts[k - 1]);
    }
  }

  /** The cells from index r up to index w, around the end; r == w stands for none. */
  function Window<X>(cells: seq<X>, r: nat, w: nat): seq<X>
    requires r < |cells| && w < |cells|
  {
    if r <= w then cells[r..w] else cells[r..] + cells[..w]
  }

  lemma WindowCounters<X>(cells: seq<X>, a: nat, b: nat)
    requires a <= b < a + |cells|
    ensures var win := Window(cells, Idx(a, |cells|), Idx(b, |cells|));
            |win| == b - a && forall i :: 0 <= i < b - a ==> win[i] == cells[Idx(a + i, |cells|)]
  {
    IdxAhead(a, b - a, |cells|);
    forall i | 0 <= i < b - a
      ensures var win := Window(cells, Idx(a, |cells|), Idx(b, |cells|)); i < |win| && win[i] == cells[Idx(a + i, |cells|)]
    {
      IdxAhead(a, i, |cells|);
    }
  }

  predicate AllLive<T>(slots: seq<Slot<T>>) {
    forall i :: 0 <= i < |slots| ==> slots[i].Live?
  }

  /** The values of constructed slots, in order. */
  function Values<T>(slots: seq<Slot<T>>): (r: seq<T>)
    requires AllLive(slots)
    ensures |r| == |slots|
  {
    seq(|slots|, i requires 0 <= i < |slots| => slots[i].value)
  }

  /** The value Pop has moved out and not yet published. */
  function InHand<T>(c: Consumer<T>): seq<T> {
    if Taking(c) then [c.value] else []
  }

  /** First in, first out, nothing lost, nothing twice: at every moment what was pushed is what was popped, then the value
      Pop has in hand, then what the slots hold from the read index, or past the slot in hand, to the write index. */
  lemma Fifo<T>(s: State<T>)
    requires Inv(s)
    ensures var r, w := s.readIdxs[s.R()], s.writeIdxs[s.W()];
            var win := Window(s.slots, if Taking(s.consumer) then NextIdx(r, s.size) else r, w);
            && AllLive(win)
            && s.pushed == s.popped + InHand(s.consumer) + Values(win)
  {
    var from := if Taking(s.consumer) then s.R() + 1 else s.R();
    NextIdxs(s);
    WindowCounters(s.slots, from, s.W());
    var win := Window(s.slots, Idx(from, s.size), Idx(s.W(), s.size));
    forall i | 0 <= i < |win| ensures win[i] == Live(s.pushed[from + i], from + i + 1) {
      assert SlotOk(s, from + i);
    }
    hide SlotOk, Window, Locals;
    assert Values(win) == s.pushed[from..];
    PushedSplit(s);
  }

  lemma PushedSplit<T>(s: State<T>)
    requires Inv(s)
    ensures var from := if Taking(s.consumer) then s.R() + 1 else s.R();
            s.pushed == s.popped + InHand(s.consumer) + s.pushed[from..]
  {
    hide SlotOk, Idx;
    if Taking(s.consumer) {
      assert s.pushed == s.pushed[..s.R()] + [s.pushed[s.R()]] + s.pushed[s.R() + 1..];
    } else {
      assert s.pushed == s.pushed[..s.R()] + s.pushed[s.R()..];
    }
  }

  /** The same over every interleaving of the two threads from the empty queue. */
  lemma EveryInterleavingIsFifo<T>(states: seq<State<T>>, acts: seq<Act<T>>, k: nat)
    requires IsRun(states, acts) && k <= |acts|
    ensures var s := states[k];
            && Inv(s)
            && s.popped <= s.pushed && |s.pushed| - |s.popped| <= s.size - 1
            && var r, w := s.readIdxs[s.R()], s.writeIdxs[s.W()];
               var win := Window(s.slots, if Taking(s.consumer) then NextIdx(r, s.size) else r, w);
               AllLive(win) && s.pushed == s.popped + InHand(s.consumer) + Values(win)
  {
    RunSafe(states, acts, k);
    Fifo(states[k]);
  }

  /** The counter in [r, r + size) behind a slot. */
  lemma CounterOf<T>(s: State<T>, i: nat) returns (k: nat)
    requires Counters(s) && i < s.size
    ensures s.R() <= k < s.R() + s.size && Idx(k, s.size) == i
  {
    var r := Idx(s.R(), s.size);
    var d := if i >= r then i - r else s.size + i - r;
    k := s.R() + d;
    IdxAhead(s.R(), d, s.size);
  }

  /** A slot holds a constructed value exactly when its counter lies between the one being popped and the one being pushed;
      that makes at most size - 1 values, and the two threads work on different slots. */
  lemma Occupancy<T>(s: State<T>, i: nat)
    requires Inv(s) && i < s.size
    ensures var from := if Taking(s.consumer) then s.R() + 1 else s.R();
            var upTo := if s.producer.PBuilt? then s.W() + 1 else s.W();
            && (s.slots[i].Live? <==> exists k: nat :: from <= k < upTo && Idx(k, s.size) == i)
            && upTo - s.R() <= s.size - 1
    ensures s.producer.PFree? && (s.consumer.CReady? || s.consumer.CMoved?) ==> s.producer.idx != s.consumer.idx
  {
    var from := if Taking(s.consumer) then s.R() + 1 else s.R();
    var upTo := if s.producer.PBuilt? then s.W() + 1 else s.W();
    var c := CounterOf(s, i);
    assert SlotOk(s, c);
    forall k: nat | from <= k < upTo && Idx(k, s.size) == i ensures k == c {
      if k < c { IdxDistinct(k, c, s.size); }
      if c < k { IdxDistinct(c, k, s.size); }
    }
    if s.producer.PFree? && (s.consumer.CReady? || s.consumer.CMoved?) {
      IdxDistinct(s.R(), s.W(), s.size);
    }
  }

  // ---------- When a call fails ----------

  /** Push gives up exactly when the queue was full as of the read index it saw. */
  lemma PushFailsIff<T>(s: State<T>, at: nat)
    requires Inv(s) && Enabled(s, PushLoad(at))
    ensures Do(s, PushLoad(at)).producer.PIdle? <==> s.W() - at == s.size - 1
  {
    if s.W() - at == s.size - 1 {
      IdxPeriod(at, s.size);
    } else {
      IdxDistinct(at, s.W() + 1, s.size);
    }
  }

  /** Pop gives up exactly when the queue was empty as of the write index it saw. */
  lemma PopFailsIff<T>(s: State<T>, from: nat)
    requires Inv(s) && Enabled(s, PopLoad(from))
    ensures Do(s, PopLoad(from)).consumer.CIdle? <==> from == s.R()
  {
    if from > s.R() {
      IdxDistinct(s.R(), from, s.size);
    }
  }

  /** Empty and Full, called by either thread while the other is inside a call: of its own index a thread loads the present
      value, of the other one not older than it has seen. The answer is exact as of the values loaded. */
  lemma EmptyFullAsLoaded<T>(s: State<T>, from: nat, at: nat)
    requires Inv(s) && s.seenWrite <= from <= s.W() && s.seenRead <= at <= s.R()
    ensures s.writeIdxs[from] == s.readIdxs[at] <==> from == at
    ensures NextIdx(s.writeIdxs[from], s.size) == s.readIdxs[at] <==> from - at == s.size - 1
    ensures from == s.W() && from == at ==> s.pushed == s.popped
  {
    if at < from {
      IdxDistinct(at, from, s.size);
    }
    assert Idx(from + 1, s.size) == NextIdx(Idx(from, s.size), s.size);
    if from - at == s.size - 1 {
      IdxPeriod(at, s.size);
    } else {
      IdxDistinct(at, from + 1, s.size);
    }
  }
}
