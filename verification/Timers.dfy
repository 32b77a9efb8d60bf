/** The timer unit of src/units/timer_unit.cpp over the heap and the pool. Timer objects are known by identity;
    their fields live in a store. */
module Timers {
  import opened Common
  import opened HeapOrder
  import opened ObjectMaps
  import opened Heaps
  import opened ObjectPools

  /** The fields of one Timer object. Callbacks are numbered in the order of the CreateTimer calls that brought them. */
  datatype Timer = Timer(time: int, callback: Option<nat>)

  /** What the heap holds for a queued timer: the object, and the fields it had when it was queued.
      The invariant below shows that the object still has those fields, so comparing entries is comparing objects. */
  datatype Entry = Entry(timer: nat, time: int, callback: nat)

  predicate Sooner(a: Entry, b: Entry) { a.time < b.time }

  lemma SoonerIsStrictWeakOrder()
    ensures StrictWeakOrder(Sooner)
  {
  }

  function TimerOf(node: HeapNode<Entry>): nat { node.value.timer }

  function CallbackOf(node: HeapNode<Entry>): nat { node.value.callback }

  /** calling holds the timers popped and not yet returned, innermost call last: callbacks may use the unit.
      taken logs the objects the pool has handed out and not got back. */
  datatype World = World(
    alloc: nat,
    heap: HeapState<Entry>,
    pool: Pool,
    timers: map<nat, Timer>,
    taken: set<nat>,
    calling: seq<nat>,
    created: nat,
    fired: seq<nat>,
    cancelled: seq<nat>
  )

  // ---------- Steps ----------

  /** CreateTimer with the deadline already computed. */
  ghost function Create(w: World, deadline: int): (r: (nat, World))
    requires w.pool.free != [] && w.heap.ids.free != []
  {
    var (obj, pool) := w.pool.Get();
    (w.heap.ids.NextId(),
     w.(pool := pool,
        taken := w.taken + {obj},
        timers := w.timers[obj := Timer(deadline, Some(w.created))],
        heap := w.heap.Emplace(Sooner, w.alloc, Entry(obj, deadline, w.created)),
        created := w.created + 1))
  }

  /** Update or CallTimer up to and including the start of the callback of the timer at pos. */
  ghost function BeginCall(w: World, pos: nat): World
    requires pos < |w.heap.nodes| && Queued(w, w.heap.nodes[pos].value)
  {
    var e := w.heap.nodes[pos].value;
    w.(heap := w.heap.Pop(Sooner, pos), calling := w.calling + [e.timer], fired := w.fired + [w.timers[e.timer].callback.value])
  }

  /** _RemoveTimer: Stop, then back to the pool. */
  function Release(w: World, timer: nat): World
    requires timer in w.timers && w.pool.taken > 0
  {
    w.(timers := w.timers[timer := w.timers[timer].(callback := None)], pool := w.pool.Put(timer), taken := w.taken - {timer})
  }

  /** Update or CallTimer after the innermost callback has returned. */
  function EndCall(w: World): World
    requires w.calling != [] && w.calling[|w.calling| - 1] in w.timers && w.pool.taken > 0
  {
    Release(w, w.calling[|w.calling| - 1]).(calling := w.calling[..|w.calling| - 1])
  }

  /** RemoveTimer of the timer at pos. */
  ghost function Cancel(w: World, pos: nat): World
    requires pos < |w.heap.nodes| && Queued(w, w.heap.nodes[pos].value) && w.pool.taken > 0
  {
    var e := w.heap.nodes[pos].value;
    Release(w.(heap := w.heap.Pop(Sooner, pos), cancelled := w.cancelled + [w.timers[e.timer].callback.value]), e.timer)
  }

  // ---------- The invariant of every run ----------

  /** The object behind an entry has the fields the entry was queued with. */
  ghost predicate Queued(w: World, e: Entry) {
    e.timer in w.timers && w.timers[e.timer] == Timer(e.time, Some(e.callback))
  }

  /** Objects in the heap or being called: the ones the pool has handed out. */
  ghost predicate Taken(w: World, o: nat) {
    HasBy(TimerOf, w.heap.nodes, o) || o in w.calling
  }

  /** Timer objects queued, being called and free are pairwise disjoint, each is in one place only,
      and the objects of queued timers are unchanged. */
  ghost predicate ObjectsApart(w: World) {
    && w.pool.Consistent(w.taken)
    && (forall o :: o in w.taken <==> Taken(w, o))
    && DistinctBy(TimerOf, w.heap.nodes)
    && Distinct(w.calling)
    && (forall o :: o in w.calling ==> o in w.timers && !HasBy(TimerOf, w.heap.nodes, o))
    && (forall n :: n in w.heap.nodes ==> Queued(w, n.value))
  }

  /** Every callback ever created is pending, called or cancelled: exactly one of the three, and once. */
  ghost predicate OneFate(w: World) {
    && DistinctBy(CallbackOf, w.heap.nodes)
    && Distinct(w.fired + w.cancelled)
    && (forall c :: c in w.fired + w.cancelled ==> !HasBy(CallbackOf, w.heap.nodes, c))
    && (forall c: nat :: HasBy(CallbackOf, w.heap.nodes, c) || c in w.fired + w.cancelled <==> c < w.created)
  }

  ghost predicate Safe(w: World) {
    && w.alloc > 0
    && w.heap.Agree()
    && ObjectsApart(w)
    && OneFate(w)
  }

  lemma SafeParts(w: World)
    requires Safe(w)
    ensures w.alloc > 0 && w.heap.Agree() && ObjectsApart(w) && OneFate(w)
    ensures w.pool.free != [] && w.heap.ids.free != []
  {
  }

  lemma NodeTaken(w: World, n: HeapNode<Entry>)
    requires n in w.heap.nodes
    ensures HasBy(TimerOf, w.heap.nodes, n.value.timer)
  {
    var i :| 0 <= i < |w.heap.nodes| && w.heap.nodes[i] == n;
    assert TimerOf(w.heap.nodes[i]) == n.value.timer;
  }

  lemma CreateApart(w: World, deadline: int)
    requires Safe(w)
    ensures ObjectsApart(Create(w, deadline).1)
  {
    hide Safe, HeapState.Agree, OneFate, Pool.Get, Pool.Consistent, Push, DistinctBy;
    SafeParts(w);
    var obj := w.pool.Get().0;
    var node := HeapNode(w.heap.ids.NextId(), Entry(obj, deadline, w.created));
    var u := Create(w, deadline).1;
    GetConsistent(w.pool, w.taken);
    assert !Taken(w, obj);
    PushBy(TimerOf, Sooner, w.heap.nodes, node);
    PushMembers(Sooner, w.heap.nodes, node);
    forall n | n in u.heap.nodes ensures Queued(u, n.value) {
      if n != node {
        NodeTaken(w, n);
        assert n.value.timer != obj;
      }
    }
  }

  lemma CreateFate(w: World, deadline: int)
    requires Safe(w)
    ensures OneFate(Create(w, deadline).1)
  {
    var node := HeapNode(w.heap.ids.NextId(), Entry(w.pool.Get().0, deadline, w.created));
    PushBy(CallbackOf, Sooner, w.heap.nodes, node);
  }

  lemma CreateSafe(w: World, deadline: int)
    requires Safe(w)
    ensures Safe(Create(w, deadline).1)
  {
    EmplaceAgrees(w.heap, Sooner, w.alloc, Entry(w.pool.Get().0, deadline, w.created));
    CreateApart(w, deadline);
    CreateFate(w, deadline);
  }

  /** The world after the timer at pos has left the heap and settled its fate, its object still taken. */
  lemma PopFate(w: World, u: World, pos: nat)
    requires pos < |w.heap.nodes| && OneFate(w)
    requires u.created == w.created && u.heap == w.heap.Pop(Sooner, pos)
    requires var c := w.heap.nodes[pos].value.callback;
             || (u.fired == w.fired + [c] && u.cancelled == w.cancelled)
             || (u.fired == w.fired && u.cancelled == w.cancelled + [c])
    ensures OneFate(u)
  {
    var c := w.heap.nodes[pos].value.callback;
    PopBy(CallbackOf, Sooner, w.heap.nodes, pos);
    assert CallbackOf(w.heap.nodes[pos]) == c && HasBy(CallbackOf, w.heap.nodes, c);
    var done, all := w.fired + w.cancelled, u.fired + u.cancelled;
    if u.cancelled == w.cancelled {
      assert all == w.fired + [c] + w.cancelled;
      forall i, j | 0 <= i < j < |all| ensures all[i] != all[j] {
        assert i < |w.fired| ==> all[i] == done[i];
        assert i > |w.fired| ==> all[i] == done[i - 1];
        assert j < |w.fired| ==> all[j] == done[j];
        assert j > |w.fired| ==> all[j] == done[j - 1];
      }
    } else {
      assert all == done + [c];
    }
    forall x ensures x in all <==> x in done || x == c {
    }
  }

  lemma BeginCallApart(w: World, pos: nat)
    requires Safe(w) && pos < |w.heap.nodes|
    ensures Queued(w, w.heap.nodes[pos].value)
    ensures ObjectsApart(BeginCall(w, pos))
  {
    hide HeapState.Agree, OneFate, Pool.Consistent;
    var node := w.heap.nodes[pos];
    assert node in w.heap.nodes;
    var u := BeginCall(w, pos);
    PopBy(TimerOf, Sooner, w.heap.nodes, pos);
    PopMembers(Sooner, w.heap.nodes, pos);
    assert TimerOf(node) == node.value.timer && HasBy(TimerOf, w.heap.nodes, node.value.timer);
    AppendDistinct(w.calling, node.value.timer);
    forall o ensures o in u.calling <==> o in w.calling || o == node.value.timer {
    }
  }

  lemma BeginCallSafe(w: World, pos: nat)
    requires Safe(w) && pos < |w.heap.nodes|
    ensures Queued(w, w.heap.nodes[pos].value)
    ensures Safe(BeginCall(w, pos))
  {
    BeginCallApart(w, pos);
    PopAgrees(w.heap, Sooner, pos);
    PopFate(w, BeginCall(w, pos), pos);
  }

  lemma EndCallSafe(w: World)
    requires Safe(w) && w.calling != []
    ensures w.pool.taken > 0 && w.calling[|w.calling| - 1] in w.timers
    ensures Safe(EndCall(w))
  {
    var o := w.calling[|w.calling| - 1];
    assert o in w.calling && Taken(w, o);
    PutConsistent(w.pool, w.taken, o);
    var u := EndCall(w);
    assert w.calling == u.calling + [o];
    forall n | n in u.heap.nodes ensures Queued(u, n.value) {
      NodeTaken(w, n);
    }
  }

  /** RemoveTimer moves objects as a call and its end do. */
  lemma CancelMoves(w: World, pos: nat)
    requires pos < |w.heap.nodes| && Queued(w, w.heap.nodes[pos].value) && w.pool.taken > 0
    ensures var u, v := BeginCall(w, pos), Cancel(w, pos);
            u.calling != [] && u.calling[|u.calling| - 1] == w.heap.nodes[pos].value.timer &&
            EndCall(u) == v.(fired := u.fired, cancelled := w.cancelled)
  {
    var u := BeginCall(w, pos);
    assert u.calling[..|u.calling| - 1] == w.calling;
  }

  lemma CancelSafe(w: World, pos: nat)
    requires Safe(w) && pos < |w.heap.nodes|
    ensures w.pool.taken > 0 && Queued(w, w.heap.nodes[pos].value)
    ensures Safe(Cancel(w, pos))
  {
    BeginCallSafe(w, pos);
    var u := BeginCall(w, pos);
    EndCallSafe(u);
    CancelMoves(w, pos);
    var v := Cancel(w, pos);
    PopFate(w, v, pos);
    ApartSame(EndCall(u), v);
  }

  lemma ApartSame(u: World, v: World)
    requires ObjectsApart(u) && v == u.(fired := v.fired, cancelled := v.cancelled)
    ensures ObjectsApart(v)
  {
  }

  // ---------- Runs ----------

  ghost function FreshWorld(poolAlloc: nat, heapAlloc: nat): World {
    World(heapAlloc, HeapState([], FreshTable(heapAlloc)), FreshPool(poolAlloc), map[], {}, [], 0, [], [])
  }

  lemma FreshWorldSafe(poolAlloc: nat, heapAlloc: nat)
    requires poolAlloc > 0 && heapAlloc > 0
    ensures Safe(FreshWorld(poolAlloc, heapAlloc))
  {
    FreshPoolConsistent(poolAlloc);
    FreshTableWellFormed<nat>(heapAlloc);
  }

  /** What can happen between two suspension points: a call of CreateTimer, RemoveTimer or CallTimer, a turn of the loop of
      Update, or the return of the innermost callback. Any order of these is a run, so callbacks may re-enter the unit. */
  datatype Action = ACreate(deadline: int) | AFire(now: int) | ACall(id: nat) | AReturn | ARemove(id: nat)

  /** The guard of the loop of Update. */
  ghost predicate TopIsDue(w: World, now: int) {
    && w.heap.nodes != []
    && w.heap.nodes[0].value.timer in w.timers
    && w.timers[w.heap.nodes[0].value.timer].time <= now
  }

  ghost function Step(w: World, a: Action): (u: World)
    requires Safe(w)
    ensures Safe(u)
  {
    match a
    case ACreate(deadline) =>
      CreateSafe(w, deadline); Create(w, deadline).1
    case AFire(now) =>
      if TopIsDue(w, now) then BeginCallSafe(w, 0); BeginCall(w, 0) else w
    case ACall(id) =>
      if HasKey(w.heap.nodes, id) then
        var pos := PosOf(w.heap.nodes, id); BeginCallSafe(w, pos); BeginCall(w, pos)
      else w
    case AReturn =>
      if w.calling != [] then EndCallSafe(w); EndCall(w) else w
    case ARemove(id) =>
      if HasKey(w.heap.nodes, id) then
        var pos := PosOf(w.heap.nodes, id); CancelSafe(w, pos); Cancel(w, pos)
      else w
  }

  /** Every world a run reaches from a safe one is safe: objects apart, one fate each, table and heap in agreement. */
  ghost function RunWorld(w: World, actions: seq<Action>): (u: World)
    requires Safe(w)
    ensures Safe(u)
    decreases actions
  {
    if actions == [] then w else RunWorld(Step(w, actions[0]), actions[1..])
  }

  /** Over every run from start-up: a callback created is either pending or has been called or cancelled, once; a timer queued
      has the deadline and callback it was queued with, and its object is neither free nor being called. */
  lemma EveryTimerHasOneFate(poolAlloc: nat, heapAlloc: nat, actions: seq<Action>, c: nat)
    requires poolAlloc > 0 && heapAlloc > 0
    ensures Safe(FreshWorld(poolAlloc, heapAlloc))
    ensures var u := RunWorld(FreshWorld(poolAlloc, heapAlloc), actions);
            var pending, ended := HasBy(CallbackOf, u.heap.nodes, c), multiset(u.fired)[c] + multiset(u.cancelled)[c];
            && (if c < u.created && !pending then ended == 1 else ended == 0)
            && (pending ==> c < u.created)
            && (forall n :: n in u.heap.nodes ==>
                  Queued(u, n.value) && n.value.timer !in u.pool.free && n.value.timer !in u.calling)
  {
    FreshWorldSafe(poolAlloc, heapAlloc);
    var u := RunWorld(FreshWorld(poolAlloc, heapAlloc), actions);
    DistinctOnce(u.fired + u.cancelled, c);
    assert multiset(u.fired + u.cancelled) == multiset(u.fired) + multiset(u.cancelled);
    forall n | n in u.heap.nodes ensures n.value.timer !in u.pool.free && n.value.timer !in u.calling {
      NodeTaken(u, n);
    }
  }

  // ---------- Ids ----------

  /** The ids the CreateTimer calls of a run return, oldest first. */
  ghost function Issued(w: World, actions: seq<Action>): seq<nat>
    requires Safe(w)
    decreases actions
  {
    if actions == [] then []
    else
      (if actions[0].ACreate? then [w.heap.ids.NextId()] else []) + Issued(Step(w, actions[0]), actions[1..])
  }

  /** A step gives no id to a queued timer except the one a CreateTimer returns, and takes ids only from the timer it pops. */
  lemma StepKeys(w: World, a: Action, id: nat)
    requires Safe(w)
    ensures HasKey(Step(w, a).heap.nodes, id) ==> HasKey(w.heap.nodes, id) || (a.ACreate? && id == w.heap.ids.NextId())
  {
    match a {
      case ACreate(deadline) => EmplaceKeys(w.heap, Sooner, w.alloc, Entry(w.pool.Get().0, deadline, w.created));
      case AFire(now) => if TopIsDue(w, now) { PopAgrees(w.heap, Sooner, 0); }
      case AReturn =>
      case _ => if HasKey(w.heap.nodes, a.id) { PopAgrees(w.heap, Sooner, PosOf(w.heap.nodes, a.id)); }
    }
  }

  /** An id that answers false goes on answering false until a CreateTimer returns it. */
  lemma {:induction false} AbsentUntilIssued(w: World, actions: seq<Action>, id: nat)
    requires Safe(w)
    ensures HasKey(RunWorld(w, actions).heap.nodes, id) ==> HasKey(w.heap.nodes, id) || id in Issued(w, actions)
    decreases actions
  {
    if actions != [] {
      StepKeys(w, actions[0], id);
      AbsentUntilIssued(Step(w, actions[0]), actions[1..], id);
    }
  }

  /** The id of the timer a step pops. */
  ghost function PoppedId(w: World, a: Action): Option<nat> {
    match a
    case ACreate(_) => None
    case AReturn => None
    case AFire(now) => if TopIsDue(w, now) then Some(w.heap.nodes[0].key) else None
    case _ => if HasKey(w.heap.nodes, a.id) then Some(a.id) else None
  }

  /** Where the timer a step pops sits. */
  ghost function PoppedPos(w: World, a: Action): (pos: nat)
    requires PoppedId(w, a).Some?
    ensures pos < |w.heap.nodes| && w.heap.nodes[pos].key == PoppedId(w, a).value
  {
    if a.AFire? then 0 else PosOf(w.heap.nodes, a.id)
  }

  lemma SafeHeap(w: World)
    requires Safe(w)
    ensures w.alloc > 0 && w.heap.Agree()
  {
  }

  /** What a step does to the heap: one Emplace, one Pop, or nothing. */
  lemma StepHeap(w: World, a: Action)
    requires Safe(w)
    ensures Step(w, a).alloc == w.alloc && w.pool.free != []
    ensures Step(w, a).heap ==
            if a.ACreate? then w.heap.Emplace(Sooner, w.alloc, Entry(w.pool.Get().0, a.deadline, w.created))
            else if PoppedId(w, a).Some? then w.heap.Pop(Sooner, PoppedPos(w, a))
            else w.heap
  {
  }

  /** Once a timer has been fired, called or cancelled its id answers false until a CreateTimer returns it. */
  lemma DeadUntilReissued(w: World, a: Action, id: nat, actions: seq<Action>)
    requires Safe(w)
    ensures PoppedId(w, a) == Some(id) && HasKey(RunWorld(Step(w, a), actions).heap.nodes, id) ==>
              id in Issued(Step(w, a), actions)
  {
    if PoppedId(w, a) == Some(id) {
      StepHeap(w, a);
      PopAgrees(w.heap, Sooner, PoppedPos(w, a));
      AbsentUntilIssued(Step(w, a), actions, id);
    }
  }

  ghost function TableOp(w: World, a: Action): seq<Op<nat>> {
    if a.ACreate? then [OpInsert(0)] else if PoppedId(w, a).Some? then [OpErase(PoppedId(w, a).value)] else []
  }

  /** The run as the key table sees it. */
  ghost function TableOps(w: World, actions: seq<Action>): seq<Op<nat>>
    requires Safe(w)
    decreases actions
  {
    if actions == [] then []
    else
      TableOp(w, actions[0]) + TableOps(Step(w, actions[0]), actions[1..])
  }

  ghost predicate SameIds(t: Table<nat>, u: Table<nat>) {
    t.order == u.order && t.free == u.free && t.objs.Keys == u.objs.Keys
  }

  lemma StepIds(w: World, a: Action, t: Table<nat>, op: Op<nat>)
    requires Safe(w) && SameIds(t, w.heap.ids) && t.free != []
    requires TableOp(w, a) == [op]
    ensures SameIds(Apply(t, w.alloc, op), Step(w, a).heap.ids)
  {
    hide Safe, Step, HeapState.Agree;
    SafeHeap(w);
    StepHeap(w, a);
    if a.ACreate? {
      EmplaceIds(w.heap, Sooner, w.alloc, Entry(w.pool.Get().0, a.deadline, w.created));
    } else {
      PopIds(w.heap, Sooner, PoppedPos(w, a));
      AgreeKeys(w.heap);
      assert KeyOf(w.heap.nodes[PoppedPos(w, a)]) == op.id;
      assert HasKey(w.heap.nodes, op.id);
    }
  }

  /** The ids a run issues are the ones the key table issues when it makes the same insertions and erasures. */
  lemma {:induction false} IssuedByTable(w: World, actions: seq<Action>, t: Table<nat>)
    requires Safe(w) && SameIds(t, w.heap.ids) && t.free != []
    ensures w.alloc > 0 && Run(t, w.alloc, TableOps(w, actions)).0 == Issued(w, actions)
    decreases actions
  {
    hide Safe, Step, HeapState.Agree, HeapState.Emplace, HeapState.Pop;
    SafeHeap(w);
    if actions != [] {
      var a, u := actions[0], Step(w, actions[0]);
      StepHeap(w, a);
      var op, ops := TableOp(w, a), TableOps(u, actions[1..]);
      assert TableOps(w, actions) == op + ops;
      if op == [] {
        IssuedByTable(u, actions[1..], t) by { assert SameIds(t, u.heap.ids); }
        assert op + ops == ops;
      } else {
        StepIds(w, a, t, op[0]);
        IssuedByTable(u, actions[1..], Apply(t, w.alloc, op[0]));
        assert (op + ops)[1..] == ops;
      }
    }
  }

  /** The id of a timer that is fired or cancelled comes back only after every id that was free at that moment,
      and there is at least one such id. */
  lemma {:induction false} TimerIdReissuedLast(w: World, a: Action, id: nat, actions: seq<Action>, n: nat)
    requires Safe(w)
    ensures var ids := Issued(Step(w, a), actions);
            PoppedId(w, a) == Some(id) && n < |ids| && ids[n] == id ==>
              0 < |w.heap.ids.free| <= n && forall f :: f in w.heap.ids.free ==> f in ids[..n]
  {
    hide Safe, Step;
    var ids := Issued(Step(w, a), actions);
    if PoppedId(w, a) != Some(id) || n >= |ids| || ids[n] != id {
      return;
    }
    var pos := PoppedPos(w, a);
    SafeHeap(w);
    StepHeap(w, a);
    PopAgrees(w.heap, Sooner, pos);
    var u := Step(w, a);
    var queue := w.heap.ids.free;
    assert u.heap.ids.free == queue + [id];
    assert id !in queue by {
      AgreeKeys(w.heap);
      assert KeyOf(w.heap.nodes[pos]) == id;
    }
    assert queue <= u.heap.ids.free;
    IssuedByTable(u, actions, u.heap.ids);
    IssuedInFreeOrder(u.heap.ids, u.alloc, TableOps(u, actions), queue);
    assert n >= |queue|;
    assert ids[..|queue|] == queue;
    forall f | f in queue ensures f in ids[..n] {
      var i :| 0 <= i < |queue| && queue[i] == f;
      assert ids[..n][i] == f;
    }
  }

  // ---------- What becomes of each timer ----------

  /** The callback of the timer a step pops. */
  ghost function PoppedCallback(w: World, a: Action): seq<nat> {
    if PoppedId(w, a).Some? then [w.heap.nodes[PoppedPos(w, a)].value.callback] else []
  }

  /** The callbacks a step calls: Update and CallTimer do, RemoveTimer does not. */
  ghost function Called(w: World, a: Action): seq<nat> {
    if a.AFire? || a.ACall? then PoppedCallback(w, a) else []
  }

  ghost function Dropped(w: World, a: Action): seq<nat> {
    if a.ARemove? then PoppedCallback(w, a) else []
  }

  lemma PoppedQueued(w: World, a: Action)
    requires Safe(w)
    ensures PoppedId(w, a).Some? ==> Queued(w, w.heap.nodes[PoppedPos(w, a)].value)
  {
    if PoppedId(w, a).Some? {
      assert w.heap.nodes[PoppedPos(w, a)] in w.heap.nodes;
    }
  }

  /** A timer popped by Update or CallTimer has its callback called, one popped by RemoveTimer has it dropped, and no other
      callback is called or dropped. */
  lemma StepLogs(w: World, a: Action)
    requires Safe(w)
    ensures var u := Step(w, a);
            && u.fired == w.fired + Called(w, a) && u.cancelled == w.cancelled + Dropped(w, a)
            && u.created == w.created + if a.ACreate? then 1 else 0
  {
    hide Safe, HeapState.Pop, HeapState.Emplace, Pool.Put, Pool.Get;
    PoppedQueued(w, a);
  }

  ghost function RunCalled(w: World, actions: seq<Action>): seq<nat>
    requires Safe(w)
    decreases actions
  {
    if actions == [] then [] else Called(w, actions[0]) + RunCalled(Step(w, actions[0]), actions[1..])
  }

  ghost function RunDropped(w: World, actions: seq<Action>): seq<nat>
    requires Safe(w)
    decreases actions
  {
    if actions == [] then [] else Dropped(w, actions[0]) + RunDropped(Step(w, actions[0]), actions[1..])
  }

  lemma {:induction false} RunLogs(w: World, actions: seq<Action>)
    requires Safe(w)
    ensures var u := RunWorld(w, actions);
            u.fired == w.fired + RunCalled(w, actions) && u.cancelled == w.cancelled + RunDropped(w, actions)
    decreases actions
  {
    hide Safe, Step, Called, Dropped;
    if actions != [] {
      StepLogs(w, actions[0]);
      RunLogs(Step(w, actions[0]), actions[1..]);
    }
  }

  /** Over every run from start-up: the callbacks called are those of the timers that Update and CallTimer have popped, the ones
      cancelled those of the timers that RemoveTimer has, in the order in which it happened. */
  lemma FiredAndCancelled(poolAlloc: nat, heapAlloc: nat, actions: seq<Action>)
    requires poolAlloc > 0 && heapAlloc > 0
    ensures Safe(FreshWorld(poolAlloc, heapAlloc))
    ensures var w := FreshWorld(poolAlloc, heapAlloc);
            RunWorld(w, actions).fired == RunCalled(w, actions) && RunWorld(w, actions).cancelled == RunDropped(w, actions)
  {
    FreshWorldSafe(poolAlloc, heapAlloc);
    RunLogs(FreshWorld(poolAlloc, heapAlloc), actions);
  }

  /** What a step does to the queue: CreateTimer adds one timer with the deadline asked for, under the id it returns, with the
      next callback; a step that pops a timer takes that one away; any other leaves the queue alone. */
  lemma StepQueue(w: World, a: Action)
    requires Safe(w)
    ensures w.pool.free != [] && w.heap.ids.free != []
    ensures multiset(Step(w, a).heap.nodes) ==
            if a.ACreate? then
              multiset(w.heap.nodes) + multiset{HeapNode(w.heap.ids.NextId(), Entry(w.pool.Get().0, a.deadline, w.created))}
            else if PoppedId(w, a).Some? then multiset(w.heap.nodes) - multiset{w.heap.nodes[PoppedPos(w, a)]}
            else multiset(w.heap.nodes)
  {
    hide Safe, Step, PopAt, Push, Pool.Get;
    SafeParts(w);
    StepHeap(w, a);
    if a.ACreate? {
      PushMultiset(Sooner, w.heap.nodes, HeapNode(w.heap.ids.NextId(), Entry(w.pool.Get().0, a.deadline, w.created)));
    } else if PoppedId(w, a).Some? {
      PopMultiset(Sooner, w.heap.nodes, PoppedPos(w, a));
    }
  }

  /** Calls nest: one begins with the timer popped, the innermost one ends first, and its timer object is then in front of the
      pool. A timer removed is there at once. */
  lemma StepCalls(w: World, a: Action)
    requires Safe(w)
    ensures var u := Step(w, a);
            && (Called(w, a) != [] ==> u.calling == w.calling + [w.heap.nodes[PoppedPos(w, a)].value.timer] && u.pool == w.pool)
            && (Dropped(w, a) != [] ==>
                  u.calling == w.calling && u.pool.free != [] && u.pool.free[0] == w.heap.nodes[PoppedPos(w, a)].value.timer)
            && (a.AReturn? && w.calling != [] ==>
                  && w.calling == u.calling + [w.calling[|w.calling| - 1]]
                  && u.pool.free != [] && u.pool.free[0] == w.calling[|w.calling| - 1])
            && (a.AReturn? && w.calling == [] ==> u == w)
            && (a.ACreate? ==> u.calling == w.calling)
  {
    hide Safe, Queued, HeapState.Pop, HeapState.Emplace, Pool.Get, Pool.Put;
    SafePool(w);
    PoppedQueued(w, a);
    if a.AReturn? && w.calling != [] {
      EndCallSafe(w);
      PutInFront(w.pool, w.calling[|w.calling| - 1]);
    } else if a.ARemove? && PoppedId(w, a).Some? {
      CancelSafe(w, PoppedPos(w, a));
      PutInFront(w.pool, w.heap.nodes[PoppedPos(w, a)].value.timer);
    }
  }

  lemma SafePool(w: World)
    requires Safe(w)
    ensures w.pool.alloc > 0 && w.pool.free != [] && w.heap.ids.free != []
  {
  }

  lemma PutInFront(p: Pool, obj: nat)
    requires p.taken > 0 && p.alloc > 0
    ensures p.Put(obj).free != [] && p.Put(obj).free[0] == obj
  {
  }

  /** A timer object that is not in use holds no callback. */
  ghost predicate Idle(w: World) {
    forall o :: o in w.timers && o !in w.taken ==> w.timers[o].callback == None
  }

  lemma StepIdle(w: World, a: Action)
    requires Safe(w) && Idle(w)
    ensures Idle(Step(w, a))
  {
    hide Safe, Queued, HeapState.Pop, HeapState.Emplace, Pool.Get, Pool.Put;
    SafePool(w);
    PoppedQueued(w, a);
  }

  lemma {:induction false} RunIdle(w: World, actions: seq<Action>)
    requires Safe(w) && Idle(w)
    ensures Idle(RunWorld(w, actions))
    decreases actions
  {
    hide Safe, Step, Idle;
    if actions != [] {
      StepIdle(w, actions[0]);
      RunIdle(Step(w, actions[0]), actions[1..]);
    }
  }

  /** Over every run from start-up: what a callback has captured is let go when its timer is returned. */
  lemma PooledTimersAreIdle(poolAlloc: nat, heapAlloc: nat, actions: seq<Action>)
    requires poolAlloc > 0 && heapAlloc > 0
    ensures Safe(FreshWorld(poolAlloc, heapAlloc))
    ensures Idle(RunWorld(FreshWorld(poolAlloc, heapAlloc), actions))
  {
    hide Safe;
    FreshWorldSafe(poolAlloc, heapAlloc);
    RunIdle(FreshWorld(poolAlloc, heapAlloc), actions);
  }

  // ---------- Update ----------

  /** Popping the top as long as it is due: what is popped, and what is left. */
  function TakeDue(s: seq<HeapNode<Entry>>, now: int): (seq<HeapNode<Entry>>, seq<HeapNode<Entry>>)
    decreases |s|
  {
    if s == [] || s[0].value.time > now then ([], s)
    else var (due, rest) := TakeDue(PopAt(Sooner, s, 0), now); ([s[0]] + due, rest)
  }

  lemma TakenBack<X>(s: seq<X>, t: seq<X>, due: seq<X>, rest: seq<X>)
    requires s != [] && multiset(t) == multiset(s) - multiset{s[0]}
    requires multiset(due) + multiset(rest) == multiset(t)
    ensures multiset([s[0]] + due) + multiset(rest) == multiset(s)
  {
    var l, r := multiset([s[0]] + due) + multiset(rest), multiset(s);
    assert multiset([s[0]] + due) == multiset{s[0]} + multiset(due);
    forall x ensures l[x] == r[x] {
      assert multiset(t)[x] == multiset(due)[x] + multiset(rest)[x];
      assert s[0] in r;
    }
  }

  lemma {:induction false} TakeDueMultiset(s: seq<HeapNode<Entry>>, now: int)
    ensures var (due, rest) := TakeDue(s, now); multiset(due) + multiset(rest) == multiset(s)
    ensures forall n :: n in TakeDue(s, now).0 ==> n.value.time <= now
    decreases |s|
  {
    if s != [] && s[0].value.time <= now {
      hide PopAt;
      PopMultiset(Sooner, s, 0);
      var t := PopAt(Sooner, s, 0);
      TakeDueMultiset(t, now);
      var (due, rest) := TakeDue(t, now);
      assert TakeDue(s, now) == ([s[0]] + due, rest);
      TakenBack(s, t, due, rest);
      forall n | n in [s[0]] + due ensures n.value.time <= now {
      }
    }
  }

  /** From a heap-ordered state the loop takes exactly the due timers, earliest first. */
  lemma {:induction false} TakeDueExact(s: seq<HeapNode<Entry>>, now: int)
    requires Ordered(Sooner, s)
    ensures var (due, rest) := TakeDue(s, now);
            && NonDecreasing(Sooner, due)
            && (forall n :: n in rest ==> n.value.time > now)
            && Ordered(Sooner, rest)
    decreases |s|
  {
    SoonerIsStrictWeakOrder();
    if s != [] && s[0].value.time <= now {
      var t := PopAt(Sooner, s, 0);
      PopOrdered(Sooner, s, 0);
      TakeDueExact(t, now);
      var (due, rest) := TakeDue(s, now);
      assert due[1..] == TakeDue(t, now).0;
      forall j | 0 < j < |due| ensures due[j].value.time >= s[0].value.time {
        TakeDueMultiset(t, now);
        PopMultiset(Sooner, s, 0);
        assert due[j] == due[1..][j - 1] && due[j] in multiset(due[1..]);
        TopMinimalIn(Sooner, s, due[j]);
      }
      forall i, j | 0 <= i < j < |due| ensures !Sooner(due[j].value, due[i].value) {
        assert i > 0 ==> due[i] == due[1..][i - 1] && due[j] == due[1..][j - 1];
      }
    } else {
      forall n | n in s ensures n.value.time > now {
        TopMinimalIn(Sooner, s, n);
      }
    }
  }

  /** Update when no callback touches the unit. */
  ghost function UpdateAll(w: World, now: int): (u: World)
    requires Safe(w)
    ensures Safe(u)
    decreases |w.heap.nodes|
  {
    if TopIsDue(w, now) then
      StepHeap(w, AFire(now));
      StepHeap(Step(w, AFire(now)), AReturn);
      UpdateAll(Step(Step(w, AFire(now)), AReturn), now)
    else w
  }

  function Callbacks(s: seq<HeapNode<Entry>>): (r: seq<nat>)
    ensures |r| == |s|
  {
    seq(|s|, i requires 0 <= i < |s| => s[i].value.callback)
  }

  /** One turn of the loop. */
  lemma TurnOfUpdate(w: World, now: int)
    requires Safe(w) && TopIsDue(w, now)
    ensures var u := Step(Step(w, AFire(now)), AReturn);
            && u.heap.nodes == PopAt(Sooner, w.heap.nodes, 0)
            && u.fired == w.fired + [w.heap.nodes[0].value.callback]
            && u.cancelled == w.cancelled && u.created == w.created && u.calling == w.calling
  {
    hide HeapState.Agree, OneFate, Pool.Consistent, PopAt;
    assert w.heap.nodes[0] in w.heap.nodes;
    var v := Step(w, AFire(now));
    assert v == BeginCall(w, 0);
    assert v.calling == w.calling + [w.heap.nodes[0].value.timer];
    assert Step(v, AReturn) == EndCall(v);
  }

  /** The guard reads the object, the heap order the entry: they agree. */
  lemma TopIsDueByEntry(w: World, now: int)
    requires Safe(w)
    ensures TopIsDue(w, now) <==> w.heap.nodes != [] && w.heap.nodes[0].value.time <= now
    ensures w.heap.nodes != [] ==> Queued(w, w.heap.nodes[0].value)
  {
    if w.heap.nodes != [] {
      assert w.heap.nodes[0] in w.heap.nodes;
    }
  }

  lemma {:induction false} UpdateTakesDue(w: World, now: int)
    requires Safe(w)
    ensures var u, (due, rest) := UpdateAll(w, now), TakeDue(w.heap.nodes, now);
            && u.heap.nodes == rest && u.fired == w.fired + Callbacks(due)
            && u.cancelled == w.cancelled && u.created == w.created && u.calling == w.calling
    decreases |w.heap.nodes|
  {
    hide Safe, Step, PopAt, TopIsDue;
    TopIsDueByEntry(w, now);
    if TopIsDue(w, now) {
      TurnOfUpdate(w, now);
      var u := Step(Step(w, AFire(now)), AReturn);
      UpdateTakesDue(u, now);
      var due := TakeDue(u.heap.nodes, now).0;
      assert Callbacks([w.heap.nodes[0]] + due) == [w.heap.nodes[0].value.callback] + Callbacks(due);
    }
  }

  /** Update fires exactly the timers that are due, in order of their deadlines, and leaves exactly the others. */
  lemma UpdateFiresExactlyTheDue(w: World, now: int)
    requires Safe(w) && Ordered(Sooner, w.heap.nodes)
    ensures var u, (due, rest) := UpdateAll(w, now), TakeDue(w.heap.nodes, now);
            && u.fired == w.fired + Callbacks(due) && NonDecreasing(Sooner, due)
            && u.heap.nodes == rest && Ordered(Sooner, rest)
            && multiset(due) + multiset(rest) == multiset(w.heap.nodes)
            && (forall n :: n in due ==> n.value.time <= now)
            && (forall n :: n in rest ==> n.value.time > now)
  {
    UpdateTakesDue(w, now);
    TakeDueMultiset(w.heap.nodes, now);
    TakeDueExact(w.heap.nodes, now);
  }

  /** CallTimer and RemoveTimer keep the heap ordered exactly when the last timer fits where the popped one was. */
  lemma RemovalKeepsOrderIff(w: World, pos: nat)
    requires pos < |w.heap.nodes| && Ordered(Sooner, w.heap.nodes)
    ensures Ordered(Sooner, w.heap.Pop(Sooner, pos).nodes) <==> LastFits(Sooner, w.heap.nodes, pos)
  {
    SoonerIsStrictWeakOrder();
    PopOrdered(Sooner, w.heap.nodes, pos);
  }

  // ---------- The class ----------

  class TimerUnit {
    const timerPool: ObjectPool
    const timers: Heap<Entry>
    /** The fields of the Timer objects. */
    var fields: map<nat, Timer>
    /** The number of CreateTimer calls so far, which numbers the callbacks. */
    var created: nat
    ghost var taken: set<nat>
    ghost var fired: seq<nat>
    ghost var cancelled: seq<nat>

    ghost predicate Valid()
      reads this, timerPool, timers, timers.key2pos
    {
      && timerPool.Valid() && timers.Valid() && timers.cmp == Sooner
      && Safe(View())
    }

    /** No callback is running between two calls. */
    ghost function View(): World
      requires timerPool.Valid()
      reads this, timerPool, timers, timers.key2pos
    {
      World(timers.allocNum, timers.View(), timerPool.View(), fields, taken, [], created, fired, cancelled)
    }

    constructor (poolAlloc: nat, heapAlloc: nat)
      requires poolAlloc > 0 && heapAlloc > 0
      ensures Valid() && View() == FreshWorld(poolAlloc, heapAlloc)
      ensures fresh(timerPool) && fresh(timers) && fresh(timers.key2pos)
    {
      timerPool := new ObjectPool(poolAlloc);
      timers := new Heap(Sooner, heapAlloc);
      fields, created, taken, fired, cancelled := map[], 0, {}, [], [];
      new;
      FreshWorldSafe(poolAlloc, heapAlloc);
    }

    /** delay is in milliseconds, now in the nanoseconds of the system clock. */
    method CreateTimer(now: int, delay: nat) returns (id: nat)
      requires Valid()
      modifies this, timerPool, timers, timers.key2pos
      ensures Valid() && (id, View()) == Create(old(View()), now + 1000000 * delay)
      ensures fired == old(fired) && cancelled == old(cancelled) && created == old(created) + 1
    {
      hide Safe, ObjectPool.Valid, Heap.Valid, HeapState.Emplace, ObjectPool.View;
      ghost var w := View();
      SafeParts(w);
      CreateSafe(w, now + 1000000 * delay);
      var timer := timerPool.Get();
      fields := fields[timer := Timer(now + 1000000 * delay, Some(created))];
      taken := taken + {timer};
      id := timers.Emplace(Entry(timer, now + 1000000 * delay, created));
      created := created + 1;
      assert View() == Create(w, now + 1000000 * delay).1;
      assert Safe(View());
    }

    /** _RemoveTimer: Stop and Put. */
    method ReturnTimer(timer: nat)
      requires timerPool.Valid() && timers.Valid() && timer in fields && timerPool.View().taken > 0
      modifies this`fields, this`taken, timerPool
      ensures timerPool.Valid() && timers.Valid() && View() == Release(old(View()), timer)
      ensures fields == old(fields)[timer := old(fields)[timer].(callback := None)] && taken == old(taken) - {timer}
    {
      fields := fields[timer := fields[timer].(callback := None)];
      timerPool.Put(timer);
      taken := taken - {timer};
    }

    method CallTimer(id: nat) returns (found: bool)
      requires Valid()
      modifies this, timerPool, timers, timers.key2pos
      ensures Valid()
      ensures found <==> HasKey(old(View()).heap.nodes, id)
      ensures View() == if found then Step(Step(old(View()), ACall(id)), AReturn) else old(View())
      ensures cancelled == old(cancelled)
      ensures found ==> fired == old(fired) + [old(View()).heap.nodes[PosOf(old(View()).heap.nodes, id)].value.callback]
    {
      hide Safe, ObjectPool.Valid, Heap.Valid, HeapState.Pop, Pool.Put;
      found := timers.FindByKey(id);
      if !found {
        return;
      }
      ghost var w := View();
      ghost var pos := PosOf(w.heap.nodes, id);
      BeginCallSafe(w, pos);
      var e := timers.PopByKey(id, pos);
      fired := fired + [fields[e.timer].callback.value];
      ghost var v := BeginCall(w, pos);
      assert Step(w, ACall(id)) == v && v == View().(calling := [e.timer]);
      EndCallSafe(v);
      assert Step(v, AReturn) == EndCall(v);
      ReturnTimer(e.timer);
    }

    method RemoveTimer(id: nat) returns (found: bool)
      requires Valid()
      modifies this, timerPool, timers, timers.key2pos
      ensures Valid()
      ensures found <==> HasKey(old(View()).heap.nodes, id)
      ensures View() == Step(old(View()), ARemove(id))
      ensures fired == old(fired)
      ensures found ==> cancelled == old(cancelled) + [old(View()).heap.nodes[PosOf(old(View()).heap.nodes, id)].value.callback]
    {
      hide Safe, ObjectPool.Valid, Heap.Valid, HeapState.Pop, Pool.Put;
      found := timers.FindByKey(id);
      if !found {
        return;
      }
      ghost var w := View();
      ghost var pos := PosOf(w.heap.nodes, id);
      CancelSafe(w, pos);
      var e := timers.PopByKey(id, pos);
      cancelled := cancelled + [fields[e.timer].callback.value];
      ReturnTimer(e.timer);
    }

    /** The body of the loop of Update. */
    method FireTop(ghost now: int)
      requires Valid() && TopIsDue(View(), now)
      modifies this, timerPool, timers, timers.key2pos
      ensures Valid()
      ensures View() == Step(Step(old(View()), AFire(now)), AReturn)
      ensures |View().heap.nodes| == |old(View()).heap.nodes| - 1
      ensures fired == old(fired) + [old(View()).heap.nodes[0].value.callback] && cancelled == old(cancelled)
    {
      hide Safe, ObjectPool.Valid, ObjectPool.View, Heap.Valid, Heap.View, Pool.Put, PopAt, HeapState.Pop;
      PopShorter(View().heap, Sooner, 0);
      ghost var w := View();
      BeginCallSafe(w, 0);
      var e := timers.Pop();
      fired := fired + [fields[e.timer].callback.value];
      ghost var v := BeginCall(w, 0);
      assert Step(w, AFire(now)) == v && v == View().(calling := [e.timer]);
      EndCallSafe(v);
      assert Step(v, AReturn) == EndCall(v);
      ReturnTimer(e.timer);
    }

    /** The callbacks are taken not to touch the unit; for those that do, see the runs above. */
    method Update(now: int) returns (busy: bool)
      requires Valid()
      modifies this, timerPool, timers, timers.key2pos
      ensures Valid()
      ensures View() == UpdateAll(old(View()), now)
      ensures busy <==> View().fired != old(View()).fired
    {
      hide Safe, ObjectPool.Valid, Heap.Valid, Step, TopIsDue;
      busy := false;
      var empty := timers.Empty();
      while !empty
        invariant Valid()
        invariant empty <==> View().heap.nodes == []
        invariant UpdateAll(View(), now) == UpdateAll(old(View()), now)
        invariant if busy then |fired| > |old(fired)| else fired == old(fired)
        decreases |timers.View().nodes|
      {
        TopIsDueByEntry(View(), now);
        var top := timers.Top();
        if fields[top.timer].time > now {
          break;
        }
        FireTop(now);
        busy := true;
        empty := timers.Empty();
      }
      TopIsDueByEntry(View(), now);
    }
  }
}
