/** When removals by id keep the timers in order, and what becomes of the ones they put out of order. */
module TimerOrder {
  import opened Common
  import opened HeapOrder
  import opened ObjectMaps
  import opened Heaps
  import opened ObjectPools
  import opened Timers

  // ---------- Runs that keep the heap in order ----------

  /** If the step pops a timer, the last one fits in its place. */
  ghost predicate Fits(w: World, a: Action) {
    PoppedId(w, a).Some? ==> LastFits(Sooner, w.heap.nodes, PoppedPos(w, a))
  }

  /** A step keeps the heap in order exactly when the last timer fits where the popped one was. */
  lemma StepOrdered(w: World, a: Action)
    requires Safe(w) && Ordered(Sooner, w.heap.nodes)
    ensures Ordered(Sooner, Step(w, a).heap.nodes) <==> Fits(w, a)
  {
    hide Safe, Step, Push, PopAt, Ordered;
    SoonerIsStrictWeakOrder();
    SafeHeap(w);
    StepHeap(w, a);
    if a.ACreate? {
      PushOrdered(Sooner, w.heap.nodes, HeapNode(w.heap.ids.NextId(), Entry(w.pool.Get().0, a.deadline, w.created)));
    } else if PoppedId(w, a).Some? {
      RemovalKeepsOrderIff(w, PoppedPos(w, a));
    }
  }

  ghost predicate AllFit(w: World, actions: seq<Action>)
    requires Safe(w)
    decreases actions
  {
    actions == [] || (Fits(w, actions[0]) && AllFit(Step(w, actions[0]), actions[1..]))
  }

  lemma {:induction false} RunOrdered(w: World, actions: seq<Action>)
    requires Safe(w) && Ordered(Sooner, w.heap.nodes) && AllFit(w, actions)
    ensures Ordered(Sooner, RunWorld(w, actions).heap.nodes)
    decreases actions
  {
    hide Safe, Step, Ordered;
    if actions != [] {
      StepOrdered(w, actions[0]);
      RunOrdered(Step(w, actions[0]), actions[1..]);
    }
  }

  /** After every run from start-up in which the last timer fits at each removal, Update fires exactly the timers due,
      in order of their deadlines. */
  lemma EveryUpdateFiresTheDue(poolAlloc: nat, heapAlloc: nat, actions: seq<Action>, now: int)
    requires poolAlloc > 0 && heapAlloc > 0
    ensures Safe(FreshWorld(poolAlloc, heapAlloc))
    ensures AllFit(FreshWorld(poolAlloc, heapAlloc), actions) ==>
              var w := RunWorld(FreshWorld(poolAlloc, heapAlloc), actions);
              var u, (due, rest) := UpdateAll(w, now), TakeDue(w.heap.nodes, now);
              && u.fired == w.fired + Callbacks(due) && NonDecreasing(Sooner, due)
              && u.heap.nodes == rest && Ordered(Sooner, rest)
              && multiset(due) + multiset(rest) == multiset(w.heap.nodes)
              && (forall n :: n in due ==> n.value.time <= now)
              && (forall n :: n in rest ==> n.value.time > now)
  {
    FreshWorldSafe(poolAlloc, heapAlloc);
    var f := FreshWorld(poolAlloc, heapAlloc);
    if AllFit(f, actions) {
      RunOrdered(f, actions);
      UpdateFiresExactlyTheDue(RunWorld(f, actions), now);
    }
  }

  predicate Removes(a: Action) { a.ACall? || a.ARemove? }

  /** Nothing is removed by its id. */
  predicate Gentle(actions: seq<Action>) {
    forall i :: 0 <= i < |actions| ==> !Removes(actions[i])
  }

  lemma {:induction false} GentleFits(w: World, actions: seq<Action>)
    requires Safe(w) && Gentle(actions)
    ensures AllFit(w, actions)
    decreases actions
  {
    hide Safe, Step;
    if actions != [] {
      assert !Removes(actions[0]);
      assert forall i :: 0 <= i < |actions[1..]| ==> actions[1..][i] == actions[i + 1];
      GentleFits(Step(w, actions[0]), actions[1..]);
    }
  }

  // ---------- What a removal that does not fit does ----------

  /** No timer is left that is due. */
  predicate NoneDue(w: World, now: int) {
    forall n :: n in w.heap.nodes ==> n.value.time > now
  }

  /** However the unit is used from here without removals by id, no Update ever leaves a timer that is due. */
  ghost predicate Harmless(w: World)
    requires Safe(w)
  {
    forall actions, now :: Gentle(actions) ==> NoneDue(UpdateAll(RunWorld(w, actions), now), now)
  }

  lemma OrderedHarmless(w: World)
    requires Safe(w) && Ordered(Sooner, w.heap.nodes)
    ensures Harmless(w)
  {
    hide Ordered, UpdateAll, Safe;
    forall actions, now | Gentle(actions) ensures NoneDue(UpdateAll(RunWorld(w, actions), now), now) {
      GentleFits(w, actions);
      RunOrdered(w, actions);
      UpdateFiresExactlyTheDue(RunWorld(w, actions), now);
    }
  }

  /** A timer that has one above it that is not due is not taken, as long as there are others at the end to take its place. */
  lemma {:induction false} TakeDueMisses(s: seq<HeapNode<Entry>>, now: int, a: nat, b: nat)
    requires Above(a, b) && b < |s| - |TakeDue(s, now).0| && s[a].value.time > now
    ensures s[b] in TakeDue(s, now).1
    decreases |s|
  {
    hide PopAt, Above;
    if s[0].value.time <= now {
      var t := PopAt(Sooner, s, 0);
      var x, y := PopKeepsAbove(Sooner, s, a, b);
      TakeDueMisses(t, now, x, y);
    }
  }

  lemma DueBound(s: seq<HeapNode<Entry>>, c: nat, now: int)
    requires c <= |s| && forall j :: c <= j < |s| ==> s[j].value.time > now
    ensures |TakeDue(s, now).0| <= c
  {
    var (due, rest) := TakeDue(s, now);
    TakeDueMultiset(s, now);
    assert s == s[..c] + s[c..];
    var d, front := multiset(due), multiset(s[..c]);
    forall x ensures d[x] <= front[x] {
      assert d[x] <= multiset(s)[x] == front[x] + multiset(s[c..])[x];
      assert x in due ==> x !in s[c..];
    }
    assert front == d + (front - d);
  }

  function Late(k: nat, deadline: int): (r: seq<Action>)
    ensures |r| == k && Gentle(r)
  {
    seq(k, _ => ACreate(deadline))
  }

  /** Timers later than all the others queue up behind them. */
  lemma {:induction false} LateQueueUp(w: World, k: nat, deadline: int)
    requires Safe(w) && forall n :: n in w.heap.nodes ==> n.value.time <= deadline
    ensures var s, t := w.heap.nodes, RunWorld(w, Late(k, deadline)).heap.nodes;
            |t| == |s| + k && t[..|s|] == s && forall j :: |s| <= j < |t| ==> t[j].value.time == deadline
    decreases k
  {
    hide Safe, Step;
    if k > 0 {
      var s, u := w.heap.nodes, Step(w, ACreate(deadline));
      SafeHeap(w);
      StepHeap(w, ACreate(deadline));
      var node := HeapNode(w.heap.ids.NextId(), Entry(w.pool.Get().0, deadline, w.created));
      PushAtEnd(Sooner, s, node);
      assert u.heap.nodes == s + [node];
      assert Late(k, deadline)[1..] == Late(k - 1, deadline);
      LateQueueUp(u, k - 1, deadline);
    }
  }

  /** When the last timer does not fit where one is removed, as many later timers as there were before make sure that
      Update leaves it queued when it is due. */
  lemma MisfitIsMissed(w: World, a: Action, k: nat, deadline: int)
    requires Safe(w) && Ordered(Sooner, w.heap.nodes) && !Fits(w, a)
    requires k >= |w.heap.nodes| && forall n :: n in w.heap.nodes ==> n.value.time < deadline
    ensures var last := w.heap.nodes[|w.heap.nodes| - 1];
            last in UpdateAll(RunWorld(Step(w, a), Late(k, deadline)), last.value.time).heap.nodes
  {
    hide Safe, Step, PopAt, Ordered;
    SoonerIsStrictWeakOrder();
    SafeHeap(w);
    StepHeap(w, a);
    var s, pos := w.heap.nodes, PoppedPos(w, a);
    var last := s[|s| - 1];
    var now := last.value.time;
    MisfitStays(Sooner, s, pos);
    var u := Step(w, a);
    assert u.heap.nodes == PopAt(Sooner, s, pos);
    PopMembers(Sooner, s, pos);
    LateQueueUp(u, k, deadline);
    var v := RunWorld(u, Late(k, deadline));
    DueBound(v.heap.nodes, |s| - 1, now);
    TakeDueMisses(v.heap.nodes, now, Parent(pos), pos);
    UpdateTakesDue(v, now);
  }

  function Beyond(s: seq<HeapNode<Entry>>): (t: int)
    ensures forall n :: n in s ==> n.value.time < t
  {
    if s == [] then 0
    else
      var t := Beyond(s[1..]);
      assert s == [s[0]] + s[1..];
      if s[0].value.time < t then t else s[0].value.time + 1
  }

  /** A step on an ordered heap does no lasting harm if and only if the last timer fits where the popped one was. */
  lemma RemovalHarmlessIff(w: World, a: Action)
    requires Safe(w) && Ordered(Sooner, w.heap.nodes)
    ensures Harmless(Step(w, a)) <==> Fits(w, a)
  {
    hide Safe, Step, Ordered, UpdateAll;
    if Fits(w, a) {
      StepOrdered(w, a);
      OrderedHarmless(Step(w, a));
    } else {
      var k, deadline := |w.heap.nodes|, Beyond(w.heap.nodes);
      MisfitIsMissed(w, a, k, deadline);
      var now := w.heap.nodes[k - 1].value.time;
      assert Gentle(Late(k, deadline)) && !NoneDue(UpdateAll(RunWorld(Step(w, a), Late(k, deadline)), now), now);
    }
  }

  /** After every run from start-up in which the last timer fits at each removal: the next step does no lasting harm
      if and only if it fits there too. */
  lemma FirstMisfitHarms(poolAlloc: nat, heapAlloc: nat, actions: seq<Action>, a: Action)
    requires poolAlloc > 0 && heapAlloc > 0
    ensures Safe(FreshWorld(poolAlloc, heapAlloc))
    ensures AllFit(FreshWorld(poolAlloc, heapAlloc), actions) ==>
              var w := RunWorld(FreshWorld(poolAlloc, heapAlloc), actions);
              (Harmless(Step(w, a)) <==> Fits(w, a))
  {
    hide Safe, Step, Harmless, Fits;
    FreshWorldSafe(poolAlloc, heapAlloc);
    var f := FreshWorld(poolAlloc, heapAlloc);
    if AllFit(f, actions) {
      RunOrdered(f, actions);
      RemovalHarmlessIff(RunWorld(f, actions), a);
    }
  }

  // ---------- Every ordered heap is reached ----------

  /** Keys, objects and callbacks are numbered like the positions. */
  predicate Numbered(s: seq<HeapNode<Entry>>) {
    forall i :: 0 <= i < |s| ==> s[i] == HeapNode(i, Entry(i, s[i].value.time, i))
  }

  function Creates(s: seq<HeapNode<Entry>>): (r: seq<Action>)
    ensures |r| == |s|
  {
    seq(|s|, i requires 0 <= i < |s| => ACreate(s[i].value.time))
  }

  /** Nothing but k timers created so far. */
  ghost predicate Counting(w: World, k: nat) {
    && w.created == k
    && w.pool.free == Range(k, k + |w.pool.free|) && w.pool.next == k + |w.pool.free| && w.pool.free != []
    && |w.heap.ids.order| == k
    && w.heap.ids.free == Range(k, k + |w.heap.ids.free|) && w.heap.ids.free != []
  }

  lemma InOrder(s: seq<HeapNode<Entry>>, k: nat)
    requires Ordered(Sooner, s) && 0 < k < |s|
    ensures !Sooner(s[k].value, s[Parent(k)].value)
  {
    assert EdgeOk(Sooner, s, k);
  }

  /** An insertion takes the first of the consecutive free ids, and growth goes on where they end. */
  lemma NextFree<T>(t: Table<T>, alloc: nat, k: nat, obj: T)
    requires alloc > 0 && t.free != [] && t.free == Range(k, k + |t.free|) && |t.order| == k
    ensures t.NextId() == k
    ensures var u := t.Insert(alloc, obj); u.free != [] && u.free == Range(k + 1, k + 1 + |u.free|) && |u.order| == k + 1
  {
  }

  /** So does Get with the objects of the pool. */
  lemma NextObject(p: Pool, k: nat)
    requires p.alloc > 0 && p.free != [] && p.free == Range(k, k + |p.free|) && p.next == k + |p.free|
    ensures p.Get().0 == k
    ensures var q := p.Get().1; q.free != [] && q.free == Range(k + 1, k + 1 + |q.free|) && q.next == k + 1 + |q.free|
  {
  }

  lemma CreateNext(w: World, s: seq<HeapNode<Entry>>, k: nat)
    requires Safe(w) && Counting(w, k) && k < |s| && w.heap.nodes == s[..k] && Ordered(Sooner, s) && Numbered(s)
    ensures var u := Step(w, ACreate(s[k].value.time)); Counting(u, k + 1) && u.heap.nodes == s[..k + 1]
  {
    hide Safe, Ordered, Numbered, Push, Table.Insert, Pool.Get;
    SafeParts(w);
    NextFree(w.heap.ids, w.alloc, k, k);
    NextObject(w.pool, k);
    var node := HeapNode(k, Entry(k, s[k].value.time, k));
    assert node == s[k] by { NumberedAt(s, k); }
    assert Push(Sooner, s[..k], node) == s[..k + 1] by {
      if k > 0 { InOrder(s, k); }
      PushAtEnd(Sooner, s[..k], node);
    }
  }

  lemma NumberedAt(s: seq<HeapNode<Entry>>, k: nat)
    requires Numbered(s) && k < |s|
    ensures s[k] == HeapNode(k, Entry(k, s[k].value.time, k))
  {
  }

  lemma {:induction false} CreatesBuild(w: World, s: seq<HeapNode<Entry>>, k: nat)
    requires Safe(w) && Counting(w, k) && k <= |s| && w.heap.nodes == s[..k] && Ordered(Sooner, s) && Numbered(s)
    ensures RunWorld(w, Creates(s)[k..]).heap.nodes == s
    decreases |s| - k
  {
    hide Safe, Step, Counting, Ordered, Numbered;
    if k < |s| {
      CreateNext(w, s, k);
      assert Creates(s)[k..][0] == ACreate(s[k].value.time);
      assert Creates(s)[k..][1..] == Creates(s)[k + 1..];
      CreatesBuild(Step(w, ACreate(s[k].value.time)), s, k + 1);
    }
  }

  /** Creating the timers of an ordered heap in the order of its positions builds it, from start-up and whatever the
      allocation numbers. */
  lemma OrderedHeapIsReached(poolAlloc: nat, heapAlloc: nat, s: seq<HeapNode<Entry>>)
    requires poolAlloc > 0 && heapAlloc > 0 && Ordered(Sooner, s) && Numbered(s)
    ensures Safe(FreshWorld(poolAlloc, heapAlloc))
    ensures RunWorld(FreshWorld(poolAlloc, heapAlloc), Creates(s)).heap.nodes == s
  {
    FreshWorldSafe(poolAlloc, heapAlloc);
    CreatesBuild(FreshWorld(poolAlloc, heapAlloc), s, 0);
    assert Creates(s)[0..] == Creates(s);
  }
}
