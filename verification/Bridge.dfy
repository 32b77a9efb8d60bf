/** The cross-thread bridge of src/units/server_unit.cpp: coroutines that retry until their message fits into the queue,
    and a loop on the other thread that drains it. The queue is the one of SpscSteps, at its finest grain. */
module Bridge {
  import opened Common
  import opened SpscSteps
  import SpscQueues

  /** A message with the number of its _QueueRecv coroutine, counted in the order of spawning. */
  datatype Msg<T> = Msg(tag: nat, body: T)

  /** waiting are the coroutines not inside Push: not yet run, or asleep after a failed Push. attempts logs the messages
      Push was called with, failures counts its failed calls, and waits[j] are the messages that were waiting when
      queue.pushed[j] was published. What the other thread delivers is queue.popped. */
  datatype World<T> = World(
    queue: State<Msg<T>>,
    waiting: seq<Msg<T>>,
    spawned: seq<Msg<T>>,
    attempts: seq<Msg<T>>,
    failures: nat,
    waits: seq<seq<Msg<T>>>
  )

  function Start<T>(size: nat): World<T> {
    World(SpscSteps.Start(size), [], [], [], 0, [])
  }

  /** A wake-up is not a step of its own: a waiting coroutine may try at any moment, as any of them resets the timer
      they share. */
  datatype Action<T> = Spawn(body: T) | Try(i: nat) | Queue(act: Act<Msg<T>>)

  /** The message inside Push. */
  function InPush<T>(p: Producer<T>): seq<T> {
    if p.PIdle? then [] else [p.value]
  }

  ghost predicate Possible<T>(w: World<T>, a: Action<T>) {
    match a
    case Spawn(_) => true
    case Try(i) => i < |w.waiting| && Enabled(w.queue, PushStart(w.waiting[i]))
    case Queue(act) => !act.PushStart? && Enabled(w.queue, act)
  }

  /** What the language demands of the step. */
  ghost predicate Lawful<T>(w: World<T>, a: Action<T>) {
    a.Queue? ==> Legal(w.queue, a.act)
  }

  ghost function Next<T>(w: World<T>, a: Action<T>): World<T>
    requires Possible(w, a) && Lawful(w, a)
  {
    match a
    case Spawn(body) =>
      var m := Msg(|w.spawned|, body);
      w.(spawned := w.spawned + [m], waiting := w.waiting + [m])
    case Try(i) =>
      w.(queue := Do(w.queue, PushStart(w.waiting[i])), waiting := Without(w.waiting, i), attempts := w.attempts + [w.waiting[i]])
    case Queue(act) =>
      var q := Do(w.queue, act);
      if act.PushLoad? && q.producer.PIdle? then
        w.(queue := q, waiting := w.waiting + [w.queue.producer.value], failures := w.failures + 1)
      else if act.PushPublish? then
        w.(queue := q, waits := w.waits + [w.waiting])
      else
        w.(queue := q)
  }

  // ---------- Conservation ----------

  /** Every message spawned is in exactly one place: waiting, inside Push, or pushed. */
  ghost predicate Conserved<T>(w: World<T>) {
    multiset(w.spawned) == multiset(w.waiting) + multiset(InPush(w.queue.producer)) + multiset(w.queue.pushed)
  }

  ghost predicate Tagged<T>(w: World<T>) {
    forall i :: 0 <= i < |w.spawned| ==> w.spawned[i].tag == i
  }

  lemma WithoutMultiset<T>(s: seq<T>, k: nat)
    requires k < |s|
    ensures multiset(s) == multiset(Without(s, k)) + multiset{s[k]}
  {
    assert s == s[..k] + [s[k]] + s[k + 1..];
  }

  /** A step of the queue moves a message from Push to the queue, or nowhere. */
  lemma QueuePlaces<T>(s: State<T>, act: Act<T>)
    requires Enabled(s, act) && Legal(s, act) && !act.PushStart?
    ensures var t := Do(s, act);
            if act.PushLoad? && t.producer.PIdle? then t.pushed == s.pushed && InPush(s.producer) == [s.producer.value]
            else if act.PushPublish? then
              t.pushed == s.pushed + [s.producer.value] && InPush(s.producer) == [s.producer.value] && t.producer.PIdle?
            else t.pushed == s.pushed && InPush(t.producer) == InPush(s.producer)
  {
  }

  lemma QueueConserves<T>(w: World<T>, act: Act<Msg<T>>)
    requires Conserved(w) && Possible(w, Queue(act)) && Lawful(w, Queue(act))
    ensures Conserved(Next(w, Queue(act)))
  {
    QueuePlaces(w.queue, act);
    hide Do, Enabled, Legal;
    var u := Next(w, Queue(act));
    if act.PushLoad? && u.queue.producer.PIdle? {
      assert u.waiting == w.waiting + [w.queue.producer.value];
    } else {
      assert u.waiting == w.waiting;
    }
  }

  lemma NextConserves<T>(w: World<T>, a: Action<T>)
    requires Conserved(w) && Possible(w, a) && Lawful(w, a)
    ensures Conserved(Next(w, a))
  {
    match a {
      case Spawn(_) => hide Do, Enabled, Legal;
      case Try(i) => WithoutMultiset(w.waiting, i);
      case Queue(act) => QueueConserves(w, act);
    }
  }

  // ---------- Order ----------

  /** As long as no Push has failed, what was pushed is what Push was called with, in that order. */
  ghost predicate Orderly<T>(w: World<T>) {
    w.failures == 0 ==> w.attempts == w.queue.pushed + InPush(w.queue.producer)
  }

  lemma NextOrderly<T>(w: World<T>, a: Action<T>)
    requires Orderly(w) && Possible(w, a) && Lawful(w, a)
    ensures Orderly(Next(w, a))
  {
  }

  /** Tags identify messages, so the three places have no message in common and none twice. */
  lemma PlaceOf<T>(w: World<T>, m: Msg<T>)
    requires Conserved(w) && Tagged(w)
    ensures multiset(w.waiting)[m] + multiset(InPush(w.queue.producer))[m] + multiset(w.queue.pushed)[m] ==
            if m.tag < |w.spawned| && w.spawned[m.tag] == m then 1 else 0
  {
    Single(w.spawned, m);
  }

  lemma {:induction false} Single<T>(s: seq<Msg<T>>, m: Msg<T>)
    requires forall i :: 0 <= i < |s| ==> s[i].tag == i
    ensures multiset(s)[m] == if m.tag < |s| && s[m.tag] == m then 1 else 0
  {
    if s != [] {
      var n := |s| - 1;
      assert s == s[..n] + [s[n]];
      Single(s[..n], m);
    }
  }

  lemma {:induction false} OnlyTags<T>(s: seq<Msg<T>>, sel: Msg<T> -> bool)
    requires forall i :: 0 <= i < |s| ==> s[i].tag == i
    ensures forall m :: m in Only(s, sel) ==> m.tag < |s|
    ensures forall i, j :: 0 <= i < j < |Only(s, sel)| ==> Only(s, sel)[i].tag < Only(s, sel)[j].tag
  {
    if s != [] {
      OnlyTags(s[..|s| - 1], sel);
    }
  }

  /** An older selected message is waiting. */
  predicate OlderIn<T>(waiting: seq<Msg<T>>, m: Msg<T>, sel: Msg<T> -> bool) {
    exists i :: 0 <= i < |waiting| && sel(waiting[i]) && waiting[i].tag < m.tag
  }

  /** A selected message has been published while an older one was waiting. */
  ghost predicate Overtaken<T>(w: World<T>, sel: Msg<T> -> bool) {
    exists j :: 0 <= j < |w.waits| && j < |w.queue.pushed| && sel(w.queue.pushed[j]) && OlderIn(w.waits[j], w.queue.pushed[j], sel)
  }

  /** The selected messages have been pushed in the order of spawning. */
  ghost predicate InOrder<T>(w: World<T>, sel: Msg<T> -> bool) {
    Only(w.queue.pushed, sel) <= Only(w.spawned, sel)
  }

  /** A selected message not yet pushed comes after all those pushed, as long as these are in order. */
  lemma UnpushedPlace<T>(w: World<T>, m: Msg<T>, sel: Msg<T> -> bool) returns (k: nat)
    requires Conserved(w) && Tagged(w) && InOrder(w, sel) && sel(m)
    requires m in w.waiting || m in InPush(w.queue.producer)
    ensures |Only(w.queue.pushed, sel)| <= k < |Only(w.spawned, sel)| && Only(w.spawned, sel)[k] == m
  {
    PlaceOf(w, m);
    assert m in multiset(w.waiting) || m in multiset(InPush(w.queue.producer));
    assert m !in multiset(w.queue.pushed);
    OnlyMember(w.spawned, sel, m);
    OnlyMember(w.queue.pushed, sel, m);
    k :| 0 <= k < |Only(w.spawned, sel)| && Only(w.spawned, sel)[k] == m;
    PrefixMember(Only(w.queue.pushed, sel), Only(w.spawned, sel), k);
  }

  /** The oldest selected message not yet pushed is inside Push or waits. */
  lemma OldestUnpushed<T>(w: World<T>, sel: Msg<T> -> bool)
    requires Conserved(w) && Tagged(w) && InOrder(w, sel) && |Only(w.queue.pushed, sel)| < |Only(w.spawned, sel)|
    ensures var o := Only(w.spawned, sel)[|Only(w.queue.pushed, sel)|];
            sel(o) && (o in w.waiting || o in InPush(w.queue.producer))
  {
    var p, s := Only(w.queue.pushed, sel), Only(w.spawned, sel);
    var o := s[|p|];
    OnlyTags(w.spawned, sel);
    assert forall i :: 0 <= i < |p| ==> p[i] == s[i];
    OnlyMember(w.spawned, sel, o);
    OnlyMember(w.queue.pushed, sel, o);
    PlaceOf(w, o);
    assert o in multiset(w.waiting) || o in multiset(InPush(w.queue.producer));
  }

  /** A publication keeps the order of spawning exactly when no older message is waiting. */
  lemma PublishOrder<T>(w: World<T>, sel: Msg<T> -> bool)
    requires Conserved(w) && Tagged(w) && InOrder(w, sel) && w.queue.producer.PBuilt? && sel(w.queue.producer.value)
    ensures var m := w.queue.producer.value;
            Only(w.queue.pushed + [m], sel) <= Only(w.spawned, sel) <==> !OlderIn(w.waiting, m, sel)
  {
    var m, p, s := w.queue.producer.value, Only(w.queue.pushed, sel), Only(w.spawned, sel);
    OnlyAppend(w.queue.pushed, m, sel);
    OnlyTags(w.spawned, sel);
    var k := UnpushedPlace(w, m, sel);
    OldestUnpushed(w, sel);
    assert (p + [m])[|p|] == m;
    forall i | 0 <= i < |w.waiting| && sel(w.waiting[i]) ensures w.waiting[i].tag >= s[|p|].tag {
      var j := UnpushedPlace(w, w.waiting[i], sel);
    }
  }

  /** So far no selected message has overtaken another exactly when they have been pushed in the order of spawning. */
  ghost predicate OrderTold<T>(w: World<T>, sel: Msg<T> -> bool) {
    !Overtaken(w, sel) <==> InOrder(w, sel)
  }

  ghost predicate Good<T>(w: World<T>) {
    Inv(w.queue) && Conserved(w) && Tagged(w) && Orderly(w) && |w.waits| == |w.queue.pushed|
  }

  lemma PublishedOvertaken<T>(w: World<T>, u: World<T>, m: Msg<T>, sel: Msg<T> -> bool)
    requires |w.waits| == |w.queue.pushed|
    requires u.waits == w.waits + [w.waiting] && u.queue.pushed == w.queue.pushed + [m]
    ensures Overtaken(u, sel) <==> Overtaken(w, sel) || (sel(m) && OlderIn(w.waiting, m, sel))
  {
    hide OlderIn;
    var n := |w.waits|;
    assert u.waits[n] == w.waiting && u.queue.pushed[n] == m;
    assert forall j :: 0 <= j < n ==> u.waits[j] == w.waits[j] && u.queue.pushed[j] == w.queue.pushed[j];
  }

  lemma SpawnOrder<T>(w: World<T>, m: Msg<T>, sel: Msg<T> -> bool)
    requires Conserved(w) && Tagged(w) && m.tag == |w.spawned|
    ensures Only(w.queue.pushed, sel) <= Only(w.spawned + [m], sel) <==> InOrder(w, sel)
  {
    var p := Only(w.queue.pushed, sel);
    OnlyAppend(w.spawned, m, sel);
    OnlyMember(w.queue.pushed, sel, m);
    PlaceOf(w, m);
    assert m !in multiset(w.queue.pushed);
    assert p != [] ==> p[|p| - 1] in p;
  }

  lemma NextOrderTold<T>(w: World<T>, a: Action<T>, sel: Msg<T> -> bool)
    requires Good(w) && OrderTold(w, sel) && Possible(w, a) && Lawful(w, a)
    ensures OrderTold(Next(w, a), sel)
  {
    hide Inv, Overtaken, Only, Conserved;
    var u := Next(w, a);
    if a.Queue? && a.act.PushPublish? {
      var m := w.queue.producer.value;
      PublishedOvertaken(w, u, m, sel);
      OnlyAppend(w.queue.pushed, m, sel);
      if InOrder(w, sel) && sel(m) {
        PublishOrder(w, sel);
      }
    } else {
      assert u.queue.pushed == w.queue.pushed && u.waits == w.waits;
      SameOvertaken(w, u, sel);
      if a.Spawn? {
        SpawnOrder(w, Msg(|w.spawned|, a.body), sel);
      }
    }
  }

  lemma SameOvertaken<T>(w: World<T>, u: World<T>, sel: Msg<T> -> bool)
    requires u.queue.pushed == w.queue.pushed && u.waits == w.waits
    ensures Overtaken(u, sel) == Overtaken(w, sel)
  {
  }

  lemma PossibleLawful<T>(w: World<T>, a: Action<T>)
    requires Inv(w.queue) && Possible(w, a)
    ensures Lawful(w, a)
  {
    if a.Queue? {
      StepLegal(w.queue, a.act);
    }
  }

  lemma NextWaits<T>(w: World<T>, a: Action<T>)
    requires |w.waits| == |w.queue.pushed| && Possible(w, a) && Lawful(w, a)
    ensures |Next(w, a).waits| == |Next(w, a).queue.pushed|
  {
  }

  lemma NextGood<T>(w: World<T>, a: Action<T>)
    requires Good(w) && Possible(w, a)
    ensures Lawful(w, a) && Good(Next(w, a))
  {
    hide Inv, Do, Enabled, Legal, Conserved, Orderly;
    PossibleLawful(w, a);
    NextConserves(w, a);
    NextOrderly(w, a);
    NextWaits(w, a);
    if a.Try? {
      StepInv(w.queue, PushStart(w.waiting[a.i]));
    } else if a.Queue? {
      StepInv(w.queue, a.act);
    }
  }

  // ---------- Runs ----------

  ghost predicate IsBridgeRun<T>(states: seq<World<T>>, actions: seq<Action<T>>) {
    && |states| == |actions| + 1
    && states[0].queue.size >= 2 && states[0] == Start(states[0].queue.size)
    && (forall i :: 0 <= i < |actions| ==>
          Possible(states[i], actions[i]) && (Lawful(states[i], actions[i]) ==> states[i + 1] == Next(states[i], actions[i])))
  }

  lemma StartGood<T>(size: nat)
    requires size >= 2
    ensures Good(Start<T>(size))
  {
    StartInv<Msg<T>>(size);
  }

  lemma {:induction false} BridgeRunGood<T>(states: seq<World<T>>, actions: seq<Action<T>>, k: nat)
    requires IsBridgeRun(states, actions) && k <= |actions|
    ensures Good(states[k])
    ensures forall i :: 0 <= i < k ==> Lawful(states[i], actions[i])
    decreases k
  {
    hide Lawful, Good, Possible, Next;
    if k == 0 {
      StartGood<T>(states[0].queue.size);
    } else {
      BridgeRunGood(states, actions, k - 1);
      NextGood(states[k - 1], actions[k - 1]);
      assert states[k - 1 + 1] == Next(states[k - 1], actions[k - 1]);
    }
  }

  /** In every schedule and for any choice of messages, for example those of one connection: they are pushed in the order of
      spawning exactly as long as none is published while an older one of them waits. */
  lemma {:induction false} PushedInOrderIff<T>(states: seq<World<T>>, actions: seq<Action<T>>, k: nat, sel: Msg<T> -> bool)
    requires IsBridgeRun(states, actions) && k <= |actions|
    ensures Only(states[k].queue.pushed, sel) <= Only(states[k].spawned, sel) <==> !Overtaken(states[k], sel)
    decreases k
  {
    hide Good, Possible, Next;
    if k > 0 {
      PushedInOrderIff(states, actions, k - 1, sel);
      BridgeRunGood(states, actions, k - 1);
      NextGood(states[k - 1], actions[k - 1]);
      NextOrderTold(states[k - 1], actions[k - 1], sel);
      assert states[k - 1 + 1] == Next(states[k - 1], actions[k - 1]);
    }
  }

  /** The messages that have been pushed and not yet delivered. */
  function Underway<T>(s: State<T>): seq<T>
    requires |s.popped| <= |s.pushed|
  {
    s.pushed[|s.popped|..]
  }

  lemma PoppedFirst<T>(s: State<T>)
    requires Inv(s)
    ensures s.popped <= s.pushed && s.pushed == s.popped + Underway(s)
  {
  }

  lemma GoodPlaces<T>(w: World<T>)
    requires Good(w)
    ensures w.queue.popped <= w.queue.pushed
    ensures multiset(w.spawned) == multiset(w.waiting) + multiset(InPush(w.queue.producer))
                                   + multiset(Underway(w.queue)) + multiset(w.queue.popped)
    ensures forall m :: multiset(w.queue.popped)[m] <= 1
    ensures w.failures == 0 ==> w.queue.popped <= w.attempts
  {
    hide Inv;
    PoppedFirst(w.queue);
    forall m ensures multiset(w.queue.popped)[m] <= 1 {
      PlaceOf(w, m);
    }
  }

  predicate Any<T>(m: Msg<T>) { true }

  /** In every schedule: each message spawned is waiting, inside Push, on its way through the queue or delivered, in one of
      these places and once; deliveries are in the order of the pushes; if no Push has failed they are in the order of the
      calls of Push; and the pushes are in the order of spawning exactly when none has overtaken a waiting message. */
  lemma BridgeConserves<T>(states: seq<World<T>>, actions: seq<Action<T>>, k: nat)
    requires IsBridgeRun(states, actions) && k <= |actions|
    ensures var w := states[k];
            && w.queue.popped <= w.queue.pushed
            && multiset(w.spawned) == multiset(w.waiting) + multiset(InPush(w.queue.producer))
                                      + multiset(Underway(w.queue)) + multiset(w.queue.popped)
            && (forall m :: multiset(w.queue.popped)[m] <= 1)
            && (w.failures == 0 ==> w.queue.popped <= w.attempts)
            && (!Overtaken(w, Any) <==> w.queue.pushed <= w.spawned)
  {
    hide Good, Overtaken, Next, Possible, Lawful;
    BridgeRunGood(states, actions, k);
    GoodPlaces(states[k]);
    PushedInOrderIff(states, actions, k, Any);
    OnlyAll(states[k].queue.pushed, Any);
    OnlyAll(states[k].spawned, Any);
  }

  // ---------- The loop on the receiving thread ----------

  /** _UpdateRecv and _UpdateSend while no message arrives: everything queued is handed over, oldest first,
      and the loop is told whether there was anything. */
  method Update<T>(queue: SpscQueues.SpscQueue<T>) returns (busy: bool, delivered: seq<T>)
    requires queue.Valid()
    modifies queue`readIdx, queue.slots
    ensures queue.Valid() && queue.View() == []
    ensures delivered == old(queue.View())
    ensures busy <==> delivered != []
  {
    hide SpscQueues.RingOk, SpscQueues.Contents;
    busy, delivered := false, [];
    var ok, msg := queue.Pop();
    while ok
      invariant queue.Valid()
      invariant busy <==> delivered != []
      invariant ok ==> msg.Some? && delivered + [msg.value] + queue.View() == old(queue.View())
      invariant !ok ==> delivered == old(queue.View()) && queue.View() == []
      decreases ok, |queue.View()|
    {
      delivered := delivered + [msg.value];
      busy := true;
      ghost var rest := queue.View();
      ok, msg := queue.Pop();
      assert ok ==> delivered + rest == delivered + [msg.value] + queue.View();
    }
  }
}
