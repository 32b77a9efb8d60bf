/** A run of the bridge with one usable slot in which a message overtakes an older one that sleeps after a failed Push. */
module BridgeExample {
  import opened Common
  import opened SpscSteps
  import B = Bridge

  /** Where the actions lead, if each is possible when its turn comes. */
  ghost function After<T>(w: B.World<T>, actions: seq<B.Action<T>>): Option<B.World<T>>
    decreases |actions|
  {
    if actions == [] then Some(w)
    else if B.Possible(w, actions[0]) && B.Lawful(w, actions[0]) then After(B.Next(w, actions[0]), actions[1..])
    else None
  }

  lemma {:induction false} AfterBoth<T>(w: B.World<T>, first: seq<B.Action<T>>, second: seq<B.Action<T>>)
    requires After(w, first).Some?
    ensures After(w, first + second) == After(After(w, first).value, second)
    decreases |first|
  {
    if first == [] {
      assert first + second == second;
    } else {
      assert (first + second)[1..] == first[1..] + second;
      AfterBoth(B.Next(w, first[0]), first[1..], second);
    }
  }

  lemma One<T>(w: B.World<T>, a: B.Action<T>, rest: seq<B.Action<T>>)
    requires B.Possible(w, a) && B.Lawful(w, a)
    ensures After(w, [a] + rest) == After(B.Next(w, a), rest)
  {
    assert ([a] + rest)[1..] == rest;
  }

  lemma Five<T>(w: B.World<T>, w1: B.World<T>, w2: B.World<T>, w3: B.World<T>, w4: B.World<T>, f: seq<B.Action<T>>)
    requires |f| == 5
    requires B.Possible(w, f[0]) && B.Lawful(w, f[0]) && B.Next(w, f[0]) == w1
    requires B.Possible(w1, f[1]) && B.Lawful(w1, f[1]) && B.Next(w1, f[1]) == w2
    requires B.Possible(w2, f[2]) && B.Lawful(w2, f[2]) && B.Next(w2, f[2]) == w3
    requires B.Possible(w3, f[3]) && B.Lawful(w3, f[3]) && B.Next(w3, f[3]) == w4
    requires B.Possible(w4, f[4]) && B.Lawful(w4, f[4])
    ensures After(w, f) == Some(B.Next(w4, f[4]))
  {
    hide B.Possible, B.Lawful, B.Next;
    One(w4, f[4], []);
    One(w3, f[3], [f[4]]);
    One(w2, f[2], [f[3], f[4]]);
    One(w1, f[1], [f[2], f[3], f[4]]);
    One(w, f[0], [f[1], f[2], f[3], f[4]]);
    assert f == [f[0]] + [f[1], f[2], f[3], f[4]];
    assert [f[1], f[2], f[3], f[4]] == [f[1]] + [f[2], f[3], f[4]];
    assert [f[2], f[3], f[4]] == [f[2]] + [f[3], f[4]];
    assert [f[3], f[4]] == [f[3]] + [f[4]];
    assert [f[4]] == [f[4]] + [];
  }

  function M0(): B.Msg<int> { B.Msg(0, 0) }
  function M1(): B.Msg<int> { B.Msg(1, 1) }
  function M2(): B.Msg<int> { B.Msg(2, 2) }

  function Begun(): B.World<int> {
    B.World(State(2, [Raw(0), Raw(0)], [0], [0], PIdle, CIdle, 0, 0, [], []), [], [], [], 0, [])
  }

  /** The first message fills the only usable slot. */
  function Filled(): B.World<int> {
    B.World(State(2, [Live(M0(), 1), Raw(0)], [0], [0, 1], PIdle, CIdle, 0, 0, [M0()], []), [], [M0()], [M0()], 0, [[]])
  }

  /** The Push of the second has failed and its coroutine sleeps. */
  function Asleep(): B.World<int> {
    Filled().(waiting := [M1()], spawned := [M0(), M1()], attempts := [M0(), M1()], failures := 1)
  }

  /** The first has been popped. */
  function Drained(): B.World<int> {
    Asleep().(queue := State(2, [Raw(1), Raw(0)], [0, 1], [0, 1], PIdle, CIdle, 0, 1, [M0()], [M0()]))
  }

  /** The third has been pushed while the second slept on. */
  function Overtaken(): B.World<int> {
    B.World(State(2, [Raw(1), Live(M2(), 2)], [0, 1], [0, 1, 0], PIdle, CIdle, 1, 1, [M0(), M2()], [M0()]),
            [M1()], [M0(), M1(), M2()], [M0(), M1(), M2()], 1, [[], [M1()]])
  }

  function Fill(): seq<B.Action<int>> { [B.Spawn(0), B.Try(0), B.Queue(PushLoad(0)), B.Queue(PushConstruct), B.Queue(PushPublish)] }
  function Fail(): seq<B.Action<int>> { [B.Spawn(1), B.Try(0), B.Queue(PushLoad(0))] }
  function Drain(): seq<B.Action<int>> {
    [B.Queue(PopStart), B.Queue(PopLoad(1)), B.Queue(PopMove), B.Queue(PopDestroy), B.Queue(PopPublish)]
  }
  function Overtake(): seq<B.Action<int>> { [B.Spawn(2), B.Try(1), B.Queue(PushLoad(1)), B.Queue(PushConstruct), B.Queue(PushPublish)] }

  lemma FailLeads()
    ensures After(Filled(), Fail()) == Some(Asleep())
  {
    var w1 := Filled().(waiting := [M1()], spawned := [M0(), M1()]);
    var w2 := w1.(queue := w1.queue.(producer := PLoaded(M1(), 1, 0)), waiting := [], attempts := [M0(), M1()]);
    var f := Fail();
    assert B.Next(Filled(), f[0]) == w1;
    assert B.Next(w1, f[1]) == w2;
    assert B.Next(w2, f[2]) == Asleep();
    One(w2, f[2], []);
    One(w1, f[1], [f[2]]);
    One(Filled(), f[0], [f[1], f[2]]);
    assert f == [f[0]] + [f[1], f[2]] && [f[1], f[2]] == [f[1]] + [f[2]] && [f[2]] == [f[2]] + [];
  }

  lemma BegunIsStart()
    ensures B.Start<int>(2) == Begun()
  {
    assert seq(2, _ => Slot<B.Msg<int>>.Raw(0)) == [Raw(0), Raw(0)];
  }

  lemma FillLeads()
    ensures After(Begun(), Fill()) == Some(Filled())
  {
    var f := Fill();
    var w1 := Begun().(waiting := [M0()], spawned := [M0()]);
    var w2 := w1.(queue := w1.queue.(producer := PLoaded(M0(), 0, 1)), waiting := [], attempts := [M0()]);
    var w3 := w2.(queue := w2.queue.(producer := PFree(M0(), 0, 1)));
    var w4 := w3.(queue := w3.queue.(producer := PBuilt(M0(), 1), slots := [Live(M0(), 1), Raw(0)]));
    assert B.Next(Begun(), f[0]) == w1;
    assert B.Next(w1, f[1]) == w2;
    assert B.Next(w2, f[2]) == w3;
    assert B.Next(w3, f[3]) == w4;
    assert B.Next(w4, f[4]) == Filled();
    Five(Begun(), w1, w2, w3, w4, f);
  }

  lemma DrainLeads()
    ensures After(Asleep(), Drain()) == Some(Drained())
  {
    var f := Drain();
    var w := Asleep();
    var w1 := w.(queue := w.queue.(consumer := CLoaded(0)));
    var w2 := w1.(queue := w1.queue.(consumer := CReady(0, 1), seenWrite := 1));
    var w3 := w2.(queue := w2.queue.(consumer := CMoved(0, 1, M0()), slots := [Moved(1), Raw(0)]));
    var w4 := w3.(queue := w3.queue.(consumer := CDestroyed(1, M0()), slots := [Raw(1), Raw(0)]));
    assert B.Next(w, f[0]) == w1;
    assert B.Next(w1, f[1]) == w2;
    assert B.Next(w2, f[2]) == w3;
    assert B.Next(w3, f[3]) == w4;
    assert B.Next(w4, f[4]) == Drained();
    Five(w, w1, w2, w3, w4, f);
  }

  lemma OvertakeLeads()
    ensures After(Drained(), Overtake()) == Some(Overtaken())
  {
    var f := Overtake();
    var w := Drained();
    var w1 := w.(waiting := [M1(), M2()], spawned := [M0(), M1(), M2()]);
    var w2 := w1.(queue := w1.queue.(producer := PLoaded(M2(), 1, 0)), waiting := [M1()], attempts := [M0(), M1(), M2()]);
    var w3 := w2.(queue := w2.queue.(producer := PFree(M2(), 1, 0), seenRead := 1));
    var w4 := w3.(queue := w3.queue.(producer := PBuilt(M2(), 0), slots := [Raw(1), Live(M2(), 2)]));
    assert B.Next(w, f[0]) == w1;
    assert B.Next(w1, f[1]) == w2;
    assert B.Next(w2, f[2]) == w3;
    assert B.Next(w3, f[3]) == w4;
    assert B.Next(w4, f[4]) == Overtaken();
    Five(w, w1, w2, w3, w4, f);
  }

  /** A message can be pushed while an older one sleeps after a failed Push: then the order of the pushes
      is neither that of spawning nor that of the calls of Push. */
  lemma RetryLosesOrder()
    ensures var end := After(B.Start<int>(2), Fill() + Fail() + Drain() + Overtake());
            && end == Some(Overtaken())
            && end.value.failures == 1
            && !(end.value.queue.pushed <= end.value.spawned)
            && !(end.value.queue.pushed <= end.value.attempts)
  {
    BegunIsStart();
    FillLeads();
    FailLeads();
    DrainLeads();
    OvertakeLeads();
    hide B.Possible, B.Lawful, B.Next;
    AfterBoth(Begun(), Fill(), Fail());
    AfterBoth(Begun(), Fill() + Fail(), Drain());
    AfterBoth(Begun(), Fill() + Fail() + Drain(), Overtake());
    assert Overtaken().queue.pushed[1] != Overtaken().spawned[1];
  }
}
