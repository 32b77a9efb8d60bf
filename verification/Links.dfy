/** What one connection goes through, without tables, pools or other connections; and that every connection of every run of
    a Server goes through just that. */
module Links {
  import opened Common
  import opened ObjectMaps
  import opened ObjectPools
  import opened Servers

  // ---------- One connection ----------

  /** A connection that is open or closed, with its writes under way, the read it is waiting for, and the number of messages
      it has reported. */
  datatype Link = Link(open: bool, sends: nat, reading: Option<At>, heard: nat)

  const NEW_LINK := Link(true, 0, Some(AtHead), 0)

  /** What an action means to the connection with id pid on object o. */
  function LinkStep(l: Link, pid: int, o: nat, a: Action): Link {
    match a
    case AAccept => l
    case ADisconnect(p) => if p == pid then l.(open := false) else l
    case ASend(p) => if p == pid then l.(sends := l.sends + 1) else l
    case AWritten(x, ok) => if x == o && l.sends > 0 then l.(sends := l.sends - 1, open := l.open && ok) else l
    case AHeadRead(x) =>
      if x == o && l.reading == Some(AtHead) then l.(reading := if l.open then Some(AtBody) else None) else l
    case ABodyRead(x) =>
      if x == o && l.reading == Some(AtBody) then l.(reading := Some(AtHead), heard := l.heard + 1) else l
    case AReadFailed(x) =>
      if x == o && l.reading.Some? then l.(open := false, reading := None) else l
  }

  /** Closed, with nothing under way: the connection is over. */
  predicate Done(l: Link) {
    !l.open && l.sends == 0 && l.reading == None
  }

  /** The connection after a run, or at its end if it ends on the way. */
  function LinkRun(l: Link, pid: int, o: nat, actions: seq<Action>): Link
    decreases |actions|
  {
    if actions == [] || Done(l) then l else LinkRun(LinkStep(l, pid, o, actions[0]), pid, o, actions[1..])
  }

  // ---------- A connection of a Server ----------

  function Heard(events: seq<Event>, c: nat): nat {
    multiset(events)[EvRecv(c)]
  }

  function LinkOf(w: World, o: nat): Link {
    Link(w.PeerAt(o).socket.Open?, w.sends[o], if o in w.recvs then Some(w.recvs[o]) else None, Heard(w.events, w.ConnAt(o)))
  }

  /** The connection is over: it has said DISC, its object is back in the pool, in front, and its id is free. */
  predicate Ended(w: World, u: World, o: nat) {
    && o !in u.taken && u.pool.free != [] && u.pool.free[0] == o
    && w.PeerAt(o).pid !in u.table.objs
    && u.returned == w.returned + [w.ConnAt(o)]
    && u.events == w.events + [EvDisc(w.ConnAt(o))]
  }

  /** From w to u the connection on o has become l. */
  predicate Became(w: World, u: World, o: nat, l: Link) {
    if Done(l) then Ended(w, u, o)
    else o in u.taken && LinkOf(u, o) == l && u.ConnAt(o) == w.ConnAt(o) && u.PeerAt(o).pid == w.PeerAt(o).pid
  }

  lemma NotDone(w: World, o: nat)
    requires Safe(w) && o in w.taken
    ensures !Done(LinkOf(w, o)) && PeerOk(w, o) && w.Live(o)
  {
    hide Log;
    assert PeerOk(w, o);
    assert w.PeerAt(o).waitToRelease ==> w.Outstanding(o) > 0;
  }

  lemma HeardAppend(events: seq<Event>, e: Event, c: nat)
    ensures Heard(events + [e], c) == Heard(events, c) + if e == EvRecv(c) then 1 else 0
  {
    assert multiset(events + [e]) == multiset(events) + multiset{e};
  }

  /** The release of x ends the connection on x and leaves the one on o alone. */
  lemma Deleted(v: World, x: nat, o: nat)
    requires Frame(v) && v.Ready(x) && o in v.taken
    ensures var u := DelPeer(v, x);
            if x == o then Ended(v, u, o)
            else o in u.taken && LinkOf(u, o) == LinkOf(v, o) && u.ConnAt(o) == v.ConnAt(o) && u.PeerAt(o) == v.PeerAt(o)
  {
    DelPeerFields(v, x);
    DelPeerTable(v, x);
    hide Frame, Table.Erase, Pool.Put, World.PeerAt, World.Ready, World.Live;
    HeardAppend(v.events, EvDisc(v.ConnAt(x)), v.ConnAt(o));
  }

  /** What _CheckRelease of x makes of the connection on o. */
  lemma Checked(w: World, v: World, x: nat, o: nat)
    requires Frame(v) && v.Ready(x) && o in v.taken && PeerOk(v, o)
    requires v.returned == w.returned && v.events == w.events && v.connOf == w.connOf && v.PeerAt(o).pid == w.PeerAt(o).pid
    requires x != o ==> !Done(LinkOf(v, o))
    ensures Became(w, CheckRelease(v, x), o, LinkOf(v, o))
  {
    hide Frame, DelPeer, World.Live;
    var p := v.PeerAt(x);
    if p.waitToRelease && p.sending == 0 && !p.recving {
      Deleted(v, x, o);
    }
  }

  lemma AcceptLeaves(w: World, o: nat)
    requires Safe(w) && o in w.taken
    ensures w.pool.free != [] && w.table.free != []
    ensures Became(w, AddPeer(w), o, LinkOf(w, o))
  {
    hide Log, Frame, PeerOk, Stories;
    NotDone(w, o);
    AddPeerFields(w);
    var u := AddPeer(w);
    assert u.events == w.events + [EvConn(w.conns)] && u.connOf == w.connOf[w.pool.Get().0 := w.conns];
    hide AddPeer, World.PeerAt;
    HeardAppend(w.events, EvConn(w.conns), w.ConnAt(o));
  }

  lemma DisconnectLinks(w: World, p: int, o: nat)
    requires Objects(w, {}) && o in w.taken
    ensures LinkOf(Disconnect(w, p), o) == if p == w.PeerAt(o).pid then LinkOf(w, o).(open := false) else LinkOf(w, o)
    ensures Disconnect(w, p).PeerAt(o).pid == w.PeerAt(o).pid
  {
    assert PeerOk(w, o) && w.Live(o);
    if p >= 0 && p in w.table.objs {
      LiveById(w, p);
    }
    hide Frame, PeerOk;
  }

  lemma WriteDoneLinks(w: World, x: nat, o: nat)
    requires w.PeerAt(x).sending > 0
    ensures var v, l := WriteDone(w, x), LinkOf(w, o);
            && LinkOf(v, o) == (if x == o && l.sends > 0 then l.(sends := l.sends - 1) else l)
            && v.PeerAt(o).pid == w.PeerAt(o).pid && v.taken == w.taken
            && v.returned == w.returned && v.events == w.events && v.connOf == w.connOf
  {
  }

  lemma WrittenLinks(w: World, x: nat, ok: bool, o: nat)
    requires Objects(w, {}) && x in w.sends && o in w.taken
    ensures x in w.taken && w.Ready(x) && w.PeerAt(x).sending > 0
    ensures Became(w, SendDone(w, x, ok), o, LinkStep(LinkOf(w, o), w.PeerAt(o).pid, o, AWritten(x, ok)))
  {
    hide Frame, CheckRelease, PeerOk, WriteDone, Became;
    ApplyReady(w, x);
    var u := if ok then w else Disconnect(w, w.PeerAt(x).pid);
    DisconnectObjects(w, w.PeerAt(x).pid);
    DisconnectLinks(w, w.PeerAt(x).pid, o);
    OwnPid(w, x, o);
    WriteDoneObjects(w, x);
    WriteDoneObjects(u, x);
    var v := WriteDone(u, x);
    WriteDoneLinks(u, x, o);
    OtherNotDone(v, x, o);
    Checked(w, v, x, o);
    assert LinkOf(v, o) == LinkStep(LinkOf(w, o), w.PeerAt(o).pid, o, AWritten(x, ok));
  }

  lemma OwnPid(w: World, x: nat, o: nat)
    requires Frame(w) && x in w.taken && o in w.taken
    ensures w.PeerAt(x).pid == w.PeerAt(o).pid <==> x == o
  {
    assert w.Live(x) && w.Live(o);
  }

  lemma OtherNotDone(v: World, x: nat, o: nat)
    requires Objects(v, {x}) && o in v.taken && x in v.taken
    ensures PeerOk(v, o) && Frame(v) && v.Ready(x)
    ensures x != o ==> !Done(LinkOf(v, o))
  {
    assert PeerOk(v, o);
    TakenReady(v, x);
    hide Frame;
  }

  lemma ExitedLinks(w: World, x: nat, o: nat)
    requires Objects(w, {}) && x in w.recvs && o in w.taken && !w.PeerAt(x).socket.Open?
    ensures w.Ready(x)
    ensures Became(w, RecvExit(w, x), o, if x == o then LinkOf(w, o).(reading := None) else LinkOf(w, o))
  {
    hide Frame, CheckRelease, PeerOk;
    ExitObjects(w, x);
    OtherNotDone(Exited(w, x), x, o);
    Checked(w, Exited(w, x), x, o);
  }

  lemma HeadLinks(w: World, x: nat, o: nat)
    requires Safe(w) && x in w.recvs && w.recvs[x].AtHead? && o in w.taken
    ensures w.Ready(x)
    ensures Became(w, RecvHead(w, x), o, LinkStep(LinkOf(w, o), w.PeerAt(o).pid, o, AHeadRead(x)))
  {
    hide Frame, PeerOk, RecvExit, Log;
    ApplyReady(w, x);
    NotDone(w, o);
    if !w.PeerAt(x).socket.Open? {
      ExitedLinks(w, x, o);
    }
  }

  lemma BodyLinks(w: World, x: nat, o: nat)
    requires Safe(w) && x in w.recvs && w.recvs[x].AtBody? && o in w.taken
    ensures w.Ready(x)
    ensures Became(w, RecvBody(w, x), o, LinkStep(LinkOf(w, o), w.PeerAt(o).pid, o, ABodyRead(x)))
  {
    hide Frame, PeerOk, RecvExit, Stories;
    ApplyReady(w, x);
    RecvBodyObjects(w, x);
    NotDone(w, o);
    HeardAppend(w.events, EvRecv(w.ConnAt(x)), w.ConnAt(o));
  }

  lemma FailedLinks(w: World, x: nat, o: nat)
    requires Objects(w, {}) && x in w.recvs && o in w.taken
    ensures w.Ready(x)
    ensures Became(w, RecvFail(w, x), o, LinkStep(LinkOf(w, o), w.PeerAt(o).pid, o, AReadFailed(x)))
  {
    hide Frame, PeerOk, RecvExit;
    ApplyReady(w, x);
    OwnPid(w, x, o);
    DisconnectObjects(w, w.PeerAt(x).pid);
    DisconnectLinks(w, w.PeerAt(x).pid, o);
    DisconnectLinks(w, w.PeerAt(x).pid, x);
    ExitedLinks(Disconnect(w, w.PeerAt(x).pid), x, o);
  }

  lemma RequestLinks(w: World, a: Action, o: nat)
    requires Safe(w) && o in w.taken && Applies(w, a) && (a.ADisconnect? || a.ASend?)
    ensures Became(w, Step(w, a), o, LinkStep(LinkOf(w, o), w.PeerAt(o).pid, o, a))
  {
    hide Frame, Log, PeerOk;
    NotDone(w, o);
    DisconnectLinks(w, a.pid, o);
    SendTarget(w, a.pid, o);
    OpenReceives(w, o);
  }

  lemma SendTarget(w: World, pid: nat, o: nat)
    requires Frame(w) && o in w.taken && pid in w.table.objs
    ensures w.table.objs[pid] == o <==> w.PeerAt(o).pid == pid
  {
    assert w.Live(o);
  }

  lemma OpenReceives(w: World, o: nat)
    requires Objects(w, {}) && o in w.taken
    ensures w.PeerAt(o).socket.Open? ==> o in w.recvs
  {
    assert PeerOk(w, o);
  }

  /** Every step does to every connection what the same action does to the connection alone. */
  lemma StepFollowsLink(w: World, a: Action, o: nat)
    requires Safe(w)
    ensures o in w.taken ==> Became(w, Step(w, a), o, LinkStep(LinkOf(w, o), w.PeerAt(o).pid, o, a))
  {
    hide Frame, Log, PeerOk, Became, AddPeer, SendDone, RecvHead, RecvBody, RecvFail, Disconnect, SendStart;
    if o in w.taken {
      if !Applies(w, a) {
        NothingBecame(w, a, o);
      } else {
        match a {
          case AAccept => AcceptLeaves(w, o);
          case ADisconnect(_) => RequestLinks(w, a, o);
          case ASend(_) => RequestLinks(w, a, o);
          case AWritten(x, ok) => WrittenLinks(w, x, ok, o);
          case AHeadRead(x) => HeadLinks(w, x, o);
          case ABodyRead(x) => BodyLinks(w, x, o);
          case AReadFailed(x) => FailedLinks(w, x, o);
        }
      }
    }
  }

  lemma NothingBecame(w: World, a: Action, o: nat)
    requires Safe(w) && o in w.taken && !Applies(w, a)
    ensures Became(w, w, o, LinkStep(LinkOf(w, o), w.PeerAt(o).pid, o, a))
  {
    hide Safe, PeerOk;
    NotDone(w, o);
  }

  // ---------- Single steps ----------

  /** What an action makes the server say. */
  function Said(w: World, a: Action): seq<Event> {
    match a
    case AAccept => [EvConn(w.conns)]
    case ADisconnect(_) => []
    case ASend(_) => []
    case ABodyRead(o) => if Applies(w, a) then [EvRecv(w.ConnAt(o))] else []
    case _ =>
      var l := LinkStep(LinkOf(w, a.o), w.PeerAt(a.o).pid, a.o, a);
      if Applies(w, a) && Done(l) then [EvDisc(w.ConnAt(a.o))] else []
  }

  lemma ReleaseOrSame(v: World, o: nat)
    requires v.Ready(o)
    ensures CheckRelease(v, o) == v || o !in CheckRelease(v, o).taken
  {
    hide Pool.Put, Table.Erase;
  }

  lemma SaysAtEnd(w: World, a: Action, v: World)
    requires Safe(w) && Applies(w, a) && (a.AWritten? || a.AHeadRead? || a.AReadFailed?) && a.o in w.taken
    requires v.Ready(a.o) && v.events == w.events && Step(w, a) == CheckRelease(v, a.o)
    ensures Step(w, a).events == w.events + Said(w, a)
  {
    hide Safe, Step, CheckRelease, LinkStep, LinkOf, Done;
    StepFollowsLink(w, a, a.o);
    ReleaseOrSame(v, a.o);
  }

  lemma StepSays(w: World, a: Action)
    requires Safe(w)
    ensures Step(w, a).events == w.events + Said(w, a)
  {
    hide Frame, Log, PeerOk, CheckRelease;
    if Applies(w, a) {
      match a {
        case AAccept => AddPeerTable(w);
        case ADisconnect(_) =>
        case ASend(_) =>
        case ABodyRead(o) => RecvBodyObjects(w, o);
        case AWritten(o, ok) =>
          ApplyReady(w, o);
          var u := if ok then w else Disconnect(w, w.PeerAt(o).pid);
          SaysAtEnd(w, a, WriteDone(u, o));
        case AHeadRead(o) =>
          ApplyReady(w, o);
          if !w.PeerAt(o).socket.Open? {
            SaysAtEnd(w, a, Exited(w, o));
          }
        case AReadFailed(o) =>
          ApplyReady(w, o);
          SaysAtEnd(w, a, Exited(Disconnect(w, w.PeerAt(o).pid), o));
      }
    }
  }

  /** A write that succeeds leaves the socket as it was, one that fails leaves it closed. */
  lemma WriteOutcome(w: World, o: nat, ok: bool)
    requires Safe(w)
    ensures var u := Step(w, AWritten(o, ok));
            o in w.sends && o in u.taken ==> u.PeerAt(o).socket == if ok then w.PeerAt(o).socket else Closed
  {
    hide Step, Objects, Log;
    StepFollowsLink(w, AWritten(o, ok), o);
    StepSafe(w, AWritten(o, ok));
    var u := Step(w, AWritten(o, ok));
    if o in w.sends && o in u.taken {
      ApplyReady(w, o);
      HasSocket(u, o);
      HasSocket(w, o);
    }
  }

  lemma HasSocket(w: World, o: nat)
    requires Objects(w, {}) && o in w.taken
    ensures !w.PeerAt(o).socket.NoSocket?
  {
    assert PeerOk(w, o);
  }

  /** A send to the id of a peer starts a write on it. */
  lemma SendStarts(w: World, pid: nat)
    requires Safe(w)
    ensures pid in w.table.objs ==>
              var o, u := w.table.objs[pid], Step(w, ASend(pid));
              && u.sends == w.sends + multiset{o} && u.Outstanding(o) == w.Outstanding(o) + 1
              && Applies(u, AWritten(o, true)) && Applies(u, AWritten(o, false))
  {
  }

  /** The two reads take turns: after the header of an open peer its body can be read, and after the body, which is reported,
      the next header. */
  lemma ReadsAlternate(w: World, o: nat)
    requires Safe(w)
    ensures Applies(w, AHeadRead(o)) && w.PeerAt(o).socket.Open? ==> Applies(Step(w, AHeadRead(o)), ABodyRead(o))
    ensures Applies(w, ABodyRead(o)) ==>
              && Applies(Step(w, ABodyRead(o)), AHeadRead(o))
              && Step(w, ABodyRead(o)).events == w.events + [EvRecv(w.ConnAt(o))]
  {
    hide Log, Frame, PeerOk, RecvExit;
    StepSays(w, ABodyRead(o));
    if Applies(w, ABodyRead(o)) {
      RecvBodyObjects(w, o);
    }
  }

  // ---------- Runs ----------

  /** Nothing is reported of a connection whose peer has been returned. */
  lemma SaysNothingOfReturned(w: World, a: Action, c: nat)
    requires Safe(w) && c in w.returned
    ensures EvRecv(c) !in Said(w, a)
  {
    hide Stories, Frame, PeerOk, LinkStep, LinkOf;
    if a.ABodyRead? && Applies(w, a) {
      ApplyReady(w, a.o);
    }
  }

  lemma ReturnedStays(w: World, a: Action, c: nat)
    requires Safe(w) && c in w.returned
    ensures c in Step(w, a).returned && Heard(Step(w, a).events, c) == Heard(w.events, c)
  {
    hide Safe, Step, Said;
    StepSays(w, a);
    StepKeepsReturned(w, a, c);
    SaysNothingOfReturned(w, a, c);
    assert multiset(w.events + Said(w, a)) == multiset(w.events) + multiset(Said(w, a));
  }

  lemma StepKeepsReturned(w: World, a: Action, c: nat)
    requires Safe(w) && c in w.returned
    ensures c in Step(w, a).returned
  {
    hide Frame, Log, PeerOk, CheckRelease;
    if Applies(w, a) {
      match a {
        case AAccept => AddPeerTable(w);
        case ADisconnect(_) =>
        case ASend(_) =>
        case ABodyRead(o) => RecvBodyObjects(w, o);
        case AWritten(o, ok) =>
          ApplyReady(w, o);
          KeepsReturned(WriteDone(if ok then w else Disconnect(w, w.PeerAt(o).pid), o), o, c);
        case AHeadRead(o) =>
          ApplyReady(w, o);
          KeepsReturned(Exited(w, o), o, c);
        case AReadFailed(o) =>
          ApplyReady(w, o);
          KeepsReturned(Exited(Disconnect(w, w.PeerAt(o).pid), o), o, c);
      }
    }
  }

  lemma KeepsReturned(v: World, o: nat, c: nat)
    requires v.Ready(o) && c in v.returned
    ensures c in CheckRelease(v, o).returned
  {
    hide Pool.Put, Table.Erase;
  }

  lemma {:induction false} RunKeepsReturned(w: World, actions: seq<Action>, c: nat)
    requires Safe(w) && c in w.returned
    ensures c in RunServer(w, actions).returned && Heard(RunServer(w, actions).events, c) == Heard(w.events, c)
    decreases actions
  {
    hide Safe, Step, Heard;
    if actions != [] {
      StepSafe(w, actions[0]);
      ReturnedStays(w, actions[0], c);
      RunKeepsReturned(Step(w, actions[0]), actions[1..], c);
    }
  }

  /** Over every run a connection becomes what the same actions make of it alone. */
  lemma {:induction false} RunFollowsLink(w: World, actions: seq<Action>, o: nat)
    requires Safe(w)
    ensures o in w.taken ==>
              var u, l, c := RunServer(w, actions), LinkRun(LinkOf(w, o), w.PeerAt(o).pid, o, actions), w.ConnAt(o);
              && Heard(u.events, c) == l.heard
              && (c in u.returned <==> Done(l))
              && (!Done(l) ==> o in u.taken && u.ConnAt(o) == c && LinkOf(u, o) == l && u.PeerAt(o).pid == w.PeerAt(o).pid)
    decreases actions
  {
    hide Safe, Step, Heard, LinkStep, Done;
    if o in w.taken {
      NotDone(w, o);
      NotReturned(w, o);
      if actions != [] {
        StepSafe(w, actions[0]);
        StepFollowsLink(w, actions[0], o);
        var u, l := Step(w, actions[0]), LinkStep(LinkOf(w, o), w.PeerAt(o).pid, o, actions[0]);
        if Done(l) {
          EndedHeard(w, actions[0], o);
          RunKeepsReturned(u, actions[1..], w.ConnAt(o));
        } else {
          RunFollowsLink(u, actions[1..], o);
        }
      }
    }
  }

  lemma NotReturned(w: World, o: nat)
    requires Safe(w) && o in w.taken
    ensures w.ConnAt(o) !in w.returned
  {
  }

  /** The action that ends a connection reports no message. */
  lemma EndedHeard(w: World, a: Action, o: nat)
    requires Safe(w) && o in w.taken
    requires var l := LinkStep(LinkOf(w, o), w.PeerAt(o).pid, o, a); Done(l) && Ended(w, Step(w, a), o)
    ensures var l := LinkStep(LinkOf(w, o), w.PeerAt(o).pid, o, a);
            w.ConnAt(o) in Step(w, a).returned && Heard(Step(w, a).events, w.ConnAt(o)) == l.heard
  {
    hide Safe, Step;
    var c := w.ConnAt(o);
    HeardAppend(w.events, EvDisc(c), c);
  }

  lemma AcceptStarts(w: World)
    requires Safe(w)
    ensures var u := Step(w, AAccept);
            w.pool.free != [] && w.table.free != [] &&
            var o := w.pool.Get().0;
            && Safe(u) && o in u.taken && u.ConnAt(o) == w.conns && u.conns == w.conns + 1
            && u.PeerAt(o).pid == w.table.NextId() && LinkOf(u, o) == NEW_LINK
  {
    StepSafe(w, AAccept);
    hide Frame, Owners, PeerOk;
    AddPeerFields(w);
    SendsOfNew(w);
    assert Of(w.events, w.conns) == [];
    OfNone(w.events, w.conns);
    HeardAppend(w.events, EvConn(w.conns), w.conns);
  }

  lemma SendsOfNew(w: World)
    requires Frame(w) && w.pool.free != []
    ensures w.pool.Get().0 !in w.taken ==> w.sends[w.pool.Get().0] == 0
  {
    assert w.pool.Get().0 in w.sends ==> w.pool.Get().0 in w.taken;
  }

  lemma {:induction false} OfNone(events: seq<Event>, c: nat)
    requires Of(events, c) == []
    ensures Heard(events, c) == 0
  {
    if events != [] {
      var n := |events| - 1;
      assert events == events[..n] + [events[n]];
      OfNone(events[..n], c);
      HeardAppend(events[..n], events[n], c);
    }
  }

  /** Over every run from start-up, every connection becomes, from its acceptance on, what the actions after it make of a new
      connection alone: it is open or closed, has so many writes under way, waits for that read and has reported so many
      messages; and its peer has gone back to the pool exactly when it is over. */
  lemma EveryConnectionFollowsItsLink(poolAlloc: nat, tableAlloc: nat, before: seq<Action>, after: seq<Action>)
    requires poolAlloc > 0 && tableAlloc > 0
    ensures Safe(FreshWorld(poolAlloc, tableAlloc))
    ensures var w := RunServer(FreshWorld(poolAlloc, tableAlloc), before);
            w.pool.free != [] && w.table.free != [] && Safe(Step(w, AAccept)) &&
            var o, pid, c, u := w.pool.Get().0, w.table.NextId(), w.conns, RunServer(Step(w, AAccept), after);
            var l := LinkRun(NEW_LINK, pid, o, after);
            && Heard(u.events, c) == l.heard
            && (c in u.returned <==> Done(l))
            && (!Done(l) ==> o in u.taken && u.ConnAt(o) == c && LinkOf(u, o) == l && u.PeerAt(o).pid == pid)
  {
    hide Safe, Step, LinkOf, Heard;
    FreshSafe(poolAlloc, tableAlloc);
    var w := RunServer(FreshWorld(poolAlloc, tableAlloc), before);
    AcceptStarts(w);
    RunFollowsLink(Step(w, AAccept), after, w.pool.Get().0);
  }

  // ---------- What that means ----------

  /** Nobody asks for a disconnect of the connection, and none of its writes and reads fails. */
  predicate Quiet(actions: seq<Action>, pid: int, o: nat) {
    forall i :: 0 <= i < |actions| ==>
      var a := actions[i];
      !(a.ADisconnect? && a.pid == pid) && a != AWritten(o, false) && a != AReadFailed(o)
  }

  /** A quiet connection stays open. */
  lemma {:induction false} QuietStaysOpen(l: Link, pid: int, o: nat, actions: seq<Action>)
    requires l.open && Quiet(actions, pid, o)
    ensures LinkRun(l, pid, o, actions).open
    decreases |actions|
  {
    if actions != [] {
      assert actions[0] == actions[0];
      assert forall i :: 0 <= i < |actions[1..]| ==> actions[1..][i] == actions[i + 1];
      QuietStaysOpen(LinkStep(l, pid, o, actions[0]), pid, o, actions[1..]);
    }
  }

  /** How many actions of a run, up to the end of the connection, are of that kind. */
  function Count(l: Link, pid: int, o: nat, actions: seq<Action>, kind: (Link, Action) -> bool): nat
    decreases |actions|
  {
    if actions == [] || Done(l) then 0
    else (if kind(l, actions[0]) then 1 else 0) + Count(LinkStep(l, pid, o, actions[0]), pid, o, actions[1..], kind)
  }

  function SendTo(pid: int): (Link, Action) -> bool {
    (l: Link, a: Action) => a.ASend? && a.pid == pid
  }

  function WriteDoneOn(o: nat): (Link, Action) -> bool {
    (l: Link, a: Action) => a.AWritten? && a.o == o && l.sends > 0
  }

  function BodyReadOn(o: nat): (Link, Action) -> bool {
    (l: Link, a: Action) => a == ABodyRead(o) && l.reading == Some(AtBody)
  }

  /** The writes under way are the sends started less the writes completed, the messages reported are the bodies read. */
  lemma {:induction false} LinkCounts(l: Link, pid: int, o: nat, actions: seq<Action>)
    ensures var r := LinkRun(l, pid, o, actions);
            && r.sends == l.sends + Count(l, pid, o, actions, SendTo(pid)) - Count(l, pid, o, actions, WriteDoneOn(o))
            && r.heard == l.heard + Count(l, pid, o, actions, BodyReadOn(o))
    decreases |actions|
  {
    if actions != [] && !Done(l) {
      LinkCounts(LinkStep(l, pid, o, actions[0]), pid, o, actions[1..]);
    }
  }

  /** Over every run from start-up: a connection that is quiet after its acceptance is open and has not been returned; the
      writes under way on a connection that is not over are the sends to it less the writes completed; and it has reported
      exactly as many messages as bodies have been read from it. */
  lemma WhatBecomesOfAConnection(poolAlloc: nat, tableAlloc: nat, before: seq<Action>, after: seq<Action>)
    requires poolAlloc > 0 && tableAlloc > 0
    ensures Safe(FreshWorld(poolAlloc, tableAlloc))
    ensures var w := RunServer(FreshWorld(poolAlloc, tableAlloc), before);
            w.pool.free != [] && w.table.free != [] && Safe(Step(w, AAccept)) &&
            var o, pid, c, u := w.pool.Get().0, w.table.NextId(), w.conns, RunServer(Step(w, AAccept), after);
            && (Quiet(after, pid, o) ==> c !in u.returned && o in u.taken && u.PeerAt(o).socket.Open?)
            && (c !in u.returned ==>
                  u.sends[o] == Count(NEW_LINK, pid, o, after, SendTo(pid)) - Count(NEW_LINK, pid, o, after, WriteDoneOn(o)))
            && multiset(u.events)[EvRecv(c)] == Count(NEW_LINK, pid, o, after, BodyReadOn(o))
  {
    hide Safe, Step, LinkRun, Count, Quiet;
    EveryConnectionFollowsItsLink(poolAlloc, tableAlloc, before, after);
    var w := RunServer(FreshWorld(poolAlloc, tableAlloc), before);
    var o, pid := w.pool.Get().0, w.table.NextId();
    LinkCounts(NEW_LINK, pid, o, after);
    if Quiet(after, pid, o) {
      QuietStaysOpen(NEW_LINK, pid, o, after);
    }
  }

  // ---------- Objects nobody uses ----------

  /** The object has let go of its socket, its server and its id. */
  ghost predicate Bare(w: World) {
    forall o :: o in w.peers && o !in w.taken ==> var p := w.PeerAt(o); p.pid == INVALID_ID && p.socket.NoSocket? && !p.hasServer
  }

  /** Writing fields of peers in use leaves the others bare. */
  lemma InUseOnly(w: World, u: World)
    requires Bare(w) && u.taken == w.taken
    requires forall o :: o !in w.taken ==> u.PeerAt(o) == w.PeerAt(o) && (o in u.peers ==> o in w.peers)
    ensures Bare(u)
  {
    hide World.PeerAt;
  }

  lemma AddPeerBare(w: World)
    requires Frame(w) && Bare(w)
    ensures w.pool.free != [] && w.table.free != []
    ensures Bare(AddPeer(w))
  {
    AddPeerFields(w);
    hide Frame;
  }

  lemma CheckReleaseBare(v: World, o: nat)
    requires v.Ready(o) && Bare(v) && o in v.taken
    ensures Bare(CheckRelease(v, o))
  {
    hide Pool.Put, Table.Erase;
  }

  lemma DisconnectBare(w: World, pid: int)
    requires Frame(w) && Bare(w)
    ensures Bare(Disconnect(w, pid)) && Disconnect(w, pid).taken == w.taken
  {
    if pid >= 0 && pid in w.table.objs {
      LiveById(w, pid);
    }
    hide Frame, Bare;
    InUseOnly(w, Disconnect(w, pid));
  }

  lemma RequestBare(w: World, a: Action)
    requires Safe(w) && Bare(w) && Applies(w, a) && (a.ADisconnect? || a.ASend?)
    ensures Bare(Step(w, a))
  {
    hide Log, Bare, PeerOk;
    LiveById(w, a.pid);
    if a.ADisconnect? {
      DisconnectBare(w, a.pid);
    } else {
      InUseOnly(w, SendStart(w, a.pid));
    }
  }

  lemma ResumeBare(w: World, a: Action)
    requires Safe(w) && Bare(w) && Applies(w, a) && (a.AWritten? || a.AHeadRead? || a.AReadFailed?)
    ensures Bare(Step(w, a))
  {
    hide Log, Bare, PeerOk, Frame, CheckRelease;
    var o := a.o;
    ApplyReady(w, o);
    DisconnectBare(w, w.PeerAt(o).pid);
    var u := if a.AReadFailed? || (a.AWritten? && !a.ok) then Disconnect(w, w.PeerAt(o).pid) else w;
    if a.AHeadRead? && w.PeerAt(o).socket.Open? {
      InUseOnly(w, Step(w, a));
    } else {
      var v := if a.AWritten? then WriteDone(u, o) else Exited(u, o);
      InUseOnly(u, v);
      CheckReleaseBare(v, o);
    }
  }

  lemma BodyBare(w: World, o: nat)
    requires Safe(w) && Bare(w) && o in w.recvs
    ensures w.Ready(o) && Bare(RecvBody(w, o))
  {
    hide Log, Bare, PeerOk, Frame, RecvExit;
    RecvBodyObjects(w, o);
    InUseOnly(w, RecvBody(w, o));
  }

  lemma StepBare(w: World, a: Action)
    requires Safe(w) && Bare(w)
    ensures Bare(Step(w, a))
  {
    hide Log, PeerOk, Frame, Bare, AddPeer, RecvBody, SendDone, RecvHead, RecvFail, Disconnect, SendStart;
    if Applies(w, a) {
      match a {
        case AAccept => AddPeerBare(w);
        case ADisconnect(_) => RequestBare(w, a);
        case ASend(_) => RequestBare(w, a);
        case ABodyRead(o) => BodyBare(w, o);
        case _ => ResumeBare(w, a);
      }
    }
  }

  lemma {:induction false} RunBare(w: World, actions: seq<Action>)
    requires Safe(w) && Bare(w)
    ensures Bare(RunServer(w, actions))
    decreases actions
  {
    hide Safe, Step, Bare;
    if actions != [] {
      StepSafe(w, actions[0]);
      StepBare(w, actions[0]);
      RunBare(Step(w, actions[0]), actions[1..]);
    }
  }

  /** Over every run from start-up, a peer that has gone back to the pool has let go of its socket, its server and its id. */
  lemma PooledPeersAreBare(poolAlloc: nat, tableAlloc: nat, actions: seq<Action>)
    requires poolAlloc > 0 && tableAlloc > 0
    ensures Safe(FreshWorld(poolAlloc, tableAlloc))
    ensures Bare(RunServer(FreshWorld(poolAlloc, tableAlloc), actions))
  {
    hide Safe;
    FreshSafe(poolAlloc, tableAlloc);
    RunBare(FreshWorld(poolAlloc, tableAlloc), actions);
  }
}
