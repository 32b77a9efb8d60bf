/** Peers and their coroutines: the life cycle in src/units/server_unit.cpp, on the io thread of one Server.
    A step is what runs between two suspension points of a coroutine. */
module Servers {
  import opened Common
  import opened ObjectMaps
  import opened ObjectPools

  // ---------- State ----------

  datatype Socket = NoSocket | Open | Closed

  /** The fields of one Peer object. */
  datatype Peer = Peer(pid: int, socket: Socket, hasServer: bool, waitToRelease: bool, sending: nat, recving: bool)

  /** What a Peer is when make_shared has just made it. */
  const NEW_PEER := Peer(INVALID_ID, NoSocket, false, false, 0, false)

  /** Which of the two reads a receive coroutine is waiting for. */
  datatype At = AtHead | AtBody

  /** What a connection tells the unit, connections being numbered in the order of their acceptance. */
  datatype Event = EvConn(conn: nat) | EvRecv(conn: nat) | EvDisc(conn: nat)

  /** peers holds the fields of the Peer objects by identity, sends and recvs the coroutines under way by the object they
      belong to, taken the objects the pool has handed out, conns the number of connections so far, returned those whose
      object went back to the pool, in that order. */
  datatype World = World(
    alloc: nat,
    table: Table<nat>,
    pool: Pool,
    peers: map<nat, Peer>,
    taken: set<nat>,
    sends: multiset<nat>,
    recvs: map<nat, At>,
    connOf: map<nat, nat>,
    conns: nat,
    events: seq<Event>,
    returned: seq<nat>
  ) {
    function PeerAt(o: nat): Peer {
      if o in peers then peers[o] else NEW_PEER
    }

    function ConnAt(o: nat): nat {
      if o in connOf then connOf[o] else 0
    }

    function WithPeer(o: nat, p: Peer): World {
      this.(peers := peers[o := p])
    }

    /** o is in the peer table under the id it has stored. */
    predicate Live(o: nat) {
      var pid := PeerAt(o).pid;
      0 <= pid && pid in table.objs && table.objs[pid] == o
    }

    /** What a step of a coroutine of o may count on: o can be found and can be given back. */
    predicate Ready(o: nat) {
      Live(o) && pool.taken > 0
    }

    /** Coroutines of o under way. */
    function Outstanding(o: nat): nat {
      PeerAt(o).sending + if PeerAt(o).recving then 1 else 0
    }
  }

  function FreshWorld(poolAlloc: nat, tableAlloc: nat): World {
    World(tableAlloc, FreshTable(tableAlloc), FreshPool(poolAlloc), map[], {}, multiset{}, map[], map[], 0, [], [])
  }

  // ---------- Steps ----------

  /** _AddPeer with Start, and _Recv up to its first read. */
  function AddPeer(w: World): World
    requires w.pool.free != [] && w.table.free != []
  {
    var (o, pool) := w.pool.Get();
    w.(pool := pool,
       taken := w.taken + {o},
       table := w.table.Insert(w.alloc, o),
       peers := w.peers[o := Peer(w.table.NextId(), Open, true, false, 0, true)],
       recvs := w.recvs[o := AtHead],
       connOf := w.connOf[o := w.conns],
       conns := w.conns + 1,
       events := w.events + [EvConn(w.conns)])
  }

  function Stop(p: Peer): Peer {
    if p.socket.Open? then p.(socket := Closed, waitToRelease := true) else p
  }

  function Disconnect(w: World, pid: int): World {
    if pid < 0 || pid !in w.table.objs then w
    else w.WithPeer(w.table.objs[pid], Stop(w.PeerAt(w.table.objs[pid])))
  }

  /** _DelPeer of the id o has stored. */
  function DelPeer(w: World, o: nat): World
    requires w.Ready(o)
  {
    w.(peers := w.peers[o := w.PeerAt(o).(pid := INVALID_ID, socket := NoSocket, hasServer := false)],
       pool := w.pool.Put(o),
       taken := w.taken - {o},
       table := w.table.Erase(w.PeerAt(o).pid),
       events := w.events + [EvDisc(w.ConnAt(o))],
       returned := w.returned + [w.ConnAt(o)])
  }

  function CheckRelease(w: World, o: nat): World
    requires w.Ready(o)
  {
    var p := w.PeerAt(o);
    if !p.waitToRelease || p.sending > 0 || p.recving then w else DelPeer(w, o)
  }

  /** _Send up to the start of the write. */
  function SendStart(w: World, pid: nat): World {
    if pid !in w.table.objs then w
    else
      var o := w.table.objs[pid];
      w.WithPeer(o, w.PeerAt(o).(sending := w.PeerAt(o).sending + 1)).(sends := w.sends + multiset{o})
  }

  function WriteDone(w: World, o: nat): World
    requires w.PeerAt(o).sending > 0
  {
    w.WithPeer(o, w.PeerAt(o).(sending := w.PeerAt(o).sending - 1)).(sends := w.sends - multiset{o})
  }

  /** A write of o completes, in failure or not. */
  function SendDone(w: World, o: nat, ok: bool): World
    requires w.Ready(o) && w.PeerAt(o).sending > 0
  {
    var u := if ok then w else Disconnect(w, w.PeerAt(o).pid);
    CheckRelease(WriteDone(u, o), o)
  }

  function Exited(w: World, o: nat): World {
    w.WithPeer(o, w.PeerAt(o).(recving := false)).(recvs := w.recvs - {o})
  }

  /** _Recv after its loop. */
  function RecvExit(w: World, o: nat): World
    requires w.Ready(o)
  {
    CheckRelease(Exited(w, o), o)
  }

  /** A header has been read. */
  function RecvHead(w: World, o: nat): World
    requires w.Ready(o)
  {
    if !w.PeerAt(o).socket.Open? then RecvExit(w, o) else w.(recvs := w.recvs[o := AtBody])
  }

  /** A body has been read; while(_socket) decides whether to go on. */
  function RecvBody(w: World, o: nat): World
    requires w.Ready(o)
  {
    var u := w.(events := w.events + [EvRecv(w.ConnAt(o))]);
    if w.PeerAt(o).socket.NoSocket? then RecvExit(u, o) else u.(recvs := u.recvs[o := AtHead])
  }

  /** A read has failed. */
  function RecvFail(w: World, o: nat): World
    requires w.Ready(o)
  {
    RecvExit(Disconnect(w, w.PeerAt(o).pid), o)
  }

  // ---------- Objects and coroutines ----------

  /** A peer in the table: waiting to be released exactly when its socket is closed, receiving as long as it is open,
      its two fields counting its coroutines. */
  ghost predicate PeerOk(w: World, o: nat) {
    var p := w.PeerAt(o);
    && !p.socket.NoSocket? && p.hasServer
    && (p.waitToRelease <==> p.socket.Closed?)
    && (p.socket.Open? ==> p.recving)
    && p.sending == w.sends[o]
    && (p.recving <==> o in w.recvs)
  }

  /** The objects in the table are the ones taken from the pool, each under the id it has stored, and no coroutine belongs
      to any other. */
  ghost predicate Frame(w: World) {
    && w.alloc > 0
    && w.table.WellFormed()
    && w.pool.Consistent(w.taken)
    && (forall o :: o in w.taken <==> w.Live(o))
    && (forall pid :: pid in w.table.objs ==> w.PeerAt(w.table.objs[pid]).pid == pid)
    && (forall o :: o in w.sends || o in w.recvs ==> o in w.taken)
  }

  /** Between steps a peer waiting to be released has a coroutine under way. The exception is the one a step has yet to check. */
  ghost predicate Objects(w: World, unchecked: set<nat>) {
    && Frame(w)
    && (forall o :: o in w.taken ==> PeerOk(w, o))
    && (forall o :: o in w.taken && o !in unchecked ==> w.PeerAt(o).waitToRelease ==> w.Outstanding(o) > 0)
  }

  lemma FreshObjects(poolAlloc: nat, tableAlloc: nat)
    requires poolAlloc > 0 && tableAlloc > 0
    ensures Objects(FreshWorld(poolAlloc, tableAlloc), {})
  {
    FreshPoolConsistent(poolAlloc);
    FreshTableWellFormed<nat>(tableAlloc);
  }

  lemma LiveById(w: World, pid: nat)
    requires Frame(w) && pid in w.table.objs
    ensures w.Live(w.table.objs[pid]) && w.table.objs[pid] in w.taken
  {
    assert w.PeerAt(w.table.objs[pid]).pid == pid;
  }

  lemma TakenReady(w: World, o: nat)
    requires Frame(w) && o in w.taken
    ensures w.Ready(o)
  {
  }

  lemma AddPeerTable(w: World)
    requires Frame(w)
    ensures w.pool.free != [] && w.table.free != [] && w.pool.Get().0 !in w.taken && w.table.NextId() !in w.table.objs
    ensures AddPeer(w).table.WellFormed() && AddPeer(w).pool.Consistent(AddPeer(w).taken)
    ensures w.table.Insert(w.alloc, w.pool.Get().0).objs == w.table.objs[w.table.NextId() := w.pool.Get().0]
  {
    hide World.Live;
    GetConsistent(w.pool, w.taken);
    InsertWellFormed(w.table, w.alloc, w.pool.Get().0);
  }

  lemma AddPeerFields(w: World)
    requires Frame(w)
    ensures w.pool.free != [] && w.table.free != []
    ensures var u, o := AddPeer(w), w.pool.Get().0;
            && o !in w.taken && w.table.NextId() !in w.table.objs
            && u.table.objs == w.table.objs[w.table.NextId() := o] && u.taken == w.taken + {o}
            && u.sends == w.sends && u.recvs == w.recvs[o := AtHead]
            && u.PeerAt(o) == Peer(w.table.NextId(), Open, true, false, 0, true)
            && forall x :: x != o ==> u.PeerAt(x) == w.PeerAt(x)
  {
    AddPeerTable(w);
    hide Frame, Table.Insert, Pool.Get;
  }

  lemma AddPeerPoint(w: World, x: nat)
    requires Frame(w)
    ensures w.pool.free != [] && w.table.free != []
    ensures x in AddPeer(w).taken <==> AddPeer(w).Live(x)
    ensures x in AddPeer(w).sends || x in AddPeer(w).recvs ==> x in AddPeer(w).taken
    ensures x in AddPeer(w).table.objs ==> AddPeer(w).PeerAt(AddPeer(w).table.objs[x]).pid == x
  {
    AddPeerFields(w);
    hide Table.WellFormed, Pool.Consistent, AddPeer, World.PeerAt;
    if x in w.table.objs {
      LiveById(w, x);
    }
  }

  lemma AddPeerFrame(w: World)
    requires Frame(w)
    ensures w.pool.free != [] && w.table.free != [] && w.pool.Get().0 !in w.taken
    ensures Frame(AddPeer(w))
  {
    AddPeerTable(w);
    assert AddPeer(w).alloc > 0;
    hide AddPeer, Table.WellFormed, Pool.Consistent, World.Live;
    forall x ensures x in AddPeer(w).taken <==> AddPeer(w).Live(x) {
      AddPeerPoint(w, x);
    }
    forall x | x in AddPeer(w).table.objs ensures AddPeer(w).PeerAt(AddPeer(w).table.objs[x]).pid == x {
      AddPeerPoint(w, x);
    }
    forall x | x in AddPeer(w).sends || x in AddPeer(w).recvs ensures x in AddPeer(w).taken {
      AddPeerPoint(w, x);
    }
  }

  lemma AddPeerPeer(w: World, x: nat)
    requires Objects(w, {})
    ensures w.pool.free != [] && w.table.free != []
    ensures x in AddPeer(w).taken ==>
              PeerOk(AddPeer(w), x) && (AddPeer(w).PeerAt(x).waitToRelease ==> AddPeer(w).Outstanding(x) > 0)
  {
    AddPeerFields(w);
    hide Table.WellFormed, Pool.Consistent, World.Live, AddPeer, World.PeerAt;
  }

  lemma AddPeerObjects(w: World)
    requires Objects(w, {})
    ensures w.pool.free != [] && w.table.free != []
    ensures Objects(AddPeer(w), {})
  {
    AddPeerFrame(w);
    hide Frame, AddPeer, PeerOk;
    forall x | x in AddPeer(w).taken
      ensures PeerOk(AddPeer(w), x) && (AddPeer(w).PeerAt(x).waitToRelease ==> AddPeer(w).Outstanding(x) > 0)
    {
      AddPeerPeer(w, x);
    }
  }

  /** Writing the fields of one peer, its id apart, and starting or ending coroutines of taken objects, keeps the frame. */
  lemma SameFrame(w: World, u: World, o: nat)
    requires Frame(w) && o in w.taken
    requires u.table == w.table && u.pool == w.pool && u.taken == w.taken && u.alloc == w.alloc
    requires u.PeerAt(o).pid == w.PeerAt(o).pid && forall x :: x != o ==> u.PeerAt(x) == w.PeerAt(x)
    requires forall x :: x in u.sends || x in u.recvs ==> x in w.taken
    ensures Frame(u)
  {
    hide Table.WellFormed, Pool.Consistent;
  }

  lemma DisconnectObjects(w: World, pid: int)
    requires Objects(w, {})
    ensures Objects(Disconnect(w, pid), {})
  {
    if pid >= 0 && pid in w.table.objs {
      var o := w.table.objs[pid];
      LiveById(w, pid);
      SameFrame(w, Disconnect(w, pid), o);
      hide Frame;
      var u := Disconnect(w, pid);
      forall x | x in u.taken ensures PeerOk(u, x) && (u.PeerAt(x).waitToRelease ==> u.Outstanding(x) > 0) {
        assert PeerOk(w, x);
      }
    }
  }

  /** The released object goes back to the pool, and is there even if the pool shrinks. */
  lemma DelPeerTable(w: World, o: nat)
    requires Frame(w) && w.Ready(o)
    ensures DelPeer(w, o).table.WellFormed() && DelPeer(w, o).pool.Consistent(DelPeer(w, o).taken)
    ensures DelPeer(w, o).pool.free[0] == o
    ensures DelPeer(w, o).table.objs == w.table.objs - {w.PeerAt(o).pid}
  {
    assert o in w.taken;
    PutConsistent(w.pool, w.taken, o);
    EraseWellFormed(w.table, w.PeerAt(o).pid);
  }

  lemma DelPeerFields(w: World, o: nat)
    requires w.Ready(o)
    ensures var u := DelPeer(w, o);
            && u.alloc == w.alloc && u.taken == w.taken - {o} && u.sends == w.sends && u.recvs == w.recvs
            && u.PeerAt(o) == w.PeerAt(o).(pid := INVALID_ID, socket := NoSocket, hasServer := false)
            && forall x :: x != o ==> u.PeerAt(x) == w.PeerAt(x)
  {
    hide Pool.Put, Table.Erase;
  }

  lemma DelPeerPoint(w: World, o: nat, x: nat)
    requires Frame(w) && w.Ready(o)
    ensures x in DelPeer(w, o).taken <==> DelPeer(w, o).Live(x)
    ensures x in DelPeer(w, o).table.objs ==> DelPeer(w, o).PeerAt(DelPeer(w, o).table.objs[x]).pid == x
  {
    DelPeerTable(w, o);
    DelPeerFields(w, o);
    hide Table.WellFormed, Pool.Consistent, DelPeer, World.PeerAt;
    if x in w.table.objs {
      LiveById(w, x);
    }
  }

  lemma DelPeerFrame(w: World, o: nat)
    requires Frame(w) && w.Ready(o)
    requires o !in w.sends && o !in w.recvs
    ensures Frame(DelPeer(w, o))
  {
    hide Table.WellFormed, Pool.Consistent, DelPeer, World.PeerAt, World.Live, World.Ready;
    DelPeerTable(w, o);
    DelPeerFields(w, o);
    var u := DelPeer(w, o);
    forall x ensures x in u.taken <==> u.Live(x) {
      DelPeerPoint(w, o, x);
    }
    forall k | k in u.table.objs ensures u.PeerAt(u.table.objs[k]).pid == k {
      DelPeerPoint(w, o, k);
    }
  }

  lemma CheckReleaseObjects(w: World, o: nat)
    requires Objects(w, {o}) && o in w.taken
    ensures w.Ready(o)
    ensures Objects(CheckRelease(w, o), {})
  {
    TakenReady(w, o);
    assert PeerOk(w, o);
    var u := CheckRelease(w, o);
    if u != w {
      DelPeerFrame(w, o);
      DelPeerFields(w, o);
      hide Frame, World.Live, World.Ready, DelPeer, World.PeerAt;
      forall x | x in u.taken ensures PeerOk(u, x) && (u.PeerAt(x).waitToRelease ==> u.Outstanding(x) > 0) {
        assert PeerOk(w, x);
      }
    }
  }

  lemma SendStartObjects(w: World, pid: nat)
    requires Objects(w, {})
    ensures Objects(SendStart(w, pid), {})
  {
    if pid in w.table.objs {
      var o := w.table.objs[pid];
      var u := SendStart(w, pid);
      LiveById(w, pid);
      SameFrame(w, u, o);
      hide Frame;
      forall x | x in u.taken ensures PeerOk(u, x) && (u.PeerAt(x).waitToRelease ==> u.Outstanding(x) > 0) {
        assert PeerOk(w, x);
      }
    }
  }

  lemma WriteDoneObjects(w: World, o: nat)
    requires Objects(w, {}) && o in w.sends
    ensures w.PeerAt(o).sending > 0 && Objects(WriteDone(w, o), {o})
  {
    hide Table.WellFormed, Pool.Consistent, World.Live;
    assert PeerOk(w, o);
    var v := WriteDone(w, o);
    SameFrame(w, v, o);
    hide Frame;
    forall x | x in v.taken ensures PeerOk(v, x) && (x != o && v.PeerAt(x).waitToRelease ==> v.Outstanding(x) > 0) {
      assert PeerOk(w, x);
    }
  }

  lemma SendDoneObjects(w: World, o: nat, ok: bool)
    requires Objects(w, {}) && o in w.sends
    ensures w.Ready(o) && w.PeerAt(o).sending > 0
    ensures Objects(SendDone(w, o, ok), {})
  {
    hide Frame, PeerOk;
    assert o in w.taken by { SendsTaken(w, o); }
    TakenReady(w, o);
    var u := if ok then w else Disconnect(w, w.PeerAt(o).pid);
    DisconnectObjects(w, w.PeerAt(o).pid);
    WriteDoneObjects(w, o);
    WriteDoneObjects(u, o);
    CheckReleaseObjects(WriteDone(u, o), o);
  }

  lemma SendsTaken(w: World, o: nat)
    requires Frame(w) && o in w.sends
    ensures o in w.taken
  {
  }

  /** A receive coroutine ends only when the socket is closed. */
  lemma RecvExitObjects(w: World, o: nat)
    requires Objects(w, {}) && o in w.recvs && !w.PeerAt(o).socket.Open?
    ensures w.Ready(o)
    ensures Objects(RecvExit(w, o), {})
  {
    ExitObjects(w, o);
    CheckReleaseObjects(Exited(w, o), o);
  }

  lemma ExitObjects(w: World, o: nat)
    requires Objects(w, {}) && o in w.recvs && !w.PeerAt(o).socket.Open?
    ensures w.Ready(o) && o in w.taken && Objects(Exited(w, o), {o})
  {
    TakenReady(w, o);
    var v := Exited(w, o);
    SameFrame(w, v, o);
    hide Frame;
    forall x | x in v.taken ensures PeerOk(v, x) && (x != o && v.PeerAt(x).waitToRelease ==> v.Outstanding(x) > 0) {
      assert PeerOk(w, x);
    }
  }

  lemma RecvHeadObjects(w: World, o: nat)
    requires Objects(w, {}) && o in w.recvs
    ensures w.Ready(o)
    ensures Objects(RecvHead(w, o), {})
  {
    TakenReady(w, o);
    if w.PeerAt(o).socket.Open? {
      SameFrame(w, RecvHead(w, o), o);
      assert forall x :: PeerOk(w, x) ==> PeerOk(RecvHead(w, o), x);
    } else {
      RecvExitObjects(w, o);
    }
  }

  lemma RecvBodyObjects(w: World, o: nat)
    requires Objects(w, {}) && o in w.recvs
    ensures w.Ready(o) && !w.PeerAt(o).socket.NoSocket?
    ensures Objects(RecvBody(w, o), {})
  {
    hide Table.WellFormed, Pool.Consistent;
    TakenReady(w, o);
    assert PeerOk(w, o);
    var u := w.(events := w.events + [EvRecv(w.ConnAt(o))], recvs := w.recvs[o := AtHead]);
    assert RecvBody(w, o) == u;
    SameFrame(w, u, o);
    assert forall x :: PeerOk(w, x) ==> PeerOk(u, x);
  }

  lemma RecvFailObjects(w: World, o: nat)
    requires Objects(w, {}) && o in w.recvs
    ensures w.Ready(o)
    ensures Objects(RecvFail(w, o), {})
  {
    TakenReady(w, o);
    DisconnectObjects(w, w.PeerAt(o).pid);
    RecvExitObjects(Disconnect(w, w.PeerAt(o).pid), o);
  }

  // ---------- What each connection says ----------

  /** The events of connection c, in order. */
  function Of(events: seq<Event>, c: nat): seq<Event> {
    if events == [] then []
    else
      var last := events[|events| - 1];
      Of(events[..|events| - 1], c) + (if last.conn == c then [last] else [])
  }

  lemma OfAppend(events: seq<Event>, e: Event, c: nat)
    ensures Of(events + [e], c) == Of(events, c) + (if e.conn == c then [e] else [])
  {
    assert (events + [e])[..|events|] == events;
  }

  /** CONN, then any number of RECV, then DISC if the connection is over. */
  predicate Story(es: seq<Event>, over: bool) {
    && es != [] && es[0].EvConn?
    && (over ==> |es| > 1 && es[|es| - 1].EvDisc?)
    && (forall i :: 1 <= i < (if over then |es| - 1 else |es|) ==> es[i].EvRecv?)
  }

  /** Every connection so far has a peer of its own, or its peer is back in the pool, once. */
  ghost predicate Owners(w: World) {
    && (forall o :: o in w.taken ==> w.ConnAt(o) < w.conns && w.ConnAt(o) !in w.returned)
    && (forall o, p :: o in w.taken && p in w.taken && o != p ==> w.ConnAt(o) != w.ConnAt(p))
    && Distinct(w.returned)
    && (forall c :: c in w.returned ==> c < w.conns)
    && (forall c: nat :: c < w.conns && c !in w.returned ==> exists o :: o in w.taken && w.ConnAt(o) == c)
  }

  /** Every connection so far has told its story, to the end exactly if its peer has been returned. */
  ghost predicate Stories(events: seq<Event>, conns: nat, returned: seq<nat>) {
    forall c: nat :: if c < conns then Story(Of(events, c), c in returned) else Of(events, c) == []
  }

  ghost predicate Log(w: World) {
    Owners(w) && Stories(w.events, w.conns, w.returned)
  }

  lemma SameLog(w: World, u: World)
    requires Log(w)
    requires u.taken == w.taken && u.connOf == w.connOf && u.conns == w.conns && u.events == w.events && u.returned == w.returned
    ensures Log(u)
  {
    assert forall o :: u.ConnAt(o) == w.ConnAt(o);
  }

  lemma AddPeerOwners(w: World, u: World, o: nat)
    requires Owners(w) && o !in w.taken
    requires u.taken == w.taken + {o} && u.connOf == w.connOf[o := w.conns] && u.conns == w.conns + 1 && u.returned == w.returned
    ensures Owners(u)
  {
    forall x ensures u.ConnAt(x) == if x == o then w.conns else w.ConnAt(x) {
    }
    forall c: nat | c < u.conns && c !in u.returned ensures exists x :: x in u.taken && u.ConnAt(x) == c {
      if c == w.conns {
        assert u.ConnAt(o) == c;
      } else {
        var x :| x in w.taken && w.ConnAt(x) == c;
        assert x in u.taken && u.ConnAt(x) == c;
      }
    }
  }

  lemma ConnStories(events: seq<Event>, conns: nat, returned: seq<nat>)
    requires Stories(events, conns, returned) && forall c :: c in returned ==> c < conns
    ensures Stories(events + [EvConn(conns)], conns + 1, returned)
  {
    forall c: nat
      ensures var es := Of(events + [EvConn(conns)], c);
              if c < conns + 1 then Story(es, c in returned) else es == []
    {
      OfAppend(events, EvConn(conns), c);
    }
  }

  lemma RecvStories(events: seq<Event>, conns: nat, returned: seq<nat>, d: nat)
    requires Stories(events, conns, returned) && d < conns && d !in returned
    ensures Stories(events + [EvRecv(d)], conns, returned)
  {
    forall c: nat
      ensures var es := Of(events + [EvRecv(d)], c);
              if c < conns then Story(es, c in returned) else es == []
    {
      OfAppend(events, EvRecv(d), c);
    }
  }

  lemma DiscStories(events: seq<Event>, conns: nat, returned: seq<nat>, d: nat)
    requires Stories(events, conns, returned) && d < conns && d !in returned
    ensures Stories(events + [EvDisc(d)], conns, returned + [d])
  {
    forall c: nat
      ensures var es := Of(events + [EvDisc(d)], c);
              if c < conns then Story(es, c in returned + [d]) else es == []
    {
      OfAppend(events, EvDisc(d), c);
      assert c in returned + [d] <==> c in returned || c == d;
    }
  }

  lemma AddPeerLog(w: World)
    requires Objects(w, {}) && Log(w)
    ensures w.pool.free != [] && w.table.free != []
    ensures Log(AddPeer(w))
  {
    AddPeerTable(w);
    AddPeerOwners(w, AddPeer(w), w.pool.Get().0);
    ConnStories(w.events, w.conns, w.returned);
  }

  lemma RecvLog(w: World, u: World, o: nat)
    requires Log(w) && o in w.taken
    requires u.taken == w.taken && u.connOf == w.connOf && u.conns == w.conns && u.returned == w.returned
    requires u.events == w.events + [EvRecv(w.ConnAt(o))]
    ensures Log(u)
  {
    hide Stories;
    assert forall x :: u.ConnAt(x) == w.ConnAt(x);
    RecvStories(w.events, w.conns, w.returned, w.ConnAt(o));
  }

  lemma DelPeerOwners(w: World, u: World, o: nat)
    requires Owners(w) && o in w.taken
    requires u.taken == w.taken - {o} && u.connOf == w.connOf && u.conns == w.conns && u.returned == w.returned + [w.ConnAt(o)]
    ensures Owners(u)
  {
    var d := w.ConnAt(o);
    AppendDistinct(w.returned, d);
    forall c ensures c in u.returned <==> c in w.returned || c == d {
    }
    forall c: nat | c < u.conns && c !in u.returned ensures exists x :: x in u.taken && u.ConnAt(x) == c {
      var x :| x in w.taken && w.ConnAt(x) == c;
      assert x in u.taken && u.ConnAt(x) == c;
    }
    assert forall x :: u.ConnAt(x) == w.ConnAt(x);
  }

  lemma DelPeerLog(w: World, o: nat)
    requires Log(w) && w.Ready(o) && o in w.taken
    ensures Log(DelPeer(w, o))
  {
    hide Stories;
    DelPeerOwners(w, DelPeer(w, o), o);
    DiscStories(w.events, w.conns, w.returned, w.ConnAt(o));
  }

  lemma CheckReleaseLog(w: World, o: nat)
    requires Log(w) && w.Ready(o) && o in w.taken
    ensures Log(CheckRelease(w, o))
  {
    DelPeerLog(w, o);
  }

  // ---------- Runs ----------

  /** AAccept: a connection is accepted or made. ADisconnect and ASend: the unit asks for it, by id. The others: a write or
      a read of a coroutine of object o completes. Requests that find nothing and completions of nothing do nothing. */
  datatype Action =
    | AAccept
    | ADisconnect(pid: nat)
    | ASend(pid: nat)
    | AWritten(o: nat, ok: bool)
    | AHeadRead(o: nat)
    | ABodyRead(o: nat)
    | AReadFailed(o: nat)

  /** Peers and coroutines match, and every connection has told its story. */
  ghost predicate Safe(w: World) {
    Objects(w, {}) && Log(w)
  }

  /** The coroutine the action resumes is there. */
  predicate Applies(w: World, a: Action) {
    match a
    case AAccept => true
    case ADisconnect(pid) => pid in w.table.objs
    case ASend(pid) => pid in w.table.objs
    case AWritten(o, _) => o in w.sends
    case AHeadRead(o) => o in w.recvs && w.recvs[o].AtHead?
    case ABodyRead(o) => o in w.recvs && w.recvs[o].AtBody?
    case AReadFailed(o) => o in w.recvs
  }

  lemma ApplyReady(w: World, o: nat)
    requires Objects(w, {}) && (o in w.sends || o in w.recvs)
    ensures o in w.taken && w.Ready(o) && (o in w.sends ==> w.PeerAt(o).sending > 0)
  {
    TakenReady(w, o);
    assert PeerOk(w, o);
  }

  ghost function Step(w: World, a: Action): (u: World)
    requires Safe(w)
  {
    if !Applies(w, a) then w
    else match a
      case AAccept => AddPeerTable(w); AddPeer(w)
      case ADisconnect(pid) => Disconnect(w, pid)
      case ASend(pid) => SendStart(w, pid)
      case AWritten(o, ok) => ApplyReady(w, o); SendDone(w, o, ok)
      case AHeadRead(o) => ApplyReady(w, o); RecvHead(w, o)
      case ABodyRead(o) => ApplyReady(w, o); RecvBody(w, o)
      case AReadFailed(o) => ApplyReady(w, o); RecvFail(w, o)
  }

  lemma StepObjects(w: World, a: Action)
    requires Safe(w)
    ensures Objects(Step(w, a), {})
  {
    hide Objects, Log;
    if Applies(w, a) {
      match a {
        case AAccept => AddPeerObjects(w);
        case ADisconnect(pid) => DisconnectObjects(w, pid);
        case ASend(pid) => SendStartObjects(w, pid);
        case AWritten(o, ok) => SendDoneObjects(w, o, ok);
        case AHeadRead(o) => RecvHeadObjects(w, o);
        case ABodyRead(o) => RecvBodyObjects(w, o);
        case AReadFailed(o) => RecvFailObjects(w, o);
      }
    }
  }

  lemma StepLog(w: World, a: Action)
    requires Safe(w)
    ensures Log(Step(w, a))
  {
    hide Log, PeerOk, Frame, CheckRelease;
    if Applies(w, a) {
      match a {
        case AAccept => AddPeerLog(w);
        case ADisconnect(pid) => SameLog(w, Disconnect(w, pid));
        case ASend(pid) => SameLog(w, SendStart(w, pid));
        case AWritten(o, ok) =>
          ApplyReady(w, o);
          var u := if ok then w else Disconnect(w, w.PeerAt(o).pid);
          SameLog(w, WriteDone(u, o));
          CheckReleaseLog(WriteDone(u, o), o);
        case AHeadRead(o) =>
          ApplyReady(w, o);
          if w.PeerAt(o).socket.Open? { SameLog(w, RecvHead(w, o)); } else { RecvExitLog(w, o); }
        case ABodyRead(o) =>
          RecvBodyObjects(w, o);
          ApplyReady(w, o);
          RecvLog(w, RecvBody(w, o), o);
        case AReadFailed(o) =>
          ApplyReady(w, o);
          SameLog(w, Disconnect(w, w.PeerAt(o).pid));
          RecvExitLog(Disconnect(w, w.PeerAt(o).pid), o);
      }
    }
  }

  lemma RecvExitLog(w: World, o: nat)
    requires Log(w) && w.Ready(o) && o in w.taken
    ensures Log(RecvExit(w, o))
  {
    hide Log;
    SameLog(w, Exited(w, o));
    CheckReleaseLog(Exited(w, o), o);
  }

  lemma StepSafe(w: World, a: Action)
    requires Safe(w)
    ensures Safe(Step(w, a))
  {
    StepObjects(w, a);
    StepLog(w, a);
  }

  /** Every world a run reaches from a safe one is safe. */
  ghost function RunServer(w: World, actions: seq<Action>): (u: World)
    requires Safe(w)
    ensures Safe(u)
    decreases actions
  {
    if actions == [] then w
    else
      StepSafe(w, actions[0]);
      RunServer(Step(w, actions[0]), actions[1..])
  }

  lemma FreshSafe(poolAlloc: nat, tableAlloc: nat)
    requires poolAlloc > 0 && tableAlloc > 0
    ensures Safe(FreshWorld(poolAlloc, tableAlloc))
  {
    FreshObjects(poolAlloc, tableAlloc);
  }

  /** Over every run from start-up: each connection says CONN once, then RECV any number of times, then DISC once, the last
      exactly when its peer has gone back to the pool, which happens to each peer once. */
  lemma EveryConnectionTellsItsStory(poolAlloc: nat, tableAlloc: nat, actions: seq<Action>, c: nat)
    requires poolAlloc > 0 && tableAlloc > 0
    ensures Safe(FreshWorld(poolAlloc, tableAlloc))
    ensures var u := RunServer(FreshWorld(poolAlloc, tableAlloc), actions);
            && (c < u.conns ==> Story(Of(u.events, c), c in u.returned))
            && (c >= u.conns ==> Of(u.events, c) == [] && c !in u.returned)
            && Distinct(u.returned)
  {
    FreshSafe(poolAlloc, tableAlloc);
  }

  /** Over every run from start-up: the peers in the table are the objects the pool has handed out, each stored under its own
      id, waiting to be released exactly when its socket is closed, and counting the coroutines it has. */
  lemma EveryPeerIsInOrder(poolAlloc: nat, tableAlloc: nat, actions: seq<Action>, o: nat)
    requires poolAlloc > 0 && tableAlloc > 0
    ensures Safe(FreshWorld(poolAlloc, tableAlloc))
    ensures var u := RunServer(FreshWorld(poolAlloc, tableAlloc), actions);
            var p := u.PeerAt(o);
            && (o in u.taken <==> p.pid >= 0 && p.pid in u.table.objs && u.table.objs[p.pid] == o)
            && (o in u.taken ==>
                  && o !in u.pool.free
                  && (p.waitToRelease <==> p.socket.Closed?) && (p.socket.Open? ==> p.recving)
                  && p.sending == u.sends[o] && (p.recving <==> o in u.recvs)
                  && (p.waitToRelease ==> u.Outstanding(o) > 0))
            && (o !in u.taken ==> o !in u.sends && o !in u.recvs)
  {
    FreshSafe(poolAlloc, tableAlloc);
    var u := RunServer(FreshWorld(poolAlloc, tableAlloc), actions);
    hide Log;
    if o in u.taken {
      assert PeerOk(u, o);
    }
  }

  // ---------- Release ----------

  /** _CheckRelease gives back o or nothing, and o only if it has no coroutine left. */
  lemma CheckReleaseTaken(w: World, o: nat)
    requires w.Ready(o)
    ensures var u := CheckRelease(w, o);
            || u.taken == w.taken
            || (u.taken == w.taken - {o} && w.Outstanding(o) == 0 && u.returned == w.returned + [w.ConnAt(o)])
  {
    hide Pool.Put, Table.Erase;
  }

  /** The object whose coroutine an action resumes, if it resumes one. */
  function Resumed(a: Action): Option<nat> {
    match a
    case AWritten(o, _) => Some(o)
    case AHeadRead(o) => Some(o)
    case ABodyRead(o) => Some(o)
    case AReadFailed(o) => Some(o)
    case _ => None
  }

  lemma StepReleases(w: World, a: Action)
    requires Safe(w)
    ensures var u := Step(w, a);
            || w.taken <= u.taken
            || (Resumed(a).Some? &&
                var o := Resumed(a).value;
                && u.taken == w.taken - {o} && u.returned == w.returned + [w.ConnAt(o)]
                && Completes(w, a, o) && w.Outstanding(o) == 1)
  {
    hide Log, Frame, PeerOk, CheckRelease;
    if Applies(w, a) {
      match a {
        case AAccept => AddPeerTable(w);
        case ADisconnect(_) =>
        case ASend(_) =>
        case AWritten(o, ok) =>
          ApplyReady(w, o);
          CheckReleaseTaken(WriteDone(if ok then w else Disconnect(w, w.PeerAt(o).pid), o), o);
        case AHeadRead(o) =>
          ReceivingPeer(w, o);
          CheckReleaseTaken(Exited(w, o), o);
        case ABodyRead(o) =>
          RecvBodyObjects(w, o);
        case AReadFailed(o) =>
          ReceivingPeer(w, o);
          CheckReleaseTaken(Exited(Disconnect(w, w.PeerAt(o).pid), o), o);
      }
    }
  }

  lemma ReceivingPeer(w: World, o: nat)
    requires Safe(w) && o in w.recvs
    ensures w.Ready(o) && w.PeerAt(o).recving
  {
    ApplyReady(w, o);
    assert PeerOk(w, o);
  }

  /** A peer goes back to the pool only when the last of its coroutines ends, and its connection is then recorded as over. */
  lemma OnlyTheLastReleases(w: World, a: Action, o: nat)
    requires Safe(w)
    ensures o in w.taken && o !in Step(w, a).taken ==>
              Completes(w, a, o) && w.Outstanding(o) == 1 && Step(w, a).returned == w.returned + [w.ConnAt(o)]
  {
    hide Safe, Step, Completes;
    StepReleases(w, a);
  }

  /** The action ends a coroutine of the stopped peer o. */
  predicate Completes(w: World, a: Action, o: nat) {
    Applies(w, a) && match a
                     case AWritten(x, _) => x == o
                     case AHeadRead(x) => x == o
                     case AReadFailed(x) => x == o
                     case _ => false
  }

  predicate Stopped(w: World, o: nat) {
    o in w.taken && w.PeerAt(o).waitToRelease
  }

  /** Stopping an open peer leaves it with its sends and the receive coroutine. */
  lemma StopLeavesCoroutines(w: World, pid: nat)
    requires Safe(w)
    ensures var u := Disconnect(w, pid);
            pid in w.table.objs && w.PeerAt(w.table.objs[pid]).socket.Open? ==>
              var o := w.table.objs[pid];
              Safe(u) && Stopped(u, o) && u.Outstanding(o) == w.sends[o] + 1
  {
    if pid in w.table.objs {
      LiveById(w, pid);
      assert PeerOk(w, w.table.objs[pid]);
      StepSafe(w, ADisconnect(pid));
    }
  }

  /** A completion takes one coroutine off a stopped peer, and only the last one releases it. */
  lemma CheckReleases(w: World, o: nat, x: nat)
    requires Objects(w, {x}) && x in w.taken && Stopped(w, o)
    requires w.Ready(x)
    ensures var u := CheckRelease(w, x);
            if x == o && w.Outstanding(o) == 0
            then o !in u.taken && u.returned == w.returned + [w.ConnAt(o)]
            else Stopped(u, o) && u.PeerAt(o) == w.PeerAt(o)
  {
    hide Frame;
  }

  /** From w to u the stopped peer o comes down to n coroutines, and is released if that is none. */
  ghost predicate DownTo(w: World, u: World, o: nat, n: int) {
    && n >= 0
    && (if n == 0 then o !in u.taken && u.returned == w.returned + [w.ConnAt(o)]
        else Stopped(u, o) && u.Outstanding(o) == n && u.PeerAt(o).pid == w.PeerAt(o).pid)
  }

  lemma StoppedAccept(w: World, o: nat)
    requires Safe(w) && Stopped(w, o)
    ensures w.pool.free != [] && w.table.free != []
    ensures DownTo(w, AddPeer(w), o, w.Outstanding(o))
  {
    AddPeerTable(w);
    hide Frame, Log, PeerOk;
  }

  lemma StoppedDisconnect(w: World, pid: nat, o: nat)
    requires Safe(w) && Stopped(w, o)
    ensures DownTo(w, Disconnect(w, pid), o, w.Outstanding(o))
  {
    hide Frame, Log, PeerOk, World.Live;
    StoppedBusy(w, o);
  }

  lemma StoppedSend(w: World, pid: nat, o: nat)
    requires Safe(w) && Stopped(w, o) && pid != w.PeerAt(o).pid
    ensures DownTo(w, SendStart(w, pid), o, w.Outstanding(o))
  {
    hide Log, PeerOk;
    StoppedBusy(w, o);
    if pid in w.table.objs {
      LiveById(w, pid);
    }
    hide Frame;
  }

  lemma StoppedBody(w: World, x: nat, o: nat)
    requires Safe(w) && Stopped(w, o) && x in w.recvs
    ensures w.Ready(x)
    ensures DownTo(w, RecvBody(w, x), o, w.Outstanding(o))
  {
    RecvBodyObjects(w, x);
    StoppedBusy(w, o);
    hide Frame, Log, Objects, RecvExit, PeerOk, World.Ready;
  }

  lemma StoppedHead(w: World, x: nat, o: nat)
    requires Safe(w) && Stopped(w, o) && x in w.recvs
    ensures w.Ready(x)
    ensures DownTo(w, RecvHead(w, x), o, w.Outstanding(o) - if x == o then 1 else 0)
  {
    assert PeerOk(w, o);
    StoppedBusy(w, o);
    ApplyReady(w, x);
    hide Frame, Log, Objects, RecvExit, World.Ready;
    if !w.PeerAt(x).socket.Open? {
      StoppedExit(w, x, o);
    }
  }

  lemma DownToFrom(w: World, u: World, v: World, o: nat, n: int)
    requires DownTo(u, v, o, n)
    requires u.returned == w.returned && u.connOf == w.connOf && u.PeerAt(o).pid == w.PeerAt(o).pid
    ensures DownTo(w, v, o, n)
  {
  }

  /** A stopped socket stays as it is when it is stopped again, or another one is. */
  lemma DisconnectStopped(w: World, pid: int, x: nat, o: nat)
    requires Objects(w, {}) && Stopped(w, o) && x in w.recvs && w.PeerAt(x).pid == pid
    ensures var u := Disconnect(w, pid);
            && Objects(u, {}) && Stopped(u, o) && x in u.recvs && !u.PeerAt(x).socket.Open?
            && u.returned == w.returned && u.connOf == w.connOf && u.PeerAt(o).pid == w.PeerAt(o).pid
            && u.Outstanding(o) == w.Outstanding(o)
  {
    ApplyReady(w, x);
    DisconnectObjects(w, pid);
    hide Frame, PeerOk;
  }

  lemma StoppedFail(w: World, x: nat, o: nat)
    requires Safe(w) && Stopped(w, o) && x in w.recvs
    ensures w.Ready(x)
    ensures DownTo(w, RecvFail(w, x), o, w.Outstanding(o) - if x == o then 1 else 0)
  {
    hide Frame, Log, PeerOk, RecvExit, DownTo, Disconnect;
    ApplyReady(w, x);
    var u := Disconnect(w, w.PeerAt(x).pid);
    DisconnectStopped(w, w.PeerAt(x).pid, x, o);
    StoppedExit(u, x, o);
    DownToFrom(w, u, RecvExit(u, x), o, w.Outstanding(o) - if x == o then 1 else 0);
  }

  lemma StoppedStep(w: World, a: Action, o: nat)
    requires Safe(w) && Stopped(w, o)
    requires a != ASend(w.PeerAt(o).pid)
    ensures DownTo(w, Step(w, a), o, w.Outstanding(o) - if Completes(w, a, o) then 1 else 0)
  {
    hide Log, Frame, PeerOk, DownTo, AddPeer, Disconnect, SendStart, SendDone, RecvHead, RecvBody, RecvFail;
    if Applies(w, a) {
      match a {
        case AAccept => StoppedAccept(w, o);
        case ADisconnect(pid) => StoppedDisconnect(w, pid, o);
        case ASend(pid) => StoppedSend(w, pid, o);
        case AWritten(x, ok) => StoppedWrite(w, x, ok, o);
        case AHeadRead(x) => StoppedHead(w, x, o);
        case ABodyRead(x) => StoppedBody(w, x, o);
        case AReadFailed(x) => StoppedFail(w, x, o);
      }
    } else {
      StoppedSame(w, o);
    }
  }

  lemma StoppedSame(w: World, o: nat)
    requires Safe(w) && Stopped(w, o)
    ensures DownTo(w, w, o, w.Outstanding(o))
  {
    StoppedBusy(w, o);
  }

  lemma StoppedWrite(w: World, x: nat, ok: bool, o: nat)
    requires Objects(w, {}) && Stopped(w, o) && x in w.sends
    ensures w.Ready(x) && w.PeerAt(x).sending > 0
    ensures DownTo(w, SendDone(w, x, ok), o, w.Outstanding(o) - if x == o then 1 else 0)
  {
    hide Frame, PeerOk, CheckRelease;
    ApplyReady(w, x);
    DisconnectObjects(w, w.PeerAt(x).pid);
    var u := if ok then w else Disconnect(w, w.PeerAt(x).pid);
    WriteDoneObjects(w, x);
    WriteDoneObjects(u, x);
    CheckReleases(WriteDone(u, x), o, x);
  }

  lemma StoppedExit(w: World, x: nat, o: nat)
    requires Objects(w, {}) && Stopped(w, o) && x in w.recvs && !w.PeerAt(x).socket.Open?
    ensures w.Ready(x)
    ensures DownTo(w, RecvExit(w, x), o, w.Outstanding(o) - if x == o then 1 else 0)
  {
    ExitObjects(w, x);
    assert PeerOk(w, o) && PeerOk(w, x);
    CheckReleases(Exited(w, x), o, x);
  }

  /** How many coroutines of o a run ends. */
  ghost function Completions(w: World, actions: seq<Action>, o: nat): nat
    requires Safe(w)
    decreases actions
  {
    if actions == [] then 0
    else
      StepSafe(w, actions[0]);
      (if Completes(w, actions[0], o) then 1 else 0) + Completions(Step(w, actions[0]), actions[1..], o)
  }

  /** o is in the table before every action of the run; the last one may release it. */
  ghost predicate TakenThroughout(w: World, actions: seq<Action>, o: nat)
    requires Safe(w)
    decreases actions
  {
    if actions == [] then true
    else
      StepSafe(w, actions[0]);
      o in w.taken && TakenThroughout(Step(w, actions[0]), actions[1..], o)
  }

  /** Once a peer is stopped and no send is started on it, it is released after exactly as many completions as it has
      coroutines under way, in whatever order they come and whatever else happens in between. */
  lemma {:induction false} StoppedPeerDrains(w: World, actions: seq<Action>, o: nat)
    requires Safe(w) && Stopped(w, o) && TakenThroughout(w, actions, o)
    requires forall i :: 0 <= i < |actions| ==> actions[i] != ASend(w.PeerAt(o).pid)
    ensures var u, n := RunServer(w, actions), Completions(w, actions, o);
            if o in u.taken then Stopped(u, o) && u.Outstanding(o) == w.Outstanding(o) - n > 0 else n == w.Outstanding(o)
    decreases actions
  {
    hide Objects, Log;
    if actions == [] {
      StoppedBusy(w, o);
    } else {
      StoppedStep(w, actions[0], o);
      StepSafe(w, actions[0]);
      var u := Step(w, actions[0]);
      if o in u.taken {
        StoppedPeerDrains(u, actions[1..], o);
      }
    }
  }

  lemma StoppedBusy(w: World, o: nat)
    requires Safe(w) && Stopped(w, o)
    ensures w.Outstanding(o) > 0
  {
  }

  // ---------- The class ----------

  class Server {
    const peerPool: ObjectPool
    const peers: ObjectMap<nat>
    /** The fields of the Peer objects. */
    var fields: map<nat, Peer>
    ghost var taken: set<nat>
    ghost var sends: multiset<nat>
    ghost var recvs: map<nat, At>
    ghost var connOf: map<nat, nat>
    ghost var conns: nat
    ghost var events: seq<Event>
    ghost var returned: seq<nat>

    ghost predicate Parts()
      reads this, peerPool, peers
    {
      peerPool.Valid() && peers.Valid()
    }

    ghost predicate Valid()
      reads this, peerPool, peers
    {
      Parts() && Safe(View())
    }

    ghost function View(): World
      requires peerPool.Valid()
      reads this, peerPool, peers
    {
      World(peers.allocNum, peers.View(), peerPool.View(), fields, taken, sends, recvs, connOf, conns, events, returned)
    }

    constructor (poolAlloc: nat, tableAlloc: nat)
      requires poolAlloc > 0 && tableAlloc > 0
      ensures Valid() && View() == FreshWorld(poolAlloc, tableAlloc)
      ensures fresh(peerPool) && fresh(peers)
    {
      peerPool := new ObjectPool(poolAlloc);
      peers := new ObjectMap(tableAlloc);
      fields, taken, sends, recvs, connOf, conns, events, returned := map[], {}, multiset{}, map[], map[], 0, [], [];
      new;
      FreshSafe(poolAlloc, tableAlloc);
    }

    /** The fields of object o, those of a new one if nobody has written them yet. */
    function FieldsOf(o: nat): Peer
      reads this`fields
    {
      if o in fields then fields[o] else NEW_PEER
    }

    /** _AddPeer, Start, and _Recv up to its first read. */
    method Accept() returns (pid: nat)
      requires Valid()
      modifies this, peerPool, peers
      ensures Parts() && View() == Step(old(View()), AAccept) && Safe(View())
      ensures pid == old(View()).table.NextId()
    {
      hide Safe, ObjectPool.Valid, ObjectMap.Valid, Pool.Get, Table.Insert;
      ghost var w := View();
      StepSafe(w, AAccept);
      SafeRoom(w);
      var o := peerPool.Get();
      pid := peers.Insert(o);
      fields := fields[o := Peer(pid, Open, true, false, 0, true)];
      taken, recvs, connOf := taken + {o}, recvs[o := AtHead], connOf[o := conns];
      events, conns := events + [EvConn(conns)], conns + 1;
      assert View() == AddPeer(w);
    }

    /** _Disconnect: Stop the peer with that id, if there is one. */
    method StopById(pid: int)
      requires Parts()
      modifies this`fields
      ensures Parts() && View() == Disconnect(old(View()), pid)
    {
      hide ObjectPool.Valid, ObjectMap.Valid;
      if pid < 0 {
        return;
      }
      var found := peers.Find(pid);
      if !found {
        return;
      }
      peers.LiveInside(pid);
      var slot := peers.Get(pid);
      var p := FieldsOf(slot.value);
      if p.socket == Open {
        p := p.(socket := Closed, waitToRelease := true);
      }
      fields := fields[slot.value := p];
    }

    /** _DelPeer. */
    method Delete(pid: nat)
      requires Parts() && pid in peers.View().objs
      requires View().Ready(peers.View().objs[pid]) && View().PeerAt(peers.View().objs[pid]).pid == pid
      modifies this, peerPool, peers
      ensures Parts() && View() == DelPeer(old(View()), old(peers.View().objs[pid]))
    {
      hide ObjectPool.Valid, ObjectMap.Valid, Pool.Put, Table.Erase;
      ghost var w := View();
      PoolTaken(w);
      peers.LiveInside(pid);
      var slot := peers.Get(pid);
      var o := slot.value;
      fields := fields[o := FieldsOf(o).(pid := INVALID_ID, socket := NoSocket, hasServer := false)];
      peerPool.Put(o);
      peers.Erase(pid);
      taken := taken - {o};
      events := events + [EvDisc(w.ConnAt(o))];
      returned := returned + [w.ConnAt(o)];
      assert View() == DelPeer(w, o);
    }

    lemma PoolTaken(w: World)
      requires Parts() && w == View()
      ensures w.pool.taken == peerPool.size
    {
    }

    /** _CheckRelease. */
    method Check(o: nat)
      requires Parts() && View().Ready(o)
      modifies this, peerPool, peers
      ensures Parts() && View() == CheckRelease(old(View()), o)
    {
      hide ObjectPool.Valid, ObjectMap.Valid;
      var p := FieldsOf(o);
      if !p.waitToRelease || p.sending > 0 || p.recving {
        return;
      }
      Delete(p.pid);
    }

    /** _Send up to the start of the write. */
    method StartSend(pid: nat) returns (found: bool)
      requires Valid()
      modifies this
      ensures Parts() && View() == Step(old(View()), ASend(pid)) && Safe(View())
      ensures found <==> pid in old(View()).table.objs
      ensures found ==> sends == old(sends) + multiset{old(View()).table.objs[pid]}
    {
      hide Safe, ObjectPool.Valid, ObjectMap.Valid;
      ghost var w := View();
      StepSafe(w, ASend(pid));
      found := peers.Find(pid);
      if !found {
        return;
      }
      peers.LiveInside(pid);
      var slot := peers.Get(pid);
      var o := slot.value;
      fields := fields[o := FieldsOf(o).(sending := FieldsOf(o).sending + 1)];
      sends := sends + multiset{o};
      assert View() == SendStart(w, pid);
    }

    /** The rest of Peer::Send, once the write has completed. */
    method Written(o: nat, ok: bool)
      requires Valid() && o in sends
      modifies this, peerPool, peers
      ensures Parts() && View() == Step(old(View()), AWritten(o, ok)) && Safe(View())
      ensures o in taken ==> View().PeerAt(o).socket == if ok then old(View()).PeerAt(o).socket else Closed
    {
      hide Safe, ObjectPool.Valid, ObjectMap.Valid, CheckRelease;
      ghost var w := View();
      StepSafe(w, AWritten(o, ok));
      SafeReady(w, o);
      SafeSocket(w, o);
      if !ok {
        StopById(FieldsOf(o).pid);
      }
      ghost var u := View();
      fields := fields[o := FieldsOf(o).(sending := FieldsOf(o).sending - 1)];
      sends := sends - multiset{o};
      assert View() == WriteDone(u, o);
      KeptPeer(View(), o);
      Check(o);
    }

    /** The end of _Recv. */
    method EndRecv(o: nat)
      requires Parts() && View().Ready(o)
      modifies this, peerPool, peers
      ensures Parts() && View() == RecvExit(old(View()), o)
      ensures o in taken ==> View().PeerAt(o).socket == old(View()).PeerAt(o).socket && o !in recvs
    {
      hide ObjectPool.Valid, ObjectMap.Valid, CheckRelease;
      ghost var w := View();
      fields := fields[o := FieldsOf(o).(recving := false)];
      recvs := recvs - {o};
      assert View() == Exited(w, o);
      KeptPeer(View(), o);
      Check(o);
    }

    /** _Recv after the header has been read. */
    method HeadRead(o: nat)
      requires Valid() && o in recvs && recvs[o].AtHead?
      modifies this, peerPool, peers
      ensures Parts() && View() == Step(old(View()), AHeadRead(o)) && Safe(View())
      ensures old(View()).PeerAt(o).socket.Open? ==> recvs == old(recvs)[o := AtBody]
    {
      hide Safe, ObjectPool.Valid, ObjectMap.Valid, RecvExit;
      ghost var w := View();
      StepSafe(w, AHeadRead(o));
      SafeReady(w, o);
      if FieldsOf(o).socket != Open {
        EndRecv(o);
      } else {
        recvs := recvs[o := AtBody];
      }
    }

    /** _Recv after the body has been read. */
    method BodyRead(o: nat)
      requires Valid() && o in recvs && recvs[o].AtBody?
      modifies this, peerPool, peers
      ensures Parts() && View() == Step(old(View()), ABodyRead(o)) && Safe(View())
      ensures events == old(events) + [EvRecv(old(View()).ConnAt(o))] && recvs == old(recvs)[o := AtHead]
    {
      hide Safe, ObjectPool.Valid, ObjectMap.Valid, RecvExit;
      ghost var w := View();
      StepSafe(w, ABodyRead(o));
      SafeReady(w, o);
      events := events + [EvRecv(w.ConnAt(o))];
      if FieldsOf(o).socket == NoSocket {
        EndRecv(o);
      } else {
        recvs := recvs[o := AtHead];
      }
      SafeSocket(w, o);
    }

    /** _Recv when a read has failed. */
    method ReadFailed(o: nat)
      requires Valid() && o in recvs
      modifies this, peerPool, peers
      ensures Parts() && View() == Step(old(View()), AReadFailed(o)) && Safe(View())
      ensures o in taken ==> View().PeerAt(o).socket == Closed && o !in recvs
    {
      hide Safe, ObjectPool.Valid, ObjectMap.Valid, RecvExit;
      ghost var w := View();
      StepSafe(w, AReadFailed(o));
      SafeReady(w, o);
      SafeSocket(w, o);
      StopById(FieldsOf(o).pid);
      EndRecv(o);
    }
  }

  lemma SafeRoom(w: World)
    requires Safe(w)
    ensures w.pool.free != [] && w.table.free != []
  {
    AddPeerTable(w);
  }

  lemma SafeReady(w: World, o: nat)
    requires Safe(w) && (o in w.sends || o in w.recvs)
    ensures w.Ready(o) && (o in w.sends ==> w.PeerAt(o).sending > 0)
  {
    ApplyReady(w, o);
  }

  lemma SafeSocket(w: World, o: nat)
    requires Safe(w) && (o in w.sends || o in w.recvs)
    ensures !w.PeerAt(o).socket.NoSocket?
  {
    ApplyReady(w, o);
    assert PeerOk(w, o);
  }

  lemma KeptPeer(w: World, o: nat)
    requires w.Ready(o)
    ensures o in CheckRelease(w, o).taken ==> CheckRelease(w, o).PeerAt(o) == w.PeerAt(o) && CheckRelease(w, o).recvs == w.recvs
  {
    hide Pool.Put, Table.Erase;
  }
}
