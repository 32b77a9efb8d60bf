/** From the io thread of a Server to the thread of its unit: the events of Servers are the messages of Bridge. */
module Delivery {
  import opened Common
  import opened Servers
  import opened SpscSteps
  import B = Bridge

  type EventMsg = B.Msg<Event>

  function Bodies(s: seq<EventMsg>): (r: seq<Event>)
    ensures |r| == |s|
  {
    seq(|s|, i requires 0 <= i < |s| => s[i].body)
  }

  /** The messages of connection c. */
  function OfConn(c: nat): EventMsg -> bool {
    (m: EventMsg) => m.body.conn == c
  }

  lemma {:induction false} BodiesOfConn(s: seq<EventMsg>, c: nat)
    ensures Bodies(Only(s, OfConn(c))) == Of(Bodies(s), c)
  {
    if s != [] {
      var n := |s| - 1;
      BodiesOfConn(s[..n], c);
      assert Bodies(s)[..n] == Bodies(s[..n]);
      assert Only(s, OfConn(c)) == Only(s[..n], OfConn(c)) + (if s[n].body.conn == c then [s[n]] else []);
    }
  }

  lemma BodiesPrefix(p: seq<EventMsg>, s: seq<EventMsg>)
    requires p <= s
    ensures Bodies(p) <= Bodies(s)
  {
    assert forall i :: 0 <= i < |p| ==> p[i] == s[i];
  }

  /** A beginning of a story is a story, over if it is all of one that is over. */
  lemma StoryBegun(es: seq<Event>, over: bool, p: seq<Event>)
    requires Story(es, over) && p <= es && p != []
    ensures Story(p, over && |p| == |es|)
  {
    assert forall i :: 0 <= i < |p| ==> p[i] == es[i];
  }

  /** What the unit has been delivered of connection c. */
  function Seen(w: B.World<Event>, c: nat): seq<Event> {
    Of(Bodies(w.queue.popped), c)
  }

  /** A server and the bridge that carries its events to the unit, at any moment of any run of both: if no event of connection
      c has been published while an older one of c was waiting, the unit has seen a beginning of what c has to tell: CONN, then
      RECV events, then DISC, the last only if the peer of c has been released. */
  lemma UnitSeesTheStory(poolAlloc: nat, tableAlloc: nat, serverActions: seq<Action>,
                         states: seq<B.World<Event>>, actions: seq<B.Action<Event>>, k: nat, c: nat)
    requires poolAlloc > 0 && tableAlloc > 0
    requires B.IsBridgeRun(states, actions) && k <= |actions|
    ensures Safe(FreshWorld(poolAlloc, tableAlloc))
    ensures var u, w := RunServer(FreshWorld(poolAlloc, tableAlloc), serverActions), states[k];
            Bodies(w.spawned) == u.events && !B.Overtaken(w, OfConn(c)) ==>
              && Seen(w, c) <= Of(u.events, c)
              && (Seen(w, c) == [] || Story(Seen(w, c), c in u.returned && |Seen(w, c)| == |Of(u.events, c)|))
  {
    hide Safe, B.Overtaken, B.Good;
    EveryConnectionTellsItsStory(poolAlloc, tableAlloc, serverActions, c);
    var u, w := RunServer(FreshWorld(poolAlloc, tableAlloc), serverActions), states[k];
    if Bodies(w.spawned) == u.events && !B.Overtaken(w, OfConn(c)) {
      DeliveredInOrder(states, actions, k, c);
      if Seen(w, c) != [] {
        StoryBegun(Of(u.events, c), c in u.returned, Seen(w, c));
      }
    }
  }

  /** Deliveries of one connection are in the order of its events. */
  lemma DeliveredInOrder(states: seq<B.World<Event>>, actions: seq<B.Action<Event>>, k: nat, c: nat)
    requires B.IsBridgeRun(states, actions) && k <= |actions|
    requires !B.Overtaken(states[k], OfConn(c))
    ensures Seen(states[k], c) <= Of(Bodies(states[k].spawned), c)
  {
    hide B.Overtaken, B.Good, Only;
    var w := states[k];
    B.PushedInOrderIff(states, actions, k, OfConn(c));
    B.BridgeConserves(states, actions, k);
    OnlyPrefix(w.queue.popped, w.queue.pushed, OfConn(c));
    BodiesPrefix(Only(w.queue.popped, OfConn(c)), Only(w.spawned, OfConn(c)));
    BodiesOfConn(w.queue.popped, c);
    BodiesOfConn(w.spawned, c);
  }
}
