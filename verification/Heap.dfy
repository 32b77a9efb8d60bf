/** The indexed heap of src/util/heap.hpp: the heap array together with the table of positions. */
module Heaps {
  import opened Common
  import opened HeapOrder
  import opened ObjectMaps

  // ---------- Key table against heap array ----------

  /** The table sends every key of nodes to its position and holds no other key, except those in extra. */
  ghost predicate Placed<T>(nodes: seq<HeapNode<T>>, objs: map<nat, nat>, extra: set<nat>) {
    && (forall i :: 0 <= i < |nodes| ==> nodes[i].key !in extra && nodes[i].key in objs && objs[nodes[i].key] == i)
    && (forall k :: k in objs && k !in extra ==> objs[k] < |nodes| && nodes[objs[k]].key == k)
  }

  /** The same with the position of nodes[hole] still to be written. */
  ghost predicate PlacedBut<T>(nodes: seq<HeapNode<T>>, objs: map<nat, nat>, extra: set<nat>, hole: nat)
    requires hole < |nodes|
  {
    && nodes[hole].key in objs && nodes[hole].key !in extra
    && (forall i :: 0 <= i < |nodes| && i != hole ==>
          nodes[i].key != nodes[hole].key && nodes[i].key !in extra && nodes[i].key in objs && objs[nodes[i].key] == i)
    && (forall k :: k in objs && k !in extra && k != nodes[hole].key ==>
          objs[k] < |nodes| && objs[k] != hole && nodes[objs[k]].key == k)
  }

  lemma OpenHole<T>(nodes: seq<HeapNode<T>>, objs: map<nat, nat>, extra: set<nat>, hole: nat)
    requires hole < |nodes| && Placed(nodes, objs, extra)
    ensures PlacedBut(nodes, objs, extra, hole)
  {
    assert objs[nodes[hole].key] == hole;
  }

  /** One move of a shift loop: the node at next goes to the hole and leaves the hole behind. */
  lemma MoveHole<T>(nodes: seq<HeapNode<T>>, objs: map<nat, nat>, extra: set<nat>, hole: nat, next: nat)
    requires hole < |nodes| && next < |nodes| && next != hole && PlacedBut(nodes, objs, extra, hole)
    ensures PlacedBut(Swap(nodes, hole, next), objs[nodes[next].key := hole], extra, next)
  {
    var u, o := Swap(nodes, hole, next), objs[nodes[next].key := hole];
    forall k | k in o && k !in extra && k != u[next].key ensures o[k] < |u| && o[k] != next && u[o[k]].key == k {
      if k != nodes[next].key {
        assert nodes[objs[k]].key == k;
      }
    }
  }

  lemma CloseHole<T>(nodes: seq<HeapNode<T>>, objs: map<nat, nat>, extra: set<nat>, hole: nat)
    requires hole < |nodes| && PlacedBut(nodes, objs, extra, hole)
    ensures Placed(nodes, objs[nodes[hole].key := hole], extra)
  {
  }

  lemma AppendPlaced<T>(nodes: seq<HeapNode<T>>, objs: map<nat, nat>, node: HeapNode<T>)
    requires Placed(nodes, objs, {}) && node.key !in objs
    ensures Placed(nodes + [node], objs[node.key := |nodes|], {})
  {
  }

  /** Pop before its shift loop: the removed node is swapped out, the former last one has no position yet. */
  lemma SwapOut<T>(nodes: seq<HeapNode<T>>, objs: map<nat, nat>, pos: nat)
    requires Placed(nodes, objs, {}) && pos < |nodes|
    ensures var n := |nodes| - 1; var t := Swap(nodes, pos, n)[..n];
            if pos < n then PlacedBut(t, objs, {nodes[pos].key}, pos) else Placed(t, objs, {nodes[pos].key})
  {
    var n := |nodes| - 1;
    var t := Swap(nodes, pos, n)[..n];
    forall k | k in objs && k != nodes[pos].key ensures objs[k] != pos && (k != nodes[n].key ==> objs[k] < n && t[objs[k]].key == k) {
      assert nodes[objs[k]].key == k;
    }
    assert objs[nodes[n].key] == n && objs[nodes[pos].key] == pos;
  }

  lemma DropExtra<T>(nodes: seq<HeapNode<T>>, objs: map<nat, nat>, key: nat)
    requires Placed(nodes, objs, {key})
    ensures Placed(nodes, objs - {key}, {})
  {
  }

  // ---------- The state a caller sees ----------

  /** No two nodes agree in what f reads off them. */
  ghost predicate DistinctBy<T>(f: HeapNode<T> -> nat, nodes: seq<HeapNode<T>>) {
    forall i, j :: 0 <= i < j < |nodes| ==> f(nodes[i]) != f(nodes[j])
  }

  ghost predicate HasBy<T>(f: HeapNode<T> -> nat, nodes: seq<HeapNode<T>>, k: nat) {
    exists i :: 0 <= i < |nodes| && f(nodes[i]) == k
  }

  function KeyOf<T>(node: HeapNode<T>): nat { node.key }

  ghost predicate DistinctKeys<T>(nodes: seq<HeapNode<T>>) {
    DistinctBy(KeyOf, nodes)
  }

  ghost predicate HasKey<T>(nodes: seq<HeapNode<T>>, k: nat) {
    HasBy(KeyOf, nodes, k)
  }

  ghost function Keys<T>(nodes: seq<HeapNode<T>>): (ks: set<nat>)
    ensures forall k :: k in ks <==> HasKey(nodes, k)
  {
    set i | 0 <= i < |nodes| :: KeyOf(nodes[i])
  }

  ghost function PosOf<T>(nodes: seq<HeapNode<T>>, k: nat): (i: nat)
    requires HasKey(nodes, k)
    ensures i < |nodes| && nodes[i].key == k
  {
    var i :| 0 <= i < |nodes| && KeyOf(nodes[i]) == k;
    i
  }

  ghost function Positions<T>(nodes: seq<HeapNode<T>>): map<nat, nat> {
    map k | k in Keys(nodes) :: PosOf(nodes, k)
  }

  lemma PositionsPlaced<T(!new)>(nodes: seq<HeapNode<T>>)
    requires DistinctKeys(nodes)
    ensures Placed(nodes, Positions(nodes), {})
  {
    forall i | 0 <= i < |nodes| ensures nodes[i].key in Positions(nodes) && Positions(nodes)[nodes[i].key] == i {
      assert nodes[i].key in Keys(nodes);
    }
  }

  lemma PlacedDetermined<T(!new)>(nodes: seq<HeapNode<T>>, objs: map<nat, nat>)
    requires Placed(nodes, objs, {})
    ensures objs == Positions(nodes)
  {
    forall k ensures k in objs <==> k in Keys(nodes) {
      if k in objs { assert nodes[objs[k]].key == k; }
    }
    forall k | k in objs ensures objs[k] == Positions(nodes)[k] {
      assert objs[nodes[PosOf(nodes, k)].key] == PosOf(nodes, k);
    }
  }

  lemma PlacedDistinct<T(!new)>(nodes: seq<HeapNode<T>>, objs: map<nat, nat>)
    requires Placed(nodes, objs, {})
    ensures DistinctKeys(nodes)
  {
    forall i, j | 0 <= i < j < |nodes| ensures KeyOf(nodes[i]) != KeyOf(nodes[j]) {
      assert objs[nodes[i].key] != objs[nodes[j].key];
    }
  }

  lemma PlacedKeys<T(!new)>(nodes: seq<HeapNode<T>>, objs: map<nat, nat>)
    requires Placed(nodes, objs, {})
    ensures forall k :: k in objs <==> HasKey(nodes, k)
  {
    forall k | k in objs ensures HasKey(nodes, k) {
      assert nodes[objs[k]].key == k;
    }
  }

  datatype HeapState<T> = HeapState(nodes: seq<HeapNode<T>>, ids: Table<nat>) {

    /** Live keys are the keys in the array, pairwise distinct, each mapped to where it sits. */
    ghost predicate Agree() {
      ids.WellFormed() && Placed(nodes, ids.objs, {})
    }

    ghost function Emplace(cmp: Cmp<T>, alloc: nat, obj: T): HeapState<T>
      requires ids.free != []
    {
      var t := ids.Insert(alloc, |nodes|);
      var ns := Push(cmp, nodes, HeapNode(ids.NextId(), obj));
      HeapState(ns, Table(t.order, Positions(ns), t.free))
    }

    ghost function Pop(cmp: Cmp<T>, pos: nat): HeapState<T>
      requires pos < |nodes|
    {
      var t := ids.Erase(nodes[pos].key);
      var ns := PopAt(cmp, nodes, pos);
      HeapState(ns, Table(t.order, Positions(ns), t.free))
    }
  }

  lemma PopShorter<T>(h: HeapState<T>, cmp: Cmp<T>, pos: nat)
    requires pos < |h.nodes|
    ensures |h.Pop(cmp, pos).nodes| == |h.nodes| - 1
  {
  }

  lemma SwapBy<T(!new)>(f: HeapNode<T> -> nat, s: seq<HeapNode<T>>, i: nat, j: nat)
    requires i < |s| && j < |s|
    ensures DistinctBy(f, s) ==> DistinctBy(f, Swap(s, i, j))
    ensures forall k :: HasBy(f, Swap(s, i, j), k) <==> HasBy(f, s, k)
  {
    var r := Swap(s, i, j);
    forall k | HasBy(f, s, k) ensures HasBy(f, r, k) {
      var x :| 0 <= x < |s| && f(s[x]) == k;
      assert f(r[if x == i then j else if x == j then i else x]) == k;
    }
  }

  lemma {:induction false} SiftUpBy<T(!new)>(f: HeapNode<T> -> nat, cmp: Cmp<T>, s: seq<HeapNode<T>>, i: nat)
    requires i < |s| && DistinctBy(f, s)
    ensures DistinctBy(f, SiftUp(cmp, s, i))
    ensures forall k :: HasBy(f, SiftUp(cmp, s, i), k) <==> HasBy(f, s, k)
    decreases i
  {
    if i > 0 && cmp(s[i].value, s[Parent(i)].value) {
      SwapBy(f, s, i, Parent(i));
      SiftUpBy(f, cmp, Swap(s, i, Parent(i)), Parent(i));
    }
  }

  lemma {:induction false} SiftDownBy<T(!new)>(f: HeapNode<T> -> nat, cmp: Cmp<T>, s: seq<HeapNode<T>>, i: nat)
    requires i <= |s| && DistinctBy(f, s)
    ensures DistinctBy(f, SiftDown(cmp, s, i))
    ensures forall k :: HasBy(f, SiftDown(cmp, s, i), k) <==> HasBy(f, s, k)
    decreases |s| - i
  {
    if Child(i) < |s| {
      var c := SmallerChild(cmp, s, i);
      if !cmp(s[i].value, s[c].value) {
        SwapBy(f, s, i, c);
        SiftDownBy(f, cmp, Swap(s, i, c), c);
      }
    }
  }

  /** Pop takes exactly the node at pos out of the array. */
  lemma PopBy<T(!new)>(f: HeapNode<T> -> nat, cmp: Cmp<T>, s: seq<HeapNode<T>>, pos: nat)
    requires pos < |s| && DistinctBy(f, s)
    ensures DistinctBy(f, PopAt(cmp, s, pos))
    ensures forall k :: HasBy(f, PopAt(cmp, s, pos), k) <==> HasBy(f, s, k) && k != f(s[pos])
  {
    var n := |s| - 1;
    var t := Swap(s, pos, n);
    SwapBy(f, s, pos, n);
    SiftDownBy(f, cmp, t[..n], pos);
    forall k ensures HasBy(f, t[..n], k) <==> HasBy(f, s, k) && k != f(s[pos]) {
      if HasBy(f, t, k) && k != f(t[n]) {
        var x :| 0 <= x < |t| && f(t[x]) == k;
        assert f(t[..n][x]) == k;
      }
      if HasBy(f, t[..n], k) {
        var x :| 0 <= x < n && f(t[..n][x]) == k;
        assert f(t[x]) == k && f(t[x]) != f(t[n]);
      }
    }
  }

  lemma PushBy<T(!new)>(f: HeapNode<T> -> nat, cmp: Cmp<T>, s: seq<HeapNode<T>>, node: HeapNode<T>)
    requires DistinctBy(f, s) && !HasBy(f, s, f(node))
    ensures DistinctBy(f, Push(cmp, s, node))
    ensures forall k :: HasBy(f, Push(cmp, s, node), k) <==> HasBy(f, s, k) || k == f(node)
  {
    var t := s + [node];
    forall k ensures HasBy(f, t, k) <==> HasBy(f, s, k) || k == f(node) {
      assert f(t[|s|]) == f(node);
      if HasBy(f, s, k) {
        var x :| 0 <= x < |s| && f(s[x]) == k;
        assert f(t[x]) == k;
      }
    }
    SiftUpBy(f, cmp, t, |s|);
  }

  lemma PopMembers<T>(cmp: Cmp<T>, s: seq<HeapNode<T>>, pos: nat)
    requires pos < |s|
    ensures forall n :: n in PopAt(cmp, s, pos) ==> n in s
  {
    PopMultiset(cmp, s, pos);
    forall n | n in PopAt(cmp, s, pos) ensures n in s {
      assert n in multiset(PopAt(cmp, s, pos));
      assert n in multiset(s);
    }
  }

  lemma PushMembers<T>(cmp: Cmp<T>, s: seq<HeapNode<T>>, node: HeapNode<T>)
    ensures forall n :: n in Push(cmp, s, node) ==> n in s || n == node
  {
    PushMultiset(cmp, s, node);
    forall n | n in Push(cmp, s, node) ensures n in s || n == node {
      assert n in multiset(Push(cmp, s, node));
      assert n in multiset(s) + multiset{node};
    }
  }

  /** A table stays well formed when only the objects behind its live ids change. */
  lemma Reassigned(t: Table<nat>, objs: map<nat, nat>)
    requires t.WellFormed() && forall k :: k in objs <==> k in t.objs
    ensures Table(t.order, objs, t.free).WellFormed()
  {
  }

  /** Emplace before its shift loop. */
  lemma EmplaceStarts<T(!new)>(h: HeapState<T>, alloc: nat, obj: T)
    requires h.Agree() && alloc > 0
    ensures h.ids.free != []
    ensures Placed(h.nodes + [HeapNode(h.ids.NextId(), obj)], h.ids.Insert(alloc, |h.nodes|).objs, {})
  {
    InsertWellFormed(h.ids, alloc, |h.nodes|);
    AppendPlaced(h.nodes, h.ids.objs, HeapNode(h.ids.NextId(), obj));
  }

  lemma AgreeKeys<T(!new)>(h: HeapState<T>)
    requires h.Agree()
    ensures DistinctKeys(h.nodes)
    ensures forall k :: k in h.ids.objs <==> HasKey(h.nodes, k)
  {
    PlacedDistinct(h.nodes, h.ids.objs);
    PlacedKeys(h.nodes, h.ids.objs);
  }

  lemma PositionsKeys<T(!new)>(nodes: seq<HeapNode<T>>)
    requires DistinctKeys(nodes)
    ensures Placed(nodes, Positions(nodes), {})
    ensures forall k :: k in Positions(nodes) <==> HasKey(nodes, k)
  {
    PositionsPlaced(nodes);
    PlacedKeys(nodes, Positions(nodes));
  }

  /** Emplace issues an unused key and adds no other. */
  lemma EmplaceKeys<T(!new)>(h: HeapState<T>, cmp: Cmp<T>, alloc: nat, obj: T)
    requires h.Agree()
    ensures !HasKey(h.nodes, h.ids.NextId())
    ensures var ns := h.Emplace(cmp, alloc, obj).nodes;
            DistinctKeys(ns) && forall k :: HasKey(ns, k) <==> HasKey(h.nodes, k) || k == h.ids.NextId()
  {
    assert h.ids.NextId() in h.ids.free;
    AgreeKeys(h);
    PushBy(KeyOf, cmp, h.nodes, HeapNode(h.ids.NextId(), obj));
  }

  /** Emplace keeps table and array in agreement. */
  lemma EmplaceAgrees<T(!new)>(h: HeapState<T>, cmp: Cmp<T>, alloc: nat, obj: T)
    requires h.Agree() && alloc > 0
    ensures h.Emplace(cmp, alloc, obj).Agree()
  {
    var t, ns := h.ids.Insert(alloc, |h.nodes|), h.Emplace(cmp, alloc, obj).nodes;
    InsertWellFormed(h.ids, alloc, |h.nodes|);
    EmplaceKeys(h, cmp, alloc, obj);
    PositionsKeys(ns);
    forall k ensures k in Positions(ns) <==> k in t.objs {
      AgreeKeys(h);
      assert k in t.objs <==> k in h.ids.objs || k == h.ids.NextId();
    }
    Reassigned(t, Positions(ns));
  }

  /** Pop removes exactly the key at pos. */
  lemma PopKeys<T(!new)>(h: HeapState<T>, cmp: Cmp<T>, pos: nat)
    requires h.Agree() && pos < |h.nodes|
    ensures DistinctKeys(PopAt(cmp, h.nodes, pos))
    ensures forall k :: HasKey(PopAt(cmp, h.nodes, pos), k) <==> HasKey(h.nodes, k) && k != h.nodes[pos].key
    ensures h.nodes[pos].key in h.ids.objs
  {
    AgreeKeys(h);
    PopBy(KeyOf, cmp, h.nodes, pos);
  }

  /** Pop removes exactly the key at pos and keeps table and array in agreement, wherever pos is. */
  lemma PopAgrees<T(!new)>(h: HeapState<T>, cmp: Cmp<T>, pos: nat)
    requires h.Agree() && pos < |h.nodes|
    ensures h.Pop(cmp, pos).Agree()
    ensures forall k :: HasKey(h.Pop(cmp, pos).nodes, k) <==> HasKey(h.nodes, k) && k != h.nodes[pos].key
    ensures h.Pop(cmp, pos).ids.free == h.ids.free + [h.nodes[pos].key]
  {
    hide Placed, HasKey, DistinctKeys, PopAt, Positions, Table.WellFormed;
    var key, ns := h.nodes[pos].key, PopAt(cmp, h.nodes, pos);
    var t := h.ids.Erase(key);
    PopKeys(h, cmp, pos);
    assert t.free == h.ids.free + [key];
    assert Placed(ns, Positions(ns), {}) by { PositionsKeys(ns); }
    assert Table(t.order, Positions(ns), t.free).WellFormed() by {
      AgreeKeys(h);
      EraseWellFormed(h.ids, key);
      PositionsKeys(ns);
      Reassigned(t, Positions(ns));
    }
  }

  /** Emplace adds one node, of the object under the key it returns; Pop takes away the one at pos. */
  lemma HeapContents<T(!new)>(h: HeapState<T>, cmp: Cmp<T>, alloc: nat, obj: T, pos: nat)
    requires h.Agree()
    ensures multiset(h.Emplace(cmp, alloc, obj).nodes) == multiset(h.nodes) + multiset{HeapNode(h.ids.NextId(), obj)}
    ensures pos < |h.nodes| ==> multiset(h.Pop(cmp, pos).nodes) == multiset(h.nodes) - multiset{h.nodes[pos]}
  {
    PushMultiset(cmp, h.nodes, HeapNode(h.ids.NextId(), obj));
    if pos < |h.nodes| {
      PopMultiset(cmp, h.nodes, pos);
    }
  }

  /** The key table under Emplace and Pop, positions aside, is the plain table under Insert and Erase. */
  lemma EmplaceIds<T(!new)>(h: HeapState<T>, cmp: Cmp<T>, alloc: nat, obj: T)
    requires h.Agree() && alloc > 0
    ensures h.Emplace(cmp, alloc, obj).ids.objs.Keys == h.ids.objs.Keys + {h.ids.NextId()}
  {
    hide HeapState.Emplace, Placed, HasBy, DistinctBy;
    EmplaceKeys(h, cmp, alloc, obj);
    EmplaceAgrees(h, cmp, alloc, obj);
    AgreeKeys(h);
    AgreeKeys(h.Emplace(cmp, alloc, obj));
  }

  lemma PopIds<T(!new)>(h: HeapState<T>, cmp: Cmp<T>, pos: nat)
    requires h.Agree() && pos < |h.nodes|
    ensures h.Pop(cmp, pos).ids.objs.Keys == h.ids.objs.Keys - {h.nodes[pos].key}
  {
    PopAgrees(h, cmp, pos);
    AgreeKeys(h);
    AgreeKeys(h.Pop(cmp, pos));
  }

  datatype HeapOp<T> = HEmplace(obj: T) | HPop(pos: nat) | HPopByKey(key: nat)

  /** One call; a Pop outside the heap or by an unknown key is never made. */
  ghost function ApplyHeap<T>(h: HeapState<T>, cmp: Cmp<T>, alloc: nat, op: HeapOp<T>): HeapState<T>
    requires h.ids.free != []
  {
    match op
    case HEmplace(obj) => h.Emplace(cmp, alloc, obj)
    case HPop(pos) => if pos < |h.nodes| then h.Pop(cmp, pos) else h
    case HPopByKey(key) => if HasKey(h.nodes, key) then h.Pop(cmp, PosOf(h.nodes, key)) else h
  }

  ghost function RunHeap<T>(h: HeapState<T>, cmp: Cmp<T>, alloc: nat, ops: seq<HeapOp<T>>): (r: HeapState<T>)
    requires h.ids.free != [] && alloc > 0
    decreases ops
  {
    if ops == [] then h else RunHeap(ApplyHeap(h, cmp, alloc, ops[0]), cmp, alloc, ops[1..])
  }

  /** After any run of Emplace, Pop and PopByKey the key table and the heap array agree. */
  lemma {:induction false} RunAgrees<T(!new)>(h: HeapState<T>, cmp: Cmp<T>, alloc: nat, ops: seq<HeapOp<T>>)
    requires h.Agree() && alloc > 0
    ensures RunHeap(h, cmp, alloc, ops).Agree()
    decreases ops
  {
    hide Placed, HeapState.Emplace, HeapState.Pop, HasKey;
    if ops != [] {
      match ops[0] {
        case HEmplace(obj) => EmplaceAgrees(h, cmp, alloc, obj);
        case HPop(pos) => if pos < |h.nodes| { PopAgrees(h, cmp, pos); }
        case HPopByKey(key) => if HasKey(h.nodes, key) { PopAgrees(h, cmp, PosOf(h.nodes, key)); }
      }
      RunAgrees(ApplyHeap(h, cmp, alloc, ops[0]), cmp, alloc, ops[1..]);
    }
  }

  // ---------- The class ----------

  /** PARENT in the unsigned arithmetic of the source: of 0 it is a huge number. */
  function ParentIndex(i: nat): nat {
    if i == 0 then 0x7FFF_FFFF_FFFF_FFFF else Parent(i)
  }

  class Heap<T(0,!new)> {
    const cmp: Cmp<T>
    const allocNum: nat
    var heap: seq<HeapNode<T>>
    var size: nat
    const key2pos: ObjectMap<nat>

    ghost predicate Valid()
      reads this, key2pos
    {
      && allocNum > 0 && key2pos.allocNum == allocNum
      && size < |heap|
      && key2pos.Valid()
      && Placed(Nodes(), key2pos.View().objs, {})
    }

    ghost function Nodes(): seq<HeapNode<T>>
      reads this
    {
      if size <= |heap| then heap[..size] else []
    }

    ghost function View(): HeapState<T>
      reads this, key2pos
    {
      HeapState(Nodes(), key2pos.View())
    }

    constructor (cmp: Cmp<T>, alloc: nat)
      requires alloc > 0
      ensures Valid() && fresh(key2pos) && this.cmp == cmp && allocNum == alloc
      ensures View() == HeapState([], FreshTable(alloc))
    {
      this.cmp, allocNum := cmp, alloc;
      heap, size := [], 0;
      key2pos := new ObjectMap(alloc);
      new;
      Allocate();
    }

    /** vector::resize: the new cells hold default nodes nobody reads. */
    method Allocate()
      requires allocNum > 0
      modifies this`heap
      ensures |heap| == |old(heap)| + allocNum && heap[..|old(heap)|] == old(heap)
    {
      var blank: HeapNode<T> := *;
      heap := heap + seq(allocNum, _ => blank);
    }

    /** The key table as a value, without the positions: what the shift loops leave alone. */
    ghost function Ids(): (seq<nat>, seq<nat>, set<nat>)
      reads key2pos
    {
      (key2pos.order, key2pos.free, key2pos.View().objs.Keys)
    }

    /** The two statements both shift loops repeat: the node at from goes to current, and so does its entry in the table.
        tmp is the node in flight, which now belongs at from. */
    method MoveNode(current: nat, from: nat, ghost tmp: HeapNode<T>, ghost extra: set<nat>)
      requires current < size <= |heap| && from < size && current != from && key2pos.Valid()
      requires PlacedBut(Nodes()[current := tmp], key2pos.View().objs, extra, current)
      modifies this`heap, key2pos`objects
      ensures |heap| == |old(heap)| && key2pos.Valid() && Ids() == old(Ids())
      ensures Nodes()[from := tmp] == Swap(old(Nodes())[current := tmp], current, from)
      ensures PlacedBut(Nodes()[from := tmp], key2pos.View().objs, extra, from)
    {
      hide ObjectMap.Valid;
      MoveHole(Nodes()[current := tmp], key2pos.View().objs, extra, current, from);
      heap := heap[current := heap[from]];
      key2pos.Assign(heap[from].key, current);
      assert key2pos.View().objs.Keys == old(key2pos.View().objs.Keys);
      assert Nodes()[from := tmp] == Swap(old(Nodes())[current := tmp], current, from);
    }

    /** The two statements both shift loops end with. When Pop removes the last node, current is the cell behind the heap
        and tmp the removed node, whose key is still in the table. */
    method Settle(current: nat, tmp: HeapNode<T>, ghost extra: set<nat>)
      requires current <= size <= |heap| && current < |heap| && key2pos.Valid()
      requires current < size ==> PlacedBut(Nodes()[current := tmp], key2pos.View().objs, extra, current)
      requires current == size ==> tmp.key in extra && tmp.key in key2pos.View().objs && Placed(Nodes(), key2pos.View().objs, extra)
      modifies this`heap, key2pos`objects
      ensures |heap| == |old(heap)| && key2pos.Valid() && Ids() == old(Ids())
      ensures Nodes() == if current < size then old(Nodes())[current := tmp] else old(Nodes())
      ensures Placed(Nodes(), key2pos.View().objs, extra)
    {
      hide ObjectMap.Valid;
      if current < size {
        CloseHole(Nodes()[current := tmp], key2pos.View().objs, extra, current);
      }
      heap := heap[current := tmp];
      key2pos.Assign(tmp.key, current);
      assert key2pos.View().objs.Keys == old(key2pos.View().objs.Keys);
      assert Nodes() == if current < size then old(Nodes())[current := tmp] else old(Nodes());
    }

    method ShiftUp(pos: nat)
      requires pos < size <= |heap| && key2pos.Valid()
      requires Placed(Nodes(), key2pos.View().objs, {})
      modifies this`heap, key2pos`objects
      ensures |heap| == |old(heap)| && key2pos.Valid() && Ids() == old(Ids())
      ensures Nodes() == SiftUp(cmp, old(Nodes()), pos)
      ensures Placed(Nodes(), key2pos.View().objs, {})
    {
      hide ObjectMap.Valid, Placed, PlacedBut;
      var current: nat := pos;
      var parent: nat := ParentIndex(current);
      var tmp := heap[pos];
      assert Nodes()[current := tmp] == Nodes();
      OpenHole(Nodes(), key2pos.View().objs, {}, pos);
      while current > 0 && cmp(tmp.value, heap[parent].value)
        invariant |heap| == |old(heap)| && current < size && parent == ParentIndex(current)
        invariant SiftUp(cmp, Nodes()[current := tmp], current) == SiftUp(cmp, old(Nodes()), pos)
        invariant key2pos.Valid() && Ids() == old(Ids())
        invariant PlacedBut(Nodes()[current := tmp], key2pos.View().objs, {}, current)
        decreases current
      {
        MoveNode(current, parent, tmp, {});
        current := parent;
        parent := ParentIndex(parent);
      }
      Settle(current, tmp, {});
    }

    method ShiftDown(pos: nat, ghost extra: set<nat>)
      requires pos <= size < |heap| && key2pos.Valid()
      requires pos < size ==> PlacedBut(Nodes(), key2pos.View().objs, extra, pos)
      requires pos == size ==>
                 heap[pos].key in extra && heap[pos].key in key2pos.View().objs && Placed(Nodes(), key2pos.View().objs, extra)
      modifies this`heap, key2pos`objects
      ensures |heap| == |old(heap)| && key2pos.Valid() && Ids() == old(Ids())
      ensures Nodes() == SiftDown(cmp, old(Nodes()), pos)
      ensures Placed(Nodes(), key2pos.View().objs, extra)
    {
      hide ObjectMap.Valid, Placed, PlacedBut, SiftDown, SmallerChild, Swap;
      var current: nat := pos;
      var child: nat := Child(current);
      var tmp := heap[pos];
      if pos == size {
        SiftDownTurn(cmp, Nodes(), pos);
        Settle(current, tmp, extra);
        return;
      }
      assert Nodes()[current := tmp] == Nodes();
      while child < size
        invariant |heap| == |old(heap)| && current < size && child == Child(current)
        invariant SiftDown(cmp, Nodes()[current := tmp], current) == SiftDown(cmp, old(Nodes()), pos)
        invariant key2pos.Valid() && Ids() == old(Ids())
        invariant PlacedBut(Nodes()[current := tmp], key2pos.View().objs, extra, current)
        decreases size - current
      {
        ghost var nodes := Nodes()[current := tmp];
        if child + 1 < size && cmp(heap[child + 1].value, heap[child].value) {
          child := child + 1;
        }
        SiftDownTurn(cmp, nodes, current);
        if cmp(tmp.value, heap[child].value) {
          break;
        }
        MoveNode(current, child, tmp, extra);
        current := child;
        child := Child(child);
      }
      SiftDownTurn(cmp, Nodes()[current := tmp], current);
      Settle(current, tmp, extra);
    }

    lemma Agrees()
      requires Valid()
      ensures View().Agree()
    {
    }

    method Emplace(obj: T) returns (key: nat)
      requires Valid()
      modifies this, key2pos
      ensures key == old(View()).ids.NextId()
      ensures View() == old(View()).Emplace(cmp, allocNum, obj)
      ensures Valid()
    {
      hide ObjectMap.Valid, Placed, HeapState.Agree, SiftUp;
      ghost var t := View();
      Agrees();
      EmplaceStarts(t, allocNum, obj);
      var pos := size;
      key := key2pos.Insert(pos);
      heap := heap[pos := HeapNode(key, obj)];
      size := size + 1;
      assert Nodes() == t.nodes + [HeapNode(key, obj)];
      ShiftUp(pos);
      PlacedDetermined(Nodes(), key2pos.View().objs);
      assert View() == t.Emplace(cmp, allocNum, obj);
      if size == |heap| {
        ghost var nodes := Nodes();
        Allocate();
        assert Nodes() == nodes;
      }
    }

    method Pop(pos: nat := 0) returns (obj: T)
      requires Valid() && pos < |View().nodes|
      modifies this, key2pos
      ensures obj == old(View()).nodes[pos].value
      ensures View() == old(View()).Pop(cmp, pos)
      ensures Valid()
    {
      hide ObjectMap.Valid;
      ghost var t := View();
      SwapOut(t.nodes, t.ids.objs, pos);
      heap := Swap(heap, pos, size - 1);
      var node := heap[size - 1];
      obj := node.value;
      size := size - 1;
      assert Nodes() == Swap(t.nodes, pos, size)[..size];
      ShiftDown(pos, {node.key});
      DropExtra(Nodes(), key2pos.View().objs, node.key);
      key2pos.Erase(node.key);
      PlacedDetermined(Nodes(), key2pos.View().objs);
    }

    method Top() returns (obj: T)
      requires Valid() && View().nodes != []
      ensures obj == View().nodes[0].value
    {
      obj := heap[0].value;
    }

    method FindByKey(key: nat) returns (found: bool)
      requires Valid()
      ensures found <==> HasKey(View().nodes, key)
    {
      found := key2pos.Find(key);
      PlacedKeys(Nodes(), key2pos.View().objs);
    }

    method PopByKey(key: nat, ghost pos: nat) returns (obj: T)
      requires Valid() && pos < |View().nodes| && View().nodes[pos].key == key
      modifies this, key2pos
      ensures obj == old(View()).nodes[pos].value
      ensures View() == old(View()).Pop(cmp, pos)
      ensures Valid()
    {
      var p := key2pos.Get(key);
      obj := Pop(p.value);
    }

    method Empty() returns (empty: bool)
      requires Valid()
      ensures empty <==> View().nodes == []
    {
      empty := size == 0;
    }
  }
}
