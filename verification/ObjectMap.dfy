/** The slot table of src/util/object_map.hpp: a list of live ids threaded through the slots and a ring of free ids.
    The class below refines the value type Table, which has neither links nor ring. */
module ObjectMaps {
  import opened Common

  // ---------- The table a caller sees ----------

  /** Live ids in insertion order, their objects, and the free ids in the order in which they will be issued. */
  datatype Table<T> = Table(order: seq<nat>, objs: map<nat, T>, free: seq<nat>) {

    function Capacity(): nat { |order| + |free| }

    /** Ids are 0..capacity-1, each either live or free, and at least one is free. */
    ghost predicate WellFormed() {
      && free != []
      && Distinct(order) && Distinct(free)
      && (forall id :: id in order ==> id !in free)
      && (forall id: nat :: id in order || id in free <==> id < Capacity())
      && (forall id: nat :: id in objs <==> id in order)
    }

    function NextId(): nat
      requires free != []
    {
      free[0]
    }

    function Insert(alloc: nat, obj: T): Table<T>
      requires free != []
    {
      Table(order + [free[0]], objs[free[0] := obj],
            if |free| == 1 then Range(Capacity(), Capacity() + alloc) else free[1..])
    }

    function Erase(id: nat): Table<T> {
      if id !in objs then this
      else Table(Remove(order, id), objs - {id}, free + [id])
    }

    /** Writing through the pointer that operator[] returns. */
    function Assign(id: nat, obj: T): Table<T> {
      Table(order, objs[id := obj], free)
    }
  }

  lemma InsertWellFormed<T>(t: Table<T>, alloc: nat, obj: T)
    requires t.WellFormed() && alloc > 0
    ensures t.NextId() !in t.objs
    ensures t.Insert(alloc, obj).WellFormed()
    ensures forall id :: id in t.objs ==> id in t.Insert(alloc, obj).objs && t.Insert(alloc, obj).objs[id] == t.objs[id]
    ensures var u := t.Insert(alloc, obj);
            && t.NextId() in u.objs && u.objs[t.NextId()] == obj && u.order == t.order + [t.NextId()]
            && u.Capacity() == t.Capacity() + if |t.free| == 1 then alloc else 0
  {
    var id, u := t.free[0], t.Insert(alloc, obj);
    assert id in t.free;
    AppendDistinct(t.order, id);
    forall x ensures x in u.order <==> x in t.order || x == id {
    }
    if |t.free| == 1 {
      assert t.free == [id];
      forall x: nat ensures x in u.free <==> t.Capacity() <= x < u.Capacity() {
        if t.Capacity() <= x < u.Capacity() { assert u.free[x - t.Capacity()] == x; }
      }
    } else {
      assert t.free == [id] + u.free;
    }
  }

  function FreshTable<T>(alloc: nat): Table<T> {
    Table([], map[], Range(0, alloc))
  }

  lemma FreshTableWellFormed<T>(alloc: nat)
    requires alloc > 0
    ensures FreshTable<T>(alloc).WellFormed()
  {
    forall id: nat ensures id in Range(0, alloc) <==> id < alloc {
      if id < alloc { assert Range(0, alloc)[id] == id; }
    }
  }

  lemma FreshWellFormed<T>(objects: seq<Node<T>>, alloc: nat)
    requires |objects| == alloc > 0 && forall i :: 0 <= i < alloc ==> objects[i] == Blank()
    ensures Table([], Objs(objects), Range(0, alloc)) == FreshTable(alloc)
    ensures FreshTable<T>(alloc).WellFormed()
  {
    assert Objs(objects) == map[];
    FreshTableWellFormed<T>(alloc);
  }

  lemma EraseWellFormed<T>(t: Table<T>, id: nat)
    requires t.WellFormed()
    ensures t.Erase(id).WellFormed()
    ensures t.Erase(id).Capacity() == t.Capacity()
  {
    if id in t.objs {
      RemoveDistinct(t.order, id);
      AppendDistinct(t.free, id);
      assert forall x :: x in t.Erase(id).free <==> x in t.free || x == id;
    }
  }

  lemma EraseFree<T>(t: Table<T>, id: nat)
    requires t.WellFormed() && id in t.objs
    ensures |t.free| < t.Capacity() && t.order != []
  {
  }

  /** An erased id is gone and the last of the free ones; the others keep their objects; an id that is not live changes nothing. */
  lemma ErasesOnly<T>(t: Table<T>, id: nat)
    requires t.WellFormed()
    ensures var u := t.Erase(id);
            && id !in u.objs && id !in u.order
            && (forall x :: x != id ==> (x in u.objs <==> x in t.objs))
            && (forall x :: x != id && x in t.objs ==> u.objs[x] == t.objs[x])
            && (if id in t.objs then u.free == t.free + [id] else u == t)
  {
    EraseWellFormed(t, id);
  }

  // ---------- Runs of the table ----------

  datatype Op<T> = OpInsert(obj: T) | OpErase(id: nat)

  function Apply<T>(t: Table<T>, alloc: nat, op: Op<T>): Table<T>
    requires t.free != []
  {
    match op
    case OpInsert(obj) => t.Insert(alloc, obj)
    case OpErase(id) => t.Erase(id)
  }

  /** The ids issued by a run, oldest first, and the table it ends in. */
  function Run<T>(t: Table<T>, alloc: nat, ops: seq<Op<T>>): (r: (seq<nat>, Table<T>))
    requires t.free != [] && alloc > 0
    ensures r.1.free != []
    decreases ops
  {
    if ops == [] then ([], t)
    else
      var (ids, u) := Run(Apply(t, alloc, ops[0]), alloc, ops[1..]);
      (if ops[0].OpInsert? then [t.NextId()] + ids else ids, u)
  }

  lemma {:induction false} RunWellFormed<T>(t: Table<T>, alloc: nat, ops: seq<Op<T>>)
    requires t.WellFormed() && alloc > 0
    ensures Run(t, alloc, ops).1.WellFormed()
    decreases ops
  {
    if ops != [] {
      match ops[0] {
        case OpInsert(obj) => InsertWellFormed(t, alloc, obj);
        case OpErase(id) => EraseWellFormed(t, id);
      }
      RunWellFormed(Apply(t, alloc, ops[0]), alloc, ops[1..]);
    }
  }

  /** Free ids are issued first come, first served: whatever a run does, the ids it issues are a prefix of the ids
      that were free at its start, or begin with all of them. */
  lemma {:induction false} IssuedInFreeOrder<T>(t: Table<T>, alloc: nat, ops: seq<Op<T>>, queue: seq<nat>)
    requires t.free != [] && alloc > 0
    requires queue <= t.free
    ensures Run(t, alloc, ops).0 <= queue || queue <= Run(t, alloc, ops).0
    decreases ops
  {
    if ops != [] && queue != [] {
      var u := Apply(t, alloc, ops[0]);
      if ops[0].OpInsert? {
        assert queue[0] == t.free[0];
        var rest := queue[1..];
        assert rest <= u.free by {
          if |t.free| == 1 { assert rest == []; } else { assert u.free == t.free[1..]; }
        }
        IssuedInFreeOrder(u, alloc, ops[1..], rest);
        var ids := Run(u, alloc, ops[1..]).0;
        assert Run(t, alloc, ops).0 == [queue[0]] + ids;
        assert queue == [queue[0]] + rest;
        if ids <= rest {
          assert ([queue[0]] + ids) == ([queue[0]] + rest)[..1 + |ids|];
        } else {
          assert ([queue[0]] + rest) == ([queue[0]] + ids)[..1 + |rest|];
        }
      } else {
        assert queue <= u.free;
        IssuedInFreeOrder(u, alloc, ops[1..], queue);
      }
    } else if queue == [] {
      assert queue <= Run(t, alloc, ops).0;
    }
  }

  /** An erased id comes back only after every id that was free when it was erased has been issued,
      and there is at least one of those, so the very next insertion issues another id. */
  lemma {:induction false} ReissuedLast<T>(t: Table<T>, alloc: nat, id: nat, ops: seq<Op<T>>, n: nat)
    requires t.WellFormed() && id in t.objs && alloc > 0
    requires var ids := Run(t.Erase(id), alloc, ops).0; n < |ids| && ids[n] == id
    ensures var ids := Run(t.Erase(id), alloc, ops).0;
            0 < |t.free| <= n && forall f :: f in t.free ==> f in ids[..n]
  {
    EraseWellFormed(t, id);
    var u := t.Erase(id);
    assert id in t.order && id !in t.free;
    assert t.free <= u.free;
    IssuedInFreeOrder(u, alloc, ops, t.free);
    var ids := Run(u, alloc, ops).0;
    assert n >= |t.free|;
    assert ids[..|t.free|] == t.free;
    forall f | f in t.free ensures f in ids[..n] {
      var i :| 0 <= i < |t.free| && t.free[i] == f;
      assert ids[..n][i] == f;
    }
  }

  /** What an insertion issues is never live, so a live id is never reissued. */
  lemma {:induction false} LiveNeverReissued<T>(t: Table<T>, alloc: nat, ops: seq<Op<T>>, obj: T)
    requires t.WellFormed() && alloc > 0
    ensures var u := Run(t, alloc, ops).1; u.NextId() !in u.objs && u.NextId() < u.Capacity()
  {
    RunWellFormed(t, alloc, ops);
    var u := Run(t, alloc, ops).1;
    InsertWellFormed(u, alloc, obj);
    assert u.free[0] in u.free;
  }

  // ---------- Slots, links and ring ----------

  /** The source's size_t(-1); no slot has that number. */
  const INVALID_ID: int := -1

  datatype Node<T> = Node(obj: Option<T>, prev: int, next: int)

  function Blank<T>(): Node<T> {
    Node(None, INVALID_ID, INVALID_ID)
  }

  function IdAt(order: seq<nat>, i: int): int {
    if 0 <= i < |order| then order[i] else INVALID_ID
  }

  /** The prev/next links thread the slots of order, in that order, between headId and tailId. */
  ghost predicate Linked<T>(objects: seq<Node<T>>, order: seq<nat>, headId: int, tailId: int) {
    && (forall i :: 0 <= i < |order| ==> order[i] < |objects|)
    && headId == IdAt(order, 0)
    && tailId == IdAt(order, |order| - 1)
    && (forall i {:trigger objects[order[i]]} :: 0 <= i < |order| ==>
          objects[order[i]].prev == IdAt(order, i - 1) && objects[order[i]].next == IdAt(order, i + 1))
  }

  /** Free slots are blank, live ones hold an object. */
  ghost predicate Filled<T>(objects: seq<Node<T>>, order: seq<nat>) {
    forall id :: 0 <= id < |objects| ==>
      if id in order then objects[id].obj.Some? else objects[id] == Blank()
  }

  /** The cells from head up to tail, around the end; head == tail stands for a ring full of free ids. */
  function Ring(cells: seq<nat>, head: nat, tail: nat): (r: seq<nat>)
    requires head < |cells| && tail < |cells|
    ensures r != []
    ensures |r| == |cells| <==> head == tail
    ensures r[0] == cells[head]
  {
    if head < tail then cells[head..tail] else cells[head..] + cells[..tail]
  }

  /** The index after i in a ring of n cells. */
  function Succ(i: nat, n: nat): (r: nat)
    requires i < n
    ensures r == if i + 1 == n then 0 else i + 1
  {
    (i + 1) % n
  }

  lemma RingAdvance(cells: seq<nat>, head: nat, tail: nat)
    requires head < |cells| && tail < |cells|
    ensures Succ(head, |cells|) == tail <==> |Ring(cells, head, tail)| == 1
    ensures Succ(head, |cells|) != tail ==> Ring(cells, Succ(head, |cells|), tail) == Ring(cells, head, tail)[1..]
  {
  }

  lemma RingAppend(cells: seq<nat>, head: nat, tail: nat, id: nat)
    requires head < |cells| && tail < |cells| && head != tail
    ensures Ring(cells[tail := id], head, Succ(tail, |cells|)) == Ring(cells, head, tail) + [id]
  {
  }

  function Objs<T>(objects: seq<Node<T>>): map<nat, T> {
    map id: nat | id < |objects| && objects[id].obj.Some? :: objects[id].obj.value
  }

  // ---------- What one insertion and one erasure do to the links ----------

  /** What Insert does to the slots: id is filled and linked behind the last id of order. */
  ghost predicate LinkedLast<T>(before: seq<Node<T>>, after: seq<Node<T>>, order: seq<nat>, id: nat, obj: T)
    requires |before| == |after| && id < |before|
  {
    && after[id] == Node(Some(obj), IdAt(order, |order| - 1), INVALID_ID)
    && (forall x :: 0 <= x < |before| && x != id ==>
          after[x] == if x == IdAt(order, |order| - 1) then before[x].(next := id) else before[x])
  }

  lemma LinkedLastLinks<T>(before: seq<Node<T>>, after: seq<Node<T>>, order: seq<nat>, headId: int, tailId: int, id: nat, obj: T)
    requires Linked(before, order, headId, tailId) && Distinct(order)
    requires |before| == |after| && id < |before| && id !in order && LinkedLast(before, after, order, id, obj)
    ensures Linked(after, order + [id], if headId == INVALID_ID then id else headId, id)
  {
    var o := order + [id];
    forall i | 0 <= i < |o| ensures after[o[i]].prev == IdAt(o, i - 1) && after[o[i]].next == IdAt(o, i + 1) {
      if i < |order| {
        assert o[i] == order[i] && order[i] in order;
        assert i < |order| - 1 ==> order[i] != order[|order| - 1];
      }
    }
  }

  lemma LinkedLastFilled<T>(before: seq<Node<T>>, after: seq<Node<T>>, order: seq<nat>, id: nat, obj: T)
    requires |before| == |after| && id < |before| && id !in order && LinkedLast(before, after, order, id, obj)
    requires Filled(before, order)
    ensures Filled(after, order + [id])
    ensures Objs(after) == Objs(before)[id := obj]
  {
    forall x | 0 <= x < |after| ensures if x in order + [id] then after[x].obj.Some? else after[x] == Blank() {
      assert x in order + [id] <==> x in order || x == id;
      assert order != [] ==> order[|order| - 1] in order;
    }
    assert Objs(after) == Objs(before)[id := obj];
  }

  /** What Erase does to the slots: order[k] is blank, its neighbours point at each other, nothing else changes. */
  ghost predicate Unlinked<T>(before: seq<Node<T>>, after: seq<Node<T>>, order: seq<nat>, k: nat)
    requires |before| == |after| && k < |order| && order[k] < |before|
  {
    && after[order[k]] == Blank()
    && (forall x :: 0 <= x < |before| && x != order[k] ==>
          && after[x].obj == before[x].obj
          && after[x].prev == (if x == IdAt(order, k + 1) then IdAt(order, k - 1) else before[x].prev)
          && after[x].next == (if x == IdAt(order, k - 1) then IdAt(order, k + 1) else before[x].next))
  }

  /** The neighbours of the k-th id, where there are any. */
  lemma Neighbours<T>(objects: seq<Node<T>>, order: seq<nat>, headId: int, tailId: int, k: nat)
    requires Linked(objects, order, headId, tailId) && Distinct(order) && k < |order|
    ensures order[k] < |objects|
    ensures var id, prevId, nextId := order[k], IdAt(order, k - 1), IdAt(order, k + 1);
            && objects[id].prev == prevId && objects[id].next == nextId
            && (id == headId <==> k == 0) && (id == tailId <==> k == |order| - 1)
            && (k == 0 <==> prevId == INVALID_ID) && (k == |order| - 1 <==> nextId == INVALID_ID)
            && -1 <= prevId < |objects| && -1 <= nextId < |objects| && prevId != id && nextId != id
            && (prevId == nextId ==> prevId == INVALID_ID)
  {
    assert objects[order[k]] == objects[order[k]];
  }

  /** Slot id is blank and its neighbours point at each other. */
  function Bypass<T>(objects: seq<Node<T>>, id: nat, prevId: int, nextId: int): (r: seq<Node<T>>)
    requires id < |objects| && -1 <= prevId < |objects| && -1 <= nextId < |objects|
    ensures |r| == |objects|
  {
    var a := if nextId == INVALID_ID then objects else objects[nextId := objects[nextId].(prev := prevId)];
    var b := if prevId == INVALID_ID then a else a[prevId := a[prevId].(next := nextId)];
    b[id := Blank()]
  }

  lemma BypassUnlinks<T>(before: seq<Node<T>>, order: seq<nat>, headId: int, tailId: int, k: nat)
    requires Linked(before, order, headId, tailId) && Distinct(order) && k < |order|
    ensures order[k] < |before| && -1 <= IdAt(order, k - 1) < |before| && -1 <= IdAt(order, k + 1) < |before|
    ensures Unlinked(before, Bypass(before, order[k], IdAt(order, k - 1), IdAt(order, k + 1)), order, k)
  {
    Neighbours(before, order, headId, tailId, k);
    hide Linked, Distinct;
  }

  lemma UnlinkedAt<T>(before: seq<Node<T>>, after: seq<Node<T>>, order: seq<nat>, headId: int, tailId: int, k: nat, i: nat)
    requires Linked(before, order, headId, tailId) && Distinct(order)
    requires |before| == |after| && k < |order| && Unlinked(before, after, order, k)
    requires i < |order| - 1
    ensures var o := Without(order, k);
            after[o[i]].prev == IdAt(o, i - 1) && after[o[i]].next == IdAt(o, i + 1)
  {
    var o := Without(order, k);
    var j := if i < k then i else i + 1;
    var x := order[j];
    assert o[i] == x && x != order[k];
    assert before[order[j]].prev == IdAt(order, j - 1) && before[order[j]].next == IdAt(order, j + 1);
    if j == k + 1 {
      assert after[x].prev == IdAt(order, k - 1) == IdAt(o, i - 1);
    } else {
      assert x != IdAt(order, k + 1);
      assert after[x].prev == IdAt(order, j - 1) == IdAt(o, i - 1);
    }
    if j == k - 1 {
      assert after[x].next == IdAt(order, k + 1) == IdAt(o, i + 1);
    } else {
      assert x != IdAt(order, k - 1);
      assert after[x].next == IdAt(order, j + 1) == IdAt(o, i + 1);
    }
  }

  lemma UnlinkedLinks<T>(before: seq<Node<T>>, after: seq<Node<T>>, order: seq<nat>, headId: int, tailId: int, k: nat)
    requires Linked(before, order, headId, tailId) && Distinct(order)
    requires |before| == |after| && k < |order| && Unlinked(before, after, order, k)
    ensures Linked(after, Without(order, k), if k == 0 then IdAt(order, 1) else headId,
                   if k == |order| - 1 then IdAt(order, k - 1) else tailId)
  {
    forall i | 0 <= i < |order| - 1
      ensures var o := Without(order, k);
              after[o[i]].prev == IdAt(o, i - 1) && after[o[i]].next == IdAt(o, i + 1)
    {
      UnlinkedAt(before, after, order, headId, tailId, k, i);
    }
  }

  lemma UnlinkedFilled<T>(before: seq<Node<T>>, after: seq<Node<T>>, order: seq<nat>, k: nat, rest: seq<nat>)
    requires |before| == |after| && k < |order| && order[k] < |before|
    requires Unlinked(before, after, order, k) && Filled(before, order)
    requires forall x :: x in rest <==> x in order && x != order[k]
    ensures Filled(after, rest)
    ensures Objs(after) == Objs(before) - {order[k]}
  {
    assert 0 < k ==> IdAt(order, k - 1) == order[k - 1] && order[k - 1] in order;
    assert k + 1 < |order| ==> IdAt(order, k + 1) == order[k + 1] && order[k + 1] in order;
    forall x | 0 <= x < |after| ensures if x in rest then after[x].obj.Some? else after[x] == Blank() {
      assert x in order ==> before[x].obj.Some?;
      assert x !in order ==> after[x] == before[x];
    }
    assert Objs(after) == Objs(before) - {order[k]};
  }

  lemma UnlinkedKeeps<T>(before: seq<Node<T>>, after: seq<Node<T>>, order: seq<nat>, headId: int, tailId: int, k: nat)
    requires Linked(before, order, headId, tailId) && Filled(before, order) && Distinct(order)
    requires |before| == |after| && k < |order| && Unlinked(before, after, order, k)
    ensures Linked(after, Remove(order, order[k]), if k == 0 then IdAt(order, 1) else headId,
                   if k == |order| - 1 then IdAt(order, k - 1) else tailId)
    ensures Filled(after, Remove(order, order[k]))
    ensures Objs(after) == Objs(before) - {order[k]}
  {
    RemoveAt(order, k);
    UnlinkedLinks(before, after, order, headId, tailId, k);
    RemoveDistinct(order, order[k]);
    UnlinkedFilled(before, after, order, k, Remove(order, order[k]));
  }

  /** A new object in a live slot disturbs neither the links nor the other slots. */
  lemma AssignKeeps<T>(objects: seq<Node<T>>, order: seq<nat>, headId: int, tailId: int, id: nat, obj: T)
    requires Linked(objects, order, headId, tailId) && Filled(objects, order) && id in Objs(objects)
    ensures id < |objects|
    ensures var after := objects[id := objects[id].(obj := Some(obj))];
            Linked(after, order, headId, tailId) && Filled(after, order) && Objs(after) == Objs(objects)[id := obj]
  {
    var after := objects[id := objects[id].(obj := Some(obj))];
    SameLinks(objects, after, order, headId, tailId);
    hide Linked;
    assert Objs(after) == Objs(objects)[id := obj];
  }

  lemma SameLinks<T>(before: seq<Node<T>>, after: seq<Node<T>>, order: seq<nat>, headId: int, tailId: int)
    requires Linked(before, order, headId, tailId) && |after| == |before|
    requires forall x :: 0 <= x < |before| ==> after[x].prev == before[x].prev && after[x].next == before[x].next
    ensures Linked(after, order, headId, tailId)
  {
    forall i | 0 <= i < |order|
      ensures after[order[i]].prev == IdAt(order, i - 1) && after[order[i]].next == IdAt(order, i + 1)
    {
      assert before[order[i]] == before[order[i]];
    }
  }

  /** The successor of the k-th id takes its place. */
  lemma RemoveSuccessor(order: seq<nat>, k: nat)
    requires k < |order| && Distinct(order)
    ensures IdAt(Remove(order, order[k]), k) == IdAt(order, k + 1)
  {
    RemoveAt(order, k);
  }

  /** Growing the table leaves links and objects alone. */
  lemma GrownKeeps<T>(before: seq<Node<T>>, after: seq<Node<T>>, order: seq<nat>, headId: int, tailId: int)
    requires Linked(before, order, headId, tailId) && Filled(before, order)
    requires |before| <= |after| && after[..|before|] == before
    requires forall i :: |before| <= i < |after| ==> after[i] == Blank()
    ensures Linked(after, order, headId, tailId) && Filled(after, order)
    ensures Objs(after) == Objs(before)
  {
    assert forall i :: 0 <= i < |before| ==> after[i] == before[i];
    forall id | 0 <= id < |after| ensures if id in order then after[id].obj.Some? else after[id] == Blank() {
      assert id in order ==> id < |before|;
    }
    assert Objs(after) == Objs(before);
  }

  // ---------- The class ----------

  /** An iterator holds nothing but an id. */
  datatype Iterator = Iterator(id: int)

  class ObjectMap<T> {
    const allocNum: nat
    var objects: seq<Node<T>>
    var indexs: seq<nat>
    var head: nat
    var tail: nat
    var headId: int
    var tailId: int
    ghost var order: seq<nat>
    ghost var free: seq<nat>

    ghost predicate Valid()
      reads this
    {
      && allocNum > 0
      && head < |indexs| && tail < |indexs| && |objects| == |indexs|
      && free == Ring(indexs, head, tail)
      && Chained()
      && View().WellFormed()
      && View().Capacity() == |objects|
    }

    /** The links follow order. */
    ghost predicate Chained()
      reads this
    {
      && Distinct(order)
      && Linked(objects, order, headId, tailId)
      && Filled(objects, order)
    }

    ghost function View(): Table<T>
      reads this
    {
      Table(order, Objs(objects), free)
    }

    constructor (alloc: nat)
      requires alloc > 0
      ensures Valid() && allocNum == alloc
      ensures View() == FreshTable(alloc)
    {
      allocNum := alloc;
      objects, indexs, head, tail, headId, tailId, order, free := [], [], 0, 0, INVALID_ID, INVALID_ID, [], [];
      new;
      Allocate();
      FreshWellFormed(objects, alloc);
    }

    /** Grows the table. The caller has used up the ring, so nothing is lost by restarting it. */
    method Allocate()
      requires allocNum > 0 && |objects| == |indexs|
      modifies this`objects, this`indexs, this`head, this`tail, this`free
      ensures |objects| == |indexs| == |old(objects)| + allocNum
      ensures objects[..|old(objects)|] == old(objects)
      ensures forall i :: |old(objects)| <= i < |objects| ==> objects[i] == Blank()
      ensures head == |old(objects)| && tail == 0
      ensures free == Ring(indexs, head, tail) == Range(head, |objects|)
    {
      var size := |objects|;
      objects := objects + seq(allocNum, _ => Blank());
      head, tail := size, 0;
      indexs := indexs + seq(allocNum, _ => 0);
      for i := size to size + allocNum
        modifies this`indexs
        invariant |indexs| == |objects| == size + allocNum
        invariant forall j :: size <= j < i ==> indexs[j] == j
      {
        indexs := indexs[i := i];
      }
      free := Ring(indexs, head, tail);
    }

    lemma LiveInside(id: nat)
      requires Valid() && id in View().objs
      ensures id < View().Capacity()
    {
    }

    /** operator[] on a slot of the table. */
    method Get(id: nat) returns (obj: Option<T>)
      requires Valid() && id < View().Capacity()
      ensures obj == if id in View().objs then Some(View().objs[id]) else None
    {
      obj := objects[id].obj;
    }

    /** Writing through the pointer operator[] returns. */
    method Assign(id: nat, obj: T)
      requires Valid() && id in View().objs
      modifies this`objects
      ensures View() == old(View()).Assign(id, obj)
      ensures Valid()
    {
      hide Linked, Filled, Distinct, Objs, Ring;
      AssignKeeps(objects, order, headId, tailId, id, obj);
      objects := objects[id := objects[id].(obj := Some(obj))];
    }

    method Find(id: nat) returns (found: bool)
      requires Valid()
      ensures found <==> id in View().objs
    {
      found := !(id >= |objects| || objects[id].obj == None);
    }

    /** The first half of Insert: fills slot id and links it behind the last one. */
    method LinkBack(id: nat, obj: T)
      requires Chained() && id < |objects| && id !in order
      modifies this`objects, this`headId, this`tailId, this`order
      ensures Chained() && |objects| == |old(objects)|
      ensures order == old(order) + [id]
      ensures Objs(objects) == old(Objs(objects))[id := obj]
    {
      if headId == INVALID_ID {
        headId := id;
      }
      if tailId != INVALID_ID {
        objects := objects[tailId := objects[tailId].(next := id)];
        objects := objects[id := objects[id].(prev := tailId)];
      }
      tailId := id;
      objects := objects[id := objects[id].(obj := Some(obj))];
      assert LinkedLast(old(objects), objects, order, id, obj);
      LinkedLastLinks(old(objects), objects, order, old(headId), old(tailId), id, obj);
      LinkedLastFilled(old(objects), objects, order, id, obj);
      AppendDistinct(order, id);
      order := order + [id];
    }

    method Insert(obj: T) returns (id: nat)
      requires Valid()
      modifies this
      ensures View() == old(View()).Insert(allocNum, obj)
      ensures Valid()
      ensures id == old(View()).NextId()
    {
      hide Linked, Filled, Distinct, Ring, Objs;
      ghost var t := View();
      InsertWellFormed(t, allocNum, obj);
      RingAdvance(indexs, head, tail);
      id := indexs[head];
      assert id in t.free;
      LinkBack(id, obj);

      head := Succ(head, |objects|);
      if head == tail {
        ghost var before := objects;
        Allocate();
        GrownKeeps(before, objects, order, headId, tailId);
      } else {
        free := free[1..];
      }
    }

    /** The first half of Erase: unlinks slot id and resets it. */
    method Unlink(id: nat, ghost k: nat)
      requires Chained() && k < |order| && id == order[k]
      modifies this`objects, this`headId, this`tailId, this`order
      ensures Chained() && |objects| == |old(objects)|
      ensures order == Remove(old(order), id)
      ensures Objs(objects) == old(Objs(objects)) - {id}
    {
      hide Linked, Filled, Distinct, Objs, Remove;
      Neighbours(objects, order, headId, tailId, k);
      var prevId := objects[id].prev;
      var nextId := objects[id].next;
      if id == headId {
        headId := nextId;
        if headId != INVALID_ID {
          objects := objects[headId := objects[headId].(prev := INVALID_ID)];
        }
      } else {
        if prevId != INVALID_ID {
          objects := objects[prevId := objects[prevId].(next := nextId)];
        }
      }
      if id == tailId {
        tailId := prevId;
        if tailId != INVALID_ID {
          objects := objects[tailId := objects[tailId].(next := INVALID_ID)];
        }
      } else {
        if nextId != INVALID_ID {
          objects := objects[nextId := objects[nextId].(prev := prevId)];
        }
      }
      objects := objects[id := Blank()];
      assert objects == Bypass(old(objects), id, prevId, nextId);
      BypassUnlinks(old(objects), order, old(headId), old(tailId), k);
      UnlinkedKeeps(old(objects), objects, order, old(headId), old(tailId), k);
      RemoveDistinct(order, id);
      order := Remove(order, id);
    }

    /** The second half of Erase: id goes behind the last free id. */
    method PushFree(id: nat)
      requires head < |indexs| && tail < |indexs| == |objects| && free == Ring(indexs, head, tail)
      requires |free| < |objects|
      modifies this`indexs, this`tail, this`free
      ensures tail < |indexs| == |objects| && free == Ring(indexs, head, tail)
      ensures free == old(free) + [id]
    {
      RingAppend(indexs, head, tail, id);
      indexs := indexs[tail := id];
      tail := Succ(tail, |objects|);
      free := free + [id];
    }

    method Erase(id: nat)
      requires Valid()
      modifies this
      ensures View() == old(View()).Erase(id)
      ensures Valid()
    {
      hide Linked, Ring, Remove;
      if id >= |objects| || objects[id].obj == None {
        return;
      }
      ghost var k: nat :| k < |order| && order[k] == id;
      EraseWellFormed(View(), id);
      EraseFree(View(), id);
      Unlink(id, k);

      PushFree(id);
    }

    // ----- Iteration -----

    method Begin() returns (iter: Iterator)
      requires Valid()
      ensures iter.id == IdAt(View().order, 0)
    {
      iter := Iterator(headId);
    }

    /** The end iterator is always the invalid id: the last slot has no successor. */
    method End() returns (iter: Iterator)
      requires Valid()
      ensures iter.id == INVALID_ID
    {
      if tailId == INVALID_ID {
        iter := Iterator(INVALID_ID);
      } else {
        assert objects[order[|order| - 1]].next == INVALID_ID;
        iter := Iterator(objects[tailId].next);
      }
    }

    method Next(iter: Iterator, ghost k: nat) returns (r: Iterator)
      requires Valid() && k < |View().order| && iter.id == View().order[k]
      ensures r.id == IdAt(View().order, k + 1)
    {
      assert objects[order[k]].next == IdAt(order, k + 1);
      r := Iterator(objects[iter.id].next);
    }

    /** for (auto it = begin(); it != end(); ++it): every live entry once, oldest first. */
    method Enumerate() returns (ids: seq<nat>, objs: seq<T>)
      requires Valid()
      ensures ids == View().order
      ensures |objs| == |ids| && forall i :: 0 <= i < |ids| ==> objs[i] == View().objs[ids[i]]
    {
      ids, objs := [], [];
      var iter := Begin();
      var end := End();
      while iter.id != end.id
        invariant |objs| == |ids| <= |order| && ids == order[..|ids|]
        invariant forall i :: 0 <= i < |ids| ==> objs[i] == View().objs[ids[i]]
        invariant iter.id == IdAt(order, |ids|)
        decreases |order| - |ids|
      {
        ghost var k := |ids|;
        assert order[k] in View().objs;
        ids, objs := ids + [iter.id], objs + [objects[iter.id].obj.value];
        iter := Next(iter, k);
      }
    }

    /** Erase by iterator returns the successor. */
    method EraseIterator(iter: Iterator, ghost k: nat) returns (r: Iterator)
      requires Valid() && k < |View().order| && iter.id == View().order[k]
      modifies this
      ensures Valid()
      ensures View() == old(View()).Erase(iter.id)
      ensures r.id == IdAt(View().order, k)
    {
      var id: nat := iter.id;
      r := Next(iter, k);
      RemoveSuccessor(order, k);
      assert order[k] in View().objs;
      Erase(id);
    }

    /** So it is the number of live ids only by coincidence: if there are none, or as many as there are free ones. */
    lemma SizeCountsLiveIff()
      requires Valid()
      ensures (if tail >= head then tail - head else |objects| + tail - head) == |View().order| <==>
              View().order == [] || |View().order| == |View().free|
    {
    }

    /** Between calls the two ends of the ring meet exactly when no id is live. */
    lemma EndsMeetIff()
      requires Valid()
      ensures head == tail <==> View().order == []
    {
    }

    /** What the source calls Size: the number of free ids, or 0 when every id is free. */
    method Size() returns (n: int)
      requires Valid()
      ensures n == if View().order == [] then 0 else |View().free|
    {
      n := if tail >= head then tail - head else |objects| + tail - head;
    }
  }
}
