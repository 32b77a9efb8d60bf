/** The object pool of src/util/object_pool.hpp. Objects are known by identity; make_shared yields an identity never seen before. */
module ObjectPools {
  import opened Common

  // ---------- The pool a caller sees ----------

  /** free[0] is the next object to hand out; taken counts the objects handed out and not returned. */
  datatype Pool = Pool(alloc: nat, free: seq<nat>, taken: nat, next: nat) {

    function Get(): (r: (nat, Pool))
      requires free != []
    {
      (free[0], if |free| == 1 then Pool(alloc, Range(next, next + alloc), taken + 1, next + alloc)
                else Pool(alloc, free[1..], taken + 1, next))
    }

    function Put(obj: nat): Pool
      requires taken > 0
    {
      var back := [obj] + free;
      Pool(alloc, if |back| > 2 * alloc then back[..|back| - alloc] else back, taken - 1, next)
    }

    /** Sizes, and no object twice: out are the objects handed out and not returned. */
    ghost predicate Consistent(out: set<nat>) {
      && alloc > 0
      && 1 <= |free| <= 2 * alloc
      && |out| == taken
      && Distinct(free)
      && (forall o :: o in free ==> o !in out && o < next)
      && (forall o :: o in out ==> o < next)
    }
  }

  function FreshPool(alloc: nat): Pool {
    Pool(alloc, Range(0, alloc), 0, alloc)
  }

  lemma FreshPoolConsistent(alloc: nat)
    requires alloc > 0
    ensures FreshPool(alloc).Consistent({})
  {
  }

  /** Get never hands out an object that is still outstanding, and leaves at least one free. */
  lemma GetConsistent(p: Pool, out: set<nat>)
    requires p.Consistent(out)
    ensures p.Get().0 !in out
    ensures p.Get().1.Consistent(out + {p.Get().0})
  {
    var (obj, q) := p.Get();
    assert obj in p.free;
    if |p.free| > 1 {
      assert p.free == [obj] + q.free;
    }
  }

  /** Put never drops the object just returned, even when it shrinks, and keeps at most 2 * alloc free. */
  lemma PutConsistent(p: Pool, out: set<nat>, obj: nat)
    requires p.Consistent(out) && obj in out
    ensures p.taken > 0
    ensures p.Put(obj).Consistent(out - {obj})
    ensures p.Put(obj).free[0] == obj
  {
    var back, q := [obj] + p.free, p.Put(obj);
    assert p.taken > 0 by { assert out != {}; }
    forall i, j | 0 <= i < j < |back| ensures back[i] != back[j] {
      assert back[j] == p.free[j - 1] && (i == 0 || back[i] == p.free[i - 1]);
      assert back[j] in p.free;
    }
    forall o | o in q.free ensures o !in out - {obj} && o < p.next {
      assert o in back && (o == obj || o in p.free);
    }
  }

  /** The object returned last is handed out first, and the vector grows and shrinks by alloc objects. */
  lemma PutThenGet(p: Pool, out: set<nat>, obj: nat)
    requires p.Consistent(out) && obj in out
    ensures p.taken > 0 && p.Put(obj).free != [] && p.Put(obj).Get().0 == obj
  {
    PutConsistent(p, out, obj);
  }

  lemma ResizesByAlloc(p: Pool, out: set<nat>, obj: nat)
    requires p.Consistent(out)
    ensures var (_, q) := p.Get();
            && q.taken == p.taken + 1
            && q.taken + |q.free| == p.taken + |p.free| + if |p.free| == 1 then p.alloc else 0
    ensures p.taken > 0 ==>
              var q := p.Put(obj);
              && q.taken == p.taken - 1
              && q.taken + |q.free| == p.taken + |p.free| - if |p.free| == 2 * p.alloc then p.alloc else 0
  {
  }

  // ---------- Runs ----------

  datatype PoolOp = PGet | PPut(obj: nat)

  /** resizes counts the calls that grew or shrank the vector; a Put of an object that is not outstanding is never made. */
  datatype PoolRun = PoolRun(pool: Pool, out: set<nat>, resizes: nat)

  function ApplyPool(s: PoolRun, op: PoolOp): PoolRun
    requires s.pool.free != [] && |s.out| == s.pool.taken
  {
    match op
    case PGet =>
      var (obj, q) := s.pool.Get();
      PoolRun(q, s.out + {obj}, if |s.pool.free| == 1 then s.resizes + 1 else s.resizes)
    case PPut(obj) =>
      if obj !in s.out then s
      else
        assert s.out != {};
        PoolRun(s.pool.Put(obj), s.out - {obj}, if 1 + |s.pool.free| > 2 * s.pool.alloc then s.resizes + 1 else s.resizes)
  }

  ghost predicate PoolTrace(states: seq<PoolRun>, ops: seq<PoolOp>) {
    && |states| == |ops| + 1
    && states[0].pool.alloc > 0
    && states[0] == PoolRun(FreshPool(states[0].pool.alloc), {}, 0)
    && (forall i :: 0 <= i < |ops| ==>
          states[i].pool.free != [] && |states[i].out| == states[i].pool.taken && states[i + 1] == ApplyPool(states[i], ops[i]))
  }

  /** How far the number of free objects is from where the last resize left it, at least. */
  function Distance(p: Pool): int {
    if |p.free| < p.alloc then p.alloc - |p.free|
    else if |p.free| > p.alloc + 1 then |p.free| - p.alloc - 1
    else 0
  }

  /** One call adds at most 1 to alloc times the resizes and the distance together. */
  lemma ApplyPoolKeeps(s: PoolRun, op: PoolOp)
    requires s.pool.Consistent(s.out)
    ensures ApplyPool(s, op).pool.Consistent(ApplyPool(s, op).out)
    ensures ApplyPool(s, op).pool.alloc == s.pool.alloc
    ensures var t := ApplyPool(s, op);
            t.pool.alloc * t.resizes + Distance(t.pool) <= s.pool.alloc * s.resizes + Distance(s.pool) + 1
  {
    ApplyConsistent(s, op);
    var (a, r, t) := (s.pool.alloc, s.resizes, ApplyPool(s, op));
    assert a * (r + 1) == a * r + a;
    assert t.resizes == r ==> a * t.resizes == a * r;
    assert t.resizes != r ==> t.resizes == r + 1 && a * t.resizes == a * r + a;
    hide Pool.Consistent;
  }

  lemma ApplyConsistent(s: PoolRun, op: PoolOp)
    requires s.pool.Consistent(s.out)
    ensures 1 <= |s.pool.free| <= 2 * s.pool.alloc
    ensures ApplyPool(s, op).pool.Consistent(ApplyPool(s, op).out)
  {
    match op {
      case PGet => GetConsistent(s.pool, s.out);
      case PPut(obj) => if obj in s.out { PutConsistent(s.pool, s.out, obj); }
    }
  }

  /** From start-up, after every call: between 1 and 2 * alloc objects free, none of them outstanding or twice in the pool,
      and at most one resize per alloc calls. */
  lemma {:induction false} PoolRunSafe(states: seq<PoolRun>, ops: seq<PoolOp>, k: nat)
    requires PoolTrace(states, ops) && k <= |ops|
    ensures states[k].pool.alloc == states[0].pool.alloc
    ensures states[k].pool.Consistent(states[k].out)
    ensures states[k].pool.alloc * states[k].resizes + Distance(states[k].pool) <= k
    decreases k
  {
    if k == 0 {
      FreshPoolConsistent(states[0].pool.alloc);
    } else {
      PoolRunSafe(states, ops, k - 1);
      ApplyPoolKeeps(states[k - 1], ops[k - 1]);
      assert states[k - 1 + 1] == ApplyPool(states[k - 1], ops[k - 1]);
    }
  }

  lemma {:induction false} WindowDistance(states: seq<PoolRun>, ops: seq<PoolOp>, i: nat, j: nat)
    requires PoolTrace(states, ops) && i <= j <= |ops|
    ensures var alloc := states[0].pool.alloc;
            alloc * states[j].resizes + Distance(states[j].pool) <= alloc * states[i].resizes + Distance(states[i].pool) + j - i
    decreases j
  {
    if i < j {
      WindowDistance(states, ops, i, j - 1);
      PoolRunSafe(states, ops, j - 1);
      ApplyPoolKeeps(states[j - 1], ops[j - 1]);
      assert states[j - 1 + 1] == ApplyPool(states[j - 1], ops[j - 1]);
    }
  }

  /** Any k calls in a row resize at most (k + alloc - 1) / alloc times. */
  lemma ResizesAreRare(states: seq<PoolRun>, ops: seq<PoolOp>, i: nat, j: nat)
    requires PoolTrace(states, ops) && i <= j <= |ops|
    ensures var alloc := states[0].pool.alloc;
            alloc * (states[j].resizes - states[i].resizes) <= j - i + alloc - 1
  {
    var alloc := states[0].pool.alloc;
    PoolRunSafe(states, ops, i);
    PoolRunSafe(states, ops, j);
    WindowDistance(states, ops, i, j);
    assert alloc * (states[j].resizes - states[i].resizes) == alloc * states[j].resizes - alloc * states[i].resizes;
  }

  // ---------- The class ----------

  class ObjectPool {
    const allocNum: nat
    var objects: seq<Option<nat>>
    var size: nat
    /** vector::capacity; reserve and shrink_to_fit are taken to be exact. */
    var capacity: nat
    /** The identity the next make_shared yields. */
    var nextId: nat

    ghost predicate Valid()
      reads this
    {
      && allocNum > 0
      && size < |objects| == capacity
      && (forall i :: size <= i < |objects| ==> objects[i].Some?)
    }

    ghost function View(): Pool
      requires Valid()
      reads this
    {
      Pool(allocNum,
           seq(|objects| - size, i requires 0 <= i < |objects| - size && objects[size + i].Some? reads this => objects[size + i].value),
           size, nextId)
    }

    constructor (alloc: nat)
      requires alloc > 0
      ensures Valid() && View() == FreshPool(alloc)
    {
      allocNum, objects, size, capacity, nextId := alloc, [], 0, 0, 0;
      new;
      Allocate();
    }

    method Allocate()
      requires allocNum > 0 && |objects| == capacity
      modifies this`objects, this`capacity, this`nextId
      ensures |objects| == capacity == |old(objects)| + allocNum
      ensures forall i :: 0 <= i < |old(objects)| ==> objects[i] == old(objects)[i]
      ensures forall i :: |old(objects)| <= i < |objects| ==> objects[i] == Some(old(nextId) + i - |old(objects)|)
      ensures nextId == old(nextId) + allocNum
    {
      capacity := capacity + allocNum;
      for i := 0 to allocNum
        modifies this`objects, this`nextId
        invariant |objects| == |old(objects)| + i && nextId == old(nextId) + i
        invariant forall j :: 0 <= j < |old(objects)| ==> objects[j] == old(objects)[j]
        invariant forall j :: |old(objects)| <= j < |objects| ==> objects[j] == Some(old(nextId) + j - |old(objects)|)
      {
        objects := objects + [Some(nextId)];
        nextId := nextId + 1;
      }
    }

    method Get() returns (obj: nat)
      requires Valid()
      modifies this
      ensures Valid()
      ensures (obj, View()) == old(View()).Get()
    {
      obj := objects[size].value;
      objects := objects[size := None];
      size := size + 1;
      if size == |objects| {
        Allocate();
      }
      assert View() == old(View()).Get().1;
    }

    method Put(obj: nat)
      requires Valid() && size > 0
      modifies this
      ensures Valid()
      ensures View() == old(View()).Put(obj)
    {
      ghost var back := [obj] + View().free;
      size := size - 1;
      objects := objects[size := Some(obj)];
      assert |objects| - size == |back| && forall i :: 0 <= i < |back| ==> objects[size + i] == Some(back[i]);
      if capacity - size > 2 * allocNum {
        objects := objects[..|objects| - allocNum];
        capacity := |objects|;
      }
      assert View().free == back[..|objects| - size];
    }
  }
}
