/** The queue of src/util/spsc_queue.hpp as an object, one call at a time. */
module SpscQueues {
  import opened Common
  import opened SpscSteps

  /** i lies on the way from r to w around the ring. */
  predicate Between(i: nat, r: nat, w: nat) {
    if r <= w then r <= i < w else i >= r || i < w
  }

  /** Exactly the slots between the two indices hold a value. */
  ghost predicate RingOk<T>(slots: seq<Option<T>>, r: nat, w: nat) {
    && r < |slots| && w < |slots|
    && forall i :: 0 <= i < |slots| ==> (slots[i].Some? <==> Between(i, r, w))
  }

  function Contents<T>(slots: seq<Option<T>>, r: nat, w: nat): (c: seq<T>)
    requires RingOk(slots, r, w)
  {
    var win := Window(slots, r, w);
    seq(|win|, i requires 0 <= i < |win| => win[i].value)
  }

  lemma ContentsPush<T>(slots: seq<Option<T>>, r: nat, w: nat, value: T)
    requires RingOk(slots, r, w) && NextIdx(w, |slots|) != r
    ensures RingOk(slots[w := Some(value)], r, NextIdx(w, |slots|))
    ensures Contents(slots[w := Some(value)], r, NextIdx(w, |slots|)) == Contents(slots, r, w) + [value]
  {
  }

  lemma ContentsPop<T>(slots: seq<Option<T>>, r: nat, w: nat)
    requires RingOk(slots, r, w) && r != w
    ensures r < |slots| && slots[r].Some?
    ensures RingOk(slots[r := None], NextIdx(r, |slots|), w)
    ensures Contents(slots, r, w) == [slots[r].value] + Contents(slots[r := None], NextIdx(r, |slots|), w)
  {
  }

  lemma ContentsLength<T>(slots: seq<Option<T>>, r: nat, w: nat)
    requires RingOk(slots, r, w)
    ensures r < |slots| && w < |slots|
    ensures |Contents(slots, r, w)| == |slots| - 1 <==> NextIdx(w, |slots|) == r
    ensures |Contents(slots, r, w)| <= |slots| - 1
    ensures |Contents(slots, r, w)| == 0 <==> r == w
  {
  }

  lemma ContentsNone<T>(slots: seq<Option<T>>, r: nat)
    requires RingOk(slots, r, r)
    ensures Contents(slots, r, r) == []
    ensures forall i :: 0 <= i < |slots| ==> slots[i] == None
  {
  }

  class SpscQueue<T> {
    const size: nat
    const slots: array<Option<T>>
    var readIdx: nat
    var writeIdx: nat

    ghost predicate Valid()
      reads this, slots
    {
      size >= 2 && slots.Length == size && RingOk(slots[..], readIdx, writeIdx)
    }

    ghost function View(): seq<T>
      requires Valid()
      reads this, slots
    {
      Contents(slots[..], readIdx, writeIdx)
    }

    constructor (size: nat)
      requires size >= 2
      ensures Valid() && fresh(slots) && this.size == size
      ensures View() == []
    {
      this.size := size;
      slots := new Option<T>[size](_ => None);
      readIdx, writeIdx := 0, 0;
    }

    method Push(value: T) returns (ok: bool)
      requires Valid()
      modifies this`writeIdx, slots
      ensures Valid()
      ensures ok <==> |old(View())| < size - 1
      ensures View() == if ok then old(View()) + [value] else old(View())
    {
      hide RingOk, Contents;
      ContentsLength(slots[..], readIdx, writeIdx);
      var w := writeIdx;
      var next := w + 1;
      if next == size {
        next := 0;
      }
      if next == readIdx {
        return false;
      }
      ContentsPush(slots[..], readIdx, w, value);
      slots[w] := Some(value);
      assert slots[..] == old(slots[..])[w := Some(value)];
      writeIdx := next;
      ok := true;
    }

    method Pop() returns (ok: bool, value: Option<T>)
      requires Valid()
      modifies this`readIdx, slots
      ensures Valid()
      ensures ok <==> old(View()) != []
      ensures if ok then value.Some? && old(View()) == [value.value] + View() else value == None && View() == old(View())
    {
      hide RingOk, Contents;
      ContentsLength(slots[..], readIdx, writeIdx);
      var r := readIdx;
      if r == writeIdx {
        return false, None;
      }
      var next := r + 1;
      if next == size {
        next := 0;
      }
      ContentsPop(slots[..], r, writeIdx);
      value := slots[r];
      slots[r] := None;
      assert slots[..] == old(slots[..])[r := None];
      readIdx := next;
      ok := true;
    }

    method Empty() returns (empty: bool)
      requires Valid()
      ensures empty <==> View() == []
    {
      hide RingOk, Contents;
      ContentsLength(slots[..], readIdx, writeIdx);
      empty := writeIdx == readIdx;
    }

    method Full() returns (full: bool)
      requires Valid()
      ensures full <==> |View()| == size - 1
    {
      hide RingOk, Contents;
      ContentsLength(slots[..], readIdx, writeIdx);
      var next := writeIdx + 1;
      if next == size {
        next := 0;
      }
      full := next == readIdx;
    }

    /** The destructor: destroys each value still in the ring, once, and oldest first. */
    method Destroy() returns (destroyed: seq<T>)
      requires Valid()
      modifies slots
      ensures destroyed == old(View())
      ensures forall i :: 0 <= i < slots.Length ==> slots[i] == None
    {
      hide RingOk, Contents;
      var r: nat := readIdx;
      var w: nat := writeIdx;
      destroyed := [];
      while r != w
        invariant RingOk(slots[..], r, w)
        invariant destroyed + Contents(slots[..], r, w) == old(View())
        decreases |Contents(slots[..], r, w)|
      {
        ghost var before := slots[..];
        ContentsPop(before, r, w);
        destroyed := destroyed + [slots[r].value];
        slots[r] := None;
        assert slots[..] == before[r := None];
        r := r + 1;
        if r == size {
          r := 0;
        }
      }
      ContentsNone(slots[..], r);
      assert forall i :: 0 <= i < slots.Length ==> slots[..][i] == slots[i];
    }
  }

  // ---------- The object and the two threads ----------

  function Held<T>(slots: seq<Slot<T>>): (r: seq<Option<T>>)
    ensures |r| == |slots|
  {
    seq(|slots|, i requires 0 <= i < |slots| => if slots[i].Live? then Some(slots[i].value) else None)
  }

  lemma QuiescentRing<T>(s: State<T>)
    requires Inv(s) && s.producer.PIdle? && s.consumer.CIdle?
    ensures RingOk(Held(s.slots), s.readIdxs[s.R()], s.writeIdxs[s.W()])
  {
    var r, w := Idx(s.R(), s.size), Idx(s.W(), s.size);
    IdxAhead(s.R(), s.W() - s.R(), s.size);
    forall i: nat | i < s.size ensures Held(s.slots)[i].Some? <==> Between(i, r, w) {
      var k := CounterOf(s, i);
      assert SlotOk(s, k);
      IdxAhead(s.R(), k - s.R(), s.size);
    }
  }

  /** When neither thread is inside a call, the shared state is a state of the object, and holds what was pushed and not popped. */
  lemma QuiescentIsObject<T>(s: State<T>)
    requires Inv(s) && s.producer.PIdle? && s.consumer.CIdle?
    ensures var r, w := s.readIdxs[s.R()], s.writeIdxs[s.W()];
            RingOk(Held(s.slots), r, w) && Contents(Held(s.slots), r, w) == s.pushed[s.R()..]
  {
    var r, w := s.readIdxs[s.R()], s.writeIdxs[s.W()];
    var h := Held(s.slots);
    QuiescentRing(s);
    WindowCounters(h, s.R(), s.W());
    var c := Contents(h, r, w);
    forall i | 0 <= i < |c| ensures c[i] == s.pushed[s.R() + i] {
      assert SlotOk(s, s.R() + i);
    }
  }
}
