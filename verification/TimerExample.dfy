/** A run of the heap and of the timer unit in which a removal makes Update leave a due timer behind. */
module TimerExample {
  import opened HeapOrder
  import opened Heaps
  import opened Timers
  import opened TimerOrder

  /** A queued timer, with key, object and callback all numbered alike. */
  function Node(id: nat, time: int): HeapNode<Entry> { HeapNode(id, Entry(id, time, id)) }

  /** Twelve nodes in heap order. */
  function Heap12(): seq<HeapNode<Entry>> {
    [Node(0, 1), Node(1, 10), Node(2, 2), Node(3, 11), Node(4, 12), Node(5, 3), Node(6, 30), Node(7, 40), Node(8, 52),
     Node(9, 51), Node(10, 50), Node(11, 4)]
  }

  /** After the removal of position 3: node 11, with value 4, sits below node 1, with value 10. */
  function Heap11(): seq<HeapNode<Entry>> {
    [Node(0, 1), Node(1, 10), Node(2, 2), Node(11, 4), Node(4, 12), Node(5, 3), Node(6, 30), Node(7, 40), Node(8, 52),
     Node(9, 51), Node(10, 50)]
  }

  function Heap10(): seq<HeapNode<Entry>> {
    [Node(2, 2), Node(1, 10), Node(5, 3), Node(11, 4), Node(4, 12), Node(10, 50), Node(6, 30), Node(7, 40), Node(8, 52),
     Node(9, 51)]
  }

  function Heap9(): seq<HeapNode<Entry>> {
    [Node(5, 3), Node(1, 10), Node(6, 30), Node(11, 4), Node(4, 12), Node(10, 50), Node(9, 51), Node(7, 40), Node(8, 52)]
  }

  function Heap8(): seq<HeapNode<Entry>> {
    [Node(1, 10), Node(11, 4), Node(6, 30), Node(7, 40), Node(4, 12), Node(10, 50), Node(9, 51), Node(8, 52)]
  }

  lemma PopsOfHeap12()
    ensures PopAt(Sooner, Heap12(), 3) == Heap11()
    ensures PopAt(Sooner, Heap11(), 0) == Heap10()
  {
    assert Swap(Heap12(), 3, 11)[..11] == Heap11();
    var u := Swap(Heap11(), 0, 10)[..10];
    var v := Swap(u, 0, 2);
    assert SmallerChild(Sooner, u, 0) == 2 && SmallerChild(Sooner, v, 2) == 5 && Swap(v, 2, 5) == Heap10();
    assert SiftDown(Sooner, u, 0) == SiftDown(Sooner, v, 2) == SiftDown(Sooner, Heap10(), 5);
  }

  lemma PopOfHeap10()
    ensures PopAt(Sooner, Heap10(), 0) == Heap9()
  {
    var u := Swap(Heap10(), 0, 9)[..9];
    var v := Swap(u, 0, 2);
    assert SmallerChild(Sooner, u, 0) == 2 && SmallerChild(Sooner, v, 2) == 6 && Swap(v, 2, 6) == Heap9();
    assert SiftDown(Sooner, u, 0) == SiftDown(Sooner, v, 2) == SiftDown(Sooner, Heap9(), 6);
  }

  lemma PopOfHeap9()
    ensures PopAt(Sooner, Heap9(), 0) == Heap8()
  {
    var u := Swap(Heap9(), 0, 8)[..8];
    var v := Swap(u, 0, 1);
    var w := Swap(v, 1, 3);
    assert SmallerChild(Sooner, u, 0) == 1 && SmallerChild(Sooner, v, 1) == 3 && SmallerChild(Sooner, w, 3) == 7;
    assert Swap(w, 3, 7) == Heap8();
    assert SiftDown(Sooner, u, 0) == SiftDown(Sooner, v, 1) == SiftDown(Sooner, w, 3) == SiftDown(Sooner, Heap8(), 7);
  }

  /** A heap, one removal in its middle, three removals of the top: now 10 is on top and 4 below it. */
  lemma PopInTheMiddleLosesTheMinimum()
    ensures Ordered(Sooner, Heap12()) && !LastFits(Sooner, Heap12(), 3)
    ensures var t := PopAt(Sooner, PopAt(Sooner, PopAt(Sooner, PopAt(Sooner, Heap12(), 3), 0), 0), 0);
            t[0].value.time == 10 && t[1].value.time == 4
  {
    PopsOfHeap12();
    PopOfHeap10();
    PopOfHeap9();
  }

  lemma DueOfHeap11()
    ensures TakeDue(Heap11(), 3).1 == Heap8() && |TakeDue(Heap11(), 3).0| == 3
    ensures TakeDue(Heap8(), 5) == ([], Heap8())
  {
    PopsOfHeap12();
    PopOfHeap10();
    PopOfHeap9();
    var t9, t10, t11 := TakeDue(Heap9(), 3), TakeDue(Heap10(), 3), TakeDue(Heap11(), 3);
    assert t9.1 == Heap8() && |t9.0| == 1;
    assert t10.1 == t9.1 && |t10.0| == 1 + |t9.0|;
    assert t11.1 == t10.1 && |t11.0| == 1 + |t10.0|;
  }

  lemma RemoveFromHeap12(w: World)
    requires Safe(w) && w.heap.nodes == Heap12()
    ensures Step(w, ARemove(3)).heap.nodes == Heap11()
  {
    hide Safe, Step;
    SafeHeap(w);
    StepHeap(w, ARemove(3));
    assert HasKey(w.heap.nodes, 3) by { assert KeyOf(w.heap.nodes[3]) == 3; }
    assert PoppedPos(w, ARemove(3)) == 3;
    PopsOfHeap12();
  }

  /** From start-up: twelve timers are created and one of them removed; Update(3) fires the three that are due, and Update(5)
      none, although a timer due at 4 is queued. */
  lemma UpdateMissesADueTimer(poolAlloc: nat, heapAlloc: nat, s: seq<HeapNode<Entry>>)
    requires poolAlloc > 0 && heapAlloc > 0 && s == Heap12()
    ensures Safe(FreshWorld(poolAlloc, heapAlloc))
    ensures var w := Step(RunWorld(FreshWorld(poolAlloc, heapAlloc), Creates(s)), ARemove(3));
            var u := UpdateAll(w, 3);
            var v := UpdateAll(u, 5);
            |u.fired| == |w.fired| + 3 && v.fired == u.fired && Node(11, 4) in v.heap.nodes
  {
    hide Safe, Step, UpdateAll, TakeDue;
    OrderedHeapIsReached(poolAlloc, heapAlloc, s);
    var r := RunWorld(FreshWorld(poolAlloc, heapAlloc), Creates(s));
    RemoveFromHeap12(r);
    var w := Step(r, ARemove(3));
    UpdateTakesDue(w, 3);
    UpdateTakesDue(UpdateAll(w, 3), 5);
    DueOfHeap11();
    assert Heap8()[1] == Node(11, 4);
  }
}
