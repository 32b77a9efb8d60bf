/** The binary heap of src/util/heap.hpp on values: the two shift loops as recursive functions,
    and what they do to heap order and to the nodes. */
module HeapOrder {
  datatype HeapNode<T> = HeapNode(key: nat, value: T)

  type Cmp<!T> = (T, T) -> bool

  ghost predicate StrictWeakOrder<T(!new)>(cmp: Cmp<T>) {
    && (forall x, y :: cmp(x, y) ==> !cmp(y, x))
    && (forall x, y, z :: cmp(x, y) && cmp(y, z) ==> cmp(x, z))
    && (forall x, y, z :: !cmp(x, y) && !cmp(y, x) && !cmp(y, z) && !cmp(z, y) ==> !cmp(x, z) && !cmp(z, x))
  }

  /** In a strict weak order "not smaller" is transitive. */
  lemma NotSmallerTransitive<T(!new)>(cmp: Cmp<T>, x: T, y: T, z: T)
    requires StrictWeakOrder(cmp) && !cmp(x, y) && !cmp(y, z)
    ensures !cmp(x, z)
  {
    assert cmp(y, x) || cmp(z, y) || (!cmp(x, y) && !cmp(y, x) && !cmp(y, z) && !cmp(z, y));
  }

  // ---------- Shape ----------

  function Parent(i: nat): nat
    requires i > 0
  {
    (i - 1) / 2
  }

  function Child(i: nat): nat { 2 * i + 1 }

  /** j is not smaller than its parent. */
  predicate EdgeOk<T>(cmp: Cmp<T>, s: seq<HeapNode<T>>, j: nat)
    requires 0 < j < |s|
  {
    !cmp(s[j].value, s[Parent(j)].value)
  }

  predicate Ordered<T>(cmp: Cmp<T>, s: seq<HeapNode<T>>) {
    forall j :: 0 < j < |s| ==> EdgeOk(cmp, s, j)
  }

  function Swap<T>(s: seq<T>, i: nat, j: nat): (r: seq<T>)
    requires i < |s| && j < |s|
    ensures |r| == |s| && r[i] == s[j] && r[j] == s[i]
    ensures forall k :: 0 <= k < |s| && k != i && k != j ==> r[k] == s[k]
  {
    s[i := s[j]][j := s[i]]
  }

  lemma SwapMultiset<T>(s: seq<T>, i: nat, j: nat)
    requires i < |s| && j < |s|
    ensures multiset(Swap(s, i, j)) == multiset(s)
  {
  }

  // ---------- Shifting up ----------

  function SiftUp<T>(cmp: Cmp<T>, s: seq<HeapNode<T>>, i: nat): (r: seq<HeapNode<T>>)
    requires i < |s|
    ensures |r| == |s|
    decreases i
  {
    if i > 0 && cmp(s[i].value, s[Parent(i)].value) then SiftUp(cmp, Swap(s, i, Parent(i)), Parent(i)) else s
  }

  lemma {:induction false} SiftUpMultiset<T>(cmp: Cmp<T>, s: seq<HeapNode<T>>, i: nat)
    requires i < |s|
    ensures multiset(SiftUp(cmp, s, i)) == multiset(s)
    decreases i
  {
    if i > 0 && cmp(s[i].value, s[Parent(i)].value) {
      SwapMultiset(s, i, Parent(i));
      SiftUpMultiset(cmp, Swap(s, i, Parent(i)), Parent(i));
    }
  }

  /** Only the edge above i may be wrong, and the nodes below i also fit under the parent of i. */
  ghost predicate OrderedButAbove<T>(cmp: Cmp<T>, s: seq<HeapNode<T>>, i: nat)
    requires i < |s|
  {
    && (forall j :: 0 < j < |s| && j != i ==> EdgeOk(cmp, s, j))
    && (i > 0 ==> forall j :: 0 < j < |s| && Parent(j) == i ==> !cmp(s[j].value, s[Parent(i)].value))
  }

  lemma SwapUpStep<T(!new)>(cmp: Cmp<T>, s: seq<HeapNode<T>>, i: nat)
    requires StrictWeakOrder(cmp) && 0 < i < |s| && OrderedButAbove(cmp, s, i)
    requires cmp(s[i].value, s[Parent(i)].value)
    ensures OrderedButAbove(cmp, Swap(s, i, Parent(i)), Parent(i))
  {
    var p := Parent(i);
    var t := Swap(s, i, p);
    forall j | 0 < j < |t| && j != p ensures EdgeOk(cmp, t, j) {
      if j == i {
      } else if Parent(j) == i {
      } else if Parent(j) == p {
        assert EdgeOk(cmp, s, j);
      } else {
        assert EdgeOk(cmp, s, j);
      }
    }
    if p > 0 {
      assert EdgeOk(cmp, s, p);
      forall j | 0 < j < |t| && Parent(j) == p ensures !cmp(t[j].value, t[Parent(p)].value) {
        if j != i {
          assert EdgeOk(cmp, s, j);
          NotSmallerTransitive(cmp, s[j].value, s[p].value, s[Parent(p)].value);
        }
      }
    }
  }

  lemma {:induction false} SiftUpOrdered<T(!new)>(cmp: Cmp<T>, s: seq<HeapNode<T>>, i: nat)
    requires StrictWeakOrder(cmp) && i < |s| && OrderedButAbove(cmp, s, i)
    ensures Ordered(cmp, SiftUp(cmp, s, i))
    decreases i
  {
    if i > 0 && cmp(s[i].value, s[Parent(i)].value) {
      SwapUpStep(cmp, s, i);
      SiftUpOrdered(cmp, Swap(s, i, Parent(i)), Parent(i));
    } else {
      assert i > 0 ==> EdgeOk(cmp, s, i);
    }
  }

  /** The heap after Emplace. */
  function Push<T>(cmp: Cmp<T>, s: seq<HeapNode<T>>, node: HeapNode<T>): (r: seq<HeapNode<T>>)
    ensures |r| == |s| + 1
  {
    SiftUp(cmp, s + [node], |s|)
  }

  lemma PushOrdered<T(!new)>(cmp: Cmp<T>, s: seq<HeapNode<T>>, node: HeapNode<T>)
    requires StrictWeakOrder(cmp) && Ordered(cmp, s)
    ensures Ordered(cmp, Push(cmp, s, node))
  {
    var t := s + [node];
    forall j | 0 < j < |s| ensures EdgeOk(cmp, t, j) {
      assert EdgeOk(cmp, s, j);
    }
    SiftUpOrdered(cmp, t, |s|);
  }

  lemma PushMultiset<T>(cmp: Cmp<T>, s: seq<HeapNode<T>>, node: HeapNode<T>)
    ensures multiset(Push(cmp, s, node)) == multiset(s) + multiset{node}
  {
    SiftUpMultiset(cmp, s + [node], |s|);
  }

  // ---------- Shifting down ----------

  /** The child the source compares with: the right one only if it is strictly smaller. */
  function SmallerChild<T>(cmp: Cmp<T>, s: seq<HeapNode<T>>, i: nat): (c: nat)
    requires Child(i) < |s|
    ensures i < c < |s| && (c == Child(i) || c == Child(i) + 1)
  {
    if Child(i) + 1 < |s| && cmp(s[Child(i) + 1].value, s[Child(i)].value) then Child(i) + 1 else Child(i)
  }

  function SiftDown<T>(cmp: Cmp<T>, s: seq<HeapNode<T>>, i: nat): (r: seq<HeapNode<T>>)
    requires i <= |s|
    ensures |r| == |s|
    decreases |s| - i
  {
    if Child(i) >= |s| then s
    else
      var c := SmallerChild(cmp, s, i);
      if cmp(s[i].value, s[c].value) then s else SiftDown(cmp, Swap(s, i, c), c)
  }

  /** One turn of the loop. */
  lemma SiftDownTurn<T>(cmp: Cmp<T>, s: seq<HeapNode<T>>, i: nat)
    requires i <= |s|
    ensures var l, r := Child(i), Child(i) + 1;
            if l >= |s| then SiftDown(cmp, s, i) == s
            else
              var c := if r < |s| && cmp(s[r].value, s[l].value) then r else l;
              SiftDown(cmp, s, i) == if cmp(s[i].value, s[c].value) then s else SiftDown(cmp, Swap(s, i, c), c)
  {
  }

  lemma {:induction false} SiftDownMultiset<T>(cmp: Cmp<T>, s: seq<HeapNode<T>>, i: nat)
    requires i <= |s|
    ensures multiset(SiftDown(cmp, s, i)) == multiset(s)
    decreases |s| - i
  {
    if Child(i) < |s| {
      var c := SmallerChild(cmp, s, i);
      if !cmp(s[i].value, s[c].value) {
        SwapMultiset(s, i, c);
        SiftDownMultiset(cmp, Swap(s, i, c), c);
      }
    }
  }

  /** Nothing in front of i moves, and i itself gets either its old node or one of its children. */
  lemma {:induction false} SiftDownFrame<T>(cmp: Cmp<T>, s: seq<HeapNode<T>>, i: nat)
    requires i <= |s|
    ensures forall k :: 0 <= k < i ==> SiftDown(cmp, s, i)[k] == s[k]
    ensures i < |s| ==>
              var x := SiftDown(cmp, s, i)[i];
              if Child(i) < |s| && !cmp(s[i].value, s[SmallerChild(cmp, s, i)].value)
              then x == s[SmallerChild(cmp, s, i)] else x == s[i]
    decreases |s| - i
  {
    if Child(i) < |s| {
      var c := SmallerChild(cmp, s, i);
      if !cmp(s[i].value, s[c].value) {
        SiftDownFrame(cmp, Swap(s, i, c), c);
      }
    }
  }

  /** Every edge behind i is right, except perhaps those between i and its children. */
  ghost predicate OrderedButBelow<T>(cmp: Cmp<T>, s: seq<HeapNode<T>>, i: nat) {
    forall j :: i < j < |s| && Parent(j) != i ==> EdgeOk(cmp, s, j)
  }

  lemma SmallerChildIsSmaller<T(!new)>(cmp: Cmp<T>, s: seq<HeapNode<T>>, i: nat, j: nat)
    requires StrictWeakOrder(cmp) && 0 < j < |s| && Parent(j) == i
    ensures Child(i) < |s| && (j == Child(i) || j == Child(i) + 1)
    ensures !cmp(s[j].value, s[SmallerChild(cmp, s, i)].value)
  {
  }

  lemma SwapDownStep<T(!new)>(cmp: Cmp<T>, s: seq<HeapNode<T>>, i: nat, c: nat)
    requires StrictWeakOrder(cmp) && Child(i) < |s| && OrderedButBelow(cmp, s, i)
    requires c == SmallerChild(cmp, s, i)
    ensures forall j :: i < j < |s| && j != c && Parent(j) != c ==> EdgeOk(cmp, Swap(s, i, c), j)
  {
    var t := Swap(s, i, c);
    forall j | i < j < |s| && j != c && Parent(j) != c ensures EdgeOk(cmp, t, j) {
      if Parent(j) == i {
        SmallerChildIsSmaller(cmp, s, i, j);
      } else {
        assert EdgeOk(cmp, s, j);
      }
    }
  }

  lemma {:induction false} SiftDownEdges<T(!new)>(cmp: Cmp<T>, s: seq<HeapNode<T>>, i: nat)
    requires StrictWeakOrder(cmp) && i < |s| && OrderedButBelow(cmp, s, i)
    ensures forall j :: i < j < |s| ==> EdgeOk(cmp, SiftDown(cmp, s, i), j)
    decreases |s| - i
  {
    var r := SiftDown(cmp, s, i);
    if Child(i) >= |s| {
    } else {
      var c := SmallerChild(cmp, s, i);
      if cmp(s[i].value, s[c].value) {
        forall j | i < j < |s| && Parent(j) == i ensures EdgeOk(cmp, s, j) {
          SmallerChildIsSmaller(cmp, s, i, j);
        }
      } else {
        var t := Swap(s, i, c);
        SwapDownStep(cmp, s, i, c);
        SiftDownEdges(cmp, t, c);
        SiftDownFrame(cmp, t, c);
        forall j | i < j <= c ensures EdgeOk(cmp, r, j) {
          if j < c {
            assert EdgeOk(cmp, t, j);
          } else if Child(c) < |t| && !cmp(t[c].value, t[SmallerChild(cmp, t, c)].value) {
            assert EdgeOk(cmp, s, SmallerChild(cmp, t, c));
          }
        }
      }
    }
  }

  // ---------- Removal at any position ----------

  /** The heap after Pop(pos): the last node takes the place of the removed one and is shifted down, never up. */
  function PopAt<T>(cmp: Cmp<T>, s: seq<HeapNode<T>>, pos: nat): (r: seq<HeapNode<T>>)
    requires pos < |s|
    ensures |r| == |s| - 1
  {
    SiftDown(cmp, Swap(s, pos, |s| - 1)[..|s| - 1], pos)
  }

  lemma PopMultiset<T>(cmp: Cmp<T>, s: seq<HeapNode<T>>, pos: nat)
    requires pos < |s|
    ensures multiset(PopAt(cmp, s, pos)) == multiset(s) - multiset{s[pos]}
  {
    var t := Swap(s, pos, |s| - 1);
    SwapMultiset(s, pos, |s| - 1);
    assert t == t[..|s| - 1] + [s[pos]];
    SiftDownMultiset(cmp, t[..|s| - 1], pos);
  }

  /** The former last node fits under the parent of the hole. */
  predicate LastFits<T>(cmp: Cmp<T>, s: seq<HeapNode<T>>, pos: nat)
    requires pos < |s|
  {
    pos == |s| - 1 || pos == 0 || !cmp(s[|s| - 1].value, s[Parent(pos)].value)
  }

  /** The whole of what Pop(pos) keeps of heap order: every edge but the one above pos, and that one exactly
      when the former last node fits there. */
  lemma PopOrdered<T(!new)>(cmp: Cmp<T>, s: seq<HeapNode<T>>, pos: nat)
    requires StrictWeakOrder(cmp) && Ordered(cmp, s) && pos < |s|
    ensures Ordered(cmp, PopAt(cmp, s, pos)) <==> LastFits(cmp, s, pos)
    ensures forall j :: 0 < j < |s| - 1 && j != pos ==> EdgeOk(cmp, PopAt(cmp, s, pos), j)
  {
    hide StrictWeakOrder, SiftDown;
    var n := |s| - 1;
    var t, r := Swap(s, pos, n)[..n], PopAt(cmp, s, pos);
    forall j | 0 < j < n && j != pos && Parent(j) != pos ensures EdgeOk(cmp, t, j) {
      assert EdgeOk(cmp, s, j);
    }
    SiftDownFrame(cmp, t, pos);
    if pos < n {
      SiftDownEdges(cmp, t, pos);
      forall j | 0 < j < pos ensures EdgeOk(cmp, r, j) {
        assert EdgeOk(cmp, t, j);
      }
      if pos > 0 {
        EdgeAbove(cmp, s, pos);
      }
    }
  }

  /** The edge above the hole after Pop(pos). */
  lemma EdgeAbove<T(!new)>(cmp: Cmp<T>, s: seq<HeapNode<T>>, pos: nat)
    requires StrictWeakOrder(cmp) && Ordered(cmp, s) && 0 < pos < |s| - 1
    ensures EdgeOk(cmp, PopAt(cmp, s, pos), pos) <==> !cmp(s[|s| - 1].value, s[Parent(pos)].value)
  {
    var n := |s| - 1;
    var t := Swap(s, pos, n)[..n];
    SiftDownFrame(cmp, t, pos);
    assert EdgeOk(cmp, s, pos);
    if Child(pos) < n {
      var c := SmallerChild(cmp, t, pos);
      assert t[c] == s[c] && EdgeOk(cmp, s, c) && Parent(c) == pos;
      NotSmallerTransitive(cmp, s[c].value, s[pos].value, s[Parent(pos)].value);
      if cmp(s[n].value, s[Parent(pos)].value) && !cmp(s[n].value, s[c].value) {
        NotSmallerTransitive(cmp, s[n].value, s[c].value, s[Parent(pos)].value);
      }
    }
  }

  // ---------- What stays above what ----------

  /** Position a is an ancestor of position b, and not b itself. */
  predicate Above(a: nat, b: nat) {
    a < b && (Parent(b) == a || Above(a, Parent(b)))
  }

  lemma {:induction false} ParentAbove(a: nat, b: nat)
    requires Above(a, b) && a > 0
    ensures Above(Parent(a), b)
    decreases b
  {
    if Parent(b) != a {
      ParentAbove(a, Parent(b));
    }
  }

  /** A node that is above another stays above it when a third one is shifted down. */
  lemma {:induction false} SiftDownKeepsAbove<T>(cmp: Cmp<T>, s: seq<HeapNode<T>>, i: nat, a: nat, b: nat) returns (x: nat, y: nat)
    requires b < |s| && Above(a, b) && i < |s| && i != a && i != b
    ensures y <= b && Above(x, y)
    ensures SiftDown(cmp, s, i)[x] == s[a] && SiftDown(cmp, s, i)[y] == s[b]
    decreases |s| - i
  {
    x, y := a, b;
    if Child(i) < |s| {
      var c := SmallerChild(cmp, s, i);
      if !cmp(s[i].value, s[c].value) {
        if c == a {
          ParentAbove(a, b);
          x, y := SiftDownKeepsAbove(cmp, Swap(s, i, c), c, i, b);
        } else if c == b {
          x, y := SiftDownKeepsAbove(cmp, Swap(s, i, c), c, a, i);
        } else {
          x, y := SiftDownKeepsAbove(cmp, Swap(s, i, c), c, a, b);
        }
      }
    }
  }

  /** So it does when the top is popped, unless it is the top or the other one is the last. */
  lemma PopKeepsAbove<T>(cmp: Cmp<T>, s: seq<HeapNode<T>>, a: nat, b: nat) returns (x: nat, y: nat)
    requires b < |s| - 1 && Above(a, b) && a > 0
    ensures y <= b && Above(x, y)
    ensures PopAt(cmp, s, 0)[x] == s[a] && PopAt(cmp, s, 0)[y] == s[b]
  {
    x, y := SiftDownKeepsAbove(cmp, Swap(s, 0, |s| - 1)[..|s| - 1], 0, a, b);
  }

  /** The former last node, when it does not fit under the parent of the hole, stays in the hole. */
  lemma MisfitStays<T(!new)>(cmp: Cmp<T>, s: seq<HeapNode<T>>, pos: nat)
    requires StrictWeakOrder(cmp) && Ordered(cmp, s) && pos < |s| && !LastFits(cmp, s, pos)
    ensures 0 < pos < |s| - 1
    ensures PopAt(cmp, s, pos)[pos] == s[|s| - 1] && PopAt(cmp, s, pos)[Parent(pos)] == s[Parent(pos)]
  {
    var n := |s| - 1;
    var t := Swap(s, pos, n)[..n];
    SiftDownFrame(cmp, t, pos);
    if Child(pos) < n {
      var c := SmallerChild(cmp, t, pos);
      assert t[c] == s[c] && EdgeOk(cmp, s, c) && EdgeOk(cmp, s, pos) && Parent(c) == pos;
      NotSmallerTransitive(cmp, s[c].value, s[pos].value, s[Parent(pos)].value);
      if !cmp(s[n].value, s[c].value) {
        NotSmallerTransitive(cmp, s[n].value, s[c].value, s[Parent(pos)].value);
      }
    }
  }

  /** A node that is not smaller than the one that becomes its parent stays at the end. */
  lemma PushAtEnd<T>(cmp: Cmp<T>, s: seq<HeapNode<T>>, node: HeapNode<T>)
    requires |s| > 0 ==> !cmp(node.value, s[Parent(|s|)].value)
    ensures Push(cmp, s, node) == s + [node]
  {
  }

  // ---------- The priority queue ----------

  lemma {:induction false} TopMinimal<T(!new)>(cmp: Cmp<T>, s: seq<HeapNode<T>>, j: nat)
    requires StrictWeakOrder(cmp) && Ordered(cmp, s) && j < |s|
    ensures !cmp(s[j].value, s[0].value)
    decreases j
  {
    if j > 0 {
      assert EdgeOk(cmp, s, j);
      TopMinimal(cmp, s, Parent(j));
      NotSmallerTransitive(cmp, s[j].value, s[Parent(j)].value, s[0].value);
    }
  }

  lemma TopMinimalIn<T(!new)>(cmp: Cmp<T>, s: seq<HeapNode<T>>, m: HeapNode<T>)
    requires StrictWeakOrder(cmp) && Ordered(cmp, s) && m in multiset(s)
    ensures !cmp(m.value, s[0].value)
  {
    var k :| 0 <= k < |s| && s[k] == m;
    TopMinimal(cmp, s, k);
  }

  /** Popping at the root until the heap is empty. */
  function Drain<T>(cmp: Cmp<T>, s: seq<HeapNode<T>>): seq<HeapNode<T>>
    decreases |s|
  {
    if s == [] then [] else [s[0]] + Drain(cmp, PopAt(cmp, s, 0))
  }

  ghost predicate NonDecreasing<T>(cmp: Cmp<T>, s: seq<HeapNode<T>>) {
    forall i, j :: 0 <= i < j < |s| ==> !cmp(s[j].value, s[i].value)
  }

  lemma {:induction false} DrainMultiset<T>(cmp: Cmp<T>, s: seq<HeapNode<T>>)
    ensures multiset(Drain(cmp, s)) == multiset(s)
    decreases |s|
  {
    if s != [] {
      PopMultiset(cmp, s, 0);
      DrainMultiset(cmp, PopAt(cmp, s, 0));
    }
  }

  /** Repeated Pop sorts what is in the heap. */
  lemma {:induction false} DrainSorts<T(!new)>(cmp: Cmp<T>, s: seq<HeapNode<T>>)
    requires StrictWeakOrder(cmp) && Ordered(cmp, s)
    ensures multiset(Drain(cmp, s)) == multiset(s)
    ensures NonDecreasing(cmp, Drain(cmp, s))
    decreases |s|
  {
    DrainMultiset(cmp, s);
    if s != [] {
      PopOrdered(cmp, s, 0);
      DrainSorts(cmp, PopAt(cmp, s, 0));
      var d := Drain(cmp, s);
      forall j | 0 <= j < |d| ensures !cmp(d[j].value, s[0].value) {
        TopMinimalIn(cmp, s, d[j]) by { assert d[j] in multiset(d); }
      }
      assert d[1..] == Drain(cmp, PopAt(cmp, s, 0));
      forall i, j | 0 <= i < j < |d| ensures !cmp(d[j].value, d[i].value) {
        if i > 0 {
          assert d[i] == d[1..][i - 1] && d[j] == d[1..][j - 1];
        }
      }
    }
  }

  datatype QueueOp<T> = QPush(node: HeapNode<T>) | QPop

  /** A run of Emplace and Pop at the root; a Pop of the empty heap is never made. */
  function RunQueue<T>(cmp: Cmp<T>, s: seq<HeapNode<T>>, ops: seq<QueueOp<T>>): (seq<HeapNode<T>>, seq<HeapNode<T>>)
    decreases ops
  {
    if ops == [] then ([], s)
    else match ops[0]
      case QPush(node) => RunQueue(cmp, Push(cmp, s, node), ops[1..])
      case QPop =>
        if s == [] then RunQueue(cmp, s, ops[1..])
        else var (out, t) := RunQueue(cmp, PopAt(cmp, s, 0), ops[1..]); ([s[0]] + out, t)
  }

  /** out is what some priority queue holding bag could answer to ops, ending with rest. */
  ghost predicate PriorityTrace<T>(cmp: Cmp<T>, bag: multiset<HeapNode<T>>, ops: seq<QueueOp<T>>,
                                   out: seq<HeapNode<T>>, rest: multiset<HeapNode<T>>)
    decreases ops
  {
    if ops == [] then out == [] && rest == bag
    else match ops[0]
      case QPush(node) => PriorityTrace(cmp, bag + multiset{node}, ops[1..], out, rest)
      case QPop =>
        if bag == multiset{} then PriorityTrace(cmp, bag, ops[1..], out, rest)
        else
          && out != [] && out[0] in bag
          && (forall m :: m in bag ==> !cmp(m.value, out[0].value))
          && PriorityTrace(cmp, bag - multiset{out[0]}, ops[1..], out[1..], rest)
  }

  lemma {:induction false} RunRefinesPriorityQueue<T(!new)>(cmp: Cmp<T>, s: seq<HeapNode<T>>, ops: seq<QueueOp<T>>)
    requires StrictWeakOrder(cmp) && Ordered(cmp, s)
    ensures var (out, t) := RunQueue(cmp, s, ops);
            Ordered(cmp, t) && PriorityTrace(cmp, multiset(s), ops, out, multiset(t))
    decreases ops
  {
    if ops != [] {
      match ops[0] {
        case QPush(node) =>
          PushOrdered(cmp, s, node);
          PushMultiset(cmp, s, node);
          RunRefinesPriorityQueue(cmp, Push(cmp, s, node), ops[1..]);
        case QPop =>
          if s == [] {
            RunRefinesPriorityQueue(cmp, s, ops[1..]);
          } else {
            PopOrdered(cmp, s, 0);
            PopMultiset(cmp, s, 0);
            RunRefinesPriorityQueue(cmp, PopAt(cmp, s, 0), ops[1..]);
            assert s[0] in multiset(s);
            forall m | m in multiset(s) ensures !cmp(m.value, s[0].value) {
              TopMinimalIn(cmp, s, m);
            }
            var (out, t) := RunQueue(cmp, s, ops);
            assert out[1..] == RunQueue(cmp, PopAt(cmp, s, 0), ops[1..]).0;
          }
      }
    }
  }
}
