/** Small sequence vocabulary shared by the other modules. */
module Common {

  datatype Option<+T> = None | Some(value: T)

  ghost predicate Distinct<T>(s: seq<T>) {
    forall i, j :: 0 <= i < j < |s| ==> s[i] != s[j]
  }

  /** s without its first occurrence of x. */
  function Remove<T(==)>(s: seq<T>, x: T): (r: seq<T>)
    ensures x !in s ==> r == s
    ensures x in s ==> |r| == |s| - 1
  {
    if s == [] then []
    else if s[0] == x then s[1..]
    else [s[0]] + Remove(s[1..], x)
  }

  /** s without position k. */
  function Without<T>(s: seq<T>, k: nat): (r: seq<T>)
    requires k < |s|
    ensures |r| == |s| - 1
    ensures forall i :: 0 <= i < |r| ==> r[i] == s[if i < k then i else i + 1]
  {
    s[..k] + s[k + 1..]
  }

  lemma {:induction false} RemoveAt<T>(s: seq<T>, k: nat)
    requires k < |s| && Distinct(s)
    ensures Remove(s, s[k]) == Without(s, k)
  {
    if k > 0 {
      var t := s[1..];
      assert s[0] != s[k];
      assert Remove(s, s[k]) == [s[0]] + Remove(t, s[k]);
      assert t[k - 1] == s[k];
      RemoveAt(t, k - 1);
      assert [s[0]] + Without(t, k - 1) == Without(s, k);
    }
  }

  lemma WithoutMembers<T>(s: seq<T>, k: nat)
    requires k < |s| && Distinct(s)
    ensures forall x :: x in Without(s, k) <==> x in s && x != s[k]
  {
    var r := Without(s, k);
    forall x | x in s && x != s[k] ensures x in r {
      var i :| 0 <= i < |s| && s[i] == x;
      assert r[if i < k then i else i - 1] == x;
    }
  }

  lemma WithoutDistinct<T>(s: seq<T>, k: nat)
    requires k < |s| && Distinct(s)
    ensures Distinct(Without(s, k))
  {
  }

  lemma AppendDistinct<T>(s: seq<T>, x: T)
    requires Distinct(s) && x !in s
    ensures Distinct(s + [x])
  {
  }

  lemma RemoveDistinct<T>(s: seq<T>, x: T)
    requires Distinct(s)
    ensures Distinct(Remove(s, x))
    ensures forall y :: y in Remove(s, x) <==> y in s && y != x
  {
    if x in s {
      var k: nat :| k < |s| && s[k] == x;
      RemoveAt(s, k);
      WithoutMembers(s, k);
      WithoutDistinct(s, k);
    }
  }

  /** [lo, lo + 1, ..., hi - 1] */
  function Range(lo: nat, hi: nat): (r: seq<nat>)
    requires lo <= hi
    ensures |r| == hi - lo
    ensures forall i :: 0 <= i < |r| ==> r[i] == lo + i
  {
    seq(hi - lo, i => lo + i)
  }

  lemma {:induction false} DistinctOnce<T>(s: seq<T>, x: T)
    requires Distinct(s)
    ensures multiset(s)[x] == if x in s then 1 else 0
  {
    if s != [] {
      var n := |s| - 1;
      assert s == s[..n] + [s[n]];
      DistinctOnce(s[..n], x);
    }
  }

  lemma PrefixMember<T>(p: seq<T>, s: seq<T>, k: nat)
    requires p <= s && k < |s|
    ensures k < |p| ==> s[k] in p
  {
    if k < |p| {
      assert p[k] == s[k];
    }
  }

  /** The elements sel selects, in their order. */
  function Only<T>(s: seq<T>, sel: T -> bool): seq<T> {
    if s == [] then []
    else
      var n := |s| - 1;
      Only(s[..n], sel) + (if sel(s[n]) then [s[n]] else [])
  }

  lemma OnlyAppend<T>(s: seq<T>, x: T, sel: T -> bool)
    ensures Only(s + [x], sel) == Only(s, sel) + (if sel(x) then [x] else [])
  {
    assert (s + [x])[..|s|] == s;
  }

  lemma {:induction false} OnlyMember<T>(s: seq<T>, sel: T -> bool, x: T)
    ensures x in Only(s, sel) <==> x in s && sel(x)
  {
    if s != [] {
      var n := |s| - 1;
      assert s == s[..n] + [s[n]];
      OnlyMember(s[..n], sel, x);
    }
  }

  lemma {:induction false} OnlyPrefix<T>(p: seq<T>, s: seq<T>, sel: T -> bool)
    requires p <= s
    ensures Only(p, sel) <= Only(s, sel)
    decreases |s|
  {
    if |p| < |s| {
      OnlyPrefix(p, s[..|s| - 1], sel);
    } else {
      assert p == s;
    }
  }

  lemma {:induction false} OnlyAll<T>(s: seq<T>, sel: T -> bool)
    requires forall x :: x in s ==> sel(x)
    ensures Only(s, sel) == s
  {
    if s != [] {
      var n := |s| - 1;
      assert s == s[..n] + [s[n]];
      assert forall x :: x in s[..n] ==> x in s;
      OnlyAll(s[..n], sel);
    }
  }
}
