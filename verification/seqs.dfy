/**
 Sequence operations behind the list queries: `Array.prototype.filter`, a stable
 `Array.prototype.sort` driven by a "may precede" relation, `reverse`, index counts,
 and the checkbox toggles that append to or remove from a list.
 */
module Seqs {

  /** `s.filter(p)`: the elements satisfying `p`, in their original order. */
  function Filter<T(!new)>(s: seq<T>, p: T -> bool): (r: seq<T>)
    ensures |r| <= |s|
    ensures forall i :: 0 <= i < |r| ==> p(r[i])
    ensures forall x :: x in r <==> x in s && p(x)
    ensures multiset(r) <= multiset(s)
  {
    if |s| == 0 then []
    else
      var rest := Filter(s[1..], p);
      assert s == [s[0]] + s[1..];
      if p(s[0]) then [s[0]] + rest else rest
  }

  /** Filtering distributes over concatenation. */
  lemma {:induction false} FilterAppend<T(!new)>(a: seq<T>, b: seq<T>, p: T -> bool)
    ensures Filter(a + b, p) == Filter(a, p) + Filter(b, p)
  {
    if |a| == 0 {
      assert a + b == b;
    } else {
      var ab := a + b;
      assert ab[0] == a[0];
      assert ab[1..] == a[1..] + b;
      FilterAppend(a[1..], b, p);
    }
  }

  lemma FilterSingleton<T(!new)>(x: T, p: T -> bool)
    ensures Filter([x], p) == if p(x) then [x] else []
  {
    assert [x][1..] == [];
  }

  /** Elements of `s` that satisfy `p`, counted one by one: what an index `count()` returns. */
  function Count<T>(s: seq<T>, p: T -> bool): nat
  {
    if |s| == 0 then 0 else (if p(s[0]) then 1 else 0) + Count(s[1..], p)
  }

  /** Appending one element raises the count by one exactly when it satisfies `p`. */
  lemma {:induction false} CountAppend<T>(s: seq<T>, x: T, p: T -> bool)
    ensures Count(s + [x], p) == Count(s, p) + (if p(x) then 1 else 0)
  {
    if |s| == 0 {
      assert [x][1..] == [];
    } else {
      assert (s + [x])[1..] == s[1..] + [x];
      CountAppend(s[1..], x, p);
    }
  }

  /** Counting agrees with the length of the filtered list. */
  lemma {:induction false} CountIsFilterLength<T(!new)>(s: seq<T>, p: T -> bool)
    ensures Count(s, p) == |Filter(s, p)|
  {
    if |s| > 0 {
      CountIsFilterLength(s[1..], p);
    }
  }

  /** Counts of mutually exclusive and exhaustive conditions add up to the whole. */
  lemma {:induction false} CountPartition2<T>(s: seq<T>, p: T -> bool, q: T -> bool)
    requires forall x :: p(x) != q(x)
    ensures Count(s, p) + Count(s, q) == |s|
  {
    if |s| > 0 {
      CountPartition2(s[1..], p, q);
    }
  }

  lemma {:induction false} CountPartition3<T>(s: seq<T>, p: T -> bool, q: T -> bool, o: T -> bool)
    requires forall x :: (if p(x) then 1 else 0) + (if q(x) then 1 else 0) + (if o(x) then 1 else 0) == 1
    ensures Count(s, p) + Count(s, q) + Count(s, o) == |s|
  {
    if |s| > 0 {
      CountPartition3(s[1..], p, q, o);
    }
  }

  /** Every element occurs at most once. */
  ghost predicate NoRepeats<T(!new)>(s: seq<T>)
  {
    forall x :: multiset(s)[x] <= 1
  }

  /** A list whose keys strictly increase holds each element once. */
  lemma {:induction false} IncreasingKeysNoRepeats<T(!new)>(s: seq<T>, key: T -> int)
    requires forall i, j :: 0 <= i < j < |s| ==> key(s[i]) < key(s[j])
    ensures NoRepeats(s)
  {
    if |s| > 0 {
      var tail := s[1..];
      assert forall i, j :: 0 <= i < j < |tail| ==> key(tail[i]) < key(tail[j]) by {
        forall i, j | 0 <= i < j < |tail|
          ensures key(tail[i]) < key(tail[j])
        {
          assert tail[i] == s[i + 1] && tail[j] == s[j + 1];
        }
      }
      IncreasingKeysNoRepeats(tail, key);
      forall k | 0 <= k < |tail|
        ensures tail[k] != s[0]
      {
        assert tail[k] == s[k + 1];
      }
      assert s == [s[0]] + tail;
      assert multiset(s) == multiset{s[0]} + multiset(tail);
    }
  }

  /** Two lists whose keys strictly increase and that hold the same elements are equal. */
  lemma {:induction false} IncreasingKeysUnique<T(!new)>(a: seq<T>, b: seq<T>, key: T -> int)
    requires forall i, j :: 0 <= i < j < |a| ==> key(a[i]) < key(a[j])
    requires forall i, j :: 0 <= i < j < |b| ==> key(b[i]) < key(b[j])
    requires forall x :: x in a <==> x in b
    ensures a == b
    decreases |a|
  {
    assert |b| == 0 || b[0] in a;
    if |a| > 0 {
      assert a[0] in b;
      var i :| 0 <= i < |a| && a[i] == b[0];
      var k :| 0 <= k < |b| && b[k] == a[0];
      assert i == 0 && k == 0;
      forall x
        ensures x in a[1..] <==> x in b[1..]
      {
        if x in a[1..] {
          var j :| 0 <= j < |a[1..]| && a[1..][j] == x;
          assert key(a[0]) < key(a[j + 1]);
          assert x in b && x != b[0];
        }
        if x in b[1..] {
          var j :| 0 <= j < |b[1..]| && b[1..][j] == x;
          assert key(b[0]) < key(b[j + 1]);
          assert x in a && x != a[0];
        }
      }
      IncreasingKeysUnique(a[1..], b[1..], key);
      assert a == [a[0]] + a[1..] && b == [b[0]] + b[1..];
    }
  }

  /** A sub-multiset of a list without repeats has none either. */
  lemma SubNoRepeats<T(!new)>(a: seq<T>, b: seq<T>)
    requires multiset(a) <= multiset(b) && NoRepeats(b)
    ensures NoRepeats(a)
  {
    forall x
      ensures multiset(a)[x] <= 1
    {
      assert multiset(a)[x] <= multiset(b)[x];
    }
  }

  /** Every earlier element may precede every later one. */
  ghost predicate Sorted<T>(s: seq<T>, le: (T, T) -> bool)
  {
    forall i, j :: 0 <= i < j < |s| ==> le(s[i], s[j])
  }

  ghost predicate TotalPreorder<T(!new)>(le: (T, T) -> bool)
  {
    && (forall a, b :: le(a, b) || le(b, a))
    && (forall a, b, c :: le(a, b) && le(b, c) ==> le(a, c))
  }

  /** A list stays sorted when an element that may precede all of it is put in front. */
  lemma SortedCons<T>(x: T, s: seq<T>, le: (T, T) -> bool)
    requires Sorted(s, le)
    requires forall y :: y in s ==> le(x, y)
    ensures Sorted([x] + s, le)
  {
    var r := [x] + s;
    forall i, j | 0 <= i < j < |r|
      ensures le(r[i], r[j])
    {
      assert r[j] == s[j - 1];
      if i > 0 {
        assert r[i] == s[i - 1];
      }
    }
  }

  /** Filtering keeps whatever order the list had. */
  lemma {:induction false} FilterKeepsOrder<T(!new)>(s: seq<T>, p: T -> bool, le: (T, T) -> bool)
    requires Sorted(s, le)
    ensures Sorted(Filter(s, p), le)
  {
    if |s| > 0 {
      var tail := s[1..];
      assert Sorted(tail, le);
      FilterKeepsOrder(tail, p, le);
      var rest := Filter(tail, p);
      if p(s[0]) {
        forall y | y in rest
          ensures le(s[0], y)
        {
          assert y in tail;
          var k :| 0 <= k < |tail| && tail[k] == y;
          assert s[k + 1] == y;
        }
        SortedCons(s[0], rest, le);
      }
    }
  }

  /**
   Places `x` after every element that may precede it: the step of a stable
   insertion sort, so equal elements keep their input order.
   */
  function Insert<T(!new)>(x: T, s: seq<T>, le: (T, T) -> bool): (r: seq<T>)
    requires TotalPreorder(le)
    requires Sorted(s, le)
    ensures Sorted(r, le)
    ensures multiset(r) == multiset(s) + multiset{x}
  {
    if |s| == 0 then [x]
    else if le(s[0], x) then
      var tail := s[1..];
      assert Sorted(tail, le);
      assert s == [s[0]] + tail;
      var rest := Insert(x, tail, le);
      InsertHeadPrecedes(x, s, rest, le);
      SortedCons(s[0], rest, le);
      [s[0]] + rest
    else
      assert le(x, s[0]);
      forall y | y in s
        ensures le(x, y)
      {
        var k :| 0 <= k < |s| && s[k] == y;
        if k > 0 {
          assert le(s[0], s[k]);
        }
      }
      SortedCons(x, s, le);
      [x] + s
  }

  /** The head of a sorted list may precede anything its tail and `x` can be rearranged into. */
  lemma InsertHeadPrecedes<T(!new)>(x: T, s: seq<T>, rest: seq<T>, le: (T, T) -> bool)
    requires |s| > 0 && Sorted(s, le) && le(s[0], x)
    requires multiset(rest) == multiset(s[1..]) + multiset{x}
    ensures forall y :: y in rest ==> le(s[0], y)
  {
    forall y | y in rest
      ensures le(s[0], y)
    {
      assert y in multiset(rest);
      if y != x {
        assert y in multiset(s[1..]);
        assert y in s[1..];
        var k :| 0 <= k < |s[1..]| && s[1..][k] == y;
        assert s[k + 1] == y;
      }
    }
  }

  /** A stable sort of `s` under the "may precede" relation `le`. */
  function Sort<T(!new)>(s: seq<T>, le: (T, T) -> bool): (r: seq<T>)
    requires TotalPreorder(le)
    ensures Sorted(r, le)
    ensures multiset(r) == multiset(s)
    ensures |r| == |s|
  {
    if |s| == 0 then []
    else
      var init := s[..|s| - 1];
      assert s == init + [s[|s| - 1]];
      var r := Insert(s[|s| - 1], Sort(init, le), le);
      assert |r| == |multiset(r)|;
      r
  }

  /** Sorting neither adds nor drops elements. */
  lemma SortSameElements<T(!new)>(s: seq<T>, le: (T, T) -> bool)
    requires TotalPreorder(le)
    ensures forall x :: x in Sort(s, le) <==> x in s
  {
    var r := Sort(s, le);
    forall x
      ensures x in r <==> x in s
    {
      assert x in r <==> x in multiset(r);
      assert x in s <==> x in multiset(s);
    }
  }

  /** `s.reverse()`. */
  function Reverse<T>(s: seq<T>): (r: seq<T>)
    ensures |r| == |s|
    ensures forall i :: 0 <= i < |s| ==> r[i] == s[|s| - 1 - i]
  {
    if |s| == 0 then [] else Reverse(s[1..]) + [s[0]]
  }

  /** A checkbox turned on: `[...list, v]`. */
  function Append<T>(s: seq<T>, v: T): (r: seq<T>)
    ensures |r| == |s| + 1
    ensures v in r
    ensures r[..|s|] == s
  {
    s + [v]
  }

  /** A checkbox turned off: `list.filter(x => x !== v)`, removing every occurrence. */
  function RemoveAll<T(!new,==)>(s: seq<T>, v: T): (r: seq<T>)
    ensures v !in r
    ensures forall x :: x != v ==> (x in r <==> x in s)
    ensures forall x :: x != v ==> multiset(r)[x] == multiset(s)[x]
  {
    if |s| == 0 then []
    else
      assert s == [s[0]] + s[1..];
      (if s[0] == v then [] else [s[0]]) + RemoveAll(s[1..], v)
  }

  /** The checkbox handler: checked appends the value, unchecked removes it. */
  function Toggle<T(!new,==)>(s: seq<T>, v: T, checked: bool): (r: seq<T>)
    ensures checked ==> |r| == |s| + 1 && v in r && r[..|s|] == s
    ensures !checked ==> v !in r && forall x :: x != v ==> (x in r <==> x in s)
  {
    if checked then Append(s, v) else RemoveAll(s, v)
  }

  /** Checking and then unchecking a value that was not selected restores the list. */
  lemma {:induction false} ToggleOnOff<T(!new)>(s: seq<T>, v: T)
    requires v !in s
    ensures Toggle(Toggle(s, v, true), v, false) == s
  {
    RemoveAllAbsent(s, v);
    RemoveAllAppend(s, v);
  }

  lemma {:induction false} RemoveAllAbsent<T(!new)>(s: seq<T>, v: T)
    requires v !in s
    ensures RemoveAll(s, v) == s
  {
    if |s| > 0 {
      RemoveAllAbsent(s[1..], v);
    }
  }

  lemma {:induction false} RemoveAllAppend<T(!new)>(s: seq<T>, v: T)
    ensures RemoveAll(s + [v], v) == RemoveAll(s, v)
  {
    if |s| == 0 {
      assert [v][1..] == [];
    } else {
      assert (s + [v])[1..] == s[1..] + [v];
      RemoveAllAppend(s[1..], v);
    }
  }
}
