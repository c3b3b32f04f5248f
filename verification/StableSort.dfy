/**
 Python's `sorted`, as an insertion sort over a comparison.  The order of the elements is the
 only thing the callers rely on, so what is proved here is that the result is ordered, is a
 permutation of the input, and is the only such sequence when no two elements tie.
 */
module StableSort {

  ghost predicate TotalPreorder<T(!new)>(le: (T, T) -> bool) {
    && (forall a, b :: le(a, b) || le(b, a))
    && (forall a, b, c :: le(a, b) && le(b, c) ==> le(a, c))
  }

  ghost predicate Ordered<T>(s: seq<T>, le: (T, T) -> bool) {
    forall i, j :: 0 <= i < j < |s| ==> le(s[i], s[j])
  }

  /** No two elements that the comparison cannot tell apart are different. */
  ghost predicate NoTies<T>(s: seq<T>, le: (T, T) -> bool) {
    forall a, b :: a in s && b in s && le(a, b) && le(b, a) ==> a == b
  }

  /** Put x before the first element that it is below or level with. */
  function Insert<T>(x: T, s: seq<T>, le: (T, T) -> bool): (r: seq<T>)
  {
    if |s| == 0 then [x]
    else if le(x, s[0]) then [x] + s
    else [s[0]] + Insert(x, s[1..], le)
  }

  function Sort<T>(s: seq<T>, le: (T, T) -> bool): (r: seq<T>)
  {
    if |s| == 0 then [] else Insert(s[0], Sort(s[1..], le), le)
  }

  lemma {:induction false} InsertPermutes<T>(x: T, s: seq<T>, le: (T, T) -> bool)
    ensures multiset(Insert(x, s, le)) == multiset(s) + multiset{x}
  {
    if |s| == 0 {
    } else if le(x, s[0]) {
      assert ([x] + s)[1..] == s;
      SplitHead([x] + s);
    } else {
      var rest := Insert(x, s[1..], le);
      InsertPermutes(x, s[1..], le);
      SplitHead(s);
      SplitHead([s[0]] + rest);
      assert ([s[0]] + rest)[1..] == rest;
    }
  }

  lemma {:induction false} SortPermutes<T>(s: seq<T>, le: (T, T) -> bool)
    ensures multiset(Sort(s, le)) == multiset(s)
    ensures |Sort(s, le)| == |s|
  {
    if |s| == 0 {
    } else {
      SortPermutes(s[1..], le);
      InsertPermutes(s[0], Sort(s[1..], le), le);
      SplitHead(s);
    }
    assert |multiset(Sort(s, le))| == |multiset(s)|;
  }

  lemma {:induction false} InsertOrders<T(!new)>(x: T, s: seq<T>, le: (T, T) -> bool)
    requires TotalPreorder(le) && Ordered(s, le)
    ensures Ordered(Insert(x, s, le), le)
  {
    if |s| == 0 {
    } else if le(x, s[0]) {
    } else {
      var rest := Insert(x, s[1..], le);
      InsertOrders(x, s[1..], le);
      InsertPermutes(x, s[1..], le);
      forall y | y in rest ensures le(s[0], y) {
        assert y in multiset(rest);
        if y != x {
          assert y in multiset(s[1..]);
          assert y in s[1..];
        }
      }
    }
  }

  lemma {:induction false} SortOrders<T(!new)>(s: seq<T>, le: (T, T) -> bool)
    requires TotalPreorder(le)
    ensures Ordered(Sort(s, le), le)
  {
    if |s| == 0 {
    } else {
      SortOrders(s[1..], le);
      InsertOrders(s[0], Sort(s[1..], le), le);
    }
  }

  lemma SameElements<T>(s: seq<T>, t: seq<T>, x: T)
    requires multiset(s) == multiset(t)
    ensures x in s <==> x in t
  {
    assert x in s <==> x in multiset(s);
    assert x in t <==> x in multiset(t);
  }

  /** An ordering without ties leaves one ordered arrangement only. */
  lemma {:induction false} OrderedIsUnique<T(!new)>(s: seq<T>, t: seq<T>, le: (T, T) -> bool)
    requires TotalPreorder(le) && NoTies(s, le)
    requires Ordered(s, le) && Ordered(t, le)
    requires multiset(s) == multiset(t)
    ensures s == t
  {
    assert |s| == |multiset(s)| == |multiset(t)| == |t|;
    if |s| == 0 {
    } else {
      hide Ordered, NoTies, TotalPreorder;
      SameHead(s, t, le);
      TailIsOrdered(s, le);
      TailIsOrdered(t, le);
      TailHasNoTies(s, le);
      SplitHead(s);
      SplitHead(t);
      Cancel(s[0], multiset(s[1..]), multiset(t[1..]));
      OrderedIsUnique(s[1..], t[1..], le);
      assert s == [s[0]] + s[1..] && t == [t[0]] + t[1..];
    }
  }

  lemma SplitHead<T>(s: seq<T>)
    requires |s| > 0
    ensures multiset(s) == multiset{s[0]} + multiset(s[1..])
  {
    assert s == [s[0]] + s[1..];
  }

  lemma Cancel<T(!new)>(x: T, a: multiset<T>, b: multiset<T>)
    requires multiset{x} + a == multiset{x} + b
    ensures a == b
  {
    forall y ensures a[y] == b[y] {
      assert (multiset{x} + a)[y] == (multiset{x} + b)[y];
    }
  }

  lemma TailIsOrdered<T>(s: seq<T>, le: (T, T) -> bool)
    requires Ordered(s, le) && |s| > 0
    ensures Ordered(s[1..], le)
  {
  }

  lemma TailHasNoTies<T>(s: seq<T>, le: (T, T) -> bool)
    requires NoTies(s, le) && |s| > 0
    ensures NoTies(s[1..], le)
  {
    forall a | a in s[1..] ensures a in s {
    }
  }

  lemma SameHead<T(!new)>(s: seq<T>, t: seq<T>, le: (T, T) -> bool)
    requires TotalPreorder(le) && NoTies(s, le) && |s| > 0 && |t| > 0
    requires Ordered(s, le) && Ordered(t, le)
    requires multiset(s) == multiset(t)
    ensures s[0] == t[0]
  {
    SameElements(s, t, s[0]);
    SameElements(s, t, t[0]);
    assert le(s[0], s[0]) && le(t[0], t[0]);
    var i :| 0 <= i < |t| && t[i] == s[0];
    var j :| 0 <= j < |s| && s[j] == t[0];
    assert le(s[0], s[j]) && le(t[0], t[i]);
  }

  /** Sorting forgets the arrival order of the elements. */
  lemma SortForgetsArrival<T(!new)>(s: seq<T>, t: seq<T>, le: (T, T) -> bool)
    requires TotalPreorder(le) && NoTies(s, le)
    requires multiset(s) == multiset(t)
    ensures Sort(s, le) == Sort(t, le)
  {
    SortPermutes(s, le);
    SortPermutes(t, le);
    SortOrders(s, le);
    SortOrders(t, le);
    forall a, b | a in Sort(s, le) && b in Sort(s, le) && le(a, b) && le(b, a) ensures a == b {
      SameElements(Sort(s, le), s, a);
      SameElements(Sort(s, le), s, b);
    }
    OrderedIsUnique(Sort(s, le), Sort(t, le), le);
  }

  /** A sequence that is already in order is left alone. */
  lemma {:induction false} SortKeepsOrdered<T>(s: seq<T>, le: (T, T) -> bool)
    requires Ordered(s, le)
    ensures Sort(s, le) == s
  {
    if |s| == 0 {
    } else {
      SortKeepsOrdered(s[1..], le);
      if |s| > 1 {
        assert le(s[0], s[1]);
      }
    }
  }

  function Keep<T>(s: seq<T>, p: T -> bool): (r: seq<T>)
  {
    if |s| == 0 then [] else if p(s[0]) then [s[0]] + Keep(s[1..], p) else Keep(s[1..], p)
  }

  lemma {:induction false} InsertIsStable<T(!new)>(x: T, s: seq<T>, le: (T, T) -> bool, p: T -> bool)
    requires forall a, b :: p(a) && p(b) ==> le(a, b)
    ensures Keep(Insert(x, s, le), p) == Keep([x] + s, p)
  {
    if |s| == 0 || le(x, s[0]) {
      assert Insert(x, s, le) == [x] + s;
    } else {
      var r := Insert(x, s[1..], le);
      InsertIsStable(x, s[1..], le, p);
      assert ([s[0]] + r)[1..] == r;
      assert ([x] + s[1..])[1..] == s[1..];
      assert ([x] + s)[1..] == s;
    }
  }

  /** Elements of a class whose members all tie keep the order in which they arrived. */
  lemma {:induction false} SortIsStable<T(!new)>(s: seq<T>, le: (T, T) -> bool, p: T -> bool)
    requires forall a, b :: p(a) && p(b) ==> le(a, b)
    ensures Keep(Sort(s, le), p) == Keep(s, p)
  {
    if |s| == 0 {
    } else {
      var tail := Sort(s[1..], le);
      SortIsStable(s[1..], le, p);
      InsertIsStable(s[0], tail, le, p);
      assert ([s[0]] + tail)[1..] == tail;
    }
  }
}
