/** Order statistics of a sample, characterised by counting. */
module OrderStats {

  ghost predicate Sorted(v: seq<real>) {
    forall i, j :: 0 <= i <= j < |v| ==> v[i] <= v[j]
  }

  function Insert(x: real, v: seq<real>): seq<real> {
    if v == [] || x <= v[0] then [x] + v else [v[0]] + Insert(x, v[1..])
  }

  /** The sample in ascending order. */
  function Sort(s: seq<real>): seq<real> {
    if s == [] then [] else Insert(s[0], Sort(s[1..]))
  }

  lemma {:induction false} InsertValues(x: real, v: seq<real>)
    ensures multiset(Insert(x, v)) == multiset(v) + multiset{x}
  {
    if v != [] && x > v[0] {
      InsertValues(x, v[1..]);
      assert v == [v[0]] + v[1..];
    }
  }

  lemma {:induction false} InsertSorted(x: real, v: seq<real>)
    requires Sorted(v)
    ensures Sorted(Insert(x, v)) && Insert(x, v) != []
    ensures Insert(x, v)[0] == if v == [] || x <= v[0] then x else v[0]
  {
    if v != [] && x > v[0] {
      SortedTail(v);
      InsertSorted(x, v[1..]);
      SortedCons(v[0], Insert(x, v[1..]));
    } else if v != [] {
      SortedCons(x, v);
    }
  }

  lemma SortedCons(x: real, v: seq<real>)
    requires Sorted(v) && (v == [] || x <= v[0])
    ensures Sorted([x] + v)
  {
  }

  /** Sorting yields the same values in ascending order. */
  lemma {:induction false} SortOk(s: seq<real>)
    ensures Sorted(Sort(s)) && multiset(Sort(s)) == multiset(s) && |Sort(s)| == |s|
  {
    hide Insert, Sorted;
    if s == [] {
      NothingSorted();
    } else {
      SortOk(s[1..]);
      InsertSorted(s[0], Sort(s[1..]));
      InsertValues(s[0], Sort(s[1..]));
      assert s == [s[0]] + s[1..];
    }
    assert |Sort(s)| == |multiset(Sort(s))| == |multiset(s)| == |s|;
  }

  lemma NothingSorted()
    ensures Sorted([])
  {
  }

  /** Ascending order determines a sample. */
  lemma {:induction false} SortedUnique(v: seq<real>, w: seq<real>)
    requires Sorted(v) && Sorted(w) && multiset(v) == multiset(w)
    ensures v == w
  {
    assert |v| == |multiset(v)| == |multiset(w)| == |w|;
    if v != [] {
      LeastFirst(v, w);
      LeastFirst(w, v);
      TailMultiset(v);
      TailMultiset(w);
      SortedTail(v);
      SortedTail(w);
      SortedUnique(v[1..], w[1..]);
      assert v == [v[0]] + v[1..] && w == [w[0]] + w[1..];
    }
  }

  lemma LeastFirst(v: seq<real>, w: seq<real>)
    requires Sorted(v) && v != [] && w != [] && multiset(v) == multiset(w)
    ensures v[0] <= w[0]
  {
    assert w[0] in multiset(v);
    var i :| 0 <= i < |v| && v[i] == w[0];
  }

  lemma TailMultiset(v: seq<real>)
    requires v != []
    ensures multiset(v[1..]) == multiset(v) - multiset{v[0]}
  {
    assert v == [v[0]] + v[1..];
  }

  lemma SortedTail(v: seq<real>)
    requires Sorted(v) && v != []
    ensures Sorted(v[1..])
  {
  }

  lemma SortOfPermutation(s: seq<real>, t: seq<real>)
    requires multiset(s) == multiset(t)
    ensures Sort(s) == Sort(t)
  {
    SortOk(s);
    SortOk(t);
    SortedUnique(Sort(s), Sort(t));
  }

  // ----- counting -----

  function CountLe(s: seq<real>, t: real): nat {
    if s == [] then 0 else (if s[0] <= t then 1 else 0) + CountLe(s[1..], t)
  }

  function CountLt(s: seq<real>, t: real): nat {
    if s == [] then 0 else (if s[0] < t then 1 else 0) + CountLt(s[1..], t)
  }

  lemma {:induction false} CountAppend(a: seq<real>, b: seq<real>, t: real)
    ensures CountLe(a + b, t) == CountLe(a, t) + CountLe(b, t)
    ensures CountLt(a + b, t) == CountLt(a, t) + CountLt(b, t)
  {
    if a == [] {
      assert a + b == b;
    } else {
      CountAppend(a[1..], b, t);
      assert (a + b)[1..] == a[1..] + b;
    }
  }

  lemma {:induction false} CountBounds(s: seq<real>, t: real)
    ensures CountLt(s, t) <= CountLe(s, t) <= |s|
  {
    if s != [] {
      CountBounds(s[1..], t);
    }
  }

  lemma {:induction false} CountInsert(x: real, v: seq<real>, t: real)
    ensures CountLe(Insert(x, v), t) == CountLe([x] + v, t)
    ensures CountLt(Insert(x, v), t) == CountLt([x] + v, t)
  {
    assert ([x] + v)[1..] == v;
    if v != [] && x > v[0] {
      CountInsert(x, v[1..], t);
      assert ([x] + v[1..])[1..] == v[1..];
    }
  }

  lemma {:induction false} CountSort(s: seq<real>, t: real)
    ensures CountLe(Sort(s), t) == CountLe(s, t) && CountLt(Sort(s), t) == CountLt(s, t)
  {
    if s != [] {
      CountSort(s[1..], t);
      CountInsert(s[0], Sort(s[1..]), t);
      assert ([s[0]] + Sort(s[1..]))[1..] == Sort(s[1..]);
    }
  }

  lemma {:induction false} RankInSorted(v: seq<real>, k: nat, t: real)
    requires Sorted(v) && k < |v|
    ensures v[k] <= t <==> CountLe(v, t) > k
    ensures v[k] < t <==> CountLt(v, t) > k
  {
    if k > 0 {
      RankInSorted(v[1..], k - 1, t);
      assert v[0] <= v[k];
    } else if |v| > 1 {
      RankInSorted(v[1..], 0, t);
      assert v[0] <= v[1];
    }
  }

  /** The k-th smallest value lies at or below a threshold exactly when more than k values do. */
  lemma RankByCount(s: seq<real>, k: nat, t: real)
    requires k < |s|
    ensures |Sort(s)| == |s|
    ensures Sort(s)[k] <= t <==> CountLe(s, t) > k
    ensures Sort(s)[k] < t <==> CountLt(s, t) > k
  {
    SortOk(s);
    RankInSorted(Sort(s), k, t);
    CountSort(s, t);
  }
}
