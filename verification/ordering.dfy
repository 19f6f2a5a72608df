/**
 * Python's stable `sort(key=..., reverse=True)` and `xs[:n]`, on pairs
 * that carry their sort key first. Both `derive_last_detection` and
 * `extract_predictions` order their items this way by confidence.
 */
module Ordering {

  /** The keys never increase from left to right. */
  predicate SortedDesc<T>(xs: seq<(real, T)>) {
    forall i, j :: 0 <= i < j < |xs| ==> xs[i].0 >= xs[j].0
  }

  /** Puts `x` after every pair whose key is at least x's: where a stable sort leaves a later item. */
  function InsertDesc<T>(xs: seq<(real, T)>, x: (real, T)): (r: seq<(real, T)>)
    ensures |r| == |xs| + 1
  {
    if xs == [] then [x]
    else if xs[0].0 < x.0 then [x] + xs
    else [xs[0]] + InsertDesc(xs[1..], x)
  }

  /** `sorted(xs, key=lambda p: p[0], reverse=True)` */
  function SortDesc<T>(xs: seq<(real, T)>): (r: seq<(real, T)>)
    ensures |r| == |xs|
    decreases |xs|
  {
    if xs == [] then [] else InsertDesc(SortDesc(xs[..|xs| - 1]), xs[|xs| - 1])
  }

  /** `xs[:n]` */
  function Prefix<T>(xs: seq<T>, n: nat): (r: seq<T>)
    ensures |r| <= n && |r| <= |xs|
    ensures |xs| >= n ==> |r| == n
    ensures forall i :: 0 <= i < |r| ==> r[i] == xs[i]
  {
    if |xs| <= n then xs else xs[..n]
  }

  lemma {:induction false} InsertDescKeeps<T>(xs: seq<(real, T)>, x: (real, T))
    ensures multiset(InsertDesc(xs, x)) == multiset(xs) + multiset{x}
    decreases |xs|
  {
    if xs != [] && xs[0].0 >= x.0 {
      InsertDescKeeps(xs[1..], x);
      assert xs == [xs[0]] + xs[1..];
    }
  }

  lemma SortedCons<T>(a: (real, T), rest: seq<(real, T)>)
    requires SortedDesc(rest)
    requires forall j :: 0 <= j < |rest| ==> rest[j].0 <= a.0
    ensures SortedDesc([a] + rest)
  {
    var r := [a] + rest;
    forall i, j | 0 <= i < j < |r|
      ensures r[i].0 >= r[j].0
    {
      assert r[j] == rest[j - 1];
      if i > 0 {
        assert r[i] == rest[i - 1];
      }
    }
  }

  lemma {:induction false} InsertDescSorted<T>(xs: seq<(real, T)>, x: (real, T))
    requires SortedDesc(xs)
    ensures SortedDesc(InsertDesc(xs, x))
    decreases |xs|
  {
    if xs == [] {
    } else if xs[0].0 < x.0 {
      SortedCons(x, xs);
    } else {
      var rest := InsertDesc(xs[1..], x);
      InsertDescSorted(xs[1..], x);
      InsertDescKeeps(xs[1..], x);
      forall j | 0 <= j < |rest|
        ensures rest[j].0 <= xs[0].0
      {
        assert rest[j] in multiset(xs[1..]) + multiset{x};
        if rest[j] != x {
          assert rest[j] in xs[1..];
        }
      }
      SortedCons(xs[0], rest);
    }
  }

  /** The sort orders by descending key and keeps every item, duplicates included. */
  lemma {:induction false} SortDescSpec<T>(xs: seq<(real, T)>)
    ensures SortedDesc(SortDesc(xs))
    ensures multiset(SortDesc(xs)) == multiset(xs)
    decreases |xs|
  {
    if xs != [] {
      var init := xs[..|xs| - 1];
      SortDescSpec(init);
      InsertDescSorted(SortDesc(init), xs[|xs| - 1]);
      InsertDescKeeps(SortDesc(init), xs[|xs| - 1]);
      assert xs == init + [xs[|xs| - 1]];
    }
  }

  /** The index of the first pair whose key is the largest. */
  function FirstMaxIndex<T>(xs: seq<(real, T)>): (i: nat)
    requires xs != []
    ensures i < |xs|
    ensures forall j :: 0 <= j < |xs| ==> xs[j].0 <= xs[i].0
    ensures forall j :: 0 <= j < i ==> xs[j].0 < xs[i].0
    decreases |xs|
  {
    if |xs| == 1 then 0
    else
      var m := FirstMaxIndex(xs[..|xs| - 1]);
      if xs[|xs| - 1].0 > xs[m].0 then |xs| - 1 else m
  }

  lemma InsertDescHead<T>(xs: seq<(real, T)>, x: (real, T))
    ensures InsertDesc(xs, x)[0] == if xs == [] || xs[0].0 < x.0 then x else xs[0]
  {
  }

  /** Ties keep their order: the sort puts first the earliest item of largest key. */
  lemma {:induction false} SortDescHead<T>(xs: seq<(real, T)>)
    requires xs != []
    ensures SortDesc(xs)[0] == xs[FirstMaxIndex(xs)]
    decreases |xs|
  {
    if |xs| > 1 {
      var init := xs[..|xs| - 1];
      SortDescHead(init);
      InsertDescHead(SortDesc(init), xs[|xs| - 1]);
    }
  }

  /** The items of the pairs, keys dropped. */
  function Items<T>(xs: seq<(real, T)>): (r: seq<T>)
    ensures |r| == |xs|
    ensures forall i :: 0 <= i < |r| ==> r[i] == xs[i].1
  {
    if xs == [] then [] else [xs[0].1] + Items(xs[1..])
  }

  lemma ItemsAppend<T>(xs: seq<(real, T)>, x: (real, T))
    ensures Items(xs + [x]) == Items(xs) + [x.1]
  {
    assert |Items(xs + [x])| == |Items(xs) + [x.1]|;
  }

  lemma {:induction false} InsertDescItems<T>(xs: seq<(real, T)>, x: (real, T))
    ensures multiset(Items(InsertDesc(xs, x))) == multiset(Items(xs)) + multiset{x.1}
    decreases |xs|
  {
    if xs != [] && xs[0].0 >= x.0 {
      InsertDescItems(xs[1..], x);
    }
  }

  lemma MultisetSnoc<U>(a: seq<U>, b: U)
    ensures multiset(a + [b]) == multiset(a) + multiset{b}
  {
  }

  /** The sort keeps every item, duplicates included. */
  lemma {:induction false} SortDescItems<T>(xs: seq<(real, T)>)
    ensures multiset(Items(SortDesc(xs))) == multiset(Items(xs))
    decreases |xs|
  {
    if xs != [] {
      var init := xs[..|xs| - 1];
      var last := xs[|xs| - 1];
      assert xs == init + [last];
      SortDescItems(init);
      InsertDescItems(SortDesc(init), last);
      ItemsAppend(init, last);
      MultisetSnoc(Items(init), last.1);
    }
  }
}
