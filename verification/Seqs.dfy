/**
 The list combinators of the source's standard library that the model needs: map,
 filter, flatten, dedupe (first occurrence wins) and groupBy (groups in first-seen order,
 items in input order).
 */
module Seqs {

  predicate NoDup<T(==)>(xs: seq<T>) {
    forall i, j :: 0 <= i < j < |xs| ==> xs[i] != xs[j]
  }

  function Map<T, U>(f: T -> U, xs: seq<T>): (ys: seq<U>)
    ensures |ys| == |xs|
    ensures forall i :: 0 <= i < |xs| ==> ys[i] == f(xs[i])
  {
    if xs == [] then [] else [f(xs[0])] + Map(f, xs[1..])
  }

  function Filter<T(!new)>(p: T -> bool, xs: seq<T>): (ys: seq<T>)
    ensures |ys| <= |xs|
    ensures forall y :: y in ys <==> y in xs && p(y)
  {
    if xs == [] then []
    else (if p(xs[0]) then [xs[0]] else []) + Filter(p, xs[1..])
  }

  function Flatten<T(!new)>(xss: seq<seq<T>>): (ys: seq<T>)
    ensures forall y :: y in ys <==> exists i :: 0 <= i < |xss| && y in xss[i]
  {
    if xss == [] then []
    else
      var ys := xss[0] + Flatten(xss[1..]);
      assert forall y | y in ys :: exists i :: 0 <= i < |xss| && y in xss[i] by {
        forall y | y in ys
          ensures exists i :: 0 <= i < |xss| && y in xss[i]
        {
          if y in xss[0] {
          } else {
            var i :| 0 <= i < |xss[1..]| && y in xss[1..][i];
            assert y in xss[i + 1];
          }
        }
      }
      assert forall i, y | 0 <= i < |xss| && y in xss[i] :: y in ys by {
        forall i, y | 0 <= i < |xss| && y in xss[i]
          ensures y in ys
        {
          if i > 0 {
            assert xss[1..][i - 1] == xss[i];
          }
        }
      }
      ys
  }

  /** Keeps the first occurrence of every element. */
  function Dedupe<T(==,!new)>(xs: seq<T>): (ys: seq<T>)
    ensures NoDup(ys)
    ensures forall y :: y in ys <==> y in xs
  {
    if xs == [] then []
    else
      var init, last := xs[..|xs| - 1], xs[|xs| - 1];
      assert xs == init + [last];
      var ys := Dedupe(init);
      if last in init then ys else ys + [last]
  }

  lemma {:induction false} FilterAppend<T(!new)>(p: T -> bool, xs: seq<T>, ys: seq<T>)
    ensures Filter(p, xs + ys) == Filter(p, xs) + Filter(p, ys)
  {
    if xs == [] {
      assert xs + ys == ys;
    } else {
      assert (xs + ys)[1..] == xs[1..] + ys;
      FilterAppend(p, xs[1..], ys);
    }
  }

  lemma {:induction false} FilterNone<T(!new)>(p: T -> bool, xs: seq<T>)
    requires forall x :: x in xs ==> !p(x)
    ensures Filter(p, xs) == []
  {
    if xs != [] {
      FilterNone(p, xs[1..]);
    }
  }

  lemma {:induction false} FilterAll<T(!new)>(p: T -> bool, xs: seq<T>)
    requires forall x :: x in xs ==> p(x)
    ensures Filter(p, xs) == xs
  {
    if xs != [] {
      FilterAll(p, xs[1..]);
    }
  }

  lemma {:induction false} FilterAlike<T(!new)>(p: T -> bool, q: T -> bool, xs: seq<T>)
    requires forall x :: p(x) == q(x)
    ensures Filter(p, xs) == Filter(q, xs)
  {
    if xs != [] {
      FilterAlike(p, q, xs[1..]);
    }
  }

  /** No two elements that p keeps are alike. */
  predicate KeptApart<T(!new)>(p: T -> bool, alike: (T, T) -> bool, xs: seq<T>) {
    forall i, j :: 0 <= i < j < |xs| && p(xs[i]) && p(xs[j]) ==> !alike(xs[i], xs[j])
  }

  lemma KeptApartCons<T(!new)>(p: T -> bool, alike: (T, T) -> bool, x: T, xs: seq<T>)
    ensures KeptApart(p, alike, [x] + xs) <==>
      KeptApart(p, alike, xs) && (p(x) ==> forall y :: y in xs && p(y) ==> !alike(x, y))
  {
    var all := [x] + xs;
    assert forall i :: 0 <= i < |xs| ==> all[i + 1] == xs[i];
    if KeptApart(p, alike, all) {
      forall i, j | 0 <= i < j < |xs| && p(xs[i]) && p(xs[j])
        ensures !alike(xs[i], xs[j])
      {
        assert all[i + 1] == xs[i] && all[j + 1] == xs[j];
      }
      forall y | p(x) && y in xs && p(y)
        ensures !alike(x, y)
      {
        var i :| 0 <= i < |xs| && xs[i] == y;
        assert all[0] == x && all[i + 1] == y;
      }
    }
  }

  /** Dropping the other elements does not change it. */
  lemma {:induction false} FilterKeepsApart<T(!new)>(p: T -> bool, alike: (T, T) -> bool, xs: seq<T>)
    ensures KeptApart(p, alike, Filter(p, xs)) <==> KeptApart(p, alike, xs)
  {
    if xs != [] {
      var x, rest := xs[0], xs[1..];
      FilterKeepsApart(p, alike, rest);
      assert xs == [x] + rest;
      KeptApartCons(p, alike, x, rest);
      if p(x) {
        assert Filter(p, xs) == [x] + Filter(p, rest);
        KeptApartCons(p, alike, x, Filter(p, rest));
      } else {
        assert Filter(p, xs) == Filter(p, rest);
      }
    }
  }

  lemma MapCons<T, U>(f: T -> U, x: T, xs: seq<T>)
    ensures Map(f, [x] + xs) == [f(x)] + Map(f, xs)
  {
  }

  lemma FlattenCons<T(!new)>(xs: seq<T>, xss: seq<seq<T>>)
    ensures Flatten([xs] + xss) == xs + Flatten(xss)
  {
  }

  /** A permutation holds the head somewhere, and the rest of the list around it. */
  lemma HeadElsewhere<T>(xs: seq<T>, ys: seq<T>) returns (i: nat)
    requires xs != [] && multiset(xs) == multiset(ys)
    ensures i < |ys| && ys[i] == xs[0]
    ensures multiset(xs[1..]) == multiset(ys[..i] + ys[i + 1..])
  {
    assert xs[0] in multiset(ys);
    i :| 0 <= i < |ys| && ys[i] == xs[0];
    MultisetAround(ys, i);
    MultisetTail(xs);
  }

  lemma MultisetTail<T>(xs: seq<T>)
    requires xs != []
    ensures multiset(xs[1..]) == multiset(xs) - multiset{xs[0]}
  {
    assert xs == [xs[0]] + xs[1..];
  }

  lemma MultisetAround<T>(xs: seq<T>, i: nat)
    requires i < |xs|
    ensures multiset(xs[..i] + xs[i + 1..]) == multiset(xs) - multiset{xs[i]}
  {
    var rest := xs[..i] + xs[i + 1..];
    assert xs == xs[..i] + [xs[i]] + xs[i + 1..];
    assert multiset(xs) == multiset(rest) + multiset{xs[i]};
  }

  // ----- groupBy

  datatype Group<T> = Group(key: string, items: seq<T>)

  function ItemsOf<T(!new)>(xs: seq<T>, key: T -> string, k: string): (ys: seq<T>) {
    Filter(x => key(x) == k, xs)
  }

  lemma {:induction false} ItemsOfIsFilter<T(!new)>(xs: seq<T>, key: T -> string, k: string, q: T -> bool)
    requires forall x :: x in xs ==> (key(x) == k) == q(x)
    ensures ItemsOf(xs, key, k) == Filter(q, xs)
  {
    if xs != [] {
      ItemsOfIsFilter(xs[1..], key, k, q);
    }
  }

  function GroupKeys<T(!new)>(xs: seq<T>, key: T -> string): (ks: seq<string>)
    ensures NoDup(ks)
    ensures forall k :: k in ks <==> exists x :: x in xs && key(x) == k
  {
    var all := Map(key, xs);
    assert forall x | x in xs :: key(x) in all by {
      forall x | x in xs ensures key(x) in all {
        var i :| 0 <= i < |xs| && xs[i] == x;
        assert all[i] == key(x);
      }
    }
    Dedupe(all)
  }

  function GroupBy<T(!new)>(xs: seq<T>, key: T -> string): (gs: seq<Group<T>>) {
    Map(k => Group(k, ItemsOf(xs, key, k)), GroupKeys(xs, key))
  }

  /**
   What grouping promises: one group per key that occurs, none empty, and each group holds
   exactly the items with its key, in their input order.
   */
  lemma GroupByIsPartition<T(!new)>(xs: seq<T>, key: T -> string)
    ensures var gs := GroupBy(xs, key);
      && NoDup(Map((g: Group<T>) => g.key, gs))
      && (forall g :: g in gs ==> g.items != [] && g.items == ItemsOf(xs, key, g.key))
      && (forall x :: x in xs ==> Group(key(x), ItemsOf(xs, key, key(x))) in gs)
  {
    var gs, ks := GroupBy(xs, key), GroupKeys(xs, key);
    assert Map((g: Group<T>) => g.key, gs) == ks;
    forall g | g in gs
      ensures g.items != [] && g.items == ItemsOf(xs, key, g.key)
    {
      var i :| 0 <= i < |gs| && gs[i] == g;
      KeyHasItems(xs, key, ks[i]);
    }
    forall x | x in xs
      ensures Group(key(x), ItemsOf(xs, key, key(x))) in gs
    {
      var k := key(x);
      assert k in ks;
      var i :| 0 <= i < |ks| && ks[i] == k;
      assert gs[i] == Group(k, ItemsOf(xs, key, k));
    }
  }

  /** No two groups have one key. */
  lemma GroupKeysDiffer<T(!new)>(xs: seq<T>, key: T -> string)
    ensures var gs := GroupBy(xs, key);
      forall i, j :: 0 <= i < |gs| && 0 <= j < |gs| && i != j ==> gs[i].key != gs[j].key
  {
    var gs, ks := GroupBy(xs, key), GroupKeys(xs, key);
    assert forall i :: 0 <= i < |gs| ==> gs[i].key == ks[i];
  }

  lemma KeyHasItems<T(!new)>(xs: seq<T>, key: T -> string, k: string)
    requires k in GroupKeys(xs, key)
    ensures ItemsOf(xs, key, k) != []
  {
  }

  function Ungroup<T>(gs: seq<Group<T>>): (xs: seq<T>) {
    if gs == [] then [] else gs[0].items + Ungroup(gs[1..])
  }

  /** Nothing is lost or duplicated: the groups together hold every item as often as the input. */
  lemma GroupByConserves<T(!new)>(xs: seq<T>, key: T -> string)
    ensures multiset(Ungroup(GroupBy(xs, key))) == multiset(xs)
  {
    var ks := GroupKeys(xs, key);
    CollectConserves(xs, key, ks);
    FilterAll(x => key(x) in ks, xs);
  }

  lemma {:induction false} CollectConserves<T(!new)>(xs: seq<T>, key: T -> string, ks: seq<string>)
    requires NoDup(ks)
    ensures multiset(Ungroup(Map(k => Group(k, ItemsOf(xs, key, k)), ks)))
         == multiset(Filter(x => key(x) in ks, xs))
  {
    var mk := (k: string) => Group(k, ItemsOf(xs, key, k));
    if ks == [] {
      FilterNone(x => key(x) in ks, xs);
    } else {
      var k0, rest := ks[0], ks[1..];
      CollectConserves(xs, key, rest);
      assert Map(mk, ks)[1..] == Map(mk, rest);
      SplitFilter(xs, x => key(x) == k0, x => key(x) in rest, x => key(x) in ks);
    }
  }

  /** Filtering by a disjoint union splits the multiset. */
  lemma {:induction false} SplitFilter<T(!new)>(xs: seq<T>, p: T -> bool, q: T -> bool, either: T -> bool)
    requires forall x :: either(x) <==> p(x) || q(x)
    requires forall x :: !(p(x) && q(x))
    ensures multiset(Filter(either, xs)) == multiset(Filter(p, xs)) + multiset(Filter(q, xs))
  {
    if xs != [] {
      SplitFilter(xs[1..], p, q, either);
    }
  }
}
