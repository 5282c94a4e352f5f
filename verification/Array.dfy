/**
 The array of pipes of array.hpp: every pipe knows its index, so that it is
 found, moved and removed without a search.
 */
module PipeArray {

  function Swapped<P>(s: seq<P>, i: nat, j: nat): (r: seq<P>)
    requires i < |s| && j < |s|
    ensures |r| == |s|
  {
    s[i := s[j]][j := s[i]]
  }

  /** The last element takes the place of the one that is removed. */
  function Erased<P>(s: seq<P>, i: nat): (r: seq<P>)
    requires i < |s|
    ensures |r| == |s| - 1
  {
    s[i := s[|s| - 1]][..|s| - 1]
  }

  predicate Distinct<P(==)>(s: seq<P>) { forall i, j :: 0 <= i < j < |s| ==> s[i] != s[j] }

  /** Elements change their places; none is lost and none comes in. */
  lemma SwapPermutes<P>(s: seq<P>, i: nat, j: nat)
    requires i < |s| && j < |s|
    ensures multiset(Swapped(s, i, j)) == multiset(s)
    ensures Distinct(s) ==> Distinct(Swapped(s, i, j))
  {
  }

  lemma EraseRemoves<P>(s: seq<P>, i: nat)
    requires i < |s|
    ensures multiset(Erased(s, i)) == multiset(s) - multiset{s[i]}
    ensures Distinct(s) ==> Distinct(Erased(s, i))
  {
    var last := |s| - 1;
    var moved := s[i := s[last]];
    assert moved == moved[..last] + [moved[last]];
    assert s == s[..last] + [s[last]];
    assert multiset(moved) == multiset(s) - multiset{s[i]} + multiset{s[last]};
  }

  /** The pipes in the first n places. */
  function Region<P(==)>(s: seq<P>, n: nat): set<P>
    requires n <= |s|
  {
    set p | p in s[..n]
  }

  lemma InRegion<P>(s: seq<P>, n: nat, k: nat)
    requires k < |s| && n <= |s| && Distinct(s)
    ensures s[k] in Region(s, n) <==> k < n
  {
    if k < n {
      assert s[..n][k] == s[k];
    }
  }

  /** A pipe that is swapped to the place behind a region enlarges it. */
  lemma RegionGains<P>(s: seq<P>, i: nat, n: nat)
    requires n <= i < |s| && Distinct(s)
    ensures Region(Swapped(s, i, n), n + 1) == Region(s, n) + {s[i]}
    ensures Region(Swapped(s, i, n), n) == Region(s, n)
  {
    var r := Swapped(s, i, n);
    assert r[..n] == s[..n];
    assert r[..n + 1] == s[..n] + [s[i]];
  }

  /** Without its last place a region loses one pipe. */
  lemma RegionShrinks<P>(s: seq<P>, n: nat)
    requires 0 < n <= |s| && Distinct(s)
    ensures Region(s, n - 1) == Region(s, n) - {s[n - 1]} && Region(s, n) == Region(s, n - 1) + {s[n - 1]}
  {
    assert s[..n] == s[..n - 1] + [s[n - 1]];
    InRegion(s, n - 1, n - 1);
  }

  /** A swap inside or outside a region leaves the region as it is. */
  lemma SwapInRegion<P>(s: seq<P>, i: nat, j: nat, n: nat)
    requires i < |s| && j < |s| && n <= |s| && (i < n <==> j < n)
    ensures Region(Swapped(s, i, j), n) == Region(s, n)
  {
    var r := Swapped(s, i, j);
    if i < n {
      SwapPermutes(s[..n], i, j);
      assert r[..n] == Swapped(s[..n], i, j);
      assert forall p :: p in r[..n] <==> p in multiset(r[..n]);
      assert forall p :: p in s[..n] <==> p in multiset(s[..n]);
    } else {
      assert r[..n] == s[..n];
    }
  }

  class Pipe {
    var arrayIndex: int

    constructor ()
      ensures arrayIndex == -1
    {
      arrayIndex := -1;
    }
  }

  class Pipes {
    var items: seq<Pipe>

    constructor ()
      ensures Valid() && items == []
    {
      items := [];
    }

    /** Every pipe knows where it is. */
    ghost predicate Valid()
      reads this, items
    {
      forall i {:trigger items[i]} :: 0 <= i < |items| ==> items[i].arrayIndex == i
    }

    lemma ValidDistinct()
      requires Valid()
      ensures Distinct(items)
    {
    }

    function Size(): nat
      reads this
    {
      |items|
    }

    method PushBack(item: Pipe)
      requires Valid() && item !in items
      modifies this, item
      ensures Valid() && items == old(items) + [item]
    {
      item.arrayIndex := |items|;
      items := items + [item];
    }

    method EraseAt(index: nat)
      requires Valid() && index < |items|
      modifies this, items
      ensures Valid() && items == Erased(old(items), index)
    {
      var back := items[|items| - 1];
      back.arrayIndex := index;
      items := items[index := back];
      items := items[..|items| - 1];
    }

    /** A pipe is found by its own index. */
    method Index(item: Pipe) returns (index: nat)
      requires Valid() && item in items
      ensures index < |items| && items[index] == item
    {
      index := item.arrayIndex;
    }

    method Erase(item: Pipe)
      requires Valid() && item in items
      modifies this, items
      ensures Valid() && exists i | 0 <= i < |old(items)| :: old(items)[i] == item && items == Erased(old(items), i)
    {
      var index := Index(item);
      EraseAt(index);
    }

    method Swap(i: nat, j: nat)
      requires Valid() && i < |items| && j < |items|
      modifies this, items
      ensures Valid() && items == Swapped(old(items), i, j)
    {
      items[i].arrayIndex := j;
      items[j].arrayIndex := i;
      items := items[i := items[j]][j := items[i]];
    }
  }
}
