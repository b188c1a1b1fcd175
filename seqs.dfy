/** Sequence helpers for the source's list comprehensions over ids and pairs. */
module Seqs {

  predicate NoDup<T(==)>(s: seq<T>) {
    forall i, j :: 0 <= i < j < |s| ==> s[i] != s[j]
  }

  /** `[e for e in s if p(e)]`: keeps the elements satisfying `p`, in order. */
  function Filter<T(!new)>(s: seq<T>, p: T -> bool): (r: seq<T>)
    ensures forall y :: y in r <==> y in s && p(y)
    ensures |r| <= |s|
  {
    if s == [] then [] else (if p(s[0]) then [s[0]] else []) + Filter(s[1..], p)
  }

  /** `[f(e) for e in s]`. */
  function Map<T, U>(s: seq<T>, f: T -> U): (r: seq<U>)
    ensures |r| == |s|
    ensures forall k :: 0 <= k < |s| ==> r[k] == f(s[k])
  {
    if s == [] then [] else [f(s[0])] + Map(s[1..], f)
  }

  /** `[e for e in s if e != x]`. */
  function RemoveAll<T(==, !new)>(s: seq<T>, x: T): seq<T> {
    Filter(s, y => y != x)
  }

  /** `[e for e in s if e not in xs]`. */
  function RemoveSet<T(==, !new)>(s: seq<T>, xs: set<T>): seq<T> {
    Filter(s, y => y !in xs)
  }

  /** Python's `s[1:]`, which is empty for an empty list. */
  function Rest<T>(s: seq<T>): (r: seq<T>)
    ensures s != [] ==> r == s[1..]
    ensures s == [] ==> r == []
  {
    if s == [] then [] else s[1..]
  }

  /** Python's `s.index(x)` when `x in s`; `|s|` otherwise. */
  function Find<T(==)>(s: seq<T>, x: T): (i: nat)
    ensures i <= |s|
    ensures i < |s| ==> s[i] == x
    ensures forall k :: 0 <= k < i ==> s[k] != x
  {
    if s == [] then 0 else if s[0] == x then 0 else 1 + Find(s[1..], x)
  }

  lemma NoDupCons<T>(a: T, r: seq<T>)
    requires NoDup(r) && a !in r
    ensures NoDup([a] + r)
  {
  }

  lemma {:induction false} FilterNoDup<T(!new)>(s: seq<T>, p: T -> bool)
    requires NoDup(s)
    ensures NoDup(Filter(s, p))
  {
    if s != [] {
      FilterNoDup(s[1..], p);
      assert s[0] !in s[1..];
      if p(s[0]) {
        NoDupCons(s[0], Filter(s[1..], p));
      }
    }
  }

  /** Filtering by a predicate every element satisfies changes nothing. */
  lemma {:induction false} FilterAll<T(!new)>(s: seq<T>, p: T -> bool)
    requires forall k :: 0 <= k < |s| ==> p(s[k])
    ensures Filter(s, p) == s
  {
    if s != [] {
      FilterAll(s[1..], p);
    }
  }

  lemma RemoveAllNoDup<T(!new)>(s: seq<T>, x: T)
    requires NoDup(s)
    ensures NoDup(RemoveAll(s, x))
  {
    FilterNoDup(s, y => y != x);
  }

  lemma RemoveSetNoDup<T(!new)>(s: seq<T>, xs: set<T>)
    requires NoDup(s)
    ensures NoDup(RemoveSet(s, xs))
  {
    FilterNoDup(s, y => y !in xs);
  }

  lemma RemoveAllAbsent<T(!new)>(s: seq<T>, x: T)
    requires x !in s
    ensures RemoveAll(s, x) == s
  {
    FilterAll(s, y => y != x);
  }

  /** In a duplicate-free list, removing a present element shortens it by exactly one. */
  lemma {:induction false} RemoveAllPresentLength<T(!new)>(s: seq<T>, x: T)
    requires NoDup(s) && x in s
    ensures |RemoveAll(s, x)| == |s| - 1
  {
    if s[0] == x {
      RemoveAllAbsent(s[1..], x);
    } else {
      RemoveAllPresentLength(s[1..], x);
    }
  }

  /** In a duplicate-free list, cutting out position i is removing the element there. */
  lemma {:induction false} CutIsRemoveAll<T(!new)>(s: seq<T>, i: nat)
    requires NoDup(s) && i < |s|
    ensures s[..i] + s[i + 1..] == RemoveAll(s, s[i])
  {
    if i == 0 {
      RemoveAllAbsent(s[1..], s[0]);
    } else {
      CutIsRemoveAll(s[1..], i - 1);
      assert s[1..][..i - 1] == s[1..i];
      assert s[1..][i..] == s[i + 1..];
      assert s[..i] + s[i + 1..] == [s[0]] + (s[1..i] + s[i + 1..]);
    }
  }

  lemma NoDupAppend<T>(s: seq<T>, x: T)
    requires NoDup(s) && x !in s
    ensures NoDup(s + [x])
  {
  }

  /** A duplicate-free list shares no element between a prefix and the rest. */
  lemma NoDupSplit<T>(s: seq<T>, e: nat)
    requires NoDup(s) && e <= |s|
    ensures forall x :: x in s[e..] ==> x !in s[..e]
  {
    forall x | x in s[e..]
      ensures x !in s[..e]
    {
      var i :| e <= i < |s| && s[i] == x;
      forall j | 0 <= j < e
        ensures s[..e][j] != x
      {
        assert s[j] != s[i];
      }
    }
  }

  lemma NoDupSlice<T>(s: seq<T>, i: nat, j: nat)
    requires NoDup(s) && i <= j <= |s|
    ensures NoDup(s[i..j])
  {
  }

  /** The number of distinct elements of a duplicate-free list is its length. */
  lemma {:induction false} NoDupCard<T>(s: seq<T>)
    requires NoDup(s)
    ensures |set x | x in s| == |s|
  {
    if s != [] {
      NoDupCard(s[1..]);
      assert (set x | x in s) == {s[0]} + (set x | x in s[1..]);
    }
  }

  /** The concatenation of a list of blocks, in order. */
  function Flatten<T>(bs: seq<seq<T>>): seq<T>
  {
    if bs == [] then [] else Flatten(bs[..|bs| - 1]) + bs[|bs| - 1]
  }

  /** An element is in the concatenation exactly when it is in one of the blocks. */
  lemma {:induction false} FlattenMember<T>(bs: seq<seq<T>>, y: T)
    ensures y in Flatten(bs) <==> exists i :: 0 <= i < |bs| && y in bs[i]
  {
    if bs != [] {
      var init := bs[..|bs| - 1];
      FlattenMember(init, y);
      if y in Flatten(bs) && y !in bs[|bs| - 1] {
        var i :| 0 <= i < |init| && y in init[i];
        assert bs[i] == init[i];
      }
      if exists i :: 0 <= i < |bs| && y in bs[i] {
        var i :| 0 <= i < |bs| && y in bs[i];
        if i < |init| {
          assert init[i] == bs[i];
        }
      }
    }
  }

  /** One more block grows the concatenation by that block. */
  lemma FlattenStep<T>(bs: seq<seq<T>>, i: nat)
    requires i < |bs|
    ensures Flatten(bs[..i + 1]) == Flatten(bs[..i]) + bs[i]
  {
    assert bs[..i + 1][..i] == bs[..i];
  }
}
