/**
 * The value-level facts behind the session container's indexed binary
 * min-heap: items are `[priority, id, data, index, client_ip]`, the parent of
 * position `i > 0` is `(i - 1) / 2`, and a side map sends each id to its
 * position.
 */
module SessionHeap {
  import opened Seqs
  import opened Stores

  /** One heap entry: priority, session id, the session's storage, its own position, the client address. */
  datatype HeapItem = HeapItem(priority: int, id: string, data: Storage, index: int, clientIp: string)

  /** What the heap records about one session id, independent of where it sits. */
  datatype Session = Session(priority: int, data: Storage, clientIp: string)

  function SessionOf(x: HeapItem): Session {
    Session(x.priority, x.data, x.clientIp)
  }

  function Parent(i: nat): nat
    requires i > 0
  {
    (i - 1) / 2
  }

  /** Every parent's priority is at most its child's. */
  ghost predicate Ordered(h: seq<HeapItem>) {
    forall i :: 0 < i < |h| ==> h[Parent(i)].priority <= h[i].priority
  }

  /** Ordered except between `k` and its parent; `k`'s parent is still below `k`'s children. */
  ghost predicate OrderedExceptUp(h: seq<HeapItem>, k: nat) {
    && (forall i :: 0 < i < |h| && i != k ==> h[Parent(i)].priority <= h[i].priority)
    && (0 < k < |h| ==> forall c :: 0 < c < |h| && Parent(c) == k ==> h[Parent(k)].priority <= h[c].priority)
  }

  /** Ordered except between `k` and its children; `k`'s parent is still below `k`'s children. */
  ghost predicate OrderedExceptDown(h: seq<HeapItem>, k: nat) {
    && (forall i :: 0 < i < |h| && Parent(i) != k ==> h[Parent(i)].priority <= h[i].priority)
    && (0 < k < |h| ==> forall c :: 0 < c < |h| && Parent(c) == k ==> h[Parent(k)].priority <= h[c].priority)
  }

  /** Each item stores its own position, and the map sends exactly the ids present to their positions. */
  ghost predicate Indexed(h: seq<HeapItem>, m: map<string, int>) {
    && (forall i :: 0 <= i < |h| ==> h[i].index == i && h[i].id in m && m[h[i].id] == i)
    && (forall id :: id in m ==> 0 <= m[id] < |h| && h[m[id]].id == id)
  }

  /** The sessions the heap holds, by id. */
  ghost function Sessions(h: seq<HeapItem>, m: map<string, int>): map<string, Session>
    requires Indexed(h, m)
  {
    map id | id in m :: SessionOf(h[m[id]])
  }

  /** The ids of the heap, in heap order. */
  function Ids(h: seq<HeapItem>): (ids: seq<string>)
    ensures |ids| == |h|
    ensures forall i :: 0 <= i < |h| ==> ids[i] == h[i].id
  {
    seq(|h|, i requires 0 <= i < |h| => h[i].id)
  }

  /** The index map has one entry per heap item. */
  lemma IndexedSize(h: seq<HeapItem>, m: map<string, int>)
    requires Indexed(h, m)
    ensures |m| == |h|
    ensures NoDup(Ids(h))
  {
    var ids := Ids(h);
    assert NoDup(ids) by {
      forall i, j | 0 <= i < j < |ids|
        ensures ids[i] != ids[j]
      {
        assert m[ids[i]] == i && m[ids[j]] == j;
      }
    }
    NoDupCard(ids);
    assert m.Keys == set x | x in ids by {
      forall k | k in m
        ensures k in ids
      {
        assert ids[m[k]] == k;
      }
    }
  }

  /** `_swap`'s new item list: the two items trade places and learn their new positions. */
  function SwapItems(h: seq<HeapItem>, i: nat, j: nat): (r: seq<HeapItem>)
    requires i < |h| && j < |h|
    ensures |r| == |h|
  {
    h[i := h[j].(index := i)][j := h[i].(index := j)]
  }

  /** `_swap`'s new index map. */
  function SwapIndex(h: seq<HeapItem>, m: map<string, int>, i: nat, j: nat): map<string, int>
    requires i < |h| && j < |h|
  {
    m[h[i].id := j][h[j].id := i]
  }

  /** Swapping two items keeps the index consistent and the sessions unchanged. */
  lemma SwapKeeps(h: seq<HeapItem>, m: map<string, int>, i: nat, j: nat)
    requires Indexed(h, m) && i < |h| && j < |h|
    ensures Indexed(SwapItems(h, i, j), SwapIndex(h, m, i, j))
    ensures Sessions(SwapItems(h, i, j), SwapIndex(h, m, i, j)) == Sessions(h, m)
    ensures forall k :: 0 <= k < |h| ==> SwapItems(h, i, j)[k].priority == h[if k == i then j else if k == j then i else k].priority
  {
    SwapIndexMoves(h, m, i, j);
    SwapIndexed(h, m, i, j);
  }

  lemma SwapIndexed(h: seq<HeapItem>, m: map<string, int>, i: nat, j: nat)
    requires Indexed(h, m) && i < |h| && j < |h|
    ensures Indexed(SwapItems(h, i, j), SwapIndex(h, m, i, j))
  {
    SwapIndexMoves(h, m, i, j);
  }

  /** After a swap the map sends the two ids to their new places and every other id where it was. */
  lemma SwapIndexMoves(h: seq<HeapItem>, m: map<string, int>, i: nat, j: nat)
    requires Indexed(h, m) && i < |h| && j < |h|
    ensures var m' := SwapIndex(h, m, i, j);
      && m'.Keys == m.Keys
      && forall id | id in m :: m'[id] == (if m[id] == i then j else if m[id] == j then i else m[id])
  {
    var m' := SwapIndex(h, m, i, j);
    forall id | id in m
      ensures m'[id] == (if m[id] == i then j else if m[id] == j then i else m[id])
    {
      if m[id] != i && m[id] != j {
        assert id != h[i].id && id != h[j].id;
      }
    }
  }

  /** Sifting up one level: the violation moves to the parent. */
  lemma SiftUpStep(h: seq<HeapItem>, k: nat)
    requires 0 < k < |h| && OrderedExceptUp(h, k)
    requires h[k].priority < h[Parent(k)].priority
    ensures OrderedExceptUp(SwapItems(h, k, Parent(k)), Parent(k))
  {
    var p := Parent(k);
    var h' := SwapItems(h, k, p);
    forall i | 0 < i < |h'| && i != p
      ensures h'[Parent(i)].priority <= h'[i].priority
    {
      if i == k {
      } else if Parent(i) == k {
      } else if Parent(i) == p {
        assert h[p].priority <= h[i].priority;
      }
    }
    if 0 < p {
      forall c | 0 < c < |h'| && Parent(c) == p
        ensures h'[Parent(p)].priority <= h'[c].priority
      {
        assert h[Parent(p)].priority <= h[p].priority;
      }
    }
  }

  /** A violation at the root, or none left at `k`, leaves the heap ordered. */
  lemma SiftUpDone(h: seq<HeapItem>, k: nat)
    requires k < |h| && OrderedExceptUp(h, k)
    requires k == 0 || h[Parent(k)].priority <= h[k].priority
    ensures Ordered(h)
  {
  }

  /** The smaller child of `k`, or `k` itself when neither child is smaller (Python's `smallest`). */
  function Smallest(h: seq<HeapItem>, k: nat): (s: nat)
    requires k < |h|
    ensures s < |h| && (s == k || (s > 0 && Parent(s) == k))
    ensures h[s].priority <= h[k].priority
    ensures forall c :: 0 < c < |h| && Parent(c) == k ==> h[s].priority <= h[c].priority
  {
    var l, r := 2 * k + 1, 2 * k + 2;
    var s1 := if l < |h| && h[l].priority < h[k].priority then l else k;
    if r < |h| && h[r].priority < h[s1].priority then r else s1
  }

  /** Sifting down one level: the violation moves to the smaller child. */
  lemma SiftDownStep(h: seq<HeapItem>, k: nat)
    requires k < |h| && OrderedExceptDown(h, k)
    requires Smallest(h, k) != k
    ensures OrderedExceptDown(SwapItems(h, k, Smallest(h, k)), Smallest(h, k))
  {
    var s := Smallest(h, k);
    var h' := SwapItems(h, k, s);
    forall i | 0 < i < |h'| && Parent(i) != s
      ensures h'[Parent(i)].priority <= h'[i].priority
    {
      if i == s {
      } else if i == k {
        assert h[Parent(k)].priority <= h[s].priority;
      } else if Parent(i) == k {
      }
    }
  }

  /** When no child of `k` is smaller, the heap is ordered. */
  lemma SiftDownDone(h: seq<HeapItem>, k: nat)
    requires k < |h| && OrderedExceptDown(h, k)
    requires Smallest(h, k) == k
    ensures Ordered(h)
  {
  }

  /** In an ordered heap every item sits no lower than the root. */
  lemma {:induction false} RootIsMin(h: seq<HeapItem>, i: nat)
    requires Ordered(h) && i < |h|
    ensures h[0].priority <= h[i].priority
  {
    if i > 0 {
      RootIsMin(h, Parent(i));
    }
  }

  /** The root's priority bounds every session's. */
  lemma RootIsMinSession(h: seq<HeapItem>, m: map<string, int>)
    requires Indexed(h, m) && Ordered(h) && |h| > 0
    ensures h[0].id in Sessions(h, m)
    ensures Sessions(h, m)[h[0].id] == SessionOf(h[0])
    ensures forall id :: id in Sessions(h, m) ==> h[0].priority <= Sessions(h, m)[id].priority
  {
    forall id | id in m
      ensures h[0].priority <= h[m[id]].priority
    {
      RootIsMin(h, m[id]);
    }
  }

  /** `_push`'s first step: appending an item under a fresh id, before it is sifted up. */
  lemma PushKeeps(h: seq<HeapItem>, m: map<string, int>, x: HeapItem)
    requires Indexed(h, m) && Ordered(h) && x.id !in m && x.index == |h|
    ensures Indexed(h + [x], m[x.id := |h|])
    ensures OrderedExceptUp(h + [x], |h|)
    ensures Sessions(h + [x], m[x.id := |h|]) == Sessions(h, m)[x.id := SessionOf(x)]
  {
    var h', m' := h + [x], m[x.id := |h|];
    forall id | id in m
      ensures id != x.id && m'[id] == m[id] && h'[m[id]] == h[m[id]]
    {
    }
  }

  /** `_pop` with at least two items: the last item moves to the root, before it is sifted down. */
  lemma PopKeeps(h: seq<HeapItem>, m: map<string, int>)
    requires Indexed(h, m) && Ordered(h) && |h| >= 2
    ensures var x := h[|h| - 1];
      var h', m' := h[..|h| - 1][0 := x.(index := 0)], (m - {h[0].id})[x.id := 0];
      && Indexed(h', m')
      && OrderedExceptDown(h', 0)
      && Sessions(h', m') == Sessions(h, m) - {h[0].id}
  {
    PopIndexed(h, m);
    PopSessions(h, m);
  }

  lemma PopIndexed(h: seq<HeapItem>, m: map<string, int>)
    requires Indexed(h, m) && |h| >= 2
    ensures var x := h[|h| - 1];
      Indexed(h[..|h| - 1][0 := x.(index := 0)], (m - {h[0].id})[x.id := 0])
  {
    var x := h[|h| - 1];
    var h', m' := h[..|h| - 1][0 := x.(index := 0)], (m - {h[0].id})[x.id := 0];
    IndexedSize(h, m);
    assert x.id != h[0].id;
    forall id | id in m'
      ensures 0 <= m'[id] < |h'| && h'[m'[id]].id == id
    {
      if id != x.id {
        assert m[id] != |h| - 1 && m[id] != 0;
      }
    }
    forall i | 0 <= i < |h'|
      ensures h'[i].index == i && h'[i].id in m' && m'[h'[i].id] == i
    {
      if i > 0 {
        assert h[i].id != h[0].id && h[i].id != x.id;
      }
    }
  }

  lemma PopSessions(h: seq<HeapItem>, m: map<string, int>)
    requires Indexed(h, m) && |h| >= 2
    ensures var x := h[|h| - 1];
      var h', m' := h[..|h| - 1][0 := x.(index := 0)], (m - {h[0].id})[x.id := 0];
      Indexed(h', m') && Sessions(h', m') == Sessions(h, m) - {h[0].id}
  {
    PopIndexed(h, m);
    var x := h[|h| - 1];
    var h', m' := h[..|h| - 1][0 := x.(index := 0)], (m - {h[0].id})[x.id := 0];
    assert x.id != h[0].id;
    forall id | id in m'
      ensures SessionOf(h'[m'[id]]) == SessionOf(h[m[id]])
    {
      if id != x.id {
        assert m[id] != |h| - 1 && m[id] != 0;
      }
    }
    assert m'.Keys == m.Keys - {h[0].id};
  }

  /** `_pop` with one item leaves nothing. */
  lemma PopLastKeeps(h: seq<HeapItem>, m: map<string, int>)
    requires Indexed(h, m) && |h| == 1
    ensures Indexed([], m - {h[0].id})
    ensures Sessions(h, m) - {h[0].id} == map[]
  {
    assert m.Keys == {h[0].id};
  }

  /** `_update_priority`'s assignment, before sifting: the heap breaks at most around the changed item. */
  lemma UpdateKeeps(h: seq<HeapItem>, m: map<string, int>, id: string, p: int)
    requires Indexed(h, m) && Ordered(h) && id in m
    ensures var k := m[id];
      var h' := h[k := h[k].(priority := p)];
      && Indexed(h', m)
      && Sessions(h', m) == Sessions(h, m)[id := Sessions(h, m)[id].(priority := p)]
      && (p < h[k].priority ==> OrderedExceptUp(h', k))
      && (p > h[k].priority ==> OrderedExceptDown(h', k))
      && (p == h[k].priority ==> h' == h)
  {
    UpdateSessions(h, m, id, p);
    UpdateOrder(h, m[id], p);
  }

  lemma UpdateSessions(h: seq<HeapItem>, m: map<string, int>, id: string, p: int)
    requires Indexed(h, m) && id in m
    ensures var k := m[id];
      var h' := h[k := h[k].(priority := p)];
      && Indexed(h', m)
      && Sessions(h', m) == Sessions(h, m)[id := Sessions(h, m)[id].(priority := p)]
  {
    var k := m[id];
    var h' := h[k := h[k].(priority := p)];
    forall j | j in m
      ensures SessionOf(h'[m[j]]) == if j == id then Sessions(h, m)[id].(priority := p) else SessionOf(h[m[j]])
    {
    }
  }

  lemma UpdateOrder(h: seq<HeapItem>, k: nat, p: int)
    requires Ordered(h) && k < |h|
    ensures var h' := h[k := h[k].(priority := p)];
      && (p < h[k].priority ==> OrderedExceptUp(h', k))
      && (p > h[k].priority ==> OrderedExceptDown(h', k))
      && (p == h[k].priority ==> h' == h)
  {
    if 0 < k {
      assert h[Parent(k)].priority <= h[k].priority;
    }
  }

  /** Recording a new client address for one session keeps the heap and changes only that session. */
  lemma SetIpKeeps(h: seq<HeapItem>, m: map<string, int>, id: string, ip: string)
    requires Indexed(h, m) && Ordered(h) && id in m
    ensures var k := m[id];
      var h' := h[k := h[k].(clientIp := ip)];
      && Indexed(h', m) && Ordered(h')
      && Sessions(h', m) == Sessions(h, m)[id := Sessions(h, m)[id].(clientIp := ip)]
  {
    var k := m[id];
    var h' := h[k := h[k].(clientIp := ip)];
    forall j | j in m
      ensures SessionOf(h'[m[j]]) == if j == id then Sessions(h, m)[id].(clientIp := ip) else SessionOf(h[m[j]])
    {
    }
  }
}
