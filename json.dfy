/**
 * The JSON-like values the comparison tool reads from a loaded OpenAPI
 * document. A Python dict is an association list in insertion order; `null`
 * stands for Python's `None`.
 */
module Json {
  import opened Wrappers
  import opened Strings
  import opened Seqs

  datatype Json =
    | JNull
    | JBool(b: bool)
    | JInt(i: int)
    | JStr(s: string)
    | JArr(items: seq<Json>)
    | JObj(entries: seq<(string, Json)>)

  /** Python truthiness: `None`, `False`, `0` and empty strings, lists and dicts are false. */
  predicate Truthy(j: Json) {
    match j
    case JNull => false
    case JBool(b) => b
    case JInt(i) => i != 0
    case JStr(s) => s != ""
    case JArr(a) => a != []
    case JObj(e) => e != []
  }

  /** The keys of an association list, in order. */
  function Keys<K, V>(d: seq<(K, V)>): (ks: seq<K>)
    ensures |ks| == |d|
  {
    if d == [] then [] else [d[0].0] + Keys(d[1..])
  }

  /** The key at each position is the key of the entry there. */
  lemma {:induction false} KeysIndex<K, V>(d: seq<(K, V)>)
    ensures forall i :: 0 <= i < |d| ==> Keys(d)[i] == d[i].0
  {
    if d != [] {
      KeysIndex(d[1..]);
      assert forall i :: 0 < i < |d| ==> Keys(d)[i] == Keys(d[1..])[i - 1];
    }
  }

  /** The keys of a list with one more entry end with that entry's key. */
  lemma {:induction false} KeysLast<K, V>(d: seq<(K, V)>)
    requires d != []
    ensures Keys(d) == Keys(d[..|d| - 1]) + [d[|d| - 1].0]
  {
    if |d| > 1 {
      var n := |d| - 1;
      KeysLast(d[1..]);
      assert d[1..][..n - 1] == d[..n][1..];
      assert Keys(d[..n]) == [d[0].0] + Keys(d[..n][1..]);
    }
  }

  /** `d.get(k)`: the value of the first entry under `k`. */
  function Lookup<K(==), V>(d: seq<(K, V)>, k: K): (r: Option<V>)
  {
    if d == [] then None else if d[0].0 == k then Some(d[0].1) else Lookup(d[1..], k)
  }

  /** A key reads a value exactly when it is listed, and the value read is listed under it. */
  lemma {:induction false} LookupKeys<K, V>(d: seq<(K, V)>, k: K)
    ensures Lookup(d, k).Some? <==> k in Keys(d)
    ensures Lookup(d, k).Some? ==> (k, Lookup(d, k).value) in d
  {
    if d != [] {
      LookupKeys(d[1..], k);
      assert Keys(d) == [d[0].0] + Keys(d[1..]);
    }
  }

  /** Entries under other keys in front of the sought key do not change what it reads. */
  lemma {:induction false} LookupSkip<K, V>(d: seq<(K, V)>, n: nat, k: K)
    requires n <= |d|
    requires forall i :: 0 <= i < n ==> d[i].0 != k
    ensures Lookup(d, k) == Lookup(d[n..], k)
  {
    if n > 0 {
      LookupSkip(d[1..], n - 1, k);
      assert d[1..][n - 1..] == d[n..];
    }
  }

  /** `d[k] = v`: replaces the value in place when `k` is a key, appends the entry otherwise. */
  function Put<K(==), V>(d: seq<(K, V)>, k: K, v: V): seq<(K, V)> {
    if d == [] then [(k, v)]
    else if d[0].0 == k then [(k, v)] + d[1..]
    else [d[0]] + Put(d[1..], k, v)
  }

  /** Assigning keeps the keys and their order, appending `k` when it is new. */
  lemma {:induction false} PutKeys<K, V>(d: seq<(K, V)>, k: K, v: V)
    ensures Keys(Put(d, k, v)) == if k in Keys(d) then Keys(d) else Keys(d) + [k]
  {
    if d != [] {
      assert Keys(d) == [d[0].0] + Keys(d[1..]);
      if d[0].0 != k {
        PutKeys(d[1..], k, v);
        var r := Put(d, k, v);
        assert r[1..] == Put(d[1..], k, v);
        assert Keys(r) == [d[0].0] + Keys(Put(d[1..], k, v));
      } else {
        assert Put(d, k, v)[1..] == d[1..];
      }
    }
  }

  /** After `d[k] = v`, `k` reads `v` and every other key reads what it read before. */
  lemma {:induction false} PutLookup<K, V>(d: seq<(K, V)>, k: K, v: V, k': K)
    ensures Lookup(Put(d, k, v), k') == if k' == k then Some(v) else Lookup(d, k')
  {
    if d != [] && d[0].0 != k {
      PutLookup(d[1..], k, v, k');
      assert Put(d, k, v)[1..] == Put(d[1..], k, v);
    }
  }

  /** A dict built by assignments never lists a key twice. */
  lemma PutUnique<K, V>(d: seq<(K, V)>, k: K, v: V)
    requires NoDup(Keys(d))
    ensures NoDup(Keys(Put(d, k, v)))
  {
    PutKeys(d, k, v);
    if k !in Keys(d) {
      NoDupAppend(Keys(d), k);
    }
  }

  /** Every entry after an assignment was there before or is the assigned one. */
  lemma {:induction false} PutMember<K, V>(d: seq<(K, V)>, k: K, v: V, e: (K, V))
    ensures e in Put(d, k, v) ==> e in d || e == (k, v)
  {
    if d != [] && d[0].0 != k {
      PutMember(d[1..], k, v, e);
    }
  }

  /** In a list without repeated keys, each entry's key reads that entry's value. */
  lemma {:induction false} LookupAt<K, V>(d: seq<(K, V)>, i: nat)
    requires i < |d| && NoDup(Keys(d))
    ensures Lookup(d, d[i].0) == Some(d[i].1)
  {
    KeysIndex(d);
    LookupSkip(d, i, d[i].0);
  }

  /** Appending an entry only matters to a key not already listed. */
  lemma {:induction false} LookupAppend<K, V>(d: seq<(K, V)>, e: (K, V), k: K)
    ensures Lookup(d + [e], k) == if Lookup(d, k).Some? then Lookup(d, k) else if e.0 == k then Some(e.1) else None
  {
    if d != [] {
      assert (d + [e])[1..] == d[1..] + [e];
      LookupAppend(d[1..], e, k);
    }
  }

  /** `obj.get(key)` on a dict; nothing for a missing key or a value that is not a dict. */
  function Get(j: Json, key: string): Option<Json> {
    if j.JObj? then Lookup(j.entries, key) else None
  }

  /** `obj.get(key, default)`. */
  function GetOr(j: Json, key: string, default: Json): Json {
    match Get(j, key)
    case Some(v) => v
    case None => default
  }

  /** Iterating a value as a dict: its entries, or none when it is not a dict. */
  function Entries(j: Json): seq<(string, Json)> {
    if j.JObj? then j.entries else []
  }

  /** Iterating a value as a list: its items, or none when it is not a list. */
  function Items(j: Json): seq<Json> {
    if j.JArr? then j.items else []
  }

  /** `str(j)` for the scalar values an f-string meets in a report message. */
  function Show(j: Json): string {
    match j
    case JNull => "None"
    case JBool(b) => if b then "True" else "False"
    case JInt(i) => IntToString(i)
    case JStr(s) => s
    case JArr(_) => "[...]"
    case JObj(_) => "{...}"
  }
}
