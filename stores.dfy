/**
 * The per-session collections: id normalisation, the capacity-capped keyed
 * object store (`InMemoryModel`), the capacity-capped ordered pair store
 * (`InMemoryLinks`) and the five-store bundle of one session (`InMemoryStorage`).
 */
module Stores {
  import opened Wrappers
  import opened Strings
  import opened Seqs

  const MAX_ID_LEN: nat := 64
  const MAX_USERS_PER_SESSION: int := 60
  const MAX_ARTICLES_PER_SESSION: int := 20
  const MAX_COMMENTS_PER_SESSION: int := 20
  const MAX_FOLLOWS_PER_SESSION: int := 100
  const MAX_FAVORITES_PER_SESSION: int := 100

  /** The dynamic values an id argument can take: Python `int`, `str`, `bool`, or anything else. */
  datatype IdInput = IntId(i: int) | StrId(s: string) | BoolId(b: bool) | OtherId

  /** The `ValueError`s raised by this module. */
  datatype StoreError =
    | IdTooLong          // "id is too long"
    | IdWrongType        // "id must be an int or an str"
    | IdSpaceExhausted   // "cannot allocate id: we reached MAX_ID_LEN limit"
    | InvalidMaxCount    // "invalid value for max_count"

  /** `normalize_id`: an int becomes its decimal string; a string is kept; bools and other types are refused. */
  function NormalizeId(v: IdInput): (r: Result<string, StoreError>)
    ensures r.Ok? ==> |r.value| <= MAX_ID_LEN
    ensures r.Err? ==> r.error == IdTooLong || r.error == IdWrongType
    ensures (v.BoolId? || v.OtherId?) <==> r == Err(IdWrongType)
    ensures v.StrId? ==> (r.Ok? <==> |v.s| <= MAX_ID_LEN) && (r.Ok? ==> r.value == v.s)
  {
    match v
    case IntId(n) => if |IntToString(n)| > MAX_ID_LEN then Err(IdTooLong) else Ok(IntToString(n))
    case StrId(s) => if |s| > MAX_ID_LEN then Err(IdTooLong) else Ok(s)
    case _ => Err(IdWrongType)
  }

  /** An int id and its decimal string are the same id. */
  lemma NormalizeIdIntAsString(n: int)
    ensures NormalizeId(IntId(n)) == NormalizeId(StrId(IntToString(n)))
  {
  }

  /** Two int ids that normalise to the same string are the same int. */
  lemma NormalizeIdIntInjective(a: int, b: int)
    requires NormalizeId(IntId(a)).Ok? && NormalizeId(IntId(a)) == NormalizeId(IntId(b))
    ensures a == b
  {
    IntToStringInjective(a, b);
  }

  /** A user, article or comment: a mutable Python dict of string fields. */
  class Record {
    var fields: map<string, string>

    constructor (fields: map<string, string>)
      ensures this.fields == fields
    {
      this.fields := fields;
    }
  }

  /** `k` reads as a counter value handed out before `counter`. */
  ghost predicate Issued(k: string, counter: nat) {
    1 <= ParseNat(k) < counter
  }

  /** The invariant of an object store, over its field values. */
  ghost predicate StoreInv(maxCount: int, objects: map<string, Record>, order: seq<string>, counter: nat) {
    && maxCount > 0
    && counter >= 1
    && |objects| <= maxCount
    && NoDup(order)
    && (forall k :: k in objects <==> k in order)
    && (forall k :: k in objects ==> Issued(k, counter))
  }

  /** The access-order list enumerates the keys once each, so the two have the same size. */
  lemma SizeMatches(objects: map<string, Record>, order: seq<string>)
    requires NoDup(order) && forall k :: k in objects <==> k in order
    ensures |objects| == |order|
  {
    NoDupCard(order);
    assert objects.Keys == set x | x in order;
  }

  /** The next counter value has never been handed out, so its rendering is not a key. */
  lemma NextIdIsFresh(maxCount: int, objects: map<string, Record>, order: seq<string>, counter: nat)
    requires StoreInv(maxCount, objects, order, counter)
    ensures NatToString(counter) !in objects
  {
    ParseNatToString(counter);
  }

  /** Every key of the store, and the id about to be handed out, counts as issued once the counter moves on. */
  lemma IssuedAfterIncrement(objects: map<string, Record>, counter: nat)
    requires counter >= 1
    requires forall k :: k in objects ==> Issued(k, counter)
    ensures forall k :: k in objects ==> Issued(k, counter + 1)
    ensures Issued(NatToString(counter), counter + 1)
  {
    ParseNatToString(counter);
  }

  /** Inserting under the next id below capacity keeps the invariant. */
  lemma AppendKeepsInv(maxCount: int, objects: map<string, Record>, order: seq<string>, counter: nat, obj: Record)
    requires StoreInv(maxCount, objects, order, counter) && |objects| < maxCount
    ensures StoreInv(maxCount, objects[NatToString(counter) := obj], order + [NatToString(counter)], counter + 1)
  {
    var id := NatToString(counter);
    NextIdIsFresh(maxCount, objects, order, counter);
    IssuedAfterIncrement(objects, counter);
    NoDupAppend(order, id);
    SizeMatches(objects[id := obj], order + [id]);
  }

  /** Dropping the front of the access order and appending a fresh id keeps it an enumeration of the keys, of unchanged size. */
  lemma DropFrontKeys(objects: map<string, Record>, order: seq<string>, id: string, obj: Record)
    requires NoDup(order) && id !in objects
    requires forall k :: k in objects <==> k in order
    requires |objects| > 0
    ensures order != []
    ensures NoDup(order[1..] + [id])
    ensures forall k :: k in objects[id := obj] - {order[0]} <==> k in order[1..] + [id]
    ensures forall k :: k in objects[id := obj] - {order[0]} ==> k in objects || k == id
    ensures |objects[id := obj] - {order[0]}| == |objects|
  {
    SizeMatches(objects, order);
    NoDupSlice(order, 1, |order|);
    NoDupAppend(order[1..], id);
    assert order == [order[0]] + order[1..];
    SizeMatches(objects[id := obj] - {order[0]}, order[1..] + [id]);
  }

  /** Inserting under the next id at capacity, then evicting the front of the access order, keeps the invariant. */
  lemma EvictKeepsInv(maxCount: int, objects: map<string, Record>, order: seq<string>, counter: nat, obj: Record)
    requires StoreInv(maxCount, objects, order, counter) && |objects| >= maxCount
    ensures order != []
    ensures StoreInv(maxCount, objects[NatToString(counter) := obj] - {order[0]}, order[1..] + [NatToString(counter)], counter + 1)
  {
    var id := NatToString(counter);
    NextIdIsFresh(maxCount, objects, order, counter);
    IssuedAfterIncrement(objects, counter);
    DropFrontKeys(objects, order, id, obj);
    IssuedWithin(objects[id := obj] - {order[0]}, objects, id, counter + 1);
  }

  /** A map whose keys are old keys or the new id has only issued keys. */
  lemma IssuedWithin(o: map<string, Record>, objects: map<string, Record>, id: string, counter: nat)
    requires forall k :: k in objects ==> Issued(k, counter)
    requires Issued(id, counter)
    requires forall k :: k in o ==> k in objects || k == id
    ensures forall k :: k in o ==> Issued(k, counter)
  {
  }

  /** Removing a key from both structures keeps the invariant. */
  lemma RemoveKeepsInv(maxCount: int, objects: map<string, Record>, order: seq<string>, counter: nat, id: string)
    requires StoreInv(maxCount, objects, order, counter)
    ensures StoreInv(maxCount, objects - {id}, RemoveAll(order, id), counter)
  {
    RemoveAllNoDup(order, id);
    SizeMatches(objects - {id}, RemoveAll(order, id));
  }

  /** `InMemoryModel`: objects keyed by auto-increment ids, evicting the least recently used. */
  class ObjectStore {
    const maxCount: int
    var objects: map<string, Record>
    var lastAccessedIds: seq<string>
    var currentIdCounter: nat

    ghost predicate Valid()
      reads this
    {
      StoreInv(maxCount, objects, lastAccessedIds, currentIdCounter)
    }

    constructor (maxCount: int)
      requires maxCount > 0
      ensures Valid()
      ensures this.maxCount == maxCount && objects == map[] && lastAccessedIds == [] && currentIdCounter == 1
    {
      this.maxCount := maxCount;
      objects := map[];
      lastAccessedIds := [];
      currentIdCounter := 1;
    }

    /**
     * `add`: stores `obj` under the next counter value, writes that id into
     * `obj["id"]`, and evicts the front of the access order when the store
     * grows past `maxCount`.
     */
    method Add(obj: Record) returns (r: Result<Record, StoreError>)
      requires Valid()
      modifies this, obj
      ensures Valid()
      ensures var id := old(NatToString(currentIdCounter));
        if |id| > MAX_ID_LEN then
          r == Err(IdSpaceExhausted) && unchanged(this) && unchanged(obj)
        else
          && r == Ok(obj)
          && id !in old(objects)
          && obj.fields == old(obj.fields)["id" := id]
          && currentIdCounter == old(currentIdCounter) + 1
          && if old(|objects|) < maxCount then
               objects == old(objects)[id := obj] && lastAccessedIds == old(lastAccessedIds) + [id]
             else
               && old(lastAccessedIds) != []
               && objects == old(objects)[id := obj] - {old(lastAccessedIds)[0]}
               && lastAccessedIds == old(lastAccessedIds)[1..] + [id]
    {
      var id := NatToString(currentIdCounter);
      if |id| > MAX_ID_LEN {
        return Err(IdSpaceExhausted);
      }
      NextIdIsFresh(maxCount, objects, lastAccessedIds, currentIdCounter);
      obj.fields := obj.fields["id" := id];
      // The fresh id makes the store grow by one, so it overflows exactly when it was full.
      if |objects| < maxCount {
        AppendKeepsInv(maxCount, objects, lastAccessedIds, currentIdCounter, obj);
        objects, lastAccessedIds := objects[id := obj], lastAccessedIds + [id];
      } else {
        EvictKeepsInv(maxCount, objects, lastAccessedIds, currentIdCounter, obj);
        objects, lastAccessedIds := objects[id := obj] - {lastAccessedIds[0]}, lastAccessedIds[1..] + [id];
      }
      currentIdCounter := currentIdCounter + 1;
      r := Ok(obj);
    }

    /** `get`: a hit returns the stored object itself and marks it most recently used; a miss changes nothing. */
    method Get(raw: IdInput) returns (r: Result<Option<Record>, StoreError>)
      requires Valid()
      modifies this
      ensures Valid()
      ensures objects == old(objects) && currentIdCounter == old(currentIdCounter)
      ensures NormalizeId(raw).Err? ==> r == Err(NormalizeId(raw).error) && lastAccessedIds == old(lastAccessedIds)
      ensures NormalizeId(raw).Ok? ==>
        var id := NormalizeId(raw).value;
        if id in objects then
          r == Ok(Some(objects[id])) && lastAccessedIds == RemoveAll(old(lastAccessedIds), id) + [id]
        else
          r == Ok(None) && lastAccessedIds == old(lastAccessedIds)
    {
      var n := NormalizeId(raw);
      if n.Err? {
        return Err(n.error);
      }
      var id := n.value;
      if id !in objects {
        return Ok(None);
      }
      RemoveAllNoDup(lastAccessedIds, id);
      NoDupAppend(RemoveAll(lastAccessedIds, id), id);
      lastAccessedIds := RemoveAll(lastAccessedIds, id) + [id];
      r := Ok(Some(objects[id]));
    }

    /** `delete`: removes the id from both structures and reports whether it was present. */
    method Delete(raw: IdInput) returns (r: Result<bool, StoreError>)
      requires Valid()
      modifies this
      ensures Valid()
      ensures NormalizeId(raw).Err? ==> r == Err(NormalizeId(raw).error) && unchanged(this)
      ensures NormalizeId(raw).Ok? ==>
        var id := NormalizeId(raw).value;
        if id in old(objects) then
          && r == Ok(true)
          && objects == old(objects) - {id}
          && lastAccessedIds == RemoveAll(old(lastAccessedIds), id)
          && currentIdCounter == old(currentIdCounter)
        else
          r == Ok(false) && unchanged(this)
    {
      var n := NormalizeId(raw);
      if n.Err? {
        return Err(n.error);
      }
      var id := n.value;
      if id !in objects {
        return Ok(false);
      }
      RemoveKeepsInv(maxCount, objects, lastAccessedIds, currentIdCounter, id);
      objects, lastAccessedIds := objects - {id}, RemoveAll(lastAccessedIds, id);
      r := Ok(true);
    }
  }

  /** `InMemoryModel(max_count)`: refuses a non-positive capacity. */
  method NewObjectStore(maxCount: int) returns (r: Result<ObjectStore, StoreError>)
    ensures (maxCount <= 0) <==> r.Err?
    ensures r.Err? ==> r.error == InvalidMaxCount
    ensures r.Ok? ==>
      && fresh(r.value) && r.value.Valid() && r.value.maxCount == maxCount
      && r.value.objects == map[] && r.value.lastAccessedIds == [] && r.value.currentIdCounter == 1
  {
    if maxCount <= 0 {
      return Err(InvalidMaxCount);
    }
    var store := new ObjectStore(maxCount);
    r := Ok(store);
  }

  /** A (source, target) pair of ids: a follow or a favorite. */
  datatype Link = Link(source: string, target: string)

  /**
   * How many links a store built with `maxCount` can hold: a zero capacity
   * ignores every addition, and a negative one keeps replacing its only link.
   */
  function LinkCapacity(maxCount: int): nat {
    if maxCount < 0 then 1 else maxCount
  }

  /** The targets of the links leaving `source`, in link order. */
  function Targets(links: seq<Link>, source: string): (r: seq<string>)
    ensures forall t :: t in r <==> Link(source, t) in links
    ensures |r| <= |links|
  {
    if links == [] then []
    else (if links[0].source == source then [links[0].target] else []) + Targets(links[1..], source)
  }

  /** The sources of the links reaching `target`, in link order. */
  function Sources(links: seq<Link>, target: string): (r: seq<string>)
    ensures forall s :: s in r <==> Link(s, target) in links
    ensures |r| <= |links|
  {
    if links == [] then []
    else (if links[0].target == target then [links[0].source] else []) + Sources(links[1..], target)
  }

  /** Targets keep link order: the targets of two runs of links are those of the first, then those of the second. */
  lemma {:induction false} TargetsAppend(a: seq<Link>, b: seq<Link>, source: string)
    ensures Targets(a + b, source) == Targets(a, source) + Targets(b, source)
  {
    if a != [] {
      TargetsAppend(a[1..], b, source);
      assert (a + b)[0] == a[0] && (a + b)[1..] == a[1..] + b;
    } else {
      assert a + b == b;
    }
  }

  /** Sources keep link order, as targets do. */
  lemma {:induction false} SourcesAppend(a: seq<Link>, b: seq<Link>, target: string)
    ensures Sources(a + b, target) == Sources(a, target) + Sources(b, target)
  {
    if a != [] {
      SourcesAppend(a[1..], b, target);
      assert (a + b)[0] == a[0] && (a + b)[1..] == a[1..] + b;
    } else {
      assert a + b == b;
    }
  }

  /** A link added last puts its target last among its source's targets, and its source last among its target's sources. */
  lemma AddedLinkLast(links: seq<Link>, source: string, target: string)
    ensures Targets(links + [Link(source, target)], source) == Targets(links, source) + [target]
    ensures Sources(links + [Link(source, target)], target) == Sources(links, target) + [source]
  {
    TargetsAppend(links, [Link(source, target)], source);
    SourcesAppend(links, [Link(source, target)], target);
  }

  /** The links whose source is not `source`, in link order. */
  function WithoutSource(links: seq<Link>, source: string): (r: seq<Link>)
    ensures forall l :: l in r <==> l in links && l.source != source
    ensures |r| <= |links|
  {
    if links == [] then []
    else (if links[0].source != source then [links[0]] else []) + WithoutSource(links[1..], source)
  }

  /** The links whose target is not `target`, in link order. */
  function WithoutTarget(links: seq<Link>, target: string): (r: seq<Link>)
    ensures forall l :: l in r <==> l in links && l.target != target
    ensures |r| <= |links|
  {
    if links == [] then []
    else (if links[0].target != target then [links[0]] else []) + WithoutTarget(links[1..], target)
  }

  /** Dropping the links of a source keeps the links distinct. */
  lemma {:induction false} WithoutSourceNoDup(links: seq<Link>, source: string)
    requires NoDup(links)
    ensures NoDup(WithoutSource(links, source))
  {
    if links != [] {
      NoDupSlice(links, 1, |links|);
      WithoutSourceNoDup(links[1..], source);
      if links[0].source != source {
        assert links[0] !in links[1..];
        NoDupCons(links[0], WithoutSource(links[1..], source));
      }
    }
  }

  /** Dropping the links to a target keeps the links distinct. */
  lemma {:induction false} WithoutTargetNoDup(links: seq<Link>, target: string)
    requires NoDup(links)
    ensures NoDup(WithoutTarget(links, target))
  {
    if links != [] {
      NoDupSlice(links, 1, |links|);
      WithoutTargetNoDup(links[1..], target);
      if links[0].target != target {
        assert links[0] !in links[1..];
        NoDupCons(links[0], WithoutTarget(links[1..], target));
      }
    }
  }

  /** `InMemoryLinks`: an ordered list of distinct links that drops its oldest link when full. */
  class LinkStore {
    const maxCount: int
    var links: seq<Link>

    ghost predicate Valid()
      reads this
    {
      NoDup(links) && |links| <= LinkCapacity(maxCount)
    }

    constructor (maxCount: int)
      ensures Valid()
      ensures this.maxCount == maxCount && links == []
    {
      this.maxCount := maxCount;
      links := [];
    }

    /**
     * `add`: normalises the source, then the target; a link already present
     * moves to the end, a new one is appended, dropping the oldest link when
     * the list is full; a zero capacity ignores the call.
     */
    method Add(source: IdInput, target: IdInput) returns (r: Result<(), StoreError>)
      requires Valid()
      modifies this
      ensures Valid()
      ensures NormalizeId(source).Err? ==> r == Err(NormalizeId(source).error) && unchanged(this)
      ensures NormalizeId(source).Ok? && NormalizeId(target).Err? ==>
        r == Err(NormalizeId(target).error) && unchanged(this)
      ensures NormalizeId(source).Ok? && NormalizeId(target).Ok? ==>
        var l := Link(NormalizeId(source).value, NormalizeId(target).value);
        && r == Ok(())
        && if maxCount == 0 then
             links == old(links)
           else if l in old(links) then
             links == RemoveAll(old(links), l) + [l]
           else if |old(links)| >= maxCount then
             links == Rest(old(links)) + [l]
           else
             links == old(links) + [l]
    {
      var s := NormalizeId(source);
      if s.Err? {
        return Err(s.error);
      }
      var t := NormalizeId(target);
      if t.Err? {
        return Err(t.error);
      }
      r := Ok(());
      if maxCount == 0 {
        return;
      }
      var l := Link(s.value, t.value);
      var i := Find(links, l);
      if i < |links| {
        CutIsRemoveAll(links, i);
        RemoveAllNoDup(links, l);
        RemoveAllPresentLength(links, l);
        NoDupAppend(RemoveAll(links, l), l);
        links := links[..i] + links[i + 1..] + [l];
      } else if |links| >= maxCount {
        if links != [] {
          NoDupSlice(links, 1, |links|);
        }
        links := Rest(links) + [l];
      } else {
        NoDupAppend(links, l);
        links := links + [l];
      }
    }

    /** `remove`: normalises both ids and drops the link when present. */
    method Remove(source: IdInput, target: IdInput) returns (r: Result<(), StoreError>)
      requires Valid()
      modifies this
      ensures Valid()
      ensures NormalizeId(source).Err? ==> r == Err(NormalizeId(source).error) && unchanged(this)
      ensures NormalizeId(source).Ok? && NormalizeId(target).Err? ==>
        r == Err(NormalizeId(target).error) && unchanged(this)
      ensures NormalizeId(source).Ok? && NormalizeId(target).Ok? ==>
        var l := Link(NormalizeId(source).value, NormalizeId(target).value);
        r == Ok(()) && links == RemoveAll(old(links), l)
    {
      var s := NormalizeId(source);
      if s.Err? {
        return Err(s.error);
      }
      var t := NormalizeId(target);
      if t.Err? {
        return Err(t.error);
      }
      r := Ok(());
      var l := Link(s.value, t.value);
      var i := Find(links, l);
      RemoveAllNoDup(links, l);
      if i < |links| {
        CutIsRemoveAll(links, i);
        RemoveAllPresentLength(links, l);
        links := links[..i] + links[i + 1..];
      } else {
        RemoveAllAbsent(links, l);
      }
    }

    /** `is_linked`: normalises both ids and tests membership. */
    function IsLinked(source: IdInput, target: IdInput): (r: Result<bool, StoreError>)
      reads this
      ensures NormalizeId(source).Err? ==> r == Err(NormalizeId(source).error)
      ensures NormalizeId(source).Ok? && NormalizeId(target).Err? ==> r == Err(NormalizeId(target).error)
      ensures NormalizeId(source).Ok? && NormalizeId(target).Ok? ==>
        r == Ok(Link(NormalizeId(source).value, NormalizeId(target).value) in links)
    {
      match NormalizeId(source)
      case Err(e) => Err(e)
      case Ok(s) =>
        match NormalizeId(target)
        case Err(e) => Err(e)
        case Ok(t) => Ok(Link(s, t) in links)
    }

    /**
     * `targets_for_source`: the targets linked from a source, in link order.
     * The id is normalised once per link, so an empty store accepts any id.
     */
    function TargetsForSource(wanted: IdInput): (r: Result<seq<string>, StoreError>)
      reads this
      ensures links == [] ==> r == Ok([])
      ensures links != [] && NormalizeId(wanted).Err? ==> r == Err(NormalizeId(wanted).error)
      ensures NormalizeId(wanted).Ok? ==> r.Ok? && forall t :: t in r.value <==> Link(NormalizeId(wanted).value, t) in links
    {
      if links == [] then Ok([])
      else
        match NormalizeId(wanted)
        case Err(e) => Err(e)
        case Ok(s) => Ok(Targets(links, s))
    }

    /** `sources_for_target`: the sources linked to a target, in link order; errors only on a non-empty store. */
    function SourcesForTarget(wanted: IdInput): (r: Result<seq<string>, StoreError>)
      reads this
      ensures links == [] ==> r == Ok([])
      ensures links != [] && NormalizeId(wanted).Err? ==> r == Err(NormalizeId(wanted).error)
      ensures NormalizeId(wanted).Ok? ==> r.Ok? && forall s :: s in r.value <==> Link(s, NormalizeId(wanted).value) in links
    {
      if links == [] then Ok([])
      else
        match NormalizeId(wanted)
        case Err(e) => Err(e)
        case Ok(t) => Ok(Sources(links, t))
    }

    /** `delete_source`: drops every link leaving the source; errors only on a non-empty store. */
    method DeleteSource(wanted: IdInput) returns (r: Result<(), StoreError>)
      requires Valid()
      modifies this
      ensures Valid()
      ensures old(links) == [] ==> r == Ok(()) && unchanged(this)
      ensures old(links) != [] && NormalizeId(wanted).Err? ==> r == Err(NormalizeId(wanted).error) && unchanged(this)
      ensures old(links) != [] && NormalizeId(wanted).Ok? ==>
        r == Ok(()) && links == WithoutSource(old(links), NormalizeId(wanted).value)
    {
      if links == [] {
        return Ok(());
      }
      var n := NormalizeId(wanted);
      if n.Err? {
        return Err(n.error);
      }
      WithoutSourceNoDup(links, n.value);
      links := WithoutSource(links, n.value);
      r := Ok(());
    }

    /** `delete_target`: drops every link reaching the target; errors only on a non-empty store. */
    method DeleteTarget(wanted: IdInput) returns (r: Result<(), StoreError>)
      requires Valid()
      modifies this
      ensures Valid()
      ensures old(links) == [] ==> r == Ok(()) && unchanged(this)
      ensures old(links) != [] && NormalizeId(wanted).Err? ==> r == Err(NormalizeId(wanted).error) && unchanged(this)
      ensures old(links) != [] && NormalizeId(wanted).Ok? ==>
        r == Ok(()) && links == WithoutTarget(old(links), NormalizeId(wanted).value)
    {
      if links == [] {
        return Ok(());
      }
      var n := NormalizeId(wanted);
      if n.Err? {
        return Err(n.error);
      }
      WithoutTargetNoDup(links, n.value);
      links := WithoutTarget(links, n.value);
      r := Ok(());
    }
  }

  /** `InMemoryStorage`: the five stores of one session. */
  class Storage {
    const users: ObjectStore
    const articles: ObjectStore
    const comments: ObjectStore
    const follows: LinkStore
    const favorites: LinkStore

    ghost predicate Valid()
      reads this, users, articles, comments, follows, favorites
    {
      && users != articles && users != comments && articles != comments && follows != favorites
      && users.Valid() && articles.Valid() && comments.Valid() && follows.Valid() && favorites.Valid()
    }

    constructor ()
      ensures Valid()
      ensures fresh(users) && fresh(articles) && fresh(comments) && fresh(follows) && fresh(favorites)
      ensures users.maxCount == MAX_USERS_PER_SESSION && users.objects == map[]
      ensures articles.maxCount == MAX_ARTICLES_PER_SESSION && articles.objects == map[]
      ensures comments.maxCount == MAX_COMMENTS_PER_SESSION && comments.objects == map[]
      ensures follows.maxCount == MAX_FOLLOWS_PER_SESSION && follows.links == []
      ensures favorites.maxCount == MAX_FAVORITES_PER_SESSION && favorites.links == []
    {
      users := new ObjectStore(MAX_USERS_PER_SESSION);
      articles := new ObjectStore(MAX_ARTICLES_PER_SESSION);
      comments := new ObjectStore(MAX_COMMENTS_PER_SESSION);
      follows := new LinkStore(MAX_FOLLOWS_PER_SESSION);
      favorites := new LinkStore(MAX_FAVORITES_PER_SESSION);
    }
  }
}
