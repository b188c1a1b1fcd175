/**
 * `_StorageContainer`: the sessions of the server, kept in an indexed
 * min-heap ordered by last access time, with a per-address session quota
 * and a bounded table from login tokens to sessions.
 */
module Container {
  import opened Wrappers
  import opened Seqs
  import opened Stores
  import opened Addresses
  import opened SessionHeap

  const MAX_SESSIONS: int := 3000
  const MAX_SESSIONS_PER_IP: int := 30

  /** The exceptions the container lets escape. */
  datatype ContainerError =
    | SessionNotFound(id: string)  // `_update_priority`'s ValueError for an id not in the heap
    | SessionLost(id: string)      // `get_storage` indexing the heap with a missing position
    | NoOldestToken                // `bind_jwt_to_session_id` reading the head of an empty order list

  /** Every address bucket is a normalised key with at least one session. */
  ghost predicate IpInv(ips: map<string, seq<string>>) {
    forall k :: k in ips ==> ips[k] != [] && NormalizeIp(k) == k
  }

  /** Every token in the order list is bound. */
  ghost predicate JwtInv(bindings: map<string, string>, order: seq<string>) {
    forall t :: t in order ==> t in bindings
  }

  /** No live session has priority 0 or below, so a forced priority of 0 is a strict minimum. */
  ghost predicate Positive(s: map<string, Session>) {
    forall id :: id in s ==> s[id].priority > 0
  }

  /** How many of the oldest sessions a bucket must lose to fit the per-address quota. */
  function Excess(l: seq<string>): (n: nat)
    ensures n <= |l| && |l| - n <= MAX_SESSIONS_PER_IP
    ensures |l| <= MAX_SESSIONS_PER_IP ==> n == 0
    ensures |l| > MAX_SESSIONS_PER_IP ==> |l| - n == MAX_SESSIONS_PER_IP
  {
    if |l| > MAX_SESSIONS_PER_IP then |l| - MAX_SESSIONS_PER_IP else 0
  }

  /** The sessions a bucket keeps after the eviction loop: its newest `MAX_SESSIONS_PER_IP`. */
  function Kept(l: seq<string>): (r: seq<string>)
    ensures |r| <= MAX_SESSIONS_PER_IP
    ensures Dropped(l) + r == l
    ensures l != [] ==> r != [] && r[|r| - 1] == l[|l| - 1]
    ensures |l| <= MAX_SESSIONS_PER_IP ==> r == l
  {
    l[Excess(l)..]
  }

  /** The sessions the eviction loop removes from a bucket: its oldest ones, in order. */
  function Dropped(l: seq<string>): seq<string> {
    l[..Excess(l)]
  }

  function ToSet(s: seq<string>): set<string> {
    set x | x in s
  }

  /** A bucket's list, or the empty list (`dict.get(key, [])`). */
  function Bucket(ips: map<string, seq<string>>, key: string): seq<string> {
    if key in ips then ips[key] else []
  }

  /**
   * Removes a session from one bucket and drops the bucket when it becomes
   * empty; the other buckets stay as they are.
   */
  function Detach(ips: map<string, seq<string>>, key: string, id: string): (r: map<string, seq<string>>)
    ensures IpInv(ips) ==> IpInv(r)
    ensures forall k :: k != key ==> (k in r <==> k in ips)
    ensures forall k :: k != key && k in ips ==> r[k] == ips[k]
    ensures key in r ==> key in ips && id !in r[key] && r[key] == RemoveAll(ips[key], id)
    ensures key in ips && RemoveAll(ips[key], id) != [] ==> key in r
    ensures key in ips && key !in r ==> forall x :: x in ips[key] ==> x == id
  {
    if key !in ips then ips
    else if RemoveAll(ips[key], id) == [] then ips - {key}
    else ips[key := RemoveAll(ips[key], id)]
  }

  /** Moves (or adds) a session to the end of one bucket. */
  function Attach(ips: map<string, seq<string>>, key: string, id: string): map<string, seq<string>> {
    ips[key := RemoveAll(Bucket(ips, key), id) + [id]]
  }

  /** Attaching puts the session last, exactly once, in a bucket that keeps every other session in order. */
  lemma AttachKeeps(ips: map<string, seq<string>>, key: string, id: string)
    requires IpInv(ips) && NormalizeIp(key) == key
    ensures IpInv(Attach(ips, key, id))
    ensures forall k :: k != key ==> (k in Attach(ips, key, id) <==> k in ips)
    ensures forall k :: k != key && k in ips ==> Attach(ips, key, id)[k] == ips[k]
    ensures var l := Attach(ips, key, id)[key];
      l[|l| - 1] == id && id !in l[..|l| - 1] && l[..|l| - 1] == RemoveAll(Bucket(ips, key), id)
    ensures NoDup(Bucket(ips, key)) ==> NoDup(Attach(ips, key, id)[key])
  {
    var rest := RemoveAll(Bucket(ips, key), id);
    assert (rest + [id])[..|rest|] == rest;
    if NoDup(Bucket(ips, key)) {
      RemoveAllNoDup(Bucket(ips, key), id);
      NoDupAppend(rest, id);
    }
  }

  /** Reattribution's buckets: the session leaves the bucket `saved` (if that is a key) and goes last in `key`. */
  function Rebucket(ips: map<string, seq<string>>, saved: string, key: string, id: string): map<string, seq<string>> {
    Attach(Detached(ips, saved, id), key, id)
  }

  /** A session already in its bucket keeps the bucket's size when it moves to the end. */
  lemma {:induction false} AttachPresentMoves(ips: map<string, seq<string>>, key: string, id: string)
    requires key in ips && id in ips[key] && NoDup(ips[key])
    ensures |Attach(ips, key, id)[key]| == |ips[key]|
    ensures ToSet(Attach(ips, key, id)[key]) == ToSet(ips[key])
  {
    RemoveAllPresentLength(ips[key], id);
  }

  /** The conditions under which forced evictions remove exactly the oldest sessions of a bucket. */
  ghost predicate Evictable(live: map<string, Session>, l: seq<string>) {
    Positive(live) && NoDup(l) && forall x :: x in Dropped(l) ==> x in live
  }

  /** One more step of the eviction loop drops one more, not yet dropped, head of the bucket. */
  lemma DroppedStep(l: seq<string>, d: nat)
    requires NoDup(l) && d < |l|
    ensures l[..d + 1] == l[..d] + [l[d]]
    ensures l[d] !in l[..d]
    ensures ToSet(l[..d + 1]) == ToSet(l[..d]) + {l[d]}
  {
    assert l[..d + 1] == l[..d] + [l[d]];
  }

  /**
   * With positive priorities, forcing one session to priority 0 makes it the
   * only minimum, so the pop that follows removes that session.
   */
  lemma ForcedPopIsVictim(before: map<string, Session>, victim: string, popped: string)
    requires Positive(before) && victim in before
    requires var forced := before[victim := before[victim].(priority := 0)];
      popped in forced && forall id :: id in forced ==> forced[popped].priority <= forced[id].priority
    ensures popped == victim
    ensures before[victim := before[victim].(priority := 0)] - {victim} == before - {victim}
    ensures Positive(before - {victim})
  {
    var forced := before[victim := before[victim].(priority := 0)];
    assert forced[popped].priority <= forced[victim].priority == 0;
  }

  /** The stored sessions together with the address buckets: the part of the container the quota works on. */
  datatype Registry = Registry(live: map<string, Session>, ips: map<string, seq<string>>)

  /** Session `id`, stored under address `ip`, is listed in that address's bucket. */
  ghost predicate Listed(ips: map<string, seq<string>>, ip: string, id: string) {
    NormalizeIp(ip) in ips && id in ips[NormalizeIp(ip)]
  }

  /**
   * The buckets agree with the sessions: every bucket has a non-empty key,
   * no repeated session and at most `MAX_SESSIONS_PER_IP` sessions; every
   * listed session is live and its stored address falls in that bucket; and
   * every live session with an address is listed in its bucket.
   */
  ghost predicate Consistent(g: Registry) {
    BucketsSound(g.ips) && BucketsLive(g) && AllListed(g)
  }

  /** Every bucket has a non-empty key, no repeated session and at most `MAX_SESSIONS_PER_IP` sessions. */
  ghost predicate BucketsSound(ips: map<string, seq<string>>) {
    forall k :: k in ips ==> k != "" && NoDup(ips[k]) && |ips[k]| <= MAX_SESSIONS_PER_IP
  }

  /** Every listed session is live and its stored address falls in its bucket. */
  ghost predicate BucketsLive(g: Registry) {
    forall k, x :: k in g.ips && x in g.ips[k] ==> x in g.live && NormalizeIp(g.live[x].clientIp) == k
  }

  /** Every live session with an address is listed in that address's bucket. */
  ghost predicate AllListed(g: Registry) {
    forall x :: x in g.live && g.live[x].clientIp != "" ==> Listed(g.ips, g.live[x].clientIp, x)
  }

  /** A session of least priority, the one `pop` may return. */
  ghost predicate Oldest(live: map<string, Session>, v: string) {
    v in live && forall id :: id in live ==> live[v].priority <= live[id].priority
  }

  /** `pop` of session `v`: it leaves the sessions and the bucket of its stored address. */
  function AfterPop(g: Registry, v: string): Registry
    requires v in g.live
  {
    var ip := g.live[v].clientIp;
    Registry(g.live - {v}, if ip == "" then g.ips else Detach(g.ips, NormalizeIp(ip), v))
  }

  /** `push` of session `s` under `id`, the eviction loop taking the oldest sessions of an over-quota bucket. */
  function AfterPush(g: Registry, id: string, s: Session): Registry {
    if s.clientIp == "" then Registry(g.live[id := s], g.ips)
    else
      var n := NormalizeIp(s.clientIp);
      var l := Bucket(g.ips, n) + [id];
      Registry(g.live[id := s] - ToSet(Dropped(l)), g.ips[n := Kept(l)])
  }

  /**
   * `update_priority` of session `id` to `p` from `clientIp`: no address
   * changes no bucket; the session's own key moves it to the end of its
   * bucket; any other address reattributes it, evicting the oldest sessions
   * of an over-quota new bucket.
   */
  function AfterTouch(g: Registry, id: string, p: int, clientIp: string): Registry
    requires id in g.live
  {
    var saved := g.live[id].clientIp;
    var upd := g.live[id := g.live[id].(priority := p)];
    var n := NormalizeIp(clientIp);
    if clientIp == "" then Registry(upd, g.ips)
    else if saved == n then Registry(upd, Attach(g.ips, n, id))
    else
      var moved := upd[id := upd[id].(clientIp := n)];
      var b := Rebucket(g.ips, saved, n, id);
      Registry(moved - ToSet(Dropped(b[n])), b[n := Kept(b[n])])
  }

  /**
   * The touches reattribution handles cleanly: a session with no stored
   * address, one stored under a bucket key, or one touched from the range it
   * is stored under.
   */
  predicate SafeTouch(saved: string, clientIp: string) {
    saved == "" || NormalizeIp(saved) == saved || NormalizeIp(saved) == NormalizeIp(clientIp)
  }

  /**
   * A duplicate-free bucket splits into what the eviction loop drops and what
   * it keeps, with no session in both, and its newest entry is kept.
   */
  lemma KeptDisjoint(l: seq<string>)
    requires NoDup(l)
    ensures forall x :: x in l <==> x in Dropped(l) || x in Kept(l)
    ensures forall x :: x in Kept(l) ==> x !in Dropped(l)
    ensures forall x :: x in ToSet(Dropped(l)) <==> x in Dropped(l)
    ensures NoDup(Kept(l))
    ensures l != [] ==> l[|l| - 1] in Kept(l) && l[|l| - 1] !in Dropped(l)
  {
    NoDupSplit(l, Excess(l));
    NoDupSlice(l, Excess(l), |l|);
  }

  /** A pop keeps the buckets consistent with the sessions. */
  lemma PopConsistent(g: Registry, v: string)
    requires Consistent(g) && v in g.live
    ensures Consistent(AfterPop(g, v))
  {
    hide NormalizeIp;
    PopSound(g, v);
    PopLive(g, v);
    PopListed(g, v);
  }

  lemma PopSound(g: Registry, v: string)
    requires BucketsSound(g.ips) && v in g.live
    ensures BucketsSound(AfterPop(g, v).ips)
  {
    hide NormalizeIp;
    var ip := g.live[v].clientIp;
    if ip != "" {
      var n := NormalizeIp(ip);
      var d := Detach(g.ips, n, v);
      forall k | k in d
        ensures k != "" && NoDup(d[k]) && |d[k]| <= MAX_SESSIONS_PER_IP
      {
        if k == n {
          RemoveAllNoDup(g.ips[n], v);
        }
      }
    }
  }

  lemma PopLive(g: Registry, v: string)
    requires BucketsSound(g.ips) && BucketsLive(g) && v in g.live
    ensures BucketsLive(AfterPop(g, v))
  {
    hide NormalizeIp;
    var ip := g.live[v].clientIp;
    var a := AfterPop(g, v);
    forall k, x | k in a.ips && x in a.ips[k]
      ensures x in a.live && NormalizeIp(a.live[x].clientIp) == k
    {
      assert k in g.ips && x in g.ips[k];
      if ip == "" {
        assert NormalizeIp(g.live[x].clientIp) == k != "";
      }
    }
  }

  lemma PopListed(g: Registry, v: string)
    requires AllListed(g) && v in g.live
    ensures AllListed(AfterPop(g, v))
  {
    hide NormalizeIp;
    var ip := g.live[v].clientIp;
    var a := AfterPop(g, v);
    forall x | x in a.live && a.live[x].clientIp != ""
      ensures Listed(a.ips, a.live[x].clientIp, x)
    {
      assert Listed(g.ips, g.live[x].clientIp, x);
      if ip != "" && NormalizeIp(g.live[x].clientIp) == NormalizeIp(ip) {
        assert x in RemoveAll(g.ips[NormalizeIp(ip)], v);
      }
    }
  }

  /**
   * A push keeps the buckets consistent with the sessions and holds the new
   * session; with positive priorities it keeps them positive, and the new
   * session's bucket meets the conditions under which the eviction loop
   * removes exactly the bucket's oldest sessions.
   */
  lemma PushConsistent(g: Registry, id: string, s: Session)
    requires Consistent(g) && id !in g.live
    ensures Consistent(AfterPush(g, id, s))
    ensures id in AfterPush(g, id, s).live && AfterPush(g, id, s).live[id] == s
    ensures Positive(g.live) && s.priority > 0 ==> Positive(AfterPush(g, id, s).live)
    ensures Positive(g.live) && s.priority > 0 && s.clientIp != "" ==>
      Evictable(g.live[id := s], Bucket(g.ips, NormalizeIp(s.clientIp)) + [id])
  {
    hide NormalizeIp;
    if s.clientIp == "" {
      PushUnaddressed(g, id, s);
    } else {
      PushAddressed(g, id, s);
    }
  }

  /** `PushConsistent` for a session without an address, which joins no bucket. */
  lemma PushUnaddressed(g: Registry, id: string, s: Session)
    requires Consistent(g) && id !in g.live && s.clientIp == ""
    ensures AfterPush(g, id, s) == Registry(g.live[id := s], g.ips)
    ensures Consistent(AfterPush(g, id, s))
    ensures id in AfterPush(g, id, s).live && AfterPush(g, id, s).live[id] == s
    ensures Positive(g.live) && s.priority > 0 ==> Positive(AfterPush(g, id, s).live)
  {
    hide NormalizeIp;
    var a := Registry(g.live[id := s], g.ips);
    forall k, x | k in a.ips && x in a.ips[k]
      ensures x in a.live && NormalizeIp(a.live[x].clientIp) == k
    {
      assert x in g.live;
    }
  }

  /** `PushConsistent` for a session with an address: the bucket of that address settles. */
  lemma PushAddressed(g: Registry, id: string, s: Session)
    requires Consistent(g) && id !in g.live && s.clientIp != ""
    ensures var l := Bucket(g.ips, NormalizeIp(s.clientIp)) + [id];
      AfterPush(g, id, s) == Registry(g.live[id := s] - ToSet(Dropped(l)), g.ips[NormalizeIp(s.clientIp) := Kept(l)])
    ensures Consistent(AfterPush(g, id, s))
    ensures id in AfterPush(g, id, s).live && AfterPush(g, id, s).live[id] == s
    ensures Positive(g.live) && s.priority > 0 ==> Positive(AfterPush(g, id, s).live)
    ensures Positive(g.live) && s.priority > 0 ==>
      Evictable(g.live[id := s], Bucket(g.ips, NormalizeIp(s.clientIp)) + [id])
  {
    hide NormalizeIp;
    var l := Bucket(g.ips, NormalizeIp(s.clientIp)) + [id];
    PushSettles(g, id, s);
    assert id !in ToSet(Dropped(l));
    if Positive(g.live) && s.priority > 0 {
      PositiveKept(g.live, id, s, ToSet(Dropped(l)));
    }
  }

  /** Storing a session of positive priority, and removing any sessions, keeps priorities positive. */
  lemma PositiveKept(live: map<string, Session>, id: string, s: Session, gone: set<string>)
    requires Positive(live) && s.priority > 0
    ensures Positive(live[id := s]) && Positive(live[id := s] - gone)
  {
  }

  /** The bucket of a pushed session's address settles, and what it drops was already stored. */
  lemma PushSettles(g: Registry, id: string, s: Session)
    requires Consistent(g) && id !in g.live && s.clientIp != ""
    ensures var l := Bucket(g.ips, NormalizeIp(s.clientIp)) + [id];
      && AfterPush(g, id, s) == Registry(g.live[id := s] - ToSet(Dropped(l)), g.ips[NormalizeIp(s.clientIp) := Kept(l)])
      && Consistent(AfterPush(g, id, s))
      && NoDup(l) && id !in Dropped(l)
      && (forall x :: x in Dropped(l) ==> x in g.live)
  {
    hide NormalizeIp;
    var n := NormalizeIp(s.clientIp);
    NormalizeIpIdempotent(s.clientIp);
    var bn := Bucket(g.ips, n);
    var l := bn + [id];
    BucketCover(g, n);
    AddedOff(g, id, s, n);
    NoDupAppend(bn, id);
    Settle(g.live[id := s], g.ips, n, id, bn, l);
  }

  /** `Consistent` for every bucket but `n`, and for every session whose address falls outside `n`. */
  ghost predicate ConsistentOff(g: Registry, n: string) {
    && (forall k :: k in g.ips && k != n ==> k != "" && NoDup(g.ips[k]) && |g.ips[k]| <= MAX_SESSIONS_PER_IP)
    && (forall k, x :: k in g.ips && k != n && x in g.ips[k] ==> x in g.live && NormalizeIp(g.live[x].clientIp) == k)
    && (forall x :: x in g.live && g.live[x].clientIp != "" && NormalizeIp(g.live[x].clientIp) != n ==>
          Listed(g.ips, g.live[x].clientIp, x))
  }

  /** The sessions of bucket `n` are exactly the live sessions whose address falls in `n`. */
  lemma BucketCover(g: Registry, n: string)
    requires Consistent(g)
    ensures NoDup(Bucket(g.ips, n))
    ensures forall x :: x in Bucket(g.ips, n) ==> x in g.live && NormalizeIp(g.live[x].clientIp) == n
    ensures forall x :: x in g.live && g.live[x].clientIp != "" && NormalizeIp(g.live[x].clientIp) == n ==>
      x in Bucket(g.ips, n)
  {
    hide NormalizeIp;
    forall x | x in g.live && g.live[x].clientIp != "" && NormalizeIp(g.live[x].clientIp) == n
      ensures x in Bucket(g.ips, n)
    {
      assert Listed(g.ips, g.live[x].clientIp, x);
    }
  }

  /**
   * Settling one bucket restores consistency: bucket `n` becomes `kept`, the
   * sessions of `gone` leave, and between them they account for every
   * session whose address falls in `n`.
   */
  lemma Resettled(g: Registry, n: string, kept: seq<string>, gone: set<string>)
    requires n != "" && ConsistentOff(g, n)
    requires NoDup(kept) && |kept| <= MAX_SESSIONS_PER_IP
    requires forall x :: x in kept ==> x in g.live && x !in gone && NormalizeIp(g.live[x].clientIp) == n
    requires forall x :: x in gone && x in g.live ==> NormalizeIp(g.live[x].clientIp) == n
    requires forall x :: x in g.live && g.live[x].clientIp != "" && NormalizeIp(g.live[x].clientIp) == n ==>
      x in kept || x in gone
    ensures Consistent(Registry(g.live - gone, g.ips[n := kept]))
  {
    hide NormalizeIp;
    var a := Registry(g.live - gone, g.ips[n := kept]);
    forall k, x | k in a.ips && x in a.ips[k]
      ensures x in a.live && NormalizeIp(a.live[x].clientIp) == k
    {
      if k != n {
        assert x in g.live && NormalizeIp(g.live[x].clientIp) == k;
      }
    }
  }

  /**
   * The eviction loop settling bucket `n` once session `id` went last in it:
   * `bn` lists the other sessions whose address falls in `n`, `l` is the
   * bucket before the loop; its newest entries stay and the rest leave,
   * which makes every bucket consistent again.
   */
  lemma Settle(live: map<string, Session>, ips: map<string, seq<string>>, n: string, id: string, bn: seq<string>, l: seq<string>)
    requires n != "" && ConsistentOff(Registry(live, ips), n)
    requires id in live && NormalizeIp(live[id].clientIp) == n
    requires forall x :: x in bn ==> x in live && NormalizeIp(live[x].clientIp) == n
    requires forall x :: x in live && x != id && live[x].clientIp != "" && NormalizeIp(live[x].clientIp) == n ==> x in bn
    requires NoDup(l) && l != [] && l[|l| - 1] == id
    requires forall x :: x in l ==> x == id || x in bn
    requires forall x :: x in bn && x != id ==> x in l
    ensures Consistent(Registry(live - ToSet(Dropped(l)), ips[n := Kept(l)]))
    ensures id in Kept(l) && id !in Dropped(l)
    ensures forall x :: x in Dropped(l) ==> x in bn
  {
    hide NormalizeIp;
    KeptDisjoint(l);
    var kept, gone := Kept(l), ToSet(Dropped(l));
    assert forall x :: x in kept ==> x in live && x !in gone && NormalizeIp(live[x].clientIp) == n by {
      forall x | x in kept
        ensures x in live && x !in gone && NormalizeIp(live[x].clientIp) == n
      {
        assert x in l;
      }
    }
    assert forall x :: x in Dropped(l) ==> x in bn by {
      forall x | x in Dropped(l)
        ensures x in bn
      {
        assert x in l && x != id;
      }
    }
    assert forall x :: x in live && live[x].clientIp != "" && NormalizeIp(live[x].clientIp) == n ==>
      x in kept || x in gone by {
      forall x | x in live && live[x].clientIp != "" && NormalizeIp(live[x].clientIp) == n
        ensures x in l
      {
        if x != id {
          assert x in bn;
        }
      }
    }
    Resettled(Registry(live, ips), n, kept, gone);
  }

  /** Adding a session whose address falls in `n` keeps every other bucket consistent. */
  lemma AddedOff(g: Registry, id: string, s: Session, n: string)
    requires Consistent(g) && id !in g.live && NormalizeIp(s.clientIp) == n
    ensures ConsistentOff(Registry(g.live[id := s], g.ips), n)
  {
    hide NormalizeIp;
    var g1 := Registry(g.live[id := s], g.ips);
    forall k, x | k in g1.ips && k != n && x in g1.ips[k]
      ensures x in g1.live && NormalizeIp(g1.live[x].clientIp) == k
    {
      assert x in g.live;
    }
  }

  /**
   * A touch that reattributes cleanly, or changes no address, keeps the
   * buckets consistent; the session stays, with its new priority and, when
   * the request has an address, that address's key. With positive
   * priorities and a positive new priority, priorities stay positive, and a
   * reattribution's new bucket meets the conditions under which the eviction
   * loop removes exactly its oldest sessions.
   */
  lemma TouchConsistent(g: Registry, id: string, p: int, clientIp: string)
    requires Consistent(g) && IpInv(g.ips) && id in g.live
    requires SafeTouch(g.live[id].clientIp, clientIp)
    ensures Consistent(AfterTouch(g, id, p, clientIp))
    ensures id in AfterTouch(g, id, p, clientIp).live
    ensures AfterTouch(g, id, p, clientIp).live[id]
      == g.live[id].(priority := p, clientIp := if clientIp == "" then g.live[id].clientIp else NormalizeIp(clientIp))
    ensures Positive(g.live) && p > 0 ==> Positive(AfterTouch(g, id, p, clientIp).live)
    ensures Positive(g.live) && p > 0 && clientIp != "" && g.live[id].clientIp != NormalizeIp(clientIp) ==>
      Evictable(g.live[id := g.live[id].(priority := p, clientIp := NormalizeIp(clientIp))],
                Rebucket(g.ips, g.live[id].clientIp, NormalizeIp(clientIp), id)[NormalizeIp(clientIp)])
  {
    hide NormalizeIp;
    if clientIp == "" {
      TouchUnaddressed(g, id, p, clientIp);
    } else if g.live[id].clientIp == NormalizeIp(clientIp) {
      TouchSameKey(g, id, p, clientIp);
    } else {
      TouchElsewhere(g, id, p, clientIp);
    }
  }

  /** `TouchConsistent` for a request without an address: only the priority changes. */
  lemma TouchUnaddressed(g: Registry, id: string, p: int, clientIp: string)
    requires Consistent(g) && id in g.live && clientIp == ""
    ensures AfterTouch(g, id, p, clientIp) == Registry(g.live[id := g.live[id].(priority := p)], g.ips)
    ensures Consistent(AfterTouch(g, id, p, clientIp))
    ensures id in AfterTouch(g, id, p, clientIp).live
    ensures AfterTouch(g, id, p, clientIp).live[id] == g.live[id].(priority := p)
    ensures Positive(g.live) && p > 0 ==> Positive(AfterTouch(g, id, p, clientIp).live)
  {
    hide NormalizeIp;
    var a := Registry(g.live[id := g.live[id].(priority := p)], g.ips);
    forall k, x | k in a.ips && x in a.ips[k]
      ensures x in a.live && NormalizeIp(a.live[x].clientIp) == k
    {
      assert x in g.live;
    }
  }

  /** `TouchConsistent` for a request from the session's own key: it moves to the end of its bucket. */
  lemma TouchSameKey(g: Registry, id: string, p: int, clientIp: string)
    requires Consistent(g) && id in g.live && clientIp != "" && g.live[id].clientIp == NormalizeIp(clientIp)
    ensures Consistent(AfterTouch(g, id, p, clientIp))
    ensures id in AfterTouch(g, id, p, clientIp).live
    ensures AfterTouch(g, id, p, clientIp).live[id] == g.live[id].(priority := p, clientIp := NormalizeIp(clientIp))
    ensures Positive(g.live) && p > 0 ==> Positive(AfterTouch(g, id, p, clientIp).live)
  {
    hide NormalizeIp;
    var n := NormalizeIp(clientIp);
    NormalizeIpIdempotent(clientIp);
    TouchSameBucket(g, id, p, n);
    assert AfterTouch(g, id, p, clientIp) == Registry(g.live[id := g.live[id].(priority := p)], Attach(g.ips, n, id));
  }

  /** `TouchConsistent` for a clean reattribution to another key. */
  lemma TouchElsewhere(g: Registry, id: string, p: int, clientIp: string)
    requires Consistent(g) && IpInv(g.ips) && id in g.live && clientIp != ""
    requires g.live[id].clientIp != NormalizeIp(clientIp) && SafeTouch(g.live[id].clientIp, clientIp)
    ensures Consistent(AfterTouch(g, id, p, clientIp))
    ensures id in AfterTouch(g, id, p, clientIp).live
    ensures AfterTouch(g, id, p, clientIp).live[id] == g.live[id].(priority := p, clientIp := NormalizeIp(clientIp))
    ensures Positive(g.live) && p > 0 ==> Positive(AfterTouch(g, id, p, clientIp).live)
    ensures Positive(g.live) && p > 0 && clientIp != "" && g.live[id].clientIp != NormalizeIp(clientIp) ==>
      Evictable(g.live[id := g.live[id].(priority := p, clientIp := NormalizeIp(clientIp))],
                Rebucket(g.ips, g.live[id].clientIp, NormalizeIp(clientIp), id)[NormalizeIp(clientIp)])
  {
    hide NormalizeIp;
    var n := NormalizeIp(clientIp);
    NormalizeIpIdempotent(clientIp);
    TouchMoved(g, id, p, n);
    TouchMovedShape(g, id, p, clientIp);
    var moved := g.live[id := g.live[id].(priority := p, clientIp := n)];
    var b := Rebucket(g.ips, g.live[id].clientIp, n, id);
    assert id !in ToSet(Dropped(b[n]));
    if Positive(g.live) && p > 0 {
      PositiveKept(g.live, id, g.live[id].(priority := p, clientIp := n), ToSet(Dropped(b[n])));
    }
  }

  /** Changing one session's priority and setting its address to the key `n` keeps every bucket but `n` consistent. */
  lemma TouchedOff(g: Registry, id: string, p: int, n: string, ips: map<string, seq<string>>)
    requires Consistent(g) && id in g.live && NormalizeIp(n) == n
    requires forall k :: k in ips ==> k in g.ips && (ips[k] == g.ips[k] || ips[k] == RemoveAll(g.ips[k], id))
    requires forall k :: k in g.ips && k != n && id in g.ips[k] ==> k in ips ==> id !in ips[k]
    requires forall k, x :: k in g.ips && k != n && x in g.ips[k] && x != id ==> k in ips && x in ips[k]
    ensures ConsistentOff(Registry(g.live[id := g.live[id].(priority := p, clientIp := n)], ips), n)
  {
    hide NormalizeIp;
    var moved := g.live[id := g.live[id].(priority := p, clientIp := n)];
    forall k | k in ips && k != n
      ensures k != "" && NoDup(ips[k]) && |ips[k]| <= MAX_SESSIONS_PER_IP
    {
      RemoveAllNoDup(g.ips[k], id);
    }
    forall k, x | k in ips && k != n && x in ips[k]
      ensures x in moved && NormalizeIp(moved[x].clientIp) == k
    {
      assert x in g.ips[k];
    }
    forall x | x in moved && moved[x].clientIp != "" && NormalizeIp(moved[x].clientIp) != n
      ensures Listed(ips, moved[x].clientIp, x)
    {
      assert Listed(g.ips, g.live[x].clientIp, x);
    }
  }

  /** A touch from the session's own key moves it to the end of its bucket, which keeps its size. */
  lemma TouchSameBucket(g: Registry, id: string, p: int, n: string)
    requires Consistent(g) && id in g.live && g.live[id].clientIp == n && n != "" && NormalizeIp(n) == n
    ensures Consistent(Registry(g.live[id := g.live[id].(priority := p)], Attach(g.ips, n, id)))
  {
    hide NormalizeIp;
    var bn := Bucket(g.ips, n);
    BucketCover(g, n);
    var upd := g.live[id := g.live[id].(priority := p)];
    assert upd == g.live[id := g.live[id].(priority := p, clientIp := n)];
    assert forall k :: k in g.ips && k != n ==> id !in g.ips[k];
    TouchedOff(g, id, p, n, g.ips);
    AttachedBucket(g.ips, n, id, bn);
    var l := Attach(g.ips, n, id)[n];
    AttachPresentMoves(g.ips, n, id);
    assert forall x :: x in upd && x != id && upd[x].clientIp != "" && NormalizeIp(upd[x].clientIp) == n ==> x in bn by {
      forall x | x in upd && x != id && upd[x].clientIp != "" && NormalizeIp(upd[x].clientIp) == n
        ensures x in bn
      {
        assert upd[x] == g.live[x];
      }
    }
    Settle(upd, g.ips, n, id, bn, l);
    assert Kept(l) == l && Dropped(l) == [];
    assert ToSet([]) == {};
    MinusNothing(upd);
    assert Attach(g.ips, n, id) == g.ips[n := l];
  }

  /** The buckets once reattribution took a session out of the bucket of its stored address, when that is a key. */
  function Detached(ips: map<string, seq<string>>, saved: string, id: string): map<string, seq<string>> {
    if saved != "" then Detach(ips, saved, id) else ips
  }

  /**
   * Reattribution away from a stored address that is empty, a bucket key or
   * in the new key's range takes the session out of every bucket but the new
   * key's, and leaves the new key's bucket as it was.
   */
  lemma LeaveOldBucket(g: Registry, id: string, n: string)
    requires Consistent(g) && IpInv(g.ips) && id in g.live && n != ""
    requires var saved := g.live[id].clientIp;
      saved != n && (saved == "" || NormalizeIp(saved) == saved || NormalizeIp(saved) == n)
    ensures var d := Detached(g.ips, g.live[id].clientIp, id);
      && Bucket(d, n) == Bucket(g.ips, n)
      && (forall k :: k in d ==> k in g.ips && (d[k] == g.ips[k] || d[k] == RemoveAll(g.ips[k], id)))
      && (forall k :: k in g.ips && k != n && id in g.ips[k] ==> k in d ==> id !in d[k])
      && (forall k, x :: k in g.ips && k != n && x in g.ips[k] && x != id ==> k in d && x in d[k])
  {
    hide NormalizeIp;
    var saved := g.live[id].clientIp;
    var d := Detached(g.ips, saved, id);
    if saved == "" {
      assert NormalizeIp(saved) == "";
      assert forall k :: k in g.ips ==> id !in g.ips[k];
    } else if NormalizeIp(saved) == saved {
      assert forall k :: k in g.ips && k != saved ==> id !in g.ips[k];
      forall k, x | k in g.ips && x in g.ips[k] && x != id
        ensures k in d && x in d[k]
      {
        if k == saved {
          assert x in RemoveAll(g.ips[k], id);
        }
      }
    } else {
      assert saved !in g.ips;
      assert forall k :: k in g.ips && k != n ==> id !in g.ips[k];
    }
  }

  /**
   * A touch from another key, when the session's stored address is empty, a
   * bucket key or in the new key's range: the session leaves every old
   * bucket and goes last in `n`, whose oldest sessions are then evicted.
   */
  lemma TouchMoved(g: Registry, id: string, p: int, n: string)
    requires Consistent(g) && IpInv(g.ips) && id in g.live && n != "" && NormalizeIp(n) == n
    requires var saved := g.live[id].clientIp;
      saved != n && (saved == "" || NormalizeIp(saved) == saved || NormalizeIp(saved) == n)
    ensures var saved := g.live[id].clientIp;
      var moved := g.live[id := g.live[id].(priority := p, clientIp := n)];
      var b := Rebucket(g.ips, saved, n, id);
      && Consistent(Registry(moved - ToSet(Dropped(b[n])), b[n := Kept(b[n])]))
      && NoDup(b[n]) && id in Kept(b[n]) && id !in Dropped(b[n])
      && (forall x :: x in Dropped(b[n]) ==> x in g.live)
  {
    hide NormalizeIp;
    var saved := g.live[id].clientIp;
    var moved := g.live[id := g.live[id].(priority := p, clientIp := n)];
    var d := Detached(g.ips, saved, id);
    var bn := Bucket(g.ips, n);
    BucketCover(g, n);
    LeaveOldBucket(g, id, n);
    TouchedOff(g, id, p, n, d);
    AttachedBucket(d, n, id, bn);
    var l := Attach(d, n, id)[n];
    assert forall x :: x in moved && x != id && moved[x].clientIp != "" && NormalizeIp(moved[x].clientIp) == n ==> x in bn by {
      forall x | x in moved && x != id && moved[x].clientIp != "" && NormalizeIp(moved[x].clientIp) == n
        ensures x in bn
      {
        assert moved[x] == g.live[x];
      }
    }
    Settle(moved, d, n, id, bn, l);
    UpdateTwice(d, n, l, Kept(l));
  }

  /**
   * The touch `SafeTouch` leaves out: a session stored under a raw IPv6
   * address and touched from another range is moved to the new bucket, but
   * its old bucket is looked up under the raw address, which is no key, so
   * the session stays listed there too and the buckets stop agreeing with
   * the sessions.
   */
  lemma StaleBucketBreaks(g: Registry, id: string, p: int, clientIp: string)
    requires Consistent(g) && IpInv(g.ips) && id in g.live && clientIp != ""
    requires g.live[id].clientIp != "" && !SafeTouch(g.live[id].clientIp, clientIp)
    ensures var a, k0 := AfterTouch(g, id, p, clientIp), NormalizeIp(g.live[id].clientIp);
      && k0 in a.ips && id in a.ips[k0]
      && id in a.live && NormalizeIp(a.live[id].clientIp) != k0
    ensures !Consistent(AfterTouch(g, id, p, clientIp))
  {
    hide NormalizeIp;
    var saved, n := g.live[id].clientIp, NormalizeIp(clientIp);
    var k0 := NormalizeIp(saved);
    NormalizeIpIdempotent(clientIp);
    assert Listed(g.ips, saved, id);
    assert saved !in g.ips;
    assert saved != n && k0 != n;
    var b := Rebucket(g.ips, saved, n, id);
    assert b == Attach(Detached(g.ips, saved, id), n, id);
    assert Detached(g.ips, saved, id) == g.ips;
    assert k0 in b && b[k0] == g.ips[k0];
    var l := b[n];
    TouchMovedShape(g, id, p, clientIp);
    var a := AfterTouch(g, id, p, clientIp);
    assert a.ips == b[n := Kept(l)];
    assert k0 in a.ips && a.ips[k0] == g.ips[k0] && id in g.ips[k0];
    AttachedBucket(g.ips, n, id, Bucket(g.ips, n));
    KeptDisjoint(l);
    assert id in a.live && a.live[id].clientIp == n;
  }

  /** `AfterTouch` of a reattribution, written out. */
  lemma TouchMovedShape(g: Registry, id: string, p: int, clientIp: string)
    requires id in g.live && clientIp != "" && g.live[id].clientIp != NormalizeIp(clientIp)
    ensures var n := NormalizeIp(clientIp);
      var b := Rebucket(g.ips, g.live[id].clientIp, n, id);
      AfterTouch(g, id, p, clientIp)
        == Registry(g.live[id := g.live[id].(priority := p, clientIp := n)] - ToSet(Dropped(b[n])), b[n := Kept(b[n])])
  {
    hide NormalizeIp;
    var n := NormalizeIp(clientIp);
    var upd := g.live[id := g.live[id].(priority := p)];
    assert upd[id := upd[id].(clientIp := n)] == g.live[id := g.live[id].(priority := p, clientIp := n)];
  }

  /** The bucket `Attach` builds from a bucket list `bn`: duplicate-free, the session last, every other entry of `bn` kept. */
  lemma AttachedBucket(ips: map<string, seq<string>>, n: string, id: string, bn: seq<string>)
    requires Bucket(ips, n) == bn && NoDup(bn)
    ensures var l := Attach(ips, n, id)[n];
      && NoDup(l) && l != [] && l[|l| - 1] == id
      && (forall x :: x in l ==> x == id || x in bn)
      && (forall x :: x in bn && x != id ==> x in l)
  {
    hide NormalizeIp;
    var rest := RemoveAll(bn, id);
    RemoveAllNoDup(bn, id);
    NoDupAppend(rest, id);
  }

  /** Setting a session's priority and then its address is setting both at once. */
  lemma MovedAtOnce(live: map<string, Session>, id: string, p: int, n: string)
    requires id in live
    ensures var upd := live[id := live[id].(priority := p)];
      upd[id := upd[id].(clientIp := n)] == live[id := live[id].(priority := p, clientIp := n)]
  {
    var upd := live[id := live[id].(priority := p)];
    assert upd[id := upd[id].(clientIp := n)] == live[id := live[id].(priority := p, clientIp := n)];
  }

  lemma MinusNothing(m: map<string, Session>)
    ensures m - {} == m
  {
  }

  lemma UpdateTwice(ips: map<string, seq<string>>, n: string, a: seq<string>, b: seq<string>)
    ensures ips[n := a][n := b] == ips[n := b]
  {
  }

  lemma RemoveMore(m: map<string, Session>, gone: set<string>, x: string)
    ensures (m - gone) - {x} == m - (gone + {x})
  {
  }

  /** Every session in `after` was already in `before`, with the same storage. */
  ghost predicate DataKept(before: map<string, Session>, after: map<string, Session>) {
    forall id :: id in after ==> id in before && after[id].data == before[id].data
  }

  /** Sessions other than a newly added one that survive two steps keep their storage from before both. */
  lemma DataKeptAdded(a: map<string, Session>, b: map<string, Session>, c: map<string, Session>, id: string, s: Session)
    requires DataKept(a, b) && DataKept(b[id := s], c)
    ensures forall x :: x in c && x != id ==> x in a && c[x].data == a[x].data
  {
  }

  lemma DataKeptTrans(a: map<string, Session>, b: map<string, Session>, c: map<string, Session>)
    requires DataKept(a, b) && DataKept(b, c)
    ensures DataKept(a, c)
  {
  }

  /**
   * The order list after a token login in `get_storage`: entries equal to
   * the token's session id are dropped and the token is appended. The list
   * holds tokens, not session ids, so the filter normally keeps everything.
   */
  function Refresh(order: seq<string>, sid: string, token: string): seq<string> {
    RemoveAll(order, sid) + [token]
  }

  /** A token login keeps every order entry bound: the token is bound, and the filter only drops entries. */
  lemma RefreshKeeps(bindings: map<string, string>, order: seq<string>, sid: string, token: string)
    requires JwtInv(bindings, order) && token in bindings
    ensures JwtInv(bindings, Refresh(order, sid, token))
    ensures Refresh(order, sid, token)[|Refresh(order, sid, token)| - 1] == token
  {
  }

  /**
   * When no order entry equals the session id, a token login lengthens the
   * list by one, and a token already listed is then listed twice.
   */
  lemma {:induction false} RefreshRepeats(order: seq<string>, sid: string, token: string)
    requires sid !in order
    ensures |Refresh(order, sid, token)| == |order| + 1
    ensures token in order ==> !NoDup(Refresh(order, sid, token))
  {
    RemoveAllAbsent(order, sid);
    var r := Refresh(order, sid, token);
    if token in order {
      var i := Find(order, token);
      assert r[i] == r[|order|];
    }
  }

  /** A one-token table: logging in with the token lists it twice. */
  lemma RefreshExample()
    ensures Refresh(["t"], "s", "t") == ["t", "t"]
  {
    assert RemoveAll(["t"], "s") == ["t"];
  }

  /**
   * The tokens `bind_jwt_to_session_id` unbinds: the token itself, every
   * token bound to the session, and the oldest token when the list is full.
   */
  function Unbound(bindings: map<string, string>, order: seq<string>, token: string, sid: string, maxSessions: int): set<string>
    requires |order| >= maxSessions ==> order != []
  {
    (set t | t in bindings && (t == token || bindings[t] == sid))
      + (if |order| >= maxSessions then {order[0]} else {})
  }

  /** The bindings after `bind_jwt_to_session_id`. */
  function BoundMap(bindings: map<string, string>, order: seq<string>, token: string, sid: string, maxSessions: int): map<string, string>
    requires |order| >= maxSessions ==> order != []
  {
    (bindings - Unbound(bindings, order, token, sid, maxSessions))[token := sid]
  }

  /** The order list after `bind_jwt_to_session_id`. */
  function BoundOrder(bindings: map<string, string>, order: seq<string>, token: string, sid: string, maxSessions: int): seq<string>
    requires |order| >= maxSessions ==> order != []
  {
    RemoveSet(order, Unbound(bindings, order, token, sid, maxSessions)) + [token]
  }

  /**
   * Binding keeps the table consistent: the token leads to the session and
   * is the newest entry, no other token leads to that session, bindings of
   * other sessions survive unless they were the oldest of a full list, and
   * a list within its bound stays within it.
   */
  lemma BindSpec(bindings: map<string, string>, order: seq<string>, token: string, sid: string, maxSessions: int)
    requires JwtInv(bindings, order)
    requires |order| >= maxSessions ==> order != []
    ensures var m, o := BoundMap(bindings, order, token, sid, maxSessions), BoundOrder(bindings, order, token, sid, maxSessions);
      && JwtInv(m, o)
      && token in m && m[token] == sid
      && o[|o| - 1] == token
      && (forall t :: t in m && m[t] == sid ==> t == token)
      && (forall t :: t in bindings && t != token && bindings[t] != sid && !(|order| >= maxSessions && t == order[0]) ==>
            t in m && m[t] == bindings[t])
      && (1 <= maxSessions && |order| <= maxSessions ==> |o| <= maxSessions)
      && (|order| >= maxSessions && order[0] != token ==> order[0] !in m && order[0] !in o)
  {
    var u := Unbound(bindings, order, token, sid, maxSessions);
    var kept := RemoveSet(order, u);
    if |order| >= maxSessions {
      assert kept == RemoveSet(order[1..], u);
    }
  }

  /** `user["email"] == email and user["password"] == hashed_password`, for a record holding both fields. */
  predicate Matches(user: Record, email: string, password: string)
    reads user
  {
    "email" in user.fields && "password" in user.fields
    && user.fields["email"] == email && user.fields["password"] == password
  }

  /** Some user of the storage has the given email and password hash. */
  ghost predicate HasUser(st: Storage, email: string, password: string)
    reads st, st.users, st.users.objects.Values
  {
    exists k :: k in st.users.objects && Matches(st.users.objects[k], email, password)
  }

  /** The inner loop of `find_session_by_credentials`: does any user of the storage match? */
  method UsersMatch(st: Storage, email: string, password: string) returns (found: bool)
    ensures found == HasUser(st, email, password)
  {
    var keys := st.users.objects.Keys;
    while keys != {}
      invariant keys <= st.users.objects.Keys
      invariant forall k :: k in st.users.objects && k !in keys ==> !Matches(st.users.objects[k], email, password)
      decreases |keys|
    {
      var k :| k in keys;
      if Matches(st.users.objects[k], email, password) {
        return true;
      }
      keys := keys - {k};
    }
    return false;
  }

  /** The deletion loop of `bind_jwt_to_session_id`: drops each token of `remove` from the bindings. */
  method Unbind(bindings: map<string, string>, remove: set<string>) returns (m: map<string, string>)
    ensures m == bindings - remove
  {
    m := bindings;
    var pending := remove;
    while pending != {}
      invariant pending <= remove
      invariant m == bindings - (remove - pending)
      decreases |pending|
    {
      var t :| t in pending;
      m := m - {t};
      pending := pending - {t};
    }
  }

  /** What `get_storage` hands back: the session id (none in isolation-disabled mode) and its storage. */
  datatype Access = Access(sessionId: Option<string>, storage: Storage)

  /** The session a login token leads to: its binding when that is a live session, `""` otherwise. */
  function TokenSession(bindings: map<string, string>, index: map<string, int>, token: string): (s: string)
    ensures s != "" ==> token in bindings && bindings[token] == s && s in index
    ensures s == "" ==> token == "" || token !in bindings || bindings[token] == "" || bindings[token] !in index
  {
    if token != "" && token in bindings && bindings[token] != "" && bindings[token] in index then bindings[token] else ""
  }

  /** The session `get_storage` works on: the cookie's id first, then the token's live session, then a fresh id. */
  function TargetSession(cookie: string, token: string, freshId: string, bindings: map<string, string>, index: map<string, int>): string {
    if cookie != "" then cookie
    else if TokenSession(bindings, index, token) != "" then TokenSession(bindings, index, token)
    else freshId
  }

  class StorageContainer {
    const isolationDisabled: bool
    const maxSessions: int
    var heap: seq<HeapItem>
    var indexMap: map<string, int>
    var jwtToSession: map<string, string>
    var jwtOrder: seq<string>
    var ipToSessions: map<string, seq<string>>
    /** The single storage every request shares when isolation is disabled. */
    var shared: Option<Storage>

    ghost predicate Valid()
      reads this
    {
      && Indexed(heap, indexMap) && Ordered(heap)
      && IpInv(ipToSessions)
      && JwtInv(jwtToSession, jwtOrder)
    }

    /** The live sessions, by id. */
    ghost function Live(): map<string, Session>
      reads this
      requires Indexed(heap, indexMap)
    {
      Sessions(heap, indexMap)
    }

    /** The live sessions together with the address buckets. */
    ghost function Registered(): Registry
      reads this
      requires Indexed(heap, indexMap)
    {
      Registry(Live(), ipToSessions)
    }

    /** Only the heap and its index changed. */
    twostate predicate OnlyHeapChanged()
      reads this
    {
      && ipToSessions == old(ipToSessions)
      && jwtToSession == old(jwtToSession) && jwtOrder == old(jwtOrder)
      && shared == old(shared)
    }

    constructor (isolationDisabled: bool, maxSessions: int)
      ensures Valid()
      ensures this.isolationDisabled == isolationDisabled && this.maxSessions == maxSessions
      ensures heap == [] && indexMap == map[] && jwtToSession == map[] && jwtOrder == []
      ensures ipToSessions == map[] && shared == None
      ensures Consistent(Registered()) && Positive(Live())
    {
      this.isolationDisabled := isolationDisabled;
      this.maxSessions := maxSessions;
      heap := [];
      indexMap := map[];
      jwtToSession := map[];
      jwtOrder := [];
      ipToSessions := map[];
      shared := None;
    }

    /** `_swap`: exchanges two items, records their new positions in them and in the index. */
    method Swap(i: nat, j: nat)
      requires Indexed(heap, indexMap) && i < |heap| && j < |heap|
      modifies this
      ensures heap == SwapItems(old(heap), i, j) && indexMap == SwapIndex(old(heap), old(indexMap), i, j)
      ensures Indexed(heap, indexMap) && Live() == old(Live())
      ensures OnlyHeapChanged()
    {
      SwapKeeps(heap, indexMap, i, j);
      indexMap := indexMap[heap[i].id := j][heap[j].id := i];
      var a, b := heap[i].(index := j), heap[j].(index := i);
      heap := heap[i := b][j := a];
    }

    /** `_sift_up`: moves the item at `k` towards the root until its parent is no larger. */
    method SiftUp(k: nat)
      requires Indexed(heap, indexMap) && k < |heap| && OrderedExceptUp(heap, k)
      modifies this
      ensures Indexed(heap, indexMap) && Ordered(heap)
      ensures |heap| == old(|heap|) && Live() == old(Live())
      ensures OnlyHeapChanged()
    {
      var index: nat := k;
      while index > 0
        invariant Indexed(heap, indexMap) && index < |heap| && OrderedExceptUp(heap, index)
        invariant |heap| == old(|heap|) && Live() == old(Live())
        invariant OnlyHeapChanged()
      {
        var parent := Parent(index);
        if heap[index].priority >= heap[parent].priority {
          break;
        }
        SiftUpStep(heap, index);
        Swap(index, parent);
        index := parent;
      }
      SiftUpDone(heap, index);
    }

    /** `_sift_down`: moves the item at `k` towards the leaves until no child is smaller. */
    method SiftDown(k: nat)
      requires Indexed(heap, indexMap) && k < |heap| && OrderedExceptDown(heap, k)
      modifies this
      ensures Indexed(heap, indexMap) && Ordered(heap)
      ensures |heap| == old(|heap|) && Live() == old(Live())
      ensures OnlyHeapChanged()
    {
      var index: nat := k;
      while true
        invariant Indexed(heap, indexMap) && index < |heap| && OrderedExceptDown(heap, index)
        invariant |heap| == old(|heap|) && Live() == old(Live())
        invariant OnlyHeapChanged()
        decreases |heap| - index
      {
        var smallest: nat := index;
        var left, right := 2 * index + 1, 2 * index + 2;
        if left < |heap| && heap[left].priority < heap[smallest].priority {
          smallest := left;
        }
        if right < |heap| && heap[right].priority < heap[smallest].priority {
          smallest := right;
        }
        assert smallest == Smallest(heap, index);
        if smallest == index {
          break;
        }
        SiftDownStep(heap, index);
        Swap(index, smallest);
        index := smallest;
      }
      SiftDownDone(heap, index);
    }

    /** `_push`: appends a session under an id the heap does not hold yet and restores the order. */
    method PushItem(priority: int, id: string, data: Storage, clientIp: string)
      requires Valid() && id !in indexMap
      modifies this
      ensures Valid()
      ensures Live() == old(Live())[id := Session(priority, data, clientIp)]
      ensures |heap| == old(|heap|) + 1
      ensures OnlyHeapChanged()
    {
      var index := |heap|;
      var item := HeapItem(priority, id, data, index, clientIp);
      PushKeeps(heap, indexMap, item);
      heap := heap + [item];
      indexMap := indexMap[id := index];
      SiftUp(index);
    }

    /** `_pop`: removes and returns a session of least priority, or nothing when the heap is empty. */
    method PopItem() returns (r: Option<HeapItem>)
      requires Valid()
      modifies this
      ensures Valid()
      ensures old(heap) == [] ==> r == None && unchanged(this)
      ensures old(heap) != [] ==>
        && r.Some?
        && r.value.id in old(Live()) && old(Live())[r.value.id] == SessionOf(r.value)
        && (forall id :: id in old(Live()) ==> r.value.priority <= old(Live())[id].priority)
        && Live() == old(Live()) - {r.value.id}
        && |heap| == old(|heap|) - 1
      ensures OnlyHeapChanged()
    {
      hide NormalizeIp;
      if heap == [] {
        return None;
      }
      var root := heap[0];
      RootIsMinSession(heap, indexMap);
      if |heap| == 1 {
        PopLastKeeps(heap, indexMap);
        indexMap := indexMap - {root.id};
        heap := [];
        return Some(root);
      }
      ghost var live0 := Sessions(heap, indexMap);
      PopKeeps(heap, indexMap);
      var last := heap[|heap| - 1];
      var h, m := heap[..|heap| - 1][0 := last.(index := 0)], (indexMap - {root.id})[last.id := 0];
      assert Sessions(h, m) == live0 - {root.id};
      heap, indexMap := h, m;
      SiftDown(0);
      r := Some(root);
    }

    /** `_update_priority`: gives a held session a new priority (or fails on an unknown id) and restores the order. */
    method UpdateItemPriority(id: string, priority: int) returns (r: Result<(), ContainerError>)
      requires Valid()
      modifies this
      ensures Valid()
      ensures id !in old(indexMap) ==> r == Err(SessionNotFound(id)) && unchanged(this)
      ensures id in old(indexMap) ==>
        && r == Ok(())
        && Live() == old(Live())[id := old(Live())[id].(priority := priority)]
        && |heap| == old(|heap|)
      ensures id in old(indexMap) && old(Live())[id].priority == priority ==> heap == old(heap) && indexMap == old(indexMap)
      ensures OnlyHeapChanged()
    {
      if id !in indexMap {
        return Err(SessionNotFound(id));
      }
      var index := indexMap[id];
      var oldPriority := heap[index].priority;
      UpdateKeeps(heap, indexMap, id, priority);
      heap := heap[index := heap[index].(priority := priority)];
      if priority < oldPriority {
        SiftUp(index);
      } else if priority > oldPriority {
        SiftDown(index);
      }
      r := Ok(());
    }

    /** Only the address buckets changed. */
    twostate predicate OnlyBucketsChanged()
      reads this
    {
      && heap == old(heap) && indexMap == old(indexMap)
      && jwtToSession == old(jwtToSession) && jwtOrder == old(jwtOrder)
      && shared == old(shared)
    }

    /** `_handle_client_ip_and_session_eviction`: takes a removed session out of its address bucket. */
    method OnSessionEvicted(id: string, clientIp: string)
      requires Valid()
      modifies this
      ensures Valid()
      ensures ipToSessions == if clientIp == "" then old(ipToSessions) else Detach(old(ipToSessions), NormalizeIp(clientIp), id)
      ensures OnlyBucketsChanged()
    {
      if clientIp == "" {
        return;
      }
      var n := NormalizeIp(clientIp);
      if n in ipToSessions {
        var l := RemoveAll(ipToSessions[n], id);
        if l == [] {
          ipToSessions := ipToSessions - {n};
        } else {
          ipToSessions := ipToSessions[n := l];
        }
      }
    }

    /**
     * The forced removal used by the eviction loops: give the session priority
     * 0, then pop the heap. When every live priority is positive the popped
     * session is the chosen one; otherwise another session may leave instead.
     */
    method ForceOut(victim: string) returns (r: Result<(), ContainerError>)
      requires Valid()
      modifies this
      ensures Valid()
      ensures r.Ok? ==> |heap| == old(|heap|) - 1
      ensures Positive(old(Live())) && victim in old(Live()) ==>
        && r.Ok?
        && Live() == old(Live()) - {victim}
        && Positive(Live())
      ensures DataKept(old(Live()), Live())
      ensures OnlyHeapChanged()
    {
      ghost var before := Live();
      var u := UpdateItemPriority(victim, 0);
      if u.Err? {
        return Err(u.error);
      }
      assert victim in Live();
      ghost var middle := Live();
      assert DataKept(before, middle);
      var popped := PopItem();
      assert DataKept(middle, Live());
      DataKeptTrans(before, middle, Live());
      if Positive(before) {
        ForcedPopIsVictim(before, victim, popped.value.id);
      }
      r := Ok(());
    }

    /** One round of the eviction loop: force out the bucket's oldest session and drop the bucket's head. */
    method EvictOldest(n: string) returns (r: Result<(), ContainerError>)
      requires Valid() && n in ipToSessions && |ipToSessions[n]| > MAX_SESSIONS_PER_IP
      modifies this
      ensures Valid()
      ensures jwtToSession == old(jwtToSession) && jwtOrder == old(jwtOrder) && shared == old(shared)
      ensures r.Ok? ==>
        && ipToSessions == old(ipToSessions)[n := old(ipToSessions)[n][1..]]
        && |heap| == old(|heap|) - 1
      ensures Positive(old(Live())) && old(ipToSessions)[n][0] in old(Live()) ==>
        && r.Ok?
        && Live() == old(Live()) - {old(ipToSessions)[n][0]}
        && Positive(Live())
      ensures DataKept(old(Live()), Live())
    {
      r := ForceOut(ipToSessions[n][0]);
      if r.Err? {
        return;
      }
      ipToSessions := ipToSessions[n := ipToSessions[n][1..]];
    }

    /**
     * The eviction loop shared by addition and reattribution: while the
     * bucket is over quota, evict its oldest session. When every live
     * priority is positive and the bucket's oldest sessions are live and
     * distinct, exactly those sessions leave the heap.
     */
    method TrimBucket(n: string) returns (r: Result<(), ContainerError>)
      requires Valid() && n in ipToSessions
      modifies this
      ensures Valid()
      ensures jwtToSession == old(jwtToSession) && jwtOrder == old(jwtOrder) && shared == old(shared)
      ensures r.Ok? ==>
        && ipToSessions == old(ipToSessions)[n := Kept(old(ipToSessions)[n])]
        && |heap| == old(|heap|) - Excess(old(ipToSessions)[n])
      ensures Evictable(old(Live()), old(ipToSessions)[n]) ==>
        && r.Ok?
        && Live() == old(Live()) - ToSet(Dropped(old(ipToSessions)[n]))
        && Positive(Live())
      ensures DataKept(old(Live()), Live())
    {
      hide NormalizeIp;
      ghost var l := ipToSessions[n];
      ghost var live0 := Live();
      ghost var strong := Evictable(live0, l);
      ghost var ips0 := ipToSessions;
      ghost var d: nat := 0;
      while |ipToSessions[n]| > MAX_SESSIONS_PER_IP
        invariant Valid() && d <= Excess(l) && n in ipToSessions
        invariant ipToSessions == ips0[n := l[d..]]
        invariant |heap| == old(|heap|) - d
        invariant jwtToSession == old(jwtToSession) && jwtOrder == old(jwtOrder) && shared == old(shared)
        invariant strong ==> Live() == live0 - ToSet(l[..d]) && Positive(Live())
        invariant DataKept(live0, Live())
        decreases |ipToSessions[n]|
      {
        ghost var before := Live();
        if strong {
          assert l[d] in Dropped(l);
          DroppedStep(l, d);
          RemoveMore(live0, ToSet(l[..d]), l[d]);
        }
        var e := EvictOldest(n);
        DataKeptTrans(live0, before, Live());
        if e.Err? {
          return e;
        }
        assert l[d..][1..] == l[d + 1..];
        assert ipToSessions == ips0[n := l[d + 1..]] by {
          UpdateTwice(ips0, n, l[d..], l[d + 1..]);
        }
        d := d + 1;
      }
      assert d == Excess(l) && l[d..] == Kept(l) && l[..d] == Dropped(l);
      r := Ok(());
    }

    /**
     * `_handle_client_ip_and_session_addition`: appends a new session to its
     * address bucket, then evicts the bucket's oldest sessions while it is
     * over quota.
     */
    method OnSessionAdded(id: string, clientIp: string) returns (r: Result<(), ContainerError>)
      requires Valid()
      modifies this
      ensures Valid()
      ensures jwtToSession == old(jwtToSession) && jwtOrder == old(jwtOrder) && shared == old(shared)
      ensures clientIp == "" ==> r == Ok(()) && unchanged(this)
      ensures clientIp != "" ==>
        var n := NormalizeIp(clientIp);
        var l := Bucket(old(ipToSessions), n) + [id];
        && (r.Ok? ==> ipToSessions == old(ipToSessions)[n := Kept(l)] && |heap| == old(|heap|) - Excess(l))
        && (Evictable(old(Live()), l) ==>
              r.Ok? && Live() == old(Live()) - ToSet(Dropped(l)) && Positive(Live()))
      ensures DataKept(old(Live()), Live())
    {
      hide NormalizeIp;
      if clientIp == "" {
        return Ok(());
      }
      var n := NormalizeIp(clientIp);
      NormalizeIpIdempotent(clientIp);
      if n !in ipToSessions {
        ipToSessions := ipToSessions[n := [id]];
        assert Dropped([id]) == [] && ToSet([]) == {};
        assert Live() == old(Live()) - {};
        return Ok(());
      }
      ipToSessions := ipToSessions[n := ipToSessions[n] + [id]];
      r := TrimBucket(n);
      if r.Ok? {
        UpdateTwice(old(ipToSessions), n, old(ipToSessions)[n] + [id], Kept(old(ipToSessions)[n] + [id]));
      }
    }

    /** `self.heap[self.index_map[session_id]][4] = ...`: stores a new client address in a session's item. */
    method RecordAddress(id: string, clientIp: string)
      requires Valid() && id in indexMap
      modifies this
      ensures Valid()
      ensures Live() == old(Live())[id := old(Live())[id].(clientIp := clientIp)]
      ensures |heap| == old(|heap|) && indexMap == old(indexMap)
      ensures OnlyHeapChanged()
    {
      SetIpKeeps(heap, indexMap, id, clientIp);
      var k := indexMap[id];
      heap := heap[k := heap[k].(clientIp := clientIp)];
    }

    /** Reattribution's bucket edits: out of the old bucket (when it is one), to the end of the new one. */
    method MoveToBucket(id: string, savedIp: string, clientKey: string)
      requires Valid() && NormalizeIp(clientKey) == clientKey
      modifies this
      ensures Valid()
      ensures ipToSessions == Rebucket(old(ipToSessions), savedIp, clientKey, id)
      ensures OnlyBucketsChanged()
    {
      if savedIp != "" && savedIp in ipToSessions {
        var l := RemoveAll(ipToSessions[savedIp], id);
        if l == [] {
          ipToSessions := ipToSessions - {savedIp};
        } else {
          ipToSessions := ipToSessions[savedIp := l];
        }
      }
      AttachKeeps(ipToSessions, clientKey, id);
      ipToSessions := ipToSessions[clientKey := RemoveAll(Bucket(ipToSessions, clientKey), id) + [id]];
    }

    /**
     * `_handle_client_ip_and_session_reattribution`: records the session's
     * new address, moves it from its old bucket to the end of the new one,
     * and evicts the new bucket's oldest sessions while it is over quota.
     */
    method Reattribute(id: string, savedIp: string, clientKey: string) returns (r: Result<(), ContainerError>)
      requires Valid() && id in indexMap && NormalizeIp(clientKey) == clientKey
      modifies this
      ensures Valid()
      ensures jwtToSession == old(jwtToSession) && jwtOrder == old(jwtOrder) && shared == old(shared)
      ensures
        var moved := old(Live())[id := old(Live())[id].(clientIp := clientKey)];
        var b := Rebucket(old(ipToSessions), savedIp, clientKey, id);
        && (r.Ok? ==> ipToSessions == b[clientKey := Kept(b[clientKey])] && |heap| == old(|heap|) - Excess(b[clientKey]))
        && (Evictable(moved, b[clientKey]) ==>
              r.Ok? && Live() == moved - ToSet(Dropped(b[clientKey])) && Positive(Live()))
        && DataKept(moved, Live())
    {
      hide NormalizeIp;
      RecordAddress(id, clientKey);
      MoveToBucket(id, savedIp, clientKey);
      r := TrimBucket(clientKey);
    }

    /**
     * `_handle_client_ip_and_session_priority`: after a session was touched
     * from `clientIp`, a session whose stored address already is that key
     * moves to the end of its bucket; any other session is reattributed.
     */
    method OnSessionTouched(id: string, clientIp: string) returns (r: Result<(), ContainerError>)
      requires Valid() && id in indexMap
      modifies this
      ensures Valid()
      ensures r.Ok? ==> |heap| <= old(|heap|)
      ensures jwtToSession == old(jwtToSession) && jwtOrder == old(jwtOrder) && shared == old(shared)
      ensures clientIp == "" ==> r == Ok(()) && unchanged(this)
      ensures clientIp != "" && old(Live())[id].clientIp == NormalizeIp(clientIp) ==>
        && r == Ok(())
        && ipToSessions == Attach(old(ipToSessions), NormalizeIp(clientIp), id)
        && heap == old(heap) && indexMap == old(indexMap)
      ensures clientIp != "" && old(Live())[id].clientIp != NormalizeIp(clientIp) ==>
        var n := NormalizeIp(clientIp);
        var saved := old(Live())[id].clientIp;
        var moved := old(Live())[id := old(Live())[id].(clientIp := n)];
        var b := Rebucket(old(ipToSessions), saved, n, id);
        && (r.Ok? ==> ipToSessions == b[n := Kept(b[n])] && |heap| == old(|heap|) - Excess(b[n]))
        && (Evictable(moved, b[n]) ==> r.Ok? && Live() == moved - ToSet(Dropped(b[n])) && Positive(Live()))
        && DataKept(moved, Live())
    {
      if clientIp == "" {
        return Ok(());
      }
      var n := NormalizeIp(clientIp);
      NormalizeIpIdempotent(clientIp);
      var saved := heap[indexMap[id]].clientIp;
      if saved == n {
        AttachKeeps(ipToSessions, n, id);
        if n !in ipToSessions {
          ipToSessions := ipToSessions[n := [id]];
        } else {
          ipToSessions := ipToSessions[n := RemoveAll(ipToSessions[n], id) + [id]];
        }
        return Ok(());
      }
      r := Reattribute(id, saved, n);
    }

    /** `push`: adds a session under a fresh id, then applies the per-address quota to its bucket. */
    method Push(priority: int, id: string, data: Storage, clientIp: string) returns (r: Result<(), ContainerError>)
      requires Valid() && id !in indexMap
      modifies this
      ensures Valid()
      ensures r.Ok? ==> |heap| <= old(|heap|) + 1
      ensures jwtToSession == old(jwtToSession) && jwtOrder == old(jwtOrder) && shared == old(shared)
      ensures var pushed := old(Live())[id := Session(priority, data, clientIp)];
        if clientIp == "" then
          r == Ok(()) && Live() == pushed && ipToSessions == old(ipToSessions) && |heap| == old(|heap|) + 1
        else
          var n := NormalizeIp(clientIp);
          var l := Bucket(old(ipToSessions), n) + [id];
          && (r.Ok? ==> ipToSessions == old(ipToSessions)[n := Kept(l)] && |heap| == old(|heap|) + 1 - Excess(l))
          && (Evictable(pushed, l) ==> r.Ok? && Live() == pushed - ToSet(Dropped(l)) && Positive(Live()))
      ensures DataKept(old(Live())[id := Session(priority, data, clientIp)], Live())
      ensures old(Consistent(Registered())) && Positive(old(Live())) && priority > 0 ==>
        && r.Ok?
        && Registered() == AfterPush(old(Registered()), id, Session(priority, data, clientIp))
        && Consistent(Registered()) && Positive(Live())
        && id in Live() && Live()[id] == Session(priority, data, clientIp)
    {
      hide NormalizeIp;
      ghost var g := Registered();
      assert id !in g.live;
      PushItem(priority, id, data, clientIp);
      r := OnSessionAdded(id, clientIp);
      if Consistent(g) && Positive(g.live) && priority > 0 {
        PushConsistent(g, id, Session(priority, data, clientIp));
      }
    }

    /** `pop`: removes a session of least priority and takes it out of its address bucket. */
    method Pop() returns (r: Option<HeapItem>)
      requires Valid()
      modifies this
      ensures Valid()
      ensures |heap| == if old(heap) == [] then 0 else old(|heap|) - 1
      ensures forall id :: id in Live() ==> id in old(Live())
      ensures indexMap.Keys <= old(indexMap.Keys)
      ensures jwtToSession == old(jwtToSession) && jwtOrder == old(jwtOrder) && shared == old(shared)
      ensures old(heap) == [] ==> r == None && unchanged(this)
      ensures old(heap) != [] ==>
        && r.Some?
        && r.value.id in old(Live()) && old(Live())[r.value.id] == SessionOf(r.value)
        && (forall id :: id in old(Live()) ==> r.value.priority <= old(Live())[id].priority)
        && Live() == old(Live()) - {r.value.id}
        && |heap| == old(|heap|) - 1
        && ipToSessions == if r.value.clientIp == "" then old(ipToSessions)
                           else Detach(old(ipToSessions), NormalizeIp(r.value.clientIp), r.value.id)
      ensures old(heap) != [] ==>
        r.Some? && Oldest(old(Live()), r.value.id) && Registered() == AfterPop(old(Registered()), r.value.id)
      ensures old(Consistent(Registered())) ==> Consistent(Registered())
    {
      hide NormalizeIp;
      ghost var g := Registered();
      r := PopItem();
      if r.None? {
        return;
      }
      OnSessionEvicted(r.value.id, r.value.clientIp);
      assert forall id :: id in indexMap ==> id in Live();
      if Consistent(g) {
        PopConsistent(g, r.value.id);
      }
    }

    /**
     * `update_priority`: gives a held session a new priority (failing on an
     * unknown id), then settles its address bucket from `clientIp`.
     */
    method UpdatePriority(id: string, priority: int, clientIp: string) returns (r: Result<(), ContainerError>)
      requires Valid()
      modifies this
      ensures Valid()
      ensures r.Ok? ==> |heap| <= old(|heap|)
      ensures jwtToSession == old(jwtToSession) && jwtOrder == old(jwtOrder) && shared == old(shared)
      ensures id !in old(indexMap) ==> r == Err(SessionNotFound(id)) && unchanged(this)
      ensures id in old(indexMap) ==>
        var upd := old(Live())[id := old(Live())[id].(priority := priority)];
        var n := NormalizeIp(clientIp);
        if clientIp == "" then
          r == Ok(()) && Live() == upd && ipToSessions == old(ipToSessions)
        else if old(Live())[id].clientIp == n then
          r == Ok(()) && Live() == upd && ipToSessions == Attach(old(ipToSessions), n, id)
        else
          var moved := upd[id := upd[id].(clientIp := n)];
          var b := Rebucket(old(ipToSessions), old(Live())[id].clientIp, n, id);
          && (r.Ok? ==> ipToSessions == b[n := Kept(b[n])] && |heap| == old(|heap|) - Excess(b[n]))
          && (Evictable(moved, b[n]) ==> r.Ok? && Live() == moved - ToSet(Dropped(b[n])) && Positive(Live()))
          && DataKept(moved, Live())
      ensures id in old(indexMap) && old(Consistent(Registered())) && Positive(old(Live())) && priority > 0
              && SafeTouch(old(Live())[id].clientIp, clientIp) ==>
        r.Ok? && Registered() == AfterTouch(old(Registered()), id, priority, clientIp)
      ensures id in old(indexMap) && old(Consistent(Registered())) && Positive(old(Live())) && priority > 0
              && SafeTouch(old(Live())[id].clientIp, clientIp) ==>
        Consistent(Registered()) && Positive(Live())
      ensures id in old(indexMap) && old(Consistent(Registered())) && Positive(old(Live())) && priority > 0
              && SafeTouch(old(Live())[id].clientIp, clientIp) ==>
        && id in Live()
        && Live()[id] == old(Live())[id].(priority := priority,
                                          clientIp := if clientIp == "" then old(Live())[id].clientIp else NormalizeIp(clientIp))
    {
      hide NormalizeIp;
      hide Consistent;
      hide Evictable;
      ghost var g := Registered();
      r := UpdateItemPriority(id, priority);
      if r.Err? {
        return;
      }
      assert id in Live();
      hide Sessions;
      r := OnSessionTouched(id, clientIp);
      if id in g.live && Consistent(g) && Positive(g.live) && priority > 0 && SafeTouch(g.live[id].clientIp, clientIp) {
        TouchConsistent(g, id, priority, clientIp);
        MovedAtOnce(g.live, id, priority, NormalizeIp(clientIp));
      }
    }

    /** `get_storage` in isolation-disabled mode: one storage, created on first use, for every request. */
    method SharedStorage() returns (st: Storage)
      modifies this
      ensures shared == Some(st)
      ensures old(shared).Some? ==> st == old(shared).value
      ensures old(shared).None? ==> fresh(st) && st.Valid()
      ensures heap == old(heap) && indexMap == old(indexMap) && ipToSessions == old(ipToSessions)
      ensures jwtToSession == old(jwtToSession) && jwtOrder == old(jwtOrder)
    {
      if shared.None? {
        var s := new Storage();
        shared := Some(s);
      }
      st := shared.value;
    }

    /**
     * `get_storage`'s choice of session: the cookie's id, else the token's
     * session when that is live (moving the token to the end of the order
     * list), else `freshId`.
     */
    method ResolveTarget(cookie: string, token: string, freshId: string) returns (target: string)
      requires Valid()
      modifies this
      ensures Valid()
      ensures target == TargetSession(cookie, token, freshId, old(jwtToSession), old(indexMap))
      ensures jwtOrder == (if cookie == "" && TokenSession(old(jwtToSession), old(indexMap), token) != ""
                           then Refresh(old(jwtOrder), target, token) else old(jwtOrder))
      ensures heap == old(heap) && indexMap == old(indexMap) && ipToSessions == old(ipToSessions)
      ensures jwtToSession == old(jwtToSession) && shared == old(shared)
    {
      target := cookie;
      if target == "" && token != "" {
        var fromToken := if token in jwtToSession then jwtToSession[token] else "";
        if fromToken != "" && fromToken in indexMap {
          target := fromToken;
          RefreshKeeps(jwtToSession, jwtOrder, target, token);
          jwtOrder := Refresh(jwtOrder, target, token);
        }
      }
      if target == "" {
        target := freshId;
      }
    }

    /**
     * `get_storage` on an unknown id: pop the oldest session when the heap
     * is at capacity, then push a new session with a new storage.
     */
    method CreateSession(target: string, clientIp: string, now: int) returns (r: Result<Storage, ContainerError>)
      requires Valid() && target !in indexMap
      modifies this
      ensures Valid()
      ensures jwtToSession == old(jwtToSession) && jwtOrder == old(jwtOrder) && shared == old(shared)
      ensures r.Ok? ==>
        && fresh(r.value)
        && target in Live() && Live()[target].data == r.value
        && |heap| <= old(|heap|) + 1
        && (old(|heap|) >= maxSessions && old(|heap|) > 0 ==> |heap| <= old(|heap|))
      ensures old(|indexMap|) >= maxSessions && old(heap) != [] ==> exists v :: Oldest(old(Live()), v) && v !in Live()
      ensures forall id :: id in Live() && id != target ==> id in old(Live()) && Live()[id].data == old(Live())[id].data
      ensures r.Ok? && old(|indexMap|) >= maxSessions && old(heap) != [] ==>
        exists v :: Oldest(old(Live()), v)
          && DataKept(AfterPop(old(Registered()), v).live[target := Session(now, r.value, clientIp)], Live())
          && ipToSessions == AfterPush(AfterPop(old(Registered()), v), target, Session(now, r.value, clientIp)).ips
      ensures r.Ok? && (old(|indexMap|) < maxSessions || old(heap) == []) ==>
        && DataKept(old(Live())[target := Session(now, r.value, clientIp)], Live())
        && ipToSessions == AfterPush(old(Registered()), target, Session(now, r.value, clientIp)).ips
      ensures old(Consistent(Registered())) && Positive(old(Live())) && now > 0 ==>
        && r.Ok?
        && (old(|indexMap|) >= maxSessions && old(heap) != [] ==>
              exists v :: Oldest(old(Live()), v)
                && Registered() == AfterPush(AfterPop(old(Registered()), v), target, Session(now, r.value, clientIp)))
        && (old(|indexMap|) < maxSessions || old(heap) == [] ==>
              Registered() == AfterPush(old(Registered()), target, Session(now, r.value, clientIp)))
        && Consistent(Registered()) && Positive(Live())
        && target in Live() && Live()[target] == Session(now, r.value, clientIp)
    {
      hide NormalizeIp;
      hide Consistent;
      hide Evictable;
      ghost var g := Registered();
      ghost var mid := g;
      ghost var v := "";
      IndexedSize(heap, indexMap);
      if |indexMap| >= maxSessions {
        var evicted := Pop();
        if evicted.Some? {
          v := evicted.value.id;
          assert Oldest(g.live, v) && v !in Live();
          assert target != v;
          mid := AfterPop(g, v);
        }
      }
      assert Registered() == mid && DataKept(g.live, mid.live);
      var data := new Storage();
      var p := Push(now, target, data, clientIp);
      ghost var s := Session(now, data, clientIp);
      DataKeptAdded(g.live, mid.live, Live(), target, s);
      if p.Err? {
        return Err(p.error);
      }
      assert ipToSessions == AfterPush(mid, target, s).ips;
      if target !in indexMap {
        return Err(SessionLost(target));
      }
      assert target in Live();
      r := Ok(data);
      if old(|indexMap|) >= maxSessions && old(heap) != [] {
        assert Oldest(g.live, v) && mid == AfterPop(g, v);
      }
    }

    /**
     * `get_storage`: resolves the request's session, then either touches the
     * existing session at time `now` or creates it. `freshId` stands for
     * `uuid4()`. With isolation disabled every request gets one shared
     * storage and no session id.
     */
    method GetStorage(cookie: string, clientIp: string, token: string, now: int, freshId: string)
      returns (r: Result<Access, ContainerError>)
      requires Valid()
      modifies this
      ensures Valid()
      ensures isolationDisabled ==>
        && r.Ok? && r.value.sessionId == None && shared == Some(r.value.storage)
        && (old(shared).Some? ==> r.value.storage == old(shared).value)
        && heap == old(heap) && indexMap == old(indexMap) && ipToSessions == old(ipToSessions)
        && jwtToSession == old(jwtToSession) && jwtOrder == old(jwtOrder)
      ensures !isolationDisabled ==>
        var t := TargetSession(cookie, token, freshId, old(jwtToSession), old(indexMap));
        && shared == old(shared) && jwtToSession == old(jwtToSession)
        && jwtOrder == (if cookie == "" && TokenSession(old(jwtToSession), old(indexMap), token) != ""
                        then Refresh(old(jwtOrder), t, token) else old(jwtOrder))
        && (r.Ok? ==> r.value.sessionId == Some(t))
        && (t in old(indexMap) && r.Ok? ==> r.value.storage == old(Live())[t].data && |indexMap| <= old(|indexMap|))
        && (t !in old(indexMap) && r.Ok? ==>
              && fresh(r.value.storage)
              && t in Live() && Live()[t].data == r.value.storage
              && (1 <= maxSessions && old(|indexMap|) <= maxSessions ==> |indexMap| <= maxSessions))
      ensures !isolationDisabled ==>
        var t := TargetSession(cookie, token, freshId, old(jwtToSession), old(indexMap));
        t in old(indexMap) && (clientIp == "" || old(Live())[t].clientIp == NormalizeIp(clientIp)) ==>
          && r.Ok?
          && Live() == old(Live())[t := old(Live())[t].(priority := now)]
      ensures !isolationDisabled ==>
        var t := TargetSession(cookie, token, freshId, old(jwtToSession), old(indexMap));
        t in old(indexMap) && old(Consistent(Registered())) && Positive(old(Live())) && now > 0
        && SafeTouch(old(Live())[t].clientIp, clientIp) ==>
          && r.Ok?
          && Registered() == AfterTouch(old(Registered()), t, now, clientIp)
          && Consistent(Registered()) && Positive(Live())
          && t in Live() && Live()[t].priority == now && Live()[t].data == r.value.storage
      ensures !isolationDisabled ==>
        var t := TargetSession(cookie, token, freshId, old(jwtToSession), old(indexMap));
        t !in old(indexMap) && old(Consistent(Registered())) && Positive(old(Live())) && now > 0 ==>
          && r.Ok?
          && Consistent(Registered()) && Positive(Live())
          && t in Live() && Live()[t] == Session(now, r.value.storage, clientIp)
    {
      hide NormalizeIp;
      if isolationDisabled {
        var st := SharedStorage();
        return Ok(Access(None, st));
      }
      IndexedSize(heap, indexMap);
      var target := ResolveTarget(cookie, token, freshId);
      if target !in indexMap {
        var c := CreateSession(target, clientIp, now);
        IndexedSize(heap, indexMap);
        if c.Err? {
          return Err(c.error);
        }
        return Ok(Access(Some(target), c.value));
      }
      var st := heap[indexMap[target]].data;
      assert st == old(Live())[target].data;
      var u := UpdatePriority(target, now, clientIp);
      IndexedSize(heap, indexMap);
      if u.Err? {
        return Err(u.error);
      }
      r := Ok(Access(Some(target), st));
    }

    /**
     * `find_session_by_credentials`: the first session, in heap order,
     * whose users include one with the given email and password hash;
     * nothing when none does or isolation is disabled.
     */
    method FindSessionByCredentials(email: string, password: string) returns (r: Option<(string, Storage)>)
      requires Valid()
      ensures isolationDisabled ==> r == None
      ensures !isolationDisabled && r.None? ==> forall i :: 0 <= i < |heap| ==> !HasUser(heap[i].data, email, password)
      ensures r.Some? ==>
        exists i :: 0 <= i < |heap| && r.value == (heap[i].id, heap[i].data)
          && HasUser(heap[i].data, email, password)
          && forall j :: 0 <= j < i ==> !HasUser(heap[j].data, email, password)
      ensures r.Some? ==> r.value.0 in Live() && Live()[r.value.0].data == r.value.1
    {
      if isolationDisabled {
        return None;
      }
      var i: nat := 0;
      while i < |heap|
        invariant i <= |heap|
        invariant forall j :: 0 <= j < i ==> !HasUser(heap[j].data, email, password)
      {
        var found := UsersMatch(heap[i].data, email, password);
        if found {
          return Some((heap[i].id, heap[i].data));
        }
        i := i + 1;
      }
      return None;
    }

    /**
     * `bind_jwt_to_session_id`: unbinds the token, every token of the
     * session and, when the order list is full, its oldest token; then
     * binds the token to the session as the newest entry.
     */
    method BindJwtToSession(token: string, sid: string) returns (r: Result<(), ContainerError>)
      requires Valid()
      modifies this
      ensures Valid()
      ensures heap == old(heap) && indexMap == old(indexMap) && ipToSessions == old(ipToSessions) && shared == old(shared)
      ensures isolationDisabled ==> r == Ok(()) && unchanged(this)
      ensures !isolationDisabled && |old(jwtOrder)| >= maxSessions && old(jwtOrder) == [] ==>
        r == Err(NoOldestToken) && unchanged(this)
      ensures !isolationDisabled && (|old(jwtOrder)| >= maxSessions ==> old(jwtOrder) != []) ==>
        && r == Ok(())
        && jwtToSession == BoundMap(old(jwtToSession), old(jwtOrder), token, sid, maxSessions)
        && jwtOrder == BoundOrder(old(jwtToSession), old(jwtOrder), token, sid, maxSessions)
    {
      if isolationDisabled {
        return Ok(());
      }
      var remove := set t | t in jwtToSession && (t == token || jwtToSession[t] == sid);
      if |jwtOrder| >= maxSessions {
        if jwtOrder == [] {
          return Err(NoOldestToken);
        }
        remove := remove + {jwtOrder[0]};
      }
      assert remove == Unbound(jwtToSession, jwtOrder, token, sid, maxSessions);
      BindSpec(jwtToSession, jwtOrder, token, sid, maxSessions);
      var bindings := Unbind(jwtToSession, remove);
      jwtToSession := bindings[token := sid];
      jwtOrder := RemoveSet(jwtOrder, remove) + [token];
      r := Ok(());
    }
  }
}
