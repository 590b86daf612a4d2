/**
  The indexed limiter of `internal/auth/limiter.go`: one map from key to bucket, one
  list in expiry order and six eviction lists by failure count, all updated in place
  and never scanned. Every method is tied to the scanning table of `LimiterSpec`.
 */
module Limiter {
  import opened Common
  import opened LimiterSpec

  // ----- linked lists without their links

  /** The place of an element, which its list handle gives in constant time. */
  function PositionOf<T(==)>(s: seq<T>, x: T): (i: nat)
    requires x in s
    ensures i < |s| && s[i] == x
  {
    if s[0] == x then 0 else 1 + PositionOf(s[1..], x)
  }

  function Without<T(==)>(s: seq<T>, x: T): seq<T> {
    if x in s then var i := PositionOf(s, x); s[..i] + s[i + 1..] else s
  }

  lemma WithoutFacts<T>(s: seq<T>, x: T)
    requires Distinct(s)
    ensures Distinct(Without(s, x))
    ensures forall y :: y in Without(s, x) <==> y in s && y != x
    ensures x in s ==> |Without(s, x)| == |s| - 1
  {
    if x in s {
      var i := PositionOf(s, x);
      var r := s[..i] + s[i + 1..];
      forall y | y in s && y != x ensures y in r {
        var j :| 0 <= j < |s| && s[j] == y;
        assert r[if j < i then j else j - 1] == y;
      }
    }
  }

  class Bucket {
    const key: Key
    const expiresAt: int
    ghost const gen: nat
    var failures: nat
    var pending: nat
    var inExpiry: bool
    var inEviction: bool
    ghost var idleSince: nat

    constructor (key: Key, failures: nat, pending: nat, expiresAt: int, ghost gen: nat)
      ensures this.key == key && this.failures == failures && this.pending == pending
      ensures this.expiresAt == expiresAt && this.gen == gen && idleSince == 0 && !inExpiry && !inEviction
    {
      this.key, this.expiresAt, this.gen := key, expiresAt, gen;
      this.failures, this.pending := failures, pending;
      inExpiry, inEviction, idleSince := false, false, 0;
    }

    ghost function Abs(): Entry
      reads this
    {
      Entry(gen, failures, pending, expiresAt, idleSince)
    }
  }

  /** One reserved attempt; `done` is what makes completing it twice harmless. */
  class Admission {
    const key: Key
    const bucket: Bucket
    var done: bool

    constructor (key: Key, bucket: Bucket)
      ensures this.key == key && this.bucket == bucket && !done
    {
      this.key, this.bucket, done := key, bucket, false;
    }
  }

  // ----- the three indexes

  predicate LiveIn(buckets: map<Key, Bucket>, b: Bucket) {
    b.key in buckets && buckets[b.key] == b
  }

  /** Every key leads to a bucket of that key. */
  ghost predicate Keyed(buckets: map<Key, Bucket>) {
    forall k :: k in buckets ==> buckets[k].key == k
  }

  /** The expiry list holds exactly the live buckets, once each, in expiry order. */
  ghost predicate ExpiryOk(buckets: map<Key, Bucket>, expiry: seq<Bucket>, latest: int) {
    && Distinct(expiry)
    && (forall b :: b in expiry ==> LiveIn(buckets, b) && b.expiresAt <= latest)
    && (forall k :: k in buckets ==> buckets[k] in expiry)
    && InExpiryOrder(expiry)
  }

  ghost predicate InExpiryOrder(expiry: seq<Bucket>) {
    forall i, j :: 0 <= i < j < |expiry| ==> expiry[i].expiresAt <= expiry[j].expiresAt
  }

  ghost predicate ListOk(buckets: map<Key, Bucket>, list: seq<Bucket>, f: nat, tick: nat)
    reads buckets.Values
  {
    && Distinct(list)
    && (forall b :: b in list ==> LiveIn(buckets, b) && b.inEviction && b.failures == f && b.idleSince < tick)
    && (forall i, j :: 0 <= i < j < |list| ==>
          LiveIn(buckets, list[i]) && LiveIn(buckets, list[j]) && list[i].idleSince < list[j].idleSince)
  }

  /** Eviction list `f` holds exactly the live buckets flagged as listed with `f` failures, longest idle first. */
  ghost predicate EvictionOk(buckets: map<Key, Bucket>, evictable: seq<seq<Bucket>>, tick: nat)
    reads buckets.Values
  {
    && |evictable| == FAILURE_LIMIT + 1
    && (forall f :: 0 <= f <= FAILURE_LIMIT ==> ListOk(buckets, evictable[f], f, tick))
    && (forall k :: k in buckets && buckets[k].inEviction ==>
          buckets[k].failures <= FAILURE_LIMIT && buckets[k] in evictable[buckets[k].failures])
  }

  function Unlisted(evictable: seq<seq<Bucket>>, f: nat, b: Bucket): (r: seq<seq<Bucket>>)
    ensures |r| == |evictable|
  {
    if f < |evictable| then evictable[f := Without(evictable[f], b)] else evictable
  }

  lemma ExpiryWithout(buckets: map<Key, Bucket>, expiry: seq<Bucket>, latest: int, b: Bucket)
    requires Keyed(buckets) && ExpiryOk(buckets, expiry, latest) && LiveIn(buckets, b)
    ensures ExpiryOk(buckets - {b.key}, Without(expiry, b), latest) && Keyed(buckets - {b.key})
    ensures b !in (buckets - {b.key}).Values && |Without(expiry, b)| < |expiry|
  {
    hide InExpiryOrder, Without;
    WithoutFacts(expiry, b);
    OrderWithout(expiry, b);
    var rest := buckets - {b.key};
    forall c | c in Without(expiry, b) ensures LiveIn(rest, c) && c.expiresAt <= latest {
      assert LiveIn(buckets, c);
    }
  }

  lemma OrderWithout(expiry: seq<Bucket>, b: Bucket)
    requires InExpiryOrder(expiry)
    ensures InExpiryOrder(Without(expiry, b))
  {}

  lemma ListThinned(buckets: map<Key, Bucket>, list: seq<Bucket>, f: nat, tick: nat, b: Bucket)
    requires ListOk(buckets, list, f, tick)
    ensures ListOk(buckets, Without(list, b), f, tick)
  {
    WithoutFacts(list, b);
  }

  lemma ListUntouched(buckets: map<Key, Bucket>, list: seq<Bucket>, f: nat, tick: nat, b: Bucket)
    requires ListOk(buckets, list, f, tick) && LiveIn(buckets, b) && b !in list
    ensures ListOk(buckets - {b.key}, list, f, tick)
  {
    var rest := buckets - {b.key};
    forall c | c in list ensures LiveIn(rest, c) {
      assert LiveIn(buckets, c) && c != b;
    }
  }

  lemma ListWithout(buckets: map<Key, Bucket>, list: seq<Bucket>, f: nat, tick: nat, b: Bucket)
    requires ListOk(buckets, list, f, tick) && LiveIn(buckets, b)
    ensures ListOk(buckets - {b.key}, Without(list, b), f, tick)
    ensures ListOk(buckets, Without(list, b), f, tick)
  {
    ListThinned(buckets, list, f, tick, b);
    WithoutFacts(list, b);
    hide ListOk, Without;
    ListUntouched(buckets, Without(list, b), f, tick, b);
  }

  /** Taking a live bucket out of the map and out of its list. */
  lemma EvictionWithout(buckets: map<Key, Bucket>, evictable: seq<seq<Bucket>>, tick: nat, b: Bucket)
    requires Keyed(buckets) && EvictionOk(buckets, evictable, tick) && LiveIn(buckets, b)
    ensures EvictionOk(buckets - {b.key}, if b.inEviction then Unlisted(evictable, b.failures, b) else evictable, tick)
  {
    hide ListOk;
    var rest := buckets - {b.key};
    var lists := if b.inEviction then Unlisted(evictable, b.failures, b) else evictable;
    forall f | 0 <= f <= FAILURE_LIMIT ensures ListOk(rest, lists[f], f, tick) {
      ListWithout(buckets, evictable[f], f, tick, b);
      NotListed(buckets, evictable[f], f, tick, b);
    }
    forall k | k in rest && rest[k].inEviction
      ensures rest[k].failures <= FAILURE_LIMIT && rest[k] in lists[rest[k].failures]
    {
      ListWithoutOthers(buckets, evictable[rest[k].failures], rest[k].failures, tick, b);
    }
  }

  lemma NotListed(buckets: map<Key, Bucket>, list: seq<Bucket>, f: nat, tick: nat, b: Bucket)
    requires ListOk(buckets, list, f, tick)
    ensures b in list ==> b.inEviction && b.failures == f
    ensures b !in list ==> Without(list, b) == list
  {}

  lemma ListWithoutOthers(buckets: map<Key, Bucket>, list: seq<Bucket>, f: nat, tick: nat, b: Bucket)
    requires ListOk(buckets, list, f, tick)
    ensures forall c :: c in list && c != b ==> c in Without(list, b)
  {
    hide Without;
    WithoutFacts(list, b);
  }

  // ----- reservations and generations

  /** The unfinished admissions of a bucket. */
  ghost function OpenOf(issued: set<Admission>, b: Bucket): set<Admission>
    reads issued
  {
    set a | a in issued && !a.done && a.bucket == b
  }

  ghost predicate BucketOk(b: Bucket, issued: set<Admission>, nextGen: nat)
    reads b, issued
  {
    && b.inExpiry && b.gen < nextGen && b.failures <= FAILURE_LIMIT
    && b.pending == |OpenOf(issued, b)|
    && (b.inEviction <==> b.pending == 0)
    && (b.pending == 0 ==> b.failures >= 1)
  }

  ghost predicate CountsOk(buckets: map<Key, Bucket>, issued: set<Admission>, nextGen: nat)
    reads buckets.Values, issued
  {
    forall k :: k in buckets ==> BucketOk(buckets[k], issued, nextGen)
  }

  /** Generation numbers identify buckets, dead or alive. */
  ghost predicate GenerationsOk(buckets: map<Key, Bucket>, issued: set<Admission>, nextGen: nat) {
    && (forall a :: a in issued ==> a.bucket.gen < nextGen && a.bucket.key == a.key)
    && (forall a, k :: a in issued && k in buckets && buckets[k].gen == a.bucket.gen ==> buckets[k] == a.bucket)
    && (forall j, k :: j in buckets && k in buckets && buckets[j].gen == buckets[k].gen ==> buckets[j] == buckets[k])
  }

  ghost function Entries(buckets: map<Key, Bucket>): map<Key, Entry>
    reads buckets.Values
  {
    map k | k in buckets :: buckets[k].Abs()
  }

  lemma FewerBuckets(buckets: map<Key, Bucket>, issued: set<Admission>, nextGen: nat, key: Key)
    ensures CountsOk(buckets, issued, nextGen) ==> CountsOk(buckets - {key}, issued, nextGen)
    ensures GenerationsOk(buckets, issued, nextGen) ==> GenerationsOk(buckets - {key}, issued, nextGen)
    ensures Entries(buckets - {key}) == Entries(buckets) - {key}
    ensures |buckets - {key}| <= |buckets| && (key in buckets ==> |buckets - {key}| == |buckets| - 1)
  {
    hide BucketOk;
    var rest := buckets - {key};
    if key in buckets {
      assert buckets.Keys == rest.Keys + {key};
      assert |buckets.Keys| == |rest.Keys| + 1;
    } else {
      assert rest == buckets;
    }
  }

  class Limiter {
    const capacity: nat
    var buckets: map<Key, Bucket>
    var expiry: seq<Bucket>
    var evictable: seq<seq<Bucket>>
    ghost var nextGen: nat
    ghost var tick: nat
    ghost var lastNow: int
    ghost var issued: set<Admission>

    ghost predicate Indexed()
      reads this, buckets.Values
    {
      Keyed(buckets) && ExpiryOk(buckets, expiry, lastNow + WINDOW) && EvictionOk(buckets, evictable, tick)
    }

    ghost predicate Valid()
      reads this, buckets.Values, issued
    {
      && Indexed()
      && CountsOk(buckets, issued, nextGen)
      && GenerationsOk(buckets, issued, nextGen)
      && 0 < capacity && |buckets| <= capacity
    }

    ghost function Abs(): Table
      reads this, buckets.Values
    {
      Table(Entries(buckets), nextGen, tick)
    }

    constructor (capacity: nat, ghost now: int)
      requires capacity >= FAILURE_LIMIT
      ensures Valid() && Abs() == Table(map[], 0, 0) && issued == {} && lastNow == now && this.capacity == capacity
    {
      this.capacity := capacity;
      buckets, expiry := map[], [];
      evictable := seq(FAILURE_LIMIT + 1, _ => []);
      nextGen, tick, lastNow, issued := 0, 0, now, {};
    }

    // ----- list surgery

    method RemoveEvictable(b: Bucket)
      requires |evictable| == FAILURE_LIMIT + 1
      requires b.inEviction ==> b.failures <= FAILURE_LIMIT
      modifies this`evictable, b`inEviction
      ensures !b.inEviction
      ensures evictable == if old(b.inEviction) then Unlisted(old(evictable), b.failures, b) else old(evictable)
    {
      if b.inEviction {
        evictable := evictable[b.failures := Without(evictable[b.failures], b)];
        b.inEviction := false;
      }
    }

    method DeleteBucket(b: Bucket)
      requires Indexed()
      requires LiveIn(buckets, b) ==> b.inExpiry
      modifies this`buckets, this`expiry, this`evictable, b`inExpiry, b`inEviction
      ensures Indexed()
      ensures !old(LiveIn(buckets, b)) ==> buckets == old(buckets)
      ensures old(LiveIn(buckets, b)) ==> buckets == old(buckets) - {b.key}
      ensures old(LiveIn(buckets, b)) ==> b !in buckets.Values && |expiry| < old(|expiry|)
    {
      hide Keyed, ExpiryOk, EvictionOk, Unlisted, Without;
      if b.key !in buckets || buckets[b.key] != b {
        return;
      }
      ExpiryWithout(buckets, expiry, lastNow + WINDOW, b);
      EvictionWithout(buckets, evictable, tick, b);
      EvictionShape(buckets, evictable, tick, b);
      buckets := buckets - {b.key};
      if b.inExpiry {
        expiry := Without(expiry, b);
        b.inExpiry := false;
      }
      RemoveEvictable(b);
    }

    /** Deleting a live bucket deletes its entry and nothing else. */
    method Evict(b: Bucket)
      requires Valid() && LiveIn(buckets, b)
      modifies this`buckets, this`expiry, this`evictable, b
      ensures Valid()
      ensures buckets == old(buckets) - {b.key} && |expiry| < old(|expiry|)
      ensures buckets.Values <= old(buckets.Values)
      ensures Abs() == old(Abs()).(entries := old(Abs()).entries - {b.key})
      ensures b.key in old(buckets) ==> |buckets| == |old(buckets)| - 1
    {
      hide Keyed, ExpiryOk, EvictionOk, CountsOk, GenerationsOk, Entries, BucketOk;
      FewerBuckets(buckets, issued, nextGen, b.key);
      BucketListed(buckets, issued, nextGen, b);
      DeleteBucket(b);
    }

    // ----- expiry

    method PruneExpired(now: int)
      requires Valid() && lastNow <= now
      modifies this, buckets.Values
      ensures Valid() && lastNow == now
      ensures Abs() == Prune(old(Abs()), now)
      ensures buckets.Values <= old(buckets.Values)
      ensures issued == old(issued) && nextGen == old(nextGen) && tick == old(tick)
    {
      hide Keyed, ExpiryOk, EvictionOk, CountsOk, GenerationsOk, Entries, Prune;
      LaterBound(buckets, expiry, lastNow + WINDOW, now + WINDOW);
      lastNow := now;
      while |expiry| > 0
        invariant Valid() && lastNow == now
        invariant Prune(Abs(), now) == Prune(old(Abs()), now)
        invariant buckets.Values <= old(buckets.Values)
        invariant issued == old(issued) && nextGen == old(nextGen) && tick == old(tick)
        decreases |expiry|
      {
        var b := expiry[0];
        FrontIsLive(buckets, expiry, now + WINDOW);
        if now < b.expiresAt {
          PrunedAlready(buckets, expiry, now, nextGen, tick);
          return;
        }
        LiveBucketOk(buckets, issued, nextGen, b);
        PruneExpiredEntry(Abs(), b.key, now);
        Evict(b);
      }
      PrunedAlready(buckets, expiry, now, nextGen, tick);
    }

    // ----- eviction

    method MakeRoom() returns (ok: bool)
      requires Valid()
      modifies this`buckets, this`expiry, this`evictable, buckets.Values
      ensures Valid()
      ensures var room := LimiterSpec.MakeRoom(old(Abs()), capacity);
              ok == room.Free? && Abs() == if ok then room.table else old(Abs())
      ensures buckets.Keys <= old(buckets).Keys && buckets.Values <= old(buckets.Values)
      ensures ok ==> |buckets| < capacity
    {
      hide Keyed, ExpiryOk, ListOk, CountsOk, GenerationsOk, Entries, IsVictim;
      EntryCount(buckets);
      if |buckets| < capacity {
        return true;
      }
      for failures := 0 to FAILURE_LIMIT + 1
        invariant forall g :: 0 <= g < failures ==> evictable[g] == []
        invariant buckets == old(buckets) && expiry == old(expiry) && evictable == old(evictable)
        invariant forall b :: b in buckets.Values ==> unchanged(b)
      {
        if |evictable[failures]| > 0 {
          var b := evictable[failures][0];
          FrontIsVictim(buckets, evictable, issued, nextGen, tick, failures);
          VictimIs(Entries(buckets), b.key);
          EntryCount(buckets);
          Evict(b);
          return true;
        }
      }
      NobodyIdle(buckets, evictable, issued, nextGen, tick);
      return false;
    }

    method AddEvictable(b: Bucket)
      requires |evictable| == FAILURE_LIMIT + 1 && b.failures <= FAILURE_LIMIT
      modifies this`evictable, this`tick, b`inEviction, b`idleSince
      ensures b.inEviction
      ensures !old(b.inEviction) ==>
                evictable == old(evictable)[b.failures := old(evictable)[b.failures] + [b]] &&
                b.idleSince == old(tick) && tick == old(tick) + 1
      ensures old(b.inEviction) ==> evictable == old(evictable) && tick == old(tick) && b.idleSince == old(b.idleSince)
    {
      if !b.inEviction {
        evictable := evictable[b.failures := evictable[b.failures] + [b]];
        b.inEviction := true;
        b.idleSince, tick := tick, tick + 1;
      }
    }

    // ----- opening a bucket

    method OpenBucket(key: Key, failures: nat, pending: nat, now: int) returns (b: Bucket)
      requires Indexed() && key !in buckets && now == lastNow
      modifies this`buckets, this`expiry, this`nextGen
      ensures fresh(b) && b.key == key && b.failures == failures && b.pending == pending && b.gen == old(nextGen)
      ensures b.expiresAt == lastNow + WINDOW && b.inExpiry && !b.inEviction && b.idleSince == 0
      ensures buckets == old(buckets)[key := b] && nextGen == old(nextGen) + 1
      ensures Keyed(buckets) && ExpiryOk(buckets, expiry, lastNow + WINDOW)
      ensures buckets - {key} == old(buckets) && b !in old(buckets).Values
    {
      hide EvictionOk;
      b := new Bucket(key, failures, pending, now + WINDOW, nextGen);
      ExpiryAppend(buckets, expiry, lastNow + WINDOW, b);
      expiry := expiry + [b];
      b.inExpiry := true;
      buckets := buckets[key := b];
      nextGen := nextGen + 1;
      assert buckets - {key} == old(buckets);
    }

    /** Hands out an admission the bucket already counts. */
    method Issue(b: Bucket) returns (a: Admission)
      requires Indexed() && GenerationsOk(buckets, issued, nextGen) && |buckets| <= capacity && 0 < capacity
      requires LiveIn(buckets, b) && CountsOk(buckets - {b.key}, issued, nextGen)
      requires b.pending == |OpenOf(issued, b)| + 1 && b.inExpiry && b.gen < nextGen && b.failures <= FAILURE_LIMIT && !b.inEviction
      modifies this`issued
      ensures Valid() && fresh(a) && a.key == b.key && a.bucket == b && !a.done
      ensures issued == old(issued) + {a}
    {
      hide Keyed, ExpiryOk, EvictionOk, CountsOk, BucketOk, OpenOf, GenerationsOk;
      a := new Admission(b.key, b);
      OneMoreOpen(issued, a);
      NotAmongOthers(buckets, b);
      CountsWithoutAdmission(buckets - {b.key}, issued, nextGen, a);
      IssuedGeneration(buckets, issued, nextGen, a);
      issued := issued + {a};
      OpenedOk(b, issued, nextGen);
      CountsRejoin(buckets, issued, nextGen, b);
    }

    /** The first admission of a new bucket. */
    method AdmitFirst(key: Key, now: int) returns (a: Admission)
      requires Valid() && key !in buckets && |buckets| < capacity && now == lastNow
      modifies this`buckets, this`expiry, this`nextGen, this`issued
      ensures Valid() && fresh(a) && a.key == key && !a.done && a.bucket.gen == old(nextGen)
      ensures issued == old(issued) + {a} && LiveIn(buckets, a.bucket)
      ensures Abs() == Table(old(Abs()).entries[key := Entry(old(nextGen), 0, 1, now + WINDOW, 0)], old(nextGen) + 1, tick)
    {
      hide Keyed, ExpiryOk, EvictionOk, CountsOk, GenerationsOk, Entries, BucketOk, OpenOf;
      ghost var before := buckets;
      var b := OpenBucket(key, 0, 1, now);
      assert EvictionOk(before, evictable, tick) && CountsOk(before, issued, old(nextGen)) && GenerationsOk(before, issued, old(nextGen));
      Opened(before, evictable, tick, issued, old(nextGen), b);
      assert Entries(before) == old(Entries(buckets));
      a := Issue(b);
    }

    /** The bucket a late failure opens: no work in flight, so it is evictable at once. */
    method OpenFailed(key: Key, now: int)
      requires Valid() && key !in buckets && |buckets| < capacity && now == lastNow
      modifies this`buckets, this`expiry, this`evictable, this`nextGen, this`tick
      ensures Valid()
      ensures Abs() == Table(old(Abs()).entries[key := Entry(old(nextGen), 1, 0, now + WINDOW, old(tick))],
                             old(nextGen) + 1, old(tick) + 1)
    {
      hide Keyed, ExpiryOk, EvictionOk, CountsOk, GenerationsOk, Entries, BucketOk;
      var b := OpenBucket(key, 1, 0, now);
      Opened(old(buckets), evictable, tick, issued, old(nextGen), b);
      ghost var lists := evictable;
      EvictionSize(buckets, evictable, tick);
      AddEvictable(b);
      EvictionAppend(buckets, lists, old(tick), b);
      EntriesRejoin(buckets, b);
      ConcludedOk(b, issued, nextGen);
      CountsRejoin(buckets, issued, nextGen, b);
    }

    method RecordLateFailure(key: Key, now: int)
      requires Valid() && now == lastNow
      modifies this`buckets, this`expiry, this`evictable, this`nextGen, this`tick, buckets.Values
      ensures Valid()
      ensures Abs() == LateFailure(old(Abs()), capacity, key, now)
    {
      hide ExpiryOk, EvictionOk, CountsOk, GenerationsOk, Entries, LimiterSpec.MakeRoom;
      EntryCount(buckets);
      if key in buckets {
        LateFailureInPlace(buckets[key]);
        return;
      }
      var ok := MakeRoom();
      if ok {
        OpenFailed(key, now);
      }
    }

    method LateFailureInPlace(b: Bucket)
      requires Valid() && LiveIn(buckets, b)
      modifies this`evictable, this`tick, b
      ensures Valid()
      ensures Abs() == LateFailure(old(Abs()), capacity, b.key, lastNow)
    {
      hide Keyed, ExpiryOk, EvictionOk, CountsOk, GenerationsOk, Entries, BucketOk, OpenOf, Unlisted, LimiterSpec.MakeRoom;
      Apart(buckets, evictable, tick, issued, nextGen, b);
      BucketFacts(buckets, issued, nextGen, b);
      BucketListed(buckets, issued, nextGen, b);
      RemoveEvictable(b);
      if b.failures < FAILURE_LIMIT {
        b.failures := b.failures + 1;
      }
      ghost var lists := evictable;
      if b.pending == 0 {
        AddEvictable(b);
        EvictionAppend(buckets, lists, old(tick), b);
      } else {
        EvictionRejoin(buckets, evictable, tick, b);
      }
      EntriesRejoin(buckets, b);
      Overwrite(Entries(buckets - {b.key}), b.key, old(b.Abs()), b.Abs());
      ConcludedOk(b, issued, nextGen);
      CountsRejoin(buckets, issued, nextGen, b);
    }

    /** One more admission of a bucket below its quota. */
    method AdmitAgain(b: Bucket) returns (a: Admission)
      requires Valid() && LiveIn(buckets, b)
      modifies this`evictable, this`issued, b`inEviction, b`pending
      ensures Valid() && fresh(a) && a.key == b.key && !a.done && a.bucket == b
      ensures issued == old(issued) + {a}
      ensures Abs() == old(Abs()).(entries := old(Abs()).entries[b.key := old(b.Abs()).(pending := old(b.pending) + 1)])
    {
      hide Keyed, ExpiryOk, EvictionOk, CountsOk, GenerationsOk, Entries, BucketOk, OpenOf, Unlisted;
      Apart(buckets, evictable, tick, issued, nextGen, b);
      BucketFacts(buckets, issued, nextGen, b);
      RemoveEvictable(b);
      b.pending := b.pending + 1;
      EvictionRejoin(buckets, evictable, tick, b);
      EntriesRejoin(buckets, b);
      Overwrite(Entries(buckets - {b.key}), b.key, old(b.Abs()), b.Abs());
      a := Issue(b);
    }

    // ----- the public operations

    method Admit(key: Key, now: int) returns (a: Admission?, retry: int)
      requires Valid() && lastNow <= now
      modifies this, buckets.Values
      ensures Valid() && lastNow == now
      ensures var (t, o) := LimiterSpec.Admit(old(Abs()), capacity, key, now);
              Abs() == t && (a != null) == o.Admitted? && retry == (if o.Refused? then o.retry else 0) &&
              (a != null ==> a.bucket.gen == o.gen)
      ensures a != null ==> fresh(a) && a.key == key && !a.done && issued == old(issued) + {a}
      ensures a == null ==> issued == old(issued)
    {
      hide ExpiryOk, EvictionOk, CountsOk, GenerationsOk, Entries, BucketOk, LimiterSpec.MakeRoom, Prune;
      PruneExpired(now);
      EntryCount(buckets);
      if key in buckets {
        var bucket := buckets[key];
        LiveBucketOk(buckets, issued, nextGen, bucket);
        if bucket.failures + bucket.pending >= FAILURE_LIMIT {
          return null, RetryDuration(bucket.expiresAt, now);
        }
        a := AdmitAgain(bucket);
        return a, 0;
      }
      var ok := MakeRoom();
      if !ok {
        return null, SECOND;
      }
      a := AdmitFirst(key, now);
      retry := 0;
    }

    method Complete(a: Admission?, result: Completion, now: int)
      requires Valid() && lastNow <= now
      requires a != null ==> a in issued
      modifies this, buckets.Values, a
      ensures Valid()
      ensures a == null || old(a.done) ==> Abs() == old(Abs()) && lastNow == old(lastNow)
      ensures a != null && !old(a.done) ==>
                lastNow == now && a.done &&
                Abs() == LimiterSpec.Complete(old(Abs()), capacity, a.key, a.bucket.gen, result, now)
      ensures issued == old(issued)
    {
      hide ExpiryOk, EvictionOk, CountsOk, GenerationsOk, Entries, BucketOk, Prune, Finish, LateFailure;
      if a == null || a.done {
        return;
      }
      PruneExpired(now);
      EntryCount(buckets);
      SameGeneration(buckets, issued, nextGen, a);
      if result == Success {
        if a.key in buckets {
          Evict(buckets[a.key]);
        }
        Forget(a);
      } else if a.key in buckets && buckets[a.key] == a.bucket {
        FinishOwn(a, result == Failure);
      } else {
        Forget(a);
        if result == Failure {
          RecordLateFailure(a.key, now);
        }
      }
    }

    method BucketCount(now: int) returns (n: nat)
      requires Valid() && lastNow <= now
      modifies this, buckets.Values
      ensures Valid() && Abs() == Prune(old(Abs()), now) && n == |Abs().entries| <= capacity
    {
      hide Keyed, ExpiryOk, EvictionOk, CountsOk, GenerationsOk, Prune, Entries;
      PruneExpired(now);
      EntryCount(buckets);
      n := |buckets|;
    }

    // ----- completing an admission

    /** The admission's own bucket is gone: nothing counts it any more. */
    method Forget(a: Admission)
      requires Valid() && a in issued && !LiveIn(buckets, a.bucket)
      modifies a`done
      ensures Valid() && a.done && Abs() == old(Abs())
    {
      hide ExpiryOk, EvictionOk, CountsOk, GenerationsOk, Entries, BucketOk;
      NotAmongValues(buckets, a.bucket);
      CountsWithoutAdmission(buckets, issued, nextGen, a);
      a.done := true;
      CountsWithoutAdmission(buckets, issued, nextGen, a);
    }

    /** An unlisted bucket goes back to its list, or away, once nothing is in flight. */
    method ReleaseIfIdle(b: Bucket)
      requires Keyed(buckets) && ExpiryOk(buckets, expiry, lastNow + WINDOW) && LiveIn(buckets, b)
      requires EvictionOk(buckets - {b.key}, evictable, tick)
      requires !b.inEviction && b.inExpiry && b.failures <= FAILURE_LIMIT
      modifies this`buckets, this`expiry, this`evictable, this`tick, b`inExpiry, b`inEviction, b`idleSince
      ensures Indexed()
      ensures var gone := b.pending == 0 && b.failures == 0;
              && buckets == (if gone then old(buckets) - {b.key} else old(buckets))
              && (!gone ==> b.inExpiry && (b.inEviction <==> b.pending == 0))
              && tick == (if b.pending == 0 && !gone then old(tick) + 1 else old(tick))
              && b.idleSince == (if b.pending == 0 && !gone then old(tick) else old(b.idleSince))
    {
      hide Keyed, ExpiryOk, EvictionOk, Unlisted;
      if b.pending == 0 {
        if b.failures == 0 {
          EvictionRejoin(buckets, evictable, tick, b);
          DeleteBucket(b);
        } else {
          EvictionSize(buckets - {b.key}, evictable, tick);
          NotAmongOthers(buckets, b);
          AddEvictable(b);
          EvictionAppend(buckets, old(evictable), old(tick), b);
        }
      } else {
        EvictionRejoin(buckets, evictable, tick, b);
      }
    }

    /** One attempt of a bucket with work in flight ends without success. */
    method Conclude(b: Bucket, failed: bool)
      requires Indexed() && LiveIn(buckets, b) && b.inExpiry && !b.inEviction
      requires b.pending > 0 && b.failures <= FAILURE_LIMIT
      modifies this`buckets, this`expiry, this`evictable, this`tick, b
      ensures Indexed()
      ensures Abs() == Finish(old(Abs()), b.key, failed)
      ensures b.pending == old(b.pending) - 1
      ensures var gone := b.pending == 0 && b.failures == 0;
              && buckets == (if gone then old(buckets) - {b.key} else old(buckets))
              && (!gone ==> b.inExpiry && (b.inEviction <==> b.pending == 0) && b.failures <= FAILURE_LIMIT)
    {
      hide Keyed, ExpiryOk, EvictionOk, Entries, Unlisted;
      EvictionWithout(buckets, evictable, tick, b);
      EntriesRejoin(buckets, b);
      if b.pending > 0 {
        b.pending := b.pending - 1;
      }
      if failed && b.failures < FAILURE_LIMIT {
        b.failures := b.failures + 1;
      }
      ReleaseIfIdle(b);
      Overwrite(Entries(old(buckets) - {b.key}), b.key, old(b.Abs()), b.Abs());
      if LiveIn(buckets, b) {
        EntriesRejoin(buckets, b);
      }
    }

    /** The admission's own bucket is still there. */
    method FinishOwn(a: Admission, failed: bool)
      requires Valid() && a in issued && !a.done && LiveIn(buckets, a.bucket)
      modifies this`buckets, this`expiry, this`evictable, this`tick, a.bucket, a
      ensures Valid() && a.done
      ensures Abs() == Finish(old(Abs()), a.key, failed)
    {
      hide Keyed, ExpiryOk, EvictionOk, CountsOk, GenerationsOk, Entries, BucketOk, OpenOf, Finish;
      var b := a.bucket;
      ghost var rest := buckets - {b.key};
      Reserved(buckets, issued, nextGen, a);
      NotAmongOthers(buckets, b);
      FewerBuckets(buckets, issued, nextGen, b.key);
      CountsWithoutAdmission(rest, issued, nextGen, a);
      Conclude(b, failed);
      SameRest(rest, buckets, b.key);
      if b.key in buckets {
        ConcludedOk(b, issued - {a}, nextGen);
      }
      MarkDone(a);
    }

    /** The admission stops counting; its bucket, if alive, already does without it. */
    method MarkDone(a: Admission)
      requires Indexed() && GenerationsOk(buckets, issued, nextGen) && 0 < capacity && |buckets| <= capacity
      requires a in issued && a.key == a.bucket.key
      requires CountsOk(buckets - {a.key}, issued - {a}, nextGen)
      requires a.key in buckets ==> buckets[a.key] == a.bucket && BucketOk(a.bucket, issued - {a}, nextGen)
      modifies a`done
      ensures Valid() && a.done
    {
      hide Keyed, ExpiryOk, EvictionOk, GenerationsOk, BucketOk, CountsOk;
      ghost var rest := buckets - {a.key};
      NotAmongOthers(buckets, a.bucket);
      a.done := true;
      CountsWithoutAdmission(rest, issued, nextGen, a);
      if a.key in buckets {
        BucketWithoutAdmission(a.bucket, issued, nextGen, a);
        CountsRejoin(buckets, issued, nextGen, a.bucket);
      } else {
        assert rest == buckets;
      }
    }
  }

  lemma SameRest(rest: map<Key, Bucket>, buckets: map<Key, Bucket>, key: Key)
    requires key !in rest && (buckets == rest || buckets - {key} == rest)
    ensures buckets - {key} == rest
  {}

  lemma NotAmongOthers(buckets: map<Key, Bucket>, b: Bucket)
    requires Keyed(buckets)
    ensures b !in (buckets - {b.key}).Values
  {}

  lemma ExpiryAppend(buckets: map<Key, Bucket>, expiry: seq<Bucket>, latest: int, b: Bucket)
    requires Keyed(buckets) && ExpiryOk(buckets, expiry, latest) && b.key !in buckets && b.expiresAt == latest
    ensures Keyed(buckets[b.key := b]) && ExpiryOk(buckets[b.key := b], expiry + [b], latest)
  {
    assert forall c :: c in expiry ==> LiveIn(buckets, c) && c != b;
  }

  lemma BucketFacts(buckets: map<Key, Bucket>, issued: set<Admission>, nextGen: nat, b: Bucket)
    requires CountsOk(buckets, issued, nextGen) && LiveIn(buckets, b)
    ensures b.inExpiry && b.gen < nextGen && b.failures <= FAILURE_LIMIT && b.pending == |OpenOf(issued, b)|
  {}

  /** Everything there is to know after a bucket was added under a free key. */
  lemma Opened(before: map<Key, Bucket>, evictable: seq<seq<Bucket>>, tick: nat, issued: set<Admission>, nextGen: nat, b: Bucket)
    requires Keyed(before) && EvictionOk(before, evictable, tick)
    requires CountsOk(before, issued, nextGen) && GenerationsOk(before, issued, nextGen)
    requires b.gen == nextGen && b.key !in before && !b.inEviction
    ensures var buckets := before[b.key := b];
            && buckets - {b.key} == before
            && b !in before.Values
            && EvictionOk(buckets, evictable, tick)
            && CountsOk(before, issued, nextGen + 1) && GenerationsOk(buckets, issued, nextGen + 1)
            && OpenOf(issued, b) == {} && |OpenOf(issued, b)| == 0
            && |buckets| == |before| + 1
            && Entries(buckets) == Entries(before)[b.key := b.Abs()]
  {
    hide EvictionOk, CountsOk, GenerationsOk;
    var buckets := before[b.key := b];
    assert buckets - {b.key} == before;
    EvictionRejoin(buckets, evictable, tick, b);
    NewGeneration(before, issued, nextGen, b);
    EntriesRejoin(buckets, b);
    assert buckets.Keys == before.Keys + {b.key};
    assert |buckets.Keys| == |before.Keys| + 1;
  }

  lemma IssuedGeneration(buckets: map<Key, Bucket>, issued: set<Admission>, nextGen: nat, a: Admission)
    requires GenerationsOk(buckets, issued, nextGen) && LiveIn(buckets, a.bucket)
    requires a.bucket.gen < nextGen && a.bucket.key == a.key
    ensures GenerationsOk(buckets, issued + {a}, nextGen)
  {}

  lemma NewGeneration(buckets: map<Key, Bucket>, issued: set<Admission>, nextGen: nat, b: Bucket)
    requires CountsOk(buckets, issued, nextGen) && GenerationsOk(buckets, issued, nextGen)
    requires b.gen == nextGen && b.key !in buckets
    ensures CountsOk(buckets, issued, nextGen + 1)
    ensures GenerationsOk(buckets[b.key := b], issued, nextGen + 1)
    ensures OpenOf(issued, b) == {}
  {
    assert forall a :: a in issued ==> a.bucket.gen < nextGen;
  }

  lemma OpenedOk(b: Bucket, issued: set<Admission>, nextGen: nat)
    requires b.pending == |OpenOf(issued, b)| && b.pending > 0 && b.inExpiry && b.gen < nextGen
    requires b.failures <= FAILURE_LIMIT && !b.inEviction
    ensures BucketOk(b, issued, nextGen)
  {}

  function RetryDuration(expiresAt: int, now: int): (retry: int)
    ensures retry == Retry(expiresAt, now) && retry >= SECOND
  {
    var retry := expiresAt - now;
    if retry < SECOND then SECOND else retry
  }

  lemma NotAmongValues(buckets: map<Key, Bucket>, b: Bucket)
    requires Keyed(buckets) && !LiveIn(buckets, b)
    ensures b !in buckets.Values
  {}

  /** Pointer equality in the code is equality of generations in the table. */
  lemma SameGeneration(buckets: map<Key, Bucket>, issued: set<Admission>, nextGen: nat, a: Admission)
    requires GenerationsOk(buckets, issued, nextGen) && a in issued
    ensures a.key == a.bucket.key
    ensures LiveIn(buckets, a.bucket) <==> a.key in buckets && Entries(buckets)[a.key].gen == a.bucket.gen
  {}

  lemma EvictionSize(buckets: map<Key, Bucket>, evictable: seq<seq<Bucket>>, tick: nat)
    requires EvictionOk(buckets, evictable, tick)
    ensures |evictable| == FAILURE_LIMIT + 1
  {}

  lemma Reserved(buckets: map<Key, Bucket>, issued: set<Admission>, nextGen: nat, a: Admission)
    requires CountsOk(buckets, issued, nextGen) && GenerationsOk(buckets, issued, nextGen)
    requires a in issued && !a.done && LiveIn(buckets, a.bucket)
    ensures var b := a.bucket;
            b.pending == |OpenOf(issued - {a}, b)| + 1 && !b.inEviction && b.inExpiry && b.gen < nextGen &&
            b.failures <= FAILURE_LIMIT && a.key == b.key
  {
    OneOpenLess(issued, a);
  }

  /** Everything that is known about the other buckets, in terms that do not mention `b`. */
  lemma Apart(buckets: map<Key, Bucket>, evictable: seq<seq<Bucket>>, tick: nat, issued: set<Admission>, nextGen: nat, b: Bucket)
    requires Keyed(buckets) && LiveIn(buckets, b) && EvictionOk(buckets, evictable, tick) && CountsOk(buckets, issued, nextGen)
    ensures var rest := buckets - {b.key};
            && b !in rest.Values
            && EvictionOk(rest, if b.inEviction then Unlisted(evictable, b.failures, b) else evictable, tick)
            && CountsOk(rest, issued, nextGen)
            && Entries(buckets) == Entries(rest)[b.key := b.Abs()]
            && |evictable| == FAILURE_LIMIT + 1
  {
    hide BucketOk, EvictionOk, Keyed;
    EvictionWithout(buckets, evictable, tick, b);
    EvictionShape(buckets, evictable, tick, b);
    FewerBuckets(buckets, issued, nextGen, b.key);
    EntriesRejoin(buckets, b);
  }

  lemma ConcludedOk(b: Bucket, issued: set<Admission>, nextGen: nat)
    requires b.pending == |OpenOf(issued, b)| && b.inExpiry && b.gen < nextGen && b.failures <= FAILURE_LIMIT
    requires (b.inEviction <==> b.pending == 0) && (b.pending == 0 ==> b.failures >= 1)
    ensures BucketOk(b, issued, nextGen)
  {}

  lemma VictimIs(entries: map<Key, Entry>, key: Key)
    requires IsVictim(entries, key)
    ensures Victim(entries) == key
  {
    VictimUnique(entries, key, Victim(entries));
  }

  // ----- changing one bucket in place: all about the others is stated without it

  lemma EvictionRejoin(buckets: map<Key, Bucket>, evictable: seq<seq<Bucket>>, tick: nat, b: Bucket)
    requires Keyed(buckets) && LiveIn(buckets, b) && EvictionOk(buckets - {b.key}, evictable, tick) && !b.inEviction
    ensures EvictionOk(buckets, evictable, tick)
  {
    hide ListOk;
    forall f | 0 <= f <= FAILURE_LIMIT ensures ListOk(buckets, evictable[f], f, tick) {
      ListRejoin(buckets, evictable[f], f, tick, tick, b);
    }
    assert forall k :: k in buckets && k != b.key ==> k in buckets - {b.key} && (buckets - {b.key})[k] == buckets[k];
  }

  lemma ListRejoin(buckets: map<Key, Bucket>, list: seq<Bucket>, f: nat, tick: nat, later: nat, b: Bucket)
    requires LiveIn(buckets, b) && ListOk(buckets - {b.key}, list, f, tick) && tick <= later
    ensures ListOk(buckets, list, f, later) && b !in list
  {}

  lemma EvictionAppend(buckets: map<Key, Bucket>, evictable: seq<seq<Bucket>>, tick: nat, b: Bucket)
    requires Keyed(buckets) && LiveIn(buckets, b) && EvictionOk(buckets - {b.key}, evictable, tick)
    requires b.inEviction && b.failures <= FAILURE_LIMIT && b.idleSince == tick
    ensures EvictionOk(buckets, evictable[b.failures := evictable[b.failures] + [b]], tick + 1)
  {
    hide ListOk;
    var lists := evictable[b.failures := evictable[b.failures] + [b]];
    forall f | 0 <= f <= FAILURE_LIMIT ensures ListOk(buckets, lists[f], f, tick + 1) {
      ListRejoin(buckets, evictable[f], f, tick, tick + 1, b);
      if f == b.failures {
        ListAppend(buckets, evictable[f], f, tick, b);
      }
    }
    assert b in lists[b.failures];
    assert forall k :: k in buckets && k != b.key ==> k in buckets - {b.key} && (buckets - {b.key})[k] == buckets[k];
  }

  lemma ListAppend(buckets: map<Key, Bucket>, list: seq<Bucket>, f: nat, tick: nat, b: Bucket)
    requires LiveIn(buckets, b) && ListOk(buckets - {b.key}, list, f, tick) && b !in list
    requires b.inEviction && b.failures == f && b.idleSince == tick
    ensures ListOk(buckets, list + [b], f, tick + 1)
  {
    assert forall c :: c in list ==> LiveIn(buckets, c) && c.idleSince < tick;
  }

  lemma CountsRejoin(buckets: map<Key, Bucket>, issued: set<Admission>, nextGen: nat, b: Bucket)
    requires Keyed(buckets) && LiveIn(buckets, b) && CountsOk(buckets - {b.key}, issued, nextGen)
    requires BucketOk(b, issued, nextGen)
    ensures CountsOk(buckets, issued, nextGen)
  {
    hide BucketOk;
    forall k | k in buckets ensures BucketOk(buckets[k], issued, nextGen) {
      if k != b.key {
        assert k in buckets - {b.key};
      }
    }
  }

  lemma EntriesRejoin(buckets: map<Key, Bucket>, b: Bucket)
    requires Keyed(buckets) && LiveIn(buckets, b)
    ensures Entries(buckets) == Entries(buckets - {b.key})[b.key := b.Abs()]
    ensures b !in (buckets - {b.key}).Values && b.key !in Entries(buckets - {b.key})
  {}

  lemma Overwrite(entries: map<Key, Entry>, key: Key, e: Entry, f: Entry)
    ensures entries[key := e][key := f] == entries[key := f]
    ensures key !in entries ==> entries[key := e] - {key} == entries
  {}

  /** An admission concerns only its own bucket. */
  lemma CountsWithoutAdmission(buckets: map<Key, Bucket>, issued: set<Admission>, nextGen: nat, a: Admission)
    requires a.bucket !in buckets.Values || a.done
    ensures CountsOk(buckets, issued - {a}, nextGen) == CountsOk(buckets, issued, nextGen)
    ensures CountsOk(buckets, issued + {a}, nextGen) == CountsOk(buckets, issued, nextGen)
  {
    hide BucketOk;
    forall k | k in buckets
      ensures BucketOk(buckets[k], issued - {a}, nextGen) == BucketOk(buckets[k], issued, nextGen)
      ensures BucketOk(buckets[k], issued + {a}, nextGen) == BucketOk(buckets[k], issued, nextGen)
    {
      BucketWithoutAdmission(buckets[k], issued, nextGen, a);
    }
  }

  lemma BucketWithoutAdmission(b: Bucket, issued: set<Admission>, nextGen: nat, a: Admission)
    requires a.bucket != b || a.done
    ensures BucketOk(b, issued - {a}, nextGen) == BucketOk(b, issued, nextGen)
    ensures BucketOk(b, issued + {a}, nextGen) == BucketOk(b, issued, nextGen)
  {
    assert OpenOf(issued - {a}, b) == OpenOf(issued, b);
    assert OpenOf(issued + {a}, b) == OpenOf(issued, b);
  }

  lemma OneMoreOpen(issued: set<Admission>, a: Admission)
    requires a !in issued && !a.done
    ensures |OpenOf(issued + {a}, a.bucket)| == |OpenOf(issued, a.bucket)| + 1
  {
    assert OpenOf(issued + {a}, a.bucket) == OpenOf(issued, a.bucket) + {a};
  }

  /** The reservations of a bucket, counted without one that is still open. */
  lemma OneOpenLess(issued: set<Admission>, a: Admission)
    requires a in issued && !a.done
    ensures |OpenOf(issued, a.bucket)| == |OpenOf(issued - {a}, a.bucket)| + 1
  {
    assert OpenOf(issued, a.bucket) == OpenOf(issued - {a}, a.bucket) + {a};
  }

  /** Oldest bucket of the first non-empty list: fewest failures, then longest idle. */
  lemma FrontIsVictim(buckets: map<Key, Bucket>, evictable: seq<seq<Bucket>>, issued: set<Admission>, nextGen: nat, tick: nat, f: nat)
    requires EvictionOk(buckets, evictable, tick) && CountsOk(buckets, issued, nextGen) && Keyed(buckets)
    requires f <= FAILURE_LIMIT && evictable[f] != [] && forall g :: 0 <= g < f ==> evictable[g] == []
    ensures LiveIn(buckets, evictable[f][0])
    ensures IsVictim(Entries(buckets), evictable[f][0].key)
  {
    hide ListOk;
    var b := evictable[f][0];
    FrontListed(buckets, evictable[f], f, tick);
    LiveBucketOk(buckets, issued, nextGen, b);
    forall k | k in buckets && k != b.key && buckets[k].pending == 0
      ensures EvictedBefore(b.Abs(), buckets[k].Abs())
    {
      var c := buckets[k];
      LiveBucketOk(buckets, issued, nextGen, c);
      assert c in evictable[c.failures];
      if c.failures == f {
        FrontIsOldest(buckets, evictable[f], f, tick, c);
      }
    }
  }

  lemma FrontListed(buckets: map<Key, Bucket>, list: seq<Bucket>, f: nat, tick: nat)
    requires ListOk(buckets, list, f, tick) && list != []
    ensures LiveIn(buckets, list[0]) && list[0].inEviction && list[0].failures == f
  {
    assert list[0] in list;
  }

  lemma FrontIsOldest(buckets: map<Key, Bucket>, list: seq<Bucket>, f: nat, tick: nat, c: Bucket)
    requires ListOk(buckets, list, f, tick) && list != [] && c in list && c != list[0]
    ensures list[0].idleSince < c.idleSince
  {
    var i :| 0 <= i < |list| && list[i] == c;
    assert LiveIn(buckets, list[0]) && LiveIn(buckets, list[i]);
  }

  lemma NobodyIdle(buckets: map<Key, Bucket>, evictable: seq<seq<Bucket>>, issued: set<Admission>, nextGen: nat, tick: nat)
    requires EvictionOk(buckets, evictable, tick) && CountsOk(buckets, issued, nextGen)
    requires forall g :: 0 <= g <= FAILURE_LIMIT ==> evictable[g] == []
    ensures !exists k :: IsVictim(Entries(buckets), k)
  {
    hide ListOk;
    forall k ensures !IsVictim(Entries(buckets), k) {
      if IsVictim(Entries(buckets), k) {
        LiveBucketOk(buckets, issued, nextGen, buckets[k]);
      }
    }
  }

  lemma EntryCount(buckets: map<Key, Bucket>)
    ensures |Entries(buckets)| == |buckets| && Entries(buckets).Keys == buckets.Keys
  {
    assert Entries(buckets).Keys == buckets.Keys;
    assert |Entries(buckets).Keys| == |buckets.Keys|;
  }

  lemma LaterBound(buckets: map<Key, Bucket>, expiry: seq<Bucket>, latest: int, later: int)
    requires ExpiryOk(buckets, expiry, latest) && latest <= later
    ensures ExpiryOk(buckets, expiry, later)
  {
    hide InExpiryOrder;
  }

  lemma FrontIsLive(buckets: map<Key, Bucket>, expiry: seq<Bucket>, latest: int)
    requires ExpiryOk(buckets, expiry, latest) && |expiry| > 0
    ensures LiveIn(buckets, expiry[0])
  {}

  lemma LiveBucketOk(buckets: map<Key, Bucket>, issued: set<Admission>, nextGen: nat, b: Bucket)
    requires CountsOk(buckets, issued, nextGen) && LiveIn(buckets, b)
    ensures BucketOk(b, issued, nextGen) && b.key in Entries(buckets) && Entries(buckets)[b.key] == b.Abs()
  {}

  lemma BucketListed(buckets: map<Key, Bucket>, issued: set<Admission>, nextGen: nat, b: Bucket)
    requires CountsOk(buckets, issued, nextGen) && LiveIn(buckets, b)
    ensures b.inExpiry && (b.inEviction <==> b.pending == 0) && b.failures <= FAILURE_LIMIT
  {}

  /** Once the front is unexpired, so is everything: the list is in expiry order. */
  lemma PrunedAlready(buckets: map<Key, Bucket>, expiry: seq<Bucket>, now: int, nextGen: nat, tick: nat)
    requires ExpiryOk(buckets, expiry, now + WINDOW)
    requires expiry == [] || now < expiry[0].expiresAt
    ensures Prune(Table(Entries(buckets), nextGen, tick), now) == Table(Entries(buckets), nextGen, tick)
  {
    forall k | k in buckets ensures now < buckets[k].expiresAt {
      var i :| 0 <= i < |expiry| && expiry[i] == buckets[k];
      assert expiry[0].expiresAt <= expiry[i].expiresAt;
    }
  }

  lemma PruneExpiredEntry(t: Table, key: Key, now: int)
    requires key in t.entries && t.entries[key].expiresAt <= now
    ensures Prune(t.(entries := t.entries - {key}), now) == Prune(t, now)
  {}

  lemma EvictionShape(buckets: map<Key, Bucket>, evictable: seq<seq<Bucket>>, tick: nat, b: Bucket)
    requires EvictionOk(buckets, evictable, tick) && LiveIn(buckets, b)
    ensures |evictable| == FAILURE_LIMIT + 1 && (b.inEviction ==> b.failures <= FAILURE_LIMIT)
  {}
}
