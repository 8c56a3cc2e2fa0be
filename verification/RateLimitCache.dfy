/**
 The bounded cache of REST rate-limit buckets (ratelimit.go): buckets by key, the index from routes to discovered
 buckets, TTL cleanup, and least-recently-used eviction. Times are nanoseconds.
 */
module RateLimitCache {
  import opened Base

  const CLEANUP_INTERVAL := 60_000_000_000

  /** Major parameters are hashed to 64 hexadecimal digits. */
  const MAJOR_LENGTH := 64

  function RouteBucketKey(routeKey: string, majorKey: string): string {
    "route:" + routeKey + "|major:" + majorKey
  }

  function DiscoveredBucketKey(hash: string, majorKey: string): string {
    "bucket:" + hash + "|major:" + majorKey
  }

  predicate IsRoute(key: string) {
    |key| >= 6 + MAJOR_LENGTH && key[..6] == "route:"
  }

  predicate IsDiscovered(key: string) {
    |key| >= 7 + MAJOR_LENGTH && key[..7] == "bucket:"
  }

  /** The major part that ends a key. */
  function MajorOf(key: string): string
    requires |key| >= MAJOR_LENGTH
  {
    key[|key| - MAJOR_LENGTH..]
  }

  lemma KeyShapes(name: string, majorKey: string)
    requires |majorKey| == MAJOR_LENGTH
    ensures IsRoute(RouteBucketKey(name, majorKey)) && MajorOf(RouteBucketKey(name, majorKey)) == majorKey
    ensures IsDiscovered(DiscoveredBucketKey(name, majorKey)) && MajorOf(DiscoveredBucketKey(name, majorKey)) == majorKey
    ensures !IsDiscovered(RouteBucketKey(name, majorKey)) && !IsRoute(DiscoveredBucketKey(name, majorKey))
  {
    assert RouteBucketKey(name, majorKey)[..6] == "route:";
    assert DiscoveredBucketKey(name, majorKey)[..7] == "bucket:";
    assert RouteBucketKey(name, majorKey)[0] == 'r';
    assert DiscoveredBucketKey(name, majorKey)[0] == 'b';
  }

  /** Different routes, hashes or major parameters have different keys. */
  lemma KeysDistinct(name: string, name': string, majorKey: string, majorKey': string)
    requires |majorKey| == |majorKey'| == MAJOR_LENGTH
    ensures RouteBucketKey(name, majorKey) == RouteBucketKey(name', majorKey') <==> name == name' && majorKey == majorKey'
    ensures DiscoveredBucketKey(name, majorKey) == DiscoveredBucketKey(name', majorKey') <==> name == name' && majorKey == majorKey'
  {
    KeyParts("route:", name, majorKey);
    KeyParts("route:", name', majorKey');
    KeyParts("bucket:", name, majorKey);
    KeyParts("bucket:", name', majorKey');
  }

  lemma KeyParts(kind: string, name: string, majorKey: string)
    requires |majorKey| == MAJOR_LENGTH
    ensures var key := kind + name + "|major:" + majorKey;
            && |key| >= |kind| + 7 + MAJOR_LENGTH
            && key[|kind|..|key| - MAJOR_LENGTH - 7] == name && key[|key| - MAJOR_LENGTH..] == majorKey
  {
    var key := kind + name + "|major:" + majorKey;
    assert key[|kind|..][..|name|] == name;
  }

  /** A bucket of a route; the two key parts never change. */
  class Bucket {
    const routeKey: string
    const majorKey: string
    var remaining: int
    var lastUsed: int

    constructor (routeKey: string, majorKey: string, now: int)
      ensures this.routeKey == routeKey && this.majorKey == majorKey
      ensures remaining == 1 && lastUsed == now
    {
      this.routeKey := routeKey;
      this.majorKey := majorKey;
      remaining := 1;
      lastUsed := now;
    }

    predicate OfRoute() {
      |majorKey| == MAJOR_LENGTH
    }
  }

  /** Every entry of a is an entry of b. */
  predicate Submap<K, V(==)>(a: map<K, V>, b: map<K, V>) {
    a.Keys <= b.Keys && forall k | k in a :: a[k] == b[k]
  }

  /** Every entry of a but the one for k is an entry of b. */
  predicate SubmapExcept<K, V(==)>(a: map<K, V>, b: map<K, V>, k: K) {
    forall x | x in a && x != k :: x in b && a[x] == b[x]
  }

  /** Routes have a use time each, and lead to discovered keys of their own major parameter. */
  predicate Shaped(hashes: map<string, string>, used: map<string, int>) {
    hashes.Keys == used.Keys && forall r | r in hashes :: GoodRoute(r, hashes[r])
  }

  predicate GoodRoute(route: string, target: string) {
    IsRoute(route) && IsDiscovered(target) && MajorOf(route) == MajorOf(target)
  }

  /** No route leads to a bucket that is not cached. */
  predicate Led(hashes: map<string, string>, buckets: map<string, Bucket>) {
    forall r | r in hashes :: hashes[r] in buckets
  }

  /** Every bucket is filed under a key of its own major parameter. */
  predicate Filed(buckets: map<string, Bucket>) {
    forall k | k in buckets :: GoodKey(k, buckets[k])
  }

  predicate GoodKey(key: string, b: Bucket) {
    (IsRoute(key) || IsDiscovered(key)) && MajorOf(key) == b.majorKey && b.OfRoute()
  }

  /** Every entry that went was used no later than every entry that stayed. */
  ghost predicate OldestWent(used: map<string, int>, stayed: set<string>) {
    forall k, k' | k in used && k !in stayed && k' in used && k' in stayed :: used[k] <= used[k']
  }

  /** The same, but for keys that leave or join for another reason. */
  ghost predicate OldestWentBut(used: map<string, int>, stayed: set<string>, others: set<string>) {
    forall k, k' | k in used && k !in stayed && k !in others && k' in used && k' in stayed && k' !in others ::
      used[k] <= used[k']
  }

  /** What a cleanup keeps: all when it is not due, else exactly what was used at or after the cutoff. */
  ghost predicate Survivors(before: map<string, Bucket>, used: map<string, int>, kept: map<string, Bucket>, due: bool,
                            cutoff: int)
  {
    Submap(kept, before) && forall k | k in before && k in used :: k in kept <==> !due || used[k] >= cutoff
  }

  /** A key that was not there before joins those that stayed. */
  lemma KeyJoins(used: map<string, int>, stayed: set<string>, key: string)
    requires OldestWent(used, stayed) && key !in used
    ensures OldestWent(used, stayed + {key})
  {
  }

  lemma NothingWent(used: map<string, int>, others: set<string>)
    ensures OldestWentBut(used, used.Keys, others)
  {
  }

  lemma OnlyOthersWent(used: map<string, int>, stayed: set<string>, others: set<string>)
    requires used.Keys <= stayed + others
    ensures OldestWentBut(used, stayed, others)
  {
  }

  lemma OldestWentAll(used: map<string, int>, stayed: set<string>, others: set<string>)
    requires OldestWent(used, stayed)
    ensures OldestWentBut(used, stayed, others)
  {
  }

  /** First the oldest go, then the oldest of the rest: together the oldest went. */
  lemma OldestWentTwice(used: map<string, int>, between: map<string, int>, stayed: set<string>, others: set<string>)
    requires Submap(between, used) && OldestWent(used, between.Keys)
    requires OldestWentBut(between, stayed, others) && stayed <= between.Keys + others
    ensures OldestWentBut(used, stayed, others)
  {
  }

  /** Dropping a least recently used entry keeps that so. */
  lemma OldestGoesNext(used: map<string, int>, stayed: set<string>, k: string)
    requires OldestWent(used, stayed) && k in used && k in stayed
    requires forall k' | k' in stayed :: k' in used && used[k] <= used[k']
    ensures OldestWent(used, stayed - {k})
  {
  }

  class RateLimiter {
    const bucketTTL: int
    const maxBuckets: int
    const maxBucketMappings: int

    var buckets: map<string, Bucket>
    var bucketHashes: map<string, string>
    var bucketHashUsed: map<string, int>
    var lastCleanup: Option<int>

    constructor (bucketTTL: int, maxBuckets: int, maxBucketMappings: int)
      ensures Valid() && buckets == map[] && bucketHashes == map[]
      ensures this.maxBuckets == maxBuckets && this.maxBucketMappings == maxBucketMappings
    {
      this.bucketTTL := bucketTTL;
      this.maxBuckets := maxBuckets;
      this.maxBucketMappings := maxBucketMappings;
      buckets, bucketHashes, bucketHashUsed, lastCleanup := map[], map[], map[], None;
    }

    /**
     The index is sound: both route maps have the same keys, every route leads to a cached bucket of its own major
     parameter, every bucket is filed under a key of its major parameter, and both bounds hold when positive.
     */
    ghost predicate Valid()
      reads this
    {
      && Shaped(bucketHashes, bucketHashUsed) && Led(bucketHashes, buckets) && Filed(buckets)
      && (maxBuckets > 0 ==> |buckets| <= maxBuckets)
      && (maxBucketMappings > 0 ==> |bucketHashes| <= maxBucketMappings)
    }

    /** When each cached bucket was last used. */
    ghost function LastUsed(): map<string, int>
      reads `buckets, buckets.Values`lastUsed
    {
      map k | k in buckets :: buckets[k].lastUsed
    }

    /** Routes whose bucket is gone are dropped, and no others. */
    method RemoveDanglingBucketHashes()
      requires Shaped(bucketHashes, bucketHashUsed)
      modifies `bucketHashes, `bucketHashUsed
      ensures Shaped(bucketHashes, bucketHashUsed) && Led(bucketHashes, buckets)
      ensures Submap(bucketHashes, old(bucketHashes)) && Submap(bucketHashUsed, old(bucketHashUsed))
      ensures forall r | r in old(bucketHashes) && old(bucketHashes)[r] in buckets :: r in bucketHashes
    {
      var rest := bucketHashes.Keys;
      while rest != {}
        invariant rest <= old(bucketHashes).Keys
        invariant Submap(bucketHashes, old(bucketHashes)) && Submap(bucketHashUsed, old(bucketHashUsed))
        invariant bucketHashes.Keys == bucketHashUsed.Keys
        invariant forall r | r in old(bucketHashes) ::
                    r in bucketHashes <==> r in rest || old(bucketHashes)[r] in buckets
      {
        var r :| r in rest;
        rest := rest - {r};
        if bucketHashes[r] !in buckets {
          bucketHashes := bucketHashes - {r};
          bucketHashUsed := bucketHashUsed - {r};
        }
      }
    }

    /** The key of a bucket used least recently. */
    method OldestBucket() returns (oldestKey: string)
      requires buckets != map[] && Filed(buckets)
      ensures oldestKey in buckets
      ensures forall k | k in buckets :: buckets[oldestKey].lastUsed <= buckets[k].lastUsed
    {
      oldestKey := "";
      var oldestUsed := 0;
      var rest := buckets.Keys;
      while rest != {}
        invariant rest <= buckets.Keys
        invariant oldestKey == "" <==> rest == buckets.Keys
        invariant oldestKey != "" ==> oldestKey in buckets && oldestUsed == buckets[oldestKey].lastUsed
        invariant oldestKey != "" ==> forall k | k in buckets.Keys - rest :: oldestUsed <= buckets[k].lastUsed
      {
        var key :| key in rest;
        rest := rest - {key};
        var used := buckets[key].lastUsed;
        if oldestKey == "" || used < oldestUsed {
          oldestKey := key;
          oldestUsed := used;
        }
      }
    }

    /** The eviction loop: exactly as many buckets go as must, the least recently used first. */
    method EvictBuckets()
      requires Filed(buckets) && maxBuckets > 0
      modifies `buckets
      ensures Submap(buckets, old(buckets))
      ensures |buckets| == if |old(buckets)| < maxBuckets then |old(buckets)| else maxBuckets - 1
      ensures OldestWent(old(LastUsed()), buckets.Keys)
    {
      ghost var used := LastUsed();
      while |buckets| + 1 > maxBuckets
        invariant Submap(buckets, old(buckets)) && Filed(buckets)
        invariant |old(buckets)| < maxBuckets ==> |buckets| == |old(buckets)|
        invariant |old(buckets)| >= maxBuckets ==> |buckets| >= maxBuckets - 1
        invariant OldestWent(used, buckets.Keys)
        decreases |buckets|
      {
        var oldestKey := OldestBucket();
        OldestGoesNext(used, buckets.Keys, oldestKey);
        ghost var before := buckets;
        buckets := buckets - {oldestKey};
        assert buckets.Keys == before.Keys - {oldestKey};
      }
    }

    /** Room for one more bucket: the least recently used go, with the routes that led to them. */
    method MakeBucketRoom()
      requires Valid()
      modifies `buckets, `bucketHashes, `bucketHashUsed
      ensures Valid() && (maxBuckets > 0 ==> |buckets| < maxBuckets)
      ensures Submap(buckets, old(buckets)) && OldestWent(old(LastUsed()), buckets.Keys)
      ensures maxBuckets <= 0 || |old(buckets)| < maxBuckets ==> |buckets| == |old(buckets)|
      ensures maxBuckets > 0 && |old(buckets)| >= maxBuckets ==> |buckets| == maxBuckets - 1
      ensures Submap(bucketHashes, old(bucketHashes))
      ensures forall r | r in old(bucketHashes) && old(bucketHashes)[r] in buckets :: r in bucketHashes
    {
      if maxBuckets <= 0 {
        return;
      }
      EvictBuckets();
      RemoveDanglingBucketHashes();
      SubmapSize(bucketHashes, old(bucketHashes));
    }

    /** When a cleanup is due. */
    predicate CleanupDue(now: int)
      reads this
    {
      && bucketTTL > 0
      && var halfTTL := bucketTTL / 2;
         var interval := if 0 < halfTTL < CLEANUP_INTERVAL then halfTTL else CLEANUP_INTERVAL;
         lastCleanup.None? || now - lastCleanup.value >= interval
    }

    /** With a TTL, the first look, one a minute after the last cleanup, or one half a TTL after it if that is sooner. */
    lemma CleanupDueExactly(now: int)
      ensures CleanupDue(now) <==>
                && bucketTTL > 0
                && (lastCleanup.None? || now - lastCleanup.value >= 60_000_000_000
                    || (bucketTTL >= 2 && now - lastCleanup.value >= bucketTTL / 2))
    {
    }

    /**
     A due cleanup drops exactly the buckets last used before the cutoff, and exactly the routes last used before it
     or leading to a dropped bucket.
     */
    method CleanupBuckets(now: int)
      requires Valid()
      modifies `buckets, `bucketHashes, `bucketHashUsed, `lastCleanup
      ensures Valid()
      ensures Submap(buckets, old(buckets)) && Submap(bucketHashes, old(bucketHashes))
      ensures Submap(bucketHashUsed, old(bucketHashUsed))
      ensures OldestWent(old(LastUsed()), buckets.Keys) && Submap(LastUsed(), old(LastUsed()))
      ensures LastUsed().Keys == buckets.Keys
      ensures !old(CleanupDue(now)) ==> buckets == old(buckets) && bucketHashes == old(bucketHashes)
      ensures !old(CleanupDue(now)) ==> bucketHashUsed == old(bucketHashUsed) && lastCleanup == old(lastCleanup)
      ensures old(CleanupDue(now)) ==>
                lastCleanup == Some(now)
      ensures Survivors(old(buckets), old(LastUsed()), buckets, old(CleanupDue(now)), now - bucketTTL)
      ensures old(CleanupDue(now)) ==>
                forall k | k in old(buckets) :: k in buckets <==> old(buckets)[k].lastUsed >= now - bucketTTL
      ensures old(CleanupDue(now)) ==>
                forall r | r in old(bucketHashes) :: r in bucketHashes <==>
                  old(bucketHashUsed)[r] >= now - bucketTTL && old(bucketHashes)[r] in buckets
    {
      if !CleanupDue(now) {
        return;
      }
      lastCleanup := Some(now);
      var cutoff := now - bucketTTL;
      DropOldBuckets(cutoff);
      DropOldRoutes(cutoff);
      RemoveDanglingBucketHashes();
      SubmapSize(bucketHashes, old(bucketHashes));
      SubmapSize(buckets, old(buckets));
    }

    method DropOldBuckets(cutoff: int)
      modifies `buckets
      ensures Submap(buckets, old(buckets))
      ensures forall k | k in old(buckets) :: k in buckets <==> old(buckets)[k].lastUsed >= cutoff
    {
      var rest := buckets.Keys;
      while rest != {}
        invariant rest <= old(buckets).Keys && Submap(buckets, old(buckets))
        invariant forall k | k in old(buckets) :: k in buckets <==> k in rest || old(buckets)[k].lastUsed >= cutoff
      {
        var key :| key in rest;
        rest := rest - {key};
        if buckets[key].lastUsed < cutoff {
          buckets := buckets - {key};
        }
      }
    }

    method DropOldRoutes(cutoff: int)
      requires Shaped(bucketHashes, bucketHashUsed)
      modifies `bucketHashes, `bucketHashUsed
      ensures Shaped(bucketHashes, bucketHashUsed)
      ensures Submap(bucketHashes, old(bucketHashes)) && Submap(bucketHashUsed, old(bucketHashUsed))
      ensures forall r | r in old(bucketHashUsed) :: r in bucketHashUsed <==> old(bucketHashUsed)[r] >= cutoff
    {
      var rest := bucketHashUsed.Keys;
      while rest != {}
        invariant rest <= old(bucketHashUsed).Keys
        invariant Submap(bucketHashes, old(bucketHashes)) && Submap(bucketHashUsed, old(bucketHashUsed))
        invariant bucketHashes.Keys == bucketHashUsed.Keys
        invariant forall r | r in old(bucketHashUsed) ::
                    r in bucketHashUsed <==> r in rest || old(bucketHashUsed)[r] >= cutoff
      {
        var r :| r in rest;
        rest := rest - {r};
        if bucketHashUsed[r] < cutoff {
          bucketHashes := bucketHashes - {r};
          bucketHashUsed := bucketHashUsed - {r};
        }
      }
    }

    /** The route whose mapping was used least recently. */
    method OldestRoute() returns (oldestKey: string)
      requires bucketHashUsed != map[] && Shaped(bucketHashes, bucketHashUsed)
      ensures oldestKey in bucketHashUsed
      ensures forall r | r in bucketHashUsed :: bucketHashUsed[oldestKey] <= bucketHashUsed[r]
    {
      oldestKey := "";
      var oldestUsed := 0;
      var rest := bucketHashUsed.Keys;
      while rest != {}
        invariant rest <= bucketHashUsed.Keys
        invariant oldestKey == "" <==> rest == bucketHashUsed.Keys
        invariant oldestKey != "" ==> oldestKey in bucketHashUsed && oldestUsed == bucketHashUsed[oldestKey]
        invariant oldestKey != "" ==> forall r | r in bucketHashUsed.Keys - rest :: oldestUsed <= bucketHashUsed[r]
      {
        var key :| key in rest;
        rest := rest - {key};
        var used := bucketHashUsed[key];
        if oldestKey == "" || used < oldestUsed {
          assert GoodRoute(key, bucketHashes[key]);
          oldestKey := key;
          oldestUsed := used;
        }
      }
    }

    /** Room for one more route: the least recently used go. */
    method EvictRoutes()
      requires Shaped(bucketHashes, bucketHashUsed) && maxBucketMappings > 0
      modifies `bucketHashes, `bucketHashUsed
      ensures Shaped(bucketHashes, bucketHashUsed)
      ensures Submap(bucketHashes, old(bucketHashes)) && Submap(bucketHashUsed, old(bucketHashUsed))
      ensures |bucketHashes| == if |old(bucketHashes)| < maxBucketMappings then |old(bucketHashes)|
                                else maxBucketMappings - 1
      ensures OldestWent(old(bucketHashUsed), bucketHashUsed.Keys)
    {
      while |bucketHashes| >= maxBucketMappings
        invariant Shaped(bucketHashes, bucketHashUsed)
        invariant Submap(bucketHashes, old(bucketHashes)) && Submap(bucketHashUsed, old(bucketHashUsed))
        invariant |old(bucketHashes)| < maxBucketMappings ==> |bucketHashes| == |old(bucketHashes)|
        invariant |old(bucketHashes)| >= maxBucketMappings ==> |bucketHashes| >= maxBucketMappings - 1
        invariant OldestWent(old(bucketHashUsed), bucketHashUsed.Keys)
        decreases |bucketHashes|
      {
        assert bucketHashUsed.Keys != {};
        var oldestKey := OldestRoute();
        OldestGoesNext(old(bucketHashUsed), bucketHashUsed.Keys, oldestKey);
        ghost var before := bucketHashes;
        bucketHashes := bucketHashes - {oldestKey};
        bucketHashUsed := bucketHashUsed - {oldestKey};
        assert bucketHashes.Keys == before.Keys - {oldestKey};
      }
    }

    /** The route leads to the bucket; a new route pushes out the least recently used ones when the index is full. */
    method SetBucketHash(routeKey: string, bucketKey: string, now: int)
      requires Valid() && GoodRoute(routeKey, bucketKey) && bucketKey in buckets
      modifies `bucketHashes, `bucketHashUsed
      ensures Valid()
      ensures routeKey in bucketHashes && bucketHashes[routeKey] == bucketKey && bucketHashUsed[routeKey] == now
      ensures SubmapExcept(bucketHashes, old(bucketHashes), routeKey)
      ensures OldestWent(old(bucketHashUsed), bucketHashUsed.Keys)
      ensures routeKey in old(bucketHashes) || maxBucketMappings <= 0 || |old(bucketHashes)| < maxBucketMappings ==>
                bucketHashes.Keys == old(bucketHashes).Keys + {routeKey}
      ensures lastCleanup == old(lastCleanup)
    {
      if routeKey !in bucketHashes && maxBucketMappings > 0 {
        EvictRoutes();
        SubmapAll(bucketHashes, old(bucketHashes));
      }
      PutRoute(routeKey, bucketKey, now);
    }

    method PutRoute(routeKey: string, bucketKey: string, now: int)
      requires Shaped(bucketHashes, bucketHashUsed) && GoodRoute(routeKey, bucketKey)
      modifies `bucketHashes, `bucketHashUsed
      ensures Shaped(bucketHashes, bucketHashUsed)
      ensures bucketHashes == old(bucketHashes)[routeKey := bucketKey]
      ensures bucketHashUsed == old(bucketHashUsed)[routeKey := now]
      ensures bucketHashes.Keys == old(bucketHashes).Keys + {routeKey}
      ensures |bucketHashes| == |old(bucketHashes)| + if routeKey in old(bucketHashes) then 0 else 1
    {
      hide GoodRoute;
      InsertSize(bucketHashes, routeKey, bucketKey);
      bucketHashes := bucketHashes[routeKey := bucketKey];
      bucketHashUsed := bucketHashUsed[routeKey := now];
    }

    /** The bucket a route leads to: the discovered one, or its own. */
    function Resolve(routeKey: string, majorKey: string): Option<Bucket>
      reads `buckets, `bucketHashes
    {
      var key := RouteBucketKey(routeKey, majorKey);
      if key in bucketHashes && bucketHashes[key] in buckets then Some(buckets[bucketHashes[key]])
      else if key in buckets then Some(buckets[key])
      else None
    }

    /** getRouteBucket: the bucket to use for a route, found or made. It always belongs to the route's major parameter. */
    method GetRouteBucket(routeKey: string, majorKey: string, now: int)
      returns (b: Bucket, ghost kept: map<string, Bucket>)
      requires Valid() && |majorKey| == MAJOR_LENGTH
      modifies this, buckets.Values`lastUsed
      ensures Valid() && Resolve(routeKey, majorKey) == Some(b)
      ensures b.majorKey == majorKey && b.OfRoute() && b.lastUsed == now
      ensures Survivors(old(buckets), old(LastUsed()), kept, old(CleanupDue(now)), now - bucketTTL)
      ensures b in kept.Values || (fresh(b) && b.routeKey == routeKey && b.remaining == 1)
      ensures !old(CleanupDue(now)) && old(Resolve(routeKey, majorKey)).Some? ==>
                old(Resolve(routeKey, majorKey)) == Some(b) && buckets == old(buckets) && bucketHashes == old(bucketHashes)
      ensures kept.Values <= old(buckets.Values) && buckets.Values <= kept.Values + {b}
      ensures Submap(bucketHashes, old(bucketHashes))
      ensures forall o: Bucket | o in old(buckets.Values) && o != b :: o.lastUsed == old(o.lastUsed)
      ensures OldestWentBut(old(LastUsed()), buckets.Keys, {RouteBucketKey(routeKey, majorKey)})
      ensures !old(CleanupDue(now)) && old(Resolve(routeKey, majorKey)).None? ==>
                MadeRoom(old(buckets), old(LastUsed()), RouteBucketKey(routeKey, majorKey))
      ensures lastCleanup == if old(CleanupDue(now)) then Some(now) else old(lastCleanup)
      ensures RouteUsed(RouteBucketKey(routeKey, majorKey), now)
    {
      hide *;
      ghost var used, due, resolved := LastUsed(), CleanupDue(now), Resolve(routeKey, majorKey);
      CleanupBuckets(now);
      kept := buckets;
      ghost var between := LastUsed();
      if !due {
        assert between == used && Resolve(routeKey, majorKey) == resolved;
      }
      ValuesShrink(buckets, old(buckets));
      ghost var routes := bucketHashes;
      assert lastCleanup == if due then Some(now) else old(lastCleanup);
      ghost var cleaned := lastCleanup;
      b := FindOrMake(routeKey, majorKey, now);
      assert lastCleanup == cleaned;
      SubmapTwice(bucketHashes, routes, old(bucketHashes));
      OldestWentTwice(used, between, buckets.Keys, {RouteBucketKey(routeKey, majorKey)});
    }

    lemma NotUsed(key: string, now: int)
      requires key !in bucketHashes
      ensures RouteUsed(key, now)
    {
    }

    /** A route of the index that has just been followed. */
    predicate RouteUsed(key: string, now: int)
      reads `bucketHashes, `bucketHashUsed
    {
      key in bucketHashes ==> key in bucketHashUsed && bucketHashUsed[key] == now
    }

    /** getBucket after its cleanup. */
    method FindOrMake(routeKey: string, majorKey: string, now: int) returns (b: Bucket)
      requires Valid() && |majorKey| == MAJOR_LENGTH
      modifies `buckets, `bucketHashes, `bucketHashUsed, buckets.Values`lastUsed
      ensures lastCleanup == old(lastCleanup)
      ensures Valid() && Resolve(routeKey, majorKey) == Some(b)
      ensures b.majorKey == majorKey && b.OfRoute() && b.lastUsed == now
      ensures if old(Resolve(routeKey, majorKey)).Some?
              then old(Resolve(routeKey, majorKey)) == Some(b) && b in old(buckets.Values)
                   && buckets == old(buckets) && bucketHashes == old(bucketHashes)
              else fresh(b) && b.routeKey == routeKey && b.remaining == 1
                   && MadeRoom(old(buckets), old(LastUsed()), RouteBucketKey(routeKey, majorKey))
      ensures buckets.Values <= old(buckets.Values) + {b} && Submap(bucketHashes, old(bucketHashes))
      ensures forall o: Bucket | o in old(buckets.Values) && o != b :: o.lastUsed == old(o.lastUsed)
      ensures buckets.Keys <= old(buckets).Keys + {RouteBucketKey(routeKey, majorKey)}
      ensures OldestWentBut(old(LastUsed()), buckets.Keys, {RouteBucketKey(routeKey, majorKey)})
      ensures RouteUsed(RouteBucketKey(routeKey, majorKey), now)
    {
      hide RouteBucketKey, OldestWent, OldestWentBut, Shaped, Led, Filed, Submap, SubmapExcept, RouteUsed;
      ghost var used := LastUsed();
      var found := FindBucket(routeKey, majorKey, now);
      if found.Some? {
        b := found.value;
        ghost var cleaned := lastCleanup;
        b.lastUsed := now;
        assert lastCleanup == cleaned;
        assert used.Keys == buckets.Keys;
        NothingWent(used, {RouteBucketKey(routeKey, majorKey)});
        NothingLeft(bucketHashes);
      } else {
        b := MakeBucket(routeKey, majorKey, now);
        NotUsed(RouteBucketKey(routeKey, majorKey), now);
        OldestWentAll(used, buckets.Keys, {RouteBucketKey(routeKey, majorKey)});
      }
    }

    /** The lookups at the head of getBucket. */
    method FindBucket(routeKey: string, majorKey: string, now: int) returns (found: Option<Bucket>)
      requires Valid() && |majorKey| == MAJOR_LENGTH
      modifies `bucketHashUsed
      ensures Valid() && found == Resolve(routeKey, majorKey)
      ensures RouteUsed(RouteBucketKey(routeKey, majorKey), now)
      ensures SubmapExcept(bucketHashUsed, old(bucketHashUsed), RouteBucketKey(routeKey, majorKey))
      ensures found.Some? ==> found.value in buckets.Values && found.value.majorKey == majorKey && found.value.OfRoute()
      ensures found.None? ==>
                RouteBucketKey(routeKey, majorKey) !in bucketHashes && RouteBucketKey(routeKey, majorKey) !in buckets
      ensures lastCleanup == old(lastCleanup)
    {
      KeyShapes(routeKey, majorKey);
      var key := RouteBucketKey(routeKey, majorKey);
      if key in bucketHashes {
        found := FollowRoute(key, now);
      } else if key in buckets {
        assert GoodKey(key, buckets[key]);
        found := Some(buckets[key]);
      } else {
        found := None;
      }
    }

    /** A route in the index is marked as used; what it leads to is in the cache. */
    method FollowRoute(key: string, now: int) returns (found: Option<Bucket>)
      requires Valid() && key in bucketHashes
      modifies `bucketHashUsed
      ensures Valid() && bucketHashes[key] in buckets && found == Some(buckets[bucketHashes[key]])
      ensures found.value in buckets.Values && found.value.majorKey == MajorOf(key) && found.value.OfRoute()
      ensures bucketHashUsed == old(bucketHashUsed)[key := now]
    {
      var target := bucketHashes[key];
      assert GoodRoute(key, target) && target in buckets && GoodKey(target, buckets[target]);
      bucketHashUsed := bucketHashUsed[key := now];
      assert bucketHashUsed.Keys == bucketHashes.Keys;
      found := Some(buckets[target]);
    }

    /** A bucket was filed under a new key: the least recently used went, as many as the bound asks for and no more. */
    ghost predicate MadeRoom(before: map<string, Bucket>, used: map<string, int>, key: string)
      reads this
    {
      && OldestWent(used, buckets.Keys) && buckets.Keys <= before.Keys + {key}
      && (if maxBuckets <= 0 || |before| < maxBuckets then buckets.Keys == before.Keys + {key} else |buckets| == maxBuckets)
    }

    /** The keys once a bucket is taken from its route. */
    ghost function Aside(bucket: Bucket): set<string>
      reads `buckets
    {
      var origin := RouteBucketKey(bucket.routeKey, bucket.majorKey);
      if origin in buckets && buckets[origin] == bucket then buckets.Keys - {origin} else buckets.Keys
    }

    /** One key joined others, and no more of them went than the bound asks for. */
    ghost predicate RoomFor(others: set<string>, key: string)
      reads this
    {
      if maxBuckets <= 0 || |others| < maxBuckets then buckets.Keys == others + {key}
      else |buckets| == maxBuckets && buckets.Keys <= others + {key}
    }

    /** A bucket takes a new key, after making room for it. */
    method FileUnder(bucket: Bucket, target: string)
      requires Valid() && GoodKey(target, bucket) && target !in buckets
      modifies `buckets, `bucketHashes, `bucketHashUsed
      ensures Valid() && target in buckets && buckets[target] == bucket
      ensures buckets.Values <= old(buckets.Values) + {bucket} && Submap(bucketHashes, old(bucketHashes))
      ensures MadeRoom(old(buckets), old(LastUsed()), target)
      ensures lastCleanup == old(lastCleanup)
    {
      MakeBucketRoom();
      SubmapAll(buckets, old(buckets));
      InsertSize(buckets, target, bucket);
      KeyJoins(old(LastUsed()), buckets.Keys, target);
      buckets := buckets[target := bucket];
    }

    /** The end of getBucket: a new bucket, after making room for it. */
    method MakeBucket(routeKey: string, majorKey: string, now: int) returns (b: Bucket)
      requires Valid() && |majorKey| == MAJOR_LENGTH
      requires RouteBucketKey(routeKey, majorKey) !in bucketHashes && RouteBucketKey(routeKey, majorKey) !in buckets
      modifies `buckets, `bucketHashes, `bucketHashUsed
      ensures Valid() && fresh(b) && b.OfRoute() && b.routeKey == routeKey && b.majorKey == majorKey
      ensures b.remaining == 1 && b.lastUsed == now
      ensures Resolve(routeKey, majorKey) == Some(b) && buckets.Values <= old(buckets.Values) + {b}
      ensures Submap(bucketHashes, old(bucketHashes)) && RouteBucketKey(routeKey, majorKey) !in bucketHashes
      ensures MadeRoom(old(buckets), old(LastUsed()), RouteBucketKey(routeKey, majorKey))
      ensures lastCleanup == old(lastCleanup)
    {
      hide RouteBucketKey, OldestWent, Submap, MadeRoom, Shaped, Led, Filed;
      KeyShapes(routeKey, majorKey);
      var key := RouteBucketKey(routeKey, majorKey);
      ghost var used := LastUsed();
      b := new Bucket(routeKey, majorKey, now);
      assert LastUsed() == used;
      ghost var routes := bucketHashes;
      FileUnder(b, key);
      NoNewKey(bucketHashes, routes, key);
    }

    /** registerBucketHash: the route of a bucket from now on leads to the one bucket of its discovered hash and major. */
    method RegisterBucketHash(bucket: Bucket, hash: string, now: int)
      returns (canonical: Bucket, ghost kept: map<string, Bucket>)
      requires Valid() && bucket.OfRoute()
      modifies this, buckets.Values`lastUsed
      ensures Valid()
      ensures Leads(bucket, DiscoveredBucketKey(hash, bucket.majorKey), canonical)
      ensures canonical.majorKey == bucket.majorKey && canonical.OfRoute()
      ensures Survivors(old(buckets), old(LastUsed()), kept, old(CleanupDue(now)), now - bucketTTL)
      ensures canonical == bucket || (canonical in kept.Values && canonical.lastUsed == now)
      ensures SubmapExcept(bucketHashes, old(bucketHashes), RouteBucketKey(bucket.routeKey, bucket.majorKey))
      ensures kept.Values <= old(buckets.Values) && buckets.Values <= kept.Values + {bucket}
      ensures lastCleanup == if old(CleanupDue(now)) then Some(now) else old(lastCleanup)
      ensures forall o: Bucket | o in old(buckets.Values) && o != canonical :: o.lastUsed == old(o.lastUsed)
      ensures OldestWentBut(old(LastUsed()), buckets.Keys, Moved(bucket, hash))
      ensures !old(CleanupDue(now)) ==> Registered(old(buckets.Keys), old(Aside(bucket)), bucket, hash, canonical)
    {
      hide Submap, SubmapExcept, OldestWent, OldestWentBut, Leads, Aside, RoomFor, Registered, Moved, Shaped, Led, Filed, Survivors;
      hide RouteBucketKey, DiscoveredBucketKey;
      ghost var used, due := LastUsed(), CleanupDue(now);
      CleanupBuckets(now);
      kept := buckets;
      assert lastCleanup == if due then Some(now) else old(lastCleanup);
      ghost var between, routes := LastUsed(), bucketHashes;
      ValuesShrink(buckets, old(buckets));
      ghost var cleaned := lastCleanup;
      canonical := Reroute(bucket, hash, now);
      assert lastCleanup == cleaned;
      SubmapTwiceExcept(bucketHashes, routes, old(bucketHashes), RouteBucketKey(bucket.routeKey, bucket.majorKey));
      OldestWentTwice(used, between, buckets.Keys, Moved(bucket, hash));
    }

    /** registerBucketHash after its cleanup. */
    method Reroute(bucket: Bucket, hash: string, now: int) returns (canonical: Bucket)
      requires Valid() && bucket.OfRoute()
      modifies `buckets, `bucketHashes, `bucketHashUsed, buckets.Values`lastUsed
      ensures Valid()
      ensures Leads(bucket, DiscoveredBucketKey(hash, bucket.majorKey), canonical)
      ensures canonical.majorKey == bucket.majorKey && canonical.OfRoute()
      ensures canonical == bucket || (canonical in old(buckets.Values) && canonical.lastUsed == now)
      ensures SubmapExcept(bucketHashes, old(bucketHashes), RouteBucketKey(bucket.routeKey, bucket.majorKey))
      ensures buckets.Values <= old(buckets.Values) + {bucket}
      ensures forall o: Bucket | o in old(buckets.Values) && o != canonical :: o.lastUsed == old(o.lastUsed)
      ensures buckets.Keys <= old(buckets).Keys + Moved(bucket, hash)
      ensures OldestWentBut(old(LastUsed()), buckets.Keys, Moved(bucket, hash))
      ensures Registered(old(buckets.Keys), old(Aside(bucket)), bucket, hash, canonical)
      ensures lastCleanup == old(lastCleanup)
    {
      hide Submap, SubmapExcept, OldestWent, OldestWentBut, Leads, RoomFor, RateLimiter.Valid;
      KeyShapes(bucket.routeKey, bucket.majorKey);
      KeyShapes(hash, bucket.majorKey);
      hide RouteBucketKey, DiscoveredBucketKey;
      var target := DiscoveredBucketKey(hash, bucket.majorKey);
      if target in buckets {
        canonical := buckets[target];
        ghost var used := LastUsed();
        LinkExisting(bucket, target, canonical, now);
        ValuesShrink(buckets, old(buckets));
        OnlyOthersWent(used, buckets.Keys, Moved(bucket, hash));
      } else {
        canonical := Promote(bucket, target, now);
      }
    }

    /** A registration changes the keys by one move: the bucket leaves its route, or goes from there to a new hash. */
    ghost predicate Registered(before: set<string>, aside: set<string>, bucket: Bucket, hash: string, canonical: Bucket)
      reads this
    {
      var target := DiscoveredBucketKey(hash, bucket.majorKey);
      if target !in before then RoomFor(aside, target) else buckets.Keys == if bucket == canonical then before else aside
    }

    /** The keys that a registration takes a bucket from and files it under. */
    ghost function Moved(bucket: Bucket, hash: string): set<string> {
      {RouteBucketKey(bucket.routeKey, bucket.majorKey), DiscoveredBucketKey(hash, bucket.majorKey)}
    }

    /** The route of a bucket leads to a discovered key. */
    predicate Leads(bucket: Bucket, target: string, canonical: Bucket)
      reads this
    {
      var origin := RouteBucketKey(bucket.routeKey, bucket.majorKey);
      && target in buckets && buckets[target] == canonical
      && origin in bucketHashes && bucketHashes[origin] == target
    }

    /** The discovered bucket exists: the route joins it, and the bucket made for the route goes. */
    method LinkExisting(bucket: Bucket, target: string, existing: Bucket, now: int)
      requires Valid() && bucket.OfRoute() && target in buckets && buckets[target] == existing
      requires IsDiscovered(target) && MajorOf(target) == bucket.majorKey
      modifies `buckets, `bucketHashes, `bucketHashUsed, {existing}`lastUsed
      ensures Valid() && Leads(bucket, target, existing) && existing.lastUsed == now
      ensures existing.majorKey == bucket.majorKey && existing.OfRoute()
      ensures Submap(buckets, old(buckets))
      ensures buckets.Keys == if bucket == existing then old(buckets).Keys else old(Aside(bucket))
      ensures OldestWentBut(old(bucketHashUsed), bucketHashUsed.Keys, {RouteBucketKey(bucket.routeKey, bucket.majorKey)})
      ensures SubmapExcept(bucketHashes, old(bucketHashes), RouteBucketKey(bucket.routeKey, bucket.majorKey))
      ensures lastCleanup == old(lastCleanup)
    {
      hide OldestWent, OldestWentBut, SubmapExcept, Submap, RateLimiter.Valid, RateLimiter.Aside;
      KeyShapes(bucket.routeKey, bucket.majorKey);
      hide RouteBucketKey;
      var origin := RouteBucketKey(bucket.routeKey, bucket.majorKey);
      ghost var used := bucketHashUsed;
      KnownKey(target);
      SetBucketHash(origin, target, now);
      OldestWentAll(used, bucketHashUsed.Keys, {origin});
      existing.lastUsed := now;
      LeaveRoute(bucket, target, existing);
    }

    /** The bucket made for a route goes, unless it is the discovered one itself. */
    method LeaveRoute(bucket: Bucket, ghost target: string, existing: Bucket)
      requires Valid() && bucket.OfRoute() && target in buckets && buckets[target] == existing && IsDiscovered(target)
      modifies `buckets
      ensures Valid() && target in buckets && buckets[target] == existing && Submap(buckets, old(buckets))
      ensures buckets.Keys == if bucket == existing then old(buckets).Keys else old(Aside(bucket))
    {
      hide RateLimiter.Valid;
      KeyShapes(bucket.routeKey, bucket.majorKey);
      hide RouteBucketKey;
      var origin := RouteBucketKey(bucket.routeKey, bucket.majorKey);
      if origin in buckets && buckets[origin] == bucket && existing != bucket {
        RemoveBucket(origin);
      }
    }

    lemma KnownKey(key: string)
      requires Valid() && key in buckets
      ensures GoodKey(key, buckets[key])
    {
    }

    /** The hash is new: the bucket moves from its route key to the discovered key. */
    method Promote(bucket: Bucket, target: string, now: int) returns (canonical: Bucket)
      requires Valid() && bucket.OfRoute() && target !in buckets
      requires IsDiscovered(target) && MajorOf(target) == bucket.majorKey
      modifies `buckets, `bucketHashes, `bucketHashUsed
      ensures Valid() && Leads(bucket, target, canonical) && canonical == bucket
      ensures buckets.Values <= old(buckets.Values) + {bucket}
      ensures RoomFor(old(Aside(bucket)), target) && buckets.Keys <= old(buckets).Keys + {target}
      ensures OldestWentBut(old(LastUsed()), buckets.Keys, {RouteBucketKey(bucket.routeKey, bucket.majorKey), target})
      ensures SubmapExcept(bucketHashes, old(bucketHashes), RouteBucketKey(bucket.routeKey, bucket.majorKey))
      ensures lastCleanup == old(lastCleanup)
    {
      hide RouteBucketKey, Shaped, Led, Filed;
      KeyShapes(bucket.routeKey, bucket.majorKey);
      var origin := RouteBucketKey(bucket.routeKey, bucket.majorKey);
      if origin in buckets && buckets[origin] == bucket {
        RemoveBucket(origin);
      }
      FileUnder(bucket, target);
      SetBucketHash(origin, target, now);
      canonical := bucket;
    }

    /** delete(r.buckets, key) for a key of a route, which no route leads to. */
    method RemoveBucket(key: string)
      requires Valid() && key in buckets && !IsDiscovered(key)
      modifies `buckets
      ensures Valid() && buckets == old(buckets) - {key}
      ensures lastCleanup == old(lastCleanup)
    {
      assert forall r | r in bucketHashes :: GoodRoute(r, bucketHashes[r]) && bucketHashes[r] != key;
      buckets := buckets - {key};
      SubmapSize(buckets, old(buckets));
    }
  }

  /** An entry survives when no more entries were used at or after its own time than stay of those there were. */
  lemma RecentlyUsedStay(used: map<string, int>, stayed: set<string>, k: string)
    requires OldestWent(used, stayed) && k in used
    requires |set k' | k' in used && used[k'] >= used[k]| <= |stayed * used.Keys|
    ensures k in stayed
  {
    if k !in stayed {
      var recent := set k' | k' in used && used[k'] >= used[k];
      SubsetSize(stayed * used.Keys + {k}, recent);
    }
  }

  // ---- Runs ------------------------------------------------------------------------------------

  /** A lookup of a route, a response that names the hash of a bucket handed out earlier, or another use of one. */
  datatype Op =
    | Lookup(routeKey: string, majorKey: string, now: int)
    | Learn(index: nat, hash: string, now: int)
    | Touch(index: nat, now: int)

  /** The major parameters looked up, in order. */
  function Majors(ops: seq<Op>): seq<string> {
    if ops == [] then []
    else
      var last := ops[|ops| - 1];
      Majors(ops[..|ops| - 1]) + if last.Lookup? && |last.majorKey| == MAJOR_LENGTH then [last.majorKey] else []
  }

  /** Two routes of one major parameter that learn one hash share a bucket, for as long as both stay in the index. */
  method SharedBucket(r: RateLimiter, b: Bucket, b': Bucket, hash: string, now: int, now': int)
    requires r.Valid() && b.OfRoute() && b'.OfRoute() && b.majorKey == b'.majorKey
    modifies r, r.buckets.Values`lastUsed, b`lastUsed
    ensures r.Valid() && r.Resolve(b'.routeKey, b'.majorKey).Some?
    ensures RouteBucketKey(b.routeKey, b.majorKey) in r.bucketHashes ==>
              r.Resolve(b.routeKey, b.majorKey) == r.Resolve(b'.routeKey, b'.majorKey)
  {
    var first, kept := r.RegisterBucketHash(b, hash, now);
    var second, kept' := r.RegisterBucketHash(b', hash, now');
  }

  /** One operation on the limiter, with the buckets handed out so far. */
  method Perform(r: RateLimiter, handed: seq<Bucket>, op: Op) returns (handed': seq<Bucket>)
    requires r.Valid() && forall b | b in handed :: b.OfRoute()
    modifies r, r.buckets.Values`lastUsed, handed`lastUsed
    ensures r.Valid() && forall b | b in handed' :: b.OfRoute()
    ensures handed <= handed' && Majors([op]) == if handed' == handed then [] else [handed'[|handed|].majorKey]
    ensures |handed'| == |handed| + |Majors([op])|
    ensures forall b | b in r.buckets.Values || b in handed' :: b in old(r.buckets.Values) || b in handed || fresh(b)
  {
    hide RateLimiter.CleanupDue, RateLimiter.MadeRoom, RateLimiter.Registered, RateLimiter.RouteUsed, OldestWentBut,
      Submap, SubmapExcept, RateLimiter.Leads, RateLimiter.Moved, RateLimiter.Resolve, RateLimiter.Valid, Survivors;
    handed' := handed;
    assert Majors([op][..0]) == [];
    match op
    case Lookup(routeKey, majorKey, now) =>
      if |majorKey| == MAJOR_LENGTH {
        var b, kept := r.GetRouteBucket(routeKey, majorKey, now);
        handed' := handed + [b];
      }
    case Learn(index, hash, now) =>
      if index < |handed| {
        var canonical, kept := r.RegisterBucketHash(handed[index], hash, now);
      }
    case Touch(index, now) =>
      if index < |handed| {
        handed[index].lastUsed := now;
      }
  }

  /**
   The index is sound after every sequence of operations on a new limiter, and every lookup was answered with a bucket
   of its own major parameter.
   */
  method Run(bucketTTL: int, maxBuckets: int, maxBucketMappings: int, ops: seq<Op>)
    returns (r: RateLimiter, handed: seq<Bucket>)
    ensures r.Valid() && r.maxBuckets == maxBuckets && r.maxBucketMappings == maxBucketMappings
    ensures |handed| == |Majors(ops)| && forall i | 0 <= i < |handed| :: handed[i].majorKey == Majors(ops)[i]
  {
    r := new RateLimiter(bucketTTL, maxBuckets, maxBucketMappings);
    handed := [];
    for n := 0 to |ops|
      invariant fresh(r) && r.Valid() && r.maxBuckets == maxBuckets && r.maxBucketMappings == maxBucketMappings
      invariant fresh(r.buckets.Values) && fresh(set b | b in handed)
      invariant forall b | b in handed :: b.OfRoute()
      invariant |handed| == |Majors(ops[..n])|
      invariant forall i | 0 <= i < |handed| :: handed[i].majorKey == Majors(ops[..n])[i]
    {
      assert ops[..n + 1][..n] == ops[..n];
      assert Majors([ops[n]]) == Majors(ops[..n + 1])[|Majors(ops[..n])|..];
      handed := Perform(r, handed, ops[n]);
    }
    assert ops[..|ops|] == ops;
  }

  lemma NothingLeft<K, V>(a: map<K, V>)
    ensures Submap(a, a)
  {
  }

  lemma NoNewKey<K, V>(a: map<K, V>, b: map<K, V>, k: K)
    requires Submap(a, b) && k !in b
    ensures k !in a
  {
  }

  lemma SubmapTwice<K, V>(a: map<K, V>, b: map<K, V>, c: map<K, V>)
    requires Submap(a, b) && Submap(b, c)
    ensures Submap(a, c)
  {
  }

  lemma SubmapTwiceExcept<K, V>(a: map<K, V>, b: map<K, V>, c: map<K, V>, k: K)
    requires SubmapExcept(a, b, k) && Submap(b, c)
    ensures SubmapExcept(a, c, k)
  {
  }

  lemma ValuesShrink<K, V>(a: map<K, V>, b: map<K, V>)
    requires Submap(a, b)
    ensures a.Values <= b.Values
  {
  }

  lemma InsertSize<K, V>(m: map<K, V>, k: K, v: V)
    ensures |m[k := v]| == |m| + if k in m then 0 else 1
    ensures m[k := v].Keys == m.Keys + {k} && m[k := v].Values <= m.Values + {v}
  {
    var m' := m[k := v];
    assert m'.Keys == m.Keys + {k};
    assert |m'| == |m'.Keys| && |m| == |m.Keys|;
    if k in m {
      assert m'.Keys == m.Keys;
    }
  }

  /** A submap of the same size is the whole map. */
  lemma SubmapAll<K, V>(a: map<K, V>, b: map<K, V>)
    requires Submap(a, b)
    ensures |a| == |b| ==> a.Keys == b.Keys
  {
    SubsetAll(a.Keys, b.Keys);
    assert |a| == |a.Keys| && |b| == |b.Keys|;
  }

  lemma {:induction false} SubsetAll<T>(a: set<T>, b: set<T>)
    requires a <= b
    ensures |a| == |b| ==> a == b
  {
    if |a| == |b| {
      assert b == a + (b - a);
      assert |b| == |a| + |b - a|;
    }
  }

  lemma {:induction false} SubmapSize<K, V>(a: map<K, V>, b: map<K, V>)
    requires a.Keys <= b.Keys
    ensures |a| <= |b|
  {
    SubsetSize(a.Keys, b.Keys);
    assert |a| == |a.Keys| && |b| == |b.Keys|;
  }

  lemma {:induction false} SubsetSize<T>(a: set<T>, b: set<T>)
    requires a <= b
    ensures |a| <= |b|
  {
    if a != {} {
      var x :| x in a;
      SubsetSize(a - {x}, b - {x});
    }
  }
}
