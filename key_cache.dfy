/** The signing-key cache of signer.js: the module-level `cachedKeys` map and
    `cacheQueue` array, bounded to `MaxCacheEntries` with first-in-first-out
    eviction (insertion order; a hit does not refresh an entry). */
module SigningKeyCache {
  import opened Wrappers
  import opened Primitives

  const MaxCacheEntries: nat := 50

  /** The pair (`cachedKeys`, `cacheQueue`) as a value. */
  datatype CacheState = CacheState(keys: map<string, Bytes>, queue: seq<string>)

  predicate Distinct(q: seq<string>)
  {
    forall i, j :: 0 <= i < j < |q| ==> q[i] != q[j]
  }

  /** The cache invariant: the queue lists exactly the cached keys, each once,
      oldest first, and there are at most `MaxCacheEntries` of them. */
  ghost predicate WellFormed(s: CacheState)
  {
    && |s.queue| <= MaxCacheEntries
    && Distinct(s.queue)
    && (forall k :: k in s.keys <==> k in s.queue)
  }

  const Empty := CacheState(map[], [])

  /** What signer.js:73-78 intends on a miss: store the key, append it to the
      queue and, once the queue is over the bound, drop the oldest entry from
      both. (As written, line 77 deletes from `cachedSecret`, a name that does
      not exist; see `InsertedAsWritten`.) */
  function Inserted(s: CacheState, key: string, value: Bytes): (t: CacheState)
    requires key !in s.keys
    ensures t.keys.Keys <= s.keys.Keys + {key}
  {
    var keys := s.keys[key := value];
    var queue := s.queue + [key];
    if |queue| > MaxCacheEntries then CacheState(keys - {queue[0]}, queue[1..])
    else CacheState(keys, queue)
  }

  /** The last `n` elements of `q` (all of them when there are fewer). */
  function LastN(q: seq<string>, n: nat): (r: seq<string>)
    ensures |r| == if |q| <= n then |q| else n
  {
    if |q| <= n then q else q[|q| - n..]
  }

  /** An insertion keeps the invariant, stores the new entry, keeps every other
      entry but the evicted one, and evicts exactly the oldest-inserted key
      when the cache was full. */
  lemma InsertedWellFormed(s: CacheState, key: string, value: Bytes)
    requires WellFormed(s) && key !in s.keys
    ensures var t := Inserted(s, key, value);
      && WellFormed(t)
      && key in t.keys && t.keys[key] == value
      && t.queue == LastN(s.queue + [key], MaxCacheEntries)
      && (|s.queue| < MaxCacheEntries ==> t.keys.Keys == s.keys.Keys + {key})
      && (|s.queue| == MaxCacheEntries ==>
            s.queue[0] !in t.keys && t.keys.Keys == s.keys.Keys - {s.queue[0]} + {key})
      && (forall k :: k in t.keys && k != key ==> t.keys[k] == s.keys[k])
  {
    var t := Inserted(s, key, value);
    var q := s.queue + [key];
    assert key !in s.queue;
    AppendDistinct(s.queue, key);
    if |q| > MaxCacheEntries {
      assert t == CacheState(s.keys[key := value] - {q[0]}, q[1..]);
      assert q[0] == s.queue[0];
      forall k ensures k in t.keys <==> k in t.queue {
        DropFirst(q, k);
      }
    }
  }

  /** Appending a key not yet queued keeps the queue free of repetitions. */
  lemma AppendDistinct(q: seq<string>, key: string)
    requires Distinct(q) && key !in q
    ensures Distinct(q + [key])
  {
    var r := q + [key];
    forall i, j | 0 <= i < j < |r| ensures r[i] != r[j] {
      if j == |r| - 1 {
        assert r[i] == q[i];
      }
    }
  }

  /** Dropping the head of a repetition-free queue removes exactly that key,
      and the rest stays free of repetitions. */
  lemma DropFirst(q: seq<string>, k: string)
    requires Distinct(q) && |q| >= 1
    ensures Distinct(q[1..])
    ensures k in q[1..] <==> k in q && k != q[0]
  {
    if k in q[1..] {
      var j :| 0 <= j < |q| - 1 && q[1..][j] == k;
      assert q[j + 1] == k;
    }
    if k in q && k != q[0] {
      var j :| 0 <= j < |q| && q[j] == k;
      assert q[1..][j - 1] == k;
    }
  }

  /** `cacheKey in cachedKeys ? cachedKeys[cacheKey] : <derived>`: the key a lookup returns. */
  function Lookup<E>(s: CacheState, key: string, derived: Result<Bytes, E>): Result<Bytes, E>
  {
    if key in s.keys then Ok(s.keys[key]) else derived
  }

  /** The cache after a lookup: a hit changes nothing (in particular it does not
      reorder the queue); a successful derivation is inserted; a derivation that
      throws stores nothing. */
  function AfterLookup<E>(s: CacheState, key: string, derived: Result<Bytes, E>): CacheState
  {
    if key in s.keys then s
    else if derived.Ok? then Inserted(s, key, derived.value)
    else s
  }

  /** A lookup keeps the invariant, and afterwards the cache holds exactly the
      key the lookup returned. */
  lemma LookupStores<E>(s: CacheState, key: string, derived: Result<Bytes, E>)
    requires WellFormed(s)
    ensures var r := Lookup(s, key, derived);
      var t := AfterLookup(s, key, derived);
      && WellFormed(t)
      && (r.Ok? ==> key in t.keys && t.keys[key] == r.value)
  {
    if key !in s.keys && derived.Ok? {
      InsertedWellFormed(s, key, derived.value);
    }
  }

  /** Every cached entry is what `derive` gives for its key: the cache agrees
      with a recomputation. */
  ghost predicate Coherent<E>(s: CacheState, derive: string -> Result<Bytes, E>)
  {
    forall k :: k in s.keys ==> derive(k) == Ok(s.keys[k])
  }

  /** Cache transparency: on a coherent cache a lookup returns exactly the
      derivation (hit or miss), and the cache stays well formed and coherent. */
  lemma LookupTransparent<E>(s: CacheState, key: string, derive: string -> Result<Bytes, E>)
    requires WellFormed(s) && Coherent(s, derive)
    ensures Lookup(s, key, derive(key)) == derive(key)
    ensures WellFormed(AfterLookup(s, key, derive(key)))
    ensures Coherent(AfterLookup(s, key, derive(key)), derive)
  {
    if key !in s.keys && derive(key).Ok? {
      var t := Inserted(s, key, derive(key).value);
      InsertedWellFormed(s, key, derive(key).value);
      forall k | k in t.keys ensures derive(k) == Ok(t.keys[k]) {
        if k != key {
          assert k in s.keys;
        }
      }
    }
  }

  /** The cache after the lookups of `ks`, in order. */
  function AfterLookups<E>(s: CacheState, ks: seq<string>, derive: string -> Result<Bytes, E>): CacheState
    decreases |ks|
  {
    if ks == [] then s
    else
      var last := ks[|ks| - 1];
      AfterLookup(AfterLookups(s, ks[..|ks| - 1], derive), last, derive(last))
  }

  /** Any run of lookups keeps a well-formed, coherent cache so. */
  lemma {:induction false} LookupsCoherent<E>(s: CacheState, ks: seq<string>, derive: string -> Result<Bytes, E>)
    requires WellFormed(s) && Coherent(s, derive)
    ensures WellFormed(AfterLookups(s, ks, derive)) && Coherent(AfterLookups(s, ks, derive), derive)
    decreases |ks|
  {
    if ks != [] {
      var n := |ks| - 1;
      LookupsCoherent(s, ks[..n], derive);
      LookupTransparent(AfterLookups(s, ks[..n], derive), ks[n], derive);
    }
  }

  /** Transparency over any run of lookups: starting from a coherent cache,
      every lookup of the run returns its derivation. */
  lemma LookupsTransparent<E>(s: CacheState, ks: seq<string>, derive: string -> Result<Bytes, E>)
    requires WellFormed(s) && Coherent(s, derive)
    ensures forall i :: 0 <= i < |ks| ==>
      Lookup(AfterLookups(s, ks[..i], derive), ks[i], derive(ks[i])) == derive(ks[i])
  {
    forall i | 0 <= i < |ks|
      ensures Lookup(AfterLookups(s, ks[..i], derive), ks[i], derive(ks[i])) == derive(ks[i])
    {
      LookupsCoherent(s, ks[..i], derive);
      LookupTransparent(AfterLookups(s, ks[..i], derive), ks[i], derive);
    }
  }

  /** Inserting the fresh keys `ks` one after another, each with its derived value. */
  function InsertAll(s: CacheState, ks: seq<string>, derive: string -> Bytes): (t: CacheState)
    requires Distinct(ks) && forall i :: 0 <= i < |ks| ==> ks[i] !in s.keys
    decreases |ks|
  {
    if ks == [] then s
    else
      var next := Inserted(s, ks[0], derive(ks[0]));
      assert forall i :: 1 <= i < |ks| ==> ks[i] !in next.keys;
      InsertAll(next, ks[1..], derive)
  }

  lemma LastNAppend(q: seq<string>, k: seq<string>, n: nat)
    ensures LastN(LastN(q, n) + k, n) == LastN(q + k, n)
  {
    if |q| > n {
      var a := LastN(q, n) + k;
      var b := q + k;
      assert |LastN(a, n)| == |LastN(b, n)|;
      forall i | 0 <= i < |LastN(a, n)| ensures LastN(a, n)[i] == LastN(b, n)[i] {
        if i + |a| - |LastN(a, n)| < n {
          assert LastN(a, n)[i] == q[|q| - n + i + |a| - |LastN(a, n)|];
        }
      }
    }
  }

  /** One step of `InsertAll`: the first key is queued (evicting the oldest
      when over the bound) and the remaining keys are still distinct and fresh. */
  lemma InsertAllTail(s: CacheState, ks: seq<string>, derive: string -> Bytes)
    requires |s.queue| <= MaxCacheEntries && ks != []
    requires Distinct(ks) && forall i :: 0 <= i < |ks| ==> ks[i] !in s.keys
    ensures var next := Inserted(s, ks[0], derive(ks[0]));
      && next.queue == LastN(s.queue + [ks[0]], MaxCacheEntries)
      && Distinct(ks[1..]) && (forall i :: 0 <= i < |ks[1..]| ==> ks[1..][i] !in next.keys)
      && InsertAll(s, ks, derive) == InsertAll(next, ks[1..], derive)
  {
    var next := Inserted(s, ks[0], derive(ks[0]));
    var rest := ks[1..];
    assert Distinct(rest) by {
      forall i, j | 0 <= i < j < |rest| ensures rest[i] != rest[j] {
        assert rest[i] == ks[i + 1] && rest[j] == ks[j + 1];
      }
    }
    assert forall i :: 0 <= i < |rest| ==> rest[i] !in next.keys by {
      forall i | 0 <= i < |rest| ensures rest[i] !in next.keys {
        assert rest[i] == ks[i + 1] && ks[i + 1] != ks[0];
      }
    }
    assert next.queue == LastN(s.queue + [ks[0]], MaxCacheEntries) by {}
    assert InsertAll(s, ks, derive) == InsertAll(next, rest, derive) by {}
  }

  /** A run of fresh insertions keeps the cache invariant. */
  lemma {:induction false} InsertAllWellFormed(s: CacheState, ks: seq<string>, derive: string -> Bytes)
    requires WellFormed(s)
    requires Distinct(ks) && forall i :: 0 <= i < |ks| ==> ks[i] !in s.keys
    ensures WellFormed(InsertAll(s, ks, derive))
    decreases |ks|
  {
    if ks != [] {
      InsertAllTail(s, ks, derive);
      InsertedWellFormed(s, ks[0], derive(ks[0]));
      InsertAllWellFormed(Inserted(s, ks[0], derive(ks[0])), ks[1..], derive);
    }
  }

  /** FIFO order: after a run of fresh insertions the queue holds the newest
      `MaxCacheEntries` keys of the old queue followed by the new ones. */
  lemma {:induction false} InsertAllKeepsNewest(s: CacheState, ks: seq<string>, derive: string -> Bytes)
    requires |s.queue| <= MaxCacheEntries
    requires Distinct(ks) && forall i :: 0 <= i < |ks| ==> ks[i] !in s.keys
    ensures InsertAll(s, ks, derive).queue == LastN(s.queue + ks, MaxCacheEntries)
    decreases |ks|
  {
    if ks == [] {
      assert s.queue + ks == s.queue;
    } else {
      var next := Inserted(s, ks[0], derive(ks[0]));
      var rest := ks[1..];
      var q := s.queue + [ks[0]];
      InsertAllTail(s, ks, derive);
      InsertAllKeepsNewest(next, rest, derive);
      LastNAppend(q, rest, MaxCacheEntries);
      assert q + rest == s.queue + ks;
    }
  }

  /** A run of fresh insertions adds no key but those of the run. */
  lemma {:induction false} InsertAllKeys(s: CacheState, ks: seq<string>, derive: string -> Bytes)
    requires Distinct(ks) && forall i :: 0 <= i < |ks| ==> ks[i] !in s.keys
    ensures forall k :: k in InsertAll(s, ks, derive).keys ==> k in s.keys || k in ks
    decreases |ks|
  {
    if ks != [] {
      var next := Inserted(s, ks[0], derive(ks[0]));
      assert forall i :: 1 <= i < |ks| ==> ks[i] !in next.keys;
      assert Distinct(ks[1..]) by {
        forall i, j | 0 <= i < j < |ks| - 1 ensures ks[1..][i] != ks[1..][j] {
          assert ks[1..][i] == ks[i + 1] && ks[1..][j] == ks[j + 1];
        }
      }
      InsertAllKeys(next, ks[1..], derive);
      forall k | k in ks[1..] ensures k in ks {
        var j :| 0 <= j < |ks| - 1 && ks[1..][j] == k;
        assert ks[j + 1] == k;
      }
    }
  }

  /** `InsertAll` grows at the end: inserting one more fresh key after a run is
      the run extended by that key. */
  lemma {:induction false} InsertAllSnoc(s: CacheState, ks: seq<string>, key: string, derive: string -> Bytes)
    requires Distinct(ks + [key]) && forall i :: 0 <= i < |ks + [key]| ==> (ks + [key])[i] !in s.keys
    ensures Distinct(ks) && forall i :: 0 <= i < |ks| ==> ks[i] !in s.keys
    ensures key !in InsertAll(s, ks, derive).keys
    ensures InsertAll(s, ks + [key], derive) == Inserted(InsertAll(s, ks, derive), key, derive(key))
    decreases |ks|
  {
    var all := ks + [key];
    assert Distinct(ks) by {
      forall i, j | 0 <= i < j < |ks| ensures ks[i] != ks[j] {
        assert all[i] == ks[i] && all[j] == ks[j];
      }
    }
    assert forall i :: 0 <= i < |ks| ==> ks[i] !in s.keys by {
      forall i | 0 <= i < |ks| ensures ks[i] !in s.keys {
        assert all[i] == ks[i];
      }
    }
    assert key !in s.keys by {
      assert all[|ks|] == key;
    }
    assert key !in ks by {
      forall i | 0 <= i < |ks| ensures ks[i] != key {
        assert all[i] == ks[i] && all[|ks|] == key;
      }
    }
    InsertAllKeys(s, ks, derive);
    if ks != [] {
      var next := Inserted(s, ks[0], derive(ks[0]));
      var rest := all[1..];
      assert rest == ks[1..] + [key];
      assert Distinct(rest) by {
        forall i, j | 0 <= i < j < |rest| ensures rest[i] != rest[j] {
          assert rest[i] == all[i + 1] && rest[j] == all[j + 1];
        }
      }
      forall i | 0 <= i < |rest| ensures rest[i] !in next.keys {
        assert rest[i] == all[i + 1] && all[i + 1] != all[0];
      }
      InsertAllSnoc(next, ks[1..], key, derive);
      assert all[0] == ks[0];
    }
  }

  /** The lookups `GetSigningKey` makes, on distinct keys none of which is cached
      and each of which derives successfully, are exactly the run of fresh
      insertions `InsertAll`; the order properties proved about `InsertAll`
      therefore hold of the cache the signer actually maintains. */
  lemma {:induction false} FreshLookupsInsert<E>(s: CacheState, ks: seq<string>,
                                               derive: string -> Result<Bytes, E>, value: string -> Bytes)
    requires forall k :: derive(k) == Ok(value(k))
    requires Distinct(ks) && forall i :: 0 <= i < |ks| ==> ks[i] !in s.keys
    ensures AfterLookups(s, ks, derive) == InsertAll(s, ks, value)
    decreases |ks|
  {
    if ks != [] {
      var n := |ks| - 1;
      var init := ks[..n];
      assert init + [ks[n]] == ks;
      InsertAllSnoc(s, init, ks[n], value);
      FreshLookupsInsert(s, init, derive, value);
    }
  }

  /** First in, first out rather than least recently used: on a full cache a hit
      on the oldest key leaves the cache as it was, so the next successful miss
      still evicts that key although it was just used. */
  lemma HitDoesNotRefresh<E>(s: CacheState, hit: Result<Bytes, E>, key: string, value: Bytes)
    requires WellFormed(s) && |s.queue| == MaxCacheEntries && key !in s.keys
    ensures s.queue[0] in s.keys
    ensures AfterLookup(s, s.queue[0], hit) == s
    ensures s.queue[0] !in AfterLookup<E>(AfterLookup(s, s.queue[0], hit), key, Ok(value)).keys
  {
    InsertedWellFormed(s, key, value);
  }

  /** From an empty cache, 51 distinct keys: the first one inserted has been
      evicted and is derived again on its next use; the other 50 are hits. */
  lemma {:induction false} FiftyFirstInsertEvictsFirst(ks: seq<string>, derive: string -> Bytes)
    requires |ks| == MaxCacheEntries + 1 && Distinct(ks)
    ensures ks[0] !in InsertAll(Empty, ks, derive).keys
    ensures forall i :: 1 <= i < |ks| ==> ks[i] in InsertAll(Empty, ks, derive).keys
  {
    InsertAllKeepsNewest(Empty, ks, derive);
    InsertAllWellFormed(Empty, ks, derive);
    var t := InsertAll(Empty, ks, derive);
    assert t.queue == ks[1..];
    assert ks[0] !in ks[1..] by {
      forall j | 0 <= j < |ks| - 1 ensures ks[1..][j] != ks[0] {}
    }
    forall i | 1 <= i < |ks| ensures ks[i] in t.keys {
      assert ks[1..][i - 1] == ks[i];
    }
  }

  lemma {:induction false} DistinctCard(q: seq<string>)
    requires Distinct(q)
    ensures |set k | k in q| == |q|
  {
    if q != [] {
      var init := q[..|q| - 1];
      assert Distinct(init);
      DistinctCard(init);
      assert (set k | k in q) == (set k | k in init) + {q[|q| - 1]};
      assert q[|q| - 1] !in init;
    }
  }

  /** The number of cached keys equals the queue length and so never exceeds the bound. */
  lemma CacheSizeBounded(s: CacheState)
    requires WellFormed(s)
    ensures |s.keys| == |s.queue| <= MaxCacheEntries
  {
    DistinctCard(s.queue);
    assert s.keys.Keys == set k | k in s.queue;
  }

  /** signer.js:73-78 AS WRITTEN: the entry is stored and queued, and when the
      queue is over the bound the statement on line 77 throws a ReferenceError
      (`cachedSecret` is not defined) before `cacheQueue.shift()` runs, so nothing
      is evicted. The second component tells whether it threw. */
  function InsertedAsWritten(s: CacheState, key: string, value: Bytes): (CacheState, bool)
  {
    var queue := s.queue + [key];
    (CacheState(s.keys[key := value], queue), |queue| > MaxCacheEntries)
  }

  /** The counterexample: on a full cache, as written, a miss throws (so the
      request fails) and leaves 51 entries behind, breaking the bound; the
      intended insertion keeps the bound and does not fail. */
  lemma AsWrittenOverflowsAndThrows(s: CacheState, key: string, value: Bytes)
    requires WellFormed(s) && |s.queue| == MaxCacheEntries && key !in s.keys
    ensures InsertedAsWritten(s, key, value).1
    ensures |InsertedAsWritten(s, key, value).0.queue| == MaxCacheEntries + 1
    ensures !WellFormed(InsertedAsWritten(s, key, value).0)
    ensures WellFormed(Inserted(s, key, value))
  {
    InsertedWellFormed(s, key, value);
  }

  /** The shared cache object. */
  class KeyCache {
    var keys: map<string, Bytes>
    var queue: seq<string>

    function State(): CacheState
      reads this
    {
      CacheState(keys, queue)
    }

    ghost predicate Valid()
      reads this
    {
      WellFormed(State())
    }

    /** The module's initial `cachedKeys = {}` and `cacheQueue = []`. */
    constructor ()
      ensures Valid() && State() == Empty
    {
      keys, queue := map[], [];
    }

    /** signer.js:73-78 with the intended eviction. */
    method Store(key: string, value: Bytes)
      requires Valid() && key !in keys
      modifies this
      ensures Valid()
      ensures State() == Inserted(old(State()), key, value)
    {
      keys := keys[key := value];
      queue := queue + [key];
      if |queue| > MaxCacheEntries {
        // The source deletes from `cachedSecret` here; the map meant is `cachedKeys`.
        keys := keys - {queue[0]};
        queue := queue[1..];
      }
      InsertedWellFormed(old(State()), key, value);
    }
  }
}
