/**
 * `FileTreeCache` (lib/github/cache.ts): a recency-ordered in-memory map of
 * repository file lists with a five minute lifetime and at most 50 entries,
 * backed by browser storage that keeps the ten newest trees of under 5000 files.
 *
 * The cache is a value: every operation takes the cache (and the current time)
 * and returns the new cache alongside its answer. Storage is a map from key to
 * `Some(payload)`, or `None` when the stored text does not parse.
 */
module FileTreeCache {
  import opened Wrappers
  import opened Seqs
  import opened Sorting
  import opened Strings
  import opened GitHub
  import opened OrderedMaps

  const MaxAge: int := 5 * 60 * 1000
  const MaxSize: nat := 50
  const PersistBelow: nat := 5000
  const StoredFileLimit: nat := 1000
  const KeptTrees: nat := 10
  const SearchLimit: nat := 100
  const TreePrefix: string := "hypergit_tree_"

  datatype Entry = Entry(files: seq<GitHubFile>, timestamp: int, repoFullName: string)
  datatype Stored = Stored(files: seq<GitHubFile>, timestamp: int)
  type Storage = map<string, Option<Stored>>
  datatype Cache = Cache(entries: seq<(string, Entry)>, storage: Storage)

  /** What the `Map` always satisfies, plus the capacity the cache maintains. */
  predicate Valid(c: Cache) {
    DistinctKeys(c.entries) && |c.entries| <= MaxSize
  }

  /** Strictly older than the lifetime; an entry exactly `MaxAge` old is still fresh. */
  predicate Expired(now: int, timestamp: int) {
    now - timestamp > MaxAge
  }

  // ---------------------------------------------------------------- memory tier

  datatype GetResult = GetResult(found: Option<seq<GitHubFile>>, cache: Cache)

  /** `get`: expired entries are dropped; a hit moves its key to the most recent end. */
  function Get(c: Cache, key: string, now: int): (r: GetResult)
    ensures r.cache.storage == c.storage
    ensures !HasKey(c.entries, key) ==> r == GetResult(None, c)
    ensures HasKey(c.entries, key) ==>
      var e := OrderedMaps.Get(c.entries, key).value;
      if Expired(now, e.timestamp) then
        r.found.None? && r.cache.entries == Delete(c.entries, key)
      else
        r.found == Some(e.files) && r.cache.entries == Delete(c.entries, key) + [(key, e)]
  {
    match OrderedMaps.Get(c.entries, key)
    case None => GetResult(None, c)
    case Some(e) =>
      if Expired(now, e.timestamp) then GetResult(None, c.(entries := Delete(c.entries, key)))
      else
        var rest := Delete(c.entries, key);
        DeleteRemovesKey(c.entries, key);
        GetResult(Some(e.files), c.(entries := Put(rest, key, e)))
  }

  /** `get` keeps the cache valid. */
  lemma GetKeepsValid(c: Cache, key: string, now: int)
    requires Valid(c)
    ensures Valid(Get(c, key, now).cache)
  {
    var r := Get(c, key, now);
    var rest := Delete(c.entries, key);
    DeleteDistinct(c.entries, key);
    if r.found.Some? {
      DeleteShrinks(c.entries, key);
      PutKeepsDistinct(rest, key, OrderedMaps.Get(c.entries, key).value);
    }
  }

  /** After `get`, the keys other than `key` come first, in their previous relative order. */
  lemma GetKeepsOrder(c: Cache, key: string, now: int)
    requires HasKey(c.entries, key)
    ensures Get(c, key, now).cache.entries[..|Delete(c.entries, key)|] == Filter(c.entries, OtherKey(key))
  {
    DeleteIsFilter(c.entries, key);
  }

  /** LRU eviction before `set`: at capacity, a new key pushes out the oldest one. */
  function Evict(entries: seq<(string, Entry)>, key: string): (r: seq<(string, Entry)>)
    ensures |entries| >= MaxSize && !HasKey(entries, key) ==> r == Delete(entries, entries[0].0)
    ensures |entries| < MaxSize || HasKey(entries, key) ==> r == entries
  {
    if |entries| >= MaxSize && !HasKey(entries, key) then Delete(entries, entries[0].0)
    else entries
  }

  /** The memory half of `set`: evict if needed, then store the list stamped `now`. */
  function SetMemory(entries: seq<(string, Entry)>, key: string, files: seq<GitHubFile>, now: int): (r: seq<(string, Entry)>)
    ensures OrderedMaps.Get(r, key) == Some(Entry(files, now, key))
    ensures HasKey(entries, key) ==> |r| == |entries|
    ensures |r| <= |entries| + 1
  {
    PutGet(Evict(entries, key), key, Entry(files, now, key), key);
    Put(Evict(entries, key), key, Entry(files, now, key))
  }

  /** In a map with distinct keys, deleting the first key drops exactly the first entry. */
  lemma {:induction false} DeleteFirst(m: seq<(string, Entry)>)
    requires DistinctKeys(m) && |m| > 0
    ensures Delete(m, m[0].0) == m[1..]
  {
    assert !HasKey(m[1..], m[0].0) by {
      forall i | 0 <= i < |m[1..]|
        ensures m[1..][i].0 != m[0].0
      {
        assert m[1..][i] == m[i + 1];
      }
    }
    DeleteAbsent(m[1..], m[0].0);
  }

  /**
   * The memory half of `set` keeps at most 50 distinct keys. A new key at capacity
   * evicts exactly the first (least recently used) entry and is appended; a present
   * key keeps its position and nothing is evicted.
   */
  lemma SetMemoryEvictsOldest(entries: seq<(string, Entry)>, key: string, files: seq<GitHubFile>, now: int)
    requires DistinctKeys(entries) && |entries| <= MaxSize
    ensures var r := SetMemory(entries, key, files, now);
      && DistinctKeys(r) && |r| <= MaxSize
      && (|entries| == MaxSize && !HasKey(entries, key) ==> r == entries[1..] + [(key, Entry(files, now, key))])
      && (HasKey(entries, key) ==> KeysOf(r) == KeysOf(entries))
      && OrderedMaps.Get(r, key) == Some(Entry(files, now, key))
  {
    var e := Entry(files, now, key);
    var ev := Evict(entries, key);
    if |entries| >= MaxSize && !HasKey(entries, key) {
      DeleteFirst(entries);
      assert !HasKey(ev, key) by {
        forall i | 0 <= i < |ev|
          ensures ev[i].0 != key
        {
          assert ev[i] == entries[i + 1];
        }
      }
    }
    assert DistinctKeys(ev);
    PutKeepsDistinct(ev, key, e);
    PutKeys(ev, key, e);
    PutGet(ev, key, e, key);
  }

  /** `clear`: the key leaves both tiers. */
  function Clear(c: Cache, key: string): (r: Cache)
    ensures !HasKey(r.entries, key) && TreeKey(key) !in r.storage
    ensures forall k :: k in r.storage <==> k in c.storage && k != TreeKey(key)
    ensures forall k :: k in r.storage ==> r.storage[k] == c.storage[k]
  {
    DeleteRemovesKey(c.entries, key);
    Cache(Delete(c.entries, key), c.storage - {TreeKey(key)})
  }

  /** `clearAll`: memory emptied, every tree key removed from storage and no other key. */
  function ClearAll(c: Cache): (r: Cache)
    ensures r.entries == []
    ensures forall k :: k in r.storage <==> k in c.storage && !IsTreeKey(k)
    ensures forall k :: k in r.storage ==> r.storage[k] == c.storage[k]
  {
    Cache([], map k | k in c.storage && !IsTreeKey(k) :: c.storage[k])
  }

  // ---------------------------------------------------------------- storage tier

  function TreeKey(repoFullName: string): string {
    TreePrefix + repoFullName
  }

  predicate IsTreeKey(k: string) {
    StartsWith(k, TreePrefix)
  }

  lemma TreeKeyIsTreeKey(repoFullName: string)
    ensures IsTreeKey(TreeKey(repoFullName))
  {
    assert TreeKey(repoFullName)[..|TreePrefix|] == TreePrefix;
  }

  /** `Object.keys(localStorage)`: each stored key exactly once, in the browser's order. */
  predicate IsEnumeration(order: seq<string>, keys: set<string>) {
    && NoDup(order)
    && (forall k :: k in order ==> k in keys)
    && (forall k :: k in keys ==> k in order)
  }

  /** The timestamp the cleanup ranks a key by; unparsable entries count as 0. */
  function RankTimestamp(storage: Storage, k: string): int {
    if k in storage && storage[k].Some? then storage[k].value.timestamp else 0
  }

  predicate NewerOrSame(a: (string, int), b: (string, int)) {
    a.1 >= b.1
  }

  function TreeKeysOf(storage: Storage): set<string> {
    set k | k in storage && IsTreeKey(k)
  }

  /** The tree keys with their timestamps, sorted newest first (ties keep enumeration order). */
  function RankTreeKeys(storage: Storage, order: seq<string>): (ranked: seq<(string, int)>)
    ensures Sorted(ranked, NewerOrSame)
    ensures |ranked| == |Filter(order, IsTreeKey)|
    ensures forall i :: 0 <= i < |ranked| ==> ranked[i].1 == RankTimestamp(storage, ranked[i].0)
    ensures forall k :: k in order && IsTreeKey(k) <==> exists i :: 0 <= i < |ranked| && ranked[i].0 == k
    ensures NoDup(order) ==> forall i, j :: 0 <= i < j < |ranked| ==> ranked[i].0 != ranked[j].0
  {
    var treeKeys := Filter(order, IsTreeKey);
    var pairs := seq(|treeKeys|, i requires 0 <= i < |treeKeys| => (treeKeys[i], RankTimestamp(storage, treeKeys[i])));
    assert TotalPreorder(NewerOrSame);
    var ranked := SortBy(pairs, NewerOrSame);
    RankedPairs(storage, treeKeys, pairs, ranked);
    RankedCovers(storage, treeKeys, pairs, ranked);
    RankedDistinct(storage, order, treeKeys, pairs, ranked);
    ranked
  }

  lemma RankedPairs(storage: Storage, treeKeys: seq<string>, pairs: seq<(string, int)>, ranked: seq<(string, int)>)
    requires pairs == seq(|treeKeys|, i requires 0 <= i < |treeKeys| => (treeKeys[i], RankTimestamp(storage, treeKeys[i])))
    requires multiset(ranked) == multiset(pairs)
    ensures forall i :: 0 <= i < |ranked| ==> ranked[i].1 == RankTimestamp(storage, ranked[i].0) && ranked[i].0 in treeKeys
  {
    forall i | 0 <= i < |ranked|
      ensures ranked[i].1 == RankTimestamp(storage, ranked[i].0) && ranked[i].0 in treeKeys
    {
      assert ranked[i] in multiset(pairs);
    }
  }

  lemma RankedCovers(storage: Storage, treeKeys: seq<string>, pairs: seq<(string, int)>, ranked: seq<(string, int)>)
    requires pairs == seq(|treeKeys|, i requires 0 <= i < |treeKeys| => (treeKeys[i], RankTimestamp(storage, treeKeys[i])))
    requires multiset(ranked) == multiset(pairs)
    ensures forall k :: k in treeKeys ==> exists i :: 0 <= i < |ranked| && ranked[i].0 == k
  {
    forall k | k in treeKeys
      ensures exists i :: 0 <= i < |ranked| && ranked[i].0 == k
    {
      var j :| 0 <= j < |treeKeys| && treeKeys[j] == k;
      assert pairs[j] in multiset(ranked);
      var i :| 0 <= i < |ranked| && ranked[i] == pairs[j];
    }
  }

  lemma RankedDistinct(storage: Storage, order: seq<string>, treeKeys: seq<string>, pairs: seq<(string, int)>, ranked: seq<(string, int)>)
    requires treeKeys == Filter(order, IsTreeKey)
    requires pairs == seq(|treeKeys|, i requires 0 <= i < |treeKeys| => (treeKeys[i], RankTimestamp(storage, treeKeys[i])))
    requires multiset(ranked) == multiset(pairs)
    requires forall i :: 0 <= i < |ranked| ==> ranked[i].1 == RankTimestamp(storage, ranked[i].0)
    ensures NoDup(order) ==> forall i, j :: 0 <= i < j < |ranked| ==> ranked[i].0 != ranked[j].0
  {
    if NoDup(order) {
      NoDupSubMultiset(treeKeys, order);
      DistinctPairs(storage, treeKeys, pairs, ranked);
    }
  }

  lemma DistinctPairs(storage: Storage, treeKeys: seq<string>, pairs: seq<(string, int)>, ranked: seq<(string, int)>)
    requires NoDup(treeKeys)
    requires pairs == seq(|treeKeys|, i requires 0 <= i < |treeKeys| => (treeKeys[i], RankTimestamp(storage, treeKeys[i])))
    requires multiset(ranked) == multiset(pairs)
    requires forall i :: 0 <= i < |ranked| ==> ranked[i].1 == RankTimestamp(storage, ranked[i].0)
    ensures forall i, j :: 0 <= i < j < |ranked| ==> ranked[i].0 != ranked[j].0
  {
    NoDupPermutation(pairs, ranked);
  }

  /** The keys the cleanup removes: every ranked key after the tenth. */
  function RemovedKeys(ranked: seq<(string, int)>): set<string> {
    set i | KeptTrees <= i < |ranked| :: ranked[i].0
  }

  /**
   * `cleanupLocalStorage`: with more than ten tree keys, only the ten newest are kept.
   * Only tree keys are ever removed, and no stored value changes.
   */
  function Cleanup(storage: Storage, order: seq<string>): (r: Storage)
    ensures forall k :: k in r ==> k in storage && r[k] == storage[k]
    ensures forall k :: k in storage && !IsTreeKey(k) ==> k in r
  {
    if |Filter(order, IsTreeKey)| > KeptTrees then
      var ranked := RankTreeKeys(storage, order);
      forall k | k in RemovedKeys(ranked)
        ensures IsTreeKey(k)
      {
        var i :| KeptTrees <= i < |ranked| && ranked[i].0 == k;
      }
      storage - RemovedKeys(ranked)
    else storage
  }

  /** The cleanup only ever removes tree keys, and never changes a stored value. */
  lemma CleanupTouchesOnlyTreeKeys(storage: Storage, order: seq<string>)
    ensures var r := Cleanup(storage, order);
      && (forall k :: k in r ==> k in storage && r[k] == storage[k])
      && (forall k :: k in storage && !IsTreeKey(k) ==> k in r)
  {
  }

  /** After cleanup at most ten tree keys remain. */
  lemma CleanupKeepsTen(storage: Storage, order: seq<string>)
    requires IsEnumeration(order, storage.Keys)
    ensures |TreeKeysOf(Cleanup(storage, order))| <= KeptTrees
  {
    var treeKeys := Filter(order, IsTreeKey);
    var r := Cleanup(storage, order);
    if |treeKeys| <= KeptTrees {
      assert TreeKeysOf(storage) <= set x | x in treeKeys;
      CardOfElements(treeKeys);
      SubsetCard(TreeKeysOf(storage), set x | x in treeKeys);
    } else {
      var ranked := RankTreeKeys(storage, order);
      assert forall i :: KeptTrees <= i < |ranked| ==> ranked[i].0 in RemovedKeys(ranked);
      var first := seq(KeptTrees, i requires 0 <= i < KeptTrees => ranked[i].0);
      forall k | k in TreeKeysOf(r)
        ensures k in first
      {
        var i :| 0 <= i < |ranked| && ranked[i].0 == k;
        assert i < KeptTrees;
        assert first[i] == k;
      }
      CardOfElements(first);
      SubsetCard(TreeKeysOf(r), set x | x in first);
    }
  }

  lemma SubsetCard<T>(a: set<T>, b: set<T>)
    requires a <= b
    ensures |a| <= |b|
  {
    assert b == a + (b - a);
  }

  /** Every tree key the cleanup keeps is at least as new as every tree key it removes. */
  lemma CleanupKeepsNewest(storage: Storage, order: seq<string>, kept: string, removed: string)
    requires IsEnumeration(order, storage.Keys)
    requires kept in Cleanup(storage, order) && IsTreeKey(kept)
    requires removed in storage && IsTreeKey(removed) && removed !in Cleanup(storage, order)
    ensures RankTimestamp(storage, kept) >= RankTimestamp(storage, removed)
  {
    var ranked := RankTreeKeys(storage, order);
    assert |Filter(order, IsTreeKey)| > KeptTrees;
    var j :| KeptTrees <= j < |ranked| && ranked[j].0 == removed;
    assert forall i :: KeptTrees <= i < |ranked| ==> ranked[i].0 in RemovedKeys(ranked);
    var i :| 0 <= i < |ranked| && ranked[i].0 == kept;
    assert i < KeptTrees;
    assert NewerOrSame(ranked[i], ranked[j]);
  }

  datatype LoadResult = LoadResult(found: Option<seq<GitHubFile>>, storage: Storage)

  /**
   * `loadFromStorage`: a missing key, or text that does not parse, gives nothing and
   * leaves storage alone; an expired payload is removed; otherwise its files come back.
   */
  function LoadFromStorage(storage: Storage, repoFullName: string, now: int): (r: LoadResult)
    ensures r.found.Some? <==>
      TreeKey(repoFullName) in storage && storage[TreeKey(repoFullName)].Some?
      && !Expired(now, storage[TreeKey(repoFullName)].value.timestamp)
    ensures r.found.Some? ==> r.found.value == storage[TreeKey(repoFullName)].value.files && r.storage == storage
    ensures r.found.None? && TreeKey(repoFullName) in storage && storage[TreeKey(repoFullName)].Some? ==>
      r.storage == storage - {TreeKey(repoFullName)}
    ensures r.found.None? && (TreeKey(repoFullName) !in storage || storage[TreeKey(repoFullName)].None?) ==>
      r.storage == storage
  {
    var key := TreeKey(repoFullName);
    if key !in storage then LoadResult(None, storage)
    else match storage[key]
      case None => LoadResult(None, storage)
      case Some(data) =>
        if Expired(now, data.timestamp) then LoadResult(None, storage - {key})
        else LoadResult(Some(data.files), storage)
  }

  /** The storage half of `set`: small trees are written, truncated, then storage is pruned. */
  function SetStorage(storage: Storage, repoFullName: string, files: seq<GitHubFile>, storeTime: int,
                      writeOk: bool, order: seq<string>): (r: Storage)
    ensures |files| >= PersistBelow || !writeOk ==> r == storage
  {
    if |files| < PersistBelow && writeOk then
      Cleanup(storage[TreeKey(repoFullName) := Some(Stored(Take(files, StoredFileLimit), storeTime))], order)
    else storage
  }

  /**
   * `set`. The source reads the clock twice: `now` stamps the memory entry and the
   * later reading `storeTime` stamps the stored tree. `writeOk` is false when the
   * browser refuses the write (quota exceeded); `order` is the browser's enumeration
   * of the storage keys after the write.
   */
  function Set(c: Cache, repoFullName: string, files: seq<GitHubFile>, now: int, storeTime: int,
               writeOk: bool, order: seq<string>): (r: Cache)
    ensures OrderedMaps.Get(r.entries, repoFullName) == Some(Entry(files, now, repoFullName))
    ensures |files| >= PersistBelow || !writeOk ==> r.storage == c.storage
  {
    PutGet(Evict(c.entries, repoFullName), repoFullName, Entry(files, now, repoFullName), repoFullName);
    Cache(SetMemory(c.entries, repoFullName, files, now), SetStorage(c.storage, repoFullName, files, storeTime, writeOk, order))
  }

  lemma SetKeepsValid(c: Cache, repoFullName: string, files: seq<GitHubFile>, now: int, storeTime: int,
                      writeOk: bool, order: seq<string>)
    requires Valid(c)
    ensures Valid(Set(c, repoFullName, files, now, storeTime, writeOk, order))
  {
    SetMemoryEvictsOldest(c.entries, repoFullName, files, now);
  }

  /** A `get` within five minutes of a `set` returns the list that was set. */
  lemma SetThenGet(c: Cache, repoFullName: string, files: seq<GitHubFile>, now: int, storeTime: int,
                   writeOk: bool, order: seq<string>, later: int)
    requires !Expired(later, now)
    ensures Get(Set(c, repoFullName, files, now, storeTime, writeOk, order), repoFullName, later).found == Some(files)
  {
  }

  /** Tree keys other than `key` stamped at least as new as `key`'s entry. */
  function RivalsOf(storage: Storage, key: string): set<string> {
    set k | k in storage && IsTreeKey(k) && k != key && RankTimestamp(storage, k) >= RankTimestamp(storage, key)
  }

  /** Every key ranked ahead of `key` is one of its rivals, so its rank is at most the number of rivals. */
  lemma RankAtMostRivals(storage: Storage, order: seq<string>, key: string, p: nat)
    requires IsEnumeration(order, storage.Keys)
    requires p < |RankTreeKeys(storage, order)| && RankTreeKeys(storage, order)[p].0 == key
    ensures p <= |RivalsOf(storage, key)|
  {
    var ranked := RankTreeKeys(storage, order);
    var before := seq(p, j requires 0 <= j < p => ranked[j].0);
    forall k | k in before
      ensures k in RivalsOf(storage, key)
    {
      var j :| 0 <= j < p && before[j] == k;
      assert NewerOrSame(ranked[j], ranked[p]);
      assert exists i :: 0 <= i < |ranked| && ranked[i].0 == k;
    }
    assert NoDup(before);
    NoDupCard(before);
    SubsetCard((set x | x in before), RivalsOf(storage, key));
  }

  /** A tree key with fewer than ten rivals survives the cleanup. */
  lemma KeySurvivesCleanup(storage: Storage, order: seq<string>, key: string)
    requires IsEnumeration(order, storage.Keys)
    requires key in storage && IsTreeKey(key)
    requires |RivalsOf(storage, key)| < KeptTrees
    ensures key in Cleanup(storage, order) && Cleanup(storage, order)[key] == storage[key]
  {
    if |Filter(order, IsTreeKey)| > KeptTrees {
      var ranked := RankTreeKeys(storage, order);
      var p :| 0 <= p < |ranked| && ranked[p].0 == key;
      RankAtMostRivals(storage, order, key, p);
      forall i | KeptTrees <= i < |ranked|
        ensures ranked[i].0 != key
      {
        assert i != p;
      }
      assert key !in RemovedKeys(ranked);
    }
  }

  /**
   * `loadFromStorage` within five minutes of the storage stamp of a `set` that wrote
   * storage returns the first 1000 files, provided fewer than ten other trees in storage
   * are stamped at least as recently (otherwise the cleanup may prune the new entry).
   */
  lemma SetThenLoad(c: Cache, repoFullName: string, files: seq<GitHubFile>, now: int, storeTime: int,
                    order: seq<string>, later: int)
    requires |files| < PersistBelow
    requires IsEnumeration(order, c.storage.Keys + {TreeKey(repoFullName)})
    requires |set k | k in c.storage && IsTreeKey(k) && k != TreeKey(repoFullName) && RankTimestamp(c.storage, k) >= storeTime| < KeptTrees
    requires !Expired(later, storeTime)
    ensures LoadFromStorage(Set(c, repoFullName, files, now, storeTime, true, order).storage, repoFullName, later).found
      == Some(Take(files, StoredFileLimit))
  {
    var key := TreeKey(repoFullName);
    var s1 := c.storage[key := Some(Stored(Take(files, StoredFileLimit), storeTime))];
    TreeKeyIsTreeKey(repoFullName);
    assert s1.Keys == c.storage.Keys + {key};
    assert RivalsOf(s1, key) <= set k | k in c.storage && IsTreeKey(k) && k != key && RankTimestamp(c.storage, k) >= storeTime;
    SubsetCard(RivalsOf(s1, key), set k | k in c.storage && IsTreeKey(k) && k != key && RankTimestamp(c.storage, k) >= storeTime);
    KeySurvivesCleanup(s1, order, key);
  }

  /**
   * The two clock readings of `set` can part the two copies: one millisecond apart,
   * the memory entry has expired at a moment when the stored tree still loads.
   */
  lemma StorageOutlivesMemory(c: Cache, repoFullName: string, files: seq<GitHubFile>, now: int, order: seq<string>)
    requires |files| < PersistBelow
    requires IsEnumeration(order, c.storage.Keys + {TreeKey(repoFullName)})
    requires |set k | k in c.storage && IsTreeKey(k) && k != TreeKey(repoFullName) && RankTimestamp(c.storage, k) >= now + 1| < KeptTrees
    ensures var r := Set(c, repoFullName, files, now, now + 1, true, order);
      && Get(r, repoFullName, now + MaxAge + 1).found.None?
      && LoadFromStorage(r.storage, repoFullName, now + MaxAge + 1).found == Some(Take(files, StoredFileLimit))
  {
    SetThenLoad(c, repoFullName, files, now, now + 1, order, now + MaxAge + 1);
  }

  /** A stored payload older than five minutes is removed and yields nothing. */
  lemma LoadExpiredRemoves(storage: Storage, repoFullName: string, now: int)
    requires TreeKey(repoFullName) in storage && storage[TreeKey(repoFullName)].Some?
    requires Expired(now, storage[TreeKey(repoFullName)].value.timestamp)
    ensures LoadFromStorage(storage, repoFullName, now) == LoadResult(None, storage - {TreeKey(repoFullName)})
  {
  }

  // ---------------------------------------------------------------- search

  datatype SearchResult = SearchResult(files: seq<GitHubFile>, cache: Cache)

  /**
   * `searchFiles`. `ranked` is the fuzzy matcher's answer for `query` over the
   * entry's files, best first. The lookup does not refresh recency.
   */
  function SearchFiles(c: Cache, repoFullName: string, query: string, now: int, ranked: seq<GitHubFile>): (r: SearchResult)
    ensures |r.files| <= SearchLimit
    ensures r.cache.storage == c.storage
    ensures !HasKey(c.entries, repoFullName) ==> r == SearchResult([], c)
    ensures HasKey(c.entries, repoFullName) ==>
      var e := OrderedMaps.Get(c.entries, repoFullName).value;
      if Expired(now, e.timestamp) then
        r.files == [] && r.cache.entries == Delete(c.entries, repoFullName)
      else
        && r.cache == c
        && (IsBlank(query) ==> r.files == e.files[..Min(SearchLimit, |e.files|)])
        && (!IsBlank(query) ==> r.files == ranked[..Min(SearchLimit, |ranked|)])
  {
    match OrderedMaps.Get(c.entries, repoFullName)
    case None => SearchResult([], c)
    case Some(e) =>
      if Expired(now, e.timestamp) then SearchResult([], c.(entries := Delete(c.entries, repoFullName)))
      else if IsBlank(query) then SearchResult(Take(e.files, SearchLimit), c)
      else SearchResult(Take(ranked, SearchLimit), c)
  }

  /** A blank search within five minutes of a `set` lists the first hundred files set. */
  lemma SetThenSearchBlank(c: Cache, repoFullName: string, files: seq<GitHubFile>, now: int, storeTime: int,
                           writeOk: bool, order: seq<string>, later: int, query: string, ranked: seq<GitHubFile>)
    requires !Expired(later, now) && IsBlank(query)
    ensures SearchFiles(Set(c, repoFullName, files, now, storeTime, writeOk, order), repoFullName, query, later, ranked).files
      == files[..Min(SearchLimit, |files|)]
  {
  }

  // ---------------------------------------------------------------- as written

  /**
   * Eviction as the source writes it: the oldest key is deleted only when it is
   * truthy, so an empty-string key at the front is never evicted.
   */
  function EvictAsWritten(entries: seq<(string, Entry)>, key: string): seq<(string, Entry)> {
    if |entries| >= MaxSize && !HasKey(entries, key) then
      if entries[0].0 != "" then Delete(entries, entries[0].0) else entries
    else entries
  }

  function SetMemoryAsWritten(entries: seq<(string, Entry)>, key: string, files: seq<GitHubFile>, now: int): (r: seq<(string, Entry)>)
    ensures |entries| == 0 || entries[0].0 != "" ==> r == SetMemory(entries, key, files, now)
  {
    Put(EvictAsWritten(entries, key), key, Entry(files, now, key))
  }

  /** Fifty entries whose oldest key is "" plus one new key give 51 entries. */
  lemma EmptyFirstKeyOverfills(e: Entry, files: seq<GitHubFile>, now: int)
    ensures var entries := seq(MaxSize, i requires 0 <= i < MaxSize => (seq(i, _ => 'a'), e));
      && DistinctKeys(entries) && |entries| == MaxSize
      && |SetMemoryAsWritten(entries, "b", files, now)| == MaxSize + 1
  {
    var entries := seq(MaxSize, i requires 0 <= i < MaxSize => (seq(i, _ => 'a'), e));
    forall i, j | 0 <= i < j < |entries|
      ensures entries[i].0 != entries[j].0
    {
      assert |entries[i].0| == i && |entries[j].0| == j;
    }
    forall i | 0 <= i < |entries|
      ensures entries[i].0 != "b"
    {
      if i == 1 {
        assert entries[i].0[0] == 'a';
      }
    }
    assert entries[0].0 == "";
  }
}
