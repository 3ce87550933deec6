/**
 * The repository-list cache (lib/github/repositoryCache.ts): one stored record under the key
 * `hypergit_repositories` holding the list, when it was written and for which token. A read
 * answers only for the same token within thirty minutes; every other read that finds a
 * record clears it. The clock (`Date.now()`) is the parameter `now`.
 */
module RepositoryCache {
  import opened Wrappers
  import opened GitHub
  import opened LocalStorage

  /** `CACHE_DURATION`: thirty minutes in milliseconds. */
  const Duration: int := 30 * 60 * 1000

  datatype CachedData = CachedData(repositories: seq<GitHubRepo>, timestamp: int, token: string)

  type CacheSlot = Slot<CachedData>

  /** A read's answer together with the slot as the read leaves it. */
  datatype Lookup = Lookup(repositories: Option<seq<GitHubRepo>>, slot: CacheSlot)

  /** Whether a stored record answers for `token` at time `now`. */
  predicate Fresh(data: CachedData, token: string, now: int) {
    data.token == token && now - data.timestamp <= Duration
  }

  /**
   * `get(token)`: the stored list when the record is for this token and at most thirty
   * minutes old; a record for another token, an expired one and unreadable text are removed.
   */
  function Get(slot: CacheSlot, token: string, now: int): (r: Lookup)
    ensures r.repositories.Some? <==> slot.Holds? && Fresh(slot.value, token, now)
    ensures r.repositories.Some? ==> r.repositories.value == slot.value.repositories && r.slot == slot
    ensures r.repositories.None? ==> r.slot == Missing
  {
    match slot
    case Missing => Lookup(None, Missing)
    case Garbled => Lookup(None, Clear())
    case Holds(data) =>
      if data.token != token then Lookup(None, Clear())
      else if now - data.timestamp > Duration then Lookup(None, Clear())
      else Lookup(Some(data.repositories), slot)
  }

  /**
   * `set(repositories, token)`: writes a record stamped `now`; when the first write throws,
   * the key is removed and the write tried once more. `firstOk` and `retryOk` say whether
   * each write succeeds.
   */
  function Set(repositories: seq<GitHubRepo>, token: string, now: int, firstOk: bool, retryOk: bool): (r: CacheSlot)
    ensures r.Holds? <==> firstOk || retryOk
    ensures r.Holds? ==> r.value == CachedData(repositories, now, token)
    ensures !r.Holds? ==> r == Missing
  {
    var data := CachedData(repositories, now, token);
    if firstOk then Holds(data)
    else Write(Clear(), data, retryOk)
  }

  /** `clear()`: removes the key. */
  function Clear(): (r: CacheSlot)
    ensures !r.Holds? && !r.Garbled?
  {
    Missing
  }

  /** `hasValidCache(token)`: whether `get` answers, with `get`'s effect on the slot. */
  function HasValidCache(slot: CacheSlot, token: string, now: int): (r: (bool, CacheSlot))
    ensures r.0 <==> slot.Holds? && Fresh(slot.value, token, now)
    ensures r.1 == (if r.0 then slot else Missing)
  {
    var lookup := Get(slot, token, now);
    (lookup.repositories.Some?, lookup.slot)
  }

  /**
   * `getCacheAge(token)`: how long ago the record for this token was written, whatever its
   * age; no record, another token's record or unreadable text give none. Nothing is cleared.
   */
  function GetCacheAge(slot: CacheSlot, token: string, now: int): (r: Option<int>)
    ensures r.Some? <==> slot.Holds? && slot.value.token == token
    ensures r.Some? ==> slot.value.timestamp + r.value == now
  {
    match slot
    case Holds(data) => if data.token == token then Some(now - data.timestamp) else None
    case _ => None
  }

  /** A successful write is read back for the same token for thirty minutes, and the read keeps it. */
  lemma SetThenGet(repositories: seq<GitHubRepo>, token: string, written: int, now: int, firstOk: bool, retryOk: bool)
    requires firstOk || retryOk
    requires now - written <= Duration
    ensures var slot := Set(repositories, token, written, firstOk, retryOk);
      Get(slot, token, now) == Lookup(Some(repositories), slot)
  {
  }

  /** Exactly thirty minutes after the write still answers; one millisecond later clears. */
  lemma ExpiryBoundary(repositories: seq<GitHubRepo>, token: string, written: int)
    ensures var slot := Set(repositories, token, written, true, true);
      && Get(slot, token, written + Duration).repositories == Some(repositories)
      && Get(slot, token, written + Duration + 1) == Lookup(None, Missing)
  {
  }

  /** Asking with a different token removes the record, so the owner's next read misses too. */
  lemma OtherTokenClears(slot: CacheSlot, owner: string, other: string, now: int, later: int)
    requires slot.Holds? && slot.value.token == owner && owner != other
    ensures Get(slot, other, now) == Lookup(None, Missing)
    ensures Get(Get(slot, other, now).slot, owner, later).repositories.None?
  {
  }

  /** A miss removes the record: no later read, for any token, answers until the next write. */
  lemma MissIsFinal(slot: CacheSlot, token: string, now: int, token': string, later: int)
    requires Get(slot, token, now).repositories.None?
    ensures Get(Get(slot, token, now).slot, token', later) == Lookup(None, Missing)
  {
  }

  /** Reading twice at the same moment gives the same answer and leaves the same slot. */
  lemma GetIdempotent(slot: CacheSlot, token: string, now: int)
    ensures var first := Get(slot, token, now);
      Get(first.slot, token, now).repositories == first.repositories
      && Get(first.slot, token, now).slot == first.slot
  {
  }

  /**
   * The age report and the read agree: the read answers exactly when there is an age and it
   * is at most thirty minutes.
   */
  lemma CacheAgeAgreesWithGet(slot: CacheSlot, token: string, now: int)
    ensures var age := GetCacheAge(slot, token, now);
      Get(slot, token, now).repositories.Some? <==> age.Some? && age.value <= Duration
    ensures HasValidCache(slot, token, now).0 <==> Get(slot, token, now).repositories.Some?
  {
  }

  /** When both writes fail nothing is left stored, not even an older record. */
  lemma BothWritesFailLeavesEmpty(repositories: seq<GitHubRepo>, token: string, now: int, token': string, later: int)
    ensures Set(repositories, token, now, false, false) == Missing
    ensures Get(Set(repositories, token, now, false, false), token', later).repositories.None?
  {
  }
}
