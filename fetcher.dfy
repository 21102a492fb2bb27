/**
 * `fetchSponsorSegments` without the HTTP call: the id guard, the cache
 * lookup under the canonical key, and on a miss the provider's reply,
 * normalised and stored. The reply arrives as a value: a network failure,
 * or a status with a body that did or did not decode as JSON.
 */
module Fetcher {
  import opened Wrappers
  import opened JsonValue
  import opened Segments
  import opened Provider
  import opened CacheKeys

  /** What `fetch` and `res.json()` produce for the request. */
  datatype Response =
    | NetworkFailure                            // `fetch` rejected
    | Reply(status: int, body: Option<Json>)    // `None`: the body is not valid JSON

  /** `res.ok`: a status in the 2xx range. */
  predicate Ok(status: int)
  {
    200 <= status <= 299
  }

  /** The `segmentCache` map, from cache key to the normalised list. */
  type Cache = map<string, seq<Segment>>

  /** The list the call resolves to, and the cache after it. */
  datatype Fetched = Fetched(segments: seq<Segment>, cache: Cache)

  /** `!videoId` is false: an id is present and is not the empty string. */
  predicate HasId(videoId: Option<string>)
  {
    videoId.Some? && videoId.value != ""
  }

  /** Every cached list is in ascending order of `start`. */
  predicate CacheSorted(cache: Cache)
  {
    forall k :: k in cache ==> SortedByStart(cache[k])
  }

  /** A reply the script accepts: 2xx with a body that decodes and that the pipeline does not throw on. */
  predicate Usable(response: Response)
  {
    response.Reply? && Ok(response.status) && response.body.Some? && !NormalizeThrows(response.body.value)
  }

  /**
   * One call of `fetchSponsorSegments(videoId, categories)`. Any failure on
   * the way (a rejected request, a non-2xx status, a body that does not
   * decode, a record the pipeline throws on) resolves to `[]` and stores
   * nothing.
   */
  function Fetch(cache: Cache, videoId: Option<string>, categories: Categories, response: Response): Fetched
  {
    if !HasId(videoId) then Fetched([], cache)
    else
      var key := CacheKey(videoId.value, categories);
      if key in cache then Fetched(cache[key], cache)
      else if Usable(response) then
        var list := Normalize(response.body.value);
        Fetched(list, cache[key := list])
      else Fetched([], cache)
  }

  /** Entries already cached are never dropped or changed. */
  lemma FetchKeepsEntries(cache: Cache, videoId: Option<string>, categories: Categories, response: Response)
    ensures forall k :: k in cache ==>
      k in Fetch(cache, videoId, categories, response).cache &&
      Fetch(cache, videoId, categories, response).cache[k] == cache[k]
  {
  }

  /** The only entry a call can add is the one under its own key, holding the list it returns. */
  lemma FetchAddsOnlyItsKey(cache: Cache, videoId: Option<string>, categories: Categories, response: Response)
    ensures forall k :: k in Fetch(cache, videoId, categories, response).cache && k !in cache ==>
      HasId(videoId) && k == CacheKey(videoId.value, categories) &&
      Fetch(cache, videoId, categories, response).cache[k] == Fetch(cache, videoId, categories, response).segments
  {
  }

  /**
   * Whenever the call's key is cached afterwards, the call returned that
   * entry; a non-empty answer always comes from such an entry.
   */
  lemma FetchAnswersFromItsEntry(cache: Cache, videoId: Option<string>, categories: Categories, response: Response)
    ensures HasId(videoId) && CacheKey(videoId.value, categories) in Fetch(cache, videoId, categories, response).cache ==>
      Fetch(cache, videoId, categories, response).segments ==
      Fetch(cache, videoId, categories, response).cache[CacheKey(videoId.value, categories)]
    ensures Fetch(cache, videoId, categories, response).segments != [] ==>
      HasId(videoId) && CacheKey(videoId.value, categories) in Fetch(cache, videoId, categories, response).cache
  {
  }

  /** A cache of sorted lists stays one, and the answer is sorted. */
  lemma FetchKeepsSorted(cache: Cache, videoId: Option<string>, categories: Categories, response: Response)
    requires CacheSorted(cache)
    ensures CacheSorted(Fetch(cache, videoId, categories, response).cache)
    ensures SortedByStart(Fetch(cache, videoId, categories, response).segments)
  {
  }

  /** Without an id the call resolves to `[]` and leaves the cache alone. */
  lemma FetchWithoutId(cache: Cache, videoId: Option<string>, categories: Categories, response: Response)
    requires !HasId(videoId)
    ensures Fetch(cache, videoId, categories, response) == Fetched([], cache)
  {
  }

  /** A hit returns the stored list whatever the provider would have said. */
  lemma FetchHit(cache: Cache, id: string, categories: Categories, response: Response)
    requires id != "" && CacheKey(id, categories) in cache
    ensures Fetch(cache, Some(id), categories, response) == Fetched(cache[CacheKey(id, categories)], cache)
  {
  }

  /** A successful miss stores exactly the normalised list it returns. */
  lemma FetchMiss(cache: Cache, id: string, categories: Categories, status: int, body: Json)
    requires id != "" && CacheKey(id, categories) !in cache && Ok(status) && !NormalizeThrows(body)
    ensures Fetch(cache, Some(id), categories, Reply(status, Some(body))).segments == Normalize(body)
    ensures Fetch(cache, Some(id), categories, Reply(status, Some(body))).cache ==
      cache[CacheKey(id, categories) := Normalize(body)]
  {
  }

  /** A failed miss resolves to `[]` and caches nothing, so the next call asks again. */
  lemma FetchFailure(cache: Cache, id: string, categories: Categories, response: Response)
    requires id != "" && CacheKey(id, categories) !in cache && !Usable(response)
    ensures Fetch(cache, Some(id), categories, response) == Fetched([], cache)
  {
  }

  /**
   * `[{"segment": [{"toString": 0}, 10]}]`: `Number` throws on the first
   * bound, so the call resolves to `[]` and caches nothing, although the
   * record has a `segment` array.
   */
  lemma FetchThrowingBody(cache: Cache, id: string, categories: Categories, status: int)
    requires id != "" && CacheKey(id, categories) !in cache && Ok(status)
    ensures var bad := JObj(map["toString" := JNum(0.0)]);
      var record := JObj(map["segment" := JArr([bad, JNum(10.0)])]);
      Fetch(cache, Some(id), categories, Reply(status, Some(JArr([record])))) == Fetched([], cache)
  {
    var bad := JObj(map["toString" := JNum(0.0)]);
    var record := JObj(map["segment" := JArr([bad, JNum(10.0)])]);
    ToStringKeyThrows(record.fields, [bad, JNum(10.0)], 0, [], []);
    assert [] + [record] + [] == [record];
  }

  /**
   * Asking twice for the same id and categories: when the first call left
   * an entry, the second is answered from it and changes nothing; when it
   * left none, the first call resolved to `[]` and changed nothing.
   */
  lemma SecondFetch(cache: Cache, videoId: Option<string>, categories: Categories, first: Response, second: Response)
    ensures HasId(videoId) && CacheKey(videoId.value, categories) in Fetch(cache, videoId, categories, first).cache ==>
      Fetch(Fetch(cache, videoId, categories, first).cache, videoId, categories, second) ==
      Fetch(cache, videoId, categories, first)
    ensures !(HasId(videoId) && CacheKey(videoId.value, categories) in Fetch(cache, videoId, categories, first).cache) ==>
      Fetch(cache, videoId, categories, first) == Fetched([], cache)
  {
    var r1 := Fetch(cache, videoId, categories, first);
    if HasId(videoId) && CacheKey(videoId.value, categories) in r1.cache {
      var key := CacheKey(videoId.value, categories);
      assert Fetch(r1.cache, videoId, categories, second) == Fetched(r1.cache[key], r1.cache);
    }
  }

  /** Reordering the requested categories changes neither the answer nor the cache. */
  lemma FetchIgnoresOrder(cache: Cache, videoId: Option<string>, a: seq<string>, b: seq<string>, response: Response)
    requires multiset(a) == multiset(b)
    ensures Fetch(cache, videoId, Names(a), response) == Fetch(cache, videoId, Names(b), response)
  {
    if HasId(videoId) {
      KeyIgnoresOrder(videoId.value, a, b);
    }
  }

  /**
   * The popup stores an object under `categories`; such a value shares its
   * entry with the empty category list, so after one of them is cached the
   * other is a hit.
   */
  lemma NonArrayHitsEmptyList(cache: Cache, id: string, response: Response)
    requires id != "" && CacheKey(id, Names([])) in cache
    ensures Fetch(cache, Some(id), NotArray, response) == Fetched(cache[CacheKey(id, Names([]))], cache)
  {
    NonArrayKey(id);
  }
}
