/**
 * Coalesced metainfo fetches: in every interleaving of calls, one fetch per URL is in progress, waiters get its
 * owner's outcome, and only successful fetches reach the cache.
 */
module SingleFlight {
  import opened Options
  import MetadataCache
  import opened TorrentMeta

  datatype Outcome = Fetched(value: Metadata) | FetchFailed(reason: string)

  /** The record shared by a fetch and its waiters; `outcome` is set when its channel is closed. */
  datatype Flight = Flight(url: string, outcome: Option<Outcome>)

  /** What the cache mutex protects; flights are identified by their position in `records`. */
  datatype Shared = Shared(entries: MetadataCache.Entries, flights: map<string, nat>, records: seq<Flight>)

  /** Where one call of FetchTorrentMetadata stands. `Ended.via` is the flight it owned or waited for. */
  datatype Call =
    | Owning(url: string, flight: nat)
    | Waiting(url: string, flight: nat)
    | Ended(url: string, outcome: Outcome, via: Option<nat>)
    | GaveUp(url: string)

  /** What the first critical section decides. */
  datatype Begun = Hit(value: Metadata) | Join(flight: nat) | Own(flight: nat)

  ghost predicate Unexpired(entries: MetadataCache.Entries, url: string, now: int) {
    url in entries && now < entries[url].expires
  }

  /** The first critical section: a cached value, an existing flight, or a new flight of one's own. */
  ghost predicate Begins(sh: Shared, url: string, now: int, next: Shared, r: Begun) {
    if Unexpired(sh.entries, url, now) then next == sh && r == Hit(sh.entries[url].value)
    else
      && next.entries == sh.entries - {url}
      && (url in sh.flights ==> r == Join(sh.flights[url]) && next.(entries := sh.entries) == sh)
      && (url !in sh.flights ==>
            r == Own(|sh.records|) &&
            next == Shared(next.entries, sh.flights[url := |sh.records|], sh.records + [Flight(url, None)]))
  }

  /** A request needs a URL with a scheme, so a fetch of the empty URL fails. */
  predicate Possible(url: string, outcome: Outcome) {
    outcome.Fetched? ==> url != ""
  }

  /**
   * What storing a fetched value does to the cache: unless it alone exceeds the byte bound it is there with a fresh
   * expiry, its own old entry is gone, and of the others no more than needed, sooner expiries first.
   */
  ghost predicate Stores(entries: MetadataCache.Entries, url: string, v: Metadata, now: int,
                         next: MetadataCache.Entries) {
    var size := MetadataCache.SizeOf(url, v);
    if size > MetadataCache.MAX_BYTES then next == entries
    else
      && url in next && next[url] == MetadataCache.Cached(v, now + MetadataCache.TTL, size)
      && MetadataCache.Survivors(entries - {url}, next - {url})
      && MetadataCache.SoonerGone(entries - {url}, next - {url})
      && MetadataCache.NeedlesslyNone(entries - {url}, next - {url}, size)
  }

  /** The owner's last critical section: the outcome is published, and exactly a success is stored. */
  ghost predicate Finishes(sh: Shared, url: string, flight: nat, outcome: Outcome, now: int, next: Shared) {
    && flight < |sh.records| && Possible(url, outcome)
    && next.flights == sh.flights - {url}
    && next.records == sh.records[flight := Flight(sh.records[flight].url, Some(outcome))]
    && match outcome
       case FetchFailed(_) => next.entries == sh.entries
       case Fetched(v) => Stores(sh.entries, url, v, now, next.entries)
  }

  class Fetcher {
    const cache: MetadataCache.Cache
    var flights: map<string, nat>
    var records: seq<Flight>

    constructor ()
      ensures cache.Valid() && fresh(cache) && View() == Shared(map[], map[], [])
    {
      cache := new MetadataCache.Cache();
      flights, records := map[], [];
    }

    function View(): Shared
      reads this, cache
    {
      Shared(cache.entries, flights, records)
    }

    /** Under the mutex: look the URL up, else join its flight, else register a new flight. */
    method Begin(url: string, now: int) returns (r: Begun)
      requires cache.Valid()
      modifies this, cache
      ensures cache.Valid() && Begins(old(View()), url, now, View(), r)
    {
      var cached := cache.Lookup(url, now);
      if cached.Some? {
        return Hit(cached.value);
      }
      if url in flights {
        return Join(flights[url]);
      }
      r := Own(|records|);
      flights := flights[url := |records|];
      records := records + [Flight(url, None)];
    }

    /** Under the mutex: cache a success, publish the outcome, drop the flight, wake the waiters. */
    method Finish(url: string, flight: nat, outcome: Outcome, now: int)
      requires cache.Valid() && flight < |records| && Possible(url, outcome)
      modifies this, cache
      ensures cache.Valid() && Finishes(old(View()), url, flight, outcome, now, View())
    {
      match outcome {
        case FetchFailed(_) =>
        case Fetched(v) => cache.Put(url, v, now);
      }
      records := records[flight := Flight(records[flight].url, Some(outcome))];
      flights := flights - {url};
    }
  }

  // ---- all interleavings ------------------------------------------------------------------------------------

  datatype World = World(shared: Shared, calls: seq<Call>)

  const START := World(Shared(map[], map[], []), [])

  /** A new call runs its first critical section. */
  ghost predicate CallBegins(w: World, next: World, url: string, now: int) {
    exists r :: Begins(w.shared, url, now, next.shared, r) && next.calls == w.calls + [
      match r
      case Hit(v) => Ended(url, Fetched(v), None)
      case Join(f) => Waiting(url, f)
      case Own(f) => Owning(url, f)]
  }

  /** The owner's fetch returns, with any possible outcome. */
  ghost predicate FetchReturns(w: World, next: World, t: nat, outcome: Outcome, now: int) {
    && t < |w.calls| && w.calls[t].Owning?
    && Finishes(w.shared, w.calls[t].url, w.calls[t].flight, outcome, now, next.shared)
    && next.calls == w.calls[t := Ended(w.calls[t].url, outcome, Some(w.calls[t].flight))]
  }

  /** A waiter whose flight is done returns the flight's outcome. */
  ghost predicate WaiterWakes(w: World, next: World, t: nat) {
    && t < |w.calls| && w.calls[t].Waiting? && w.calls[t].flight < |w.shared.records|
    && w.shared.records[w.calls[t].flight].outcome.Some?
    && next == w.(calls := w.calls[t :=
         Ended(w.calls[t].url, w.shared.records[w.calls[t].flight].outcome.value, Some(w.calls[t].flight))])
  }

  /** A waiter is cancelled and leaves the flight alone. */
  ghost predicate WaiterGivesUp(w: World, next: World, t: nat) {
    t < |w.calls| && w.calls[t].Waiting? && next == w.(calls := w.calls[t := GaveUp(w.calls[t].url)])
  }

  /** Hash lookups and other users of the cache can only make it forget. */
  ghost predicate CacheForgets(w: World, next: World) {
    && next.calls == w.calls && next.shared.flights == w.shared.flights && next.shared.records == w.shared.records
    && MetadataCache.Survivors(w.shared.entries, next.shared.entries)
  }

  ghost predicate Next(w: World, next: World) {
    || (exists url, now :: CallBegins(w, next, url, now))
    || (exists t, outcome, now :: FetchReturns(w, next, t, outcome, now))
    || (exists t :: WaiterWakes(w, next, t))
    || (exists t :: WaiterGivesUp(w, next, t))
    || CacheForgets(w, next)
  }

  ghost predicate IsRun(run: seq<World>) {
    run != [] && run[0] == START && forall i :: 0 <= i < |run| - 1 ==> Next(run[i], run[i + 1])
  }

  /** The call fetches this URL right now. */
  predicate Fetching(w: World, t: nat, url: string) {
    t < |w.calls| && w.calls[t].Owning? && w.calls[t].url == url
  }

  /** Some fetch of this URL succeeded with this value. */
  ghost predicate Succeeded(records: seq<Flight>, url: string, v: Metadata) {
    exists f :: 0 <= f < |records| && records[f] == Flight(url, Some(Fetched(v)))
  }

  /** What one call's state says about its flight. */
  predicate CallSound(sh: Shared, c: Call) {
    match c
    case Owning(u, f) => u in sh.flights && sh.flights[u] == f && f < |sh.records| && sh.records[f] == Flight(u, None)
    case Waiting(u, f) => f < |sh.records| && sh.records[f].url == u &&
      (sh.records[f].outcome == None ==> u in sh.flights && sh.flights[u] == f)
    case Ended(u, o, via) => via.Some? ==> via.value < |sh.records| && sh.records[via.value] == Flight(u, Some(o))
    case GaveUp(_) => true
  }

  ghost predicate CallsSound(w: World) {
    forall t :: 0 <= t < |w.calls| ==> CallSound(w.shared, w.calls[t])
  }

  /** Every registered flight is open and some call is fetching for it. */
  ghost predicate FlightsOwned(w: World) {
    forall u :: u in w.shared.flights ==>
      && w.shared.flights[u] < |w.shared.records| && w.shared.records[w.shared.flights[u]] == Flight(u, None)
      && exists t: nat :: Fetching(w, t, u)
  }

  ghost predicate OneOwner(w: World) {
    forall s, t :: (0 <= s < |w.calls| && 0 <= t < |w.calls| && w.calls[s].Owning? && w.calls[t].Owning?
                    && w.calls[s].flight == w.calls[t].flight) ==> s == t
  }

  /** Cached values, and values returned from the cache, were fetched successfully from their own URL. */
  ghost predicate CacheEarned(w: World) {
    && (forall u :: u in w.shared.entries ==> Succeeded(w.shared.records, u, w.shared.entries[u].value))
    && (forall t :: 0 <= t < |w.calls| && w.calls[t].Ended? && w.calls[t].via == None ==>
          w.calls[t].outcome.Fetched? && Succeeded(w.shared.records, w.calls[t].url, w.calls[t].outcome.value))
  }

  ghost predicate Invariant(w: World) {
    CallsSound(w) && FlightsOwned(w) && OneOwner(w) && CacheEarned(w) && "" !in w.shared.entries
  }

  /** Later records only add flights and fill in outcomes. */
  ghost predicate Extends(a: seq<Flight>, b: seq<Flight>) {
    |a| <= |b| && forall f :: 0 <= f < |a| ==> b[f].url == a[f].url && (a[f].outcome.Some? ==> b[f] == a[f])
  }

  /** The cache and the ended calls stay earned when records are extended and the cache gains only `fresh`. */
  lemma StillEarned(w: World, next: World, url: string, v: Metadata)
    requires CacheEarned(w) && Extends(w.shared.records, next.shared.records)
    requires forall k :: k in next.shared.entries ==>
      (k in w.shared.entries && next.shared.entries[k] == w.shared.entries[k])
      || (k == url && next.shared.entries[k].value == v && Succeeded(next.shared.records, url, v))
    requires forall t :: 0 <= t < |next.calls| && next.calls[t].Ended? && next.calls[t].via == None ==>
      t < |w.calls| && next.calls[t] == w.calls[t]
    ensures CacheEarned(next)
  {
  }

  /** A registered flight keeps its fetching call while that call does not end. */
  lemma StillOwned(w: World, next: World, u: string)
    requires exists t: nat :: Fetching(w, t, u)
    requires forall t: nat :: Fetching(w, t, u) ==> t < |next.calls| && next.calls[t] == w.calls[t]
    ensures exists t: nat :: Fetching(next, t, u)
  {
    var t: nat :| Fetching(w, t, u);
    assert Fetching(next, t, u);
  }

  lemma HitKeepsInvariant(w: World, next: World, url: string)
    requires Invariant(w) && url in w.shared.entries && next.shared == w.shared
    requires next.calls == w.calls + [Ended(url, Fetched(w.shared.entries[url].value), None)]
    ensures Invariant(next)
  {
    forall u | u in next.shared.flights ensures exists t: nat :: Fetching(next, t, u) {
      StillOwned(w, next, u);
    }
  }

  lemma JoinKeepsInvariant(w: World, next: World, url: string)
    requires Invariant(w) && url in w.shared.flights
    requires next.shared.flights == w.shared.flights && next.shared.records == w.shared.records &&
      next.shared.entries == w.shared.entries - {url}
    requires next.calls == w.calls + [Waiting(url, w.shared.flights[url])]
    ensures Invariant(next)
  {
    hide CacheEarned;
    hide Succeeded;
    forall u | u in next.shared.flights ensures exists t: nat :: Fetching(next, t, u) {
      StillOwned(w, next, u);
    }
    forall t | 0 <= t < |next.calls| ensures CallSound(next.shared, next.calls[t]) {
      if t < |w.calls| {
        assert CallSound(w.shared, w.calls[t]);
      }
    }
    StillEarned(w, next, url, Metadata("", [], ""));
  }

  lemma OwnKeepsInvariant(w: World, next: World, url: string)
    requires Invariant(w) && url !in w.shared.flights
    requires next.shared.flights == w.shared.flights[url := |w.shared.records|] &&
      next.shared.records == w.shared.records + [Flight(url, None)]
    requires next.shared.entries == w.shared.entries - {url}
    requires next.calls == w.calls + [Owning(url, |w.shared.records|)]
    ensures Invariant(next)
  {
    hide CacheEarned;
    hide Succeeded;
    forall t | 0 <= t < |next.calls| ensures CallSound(next.shared, next.calls[t]) {
      if t < |w.calls| {
        assert CallSound(w.shared, w.calls[t]);
      }
    }
    forall u | u in next.shared.flights ensures exists t: nat :: Fetching(next, t, u) {
      if u == url {
        assert Fetching(next, |w.calls|, u);
      } else {
        StillOwned(w, next, u);
      }
    }
    forall t | 0 <= t < |w.calls| && w.calls[t].Owning? ensures w.calls[t].flight < |w.shared.records| {
      assert CallSound(w.shared, w.calls[t]);
    }
    StillEarned(w, next, url, Metadata("", [], ""));
  }

  lemma StoresOnly(entries: MetadataCache.Entries, url: string, v: Metadata, now: int, next: MetadataCache.Entries)
    requires Stores(entries, url, v, now, next)
    ensures forall k :: k in next ==> (k in entries && next[k] == entries[k]) || (k == url && next[k].value == v)
  {
    assert forall k :: k in next && k != url ==> k in next - {url};
  }

  lemma FinishKeepsInvariant(w: World, next: World, t: nat, outcome: Outcome, now: int)
    requires Invariant(w) && FetchReturns(w, next, t, outcome, now)
    ensures Invariant(next)
  {
    var u, f := w.calls[t].url, w.calls[t].flight;
    assert CallSound(w.shared, w.calls[t]);
    forall s | 0 <= s < |next.calls| ensures CallSound(next.shared, next.calls[s]) {
      if s != t {
        assert CallSound(w.shared, w.calls[s]);
      }
    }
    forall x | x in next.shared.flights
      ensures next.shared.flights[x] < |next.shared.records| &&
        next.shared.records[next.shared.flights[x]] == Flight(x, None)
      ensures exists s: nat :: Fetching(next, s, x)
    {
      assert w.shared.records[w.shared.flights[x]] == Flight(x, None);
      StillOwned(w, next, x);
    }
    if outcome.Fetched? {
      assert next.shared.records[f] == Flight(u, Some(Fetched(outcome.value)));
      StoresOnly(w.shared.entries, u, outcome.value, now, next.shared.entries);
      StillEarned(w, next, u, outcome.value);
    } else {
      StillEarned(w, next, u, Metadata("", [], ""));
    }
  }

  lemma LeaveKeepsInvariant(w: World, next: World, t: nat)
    requires Invariant(w) && (WaiterWakes(w, next, t) || WaiterGivesUp(w, next, t))
    ensures Invariant(next)
  {
    assert CallSound(w.shared, w.calls[t]);
    forall s | 0 <= s < |next.calls| ensures CallSound(next.shared, next.calls[s]) {
      if s != t {
        assert CallSound(w.shared, w.calls[s]);
      }
    }
    forall u | u in next.shared.flights ensures exists s: nat :: Fetching(next, s, u) {
      StillOwned(w, next, u);
    }
  }

  lemma ForgetKeepsInvariant(w: World, next: World)
    requires Invariant(w) && CacheForgets(w, next)
    ensures Invariant(next)
  {
    hide CacheEarned;
    hide Succeeded;
    forall t | 0 <= t < |next.calls| ensures CallSound(next.shared, next.calls[t]) {
      assert CallSound(w.shared, w.calls[t]);
    }
    forall u | u in next.shared.flights ensures exists s: nat :: Fetching(next, s, u) {
      StillOwned(w, next, u);
    }
    StillEarned(w, next, "", Metadata("", [], ""));
  }

  lemma NextKeepsInvariant(w: World, next: World)
    requires Invariant(w) && Next(w, next)
    ensures Invariant(next)
  {
    hide Invariant;
    if exists url, now :: CallBegins(w, next, url, now) {
      var url, now :| CallBegins(w, next, url, now);
      BeginKeepsInvariant(w, next, url, now);
    } else if exists t, outcome, now :: FetchReturns(w, next, t, outcome, now) {
      var t: nat, outcome, now :| FetchReturns(w, next, t, outcome, now);
      FinishKeepsInvariant(w, next, t, outcome, now);
    } else if exists t :: WaiterWakes(w, next, t) {
      var t: nat :| WaiterWakes(w, next, t);
      LeaveKeepsInvariant(w, next, t);
    } else if exists t :: WaiterGivesUp(w, next, t) {
      var t: nat :| WaiterGivesUp(w, next, t);
      LeaveKeepsInvariant(w, next, t);
    } else {
      ForgetKeepsInvariant(w, next);
    }
  }

  lemma BeginKeepsInvariant(w: World, next: World, url: string, now: int)
    requires Invariant(w) && CallBegins(w, next, url, now)
    ensures Invariant(next)
  {
    hide Invariant;
    if Unexpired(w.shared.entries, url, now) {
      HitKeepsInvariant(w, next, url);
    } else if url in w.shared.flights {
      JoinKeepsInvariant(w, next, url);
    } else {
      OwnKeepsInvariant(w, next, url);
    }
  }

  lemma {:induction false} AlwaysInvariant(run: seq<World>, i: nat)
    requires IsRun(run) && i < |run|
    ensures Invariant(run[i])
  {
    if i > 0 {
      AlwaysInvariant(run, i - 1);
      NextKeepsInvariant(run[i - 1], run[i]);
    }
  }

  // ---- single flight ----------------------------------------------------------------------------------------

  /** At most one fetch per URL is in progress, and a flight is registered exactly while one is. */
  lemma OneFetchPerURL(run: seq<World>, i: nat, url: string, s: nat, t: nat)
    requires IsRun(run) && i < |run|
    ensures Fetching(run[i], s, url) && Fetching(run[i], t, url) ==> s == t
    ensures url in run[i].shared.flights <==> exists t: nat :: Fetching(run[i], t, url)
  {
    AlwaysInvariant(run, i);
    forall x: nat | Fetching(run[i], x, url)
      ensures url in run[i].shared.flights && run[i].shared.flights[url] == run[i].calls[x].flight {
      assert CallSound(run[i].shared, run[i].calls[x]);
    }
  }

  /** The owner of a flight and every waiter that was not cancelled return the same value or the same error. */
  lemma WaitersShareOutcome(run: seq<World>, i: nat, s: nat, t: nat)
    requires IsRun(run) && i < |run| && s < |run[i].calls| && t < |run[i].calls|
    requires run[i].calls[s].Ended? && run[i].calls[t].Ended? && run[i].calls[s].via.Some? &&
      run[i].calls[s].via == run[i].calls[t].via
    ensures run[i].calls[s].url == run[i].calls[t].url && run[i].calls[s].outcome == run[i].calls[t].outcome
  {
    AlwaysInvariant(run, i);
    assert CallSound(run[i].shared, run[i].calls[s]) && CallSound(run[i].shared, run[i].calls[t]);
  }

  /** No interleaving caches the empty URL, which the cache's search for the least entry could not handle. */
  lemma NothingCachedForEmptyURL(run: seq<World>, i: nat)
    requires IsRun(run) && i < |run|
    ensures "" !in run[i].shared.entries
  {
    AlwaysInvariant(run, i);
  }

  /**
   * Whatever the cache holds or returns for a URL is the value of a fetch of that URL that succeeded: a failed
   * fetch never puts an entry.
   */
  lemma CacheHoldsFetchedValues(run: seq<World>, i: nat, url: string, t: nat)
    requires IsRun(run) && i < |run|
    ensures url in run[i].shared.entries ==> Succeeded(run[i].shared.records, url, run[i].shared.entries[url].value)
    ensures t < |run[i].calls| && run[i].calls[t].Ended? && run[i].calls[t].outcome.Fetched? ==>
      Succeeded(run[i].shared.records, run[i].calls[t].url, run[i].calls[t].outcome.value)
  {
    AlwaysInvariant(run, i);
    var w := run[i];
    if t < |w.calls| && w.calls[t].Ended? && w.calls[t].via.Some? {
      assert CallSound(w.shared, w.calls[t]);
    }
  }

  // ---- a fetched value is used again ------------------------------------------------------------------------

  /** While an entry stays and no flight of its URL is open, a step neither changes it nor opens one. */
  lemma EntryStays(w: World, next: World, url: string, c: MetadataCache.Cached)
    requires Invariant(w) && Next(w, next) && url !in w.shared.flights
    requires url in w.shared.entries && w.shared.entries[url] == c && url in next.shared.entries
    ensures url !in next.shared.flights && next.shared.entries[url] == c
  {
    if exists u, now :: CallBegins(w, next, u, now) {
      var u, now :| CallBegins(w, next, u, now);
    } else if exists t, outcome, now :: FetchReturns(w, next, t, outcome, now) {
      var t: nat, outcome, now :| FetchReturns(w, next, t, outcome, now);
      assert CallSound(w.shared, w.calls[t]);
      if outcome.Fetched? {
        StoresOnly(w.shared.entries, w.calls[t].url, outcome.value, now, next.shared.entries);
      }
    }
  }

  /** Through every world of the run from `i` to `k` the cache has an entry for the URL. */
  ghost predicate Remembered(run: seq<World>, i: nat, k: nat, url: string) {
    forall j :: i <= j <= k && j < |run| ==> url in run[j].shared.entries
  }

  /** No flight of the URL is open and the cache has this value for it until then. */
  ghost predicate Held(w: World, url: string, v: Metadata, expires: int) {
    && url !in w.shared.flights && url in w.shared.entries
    && w.shared.entries[url].value == v && w.shared.entries[url].expires == expires
  }

  /** Right after a successful fetch the value is there, unless it alone exceeds the byte bound. */
  lemma FetchedIsHeld(w: World, next: World, t: nat, v: Metadata, now: int)
    requires FetchReturns(w, next, t, Fetched(v), now)
    requires MetadataCache.SizeOf(w.calls[t].url, v) <= MetadataCache.MAX_BYTES
    ensures Held(next, w.calls[t].url, v, now + MetadataCache.TTL)
  {
  }

  lemma {:induction false} HeldStays(run: seq<World>, i: nat, k: nat, url: string, v: Metadata, expires: int)
    requires IsRun(run) && i <= k < |run| && Held(run[i], url, v, expires) && Remembered(run, i, k, url)
    ensures Held(run[k], url, v, expires)
    decreases k
  {
    hide Invariant;
    hide Next;
    if k > i {
      HeldStays(run, i, k - 1, url, v, expires);
      AlwaysInvariant(run, k - 1);
      EntryStays(run[k - 1], run[k], url, run[k - 1].shared.entries[url]);
    }
  }

  /**
   * A call begun after a successful fetch of its URL, before the value expires and while the cache has not forgotten
   * it, returns exactly that value at once, and no new flight is opened.
   */
  lemma FetchIsReused(run: seq<World>, i: nat, k: nat, t: nat, v: Metadata, now: int, later: int)
    requires IsRun(run) && i < k < |run| - 1 && FetchReturns(run[i], run[i + 1], t, Fetched(v), now)
    requires MetadataCache.SizeOf(run[i].calls[t].url, v) <= MetadataCache.MAX_BYTES
    requires Remembered(run, i + 2, k, run[i].calls[t].url)
    requires CallBegins(run[k], run[k + 1], run[i].calls[t].url, later) && later < now + MetadataCache.TTL
    ensures run[k + 1].shared == run[k].shared
    ensures run[k + 1].calls == run[k].calls + [Ended(run[i].calls[t].url, Fetched(v), None)]
  {
    FetchedIsHeld(run[i], run[i + 1], t, v, now);
    HeldStays(run, i + 1, k, run[i].calls[t].url, v, now + MetadataCache.TTL);
  }
}
