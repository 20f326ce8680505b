/** The read cache: when it serves, and how stale what it serves can be when other instances write to the store. */
module CmsCache {
  import opened Prelude
  import opened CmsModel

  /** A cached index is served until it is `ttl` old by its stamp. */
  predicate Live(at: int, now: int, ttl: int) {
    now - at < ttl
  }

  /** One load of the store: asked for, answered with the content of one instant, then stamped. */
  datatype Load = Load(begun: int, taken: int, stamped: int) {
    predicate Ordered() {
      begun <= taken <= stamped
    }
  }

  /**
   * What happens at one instance, in order of time: a read looks at the cache; a
   * read that missed fills it when its load is done, whatever happened since; a
   * write empties it.
   */
  datatype Event = Read(anew: bool, now: int) | Fill(load: Load) | Invalidate

  /** The read is served from the cache; otherwise it loads. */
  predicate Hits(cache: Option<Load>, e: Event, ttl: int) {
    e.Read? && !e.anew && cache.Some? && Live(cache.value.stamped, e.now, ttl)
  }

  function CacheAfter(cache: Option<Load>, e: Event): Option<Load> {
    match e
    case Read(_, _) => cache
    case Fill(load) => Some(load)
    case Invalidate => None
  }

  function CacheBefore(events: seq<Event>): Option<Load> {
    if events == [] then None else CacheAfter(CacheBefore(events[..|events| - 1]), events[|events| - 1])
  }

  /** Loads are ordered and take at most `latency`, and no read is earlier than a fill before it. */
  predicate Timed(events: seq<Event>, latency: int) {
    && (forall i :: 0 <= i < |events| && events[i].Fill? ==>
          events[i].load.Ordered() && events[i].load.stamped - events[i].load.taken <= latency)
    && (forall i, j :: 0 <= i < j < |events| && events[i].Fill? && events[j].Read? ==>
       events[i].load.stamped <= events[j].now)
  }

  lemma {:induction false} CachedWasFilled(events: seq<Event>)
    ensures var cache := CacheBefore(events);
      cache.Some? ==> exists i :: 0 <= i < |events| && events[i] == Fill(cache.value)
  {
    if events != [] {
      var n := |events| - 1;
      CachedWasFilled(events[..n]);
      if CacheBefore(events).Some? {
        if events[n].Fill? {
          assert events[n] == Fill(CacheBefore(events).value);
        } else {
          var i :| 0 <= i < n && events[..n][i] == Fill(CacheBefore(events).value);
          assert events[i] == Fill(CacheBefore(events).value);
        }
      }
    }
  }

  /** A run whose last event is a read served from the cache. */
  ghost predicate EndsInHit(events: seq<Event>, ttl: int) {
    events != [] && Hits(CacheBefore(events[..|events| - 1]), events[|events| - 1], ttl)
  }

  /** The instant whose content the last read shows. */
  function ShownAt(events: seq<Event>, ttl: int): int
    requires EndsInHit(events, ttl)
  {
    CacheBefore(events[..|events| - 1]).value.taken
  }

  function ReadAt(events: seq<Event>): int
    requires events != [] && events[|events| - 1].Read?
  {
    events[|events| - 1].now
  }

  /**
   * With other writers, and with reads and loads overlapping as they like, a
   * cached read shows the store at an instant less than the cache lifetime plus
   * one load's latency earlier.
   */
  lemma HitsAreRecent(events: seq<Event>, ttl: int, latency: int)
    requires Timed(events, latency) && EndsInHit(events, ttl)
    ensures ShownAt(events, ttl) <= ReadAt(events) < ShownAt(events, ttl) + ttl + latency
  {
    var n := |events| - 1;
    CachedWasFilled(events[..n]);
    var i :| 0 <= i < n && events[..n][i] == Fill(CacheBefore(events[..n]).value);
    assert events[i] == Fill(CacheBefore(events[..n]).value);
  }

  /** The read shows what the store held at some instant less than the cache lifetime earlier. */
  ghost predicate WithinTtl(events: seq<Event>, ttl: int, history: int -> Content)
    requires EndsInHit(events, ttl)
  {
    exists t :: ReadAt(events) - ttl < t <= ReadAt(events) && history(t) == history(ShownAt(events, ttl))
  }

  /**
   * One cached read meets the documented window, whatever the store's history,
   * exactly when its content was taken within it.
   */
  lemma HitWithinTtlIff(events: seq<Event>, ttl: int, latency: int)
    requires Timed(events, latency) && EndsInHit(events, ttl)
    ensures (forall history: int -> Content :: WithinTtl(events, ttl, history)) <==>
            ReadAt(events) - ShownAt(events, ttl) < ttl
  {
    HitsAreRecent(events, ttl, latency);
    var taken, now := ShownAt(events, ttl), ReadAt(events);
    if now - taken < ttl {
      forall history: int -> Content ensures WithinTtl(events, ttl, history) {
        assert now - ttl < taken <= now && history(taken) == history(taken);
      }
    } else {
      var k := Key("post", "first");
      var edited: Content := map[k := map[]];
      var history := (t: int) => if t <= taken then map[] else edited;
      assert k in edited && k !in history(taken);
      forall t | now - ttl < t <= now ensures history(t) != history(taken) { assert k in history(t); }
      assert !WithinTtl(events, ttl, history);
    }
  }

  /** Every cached read of every run is within the window. */
  ghost predicate AlwaysWithinTtl(ttl: int, latency: int) {
    forall events: seq<Event>, history: int -> Content ::
      Timed(events, latency) && EndsInHit(events, ttl) ==> WithinTtl(events, ttl, history)
  }

  /**
   * The documented window holds for every run exactly when loads are
   * instantaneous: the lifetime is counted from the stamp, and the stamp is made
   * after the content was taken.
   */
  lemma TtlBoundIff(ttl: int, latency: int)
    requires ttl > 0 && latency >= 0
    ensures AlwaysWithinTtl(ttl, latency) <==> latency == 0
  {
    if latency == 0 {
      forall events: seq<Event>, history: int -> Content | Timed(events, latency) && EndsInHit(events, ttl)
        ensures WithinTtl(events, ttl, history)
      {
        HitsAreRecent(events, ttl, latency);
        HitWithinTtlIff(events, ttl, latency);
      }
    } else {
      var events := StaleRead(ttl, latency);
      HitWithinTtlIff(events, ttl, latency);
    }
  }

  /** A load as slow as allowed, read at the end of the cache's life. */
  lemma StaleRead(ttl: int, latency: int) returns (events: seq<Event>)
    requires ttl > 0 && latency > 0
    ensures Timed(events, latency) && EndsInHit(events, ttl) && ReadAt(events) - ShownAt(events, ttl) >= ttl
  {
    var fill, read := Fill(Load(0, 0, latency)), Read(false, latency + ttl - 1);
    events := [fill, read];
    assert events[..1] == [fill] && [fill][..0] == [];
    assert CacheBefore([fill]) == Some(fill.load);
  }
}
