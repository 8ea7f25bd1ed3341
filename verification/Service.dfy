/**
 AnalyzeTopic of api/internal/service/service.go over its cache, and what holds over every
 sequence of calls.
 */
module Service {
  import opened Wrappers
  import opened Domain
  import opened Batching
  import opened Worker
  import opened Client
  import opened AspectClient
  import opened Aggregates
  import opened Cache
  import opened CacheKey
  import opened Fanout
  import opened Topic

  type Entries = seq<Op<string, Analysis>>

  /** A complete answer to some request with this key: no platform dropped out, and there are
      documents. */
  ghost predicate StoredFor(config: Settings, key: string, v: Analysis, q: Request, w: World) {
    && key == BuildCacheKey(config.env, WithLimit(q))
    && Fetched(config, WithLimit(q), w, Ok(v))
    && !v.partial && v.results != []
  }

  ghost predicate Storable(config: Settings, key: string, v: Analysis, q: Request) {
    exists w :: StoredFor(config, key, v, q, w)
  }

  /** Everything ever stored was fit to be, for the request that stored it. */
  ghost predicate Sound(config: Settings, log: Entries, asked: seq<Request>) {
    && |asked| == |log|
    && forall i :: 0 <= i < |log| && log[i].Set? ==> Storable(config, log[i].key, log[i].value, asked[i])
  }

  /** The call's answer and what it did to the cache. */
  ghost predicate Served(config: Settings, size: pos, ttl: real, req: Request, w: World,
                         before: Entries, after: Entries, r: Result<Analysis, TopicError>)
  {
    if Blank(config.env, req) then r == Err(TopicRequired) && after == before
    else
      var key := BuildCacheKey(config.env, WithLimit(req));
      var looked := before + [Get(key, w.lookedAt)];
      match Step(Slots(size, ttl, before), size, ttl, Get(key, w.lookedAt)).1
      case Some(hit) => r == Ok(hit) && after == looked
      case None => Missed(config, key, req, w, looked, after, r)
  }

  /** A miss is fetched, and exactly a complete answer with documents is stored. */
  ghost predicate Missed(config: Settings, key: string, req: Request, w: World,
                         before: Entries, after: Entries, r: Result<Analysis, TopicError>)
  {
    && Fetched(config, WithLimit(req), w, r)
    && after == if r.Ok? && !r.value.partial && r.value.results != []
                then before + [Set(key, r.value, w.storedAt)] else before
  }

  lemma FetchedIsStorable(config: Settings, key: string, v: Analysis, q: Request, w: World)
    requires StoredFor(config, key, v, q, w)
    ensures Storable(config, key, v, q)
  {
  }

  lemma SoundSnoc(config: Settings, log: Entries, asked: seq<Request>, op: Op<string, Analysis>, q: Request)
    requires Sound(config, log, asked) && (op.Set? ==> Storable(config, op.key, op.value, q))
    ensures Sound(config, log + [op], asked + [q])
  {
  }

  lemma SlotsSnoc(size: pos, ttl: real, log: Entries, op: Op<string, Analysis>)
    ensures Slots(size, ttl, log + [op]) == Step(Slots(size, ttl, log), size, ttl, op).0
  {
    assert (log + [op])[..|log|] == log;
  }

  /** What followed a lookup is what a call may do. */
  lemma LookedUp(config: Settings, size: pos, ttl: real, req: Request, w: World,
                 before: Entries, after: Entries, r: Result<Analysis, TopicError>, hit: Option<Analysis>)
    requires !Blank(config.env, req)
    requires var key := BuildCacheKey(config.env, WithLimit(req));
             var looked := before + [Op.Get(key, w.lookedAt)];
             && hit == Step(Slots(size, ttl, before), size, ttl, Op.Get(key, w.lookedAt)).1
             && (hit.Some? ==> r == Ok(hit.value) && after == looked)
             && (hit.None? ==> Missed(config, key, req, w, looked, after, r))
    ensures Served(config, size, ttl, req, w, before, after, r)
  {
  }

  /** Every operation that was added was made for this request. */
  ghost predicate AskedFor(before: seq<Request>, after: seq<Request>, req: Request) {
    before <= after && forall i :: |before| <= i < |after| ==> after[i] == req
  }

  lemma AskedUpToTwice(before: seq<Request>, req: Request)
    ensures AskedFor(before, before, req) && AskedFor(before, before + [req], req)
    ensures AskedFor(before, before + [req] + [req], req)
  {
  }

  class Service {
    const config: Settings
    const cache: TTLCache<string, Analysis>
    ghost var log: Entries             // every operation on the cache
    ghost var asked: seq<Request>      // the request each was made for

    ghost predicate Valid()
      reads this, cache
    {
      && cache.Valid() && cache.slots == Slots(cache.size, cache.ttl, log)
      && Sound(config, log, asked)
    }

    constructor (config: Settings, size: pos, ttl: real)
      ensures Valid() && log == [] && asked == [] && this.config == config
      ensures fresh(cache) && cache.size == size && cache.ttl == ttl
    {
      this.config := config;
      cache := new TTLCache(size, ttl);
      log, asked := [], [];
    }

    method LookUp(key: string, at: real, ghost q: Request) returns (hit: Option<Analysis>)
      requires Valid()
      modifies this`log, this`asked, cache
      ensures Valid() && log == old(log) + [Get(key, at)] && asked == old(asked) + [q]
      ensures hit == Step(Slots(cache.size, cache.ttl, old(log)), cache.size, cache.ttl, Get(key, at)).1
    {
      hit := cache.Get(key, at);
      log, asked := log + [Op.Get(key, at)], asked + [q];
      SoundSnoc(config, old(log), old(asked), Op.Get(key, at), q);
      SlotsSnoc(cache.size, cache.ttl, old(log), Op.Get(key, at));
    }

    method Store(key: string, v: Analysis, at: real, ghost q: Request)
      requires Valid() && Storable(config, key, v, q)
      modifies this`log, this`asked, cache
      ensures Valid() && log == old(log) + [Set(key, v, at)] && asked == old(asked) + [q]
    {
      cache.Set(key, v, at);
      log, asked := log + [Op.Set(key, v, at)], asked + [q];
      SoundSnoc(config, old(log), old(asked), Op.Set(key, v, at), q);
      SlotsSnoc(cache.size, cache.ttl, old(log), Op.Set(key, v, at));
    }

    method FetchAndStore(key: string, req: Request, w: World) returns (r: Result<Analysis, TopicError>)
      requires Valid() && IsPermutation(w.schedule, |w.connectors|)
      requires key == BuildCacheKey(config.env, WithLimit(req))
      modifies this`log, this`asked, cache
      ensures Valid() && Missed(config, key, req, w, old(log), log, r)
      ensures asked == old(asked) || asked == old(asked) + [req]
    {
      r := Fetch(config, WithLimit(req), w);
      if r.Ok? && |r.value.results| > 0 && !r.value.partial {
        FetchedIsStorable(config, key, r.value, req, w);
        Store(key, r.value, w.storedAt, req);
      }
    }

    method AnalyzeTopic(req: Request, w: World) returns (r: Result<Analysis, TopicError>)
      requires Valid() && IsPermutation(w.schedule, |w.connectors|)
      modifies this`log, this`asked, cache
      ensures Valid()
      ensures Served(config, cache.size, cache.ttl, req, w, old(log), log, r)
      ensures AskedFor(old(asked), asked, req)
    {
      AskedUpToTwice(asked, req);
      if Blank(config.env, req) {
        return Err(TopicRequired);
      }
      var key := BuildCacheKey(config.env, WithLimit(req));
      var hit := LookUp(key, w.lookedAt, req);
      if hit.Some? {
        r := Ok(hit.value);
      } else {
        r := FetchAndStore(key, req, w);
      }
      LookedUp(config, cache.size, cache.ttl, req, w, old(log), log, r, hit);
    }
  }
}
