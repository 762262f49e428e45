/**
 The token bucket kept in Redis (internal/ratelimit/bucket.go): refill is lazy, a denial writes nothing,
 and the key expires. Tokens are reals; the client's clock is cut to whole seconds, the server's is in
 milliseconds, and the two may drift.
 */
module TokenBucket {
  import opened Wrappers

  /** `life` is how long a key lives, in milliseconds for every second that an idle bucket takes to fill. */
  datatype Config = Config(capacity: int, rate: real, life: int) {
    ghost predicate Valid() {
      capacity >= 1 && rate > 0.0 && life >= 1
    }
  }

  /** What the script multiplies by. */
  const LIFE := 2000

  datatype Bucket = Bucket(tokens: real, last: int)

  /** A key's fields and the server time, in milliseconds, at which the key goes away. */
  datatype Stored = Stored(bucket: Bucket, expires: int)

  datatype Reply = Panic | Answer(allowed: bool, remaining: int)

  function Ceil(x: real): int {
    -((-x).Floor)
  }

  /** Redis turns a Lua number into an integer by dropping its fraction. */
  function Truncate(x: real): (n: int)
    ensures x >= 0.0 ==> n as real <= x < n as real + 1.0
    ensures x <= 0.0 ==> n as real - 1.0 < x <= n as real
  {
    if x >= 0.0 then x.Floor else Ceil(x)
  }

  function Seconds(ms: int): int {
    ms / 1000
  }

  /** The whole seconds after which an idle bucket is full again. */
  function FillTime(cfg: Config): int
    requires cfg.rate > 0.0
  {
    Ceil(cfg.capacity as real / cfg.rate)
  }

  function Ttl(cfg: Config): int
    requires cfg.rate > 0.0
  {
    FillTime(cfg) * cfg.life
  }

  /** What the clock adds: `rate` for every second. */
  function Gained(cfg: Config, seconds: int): real {
    if seconds > 0 then Gained(cfg, seconds - 1) + cfg.rate else 0.0
  }

  lemma {:induction false} GainedIsProduct(cfg: Config, seconds: nat)
    ensures Gained(cfg, seconds) == seconds as real * cfg.rate
  {
    if seconds > 0 {
      GainedIsProduct(cfg, seconds - 1);
      assert (seconds - 1) as real * cfg.rate + cfg.rate == seconds as real * cfg.rate;
    }
  }

  function Capped(cfg: Config, tokens: real): real {
    if tokens > cfg.capacity as real then cfg.capacity as real else tokens
  }

  /** What a request at `now` finds in the bucket. */
  function Available(cfg: Config, entry: Option<Bucket>, now: int): real {
    match entry
    case None => cfg.capacity as real
    case Some(b) => if now > b.last then Capped(cfg, b.tokens + Gained(cfg, now - b.last)) else b.tokens
  }

  /** A fresh bucket never refuses. */
  predicate Admits(cfg: Config, entry: Option<Bucket>, now: int, cost: int) {
    entry.None? || Available(cfg, entry, now) >= cost as real
  }

  function Next(cfg: Config, entry: Option<Bucket>, now: int, cost: int): Option<Bucket> {
    if Admits(cfg, entry, now, cost) then Some(Bucket(Available(cfg, entry, now) - cost as real, now)) else entry
  }

  /** Redis drops a key once the time is past its expiry, and still has it at that millisecond. */
  function Live(entry: Option<Stored>, server: int): Option<Bucket> {
    if entry.Some? && server <= entry.value.expires then Some(entry.value.bucket) else None
  }

  /** The stored key after a request; a denial leaves it as it is. */
  function NextStored(cfg: Config, entry: Option<Stored>, now: int, server: int, cost: int): Option<Stored>
    requires cfg.rate > 0.0
  {
    var live := Live(entry, server);
    if Admits(cfg, live, now, cost) then Some(Stored(Next(cfg, live, now, cost).value, server + Ttl(cfg))) else entry
  }

  function Lookup(store: map<string, Stored>, key: string): Option<Stored> {
    if key in store then Some(store[key]) else None
  }

  class Limiter {
    const cfg: Config
    var store: map<string, Stored>

    constructor (capacity: int, rate: real)
      ensures cfg == Config(capacity, rate, LIFE) && store == map[]
    {
      cfg := Config(capacity, rate, LIFE);
      store := map[];
    }

    /** The script: the key's fields are read, refilled and, when the request is admitted, written back. */
    method Run(key: string, now: int, cost: int, server: int) returns (allowed: bool, tokens: real)
      requires cfg.rate > 0.0
      modifies this`store
      ensures var before := old(Lookup(store, key)); var live := Live(before, server);
              && allowed == Admits(cfg, live, now, cost)
              && tokens == Available(cfg, live, now) - (if allowed then cost as real else 0.0)
              && Lookup(store, key) == NextStored(cfg, before, now, server, cost)
      ensures store - {key} == old(store) - {key}
    {
      var capacity := cfg.capacity as real;
      if key !in store || server > store[key].expires {
        tokens := capacity - cost as real;
        store := store[key := Stored(Bucket(tokens, now), server + Ttl(cfg))];
        return true, tokens;
      }
      tokens := store[key].bucket.tokens;
      var elapsed := now - store[key].bucket.last;
      if elapsed > 0 {
        GainedIsProduct(cfg, elapsed);
        tokens := tokens + elapsed as real * cfg.rate;
        if tokens > capacity {
          tokens := capacity;
        }
      }
      if tokens >= cost as real {
        tokens := tokens - cost as real;
        store := store[key := Stored(Bucket(tokens, now), server + Ttl(cfg))];
        return true, tokens;
      }
      return false, tokens;
    }

    /** `failed` says that Redis did not answer: the limiter then denies. */
    method AllowN(key: string, n: int, client: int, server: int, failed: bool) returns (reply: Reply)
      requires cfg.rate > 0.0
      modifies this`store
      ensures reply == Panic <==> n < 0
      ensures n == 0 ==> reply == Answer(true, 0)
      ensures n <= 0 || failed ==> store == old(store)
      ensures n > 0 && failed ==> reply == Answer(false, 0)
      ensures n > 0 && !failed ==>
                var before := old(Lookup(store, key)); var live := Live(before, server); var now := Seconds(client);
                && reply.Answer? && reply.allowed == Admits(cfg, live, now, n)
                && reply.remaining == Truncate(Available(cfg, live, now) - (if reply.allowed then n as real else 0.0))
                && Lookup(store, key) == NextStored(cfg, before, now, server, n)
                && store - {key} == old(store) - {key}
    {
      if n < 0 {
        return Panic;
      }
      if n == 0 {
        return Answer(true, 0);
      }
      if failed {
        return Answer(false, 0);
      }
      var allowed, tokens := Run(key, Seconds(client), n, server);
      return Answer(allowed, Truncate(tokens));
    }
  }

  // ---------------------------------------------------------------- runs

  /** A request for one key: both clocks in milliseconds, and its cost. */
  datatype Request = Request(client: int, server: int, cost: int) {
    function Now(): int {
      Seconds(client)
    }
  }

  /** Every cost is one the bucket can hold. */
  ghost predicate Affordable(cfg: Config, requests: seq<Request>) {
    forall r :: r in requests ==> 1 <= r.cost <= cfg.capacity
  }

  /** The bucket whose key never expires, after `requests`. */
  ghost function After(cfg: Config, requests: seq<Request>): Option<Bucket> {
    if requests == [] then None
    else
      var r := requests[|requests| - 1];
      Next(cfg, After(cfg, requests[..|requests| - 1]), r.Now(), r.cost)
  }

  /** The stored key, expiry included, after `requests`. */
  ghost function StoredAfter(cfg: Config, requests: seq<Request>): Option<Stored>
    requires cfg.rate > 0.0
  {
    if requests == [] then None
    else
      var r := requests[|requests| - 1];
      NextStored(cfg, StoredAfter(cfg, requests[..|requests| - 1]), r.Now(), r.server, r.cost)
  }

  /** What the bucket decides about request `k`. */
  ghost predicate Allowed(cfg: Config, requests: seq<Request>, k: nat)
    requires cfg.rate > 0.0 && k < |requests|
  {
    var r := requests[k];
    Admits(cfg, Live(StoredAfter(cfg, requests[..k]), r.server), r.Now(), r.cost)
  }

  /** The total cost admitted among the requests from `i` up to `j`. */
  ghost function Spent(cfg: Config, requests: seq<Request>, i: nat, j: nat): int
    requires cfg.rate > 0.0 && i <= j <= |requests|
  {
    if i == j then 0
    else Spent(cfg, requests, i, j - 1) + if Allowed(cfg, requests, j - 1) then requests[j - 1].cost else 0
  }

  // ---------------------------------------------------------------- the range of the tokens

  ghost predicate InRange(cfg: Config, entry: Option<Bucket>) {
    entry.Some? ==> 0.0 <= entry.value.tokens <= cfg.capacity as real
  }

  lemma {:induction false} GainedPositive(cfg: Config, seconds: int)
    requires cfg.rate > 0.0
    ensures Gained(cfg, seconds) >= 0.0
    decreases if seconds > 0 then seconds else 0
  {
    if seconds > 0 {
      GainedPositive(cfg, seconds - 1);
    }
  }

  lemma AvailableInRange(cfg: Config, entry: Option<Bucket>, now: int)
    requires cfg.Valid() && InRange(cfg, entry)
    ensures 0.0 <= Available(cfg, entry, now) <= cfg.capacity as real
  {
    if entry.Some? {
      GainedPositive(cfg, now - entry.value.last);
    }
  }

  /** Whatever the clock does, the stored tokens stay between zero and the capacity. */
  lemma {:induction false} TokensInRange(cfg: Config, requests: seq<Request>)
    requires cfg.Valid() && Affordable(cfg, requests)
    ensures InRange(cfg, After(cfg, requests))
  {
    if requests != [] {
      var init, r := requests[..|requests| - 1], requests[|requests| - 1];
      assert r in requests;
      TokensInRange(cfg, init);
      AvailableInRange(cfg, After(cfg, init), r.Now());
    }
  }

  /** Any cost is admitted by a fresh bucket, and the tokens go below zero exactly when it exceeds the capacity. */
  lemma FreshBucketAdmitsAnything(cfg: Config, now: int, cost: int)
    requires cfg.Valid() && cost >= 1
    ensures Admits(cfg, None, now, cost)
    ensures InRange(cfg, Next(cfg, None, now, cost)) <==> cost <= cfg.capacity
  {
  }

  // ---------------------------------------------------------------- the expiry

  /** The client's clock never falls behind the server's by more than `lag` between two requests. */
  ghost predicate LagWithin(requests: seq<Request>, lag: int) {
    forall i, j :: 0 <= i < j < |requests| ==>
      (requests[j].server - requests[i].server) - (requests[j].client - requests[i].client) <= lag
  }

  /** The lag that the expiry makes up for. */
  ghost function Tolerated(cfg: Config): int
    requires cfg.rate > 0.0
  {
    Ttl(cfg) - FillTime(cfg) * 1000 + 1
  }

  /** The conditions under which the bucket keeps its promise. */
  ghost predicate Sound(cfg: Config, requests: seq<Request>)
    requires cfg.rate > 0.0
  {
    Affordable(cfg, requests) && LagWithin(requests, Tolerated(cfg))
  }

  lemma CeilAbove(x: real)
    ensures x <= Ceil(x) as real
    ensures x > 0.0 ==> Ceil(x) >= 1
  {
  }

  lemma ProductGrows(a: real, b: real, rate: real)
    requires a <= b && rate > 0.0
    ensures a * rate <= b * rate
  {
  }

  lemma QuotientTimes(a: real, rate: real)
    requires rate > 0.0 && a >= 1.0
    ensures a / rate * rate == a && a / rate > 0.0
  {
    if a / rate <= 0.0 {
      ProductGrows(a / rate, 0.0, rate);
    }
  }

  /** The rate fills the bucket within the fill time. */
  lemma FillTimeFills(cfg: Config, seconds: int)
    requires cfg.Valid() && seconds >= FillTime(cfg)
    ensures FillTime(cfg) >= 1
    ensures seconds as real * cfg.rate >= cfg.capacity as real
  {
    var quotient := cfg.capacity as real / cfg.rate;
    QuotientTimes(cfg.capacity as real, cfg.rate);
    CeilAbove(quotient);
    ProductGrows(quotient, seconds as real, cfg.rate);
  }

  /** An idle bucket is full after the fill time. */
  lemma FullAfterFillTime(cfg: Config, b: Bucket, now: int)
    requires cfg.Valid() && b.tokens >= 0.0 && now - b.last >= FillTime(cfg)
    ensures FillTime(cfg) >= 1
    ensures Available(cfg, Some(b), now) == cfg.capacity as real
  {
    FillTimeFills(cfg, now - b.last);
    GainedIsProduct(cfg, now - b.last);
  }

  /** Cutting the client's clock to seconds loses nothing over a whole number of seconds. */
  lemma SecondsApart(a: int, b: int, n: int)
    requires b - a >= n * 1000
    ensures Seconds(b) - Seconds(a) >= n
  {
  }

  /** The stored key was written by one of the requests. */
  ghost predicate WrittenBy(cfg: Config, s: Stored, r: Request)
    requires cfg.rate > 0.0
  {
    s.bucket.last == r.Now() && s.expires == r.server + Ttl(cfg)
  }

  /** At the next request an expired bucket and the one that never expires look the same. */
  lemma ExpiredIsFull(cfg: Config, s: Stored, writer: Request, r: Request)
    requires cfg.Valid() && 0.0 <= s.bucket.tokens && WrittenBy(cfg, s, writer) && 1 <= r.cost <= cfg.capacity
    requires (r.server - writer.server) - (r.client - writer.client) <= Tolerated(cfg)
    ensures Available(cfg, Live(Some(s), r.server), r.Now()) == Available(cfg, Some(s.bucket), r.Now())
    ensures Admits(cfg, Live(Some(s), r.server), r.Now(), r.cost) == Admits(cfg, Some(s.bucket), r.Now(), r.cost)
  {
    if r.server > s.expires {
      SecondsApart(writer.client, r.client, FillTime(cfg));
      FullAfterFillTime(cfg, s.bucket, r.Now());
    }
  }

  ghost predicate WrittenByOne(cfg: Config, s: Option<Stored>, requests: seq<Request>)
    requires cfg.rate > 0.0
  {
    s.Some? ==> exists k :: 0 <= k < |requests| && WrittenBy(cfg, s.value, requests[k])
  }

  ghost predicate SameBucket(s: Option<Stored>, b: Option<Bucket>) {
    s.Some? == b.Some? && (s.Some? ==> s.value.bucket == b.value)
  }

  /** One request keeps the expiring key and the one that never expires equal. */
  lemma ExpiryStep(cfg: Config, init: seq<Request>, r: Request)
    requires cfg.Valid() && Sound(cfg, init + [r])
    requires var s := StoredAfter(cfg, init); SameBucket(s, After(cfg, init)) && WrittenByOne(cfg, s, init)
    ensures var s, b := StoredAfter(cfg, init), After(cfg, init);
            && Admits(cfg, Live(s, r.server), r.Now(), r.cost) == Admits(cfg, b, r.Now(), r.cost)
            && Available(cfg, Live(s, r.server), r.Now()) == Available(cfg, b, r.Now())
  {
    assert r in init + [r];
    var s := StoredAfter(cfg, init);
    assert forall q :: q in init ==> q in init + [r];
    TokensInRange(cfg, init);
    if s.Some? {
      var k :| 0 <= k < |init| && WrittenBy(cfg, s.value, init[k]);
      assert (init + [r])[k] == init[k] && (init + [r])[|init|] == r;
      ExpiredIsFull(cfg, s.value, init[k], r);
    }
  }

  lemma SameStep(cfg: Config, s: Option<Stored>, b: Option<Bucket>, r: Request)
    requires cfg.rate > 0.0 && SameBucket(s, b)
    requires Admits(cfg, Live(s, r.server), r.Now(), r.cost) == Admits(cfg, b, r.Now(), r.cost)
    requires Available(cfg, Live(s, r.server), r.Now()) == Available(cfg, b, r.Now())
    ensures var next := NextStored(cfg, s, r.Now(), r.server, r.cost);
            && SameBucket(next, Next(cfg, b, r.Now(), r.cost))
            && (next == s || (next.Some? && WrittenBy(cfg, next.value, r)))
  {
  }

  lemma WrittenLater(cfg: Config, s: Option<Stored>, next: Option<Stored>, init: seq<Request>, r: Request)
    requires cfg.rate > 0.0 && WrittenByOne(cfg, s, init)
    requires next == s || (next.Some? && WrittenBy(cfg, next.value, r))
    ensures WrittenByOne(cfg, next, init + [r])
  {
    if next != s {
      assert (init + [r])[|init|] == r;
    } else if s.Some? {
      var k :| 0 <= k < |init| && WrittenBy(cfg, s.value, init[k]);
      assert (init + [r])[k] == init[k];
    }
  }

  lemma PrefixSound(cfg: Config, init: seq<Request>, r: Request)
    requires cfg.rate > 0.0 && Sound(cfg, init + [r])
    ensures Sound(cfg, init)
  {
    forall q | q in init ensures q in init + [r] {
    }
    forall i, j | 0 <= i < j < |init| ensures (init + [r])[i] == init[i] && (init + [r])[j] == init[j] {
    }
  }

  lemma {:induction false} ExpiryKeepsState(cfg: Config, requests: seq<Request>)
    requires cfg.Valid() && Sound(cfg, requests)
    ensures var s := StoredAfter(cfg, requests); SameBucket(s, After(cfg, requests)) && WrittenByOne(cfg, s, requests)
  {
    if requests != [] {
      var init, r := requests[..|requests| - 1], requests[|requests| - 1];
      assert requests == init + [r];
      PrefixSound(cfg, init, r);
      ExpiryKeepsState(cfg, init);
      ExpiryStep(cfg, init, r);
      SameStep(cfg, StoredAfter(cfg, init), After(cfg, init), r);
      WrittenLater(cfg, StoredAfter(cfg, init), StoredAfter(cfg, requests), init, r);
    }
  }

  /**
   The expiry cannot be observed: as long as the client's clock lags no more than is tolerated, every
   decision, and every number of tokens reported with it, is that of a bucket that never expires.
   */
  lemma ExpiryUnobservable(cfg: Config, requests: seq<Request>, k: nat)
    requires cfg.Valid() && Sound(cfg, requests) && k < |requests|
    ensures var r, b := requests[k], After(cfg, requests[..k]);
            && (Allowed(cfg, requests, k) <==> Admits(cfg, b, r.Now(), r.cost))
            && Available(cfg, Live(StoredAfter(cfg, requests[..k]), r.server), r.Now()) == Available(cfg, b, r.Now())
  {
    var init, r := requests[..k], requests[k];
    assert requests[..k + 1] == init + [r];
    assert forall q :: q in init + [r] ==> q in requests;
    ExpiryKeepsState(cfg, init);
    ExpiryStep(cfg, init, r);
  }

  lemma CeilBelow(x: real)
    ensures (Ceil(x) - 1) as real < x
  {
  }

  lemma ProductGrowsStrictly(a: real, b: real, rate: real)
    requires a < b && rate > 0.0
    ensures a * rate < b * rate
  {
  }

  /** One second before the fill time an emptied bucket is not full yet. */
  lemma NotFullBefore(cfg: Config)
    requires cfg.Valid()
    ensures FillTime(cfg) >= 1
    ensures Available(cfg, Some(Bucket(0.0, 0)), FillTime(cfg) - 1) < cfg.capacity as real
  {
    LastSecondMissing(cfg);
    GainedIsProduct(cfg, FillTime(cfg) - 1);
  }

  /** One second less than the fill time does not fill the bucket. */
  lemma LastSecondMissing(cfg: Config)
    requires cfg.Valid()
    ensures FillTime(cfg) >= 1
    ensures (FillTime(cfg) - 1) as real * cfg.rate < cfg.capacity as real
  {
    var quotient := cfg.capacity as real / cfg.rate;
    QuotientTimes(cfg.capacity as real, cfg.rate);
    CeilAbove(quotient);
    CeilBelow(quotient);
    ProductGrowsStrictly((FillTime(cfg) - 1) as real, quotient, cfg.rate);
  }

  /** Two requests for everything, the second when the key has just gone. */
  ghost function LaggingPair(cfg: Config): seq<Request>
    requires cfg.rate > 0.0
  {
    [Request(0, 0, cfg.capacity), Request(FillTime(cfg) * 1000 - 1, Ttl(cfg) + 1, cfg.capacity)]
  }

  lemma {:induction false} AfterOne(cfg: Config, r: Request)
    requires cfg.rate > 0.0
    ensures After(cfg, [r]) == Some(Bucket(cfg.capacity as real - r.cost as real, r.Now()))
    ensures StoredAfter(cfg, [r])
         == Some(Stored(Bucket(cfg.capacity as real - r.cost as real, r.Now()), r.server + Ttl(cfg)))
  {
    assert [r][..0] == [];
    assert After(cfg, []) == None && StoredAfter(cfg, []) == None;
  }

  /**
   In every configuration one millisecond of lag more can be observed: the expired key gives tokens away
   that the bucket does not have.
   */
  lemma {:induction false} OneMillisecondMoreIsObservable(cfg: Config)
    requires cfg.Valid()
    ensures var requests := LaggingPair(cfg);
            && Affordable(cfg, requests) && LagWithin(requests, Tolerated(cfg) + 1)
            && Allowed(cfg, requests, 1)
            && !Admits(cfg, After(cfg, requests[..1]), requests[1].Now(), requests[1].cost)
  {
    var requests := LaggingPair(cfg);
    assert requests[..1] == [requests[0]];
    AfterOne(cfg, requests[0]);
    NotFullBefore(cfg);
    LastSecond(FillTime(cfg));
  }

  lemma LastSecond(n: int)
    ensures Seconds(n * 1000 - 1) == n - 1
  {
  }

  /** No run whose client clock lags by at most `lag` shows the expiry in a decision. */
  ghost predicate ExpiryHidden(cfg: Config, lag: int)
    requires cfg.rate > 0.0
  {
    forall requests: seq<Request>, k: nat :: Affordable(cfg, requests) && LagWithin(requests, lag) && k < |requests| ==>
      (Allowed(cfg, requests, k) <==> Admits(cfg, After(cfg, requests[..k]), requests[k].Now(), requests[k].cost))
  }

  lemma ToleratedHides(cfg: Config, lag: int)
    requires cfg.Valid() && lag <= Tolerated(cfg)
    ensures ExpiryHidden(cfg, lag)
  {
    forall requests: seq<Request>, k: nat | Affordable(cfg, requests) && LagWithin(requests, lag) && k < |requests|
      ensures Allowed(cfg, requests, k)
         <==> Admits(cfg, After(cfg, requests[..k]), requests[k].Now(), requests[k].cost)
    {
      LagWidens(requests, lag, Tolerated(cfg));
      ExpiryUnobservable(cfg, requests, k);
    }
  }

  lemma MoreShows(cfg: Config, lag: int)
    requires cfg.Valid() && lag > Tolerated(cfg)
    ensures !ExpiryHidden(cfg, lag)
  {
    OneMillisecondMoreIsObservable(cfg);
    LagWidens(LaggingPair(cfg), Tolerated(cfg) + 1, lag);
  }

  lemma ToleratedIs(cfg: Config)
    requires cfg.rate > 0.0
    ensures cfg.life == LIFE ==> Tolerated(cfg) == FillTime(cfg) * 1000 + 1
    ensures cfg.life == 1000 ==> Tolerated(cfg) == 1
  {
  }

  /**
   The tolerated lag, exactly: with the script's factor the fill time and one millisecond, with a factor of one
   that millisecond alone.
   */
  lemma {:induction false} LagToleratedExactly(cfg: Config, lag: int)
    requires cfg.Valid()
    ensures ExpiryHidden(cfg, lag) <==> lag <= Tolerated(cfg)
    ensures cfg.life == LIFE ==> Tolerated(cfg) == FillTime(cfg) * 1000 + 1
    ensures cfg.life == 1000 ==> Tolerated(cfg) == 1
  {
    ToleratedIs(cfg);
    if lag <= Tolerated(cfg) {
      ToleratedHides(cfg, lag);
    } else {
      MoreShows(cfg, lag);
    }
  }

  lemma LagWidens(requests: seq<Request>, lag: int, more: int)
    requires LagWithin(requests, lag) && lag <= more
    ensures LagWithin(requests, more)
  {
  }

  // ---------------------------------------------------------------- lazy and eager refill

  /** A bucket that writes its refill back on a denial too. */
  ghost function EagerNext(cfg: Config, entry: Option<Bucket>, now: int, cost: int): Option<Bucket> {
    var tokens := Available(cfg, entry, now);
    Some(Bucket(if Admits(cfg, entry, now, cost) then tokens - cost as real else tokens, now))
  }

  ghost function EagerAfter(cfg: Config, requests: seq<Request>): Option<Bucket> {
    if requests == [] then None
    else
      var r := requests[|requests| - 1];
      EagerNext(cfg, EagerAfter(cfg, requests[..|requests| - 1]), r.Now(), r.cost)
  }

  ghost predicate Forward(requests: seq<Request>) {
    forall i, j :: 0 <= i < j < |requests| ==> requests[i].Now() <= requests[j].Now()
  }

  /** From `now` on the two entries offer the same tokens. */
  ghost predicate SameFrom(cfg: Config, a: Option<Bucket>, b: Option<Bucket>, now: int) {
    a.Some? == b.Some? && forall later: int :: later >= now ==> Available(cfg, a, later) == Available(cfg, b, later)
  }

  lemma {:induction false} GainedAdds(cfg: Config, a: nat, b: nat)
    ensures Gained(cfg, a + b) == Gained(cfg, a) + Gained(cfg, b)
  {
    if b > 0 {
      GainedAdds(cfg, a, b - 1);
    }
  }

  /** Writing a refill back does not change what later requests find. */
  lemma WriteBack(cfg: Config, b: Bucket, now: int, later: int)
    requires cfg.Valid() && InRange(cfg, Some(b)) && b.last <= now <= later
    ensures Available(cfg, Some(Bucket(Available(cfg, Some(b), now), now)), later) == Available(cfg, Some(b), later)
  {
    GainedAdds(cfg, now - b.last, later - now);
    GainedPositive(cfg, later - now);
    GainedPositive(cfg, now - b.last);
  }

  lemma EagerStep(cfg: Config, lazy: Option<Bucket>, eager: Option<Bucket>, now: int, cost: int)
    requires cfg.Valid() && InRange(cfg, lazy) && (lazy.Some? ==> lazy.value.last <= now) && 1 <= cost <= cfg.capacity
    requires SameFrom(cfg, lazy, eager, now)
    ensures Admits(cfg, lazy, now, cost) == Admits(cfg, eager, now, cost)
    ensures SameFrom(cfg, Next(cfg, lazy, now, cost), EagerNext(cfg, eager, now, cost), now)
  {
    assert Available(cfg, lazy, now) == Available(cfg, eager, now);
    if !Admits(cfg, lazy, now, cost) {
      forall later: int | later >= now
        ensures Available(cfg, lazy, later) == Available(cfg, EagerNext(cfg, eager, now, cost), later)
      {
        WriteBack(cfg, lazy.value, now, later);
      }
    }
  }

  lemma {:induction false} LastWithin(cfg: Config, requests: seq<Request>, now: int)
    requires forall r :: r in requests ==> r.Now() <= now
    ensures var b := After(cfg, requests); b.Some? ==> b.value.last <= now
  {
    if requests != [] {
      LastWithin(cfg, requests[..|requests| - 1], now);
      assert requests[|requests| - 1] in requests;
    }
  }

  lemma {:induction false} EagerAgrees(cfg: Config, requests: seq<Request>, now: int)
    requires cfg.Valid() && Affordable(cfg, requests) && Forward(requests)
    requires forall r :: r in requests ==> r.Now() <= now
    ensures SameFrom(cfg, After(cfg, requests), EagerAfter(cfg, requests), now)
  {
    if requests != [] {
      var init, r := requests[..|requests| - 1], requests[|requests| - 1];
      forall q | q in init ensures q.Now() <= r.Now() {
        var k :| 0 <= k < |init| && init[k] == q;
        assert requests[k] == q;
      }
      EagerAgrees(cfg, init, r.Now());
      TokensInRange(cfg, init);
      LastWithin(cfg, init, r.Now());
      assert r in requests;
      EagerStep(cfg, After(cfg, init), EagerAfter(cfg, init), r.Now(), r.cost);
    }
  }

  /** On a clock that does not go back, leaving a denial unwritten changes no decision. */
  lemma LazyRefillUnobservable(cfg: Config, requests: seq<Request>, k: nat)
    requires cfg.Valid() && Affordable(cfg, requests) && Forward(requests) && k < |requests|
    ensures var r, lazy, eager := requests[k], After(cfg, requests[..k]), EagerAfter(cfg, requests[..k]);
            && (Admits(cfg, lazy, r.Now(), r.cost) <==> Admits(cfg, eager, r.Now(), r.cost))
            && Available(cfg, lazy, r.Now()) == Available(cfg, eager, r.Now())
  {
    EagerAgrees(cfg, requests[..k], requests[k].Now());
  }

  // ---------------------------------------------------------------- the rate bound

  /** How far the client's clock moves forward, in seconds, from request `i` to request `j - 1`. */
  ghost function Climb(requests: seq<Request>, i: nat, j: nat): nat
    requires i < j <= |requests|
  {
    if i + 1 == j then 0
    else
      var step := requests[j - 1].Now() - requests[j - 2].Now();
      Climb(requests, i, j - 1) + if step > 0 then step else 0
  }

  /** Moving the clock adds no more than the rate allows. */
  lemma AvailableGrows(cfg: Config, entry: Option<Bucket>, from: int, to: int)
    requires cfg.Valid() && InRange(cfg, entry)
    ensures Available(cfg, entry, to) <= Available(cfg, entry, from) + Gained(cfg, to - from)
  {
    GainedPositive(cfg, to - from);
    AvailableInRange(cfg, entry, from);
    if entry.Some? && to <= entry.value.last {
      GainedPositive(cfg, from - entry.value.last);
    } else if entry.Some? {
      var last := entry.value.last;
      if from > last {
        GainedPositive(cfg, from - last);
        if to >= from {
          GainedAdds(cfg, from - last, to - from);
        } else {
          GainedAdds(cfg, to - last, from - to);
          GainedPositive(cfg, from - to);
        }
      } else {
        GainedAdds(cfg, to - last, last - from);
        GainedPositive(cfg, last - from);
      }
    }
  }

  lemma Spending(cfg: Config, entry: Option<Bucket>, now: int, cost: int)
    ensures Available(cfg, Next(cfg, entry, now, cost), now)
         == Available(cfg, entry, now) - (if Admits(cfg, entry, now, cost) then cost as real else 0.0)
  {
  }

  lemma PrefixInRange(cfg: Config, requests: seq<Request>, k: nat, now: int)
    requires cfg.Valid() && Affordable(cfg, requests) && k <= |requests|
    ensures InRange(cfg, After(cfg, requests[..k]))
    ensures 0.0 <= Available(cfg, After(cfg, requests[..k]), now) <= cfg.capacity as real
  {
    forall r | r in requests[..k] ensures r in requests {
    }
    TokensInRange(cfg, requests[..k]);
    AvailableInRange(cfg, After(cfg, requests[..k]), now);
  }

  /** Request `k` takes what it spends out of what it finds. */
  ghost predicate Paid(cfg: Config, requests: seq<Request>, k: nat)
    requires cfg.rate > 0.0 && k < |requests|
  {
    var now := requests[k].Now();
    (if Allowed(cfg, requests, k) then requests[k].cost else 0) as real
    + Available(cfg, After(cfg, requests[..k + 1]), now) == Available(cfg, After(cfg, requests[..k]), now)
  }

  lemma EveryRequestPays(cfg: Config, requests: seq<Request>, k: nat)
    requires cfg.Valid() && Sound(cfg, requests) && k < |requests|
    ensures Paid(cfg, requests, k)
  {
    var init, r := requests[..k], requests[k];
    assert requests[..k + 1] == init + [r];
    assert (init + [r])[..k] == init;
    ExpiryUnobservable(cfg, requests, k);
    Spending(cfg, After(cfg, init), r.Now(), r.cost);
  }

  /** What the next request finds is at most what this one left, and what the clock added. */
  lemma FoundLater(cfg: Config, requests: seq<Request>, i: nat, k: nat)
    requires cfg.Valid() && Affordable(cfg, requests) && i < k < |requests|
    ensures Available(cfg, After(cfg, requests[..k]), requests[k].Now()) + Gained(cfg, Climb(requests, i, k))
         <= Available(cfg, After(cfg, requests[..k]), requests[k - 1].Now()) + Gained(cfg, Climb(requests, i, k + 1))
  {
    var from, to := requests[k - 1].Now(), requests[k].Now();
    PrefixInRange(cfg, requests, k, to);
    AvailableGrows(cfg, After(cfg, requests[..k]), from, to);
    GainedAdds(cfg, Climb(requests, i, k), if to > from then to - from else 0);
  }

  lemma SpentSnoc(cfg: Config, requests: seq<Request>, i: nat, k: nat)
    requires cfg.rate > 0.0 && i <= k < |requests|
    ensures Spent(cfg, requests, i, k + 1) as real
         == Spent(cfg, requests, i, k) as real + (if Allowed(cfg, requests, k) then requests[k].cost else 0) as real
  {
  }

  /** What is spent comes out of what was there and what the clock added. */
  ghost predicate Balanced(cfg: Config, requests: seq<Request>, i: nat, j: nat)
    requires cfg.rate > 0.0 && i < j <= |requests|
  {
    Spent(cfg, requests, i, j) as real + Available(cfg, After(cfg, requests[..j]), requests[j - 1].Now())
    <= cfg.capacity as real + Gained(cfg, Climb(requests, i, j))
  }

  lemma BalanceStarts(cfg: Config, requests: seq<Request>, i: nat)
    requires cfg.Valid() && Affordable(cfg, requests) && i < |requests| && Paid(cfg, requests, i)
    ensures Balanced(cfg, requests, i, i + 1)
  {
    PrefixInRange(cfg, requests, i, requests[i].Now());
    SpentSnoc(cfg, requests, i, i);
    assert Spent(cfg, requests, i, i) == 0;
  }

  lemma BalanceGoesOn(cfg: Config, requests: seq<Request>, i: nat, k: nat)
    requires cfg.Valid() && Affordable(cfg, requests) && i < k < |requests|
    requires Balanced(cfg, requests, i, k) && Paid(cfg, requests, k)
    ensures Balanced(cfg, requests, i, k + 1)
  {
    FoundLater(cfg, requests, i, k);
    SpentSnoc(cfg, requests, i, k);
  }

  lemma {:induction false} SpentBalance(cfg: Config, requests: seq<Request>, i: nat, j: nat)
    requires cfg.Valid() && Affordable(cfg, requests) && i < j <= |requests|
    requires forall k :: i <= k < j ==> Paid(cfg, requests, k)
    ensures Balanced(cfg, requests, i, j)
    decreases j
  {
    assert Paid(cfg, requests, j - 1);
    if i + 1 < j {
      SpentBalance(cfg, requests, i, j - 1);
      BalanceGoesOn(cfg, requests, i, j - 1);
    } else {
      BalanceStarts(cfg, requests, i);
    }
  }

  /** In the window the admitted cost is at most the capacity plus the rate times the clock's advance. */
  ghost predicate WithinRate(cfg: Config, requests: seq<Request>, i: nat, j: nat)
    requires cfg.rate > 0.0 && i < j <= |requests|
  {
    Spent(cfg, requests, i, j) as real <= cfg.capacity as real + Gained(cfg, Climb(requests, i, j))
  }

  lemma {:induction false} RateBound(cfg: Config, requests: seq<Request>, i: nat, j: nat)
    requires cfg.Valid() && Sound(cfg, requests) && i < j <= |requests|
    ensures WithinRate(cfg, requests, i, j)
  {
    forall k | i <= k < j ensures Paid(cfg, requests, k) {
      EveryRequestPays(cfg, requests, k);
    }
    SpentBalance(cfg, requests, i, j);
    PrefixInRange(cfg, requests, j, requests[j - 1].Now());
  }

  /** Every window of every run whose client clock lags by at most `lag` keeps the rate. */
  ghost predicate RateKept(cfg: Config, lag: int)
    requires cfg.rate > 0.0
  {
    forall requests: seq<Request>, i: nat, j: nat ::
      Affordable(cfg, requests) && LagWithin(requests, lag) && i < j <= |requests| ==> WithinRate(cfg, requests, i, j)
  }

  lemma PairSpends(cfg: Config, requests: seq<Request>)
    requires cfg.rate > 0.0 && |requests| == 2 && Allowed(cfg, requests, 0) && Allowed(cfg, requests, 1)
    ensures Spent(cfg, requests, 0, 2) == requests[0].cost + requests[1].cost
  {
    SpentSnoc(cfg, requests, 0, 1);
    SpentSnoc(cfg, requests, 0, 0);
    assert Spent(cfg, requests, 0, 0) == 0;
  }

  lemma PairClimbs(requests: seq<Request>)
    requires |requests| == 2 && requests[0].Now() <= requests[1].Now()
    ensures Climb(requests, 0, 2) == requests[1].Now() - requests[0].Now()
  {
    assert Climb(requests, 0, 1) == 0;
  }

  lemma FirstAllowed(cfg: Config, requests: seq<Request>)
    requires cfg.rate > 0.0 && requests != []
    ensures Allowed(cfg, requests, 0)
  {
    assert requests[..0] == [];
    assert StoredAfter(cfg, []) == None;
  }

  /** One millisecond of lag more takes twice the capacity before the clock has added one. */
  lemma {:induction false} LaggingPairSpendsTwice(cfg: Config)
    requires cfg.Valid()
    ensures !WithinRate(cfg, LaggingPair(cfg), 0, 2)
  {
    var requests := LaggingPair(cfg);
    OneMillisecondMoreIsObservable(cfg);
    FirstAllowed(cfg, requests);
    PairSpends(cfg, requests);
    LastSecondMissing(cfg);
    LastSecond(FillTime(cfg));
    PairClimbs(requests);
    GainedIsProduct(cfg, FillTime(cfg) - 1);
  }

  /** The rate is kept in all runs within a lag if and only if that lag is tolerated. */
  lemma {:induction false} RateBoundExactly(cfg: Config, lag: int)
    requires cfg.Valid()
    ensures RateKept(cfg, lag) <==> lag <= Tolerated(cfg)
  {
    if lag <= Tolerated(cfg) {
      forall requests: seq<Request>, i: nat, j: nat
        | Affordable(cfg, requests) && LagWithin(requests, lag) && i < j <= |requests|
        ensures WithinRate(cfg, requests, i, j)
      {
        LagWidens(requests, lag, Tolerated(cfg));
        RateBound(cfg, requests, i, j);
      }
    } else {
      OneMillisecondMoreIsObservable(cfg);
      LagWidens(LaggingPair(cfg), Tolerated(cfg) + 1, lag);
      LaggingPairSpendsTwice(cfg);
    }
  }

  lemma {:induction false} ForwardClimb(requests: seq<Request>, i: nat, j: nat)
    requires Forward(requests) && i < j <= |requests|
    ensures Climb(requests, i, j) == requests[j - 1].Now() - requests[i].Now()
    decreases j
  {
    if i + 1 < j {
      ForwardClimb(requests, i, j - 1);
    }
  }

  lemma GainedMonotone(cfg: Config, a: int, b: int)
    requires cfg.rate > 0.0 && 0 <= a <= b
    ensures Gained(cfg, a) <= Gained(cfg, b)
  {
    GainedAdds(cfg, a, b - a);
    GainedPositive(cfg, b - a);
  }

  /** With a clock that does not go back: at most the capacity plus the rate times the elapsed seconds. */
  lemma {:induction false} ForwardRateBound(cfg: Config, requests: seq<Request>, i: nat, j: nat)
    requires cfg.Valid() && Sound(cfg, requests) && Forward(requests) && i < j <= |requests|
    ensures Spent(cfg, requests, i, j) as real
         <= cfg.capacity as real + Gained(cfg, requests[j - 1].Now() - requests[i].Now())
  {
    ForwardClimb(requests, i, j);
    RateBound(cfg, requests, i, j);
  }

  /** Over real time, cutting the clock to seconds costs at most one second more. */
  lemma {:induction false} RealTimeRateBound(cfg: Config, requests: seq<Request>, i: nat, j: nat)
    requires cfg.Valid() && Sound(cfg, requests) && Forward(requests) && i < j <= |requests|
    ensures var seconds := (requests[j - 1].client - requests[i].client) / 1000 + 1;
            Spent(cfg, requests, i, j) as real <= cfg.capacity as real + Gained(cfg, seconds)
  {
    ForwardRateBound(cfg, requests, i, j);
    var seconds := (requests[j - 1].client - requests[i].client) / 1000 + 1;
    GainedMonotone(cfg, requests[j - 1].Now() - requests[i].Now(), seconds);
  }

  // ---------------------------------------------------------------- what is admitted

  /** On a clock that does not go back, what is found is what was left, and the rate, up to the capacity. */
  lemma FoundForward(cfg: Config, entry: Option<Bucket>, from: int, to: int)
    requires cfg.Valid() && InRange(cfg, entry) && (entry.Some? ==> entry.value.last <= from) && from <= to
    ensures Available(cfg, entry, to) == Capped(cfg, Available(cfg, entry, from) + Gained(cfg, to - from))
  {
    GainedPositive(cfg, to - from);
    if entry.Some? {
      AvailableInRange(cfg, entry, from);
      WriteBack(cfg, entry.value, from, to);
    }
  }

  /** Spending so much at request `k` keeps the rate in the window from request `i` on. */
  ghost predicate FitsWindow(cfg: Config, requests: seq<Request>, i: nat, k: nat, amount: real)
    requires cfg.rate > 0.0 && i <= k < |requests|
  {
    Spent(cfg, requests, i, k) as real + amount
    <= cfg.capacity as real + Gained(cfg, requests[k].Now() - requests[i].Now())
  }

  /** It keeps the rate in every window that ends with request `k`. */
  ghost predicate Fits(cfg: Config, requests: seq<Request>, k: nat, amount: real)
    requires cfg.rate > 0.0 && k < |requests|
  {
    forall i: nat :: i <= k ==> FitsWindow(cfg, requests, i, k, amount)
  }

  ghost function SpentAt(cfg: Config, requests: seq<Request>, k: nat): int
    requires cfg.rate > 0.0 && k < |requests|
  {
    if Allowed(cfg, requests, k) then requests[k].cost else 0
  }

  /** A window of the request before, with what that one spent and the clock has added since. */
  lemma WindowSnoc(cfg: Config, requests: seq<Request>, i: nat, k: nat, amount: real)
    requires cfg.Valid() && i < k < |requests|
    requires requests[i].Now() <= requests[k - 1].Now() <= requests[k].Now()
    ensures var gained := Gained(cfg, requests[k].Now() - requests[k - 1].Now());
            FitsWindow(cfg, requests, i, k, amount)
            <==> FitsWindow(cfg, requests, i, k - 1, amount + SpentAt(cfg, requests, k - 1) as real - gained)
  {
    SpentSnoc(cfg, requests, i, k - 1);
    GainedAdds(cfg, requests[k - 1].Now() - requests[i].Now(), requests[k].Now() - requests[k - 1].Now());
  }

  lemma FitsSnoc(cfg: Config, requests: seq<Request>, k: nat, amount: real, before: real)
    requires cfg.Valid() && Forward(requests) && 0 < k < |requests|
    requires before == amount + SpentAt(cfg, requests, k - 1) as real
                       - Gained(cfg, requests[k].Now() - requests[k - 1].Now())
    ensures Fits(cfg, requests, k, amount)
       <==> amount <= cfg.capacity as real && Fits(cfg, requests, k - 1, before)
  {
    FitsOwn(cfg, requests, k, amount);
    var j := k - 1;
    if Fits(cfg, requests, k, amount) {
      assert FitsWindow(cfg, requests, k, k, amount);
      forall i: nat | i <= j ensures FitsWindow(cfg, requests, i, j, before) {
        assert FitsWindow(cfg, requests, i, k, amount);
        WindowSnoc(cfg, requests, i, k, amount);
      }
    }
    if amount <= cfg.capacity as real && Fits(cfg, requests, j, before) {
      forall i: nat | i <= k ensures FitsWindow(cfg, requests, i, k, amount) {
        if i < k {
          assert FitsWindow(cfg, requests, i, j, before);
          WindowSnoc(cfg, requests, i, k, amount);
        }
      }
    }
  }

  /** The window of the request alone. */
  lemma FitsOwn(cfg: Config, requests: seq<Request>, k: nat, amount: real)
    requires cfg.rate > 0.0 && k < |requests|
    ensures FitsWindow(cfg, requests, k, k, amount) <==> amount <= cfg.capacity as real
  {
  }

  lemma LastBefore(cfg: Config, requests: seq<Request>, k: nat)
    requires Forward(requests) && 0 < k < |requests|
    ensures var b := After(cfg, requests[..k]); b.Some? ==> b.value.last <= requests[k - 1].Now()
  {
    forall r | r in requests[..k] ensures r.Now() <= requests[k - 1].Now() {
      var i :| 0 <= i < k && requests[..k][i] == r;
    }
    LastWithin(cfg, requests[..k], requests[k - 1].Now());
  }

  lemma FoundSnoc(cfg: Config, requests: seq<Request>, k: nat, amount: real, before: real)
    requires cfg.Valid() && Sound(cfg, requests) && Forward(requests) && 0 < k < |requests|
    requires before == amount + SpentAt(cfg, requests, k - 1) as real
                       - Gained(cfg, requests[k].Now() - requests[k - 1].Now())
    ensures amount <= Available(cfg, After(cfg, requests[..k]), requests[k].Now())
       <==> && amount <= cfg.capacity as real
            && before <= Available(cfg, After(cfg, requests[..k - 1]), requests[k - 1].Now())
  {
    EveryRequestPays(cfg, requests, k - 1);
    LastBefore(cfg, requests, k);
    PrefixInRange(cfg, requests, k, requests[k].Now());
    FoundForward(cfg, After(cfg, requests[..k]), requests[k - 1].Now(), requests[k].Now());
  }

  /** What a request finds is the most that keeps the rate in every window. */
  lemma {:induction false} FoundIsWhatFits(cfg: Config, requests: seq<Request>, k: nat, amount: real)
    requires cfg.Valid() && Sound(cfg, requests) && Forward(requests) && k < |requests|
    ensures amount <= Available(cfg, After(cfg, requests[..k]), requests[k].Now()) <==> Fits(cfg, requests, k, amount)
    decreases k
  {
    if k == 0 {
      FitsOwn(cfg, requests, 0, amount);
    } else {
      var before := amount + SpentAt(cfg, requests, k - 1) as real
                    - Gained(cfg, requests[k].Now() - requests[k - 1].Now());
      FoundIsWhatFits(cfg, requests, k - 1, before);
      FitsSnoc(cfg, requests, k, amount, before);
      FoundSnoc(cfg, requests, k, amount, before);
    }
  }

  lemma {:induction false} SomeAfterFirst(cfg: Config, requests: seq<Request>)
    ensures After(cfg, requests).None? <==> requests == []
  {
    if requests != [] {
      SomeAfterFirst(cfg, requests[..|requests| - 1]);
    }
  }

  /**
   On a client clock that does not go back a request is admitted if and only if that keeps the rate: it is denied
   exactly when its cost would break the bound in some window that ends with it.
   */
  lemma {:induction false} AdmittedExactly(cfg: Config, requests: seq<Request>, k: nat)
    requires cfg.Valid() && Sound(cfg, requests) && Forward(requests) && k < |requests|
    ensures Allowed(cfg, requests, k)
       <==> forall i: nat :: i <= k ==>
              Spent(cfg, requests, i, k) as real + requests[k].cost as real
              <= cfg.capacity as real + Gained(cfg, requests[k].Now() - requests[i].Now())
  {
    assert requests[k] in requests;
    ExpiryUnobservable(cfg, requests, k);
    FoundIsWhatFits(cfg, requests, k, requests[k].cost as real);
    SomeAfterFirst(cfg, requests[..k]);
    assert forall i: nat :: i <= k ==> (FitsWindow(cfg, requests, i, k, requests[k].cost as real) <==>
              Spent(cfg, requests, i, k) as real + requests[k].cost as real
              <= cfg.capacity as real + Gained(cfg, requests[k].Now() - requests[i].Now()));
  }

  /** What is reported is what can still be spent in the same second. */
  lemma RemainingIsSpendable(cfg: Config, entry: Option<Bucket>, now: int, cost: int, more: int)
    requires cost >= 1 && more >= 1
    ensures var admitted := Admits(cfg, entry, now, cost);
            var left := Available(cfg, entry, now) - (if admitted then cost as real else 0.0);
            Admits(cfg, Next(cfg, entry, now, cost), now, more) <==> more <= Truncate(left)
  {
  }
}
