/** The per-IP token bucket. Time is in seconds as a real number; a clock that does not go
    backwards is what holding the map's lock while reading the clock gives. */
module RateLimiter {
  type Ip = int

  const EVICT_ABOVE := 10_000
  const IDLE_SECS := 600.0

  datatype Bucket = Bucket(tokens: real, last: real)
  datatype Request = Request(ip: Ip, at: real)

  function Min(a: real, b: real): real { if a < b then a else b }

  /** Seconds from `last` to `now`, zero if the clock reads earlier. */
  function Since(now: real, last: real): real { if now < last then 0.0 else now - last }

  function Effective(rate: nat): nat { if rate < 1 then 1 else rate }

  function Capacity(rate: nat): real { Effective(rate) as real }

  function RefillPerSec(rate: nat): real { Capacity(rate) / 60.0 }

  function Evict(buckets: map<Ip, Bucket>, now: real): map<Ip, Bucket> {
    map ip | ip in buckets && Since(now, buckets[ip].last) < IDLE_SECS :: buckets[ip]
  }

  /** The bucket a request finds, refilled up to the capacity. */
  function Refilled(rate: nat, buckets: map<Ip, Bucket>, r: Request): real {
    var b := if r.ip in buckets then buckets[r.ip] else Bucket(Capacity(rate), r.at);
    Min(b.tokens + Gain(rate, Since(r.at, b.last)), Capacity(rate))
  }

  function Allows(rate: nat, buckets: map<Ip, Bucket>, r: Request): bool {
    Refilled(rate, buckets, r) >= 1.0
  }

  function Charge(rate: nat, buckets: map<Ip, Bucket>, r: Request): map<Ip, Bucket> {
    var t := Refilled(rate, buckets, r);
    buckets[r.ip := Bucket(if t >= 1.0 then t - 1.0 else t, r.at)]
  }

  /** What `check` leaves behind before it charges the request. */
  function Trim(buckets: map<Ip, Bucket>, now: real): map<Ip, Bucket> {
    if |buckets| > EVICT_ABOVE then Evict(buckets, now) else buckets
  }

  class Limiter {
    var buckets: map<Ip, Bucket>
    const rate: nat
    const capacity: real
    const refillPerSec: real

    predicate Valid()
      reads this
    {
      capacity == Capacity(rate) && refillPerSec == RefillPerSec(rate)
    }

    constructor PerMinute(rate: nat)
      ensures Valid() && this.rate == rate && buckets == map[]
    {
      this.rate := rate;
      capacity := (if rate < 1 then 1 else rate) as real;
      refillPerSec := (if rate < 1 then 1 else rate) as real / 60.0;
      buckets := map[];
    }

    method Check(ip: Ip, now: real) returns (allowed: bool)
      requires Valid()
      modifies this
      ensures Valid()
      ensures allowed == Allows(rate, Trim(old(buckets), now), Request(ip, now))
      ensures buckets == Charge(rate, Trim(old(buckets), now), Request(ip, now))
    {
      if |buckets| > EVICT_ABOVE {
        buckets := map i | i in buckets && Since(now, buckets[i].last) < IDLE_SECS :: buckets[i];
      }
      if ip !in buckets {
        buckets := buckets[ip := Bucket(capacity, now)];
      }
      var elapsed := Since(now, buckets[ip].last);
      var tokens := Min(buckets[ip].tokens + elapsed * refillPerSec, capacity);
      ghost var kept := Trim(old(buckets), now);
      assert tokens == Refilled(rate, kept, Request(ip, now));
      ghost var goal := Charge(rate, kept, Request(ip, now));
      assert goal == buckets[ip := goal[ip]];
      if tokens >= 1.0 {
        buckets := buckets[ip := Bucket(tokens - 1.0, now)];
        allowed := true;
      } else {
        buckets := buckets[ip := Bucket(tokens, now)];
        allowed := false;
      }
    }

    /** A run of requests, with the decision for each. */
    method CheckAll(rs: seq<Request>) returns (decisions: seq<bool>)
      requires Valid()
      modifies this
      ensures Valid() && decisions == Decisions(rate, old(buckets), rs)
    {
      decisions := [];
      var n := 0;
      assert rs[0..] == rs;
      while n < |rs|
        invariant n <= |rs| && Valid()
        invariant decisions + Decisions(rate, buckets, rs[n..]) == Decisions(rate, old(buckets), rs)
      {
        ghost var found := buckets;
        var d := Check(rs[n].ip, rs[n].at);
        NextDecision(rate, found, rs, n, decisions);
        decisions := decisions + [d];
        n := n + 1;
      }
      assert Decisions(rate, buckets, rs[n..]) == [];
    }
  }

  // ---------- runs ----------

  function Decisions(rate: nat, buckets: map<Ip, Bucket>, rs: seq<Request>): seq<bool>
    decreases |rs|
  {
    if rs == [] then [] else
    var kept := Trim(buckets, rs[0].at);
    [Allows(rate, kept, rs[0])] + Decisions(rate, Charge(rate, kept, rs[0]), rs[1..])
  }

  lemma NextDecision(rate: nat, buckets: map<Ip, Bucket>, rs: seq<Request>, n: nat, before: seq<bool>)
    requires n < |rs|
    ensures var kept := Trim(buckets, rs[n].at);
      before + Decisions(rate, buckets, rs[n..]) ==
      before + [Allows(rate, kept, rs[n])] + Decisions(rate, Charge(rate, kept, rs[n]), rs[n + 1..])
  {
    assert rs[n..][0] == rs[n] && rs[n..][1..] == rs[n + 1..];
  }

  /** The same limiter without eviction. */
  function DecisionsKeepingAll(rate: nat, buckets: map<Ip, Bucket>, rs: seq<Request>): seq<bool>
    decreases |rs|
  {
    if rs == [] then [] else
    [Allows(rate, buckets, rs[0])] + DecisionsKeepingAll(rate, Charge(rate, buckets, rs[0]), rs[1..])
  }

  predicate Monotone(from: real, rs: seq<Request>)
    decreases |rs|
  {
    rs == [] || (from <= rs[0].at && Monotone(rs[0].at, rs[1..]))
  }

  predicate Sane(rate: nat, buckets: map<Ip, Bucket>, now: real) {
    forall ip :: ip in buckets ==> 0.0 <= buckets[ip].tokens <= Capacity(rate) && buckets[ip].last <= now
  }

  /** Tokens gained in `secs` seconds. */
  function Gain(rate: nat, secs: real): real { secs * RefillPerSec(rate) }

  lemma GainMonotone(rate: nat, x: real, y: real)
    requires x <= y
    ensures Gain(rate, x) <= Gain(rate, y)
    ensures 0.0 <= x ==> 0.0 <= Gain(rate, x)
  {
  }

  lemma GainAdds(rate: nat, x: real, y: real)
    ensures Gain(rate, x + y) == Gain(rate, x) + Gain(rate, y)
  {
  }

  lemma ChargeSane(rate: nat, buckets: map<Ip, Bucket>, now: real, r: Request)
    requires Sane(rate, buckets, now) && now <= r.at
    ensures Sane(rate, Charge(rate, buckets, r), r.at)
    ensures 0.0 <= Refilled(rate, buckets, r) <= Capacity(rate)
  {
    if r.ip in buckets {
      GainMonotone(rate, 0.0, r.at - buckets[r.ip].last);
    }
  }

  // ---------- eviction cannot be observed ----------

  /** What `ip` would find in its bucket at time `now`. */
  function Worth(rate: nat, buckets: map<Ip, Bucket>, ip: Ip, now: real): real {
    if ip in buckets then Min(buckets[ip].tokens + Gain(rate, now - buckets[ip].last), Capacity(rate))
    else Capacity(rate)
  }

  /** The evicting limiter has dropped a bucket only if it would by now be full. */
  ghost predicate Mirrors(rate: nat, evicting: map<Ip, Bucket>, full: map<Ip, Bucket>, now: real) {
    forall ip ::
      && (ip in evicting ==> ip in full && evicting[ip] == full[ip])
      && (ip !in evicting ==> Worth(rate, full, ip, now) == Capacity(rate))
  }

  /** Ten idle minutes refill any bucket. */
  lemma IdleIsFull(rate: nat, b: Bucket, now: real)
    requires b.tokens >= 0.0 && now - b.last >= IDLE_SECS
    ensures b.tokens + Gain(rate, now - b.last) >= Capacity(rate)
  {
    GainMonotone(rate, IDLE_SECS, now - b.last);
  }

  lemma WorthLater(rate: nat, buckets: map<Ip, Bucket>, ip: Ip, now: real, later: real)
    requires now <= later
    ensures Worth(rate, buckets, ip, now) <= Worth(rate, buckets, ip, later)
            <= Worth(rate, buckets, ip, now) + Gain(rate, later - now)
  {
    GainMonotone(rate, 0.0, later - now);
    if ip in buckets {
      GainAdds(rate, now - buckets[ip].last, later - now);
    }
  }

  lemma MirrorsTrim(rate: nat, evicting: map<Ip, Bucket>, full: map<Ip, Bucket>, now: real, later: real)
    requires Mirrors(rate, evicting, full, now) && Sane(rate, full, now) && now <= later
    ensures Mirrors(rate, Trim(evicting, later), full, later)
  {
    var kept := Trim(evicting, later);
    forall ip | ip !in kept ensures Worth(rate, full, ip, later) == Capacity(rate) {
      WorthLater(rate, full, ip, now, later);
      if ip in evicting { IdleIsFull(rate, full[ip], later); }
    }
  }

  lemma EvictionStep(rate: nat, evicting: map<Ip, Bucket>, full: map<Ip, Bucket>, r: Request)
    requires Mirrors(rate, evicting, full, r.at) && Sane(rate, full, r.at)
    ensures Refilled(rate, evicting, r) == Refilled(rate, full, r) == Worth(rate, full, r.ip, r.at)
    ensures Mirrors(rate, Charge(rate, evicting, r), Charge(rate, full, r), r.at)
  {
  }

  lemma {:induction false} EvictionRun(rate: nat, evicting: map<Ip, Bucket>, full: map<Ip, Bucket>, now: real, rs: seq<Request>)
    requires Mirrors(rate, evicting, full, now) && Sane(rate, full, now) && Monotone(now, rs)
    ensures Decisions(rate, evicting, rs) == DecisionsKeepingAll(rate, full, rs)
    decreases |rs|
  {
    if rs != [] {
      var r := rs[0];
      var kept := Trim(evicting, r.at);
      MirrorsTrim(rate, evicting, full, now, r.at);
      EvictionStep(rate, kept, full, r);
      ChargeSane(rate, full, now, r);
      EvictionRun(rate, Charge(rate, kept, r), Charge(rate, full, r), r.at, rs[1..]);
    }
  }

  /** On every run the limiter with eviction decides exactly as one that keeps all buckets. */
  lemma EvictionIsUnobservable(rate: nat, start: real, rs: seq<Request>)
    requires Monotone(start, rs)
    ensures Decisions(rate, map[], rs) == DecisionsKeepingAll(rate, map[], rs)
  {
    EvictionRun(rate, map[], map[], start, rs);
  }

  // ---------- how many requests get through ----------

  function Allowed(ip: Ip, rs: seq<Request>, ds: seq<bool>): nat
    requires |rs| <= |ds|
  {
    if rs == [] then 0 else (if rs[0].ip == ip && ds[0] then 1 else 0) + Allowed(ip, rs[1..], ds[1..])
  }

  lemma {:induction false} DecisionsLength(rate: nat, buckets: map<Ip, Bucket>, rs: seq<Request>)
    ensures |DecisionsKeepingAll(rate, buckets, rs)| == |rs|
    decreases |rs|
  {
    if rs != [] { DecisionsLength(rate, Charge(rate, buckets, rs[0]), rs[1..]); }
  }

  /** A request that gets through uses up one token; the clock brings at most `Gain`. */
  lemma WorthAfter(rate: nat, buckets: map<Ip, Bucket>, ip: Ip, now: real, r: Request)
    requires Sane(rate, buckets, now) && now <= r.at
    ensures Worth(rate, Charge(rate, buckets, r), ip, r.at) + (if r.ip == ip && Allows(rate, buckets, r) then 1.0 else 0.0)
            <= Worth(rate, buckets, ip, now) + Gain(rate, r.at - now)
  {
    WorthLater(rate, buckets, ip, now, r.at);
    ChargeSane(rate, buckets, now, r);
    if r.ip == ip {
      assert Refilled(rate, buckets, r) == Worth(rate, buckets, ip, r.at);
      assert Gain(rate, r.at - r.at) == 0.0;
    }
  }

  lemma {:induction false} SpentFrom(rate: nat, buckets: map<Ip, Bucket>, ip: Ip, now: real, rs: seq<Request>, n: nat, end: real)
    requires Sane(rate, buckets, now) && Monotone(now, rs) && n <= |rs|
    requires if n == 0 then end == now else end == rs[n - 1].at
    requires |DecisionsKeepingAll(rate, buckets, rs)| == |rs|
    ensures now <= end
    ensures Allowed(ip, rs[..n], DecisionsKeepingAll(rate, buckets, rs)) as real
            <= Worth(rate, buckets, ip, now) + Gain(rate, end - now)
    decreases n
  {
    var ds := DecisionsKeepingAll(rate, buckets, rs);
    if n == 0 {
      if ip in buckets { GainMonotone(rate, 0.0, now - buckets[ip].last); }
    } else {
      var r, rest := rs[0], rs[1..];
      var next := Charge(rate, buckets, r);
      ChargeSane(rate, buckets, now, r);
      WorthAfter(rate, buckets, ip, now, r);
      assert ds[1..] == DecisionsKeepingAll(rate, next, rest);
      assert rs[..n][1..] == rest[..n - 1];
      SpentFrom(rate, next, ip, r.at, rest, n - 1, end);
      GainAdds(rate, end - r.at, r.at - now);
    }
  }

  /** The same for a stretch of the run that starts at request `i`. */
  lemma {:induction false} SpentBetween(rate: nat, buckets: map<Ip, Bucket>, ip: Ip, now: real, rs: seq<Request>, i: nat, j: nat)
    requires Sane(rate, buckets, now) && Monotone(now, rs) && i < j <= |rs|
    requires |DecisionsKeepingAll(rate, buckets, rs)| == |rs|
    ensures Allowed(ip, rs[i..j], DecisionsKeepingAll(rate, buckets, rs)[i..]) as real
            <= Capacity(rate) + Gain(rate, rs[j - 1].at - rs[i].at)
    decreases i
  {
    var ds := DecisionsKeepingAll(rate, buckets, rs);
    if i == 0 {
      assert Sane(rate, buckets, rs[0].at) && Monotone(rs[0].at, rs);
      assert ds[0..] == ds && rs[0..j] == rs[..j];
      SpentFrom(rate, buckets, ip, rs[0].at, rs, j, rs[j - 1].at);
    } else {
      var next := Charge(rate, buckets, rs[0]);
      ChargeSane(rate, buckets, now, rs[0]);
      assert ds[1..] == DecisionsKeepingAll(rate, next, rs[1..]);
      assert ds[1..][i - 1..] == ds[i..];
      assert rs[1..][i - 1..j - 1] == rs[i..j];
      SpentBetween(rate, next, ip, rs[0].at, rs[1..], i - 1, j - 1);
    }
  }

  /** In any stretch of any run, one address gets at most `rate + rate * T / 60` requests
      through, T being the seconds the stretch spans. */
  lemma ThroughputBound(rate: nat, start: real, rs: seq<Request>, ip: Ip, i: nat, j: nat)
    requires Monotone(start, rs) && i < j <= |rs|
    ensures |Decisions(rate, map[], rs)| == |rs|
    ensures Allowed(ip, rs[i..j], Decisions(rate, map[], rs)[i..]) as real
            <= Capacity(rate) + Gain(rate, rs[j - 1].at - rs[i].at)
  {
    EvictionIsUnobservable(rate, start, rs);
    DecisionsLength(rate, map[], rs);
    SpentBetween(rate, map[], ip, start, rs, i, j);
  }

  // ---------- who is never refused ----------

  /** A bucket last used 60/rate seconds ago holds a token. */
  lemma RestedHasToken(rate: nat, buckets: map<Ip, Bucket>, now: real, r: Request)
    requires Sane(rate, buckets, now)
    requires r.ip in buckets ==> r.at - buckets[r.ip].last >= 60.0 / Capacity(rate)
    ensures Allows(rate, buckets, r)
  {
    if r.ip in buckets {
      GainMonotone(rate, 60.0 / Capacity(rate), r.at - buckets[r.ip].last);
      assert Gain(rate, 60.0 / Capacity(rate)) == 1.0;
    }
  }

  predicate SpacedBehind(rs: seq<Request>, n: nat, gap: real)
    requires n < |rs|
  {
    forall m :: 0 <= m < n && rs[m].ip == rs[n].ip ==> rs[n].at - rs[m].at >= gap
  }

  lemma {:induction false} SpacedFrom(rate: nat, buckets: map<Ip, Bucket>, now: real, rs: seq<Request>, n: nat, gap: real)
    requires Sane(rate, buckets, now) && Monotone(now, rs) && n < |rs| && gap == 60.0 / Capacity(rate)
    requires rs[n].ip in buckets ==> rs[n].at - buckets[rs[n].ip].last >= gap
    requires SpacedBehind(rs, n, gap)
    ensures |DecisionsKeepingAll(rate, buckets, rs)| == |rs| && DecisionsKeepingAll(rate, buckets, rs)[n]
    decreases n
  {
    DecisionsLength(rate, buckets, rs);
    if n == 0 {
      RestedHasToken(rate, buckets, now, rs[0]);
    } else {
      ChargeSane(rate, buckets, now, rs[0]);
      assert forall m :: 0 <= m < |rs[1..]| ==> rs[1..][m] == rs[m + 1];
      SpacedFrom(rate, Charge(rate, buckets, rs[0]), rs[0].at, rs[1..], n - 1, gap);
    }
  }

  /** A request at least 60/rate seconds after each earlier one from its address gets through,
      whatever other addresses do. */
  lemma SpacedIsNeverRefused(rate: nat, start: real, rs: seq<Request>, n: nat)
    requires Monotone(start, rs) && n < |rs|
    requires SpacedBehind(rs, n, 60.0 / Effective(rate) as real)
    ensures |Decisions(rate, map[], rs)| == |rs| && Decisions(rate, map[], rs)[n]
  {
    EvictionIsUnobservable(rate, start, rs);
    SpacedFrom(rate, map[], start, rs, n, 60.0 / Capacity(rate));
  }

  // ---------- exactly who is refused ----------

  /** The tokens request `n` finds. */
  function Tokens(rate: nat, buckets: map<Ip, Bucket>, rs: seq<Request>, n: nat): real
    requires n < |rs|
    decreases n
  {
    if n == 0 then Refilled(rate, buckets, rs[0])
    else Tokens(rate, Charge(rate, buckets, rs[0]), rs[1..], n - 1)
  }

  lemma {:induction false} DecidedByTokens(rate: nat, buckets: map<Ip, Bucket>, rs: seq<Request>, n: nat)
    requires n < |rs|
    ensures |DecisionsKeepingAll(rate, buckets, rs)| == |rs|
    ensures DecisionsKeepingAll(rate, buckets, rs)[n] <==> Tokens(rate, buckets, rs, n) >= 1.0
    decreases n
  {
    DecisionsLength(rate, buckets, rs);
    if n > 0 { DecidedByTokens(rate, Charge(rate, buckets, rs[0]), rs[1..], n - 1); }
  }

  lemma WorthRefills(rate: nat, buckets: map<Ip, Bucket>, ip: Ip, now: real, later: real)
    requires now <= later
    ensures Worth(rate, buckets, ip, later) == Min(Worth(rate, buckets, ip, now) + Gain(rate, later - now), Capacity(rate))
  {
    GainMonotone(rate, 0.0, later - now);
    if ip in buckets { GainAdds(rate, now - buckets[ip].last, later - now); }
  }

  lemma WorthCharged(rate: nat, buckets: map<Ip, Bucket>, ip: Ip, now: real, r: Request)
    requires Sane(rate, buckets, now) && now <= r.at
    ensures Refilled(rate, buckets, r) == Worth(rate, buckets, r.ip, r.at)
    ensures Worth(rate, Charge(rate, buckets, r), ip, r.at) ==
      Worth(rate, buckets, ip, r.at) - if r.ip == ip && Allows(rate, buckets, r) then 1.0 else 0.0
  {
    ChargeSane(rate, buckets, now, r);
    assert Gain(rate, r.at - r.at) == 0.0;
  }

  /** What the bound of the stretch from request `m` leaves for request `n`. */
  function Room(rate: nat, rs: seq<Request>, ds: seq<bool>, m: nat, n: nat): real
    requires m <= n < |rs| && |rs| == |ds|
  {
    Capacity(rate) + Gain(rate, rs[n].at - rs[m].at) - Allowed(rs[n].ip, rs[m..n], ds[m..]) as real
  }

  /** The same for a bucket worth `worth` at time `from`, before the first request. */
  function RoomFrom(rate: nat, worth: real, from: real, rs: seq<Request>, ds: seq<bool>, n: nat): real
    requires n < |rs| && |rs| == |ds|
  {
    worth + Gain(rate, rs[n].at - from) - Allowed(rs[n].ip, rs[..n], ds) as real
  }

  lemma RoomShifts(rate: nat, rs: seq<Request>, ds: seq<bool>, m: nat, n: nat)
    requires 1 <= m <= n < |rs| && |rs| == |ds|
    ensures Room(rate, rs, ds, m, n) == Room(rate, rs[1..], ds[1..], m - 1, n - 1)
  {
    assert rs[1..][m - 1..n - 1] == rs[m..n] && ds[1..][m - 1..] == ds[m..];
  }

  lemma AllowedHead(ip: Ip, rs: seq<Request>, ds: seq<bool>, n: nat)
    requires 1 <= n <= |rs| && |rs| == |ds|
    ensures Allowed(ip, rs[..n], ds) == Allowed(ip, rs[1..][..n - 1], ds[1..]) + if rs[0].ip == ip && ds[0] then 1 else 0
  {
    assert rs[..n][1..] == rs[1..][..n - 1];
  }

  /** The first request of the address leaves no more room than a full bucket before it. */
  lemma {:induction false} FirstRoom(rate: nat, from: real, rs: seq<Request>, ds: seq<bool>, n: nat) returns (m: nat)
    requires n < |rs| && |rs| == |ds| && Monotone(from, rs)
    ensures m <= n && rs[m].ip == rs[n].ip
    ensures Room(rate, rs, ds, m, n) <= RoomFrom(rate, Capacity(rate), from, rs, ds, n)
    decreases n
  {
    if rs[0].ip == rs[n].ip {
      m := 0;
      assert rs[0..n] == rs[..n] && ds[0..] == ds;
      GainMonotone(rate, rs[n].at - rs[0].at, rs[n].at - from);
    } else {
      m := FirstRoom(rate, from, rs[1..], ds[1..], n - 1);
      m := m + 1;
      RoomShifts(rate, rs, ds, m, n);
      AllowedHead(rs[n].ip, rs, ds, n);
    }
  }

  /** One request: the room its bucket's worth leaves is the lesser of what it left before and,
      for a request of the same address, of what a full bucket leaves from here. */
  lemma RoomNext(rate: nat, buckets: map<Ip, Bucket>, now: real, rs: seq<Request>, n: nat)
    requires Sane(rate, buckets, now) && Monotone(now, rs) && 1 <= n < |rs|
    requires |DecisionsKeepingAll(rate, buckets, rs)| == |rs|
    ensures var ds, next, ip := DecisionsKeepingAll(rate, buckets, rs), Charge(rate, buckets, rs[0]), rs[n].ip;
      RoomFrom(rate, Worth(rate, next, ip, rs[0].at), rs[0].at, rs[1..], ds[1..], n - 1) ==
      Min(RoomFrom(rate, Worth(rate, buckets, ip, now), now, rs, ds, n), FullFrom(rate, rs, ds, n))
  {
    var ds, ip := DecisionsKeepingAll(rate, buckets, rs), rs[n].ip;
    WorthRefills(rate, buckets, ip, now, rs[0].at);
    WorthCharged(rate, buckets, ip, now, rs[0]);
    AllowedHead(ip, rs, ds, n);
    GainAdds(rate, rs[0].at - now, rs[n].at - rs[0].at);
  }

  /** What a full bucket at the first request leaves. */
  function FullFrom(rate: nat, rs: seq<Request>, ds: seq<bool>, n: nat): real
    requires n < |rs| && |rs| == |ds|
  {
    RoomFrom(rate, Capacity(rate), rs[0].at, rs, ds, n)
  }

  /** The tokens a request finds are the least room any stretch leaves for it. */
  lemma {:induction false} LeastRoom(rate: nat, buckets: map<Ip, Bucket>, now: real, rs: seq<Request>, n: nat)
    requires Sane(rate, buckets, now) && Monotone(now, rs) && n < |rs|
    requires |DecisionsKeepingAll(rate, buckets, rs)| == |rs|
    ensures var ds, t := DecisionsKeepingAll(rate, buckets, rs), Tokens(rate, buckets, rs, n);
      var own := RoomFrom(rate, Worth(rate, buckets, rs[n].ip, now), now, rs, ds, n);
      && t <= own
      && (forall m :: 0 <= m <= n && rs[m].ip == rs[n].ip ==> t <= Room(rate, rs, ds, m, n))
      && (t == own || exists m :: 0 <= m <= n && rs[m].ip == rs[n].ip && t == Room(rate, rs, ds, m, n))
    decreases n
  {
    var ds, t, ip := DecisionsKeepingAll(rate, buckets, rs), Tokens(rate, buckets, rs, n), rs[n].ip;
    if n == 0 {
      WorthRefills(rate, buckets, ip, now, rs[0].at);
      WorthCharged(rate, buckets, ip, now, rs[0]);
      assert Gain(rate, rs[0].at - rs[0].at) == 0.0;
      assert Room(rate, rs, ds, 0, 0) == Capacity(rate);
    } else {
      var next, rest, ds' := Charge(rate, buckets, rs[0]), rs[1..], ds[1..];
      ChargeSane(rate, buckets, now, rs[0]);
      assert ds' == DecisionsKeepingAll(rate, next, rest);
      LeastRoom(rate, next, rs[0].at, rest, n - 1);
      RoomNext(rate, buckets, now, rs, n);
      forall m | 1 <= m <= n && rs[m].ip == ip ensures t <= Room(rate, rs, ds, m, n) {
        RoomShifts(rate, rs, ds, m, n);
        assert rest[m - 1] == rs[m];
      }
      assert rs[0..n] == rs[..n] && ds[0..] == ds;
      assert rs[0].ip == ip ==> Room(rate, rs, ds, 0, n) == FullFrom(rate, rs, ds, n);
      if t != RoomFrom(rate, Worth(rate, next, ip, rs[0].at), rs[0].at, rest, ds', n - 1) {
        var m' :| 0 <= m' <= n - 1 && rest[m'].ip == ip && t == Room(rate, rest, ds', m', n - 1);
        RoomShifts(rate, rs, ds, m' + 1, n);
        assert rs[m' + 1].ip == ip;
      } else if t == FullFrom(rate, rs, ds, n) {
        var m := FirstRoom(rate, rs[0].at, rs, ds, n);
        assert t == Room(rate, rs, ds, m, n);
      }
    }
  }

  lemma RefusedIffNoRoom(rate: nat, start: real, rs: seq<Request>, n: nat)
    requires Monotone(start, rs) && n < |rs|
    ensures |Decisions(rate, map[], rs)| == |rs|
    ensures var ds := Decisions(rate, map[], rs);
      !ds[n] <==> (exists m :: 0 <= m <= n && rs[m].ip == rs[n].ip && Room(rate, rs, ds, m, n) < 1.0)
  {
    EvictionIsUnobservable(rate, start, rs);
    DecidedByTokens(rate, map[], rs, n);
    LeastRoom(rate, map[], start, rs, n);
    var first := FirstRoom(rate, start, rs, Decisions(rate, map[], rs), n);
  }

  lemma RoomIs(rate: nat, rs: seq<Request>, ds: seq<bool>, m: nat, n: nat)
    requires m <= n < |rs| && |rs| == |ds|
    ensures var c := (if rate < 1 then 1 else rate) as real;
      Room(rate, rs, ds, m, n) < 1.0 <==>
      Allowed(rs[n].ip, rs[m..n], ds[m..]) as real + 1.0 > c + (rs[n].at - rs[m].at) * c / 60.0
  {
  }

  /** The exact law: a request is refused if and only if letting it through would break the
      bound of some stretch that starts at a request of its address and ends with it. */
  lemma RefusedIffBoundBreaks(rate: nat, start: real, rs: seq<Request>, n: nat)
    requires Monotone(start, rs) && n < |rs|
    ensures |Decisions(rate, map[], rs)| == |rs|
    ensures var ds, c := Decisions(rate, map[], rs), (if rate < 1 then 1 else rate) as real;
      !ds[n] <==> (exists m :: 0 <= m <= n && rs[m].ip == rs[n].ip &&
                     Allowed(rs[n].ip, rs[m..n], ds[m..]) as real + 1.0 > c + (rs[n].at - rs[m].at) * c / 60.0)
  {
    RefusedIffNoRoom(rate, start, rs, n);
    var ds := Decisions(rate, map[], rs);
    forall m | 0 <= m <= n ensures var c := (if rate < 1 then 1 else rate) as real;
      Room(rate, rs, ds, m, n) < 1.0 <==>
      Allowed(rs[n].ip, rs[m..n], ds[m..]) as real + 1.0 > c + (rs[n].at - rs[m].at) * c / 60.0
    {
      RoomIs(rate, rs, ds, m, n);
    }
  }

  /** Above ten thousand buckets, those a check keeps have been used in the last ten minutes,
      and none of these is lost. */
  lemma TrimKeepsRecent(buckets: map<Ip, Bucket>, now: real)
    ensures |buckets| <= 10_000 ==> Trim(buckets, now) == buckets
    ensures |buckets| > 10_000 ==> forall ip :: ip in Trim(buckets, now) <==> ip in buckets && now - buckets[ip].last < 600.0
    ensures forall ip :: ip in Trim(buckets, now) ==> Trim(buckets, now)[ip] == buckets[ip]
  {
  }

  function Burst(r: Request, n: nat): seq<Request> { seq(n, _ => r) }

  lemma {:induction false} BurstFrom(rate: nat, buckets: map<Ip, Bucket>, r: Request, n: nat, left: nat)
    requires r.ip in buckets && buckets[r.ip] == Bucket(left as real, r.at) && left <= Effective(rate)
    ensures DecisionsKeepingAll(rate, buckets, Burst(r, n)) == seq(n, i => i < left)
    decreases n
  {
    if n > 0 {
      assert Gain(rate, 0.0) == 0.0;
      assert Burst(r, n)[1..] == Burst(r, n - 1);
      BurstFrom(rate, Charge(rate, buckets, r), r, n - 1, if left == 0 then 0 else left - 1);
    }
  }

  /** The bound is met: of n simultaneous requests from a new address exactly the first
      `rate` (at least one) get through. */
  lemma BurstIsExact(rate: nat, r: Request, n: nat)
    ensures Decisions(rate, map[], Burst(r, n)) == seq(n, i => i < Effective(rate))
  {
    if n > 0 {
      assert Burst(r, n)[1..] == Burst(r, n - 1);
      BurstMonotone(r, n);
      EvictionIsUnobservable(rate, r.at, Burst(r, n));
      assert Gain(rate, 0.0) == 0.0;
      BurstFrom(rate, Charge(rate, map[], r), r, n - 1, Effective(rate) - 1);
    }
  }

  lemma {:induction false} BurstMonotone(r: Request, n: nat)
    ensures Monotone(r.at, Burst(r, n))
  {
    if n > 0 {
      assert Burst(r, n)[1..] == Burst(r, n - 1);
      BurstMonotone(r, n - 1);
    }
  }
}
