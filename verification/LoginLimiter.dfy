/** The admin login limiter: five failures per address in sixty seconds, kept in memory or in Redis. */
module LoginLimiter {
  import opened Prelude

  const LIMIT: nat := 5
  const WINDOW: real := 60.0
  const KEY_LIFETIME: real := 70.0

  // ---- In memory ----

  type Memory = map<string, seq<real>>

  function Attempts(m: Memory, ip: string): seq<real> { if ip in m then m[ip] else [] }

  /** The attempts made after `start`, in order. */
  function Recent(ts: seq<real>, start: real): (r: seq<real>)
    ensures |r| <= |ts|
    ensures forall t :: t in r <==> t in ts && t > start
  {
    if ts == [] then [] else (if ts[0] > start then [ts[0]] else []) + Recent(ts[1..], start)
  }

  function MemoryCheck(m: Memory, ip: string, now: real): (Memory, bool) {
    if Attempts(m, ip) == [] then (m, false) else
    var kept := Recent(m[ip], now - WINDOW);
    (m[ip := kept], |kept| >= LIMIT)
  }

  function MemoryRecord(m: Memory, ip: string, now: real): Memory { m[ip := Attempts(m, ip) + [now]] }

  // ---- In Redis ----

  /** A sorted set scored by time, and the moment its key expires. */
  datatype Zset = Zset(scores: set<real>, expires: real)

  type Redis = map<string, Zset>

  function Scores(r: Redis, ip: string, now: real): set<real> {
    if ip in r && now < r[ip].expires then r[ip].scores else {}
  }

  function RedisCheck(r: Redis, ip: string, now: real): (Redis, bool) {
    var left := set t | t in Scores(r, ip, now) && !(0.0 <= t <= now - WINDOW);
    (if left == {} then r - {ip} else r[ip := Zset(left, r[ip].expires)], |left| >= LIMIT)
  }

  function RedisRecord(r: Redis, ip: string, now: real): Redis {
    r[ip := Zset(Scores(r, ip, now) + {now}, now + KEY_LIFETIME)]
  }

  // ---- The limiter objects ----

  class MemoryLimiter {
    var attempts: Memory

    constructor ()
      ensures attempts == map[]
    {
      attempts := map[];
    }

    method Check(ip: string, now: real) returns (blocked: bool)
      modifies this
      ensures (attempts, blocked) == MemoryCheck(old(attempts), ip, now)
      ensures ip !in old(attempts) ==> attempts == old(attempts) && !blocked
      ensures ip in old(attempts) ==>
        && attempts == old(attempts)[ip := Recent(old(attempts)[ip], now - 60.0)]
        && (blocked <==> |attempts[ip]| >= 5)
    {
      if ip !in attempts || attempts[ip] == [] {
        return false;
      }
      var kept: seq<real> := [];
      for i := 0 to |attempts[ip]|
        invariant attempts == old(attempts)
        invariant kept + Recent(attempts[ip][i..], now - WINDOW) == Recent(attempts[ip], now - WINDOW)
      {
        assert attempts[ip][i..][1..] == attempts[ip][i+1..];
        if attempts[ip][i] > now - WINDOW {
          kept := kept + [attempts[ip][i]];
        }
      }
      assert kept + Recent([], now - WINDOW) == kept;
      attempts := attempts[ip := kept];
      blocked := |kept| >= LIMIT;
    }

    method Record(ip: string, now: real)
      modifies this
      ensures attempts == MemoryRecord(old(attempts), ip, now)
    {
      if ip !in attempts {
        attempts := attempts[ip := []];
      }
      attempts := attempts[ip := attempts[ip] + [now]];
    }

    method Clear(ip: string)
      modifies this
      ensures attempts == old(attempts) - {ip}
    {
      attempts := attempts - {ip};
    }
  }

  /** A Redis check blocks from five different moments of the last sixty seconds on, while the key lives. */
  lemma RedisCheckMeans(r: Redis, ip: string, now: real)
    requires ip in r && forall t :: t in r[ip].scores ==> t >= 0.0
    ensures var live := set t | t in r[ip].scores && t > now - 60.0;
      RedisCheck(r, ip, now).1 <==> now < r[ip].expires && |live| >= 5
  {
    var live := set t | t in r[ip].scores && t > now - 60.0;
    assert now < r[ip].expires ==> live == set t | t in Scores(r, ip, now) && !(0.0 <= t <= now - WINDOW);
    assert now >= r[ip].expires ==> (set t | t in Scores(r, ip, now) && !(0.0 <= t <= now - WINDOW)) == {};
  }

  /** A recorded failure counts from its moment on, and keeps the key alive for seventy seconds. */
  lemma RedisRecordMeans(r: Redis, ip: string, now: real)
    ensures var r' := RedisRecord(r, ip, now);
      && r'.Keys == r.Keys + {ip} && (forall x :: x in r && x != ip ==> r'[x] == r[x])
      && r'[ip].expires == now + 70.0
      && r'[ip].scores == (if ip in r && now < r[ip].expires then r[ip].scores else {}) + {now}
  {
  }

  // ---- Both backends, call by call ----

  datatype Call = Check(ip: string, now: real) | Record(ip: string, now: real) | Clear(ip: string, now: real)

  function OnMemory(m: Memory, c: Call): (Memory, Option<bool>) {
    match c
    case Check(ip, now) => var (m', b) := MemoryCheck(m, ip, now); (m', Some(b))
    case Record(ip, now) => (MemoryRecord(m, ip, now), None)
    case Clear(ip, _) => (m - {ip}, None)
  }

  function OnRedis(r: Redis, c: Call): (Redis, Option<bool>) {
    match c
    case Check(ip, now) => var (r', b) := RedisCheck(r, ip, now); (r', Some(b))
    case Record(ip, now) => (RedisRecord(r, ip, now), None)
    case Clear(ip, _) => (r - {ip}, None)
  }

  function MemoryAnswers(m: Memory, cs: seq<Call>): seq<Option<bool>>
    decreases cs
  {
    if cs == [] then [] else [OnMemory(m, cs[0]).1] + MemoryAnswers(OnMemory(m, cs[0]).0, cs[1..])
  }

  function RedisAnswers(r: Redis, cs: seq<Call>): seq<Option<bool>>
    decreases cs
  {
    if cs == [] then [] else [OnRedis(r, cs[0]).1] + RedisAnswers(OnRedis(r, cs[0]).0, cs[1..])
  }

  // ---- Agreement ----

  /** The clock does not go back, and no failure is recorded at a moment the address already has on record. */
  predicate Stamped(cs: seq<Call>, m: Memory, from: real)
    decreases cs
  {
    cs == [] ||
    (from <= cs[0].now && (cs[0].Record? ==> cs[0].now !in Attempts(m, cs[0].ip))
     && Stamped(cs[1..], OnMemory(m, cs[0]).0, cs[0].now))
  }

  function AllScores(r: Redis, ip: string): set<real> { if ip in r then r[ip].scores else {} }

  /** For one address: inside the window both backends hold the same moments, and a Redis key outlives the
      window of everything in it. In memory a moment may stand more than once. */
  ghost predicate HeldOn(m: Memory, r: Redis, ip: string, now: real) {
    && (forall t :: t in Attempts(m, ip) ==> 0.0 <= t <= now)
    && (forall t :: t in AllScores(r, ip) ==> 0.0 <= t <= now && t + KEY_LIFETIME <= r[ip].expires)
    && (forall t :: t > now - WINDOW ==> (t in Attempts(m, ip) <==> t in AllScores(r, ip)))
  }

  ghost predicate Held(m: Memory, r: Redis, now: real) { 0.0 <= now && forall ip :: HeldOn(m, r, ip, now) }

  function From(ts: seq<real>, d: real): set<real> { set t | t in ts && t >= d }

  /** A moment on record twice no longer matters: with it in the window, so are five different ones. */
  ghost predicate Settled(ts: seq<real>, now: real) {
    forall d :: d > now - WINDOW && multiset(ts)[d] >= 2 ==> |From(ts, d)| >= LIMIT
  }

  ghost predicate AllSettled(m: Memory, now: real) { forall ip :: Settled(Attempts(m, ip), now) }

  lemma {:induction false} RecentCounts(ts: seq<real>, start: real)
    ensures forall d :: multiset(Recent(ts, start))[d] == if d > start then multiset(ts)[d] else 0
  {
    if ts != [] {
      RecentCounts(ts[1..], start);
      assert ts == [ts[0]] + ts[1..];
    }
  }

  /** How many different moments stand against how many are on record: only duplicates set them apart. */
  lemma RecentSizes(ts: seq<real>, start: real)
    ensures var live := set t | t in ts && t > start;
      && |live| <= |Recent(ts, start)|
      && (|live| == |Recent(ts, start)| <==> forall d :: d > start ==> multiset(ts)[d] <= 1)
  {
    var kept := Recent(ts, start);
    SizeGap(kept);
    RecentCounts(ts, start);
    assert (set t | t in ts && t > start) == set t | t in kept;
    forall d
      ensures multiset(kept)[d] == if d > start then multiset(ts)[d] else 0
    {
    }
    if d: real :| d > start && multiset(ts)[d] > 1 {
      assert multiset(kept)[d] > 1;
    }
    if d: real :| multiset(kept)[d] > 1 {
      assert multiset(ts)[d] > 1;
    }
  }

  function LiveScores(r: Redis, ip: string, now: real): set<real> {
    set t | t in Scores(r, ip, now) && !(0.0 <= t <= now - WINDOW)
  }

  /** At a check both backends look at the same moments. */
  lemma SameMoments(m: Memory, r: Redis, ip: string, from: real, now: real)
    requires HeldOn(m, r, ip, from) && from <= now
    ensures LiveScores(r, ip, now) == set t | t in Attempts(m, ip) && t > now - WINDOW
  {
    forall t
      ensures t in LiveScores(r, ip, now) <==> t in Attempts(m, ip) && t > now - WINDOW
    {
      assert t in AllScores(r, ip) && t > now - WINDOW ==> now < r[ip].expires;
    }
  }

  lemma FromIsLive(ts: seq<real>, start: real, d: real)
    requires d > start
    ensures |From(ts, d)| <= |set t | t in ts && t > start|
  {
    SubsetSize(From(ts, d), set t | t in ts && t > start);
  }

  lemma MemoryCheckIs(m: Memory, ip: string, now: real)
    ensures var kept := Recent(Attempts(m, ip), now - WINDOW);
      MemoryCheck(m, ip, now).1 == (|kept| >= LIMIT) && Attempts(MemoryCheck(m, ip, now).0, ip) == kept
  {
  }

  /** Settled records are answered alike. */
  lemma CheckAnswersAlike(m: Memory, r: Redis, ip: string, from: real, now: real)
    requires HeldOn(m, r, ip, from) && from <= now && Settled(Attempts(m, ip), from)
    ensures MemoryCheck(m, ip, now).1 == RedisCheck(r, ip, now).1
  {
    var ts, start := Attempts(m, ip), now - WINDOW;
    SameMoments(m, r, ip, from, now);
    RecentSizes(ts, start);
    MemoryCheckIs(m, ip, now);
    if !(forall d :: d > start ==> multiset(ts)[d] <= 1) {
      var d :| d > start && multiset(ts)[d] > 1;
      FromIsLive(ts, start, d);
    }
  }

  lemma CheckHolds(m: Memory, r: Redis, ip: string, from: real, now: real)
    requires HeldOn(m, r, ip, from) && from <= now
    ensures HeldOn(MemoryCheck(m, ip, now).0, RedisCheck(r, ip, now).0, ip, now)
  {
    SameMoments(m, r, ip, from, now);
    MemoryCheckIs(m, ip, now);
    var left := LiveScores(r, ip, now);
    assert AllScores(RedisCheck(r, ip, now).0, ip) == left;
  }

  lemma RecentSettled(ts: seq<real>, from: real, now: real)
    requires Settled(ts, from) && from <= now
    ensures Settled(Recent(ts, now - WINDOW), now)
  {
    var kept := Recent(ts, now - WINDOW);
    RecentCounts(ts, now - WINDOW);
    forall d | d > now - WINDOW && multiset(kept)[d] >= 2
      ensures |From(kept, d)| >= LIMIT
    {
      assert From(kept, d) == From(ts, d);
    }
  }

  lemma RecordHolds(m: Memory, r: Redis, ip: string, from: real, now: real)
    requires HeldOn(m, r, ip, from) && from <= now && 0.0 <= now
    ensures HeldOn(MemoryRecord(m, ip, now), RedisRecord(r, ip, now), ip, now)
  {
    var m', r' := MemoryRecord(m, ip, now), RedisRecord(r, ip, now);
    assert Attempts(m', ip) == Attempts(m, ip) + [now];
    assert r'[ip] == Zset(Scores(r, ip, now) + {now}, now + KEY_LIFETIME);
    forall t | t in AllScores(r', ip)
      ensures 0.0 <= t <= now && t + KEY_LIFETIME <= r'[ip].expires
    {
      assert t == now || t in AllScores(r, ip);
    }
    forall t | t > now - WINDOW
      ensures t in Attempts(m', ip) <==> t in AllScores(r', ip)
    {
      assert t in AllScores(r, ip) ==> now < r[ip].expires;
    }
  }

  lemma RecordSettled(ts: seq<real>, from: real, now: real)
    requires Settled(ts, from) && from <= now && now !in ts
    ensures Settled(ts + [now], now)
  {
    var all := ts + [now];
    forall d | d > now - WINDOW && multiset(all)[d] >= 2
      ensures |From(all, d)| >= LIMIT
    {
      assert multiset(all) == multiset(ts) + multiset{now} && multiset(ts)[now] == 0;
      assert From(ts, d) <= From(all, d);
      SubsetSize(From(ts, d), From(all, d));
    }
  }

  lemma CallHolds(m: Memory, r: Redis, c: Call, from: real)
    requires Held(m, r, from) && from <= c.now
    ensures Held(OnMemory(m, c).0, OnRedis(r, c).0, c.now)
  {
    var m', r' := OnMemory(m, c).0, OnRedis(r, c).0;
    assert HeldOn(m, r, c.ip, from);
    match c {
      case Check(_, _) => CheckHolds(m, r, c.ip, from, c.now);
      case Record(_, _) => RecordHolds(m, r, c.ip, from, c.now);
      case Clear(_, _) => assert Attempts(m', c.ip) == [] && AllScores(r', c.ip) == {};
    }
    forall ip
      ensures HeldOn(m', r', ip, c.now)
    {
      if ip != c.ip {
        assert HeldOn(m, r, ip, from);
        assert Attempts(m', ip) == Attempts(m, ip) && AllScores(r', ip) == AllScores(r, ip);
        assert ip in r' ==> ip in r && r'[ip] == r[ip];
      }
    }
  }

  lemma SettledLater(ts: seq<real>, from: real, now: real)
    requires Settled(ts, from) && from <= now
    ensures Settled(ts, now)
  {
  }

  lemma OwnCallSettles(m: Memory, c: Call, from: real)
    requires Settled(Attempts(m, c.ip), from) && from <= c.now && (c.Record? ==> c.now !in Attempts(m, c.ip))
    ensures Settled(Attempts(OnMemory(m, c).0, c.ip), c.now)
  {
    var ts := Attempts(m, c.ip);
    match c
    case Check(ip, now) =>
      MemoryCheckIs(m, ip, now);
      RecentSettled(ts, from, now);
    case Record(ip, now) =>
      RecordSettled(ts, from, now);
      assert Attempts(OnMemory(m, c).0, ip) == ts + [now];
    case Clear(ip, now) =>
      assert Attempts(OnMemory(m, c).0, ip) == [];
  }

  lemma CallSettles(m: Memory, c: Call, from: real)
    requires AllSettled(m, from) && from <= c.now && (c.Record? ==> c.now !in Attempts(m, c.ip))
    ensures AllSettled(OnMemory(m, c).0, c.now)
  {
    var m' := OnMemory(m, c).0;
    assert Settled(Attempts(m, c.ip), from);
    OwnCallSettles(m, c, from);
    forall ip | ip != c.ip
      ensures Settled(Attempts(m', ip), c.now)
    {
      assert Settled(Attempts(m, ip), from) && Attempts(m', ip) == Attempts(m, ip);
      SettledLater(Attempts(m, ip), from, c.now);
    }
  }

  lemma CallAnswersAlike(m: Memory, r: Redis, c: Call, from: real)
    requires Held(m, r, from) && AllSettled(m, from) && from <= c.now
    ensures OnMemory(m, c).1 == OnRedis(r, c).1
  {
    assert HeldOn(m, r, c.ip, from) && Settled(Attempts(m, c.ip), from);
    if c.Check? {
      CheckAnswersAlike(m, r, c.ip, from, c.now);
    }
  }

  /** From settled records the Redis and in-memory limiters answer every check alike, key expiry included. */
  lemma {:induction false} BackendsAgree(m: Memory, r: Redis, cs: seq<Call>, from: real)
    requires Held(m, r, from) && AllSettled(m, from) && Stamped(cs, m, from)
    ensures MemoryAnswers(m, cs) == RedisAnswers(r, cs)
    decreases cs
  {
    if cs != [] {
      CallAnswersAlike(m, r, cs[0], from);
      CallHolds(m, r, cs[0], from);
      CallSettles(m, cs[0], from);
      BackendsAgree(OnMemory(m, cs[0]).0, OnRedis(r, cs[0]).0, cs[1..], cs[0].now);
    }
  }

  // ---- Where they part ----

  /** Failures `step` apart after `now`, then a check. */
  function Probe(ip: string, now: real, step: real, n: nat): seq<Call>
    decreases n
  {
    if n == 0 then [Check(ip, now)] else [Record(ip, now + step)] + Probe(ip, now + step, step, n - 1)
  }

  /** How long a probe takes. */
  function Span(step: real, n: nat): real
    decreases n
  {
    if n == 0 then 0.0 else step + Span(step, n - 1)
  }

  lemma {:induction false} SpanBound(step: real, n: nat)
    requires step > 0.0 && n <= LIMIT
    ensures Span(step, n) <= 5.0 * step
  {
    if n > 0 {
      SpanIs(step, n);
    }
  }

  lemma {:induction false} SpanIs(step: real, n: nat)
    ensures Span(step, n) == (n as real) * step
    decreases n
  {
    if n > 0 {
      SpanIs(step, n - 1);
      assert (n as real) == (n - 1) as real + 1.0;
    }
  }

  function Live(ts: seq<real>, start: real): set<real> { set t | t in ts && t > start }

  /** The records of an address, ahead of a probe that ends in a different answer: with `n` more failures the
      list reaches the limit and the set does not, and nothing more leaves the window meanwhile. */
  ghost predicate Tipping(ts: seq<real>, lo: real, d: real, now: real, step: real, n: nat) {
    && |Live(ts, lo)| + n < LIMIT <= |Recent(ts, lo)| + n
    && lo <= now - WINDOW && now - WINDOW + Span(step, n) < d && step > 0.0
    && forall t :: t in ts && t > lo ==> t >= d
  }

  lemma CheckParts(m: Memory, r: Redis, ip: string, lo: real, d: real, from: real, now: real, step: real)
    requires HeldOn(m, r, ip, from) && from <= now && Tipping(Attempts(m, ip), lo, d, now, step, 0)
    ensures MemoryCheck(m, ip, now).1 && !RedisCheck(r, ip, now).1
  {
    var ts, start := Attempts(m, ip), now - WINDOW;
    SameMoments(m, r, ip, from, now);
    MemoryCheckIs(m, ip, now);
    assert Live(ts, lo) == Live(ts, start);
    SameRecent(ts, lo, start, d);
  }

  lemma {:induction false} SameRecent(ts: seq<real>, lo: real, start: real, d: real)
    requires lo <= start < d && forall t :: t in ts && t > lo ==> t >= d
    ensures Recent(ts, lo) == Recent(ts, start)
  {
    if ts != [] {
      assert ts[0] in ts && forall t :: t in ts[1..] ==> t in ts;
      SameRecent(ts[1..], lo, start, d);
    }
  }

  lemma {:induction false} RecentSnoc(ts: seq<real>, t: real, lo: real)
    requires t > lo
    ensures Recent(ts + [t], lo) == Recent(ts, lo) + [t]
  {
    if ts == [] {
      assert [] + [t] == [t] && [t][1..] == [];
      assert Recent([t], lo) == [t] + Recent([], lo);
    } else {
      assert (ts + [t])[1..] == ts[1..] + [t];
      RecentSnoc(ts[1..], t, lo);
    }
  }

  lemma RecordTips(ts: seq<real>, lo: real, d: real, now: real, step: real, n: nat)
    requires Tipping(ts, lo, d, now, step, n) && n > 0 && now + step !in ts && d <= now
    ensures Tipping(ts + [now + step], lo, d, now + step, step, n - 1)
  {
    var t := now + step;
    RecentSnoc(ts, t, lo);
    assert t !in Live(ts, lo);
    assert Live(ts + [t], lo) == Live(ts, lo) + {t};
  }

  lemma AnswersPart(m: Memory, r: Redis, c: Call, cs: seq<Call>)
    requires cs != [] && cs[0] == c
    requires MemoryAnswers(OnMemory(m, c).0, cs[1..]) != RedisAnswers(OnRedis(r, c).0, cs[1..])
    ensures MemoryAnswers(m, cs) != RedisAnswers(r, cs)
  {
    var a, b := MemoryAnswers(OnMemory(m, c).0, cs[1..]), RedisAnswers(OnRedis(r, c).0, cs[1..]);
    assert MemoryAnswers(m, cs) == [OnMemory(m, c).1] + a && RedisAnswers(r, cs) == [OnRedis(r, c).1] + b;
    assert ([OnMemory(m, c).1] + a)[1..] == a && ([OnRedis(r, c).1] + b)[1..] == b;
  }

  lemma CheckAlone(m: Memory, r: Redis, ip: string, now: real)
    requires MemoryCheck(m, ip, now).1 != RedisCheck(r, ip, now).1
    ensures MemoryAnswers(m, [Check(ip, now)]) != RedisAnswers(r, [Check(ip, now)])
  {
    assert MemoryAnswers(m, [Check(ip, now)])[0] != RedisAnswers(r, [Check(ip, now)])[0];
  }

  lemma {:induction false} ProbeStamped(m: Memory, ip: string, from: real, now: real, step: real, n: nat)
    requires from <= now && step > 0.0 && forall t :: t in Attempts(m, ip) ==> t <= from
    ensures Stamped(Probe(ip, now, step, n), m, from)
    decreases n
  {
    var cs := Probe(ip, now, step, n);
    if n == 0 {
      assert cs[1..] == [];
    } else {
      assert cs[1..] == Probe(ip, now + step, step, n - 1);
      ProbeStamped(MemoryRecord(m, ip, now + step), ip, now + step, now + step, step, n - 1);
    }
  }

  lemma {:induction false} ProbeParts(
    m: Memory, r: Redis, ip: string, lo: real, d: real, from: real, now: real, step: real, n: nat)
    requires Held(m, r, from) && from <= now && d <= from && Tipping(Attempts(m, ip), lo, d, now, step, n)
    ensures MemoryAnswers(m, Probe(ip, now, step, n)) != RedisAnswers(r, Probe(ip, now, step, n))
    decreases n
  {
    assert HeldOn(m, r, ip, from);
    if n == 0 {
      CheckParts(m, r, ip, lo, d, from, now, step);
      CheckAlone(m, r, ip, now);
    } else {
      var t := now + step;
      var c := Record(ip, t);
      RecordTips(Attempts(m, ip), lo, d, now, step, n);
      assert Attempts(OnMemory(m, c).0, ip) == Attempts(m, ip) + [t];
      CallHolds(m, r, c, from);
      ProbeParts(OnMemory(m, c).0, OnRedis(r, c).0, ip, lo, d, t, t, step, n - 1);
      assert Probe(ip, now, step, n)[1..] == Probe(ip, t, step, n - 1);
      AnswersPart(m, r, c, Probe(ip, now, step, n));
    }
  }

  /** The largest moment on record below `d`, or `lo`. */
  lemma {:induction false} Below(ts: seq<real>, lo: real, d: real) returns (b: real)
    requires lo < d
    ensures lo <= b < d && forall t :: t in ts && t > b ==> t >= d
  {
    if ts == [] {
      b := lo;
    } else {
      b := Below(ts[1..], lo, d);
      if b < ts[0] < d {
        b := ts[0];
      }
      assert ts == [ts[0]] + ts[1..];
    }
  }

  lemma TippingPoint(ts: seq<real>, from: real, d: real) returns (lo: real, step: real, n: nat)
    requires d > from - WINDOW && multiset(ts)[d] >= 2 && |From(ts, d)| < LIMIT
    ensures lo >= from - WINDOW && Tipping(ts, lo, d, lo + WINDOW, step, n)
  {
    lo := Below(ts, from - WINDOW, d);
    RecentSizes(ts, lo);
    assert Live(ts, lo) == From(ts, d);
    n := if |Recent(ts, lo)| >= LIMIT then 0 else LIMIT - |Recent(ts, lo)|;
    step := (d - lo) / 6.0;
    SpanBound(step, n);
  }

  lemma UnsettledParts(m: Memory, r: Redis, ip: string, from: real, d: real) returns (cs: seq<Call>)
    requires Held(m, r, from) && d > from - WINDOW
    requires multiset(Attempts(m, ip))[d] >= 2 && |From(Attempts(m, ip), d)| < LIMIT
    ensures Stamped(cs, m, from) && MemoryAnswers(m, cs) != RedisAnswers(r, cs)
  {
    assert HeldOn(m, r, ip, from);
    assert d in multiset(Attempts(m, ip)) && d in Attempts(m, ip);
    var lo, step, n := TippingPoint(Attempts(m, ip), from, d);
    cs := Probe(ip, lo + WINDOW, step, n);
    ProbeStamped(m, ip, from, lo + WINDOW, step, n);
    ProbeParts(m, r, ip, lo, d, from, lo + WINDOW, step, n);
  }

  /** The backends answer alike from here on, whatever is called, exactly when every address is settled. */
  lemma AgreementIff(m: Memory, r: Redis, from: real)
    requires Held(m, r, from)
    ensures (forall cs :: Stamped(cs, m, from) ==> MemoryAnswers(m, cs) == RedisAnswers(r, cs)) <==> AllSettled(m, from)
  {
    if AllSettled(m, from) {
      forall cs | Stamped(cs, m, from)
        ensures MemoryAnswers(m, cs) == RedisAnswers(r, cs)
      {
        BackendsAgree(m, r, cs, from);
      }
    } else {
      var ip :| !Settled(Attempts(m, ip), from);
      var d :| d > from - WINDOW && multiset(Attempts(m, ip))[d] >= 2 && |From(Attempts(m, ip), d)| < LIMIT;
      var cs := UnsettledParts(m, r, ip, from, d);
    }
  }

  // ---- From a fresh start ----

  predicate Clocked(cs: seq<Call>) {
    forall i, j :: 0 <= i <= j < |cs| ==> 0.0 <= cs[i].now <= cs[j].now
  }

  /** No address has two failures recorded at one moment. */
  predicate NoTies(cs: seq<Call>) {
    forall i, j :: 0 <= i < j < |cs| && cs[i].Record? && cs[j].Record? && cs[i].ip == cs[j].ip ==> cs[i].now != cs[j].now
  }

  /** Everything on record was recorded by one of these calls. */
  ghost predicate RecordedBy(m: Memory, done: seq<Call>) {
    forall ip, t :: t in Attempts(m, ip) ==> Record(ip, t) in done
  }

  lemma CallRecords(m: Memory, done: seq<Call>, c: Call)
    requires RecordedBy(m, done)
    ensures RecordedBy(OnMemory(m, c).0, done + [c])
  {
    var m' := OnMemory(m, c).0;
    MemoryCheckIs(m, c.ip, c.now);
    forall ip, t | t in Attempts(m', ip)
      ensures Record(ip, t) in done + [c]
    {
      if ip != c.ip {
        assert Attempts(m', ip) == Attempts(m, ip);
      }
    }
  }

  lemma NotBefore(done: seq<Call>, cs: seq<Call>)
    requires cs != [] && cs[0].Record? && NoTies(done + cs)
    ensures cs[0] !in done
  {
    forall i | 0 <= i < |done|
      ensures done[i] != cs[0]
    {
      assert (done + cs)[i] == done[i] && (done + cs)[|done|] == cs[0];
    }
  }

  lemma {:induction false} NoTiesStamped(m: Memory, done: seq<Call>, cs: seq<Call>, from: real)
    requires RecordedBy(m, done) && NoTies(done + cs) && Clocked(cs) && (cs != [] ==> from <= cs[0].now)
    ensures Stamped(cs, m, from)
    decreases cs
  {
    if cs != [] {
      var c := cs[0];
      assert (done + [c]) + cs[1..] == done + cs;
      if c.Record? {
        NotBefore(done, cs);
      }
      CallRecords(m, done, c);
      NoTiesStamped(OnMemory(m, c).0, done + [c], cs[1..], c.now);
    }
  }

  /** From a fresh start, without ties at any one address. */
  lemma FreshBackendsAgree(cs: seq<Call>)
    requires Clocked(cs) && NoTies(cs)
    ensures MemoryAnswers(map[], cs) == RedisAnswers(map[], cs)
  {
    assert [] + cs == cs;
    NoTiesStamped(map[], [], cs, 0.0);
    BackendsAgree(map[], map[], cs, 0.0);
  }

  function Burst(ip: string, now: real, n: nat): seq<Call> {
    if n == 0 then [Check(ip, now)] else [Record(ip, now)] + Burst(ip, now, n - 1)
  }

  /** Without distinct time stamps they part: Redis counts simultaneous failures once. */
  lemma TiesDiverge(ip: string, now: real)
    requires now >= 0.0
    ensures MemoryAnswers(map[], Burst(ip, now, LIMIT)) != RedisAnswers(map[], Burst(ip, now, LIMIT))
  {
    MemoryBurst(ip, now, [], LIMIT);
    RedisBurst(ip, now, map[], LIMIT);
  }

  lemma {:induction false} MemoryBurst(ip: string, now: real, before: seq<real>, n: nat)
    requires forall t :: t in before ==> t == now
    ensures var m: Memory := if before == [] then map[] else map[ip := before];
      var answers := MemoryAnswers(m, Burst(ip, now, n));
      |answers| == n + 1 && answers[n] == Some(|before| + n >= LIMIT)
    decreases n
  {
    var m: Memory := if before == [] then map[] else map[ip := before];
    var calls := Burst(ip, now, n);
    if n == 0 {
      AllRecent(before, now);
      assert calls[1..] == [];
    } else {
      MemoryBurst(ip, now, before + [now], n - 1);
      assert calls[1..] == Burst(ip, now, n - 1);
      assert MemoryRecord(m, ip, now) == map[ip := before + [now]];
    }
  }

  lemma {:induction false} AllRecent(ts: seq<real>, now: real)
    requires forall t :: t in ts ==> t == now
    ensures Recent(ts, now - WINDOW) == ts
  {
    if ts != [] {
      assert ts[0] in ts;
      assert forall t :: t in ts[1..] ==> t in ts;
      AllRecent(ts[1..], now);
      assert ts == [ts[0]] + ts[1..];
    }
  }

  lemma {:induction false} RedisBurst(ip: string, now: real, r: Redis, n: nat)
    requires AllScores(r, ip) <= {now}
    ensures var answers := RedisAnswers(r, Burst(ip, now, n));
      |answers| == n + 1 && answers[n] == Some(false)
    decreases n
  {
    var calls := Burst(ip, now, n);
    if n == 0 {
      var left := set t | t in Scores(r, ip, now) && !(0.0 <= t <= now - WINDOW);
      assert left <= {now};
      SubsetSize(left, {now});
      assert calls[1..] == [];
    } else {
      RedisBurst(ip, now, RedisRecord(r, ip, now), n - 1);
      assert calls[1..] == Burst(ip, now, n - 1);
    }
  }

  // ---- The bound on failures, with check and record in one step ----

  /** What a request that gets past the limiter turns out to be. POST /login and POST /login/mfa share one
      pool; a bad form token, an expired password step or a missing secret end either of them unrecorded. */
  datatype Finding = Ignored | Wrong | Right

  datatype Attempt = Attempt(ip: string, now: real, finding: Finding)

  datatype Outcome = Blocked | Dropped | Refused | Admitted

  function Judge(blocked: bool, finding: Finding): Outcome {
    if blocked then Blocked else match finding case Ignored => Dropped case Wrong => Refused case Right => Admitted
  }

  function LogIn(m: Memory, a: Attempt): (Memory, Outcome) {
    var (m', blocked) := MemoryCheck(m, a.ip, a.now);
    var outcome := Judge(blocked, a.finding);
    (match outcome
     case Refused => MemoryRecord(m', a.ip, a.now)
     case Admitted => m' - {a.ip}
     case _ => m', outcome)
  }

  function After(attempts: seq<Attempt>): Memory {
    if attempts == [] then map[] else LogIn(After(attempts[..|attempts|-1]), attempts[|attempts|-1]).0
  }

  /** The failures of an address since its history was last cleared, after one more request. */
  function Tallied(before: seq<real>, ip: string, a: Attempt, outcome: Outcome): seq<real> {
    if a.ip != ip then before else
    match outcome
    case Admitted => []
    case Refused => before + [a.now]
    case _ => before
  }

  /** The recorded failures of an address since its history was last cleared. */
  function Failures(attempts: seq<Attempt>, ip: string): seq<real> {
    if attempts == [] then [] else
    var n := |attempts| - 1;
    Tallied(Failures(attempts[..n], ip), ip, attempts[n], LogIn(After(attempts[..n]), attempts[n]).1)
  }

  predicate Ordered(attempts: seq<Attempt>) {
    forall i, j :: 0 <= i <= j < |attempts| ==> attempts[i].now <= attempts[j].now
  }

  function InWindow(ts: seq<real>, lo: real, hi: real): nat {
    if ts == [] then 0 else (if lo < ts[|ts|-1] <= hi then 1 else 0) + InWindow(ts[..|ts|-1], lo, hi)
  }

  predicate Rising(ts: seq<real>) { forall i, j :: 0 <= i <= j < |ts| ==> ts[i] <= ts[j] }

  /** Six failures in a row span at least a whole window. */
  predicate Spaced(ts: seq<real>) { forall i :: 0 <= i && i + LIMIT < |ts| ==> ts[i] + WINDOW <= ts[i+LIMIT] }

  /** The stored list is the failures since the last clear, less some that are out of the window. */
  ghost predicate Suffix(stored: seq<real>, ts: seq<real>, k: nat, now: real) {
    k <= |ts| && stored == ts[k..] && forall i :: 0 <= i < k ==> ts[i] <= now - WINDOW
  }

  lemma {:induction false} RecentSuffix(ts: seq<real>, k: nat, start: real) returns (k': nat)
    requires Rising(ts) && k <= |ts|
    ensures k <= k' <= |ts| && Recent(ts[k..], start) == ts[k'..]
    ensures forall i :: k <= i < k' ==> ts[i] <= start
    decreases |ts| - k
  {
    k' := k;
    if k < |ts| {
      assert ts[k..][1..] == ts[k+1..];
      if ts[k] <= start {
        k' := RecentSuffix(ts, k + 1, start);
      } else {
        assert forall i :: k <= i < |ts| ==> ts[k] <= ts[i];
        AllAfter(ts[k..], start);
      }
    }
  }

  lemma {:induction false} AllAfter(ts: seq<real>, start: real)
    requires forall t :: t in ts ==> t > start
    ensures Recent(ts, start) == ts
  {
    if ts != [] {
      assert ts[0] in ts;
      assert forall t :: t in ts[1..] ==> t in ts;
      AllAfter(ts[1..], start);
      assert ts == [ts[0]] + ts[1..];
    }
  }

  lemma RefusedKeepsSpacing(ts: seq<real>, k: nat, now: real)
    requires Rising(ts) && Spaced(ts) && k <= |ts| && |ts| - k < LIMIT
    requires forall i :: 0 <= i < k ==> ts[i] <= now - WINDOW
    requires forall t :: t in ts ==> t <= now
    ensures Rising(ts + [now]) && Spaced(ts + [now])
  {
    var all := ts + [now];
    assert forall i :: 0 <= i < |ts| ==> ts[i] in ts;
    forall i | 0 <= i && i + LIMIT < |all|
      ensures all[i] + WINDOW <= all[i+LIMIT]
    {
      if i + LIMIT == |ts| {
        assert i < k;
      }
    }
  }

  /** The failures so far, against the list the limiter keeps. */
  ghost predicate Tracked(stored: seq<real>, ts: seq<real>, k: nat, now: real) {
    && Rising(ts) && Spaced(ts) && (forall t :: t in ts ==> t <= now)
    && Suffix(stored, ts, k, now)
  }

  /** The check drops what left the window and keeps the rest. */
  lemma CheckTracked(m: Memory, ip: string, now: real, ts: seq<real>, k: nat, before: real) returns (k': nat)
    requires Tracked(Attempts(m, ip), ts, k, before) && before <= now
    ensures var (m', blocked) := MemoryCheck(m, ip, now);
      Tracked(Attempts(m', ip), ts, k', now) && (blocked <==> |ts| - k' >= LIMIT)
  {
    assert Recent([], now - WINDOW) == [];
    k' := RecentSuffix(ts, k, now - WINDOW);
    assert Attempts(MemoryCheck(m, ip, now).0, ip) == ts[k'..];
  }

  lemma SuffixSnoc(stored: seq<real>, ts: seq<real>, k: nat, now: real)
    requires Suffix(stored, ts, k, now)
    ensures Suffix(stored + [now], ts + [now], k, now)
  {
    assert ts[k..] + [now] == (ts + [now])[k..];
    assert forall i :: 0 <= i < k ==> (ts + [now])[i] == ts[i];
  }

  lemma RecordTracked(m: Memory, ip: string, now: real, ts: seq<real>, k: nat)
    requires Tracked(Attempts(m, ip), ts, k, now) && |ts| - k < LIMIT
    ensures Tracked(Attempts(MemoryRecord(m, ip, now), ip), ts + [now], k, now)
  {
    RefusedKeepsSpacing(ts, k, now);
    SuffixSnoc(Attempts(m, ip), ts, k, now);
    assert Attempts(MemoryRecord(m, ip, now), ip) == Attempts(m, ip) + [now];
  }

  lemma AttemptTracked(m: Memory, a: Attempt, ts: seq<real>, k: nat, before: real) returns (k': nat)
    requires Tracked(Attempts(m, a.ip), ts, k, before) && before <= a.now
    ensures var (m', outcome) := LogIn(m, a);
      Tracked(Attempts(m', a.ip), Tallied(ts, a.ip, a, outcome), k', a.now)
  {
    k' := CheckTracked(m, a.ip, a.now, ts, k, before);
    match LogIn(m, a).1
    case Admitted => k' := 0;
    case Refused => RecordTracked(MemoryCheck(m, a.ip, a.now).0, a.ip, a.now, ts, k');
    case _ =>
  }

  lemma TrackedLater(stored: seq<real>, ts: seq<real>, k: nat, before: real, now: real)
    requires Tracked(stored, ts, k, before) && before <= now
    ensures Tracked(stored, ts, k, now)
  {
  }

  lemma OneMoreTracked(m: Memory, a: Attempt, ip: string, ts: seq<real>, k: nat) returns (k': nat)
    requires Tracked(Attempts(m, ip), ts, k, a.now)
    ensures var (m', outcome) := LogIn(m, a); Tracked(Attempts(m', ip), Tallied(ts, ip, a, outcome), k', a.now)
  {
    if a.ip == ip {
      k' := AttemptTracked(m, a, ts, k, a.now);
    } else {
      k' := k;
      assert Attempts(LogIn(m, a).0, ip) == Attempts(m, ip);
    }
  }

  lemma {:induction false} FailuresTracked(attempts: seq<Attempt>, ip: string, now: real) returns (k: nat)
    requires Ordered(attempts) && (attempts != [] ==> now >= attempts[|attempts|-1].now)
    ensures Tracked(Attempts(After(attempts), ip), Failures(attempts, ip), k, now)
  {
    k := 0;
    if attempts != [] {
      var n := |attempts| - 1;
      var init, last := attempts[..n], attempts[n];
      assert init != [] ==> init[n-1].now <= last.now;
      k := FailuresTracked(init, ip, last.now);
      k := OneMoreTracked(After(init), last, ip, Failures(init, ip), k);
      TrackedLater(Attempts(After(attempts), ip), Failures(attempts, ip), k, last.now, now);
    }
  }

  lemma {:induction false} SpacedWindow(ts: seq<real>, lo: real)
    requires Rising(ts) && Spaced(ts)
    ensures InWindow(ts, lo, lo + WINDOW) <= LIMIT
    decreases |ts|
  {
    if |ts| > LIMIT {
      var n := |ts| - 1;
      if lo < ts[n] <= lo + WINDOW {
        assert ts[n-LIMIT] + WINDOW <= ts[n];
        OnlyTail(ts, n - LIMIT, lo, lo + WINDOW);
      } else {
        SpacedWindow(ts[..n], lo);
      }
    } else {
      WindowAtMostAll(ts, lo, lo + WINDOW);
    }
  }

  lemma {:induction false} WindowAtMostAll(ts: seq<real>, lo: real, hi: real)
    ensures InWindow(ts, lo, hi) <= |ts|
  {
    if ts != [] {
      WindowAtMostAll(ts[..|ts|-1], lo, hi);
    }
  }

  lemma {:induction false} OnlyTail(ts: seq<real>, k: nat, lo: real, hi: real)
    requires Rising(ts) && k < |ts| && ts[k] <= lo
    ensures InWindow(ts, lo, hi) <= |ts| - k - 1
    decreases |ts|
  {
    var n := |ts| - 1;
    if k < n {
      OnlyTail(ts[..n], k, lo, hi);
    } else {
      NoneInWindow(ts, lo, hi);
    }
  }

  lemma {:induction false} NoneInWindow(ts: seq<real>, lo: real, hi: real)
    requires forall i :: 0 <= i < |ts| ==> ts[i] <= lo
    ensures InWindow(ts, lo, hi) == 0
  {
    if ts != [] {
      NoneInWindow(ts[..|ts|-1], lo, hi);
    }
  }

  /** Between clears, no half-open window of sixty seconds holds more than five recorded failures of an address. */
  lemma AtMostFiveFailures(attempts: seq<Attempt>, ip: string, lo: real)
    requires Ordered(attempts)
    ensures InWindow(Failures(attempts, ip), lo, lo + WINDOW) <= LIMIT
  {
    var k := FailuresTracked(attempts, ip, if attempts == [] then 0.0 else attempts[|attempts|-1].now);
    SpacedWindow(Failures(attempts, ip), lo);
  }

  /** One request: asked of the attempts of the last sixty seconds, which are also what is kept; then a wrong one is
      recorded, a right one clears the address, and any other leaves it. */
  lemma LogInDoes(m: Memory, a: Attempt)
    ensures var (m', outcome) := LogIn(m, a);
      var kept := Recent(Attempts(m, a.ip), a.now - 60.0);
      && (outcome == Blocked <==> |kept| >= 5)
      && (outcome == Refused <==> |kept| < 5 && a.finding == Wrong)
      && (outcome == Admitted <==> |kept| < 5 && a.finding == Right)
      && Attempts(m', a.ip) == (if outcome == Admitted then [] else if outcome == Refused then kept + [a.now] else kept)
      && forall ip :: ip != a.ip ==> Attempts(m', ip) == Attempts(m, ip)
  {
    MemoryCheckIs(m, a.ip, a.now);
  }

  lemma {:induction false} TailInWindow(ts: seq<real>, k: nat, lo: real, hi: real)
    requires k <= |ts| && (forall i :: 0 <= i < k ==> ts[i] <= lo) && forall i :: k <= i < |ts| ==> lo < ts[i] <= hi
    ensures InWindow(ts, lo, hi) == |ts| - k
  {
    if k < |ts| {
      TailInWindow(ts[..|ts|-1], k, lo, hi);
    } else {
      NoneInWindow(ts, lo, hi);
    }
  }

  lemma BlockedAt(m: Memory, ip: string, now: real, ts: seq<real>, k: nat)
    requires Tracked(Attempts(m, ip), ts, k, now)
    ensures |Recent(Attempts(m, ip), now - 60.0)| == InWindow(ts, now - 60.0, now)
  {
    var k' := RecentSuffix(ts, k, now - 60.0);
    forall i | k' <= i < |ts|
      ensures now - 60.0 < ts[i] <= now
    {
      assert ts[k'..][i-k'] in Recent(ts[k..], now - 60.0) && ts[i] in ts;
    }
    TailInWindow(ts, k', now - 60.0, now);
  }

  /** In every history a request is blocked exactly when its address has five failures or more on record from the last
      sixty seconds. */
  lemma BlockedIff(attempts: seq<Attempt>, a: Attempt)
    requires Ordered(attempts) && (attempts != [] ==> attempts[|attempts|-1].now <= a.now)
    ensures LogIn(After(attempts), a).1 == Blocked <==> InWindow(Failures(attempts, a.ip), a.now - 60.0, a.now) >= 5
  {
    hide *;
    var k := FailuresTracked(attempts, a.ip, a.now);
    BlockedAt(After(attempts), a.ip, a.now, Failures(attempts, a.ip), k);
    LogInDoes(After(attempts), a);
  }

  // ---- The same bound with Redis ----

  function RedisLogIn(r: Redis, a: Attempt): (Redis, Outcome) {
    var (r', blocked) := RedisCheck(r, a.ip, a.now);
    var outcome := Judge(blocked, a.finding);
    (match outcome
     case Refused => RedisRecord(r', a.ip, a.now)
     case Admitted => r' - {a.ip}
     case _ => r', outcome)
  }

  function RedisAfter(attempts: seq<Attempt>): Redis {
    if attempts == [] then map[] else RedisLogIn(RedisAfter(attempts[..|attempts|-1]), attempts[|attempts|-1]).0
  }

  function RedisFailures(attempts: seq<Attempt>, ip: string): seq<real> {
    if attempts == [] then [] else
    var n := |attempts| - 1;
    Tallied(RedisFailures(attempts[..n], ip), ip, attempts[n], RedisLogIn(RedisAfter(attempts[..n]), attempts[n]).1)
  }

  /** The different moments on record in a window. */
  function Moments(ts: seq<real>, lo: real, hi: real): set<real> { set t | t in ts && lo < t <= hi }

  /** The failures an address has, in the place of a memory record of it. */
  function Standing(ip: string, ts: seq<real>): Memory { map[ip := ts] }

  lemma RedisCheckKeeps(ts: seq<real>, r: Redis, ip: string, from: real, now: real)
    requires HeldOn(Standing(ip, ts), r, ip, from) && from <= now
    ensures var (r', blocked) := RedisCheck(r, ip, now);
      && HeldOn(Standing(ip, ts), r', ip, now)
      && (blocked <==> |set t | t in ts && t > now - WINDOW| >= LIMIT)
  {
    SameMoments(Standing(ip, ts), r, ip, from, now);
    assert AllScores(RedisCheck(r, ip, now).0, ip) == LiveScores(r, ip, now);
  }

  /** A failure is recorded only while fewer than five moments are in the window it ends. */
  lemma OneMoreMoment(ts: seq<real>, now: real, lo: real)
    requires |Moments(ts, lo, lo + WINDOW)| <= LIMIT && |set t | t in ts && t > now - WINDOW| < LIMIT
    ensures |Moments(ts + [now], lo, lo + WINDOW)| <= LIMIT
  {
    var all := Moments(ts + [now], lo, lo + WINDOW);
    if lo < now <= lo + WINDOW {
      var live := set t | t in ts && t > now - WINDOW;
      assert all <= live + {now};
      SubsetSize(all, live + {now});
    } else {
      assert all == Moments(ts, lo, lo + WINDOW);
    }
  }

  lemma RedisRecordKeeps(ts: seq<real>, r: Redis, ip: string, now: real)
    requires HeldOn(Standing(ip, ts), r, ip, now) && 0.0 <= now
    ensures HeldOn(Standing(ip, ts + [now]), RedisRecord(r, ip, now), ip, now)
  {
    RecordHolds(Standing(ip, ts), r, ip, now, now);
    assert MemoryRecord(Standing(ip, ts), ip, now) == Standing(ip, ts + [now]);
  }

  lemma RedisClearKeeps(r: Redis, ip: string, now: real)
    ensures HeldOn(Standing(ip, []), r - {ip}, ip, now)
  {
    assert Attempts(Standing(ip, []), ip) == [] && AllScores(r - {ip}, ip) == {};
  }

  lemma RedisOwnAttempt(ts: seq<real>, r: Redis, a: Attempt, from: real, lo: real)
    requires HeldOn(Standing(a.ip, ts), r, a.ip, from) && from <= a.now && 0.0 <= a.now
    requires |Moments(ts, lo, lo + WINDOW)| <= LIMIT
    ensures var (r', outcome) := RedisLogIn(r, a);
      var ts' := Tallied(ts, a.ip, a, outcome);
      HeldOn(Standing(a.ip, ts'), r', a.ip, a.now) && |Moments(ts', lo, lo + WINDOW)| <= LIMIT
  {
    RedisCheckKeeps(ts, r, a.ip, from, a.now);
    var r' := RedisCheck(r, a.ip, a.now).0;
    match RedisLogIn(r, a).1
    case Refused =>
      RedisRecordKeeps(ts, r', a.ip, a.now);
      OneMoreMoment(ts, a.now, lo);
    case Admitted =>
      RedisClearKeeps(r', a.ip, a.now);
      assert Moments([], lo, lo + WINDOW) == {};
    case _ =>
  }

  lemma RedisOneMore(ts: seq<real>, r: Redis, ip: string, a: Attempt, from: real, lo: real)
    requires HeldOn(Standing(ip, ts), r, ip, from) && from <= a.now && 0.0 <= a.now
    requires |Moments(ts, lo, lo + WINDOW)| <= LIMIT
    ensures var (r', outcome) := RedisLogIn(r, a);
      var ts' := Tallied(ts, ip, a, outcome);
      HeldOn(Standing(ip, ts'), r', ip, a.now) && |Moments(ts', lo, lo + WINDOW)| <= LIMIT
  {
    if a.ip == ip {
      RedisOwnAttempt(ts, r, a, from, lo);
    } else {
      var r' := RedisLogIn(r, a).0;
      assert AllScores(r', ip) == AllScores(r, ip) && (ip in r' ==> ip in r && r'[ip] == r[ip]);
    }
  }

  lemma {:induction false} RedisTracked(attempts: seq<Attempt>, ip: string, now: real, lo: real)
    requires Ordered(attempts) && (forall a :: a in attempts ==> 0.0 <= a.now)
    requires attempts != [] ==> now >= attempts[|attempts|-1].now
    ensures HeldOn(Standing(ip, RedisFailures(attempts, ip)), RedisAfter(attempts), ip, now)
    ensures |Moments(RedisFailures(attempts, ip), lo, lo + WINDOW)| <= LIMIT
  {
    if attempts == [] {
      assert Moments([], lo, lo + WINDOW) == {};
    } else {
      var n := |attempts| - 1;
      var init, last := attempts[..n], attempts[n];
      assert last in attempts && forall a :: a in init ==> a in attempts;
      assert init != [] ==> init[n-1].now <= last.now;
      RedisTracked(init, ip, last.now, lo);
      RedisOneMore(RedisFailures(init, ip), RedisAfter(init), ip, last, last.now, lo);
    }
  }

  /** With Redis the bound is one on moments: ties count once, in the limiter and here. */
  lemma RedisAtMostFiveMoments(attempts: seq<Attempt>, ip: string, lo: real)
    requires Ordered(attempts) && forall a :: a in attempts ==> 0.0 <= a.now
    ensures |Moments(RedisFailures(attempts, ip), lo, lo + WINDOW)| <= LIMIT
  {
    RedisTracked(attempts, ip, if attempts == [] then 0.0 else attempts[|attempts|-1].now, lo);
  }

  predicate Untied(ts: seq<real>) { forall i, j :: 0 <= i < j < |ts| ==> ts[i] != ts[j] }

  lemma {:induction false} UntiedCount(ts: seq<real>, lo: real, hi: real)
    requires Untied(ts)
    ensures InWindow(ts, lo, hi) == |Moments(ts, lo, hi)|
  {
    if ts == [] {
      assert Moments(ts, lo, hi) == {};
    } else {
      var n := |ts| - 1;
      var init, last := ts[..n], ts[n];
      UntiedCount(init, lo, hi);
      assert ts == init + [last];
      assert last !in init;
      assert Moments(ts, lo, hi) == Moments(init, lo, hi) + if lo < last <= hi then {last} else {};
    }
  }

  /** With Redis the bound on failures is the same when no two recorded ones fell on one moment. */
  lemma RedisAtMostFiveFailures(attempts: seq<Attempt>, ip: string, lo: real)
    requires Ordered(attempts) && forall a :: a in attempts ==> 0.0 <= a.now
    requires Untied(RedisFailures(attempts, ip))
    ensures InWindow(RedisFailures(attempts, ip), lo, lo + WINDOW) <= LIMIT
  {
    RedisAtMostFiveMoments(attempts, ip, lo);
    UntiedCount(RedisFailures(attempts, ip), lo, lo + WINDOW);
  }

  lemma RedisLogInDoes(ts: seq<real>, r: Redis, a: Attempt)
    requires HeldOn(Standing(a.ip, ts), r, a.ip, a.now)
    ensures var outcome := RedisLogIn(r, a).1;
      var blocked := |Moments(ts, a.now - 60.0, a.now)| >= 5;
      && (outcome == Blocked <==> blocked)
      && (outcome == Refused <==> !blocked && a.finding == Wrong)
      && (outcome == Admitted <==> !blocked && a.finding == Right)
  {
    RedisCheckKeeps(ts, r, a.ip, a.now, a.now);
    assert Attempts(Standing(a.ip, ts), a.ip) == ts;
    assert Moments(ts, a.now - 60.0, a.now) == set t | t in ts && t > a.now - WINDOW;
  }

  /** With Redis a request is blocked exactly when its address has failures on record at five different moments or more
      of the last sixty seconds; otherwise it is judged as with the list. */
  lemma RedisBlockedIff(attempts: seq<Attempt>, a: Attempt)
    requires Ordered(attempts) && (attempts != [] ==> attempts[|attempts|-1].now <= a.now)
    requires 0.0 <= a.now && forall x :: x in attempts ==> 0.0 <= x.now
    ensures var outcome := RedisLogIn(RedisAfter(attempts), a).1;
      var blocked := |Moments(RedisFailures(attempts, a.ip), a.now - 60.0, a.now)| >= 5;
      && (outcome == Blocked <==> blocked)
      && (outcome == Refused <==> !blocked && a.finding == Wrong)
      && (outcome == Admitted <==> !blocked && a.finding == Right)
  {
    hide RedisAfter, RedisFailures, RedisLogIn, HeldOn;
    RedisTracked(attempts, a.ip, a.now, 0.0);
    RedisLogInDoes(RedisFailures(attempts, a.ip), RedisAfter(attempts), a);
  }
}
