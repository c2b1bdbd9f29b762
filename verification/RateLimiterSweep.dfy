/**
  When forgetting idle clients goes unnoticed. A request reads its clock before it
  gets the lock, so clocks may come out of order, up to some skew.
 */
module RateLimiterSweep {
  import opened Basics
  import opened IpRateLimiter

  /** A client is only forgotten once its bucket is full again, whatever clock asks for it next. */
  predicate SweepIsInvisible(rps: int, burst: int, skew: nat) {
    var l := NewLimiter(rps, burst, 0);
    l.rps == 0 || Full(l) <= (5 * MINUTE + 1 - 2 * skew) * l.rps
  }

  // ---------------------------------------------------------------- sweeping is invisible

  /** A bucket as requests up to the clock `latest` leave it: refilled to that clock, it is not overdrawn. */
  predicate BucketOk(l: Limiter, b: Bucket, latest: int, skew: nat) {
    && -(skew * l.rps) <= b.tokens <= Full(l)
    && b.last <= latest
    && 0 <= b.tokens + (latest - b.last) * l.rps
  }

  /** The limiter has forgotten some clients of the reference, but only such as will have full buckets. */
  ghost predicate Simulates(l: Limiter, ref: Limiter, latest: int, skew: nat) {
    && l.rps == ref.rps && l.burst == ref.burst && 0 < l.rps <= l.burst
    && (forall ip :: ip in ref.clients ==> BucketOk(ref, ref.clients[ip], latest, skew))
    && (forall ip :: ip in l.clients ==> ip in ref.clients && l.clients[ip] == ref.clients[ip])
    && (forall ip :: ip in ref.clients && ip !in l.clients ==>
          Refilled(ref, ref.clients[ip], latest - skew) == Full(ref))
  }

  lemma LongerYieldsMore(short: int, long: int, rate: nat)
    requires short <= long
    ensures short * rate <= long * rate
  {
    assert (long - short) * rate >= 0;
  }

  lemma SplitRefill(from: int, mid: int, to: int, rps: nat)
    ensures (to - from) * rps == (mid - from) * rps + (to - mid) * rps
  {
  }

  lemma RefillGrows(l: Limiter, b: Bucket, now: int, later: int)
    requires now <= later
    ensures Refilled(l, b, now) <= Refilled(l, b, later) <= Full(l)
  {
    LongerYieldsMore(now - b.last, later - b.last, l.rps);
  }

  /** A bucket stays as it should be when a later clock is seen. */
  lemma BucketStaysOk(l: Limiter, b: Bucket, latest: int, later: int, skew: nat)
    requires BucketOk(l, b, latest, skew) && latest <= later
    ensures BucketOk(l, b, later, skew)
  {
    LongerYieldsMore(latest - b.last, later - b.last, l.rps);
  }

  /** And when a request refills it, to a clock not too far behind. */
  lemma RefillIsOk(l: Limiter, b: Bucket, latest: int, now: int, skew: nat)
    requires BucketOk(l, b, latest, skew) && latest - skew <= now
    ensures BucketOk(l, Bucket(Refilled(l, b, now), now), Later(latest, now), skew)
  {
    var later := Later(latest, now);
    SplitRefill(b.last, now, later, l.rps);
    SplitRefill(b.last, latest, now, l.rps);
    SplitRefill(b.last, latest, later, l.rps);
    LongerYieldsMore(0 - skew, now - latest, l.rps);
    LongerYieldsMore(0, later - now, l.rps);
    LongerYieldsMore(0, later - latest, l.rps);
    assert (0 - skew) * l.rps == 0 - skew * l.rps;
    assert 0 <= skew * l.rps;
  }

  /** A granted token may be spent from it. */
  lemma SpendingIsOk(l: Limiter, tokens: int, latest: int, now: int, skew: nat)
    requires SECOND <= tokens <= Full(l) && now <= latest
    ensures BucketOk(l, Bucket(tokens - SECOND, now), latest, skew)
  {
    LongerYieldsMore(0, latest - now, l.rps);
    assert 0 <= skew * l.rps;
  }

  lemma NewBucketIsOk(l: Limiter, latest: int, now: int, skew: nat)
    requires 0 < l.burst && now <= latest
    ensures BucketOk(l, Bucket(Full(l) - SECOND, now), latest, skew)
  {
    SpendingIsOk(l, Full(l), latest, now, skew);
  }

  lemma TakeKeepsBuckets(l: Limiter, r: Request, latest: int, skew: nat)
    requires 0 < l.rps && 0 < l.burst && latest - skew <= r.now
    requires forall ip :: ip in l.clients ==> BucketOk(l, l.clients[ip], latest, skew)
    ensures var l' := Take(l, r).0;
            forall ip :: ip in l'.clients ==> BucketOk(l', l'.clients[ip], Later(latest, r.now), skew)
  {
    var l', later := Take(l, r).0, Later(latest, r.now);
    forall ip | ip in l'.clients ensures BucketOk(l', l'.clients[ip], later, skew) {
      if ip != r.ip {
        BucketStaysOk(l, l.clients[ip], latest, later, skew);
      } else if ip in l.clients {
        RefillIsOk(l, l.clients[ip], latest, r.now, skew);
        if Take(l, r).1 {
          SpendingIsOk(l, Refilled(l, l.clients[ip], r.now), later, r.now, skew);
        }
      } else {
        NewBucketIsOk(l, later, r.now, skew);
      }
    }
  }

  /** A client forgotten by the one limiter has a full bucket in the other, so both decide alike. */
  lemma TakeDecidesAlike(l: Limiter, ref: Limiter, r: Request, latest: int, skew: nat)
    requires Simulates(l, ref, latest, skew) && latest - skew <= r.now
    ensures Take(l, r).1 == Take(ref, r).1
    ensures Take(l, r).0.clients[r.ip] == Take(ref, r).0.clients[r.ip]
  {
    if r.ip in ref.clients {
      RefillGrows(ref, ref.clients[r.ip], latest - skew, r.now);
    }
  }

  lemma ForgottenStayFull(ref: Limiter, b: Bucket, latest: int, later: int, skew: nat)
    requires Refilled(ref, b, latest - skew) == Full(ref) && latest <= later
    ensures Refilled(ref, b, later - skew) == Full(ref)
  {
    RefillGrows(ref, b, latest - skew, later - skew);
  }

  lemma TakeSimulates(l: Limiter, ref: Limiter, r: Request, latest: int, skew: nat)
    requires Simulates(l, ref, latest, skew) && latest - skew <= r.now
    ensures Take(l, r).1 == Take(ref, r).1
    ensures Simulates(Take(l, r).0, Take(ref, r).0, Later(latest, r.now), skew)
  {
    var later, l', ref' := Later(latest, r.now), Take(l, r).0, Take(ref, r).0;
    TakeKeepsBuckets(ref, r, latest, skew);
    TakeDecidesAlike(l, ref, r, latest, skew);
    forall ip | ip in ref'.clients && ip !in l'.clients
      ensures Refilled(ref', ref'.clients[ip], later - skew) == Full(ref')
    {
      ForgottenStayFull(ref, ref.clients[ip], latest, later, skew);
    }
  }

  /** A client idle for more than five minutes has a full bucket for every clock that may still come. */
  lemma IdleBucketIsFull(l: Limiter, b: Bucket, now: int, latest: int, skew: nat)
    requires BucketOk(l, b, latest, skew) && now <= latest && now - b.last > 5 * MINUTE
    requires Full(l) <= (5 * MINUTE + 1 - 2 * skew) * l.rps
    ensures Refilled(l, b, latest - skew) == Full(l)
  {
    LongerYieldsMore(5 * MINUTE + 1 - skew, latest - skew - b.last, l.rps);
    SplitRefill(0, 5 * MINUTE + 1 - 2 * skew, 5 * MINUTE + 1 - skew, l.rps);
  }

  lemma SweepSimulates(l: Limiter, ref: Limiter, now: int, latest: int, skew: nat)
    requires Simulates(l, ref, latest, skew) && now <= latest
    requires Full(l) <= (5 * MINUTE + 1 - 2 * skew) * l.rps
    ensures Simulates(Sweep(l, now), ref, latest, skew)
  {
    forall ip | ip in l.clients && ip !in Sweep(l, now).clients
      ensures Refilled(ref, ref.clients[ip], latest - skew) == Full(ref)
    {
      IdleBucketIsFull(ref, ref.clients[ip], now, latest, skew);
    }
  }

  lemma {:induction false} SimulationDecidesAlike(l: Limiter, ref: Limiter, latest: int, trace: seq<Request>, skew: nat)
    requires Simulates(l, ref, latest, skew) && Full(l) <= (5 * MINUTE + 1 - 2 * skew) * l.rps
    requires WithinSkew(skew, latest, trace)
    ensures Decisions(l, trace) == ReferenceDecisions(ref, trace)
    decreases |trace|
  {
    if trace != [] {
      var r := trace[0];
      var later := Later(latest, r.now);
      TakeSimulates(l, ref, r, latest, skew);
      SweepSimulates(Take(l, r).0, Take(ref, r).0, r.now, later, skew);
      SimulationDecidesAlike(Allow(l, r).0, Take(ref, r).0, later, trace[1..], skew);
    }
  }

  lemma {:induction false} UnlimitedDecidesAlike(l: Limiter, trace: seq<Request>)
    requires l.rps == 0 || l.burst == 0
    ensures Decisions(l, trace) == ReferenceDecisions(l, trace)
    decreases |trace|
  {
    if trace != [] {
      UnlimitedDecidesAlike(l, trace[1..]);
    }
  }

  /** The limiter decides on the trace as if it never forgot a client. */
  predicate Transparent(l: Limiter, trace: seq<Request>) {
    Decisions(l, trace) == ReferenceDecisions(l, trace)
  }

  lemma SweepTransparency(rps: int, burst: int, skew: nat, start: int, trace: seq<Request>)
    requires SweepIsInvisible(rps, burst, skew) && WithinSkew(skew, start, trace)
    ensures Transparent(NewLimiter(rps, burst, start), trace)
  {
    var l := NewLimiter(rps, burst, start);
    if l.rps == 0 {
      UnlimitedDecidesAlike(l, trace);
    } else {
      SimulationDecidesAlike(l, l, start, trace, skew);
    }
  }

  /** With ordered clocks, a burst of at most 300 seconds' refill is enough. */
  lemma OrderedSweepTransparency(rps: int, burst: int, start: int, trace: seq<Request>)
    requires burst <= 300 * rps && Ordered(start, trace)
    ensures Transparent(NewLimiter(rps, burst, start), trace)
  {
    OrderedIsNoSkew(start, trace);
    SweepTransparency(rps, burst, 0, start, trace);
  }

  // ---------------------------------------------------------------- and only then

  function Repeat(r: Request, n: nat): seq<Request> {
    seq(n, _ => r)
  }

  predicate SameLimits(l: Limiter, m: Limiter) {
    l.rps == m.rps && l.burst == m.burst && l.rps > 0 && l.burst > 0
  }

  /** A request with this clock does not start a sweep. */
  predicate NoSweepAt(l: Limiter, now: int) {
    now - l.lastSweep < MINUTE
  }

  /** One allowed request that starts no sweep. */
  lemma SpendToken(l: Limiter, r: Request)
    requires l.rps > 0 && l.burst > 0 && NoSweepAt(l, r.now)
    requires r.ip in l.clients ==> l.clients[r.ip].last == r.now && SECOND <= l.clients[r.ip].tokens <= Full(l)
    ensures var before := if r.ip in l.clients then l.clients[r.ip].tokens else Full(l);
            && Allow(l, r).0 == Take(l, r).0 == l.(clients := l.clients[r.ip := Bucket(before - SECOND, r.now)])
            && Allow(l, r).1 && Take(l, r).1
  {
    assert (r.now - r.now) * l.rps == 0;
  }

  lemma AfterRepeat(l: Limiter, r: Request, n: nat)
    requires n > 0
    ensures After(l, Repeat(r, n)) == Allow(After(l, Repeat(r, n - 1)), r).0
    ensures ReferenceAfter(l, Repeat(r, n)) == Take(ReferenceAfter(l, Repeat(r, n - 1)), r).0
  {
    assert Repeat(r, n)[..|Repeat(r, n)| - 1] == Repeat(r, n - 1);
  }

  /** The limiter after a new client has spent n tokens at once. */
  function Drained(l: Limiter, r: Request, n: nat): Limiter {
    if n == 0 then l else l.(clients := l.clients[r.ip := Bucket(Full(l) - n * SECOND, r.now)])
  }

  lemma DrainOneMore(l: Limiter, r: Request, n: nat)
    requires l.rps > 0 && l.burst > 0 && r.ip !in l.clients && NoSweepAt(l, r.now) && n < l.burst
    ensures Allow(Drained(l, r, n), r) == Take(Drained(l, r, n), r) == (Drained(l, r, n + 1), true)
  {
    assert Full(l) - n * SECOND >= SECOND;
    SpendToken(Drained(l, r, n), r);
    var next := Bucket(Full(l) - (n + 1) * SECOND, r.now);
    assert Drained(l, r, n).clients[r.ip := next] == Drained(l, r, n + 1).clients;
  }

  /** With nothing swept, a new client spends its burst token by token. */
  lemma {:induction false} DrainNewClient(l: Limiter, r: Request, n: nat)
    requires l.rps > 0 && l.burst > 0 && r.ip !in l.clients && NoSweepAt(l, r.now) && n <= l.burst
    ensures After(l, Repeat(r, n)) == ReferenceAfter(l, Repeat(r, n)) == Drained(l, r, n)
  {
    if n == 0 {
      assert Repeat(r, 0) == [];
    } else {
      DrainNewClient(l, r, n - 1);
      AfterRepeat(l, r, n);
      DrainOneMore(l, r, n - 1);
    }
  }

  /** A bucket that is not full cannot serve a whole burst at one instant. */
  lemma {:induction false} DrainKnownClient(l: Limiter, r: Request, n: nat)
    requires l.rps > 0 && l.burst > 0 && r.ip in l.clients && Refilled(l, l.clients[r.ip], r.now) < Full(l)
    ensures var m := ReferenceAfter(l, Repeat(r, n));
            && SameLimits(l, m) && r.ip in m.clients
            && (Refilled(m, m.clients[r.ip], r.now) < SECOND
                || Refilled(m, m.clients[r.ip], r.now) < Full(l) - n * SECOND)
  {
    if n > 0 {
      DrainKnownClient(l, r, n - 1);
      AfterRepeat(l, r, n);
      var m := ReferenceAfter(l, Repeat(r, n - 1));
      assert (r.now - r.now) * l.rps == 0;
    }
  }

  /** The clock of the second drain: as early as the skew lets it be, once the client has been swept. */
  function Again(skew: nat): int {
    Later(0, 5 * MINUTE + 1 - 2 * skew)
  }

  /**
    What has the drained client swept. If the skew is no larger than the idle time, a denied
    request first sets its clock back; otherwise the second drain itself can go back to time 0.
   */
  function Between(skew: nat): seq<Request> {
    if skew <= 5 * MINUTE then [Request("a", 0 - skew), Request("b", 5 * MINUTE + 1 - skew)]
    else [Request("b", 5 * MINUTE + 1)]
  }

  /** The time of construction, such that the one sweep comes with the request from "b". */
  function Start(skew: nat): int {
    if skew <= 5 * MINUTE && 4 * MINUTE + 1 < skew then 4 * MINUTE + 1 - skew else 0
  }

  function FirstDrain(burst: nat, skew: nat): seq<Request> {
    Repeat(Request("a", 0), burst) + Between(skew)
  }

  /** Drain a bucket, have it swept, and ask for n tokens again. */
  function DrainTrace(burst: nat, skew: nat, n: nat): seq<Request> {
    FirstDrain(burst, skew) + Repeat(Request("a", Again(skew)), n)
  }

  lemma {:induction false} RepeatWithinSkew(skew: nat, latest: int, r: Request, n: nat, rest: seq<Request>)
    requires latest - skew <= r.now && n > 0 && WithinSkew(skew, Later(latest, r.now), rest)
    ensures WithinSkew(skew, latest, Repeat(r, n) + rest)
    decreases n
  {
    var trace := Repeat(r, n) + rest;
    if n == 1 {
      assert trace[1..] == rest;
    } else {
      RepeatWithinSkew(skew, Later(latest, r.now), r, n - 1, rest);
      assert trace[1..] == Repeat(r, n - 1) + rest;
    }
  }

  lemma DrainTraceWithinSkew(burst: nat, skew: nat)
    requires burst > 0
    ensures WithinSkew(skew, Start(skew), DrainTrace(burst, skew, burst))
  {
    var again, between := Repeat(Request("a", Again(skew)), burst), Between(skew);
    var late := between[|between| - 1].now;
    assert again + [] == again;
    RepeatWithinSkew(skew, late, Request("a", Again(skew)), burst, []);
    BetweenWithinSkew(skew, again);
    RepeatWithinSkew(skew, Start(skew), Request("a", 0), burst, between + again);
    assert DrainTrace(burst, skew, burst) == Repeat(Request("a", 0), burst) + (between + again);
  }

  lemma BetweenWithinSkew(skew: nat, rest: seq<Request>)
    requires WithinSkew(skew, Between(skew)[|Between(skew)| - 1].now, rest)
    ensures WithinSkew(skew, 0, Between(skew) + rest)
  {
    var between := Between(skew);
    var trace := between + rest;
    if |between| == 2 {
      assert trace[1..][1..] == rest;
      assert WithinSkew(skew, 0, trace[1..]);
    } else {
      assert trace[1..] == rest;
    }
  }

  lemma AfterTwo(l: Limiter, one: Request, two: Request)
    ensures After(l, [one, two]) == Allow(Allow(l, one).0, two).0
    ensures ReferenceAfter(l, [one, two]) == Take(Take(l, one).0, two).0
  {
    assert [one, two][..1] == [one] && [one][..0] == [];
    AfterOne(l, one);
    assert After(l, [one, two]) == Allow(After(l, [one]), two).0;
    assert ReferenceAfter(l, [one, two]) == Take(ReferenceAfter(l, [one]), two).0;
  }

  lemma AfterOne(l: Limiter, one: Request)
    ensures After(l, [one]) == Allow(l, one).0 && ReferenceAfter(l, [one]) == Take(l, one).0
  {
    assert [one][..0] == [];
  }

  /** The reference remembers a client, at this time with this many tokens; the limiter has forgotten it. */
  ghost predicate Forgets(l: Limiter, trace: seq<Request>, ip: string, now: int, tokens: int) {
    var swept, kept := After(l, trace), ReferenceAfter(l, trace);
    && SameLimits(l, swept) && ip !in swept.clients && NoSweepAt(swept, now)
    && SameLimits(l, kept) && ip in kept.clients && Refilled(kept, kept.clients[ip], now) <= tokens
  }

  /** A denied request that only sets the clock of an empty bucket back. */
  lemma DeniedEarlier(l: Limiter, skew: nat)
    requires l.rps > 0 && l.burst > 0 && l.clients == map["a" := Bucket(0, 0)] && NoSweepAt(l, 0 - skew)
    ensures var r := Request("a", 0 - skew);
            Allow(l, r).0 == Take(l, r).0 == l.(clients := map["a" := Bucket((0 - skew) * l.rps, 0 - skew)])
  {
    LongerYieldsMore(0 - skew, 0, l.rps);
  }

  /** A request of somebody else that has the idle client swept. */
  lemma SweptByAnother(l: Limiter, b: Bucket, now: int)
    requires l.rps > 0 && l.burst > 0 && l.clients == map["a" := b]
    requires now - b.last > 5 * MINUTE && now - l.lastSweep >= MINUTE
    ensures var r := Request("b", now);
            && "a" !in Allow(l, r).0.clients && Allow(l, r).0.lastSweep == now && SameLimits(l, Allow(l, r).0)
            && "a" in Take(l, r).0.clients && Take(l, r).0.clients["a"] == b && SameLimits(l, Take(l, r).0)
  {
  }

  /** Such a bucket has, at time `again`, what it would have had without the denied request. */
  lemma OwedIsRepaid(l: Limiter, skew: nat, again: int)
    ensures Refilled(l, Bucket((0 - skew) * l.rps, 0 - skew), again) <= again * l.rps
  {
    SplitRefill(0 - skew, 0, again, l.rps);
  }

  lemma SmallSkewForgets(l: Limiter, skew: nat)
    requires l.rps > 0 && l.burst > 0 && l.clients == map["a" := Bucket(0, 0)] && l.lastSweep == Start(skew)
    requires skew <= 5 * MINUTE
    ensures Forgets(l, Between(skew), "a", Again(skew), Again(skew) * l.rps)
  {
    var one, two := Request("a", 0 - skew), Request("b", 5 * MINUTE + 1 - skew);
    var denied := l.(clients := map["a" := Bucket((0 - skew) * l.rps, 0 - skew)]);
    AfterTwo(l, one, two);
    DeniedEarlier(l, skew);
    SweptByAnother(denied, denied.clients["a"], two.now);
    OwedIsRepaid(Take(denied, two).0, skew, Again(skew));
  }

  lemma LargeSkewForgets(l: Limiter, skew: nat)
    requires l.rps > 0 && l.burst > 0 && l.clients == map["a" := Bucket(0, 0)] && l.lastSweep == Start(skew)
    requires skew > 5 * MINUTE
    ensures Forgets(l, Between(skew), "a", Again(skew), Again(skew) * l.rps)
  {
    AfterOne(l, Request("b", 5 * MINUTE + 1));
    SweptByAnother(l, Bucket(0, 0), 5 * MINUTE + 1);
  }

  lemma FirstDrainForgets(l: Limiter, skew: nat)
    requires l.rps > 0 && l.burst > 0 && l.clients == map[] && l.lastSweep == Start(skew)
    ensures Forgets(l, FirstDrain(l.burst, skew), "a", Again(skew), Again(skew) * l.rps)
  {
    var first := Repeat(Request("a", 0), l.burst);
    DrainNewClient(l, Request("a", 0), l.burst);
    AfterConcat(l, first, Between(skew));
    var drained := After(l, first);
    assert drained.clients == map["a" := Bucket(0, 0)];
    if skew <= 5 * MINUTE {
      SmallSkewForgets(drained, skew);
    } else {
      LargeSkewForgets(drained, skew);
    }
  }

  lemma NewClientGetsWholeBurst(l: Limiter, r: Request)
    requires l.rps > 0 && l.burst > 0 && r.ip !in l.clients && NoSweepAt(l, r.now)
    ensures Allow(After(l, Repeat(r, l.burst - 1)), r).1
  {
    DrainNewClient(l, r, l.burst - 1);
    DrainOneMore(l, r, l.burst - 1);
  }

  lemma KnownClientDoesNot(l: Limiter, r: Request)
    requires l.rps > 0 && l.burst > 0 && r.ip in l.clients && Refilled(l, l.clients[r.ip], r.now) < Full(l)
    ensures !Take(ReferenceAfter(l, Repeat(r, l.burst - 1)), r).1
  {
    DrainKnownClient(l, r, l.burst - 1);
  }

  lemma LastDecisionDiffers(l: Limiter, prefix: seq<Request>, r: Request)
    requires Allow(After(l, prefix), r).1 != Take(ReferenceAfter(l, prefix), r).1
    ensures !Transparent(l, prefix + [r])
  {
    DecisionsSnoc(l, prefix, r);
    ReferenceDecisionsSnoc(l, prefix, r);
    SameLength(l, prefix);
    assert Decisions(l, prefix + [r])[|prefix|] != ReferenceDecisions(l, prefix + [r])[|prefix|];
  }

  lemma RepeatSnoc(r: Request, n: nat)
    requires n > 0
    ensures Repeat(r, n) == Repeat(r, n - 1) + [r]
  {
  }

  /** The last request of a second burst: granted to the client forgotten, denied to the one remembered. */
  lemma LastOfBurstDiffers(l: Limiter, head: seq<Request>, r: Request, tokens: int)
    requires Forgets(l, head, r.ip, r.now, tokens) && tokens < Full(l)
    ensures !Transparent(l, head + Repeat(r, l.burst))
  {
    var almost := Repeat(r, l.burst - 1);
    AfterConcat(l, head, almost);
    NewClientGetsWholeBurst(After(l, head), r);
    KnownClientDoesNot(ReferenceAfter(l, head), r);
    LastDecisionDiffers(l, head + almost, r);
    RepeatSnoc(r, l.burst);
    ConcatAssoc(head, almost, [r]);
  }

  lemma AgainIsTooEarly(rps: int, burst: int, skew: nat)
    requires !SweepIsInvisible(rps, burst, skew)
    ensures var l := NewLimiter(rps, burst, 0);
            l.rps > 0 && l.burst > 0 && Again(skew) * l.rps < Full(l)
  {
  }

  /** Where the condition fails, the limiter grants a request that the reference denies. */
  lemma SweptClientGetsMore(rps: int, burst: int, skew: nat)
    requires !SweepIsInvisible(rps, burst, skew)
    ensures var l := NewLimiter(rps, burst, Start(skew));
            var trace := DrainTrace(l.burst, skew, l.burst);
            WithinSkew(skew, Start(skew), trace) && !Transparent(l, trace)
  {
    var l := NewLimiter(rps, burst, Start(skew));
    AgainIsTooEarly(rps, burst, skew);
    DrainTraceWithinSkew(l.burst, skew);
    FirstDrainForgets(l, skew);
    LastOfBurstDiffers(l, FirstDrain(l.burst, skew), Request("a", Again(skew)), Again(skew) * l.rps);
  }

  /**
    Forgetting idle clients changes no decision on any trace of clocks with at most this skew
    exactly when a burst refills within five minutes and one tick, less twice the skew.
   */
  lemma SweepTransparentIff(rps: int, burst: int, skew: nat)
    ensures SweepIsInvisible(rps, burst, skew) <==>
            forall start, trace :: WithinSkew(skew, start, trace) ==>
              Transparent(NewLimiter(rps, burst, start), trace)
  {
    if SweepIsInvisible(rps, burst, skew) {
      forall start, trace | WithinSkew(skew, start, trace) ensures Transparent(NewLimiter(rps, burst, start), trace) {
        SweepTransparency(rps, burst, skew, start, trace);
      }
    } else {
      SweptClientGetsMore(rps, burst, skew);
    }
  }
}
