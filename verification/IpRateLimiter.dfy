/**
  The per-client token bucket limiter, with its sweep of idle clients.

  Clocks count nanoseconds and tokens count billionths, so a refill of
  elapsed * rps is exact. The reference limiter is the same bucket without the
  sweep: it never forgets a client.
 */
module IpRateLimiter {

  const SECOND := 1_000_000_000
  const MINUTE := 60 * SECOND

  datatype Bucket = Bucket(tokens: int, last: int)
  datatype Limiter = Limiter(rps: nat, burst: nat, clients: map<string, Bucket>, lastSweep: int)
  datatype Request = Request(ip: string, now: int)

  /** Limits as configured: no negative rate, and a burst of at least the rate. */
  function NewLimiter(rps: int, burst: int, now: int): Limiter {
    var r: nat := if rps < 0 then 0 else rps;
    Limiter(r, if burst < r then r else burst, map[], now)
  }

  function Full(l: Limiter): int {
    l.burst * SECOND
  }

  function Refilled(l: Limiter, b: Bucket, now: int): int {
    var tokens := b.tokens + (now - b.last) * l.rps;
    if tokens < Full(l) then tokens else Full(l)
  }

  /** Take one token, if the client has one; the reference limiter does just this. */
  function Take(l: Limiter, r: Request): (Limiter, bool) {
    if l.rps == 0 || l.burst == 0 then (l, true)
    else if r.ip !in l.clients then
      (l.(clients := l.clients[r.ip := Bucket(Full(l) - SECOND, r.now)]), true)
    else
      var tokens := Refilled(l, l.clients[r.ip], r.now);
      var allowed := tokens >= SECOND;
      (l.(clients := l.clients[r.ip := Bucket(if allowed then tokens - SECOND else tokens, r.now)]), allowed)
  }

  /** Once a minute, forget every client idle for more than five. */
  function Sweep(l: Limiter, now: int): Limiter {
    if now - l.lastSweep < MINUTE then l
    else l.(clients := map ip | ip in l.clients && now - l.clients[ip].last <= 5 * MINUTE :: l.clients[ip],
            lastSweep := now)
  }

  function Allow(l: Limiter, r: Request): (Limiter, bool) {
    var (taken, allowed) := Take(l, r);
    if l.rps == 0 || l.burst == 0 then (l, true) else (Sweep(taken, r.now), allowed)
  }

  function Decisions(l: Limiter, trace: seq<Request>): seq<bool>
    decreases |trace|
  {
    if trace == [] then []
    else [Allow(l, trace[0]).1] + Decisions(Allow(l, trace[0]).0, trace[1..])
  }

  function ReferenceDecisions(l: Limiter, trace: seq<Request>): seq<bool>
    decreases |trace|
  {
    if trace == [] then []
    else [Take(l, trace[0]).1] + ReferenceDecisions(Take(l, trace[0]).0, trace[1..])
  }

  /** A clock that never runs backwards, from `start` on. */
  predicate Ordered(start: int, trace: seq<Request>) {
    && (forall i :: 0 <= i < |trace| ==> start <= trace[i].now)
    && (forall i, j :: 0 <= i < j < |trace| ==> trace[i].now <= trace[j].now)
  }

  /** Clocks in the order of the lock, each at most `skew` behind the latest one before it. */
  predicate WithinSkew(skew: nat, latest: int, trace: seq<Request>)
    decreases |trace|
  {
    trace != [] ==>
      latest - skew <= trace[0].now && WithinSkew(skew, Later(latest, trace[0].now), trace[1..])
  }

  function Later(x: int, y: int): int {
    if x < y then y else x
  }

  lemma {:induction false} OrderedIsNoSkew(start: int, trace: seq<Request>)
    ensures Ordered(start, trace) <==> WithinSkew(0, start, trace)
    decreases |trace|
  {
    if trace != [] {
      OrderedIsNoSkew(trace[0].now, trace[1..]);
      assert Ordered(start, trace) ==> Ordered(trace[0].now, trace[1..]);
    }
  }

  /** The limits a limiter ends up with: a rate that is not negative, and a burst of at least one second's worth. */
  lemma LimitsAreClamped(rps: int, burst: int, now: int)
    ensures var l := NewLimiter(rps, burst, now);
            && 0 <= l.rps <= l.burst && l.clients == map[] && l.lastSweep == now
            && (rps >= 0 ==> l.rps == rps) && (rps < 0 ==> l.rps == 0)
            && (burst >= rps && burst >= 0 ==> l.burst == burst)
            && (burst < rps ==> l.burst == l.rps)
  {
  }

  /** A limiter without a rate is off: it allows everything and remembers nobody. */
  lemma {:induction false} OffLimiterAllowsAll(l: Limiter, trace: seq<Request>)
    requires l.rps == 0 || l.burst == 0
    ensures |Decisions(l, trace)| == |trace| && forall i :: 0 <= i < |trace| ==> Decisions(l, trace)[i]
    ensures After(l, trace) == l
    decreases |trace|
  {
    if trace != [] {
      OffLimiterAllowsAll(l, trace[1..]);
      OffLimiterAllowsAll(l, trace[..|trace| - 1]);
    }
  }

  /** At most once in 60 seconds the clients idle for more than 300 are forgotten, and only they. */
  lemma SweepForgetsIdleClients(l: Limiter, now: int, ip: string)
    ensures var swept := Sweep(l, now);
            var due := now - l.lastSweep >= 60_000_000_000;
            && swept.lastSweep == (if due then now else l.lastSweep)
            && (ip in swept.clients <==>
                ip in l.clients && !(due && now - l.clients[ip].last > 300_000_000_000))
            && (ip in swept.clients ==> swept.clients[ip] == l.clients[ip])
  {
  }

  // ---------------------------------------------------------------- states and decisions along a trace

  function After(l: Limiter, trace: seq<Request>): Limiter
    decreases |trace|
  {
    if trace == [] then l else Allow(After(l, trace[..|trace| - 1]), trace[|trace| - 1]).0
  }

  function ReferenceAfter(l: Limiter, trace: seq<Request>): Limiter
    decreases |trace|
  {
    if trace == [] then l else Take(ReferenceAfter(l, trace[..|trace| - 1]), trace[|trace| - 1]).0
  }

  lemma {:induction false} DecisionsSnoc(l: Limiter, trace: seq<Request>, r: Request)
    ensures Decisions(l, trace + [r]) == Decisions(l, trace) + [Allow(After(l, trace), r).1]
    decreases |trace|
  {
    if trace == [] {
      assert [r][1..] == [];
    } else {
      var first, rest := trace[0], trace[1..];
      assert (trace + [r])[1..] == rest + [r];
      DecisionsSnoc(Allow(l, first).0, rest, r);
      AfterCons(l, trace);
    }
  }

  lemma {:induction false} AfterCons(l: Limiter, trace: seq<Request>)
    requires trace != []
    ensures After(l, trace) == After(Allow(l, trace[0]).0, trace[1..])
    decreases |trace|
  {
    if |trace| > 1 {
      var init := trace[..|trace| - 1];
      AfterCons(l, init);
      assert init[1..] == trace[1..][..|trace| - 2];
    }
  }

  lemma {:induction false} ReferenceDecisionsSnoc(l: Limiter, trace: seq<Request>, r: Request)
    ensures ReferenceDecisions(l, trace + [r]) == ReferenceDecisions(l, trace) + [Take(ReferenceAfter(l, trace), r).1]
    decreases |trace|
  {
    if trace == [] {
      assert [r][1..] == [];
    } else {
      var first, rest := trace[0], trace[1..];
      assert (trace + [r])[1..] == rest + [r];
      ReferenceDecisionsSnoc(Take(l, first).0, rest, r);
      ReferenceAfterCons(l, trace);
    }
  }

  lemma {:induction false} ReferenceAfterCons(l: Limiter, trace: seq<Request>)
    requires trace != []
    ensures ReferenceAfter(l, trace) == ReferenceAfter(Take(l, trace[0]).0, trace[1..])
    decreases |trace|
  {
    if |trace| > 1 {
      var init := trace[..|trace| - 1];
      ReferenceAfterCons(l, init);
      assert init[1..] == trace[1..][..|trace| - 2];
    }
  }

  lemma {:induction false} AfterConcat(l: Limiter, one: seq<Request>, two: seq<Request>)
    ensures After(l, one + two) == After(After(l, one), two)
    ensures ReferenceAfter(l, one + two) == ReferenceAfter(ReferenceAfter(l, one), two)
    decreases |two|
  {
    if two == [] {
      assert one + two == one;
    } else {
      assert (one + two)[..|one + two| - 1] == one + two[..|two| - 1];
      AfterConcat(l, one, two[..|two| - 1]);
    }
  }

  lemma {:induction false} DecisionsConcat(l: Limiter, one: seq<Request>, two: seq<Request>)
    ensures Decisions(l, one + two) == Decisions(l, one) + Decisions(After(l, one), two)
    decreases |one|
  {
    if one == [] {
      assert one + two == two;
    } else {
      DecisionsConcat(Allow(l, one[0]).0, one[1..], two);
      AfterCons(l, one);
      assert (one + two)[1..] == one[1..] + two;
    }
  }

  lemma {:induction false} SameLength(l: Limiter, trace: seq<Request>)
    ensures |Decisions(l, trace)| == |trace| == |ReferenceDecisions(l, trace)|
    decreases |trace|
  {
    if trace != [] {
      var init, last := trace[..|trace| - 1], trace[|trace| - 1];
      SameLength(l, init);
      assert trace == init + [last];
      DecisionsSnoc(l, init, last);
      ReferenceDecisionsSnoc(l, init, last);
    }
  }

  // ---------------------------------------------------------------- the limiter object

  class RateLimiter {
    const rps: nat
    const burst: nat
    var clients: map<string, Bucket>
    var lastSweep: int

    function View(): Limiter
      reads this
    {
      Limiter(rps, burst, clients, lastSweep)
    }

    constructor (rps: int, burst: int, now: int)
      ensures View() == NewLimiter(rps, burst, now)
    {
      this.rps := if rps < 0 then 0 else rps;
      var rate := if rps < 0 then 0 else rps;
      this.burst := if burst < rate then rate else burst;
      clients, lastSweep := map[], now;
    }

    /** Go over the clients in any order and delete the idle ones. */
    method SweepLocked(now: int)
      modifies this
      ensures View() == Sweep(old(View()), now)
    {
      if now - lastSweep < MINUTE {
        return;
      }
      var rest := clients.Keys;
      while rest != {}
        invariant rest <= old(clients).Keys
        invariant lastSweep == old(lastSweep)
        invariant clients == map ip | ip in old(clients)
                                      && (ip in rest || now - old(clients)[ip].last <= 5 * MINUTE) :: old(clients)[ip]
        decreases |rest|
      {
        var ip :| ip in rest;
        rest := rest - {ip};
        if now - clients[ip].last > 5 * MINUTE {
          clients := clients - {ip};
        }
      }
      lastSweep := now;
    }

    method AllowRequest(ip: string, now: int) returns (allowed: bool)
      modifies this
      ensures (View(), allowed) == Allow(old(View()), Request(ip, now))
    {
      if rps == 0 || burst == 0 {
        return true;
      }
      if ip !in clients {
        clients := clients[ip := Bucket((burst - 1) * SECOND, now)];
        SweepLocked(now);
        return true;
      }
      var bucket := clients[ip];
      var refilled := bucket.tokens + (now - bucket.last) * rps;
      var tokens := if refilled < burst * SECOND then refilled else burst * SECOND;
      clients := clients[ip := Bucket(tokens, now)];
      if tokens < SECOND {
        SweepLocked(now);
        return false;
      }
      clients := clients[ip := Bucket(tokens - SECOND, now)];
      assert clients == old(clients)[ip := Bucket(tokens - SECOND, now)];
      SweepLocked(now);
      return true;
    }
  }
}
