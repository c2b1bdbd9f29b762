/** How many requests of one client the limiter grants in a window of time. */
module RateLimiterBounds {
  import opened IpRateLimiter
  import opened RateLimiterSweep

  /** How many of the trace's requests from ip, made within [from, to], were granted. */
  function Granted(trace: seq<Request>, decisions: seq<bool>, ip: string, from: int, to: int): nat
    requires |trace| == |decisions|
    decreases |trace|
  {
    if trace == [] then 0
    else (if decisions[0] && trace[0].ip == ip && from <= trace[0].now <= to then 1 else 0)
         + Granted(trace[1..], decisions[1..], ip, from, to)
  }

  /** A client's tokens as of time 0, had they only ever been refilled; a new client's never exceed `cap`. */
  function Level(l: Limiter, ip: string, cap: int): int {
    if ip !in l.clients then cap
    else
      var level := l.clients[ip].tokens - l.clients[ip].last * l.rps;
      if level < cap then level else cap
  }

  lemma RefillFromZero(from: int, to: int, rps: nat)
    ensures (to - from) * rps == to * rps - from * rps
  {
  }

  /** No request raises a level, whenever its clock says it is. */
  lemma TakeNeverRaisesLevel(l: Limiter, r: Request, ip: string, cap: int)
    requires 0 < l.rps && 0 < l.burst
    ensures Level(Take(l, r).0, ip, cap) <= Level(l, ip, cap)
  {
    if r.ip == ip && ip in l.clients {
      RefillFromZero(l.clients[ip].last, r.now, l.rps);
    }
  }

  /** A grant inside the window costs a token, and what is left is worth no less than the window's end. */
  lemma GrantLowersLevel(l: Limiter, r: Request, from: int, to: int)
    requires 0 < l.rps && 0 < l.burst && from <= r.now <= to && Take(l, r).1
    ensures var cap := Full(l) - from * l.rps;
            && Level(Take(l, r).0, r.ip, cap) <= Level(l, r.ip, cap) - SECOND
            && 0 <= Level(l, r.ip, cap) - SECOND + to * l.rps
  {
    LongerYieldsMore(from, r.now, l.rps);
    LongerYieldsMore(r.now, to, l.rps);
    if r.ip in l.clients {
      RefillFromZero(l.clients[r.ip].last, r.now, l.rps);
    }
  }

  lemma {:induction false} GrantsFitLevel(l: Limiter, trace: seq<Request>, ip: string, from: int, to: int)
    requires 0 < l.rps && 0 < l.burst && |trace| == |ReferenceDecisions(l, trace)|
    ensures var granted := Granted(trace, ReferenceDecisions(l, trace), ip, from, to);
            granted > 0 ==> granted * SECOND <= Level(l, ip, Full(l) - from * l.rps) + to * l.rps
    decreases |trace|
  {
    if trace != [] {
      var r, next := trace[0], Take(l, trace[0]).0;
      GrantsFitLevel(next, trace[1..], ip, from, to);
      TakeNeverRaisesLevel(l, r, ip, Full(l) - from * l.rps);
      if r.ip == ip && from <= r.now <= to && Take(l, r).1 {
        GrantLowersLevel(l, r, from, to);
      }
    }
  }

  /** The bucket alone, from any state and with clocks in any order, never exceeds the rate. */
  lemma ReferenceRateBound(l: Limiter, trace: seq<Request>, ip: string, from: int, to: int)
    requires 0 < l.rps && 0 < l.burst && from <= to
    ensures |ReferenceDecisions(l, trace)| == |trace|
    ensures Granted(trace, ReferenceDecisions(l, trace), ip, from, to) * SECOND <= Full(l) + (to - from) * l.rps
  {
    SameLength(l, trace);
    GrantsFitLevel(l, trace, ip, from, to);
    RefillFromZero(from, to, l.rps);
    LongerYieldsMore(from, to, l.rps);
  }

  /** In billionths: granted * SECOND <= burst * SECOND + rps * (to - from). */
  predicate RateIsBounded(l: Limiter, trace: seq<Request>, ip: string, from: int, to: int) {
    && |Decisions(l, trace)| == |trace|
    && Granted(trace, Decisions(l, trace), ip, from, to) * SECOND <= l.burst * SECOND + l.rps * (to - from)
  }

  /** In any window of any run one client is granted at most the burst plus the window's refill. */
  lemma RateBound(rps: int, burst: int, skew: nat, start: int, trace: seq<Request>, ip: string, from: int, to: int)
    requires 0 < rps && SweepIsInvisible(rps, burst, skew) && WithinSkew(skew, start, trace) && from <= to
    ensures RateIsBounded(NewLimiter(rps, burst, start), trace, ip, from, to)
  {
    var l := NewLimiter(rps, burst, start);
    SweepTransparency(rps, burst, skew, start, trace);
    SameLength(l, trace);
    ReferenceRateBound(l, trace, ip, from, to);
    assert (to - from) * l.rps == l.rps * (to - from);
  }

  // ---------------------------------------------------------------- and no request is refused without need

  lemma {:induction false} GrantedGrows(trace: seq<Request>, decisions: seq<bool>, ip: string,
                                        from: int, to: int, later: int)
    requires |trace| == |decisions| && to <= later
    ensures Granted(trace, decisions, ip, from, to) <= Granted(trace, decisions, ip, from, later)
    decreases |trace|
  {
    if trace != [] {
      GrantedGrows(trace[1..], decisions[1..], ip, from, to, later);
    }
  }

  lemma GrantedSnoc(trace: seq<Request>, decisions: seq<bool>, r: Request, d: bool, ip: string, from: int, to: int)
    requires |trace| == |decisions|
    ensures Granted(trace + [r], decisions + [d], ip, from, to) ==
            Granted(trace, decisions, ip, from, to) + (if d && r.ip == ip && from <= r.now <= to then 1 else 0)
  {
    GrantedConcat(trace, [r], decisions, [d], ip, from, to);
    assert Granted([r][1..], [d][1..], ip, from, to) == 0;
  }

  /** A bucket holds at least what a full one would since `from`, less what was granted since. */
  predicate HoldsItsDue(l: Limiter, b: Bucket, granted: nat, from: int) {
    from <= b.last && Full(l) + (b.last - from) * l.rps <= b.tokens + granted * SECOND
  }

  /** A request to a known client: if the bucket overflows, it is due from now on, else still from before. */
  lemma RequestKeepsDue(l: Limiter, b: Bucket, now: int, granted: nat, from: int)
    requires 0 < l.rps && 0 < l.burst && b.last <= now && HoldsItsDue(l, b, granted, from)
    ensures var tokens := Refilled(l, b, now);
            var after := Bucket(if tokens >= SECOND then tokens - SECOND else tokens, now);
            if tokens == Full(l) then HoldsItsDue(l, after, 1, now)
            else HoldsItsDue(l, after, granted + (if tokens >= SECOND then 1 else 0), from)
  {
    assert (b.last - from) * l.rps + (now - b.last) * l.rps == (now - from) * l.rps;
  }

  /** A client's bucket, and since when it holds its due. */
  ghost predicate DueSince(l: Limiter, trace: seq<Request>, ip: string, from: int) {
    var m := ReferenceAfter(l, trace);
    && |ReferenceDecisions(l, trace)| == |trace| && m.rps == l.rps && m.burst == l.burst
    && (ip in m.clients ==>
          && trace != [] && m.clients[ip].last <= trace[|trace| - 1].now
          && HoldsItsDue(l, m.clients[ip],
                         Granted(trace, ReferenceDecisions(l, trace), ip, from, m.clients[ip].last), from))
  }

  lemma DueAfterOther(l: Limiter, trace: seq<Request>, r: Request, ip: string, from: int)
    requires 0 < l.rps && 0 < l.burst && DueSince(l, trace, ip, from) && r.ip != ip
    requires trace != [] ==> trace[|trace| - 1].now <= r.now
    ensures DueSince(l, trace + [r], ip, from)
  {
    var m := ReferenceAfter(l, trace);
    assert (trace + [r])[..|trace|] == trace;
    ReferenceDecisionsSnoc(l, trace, r);
    if ip in m.clients {
      GrantedSnoc(trace, ReferenceDecisions(l, trace), r, Take(m, r).1, ip, from, m.clients[ip].last);
    }
  }

  lemma DueAfterNew(l: Limiter, trace: seq<Request>, r: Request)
    requires 0 < l.rps && 0 < l.burst && DueSince(l, trace, r.ip, r.now) && r.ip !in ReferenceAfter(l, trace).clients
    ensures DueSince(l, trace + [r], r.ip, r.now)
  {
    assert (trace + [r])[..|trace|] == trace;
    ReferenceDecisionsSnoc(l, trace, r);
    GrantedSnoc(trace, ReferenceDecisions(l, trace), r, true, r.ip, r.now, r.now);
    NewBucketHoldsDue(l, r.now, Granted(trace, ReferenceDecisions(l, trace), r.ip, r.now, r.now) + 1);
  }

  lemma NewBucketHoldsDue(l: Limiter, now: int, granted: nat)
    requires granted >= 1
    ensures HoldsItsDue(l, Bucket(Full(l) - SECOND, now), granted, now)
  {
    assert (now - now) * l.rps == 0;
  }

  lemma DueAfterKnown(l: Limiter, trace: seq<Request>, r: Request, from: int) returns (from': int)
    requires 0 < l.rps && 0 < l.burst && DueSince(l, trace, r.ip, from) && r.ip in ReferenceAfter(l, trace).clients
    requires trace != [] ==> trace[|trace| - 1].now <= r.now
    ensures DueSince(l, trace + [r], r.ip, from')
  {
    var m, decisions := ReferenceAfter(l, trace), ReferenceDecisions(l, trace);
    var b, d := m.clients[r.ip], Take(m, r).1;
    var granted := Granted(trace, decisions, r.ip, from, b.last);
    assert (trace + [r])[..|trace|] == trace;
    ReferenceDecisionsSnoc(l, trace, r);
    RequestKeepsDue(l, b, r.now, granted, from);
    from' := if Refilled(m, b, r.now) == Full(l) then r.now else from;
    GrantedSnoc(trace, decisions, r, d, r.ip, from', r.now);
    GrantedGrows(trace, decisions, r.ip, from, b.last, r.now);
  }

  lemma {:induction false} AlwaysDueSince(l: Limiter, start: int, trace: seq<Request>, ip: string) returns (from: int)
    requires 0 < l.rps && 0 < l.burst && l.clients == map[] && Ordered(start, trace)
    ensures DueSince(l, trace, ip, from)
    decreases |trace|
  {
    if trace == [] {
      from := start;
    } else {
      var init, r := trace[..|trace| - 1], trace[|trace| - 1];
      from := AlwaysDueSince(l, start, init, ip);
      assert init + [r] == trace;
      if r.ip != ip {
        DueAfterOther(l, init, r, ip, from);
      } else if ip in ReferenceAfter(l, init).clients {
        from := DueAfterKnown(l, init, r, from);
      } else {
        from := r.now;
        DueAfterNew(l, init, r);
      }
    }
  }

  /** One more grant stays within burst plus refill in the window from `from` to the request. */
  predicate Fits(l: Limiter, trace: seq<Request>, decisions: seq<bool>, r: Request, from: int)
    requires |trace| == |decisions|
  {
    (Granted(trace, decisions, r.ip, from, r.now) + 1) * SECOND <= Full(l) + (r.now - from) * l.rps
  }

  lemma RefusedDoesNotFit(l: Limiter, start: int, trace: seq<Request>, r: Request) returns (from: int)
    requires 0 < l.rps && 0 < l.burst && l.clients == map[] && Ordered(start, trace + [r])
    requires !Take(ReferenceAfter(l, trace), r).1
    ensures |ReferenceDecisions(l, trace)| == |trace|
    ensures from <= r.now && !Fits(l, trace, ReferenceDecisions(l, trace), r, from)
  {
    assert Ordered(start, trace) by {
      assert forall i :: 0 <= i < |trace| ==> trace[i] == (trace + [r])[i];
    }
    from := AlwaysDueSince(l, start, trace, r.ip);
    var b := ReferenceAfter(l, trace).clients[r.ip];
    assert (trace + [r])[|trace| - 1] == trace[|trace| - 1] && (trace + [r])[|trace|] == r;
    RequestKeepsDue(l, b, r.now, Granted(trace, ReferenceDecisions(l, trace), r.ip, from, b.last), from);
    GrantedGrows(trace, ReferenceDecisions(l, trace), r.ip, from, b.last, r.now);
  }

  lemma GrantedFits(l: Limiter, trace: seq<Request>, r: Request, from: int)
    requires 0 < l.rps && 0 < l.burst && from <= r.now && Take(ReferenceAfter(l, trace), r).1
    ensures |ReferenceDecisions(l, trace)| == |trace|
    ensures Fits(l, trace, ReferenceDecisions(l, trace), r, from)
  {
    SameLength(l, trace);
    ReferenceDecisionsSnoc(l, trace, r);
    GrantedSnoc(trace, ReferenceDecisions(l, trace), r, true, r.ip, from, r.now);
    ReferenceRateBound(l, trace + [r], r.ip, from, r.now);
  }

  /** With ordered clocks a request is granted exactly if every window that ends with it has room for it. */
  lemma ReferenceGrantsIff(l: Limiter, start: int, trace: seq<Request>, r: Request)
    requires 0 < l.rps && 0 < l.burst && l.clients == map[] && Ordered(start, trace + [r])
    ensures |ReferenceDecisions(l, trace)| == |trace|
    ensures Take(ReferenceAfter(l, trace), r).1 <==>
            forall from :: from <= r.now ==> Fits(l, trace, ReferenceDecisions(l, trace), r, from)
  {
    SameLength(l, trace);
    if Take(ReferenceAfter(l, trace), r).1 {
      forall from | from <= r.now ensures Fits(l, trace, ReferenceDecisions(l, trace), r, from) {
        GrantedFits(l, trace, r, from);
      }
    } else {
      var from := RefusedDoesNotFit(l, start, trace, r);
    }
  }

  lemma AlikeOnPrefix(l: Limiter, trace: seq<Request>, r: Request)
    requires Transparent(l, trace + [r])
    ensures Decisions(l, trace) == ReferenceDecisions(l, trace)
    ensures Allow(After(l, trace), r).1 == Take(ReferenceAfter(l, trace), r).1
  {
    SameLength(l, trace);
    DecisionsSnoc(l, trace, r);
    ReferenceDecisionsSnoc(l, trace, r);
    assert Decisions(l, trace + [r])[..|trace|] == Decisions(l, trace);
    assert ReferenceDecisions(l, trace + [r])[..|trace|] == ReferenceDecisions(l, trace);
    assert Decisions(l, trace + [r])[|trace|] == ReferenceDecisions(l, trace + [r])[|trace|];
  }

  /** So does the limiter with its sweep, where that is invisible: it grants all that its limits allow, and no more. */
  lemma LimiterGrantsIff(rps: int, burst: int, start: int, trace: seq<Request>, r: Request)
    requires 0 < rps && SweepIsInvisible(rps, burst, 0) && Ordered(start, trace + [r])
    ensures var l := NewLimiter(rps, burst, start);
            && |Decisions(l, trace)| == |trace|
            && (Allow(After(l, trace), r).1 <==>
                forall from :: from <= r.now ==> Fits(l, trace, Decisions(l, trace), r, from))
  {
    var l := NewLimiter(rps, burst, start);
    OrderedIsNoSkew(start, trace + [r]);
    SweepTransparency(rps, burst, 0, start, trace + [r]);
    AlikeOnPrefix(l, trace, r);
    ReferenceGrantsIff(l, start, trace, r);
  }

  // ---------------------------------------------------------------- and where it is exceeded

  lemma {:induction false} GrantedConcat(one: seq<Request>, two: seq<Request>, d1: seq<bool>, d2: seq<bool>,
                                         ip: string, from: int, to: int)
    requires |one| == |d1| && |two| == |d2|
    ensures Granted(one + two, d1 + d2, ip, from, to) == Granted(one, d1, ip, from, to) + Granted(two, d2, ip, from, to)
    decreases |one|
  {
    if one == [] {
      assert one + two == two && d1 + d2 == d2;
    } else {
      GrantedConcat(one[1..], two, d1[1..], d2, ip, from, to);
      assert (one + two)[1..] == one[1..] + two && (d1 + d2)[1..] == d1[1..] + d2;
    }
  }

  /** A new client is granted its whole burst at once. */
  lemma {:induction false} BurstIsGranted(l: Limiter, r: Request, n: nat, from: int, to: int)
    requires l.rps > 0 && l.burst > 0 && r.ip !in l.clients && NoSweepAt(l, r.now) && n <= l.burst
    requires from <= r.now <= to
    ensures |Decisions(l, Repeat(r, n))| == n
    ensures Granted(Repeat(r, n), Decisions(l, Repeat(r, n)), r.ip, from, to) == n
  {
    SameLength(l, Repeat(r, n));
    if n > 0 {
      var before := Repeat(r, n - 1);
      BurstIsGranted(l, r, n - 1, from, to);
      assert Repeat(r, n) == before + [r];
      DecisionsSnoc(l, before, r);
      DrainNewClient(l, r, n - 1);
      DrainOneMore(l, r, n - 1);
      GrantedConcat(before, [r], Decisions(l, before), [true], r.ip, from, to);
    }
  }

  /** The drained and forgotten client gets a second burst. */
  lemma DrainTraceGrantsTwice(l: Limiter, skew: nat)
    requires l.rps > 0 && l.burst > 0 && l.clients == map[] && l.lastSweep == Start(skew)
    ensures var trace := DrainTrace(l.burst, skew, l.burst);
            && |Decisions(l, trace)| == |trace|
            && Granted(trace, Decisions(l, trace), "a", 0, Again(skew)) >= 2 * l.burst
  {
    var a0, a := Request("a", 0), Request("a", Again(skew));
    var first, between, rest := Repeat(a0, l.burst), Between(skew), Repeat(a, l.burst);
    var head := FirstDrain(l.burst, skew);
    var drained, swept := After(l, first), After(l, head);
    FirstDrainForgets(l, skew);
    BurstIsGranted(l, a0, l.burst, 0, Again(skew));
    BurstIsGranted(swept, a, l.burst, 0, Again(skew));
    DecisionsConcat(l, head, rest);
    DecisionsConcat(l, first, between);
    SameLength(l, head);
    SameLength(drained, between);
    GrantedConcat(head, rest, Decisions(l, head), Decisions(swept, rest), "a", 0, Again(skew));
    GrantedConcat(first, between, Decisions(l, first), Decisions(drained, between), "a", 0, Again(skew));
  }

  lemma DrainTraceExceedsBound(rps: int, burst: int, skew: nat)
    requires 0 < rps && !SweepIsInvisible(rps, burst, skew)
    ensures var l := NewLimiter(rps, burst, Start(skew));
            var trace := DrainTrace(l.burst, skew, l.burst);
            WithinSkew(skew, Start(skew), trace) && !RateIsBounded(l, trace, "a", 0, Again(skew))
  {
    var l := NewLimiter(rps, burst, Start(skew));
    AgainIsTooEarly(rps, burst, skew);
    DrainTraceWithinSkew(l.burst, skew);
    DrainTraceGrantsTwice(l, skew);
    assert Again(skew) * l.rps == l.rps * (Again(skew) - 0);
  }

  /** The rate is bounded in every window of every run with at most this skew exactly when the sweep changes nothing. */
  lemma RateBoundIff(rps: int, burst: int, skew: nat)
    requires 0 < rps
    ensures SweepIsInvisible(rps, burst, skew) <==>
            forall start, trace, ip, from, to :: WithinSkew(skew, start, trace) && from <= to ==>
              RateIsBounded(NewLimiter(rps, burst, start), trace, ip, from, to)
  {
    if SweepIsInvisible(rps, burst, skew) {
      forall start, trace, ip, from, to | WithinSkew(skew, start, trace) && from <= to
        ensures RateIsBounded(NewLimiter(rps, burst, start), trace, ip, from, to)
      {
        RateBound(rps, burst, skew, start, trace, ip, from, to);
      }
    } else {
      DrainTraceExceedsBound(rps, burst, skew);
    }
  }

  /** Where clocks may lie more than five minutes apart, no positive rate keeps its bound, whatever the burst. */
  lemma DisorderExceedsBound(rps: int, burst: int, skew: nat)
    requires 0 < rps && 5 * MINUTE < skew
    ensures var l := NewLimiter(rps, burst, Start(skew));
            WithinSkew(skew, Start(skew), DrainTrace(l.burst, skew, l.burst))
            && !RateIsBounded(l, DrainTrace(l.burst, skew, l.burst), "a", 0, 0)
  {
    DrainTraceExceedsBound(rps, burst, skew);
  }
}
