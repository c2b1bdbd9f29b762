/**
  Copying one resource from the remote system page by page, and the statistics kept on
  the way. Whether a fetch or an import succeeds is the outside world's choice.
 */
module PagingSync {
  datatype Outcome = Added | Updated | Unchanged | Rejected

  datatype Stats = Stats(total: nat, added: nat, updated: nat, skipped: nat, failed: nat)

  /** A fixed remote list; the k-th fetch reports total(k) as its length, or fails. */
  datatype Remote<!Item> = Remote(items: seq<Item>, total: nat -> int, down: nat -> bool)

  function PageSize(configured: int): (r: nat)
    ensures 1 <= r <= 200
    ensures 1 <= configured <= 200 ==> r == configured
    ensures configured < 1 || configured > 200 ==> r == 100
  {
    if configured <= 0 || configured > 200 then 100 else configured
  }

  function Min(a: int, b: int): int {
    if a < b then a else b
  }

  function Max(a: int, b: int): int {
    if a < b then b else a
  }

  /** How many of n items so many full fetches cover. */
  function Reached(fetches: nat, size: nat, n: nat): (r: nat)
    ensures r <= n
  {
    Min(fetches * size, n)
  }

  /** What the remote system answers to skip and limit. */
  function Page<Item>(items: seq<Item>, skip: nat, limit: nat): seq<Item> {
    if skip >= |items| then [] else items[skip..Min(skip + limit, |items|)]
  }

  /** The fetch after which the loop ends: the first that fails, is short, or reaches the reported total. */
  predicate Stops<Item>(remote: Remote<Item>, size: nat, k: nat) {
    || remote.down(k)
    || |Page(remote.items, k * size, size)| < size
    || k * size + size >= remote.total(k)
  }

  ghost predicate LastFetch<Item>(remote: Remote<Item>, size: nat, k: nat) {
    Stops(remote, size, k) && forall j: nat :: j < k ==> !Stops(remote, size, j)
  }

  /** How many of the first n imports had this outcome. */
  function Occurrences(outcome: nat -> Outcome, n: nat, o: Outcome): nat {
    if n == 0 then 0 else Occurrences(outcome, n - 1, o) + if outcome(n - 1) == o then 1 else 0
  }

  ghost function WithOutcome(outcome: nat -> Outcome, n: nat, o: Outcome): set<nat> {
    set k: nat | k < n && outcome(k) == o
  }

  lemma OneMoreOutcome(outcome: nat -> Outcome, n: nat, o: Outcome)
    ensures WithOutcome(outcome, n + 1, o) == WithOutcome(outcome, n, o) + if outcome(n) == o then {n} else {}
  {
  }

  /** Occurrences counts the imports with an outcome. */
  lemma {:induction false} OccurrencesAreCounts(outcome: nat -> Outcome, n: nat, o: Outcome)
    ensures Occurrences(outcome, n, o) == |WithOutcome(outcome, n, o)|
  {
    if n == 0 {
      assert WithOutcome(outcome, 0, o) == {};
    } else {
      OccurrencesAreCounts(outcome, n - 1, o);
      OneMoreOutcome(outcome, n - 1, o);
      assert n - 1 !in WithOutcome(outcome, n - 1, o);
    }
  }

  /** The statistics of n attempts. */
  predicate Tallies(stats: Stats, outcome: nat -> Outcome, n: nat) {
    && stats.added == Occurrences(outcome, n, Added)
    && stats.updated == Occurrences(outcome, n, Updated)
    && stats.skipped == Occurrences(outcome, n, Unchanged)
    && stats.failed == Occurrences(outcome, n, Rejected)
    && stats.total == stats.added + stats.updated + stats.skipped
  }

  /** No attempt is lost or counted twice. */
  lemma {:induction false} TalliesAddUp(stats: Stats, outcome: nat -> Outcome, n: nat)
    requires Tallies(stats, outcome, n)
    ensures stats.total + stats.failed == n
  {
    OutcomesPartition(outcome, n);
  }

  lemma {:induction false} OutcomesPartition(outcome: nat -> Outcome, n: nat)
    ensures Occurrences(outcome, n, Added) + Occurrences(outcome, n, Updated)
            + Occurrences(outcome, n, Unchanged) + Occurrences(outcome, n, Rejected) == n
  {
    if n > 0 {
      OutcomesPartition(outcome, n - 1);
    }
  }

  // ---------------------------------------------------------------- the loop

  method ImportPage<Item>(page: seq<Item>, outcome: nat -> Outcome, before: Stats, sofar: seq<Item>)
    returns (stats: Stats, attempted: seq<Item>)
    requires Tallies(before, outcome, |sofar|)
    ensures attempted == sofar + page && Tallies(stats, outcome, |attempted|)
  {
    stats, attempted := before, sofar;
    var first := before.total + before.failed;
    TalliesAddUp(before, outcome, |sofar|);
    for i := 0 to |page|
      invariant attempted == sofar + page[..i]
      invariant Tallies(stats, outcome, |attempted|)
      invariant |attempted| == first + i
    {
      stats := CountItem(stats, outcome, first + i);
      attempted := attempted + [page[i]];
      assert sofar + page[..i] + [page[i]] == sofar + page[..i + 1];
    }
    assert page[..|page|] == page;
  }

  /** The n-th import, counted. */
  method CountItem(before: Stats, outcome: nat -> Outcome, n: nat) returns (stats: Stats)
    requires Tallies(before, outcome, n)
    ensures Tallies(stats, outcome, n + 1)
  {
    stats := before;
    match outcome(n)
    case Rejected => stats := stats.(failed := stats.failed + 1);
    case Added => stats := stats.(total := stats.total + 1, added := stats.added + 1);
    case Updated => stats := stats.(total := stats.total + 1, updated := stats.updated + 1);
    case Unchanged => stats := stats.(total := stats.total + 1, skipped := stats.skipped + 1);
  }

  lemma PageAppends<Item>(items: seq<Item>, k: nat, size: nat)
    requires k * size <= |items|
    ensures |Page(items, k * size, size)| == Min(size, |items| - k * size)
    ensures items[..k * size] + Page(items, k * size, size) == items[..Reached(k + 1, size, |items|)]
  {
    OneMore(k, size);
  }

  lemma OneMore(k: nat, size: nat)
    ensures (k + 1) * size == k * size + size
  {
  }

  /** Attempts the items in order, each once; fetch last is the final one and counts only if it succeeded.
      attempted is what the importer was handed. */
  method SyncResource<Item>(remote: Remote<Item>, configured: int, started: bool, outcome: nat -> Outcome)
    returns (stats: Stats, ok: bool, last: nat, attempted: seq<Item>)
    ensures Tallies(stats, outcome, |attempted|) && stats.total + stats.failed == |attempted|
    ensures !started ==> !ok && attempted == []
    ensures started ==>
              var size := PageSize(configured);
              && LastFetch(remote, size, last)
              && ok == !remote.down(last)
              && attempted == remote.items[..Reached(if ok then last + 1 else last, size, |remote.items|)]
  {
    stats, attempted, last, ok := Stats(0, 0, 0, 0, 0), [], 0, false;
    if !started {
      return;
    }
    var size := PageSize(configured);
    var skip := 0;
    while true
      invariant skip == last * size <= |remote.items|
      invariant attempted == remote.items[..skip]
      invariant Tallies(stats, outcome, |attempted|)
      invariant forall j: nat :: j < last ==> !Stops(remote, size, j)
      decreases |remote.items| - skip
    {
      TalliesAddUp(stats, outcome, |attempted|);
      if remote.down(last) {
        return;
      }
      var page := Page(remote.items, skip, size);
      PageAppends(remote.items, last, size);
      stats, attempted := ImportPage(page, outcome, stats, attempted);
      TalliesAddUp(stats, outcome, |attempted|);
      if |page| == 0 || skip + |page| >= remote.total(last) || |page| < size {
        ok := true;
        return;
      }
      last := last + 1;
      skip := skip + size;
    }
  }

  // ---------------------------------------------------------------- how far it gets

  /** A remote system that never fails and always reports the same total. */
  ghost predicate Steady<Item>(remote: Remote<Item>, total: int) {
    forall k: nat :: !remote.down(k) && remote.total(k) == total
  }

  /** x divided by y, rounded up. */
  function CeilDiv(x: int, y: nat): int
    requires y > 0
  {
    (x + y - 1) / y
  }

  /** Rounding up and down, as thresholds on k * y. */
  lemma Thresholds(x: int, y: nat, k: int)
    requires y > 0
    ensures k >= CeilDiv(x, y) <==> k * y >= x
    ensures k >= x / y + 1 <==> k * y > x
  {
    CeilThreshold(x, y, k);
    CeilThreshold(x + 1, y, k);
    OneMoreDivisor(x, y);
  }

  lemma OneMoreDivisor(x: int, y: nat)
    requires y > 0
    ensures (x + y) / y == x / y + 1
  {
    var q, q' := x / y, (x + y) / y;
    assert q * y <= x && q' * y <= x + y;
    assert (q + 1) * y == q * y + y && (q' - 1) * y == q' * y - y;
    FloorThreshold(x + y, y, q + 1);
    FloorThreshold(x, y, q' - 1);
  }

  lemma FloorThreshold(x: int, y: nat, k: int)
    requires y > 0
    ensures x / y >= k <==> x >= k * y
  {
    var q := x / y;
    assert x == q * y + x % y;
    if q >= k {
      Monotone(k, q, y);
    } else {
      Monotone(q + 1, k, y);
      assert (q + 1) * y == q * y + y;
    }
  }

  lemma CeilThreshold(x: int, y: nat, k: int)
    requires y > 0
    ensures k >= CeilDiv(x, y) <==> k * y >= x
  {
    var q, r := (x + y - 1) / y, (x + y - 1) % y;
    assert x + y - 1 == q * y + r;
    if k >= q {
      Monotone(q, k, y);
    } else {
      Monotone(k, q - 1, y);
      assert (q - 1) * y == q * y - y;
    }
  }

  lemma Monotone(a: int, b: int, y: nat)
    requires a <= b
    ensures a * y <= b * y
  {
    assert (b - a) * y >= 0;
  }

  lemma StopsIff<Item>(remote: Remote<Item>, size: nat, total: int, k: nat)
    requires size > 0 && Steady(remote, total)
    ensures Stops(remote, size, k) <==> k + 1 >= |remote.items| / size + 1 || k + 1 >= CeilDiv(total, size)
  {
    OneMore(k, size);
    Thresholds(|remote.items|, size, k + 1);
    Thresholds(total, size, k + 1);
  }

  /** The number of fetches, whatever total is reported. */
  lemma FetchCount<Item>(remote: Remote<Item>, size: nat, total: int, last: nat)
    requires size > 0 && Steady(remote, total) && LastFetch(remote, size, last)
    ensures last + 1 == Min(|remote.items| / size + 1, Max(1, CeilDiv(total, size)))
  {
    StopsIff(remote, size, total, last);
    if last > 0 {
      StopsIff(remote, size, total, last - 1);
      assert !Stops(remote, size, last - 1);
    }
  }

  /** Every item is attempted exactly if one page holds all of them or the reported total reaches into the last page. */
  lemma CompleteIff<Item>(remote: Remote<Item>, size: nat, total: int, last: nat)
    requires size > 0 && Steady(remote, total) && LastFetch(remote, size, last)
    ensures remote.items[..Reached(last + 1, size, |remote.items|)] == remote.items <==>
            |remote.items| <= size || total > (|remote.items| - 1) / size * size
  {
    var n := |remote.items|;
    FetchCount(remote, size, total, last);
    CeilThreshold(n, size, last + 1);
    if n <= size {
      CeilThreshold(n, size, 1);
    } else {
      OneMoreDivisor(n - 1, size);
      Thresholds(total, size, (n - 1) / size);
      Thresholds(n - 1, size, n / size + 1);
      Thresholds(n, size, n / size + 1);
    }
  }

  /** With the right total reported: max(1, ceil(n / size)) fetches, and every item attempted once, in order. */
  lemma HonestTotalIsComplete<Item>(remote: Remote<Item>, size: nat, last: nat)
    requires size > 0 && Steady(remote, |remote.items|) && LastFetch(remote, size, last)
    ensures last + 1 == Max(1, CeilDiv(|remote.items|, size))
    ensures remote.items[..Reached(last + 1, size, |remote.items|)] == remote.items
  {
    var n := |remote.items|;
    FetchCount(remote, size, n, last);
    Thresholds(n, size, n / size + 1);
    Thresholds(n, size, last + 1);
  }
}
