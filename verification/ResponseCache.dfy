/**
  The bounded in-process response cache, as a machine over its lock-held steps.

  Get reads under a read lock and, on an expired entry, deletes it later under the
  write lock; other steps may come in between. The clock of each step is whatever
  that caller read before it got the lock. When a Set finds the cache full, which
  entry goes is up to map iteration order, so the victim is part of the step.
 */
module ResponseCaches {
  import opened Basics

  const MINUTE := 60_000_000_000

  type Body = seq<int>

  datatype Entry = Entry(body: Body, expiresAt: int)

  /** doomed: the keys of Get calls that saw an expired entry and still have to delete it. */
  datatype Cache = Cache(ttl: int, maxEntries: nat, entries: map<string, Entry>, lastSweep: int,
                         doomed: multiset<string>)

  datatype Step =
    | Lookup(key: string, now: int)
    | LazyDelete(key: string)
    | Set(key: string, body: Body, now: int, victim: string)
    | Delete(key: string)
    | DeletePrefix(prefix: string)

  /** No cache at all for a TTL or a capacity that is not positive. */
  function NewCache(ttl: int, maxEntries: int, now: int): Option<Cache> {
    if ttl <= 0 || maxEntries <= 0 then None else Some(Cache(ttl, maxEntries, map[], now, multiset{}))
  }

  predicate Expired(e: Entry, now: int) {
    now > e.expiresAt
  }

  predicate HasPrefix(key: string, prefix: string) {
    |prefix| <= |key| && key[..|prefix|] == prefix
  }

  /** What a lookup answers. */
  function Hit(c: Cache, key: string, now: int): Option<Body> {
    if key !in c.entries || Expired(c.entries[key], now) then None else Some(c.entries[key].body)
  }

  function Sweep(c: Cache, now: int): Cache {
    if now - c.lastSweep < MINUTE && |c.entries| < c.maxEntries then c
    else c.(entries := map key | key in c.entries && !Expired(c.entries[key], now) :: c.entries[key],
            lastSweep := now)
  }

  predicate Evicts(c: Cache, now: int) {
    |Sweep(c, now).entries| >= c.maxEntries
  }

  /** A step the machine can take now. */
  predicate Enabled(c: Cache, step: Step) {
    match step
    case Set(key, body, now, victim) => Evicts(c, now) ==> victim in Sweep(c, now).entries
    case LazyDelete(key) => key in c.doomed
    case _ => true
  }

  function SetEntry(c: Cache, key: string, body: Body, now: int, victim: string): Cache {
    var swept := Sweep(c, now);
    var room := if Evicts(c, now) then swept.entries - {victim} else swept.entries;
    swept.(entries := room[key := Entry(body, now + c.ttl)])
  }

  function Apply(c: Cache, step: Step): Cache {
    match step
    case Lookup(key, now) =>
      if key in c.entries && Expired(c.entries[key], now) then c.(doomed := c.doomed + multiset{key}) else c
    case LazyDelete(key) => c.(entries := c.entries - {key}, doomed := c.doomed - multiset{key})
    case Set(key, body, now, victim) => SetEntry(c, key, body, now, victim)
    case Delete(key) => c.(entries := c.entries - {key})
    case DeletePrefix(prefix) =>
      c.(entries := map key | key in c.entries && !HasPrefix(key, prefix) :: c.entries[key])
  }

  function Run(c: Cache, steps: seq<Step>): Cache {
    if steps == [] then c else Apply(Run(c, steps[..|steps| - 1]), steps[|steps| - 1])
  }

  predicate Possible(c: Cache, steps: seq<Step>) {
    forall i :: 0 <= i < |steps| ==> Enabled(Run(c, steps[..i]), steps[i])
  }

  // ---------------------------------------------------------------- what each step does

  /** A cache is there only for a positive ttl and a positive capacity, and starts empty. */
  lemma NewCacheMeaning(ttl: int, maxEntries: int, now: int)
    ensures NewCache(ttl, maxEntries, now).None? <==> ttl <= 0 || maxEntries <= 0
    ensures NewCache(ttl, maxEntries, now).Some? ==>
              var c := NewCache(ttl, maxEntries, now).value;
              && c.ttl == ttl && c.maxEntries == maxEntries && c.lastSweep == now
              && c.entries == map[] && c.doomed == multiset{}
  {
  }

  /** The entries that have not expired. */
  ghost function LiveKeys(c: Cache, now: int): set<string> {
    set key | key in c.entries && now <= c.entries[key].expiresAt
  }

  /** A sweep runs when 60 seconds are over or the cache is full, and takes all expired entries and no others. */
  lemma SweepMeaning(c: Cache, now: int)
    ensures var swept := Sweep(c, now);
            var due := now - c.lastSweep >= 60_000_000_000 || |c.entries| >= c.maxEntries;
            && swept.entries.Keys == (if due then LiveKeys(c, now) else c.entries.Keys)
            && (forall key :: key in swept.entries ==> swept.entries[key] == c.entries[key])
            && swept.lastSweep == (if due then now else c.lastSweep)
            && swept.(entries := c.entries, lastSweep := c.lastSweep) == c
  {
  }

  /**
    A Set stores its entry. It loses no other live one, unless as many as fit are live already:
    then just one is evicted, even if the key itself was among them and needed no room.
   */
  lemma SetEffect(c: Cache, key: string, body: Body, now: int, victim: string)
    requires 0 < c.maxEntries && |c.entries| <= c.maxEntries && Enabled(c, Set(key, body, now, victim))
    ensures var c', live := Apply(c, Set(key, body, now, victim)), LiveKeys(c, now);
            && key in c'.entries && c'.entries[key] == Entry(body, now + c.ttl)
            && (forall k :: k in c'.entries && k != key ==> k in c.entries && c'.entries[k] == c.entries[k])
            && (|live| < c.maxEntries ==> forall k :: k in live ==> k in c'.entries)
            && (|live| >= c.maxEntries ==> victim in live && c'.entries.Keys == (live - {victim}) + {key})
            && c'.doomed == c.doomed
  {
    SweepMeaning(c, now);
    SubsetSize(LiveKeys(c, now), c.entries.Keys);
  }

  /** So storing a key again can cost another entry. */
  lemma StoringAgainMayEvict(c: Cache, key: string, body: Body, now: int, victim: string)
    requires 0 < c.maxEntries == |c.entries| && key in LiveKeys(c, now) && victim in LiveKeys(c, now) && victim != key
    requires LiveKeys(c, now) == c.entries.Keys
    ensures Enabled(c, Set(key, body, now, victim))
    ensures victim !in Apply(c, Set(key, body, now, victim)).entries
  {
    SweepMeaning(c, now);
  }

  /** Invalidating removes the key, or the keys that begin with the prefix, and no others. */
  lemma InvalidationEffect(c: Cache, key: string, prefix: string, k: string)
    ensures k in Apply(c, Delete(key)).entries <==> k in c.entries && k != key
    ensures k in Apply(c, DeletePrefix(prefix)).entries <==> k in c.entries && !(prefix <= k)
    ensures k in Apply(c, Delete(key)).entries ==> Apply(c, Delete(key)).entries[k] == c.entries[k]
    ensures k in Apply(c, DeletePrefix(prefix)).entries ==> Apply(c, DeletePrefix(prefix)).entries[k] == c.entries[k]
  {
  }

  /** A lookup changes no entry; it answers with the body of an entry that has not expired, and else with nothing. */
  lemma LookupEffect(c: Cache, key: string, now: int)
    ensures Apply(c, Lookup(key, now)).entries == c.entries
    ensures Hit(c, key, now) ==
            if key in c.entries && now <= c.entries[key].expiresAt then Some(c.entries[key].body) else None
    ensures Apply(c, Lookup(key, now)).doomed ==
            if key in c.entries && now > c.entries[key].expiresAt then c.doomed + multiset{key} else c.doomed
  {
  }

  // ---------------------------------------------------------------- a hit is the latest live Set

  /** Invalidation by name or prefix. */
  predicate Invalidates(step: Step, key: string) {
    match step
    case Delete(k) => k == key
    case DeletePrefix(prefix) => HasPrefix(key, prefix)
    case _ => false
  }

  /** steps[i] is the last Set of this key, and nothing has invalidated the key since. */
  predicate LiveSet(steps: seq<Step>, i: int, key: string) {
    && 0 <= i < |steps|
    && steps[i].Set? && steps[i].key == key
    && forall j :: i < j < |steps| ==> !(steps[j].Set? && steps[j].key == key) && !Invalidates(steps[j], key)
  }

  /** The index of the live Set of a key, or -1. */
  function LatestSet(steps: seq<Step>, key: string): (i: int)
    ensures i == -1 || LiveSet(steps, i, key)
    ensures i == -1 ==> forall j :: !LiveSet(steps, j, key)
  {
    if steps == [] then -1
    else
      var init, last := steps[..|steps| - 1], steps[|steps| - 1];
      if last.Set? && last.key == key then |steps| - 1
      else if Invalidates(last, key) then -1
      else
        var i := LatestSet(init, key);
        assert forall j :: LiveSet(steps, j, key) ==> LiveSet(init, j, key);
        i
  }

  /** What an unbounded cache that is always asked before it sweeps would answer. */
  function Reference(ttl: int, steps: seq<Step>, key: string, now: int): Option<Body> {
    var i := LatestSet(steps, key);
    if i == -1 || now > steps[i].now + ttl then None else Some(steps[i].body)
  }

  lemma {:induction false} EntriesComeFromLatestSets(c: Cache, steps: seq<Step>, key: string)
    requires c.entries == map[]
    requires key in Run(c, steps).entries
    ensures var i := LatestSet(steps, key);
            && i >= 0
            && Run(c, steps).entries[key] == Entry(steps[i].body, steps[i].now + c.ttl)
  {
    RunKeepsLimits(c, steps);
    if steps != [] {
      var init, last := steps[..|steps| - 1], steps[|steps| - 1];
      if !(last.Set? && last.key == key) {
        EntriesComeFromLatestSets(c, init, key);
      } else {
        RunKeepsLimits(c, init);
      }
    }
  }

  lemma {:induction false} RunKeepsLimits(c: Cache, steps: seq<Step>)
    ensures Run(c, steps).ttl == c.ttl && Run(c, steps).maxEntries == c.maxEntries
  {
    if steps != [] {
      RunKeepsLimits(c, steps[..|steps| - 1]);
    }
  }

  /**
    Whatever the interleaving and the clocks: a hit at `now` returns the body of
    the latest Set of the key, made no earlier than now - ttl, with no delete of
    the key or of a prefix of it since.
   */
  lemma HitIsLatestLiveSet(c: Cache, steps: seq<Step>, key: string, now: int)
    requires c.entries == map[]
    requires Hit(Run(c, steps), key, now).Some?
    ensures var i := LatestSet(steps, key);
            && LiveSet(steps, i, key)
            && Hit(Run(c, steps), key, now).value == steps[i].body
            && steps[i].now >= now - c.ttl
    ensures Hit(Run(c, steps), key, now) == Reference(c.ttl, steps, key, now)
  {
    EntriesComeFromLatestSets(c, steps, key);
  }

  // ---------------------------------------------------------------- a miss is expiry or a lost entry

  /** The step throws out a live entry of this key: an eviction, or the delete that ends an older Get. */
  predicate Drops(c: Cache, step: Step, key: string) {
    match step
    case Set(_, _, now, victim) => Evicts(c, now) && victim == key
    case LazyDelete(k) => k == key
    case _ => false
  }

  predicate DroppedAt(c: Cache, steps: seq<Step>, j: int, key: string) {
    0 <= j < |steps| && Drops(Run(c, steps[..j]), steps[j], key)
  }

  predicate DroppedSince(c: Cache, steps: seq<Step>, i: int, key: string)
    requires -1 <= i
  {
    exists j :: i < j < |steps| && DroppedAt(c, steps, j, key)
  }

  function ClockOf(step: Step): Option<int> {
    match step
    case Lookup(_, now) => Some(now)
    case Set(_, _, now, _) => Some(now)
    case _ => None
  }

  /** No clock has run past `now`. */
  predicate ClocksUpTo(steps: seq<Step>, now: int) {
    forall j :: 0 <= j < |steps| && ClockOf(steps[j]).Some? ==> ClockOf(steps[j]).value <= now
  }

  /** The step neither stores nor invalidates this key. */
  predicate Passes(step: Step, key: string) {
    !(step.Set? && step.key == key) && !Invalidates(step, key)
  }

  lemma StepKeepsEntry(c: Cache, step: Step, key: string)
    requires key in c.entries && Passes(step, key) && !Drops(c, step, key)
    requires ClockOf(step).Some? ==> !Expired(c.entries[key], ClockOf(step).value)
    ensures key in Apply(c, step).entries && Apply(c, step).entries[key] == c.entries[key]
  {
  }

  lemma StepLosesEntry(c: Cache, step: Step, key: string)
    requires Passes(step, key) && (key !in c.entries || Drops(c, step, key))
    ensures key !in Apply(c, step).entries
  {
  }

  lemma LatestSetInit(steps: seq<Step>, key: string)
    requires steps != [] && 0 <= LatestSet(steps, key) < |steps| - 1
    ensures LatestSet(steps[..|steps| - 1], key) == LatestSet(steps, key)
    ensures Passes(steps[|steps| - 1], key)
  {
  }

  lemma DroppedAtInit(c: Cache, steps: seq<Step>, j: int, key: string)
    requires 0 <= j < |steps| - 1
    ensures DroppedAt(c, steps[..|steps| - 1], j, key) <==> DroppedAt(c, steps, j, key)
  {
    assert steps[..|steps| - 1][..j] == steps[..j];
  }

  lemma DroppedSinceInit(c: Cache, steps: seq<Step>, i: int, key: string)
    requires -1 <= i < |steps| - 1
    ensures DroppedSince(c, steps, i, key) <==>
            DroppedSince(c, steps[..|steps| - 1], i, key) || DroppedAt(c, steps, |steps| - 1, key)
  {
    var init := steps[..|steps| - 1];
    if DroppedSince(c, steps, i, key) {
      var j :| i < j < |steps| && DroppedAt(c, steps, j, key);
      if j < |init| {
        DroppedAtInit(c, steps, j, key);
      }
    }
    if DroppedSince(c, init, i, key) {
      var j :| i < j < |init| && DroppedAt(c, init, j, key);
      DroppedAtInit(c, steps, j, key);
    }
  }

  /** The entry of the latest Set: in the cache unless dropped since, and gone if it was. */
  lemma {:induction false} EntryStaysIffUndropped(c: Cache, steps: seq<Step>, key: string, now: int)
    requires c.entries == map[] && ClocksUpTo(steps, now) && Reference(c.ttl, steps, key, now).Some?
    ensures key in Run(c, steps).entries <==> !DroppedSince(c, steps, LatestSet(steps, key), key)
  {
    var init, last, i := steps[..|steps| - 1], steps[|steps| - 1], LatestSet(steps, key);
    if i < |init| {
      LatestSetInit(steps, key);
      DroppedSinceInit(c, steps, i, key);
      EntryStaysIffUndropped(c, init, key, now);
      if key in Run(c, init).entries && !Drops(Run(c, init), last, key) {
        EntriesComeFromLatestSets(c, init, key);
        StepKeepsEntry(Run(c, init), last, key);
      } else {
        StepLosesEntry(Run(c, init), last, key);
      }
    }
  }

  /**
    Once no clock has run past `now`, the cache answers as the reference exactly if
    there is nothing to answer or the entry was not dropped since its latest Set.
   */
  lemma AnswersAgreeIff(c: Cache, steps: seq<Step>, key: string, now: int)
    requires c.entries == map[] && ClocksUpTo(steps, now)
    ensures Hit(Run(c, steps), key, now) == Reference(c.ttl, steps, key, now) <==>
            Reference(c.ttl, steps, key, now).None? || !DroppedSince(c, steps, LatestSet(steps, key), key)
  {
    if Reference(c.ttl, steps, key, now).Some? {
      EntryStaysIffUndropped(c, steps, key, now);
      if key in Run(c, steps).entries {
        EntriesComeFromLatestSets(c, steps, key);
      }
    } else if Hit(Run(c, steps), key, now).Some? {
      HitIsLatestLiveSet(c, steps, key, now);
    }
  }

  // ---------------------------------------------------------------- deletes that come late

  /** While the latest entry of a key has not expired, no lookup adds a delete of it. */
  lemma {:induction false} LiveEntryDoomsNothing(c: Cache, steps: seq<Step>, key: string, now: int)
    requires c.entries == map[] && ClocksUpTo(steps, now) && Reference(c.ttl, steps, key, now).Some?
    ensures Run(c, steps).doomed[key] <= Run(c, steps[..LatestSet(steps, key)]).doomed[key]
  {
    var init, last, i := steps[..|steps| - 1], steps[|steps| - 1], LatestSet(steps, key);
    if i < |init| {
      LatestSetInit(steps, key);
      LiveEntryDoomsNothing(c, init, key, now);
      assert init[..i] == steps[..i];
      if key in Run(c, init).entries {
        EntriesComeFromLatestSets(c, init, key);
      }
    }
  }

  /** The lookup that found its entry expired, at step m. */
  predicate FoundExpired(c: Cache, steps: seq<Step>, m: int, key: string) {
    && 0 <= m < |steps| && steps[m].Lookup? && steps[m].key == key
    && key in Run(c, steps[..m]).entries && Expired(Run(c, steps[..m]).entries[key], steps[m].now)
  }

  lemma {:induction false} DoomedByLookup(c: Cache, steps: seq<Step>, key: string)
    requires c.doomed == multiset{} && key in Run(c, steps).doomed
    ensures exists m :: FoundExpired(c, steps, m, key)
  {
    if steps != [] {
      var init, last := steps[..|steps| - 1], steps[|steps| - 1];
      if key in Run(c, init).doomed {
        DoomedByLookup(c, init, key);
        var m :| FoundExpired(c, init, m, key);
        assert init[..m] == steps[..m];
        assert FoundExpired(c, steps, m, key);
      } else {
        assert FoundExpired(c, steps, |init|, key);
      }
    }
  }

  /** A lazy delete that throws out an entry not yet expired was asked for before that entry was stored. */
  lemma LateDeleteIsLeftOver(c: Cache, steps: seq<Step>, j: nat, key: string, now: int)
    requires c.entries == map[] && c.doomed == multiset{} && Possible(c, steps)
    requires j < |steps| && steps[j] == LazyDelete(key) && ClocksUpTo(steps[..j], now)
    requires Reference(c.ttl, steps[..j], key, now).Some?
    ensures exists m :: 0 <= m < LatestSet(steps[..j], key) && FoundExpired(c, steps, m, key)
  {
    var before, i := steps[..j], LatestSet(steps[..j], key);
    LiveEntryDoomsNothing(c, before, key, now);
    assert key in Run(c, before).doomed;
    DoomedByLookup(c, before[..i], key);
    var m :| FoundExpired(c, before[..i], m, key);
    assert before[..i][..m] == steps[..m];
    assert FoundExpired(c, steps, m, key);
  }

  /** An entry expires and is looked up; it is stored anew before the lookup's delete arrives. */
  function LateDelete(ttl: int, key: string, body: Body): seq<Step> {
    [Set(key, body, 0, ""), Lookup(key, ttl + 1), Set(key, body, ttl + 1, ""), LazyDelete(key)]
  }

  lemma RunUpTo(c: Cache, steps: seq<Step>, k: nat)
    requires k < |steps|
    ensures Run(c, steps[..k + 1]) == Apply(Run(c, steps[..k]), steps[k])
  {
    assert steps[..k + 1][..k] == steps[..k];
  }

  lemma RunOfFour(c: Cache, steps: seq<Step>)
    requires |steps| == 4
    ensures Run(c, steps[..0]) == c
    ensures Run(c, steps[..1]) == Apply(c, steps[0])
    ensures Run(c, steps[..2]) == Apply(Apply(c, steps[0]), steps[1])
    ensures Run(c, steps[..3]) == Apply(Apply(Apply(c, steps[0]), steps[1]), steps[2])
  {
    RunUpTo(c, steps, 0);
    RunUpTo(c, steps, 1);
    RunUpTo(c, steps, 2);
  }

  /** Storing a key in a cache that holds at most an expired entry of it leaves just the new entry. */
  lemma SetReplaces(c: Cache, key: string, body: Body, now: int)
    requires 0 < c.maxEntries && 0 < c.ttl
    requires c.entries.Keys <= {key} && (key in c.entries ==> Expired(c.entries[key], now))
    ensures Enabled(c, Set(key, body, now, ""))
    ensures Apply(c, Set(key, body, now, "")).entries == map[key := Entry(body, now + c.ttl)]
    ensures Apply(c, Set(key, body, now, "")).(entries := c.entries, lastSweep := c.lastSweep) == c
  {
    var swept := Sweep(c, now).entries;
    SubsetSize(swept.Keys, {key});
    SubsetSize(c.entries.Keys, {key});
    assert c.entries.Keys == {key} || c.entries.Keys == {};
    assert !Evicts(c, now);
  }

  /** What the four steps leave, one after the other. */
  lemma LateDeleteStates(c: Cache, key: string, body: Body)
    requires NewCache(c.ttl, c.maxEntries, c.lastSweep) == Some(c)
    ensures var steps := LateDelete(c.ttl, key, body);
            var c1 := Apply(c, steps[0]);
            var c2 := Apply(c1, steps[1]);
            var c3 := Apply(c2, steps[2]);
            && Enabled(c, steps[0]) && Enabled(c2, steps[2])
            && c2 == c1.(doomed := multiset{key})
            && c3.doomed == multiset{key}
            && c3.entries == map[key := Entry(body, 2 * c.ttl + 1)]
  {
    var steps := LateDelete(c.ttl, key, body);
    SetReplaces(c, key, body, 0);
    var c1 := Apply(c, steps[0]);
    assert c1.entries[key] == Entry(body, c.ttl) && c1.doomed == multiset{};
    SetReplaces(Apply(c1, steps[1]), key, body, c.ttl + 1);
  }

  lemma LateDeleteIsPossible(c: Cache, key: string, body: Body)
    requires NewCache(c.ttl, c.maxEntries, c.lastSweep) == Some(c)
    ensures Possible(c, LateDelete(c.ttl, key, body))
  {
    var steps := LateDelete(c.ttl, key, body);
    LateDeleteStates(c, key, body);
    RunOfFour(c, steps);
    forall i | 0 <= i < |steps| ensures Enabled(Run(c, steps[..i]), steps[i]) {
      assert i == 0 || i == 1 || i == 2 || i == 3;
    }
  }

  /** In every cache there is such a run, and the fresh entry is lost. */
  lemma LateDeleteLosesFreshEntry(c: Cache, key: string, body: Body)
    requires NewCache(c.ttl, c.maxEntries, c.lastSweep) == Some(c)
    ensures var steps, now := LateDelete(c.ttl, key, body), c.ttl + 1;
            && Possible(c, steps) && ClocksUpTo(steps, now)
            && Reference(c.ttl, steps, key, now) == Some(body) && Hit(Run(c, steps), key, now) == None
  {
    var steps := LateDelete(c.ttl, key, body);
    LateDeleteIsPossible(c, key, body);
    LateDeleteReference(c.ttl, key, body);
    DeletedLast(c, steps, key);
  }

  lemma LateDeleteReference(ttl: int, key: string, body: Body)
    requires 0 < ttl
    ensures Reference(ttl, LateDelete(ttl, key, body), key, ttl + 1) == Some(body)
    ensures ClocksUpTo(LateDelete(ttl, key, body), ttl + 1)
  {
    LateDeleteLatest(ttl, key, body);
  }

  lemma DeletedLast(c: Cache, steps: seq<Step>, key: string)
    requires steps != [] && steps[|steps| - 1] == LazyDelete(key)
    ensures key !in Run(c, steps).entries
  {
  }

  lemma LateDeleteLatest(ttl: int, key: string, body: Body)
    ensures LatestSet(LateDelete(ttl, key, body), key) == 2
  {
    var steps := LateDelete(ttl, key, body);
    var init := steps[..|steps| - 1];
    assert init[|init| - 1] == steps[2];
    assert LatestSet(init, key) == 2;
  }

  // ---------------------------------------------------------------- the bound

  lemma SweepShrinks(c: Cache, now: int)
    ensures |Sweep(c, now).entries| <= |c.entries|
  {
    SubsetSize(Sweep(c, now).entries.Keys, c.entries.Keys);
  }

  lemma StepKeepsBound(c: Cache, step: Step)
    requires 0 < c.maxEntries && |c.entries| <= c.maxEntries && Enabled(c, step)
    ensures |Apply(c, step).entries| <= c.maxEntries
  {
    match step
    case Set(key, body, now, victim) =>
      SweepShrinks(c, now);
      var swept := Sweep(c, now);
      var room := if Evicts(c, now) then swept.entries - {victim} else swept.entries;
      assert room.Keys == if Evicts(c, now) then swept.entries.Keys - {victim} else swept.entries.Keys;
      assert |room| < c.maxEntries;
      assert room[key := Entry(body, now + c.ttl)].Keys == room.Keys + {key};
    case _ =>
      SubsetSize(Apply(c, step).entries.Keys, c.entries.Keys);
  }

  lemma {:induction false} EntryCountNeverExceedsBound(c: Cache, steps: seq<Step>)
    requires 0 < c.maxEntries && |c.entries| <= c.maxEntries && Possible(c, steps)
    ensures |Run(c, steps).entries| <= c.maxEntries
  {
    if steps != [] {
      var init := steps[..|steps| - 1];
      forall i | 0 <= i < |init| ensures Enabled(Run(c, init[..i]), init[i]) {
        assert init[..i] == steps[..i];
      }
      EntryCountNeverExceedsBound(c, init);
      RunKeepsLimits(c, init);
      StepKeepsBound(Run(c, init), steps[|steps| - 1]);
    }
  }

  // ---------------------------------------------------------------- the cache object

  class ResponseCache {
    const ttl: int
    const maxEntries: nat
    var entries: map<string, Entry>
    var lastSweep: int
    /** The keys of the Gets that are between their lookup and their delete. */
    ghost var doomed: multiset<string>

    ghost function View(): Cache
      reads this
    {
      Cache(ttl, maxEntries, entries, lastSweep, doomed)
    }

    constructor (ttl: int, maxEntries: nat, now: int)
      requires NewCache(ttl, maxEntries, now).Some?
      ensures Some(View()) == NewCache(ttl, maxEntries, now)
    {
      this.ttl, this.maxEntries := ttl, maxEntries;
      entries, lastSweep, doomed := map[], now, multiset{};
    }

    /** The read-locked half of a Get; `stale` asks for the other half, before which any other step may come. */
    method LookupKey(key: string, now: int) returns (body: Option<Body>, stale: bool)
      modifies this`doomed
      ensures body == Hit(old(View()), key, now)
      ensures View() == Apply(old(View()), Lookup(key, now))
      ensures stale <==> doomed != old(doomed)
      ensures stale ==> key in doomed
    {
      if key !in entries {
        return None, false;
      }
      var entry := entries[key];
      if now > entry.expiresAt {
        doomed := doomed + multiset{key};
        assert |doomed| == |old(doomed)| + 1;
        return None, true;
      }
      return Some(entry.body), false;
    }

    method DeleteKey(key: string)
      modifies this`entries
      ensures View() == Apply(old(View()), Delete(key))
    {
      entries := entries - {key};
    }

    /** The write-locked half of a Get that found its entry expired: a plain delete, whatever is stored by now. */
    method FinishGet(key: string)
      requires key in doomed
      modifies this`entries, this`doomed
      ensures View() == Apply(old(View()), LazyDelete(key))
    {
      DeleteKey(key);
      doomed := doomed - multiset{key};
    }

    /** A Get that nothing interleaves leaves no delete behind. */
    method Get(key: string, now: int) returns (body: Option<Body>)
      modifies this`entries, this`doomed
      ensures body == Hit(old(View()), key, now)
      ensures doomed == old(doomed)
      ensures entries == if key in old(entries) && body.None? then old(entries) - {key} else old(entries)
    {
      var stale;
      body, stale := LookupKey(key, now);
      if stale {
        FinishGet(key);
      }
    }

    method SweepLocked(now: int)
      modifies this`entries, this`lastSweep
      ensures View() == Sweep(old(View()), now)
    {
      if now - lastSweep < MINUTE && |entries| < maxEntries {
        return;
      }
      var rest := entries.Keys;
      while rest != {}
        invariant rest <= old(entries).Keys
        invariant lastSweep == old(lastSweep)
        invariant entries == map key | key in old(entries)
                                       && (key in rest || !Expired(old(entries)[key], now)) :: old(entries)[key]
        decreases |rest|
      {
        var key :| key in rest;
        rest := rest - {key};
        if now > entries[key].expiresAt {
          entries := entries - {key};
        }
      }
      lastSweep := now;
    }

    /** Sweep, make room by evicting whichever entry comes first, store. */
    method SetKey(key: string, body: Body, now: int) returns (victim: string)
      requires 0 < maxEntries
      modifies this`entries, this`lastSweep
      ensures Enabled(old(View()), Set(key, body, now, victim))
      ensures View() == Apply(old(View()), Set(key, body, now, victim))
    {
      SweepLocked(now);
      victim := "";
      if |entries| >= maxEntries {
        assert entries.Keys != {};
        victim :| victim in entries;
        entries := entries - {victim};
      }
      entries := entries[key := Entry(body, now + ttl)];
    }

    method DeleteByPrefix(prefix: string)
      modifies this`entries
      ensures View() == Apply(old(View()), DeletePrefix(prefix))
    {
      var rest := entries.Keys;
      while rest != {}
        invariant rest <= old(entries).Keys
        invariant entries == map key | key in old(entries)
                                       && (key in rest || !HasPrefix(key, prefix)) :: old(entries)[key]
        decreases |rest|
      {
        var key :| key in rest;
        rest := rest - {key};
        if HasPrefix(key, prefix) {
          entries := entries - {key};
        }
      }
    }
  }
}
