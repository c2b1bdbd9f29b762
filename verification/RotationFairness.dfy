/**
  Whose turn it is. A binding's turns are taken by switches and by handled customer
  adds, between any operations on other bindings of the same pools.
 */
module RotationFairness {
  import opened Basics
  import StateCodec
  import opened ContactWayRotation

  // ---------------------------------------------------------------- round robin

  /** What may happen to a world: a switch or an activation, a pause or an enable, a callback. */
  datatype Op =
    | Turn(bindingId: string, forcedIndex: int, trouble: Trouble)
    | SetTo(bindingId: string, status: Status)
    | Deliver(delivery: Delivery)

  function Apply(w: World, keyOf: KeyOf, op: Op): World {
    match op
    case Turn(b, forcedIndex, trouble) => Switch(w, b, forcedIndex, trouble).0
    case SetTo(b, status) => SetStatus(w, b, status).0
    case Deliver(d) => Handle(w, keyOf, d)
  }

  function Picked(outcome: SwitchOutcome): seq<string> {
    if Committed(outcome) then [outcome.guideUserId] else []
  }

  /** A switch of a binding, and the tables it finds. */
  datatype Attempt = Attempt(tables: World, forcedIndex: int, trouble: Trouble)

  /** The switch of this binding that an operation makes, if it makes one; a callback first saves its assignment. */
  function AttemptOn(w: World, keyOf: KeyOf, id: string, op: Op): Option<Attempt> {
    match op
    case Turn(b, forcedIndex, trouble) => if b == id then Some(Attempt(w, forcedIndex, trouble)) else None
    case SetTo(_, _) => None
    case Deliver(d) =>
      if Records(w, keyOf, d) && Effective(w, d) && StateCodec.Parse(Clean(d.event).state) == id
      then Some(Attempt(Saved(w, keyOf, d), -1, d.trouble)) else None
  }

  function OutcomeOf(a: Attempt, id: string): SwitchOutcome {
    Switch(a.tables, id, a.forcedIndex, a.trouble).1
  }

  /** The guide that an operation picks for this binding, if it does. */
  function Pick(w: World, keyOf: KeyOf, id: string, op: Op): seq<string> {
    var a := AttemptOn(w, keyOf, id, op);
    if a.Some? then Picked(OutcomeOf(a.value, id)) else []
  }

  /** The guides picked for a binding over a run, in order. */
  function Picks(w: World, keyOf: KeyOf, id: string, ops: seq<Op>): seq<string>
    decreases |ops|
  {
    if ops == [] then [] else Pick(w, keyOf, id, ops[0]) + Picks(Apply(w, keyOf, ops[0]), keyOf, id, ops[1..])
  }

  function Ids(guides: seq<Guide>): seq<string> {
    seq(|guides|, i requires 0 <= i < |guides| => guides[i].userId)
  }

  /** The user ids of the guides that may be picked for a binding, in order. */
  function EligibleIds(w: World, id: string): seq<string> {
    if id in w.bindings then Ids(Eligible(Pool(w, w.bindings[id].storeId))) else []
  }

  /** No operation changes who is eligible, and none sets the binding's turn by force. */
  predicate Steady(w: World, keyOf: KeyOf, id: string, ops: seq<Op>)
    decreases |ops|
  {
    ops != [] ==>
      && !Forces(ops[0], id)
      && EligibleIds(Apply(w, keyOf, ops[0]), id) == EligibleIds(w, id)
      && Steady(Apply(w, keyOf, ops[0]), keyOf, id, ops[1..])
  }

  predicate Forces(op: Op, id: string) {
    op.Turn? && op.bindingId == id && op.forcedIndex >= 0
  }

  /** The operation asks for the binding's next turn, and nothing refuses it. */
  predicate TakesTurn(w: World, keyOf: KeyOf, id: string, op: Op)
    requires id in w.bindings
  {
    var a := AttemptOn(w, keyOf, id, op);
    w.bindings[id].status == Active && a.Some? && Smooth(a.value.trouble)
  }

  /** Whose turn an index stands for. */
  function TurnOf(ids: seq<string>, index: int): string
    requires ids != []
  {
    ids[index % |ids|]
  }

  /** Where a binding stands: its store, and its turn moved on by the picks made. */
  ghost predicate MovedOn(w: World, v: World, id: string, picks: seq<string>)
    requires id in w.bindings
  {
    && id in v.bindings && v.bindings[id].storeId == w.bindings[id].storeId
    && v.bindings[id].nextIndex == w.bindings[id].nextIndex + |picks|
  }

  lemma SwitchTakesTurn(w: World, id: string, trouble: Trouble, forcedIndex: int)
    requires id in w.bindings && EligibleIds(w, id) != [] && forcedIndex < 0
    ensures var (v, outcome), b, ids := Switch(w, id, forcedIndex, trouble), w.bindings[id], EligibleIds(w, id);
            && MovedOn(w, v, id, Picked(outcome)) && EligibleIds(v, id) == ids
            && Picked(outcome) ==
               if b.status == Active && Smooth(trouble) then [TurnOf(ids, b.nextIndex)] else []
  {
    PositiveModuloIsResidue(w.bindings[id].nextIndex, |EligibleIds(w, id)|);
  }

  lemma OtherSwitchTakesNoTurn(w: World, id: string, other: string, forcedIndex: int, trouble: Trouble)
    requires id in w.bindings && other != id
    ensures MovedOn(w, Switch(w, other, forcedIndex, trouble).0, id, [])
    ensures Switch(w, other, forcedIndex, trouble).0.pools == w.pools
  {
  }

  lemma DeliveryTakesTurn(w: World, keyOf: KeyOf, id: string, d: Delivery)
    requires id in w.bindings && EligibleIds(w, id) != [] && EligibleIds(Handle(w, keyOf, d), id) == EligibleIds(w, id)
    ensures MovedOn(w, Handle(w, keyOf, d), id, Pick(w, keyOf, id, Deliver(d)))
    ensures var b, ids := w.bindings[id], EligibleIds(w, id);
            Pick(w, keyOf, id, Deliver(d)) ==
            if TakesTurn(w, keyOf, id, Deliver(d)) then [TurnOf(ids, b.nextIndex)] else []
  {
    if Records(w, keyOf, d) && Effective(w, d) {
      var target, saved := StateCodec.Parse(Clean(d.event).state), Saved(w, keyOf, d);
      assert saved.bindings == w.bindings;
      if target == id {
        SavedSwitchKeepsPools(w, keyOf, d);
        SwitchTakesTurn(saved, id, d.trouble, -1);
      } else {
        OtherSwitchTakesNoTurn(saved, id, target, -1, d.trouble);
      }
    }
  }

  /** Who is eligible at the switch of a callback is who is eligible after it. */
  lemma SavedSwitchKeepsPools(w: World, keyOf: KeyOf, d: Delivery)
    requires Records(w, keyOf, d) && Effective(w, d)
    ensures var target := StateCodec.Parse(Clean(d.event).state);
            EligibleIds(Handle(w, keyOf, d), target) == EligibleIds(Saved(w, keyOf, d), target)
  {
    var target := StateCodec.Parse(Clean(d.event).state);
    SwitchKeepsPlace(Saved(w, keyOf, d), target, target, -1, d.trouble);
  }

  /** One operation takes one turn or none; refused and failed ones, and those for other bindings, take none. */
  lemma ApplyTakesATurn(w: World, keyOf: KeyOf, id: string, op: Op)
    requires id in w.bindings && EligibleIds(w, id) != [] && !Forces(op, id)
    requires EligibleIds(Apply(w, keyOf, op), id) == EligibleIds(w, id)
    ensures MovedOn(w, Apply(w, keyOf, op), id, Pick(w, keyOf, id, op))
    ensures var b, ids := w.bindings[id], EligibleIds(w, id);
            Pick(w, keyOf, id, op) == if TakesTurn(w, keyOf, id, op) then [TurnOf(ids, b.nextIndex)] else []
  {
    match op
    case Turn(b, forcedIndex, trouble) =>
      if b == id {
        SwitchTakesTurn(w, id, trouble, forcedIndex);
      } else {
        OtherSwitchTakesNoTurn(w, id, b, forcedIndex, trouble);
      }
    case SetTo(_, _) =>
    case Deliver(d) => DeliveryTakesTurn(w, keyOf, id, d);
  }

  function Turns(ids: seq<string>, start: int, m: nat): seq<string>
    requires ids != []
  {
    if m == 0 then [] else Turns(ids, start, m - 1) + [TurnOf(ids, start + m - 1)]
  }

  lemma {:induction false} TurnsCons(ids: seq<string>, start: int, m: nat)
    requires ids != []
    ensures Turns(ids, start, m + 1) == [TurnOf(ids, start)] + Turns(ids, start + 1, m)
  {
    if m > 0 {
      TurnsCons(ids, start, m - 1);
      assert start + 1 + (m - 1) == start + m;
    }
  }

  /** A turn taken, or none, before further turns. */
  lemma TurnBefore(ids: seq<string>, start: int, here: seq<string>, m: nat)
    requires ids != [] && (here == [] || here == [TurnOf(ids, start)])
    ensures here + Turns(ids, start + |here|, m) == Turns(ids, start, |here| + m)
  {
    if here != [] {
      TurnsCons(ids, start, m);
    }
  }

  /** The guides picked are those whose turn it is, from this index on. */
  predicate InTurn(picks: seq<string>, ids: seq<string>, start: int)
    requires ids != []
  {
    picks == Turns(ids, start, |picks|)
  }

  lemma InTurnBefore(ids: seq<string>, start: int, here: seq<string>, rest: seq<string>)
    requires ids != [] && (here == [] || here == [TurnOf(ids, start)])
    requires InTurn(rest, ids, start + |here|)
    ensures InTurn(here + rest, ids, start)
  {
    TurnBefore(ids, start, here, |rest|);
  }

  /** Before some operations: who is eligible stays these ids, and the turn is at this index. */
  ghost predicate Stands(w: World, keyOf: KeyOf, id: string, ops: seq<Op>, ids: seq<string>, index: int) {
    && id in w.bindings && w.bindings[id].nextIndex == index
    && ids != [] && EligibleIds(w, id) == ids && Steady(w, keyOf, id, ops)
  }

  /** The first operation of a run takes a turn or none. */
  lemma OneStep(w: World, keyOf: KeyOf, id: string, ops: seq<Op>, ids: seq<string>, index: int)
    returns (v: World, here: seq<string>)
    requires ops != [] && Stands(w, keyOf, id, ops, ids, index)
    ensures Stands(v, keyOf, id, ops[1..], ids, index + |here|)
    ensures here == [] || here == [TurnOf(ids, index)]
    ensures Picks(w, keyOf, id, ops) == here + Picks(v, keyOf, id, ops[1..])
  {
    v, here := Apply(w, keyOf, ops[0]), Pick(w, keyOf, id, ops[0]);
    ApplyTakesATurn(w, keyOf, id, ops[0]);
  }

  /**
    While who is eligible stays the same, the guides picked for a binding walk its eligible
    list cyclically, missing nobody, whatever else is switched, paused, refused or fails.
   */
  lemma {:induction false} PicksAreTurns(w: World, keyOf: KeyOf, id: string, ops: seq<Op>, ids: seq<string>, index: int)
    requires Stands(w, keyOf, id, ops, ids, index)
    ensures InTurn(Picks(w, keyOf, id, ops), ids, index)
    decreases |ops|
  {
    if ops != [] {
      var v, here := OneStep(w, keyOf, id, ops, ids, index);
      PicksAreTurns(v, keyOf, id, ops[1..], ids, index + |here|);
      InTurnBefore(ids, index, here, Picks(v, keyOf, id, ops[1..]));
    }
  }

  predicate Distinct(ids: seq<string>) {
    forall i, j :: 0 <= i < j < |ids| ==> ids[i] != ids[j]
  }

  lemma IdsOfEligible(pool: seq<Guide>)
    requires pool != []
    ensures Ids(Eligible(pool)) == (if IsEligible(pool[0]) then [pool[0].userId] else []) + Ids(Eligible(pool[1..]))
  {
  }

  lemma {:induction false} EligibleIdsAreDistinct(pool: seq<Guide>)
    requires UniqueUsers(pool)
    ensures Distinct(Ids(Eligible(pool)))
    ensures forall k :: 0 <= k < |Eligible(pool)| ==> Eligible(pool)[k] in pool
  {
    if pool != [] {
      EligibleIdsAreDistinct(pool[1..]);
      IdsOfEligible(pool);
      var rest := Eligible(pool[1..]);
      forall k | 0 <= k < |rest| ensures rest[k].userId != pool[0].userId {
        assert rest[k] in pool[1..];
        var j :| 0 <= j < |pool| - 1 && pool[1..][j] == rest[k];
        assert pool[j + 1] == rest[k];
      }
    }
  }

  function CountIn(picks: seq<string>, userId: string): nat {
    if picks == [] then 0
    else CountIn(picks[..|picks| - 1], userId) + (if picks[|picks| - 1] == userId then 1 else 0)
  }

  /** One step closer to guide j's turn, or a full round away when it just was. */
  lemma TurnComesCloser(x: int, n: int)
    requires n > 0
    ensures (x - 1) % n == if x % n == 0 then n - 1 else x % n - 1
  {
    var q, r := x / n, x % n;
    assert x == q * n + r;
    if r == 0 {
      assert x - 1 == (q - 1) * n + (n - 1);
      Residue(x - 1, n, q - 1, n - 1);
    } else {
      Residue(x - 1, n, q, r - 1);
    }
  }

  lemma DistanceZeroIsMyTurn(index: int, j: int, n: int)
    requires 0 <= j < n
    ensures (j - index) % n == 0 <==> index % n == j
  {
    var q, r := index / n, index % n;
    assert index == q * n + r;
    if j >= r {
      assert j - index == (-q) * n + (j - r);
      Residue(j - index, n, -q, j - r);
    } else {
      assert j - index == (-q - 1) * n + (n + j - r);
      Residue(j - index, n, -q - 1, n + j - r);
    }
  }

  lemma TurnMovesDistance(ids: seq<string>, index: int, j: nat)
    requires j < |ids| && Distinct(ids)
    ensures (j - (index + 1)) % |ids| - (j - index) % |ids| == if TurnOf(ids, index) == ids[j] then |ids| - 1 else -1
  {
    TurnComesCloser(j - index, |ids|);
    DistanceZeroIsMyTurn(index, j, |ids|);
    assert j - (index + 1) == j - index - 1;
    SamePlace(ids, index % |ids|, j);
  }

  lemma SamePlace(ids: seq<string>, i: nat, j: nat)
    requires i < |ids| && j < |ids| && Distinct(ids)
    ensures ids[i] == ids[j] <==> i == j
  {
  }

  lemma OneMore(n: int, c: int)
    ensures n * (c + 1) == n * c + n
  {
  }

  /** After m turns guide j has had its share, up to how far off its next turn was and is. */
  lemma {:induction false} ShareOfTurns(ids: seq<string>, start: int, m: nat, j: nat)
    requires j < |ids| && Distinct(ids)
    ensures |ids| * CountIn(Turns(ids, start, m), ids[j]) == m + (j - (start + m)) % |ids| - (j - start) % |ids|
  {
    if m > 0 {
      var turns, before := Turns(ids, start, m), Turns(ids, start, m - 1);
      ShareOfTurns(ids, start, m - 1, j);
      TurnMovesDistance(ids, start + m - 1, j);
      assert turns[..|turns| - 1] == before;
      OneMore(|ids|, CountIn(before, ids[j]));
      assert start + m == start + (m - 1) + 1;
    }
  }

  lemma ShareBounds(ids: seq<string>, start: int, m: nat, j: nat)
    requires j < |ids| && Distinct(ids)
    ensures m - |ids| < |ids| * CountIn(Turns(ids, start, m), ids[j]) < m + |ids|
  {
    ShareOfTurns(ids, start, m, j);
    var n := |ids|;
    assert 0 <= (j - (start + m)) % n < n && 0 <= (j - start) % n < n;
  }

  lemma FloorAndCeiling(n: int, c: int, m: int)
    requires n > 0 && m - n < n * c < m + n
    ensures m / n <= c <= (m + n - 1) / n
  {
    var q, r := m / n, m % n;
    assert m == n * q + r;
    assert n * (c - q) > r - n;
    if c - q <= -1 {
      MultipleIsLarge(q - c, n);
    }
    var q', r' := (m + n - 1) / n, (m + n - 1) % n;
    assert m + n - 1 == n * q' + r';
    assert n * (c - q') <= r';
    if c - q' >= 1 {
      MultipleIsLarge(c - q', n);
    }
  }

  /** Over any such run each of the n eligible guides gets floor or ceiling of m/n of the m picks. */
  lemma RoundRobinIsFair(w: World, keyOf: KeyOf, id: string, ops: seq<Op>, j: nat)
    requires id in w.bindings && UniqueUsers(Pool(w, w.bindings[id].storeId))
    requires j < |EligibleIds(w, id)| && Steady(w, keyOf, id, ops)
    ensures var n, picks := |EligibleIds(w, id)|, Picks(w, keyOf, id, ops);
            |picks| / n <= CountIn(picks, EligibleIds(w, id)[j]) <= (|picks| + n - 1) / n
  {
    var ids, picks := EligibleIds(w, id), Picks(w, keyOf, id, ops);
    EligibleIdsAreDistinct(Pool(w, w.bindings[id].storeId));
    PicksAreTurns(w, keyOf, id, ops, ids, w.bindings[id].nextIndex);
    ShareBounds(ids, w.bindings[id].nextIndex, |picks|, j);
    FloorAndCeiling(|ids|, CountIn(picks, ids[j]), |picks|);
  }

  // ---------------------------------------------------------------- a pool that stays the same

  /** No active guide has a limit. */
  predicate Unlimited(pool: seq<Guide>) {
    forall i :: 0 <= i < |pool| && pool[i].active ==> pool[i].dailyLimit <= 0
  }

  lemma {:induction false} CountingKeepsEligibleIds(pool: seq<Guide>, userId: string)
    requires Unlimited(pool)
    ensures Unlimited(Counted(pool, userId)) && Ids(Eligible(Counted(pool, userId))) == Ids(Eligible(pool))
  {
    var counted := Counted(pool, userId);
    if pool != [] {
      CountingKeepsEligibleIds(pool[1..], userId);
      assert counted[1..] == Counted(pool[1..], userId);
      IdsOfEligible(pool);
      IdsOfEligible(counted);
    }
  }

  /** Pools change only by counting: an operation leaves a binding's pool as it is, or counts one guide in it. */
  lemma ApplyCounts(w: World, keyOf: KeyOf, id: string, op: Op) returns (counted: Option<string>)
    requires id in w.bindings
    ensures var v, store := Apply(w, keyOf, op), w.bindings[id].storeId;
            && id in v.bindings && v.bindings[id].storeId == store
            && Pool(v, store) == if counted.Some? then Counted(Pool(w, store), counted.value) else Pool(w, store)
  {
    counted := None;
    match op
    case Turn(b, forcedIndex, trouble) => SwitchKeepsPlace(w, b, id, forcedIndex, trouble);
    case SetTo(_, _) =>
    case Deliver(d) => counted := DeliveryCounts(w, keyOf, id, d);
  }

  lemma DeliveryCounts(w: World, keyOf: KeyOf, id: string, d: Delivery) returns (counted: Option<string>)
    requires id in w.bindings
    ensures var v, store := Handle(w, keyOf, d), w.bindings[id].storeId;
            && id in v.bindings && v.bindings[id].storeId == store
            && Pool(v, store) == if counted.Some? then Counted(Pool(w, store), counted.value) else Pool(w, store)
  {
    counted := None;
    if Records(w, keyOf, d) && Effective(w, d) {
      var saved, target := Saved(w, keyOf, d), StateCodec.Parse(Clean(d.event).state);
      SwitchKeepsPlace(saved, target, id, -1, d.trouble);
      if Pool(saved, w.bindings[id].storeId) != Pool(w, w.bindings[id].storeId) {
        counted := Some(Clean(d.event).userId);
      }
    }
  }

  lemma SwitchKeepsPlace(w: World, target: string, id: string, forcedIndex: int, trouble: Trouble)
    requires id in w.bindings
    ensures var v := Switch(w, target, forcedIndex, trouble).0;
            v.pools == w.pools && id in v.bindings && v.bindings[id].storeId == w.bindings[id].storeId
  {
  }

  lemma ApplyKeepsUnlimited(w: World, keyOf: KeyOf, id: string, op: Op)
    requires id in w.bindings && Unlimited(Pool(w, w.bindings[id].storeId))
    ensures var v := Apply(w, keyOf, op);
            && id in v.bindings && Unlimited(Pool(v, v.bindings[id].storeId))
            && EligibleIds(v, id) == EligibleIds(w, id)
  {
    var counted := ApplyCounts(w, keyOf, id, op);
    if counted.Some? {
      CountingKeepsEligibleIds(Pool(w, w.bindings[id].storeId), counted.value);
    }
  }

  predicate NoneForced(ops: seq<Op>, id: string) {
    forall k :: 0 <= k < |ops| ==> !Forces(ops[k], id)
  }

  lemma {:induction false} UnlimitedPoolIsSteady(w: World, keyOf: KeyOf, id: string, ops: seq<Op>)
    requires id in w.bindings && Unlimited(Pool(w, w.bindings[id].storeId)) && NoneForced(ops, id)
    ensures Steady(w, keyOf, id, ops)
    decreases |ops|
  {
    if ops != [] {
      ApplyKeepsUnlimited(w, keyOf, id, ops[0]);
      assert forall k :: 0 <= k < |ops[1..]| ==> ops[1..][k] == ops[k + 1];
      UnlimitedPoolIsSteady(Apply(w, keyOf, ops[0]), keyOf, id, ops[1..]);
    }
  }

  /** Without limits the rotation is fair over every run of callbacks, switches and pauses, of whichever bindings. */
  lemma UnlimitedPoolIsFair(w: World, keyOf: KeyOf, id: string, ops: seq<Op>, j: nat)
    requires id in w.bindings && UniqueUsers(Pool(w, w.bindings[id].storeId))
    requires Unlimited(Pool(w, w.bindings[id].storeId)) && NoneForced(ops, id) && j < |EligibleIds(w, id)|
    ensures var n, picks := |EligibleIds(w, id)|, Picks(w, keyOf, id, ops);
            |picks| / n <= CountIn(picks, EligibleIds(w, id)[j]) <= (|picks| + n - 1) / n
  {
    UnlimitedPoolIsSteady(w, keyOf, id, ops);
    RoundRobinIsFair(w, keyOf, id, ops, j);
  }
}
