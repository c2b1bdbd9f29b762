/**
  Daily limits. Customers add the guide the code points at, one at a time. The
  limits of a pool hold over the run exactly as long as the pool has capacity:
  the rotation wastes none of it, and stops protecting the limits once it is gone.
 */
module RotationLimits {
  import opened Basics
  import StateCodec
  import opened ContactWayRotation

  predicate WithinLimits(pool: seq<Guide>) {
    forall i :: 0 <= i < |pool| && pool[i].dailyLimit > 0 ==> pool[i].assignedToday <= pool[i].dailyLimit
  }

  predicate HasUnlimited(pool: seq<Guide>) {
    exists i :: 0 <= i < |pool| && pool[i].active && pool[i].dailyLimit <= 0
  }

  function Room(g: Guide): nat {
    if g.active && g.dailyLimit > 0 && g.assignedToday < g.dailyLimit then g.dailyLimit - g.assignedToday else 0
  }

  /** How many more customers the limited active guides may take today. */
  function Capacity(pool: seq<Guide>): nat {
    if pool == [] then 0 else Room(pool[0]) + Capacity(pool[1..])
  }

  // ---------------------------------------------------------------- pools

  lemma {:induction false} EligibleComesFromPool(pool: seq<Guide>)
    ensures forall k :: 0 <= k < |Eligible(pool)| ==> IsEligible(Eligible(pool)[k]) && Eligible(pool)[k] in pool
    ensures Eligible(pool) == [] <==> forall i :: 0 <= i < |pool| ==> !IsEligible(pool[i])
  {
    if pool != [] {
      EligibleComesFromPool(pool[1..]);
    }
  }

  lemma {:induction false} RoomMeansCapacity(pool: seq<Guide>)
    ensures Capacity(pool) == 0 <==> forall i :: 0 <= i < |pool| ==> Room(pool[i]) == 0
  {
    if pool != [] {
      RoomMeansCapacity(pool[1..]);
    }
  }

  /** Somebody is eligible exactly if somebody is unlimited or capacity is left. */
  lemma EligibleIffRoom(pool: seq<Guide>)
    ensures Eligible(pool) != [] <==> HasUnlimited(pool) || Capacity(pool) > 0
  {
    EligibleComesFromPool(pool);
    RoomMeansCapacity(pool);
    forall i | 0 <= i < |pool|
      ensures IsEligible(pool[i]) <==> Room(pool[i]) > 0 || (pool[i].active && pool[i].dailyLimit <= 0)
    {
    }
  }

  lemma {:induction false} UncountedKeepsCapacity(pool: seq<Guide>, userId: string)
    requires forall i :: 0 <= i < |pool| ==> pool[i].userId != userId
    ensures Counted(pool, userId) == pool
  {
  }

  /** Counting an eligible limited guide uses up one unit of capacity. */
  lemma {:induction false} CountingUsesCapacity(pool: seq<Guide>, i: nat)
    requires i < |pool| && UniqueUsers(pool) && IsEligible(pool[i])
    ensures Capacity(Counted(pool, pool[i].userId)) == Capacity(pool) - (if pool[i].dailyLimit > 0 then 1 else 0)
  {
    var counted := Counted(pool, pool[i].userId);
    if i == 0 {
      UncountedKeepsCapacity(pool[1..], pool[0].userId);
      assert counted[1..] == Counted(pool[1..], pool[0].userId);
    } else {
      CountingUsesCapacity(pool[1..], i - 1);
      assert counted[1..] == Counted(pool[1..], pool[1..][i - 1].userId);
    }
  }

  // ---------------------------------------------------------------- one customer at a time

  /** A customer adds the guide the code points at, and nothing fails. */
  predicate OrderlyAdd(w: World, keyOf: KeyOf, id: string, d: Delivery) {
    var e := Clean(d.event);
    && id in w.bindings && id != ""
    && d.fault == NoFault && d.trouble == NO_TROUBLE
    && keyOf(e) !in w.seen
    && IsCustomerAdd(e)
    && StateCodec.Parse(e.state) == id
    && e.userId == w.bindings[id].currentGuide
  }

  /** Each callback is handled before the next customer adds. */
  predicate Orderly(w: World, keyOf: KeyOf, id: string, ds: seq<Delivery>)
    decreases |ds|
  {
    ds == [] || (OrderlyAdd(w, keyOf, id, ds[0]) && Orderly(Handle(w, keyOf, ds[0]), keyOf, id, ds[1..]))
  }

  /** The binding is active on an existing pool, and points at guide i of it. */
  predicate PointsAt(w: World, id: string, i: nat) {
    && id in w.bindings && w.bindings[id].status == Active && w.bindings[id].storeId in w.pools
    && var pool := w.pools[w.bindings[id].storeId];
       UniqueUsers(pool) && i < |pool| && pool[i].userId == w.bindings[id].currentGuide
  }

  function PoolOf(w: World, id: string): seq<Guide>
    requires id in w.bindings
  {
    Pool(w, w.bindings[id].storeId)
  }

  /** Taking the next turn of an active binding lands on an eligible guide, or stays where it is. */
  lemma TurnLands(w: World, id: string, i: nat) returns (next: nat)
    requires PointsAt(w, id, i)
    ensures var v := Switch(w, id, -1, NO_TROUBLE).0;
            && PointsAt(v, id, next) && PoolOf(v, id) == PoolOf(w, id)
            && (Eligible(PoolOf(w, id)) != [] ==> IsEligible(PoolOf(w, id)[next]))
            && (Eligible(PoolOf(w, id)) == [] ==> next == i)
  {
    var pool, b := PoolOf(w, id), w.bindings[id];
    var guides := Eligible(pool);
    if guides == [] {
      next := i;
    } else {
      PositiveModuloIsResidue(b.nextIndex, |guides|);
      EligibleComesFromPool(pool);
      var picked := guides[b.nextIndex % |guides|];
      next :| 0 <= next < |pool| && pool[next] == picked;
    }
  }

  lemma HandleOrderlyAdd(w: World, keyOf: KeyOf, id: string, d: Delivery)
    requires OrderlyAdd(w, keyOf, id, d)
    ensures var v, switched := Handle(w, keyOf, d), Switch(Saved(w, keyOf, d), id, -1, NO_TROUBLE).0;
            v.bindings == switched.bindings && v.pools == switched.pools
  {
    assert Effective(w, d);
  }

  /** One orderly add counts the current guide, then moves to an eligible guide if there is one. */
  lemma OrderlyAddStep(w: World, keyOf: KeyOf, id: string, d: Delivery, i: nat) returns (next: nat)
    requires PointsAt(w, id, i) && OrderlyAdd(w, keyOf, id, d)
    ensures var v := Handle(w, keyOf, d);
            && PointsAt(v, id, next)
            && PoolOf(v, id) == Counted(PoolOf(w, id), PoolOf(w, id)[i].userId)
            && (Eligible(PoolOf(v, id)) != [] ==> IsEligible(PoolOf(v, id)[next]))
            && (Eligible(PoolOf(v, id)) == [] ==> next == i)
  {
    var saved := Saved(w, keyOf, d);
    assert saved.bindings == w.bindings;
    assert saved.pools[w.bindings[id].storeId] == Counted(PoolOf(w, id), PoolOf(w, id)[i].userId);
    assert PointsAt(saved, id, i);
    next := TurnLands(saved, id, i);
    HandleOrderlyAdd(w, keyOf, id, d);
  }

  /** Limits and counters only ever move one way. */
  ghost predicate CountsUp(pool: seq<Guide>, later: seq<Guide>) {
    && |pool| == |later|
    && forall i :: 0 <= i < |pool| ==>
         later[i].dailyLimit == pool[i].dailyLimit && later[i].assignedToday >= pool[i].assignedToday
  }

  lemma CountingCountsUp(pool: seq<Guide>, userId: string, later: seq<Guide>)
    requires CountsUp(Counted(pool, userId), later)
    ensures CountsUp(pool, later)
  {
  }

  lemma {:induction false} OrderlyRunCountsUp(w: World, keyOf: KeyOf, id: string, ds: seq<Delivery>, i: nat)
    requires PointsAt(w, id, i) && Orderly(w, keyOf, id, ds)
    ensures id in Run(w, keyOf, ds).bindings && CountsUp(PoolOf(w, id), PoolOf(Run(w, keyOf, ds), id))
    decreases |ds|
  {
    if ds != [] {
      var next := OrderlyAddStep(w, keyOf, id, ds[0], i);
      OrderlyRunCountsUp(Handle(w, keyOf, ds[0]), keyOf, id, ds[1..], next);
      CountingCountsUp(PoolOf(w, id), PoolOf(w, id)[i].userId, PoolOf(Run(w, keyOf, ds), id));
    }
  }

  lemma HasUnlimitedStays(pool: seq<Guide>, userId: string)
    ensures HasUnlimited(Counted(pool, userId)) <==> HasUnlimited(pool)
  {
    var counted := Counted(pool, userId);
    if HasUnlimited(pool) {
      var i :| 0 <= i < |pool| && pool[i].active && pool[i].dailyLimit <= 0;
      assert counted[i].active && counted[i].dailyLimit <= 0;
    }
    if HasUnlimited(counted) {
      var i :| 0 <= i < |counted| && counted[i].active && counted[i].dailyLimit <= 0;
      assert pool[i].active && pool[i].dailyLimit <= 0;
    }
  }

  /** Once nobody is eligible, the next customer takes the current guide over the limit, for good. */
  lemma ExhaustedPoolOverflows(w: World, keyOf: KeyOf, id: string, ds: seq<Delivery>, i: nat)
    requires PointsAt(w, id, i) && Orderly(w, keyOf, id, ds) && ds != []
    requires PoolOf(w, id)[i].dailyLimit > 0 && PoolOf(w, id)[i].assignedToday >= PoolOf(w, id)[i].dailyLimit
    ensures id in Run(w, keyOf, ds).bindings && !WithinLimits(PoolOf(Run(w, keyOf, ds), id))
  {
    var v := Handle(w, keyOf, ds[0]);
    var next := OrderlyAddStep(w, keyOf, id, ds[0], i);
    OrderlyRunCountsUp(v, keyOf, id, ds[1..], next);
    assert PoolOf(v, id)[i].assignedToday > PoolOf(v, id)[i].dailyLimit;
  }

  lemma CountingKeepsLimits(pool: seq<Guide>, i: nat)
    requires i < |pool| && UniqueUsers(pool) && IsEligible(pool[i]) && WithinLimits(pool)
    ensures WithinLimits(Counted(pool, pool[i].userId))
  {
  }

  /** A guide that just took the last unit of capacity is at its limit. */
  lemma LastGuideIsAtItsLimit(pool: seq<Guide>, i: nat)
    requires i < |pool| && IsEligible(pool[i]) && Eligible(Counted(pool, pool[i].userId)) == []
    ensures var g := Counted(pool, pool[i].userId)[i];
            g.dailyLimit > 0 && g.assignedToday >= g.dailyLimit
  {
    EligibleComesFromPool(Counted(pool, pool[i].userId));
    assert !IsEligible(Counted(pool, pool[i].userId)[i]);
  }

  /**
    From a binding pointing at an eligible guide, with all limits respected, a run
    of orderly adds respects every positive daily limit if and only if some active
    guide is unlimited or the customers are no more than the pool's capacity.
   */
  lemma {:induction false} DailyLimitsHoldIff(w: World, keyOf: KeyOf, id: string, ds: seq<Delivery>, i: nat)
    requires PointsAt(w, id, i) && IsEligible(PoolOf(w, id)[i])
    requires WithinLimits(PoolOf(w, id)) && Orderly(w, keyOf, id, ds)
    ensures id in Run(w, keyOf, ds).bindings
    ensures WithinLimits(PoolOf(Run(w, keyOf, ds), id)) <==>
            HasUnlimited(PoolOf(w, id)) || |ds| <= Capacity(PoolOf(w, id))
    decreases |ds|
  {
    if ds != [] {
      var pool, v := PoolOf(w, id), Handle(w, keyOf, ds[0]);
      var next := OrderlyAddStep(w, keyOf, id, ds[0], i);
      CountingUsesCapacity(pool, i);
      CountingKeepsLimits(pool, i);
      HasUnlimitedStays(pool, pool[i].userId);
      EligibleIffRoom(PoolOf(v, id));
      assert Run(w, keyOf, ds) == Run(v, keyOf, ds[1..]);
      if Eligible(PoolOf(v, id)) != [] {
        DailyLimitsHoldIff(v, keyOf, id, ds[1..], next);
        EligibleGuideIsRoom(pool, i);
      } else {
        LastGuideIsAtItsLimit(pool, i);
        EligibleGuideIsRoom(pool, i);
        if |ds| > 1 {
          ExhaustedPoolOverflows(v, keyOf, id, ds[1..], i);
        }
      }
    }
  }

  lemma EligibleGuideIsRoom(pool: seq<Guide>, i: nat)
    requires i < |pool| && IsEligible(pool[i])
    ensures HasUnlimited(pool) || Capacity(pool) > 0
  {
    EligibleComesFromPool(pool);
    EligibleIffRoom(pool);
  }

  /** Activation, or any successful switch, provides the eligible guide the run starts from. */
  lemma SwitchPointsAtEligible(w: World, id: string, forcedIndex: int) returns (i: nat)
    requires id in w.bindings && w.bindings[id].storeId in w.pools && UniqueUsers(PoolOf(w, id))
    requires Switch(w, id, forcedIndex, NO_TROUBLE).1.Switched?
    ensures var v := Switch(w, id, forcedIndex, NO_TROUBLE).0;
            PointsAt(v, id, i) && PoolOf(v, id) == PoolOf(w, id) && IsEligible(PoolOf(v, id)[i])
  {
    var pool := PoolOf(w, id);
    var guides := Eligible(pool);
    EligibleComesFromPool(pool);
    var index := if forcedIndex >= 0 then forcedIndex else w.bindings[id].nextIndex;
    PositiveModuloIsResidue(index, |guides|);
    var picked := guides[index % |guides|];
    i :| 0 <= i < |pool| && pool[i] == picked;
  }

  /** The state a switch installs leads the next callback back to the same binding. */
  lemma SwitchedStateLeadsBack(w: World, id: string, forcedIndex: int)
    requires Switch(w, id, forcedIndex, NO_TROUBLE).1.Switched?
    requires Trim(id) == id && ':' !in id && ' ' !in id
    requires var b, v := w.bindings[id], Switch(w, id, forcedIndex, NO_TROUBLE).0;
             StateCodec.Readable(b.storeCode, b.managerUserId, v.bindings[id].currentGuide)
    ensures StateCodec.Parse(Switch(w, id, forcedIndex, NO_TROUBLE).1.state) == id
  {
    var b, v := w.bindings[id], Switch(w, id, forcedIndex, NO_TROUBLE).0;
    StateCodec.CleanIdRoundTrips(b.storeCode, b.managerUserId, v.bindings[id].currentGuide, id);
  }

  // ---------------------------------------------------------------- a run that exceeds a limit

  /** A customer scans the code as it is and adds the guide it shows; nothing fails. */
  function NextCustomer(id: string, b: Binding, externalUserId: string): Delivery {
    var e := Event("change_external_contact", "add_external_contact", b.currentGuide, externalUserId,
                   StateFor(id, b, b.currentGuide), "", 0);
    Delivery(e, NoFault, NO_TROUBLE)
  }

  lemma BuiltStateIsTrimmed(id: string, b: Binding, guide: string)
    ensures Trim(StateFor(id, b, guide)) == StateFor(id, b, guide)
  {
    var state := StateFor(id, b, guide);
    assert state[0] == 's' && state[|state| - 1] == '1';
    StateCodec.TrimmedStays(state);
  }

  /** Where the binding's state is readable, such a customer is an orderly add. */
  lemma NextCustomerIsOrderly(w: World, keyOf: KeyOf, id: string, externalUserId: string)
    requires id in w.bindings && id != "" && Trim(id) == id && ':' !in id && ' ' !in id
    requires var b := w.bindings[id];
             StateCodec.Readable(b.storeCode, b.managerUserId, b.currentGuide) && Trim(b.currentGuide) == b.currentGuide
    requires keyOf(Clean(NextCustomer(id, w.bindings[id], externalUserId).event)) !in w.seen
    ensures OrderlyAdd(w, keyOf, id, NextCustomer(id, w.bindings[id], externalUserId))
  {
    var b := w.bindings[id];
    NextCustomerIsClean(id, b, externalUserId);
    StateCodec.CleanIdRoundTrips(b.storeCode, b.managerUserId, b.currentGuide, id);
  }

  lemma NextCustomerIsClean(id: string, b: Binding, externalUserId: string)
    requires Trim(b.currentGuide) == b.currentGuide
    ensures var e := NextCustomer(id, b, externalUserId).event;
            Clean(e) == e.(externalUserId := Trim(externalUserId))
  {
    BuiltStateIsTrimmed(id, b, b.currentGuide);
    StateCodec.TrimmedStays("change_external_contact");
    StateCodec.TrimmedStays("add_external_contact");
  }

  const ONE_GUIDE := Binding("s", "s", "m", "g", 0, Active, "")

  /** A store whose only guide takes one customer a day. */
  function OneGuideWorld(): World {
    World(map["b" := ONE_GUIDE], map["s" := [Guide("g", true, 1, 0)]], [], [], {}, {})
  }

  lemma OneGuideIsReadable()
    ensures StateCodec.Readable("s", "m", "g")
    ensures Trim("b") == "b" && Trim("g") == "g"
  {
    StateCodec.CleanIsKept("s");
    StateCodec.CleanIsKept("m");
    StateCodec.CleanIsKept("g");
  }

  /** After its one customer the guide is full, and the code goes on showing it. */
  lemma OneGuideStaysShown(keyOf: KeyOf, x: string)
    ensures var w, d := OneGuideWorld(), NextCustomer("b", ONE_GUIDE, x);
            var v := Handle(w, keyOf, d);
            && "b" in v.bindings && v.bindings["b"] == ONE_GUIDE.(lastError := NO_ACTIVE_GUIDE)
            && v.seen == {keyOf(Clean(d.event))}
  {
    var w, d := OneGuideWorld(), NextCustomer("b", ONE_GUIDE, x);
    OneGuideIsReadable();
    NextCustomerIsOrderly(w, keyOf, "b", x);
    var saved := Saved(w, keyOf, d);
    assert saved.pools["s"] == [Guide("g", true, 1, 1)];
    assert Eligible(saved.pools["s"]) == [] by {
      assert saved.pools["s"][1..] == [];
    }
  }

  /** So limits are exceeded: two customers one after the other, if only their keys differ. */
  lemma LimitIsExceeded(keyOf: KeyOf, x: string, y: string)
    requires keyOf(Clean(NextCustomer("b", ONE_GUIDE, x).event)) != keyOf(Clean(NextCustomer("b", ONE_GUIDE, y).event))
    ensures var w, ds := OneGuideWorld(), [NextCustomer("b", ONE_GUIDE, x), NextCustomer("b", ONE_GUIDE, y)];
            && PointsAt(w, "b", 0) && WithinLimits(PoolOf(w, "b")) && Orderly(w, keyOf, "b", ds)
            && "b" in Run(w, keyOf, ds).bindings && !WithinLimits(PoolOf(Run(w, keyOf, ds), "b"))
  {
    var w, first, second := OneGuideWorld(), NextCustomer("b", ONE_GUIDE, x), NextCustomer("b", ONE_GUIDE, y);
    OneGuideIsReadable();
    NextCustomerIsOrderly(w, keyOf, "b", x);
    OneGuideStaysShown(keyOf, x);
    var v := Handle(w, keyOf, first);
    NextCustomerIsOrderly(v, keyOf, "b", y);
    assert NextCustomer("b", v.bindings["b"], y) == second;
    OrderlyPair(w, keyOf, "b", first, second);
    OneGuideHasRoomForOne();
    DailyLimitsHoldIff(w, keyOf, "b", [first, second], 0);
  }

  lemma OrderlyPair(w: World, keyOf: KeyOf, id: string, first: Delivery, second: Delivery)
    requires OrderlyAdd(w, keyOf, id, first) && OrderlyAdd(Handle(w, keyOf, first), keyOf, id, second)
    ensures Orderly(w, keyOf, id, [first, second])
  {
    assert [first, second][1..] == [second] && [second][1..] == [];
    assert Orderly(Handle(w, keyOf, first), keyOf, id, [second]);
  }

  lemma OneGuideHasRoomForOne()
    ensures PointsAt(OneGuideWorld(), "b", 0) && WithinLimits(PoolOf(OneGuideWorld(), "b"))
    ensures !HasUnlimited(PoolOf(OneGuideWorld(), "b")) && Capacity(PoolOf(OneGuideWorld(), "b")) == 1
  {
    assert PoolOf(OneGuideWorld(), "b")[1..] == [];
  }
}
