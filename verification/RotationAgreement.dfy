/**
  The guide WeCom shows for a binding, and the guide the binding remembers. WeCom is
  told before the binding is saved, so the two can part.
 */
module RotationAgreement {
  import opened Basics
  import StateCodec
  import opened ContactWayRotation
  import opened RotationFairness
  import RotationLimits

  /** The guide WeCom shows after a switch. */
  function Shown(shown: string, outcome: SwitchOutcome): string {
    match outcome
    case SaveFailed(guide) => guide
    case Unconfirmed(guide, _) => guide
    case Switched(guide, _) => guide
    case _ => shown
  }

  /** The switch gets as far as WeCom. */
  predicate ReachesWeCom(a: Attempt, id: string) {
    && !a.trouble.bindingUnreadable && id in a.tables.bindings
    && (a.tables.bindings[id].status == Active || a.forcedIndex >= 0)
    && !a.trouble.poolUnreadable && EligibleIds(a.tables, id) != []
  }

  predicate Accepted(a: Attempt, id: string) {
    ReachesWeCom(a, id) && a.trouble.wecomError.None?
  }

  /** The guide WeCom is asked to show. */
  function NextGuide(a: Attempt, id: string): string
    requires ReachesWeCom(a, id)
  {
    TurnOf(EligibleIds(a.tables, id), if a.forcedIndex >= 0 then a.forcedIndex else a.tables.bindings[id].nextIndex)
  }

  function Remembered(w: World, id: string): string
    requires id in w.bindings
  {
    w.bindings[id].currentGuide
  }

  // ---------------------------------------------------------------- one switch

  /** WeCom follows every accepted switch, the binding only the accepted ones that are saved. */
  lemma SwitchShows(a: Attempt, id: string, shown: string)
    requires id in a.tables.bindings
    ensures var (v, outcome) := Switch(a.tables, id, a.forcedIndex, a.trouble);
            && Shown(shown, outcome) == (if Accepted(a, id) then NextGuide(a, id) else shown)
            && id in v.bindings
            && Remembered(v, id) ==
               if Accepted(a, id) && !a.trouble.saveFails then NextGuide(a, id) else Remembered(a.tables, id)
  {
    var b, guides := a.tables.bindings[id], Eligible(Pool(a.tables, a.tables.bindings[id].storeId));
    if guides != [] {
      PositiveModuloIsResidue(if a.forcedIndex >= 0 then a.forcedIndex else b.nextIndex, |guides|);
    }
  }

  /** A switch parts the two exactly if WeCom accepts another guide and the database does not save it. */
  lemma SwitchKeepsAgreementIff(a: Attempt, id: string)
    requires id in a.tables.bindings
    ensures var (v, outcome) := Switch(a.tables, id, a.forcedIndex, a.trouble);
            && id in v.bindings
            && (Shown(Remembered(a.tables, id), outcome) == Remembered(v, id) <==>
                !(Accepted(a, id) && a.trouble.saveFails && NextGuide(a, id) != Remembered(a.tables, id)))
  {
    SwitchShows(a, id, Remembered(a.tables, id));
  }

  // ---------------------------------------------------------------- every run

  function ShownAfter(w: World, keyOf: KeyOf, id: string, shown: string, op: Op): string {
    var a := AttemptOn(w, keyOf, id, op);
    if a.Some? then Shown(shown, OutcomeOf(a.value, id)) else shown
  }

  function ShownAtEnd(w: World, keyOf: KeyOf, id: string, shown: string, ops: seq<Op>): string
    decreases |ops|
  {
    if ops == [] then shown
    else ShownAtEnd(Apply(w, keyOf, ops[0]), keyOf, id, ShownAfter(w, keyOf, id, shown, ops[0]), ops[1..])
  }

  function ApplyAll(w: World, keyOf: KeyOf, ops: seq<Op>): World
    decreases |ops|
  {
    if ops == [] then w else ApplyAll(Apply(w, keyOf, ops[0]), keyOf, ops[1..])
  }

  /** The switch of the binding that WeCom accepts in this operation. */
  function AcceptedIn(w: World, keyOf: KeyOf, id: string, op: Op): (r: Option<Attempt>)
    ensures r.Some? ==> Accepted(r.value, id)
  {
    var a := AttemptOn(w, keyOf, id, op);
    if a.Some? && Accepted(a.value, id) then a else None
  }

  /** The last switch of the binding that WeCom accepts in a run. */
  function LastAccepted(w: World, keyOf: KeyOf, id: string, ops: seq<Op>): (r: Option<Attempt>)
    ensures r.Some? ==> Accepted(r.value, id)
    decreases |ops|
  {
    if ops == [] then None
    else
      var later := LastAccepted(Apply(w, keyOf, ops[0]), keyOf, id, ops[1..]);
      if later.Some? then later else AcceptedIn(w, keyOf, id, ops[0])
  }

  lemma OtherSwitchForgetsNothing(w: World, id: string, other: string, forcedIndex: int, trouble: Trouble)
    requires id in w.bindings && other != id
    ensures var v := Switch(w, other, forcedIndex, trouble).0;
            id in v.bindings && Remembered(v, id) == Remembered(w, id)
  {
  }

  /** An operation leaves a binding as its own switch leaves it, or as it was. */
  lemma ApplyRemembers(w: World, keyOf: KeyOf, id: string, op: Op)
    requires id in w.bindings
    ensures var v, a := Apply(w, keyOf, op), AttemptOn(w, keyOf, id, op);
            && id in v.bindings
            && (a.None? ==> Remembered(v, id) == Remembered(w, id))
            && (a.Some? ==>
                  && id in a.value.tables.bindings && Remembered(a.value.tables, id) == Remembered(w, id)
                  && id in Switch(a.value.tables, id, a.value.forcedIndex, a.value.trouble).0.bindings
                  && Remembered(v, id) ==
                     Remembered(Switch(a.value.tables, id, a.value.forcedIndex, a.value.trouble).0, id))
  {
    match op
    case Turn(b, forcedIndex, trouble) =>
      SwitchKeepsPlace(w, b, id, forcedIndex, trouble);
      if b != id {
        OtherSwitchForgetsNothing(w, id, b, forcedIndex, trouble);
      }
    case SetTo(_, _) =>
    case Deliver(d) =>
      if Records(w, keyOf, d) && Effective(w, d) {
        var target := StateCodec.Parse(Clean(d.event).state);
        SwitchKeepsPlace(Saved(w, keyOf, d), target, id, -1, d.trouble);
        if target != id {
          OtherSwitchForgetsNothing(Saved(w, keyOf, d), id, target, -1, d.trouble);
        }
      }
  }

  /** One operation, seen from WeCom and from the binding. */
  lemma ApplyShows(w: World, keyOf: KeyOf, id: string, shown: string, op: Op)
    requires id in w.bindings
    ensures var v, a := Apply(w, keyOf, op), AcceptedIn(w, keyOf, id, op);
            && id in v.bindings
            && ShownAfter(w, keyOf, id, shown, op) == (if a.Some? then NextGuide(a.value, id) else shown)
            && Remembered(v, id) ==
               (if a.Some? && !a.value.trouble.saveFails then NextGuide(a.value, id) else Remembered(w, id))
            && (a.Some? ==> id in a.value.tables.bindings && Remembered(a.value.tables, id) == Remembered(w, id))
  {
    ApplyRemembers(w, keyOf, id, op);
    var a := AttemptOn(w, keyOf, id, op);
    if a.Some? {
      SwitchShows(a.value, id, shown);
    }
  }

  /** The switch was saved, or asked WeCom for the guide that the binding remembered anyway. */
  predicate Settled(a: Attempt, id: string)
    requires ReachesWeCom(a, id)
  {
    !a.trouble.saveFails || NextGuide(a, id) == Remembered(a.tables, id)
  }

  /**
    After any run WeCom shows the guide that the binding remembers exactly if the last accepted
    switch of the binding was settled; without one, exactly if it did so at the start.
   */
  lemma {:induction false} AgreementIff(w: World, keyOf: KeyOf, id: string, shown: string, ops: seq<Op>)
    requires id in w.bindings
    ensures id in ApplyAll(w, keyOf, ops).bindings
    ensures var last := LastAccepted(w, keyOf, id, ops);
            ShownAtEnd(w, keyOf, id, shown, ops) == Remembered(ApplyAll(w, keyOf, ops), id) <==>
            if last.Some? then Settled(last.value, id) else shown == Remembered(w, id)
    decreases |ops|
  {
    if ops != [] {
      ApplyShows(w, keyOf, id, shown, ops[0]);
      AgreementIff(Apply(w, keyOf, ops[0]), keyOf, id, ShownAfter(w, keyOf, id, shown, ops[0]), ops[1..]);
    }
  }

  /** Every accepted switch of the binding is saved. */
  predicate AllSaved(w: World, keyOf: KeyOf, id: string, ops: seq<Op>)
    decreases |ops|
  {
    ops != [] ==>
      && (AcceptedIn(w, keyOf, id, ops[0]).Some? ==> !AcceptedIn(w, keyOf, id, ops[0]).value.trouble.saveFails)
      && AllSaved(Apply(w, keyOf, ops[0]), keyOf, id, ops[1..])
  }

  lemma {:induction false} LastIsSaved(w: World, keyOf: KeyOf, id: string, ops: seq<Op>)
    requires AllSaved(w, keyOf, id, ops)
    ensures var last := LastAccepted(w, keyOf, id, ops); last.Some? ==> !last.value.trouble.saveFails
    decreases |ops|
  {
    if ops != [] {
      LastIsSaved(Apply(w, keyOf, ops[0]), keyOf, id, ops[1..]);
    }
  }

  /** So agreement is kept over every run in which no accepted switch goes unsaved. */
  lemma AgreementIsKept(w: World, keyOf: KeyOf, id: string, ops: seq<Op>)
    requires id in w.bindings && AllSaved(w, keyOf, id, ops)
    ensures id in ApplyAll(w, keyOf, ops).bindings
    ensures ShownAtEnd(w, keyOf, id, Remembered(w, id), ops) == Remembered(ApplyAll(w, keyOf, ops), id)
  {
    AgreementIff(w, keyOf, id, Remembered(w, id), ops);
    LastIsSaved(w, keyOf, id, ops);
  }

  // ---------------------------------------------------------------- a callback that parts them

  const UNSAVED := NO_TROUBLE.(saveFails := true)

  lemma RunOfOne(w: World, keyOf: KeyOf, id: string, shown: string, op: Op)
    ensures ApplyAll(w, keyOf, [op]) == Apply(w, keyOf, op)
    ensures ShownAtEnd(w, keyOf, id, shown, [op]) == ShownAfter(w, keyOf, id, shown, op)
  {
    assert [op][1..] == [];
  }

  /** A customer add whose switch goes unsaved parts the two, if the next turn is another guide's. */
  lemma UnsavedCallbackParts(w: World, keyOf: KeyOf, id: string, d: Delivery)
    requires Records(w, keyOf, d) && Effective(w, d) && StateCodec.Parse(Clean(d.event).state) == id
    requires w.bindings[id].status == Active && d.trouble == UNSAVED
    requires var ids := EligibleIds(Saved(w, keyOf, d), id);
             ids != [] && TurnOf(ids, w.bindings[id].nextIndex) != Remembered(w, id)
    ensures var v := ApplyAll(w, keyOf, [Deliver(d)]);
            && id in v.bindings && Remembered(v, id) == Remembered(w, id)
            && ShownAtEnd(w, keyOf, id, Remembered(w, id), [Deliver(d)]) ==
               TurnOf(EligibleIds(Saved(w, keyOf, d), id), w.bindings[id].nextIndex)
  {
    ApplyShows(w, keyOf, id, Remembered(w, id), Deliver(d));
    RunOfOne(w, keyOf, id, Remembered(w, id), Deliver(d));
  }

  const TURN_OF_H := Binding("s", "s", "m", "g", 1, Active, "")

  /** A store with two guides; the code shows "g", and the next turn is "h"'s. */
  function TwoGuideWorld(): World {
    World(map["b" := TURN_OF_H], map["s" := [Guide("g", true, 0, 0), Guide("h", true, 0, 0)]], [], [], {}, {})
  }

  /** A customer adds "g"; the switch reaches WeCom, but its save fails. */
  function UnsavedCallback(externalUserId: string): Delivery {
    RotationLimits.NextCustomer("b", TURN_OF_H, externalUserId).(trouble := UNSAVED)
  }

  lemma UnsavedCallbackIsHandled(keyOf: KeyOf, externalUserId: string)
    ensures var w, d := TwoGuideWorld(), UnsavedCallback(externalUserId);
            Records(w, keyOf, d) && Effective(w, d) && StateCodec.Parse(Clean(d.event).state) == "b"
  {
    RotationLimits.OneGuideIsReadable();
    RotationLimits.NextCustomerIsOrderly(TwoGuideWorld(), keyOf, "b", externalUserId);
  }

  lemma BothEligible(pool: seq<Guide>)
    requires |pool| == 2 && IsEligible(pool[0]) && IsEligible(pool[1])
    ensures Ids(Eligible(pool)) == [pool[0].userId, pool[1].userId]
  {
    assert pool[1..] == [pool[1]] && pool[1..][1..] == [];
    assert Eligible(pool[1..]) == [pool[1]];
  }

  lemma SavedStillShowsBoth(w: World, keyOf: KeyOf, d: Delivery)
    requires w == TwoGuideWorld() && Effective(w, d)
    requires StateCodec.Parse(Clean(d.event).state) == "b"
    ensures EligibleIds(Saved(w, keyOf, d), "b") == ["g", "h"]
  {
    BothEligible(Counted(w.pools["s"], Clean(d.event).userId));
  }

  lemma TurnIsH()
    ensures TurnOf(["g", "h"], 1) == "h" && TurnOf(["g", "h"], 1) != "g"
  {
  }

  /** WeCom shows "h" and the binding remembers "g". */
  ghost predicate Parted(w: World, keyOf: KeyOf, d: Delivery) {
    var v := ApplyAll(w, keyOf, [Deliver(d)]);
    && "b" in v.bindings && Remembered(v, "b") == "g"
    && ShownAtEnd(w, keyOf, "b", "g", [Deliver(d)]) == "h"
  }

  lemma UnsavedCallbackPartsTwo(w: World, keyOf: KeyOf, d: Delivery)
    requires w == TwoGuideWorld() && d.trouble == UNSAVED
    requires Records(w, keyOf, d) && Effective(w, d) && StateCodec.Parse(Clean(d.event).state) == "b"
    ensures Parted(w, keyOf, d)
  {
    TurnIsH();
    SavedStillShowsBoth(w, keyOf, d);
    UnsavedCallbackParts(w, keyOf, "b", d);
  }

  /** So it happens after any customer's add. */
  lemma CallbackPartsThem(keyOf: KeyOf, externalUserId: string)
    ensures TURN_OF_H.currentGuide == "g" && Parted(TwoGuideWorld(), keyOf, UnsavedCallback(externalUserId))
  {
    UnsavedCallbackIsHandled(keyOf, externalUserId);
    UnsavedCallbackPartsTwo(TwoGuideWorld(), keyOf, UnsavedCallback(externalUserId));
  }
}
