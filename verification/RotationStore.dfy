/** The rotation's tables as mutable state: switching, pausing and callback handling, step by step. */
module RotationStores {
  import opened Basics
  import StateCodec
  import opened ContactWayRotation
  import RotationLimits

  /** A committed switch picks an eligible guide of the pool; any other keeps every binding's turn. */
  lemma SwitchPicksEligible(w: World, id: string, forcedIndex: int, trouble: Trouble)
    ensures var (v, outcome) := Switch(w, id, forcedIndex, trouble);
            && (Committed(outcome) ==>
                  && id in v.bindings
                  && exists g :: g in Pool(v, v.bindings[id].storeId) && IsEligible(g)
                                 && g.userId == v.bindings[id].currentGuide == outcome.guideUserId)
            && (!Committed(outcome) ==> SameTurns(w.bindings, v.bindings))
  {
    var outcome := Switch(w, id, forcedIndex, trouble).1;
    if Committed(outcome) {
      var pool, b := Pool(w, w.bindings[id].storeId), w.bindings[id];
      var guides := Eligible(pool);
      var index := if forcedIndex >= 0 then forcedIndex else b.nextIndex;
      PositiveModuloIsResidue(index, |guides|);
      RotationLimits.EligibleComesFromPool(pool);
      assert guides[index % |guides|] in pool;
    }
  }

  class RotationStore {
    var bindings: map<string, Binding>
    var pools: map<string, seq<Guide>>
    var assignments: seq<Assignment>
    var retries: seq<Retry>
    var seen: set<string>
    var processed: set<string>

    function View(): World
      reads this
    {
      World(bindings, pools, assignments, retries, seen, processed)
    }

    constructor (bindings: map<string, Binding>, pools: map<string, seq<Guide>>)
      ensures View() == World(bindings, pools, [], [], {}, {})
    {
      this.bindings, this.pools := bindings, pools;
      assignments, retries, seen, processed := [], [], {}, {};
    }

    /** One switch transaction around one WeCom update; only its commit moves the binding. */
    method SwitchBinding(id: string, forcedIndex: int, trouble: Trouble) returns (outcome: SwitchOutcome)
      modifies this`bindings, this`retries
      ensures (View(), outcome) == Switch(old(View()), id, forcedIndex, trouble)
      ensures Committed(outcome) ==>
                exists g :: g in Pool(View(), bindings[id].storeId) && IsEligible(g)
                            && g.userId == bindings[id].currentGuide == outcome.guideUserId
      ensures !Committed(outcome) ==> SameTurns(old(bindings), bindings)
      ensures outcome.Switched? <==> Committed(outcome) && !trouble.rereadFails
    {
      SwitchPicksEligible(View(), id, forcedIndex, trouble);
      if trouble.bindingUnreadable {
        return DatabaseFailed;
      }
      if id !in bindings {
        return NotFound;
      }
      var b := bindings[id];
      if b.status != Active && forcedIndex < 0 {
        return Refused;
      }
      if trouble.poolUnreadable {
        return DatabaseFailed;
      }
      var guides := Eligible(if b.storeId in pools then pools[b.storeId] else []);
      if |guides| == 0 {
        if trouble.saveFails {
          return DatabaseFailed;
        }
        bindings := bindings[id := b.(lastError := NO_ACTIVE_GUIDE)];
        return NoGuide;
      }
      var nextIndex := b.nextIndex;
      if forcedIndex >= 0 {
        nextIndex := forcedIndex;
      }
      PositiveModuloIsResidue(nextIndex, |guides|);
      var slot := PositiveModulo(nextIndex, |guides|);
      var guide := guides[slot].userId;
      var state := StateFor(id, b, guide);
      if trouble.wecomError.Some? {
        if !trouble.saveFails {
          bindings := bindings[id := b.(lastError := trouble.wecomError.value)];
          retries := retries + [Retry(id, guide, state)];
        }
        return WeComFailed;
      }
      if trouble.saveFails {
        return SaveFailed(guide);
      }
      bindings := bindings[id := b.(currentGuide := guide, nextIndex := nextIndex + 1,
                                    status := if forcedIndex >= 0 then Active else b.status, lastError := "")];
      if trouble.rereadFails {
        return Unconfirmed(guide, state);
      }
      return Switched(guide, state);
    }

    /** Pause or enable a binding. */
    method SetBindingStatus(id: string, status: Status) returns (found: bool)
      modifies this`bindings
      ensures (View(), found) == SetStatus(old(View()), id, status)
    {
      found := id in bindings;
      if found {
        bindings := bindings[id := bindings[id].(status := status, lastError := "")];
      }
    }

    /** Insert the event unless its key is there already. */
    method InsertCallbackEvent(key: string) returns (inserted: bool)
      modifies this`seen
      ensures inserted <==> key !in old(seen)
      ensures seen == old(seen) + {key}
    {
      inserted := key !in seen;
      seen := seen + {key};
    }

    /** The assignment row and the guide's counter, in one transaction. */
    method SaveCustomerAssignment(id: string, b: Binding, e: Event)
      modifies this`assignments, this`pools
      ensures View() == SaveAssignment(old(View()), id, b, e)
    {
      assignments := assignments + [Assignment(b.storeId, id, b.managerUserId, e.userId, e.externalUserId, e.state,
                                               e.changeType)];
      if b.storeId in pools {
        pools := pools[b.storeId := Counted(pools[b.storeId], e.userId)];
      }
    }

    /** A callback: record the key, and for a customer add assign the customer and switch to the next guide. */
    method HandleCustomerEvent(keyOf: KeyOf, d: Delivery)
      modifies this
      ensures View() == Handle(old(View()), keyOf, d)
    {
      var e := Clean(d.event);
      var key := keyOf(e);
      if d.fault == InsertFails {
        return;
      }
      var inserted := InsertCallbackEvent(key);
      if !inserted {
        assert seen == old(seen);
        return;
      }
      if !IsCustomerAdd(e) {
        return;
      }
      var id := StateCodec.Parse(e.state);
      if id == "" || d.fault == LookupFails || id !in bindings {
        return;
      }
      var b := bindings[id];
      if d.fault == LegacyEventFails || d.fault == AssignmentFails {
        return;
      }
      SaveCustomerAssignment(id, b, e);
      var _ := SwitchBinding(id, -1, d.trouble);
      if d.fault == MarkFails {
        return;
      }
      processed := processed + {key};
    }
  }
}
