/** Duplicated and failing callbacks: what delivery, redelivery and failure do to assignments and counters. */
module RotationCallbacks {
  import opened Basics
  import StateCodec
  import opened ContactWayRotation

  /** The deliveries that record their key: the first of each key, not counting failed inserts. */
  function Firsts(seen: set<string>, keyOf: KeyOf, ds: seq<Delivery>): seq<Delivery>
    decreases |ds|
  {
    if ds == [] then []
    else
      var key := keyOf(Clean(ds[0].event));
      if ds[0].fault == InsertFails || key in seen then Firsts(seen, keyOf, ds[1..])
      else [ds[0]] + Firsts(seen + {key}, keyOf, ds[1..])
  }

  lemma HandleRecordsKey(w: World, keyOf: KeyOf, d: Delivery)
    ensures Handle(w, keyOf, d).seen == if d.fault == InsertFails then w.seen else w.seen + {keyOf(Clean(d.event))}
  {
    if Records(w, keyOf, d) && Effective(w, d) {
      SwitchTouchesNoPool(Saved(w, keyOf, d), StateCodec.Parse(Clean(d.event).state), -1, d.trouble);
    }
  }

  /** Duplicates change nothing: any delivery sequence ends in the very state its first deliveries alone lead to. */
  lemma {:induction false} ReplayEquivalence(w: World, keyOf: KeyOf, ds: seq<Delivery>)
    ensures Run(w, keyOf, ds) == Run(w, keyOf, Firsts(w.seen, keyOf, ds))
    decreases |ds|
  {
    if ds != [] {
      var next := Handle(w, keyOf, ds[0]);
      HandleRecordsKey(w, keyOf, ds[0]);
      ReplayEquivalence(next, keyOf, ds[1..]);
      var firsts := Firsts(w.seen, keyOf, ds);
      if ds[0].fault != InsertFails && keyOf(Clean(ds[0].event)) !in w.seen {
        assert firsts[1..] == Firsts(next.seen, keyOf, ds[1..]);
      }
    }
  }

  function CountKey(keyOf: KeyOf, ds: seq<Delivery>, key: string): nat {
    if ds == [] then 0 else (if keyOf(Clean(ds[0].event)) == key then 1 else 0) + CountKey(keyOf, ds[1..], key)
  }

  /** Some delivery of this key gets as far as recording it. */
  predicate Reaches(keyOf: KeyOf, ds: seq<Delivery>, key: string) {
    ds != [] && ((keyOf(Clean(ds[0].event)) == key && ds[0].fault != InsertFails) || Reaches(keyOf, ds[1..], key))
  }

  /** Each new key that is ever recorded is handled exactly once, any other key never. */
  lemma {:induction false} EachKeyIsHandledOnce(seen: set<string>, keyOf: KeyOf, ds: seq<Delivery>, key: string)
    ensures CountKey(keyOf, Firsts(seen, keyOf, ds), key) == if key !in seen && Reaches(keyOf, ds, key) then 1 else 0
    decreases |ds|
  {
    if ds != [] {
      var k := keyOf(Clean(ds[0].event));
      if ds[0].fault == InsertFails || k in seen {
        EachKeyIsHandledOnce(seen, keyOf, ds[1..], key);
      } else {
        EachKeyIsHandledOnce(seen + {k}, keyOf, ds[1..], key);
        assert Firsts(seen, keyOf, ds)[1..] == Firsts(seen + {k}, keyOf, ds[1..]);
      }
    }
  }

  // ---------------------------------------------------------------- exactly one assignment per effective key

  /** Switching and handling never move a binding to another store or manager. */
  ghost predicate SameStores(w: World, v: World) {
    && w.bindings.Keys == v.bindings.Keys
    && forall id :: id in w.bindings ==>
         && w.bindings[id].storeId == v.bindings[id].storeId
         && w.bindings[id].managerUserId == v.bindings[id].managerUserId
  }

  /** The assignments a sequence of first deliveries makes. */
  function Assigned(w: World, ds: seq<Delivery>): seq<Assignment> {
    if ds == [] then []
    else
      var e := Clean(ds[0].event);
      var id := StateCodec.Parse(e.state);
      (if Effective(w, ds[0]) then [AssignmentOf(id, w.bindings[id], e)] else []) + Assigned(w, ds[1..])
  }

  lemma {:induction false} AssignedDependsOnStores(w: World, v: World, ds: seq<Delivery>)
    requires SameStores(w, v)
    ensures Assigned(w, ds) == Assigned(v, ds)
  {
    if ds != [] {
      AssignedDependsOnStores(w, v, ds[1..]);
    }
  }

  lemma SwitchKeepsStores(w: World, id: string, forcedIndex: int, trouble: Trouble)
    ensures SameStores(w, Switch(w, id, forcedIndex, trouble).0)
  {
  }

  lemma HandleKeepsStores(w: World, keyOf: KeyOf, d: Delivery)
    ensures SameStores(w, Handle(w, keyOf, d))
  {
    var e := Clean(d.event);
    if Records(w, keyOf, d) && Effective(w, d) {
      SwitchKeepsStores(Saved(w, keyOf, d), StateCodec.Parse(e.state), -1, d.trouble);
    }
  }

  lemma SwitchTouchesNoPool(w: World, id: string, forcedIndex: int, trouble: Trouble)
    ensures var v := Switch(w, id, forcedIndex, trouble).0;
            v.pools == w.pools && v.assignments == w.assignments && v.seen == w.seen
  {
  }

  lemma HandleAssigns(w: World, keyOf: KeyOf, d: Delivery)
    ensures Handle(w, keyOf, d).assignments ==
            w.assignments + (if Records(w, keyOf, d) then Assigned(w, [d]) else [])
  {
    var e := Clean(d.event);
    var id := StateCodec.Parse(e.state);
    var here := if Effective(w, d) then [AssignmentOf(id, w.bindings[id], e)] else [];
    assert Assigned(w, [d]) == here + Assigned(w, []) by {
      assert [d][1..] == [];
    }
    if Records(w, keyOf, d) && Effective(w, d) {
      SwitchTouchesNoPool(Saved(w, keyOf, d), id, -1, d.trouble);
    }
  }

  lemma FirstsStep(w: World, keyOf: KeyOf, ds: seq<Delivery>)
    requires ds != []
    ensures var rest := Firsts(Handle(w, keyOf, ds[0]).seen, keyOf, ds[1..]);
            Firsts(w.seen, keyOf, ds) == if Records(w, keyOf, ds[0]) then [ds[0]] + rest else rest
  {
    HandleRecordsKey(w, keyOf, ds[0]);
    var key := keyOf(Clean(ds[0].event));
    assert key in w.seen ==> w.seen + {key} == w.seen;
  }

  /** Exactly the first deliveries that are effective add an assignment each, in order. */
  lemma {:induction false} OneAssignmentPerEffectiveKey(w: World, keyOf: KeyOf, ds: seq<Delivery>)
    ensures Run(w, keyOf, ds).assignments == w.assignments + Assigned(w, Firsts(w.seen, keyOf, ds))
    decreases |ds|
  {
    if ds != [] {
      OneAssignmentPerEffectiveKey(Handle(w, keyOf, ds[0]), keyOf, ds[1..]);
      FirstDeliveryAssigns(w, keyOf, ds);
    }
  }

  /** What is assigned and still to be assigned is the same before and after the first delivery. */
  lemma FirstDeliveryAssigns(w: World, keyOf: KeyOf, ds: seq<Delivery>)
    requires ds != []
    ensures var next := Handle(w, keyOf, ds[0]);
            next.assignments + Assigned(next, Firsts(next.seen, keyOf, ds[1..])) ==
            w.assignments + Assigned(w, Firsts(w.seen, keyOf, ds))
  {
    var rest := Firsts(Handle(w, keyOf, ds[0]).seen, keyOf, ds[1..]);
    LaterAssignmentsAlike(w, keyOf, ds[0], rest);
    HandleAssigns(w, keyOf, ds[0]);
    FirstsStep(w, keyOf, ds);
    if Records(w, keyOf, ds[0]) {
      AssignedCons(w, ds[0], rest);
      ConcatAssoc(w.assignments, Assigned(w, [ds[0]]), Assigned(w, rest));
    }
  }

  /** The deliveries of a sequence that lead to an assignment. */
  function Effectives(w: World, ds: seq<Delivery>): seq<Delivery> {
    if ds == [] then [] else (if Effective(w, ds[0]) then [ds[0]] else []) + Effectives(w, ds[1..])
  }

  /** They are those of a customer's add, in full or in part, whose state leads to a stored binding. */
  lemma EffectiveMeaning(w: World, d: Delivery)
    ensures var id := StateCodec.Parse(Trim(d.event.state));
            Effective(w, d) <==>
            && Trim(d.event.event) == "change_external_contact"
            && (Trim(d.event.changeType) == "add_external_contact"
                || Trim(d.event.changeType) == "add_half_external_contact")
            && id != "" && id in w.bindings
            && d.fault != LookupFails && d.fault != LegacyEventFails && d.fault != AssignmentFails
  {
  }

  /** The row of a delivery, field by field: trimmed fields of the event, and the binding its state leads to. */
  predicate RowOf(w: World, row: Assignment, d: Delivery) {
    && row.externalUserId == Trim(d.event.externalUserId)
    && row.guideUserId == Trim(d.event.userId)
    && row.state == Trim(d.event.state)
    && row.changeType == Trim(d.event.changeType)
    && row.bindingId == StateCodec.Parse(Trim(d.event.state))
    && row.bindingId in w.bindings
    && row.storeId == w.bindings[row.bindingId].storeId
    && row.managerUserId == w.bindings[row.bindingId].managerUserId
  }

  lemma {:induction false} AssignedFields(w: World, ds: seq<Delivery>)
    ensures |Assigned(w, ds)| == |Effectives(w, ds)|
    ensures forall k :: 0 <= k < |Assigned(w, ds)| ==> RowOf(w, Assigned(w, ds)[k], Effectives(w, ds)[k])
  {
    if ds != [] {
      AssignedFields(w, ds[1..]);
    }
  }

  /** Over every run: the k-th new row is that of the k-th effective first delivery, field by field. */
  lemma AssignmentRows(w: World, keyOf: KeyOf, ds: seq<Delivery>)
    ensures var rows, effective := Run(w, keyOf, ds).assignments, Effectives(w, Firsts(w.seen, keyOf, ds));
            && |rows| == |w.assignments| + |effective|
            && rows[..|w.assignments|] == w.assignments
            && forall k :: 0 <= k < |effective| ==> RowOf(w, rows[|w.assignments| + k], effective[k])
  {
    OneAssignmentPerEffectiveKey(w, keyOf, ds);
    AssignedFields(w, Firsts(w.seen, keyOf, ds));
  }

  /** What else a delivery leaves: its key, unless the insert fails, and its mark, once all is done. */
  lemma HandleMarks(w: World, keyOf: KeyOf, d: Delivery)
    ensures var v, key := Handle(w, keyOf, d), keyOf(Clean(d.event));
            var first := d.fault != InsertFails && key !in w.seen;
            && v.seen == (if first then w.seen + {key} else w.seen)
            && v.processed == (if first && Effective(w, d) && d.fault != MarkFails then w.processed + {key}
                               else w.processed)
  {
    HandleRecordsKey(w, keyOf, d);
    if Records(w, keyOf, d) && Effective(w, d) {
      SwitchTouchesOneBinding(Saved(w, keyOf, d), StateCodec.Parse(Clean(d.event).state), -1, d.trouble);
    }
  }

  /** The key is taken from the event with its fields trimmed, but for the welcome code. */
  lemma KeyIsOfTrimmedEvent(e: Event)
    ensures Clean(e) == Event(Trim(e.event), Trim(e.changeType), Trim(e.userId), Trim(e.externalUserId),
                              Trim(e.state), e.welcomeCode, e.createTime)
  {
  }

  lemma LaterAssignmentsAlike(w: World, keyOf: KeyOf, d: Delivery, rest: seq<Delivery>)
    ensures Assigned(Handle(w, keyOf, d), rest) == Assigned(w, rest)
  {
    HandleKeepsStores(w, keyOf, d);
    AssignedDependsOnStores(w, Handle(w, keyOf, d), rest);
  }

  lemma AssignedCons(w: World, d: Delivery, rest: seq<Delivery>)
    ensures Assigned(w, [d] + rest) == Assigned(w, [d]) + Assigned(w, rest)
  {
    assert ([d] + rest)[1..] == rest && [d][1..] == [];
  }

  // ---------------------------------------------------------------- counters and assignments

  function CountFor(rows: seq<Assignment>, storeId: string, userId: string): nat {
    if rows == [] then 0
    else CountFor(rows[..|rows| - 1], storeId, userId)
         + (if rows[|rows| - 1].storeId == storeId && rows[|rows| - 1].guideUserId == userId then 1 else 0)
  }

  /** Every guide's counter exceeds its assignment rows by the same amount in both worlds. */
  ghost predicate SameGap(w: World, v: World) {
    && w.pools.Keys == v.pools.Keys
    && forall s :: s in w.pools ==>
         && |w.pools[s]| == |v.pools[s]|
         && forall i :: 0 <= i < |w.pools[s]| ==>
              var g, h := w.pools[s][i], v.pools[s][i];
              && h == g.(assignedToday := h.assignedToday)
              && h.assignedToday - CountFor(v.assignments, s, g.userId)
                 == g.assignedToday - CountFor(w.assignments, s, g.userId)
  }

  lemma SavingKeepsGap(w: World, id: string, b: Binding, e: Event)
    ensures SameGap(w, SaveAssignment(w, id, b, e))
  {
    var v := SaveAssignment(w, id, b, e);
    assert v.assignments[..|v.assignments| - 1] == w.assignments;
  }

  lemma HandleKeepsGap(w: World, keyOf: KeyOf, d: Delivery)
    ensures SameGap(w, Handle(w, keyOf, d))
  {
    var e := Clean(d.event);
    if Records(w, keyOf, d) && Effective(w, d) {
      var id := StateCodec.Parse(e.state);
      var logged := w.(seen := w.seen + {keyOf(e)});
      SavingKeepsGap(logged, id, w.bindings[id], e);
      SwitchTouchesNoPool(Saved(w, keyOf, d), id, -1, d.trouble);
    }
  }

  lemma SameGapTransitive(u: World, v: World, w: World)
    requires SameGap(u, v) && SameGap(v, w)
    ensures SameGap(u, w)
  {
    forall s, i | s in u.pools && 0 <= i < |u.pools[s]|
      ensures w.pools[s][i] == u.pools[s][i].(assignedToday := w.pools[s][i].assignedToday)
      ensures w.pools[s][i].assignedToday - CountFor(w.assignments, s, u.pools[s][i].userId)
              == u.pools[s][i].assignedToday - CountFor(u.assignments, s, u.pools[s][i].userId)
    {
      assert v.pools[s][i].userId == u.pools[s][i].userId;
    }
  }

  /** Over every run, with any failures, guide counters grow exactly with the guides' assignment rows. */
  lemma {:induction false} CountersFollowAssignments(w: World, keyOf: KeyOf, ds: seq<Delivery>)
    ensures SameGap(w, Run(w, keyOf, ds))
    decreases |ds|
  {
    if ds != [] {
      var next := Handle(w, keyOf, ds[0]);
      HandleKeepsGap(w, keyOf, ds[0]);
      CountersFollowAssignments(next, keyOf, ds[1..]);
      SameGapTransitive(w, next, Run(next, keyOf, ds[1..]));
    }
  }

  // ---------------------------------------------------------------- when redelivery repairs a failure

  predicate SameKey(keyOf: KeyOf, ds: seq<Delivery>, key: string) {
    forall i :: 0 <= i < |ds| ==> keyOf(Clean(ds[i].event)) == key
  }

  lemma {:induction false} RecordedKeyIsDeaf(seen: set<string>, keyOf: KeyOf, ds: seq<Delivery>, key: string)
    requires SameKey(keyOf, ds, key) && key in seen
    ensures Firsts(seen, keyOf, ds) == []
    decreases |ds|
  {
    if ds != [] {
      RecordedKeyIsDeaf(seen, keyOf, ds[1..], key);
    }
  }

  /**
    A customer-add callback whose handling fails is redelivered any number of
    times, without further failures. It ends with its assignment exactly when the
    failing write was not one between the key's insert and the assignment's commit.
   */
  lemma RedeliveryRepairsIff(w: World, keyOf: KeyOf, d: Delivery, again: seq<Delivery>)
    requires keyOf(Clean(d.event)) !in w.seen && Effective(w, d.(fault := NoFault))
    requires again != [] && forall i :: 0 <= i < |again| ==> again[i] == d.(fault := NoFault)
    ensures var row := AssignmentOf(StateCodec.Parse(Clean(d.event).state),
                                    w.bindings[StateCodec.Parse(Clean(d.event).state)], Clean(d.event));
            Run(w, keyOf, [d] + again).assignments ==
            w.assignments + (if d.fault in {LookupFails, LegacyEventFails, AssignmentFails} then [] else [row])
  {
    var key := keyOf(Clean(d.event));
    OneAssignmentPerEffectiveKey(w, keyOf, [d] + again);
    assert ([d] + again)[1..] == again;
    if d.fault == InsertFails {
      RecordedKeyIsDeaf(w.seen + {key}, keyOf, again[1..], key);
      assert Firsts(w.seen, keyOf, [d] + again) == [again[0]];
      assert Assigned(w, [again[0]][1..]) == [];
    } else {
      RecordedKeyIsDeaf(w.seen + {key}, keyOf, again, key);
      assert Firsts(w.seen, keyOf, [d] + again) == [d];
      assert Assigned(w, [d][1..]) == [];
    }
  }
}
