/**
  Customer-guide relations and the customer's owner. Four transactions write them:
  adding a relation, making one the main one, ending one, and a store handover.
 */
module CustomerRelations {
  import opened Basics

  datatype Status = Active | Ended

  datatype Relation = Relation(customerId: string, staffId: string, main: bool, status: Status, endedAt: Option<int>)

  /** owners holds the owner id of every stored customer. */
  datatype Tables = Tables(relations: map<string, Relation>, owners: map<string, string>)

  datatype Result = Done | NotFound | BadRequest | CustomerNotStored

  // ---------------------------------------------------------------- the transactions

  /** relationId is fresh; an empty guide id falls back to the guide's name, which must not be blank. */
  function Add(t: Tables, customerId: string, relationId: string, guideId: string, guideName: string)
    : (Tables, Result)
  {
    if Trim(guideName) == "" then (t, BadRequest)
    else
      var staff := if guideId == "" then Trim(guideName) else guideId;
      (t.(relations := t.relations[relationId := Relation(customerId, staff, false, Active, None)]), Done)
  }

  predicate Belongs(t: Tables, relationId: string, customerId: string) {
    relationId in t.relations && t.relations[relationId].customerId == customerId
  }

  function SetMain(t: Tables, customerId: string, relationId: string): (Tables, Result) {
    if !Belongs(t, relationId, customerId) then (t, NotFound)
    else if t.relations[relationId].status != Active then (t, BadRequest)
    else
      var cleared := map r | r in t.relations ::
                       if t.relations[r].customerId == customerId then t.relations[r].(main := false)
                       else t.relations[r];
      (Tables(cleared[relationId := cleared[relationId].(main := true)],
              t.owners[customerId := t.relations[relationId].staffId]), Done)
  }

  function End(t: Tables, customerId: string, relationId: string, now: int): (Tables, Result) {
    if !Belongs(t, relationId, customerId) then (t, NotFound)
    else if t.relations[relationId].main then (t, BadRequest)
    else (t.(relations := t.relations[relationId :=
            t.relations[relationId].(status := Ended, endedAt := Some(now))]), Done)
  }

  /** The rows a handover closes: the customer's active main relations. */
  predicate HandsOver(r: Relation, customerId: string) {
    r.customerId == customerId && r.status == Active && r.main
  }

  function Handover(t: Tables, customerId: string, relationId: string, guideId: string, now: int): (Tables, Result) {
    if customerId == "" || customerId !in t.owners then (t, CustomerNotStored)
    else
      var closed := map r | r in t.relations ::
                      if HandsOver(t.relations[r], customerId)
                      then t.relations[r].(status := Ended, main := false,
                                           endedAt := Coalesce(t.relations[r].endedAt, now))
                      else t.relations[r];
      (Tables(closed[relationId := Relation(customerId, guideId, true, Active, None)], t.owners[customerId := guideId]),
       Done)
  }

  datatype Action =
    | AddRelation(customerId: string, relationId: string, guideId: string, guideName: string)
    | SetMainRelation(customerId: string, relationId: string)
    | EndRelation(customerId: string, relationId: string, now: int)
    | HandOver(customerId: string, relationId: string, guideId: string, now: int)

  function Apply(t: Tables, a: Action): Tables {
    match a
    case AddRelation(c, r, g, name) => Add(t, c, r, g, name).0
    case SetMainRelation(c, r) => SetMain(t, c, r).0
    case EndRelation(c, r, now) => End(t, c, r, now).0
    case HandOver(c, r, g, now) => Handover(t, c, r, g, now).0
  }

  function Run(t: Tables, actions: seq<Action>): Tables {
    if actions == [] then t else Apply(Run(t, actions[..|actions| - 1]), actions[|actions| - 1])
  }

  /** Actions on stored customers, new rows under new ids. */
  predicate Legal(t: Tables, a: Action) {
    && (a.HandOver? || a.customerId in t.owners)
    && (a.AddRelation? || a.HandOver? ==> a.relationId !in t.relations)
  }

  predicate LegalRun(t: Tables, actions: seq<Action>) {
    forall i :: 0 <= i < |actions| ==> Legal(Run(t, actions[..i]), actions[i])
  }

  // ---------------------------------------------------------------- the invariant

  predicate IsMain(t: Tables, r: string) {
    r in t.relations && t.relations[r].main
  }

  ghost predicate Inv(t: Tables) {
    && (forall r :: r in t.relations ==> t.relations[r].customerId in t.owners)
    && (forall r :: r in t.relations ==> (t.relations[r].status == Ended <==> t.relations[r].endedAt.Some?))
    && (forall r :: IsMain(t, r) ==>
          t.relations[r].status == Active && t.relations[r].staffId == t.owners[t.relations[r].customerId])
    && (forall r, s :: IsMain(t, r) && IsMain(t, s) && t.relations[r].customerId == t.relations[s].customerId ==>
          r == s)
  }

  lemma AddKeepsInvariant(t: Tables, customerId: string, relationId: string, guideId: string, guideName: string)
    requires Inv(t) && customerId in t.owners && relationId !in t.relations
    ensures Inv(Add(t, customerId, relationId, guideId, guideName).0)
  {
    var t' := Add(t, customerId, relationId, guideId, guideName).0;
    assert forall r :: IsMain(t', r) ==> IsMain(t, r) && t'.relations[r] == t.relations[r];
  }

  lemma SetMainKeepsInvariant(t: Tables, customerId: string, relationId: string)
    requires Inv(t)
    ensures Inv(SetMain(t, customerId, relationId).0)
  {
    var (t', result) := SetMain(t, customerId, relationId);
    if result == Done {
      forall r | IsMain(t', r)
        ensures r == relationId ||
                (IsMain(t, r) && t'.relations[r] == t.relations[r] && t.relations[r].customerId != customerId)
      {
      }
    }
  }

  lemma EndKeepsInvariant(t: Tables, customerId: string, relationId: string, now: int)
    requires Inv(t)
    ensures Inv(End(t, customerId, relationId, now).0)
  {
    var t' := End(t, customerId, relationId, now).0;
    assert forall r :: IsMain(t', r) ==> IsMain(t, r) && t'.relations[r] == t.relations[r];
  }

  lemma HandoverKeepsInvariant(t: Tables, customerId: string, relationId: string, guideId: string, now: int)
    requires Inv(t) && relationId !in t.relations
    ensures Inv(Handover(t, customerId, relationId, guideId, now).0)
  {
    var (t', result) := Handover(t, customerId, relationId, guideId, now);
    if result == Done {
      forall r | IsMain(t', r)
        ensures r == relationId ||
                (IsMain(t, r) && t'.relations[r] == t.relations[r] && t.relations[r].customerId != customerId)
      {
        assert r == relationId || (r in t.relations && !HandsOver(t.relations[r], customerId));
      }
    }
  }

  lemma ApplyKeepsInvariant(t: Tables, a: Action)
    requires Inv(t) && Legal(t, a)
    ensures Inv(Apply(t, a))
  {
    match a
    case AddRelation(c, r, g, name) => AddKeepsInvariant(t, c, r, g, name);
    case SetMainRelation(c, r) => SetMainKeepsInvariant(t, c, r);
    case EndRelation(c, r, now) => EndKeepsInvariant(t, c, r, now);
    case HandOver(c, r, g, now) => HandoverKeepsInvariant(t, c, r, g, now);
  }

  /** Over every run a customer has at most one main relation; it is active, and its guide is the owner. */
  lemma {:induction false} RunKeepsInvariant(t: Tables, actions: seq<Action>)
    requires Inv(t) && LegalRun(t, actions)
    ensures Inv(Run(t, actions))
  {
    if actions != [] {
      var init := actions[..|actions| - 1];
      LegalRunInit(t, actions);
      RunKeepsInvariant(t, init);
      ApplyKeepsInvariant(Run(t, init), actions[|actions| - 1]);
    }
  }

  lemma LegalRunInit(t: Tables, actions: seq<Action>)
    requires actions != [] && LegalRun(t, actions)
    ensures LegalRun(t, actions[..|actions| - 1])
    ensures Legal(Run(t, actions[..|actions| - 1]), actions[|actions| - 1])
  {
    var init := actions[..|actions| - 1];
    forall i | 0 <= i < |init| ensures Legal(Run(t, init[..i]), init[i]) {
      assert init[..i] == actions[..i];
    }
  }

  // ---------------------------------------------------------------- history is kept

  /** Rows keep their customer and guide, and an ended one stays ended. */
  predicate HistoryKept(before: Tables, after: Tables) {
    forall r :: r in before.relations ==>
      && r in after.relations
      && after.relations[r].customerId == before.relations[r].customerId
      && after.relations[r].staffId == before.relations[r].staffId
      && (before.relations[r].status == Ended ==> after.relations[r].status == Ended)
  }

  lemma SetMainKeepsHistory(t: Tables, customerId: string, relationId: string)
    ensures HistoryKept(t, SetMain(t, customerId, relationId).0)
  {
  }

  lemma HandoverKeepsHistory(t: Tables, customerId: string, relationId: string, guideId: string, now: int)
    requires relationId !in t.relations
    ensures HistoryKept(t, Handover(t, customerId, relationId, guideId, now).0)
  {
  }

  lemma ApplyKeepsHistory(t: Tables, a: Action)
    requires Legal(t, a)
    ensures HistoryKept(t, Apply(t, a))
  {
    match a
    case AddRelation(_, _, _, _) =>
    case SetMainRelation(c, r) => SetMainKeepsHistory(t, c, r);
    case EndRelation(_, _, _) =>
    case HandOver(c, r, g, now) => HandoverKeepsHistory(t, c, r, g, now);
  }

  lemma HistoryKeptTransitive(t: Tables, u: Tables, v: Tables)
    requires HistoryKept(t, u) && HistoryKept(u, v)
    ensures HistoryKept(t, v)
  {
  }

  lemma {:induction false} RelationsAreNeverLostOrRevived(t: Tables, actions: seq<Action>)
    requires LegalRun(t, actions)
    ensures HistoryKept(t, Run(t, actions))
  {
    if actions != [] {
      LegalRunInit(t, actions);
      RelationsAreNeverLostOrRevived(t, actions[..|actions| - 1]);
      ApplyKeepsHistory(Run(t, actions[..|actions| - 1]), actions[|actions| - 1]);
      HistoryKeptTransitive(t, Run(t, actions[..|actions| - 1]), Run(t, actions));
    }
  }

  // ---------------------------------------------------------------- who is in charge afterwards

  /** The customer's main guide: the guide of its main relation, if it has one. */
  ghost predicate MainGuideIs(t: Tables, customerId: string, guide: string) {
    && customerId in t.owners && t.owners[customerId] == guide
    && exists r :: IsMain(t, r) && t.relations[r].customerId == customerId && t.relations[r].staffId == guide
  }

  /** set-main puts the guide in charge exactly if the relation is the customer's and active; else nothing changes. */
  lemma SetMainTakesEffectIff(t: Tables, customerId: string, relationId: string)
    requires Inv(t)
    ensures var (t', result) := SetMain(t, customerId, relationId);
            if Belongs(t, relationId, customerId) && t.relations[relationId].status == Active
            then
              && result == Done && IsMain(t', relationId)
              && MainGuideIs(t', customerId, t.relations[relationId].staffId)
            else result != Done && t' == t
  {
    var t' := SetMain(t, customerId, relationId).0;
    if Belongs(t, relationId, customerId) && t.relations[relationId].status == Active {
      assert IsMain(t', relationId);
    }
  }

  /** Making it the main one touches no other customer's relation or owner, and of this customer's only main flags. */
  lemma SetMainTouchesMainFlags(t: Tables, customerId: string, relationId: string)
    ensures var t' := SetMain(t, customerId, relationId).0;
            && t'.relations.Keys == t.relations.Keys
            && (forall r :: r in t.relations ==> t'.relations[r].(main := t.relations[r].main) == t.relations[r])
            && (forall r :: r in t.relations && t.relations[r].customerId != customerId ==>
                  t'.relations[r] == t.relations[r])
            && (forall c :: c != customerId ==> (c in t.owners <==> c in t'.owners))
            && (forall c :: c != customerId && c in t.owners ==> t'.owners[c] == t.owners[c])
  {
  }

  /** end ends exactly a stored relation of this customer that is not the main one, at this time, and nothing else. */
  lemma EndTakesEffectIff(t: Tables, customerId: string, relationId: string, now: int)
    ensures var (t', result) := End(t, customerId, relationId, now);
            var known := relationId in t.relations && t.relations[relationId].customerId == customerId;
            && (result == NotFound <==> !known)
            && (result == BadRequest <==> known && t.relations[relationId].main)
            && (result == Done <==> known && !t.relations[relationId].main)
            && (result != Done ==> t' == t)
            && (result == Done ==>
                  && relationId in t'.relations
                  && t'.relations[relationId].status == Ended && t'.relations[relationId].endedAt == Some(now)
                  && t'.relations[relationId].customerId == customerId
                  && t'.relations[relationId].staffId == t.relations[relationId].staffId
                  && !t'.relations[relationId].main)
            && t'.relations.Keys == t.relations.Keys
            && (forall r :: r in t.relations && r != relationId ==> t'.relations[r] == t.relations[r])
            && t'.owners == t.owners
  {
  }

  /** add inserts one active relation that is not the main one, to the guide named; a blank name is refused. */
  lemma AddTakesEffectIff(t: Tables, customerId: string, relationId: string, guideId: string, guideName: string)
    requires relationId !in t.relations
    ensures var (t', result) := Add(t, customerId, relationId, guideId, guideName);
            && (result == BadRequest <==> Trim(guideName) == "")
            && (result == Done <==> Trim(guideName) != "")
            && (result != Done ==> t' == t)
            && (result == Done ==>
                  && t'.relations.Keys == t.relations.Keys + {relationId}
                  && (forall r :: r in t.relations ==> t'.relations[r] == t.relations[r])
                  && t'.relations[relationId].customerId == customerId
                  && t'.relations[relationId].staffId == (if guideId != "" then guideId else Trim(guideName))
                  && t'.relations[relationId].status == Active && t'.relations[relationId].endedAt == None
                  && !t'.relations[relationId].main)
            && t'.owners == t.owners
  {
  }

  /** A handover leaves the old main relation ended and the receiver in charge, and no other customer affected. */
  lemma HandoverPutsReceiverInCharge(t: Tables, customerId: string, relationId: string, guideId: string, now: int)
    requires Inv(t) && relationId !in t.relations
    ensures var (t', result) := Handover(t, customerId, relationId, guideId, now);
            && (result == Done <==> customerId != "" && customerId in t.owners)
            && (result == Done ==> MainGuideIs(t', customerId, guideId))
            && (forall r :: IsMain(t, r) && t.relations[r].customerId == customerId && result == Done ==>
                  !IsMain(t', r) && t'.relations[r].status == Ended && t'.relations[r].endedAt == Some(now))
            && (forall r :: r in t.relations && !IsMain(t, r) ==> t'.relations[r] == t.relations[r])
            && (result == Done ==>
                  t'.relations[relationId] == Relation(customerId, guideId, true, Active, None))
            && (forall c :: c != customerId && c in t.owners ==> c in t'.owners && t'.owners[c] == t.owners[c])
            && (forall r :: r in t.relations && (t.relations[r].customerId != customerId || result != Done) ==>
                  t'.relations[r] == t.relations[r])
            && (result != Done ==> t' == t)
  {
    var (t', result) := Handover(t, customerId, relationId, guideId, now);
    if result == Done {
      assert IsMain(t', relationId);
    }
  }

  // ---------------------------------------------------------------- the process-local relations

  /** A relation of the in-memory customer; the source writes "-" for not ended. */
  datatype MemoryRelation = MemoryRelation(guide: string, main: bool, ended: bool)

  /** The in-memory set-main of relation k, which looks at the main flag but not at the end date. */
  function MemorySetMain(relations: seq<MemoryRelation>, owner: string, k: nat)
    : (seq<MemoryRelation>, string, Result)
    requires k < |relations|
  {
    if relations[k].main then (relations, owner, BadRequest)
    else
      (seq(|relations|, i requires 0 <= i < |relations| => relations[i].(main := i == k)), relations[k].guide, Done)
  }

  /** The in-memory end of relation k. */
  function MemoryEnd(relations: seq<MemoryRelation>, k: nat): (seq<MemoryRelation>, Result)
    requires k < |relations|
  {
    if relations[k].main then (relations, BadRequest) else (relations[k := relations[k].(ended := true)], Done)
  }

  /** set-main moves the flag and the owner to a relation that is not the main one; end sets its end date. */
  lemma MemoryEffects(relations: seq<MemoryRelation>, owner: string, k: nat)
    requires k < |relations|
    ensures var (after, newOwner, result) := MemorySetMain(relations, owner, k);
            && |after| == |relations| && result == (if relations[k].main then BadRequest else Done)
            && newOwner == (if result == Done then relations[k].guide else owner)
            && forall i :: 0 <= i < |relations| ==>
                 && after[i].guide == relations[i].guide && after[i].ended == relations[i].ended
                 && after[i].main == if result == Done then i == k else relations[i].main
    ensures var (after, result) := MemoryEnd(relations, k);
            && |after| == |relations| && result == (if relations[k].main then BadRequest else Done)
            && forall i :: 0 <= i < |relations| ==>
                 && after[i].guide == relations[i].guide && after[i].main == relations[i].main
                 && after[i].ended == (relations[i].ended || (i == k && result == Done))
  {
  }

  predicate MainIsActive(relations: seq<MemoryRelation>) {
    forall i :: 0 <= i < |relations| && relations[i].main ==> !relations[i].ended
  }

  /** Ending never ends the main relation. */
  lemma MemoryEndIsSafe(relations: seq<MemoryRelation>, k: nat)
    requires k < |relations| && MainIsActive(relations)
    ensures MainIsActive(MemoryEnd(relations, k).0)
  {
  }

  /** In memory the main relation stays active exactly when set-main is not asked for an ended one. */
  lemma MemorySetMainSafeIff(relations: seq<MemoryRelation>, owner: string, k: nat)
    requires k < |relations| && MainIsActive(relations)
    ensures MainIsActive(MemorySetMain(relations, owner, k).0) <==> !relations[k].ended
  {
    if !relations[k].main {
      assert MemorySetMain(relations, owner, k).0[k].main;
    }
  }

  /** Which does happen to any relation that is not the main one: end it, then make it the main one. */
  lemma EndedRelationBecomesMain(relations: seq<MemoryRelation>, owner: string, k: nat)
    requires k < |relations| && !relations[k].main
    ensures var (ended, first) := MemoryEnd(relations, k);
            var (after, newOwner, second) := MemorySetMain(ended, owner, k);
            && first == Done && second == Done
            && after[k].main && after[k].ended && newOwner == relations[k].guide
            && !MainIsActive(after)
  {
    var after := MemorySetMain(MemoryEnd(relations, k).0, owner, k).0;
    assert after[k].main && after[k].ended;
  }

  // ---------------------------------------------------------------- the tables, statement by statement

  class RelationStore {
    var relations: map<string, Relation>
    var owners: map<string, string>

    function View(): Tables
      reads this
    {
      Tables(relations, owners)
    }

    constructor (owners: map<string, string>)
      ensures View() == Tables(map[], owners) && Inv(View())
    {
      relations, this.owners := map[], owners;
    }

    method AddRelation(customerId: string, relationId: string, guideId: string, guideName: string)
      returns (result: Result)
      requires Inv(View()) && Legal(View(), Action.AddRelation(customerId, relationId, guideId, guideName))
      modifies this`relations
      ensures Inv(View())
      ensures (View(), result) == Add(old(View()), customerId, relationId, guideId, guideName)
    {
      AddKeepsInvariant(View(), customerId, relationId, guideId, guideName);
      var name := Trim(guideName);
      if name == "" {
        return BadRequest;
      }
      var staff := guideId;
      if staff == "" {
        staff := name;
      }
      relations := relations[relationId := Relation(customerId, staff, false, Active, None)];
      return Done;
    }

    method SetMainGuide(customerId: string, relationId: string) returns (result: Result)
      requires Inv(View()) && customerId in owners
      modifies this
      ensures Inv(View())
      ensures (View(), result) == SetMain(old(View()), customerId, relationId)
    {
      SetMainKeepsInvariant(View(), customerId, relationId);
      if relationId !in relations || relations[relationId].customerId != customerId {
        return NotFound;
      }
      var row := relations[relationId];
      if row.status != Active {
        return BadRequest;
      }
      relations := map r | r in relations ::
                     if relations[r].customerId == customerId then relations[r].(main := false) else relations[r];
      relations := relations[relationId := relations[relationId].(main := true)];
      owners := owners[customerId := row.staffId];
      return Done;
    }

    method EndRelation(customerId: string, relationId: string, now: int) returns (result: Result)
      requires Inv(View()) && customerId in owners
      modifies this`relations
      ensures Inv(View())
      ensures (View(), result) == End(old(View()), customerId, relationId, now)
    {
      EndKeepsInvariant(View(), customerId, relationId, now);
      if relationId !in relations || relations[relationId].customerId != customerId {
        return NotFound;
      }
      if relations[relationId].main {
        return BadRequest;
      }
      relations := relations[relationId := relations[relationId].(status := Ended, endedAt := Some(now))];
      return Done;
    }

    /** Owner first, then the old main relation, then the new one. */
    method ApplyHandover(customerId: string, relationId: string, guideId: string, now: int) returns (result: Result)
      requires Inv(View()) && relationId !in relations
      modifies this
      ensures Inv(View())
      ensures (View(), result) == Handover(old(View()), customerId, relationId, guideId, now)
    {
      HandoverKeepsInvariant(View(), customerId, relationId, guideId, now);
      if customerId == "" || customerId !in owners {
        return CustomerNotStored;
      }
      owners := owners[customerId := guideId];
      relations := map r | r in relations ::
                     if HandsOver(relations[r], customerId)
                     then relations[r].(status := Ended, endedAt := Coalesce(relations[r].endedAt, now), main := false)
                     else relations[r];
      ghost var t := old(View());
      assert relations == map r | r in t.relations ::
                            if HandsOver(t.relations[r], customerId)
                            then t.relations[r].(status := Ended, main := false,
                                                 endedAt := Coalesce(t.relations[r].endedAt, now))
                            else t.relations[r];
      relations := relations[relationId := Relation(customerId, guideId, true, Active, None)];
      return Done;
    }
  }
}
