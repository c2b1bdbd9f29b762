/**
  Contact-way rotation: a store's QR code points at one guide at a time and moves
  to the next eligible guide after every customer. Bindings, guide pools and the
  callback log are tables; a WeCom update is an oracle that succeeds or fails.
 */
module ContactWayRotation {
  import opened Basics
  import StateCodec

  /** A row of a store's pool; rows are kept in the query's order, by sort order and id. */
  datatype Guide = Guide(userId: string, active: bool, dailyLimit: int, assignedToday: nat)

  datatype Status = Active | Paused

  datatype Binding = Binding(storeId: string, storeCode: string, managerUserId: string, currentGuide: string,
                             nextIndex: int, status: Status, lastError: string)

  datatype Assignment = Assignment(storeId: string, bindingId: string, managerUserId: string, guideUserId: string,
                                   externalUserId: string, state: string, changeType: string)

  datatype Retry = Retry(bindingId: string, guideUserId: string, state: string)

  datatype World = World(bindings: map<string, Binding>, pools: map<string, seq<Guide>>,
                         assignments: seq<Assignment>, retries: seq<Retry>, seen: set<string>, processed: set<string>)

  // ---------------------------------------------------------------- switching

  /** Go's % truncates toward zero. */
  function GoRemainder(a: int, b: int): int
    requires b > 0
  {
    if a >= 0 then a % b else -((-a) % b)
  }

  function PositiveModulo(value: int, mod: int): int {
    if mod <= 0 then 0
    else
      var next := GoRemainder(value, mod);
      if next < 0 then next + mod else next
  }

  /** For a non-empty pool this is the mathematical residue, also of negative values. */
  lemma PositiveModuloIsResidue(value: int, mod: int)
    requires mod > 0
    ensures PositiveModulo(value, mod) == value % mod
  {
    if value < 0 {
      var q, r := (-value) / mod, (-value) % mod;
      assert -value == q * mod + r;
      if r == 0 {
        assert value == (-q) * mod + 0;
        Residue(value, mod, -q, 0);
      } else {
        assert value == (-q - 1) * mod + (mod - r);
        Residue(value, mod, -q - 1, mod - r);
      }
    }
  }

  lemma MultipleIsLarge(k: int, mod: int)
    requires mod > 0 && k >= 1
    ensures k * mod >= mod
  {
  }

  lemma Residue(value: int, mod: int, q: int, r: int)
    requires mod > 0 && value == q * mod + r && 0 <= r < mod
    ensures value % mod == r
  {
    var k := value / mod - q;
    assert k * mod == (value / mod) * mod - q * mod;
    assert k * mod == r - value % mod;
    if k >= 1 {
      MultipleIsLarge(k, mod);
    } else if k <= -1 {
      MultipleIsLarge(-k, mod);
    }
  }

  predicate IsEligible(g: Guide) {
    g.active && (g.dailyLimit <= 0 || g.assignedToday < g.dailyLimit)
  }

  function Eligible(pool: seq<Guide>): seq<Guide> {
    if pool == [] then []
    else (if IsEligible(pool[0]) then [pool[0]] else []) + Eligible(pool[1..])
  }

  /** How many of the first i rows of a pool are active and below their limit, if they have one. */
  function EligibleBefore(pool: seq<Guide>, i: nat): nat
    requires i <= |pool|
  {
    if i == 0 then 0
    else
      var g := pool[0];
      (if g.active && (g.dailyLimit > 0 ==> g.assignedToday < g.dailyLimit) then 1 else 0)
      + EligibleBefore(pool[1..], i - 1)
  }

  /** The eligible list holds all such rows and no others, in the pool's order. */
  lemma {:induction false} EligibleKeepsOrder(pool: seq<Guide>)
    ensures |Eligible(pool)| == EligibleBefore(pool, |pool|)
    ensures forall i :: 0 <= i < |pool| && pool[i].active
                        && (pool[i].dailyLimit > 0 ==> pool[i].assignedToday < pool[i].dailyLimit) ==>
              EligibleBefore(pool, i) < |Eligible(pool)| && Eligible(pool)[EligibleBefore(pool, i)] == pool[i]
  {
    if pool != [] {
      EligibleKeepsOrder(pool[1..]);
      forall i | 0 <= i < |pool| && pool[i].active
                 && (pool[i].dailyLimit > 0 ==> pool[i].assignedToday < pool[i].dailyLimit)
        ensures EligibleBefore(pool, i) < |Eligible(pool)| && Eligible(pool)[EligibleBefore(pool, i)] == pool[i]
      {
        if i > 0 {
          assert pool[i] == pool[1..][i - 1];
        }
      }
    }
  }

  /** The table's unique key: a guide has one row per store. */
  predicate UniqueUsers(pool: seq<Guide>) {
    forall i, j :: 0 <= i < j < |pool| ==> pool[i].userId != pool[j].userId
  }

  function Pool(w: World, storeId: string): seq<Guide> {
    if storeId in w.pools then w.pools[storeId] else []
  }

  const NO_ACTIVE_GUIDE := "no active guide available for contact-way binding"

  /**
    What goes wrong around a switch: saveFails covers its last writes and its commit,
    rereadFails the read of the moved binding that its answer needs.
   */
  datatype Trouble = Trouble(bindingUnreadable: bool, poolUnreadable: bool, wecomError: Option<string>,
                             saveFails: bool, rereadFails: bool)

  const NO_TROUBLE := Trouble(false, false, None, false, false)

  /**
    SaveFailed: WeCom has accepted a guide that the binding does not get to know.
    Unconfirmed: the binding has moved, but the caller gets an error all the same.
   */
  datatype SwitchOutcome =
    | NotFound | Refused | NoGuide | WeComFailed | DatabaseFailed
    | SaveFailed(shownGuide: string)
    | Unconfirmed(guideUserId: string, state: string)
    | Switched(guideUserId: string, state: string)

  /** The switch is committed, whatever its caller is told. */
  predicate Committed(outcome: SwitchOutcome) {
    outcome.Switched? || outcome.Unconfirmed?
  }

  /** Nothing keeps a switch from being committed. */
  predicate Smooth(trouble: Trouble) {
    !trouble.bindingUnreadable && !trouble.poolUnreadable && trouble.wecomError.None? && !trouble.saveFails
  }

  function StateFor(id: string, b: Binding, guide: string): string {
    StateCodec.Build(b.storeCode, b.managerUserId, guide, id)
  }

  function WithBinding(w: World, id: string, b: Binding): World {
    w.(bindings := w.bindings[id := b])
  }

  /** One switch; a forced index of 0 activates the binding, -1 takes the next turn. */
  function Switch(w: World, id: string, forcedIndex: int, trouble: Trouble): (World, SwitchOutcome) {
    if trouble.bindingUnreadable then (w, DatabaseFailed)
    else if id !in w.bindings then (w, NotFound)
    else
      var b := w.bindings[id];
      var guides := Eligible(Pool(w, b.storeId));
      if b.status != Active && forcedIndex < 0 then (w, Refused)
      else if trouble.poolUnreadable then (w, DatabaseFailed)
      else if guides == [] then
        if trouble.saveFails then (w, DatabaseFailed)
        else (WithBinding(w, id, b.(lastError := NO_ACTIVE_GUIDE)), NoGuide)
      else
        var index := if forcedIndex >= 0 then forcedIndex else b.nextIndex;
        assert 0 <= PositiveModulo(index, |guides|) < |guides| by {
          PositiveModuloIsResidue(index, |guides|);
        }
        var guide := guides[PositiveModulo(index, |guides|)].userId;
        var state := StateFor(id, b, guide);
        if trouble.wecomError.Some? then
          (if trouble.saveFails then w
           else WithBinding(w, id, b.(lastError := trouble.wecomError.value))
                .(retries := w.retries + [Retry(id, guide, state)]),
           WeComFailed)
        else if trouble.saveFails then (w, SaveFailed(guide))
        else
          (WithBinding(w, id, b.(currentGuide := guide, nextIndex := index + 1,
                                 status := if forcedIndex >= 0 then Active else b.status, lastError := "")),
           if trouble.rereadFails then Unconfirmed(guide, state) else Switched(guide, state))
  }

  /** No binding's guide, index or status has moved. */
  ghost predicate SameTurns(before: map<string, Binding>, after: map<string, Binding>) {
    && before.Keys == after.Keys
    && forall id :: id in before ==>
         && after[id].currentGuide == before[id].currentGuide
         && after[id].nextIndex == before[id].nextIndex
         && after[id].status == before[id].status
  }

  /** Pause or enable; false when there is no such binding. */
  function SetStatus(w: World, id: string, status: Status): (World, bool) {
    if id in w.bindings then (WithBinding(w, id, w.bindings[id].(status := status, lastError := "")), true)
    else (w, false)
  }

  /** A pause pauses, an enable enables, and nothing else about the binding or any other changes but the error. */
  lemma SetStatusEffect(w: World, id: string, status: Status)
    ensures var (v, found) := SetStatus(w, id, status);
            && (found <==> id in w.bindings)
            && (!found ==> v == w)
            && v.(bindings := w.bindings) == w && v.bindings.Keys == w.bindings.Keys
            && (forall other :: other in w.bindings && other != id ==> v.bindings[other] == w.bindings[other])
            && (found ==>
                  && v.bindings[id].status == status && v.bindings[id].lastError == ""
                  && v.bindings[id].(status := w.bindings[id].status, lastError := w.bindings[id].lastError)
                     == w.bindings[id])
  {
  }

  /** A state string names the binding's store code and manager, the guide and the binding id, in this order. */
  lemma StateNames(id: string, b: Binding, guide: string)
    ensures StateCodec.Split(StateFor(id, b, guide)) ==
            ["store", StateCodec.Sanitize(b.storeCode), "manager", StateCodec.Sanitize(b.managerUserId),
             "guide", StateCodec.Sanitize(guide), "bind", StateCodec.Sanitize(id), "v1"]
  {
    StateCodec.SplitOfBuild(b.storeCode, b.managerUserId, guide, id);
  }

  /** What a switch leaves alone whatever comes of it. */
  lemma SwitchTouchesOneBinding(w: World, id: string, forcedIndex: int, trouble: Trouble)
    ensures var v := Switch(w, id, forcedIndex, trouble).0;
            && v.(bindings := w.bindings, retries := w.retries) == w && v.bindings.Keys == w.bindings.Keys
            && (forall other :: other in w.bindings && other != id ==> v.bindings[other] == w.bindings[other])
            && (id in w.bindings ==>
                  var b, b' := w.bindings[id], v.bindings[id];
                  b'.(currentGuide := b.currentGuide, nextIndex := b.nextIndex, status := b.status,
                      lastError := b.lastError) == b)
  {
  }

  /** What it writes, by its outcome. */
  lemma SwitchEffect(w: World, id: string, forcedIndex: int, trouble: Trouble)
    ensures var (v, outcome) := Switch(w, id, forcedIndex, trouble);
            && (Committed(outcome) || outcome.WeComFailed? || outcome.NoGuide? ==> id in w.bindings && id in v.bindings)
            && (Committed(outcome) ==>
                  var b, b' := w.bindings[id], v.bindings[id];
                  && b'.currentGuide == outcome.guideUserId
                  && b'.nextIndex == (if forcedIndex >= 0 then forcedIndex else b.nextIndex) + 1
                  && b'.status == (if forcedIndex >= 0 then Active else b.status)
                  && b'.lastError == "" && v.retries == w.retries
                  && outcome.state == StateFor(id, b, b'.currentGuide))
            && (outcome.NoGuide? ==>
                  && v.retries == w.retries
                  && v.bindings[id] == w.bindings[id].(
                       lastError := "no active guide available for contact-way binding"))
            && (outcome.WeComFailed? ==>
                  && trouble.wecomError.Some?
                  && (trouble.saveFails ==> v == w)
                  && (!trouble.saveFails ==>
                        && v.bindings[id] == w.bindings[id].(lastError := trouble.wecomError.value)
                        && |v.retries| == |w.retries| + 1 && v.retries[..|w.retries|] == w.retries))
            && (!Committed(outcome) && !outcome.NoGuide? && !outcome.WeComFailed? ==> v == w)
  {
  }

  /** A refused update is queued for the guide whose turn it was, with the state that guide would have had. */
  lemma RetryNamesNextGuide(w: World, id: string, forcedIndex: int, trouble: Trouble)
    requires Switch(w, id, forcedIndex, trouble).1.WeComFailed? && !trouble.saveFails
    ensures var v, accepted := Switch(w, id, forcedIndex, trouble).0,
                               Switch(w, id, forcedIndex, trouble.(wecomError := None, rereadFails := false)).1;
            && accepted.Switched? && |v.retries| > 0
            && var retry := v.retries[|v.retries| - 1];
               retry.bindingId == id && retry.guideUserId == accepted.guideUserId && retry.state == accepted.state
  {
  }

  /** Which outcome a switch has. */
  lemma SwitchOutcomes(w: World, id: string, forcedIndex: int, trouble: Trouble)
    ensures var outcome := Switch(w, id, forcedIndex, trouble).1;
            var readable := !trouble.bindingUnreadable && id in w.bindings;
            var allowed := readable && (w.bindings[id].status == Active || forcedIndex >= 0);
            var anyone := allowed && !trouble.poolUnreadable && Eligible(Pool(w, w.bindings[id].storeId)) != [];
            && (outcome.NotFound? <==> !trouble.bindingUnreadable && id !in w.bindings)
            && (outcome.Refused? <==> readable && !allowed)
            && (outcome.NoGuide? <==> allowed && !trouble.poolUnreadable && !anyone && !trouble.saveFails)
            && (outcome.WeComFailed? <==> anyone && trouble.wecomError.Some?)
            && (outcome.SaveFailed? <==> anyone && trouble.wecomError.None? && trouble.saveFails)
            && (outcome.Unconfirmed? <==>
                anyone && trouble.wecomError.None? && !trouble.saveFails && trouble.rereadFails)
            && (outcome.Switched? <==>
                anyone && trouble.wecomError.None? && !trouble.saveFails && !trouble.rereadFails)
  {
  }

  // ---------------------------------------------------------------- callbacks

  datatype Event = Event(event: string, changeType: string, userId: string, externalUserId: string, state: string,
                         welcomeCode: string, createTime: int)

  /** The event key: some hash of the cleaned event. */
  type KeyOf = Event -> string

  /** The store access that fails while one delivery is handled; its switch has troubles of its own. */
  datatype Fault = NoFault | InsertFails | LookupFails | LegacyEventFails | AssignmentFails | MarkFails

  datatype Delivery = Delivery(event: Event, fault: Fault, trouble: Trouble)

  function Clean(e: Event): Event {
    e.(event := Trim(e.event), changeType := Trim(e.changeType),
       userId := Trim(e.userId), externalUserId := Trim(e.externalUserId),
       state := Trim(e.state))
  }

  predicate IsCustomerAdd(e: Event) {
    e.event == "change_external_contact" && e.changeType in {"add_external_contact", "add_half_external_contact"}
  }

  function Counted(pool: seq<Guide>, userId: string): seq<Guide> {
    seq(|pool|, i requires 0 <= i < |pool| =>
      if pool[i].userId == userId then pool[i].(assignedToday := pool[i].assignedToday + 1) else pool[i])
  }

  function AssignmentOf(id: string, b: Binding, e: Event): Assignment {
    Assignment(b.storeId, id, b.managerUserId, e.userId, e.externalUserId, e.state, e.changeType)
  }

  /** One transaction: the assignment row, and the guide's counter in the store's pool. */
  function SaveAssignment(w: World, id: string, b: Binding, e: Event): World {
    w.(assignments := w.assignments + [AssignmentOf(id, b, e)],
       pools := if b.storeId in w.pools then w.pools[b.storeId := Counted(w.pools[b.storeId], e.userId)] else w.pools)
  }

  /** The delivery's event, once its key is recorded, leads to an assignment. */
  predicate Effective(w: World, d: Delivery) {
    var e := Clean(d.event);
    && IsCustomerAdd(e)
    && StateCodec.Parse(e.state) != "" && StateCodec.Parse(e.state) in w.bindings
    && d.fault !in {LookupFails, LegacyEventFails, AssignmentFails}
  }

  /** The delivery is the first of its key that gets as far as recording it. */
  predicate Records(w: World, keyOf: KeyOf, d: Delivery) {
    d.fault != InsertFails && keyOf(Clean(d.event)) !in w.seen
  }

  /** The tables between the assignment's commit and the switch. */
  function Saved(w: World, keyOf: KeyOf, d: Delivery): World
    requires Effective(w, d)
  {
    var e := Clean(d.event);
    var id := StateCodec.Parse(e.state);
    SaveAssignment(w.(seen := w.seen + {keyOf(e)}), id, w.bindings[id], e)
  }

  function Handle(w: World, keyOf: KeyOf, d: Delivery): World {
    var key := keyOf(Clean(d.event));
    if !Records(w, keyOf, d) then w
    else if !Effective(w, d) then w.(seen := w.seen + {key})
    else
      var switched := Switch(Saved(w, keyOf, d), StateCodec.Parse(Clean(d.event).state), -1, d.trouble).0;
      if d.fault == MarkFails then switched else switched.(processed := switched.processed + {key})
  }

  function Run(w: World, keyOf: KeyOf, ds: seq<Delivery>): World
    decreases |ds|
  {
    if ds == [] then w else Run(Handle(w, keyOf, ds[0]), keyOf, ds[1..])
  }
}
