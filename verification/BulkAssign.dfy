/**
 Bulk assignment of one blueprint to many endpoints: every target is loaded,
 then checked, and only then the snapshot-bearing ones are re-pinned and written.
 */
module BulkAssign {
  import opened Wrappers
  import opened EndpointRows
  import opened Pinning

  type Rows = map<EndpointEui, EndpointRow>

  /** A row as loaded for the request, with the EUI it was loaded by. */
  datatype Target = Target(eui: EndpointEui, row: EndpointRow)

  /** How the store answers one request: which rows it finds, which reads fail, which writes succeed. */
  datatype Access = Access(visible: set<EndpointEui>, failing: set<EndpointEui>, writeOk: nat -> bool)

  // ----- what the request does, phase by phase -----

  predicate Found(rows: Rows, access: Access, eui: EndpointEui) {
    eui in access.visible && eui in rows && eui !in access.failing
  }

  /** The rows found, in request order; a missing one is skipped, a failed read refuses the request. */
  function Loaded(rows: Rows, access: Access, euis: seq<EndpointEui>): Result<seq<Target>, Fault> {
    if euis == [] then Success([])
    else if euis[0] in access.failing then Failure(GetEndpointFailed)
    else
      var rest :- Loaded(rows, access, euis[1..]);
      Success((if Found(rows, access, euis[0]) then [Target(euis[0], rows[euis[0]])] else []) + rest)
  }

  /** The first refusal in target order, reading each target's switch and blueprint directly. */
  function Refusal(targets: seq<Target>, w: World, id: IdText): Option<Fault> {
    if targets == [] then None
    else
      var row := targets[0].row;
      var on := ReadSwitch(w, row.owner);
      if on.Failure? then Some(on.fault)
      else if !on.value then Refusal(targets[1..], w, id)
      else
        var bp := LoadBlueprint(w, id);
        if bp.Failure? then Some(bp.fault)
        else if row.model != Some(bp.value.model) then Some(BulkAssignOtherModel)
        else Refusal(targets[1..], w, id)
  }

  /** The rows and answer after writing the targets, having already written `affected` of them. */
  function Written(rows: Rows, targets: seq<Target>, w: World, id: IdText, clock: nat -> int, access: Access, affected: nat)
    : (Rows, Result<nat, Fault>)
    decreases targets
  {
    if targets == [] then (rows, Success(affected))
    else if targets[0].row.snapshot.None? then Written(rows, targets[1..], w, id, clock, access, affected)
    else
      var pinned := AppliedBlueprint(targets[0].row, w, id, clock(affected));
      if pinned.Failure? then (rows, Failure(pinned.fault))
      else if !access.writeOk(affected) then (rows, Failure(StoreFailed))
      else Written(rows[targets[0].eui := pinned.value], targets[1..], w, id, clock, access, affected + 1)
  }

  function BulkAssigned(rows: Rows, euis: seq<EndpointEui>, w: World, id: IdText, clock: nat -> int, access: Access)
    : (Rows, Result<nat, Fault>)
  {
    var loaded := Loaded(rows, access, euis);
    if loaded.Failure? then (rows, Failure(loaded.fault))
    else if Refusal(loaded.value, w, id).Some? then (rows, Failure(Refusal(loaded.value, w, id).value))
    else Written(rows, loaded.value, w, id, clock, access, 0)
  }

  // ----- what that means for the stored rows -----

  /** The number of targets that bear a snapshot, repeated targets counted each time. */
  function SnapshotBearing(targets: seq<Target>): nat {
    if targets == [] then 0
    else (if targets[0].row.snapshot.Some? then 1 else 0) + SnapshotBearing(targets[1..])
  }

  /** The targets are what the store holds, exactly for the EUIs the request names and the store finds. */
  lemma {:induction false} LoadedIsWhatTheStoreHolds(rows: Rows, access: Access, euis: seq<EndpointEui>)
    ensures Loaded(rows, access, euis).Failure? <==> exists eui <- euis :: eui in access.failing
    ensures Loaded(rows, access, euis).Success? ==>
              forall t :: t in Loaded(rows, access, euis).value <==>
                          (t.eui in euis && Found(rows, access, t.eui) && t.row == rows[t.eui])
  {
    if euis != [] {
      LoadedIsWhatTheStoreHolds(rows, access, euis[1..]);
      assert forall eui :: eui in euis <==> eui == euis[0] || eui in euis[1..];
      if euis[0] !in access.failing && Loaded(rows, access, euis[1..]).Failure? {
        var eui :| eui in euis[1..] && eui in access.failing;
        assert eui in euis;
      }
    }
  }

  /** A request is refused exactly when a target's switch cannot be read, or is on and the blueprint is not of its model. */
  lemma {:induction false} RefusedExactlyWhen(targets: seq<Target>, w: World, id: IdText)
    ensures Refusal(targets, w, id).Some? <==> exists t <- targets ::
                || w.snapshotOnly(t.row.owner).Failure?
                || (w.snapshotOnly(t.row.owner).value
                    && (LoadBlueprint(w, id).Failure? || t.row.model != Some(LoadBlueprint(w, id).value.model)))
  {
    if targets != [] {
      RefusedExactlyWhen(targets[1..], w, id);
      assert targets == [targets[0]] + targets[1..];
    }
  }

  /** Only snapshot-bearing targets change and each changed row is pinned; a complete run has pinned them all. */
  lemma {:induction false} WrittenPins(rows: Rows, targets: seq<Target>, w: World, id: IdText, clock: nat -> int, access: Access, affected: nat)
    requires forall t <- targets :: t.eui in rows
    requires forall s, t | s in targets && t in targets && s.eui == t.eui :: s.row == t.row
    ensures var (after, result) := Written(rows, targets, w, id, clock, access, affected);
            && after.Keys == rows.Keys
            && (forall eui <- rows :: after[eui] == rows[eui] || exists t <- targets ::
                  && t.eui == eui && t.row.snapshot.Some?
                  && LoadBlueprint(w, id).Success?
                  && PinnedTo(after[eui], LoadBlueprint(w, id).value, t.row.owner))
            && (result.Success? ==>
                  && result.value == affected + SnapshotBearing(targets)
                  && (forall t <- targets | t.row.snapshot.Some? ::
                        LoadBlueprint(w, id).Success? && PinnedTo(after[t.eui], LoadBlueprint(w, id).value, t.row.owner)))
    decreases targets
  {
    if targets != [] {
      var head, rest := targets[0], targets[1..];
      assert targets == [head] + rest;
      if head.row.snapshot.None? {
        WrittenPins(rows, rest, w, id, clock, access, affected);
      } else {
        var pinned := AppliedBlueprint(head.row, w, id, clock(affected));
        if pinned.Success? && access.writeOk(affected) {
          WrittenPins(rows[head.eui := pinned.value], rest, w, id, clock, access, affected + 1);
        }
      }
    }
  }

  /**
   A refusal while loading or checking writes nothing. A success pins every
   snapshot-bearing row the request names and finds, leaves every other row as it
   was, and counts the snapshot-bearing entries. A write that fails half-way leaves
   some of those rows pinned and the others as they were.
   */
  lemma BulkAssignOutcome(rows: Rows, euis: seq<EndpointEui>, w: World, id: IdText, clock: nat -> int, access: Access)
    ensures var (after, result) := BulkAssigned(rows, euis, w, id, clock, access);
            var loaded := Loaded(rows, access, euis);
            var bp := LoadBlueprint(w, id);
            && after.Keys == rows.Keys
            && (loaded.Failure? || Refusal(loaded.value, w, id).Some? ==> after == rows && result.Failure?)
            && (forall eui <- rows :: after[eui] == rows[eui] ||
                  (eui in euis && rows[eui].snapshot.Some? && bp.Success? && PinnedTo(after[eui], bp.value, rows[eui].owner)))
            && (result.Success? ==>
                  && result.value == SnapshotBearing(loaded.value)
                  && (forall eui <- euis | Found(rows, access, eui) && rows[eui].snapshot.Some? ::
                        bp.Success? && PinnedTo(after[eui], bp.value, rows[eui].owner)))
  {
    LoadedIsWhatTheStoreHolds(rows, access, euis);
    var loaded := Loaded(rows, access, euis);
    if loaded.Success? && Refusal(loaded.value, w, id).None? {
      WrittenPins(rows, loaded.value, w, id, clock, access, 0);
      forall eui <- euis | Found(rows, access, eui)
        ensures Target(eui, rows[eui]) in loaded.value
      {
      }
    }
  }

  /** When a row was re-pinned while its owner's switch was on, it already had the blueprint's model. */
  lemma {:induction false} CheckedTargetsHaveTheModel(targets: seq<Target>, w: World, id: IdText, t: Target)
    requires Refusal(targets, w, id).None?
    requires t in targets && w.snapshotOnly(t.row.owner) == Success(true)
    ensures LoadBlueprint(w, id).Success? && t.row.model == Some(LoadBlueprint(w, id).value.model)
  {
    if t != targets[0] {
      CheckedTargetsHaveTheModel(targets[1..], w, id, t);
    }
  }

  // ----- the request as it runs -----

  class EndpointStore {
    var rows: Rows

    constructor (rows: Rows)
      ensures this.rows == rows
    {
      this.rows := rows;
    }

    /** The loaded endpoints are separate objects that hold the targets' rows. */
    static ghost predicate Holds(endpoints: seq<EndPoint>, targets: seq<Target>)
      reads endpoints
    {
      && |endpoints| == |targets|
      && (forall i | 0 <= i < |endpoints| :: Target(endpoints[i].eui, endpoints[i].Row()) == targets[i])
      && (forall i, j | 0 <= i < j < |endpoints| :: endpoints[i] != endpoints[j])
    }

    static ghost function After(targets: seq<Target>, rest: Result<seq<Target>, Fault>): (all: Result<seq<Target>, Fault>)
      ensures targets == [] ==> all == rest
    {
      if rest.Failure? then rest
      else
        assert targets == [] ==> targets + rest.value == rest.value;
        Success(targets + rest.value)
    }

    method LoadTargets(euis: seq<EndpointEui>, access: Access) returns (outcome: Outcome<Fault>, endpoints: seq<EndPoint>)
      ensures fresh(endpoints)
      ensures outcome.Fail? ==> Failure(outcome.fault) == Loaded(rows, access, euis)
      ensures outcome.Pass? ==> Loaded(rows, access, euis).Success? && Holds(endpoints, Loaded(rows, access, euis).value)
    {
      endpoints := [];
      ghost var targets: seq<Target> := [];
      assert euis[0..] == euis;
      for n := 0 to |euis|
        invariant fresh(endpoints) && Holds(endpoints, targets)
        invariant Loaded(rows, access, euis) == After(targets, Loaded(rows, access, euis[n..]))
      {
        var eui := euis[n];
        assert euis[n..] == [eui] + euis[n + 1..];
        if eui in access.failing {
          return Fail(GetEndpointFailed), [];
        }
        ghost var later := Loaded(rows, access, euis[n + 1..]);
        if Found(rows, access, eui) {
          assert later.Success? ==> targets + ([Target(eui, rows[eui])] + later.value) == targets + [Target(eui, rows[eui])] + later.value;
          var endpoint := new EndPoint(eui, rows[eui]);
          endpoints := endpoints + [endpoint];
          targets := targets + [Target(eui, rows[eui])];
        } else {
          assert later.Success? ==> [] + later.value == later.value;
        }
      }
      return Pass, endpoints;
    }

    /** Reads each owner's switch once and the blueprint at most once, yet refuses exactly what direct reads refuse. */
    static method RefuseOtherModelTargets(endpoints: seq<EndPoint>, ghost targets: seq<Target>, w: World, id: IdText)
      returns (outcome: Outcome<Fault>)
      requires Holds(endpoints, targets)
      ensures outcome == (if Refusal(targets, w, id).Some? then Fail(Refusal(targets, w, id).value) else Pass)
    {
      var owners: map<Tenant, bool> := map[];
      var bp: Option<Blueprint> := None;
      for n := 0 to |endpoints|
        invariant forall owner <- owners :: w.snapshotOnly(owner) == Success(owners[owner])
        invariant bp.Some? ==> LoadBlueprint(w, id) == Success(bp.value)
        invariant Refusal(targets, w, id) == Refusal(targets[n..], w, id)
      {
        var endpoint := endpoints[n];
        assert targets[n].row == endpoint.Row();
        if endpoint.owner !in owners {
          var on := ReadSwitch(w, endpoint.owner);
          if on.Failure? {
            return Fail(on.fault);
          }
          owners := owners[endpoint.owner := on.value];
        }
        if owners[endpoint.owner] {
          if bp.None? {
            var loaded := LoadBlueprint(w, id);
            if loaded.Failure? {
              return Fail(loaded.fault);
            }
            bp := Some(loaded.value);
          }
          if endpoint.model.None? || endpoint.model.value != bp.value.model {
            return Fail(BulkAssignOtherModel);
          }
        }
      }
      return Pass;
    }

    method RematerializeSnapshots(euis: seq<EndpointEui>, w: World, id: IdText, clock: nat -> int, access: Access)
      returns (result: Result<nat, Fault>)
      modifies this
      ensures (rows, result) == BulkAssigned(old(rows), euis, w, id, clock, access)
    {
      var outcome, endpoints := LoadTargets(euis, access);
      if outcome.Fail? {
        return Failure(outcome.fault);
      }
      ghost var targets := Loaded(rows, access, euis).value;
      outcome := RefuseOtherModelTargets(endpoints, targets, w, id);
      if outcome.Fail? {
        return Failure(outcome.fault);
      }
      var affected: nat := 0;
      for n := 0 to |endpoints|
        invariant |endpoints| == |targets|
        invariant forall i | n <= i < |endpoints| :: Target(endpoints[i].eui, endpoints[i].Row()) == targets[i]
        invariant Written(old(rows), targets, w, id, clock, access, 0) == Written(rows, targets[n..], w, id, clock, access, affected)
      {
        var endpoint := endpoints[n];
        assert targets[n] == Target(endpoint.eui, endpoint.Row());
        if endpoint.snapshot.Some? {
          outcome := endpoint.ApplyBlueprintSnapshot(w, id, clock(affected));
          if outcome.Fail? {
            return Failure(outcome.fault);
          }
          if !access.writeOk(affected) {
            return Failure(StoreFailed);
          }
          rows := rows[endpoint.eui := endpoint.Row()];
          affected := affected + 1;
        }
      }
      return Success(affected);
    }
  }
}
