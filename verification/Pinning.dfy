/**
 How a create or a masked update of one endpoint rewrites the triple of device
 model, type EUI and blueprint snapshot. The functions give the row a step
 leaves or the fault it refuses with; the methods of EndPoint perform the same
 steps by assigning its fields.
 */
module Pinning {
  import opened Wrappers
  import opened EndpointRows

  type Change = Result<EndpointRow, Fault>

  // ----- what each step leaves -----

  /** The snapshot a blueprint_input pins; no specification pins none. */
  function InputSnapshot(req: Request, now: int): Result<Option<Snapshot>, Fault> {
    match req.input
    case NoInput => Success(None)
    case Input(spec, valid, typeEui, encodable) =>
      if req.blueprintId != NoId || req.deviceModelId != NoId then Failure(InputConflict)
      else if !valid then Failure(InputSpecInvalid)
      else if typeEui.None? then Failure(InputTypeEuiInvalid)
      else if !encodable then Failure(SnapshotBuildFailed)
      else Success(Some(Snapshot(NoId, typeEui.value, spec, now)))
  }

  function PinnedInput(row: EndpointRow, snapshot: Snapshot): EndpointRow {
    row.(model := None, snapshot := Some(snapshot), typeEui := SnapshotTypeEui(Some(snapshot)))
  }

  function LoadBlueprint(w: World, id: IdText): Result<Blueprint, Fault> {
    if !w.configured then Failure(ServiceNotConfigured)
    else if ParseId(id).None? then Failure(InvalidBlueprintId)
    else if ParseId(id).value !in w.blueprints then Failure(BlueprintNotFound)
    else Success(w.blueprints[ParseId(id).value])
  }

  function BlueprintSnapshot(bp: Blueprint, now: int): Snapshot {
    Snapshot(CanonicalId(bp.id), bp.typeEui, bp.spec, now)
  }

  function Pinned(row: EndpointRow, bp: Blueprint, now: int): Change {
    if !bp.encodable then Failure(SnapshotBuildFailed)
    else
      var snapshot := Some(BlueprintSnapshot(bp, now));
      Success(row.(model := Some(bp.model), typeEui := SnapshotTypeEui(snapshot), snapshot := snapshot))
  }

  function AppliedBlueprint(row: EndpointRow, w: World, id: IdText, now: int): Change {
    var bp :- LoadBlueprint(w, id);
    Pinned(row, bp, now)
  }

  function PinnedSelected(row: EndpointRow, req: Request, w: World, snapshotOnly: bool, now: int): Change {
    var bp :- LoadBlueprint(w, req.blueprintId);
    if snapshotOnly && (ParseId(req.deviceModelId) != Some(bp.model) || row.model != Some(bp.model))
    then Failure(BlueprintNotOfRequestedModel)
    else Pinned(row, bp, now)
  }

  function PinnedDefault(row: EndpointRow, tenant: Tenant, w: World, snapshotOnly: bool, now: int): Change
    requires row.model.Some?
  {
    if !w.configured then Failure(ServiceNotConfigured)
    else match w.defaultOf(tenant, row.model.value)
      case Failure(_) => Failure(ResolveTypeEuiFailed)
      case Success(None) => if snapshotOnly then Failure(SnapshotRequired) else Success(row)
      case Success(Some(def)) => AppliedBlueprint(row, w, CanonicalId(def.id), now)
  }

  function ReadSwitch(w: World, owner: Tenant): Result<bool, Fault> {
    if w.snapshotOnly(owner).Success? then Success(w.snapshotOnly(owner).value) else Failure(SnapshotOnlyReadFailed)
  }

  function PinnedOnCreate(row: EndpointRow, req: Request, tenant: Tenant, w: World, now: int): Change {
    var on :- ReadSwitch(w, tenant);
    if req.blueprintId != NoId then PinnedSelected(row, req, w, on, now)
    else if !on then Success(row)
    else if row.model.None? then Failure(SnapshotRequired)
    else PinnedDefault(row, tenant, w, on, now)
  }

  predicate SourceBelongsToModel(w: World, source: IdText, model: Uuid) {
    && w.configured
    && ParseId(source).Some?
    && ParseId(source).value in w.sources
    && w.sources[ParseId(source).value].model == model
  }

  const BLUEPRINT_ID := "blueprint_id"

  function Retriggered(row: EndpointRow, req: Request, mask: set<string>, tenant: Tenant, w: World,
                       priorModel: Option<Uuid>, priorSource: IdText, now: int): Change
  {
    var selected := BLUEPRINT_ID in mask && req.blueprintId != NoId && req.blueprintId != priorSource;
    if !selected && priorModel == row.model then Success(row)
    else
      var on :- ReadSwitch(w, row.owner);
      if selected then PinnedSelected(row, req, w, on, now)
      else if row.model.None? then if on then Failure(SnapshotRequired) else Success(row)
      else if SourceBelongsToModel(w, priorSource, row.model.value) then Success(row)
      else PinnedDefault(row, tenant, w, on, now)
  }

  const TYPE_EUI := "type_eui"
  const DEVICE_MODEL_ID := "device_model_id"
  const BLUEPRINT_INPUT := "blueprint_input"
  const SUPPORTED_PATHS := {
    "name", "description", "ep_class", "status", "nwk_sn_key", "app_key", "tags", "dual_chan", "repetition",
    "wide_carr_off", "long_blk_dist", "sh_addr", "attach_cnt", "pre_attach", "last_packet_cnt", "carrier_offset",
    DEVICE_MODEL_ID, TYPE_EUI, BLUEPRINT_ID, BLUEPRINT_INPUT
  }

  function Masked(row: EndpointRow, req: Request, mask: set<string>): Change {
    if req.otherFieldsFault.Some? then Failure(req.otherFieldsFault.value)
    else if TYPE_EUI !in mask then Success(row)
    else if req.typeEui == [] then Success(row.(typeEui := None))
    else if |req.typeEui| != TYPE_EUI_LENGTH then Failure(InvalidTypeEui)
    else Success(row.(typeEui := Some(req.typeEui)))
  }

  function RequestedModel(tenant: Tenant, id: IdText, w: World): Result<Uuid, Fault> {
    if !w.configured then Failure(ServiceNotConfigured)
    else if ParseId(id).None? then Failure(InvalidModelId)
    else if !w.modelKnown(tenant, ParseId(id).value) then Failure(ModelNotFound)
    else Success(ParseId(id).value)
  }

  function WithRequestedModel(row: EndpointRow, req: Request, mask: set<string>, tenant: Tenant, w: World): Change {
    if DEVICE_MODEL_ID !in mask then Success(row)
    else if req.deviceModelId == NoId then Success(row.(model := None))
    else
      var model :- RequestedModel(tenant, req.deviceModelId, w);
      Success(row.(model := Some(model)))
  }

  function WithModelTypeEui(row: EndpointRow, tenant: Tenant, w: World): Change {
    if row.model.None? then Success(row)
    else if !w.configured then Failure(ServiceNotConfigured)
    else match w.effectiveTypeEui(tenant, row.model.value)
      case Failure(_) => Failure(ResolveTypeEuiFailed)
      case Success(eui) => Success(row.(typeEui := eui))
  }

  /**
   The row a masked update leaves. In either mode it keeps the owner, removes no
   snapshot, and has the type EUI of its snapshot whatever the mask named or the
   model default supplied.
   */
  function Updated(row: EndpointRow, req: Request, mask: set<string>, tenant: Tenant, w: World, now: int): (change: Change)
    ensures change.Success? ==>
              && change.value.owner == row.owner
              && (row.snapshot.Some? ==> change.value.snapshot.Some?)
              && TypeEuiFollowsSnapshot(change.value)
  {
    var input :- if BLUEPRINT_INPUT in mask then InputSnapshot(req, now) else Success(None);
    var masked :- Masked(row, req, mask);
    if input.Some? then Success(PinnedInput(masked, input.value))
    else
      var modelled :- WithRequestedModel(masked, req, mask, tenant, w);
      var typed :- WithModelTypeEui(modelled, tenant, w);
      var pinned :- Retriggered(typed, req, mask, tenant, w, row.model, SnapshotSource(row.snapshot), now);
      Success(if SnapshotTypeEui(pinned.snapshot).Some?
              then pinned.(typeEui := SnapshotTypeEui(pinned.snapshot))
              else pinned)
  }

  /** The row a create stores: its tenant's, with its snapshot's type EUI, and snapshot-bearing unless the switch is off. */
  function Created(req: Request, tenant: Tenant, w: World, now: int): (change: Change)
    ensures change.Success? ==>
              && change.value.owner == tenant
              && (change.value.snapshot.Some? || w.snapshotOnly(tenant) == Success(false))
              && TypeEuiFollowsSnapshot(change.value)
  {
    if req.otherFieldsFault.Some? then Failure(req.otherFieldsFault.value)
    else
      var input :- InputSnapshot(req, now);
      if req.typeEui != [] && |req.typeEui| != TYPE_EUI_LENGTH then Failure(InvalidTypeEui)
      else
        var row := EndpointRow(tenant, None, if req.typeEui == [] then None else Some(req.typeEui), None);
        var typed :-
          if req.deviceModelId == NoId then Success(row)
          else
            var model :- RequestedModel(tenant, req.deviceModelId, w);
            WithModelTypeEui(row.(model := Some(model)), tenant, w);
        if input.Some? then Success(PinnedInput(typed, input.value))
        else PinnedOnCreate(typed, req, tenant, w, now)
  }

  // ----- the snapshot fits the model -----

  /** Pinning a blueprint leaves a fitting snapshot that names it, whatever the row was. */
  lemma PinnedFits(row: EndpointRow, bp: Blueprint, now: int, modelOf: Uuid -> Uuid)
    requires bp.model == modelOf(bp.id)
    requires Pinned(row, bp, now).Success?
    ensures var pinned := Pinned(row, bp, now).value;
            && pinned.owner == row.owner
            && pinned.model == Some(modelOf(bp.id))
            && pinned.snapshot == Some(Snapshot(CanonicalId(bp.id), bp.typeEui, bp.spec, now))
            && Consistent(pinned, modelOf)
            && TypeEuiFollowsSnapshot(pinned)
  {
  }

  /** In either mode a create leaves a snapshot that fits the model, if it leaves one. */
  lemma CreateFits(req: Request, tenant: Tenant, w: World, now: int, modelOf: Uuid -> Uuid)
    requires Agrees(w, modelOf)
    requires Created(req, tenant, w, now).Success?
    ensures Consistent(Created(req, tenant, w, now).value, modelOf)
  {
  }

  /** The snapshot names a blueprint of that model. */
  ghost predicate NamesBlueprintOf(snapshot: Option<Snapshot>, model: Uuid, modelOf: Uuid -> Uuid) {
    SnapshotSource(snapshot).IdOf? && modelOf(SnapshotSource(snapshot).uuid) == model
  }

  /** The request selects a blueprint other than the one the snapshot was pinned from. */
  predicate Selects(snapshot: Option<Snapshot>, req: Request, mask: set<string>) {
    && "blueprint_id" in mask && req.blueprintId != NoId
    && !(snapshot.Some? && snapshot.value.Snapshot? && snapshot.value.source == req.blueprintId)
  }

  /**
   The trigger leaves a row whose snapshot fitted its prior model not fitting exactly
   when the owner's switch is off, nothing was selected, and the row has moved to no
   model or to one without a default that the pinned source does not belong to.
   */
  lemma RetriggerLosesFitExactlyWhen(row: EndpointRow, req: Request, mask: set<string>, tenant: Tenant, w: World,
                                     priorModel: Option<Uuid>, now: int, modelOf: Uuid -> Uuid)
    requires Agrees(w, modelOf)
    requires Consistent(row.(model := priorModel), modelOf)
    requires Retriggered(row, req, mask, tenant, w, priorModel, SnapshotSource(row.snapshot), now).Success?
    ensures !Consistent(Retriggered(row, req, mask, tenant, w, priorModel, SnapshotSource(row.snapshot), now).value, modelOf) <==>
            && row.snapshot.Some?
            && w.snapshotOnly(row.owner) == Success(false)
            && !Selects(row.snapshot, req, mask)
            && row.model != priorModel
            && (row.model.Some? ==> w.defaultOf(tenant, row.model.value) == Success(None)
                                    && !NamesBlueprintOf(row.snapshot, row.model.value, modelOf))
  {
  }

  /** The request moves the endpoint off its model and neither brings a specification nor selects a blueprint. */
  predicate OnlyMovesModel(row: EndpointRow, req: Request, mask: set<string>) {
    && DEVICE_MODEL_ID in mask
    && ParseId(req.deviceModelId) != row.model
    && !(BLUEPRINT_INPUT in mask && req.input.Input?)
    && !Selects(row.snapshot, req, mask)
  }

  /**
   A successful update leaves a fitting snapshot not fitting exactly when the
   owner's switch is off and the request only moves the endpoint: to no model, or
   to a model without a default that the pinned source does not belong to.
   */
  lemma {:induction false} UpdateLosesFitExactlyWhen(row: EndpointRow, req: Request, mask: set<string>, tenant: Tenant, w: World, now: int,
                                  modelOf: Uuid -> Uuid)
    requires Agrees(w, modelOf)
    requires Consistent(row, modelOf)
    requires Updated(row, req, mask, tenant, w, now).Success?
    ensures !Consistent(Updated(row, req, mask, tenant, w, now).value, modelOf) <==>
            && row.snapshot.Some?
            && w.snapshotOnly(row.owner) == Success(false)
            && OnlyMovesModel(row, req, mask)
            && (req.deviceModelId.IdOf? ==> w.defaultOf(tenant, req.deviceModelId.uuid) == Success(None)
                                            && !NamesBlueprintOf(row.snapshot, req.deviceModelId.uuid, modelOf))
  {
    var masked := Masked(row, req, mask).value;
    if !(BLUEPRINT_INPUT in mask && req.input.Input?) {
      var modelled := WithRequestedModel(masked, req, mask, tenant, w).value;
      var typed := WithModelTypeEui(modelled, tenant, w).value;
      assert typed.snapshot == row.snapshot && typed.owner == row.owner && typed.model == modelled.model;
      assert Consistent(typed.(model := row.model), modelOf);
      RetriggerLosesFitExactlyWhen(typed, req, mask, tenant, w, row.model, now, modelOf);
    }
  }

  // A moved endpoint: its snapshot was pinned from blueprint 100 of model 10, and model 11 is known but has no default.

  function PinnedRow(): EndpointRow {
    EndpointRow(1, Some(10), None, Some(Snapshot(CanonicalId(100), [], "spec", 0)))
  }

  function MoveTo(model: IdText): Request {
    Request(NoId, model, [], NoInput, None)
  }

  /** The owner's switch is off. */
  function ModelWithoutDefault(): World {
    World(true, map[], map[100 := Blueprint(100, 10, [], "spec", true)], (_, _) => Success(None), (_, _) => Success(None),
          (_, _) => true, _ => Success(false))
  }

  /** The update that moves it to model 11, or off every model, succeeds and leaves it pinned to a blueprint of model 10. */
  lemma MovedEndpointLosesFit(now: int)
    ensures var row, mask, w := PinnedRow(), {DEVICE_MODEL_ID}, ModelWithoutDefault();
            var modelOf: Uuid -> Uuid := id => if id == 100 then 10 else 11;
            && Agrees(w, modelOf) && Consistent(row, modelOf) && TypeEuiFollowsSnapshot(row)
            && (forall model <- {CanonicalId(11), NoId} ::
                  var updated := Updated(row, MoveTo(model), mask, 1, w, now);
                  updated.Success? && updated.value.snapshot == row.snapshot && !Consistent(updated.value, modelOf))
  {
    var row, mask, w := PinnedRow(), {DEVICE_MODEL_ID}, ModelWithoutDefault();
    assert Updated(row, MoveTo(CanonicalId(11)), mask, 1, w, now) == Success(row.(model := Some(11)));
    assert Updated(row, MoveTo(NoId), mask, 1, w, now) == Success(row.(model := None));
  }

  // ----- the steps as they assign the endpoint -----

  /** An endpoint loaded or built by a request; a refused request drops it unsaved. */
  class EndPoint {
    const eui: EndpointEui
    const owner: Tenant
    var model: Option<Uuid>
    var typeEui: Option<Eui>
    var snapshot: Option<Snapshot>

    constructor (eui: EndpointEui, row: EndpointRow)
      ensures Row() == row && this.eui == eui
    {
      this.eui := eui;
      owner, model, typeEui, snapshot := row.owner, row.model, row.typeEui, row.snapshot;
    }

    function Row(): EndpointRow
      reads this
    {
      EndpointRow(owner, model, typeEui, snapshot)
    }

    method PinInputSnapshot(pinned: Snapshot)
      modifies this
      ensures Row() == PinnedInput(old(Row()), pinned)
    {
      model := None;
      snapshot := Some(pinned);
      typeEui := SnapshotTypeEui(snapshot);
    }

    method PinBlueprint(bp: Blueprint, now: int) returns (outcome: Outcome<Fault>)
      modifies this
      ensures outcome.With(Row()) == Pinned(old(Row()), bp, now)
    {
      if !bp.encodable {
        return Fail(SnapshotBuildFailed);
      }
      var raw := Some(BlueprintSnapshot(bp, now));
      model := Some(bp.model);
      typeEui := SnapshotTypeEui(raw);
      snapshot := raw;
      return Pass;
    }

    method ApplyBlueprintSnapshot(w: World, id: IdText, now: int) returns (outcome: Outcome<Fault>)
      modifies this
      ensures outcome.With(Row()) == AppliedBlueprint(old(Row()), w, id, now)
    {
      var loaded := LoadBlueprint(w, id);
      if loaded.Failure? {
        return Fail(loaded.fault);
      }
      outcome := PinBlueprint(loaded.value, now);
    }

    method PinSelectedBlueprint(req: Request, w: World, snapshotOnly: bool, now: int) returns (outcome: Outcome<Fault>)
      modifies this
      ensures outcome.With(Row()) == PinnedSelected(old(Row()), req, w, snapshotOnly, now)
    {
      var loaded := LoadBlueprint(w, req.blueprintId);
      if loaded.Failure? {
        return Fail(loaded.fault);
      }
      var bp := loaded.value;
      if snapshotOnly && (ParseId(req.deviceModelId) != Some(bp.model) || model != Some(bp.model)) {
        return Fail(BlueprintNotOfRequestedModel);
      }
      outcome := PinBlueprint(bp, now);
    }

    method PinModelDefault(tenant: Tenant, w: World, snapshotOnly: bool, now: int) returns (outcome: Outcome<Fault>)
      requires model.Some?
      modifies this
      ensures outcome.With(Row()) == PinnedDefault(old(Row()), tenant, w, snapshotOnly, now)
    {
      if !w.configured {
        return Fail(ServiceNotConfigured);
      }
      var def := w.defaultOf(tenant, model.value);
      if def.Failure? {
        return Fail(ResolveTypeEuiFailed);
      }
      if def.value.None? {
        return if snapshotOnly then Fail(SnapshotRequired) else Pass;
      }
      outcome := ApplyBlueprintSnapshot(w, CanonicalId(def.value.value.id), now);
    }

    method PinOnCreate(req: Request, tenant: Tenant, w: World, now: int) returns (outcome: Outcome<Fault>)
      modifies this
      ensures outcome.With(Row()) == PinnedOnCreate(old(Row()), req, tenant, w, now)
    {
      var on := ReadSwitch(w, tenant);
      if on.Failure? {
        return Fail(on.fault);
      }
      if req.blueprintId != NoId {
        outcome := PinSelectedBlueprint(req, w, on.value, now);
        return;
      }
      if !on.value {
        return Pass;
      }
      if model.None? {
        return Fail(SnapshotRequired);
      }
      outcome := PinModelDefault(tenant, w, on.value, now);
    }

    method ApplySnapshotTrigger(req: Request, mask: set<string>, tenant: Tenant, w: World,
                                priorModel: Option<Uuid>, priorSource: IdText, now: int) returns (outcome: Outcome<Fault>)
      modifies this
      ensures outcome.With(Row()) == Retriggered(old(Row()), req, mask, tenant, w, priorModel, priorSource, now)
    {
      var selected := BLUEPRINT_ID in mask && req.blueprintId != NoId && req.blueprintId != priorSource;
      if !selected && priorModel == model {
        return Pass;
      }
      var on := ReadSwitch(w, owner);
      if on.Failure? {
        return Fail(on.fault);
      }
      if selected {
        outcome := PinSelectedBlueprint(req, w, on.value, now);
        return;
      }
      if model.None? {
        return if on.value then Fail(SnapshotRequired) else Pass;
      }
      if SourceBelongsToModel(w, priorSource, model.value) {
        return Pass;
      }
      outcome := PinModelDefault(tenant, w, on.value, now);
    }

    method ApplyMaskedFields(req: Request, mask: set<string>) returns (outcome: Outcome<Fault>)
      modifies this
      ensures outcome.With(Row()) == Masked(old(Row()), req, mask)
    {
      if req.otherFieldsFault.Some? {
        return Fail(req.otherFieldsFault.value);
      }
      if TYPE_EUI in mask {
        if |req.typeEui| == 0 {
          typeEui := None;
        } else if |req.typeEui| != TYPE_EUI_LENGTH {
          return Fail(InvalidTypeEui);
        } else {
          typeEui := Some(req.typeEui);
        }
      }
      return Pass;
    }

    method ResolveDeviceModel(req: Request, mask: set<string>, tenant: Tenant, w: World) returns (outcome: Outcome<Fault>)
      modifies this
      ensures outcome.With(Row()) == WithRequestedModel(old(Row()), req, mask, tenant, w)
    {
      if DEVICE_MODEL_ID !in mask {
        return Pass;
      }
      if req.deviceModelId == NoId {
        model := None;
        return Pass;
      }
      var requested := RequestedModel(tenant, req.deviceModelId, w);
      if requested.Failure? {
        return Fail(requested.fault);
      }
      model := Some(requested.value);
      return Pass;
    }

    method NormalizeTypeEuiFromModel(tenant: Tenant, w: World) returns (outcome: Outcome<Fault>)
      modifies this
      ensures outcome.With(Row()) == WithModelTypeEui(old(Row()), tenant, w)
    {
      if model.None? {
        return Pass;
      }
      if !w.configured {
        return Fail(ServiceNotConfigured);
      }
      var effective := w.effectiveTypeEui(tenant, model.value);
      if effective.Failure? {
        return Fail(ResolveTypeEuiFailed);
      }
      typeEui := effective.value;
      return Pass;
    }

    /** Applies the masked fields with the model, type EUI and snapshot they imply. */
    method ApplyUpdate(req: Request, mask: set<string>, tenant: Tenant, w: World, now: int) returns (outcome: Outcome<Fault>)
      modifies this
      ensures outcome.With(Row()) == Updated(old(Row()), req, mask, tenant, w, now)
    {
      var input: Option<Snapshot> := None;
      if BLUEPRINT_INPUT in mask {
        var built := InputSnapshot(req, now);
        if built.Failure? {
          return Fail(built.fault);
        }
        input := built.value;
      }
      var priorModel, priorSource := model, SnapshotSource(snapshot);
      :- ApplyMaskedFields(req, mask);
      if input.Some? {
        PinInputSnapshot(input.value);
        return Pass;
      }
      :- ResolveDeviceModel(req, mask, tenant, w);
      :- NormalizeTypeEuiFromModel(tenant, w);
      :- ApplySnapshotTrigger(req, mask, tenant, w, priorModel, priorSource, now);
      var active := SnapshotTypeEui(snapshot);
      if active.Some? {
        typeEui := active;
      }
      return Pass;
    }
  }

  /** Builds the endpoint a create stores; a refused create builds none. */
  method CreateEndPoint(eui: EndpointEui, req: Request, tenant: Tenant, w: World, now: int) returns (outcome: Outcome<Fault>, endpoint: EndPoint?)
    ensures outcome.Pass? ==> endpoint != null && fresh(endpoint) && endpoint.eui == eui && Success(endpoint.Row()) == Created(req, tenant, w, now)
    ensures outcome.Fail? ==> endpoint == null && Failure(outcome.fault) == Created(req, tenant, w, now)
  {
    if req.otherFieldsFault.Some? {
      return Fail(req.otherFieldsFault.value), null;
    }
    var input := InputSnapshot(req, now);
    if input.Failure? {
      return Fail(input.fault), null;
    }
    if |req.typeEui| > 0 && |req.typeEui| != TYPE_EUI_LENGTH {
      return Fail(InvalidTypeEui), null;
    }
    endpoint := new EndPoint(eui, EndpointRow(tenant, None, if req.typeEui == [] then None else Some(req.typeEui), None));
    if req.deviceModelId != NoId {
      var requested := RequestedModel(tenant, req.deviceModelId, w);
      if requested.Failure? {
        return Fail(requested.fault), null;
      }
      endpoint.model := Some(requested.value);
      outcome := endpoint.NormalizeTypeEuiFromModel(tenant, w);
      if outcome.Fail? {
        return outcome, null;
      }
    }
    if input.value.Some? {
      endpoint.PinInputSnapshot(input.value.value);
      return Pass, endpoint;
    }
    outcome := endpoint.PinOnCreate(req, tenant, w, now);
    if outcome.Fail? {
      endpoint := null;
    }
  }

  // ----- the update mask -----

  /** Refuses a mask with an unsupported or repeated path before anything changes, naming the first such path's fault. */
  method ValidateUpdateMask(paths: seq<string>) returns (outcome: Outcome<Fault>)
    ensures outcome.Pass? <==>
            && (forall p <- paths :: p in SUPPORTED_PATHS)
            && (forall i, j | 0 <= i < j < |paths| :: paths[i] != paths[j])
    ensures outcome.Fail? ==> exists k | 0 <= k < |paths| ::
                && (forall i | 0 <= i < k :: paths[i] in SUPPORTED_PATHS && paths[i] !in paths[..i])
                && outcome.fault == (if paths[k] !in SUPPORTED_PATHS then UnknownMaskPath else DuplicateMaskPath)
                && (paths[k] !in SUPPORTED_PATHS || paths[k] in paths[..k])
  {
    var seen: set<string> := {};
    for n := 0 to |paths|
      invariant seen == set p | p in paths[..n]
      invariant forall i | 0 <= i < n :: paths[i] in SUPPORTED_PATHS && paths[i] !in paths[..i]
    {
      if paths[n] !in SUPPORTED_PATHS {
        return Fail(UnknownMaskPath);
      }
      if paths[n] in seen {
        return Fail(DuplicateMaskPath);
      }
      seen := seen + {paths[n]};
    }
    return Pass;
  }
}
