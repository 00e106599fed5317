/**
 What a create or a masked update leaves, in the terms of the request, the stored row
 and the services' answers: when it succeeds, which row it leaves, and which fault it
 names otherwise.
 */
module PinningLaws {
  import opened BulkAssign
  import opened EndpointRows
  import opened Pinning
  import opened PinningRuns
  import opened Wrappers

  // ----- update -----

  predicate BringsInput(req: Request, mask: set<string>) {
    "blueprint_input" in mask && req.input.Input?
  }

  /** The specification stands alone, is valid, names a type EUI and serializes. */
  predicate InputIsPinnable(req: Request) {
    req.input.Input? && req.blueprintId == NoId && req.deviceModelId == NoId && req.input.valid && req.input.typeEui.Some? && req.input.encodable
  }

  /** The row an input leaves: off every model, with the input's type EUI and a snapshot without a source. */
  predicate InputPinnedAt(row: EndpointRow, req: Request, owner: Tenant, at: int)
    requires InputIsPinnable(req)
  {
    row == EndpointRow(owner, None, req.input.typeEui, Some(Snapshot(NoId, req.input.typeEui.value, req.input.spec, at)))
  }

  predicate MaskedFieldsValid(req: Request, mask: set<string>) {
    req.otherFieldsFault.None? && ("type_eui" in mask ==> |req.typeEui| == 0 || |req.typeEui| == 8)
  }

  /** The device model the update leaves unless it pins another one. */
  function ModelAfter(row: EndpointRow, req: Request, mask: set<string>): Option<Uuid> {
    if "device_model_id" !in mask then row.model
    else if req.deviceModelId.IdOf? then Some(req.deviceModelId.uuid)
    else None
  }

  predicate ModelIsKnown(tenant: Tenant, id: IdText, w: World) {
    w.configured && id.IdOf? && w.modelKnown(tenant, id.uuid)
  }

  /** The masked fields are valid, the model is known, and its type EUI is answered. */
  predicate Applies(row: EndpointRow, req: Request, mask: set<string>, tenant: Tenant, w: World) {
    && MaskedFieldsValid(req, mask)
    && ("device_model_id" in mask && req.deviceModelId != NoId ==> ModelIsKnown(tenant, req.deviceModelId, w))
    && var model := ModelAfter(row, req, mask);
       model.Some? ==> w.configured && w.effectiveTypeEui(tenant, model.value).Success?
  }

  /** The type EUI of a row whose snapshot stays: the snapshot's, else the model's, else the masked one. */
  function TypeEuiAfter(row: EndpointRow, req: Request, mask: set<string>, tenant: Tenant, w: World): Option<Eui>
    requires Applies(row, req, mask, tenant, w)
  {
    var model := ModelAfter(row, req, mask);
    if row.snapshot.Some? && row.snapshot.value.Snapshot? && |row.snapshot.value.typeEui| == 8 then Some(row.snapshot.value.typeEui)
    else if model.Some? then w.effectiveTypeEui(tenant, model.value).value
    else if "type_eui" !in mask then row.typeEui
    else if req.typeEui == [] then None
    else Some(req.typeEui)
  }

  /** An update that brings a specification succeeds exactly when that is pinnable and the masked fields are valid, and pins it. */
  lemma UpdatePinsInput(row: EndpointRow, req: Request, mask: set<string>, tenant: Tenant, w: World, now: int)
    requires BringsInput(req, mask)
    ensures Updated(row, req, mask, tenant, w, now).Success? <==> MaskedFieldsValid(req, mask) && InputIsPinnable(req)
    ensures Updated(row, req, mask, tenant, w, now).Success? ==> InputPinnedAt(Updated(row, req, mask, tenant, w, now).value, req, row.owner, now)
  {
  }

  /**
   An update that selects a blueprint other than the pinned source succeeds exactly when
   its fields apply, the blueprint is pinnable and, under the switch, both the request and
   the endpoint name its model. Then the endpoint is pinned to that blueprint, whatever
   else the mask names.
   */
  lemma UpdatePinsSelection(row: EndpointRow, req: Request, mask: set<string>, tenant: Tenant, w: World, now: int)
    requires !BringsInput(req, mask) && Selects(row.snapshot, req, mask)
    ensures Updated(row, req, mask, tenant, w, now).Success? <==>
            && Applies(row, req, mask, tenant, w) && w.snapshotOnly(row.owner).Success? && Pinnable(w, req.blueprintId)
            && var model := w.blueprints[req.blueprintId.uuid].model;
               w.snapshotOnly(row.owner).value ==>
                 req.deviceModelId.IdOf? && req.deviceModelId.uuid == model && ModelAfter(row, req, mask) == Some(model)
    ensures Updated(row, req, mask, tenant, w, now).Success? ==>
            PinnedAt(Updated(row, req, mask, tenant, w, now).value, w.blueprints[req.blueprintId.uuid], row.owner, now)
  {
  }

  /** An update that neither selects a blueprint nor moves the model succeeds whenever its fields apply, and keeps model and snapshot. */
  lemma UpdateKeepsPin(row: EndpointRow, req: Request, mask: set<string>, tenant: Tenant, w: World, now: int)
    requires !BringsInput(req, mask) && !Selects(row.snapshot, req, mask) && ModelAfter(row, req, mask) == row.model
    ensures Updated(row, req, mask, tenant, w, now).Success? <==> Applies(row, req, mask, tenant, w)
    ensures Applies(row, req, mask, tenant, w) ==>
            Updated(row, req, mask, tenant, w, now).value == row.(typeEui := TypeEuiAfter(row, req, mask, tenant, w))
  {
  }

  /** The endpoint may keep its snapshot on that model: the snapshot names a blueprint of it. */
  predicate SourceIsOf(snapshot: Option<Snapshot>, w: World, model: Uuid) {
    && snapshot.Some? && snapshot.value.Snapshot? && snapshot.value.source.IdOf?
    && snapshot.value.source.uuid in w.sources && w.sources[snapshot.value.source.uuid].model == model
  }

  /** The endpoint moves to a model whose default is to be pinned. */
  predicate NeedsDefault(row: EndpointRow, req: Request, mask: set<string>, w: World) {
    var model := ModelAfter(row, req, mask);
    model.Some? && !SourceIsOf(row.snapshot, w, model.value)
  }

  /** The default of the model is answered, and pinnable if there is one; only without the switch may there be none. */
  predicate DefaultIsPinnable(tenant: Tenant, model: Uuid, w: World, on: bool) {
    var def := w.defaultOf(tenant, model);
    def.Success? && if def.value.None? then !on else Pinnable(w, IdOf(def.value.value.id, 0))
  }

  /**
   An update that only moves the endpoint to another model succeeds exactly when its fields
   apply and either the new model's default is pinnable or none is needed; off every model
   it may only go without the switch. A default that is needed and exists is pinned; else the
   model changes and the snapshot stays.
   */
  lemma UpdateMovesModel(row: EndpointRow, req: Request, mask: set<string>, tenant: Tenant, w: World, now: int)
    requires !BringsInput(req, mask) && !Selects(row.snapshot, req, mask) && ModelAfter(row, req, mask) != row.model
    ensures var model, needs := ModelAfter(row, req, mask), NeedsDefault(row, req, mask, w);
            var updated := Updated(row, req, mask, tenant, w, now);
            && (updated.Success? <==>
                  && Applies(row, req, mask, tenant, w) && w.snapshotOnly(row.owner).Success?
                  && (model.None? ==> !w.snapshotOnly(row.owner).value)
                  && (needs ==> DefaultIsPinnable(tenant, model.value, w, w.snapshotOnly(row.owner).value)))
            && (updated.Success? ==>
                  if needs && w.defaultOf(tenant, model.value).value.Some?
                  then PinnedAt(updated.value, w.blueprints[w.defaultOf(tenant, model.value).value.value.id], row.owner, now)
                  else updated.value == row.(model := model, typeEui := TypeEuiAfter(row, req, mask, tenant, w)))
  {
  }

  // ----- create -----

  /** The fields of a create are valid, a requested model is known, and its type EUI is answered. */
  predicate Creates(req: Request, tenant: Tenant, w: World) {
    && req.otherFieldsFault.None? && (|req.typeEui| == 0 || |req.typeEui| == 8)
    && (req.deviceModelId != NoId ==> ModelIsKnown(tenant, req.deviceModelId, w)
                                      && w.effectiveTypeEui(tenant, req.deviceModelId.uuid).Success?)
  }

  lemma CreatePinsInput(req: Request, tenant: Tenant, w: World, now: int)
    requires req.input.Input?
    ensures Created(req, tenant, w, now).Success? <==> Creates(req, tenant, w) && InputIsPinnable(req)
    ensures Created(req, tenant, w, now).Success? ==> InputPinnedAt(Created(req, tenant, w, now).value, req, tenant, now)
  {
  }

  /**
   A create that selects a blueprint succeeds exactly when that is pinnable and, under the
   switch, of the requested model; in either mode it is then pinned to it.
   */
  lemma CreatePinsSelection(req: Request, tenant: Tenant, w: World, now: int)
    requires req.input.NoInput? && req.blueprintId != NoId
    ensures Created(req, tenant, w, now).Success? <==>
            && Creates(req, tenant, w) && w.snapshotOnly(tenant).Success? && Pinnable(w, req.blueprintId)
            && (w.snapshotOnly(tenant).value ==> req.deviceModelId.IdOf? && req.deviceModelId.uuid == w.blueprints[req.blueprintId.uuid].model)
    ensures Created(req, tenant, w, now).Success? ==>
            PinnedAt(Created(req, tenant, w, now).value, w.blueprints[req.blueprintId.uuid], tenant, now)
  {
  }

  /** Any other create pins its model's default under the switch, which it then needs, and no snapshot without it. */
  lemma CreatePinsDefault(req: Request, tenant: Tenant, w: World, now: int)
    requires req.input.NoInput? && req.blueprintId == NoId
    ensures var created := Created(req, tenant, w, now);
            && (created.Success? <==>
                  && Creates(req, tenant, w) && w.snapshotOnly(tenant).Success?
                  && (w.snapshotOnly(tenant).value ==>
                        req.deviceModelId.IdOf? && DefaultIsPinnable(tenant, req.deviceModelId.uuid, w, true)))
            && (created.Success? ==>
                  if w.snapshotOnly(tenant).value
                  then PinnedAt(created.value, w.blueprints[w.defaultOf(tenant, req.deviceModelId.uuid).value.value.id], tenant, now)
                  else created.value ==
                       if req.deviceModelId.IdOf?
                       then EndpointRow(tenant, Some(req.deviceModelId.uuid), w.effectiveTypeEui(tenant, req.deviceModelId.uuid).value, None)
                       else EndpointRow(tenant, None, if req.typeEui == [] then None else Some(req.typeEui), None))
  {
  }

  // ----- the fault of a refused request -----

  predicate InputRefusedFor(req: Request, f: Fault) {
    if req.blueprintId != NoId || req.deviceModelId != NoId then f == InputConflict
    else if req.input.Input? && !req.input.valid then f == InputSpecInvalid
    else if req.input.Input? && req.input.typeEui.None? then f == InputTypeEuiInvalid
    else f == SnapshotBuildFailed
  }

  /** A requested model is unknown, or its type EUI is not answered. */
  predicate ModelRefusedFor(tenant: Tenant, id: IdText, w: World, f: Fault) {
    if !w.configured then f == ServiceNotConfigured
    else if !id.IdOf? then f == InvalidModelId
    else if !w.modelKnown(tenant, id.uuid) then f == ModelNotFound
    else f == ResolveTypeEuiFailed
  }

  /** The blueprint does not load, is of another model than it must be, or does not serialize. */
  predicate BlueprintRefusedFor(w: World, id: IdText, ofModel: bool, f: Fault) {
    if !w.configured then f == ServiceNotConfigured
    else if !id.IdOf? then f == InvalidBlueprintId
    else if id.uuid !in w.blueprints then f == BlueprintNotFound
    else if !ofModel then f == BlueprintNotOfRequestedModel
    else f == SnapshotBuildFailed
  }

  predicate DefaultRefusedFor(tenant: Tenant, model: Uuid, w: World, f: Fault) {
    var def := w.defaultOf(tenant, model);
    if def.Failure? then f == ResolveTypeEuiFailed
    else if def.value.None? then f == SnapshotRequired
    else BlueprintRefusedFor(w, IdOf(def.value.value.id, 0), true, f)
  }

  /** Under the switch the request and the endpoint must both name the selected blueprint's model. */
  predicate SelectionIsOfModel(row: EndpointRow, req: Request, mask: set<string>, w: World, on: bool) {
    on && req.blueprintId.IdOf? && req.blueprintId.uuid in w.blueprints ==>
      var model := w.blueprints[req.blueprintId.uuid].model;
      req.deviceModelId.IdOf? && req.deviceModelId.uuid == model && ModelAfter(row, req, mask) == Some(model)
  }

  /** The fault of an update that gets past its fields. */
  predicate TriggerRefusedFor(row: EndpointRow, req: Request, mask: set<string>, tenant: Tenant, w: World, f: Fault) {
    var on, model := w.snapshotOnly(row.owner), ModelAfter(row, req, mask);
    if on.Failure? then f == SnapshotOnlyReadFailed
    else if Selects(row.snapshot, req, mask) then
      BlueprintRefusedFor(w, req.blueprintId, SelectionIsOfModel(row, req, mask, w, on.value), f)
    else if model.None? then f == SnapshotRequired
    else DefaultRefusedFor(tenant, model.value, w, f)
  }

  /** A refused update names the first thing that is wrong with it: its specification, its fields, its model, or its pin. */
  lemma RefusedUpdateNamesItsFault(row: EndpointRow, req: Request, mask: set<string>, tenant: Tenant, w: World, now: int)
    requires Updated(row, req, mask, tenant, w, now).Failure?
    ensures var f := Updated(row, req, mask, tenant, w, now).fault;
            if BringsInput(req, mask) && !InputIsPinnable(req) then InputRefusedFor(req, f)
            else if req.otherFieldsFault.Some? then f == req.otherFieldsFault.value
            else if !MaskedFieldsValid(req, mask) then f == InvalidTypeEui
            else if !Applies(row, req, mask, tenant, w) then
              if "device_model_id" in mask then ModelRefusedFor(tenant, req.deviceModelId, w, f)
              else f == if w.configured then ResolveTypeEuiFailed else ServiceNotConfigured
            else TriggerRefusedFor(row, req, mask, tenant, w, f)
  {
  }

  /** A refused create names the first thing that is wrong with it: its fields, its specification, its model, or its pin. */
  lemma RefusedCreateNamesItsFault(req: Request, tenant: Tenant, w: World, now: int)
    requires Created(req, tenant, w, now).Failure?
    ensures var f, on := Created(req, tenant, w, now).fault, w.snapshotOnly(tenant);
            if req.otherFieldsFault.Some? then f == req.otherFieldsFault.value
            else if req.input.Input? && !InputIsPinnable(req) then InputRefusedFor(req, f)
            else if |req.typeEui| != 0 && |req.typeEui| != 8 then f == InvalidTypeEui
            else if !Creates(req, tenant, w) then ModelRefusedFor(tenant, req.deviceModelId, w, f)
            else if on.Failure? then f == SnapshotOnlyReadFailed
            else if req.blueprintId != NoId then
              BlueprintRefusedFor(w, req.blueprintId,
                                  on.value && req.blueprintId.IdOf? && req.blueprintId.uuid in w.blueprints ==>
                                    req.deviceModelId.IdOf? && req.deviceModelId.uuid == w.blueprints[req.blueprintId.uuid].model, f)
            else if req.deviceModelId == NoId then f == SnapshotRequired
            else DefaultRefusedFor(tenant, req.deviceModelId.uuid, w, f)
  {
  }

  // ----- bulk assign -----

  /** Writing succeeds exactly when no target bears a snapshot, or the blueprint is pinnable and every write succeeds. */
  lemma {:induction false} WritesExactlyWhen(rows: Rows, targets: seq<Target>, w: World, id: IdText, clock: nat -> int, access: Access,
                                             affected: nat)
    ensures Written(rows, targets, w, id, clock, access, affected).1.Success? <==>
            SnapshotBearing(targets) > 0 ==>
              Pinnable(w, id) && forall k | affected <= k < affected + SnapshotBearing(targets) :: access.writeOk(k)
    decreases targets
  {
    if targets != [] {
      var head, rest := targets[0], targets[1..];
      if head.row.snapshot.None? {
        WritesExactlyWhen(rows, rest, w, id, clock, access, affected);
      } else if Pinnable(w, id) {
        var pinned := AppliedBlueprint(head.row, w, id, clock(affected)).value;
        WritesExactlyWhen(rows[head.eui := pinned], rest, w, id, clock, access, affected + 1);
      }
    }
  }

  /**
   A bulk assign succeeds exactly when no read fails, no target found is refused under its
   owner's switch, and, if one bears a snapshot, the blueprint is pinnable and every write
   succeeds.
   */
  lemma BulkSucceedsExactlyWhen(rows: Rows, euis: seq<EndpointEui>, w: World, id: IdText, clock: nat -> int, access: Access)
    ensures BulkAssigned(rows, euis, w, id, clock, access).1.Success? <==>
            && (forall eui <- euis :: eui !in access.failing)
            && (forall eui <- euis | eui in access.visible && eui in rows ::
                  && w.snapshotOnly(rows[eui].owner).Success?
                  && (w.snapshotOnly(rows[eui].owner).value ==>
                        w.configured && id.IdOf? && id.uuid in w.blueprints && rows[eui].model == Some(w.blueprints[id.uuid].model)))
            && var found := Loaded(rows, access, euis);
               found.Success? && SnapshotBearing(found.value) > 0 ==>
                 Pinnable(w, id) && forall k | 0 <= k < SnapshotBearing(found.value) :: access.writeOk(k)
  {
    LoadedIsWhatTheStoreHolds(rows, access, euis);
    var found := Loaded(rows, access, euis);
    if found.Success? {
      RefusedExactlyWhen(found.value, w, id);
      WritesExactlyWhen(rows, found.value, w, id, clock, access, 0);
      forall eui <- euis | eui in access.visible && eui in rows
        ensures Target(eui, rows[eui]) in found.value
      {
      }
    }
  }

  // ----- the store -----

  /** A create is stored exactly when it succeeds, the store writes it and its EUI is new; no other row changes. */
  lemma CreateIsStoredExactlyWhen(rows: Rows, op: Operation)
    requires op.Create?
    ensures var created, after := Created(op.req, op.tenant, op.w, op.now), Step(rows, op);
            if op.stored && op.eui !in rows && created.Success?
            then op.eui in after && after[op.eui] == created.value && after - {op.eui} == rows else after == rows
  {
    assert op.eui !in rows ==> rows - {op.eui} == rows;
  }

  /**
   An update is saved exactly when its endpoint is found, its mask names at least one path,
   each of them supported and named once, and it succeeds and is written; no other row changes.
   */
  lemma UpdateIsSavedExactlyWhen(rows: Rows, op: Operation)
    requires op.Update?
    ensures var after := Step(rows, op);
            if && op.found && op.saved && op.eui in rows && |op.paths| > 0 && (forall p <- op.paths :: p in SUPPORTED_PATHS)
               && (forall i, j | 0 <= i < j < |op.paths| :: op.paths[i] != op.paths[j])
               && Updated(rows[op.eui], op.req, (set p | p in op.paths), op.tenant, op.w, op.now).Success?
            then after == rows[op.eui := Updated(rows[op.eui], op.req, (set p | p in op.paths), op.tenant, op.w, op.now).value]
            else after == rows
  {
  }

  // ----- a pin lasts -----

  /** The request may re-pin or move that endpoint. */
  predicate MayRepin(op: Operation, eui: EndpointEui) {
    match op
    case Create(_, _, _, _, _, _) => false
    case Update(id, _, _, paths, _, _, _, _) =>
      id == eui && ("blueprint_id" in paths || "device_model_id" in paths || "blueprint_input" in paths)
    case Bulk(euis, _, _, _, _) => eui in euis
  }

  lemma StepLeavesPin(rows: Rows, op: Operation, eui: EndpointEui)
    requires eui in rows && !MayRepin(op, eui)
    ensures eui in Step(rows, op)
    ensures var row, after := rows[eui], Step(rows, op)[eui];
            after.model == row.model && after.snapshot == row.snapshot && after.owner == row.owner
  {
    match op {
      case Create(_, _, _, _, _, _) =>
      case Update(id, tenant, req, paths, w, now, _, _) =>
        if id == eui {
          UpdateKeepsPin(rows[eui], req, (set p | p in paths), tenant, w, now);
        }
      case Bulk(euis, id, w, clock, access) =>
        BulkAssignOutcome(rows, euis, w, id, clock, access);
    }
  }

  lemma {:induction false} RunLeavesPin(rows: Rows, ops: seq<Operation>, eui: EndpointEui)
    requires eui in rows && forall op <- ops :: !MayRepin(op, eui)
    ensures eui in Run(rows, ops)
    ensures var row, after := rows[eui], Run(rows, ops)[eui];
            after.model == row.model && after.snapshot == row.snapshot && after.owner == row.owner
    decreases ops
  {
    if ops != [] {
      StepLeavesPin(rows, ops[0], eui);
      RunLeavesPin(Step(rows, ops[0]), ops[1..], eui);
    }
  }

  /**
   Over every run, whoever else is served: an endpoint whose saved update selected a
   blueprint stays pinned to it, with its model, until a request names its blueprint, its
   model or a specification again, or bulk-assigns it.
   */
  lemma {:induction false} SelectionLasts(rows: Rows, op: Operation, rest: seq<Operation>)
    requires op.Update? && op.found && op.saved && op.eui in rows && ValidMask(op.paths)
    requires var row, mask := rows[op.eui], set p | p in op.paths;
             !BringsInput(op.req, mask) && Selects(row.snapshot, op.req, mask) && Updated(row, op.req, mask, op.tenant, op.w, op.now).Success?
    requires forall later <- rest :: !MayRepin(later, op.eui)
    ensures op.eui in Run(rows, [op] + rest) && op.req.blueprintId.IdOf? && op.req.blueprintId.uuid in op.w.blueprints
    ensures var row, bp := Run(rows, [op] + rest)[op.eui], op.w.blueprints[op.req.blueprintId.uuid];
            && row.owner == rows[op.eui].owner && row.model == Some(bp.model)
            && row.snapshot == Some(Snapshot(IdOf(bp.id, 0), bp.typeEui, bp.spec, op.now))
  {
    UpdatePinsSelection(rows[op.eui], op.req, (set p | p in op.paths), op.tenant, op.w, op.now);
    RunLeavesPin(Step(rows, op), rest, op.eui);
    assert ([op] + rest)[1..] == rest;
  }
}
