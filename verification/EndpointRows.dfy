/**
 The data the blueprint pinning code works on: catalog blueprints, the decode
 snapshots pinned from them, endpoint rows, and the answers of the services a
 request consults.
 */
module EndpointRows {
  import opened Bytes
  import opened Wrappers

  type Uuid = int
  type Tenant = int
  type EndpointEui = int
  const TYPE_EUI_LENGTH := 8

  type Eui = b: seq<Byte> | |b| == TYPE_EUI_LENGTH witness [0, 0, 0, 0, 0, 0, 0, 0]

  /** An identifier as a request or a snapshot spells it; spelling 0 is the canonical text of the UUID. */
  datatype IdText = NoId | BadId(text: string) | IdOf(uuid: Uuid, spelling: nat)

  function ParseId(text: IdText): Option<Uuid> {
    if text.IdOf? then Some(text.uuid) else None
  }

  function CanonicalId(uuid: Uuid): IdText {
    IdOf(uuid, 0)
  }

  datatype Blueprint = Blueprint(
    id: Uuid,
    model: Uuid,
    typeEui: seq<Byte>,
    spec: string,
    encodable: bool  // whether the snapshot built from it serializes
  )

  /** A stored decode snapshot; Unreadable is a stored value that does not decode. */
  datatype Snapshot =
    | Unreadable(raw: string)
    | Snapshot(source: IdText, typeEui: seq<Byte>, spec: string, adoptedAt: int)

  /** The part of an endpoint the pinning code reads and writes. */
  datatype EndpointRow = EndpointRow(
    owner: Tenant,
    model: Option<Uuid>,
    typeEui: Option<Eui>,
    snapshot: Option<Snapshot>
  )

  /** A blueprint_input as the specification parser judges it. */
  datatype BlueprintInput =
    | NoInput
    | Input(spec: string, valid: bool, typeEui: Option<Eui>, encodable: bool)

  datatype Fault =
    | ServiceNotConfigured
    | InvalidBlueprintId
    | BlueprintNotFound
    | SnapshotBuildFailed
    | BlueprintNotOfRequestedModel
    | SnapshotRequired
    | ResolveTypeEuiFailed
    | InvalidModelId
    | ModelNotFound
    | SnapshotOnlyReadFailed
    | InputConflict
    | InputSpecInvalid
    | InputTypeEuiInvalid
    | InvalidTypeEui
    | MaskRequired
    | UnknownMaskPath
    | DuplicateMaskPath
    | EndpointNotFound
    | GetEndpointFailed
    | StoreFailed
    | BulkAssignOtherModel
    | OtherField(code: int)

  /** The fields of a create or update request that reach the pinning code. */
  datatype Request = Request(
    blueprintId: IdText,
    deviceModelId: IdText,
    typeEui: seq<Byte>,
    input: BlueprintInput,
    otherFieldsFault: Option<Fault>  // first fault of the remaining fields, if any
  )

  /** What the blueprint service and the mode lookup answer during one request. */
  datatype World = World(
    configured: bool,                                   // a blueprint service is wired
    blueprints: map<Uuid, Blueprint>,                   // what loading a selected blueprint finds
    sources: map<Uuid, Blueprint>,                      // what re-reading a snapshot's source finds
    defaultOf: (Tenant, Uuid) -> Result<Option<Blueprint>, ()>,
    effectiveTypeEui: (Tenant, Uuid) -> Result<Option<Eui>, ()>,
    modelKnown: (Tenant, Uuid) -> bool,
    snapshotOnly: Tenant -> Result<bool, ()>            // the owner's switch, or a failed read
  )

  /** The blueprint-to-model assignment is fixed: every answer of the world agrees with it. */
  ghost predicate Agrees(w: World, modelOf: Uuid -> Uuid) {
    && (forall id <- w.blueprints :: w.blueprints[id].id == id && w.blueprints[id].model == modelOf(id))
    && (forall id <- w.sources :: w.sources[id].id == id && w.sources[id].model == modelOf(id))
  }

  /** The blueprint a snapshot names as its source, as text. */
  function SnapshotSource(snapshot: Option<Snapshot>): IdText {
    if snapshot.Some? && snapshot.value.Snapshot? then snapshot.value.source else NoId
  }

  /** The 8-byte type EUI a snapshot carries, if it carries one. */
  function SnapshotTypeEui(snapshot: Option<Snapshot>): Option<Eui> {
    if snapshot.Some? && snapshot.value.Snapshot? && |snapshot.value.typeEui| == TYPE_EUI_LENGTH
    then Some(snapshot.value.typeEui)
    else None
  }

  /**
   A snapshot fits the row's model: its source blueprint belongs to that model,
   or it was pinned from a blueprint_input and the endpoint has left every model.
   */
  ghost predicate Consistent(row: EndpointRow, modelOf: Uuid -> Uuid) {
    row.snapshot.Some? ==>
      && row.snapshot.value.Snapshot?
      && match row.snapshot.value.source {
           case IdOf(source, _) => row.model == Some(modelOf(source))
           case NoId => row.model == None
           case BadId(_) => false
         }
  }

  /** The row's type EUI is the one its snapshot carries, whenever it carries one. */
  ghost predicate TypeEuiFollowsSnapshot(row: EndpointRow) {
    SnapshotTypeEui(row.snapshot).Some? ==> row.typeEui == SnapshotTypeEui(row.snapshot)
  }

  /** The row a blueprint pinned at that time leaves: its model, its type EUI, and a snapshot that names it. */
  predicate PinnedAt(row: EndpointRow, bp: Blueprint, owner: Tenant, at: int) {
    row == EndpointRow(owner, Some(bp.model), if |bp.typeEui| == 8 then Some(bp.typeEui) else None,
                       Some(Snapshot(IdOf(bp.id, 0), bp.typeEui, bp.spec, at)))
  }

  /** The row is pinned to that blueprint, its model and its type EUI. */
  predicate PinnedTo(row: EndpointRow, bp: Blueprint, owner: Tenant) {
    row.snapshot.Some? && row.snapshot.value.Snapshot? && PinnedAt(row, bp, owner, row.snapshot.value.adoptedAt)
  }

  /** The blueprint service can load that blueprint and serialize its snapshot. */
  predicate Pinnable(w: World, id: IdText) {
    w.configured && id.IdOf? && id.uuid in w.blueprints && w.blueprints[id.uuid].encodable
  }
}
