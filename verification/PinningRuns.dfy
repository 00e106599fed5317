/** Runs of creates, masked updates and bulk assigns over the stored endpoints of all tenants. */
module PinningRuns {
  import opened Wrappers
  import opened EndpointRows
  import opened Pinning
  import opened BulkAssign

  /** One request with everything its collaborators answered; each may fail on its own. */
  datatype Operation =
    | Create(eui: EndpointEui, tenant: Tenant, req: Request, w: World, now: int, stored: bool)
    | Update(eui: EndpointEui, tenant: Tenant, req: Request, paths: seq<string>, w: World, now: int, found: bool, saved: bool)
    | Bulk(euis: seq<EndpointEui>, id: IdText, w: World, clock: nat -> int, access: Access)

  predicate ValidMask(paths: seq<string>) {
    && paths != []
    && (forall p <- paths :: p in SUPPORTED_PATHS)
    && (forall i, j | 0 <= i < j < |paths| :: paths[i] != paths[j])
  }

  /** The rows after one request; a refused or unsaved request leaves them as they were. */
  function Step(rows: Rows, op: Operation): Rows {
    match op
    case Create(eui, tenant, req, w, now, stored) =>
      var created := Created(req, tenant, w, now);
      if created.Success? && stored && eui !in rows then rows[eui := created.value] else rows
    case Update(eui, tenant, req, paths, w, now, found, saved) =>
      if found && eui in rows && ValidMask(paths) then
        var updated := Updated(rows[eui], req, (set p | p in paths), tenant, w, now);
        if updated.Success? && saved then rows[eui := updated.value] else rows
      else rows
    case Bulk(euis, id, w, clock, access) => BulkAssigned(rows, euis, w, id, clock, access).0
  }

  function Run(rows: Rows, ops: seq<Operation>): Rows
    decreases ops
  {
    if ops == [] then rows else Run(Step(rows, ops[0]), ops[1..])
  }

  /** The owner's switch is never read as off during the request. */
  ghost predicate StaysOn(op: Operation, owner: Tenant) {
    op.w.snapshotOnly(owner) != Success(false)
  }

  ghost predicate AllConsistent(rows: Rows, owner: Tenant, modelOf: Uuid -> Uuid) {
    forall eui <- rows | rows[eui].owner == owner :: Consistent(rows[eui], modelOf)
  }

  ghost predicate AllFollowSnapshots(rows: Rows) {
    forall eui <- rows :: TypeEuiFollowsSnapshot(rows[eui])
  }

  /** Every row kept its owner and lost no snapshot, and the rows are still there. */
  ghost predicate KeepsSnapshots(before: Rows, after: Rows) {
    forall eui <- before ::
      && eui in after
      && after[eui].owner == before[eui].owner
      && (before[eui].snapshot.Some? ==> after[eui].snapshot.Some?)
  }

  lemma StepKeepsSnapshots(rows: Rows, op: Operation)
    ensures KeepsSnapshots(rows, Step(rows, op))
  {
    if op.Bulk? {
      BulkAssignOutcome(rows, op.euis, op.w, op.id, op.clock, op.access);
    }
  }

  lemma StepFollowsSnapshots(rows: Rows, op: Operation)
    requires AllFollowSnapshots(rows)
    ensures AllFollowSnapshots(Step(rows, op))
  {
    if op.Bulk? {
      BulkAssignOutcome(rows, op.euis, op.w, op.id, op.clock, op.access);
    }
  }

  lemma StepStaysConsistent(rows: Rows, op: Operation, owner: Tenant, modelOf: Uuid -> Uuid)
    requires Agrees(op.w, modelOf) && StaysOn(op, owner)
    requires AllConsistent(rows, owner, modelOf)
    ensures AllConsistent(Step(rows, op), owner, modelOf)
    ensures forall eui <- Step(rows, op) | eui !in rows && Step(rows, op)[eui].owner == owner :: Step(rows, op)[eui].snapshot.Some?
  {
    match op {
      case Create(_, tenant, req, w, now, _) =>
        if Created(req, tenant, w, now).Success? {
          CreateFits(req, tenant, w, now, modelOf);
        }
      case Update(eui, tenant, req, paths, w, now, _, _) =>
        if eui in rows && rows[eui].owner == owner {
          var mask := set p | p in paths;
          if Updated(rows[eui], req, mask, tenant, w, now).Success? {
            UpdateLosesFitExactlyWhen(rows[eui], req, mask, tenant, w, now, modelOf);
          }
        }
      case Bulk(euis, id, w, clock, access) =>
        BulkAssignOutcome(rows, euis, w, id, clock, access);
    }
  }

  /** In either mode, over every run: no snapshot is removed and no endpoint changes owner. */
  lemma {:induction false} RunKeepsSnapshots(rows: Rows, ops: seq<Operation>)
    ensures KeepsSnapshots(rows, Run(rows, ops))
    decreases ops
  {
    if ops != [] {
      StepKeepsSnapshots(rows, ops[0]);
      RunKeepsSnapshots(Step(rows, ops[0]), ops[1..]);
    }
  }

  /** In either mode, over every run: a snapshot's valid type EUI is the endpoint's type EUI. */
  lemma {:induction false} RunFollowsSnapshots(rows: Rows, ops: seq<Operation>)
    requires AllFollowSnapshots(rows)
    ensures AllFollowSnapshots(Run(rows, ops))
    decreases ops
  {
    if ops != [] {
      StepFollowsSnapshots(rows, ops[0]);
      RunFollowsSnapshots(Step(rows, ops[0]), ops[1..]);
    }
  }

  /**
   While an owner's switch stays on, whatever other tenants do: every endpoint
   created for the owner bears a snapshot, and every snapshot of the owner's
   endpoints fits its device model.
   */
  lemma {:induction false} RunUnderSnapshotOnly(rows: Rows, ops: seq<Operation>, owner: Tenant, modelOf: Uuid -> Uuid)
    requires forall op <- ops :: Agrees(op.w, modelOf) && StaysOn(op, owner)
    requires AllConsistent(rows, owner, modelOf)
    ensures AllConsistent(Run(rows, ops), owner, modelOf)
    ensures forall eui <- Run(rows, ops) | eui !in rows && Run(rows, ops)[eui].owner == owner :: Run(rows, ops)[eui].snapshot.Some?
    decreases ops
  {
    if ops != [] {
      var next := Step(rows, ops[0]);
      StepStaysConsistent(rows, ops[0], owner, modelOf);
      RunUnderSnapshotOnly(next, ops[1..], owner, modelOf);
      RunKeepsSnapshots(next, ops[1..]);
    }
  }

  /** Serves one request against the store: the endpoint is loaded or built, changed in place, and saved last. */
  method Serve(store: EndpointStore, op: Operation) returns (outcome: Outcome<Fault>)
    modifies store
    ensures store.rows == Step(old(store.rows), op)
    ensures outcome.Fail? && !op.Bulk? ==> store.rows == old(store.rows)
  {
    match op {
      case Create(eui, tenant, req, w, now, stored) =>
        var endpoint;
        outcome, endpoint := CreateEndPoint(eui, req, tenant, w, now);
        if outcome.Pass? {
          if !stored || eui in store.rows {
            return Fail(StoreFailed);
          }
          store.rows := store.rows[eui := endpoint.Row()];
        }
      case Update(eui, tenant, req, paths, w, now, found, saved) =>
        if !found || eui !in store.rows {
          return Fail(EndpointNotFound);
        }
        if paths == [] {
          return Fail(MaskRequired);
        }
        outcome := ValidateUpdateMask(paths);
        if outcome.Fail? {
          return;
        }
        var endpoint := new EndPoint(eui, store.rows[eui]);
        outcome := endpoint.ApplyUpdate(req, (set p | p in paths), tenant, w, now);
        if outcome.Pass? {
          if !saved {
            return Fail(StoreFailed);
          }
          store.rows := store.rows[eui := endpoint.Row()];
        }
      case Bulk(euis, id, w, clock, access) =>
        var result := store.RematerializeSnapshots(euis, w, id, clock, access);
        outcome := if result.Success? then Pass else Fail(result.fault);
    }
  }
}
