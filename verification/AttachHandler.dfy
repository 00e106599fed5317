/**
 Over-the-air attach on one base station connection: att opens an operation,
 passes every refusal exit of the handler or is persisted and answered with
 attRsp, and attCmp later completes and decides it. Attaches of the same endpoint
 heard by other stations may be persisted in between.
 */
module AttachHandler {
  import opened AttachCounter
  import opened Bytes
  import opened Wrappers

  const NWK_KEY_LENGTH := 16
  const SESSION_KEY_SIZE := 16
  const MAX_UINT16 := 0xFFFF

  // ----- messages and stored state -----

  /** A signature field of the one length validation admits. */
  type Sign = s: seq<Byte> | |s| == 4 witness [0, 0, 0, 0]

  /** A value of the 24-bit attach counter. */
  type Counter = n: nat | n <= 0xFFFFFF

  datatype Given<+T> = Missing | Invalid | Valid(value: T)

  /** The att fields the handler judges; an optional field that is absent counts as valid. */
  datatype Att = Att(
    epEui: Option<nat>,
    rxTime: Option<int>,
    attachCnt: Option<int>,
    snrValid: bool,
    rssiValid: bool,
    nonce: Given<seq<Byte>>,
    sign: Given<Sign>,
    eqSnrValid: bool,
    subpacketsValid: bool,
    shAddr: Option<int>
  )

  datatype Posix = EPROTO | EINVAL | EIO | EPERM

  datatype Token =
    | MissingEpEui | MissingRxTime | MissingAttachCnt | InvalidAttachCntRange | InvalidSnr | InvalidRssi
    | MissingNonce | InvalidNonce | MissingSign | InvalidSign | InvalidEqSnr | InvalidSubpackets | InvalidShAddr
    | EndpointNotProvisioned | OwnerLookupFailed | OperationFailed | RoamingNotAllowed | NwkSnKeyInvalidLength
    | AttachCounterNotMonotonic | InvalidSignature | DatabaseError
    | OperationIdNotPositive | OperationIdBackwards | OperationNotOpen

  datatype Refusal = Refusal(posix: Posix, token: Token)

  datatype Frame =
    | AttRsp(opId: int, nwkSnKey: seq<Byte>, shAddr: Option<nat>)
    | ErrorFrame(opId: int, refusal: Refusal)
    | Reply(opId: int)             // the answer of another command's handler

  datatype Endpoint = Endpoint(
    id: int,
    owner: int,
    nwkSnKey: seq<Byte>,
    attachCnt: Option<nat>,
    sign: seq<Byte>,
    shAddr: Option<nat>
  )

  /** What an accepted attach writes to the endpoint and its session. */
  datatype AttachRecord = AttachRecord(attachCnt: Counter, nonce: seq<Byte>, sign: Sign, key: seq<Byte>, shAddr: nat, station: nat)

  datatype EndpointSession = EndpointSession(key: seq<Byte>, attachCnt: nat, shAddr: nat, station: nat)

  datatype Stored = Stored(endpoints: map<nat, Endpoint>, sessions: map<nat, EndpointSession>)

  /** The record kept under an operation's ID until it completes. */
  datatype Pending = AttachOp(epEui: nat, endpointId: int, owner: int, attachCnt: nat) | DetachOp

  datatype Decision = Decision(opId: int, owner: int, endpointId: int, epEui: nat)

  /** One connection's attach state with the stored endpoints it shares with every other connection. */
  datatype Desk = Desk(
    station: nat,
    lastOpId: int,                 // newest base-station operation ID
    open: set<int>,                // base-station operations started and not completed
    pending: map<int, Pending>,    // base-station operations awaiting their completion
    stored: Stored,
    frames: seq<Frame>,            // frames sent, oldest first
    completions: seq<int>,         // operations an attCmp completed, oldest first
    decided: seq<Decision>,        // attachments decided, oldest first
    closed: bool                   // the connection has ended
  )

  datatype Transaction = Commits | LockFails | WriteFails

  /** The answers of everything a handler calls. */
  datatype Collaborators = Collaborators(
    ownerLookupFails: bool,
    recorded: bool,
    roamingAllowed: bool,
    signatureValid: (nat, nat, seq<Byte>, seq<Byte>) -> bool,
    deriveKey: (nat, seq<Byte>, seq<Byte>, seq<Byte>) -> Option<seq<Byte>>,
    races: seq<AttachRecord>,      // attaches of the endpoint other stations bring between check and persist
    tx: Transaction,
    removes: bool,                 // removing a pending operation succeeds
    sends: bool                    // writing the frame succeeds
  )

  // ----- the steps of the handler -----

  /** The first mandatory or malformed field that refuses an att, in the order the handler reads them. */
  function FieldRefusal(a: Att): Option<Refusal> {
    if a.epEui.None? then Some(Refusal(EPROTO, MissingEpEui))
    else if a.rxTime.None? then Some(Refusal(EPROTO, MissingRxTime))
    else if a.attachCnt.None? then Some(Refusal(EPROTO, MissingAttachCnt))
    else if a.attachCnt.value < 0 || a.attachCnt.value > BSSCI_WINDOW.max then Some(Refusal(EPROTO, InvalidAttachCntRange))
    else if !a.snrValid then Some(Refusal(EPROTO, InvalidSnr))
    else if !a.rssiValid then Some(Refusal(EPROTO, InvalidRssi))
    else if a.nonce.Missing? then Some(Refusal(EPROTO, MissingNonce))
    else if a.nonce.Invalid? then Some(Refusal(EPROTO, InvalidNonce))
    else if a.sign.Missing? then Some(Refusal(EPROTO, MissingSign))
    else if a.sign.Invalid? then Some(Refusal(EPROTO, InvalidSign))
    else if !a.eqSnrValid then Some(Refusal(EPROTO, InvalidEqSnr))
    else if !a.subpacketsValid then Some(Refusal(EPROTO, InvalidSubpackets))
    else if a.shAddr.Some? && (a.shAddr.value < 0 || a.shAddr.value > MAX_UINT16) then Some(Refusal(EINVAL, InvalidShAddr))
    else None
  }

  /** What an attach's counter is judged against: nothing before a signature was stored, that is before the first attach over the air. */
  function OverTheAirBound(e: Endpoint): Option<nat> {
    if e.sign == [] then None else e.attachCnt
  }

  /** The short address an accepted attach stores: the station's, else the endpoint's, else the low EUI bits. */
  function AssignedShAddr(a: Att, epEui: nat, e: Endpoint): nat
    requires FieldRefusal(a).None?
  {
    if a.shAddr.Some? then a.shAddr.value
    else if e.shAddr.Some? then e.shAddr.value
    else epEui % (MAX_UINT16 + 1)
  }

  /** What the handler concludes before persisting; `recorded` tells whether a pending operation must be taken back. */
  datatype Verdict = Refuse(refusal: Refusal, recorded: bool) | Serve(record: AttachRecord)

  function Judge(stored: Stored, station: nat, a: Att, c: Collaborators): Verdict {
    if FieldRefusal(a).Some? then Refuse(FieldRefusal(a).value, false)
    else if c.ownerLookupFails then Refuse(Refusal(EIO, OwnerLookupFailed), false)
    else if a.epEui.value !in stored.endpoints then Refuse(Refusal(EPROTO, EndpointNotProvisioned), false)
    else
      var e := stored.endpoints[a.epEui.value];
      var counter: nat := a.attachCnt.value;
      if !c.recorded then Refuse(Refusal(EIO, OperationFailed), false)
      else if !c.roamingAllowed then Refuse(Refusal(EPERM, RoamingNotAllowed), true)
      else if |e.nwkSnKey| != NWK_KEY_LENGTH then Refuse(Refusal(EPROTO, NwkSnKeyInvalidLength), true)
      else if !Advances(BSSCI_WINDOW, OverTheAirBound(e), counter) then Refuse(Refusal(EPROTO, AttachCounterNotMonotonic), true)
      else if !c.signatureValid(a.epEui.value, counter, a.sign.value, e.nwkSnKey) then Refuse(Refusal(EPROTO, InvalidSignature), true)
      else
        var key := c.deriveKey(a.epEui.value, a.nonce.value, a.sign.value, e.nwkSnKey);
        if key.None? then Refuse(Refusal(EPROTO, InvalidSignature), true)
        else Serve(AttachRecord(counter, a.nonce.value, a.sign.value, key.value, AssignedShAddr(a, a.epEui.value, e), station))
  }

  datatype PersistResult = Persisted | Stale | DatabaseFailed

  /** The attach transaction: under the row lock the counter rule is applied again, and all is written or nothing. */
  function PersistAttachSession(s: Stored, epEui: nat, r: AttachRecord, tx: Transaction): (Stored, PersistResult) {
    if tx.LockFails? || epEui !in s.endpoints then (s, DatabaseFailed)
    else if !Advances(BSSCI_WINDOW, OverTheAirBound(s.endpoints[epEui]), r.attachCnt) then (s, Stale)
    else if tx.WriteFails? then (s, DatabaseFailed)
    else
      var e := s.endpoints[epEui].(attachCnt := Some(r.attachCnt), sign := r.sign, shAddr := Some(r.shAddr));
      (Stored(s.endpoints[epEui := e], s.sessions[epEui := EndpointSession(r.key, r.attachCnt, r.shAddr, r.station)]), Persisted)
  }

  /** The stored state after the attaches other stations brought were persisted one by one. */
  function Raced(s: Stored, epEui: nat, races: seq<AttachRecord>): Stored
    decreases races
  {
    if races == [] then s else Raced(PersistAttachSession(s, epEui, races[0], Commits).0, epEui, races[1..])
  }

  /** The session key as the response carries it: exactly 16 bytes, padded with zeros. */
  function ResponseKey(key: seq<Byte>): seq<Byte> {
    seq(SESSION_KEY_SIZE, i requires 0 <= i => if i < |key| then key[i] else 0)
  }

  /** A handler whose frame cannot be written fails, and the connection ends. */
  function Sent(d: Desk, f: Frame, c: Collaborators): Desk {
    if c.sends then d.(frames := d.frames + [f]) else d.(closed := true)
  }

  /** A refusal after the operation was recorded takes the record back, if that succeeds. */
  function Refused(d: Desk, opId: int, p: Pending, refusal: Refusal, recorded: bool, c: Collaborators): Desk {
    var d' := if !recorded then d
              else if c.removes then d.(pending := d.pending - {opId})
              else d.(pending := d.pending[opId := p]);
    Sent(d', ErrorFrame(opId, refusal), c)
  }

  /** The desk after the attach transaction of a recorded att, and its answer. */
  function Concluded(d: Desk, opId: int, p: Pending, epEui: nat, r: AttachRecord, scAssigned: bool, c: Collaborators): Desk {
    var (stored, result) := PersistAttachSession(Raced(d.stored, epEui, c.races), epEui, r, c.tx);
    var d' := d.(stored := stored);
    match result
    case Stale => Refused(d', opId, p, Refusal(EPROTO, AttachCounterNotMonotonic), true, c)
    case DatabaseFailed => Refused(d', opId, p, Refusal(EPROTO, DatabaseError), true, c)
    case Persisted =>
      Sent(d'.(pending := d.pending[opId := p]),
           AttRsp(opId, ResponseKey(r.key), if scAssigned then Some(r.shAddr) else None), c)
  }

  function PendingOf(s: Stored, a: Att): Pending {
    if FieldRefusal(a).None? && a.epEui.value in s.endpoints
    then AttachOp(a.epEui.value, s.endpoints[a.epEui.value].id, s.endpoints[a.epEui.value].owner, a.attachCnt.value)
    else AttachOp(0, 0, 0, 0)
  }

  /** The desk after the att handler ran: it changes no sequencing and decides nothing. */
  function Answered(d: Desk, opId: int, a: Att, c: Collaborators): (after: Desk)
    ensures after.station == d.station && after.lastOpId == d.lastOpId && after.open == d.open
    ensures after.completions == d.completions && after.decided == d.decided
    ensures after.closed == (d.closed || !c.sends)
    ensures if c.sends then |after.frames| == |d.frames| + 1 && after.frames[..|d.frames|] == d.frames else after.frames == d.frames
    ensures c.sends ==> after.frames[|d.frames|].opId == opId && !after.frames[|d.frames|].Reply?
  {
    var p := PendingOf(d.stored, a);
    match Judge(d.stored, d.station, a, c)
    case Refuse(refusal, recorded) => Refused(d, opId, p, refusal, recorded, c)
    case Serve(r) => Concluded(d, opId, p, a.epEui.value, r, a.shAddr.None?, c)
  }

  /** Operation sequencing: an open operation may be initiated again, a new one needs a higher positive ID. */
  function OpenFault(d: Desk, opId: int): Option<Token> {
    if opId <= 0 then Some(OperationIdNotPositive)
    else if opId !in d.open && opId <= d.lastOpId then Some(OperationIdBackwards)
    else None
  }

  function CloseFault(d: Desk, opId: int): Option<Token> {
    if opId <= 0 then Some(OperationIdNotPositive)
    else if opId !in d.open then Some(OperationNotOpen)
    else None
  }

  function Started(d: Desk, opId: int): Desk {
    if opId in d.open then d else d.(lastOpId := opId, open := d.open + {opId})
  }

  /** A broken operation ID sequence ends an active connection after its error frame. */
  function OutOfSequence(d: Desk, opId: int, fault: Token, c: Collaborators): Desk {
    Sent(d, ErrorFrame(opId, Refusal(EPROTO, fault)), c).(closed := true)
  }

  /** The desk after an att arrived. Whatever happens it is answered by exactly one frame, for its own operation. */
  function AfterAtt(d: Desk, opId: int, a: Att, c: Collaborators): (after: Desk)
    ensures after.frames == d.frames || (|after.frames| == |d.frames| + 1 && after.frames[..|d.frames|] == d.frames)
    ensures after.frames != d.frames <==> c.sends
    ensures c.sends ==> after.frames[|d.frames|].opId == opId
  {
    var fault := OpenFault(d, opId);
    if fault.Some? then OutOfSequence(d, opId, fault.value, c)
    else Answered(Started(d, opId), opId, a, c)
  }

  /** The desk after an attCmp arrived; without an attach record it fails, and the connection ends. */
  function AfterAttCmp(d: Desk, opId: int, c: Collaborators): Desk {
    var fault := CloseFault(d, opId);
    if fault.Some? then OutOfSequence(d, opId, fault.value, c)
    else
      var d' := d.(open := d.open - {opId}, completions := d.completions + [opId]);
      if opId !in d.pending || !d.pending[opId].AttachOp? then d'.(closed := true)
      else
        var p := d.pending[opId];
        var d'' := if c.removes then d'.(pending := d.pending - {opId}) else d';
        if p.endpointId > 0 && p.epEui != 0
        then d''.(decided := d.decided + [Decision(opId, p.owner, p.endpointId, p.epEui)])
        else d''
  }

  // ----- what one att guarantees -----

  /** An attRsp was sent for this att. */
  predicate AnsweredBy(d: Desk, opId: int, a: Att, c: Collaborators) {
    c.sends && AfterAtt(d, opId, a, c).frames[|d.frames|].AttRsp?
  }

  /** The stored state the attach transaction locked. */
  function Locked(d: Desk, a: Att, c: Collaborators): Stored
    requires a.epEui.Some?
  {
    Raced(d.stored, a.epEui.value, c.races)
  }

  /**
   An attRsp is sent only after the counter advanced the one that was read, and the one
   the row lock read, and the signature validated.
   */
  lemma AttRspMeansVerified(d: Desk, opId: int, a: Att, c: Collaborators)
    requires AnsweredBy(d, opId, a, c)
    ensures FieldRefusal(a).None? && a.epEui.value in d.stored.endpoints && a.epEui.value in Locked(d, a, c).endpoints
    ensures var counter, before := a.attachCnt.value, d.stored.endpoints[a.epEui.value];
            && Advances(BSSCI_WINDOW, OverTheAirBound(before), counter)
            && Advances(BSSCI_WINDOW, OverTheAirBound(Locked(d, a, c).endpoints[a.epEui.value]), counter)
            && c.signatureValid(a.epEui.value, counter, a.sign.value, before.nwkSnKey)
    ensures Judge(d.stored, d.station, a, c).Serve?
    ensures PersistAttachSession(Locked(d, a, c), a.epEui.value, Judge(d.stored, d.station, a, c).record, c.tx).1 == Persisted
  {
  }

  lemma {:induction false} RacesLeaveOthers(s: Stored, epEui: nat, races: seq<AttachRecord>)
    ensures Raced(s, epEui, races).endpoints - {epEui} == s.endpoints - {epEui}
    ensures Raced(s, epEui, races).sessions - {epEui} == s.sessions - {epEui}
    decreases races
  {
    if races != [] {
      var next := PersistAttachSession(s, epEui, races[0], Commits).0;
      assert next.endpoints - {epEui} == s.endpoints - {epEui} && next.sessions - {epEui} == s.sessions - {epEui};
      RacesLeaveOthers(next, epEui, races[1..]);
    }
  }

  /**
   An attRsp is sent only after the session was persisted: with the counter and
   signature of the att and the key derived from it, and nothing else of the endpoint or
   of any other changed. The response carries that key in 16 bytes, cut or padded with
   zeros, and the short address exactly when the station reported none; that address is
   the station's, else the endpoint's, else the low bits of the EUI. The operation is
   pending.
   */
  lemma AttRspMeansPersisted(d: Desk, opId: int, a: Att, c: Collaborators)
    requires AnsweredBy(d, opId, a, c)
    ensures a.epEui.Some? && a.attachCnt.Some? && a.sign.Valid? && a.nonce.Valid? && a.epEui.value in d.stored.endpoints
    ensures var after, epEui, counter := AfterAtt(d, opId, a, c), a.epEui.value, a.attachCnt.value;
            && epEui in after.stored.endpoints && epEui in after.stored.sessions && opId in after.pending
            && epEui in Locked(d, a, c).endpoints
            && var endpoint, session, response := after.stored.endpoints[epEui], after.stored.sessions[epEui], after.frames[|d.frames|];
               && endpoint.attachCnt == Some(counter) && endpoint.sign == a.sign.value && endpoint.shAddr == Some(session.shAddr)
               && session.attachCnt == counter && session.station == d.station
               && Some(session.key) == c.deriveKey(epEui, a.nonce.value, a.sign.value, d.stored.endpoints[epEui].nwkSnKey)
               && endpoint == Locked(d, a, c).endpoints[epEui].(attachCnt := Some(counter), sign := a.sign.value, shAddr := Some(session.shAddr))
               && after.stored.endpoints - {epEui} == d.stored.endpoints - {epEui}
               && after.stored.sessions - {epEui} == d.stored.sessions - {epEui}
               && session.shAddr == (if a.shAddr.Some? then a.shAddr.value
                                     else if d.stored.endpoints[epEui].shAddr.Some? then d.stored.endpoints[epEui].shAddr.value
                                     else epEui % 0x1_0000)
               && response.opId == opId && |response.nwkSnKey| == 16
               && (forall i | 0 <= i < 16 :: response.nwkSnKey[i] == if i < |session.key| then session.key[i] else 0)
               && response.shAddr == (if a.shAddr.Some? then None else Some(session.shAddr))
  {
    AttRspMeansVerified(d, opId, a, c);
    RacesLeaveOthers(d.stored, a.epEui.value, c.races);
  }

  /** An error frame was sent for this att. */
  predicate RefusedBy(d: Desk, opId: int, a: Att, c: Collaborators) {
    c.sends && AfterAtt(d, opId, a, c).frames[|d.frames|].ErrorFrame?
  }

  /** A refused att leaves the stored counters and sessions as the other stations' attaches left them. */
  lemma RefusalLeavesStored(d: Desk, opId: int, a: Att, c: Collaborators)
    requires RefusedBy(d, opId, a, c)
    ensures AfterAtt(d, opId, a, c).stored == d.stored
            || (a.epEui.Some? && AfterAtt(d, opId, a, c).stored == Raced(d.stored, a.epEui.value, c.races))
    ensures c.races == [] ==> AfterAtt(d, opId, a, c).stored == d.stored
  {
  }

  /** A refused att leaves nothing new pending. */
  lemma RefusalLeavesNothingPending(d: Desk, opId: int, a: Att, c: Collaborators)
    requires RefusedBy(d, opId, a, c) && c.removes
    ensures AfterAtt(d, opId, a, c).pending == d.pending || AfterAtt(d, opId, a, c).pending == d.pending - {opId}
  {
  }

  // ----- other messages that use a base-station operation's ID -----

  /** det opens its operation, or initiates an open one again; what it records goes under that ID. */
  function AfterDet(d: Desk, opId: int, journaled: bool, c: Collaborators): Desk {
    var fault := OpenFault(d, opId);
    if fault.Some? then OutOfSequence(d, opId, fault.value, c)
    else
      var d' := Started(d, opId);
      Sent(if journaled then d'.(pending := d'.pending[opId := DetachOp]) else d', Reply(opId), c)
  }

  /** detCmp closes the operation and removes a detach record; on any other it fails. */
  function AfterDetCmp(d: Desk, opId: int, c: Collaborators): Desk {
    var fault := CloseFault(d, opId);
    if fault.Some? then OutOfSequence(d, opId, fault.value, c)
    else
      var d' := d.(open := d.open - {opId});
      if opId !in d.pending || !d.pending[opId].DetachOp? then d'.(closed := true)
      else if c.removes then d'.(pending := d.pending - {opId})
      else d'
  }

  /** dlDataResCmp closes the operation and removes whatever is recorded under its ID. */
  function AfterResultCmp(d: Desk, opId: int, c: Collaborators): Desk {
    var fault := CloseFault(d, opId);
    if fault.Some? then OutOfSequence(d, opId, fault.value, c)
    else
      var d' := d.(open := d.open - {opId});
      if c.removes then d'.(pending := d.pending - {opId}) else d'
  }

  function Ended(d: Desk, opId: int): Desk {
    if opId > 0 then d.(open := d.open - {opId}) else d
  }

  /** error ends the operation; once acknowledged its record is removed. */
  function AfterError(d: Desk, opId: int, c: Collaborators): Desk {
    var d' := Sent(Ended(d, opId), Reply(opId), c);
    if c.sends && c.removes then d'.(pending := d.pending - {opId}) else d'
  }
}
