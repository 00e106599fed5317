/**
 What single messages do to a connection's attach operations, in the terms of the
 message, the stored endpoints and the collaborators' answers.
 */
module AttachLaws {
  import opened AttachCounter
  import opened AttachHandler
  import AttachRuns
  import opened Bytes
  import opened Wrappers

  // ----- att -----

  /** Every mandatory field is given, and every field given is valid. */
  predicate WellFormed(a: Att) {
    && a.epEui.Some? && a.rxTime.Some? && a.attachCnt.Some? && 0 <= a.attachCnt.value <= 0xFFFFFF
    && a.snrValid && a.rssiValid && a.nonce.Valid? && a.sign.Valid? && a.eqSnrValid && a.subpacketsValid
    && (a.shAddr.Some? ==> 0 <= a.shAddr.value <= 0xFFFF)
  }

  /** The endpoint attached over the air before, with a counter the new one neither exceeds nor rolls over. */
  predicate Outdates(e: Endpoint, counter: int) {
    && e.sign != [] && e.attachCnt.Some?
    && counter <= e.attachCnt.value && (e.attachCnt.value <= 0xFFFF00 || counter >= 0x100)
  }

  /** The att is recorded: its fields are valid, its endpoint is found and the journal writes. */
  predicate IsRecorded(d: Desk, a: Att, c: Collaborators) {
    WellFormed(a) && !c.ownerLookupFails && a.epEui.value in d.stored.endpoints && c.recorded
  }

  /** Roaming, the stored key, the counter, the signature or the attach transaction refuses the recorded att. */
  predicate RefusesRecorded(d: Desk, a: Att, c: Collaborators)
    requires IsRecorded(d, a, c)
  {
    var epEui, counter, e := a.epEui.value, a.attachCnt.value, d.stored.endpoints[a.epEui.value];
    || !c.roamingAllowed
    || |e.nwkSnKey| != 16
    || Outdates(e, counter)
    || !c.signatureValid(epEui, counter, a.sign.value, e.nwkSnKey)
    || c.deriveKey(epEui, a.nonce.value, a.sign.value, e.nwkSnKey).None?
    || !c.tx.Commits?
    || epEui !in Locked(d, a, c).endpoints
    || Outdates(Locked(d, a, c).endpoints[epEui], counter)
  }

  /** The operation ID may open an operation: it is open already, or higher than every earlier one. */
  predicate MayOpen(d: Desk, opId: int) {
    opId > 0 && (opId in d.open || opId > d.lastOpId)
  }

  predicate MayClose(d: Desk, opId: int) {
    opId > 0 && opId in d.open
  }

  /** The fault of an att that is not well-formed: the first field, in the order they are read, that is missing or invalid. */
  predicate MalformedFor(a: Att, r: Refusal) {
    if a.epEui.None? then r == Refusal(EPROTO, MissingEpEui)
    else if a.rxTime.None? then r == Refusal(EPROTO, MissingRxTime)
    else if a.attachCnt.None? then r == Refusal(EPROTO, MissingAttachCnt)
    else if !(0 <= a.attachCnt.value <= 0xFFFFFF) then r == Refusal(EPROTO, InvalidAttachCntRange)
    else if !a.snrValid then r == Refusal(EPROTO, InvalidSnr)
    else if !a.rssiValid then r == Refusal(EPROTO, InvalidRssi)
    else if !a.nonce.Valid? then r == Refusal(EPROTO, if a.nonce.Missing? then MissingNonce else InvalidNonce)
    else if !a.sign.Valid? then r == Refusal(EPROTO, if a.sign.Missing? then MissingSign else InvalidSign)
    else if !a.eqSnrValid then r == Refusal(EPROTO, InvalidEqSnr)
    else if !a.subpacketsValid then r == Refusal(EPROTO, InvalidSubpackets)
    else r == Refusal(EINVAL, InvalidShAddr)
  }

  lemma FieldsAreJudged(a: Att)
    ensures FieldRefusal(a).None? <==> WellFormed(a)
    ensures FieldRefusal(a).Some? ==> MalformedFor(a, FieldRefusal(a).value)
  {
  }

  lemma CounterIsJudged(e: Endpoint, counter: int)
    ensures Advances(BSSCI_WINDOW, OverTheAirBound(e), counter) <==> !Outdates(e, counter)
  {
  }

  /** The fault of a well-formed att: its owner or endpoint is not found, it is not recorded, or a later exit refuses it. */
  predicate TurnedAwayFor(d: Desk, a: Att, c: Collaborators, r: Refusal)
    requires WellFormed(a)
  {
    if c.ownerLookupFails then r == Refusal(EIO, OwnerLookupFailed)
    else if a.epEui.value !in d.stored.endpoints then r == Refusal(EPROTO, EndpointNotProvisioned)
    else if !c.recorded then r == Refusal(EIO, OperationFailed)
    else
      var epEui, counter, e := a.epEui.value, a.attachCnt.value, d.stored.endpoints[a.epEui.value];
      if !c.roamingAllowed then r == Refusal(EPERM, RoamingNotAllowed)
      else if |e.nwkSnKey| != 16 then r == Refusal(EPROTO, NwkSnKeyInvalidLength)
      else if Outdates(e, counter) then r == Refusal(EPROTO, AttachCounterNotMonotonic)
      else if !c.signatureValid(epEui, counter, a.sign.value, e.nwkSnKey) then r == Refusal(EPROTO, InvalidSignature)
      else if c.deriveKey(epEui, a.nonce.value, a.sign.value, e.nwkSnKey).None? then r == Refusal(EPROTO, InvalidSignature)
      else if c.tx.LockFails? || epEui !in Locked(d, a, c).endpoints then r == Refusal(EPROTO, DatabaseError)
      else if Outdates(Locked(d, a, c).endpoints[epEui], counter) then r == Refusal(EPROTO, AttachCounterNotMonotonic)
      else r == Refusal(EPROTO, DatabaseError)
  }

  /** Judging and then persisting a recorded att refuses it exactly when one of the later exits does. */
  lemma RecordedIsJudged(d: Desk, a: Att, c: Collaborators)
    requires IsRecorded(d, a, c)
    ensures FieldRefusal(a).None?
    ensures var verdict := Judge(d.stored, d.station, a, c);
            && (verdict.Refuse? ==> verdict.recorded && RefusesRecorded(d, a, c))
            && (verdict.Serve? ==> (RefusesRecorded(d, a, c) <==>
                                    PersistAttachSession(Locked(d, a, c), a.epEui.value, verdict.record, c.tx).1 != Persisted))
  {
    FieldsAreJudged(a);
    CounterIsJudged(d.stored.endpoints[a.epEui.value], a.attachCnt.value);
    if a.epEui.value in Locked(d, a, c).endpoints {
      CounterIsJudged(Locked(d, a, c).endpoints[a.epEui.value], a.attachCnt.value);
    }
  }

  /** An att that can be answered is answered with attRsp exactly when its ID is in sequence, it is recorded, and no later exit refuses it. */
  lemma AcceptedUnlessRefused(d: Desk, opId: int, a: Att, c: Collaborators)
    requires c.sends
    ensures AfterAtt(d, opId, a, c).frames[|d.frames|].AttRsp? <==> MayOpen(d, opId) && IsRecorded(d, a, c) && !RefusesRecorded(d, a, c)
  {
    if MayOpen(d, opId) {
      if IsRecorded(d, a, c) {
        RecordedIsJudged(d, a, c);
      } else {
        FieldsAreJudged(a);
      }
    }
  }

  /** An att out of sequence, or malformed, is answered with an error frame that names its fault. */
  lemma MalformedAttNamesItsFault(d: Desk, opId: int, a: Att, c: Collaborators)
    requires c.sends && (!MayOpen(d, opId) || !WellFormed(a))
    ensures var f := AfterAtt(d, opId, a, c).frames[|d.frames|];
            && f.ErrorFrame? && f.opId == opId
            && if opId <= 0 then f.refusal == Refusal(EPROTO, OperationIdNotPositive)
               else if !MayOpen(d, opId) then f.refusal == Refusal(EPROTO, OperationIdBackwards)
               else MalformedFor(a, f.refusal)
  {
    FieldsAreJudged(a);
  }

  /** A well-formed att in sequence that is not answered with attRsp is answered with an error frame that names its fault. */
  lemma RefusedAttNamesItsFault(d: Desk, opId: int, a: Att, c: Collaborators)
    requires RefusedBy(d, opId, a, c) && MayOpen(d, opId) && WellFormed(a)
    ensures var f := AfterAtt(d, opId, a, c).frames[|d.frames|];
            f.opId == opId && TurnedAwayFor(d, a, c, f.refusal)
  {
    FieldsAreJudged(a);
    if IsRecorded(d, a, c) {
      CounterIsJudged(d.stored.endpoints[a.epEui.value], a.attachCnt.value);
      if a.epEui.value in Locked(d, a, c).endpoints {
        CounterIsJudged(Locked(d, a, c).endpoints[a.epEui.value], a.attachCnt.value);
      }
    }
  }

  lemma UnrecordedAttChangesNoRecord(d: Desk, opId: int, a: Att, c: Collaborators)
    requires !MayOpen(d, opId) || !IsRecorded(d, a, c)
    ensures AfterAtt(d, opId, a, c).pending == d.pending
  {
    FieldsAreJudged(a);
  }

  /** What a recorded att leaves under its ID: nothing, if it is refused and can be taken back. */
  lemma RecordedAttLeaves(d: Desk, opId: int, a: Att, c: Collaborators)
    requires MayOpen(d, opId) && IsRecorded(d, a, c)
    ensures AfterAtt(d, opId, a, c).pending == if RefusesRecorded(d, a, c) && c.removes then d.pending - {opId}
                                               else d.pending[opId := PendingOf(d.stored, a)]
  {
    RecordedIsJudged(d, a, c);
    var started := Started(d, opId);
    assert started.pending == d.pending && started.stored == d.stored && started.station == d.station;
    assert AfterAtt(d, opId, a, c) == Answered(started, opId, a, c);
  }

  /** What an att records under its ID: one that is refused is taken back, and stays if that fails. */
  lemma RecordsAfterAtt(d: Desk, opId: int, a: Att, c: Collaborators)
    ensures var after := AfterAtt(d, opId, a, c).pending;
            if !MayOpen(d, opId) || !IsRecorded(d, a, c) then after == d.pending
            else
              var e := d.stored.endpoints[a.epEui.value];
              if RefusesRecorded(d, a, c) && c.removes then after == d.pending - {opId}
              else after == d.pending[opId := AttachOp(a.epEui.value, e.id, e.owner, a.attachCnt.value)]
  {
    if !MayOpen(d, opId) || !IsRecorded(d, a, c) {
      UnrecordedAttChangesNoRecord(d, opId, a, c);
    } else {
      FieldsAreJudged(a);
      RecordedAttLeaves(d, opId, a, c);
    }
  }

  // ----- operation IDs and the end of a connection -----

  /** Every message that opens an operation. */
  predicate OpensOperation(e: AttachRuns.Event) {
    e.AttArrives? || e.DetArrives? || e.Opens?
  }

  /** Every message that completes an operation. */
  predicate ClosesOperation(e: AttachRuns.Event) {
    e.AttCmpArrives? || e.DetCmpArrives? || e.ResultCmpArrives? || e.Closes?
  }

  lemma OpenAfterAtt(d: Desk, opId: int, a: Att, c: Collaborators)
    ensures AfterAtt(d, opId, a, c).open == if MayOpen(d, opId) then d.open + {opId} else d.open
    ensures AfterAtt(d, opId, a, c).lastOpId == if MayOpen(d, opId) && opId !in d.open then opId else d.lastOpId
    ensures AfterAtt(d, opId, a, c).closed == (d.closed || !c.sends || !MayOpen(d, opId))
  {
  }

  /**
   The open operations after a message: an opening message in sequence adds its own, a
   completion in sequence and an error exchange remove it, and nothing else changes them;
   the newest ID is that of the newest operation.
   */
  lemma OpenOperationsAfter(d: Desk, e: AttachRuns.Event)
    requires !d.closed
    ensures AttachRuns.After(d, e).open == (if OpensOperation(e) && MayOpen(d, e.opId) then d.open + {e.opId}
                                 else if ClosesOperation(e) && MayClose(d, e.opId) then d.open - {e.opId}
                                 else if (e.ErrorArrives? || e.ErrorAckArrives?) && e.opId > 0 then d.open - {e.opId}
                                 else d.open)
    ensures AttachRuns.After(d, e).lastOpId == (if OpensOperation(e) && MayOpen(d, e.opId) && e.opId !in d.open then e.opId else d.lastOpId)
  {
    if e.AttArrives? {
      OpenAfterAtt(d, e.opId, e.att, e.c);
    }
  }

  /** The record a completion needs is there. */
  predicate HasItsRecord(d: Desk, e: AttachRuns.Event) {
    && (e.AttCmpArrives? ==> e.opId in d.pending && d.pending[e.opId].AttachOp?)
    && (e.DetCmpArrives? ==> e.opId in d.pending && d.pending[e.opId].DetachOp?)
  }

  /**
   The records after any other message: a det in sequence may record its own, a completion
   in sequence removes the one it completes, a dlDataResCmp and an acknowledged error
   remove whatever is under their ID, and a removal that fails leaves it.
   */
  lemma RecordsAfter(d: Desk, e: AttachRuns.Event)
    requires !d.closed && !e.AttArrives?
    ensures AttachRuns.After(d, e).pending ==
            match e
            case DetArrives(opId, journaled, _) => if MayOpen(d, opId) && journaled then d.pending[opId := DetachOp] else d.pending
            case AttCmpArrives(opId, c) => if MayClose(d, opId) && HasItsRecord(d, e) && c.removes then d.pending - {opId} else d.pending
            case DetCmpArrives(opId, c) => if MayClose(d, opId) && HasItsRecord(d, e) && c.removes then d.pending - {opId} else d.pending
            case ResultCmpArrives(opId, c) => if MayClose(d, opId) && c.removes then d.pending - {opId} else d.pending
            case ErrorArrives(opId, c) => if c.sends && c.removes then d.pending - {opId} else d.pending
            case _ => d.pending
  {
  }

  /** A connection ends exactly on a broken ID sequence, a completion without its record, an answer that cannot be written, or when it is lost. */
  lemma ConnectionEndsExactlyWhen(d: Desk, e: AttachRuns.Event)
    requires !d.closed
    ensures AttachRuns.After(d, e).closed <==>
            || e.ConnectionLost?
            || (OpensOperation(e) && (!MayOpen(d, e.opId) || !e.c.sends))
            || (ClosesOperation(e) && (!MayClose(d, e.opId) || !HasItsRecord(d, e)))
            || (e.ErrorArrives? && !e.c.sends)
  {
    if e.AttArrives? {
      OpenAfterAtt(d, e.opId, e.att, e.c);
    }
  }
}
