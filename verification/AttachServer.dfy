/** The handlers of one active connection as they run, each tied to what it leaves. */
module AttachServer {
  import AttachCounter
  import opened AttachHandler
  import opened AttachRuns
  import opened Wrappers

  /** What a refusal leaves does not depend on what was recorded under the ID before. */
  lemma RecordingFirst(d: Desk, opId: int, p: Pending, refusal: Refusal, c: Collaborators)
    ensures Refused(d.(pending := d.pending[opId := p]), opId, p, refusal, true, c) == Refused(d, opId, p, refusal, true, c)
  {
    assert d.pending[opId := p] - {opId} == d.pending - {opId};
  }

  lemma ConcludingRecorded(d: Desk, opId: int, p: Pending, epEui: nat, r: AttachRecord, scAssigned: bool, c: Collaborators)
    ensures Concluded(d.(pending := d.pending[opId := p]), opId, p, epEui, r, scAssigned, c)
            == Concluded(d, opId, p, epEui, r, scAssigned, c)
  {
    assert d.pending[opId := p] - {opId} == d.pending - {opId};
  }

  class Connection {
    const station: nat
    var lastOpId: int
    var open: set<int>
    var pending: map<int, Pending>
    var stored: Stored
    var frames: seq<Frame>
    var completions: seq<int>
    var decided: seq<Decision>
    var closed: bool

    /** A connection that completed its handshake, with the base-station operations its session resumed. */
    constructor (station: nat, lastOpId: nat, stored: Stored, resumed: map<int, Pending>)
      requires forall opId <- resumed :: 0 < opId <= lastOpId
      ensures Fresh(View()) && View().stored == stored && View().station == station && View().pending == resumed
      ensures View().open == resumed.Keys + (if lastOpId > 0 then {lastOpId} else {})
    {
      this.station, this.lastOpId, this.stored, pending := station, lastOpId, stored, resumed;
      open := resumed.Keys + (if lastOpId > 0 then {lastOpId} else {});
      frames, completions, decided, closed := [], [], [], false;
    }

    function View(): Desk
      reads this
    {
      Desk(station, lastOpId, open, pending, stored, frames, completions, decided, closed)
    }

    method Send(f: Frame, c: Collaborators)
      modifies this`frames, this`closed
      ensures View() == Sent(old(View()), f, c)
    {
      if c.sends {
        frames := frames + [f];
      } else {
        closed := true;
      }
    }

    /** Takes a recorded operation back and answers with the error. */
    method RefuseRecorded(opId: int, refusal: Refusal, c: Collaborators)
      requires opId in pending
      modifies this`frames, this`pending, this`closed
      ensures View() == Refused(old(View()), opId, old(pending[opId]), refusal, true, c)
    {
      if c.removes {
        pending := pending - {opId};
      }
      Send(ErrorFrame(opId, refusal), c);
      assert old(pending)[opId := old(pending[opId])] == old(pending);
    }

    /** Judges an att that was recorded: roaming, the stored key, the counter, the signature and the derived key, in that order. */
    method JudgeRecorded(a: Att, c: Collaborators) returns (verdict: Verdict)
      requires FieldRefusal(a).None? && !c.ownerLookupFails && a.epEui.value in stored.endpoints && c.recorded
      ensures verdict == Judge(stored, station, a, c)
    {
      var epEui, e := a.epEui.value, stored.endpoints[a.epEui.value];
      var counter: Counter := a.attachCnt.value;
      if !c.roamingAllowed {
        return Refuse(Refusal(EPERM, RoamingNotAllowed), true);
      }
      if |e.nwkSnKey| != NWK_KEY_LENGTH {
        return Refuse(Refusal(EPROTO, NwkSnKeyInvalidLength), true);
      }
      if !AttachCounter.Advances(AttachCounter.BSSCI_WINDOW, OverTheAirBound(e), counter) {
        return Refuse(Refusal(EPROTO, AttachCounterNotMonotonic), true);
      }
      if !c.signatureValid(epEui, counter, a.sign.value, e.nwkSnKey) {
        return Refuse(Refusal(EPROTO, InvalidSignature), true);
      }
      var key := c.deriveKey(epEui, a.nonce.value, a.sign.value, e.nwkSnKey);
      if key.None? {
        return Refuse(Refusal(EPROTO, InvalidSignature), true);
      }
      return Verdict.Serve(AttachRecord(counter, a.nonce.value, a.sign.value, key.value, AssignedShAddr(a, epEui, e), station));
    }

    method HandleAttach(opId: int, a: Att, c: Collaborators)
      modifies this
      ensures View() == Answered(old(View()), opId, a, c)
    {
      var malformed := FieldRefusal(a);
      if malformed.Some? {
        Send(ErrorFrame(opId, malformed.value), c);
        return;
      }
      var epEui := a.epEui.value;
      if c.ownerLookupFails {
        Send(ErrorFrame(opId, Refusal(EIO, OwnerLookupFailed)), c);
        return;
      }
      if epEui !in stored.endpoints {
        Send(ErrorFrame(opId, Refusal(EPROTO, EndpointNotProvisioned)), c);
        return;
      }
      if !c.recorded {
        Send(ErrorFrame(opId, Refusal(EIO, OperationFailed)), c);
        return;
      }
      var e := stored.endpoints[epEui];
      pending := pending[opId := AttachOp(epEui, e.id, e.owner, a.attachCnt.value)];
      var verdict := JudgeRecorded(a, c);
      match verdict {
        case Refuse(refusal, _) =>
          RecordingFirst(old(View()), opId, pending[opId], refusal, c);
          RefuseRecorded(opId, refusal, c);
        case Serve(record) =>
          ConcludingRecorded(old(View()), opId, pending[opId], epEui, record, a.shAddr.None?, c);
          PersistAndAnswer(opId, epEui, record, a.shAddr.None?, c);
      }
    }

    /** Runs the attach transaction and answers with what it concluded. */
    method PersistAndAnswer(opId: int, epEui: nat, record: AttachRecord, scAssigned: bool, c: Collaborators)
      requires opId in pending
      modifies this`stored, this`pending, this`frames, this`closed
      ensures View() == Concluded(old(View()), opId, old(pending[opId]), epEui, record, scAssigned, c)
    {
      var (written, result) := PersistAttachSession(Raced(stored, epEui, c.races), epEui, record, c.tx);
      stored := written;
      match result {
        case Stale => RefuseRecorded(opId, Refusal(EPROTO, AttachCounterNotMonotonic), c);
        case DatabaseFailed => RefuseRecorded(opId, Refusal(EPROTO, DatabaseError), c);
        case Persisted => Send(AttRsp(opId, ResponseKey(record.key), if scAssigned then Some(record.shAddr) else None), c);
      }
      assert old(pending)[opId := old(pending[opId])] == old(pending);
    }

    /** A broken operation ID sequence is answered and ends the connection. */
    method RejectSequence(opId: int, fault: Token, c: Collaborators)
      modifies this`frames, this`closed
      ensures View() == OutOfSequence(old(View()), opId, fault, c)
    {
      Send(ErrorFrame(opId, Refusal(EPROTO, fault)), c);
      closed := true;
    }

    /** Admits an opening message's operation ID, or ends the connection. */
    method StartOperation(opId: int, c: Collaborators) returns (admitted: bool)
      modifies this`lastOpId, this`open, this`frames, this`closed
      ensures admitted <==> OpenFault(old(View()), opId).None?
      ensures View() == if admitted then Started(old(View()), opId) else OutOfSequence(old(View()), opId, OpenFault(old(View()), opId).value, c)
    {
      if opId <= 0 {
        RejectSequence(opId, OperationIdNotPositive, c);
        return false;
      }
      if opId in open {
        return true;
      }
      if opId <= lastOpId {
        RejectSequence(opId, OperationIdBackwards, c);
        return false;
      }
      lastOpId := opId;
      open := open + {opId};
      return true;
    }

    /** Closes the operation a completion names, or ends the connection. */
    method CompleteOperation(opId: int, c: Collaborators) returns (admitted: bool)
      modifies this`open, this`frames, this`closed
      ensures admitted <==> CloseFault(old(View()), opId).None?
      ensures View() == if admitted then old(View()).(open := old(open) - {opId})
                        else OutOfSequence(old(View()), opId, CloseFault(old(View()), opId).value, c)
    {
      if opId <= 0 {
        RejectSequence(opId, OperationIdNotPositive, c);
        return false;
      }
      if opId !in open {
        RejectSequence(opId, OperationNotOpen, c);
        return false;
      }
      open := open - {opId};
      return true;
    }

    /** Sequences an att and hands it to its handler. */
    method ReceiveAtt(opId: int, a: Att, c: Collaborators)
      modifies this
      ensures View() == AfterAtt(old(View()), opId, a, c)
    {
      var admitted := StartOperation(opId, c);
      if admitted {
        HandleAttach(opId, a, c);
      }
    }

    /** Sequences an attCmp; the completion it makes decides the pending attachment, and without one it fails. */
    method ReceiveAttCmp(opId: int, c: Collaborators)
      modifies this
      ensures View() == AfterAttCmp(old(View()), opId, c)
    {
      var admitted := CompleteOperation(opId, c);
      if !admitted {
        return;
      }
      completions := completions + [opId];
      if opId !in pending || !pending[opId].AttachOp? {
        closed := true;
        return;
      }
      var p := pending[opId];
      if c.removes {
        pending := pending - {opId};
      }
      if p.endpointId > 0 && p.epEui != 0 {
        decided := decided + [Decision(opId, p.owner, p.endpointId, p.epEui)];
      }
    }

    method ReceiveDet(opId: int, journaled: bool, c: Collaborators)
      modifies this
      ensures View() == AfterDet(old(View()), opId, journaled, c)
    {
      var admitted := StartOperation(opId, c);
      if !admitted {
        return;
      }
      if journaled {
        pending := pending[opId := DetachOp];
      }
      Send(Reply(opId), c);
    }

    method ReceiveDetCmp(opId: int, c: Collaborators)
      modifies this
      ensures View() == AfterDetCmp(old(View()), opId, c)
    {
      var admitted := CompleteOperation(opId, c);
      if !admitted {
        return;
      }
      if opId !in pending || !pending[opId].DetachOp? {
        closed := true;
      } else if c.removes {
        pending := pending - {opId};
      }
    }

    method ReceiveResultCmp(opId: int, c: Collaborators)
      modifies this
      ensures View() == AfterResultCmp(old(View()), opId, c)
    {
      var admitted := CompleteOperation(opId, c);
      if admitted && c.removes {
        pending := pending - {opId};
      }
    }

    method EndOperation(opId: int)
      modifies this`open
      ensures View() == Ended(old(View()), opId)
    {
      if opId > 0 {
        open := open - {opId};
      }
    }

    /** An error ends the operation; acknowledged, it also finalizes what is recorded under the ID. */
    method ReceiveError(opId: int, c: Collaborators)
      modifies this
      ensures View() == AfterError(old(View()), opId, c)
    {
      EndOperation(opId);
      Send(Reply(opId), c);
      if !c.sends {
        return;
      }
      if opId in pending {
        if c.removes {
          pending := pending - {opId};
        }
      }
      assert opId !in old(pending) ==> old(pending) - {opId} == old(pending);
    }

    method Receive(e: Event)
      modifies this
      ensures View() == After(old(View()), e)
    {
      if e.AttachedElsewhere? {
        var (written, _) := PersistAttachSession(stored, e.epEui, e.r, Commits);
        stored := written;
        return;
      }
      if closed {
        return;
      }
      match e {
        case AttArrives(opId, a, c) => ReceiveAtt(opId, a, c);
        case AttCmpArrives(opId, c) => ReceiveAttCmp(opId, c);
        case DetArrives(opId, journaled, c) => ReceiveDet(opId, journaled, c);
        case DetCmpArrives(opId, c) => ReceiveDetCmp(opId, c);
        case ResultCmpArrives(opId, c) => ReceiveResultCmp(opId, c);
        case ErrorArrives(opId, c) => ReceiveError(opId, c);
        case ErrorAckArrives(opId) => EndOperation(opId);
        case Opens(opId, c) =>
          var admitted := StartOperation(opId, c);
          if admitted {
            Send(Reply(opId), c);
          }
        case Closes(opId, c) =>
          var _ := CompleteOperation(opId, c);
        case AttachedElsewhere(_, _) =>
        case ConnectionLost => closed := true;
      }
    }

    /** The connection's messages in turn. */
    method Serve(events: seq<Event>)
      modifies this
      ensures View() == Run(old(View()), events)
    {
      for i := 0 to |events|
        invariant View() == Run(old(View()), events[..i])
      {
        assert events[..i + 1][..i] == events[..i];
        Receive(events[i]);
      }
      assert events[..|events|] == events;
    }
  }
}
