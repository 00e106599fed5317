/**
 The server's side of one connection: its handlers update the session in place
 and answer whether they failed, which closes the connection. Every method is
 tied to the step function of Handshake that says what it leaves.
 */
module HandshakeServer {
  import opened Codec
  import opened CommandRegistry
  import opened ConnectLog
  import opened Handshake
  import opened Reissue
  import opened Wrappers

  lemma Regroup(a: seq<Effect>, b: seq<Effect>, c: seq<Effect>)
    ensures (a + b) + c == a + (b + c)
  {
  }

  lemma StepsAddUp(cfg: Config, t: Terms, ops: seq<PendingOp>, w: World, log: seq<Effect>)
    requires t.station.Some? && w.persists && w.registers
    ensures log + PublishingSteps(t) + FinishingSteps(cfg, t) + Resumption(cfg, ops, w.writes) == log + CompletionSteps(cfg, t, ops, w)
  {
    Regroup(log, PublishingSteps(t), FinishingSteps(cfg, t));
    Regroup(log, Activation(cfg, t), Resumption(cfg, ops, w.writes));
  }

  class Session {
    const cfg: Config

    var connectState: ConnectState
    var handshakeComplete: bool
    var closed: bool
    var baseStationEui: nat
    var clientVersion: string
    var negotiatedVersion: string
    var bidirectional: bool
    var geoLocation: Option<GeoFix>
    var pendingBaseStation: Option<Station>
    var isResumed: bool
    var sessionUuid: int
    var resume: Option<seq<PendingOp>>
    var tenant: int
    var pendingErrorAcks: map<int, bool>
    var pendingOps: map<int, PendingOp>
    var exchange: seq<Exchange>
    var log: seq<Effect>

    function OfferedTerms(): Terms
      reads this
    {
      Terms(baseStationEui, clientVersion, negotiatedVersion, bidirectional, geoLocation, pendingBaseStation, isResumed, sessionUuid)
    }

    function View(): Conn
      reads this
    {
      Conn(connectState, handshakeComplete, closed, OfferedTerms(), resume, tenant, pendingErrorAcks, pendingOps, exchange, log)
    }

    constructor (cfg: Config, tenant: int)
      ensures this.cfg == cfg && View() == FreshConn(tenant)
    {
      this.cfg := cfg;
      connectState, handshakeComplete, closed := AwaitingConnect, false, false;
      baseStationEui, clientVersion, negotiatedVersion, bidirectional := 0, "", "", false;
      geoLocation, pendingBaseStation, isResumed, sessionUuid, resume := None, None, false, 0, None;
      this.tenant := tenant;
      pendingErrorAcks, pendingOps, exchange, log := map[], map[], [], [];
    }

    /** An error frame, whose errorAck is then awaited. */
    method SendError(opId: int, token: Token, w: World) returns (failed: bool)
      modifies this
      ensures failed == !w.sends
      ensures View() == if w.sends then ErrorSent(old(View()), opId, token) else old(View())
    {
      if !w.sends {
        return true;
      }
      exchange := exchange + [SentError(opId, token)];
      if opId != 0 || handshakeComplete {
        pendingErrorAcks := pendingErrorAcks[opId := false];
      }
      return false;
    }

    method RejectConnect(opId: int, token: Token, w: World) returns (failed: bool)
      modifies this
      ensures (View(), failed) == Rejected(old(View()), opId, token, w)
    {
      failed := SendError(opId, token, w);
      connectState := if failed then Terminal else AwaitingConnectErrorAck;
    }

    method ReadConnectRequest(con: ConMessage) returns (rejection: Option<Token>)
      modifies this
      ensures (View(), rejection) == ReadRequest(cfg, old(View()), con)
    {
      if con.version.None? {
        return Some(MandatoryFieldMissing);
      }
      if con.bsEui.NoEui? {
        return Some(MissingBsEui);
      }
      var selected := cfg.negotiate(con.version.value);
      if selected.Failure? {
        return Some(selected.fault);
      }
      if con.bsEui.MalformedEui? {
        return Some(InvalidBsEui);
      }
      baseStationEui := con.bsEui.eui;
      clientVersion := con.version.value;
      negotiatedVersion := selected.value;
      if con.bidi.None? {
        return Some(MissingBidiFlag);
      }
      bidirectional := con.bidi.value;
      return None;
    }

    /** Admits the station the con names and settles the session's tenant on it. */
    method AdmitStation(w: World) returns (station: Option<Station>)
      modifies this`tenant
      ensures station == Admitted(cfg, w, baseStationEui, old(tenant))
      ensures tenant == if station.Some? then SettledTenant(cfg, station.value, old(tenant)) else old(tenant)
    {
      if baseStationEui !in w.registered {
        return None;
      }
      if !w.certificateBinds {
        return None;
      }
      var found := w.registered[baseStationEui];
      if cfg.orgEnforcement {
        return if tenant == found.tenant then Some(found) else None;
      }
      if found.tenant > 0 {
        tenant := found.tenant;
      }
      return Some(found);
    }

    method NegotiateSession(w: World) returns (rejection: Option<Token>)
      modifies this
      ensures (View(), rejection) == Negotiated(old(View()), w)
    {
      match w.resume {
        case Declined(token) =>
          return Some(token);
        case LoadFailed(uuid, owner, token) =>
          isResumed, sessionUuid, tenant := true, uuid, owner;
          return Some(token);
        case Starts(uuid) =>
          sessionUuid := uuid;
          return None;
        case Resumes(uuid, owner, ops) =>
          isResumed, sessionUuid, tenant, resume := true, uuid, owner, Some(ops);
          return None;
      }
    }

    method SendConnectResponse(w: World) returns (failed: bool)
      modifies this
      ensures (View(), failed) == Responded(old(View()), w)
    {
      if !w.sends {
        connectState := Terminal;
        return true;
      }
      log := log + [SentConRsp(negotiatedVersion, isResumed, sessionUuid)];
      connectState := AwaitingConnectComplete;
      return false;
    }

    /** Records what the con says and settles the session it asks for, up to the first refusal. */
    method PrepareSession(con: ConMessage, w: World) returns (rejection: Option<Token>)
      modifies this
      ensures (View(), rejection) == Prepared(cfg, old(View()), con, w)
    {
      rejection := ReadConnectRequest(con);
      if rejection.Some? {
        return;
      }
      var station := AdmitStation(w);
      if station.None? {
        return Some(BaseStationNotRegistered);
      }
      pendingBaseStation := station;
      if con.geo.Some? {
        geoLocation := con.geo;
      }
      rejection := NegotiateSession(w);
    }

    method HandleConnect(opId: int, con: ConMessage, w: World) returns (failed: bool)
      modifies this
      ensures (View(), failed) == Connected(cfg, old(View()), opId, con, w)
    {
      if connectState != AwaitingConnect {
        failed := RejectConnect(opId, InvalidHandshakeState, w);
        return;
      }
      if opId != 0 {
        failed := RejectConnect(opId, InvalidConnectOpId, w);
        return;
      }
      var rejection := PrepareSession(con, w);
      if rejection.Some? {
        failed := RejectConnect(opId, rejection.value, w);
        return;
      }
      failed := SendConnectResponse(w);
    }

    /** Persist, reclaim, register, publish; a failure publishes nothing. */
    method ActivateSession(station: Station, w: World) returns (failed: bool)
      requires pendingBaseStation == Some(station)
      modifies this`log
      ensures failed == (!w.persists || !w.registers)
      ensures log == old(log) + (if !w.persists then [PersistFailed]
                                 else if !w.registers then UnregisteredSteps(OfferedTerms())
                                 else PublishingSteps(OfferedTerms()))
    {
      if !w.persists {
        log := log + [PersistFailed];
        return true;
      }
      log := log + [SessionPersisted(station, baseStationEui, negotiatedVersion, isResumed)];
      log := log + [ReservationsReclaimed];
      if !w.registers {
        log := log + [RegisterFailed];
        return true;
      }
      log := log + [ConnectionRegistered(station, sessionUuid)];
      log := log + [SessionPublished(baseStationEui, sessionUuid)];
      log := log + [SessionIndexed(sessionUuid)];
      return false;
    }

    /** Capabilities, the completed handshake, and the reopened operations of a resumed session. */
    method FinishHandshake(station: Station)
      requires pendingBaseStation == Some(station)
      modifies this`log, this`handshakeComplete, this`connectState
      ensures log == old(log) + FinishingSteps(cfg, OfferedTerms())
      ensures handshakeComplete && connectState == Complete
    {
      if cfg.recordsCapabilities {
        log := log + [CapabilitiesRecorded(station.id, bidirectional, geoLocation)];
      }
      log := log + [HandshakeMarked];
      handshakeComplete := true;
      connectState := Complete;
      if isResumed {
        log := log + [OperationsReopened];
      }
    }

    /** Restores one operation and sends it again when it may resume. */
    method ReissueResumedOperation(op: PendingOp, written: bool) returns (failed: bool)
      modifies this`log, this`pendingOps
      ensures failed == (Resumable(cfg.registry, op.opId, op.command) && !written)
      ensures log == old(log) + Processed(cfg.registry, op, written, cfg.beyond)
      ensures pendingOps == old(pendingOps)[op.opId := op]
    {
      log := log + [Restored(op)];
      pendingOps := pendingOps[op.opId := op];
      if !Resumable(cfg.registry, op.opId, op.command) {
        return false;
      }
      if !written {
        log := log + [ReissueFailed(op.opId)];
        return true;
      }
      log := log + [Reissued(op.opId, Repaired(cfg.registry, op.message, op.command, cfg.beyond))];
      return false;
    }

    /** Restores every operation up to the first frame that cannot be written, and sends those that may resume. */
    method ReissueResumedOperations(ops: seq<PendingOp>, writes: Writes) returns (failed: bool)
      modifies this`log, this`pendingOps
      ensures (log, pendingOps, !failed) == Reissuing(cfg.registry, ops, 0, writes, cfg.beyond, old(log), old(pendingOps))
    {
      var n := 0;
      assert ops[0..] == ops;
      for i := 0 to |ops|
        invariant Reissuing(cfg.registry, ops[i..], n, writes, cfg.beyond, log, pendingOps)
                  == Reissuing(cfg.registry, ops, 0, writes, cfg.beyond, old(log), old(pendingOps))
      {
        assert ops[i..][0] == ops[i] && ops[i..][1..] == ops[i + 1..];
        ReissueStep(cfg.registry, ops[i..], n, writes, cfg.beyond, log, pendingOps);
        failed := ReissueResumedOperation(ops[i], writes(n));
        if failed {
          return;
        }
        if Resumable(cfg.registry, ops[i].opId, ops[i].command) {
          n := n + 1;
        }
      }
      assert ops[|ops|..] == [] && log + [] == log;
      return false;
    }

    /** Completes the handshake and reissues the operations; status polling starts once all are reissued. */
    method ResumeStation(station: Station, ops: seq<PendingOp>, writes: Writes) returns (failed: bool)
      requires pendingBaseStation == Some(station)
      modifies this`log, this`handshakeComplete, this`connectState, this`pendingOps
      ensures handshakeComplete && connectState == Complete
      ensures log == old(log) + FinishingSteps(cfg, OfferedTerms()) + Resumption(cfg, ops, writes)
      ensures var (trace, done) := ReissueTrace(cfg.registry, ops, 0, writes, cfg.beyond);
              failed == !done && pendingOps == Cached(old(pendingOps), RestoredOps(trace))
    {
      FinishHandshake(station);
      failed := ReissueResumedOperations(ops, writes);
      if !failed {
        log := log + [StatusStarted];
      }
    }

    /** Activates the offered session with the operations it reissues. */
    method CompleteConnect(station: Station, ops: seq<PendingOp>, w: World) returns (failed: bool)
      requires pendingBaseStation == Some(station)
      modifies this
      ensures (View(), failed) == Activated(cfg, old(View()), ops, w)
    {
      failed := ActivateSession(station, w);
      if failed {
        connectState := Terminal;
        return;
      }
      failed := ResumeStation(station, ops, w.writes);
      StepsAddUp(cfg, OfferedTerms(), ops, w, old(log));
    }

    method HandleConnectComplete(opId: int, w: World) returns (failed: bool)
      modifies this
      ensures (View(), failed) == ConnectCompleted(cfg, old(View()), opId, w)
    {
      if connectState != AwaitingConnectComplete {
        failed := RejectConnect(opId, InvalidHandshakeState, w);
        return;
      }
      if opId != 0 {
        failed := RejectConnect(opId, InvalidConnectCompleteOpId, w);
        return;
      }
      if pendingBaseStation.None? {
        connectState := Terminal;
        return true;
      }
      var ops := if resume.Some? then resume.value else [];
      resume := None;
      failed := CompleteConnect(pendingBaseStation.value, ops, w);
    }

    method FinalizeErroredOperation(opId: int, w: World)
      modifies this`exchange, this`pendingOps
      ensures View() == Finalized(cfg, old(View()), opId, w)
    {
      if opId !in pendingOps {
        return;
      }
      if Compensates(cfg.registry, pendingOps[opId].command) {
        exchange := exchange + [Compensated(pendingOps[opId])];
      }
      if w.removes {
        pendingOps := pendingOps - {opId};
      }
    }

    method HandleError(opId: int, w: World) returns (failed: bool)
      modifies this
      ensures (View(), failed) == ErrorReceived(cfg, old(View()), opId, w)
    {
      if w.sends {
        exchange := exchange + [SentErrorAck(opId)];
      }
      if opId == 0 && connectState == AwaitingConnectComplete {
        connectState := Terminal;
        if resume.Some? {
          exchange := exchange + [ResumeRetired];
          resume := None;
        }
        return true;
      }
      if !w.sends {
        return true;
      }
      FinalizeErroredOperation(opId, w);
      return false;
    }

    method HandleErrorAck(opId: int, w: World) returns (failed: bool)
      modifies this
      ensures (View(), failed) == ErrorAckReceived(old(View()), opId, w)
    {
      if opId == 0 && connectState == AwaitingConnectErrorAck {
        connectState := Terminal;
        return true;
      }
      if opId == 0 && connectState != Complete {
        failed := RejectConnect(opId, InvalidHandshakeState, w);
        return;
      }
      if opId !in pendingErrorAcks {
        return false;
      }
      var finalizes := pendingErrorAcks[opId];
      pendingErrorAcks := pendingErrorAcks - {opId};
      if finalizes && opId < 0 {
        if w.removes {
          pendingOps := pendingOps - {opId};
        }
      }
      if connectState == AwaitingConnectErrorAck {
        connectState := Terminal;
        return true;
      }
      return false;
    }

    method HandleMessage(e: Event) returns (failed: bool)
      modifies this
      ensures (View(), failed) == Dispatched(cfg, old(View()), e)
    {
      match e {
        case Con(opId, con, w) =>
          if handshakeComplete {
            var _ := SendError(opId, InvalidHandshakeState, w);
            return false;
          }
          failed := HandleConnect(opId, con, w);
        case ConCmp(opId, w) =>
          if handshakeComplete {
            var _ := SendError(opId, InvalidHandshakeState, w);
            return false;
          }
          failed := HandleConnectComplete(opId, w);
        case PeerError(opId, w) =>
          failed := HandleError(opId, w);
        case PeerErrorAck(opId, w) =>
          failed := HandleErrorAck(opId, w);
        case OtherCommand(opId, token, errors, w) =>
          if !handshakeComplete {
            failed := RejectConnect(opId, token, w);
            return;
          }
          for i := 0 to |errors|
            invariant View() == old(View()).(awaitedAcks := pendingErrorAcks)
            invariant Awaiting(pendingErrorAcks, errors[i..]) == old(Awaiting(pendingErrorAcks, errors))
          {
            assert errors[i..][0] == errors[i] && errors[i..][1..] == errors[i + 1..];
            pendingErrorAcks := pendingErrorAcks[errors[i].0 := errors[i].1];
          }
          return w.otherFails;
        case Disconnect =>
          return true;
      }
    }

    /** The read loop: each message in turn, until a handler fails. */
    method Serve(events: seq<Event>)
      modifies this
      ensures View() == old(Run(cfg, View(), events))
    {
      for i := 0 to |events|
        invariant View() == old(Run(cfg, View(), events[..i]))
      {
        assert events[..i + 1][..i] == events[..i];
        if !closed {
          var failed := HandleMessage(events[i]);
          if failed {
            connectState := Terminal;
            closed := true;
          }
        }
      }
      assert events[..|events|] == events;
    }
  }
}
