/**
 What single messages of the connect handshake lead to, in the terms of the message,
 the connection and the collaborators' answers.
 */
module HandshakeLaws {
  import opened CommandRegistry
  import opened ConnectLog
  import opened Handshake
  import opened Reissue
  import opened Wrappers

  // ----- con -----

  /** The connection has heard no con yet. */
  predicate AwaitsCon(c: Conn) {
    !c.closed && !c.handshakeComplete && c.state.AwaitingConnect? && c.terms == FreshConn(0).terms && c.offer.None?
  }

  /** The con carries every mandatory field, and a version the service center can speak. */
  predicate Readable(cfg: Config, con: ConMessage) {
    con.version.Some? && con.bsEui.EuiOf? && con.bidi.Some? && cfg.negotiate(con.version.value).Success?
  }

  /** The EUI is registered, the certificate belongs to it, and the organization policy allows its tenant. */
  predicate Admissible(cfg: Config, w: World, eui: nat, tenant: int) {
    eui in w.registered && w.certificateBinds && (cfg.orgEnforcement ==> tenant == w.registered[eui].tenant)
  }

  predicate Answerable(cfg: Config, c: Conn, e: Event)
    requires e.Con?
  {
    && e.opId == 0 && Readable(cfg, e.con) && Admissible(cfg, e.w, e.con.bsEui.eui, c.tenant)
    && (e.w.resume.Starts? || e.w.resume.Resumes?)
  }

  /** Only the session's terms, tenant and offer may differ. */
  predicate OnlyTermsDiffer(c: Conn, p: Conn) {
    p.(terms := c.terms, tenant := c.tenant, offer := c.offer) == c
  }

  lemma ReadKeeps(cfg: Config, c: Conn, con: ConMessage)
    ensures OnlyTermsDiffer(c, ReadRequest(cfg, c, con).0) && ReadRequest(cfg, c, con).0.offer == c.offer
  {
  }

  lemma NegotiatedKeeps(c: Conn, w: World)
    ensures OnlyTermsDiffer(c, Negotiated(c, w).0)
    ensures Negotiated(c, w).1.Some? ==> Negotiated(c, w).0.offer == c.offer
  {
  }

  /** Preparing a session touches neither the error exchange nor the cache, and a refusal makes no offer. */
  lemma PreparedKeeps(cfg: Config, c: Conn, con: ConMessage, w: World)
    ensures OnlyTermsDiffer(c, Prepared(cfg, c, con, w).0)
    ensures Prepared(cfg, c, con, w).1.Some? ==> Prepared(cfg, c, con, w).0.offer == c.offer
  {
    ReadKeeps(cfg, c, con);
    var (read, refusal) := ReadRequest(cfg, c, con);
    if refusal.None? && Admitted(cfg, w, read.terms.eui, read.tenant).Some? {
      var station := Admitted(cfg, w, read.terms.eui, read.tenant);
      var geo := if con.geo.Some? then con.geo else read.terms.geo;
      NegotiatedKeeps(read.(terms := read.terms.(station := station, geo := geo), tenant := SettledTenant(cfg, station.value, read.tenant)), w);
    }
  }

  /**
   A con is answered with conRsp exactly when it is readable, its station is admitted and
   its session is new or resumed. The conRsp and the session then carry what the con said
   and what was registered.
   */
  lemma ConIsAnsweredExactlyWhen(cfg: Config, c: Conn, e: Event)
    requires AwaitsCon(c) && e.Con? && e.w.sends
    ensures After(cfg, c, e).state.AwaitingConnectComplete? <==> Answerable(cfg, c, e)
  {
  }

  lemma AnsweredConLeaves(cfg: Config, c: Conn, e: Event)
    requires AwaitsCon(c) && e.Con? && e.w.sends && Answerable(cfg, c, e)
    ensures var d := After(cfg, c, e);
            var version, station, resumed := e.con.version.value, e.w.registered[e.con.bsEui.eui], e.w.resume.Resumes?;
            var selected := cfg.negotiate(version).value;
            && d.terms == Terms(e.con.bsEui.eui, version, selected, e.con.bidi.value, e.con.geo, Some(station), resumed, e.w.resume.uuid)
            && d.log == c.log + [SentConRsp(selected, resumed, e.w.resume.uuid)]
            && d.offer == (if resumed then Some(e.w.resume.ops) else None)
            && d.tenant == (if resumed then e.w.resume.tenant
                            else if !cfg.orgEnforcement && station.tenant > 0 then station.tenant else c.tenant)
            && d.exchange == c.exchange && d.awaitedAcks == c.awaitedAcks && d.cache == c.cache
            && !d.closed && !d.handshakeComplete
  {
  }

  /** The fault a con is refused for: its operation ID, then its fields in order, then admission, then its session. */
  predicate RefusedFor(cfg: Config, c: Conn, e: Event, token: Token)
    requires e.Con?
  {
    var con, w := e.con, e.w;
    if e.opId != 0 then token == InvalidConnectOpId
    else if con.version.None? then token == MandatoryFieldMissing
    else if con.bsEui.NoEui? then token == MissingBsEui
    else if cfg.negotiate(con.version.value).Failure? then token == cfg.negotiate(con.version.value).fault
    else if con.bsEui.MalformedEui? then token == InvalidBsEui
    else if con.bidi.None? then token == MissingBidiFlag
    else if !Admissible(cfg, w, con.bsEui.eui, c.tenant) then token == BaseStationNotRegistered
    else (w.resume.Declined? || w.resume.LoadFailed?) && token == w.resume.token
  }

  lemma PreparedRefusal(cfg: Config, c: Conn, e: Event)
    requires e.Con? && e.opId == 0
    ensures var refusal := Prepared(cfg, c, e.con, e.w).1;
            if Answerable(cfg, c, e) then refusal.None? else refusal.Some? && RefusedFor(cfg, c, e, refusal.value)
  {
  }

  /** A con that is not answered is refused: no step is taken, and the connection stays open for the errorAck. */
  lemma RefusedConLeaves(cfg: Config, c: Conn, e: Event)
    requires AwaitsCon(c) && e.Con? && e.w.sends && !Answerable(cfg, c, e)
    ensures var d := After(cfg, c, e);
            && d.state.AwaitingConnectErrorAck? && !d.closed && !d.handshakeComplete
            && d.log == c.log && d.offer == c.offer && d.cache == c.cache
            && d.awaitedAcks == (if e.opId == 0 then c.awaitedAcks else c.awaitedAcks[e.opId := false])
  {
    PreparedKeeps(cfg, c, e.con, e.w);
    if e.opId == 0 {
      PreparedRefusal(cfg, c, e);
    }
  }

  /** The error frame that refuses a con names its fault. */
  lemma RefusedConNamesItsFault(cfg: Config, c: Conn, e: Event)
    requires AwaitsCon(c) && e.Con? && e.w.sends && !Answerable(cfg, c, e)
    ensures var d := After(cfg, c, e);
            && |d.exchange| == |c.exchange| + 1 && d.exchange[..|c.exchange|] == c.exchange
            && var error := d.exchange[|c.exchange|];
               error.SentError? && error.opId == e.opId && RefusedFor(cfg, c, e, error.token)
  {
    PreparedKeeps(cfg, c, e.con, e.w);
    if e.opId == 0 {
      PreparedRefusal(cfg, c, e);
    }
  }

  /** A con whose answer cannot be written takes no step and ends the connection. */
  lemma UnwrittenConCloses(cfg: Config, c: Conn, e: Event)
    requires AwaitsCon(c) && e.Con? && !e.w.sends
    ensures var d := After(cfg, c, e);
            d.closed && d.state.Terminal? && d.log == c.log && d.exchange == c.exchange && !d.handshakeComplete
  {
    PreparedKeeps(cfg, c, e.con, e.w);
  }

  /** A con that is not awaited, and any early message of another command, is refused; it spares only an active connection. */
  lemma MisplacedMessages(cfg: Config, c: Conn, e: Event)
    requires !c.closed && (e.Con? || e.ConCmp? || e.OtherCommand?) && e.w.sends
    requires e.OtherCommand? ==> !c.handshakeComplete
    requires e.Con? ==> c.handshakeComplete || !c.state.AwaitingConnect?
    requires e.ConCmp? ==> c.handshakeComplete || !c.state.AwaitingConnectComplete?
    ensures var d := After(cfg, c, e);
            && d.exchange == c.exchange + [SentError(e.opId, if e.OtherCommand? then e.token else InvalidHandshakeState)]
            && d.state == (if c.handshakeComplete then c.state else AwaitingConnectErrorAck)
            && d.log == c.log && d.terms == c.terms && d.handshakeComplete == c.handshakeComplete && !d.closed
            && d.awaitedAcks == (if e.opId == 0 && !c.handshakeComplete then c.awaitedAcks else c.awaitedAcks[e.opId := false])
  {
  }

  /** One that cannot be answered ends the connection, unless the connection is active: then it changes nothing. */
  lemma UnansweredMisplacedMessages(cfg: Config, c: Conn, e: Event)
    requires !c.closed && (e.Con? || e.ConCmp? || e.OtherCommand?) && !e.w.sends
    requires e.OtherCommand? ==> !c.handshakeComplete
    requires e.Con? ==> c.handshakeComplete || !c.state.AwaitingConnect?
    requires e.ConCmp? ==> c.handshakeComplete || !c.state.AwaitingConnectComplete?
    ensures After(cfg, c, e) == if c.handshakeComplete then c else c.(state := Terminal, closed := true)
  {
  }

  /** A refused con leaves on the session what was read and settled before its fault. */
  lemma RefusedConKeepsWhatItSettled(cfg: Config, c: Conn, e: Event)
    requires AwaitsCon(c) && e.Con? && e.w.sends && !Answerable(cfg, c, e)
    ensures var d, con, w := After(cfg, c, e), e.con, e.w;
            if e.opId != 0 || con.version.None? || !con.bsEui.EuiOf? || cfg.negotiate(con.version.value).Failure? then
              d.terms == c.terms && d.tenant == c.tenant
            else
              var eui, read := con.bsEui.eui, c.terms.(eui := con.bsEui.eui, clientVersion := con.version.value,
                                                       negotiatedVersion := cfg.negotiate(con.version.value).value);
              if con.bidi.None? then d.terms == read && d.tenant == c.tenant
              else if !Admissible(cfg, w, eui, c.tenant) then d.terms == read.(bidi := con.bidi.value) && d.tenant == c.tenant
              else
                var station := w.registered[eui];
                var settled := read.(bidi := con.bidi.value, geo := con.geo, station := Some(station));
                if w.resume.LoadFailed?
                then d.terms == settled.(resumed := true, uuid := w.resume.uuid) && d.tenant == w.resume.tenant
                else d.terms == settled && d.tenant == if !cfg.orgEnforcement && station.tenant > 0 then station.tenant else c.tenant
  {
  }

  // ----- other commands -----

  /** The errors are awaited, each operation with what its last error says, beside what was awaited before. */
  lemma {:induction false} ErrorsAreAwaited(acks: map<int, bool>, errors: seq<(int, bool)>, id: int)
    ensures var after := Awaiting(acks, errors);
            && (id in after <==> id in acks || exists error <- errors :: error.0 == id)
            && ((forall error <- errors :: error.0 != id) && id in acks ==> after[id] == acks[id])
            && (forall i | 0 <= i < |errors| && errors[i].0 == id && (forall j | i < j < |errors| :: errors[j].0 != id) ::
                  id in after && after[id] == errors[i].1)
    decreases errors
  {
    if errors != [] {
      ErrorsAreAwaited(acks[errors[0].0 := errors[0].1], errors[1..], id);
      assert errors == [errors[0]] + errors[1..];
      if forall j | 0 < j < |errors| :: errors[j].0 != id {
        assert forall error <- errors[1..] :: error.0 != id;
      }
    }
  }

  /** A command on an active connection changes only what errorAck is awaited for; the connection ends exactly when its handler fails. */
  lemma CommandOnActiveConnection(cfg: Config, c: Conn, e: Event)
    requires !c.closed && c.handshakeComplete && e.OtherCommand?
    ensures var d := After(cfg, c, e);
            && d == c.(awaitedAcks := d.awaitedAcks, state := if e.w.otherFails then Terminal else c.state, closed := e.w.otherFails)
            && forall id :: id in d.awaitedAcks <==> id in c.awaitedAcks || exists error <- e.errors :: error.0 == id
  {
    forall id ensures id in After(cfg, c, e).awaitedAcks <==> id in c.awaitedAcks || exists error <- e.errors :: error.0 == id {
      ErrorsAreAwaited(c.awaitedAcks, e.errors, id);
    }
  }

  // ----- conCmp -----

  predicate AwaitsConCmp(c: Conn) {
    !c.closed && !c.handshakeComplete && c.state.AwaitingConnectComplete? && c.terms.station.Some?
  }

  /** A conCmp that cannot be persisted or registered takes the steps up to the failure, publishes nothing and ends the connection. */
  lemma FailedConCmpLeaves(cfg: Config, c: Conn, e: Event)
    requires AwaitsConCmp(c) && e.ConCmp? && e.opId == 0 && (!e.w.persists || !e.w.registers)
    ensures var d := After(cfg, c, e);
            && d.closed && d.state.Terminal? && !d.handshakeComplete && d.cache == c.cache
            && d.log == c.log + (if !e.w.persists then [PersistFailed]
                                 else [SessionPersisted(c.terms.station.value, c.terms.eui, c.terms.negotiatedVersion, c.terms.resumed),
                                       ReservationsReclaimed, RegisterFailed])
  {
  }

  /** The steps between the publication of a session and its reissue. */
  ghost predicate Finishes(cfg: Config, t: Terms, steps: seq<Effect>)
    requires t.station.Some?
  {
    && steps != []
    && (CapabilitiesRecorded(t.station.value.id, t.bidi, t.geo) in steps <==> cfg.recordsCapabilities)
    && HandshakeMarked in steps
    && (OperationsReopened in steps <==> t.resumed)
    && |steps| == 1 + (if cfg.recordsCapabilities then 1 else 0) + (if t.resumed then 1 else 0)
    && (cfg.recordsCapabilities ==> steps[0].CapabilitiesRecorded?)
    && (t.resumed ==> steps[|steps| - 1] == OperationsReopened)
  }

  /**
   An accepted conCmp makes the session live: persisted, reclaimed, registered, published
   and indexed with the offered terms; capabilities are recorded when the service center
   keeps them, and operations reopened exactly for a resumed session. The connection ends
   exactly when a frame of the reissue cannot be written.
   */
  lemma AcceptedConCmpLeaves(cfg: Config, c: Conn, e: Event) returns (finishing: seq<Effect>, reissue: seq<Effect>)
    requires AwaitsConCmp(c) && e.ConCmp? && e.opId == 0 && e.w.persists && e.w.registers
    ensures Finishes(cfg, c.terms, finishing)
    ensures forall step <- reissue :: step.Restored? || step.Reissued? || step.ReissueFailed? || step.StatusStarted?
    ensures var d, station := After(cfg, c, e), c.terms.station.value;
            && d.handshakeComplete && d.terms == c.terms && d.offer.None?
            && d.log == c.log + ([SessionPersisted(station, c.terms.eui, c.terms.negotiatedVersion, c.terms.resumed), ReservationsReclaimed,
                                  ConnectionRegistered(station, c.terms.uuid), SessionPublished(c.terms.eui, c.terms.uuid),
                                  SessionIndexed(c.terms.uuid)] + finishing + reissue)
            && (d.closed <==> FramesOf(reissue) != Eligible(cfg.registry, OffersOps(c), cfg.beyond))
            && (!d.closed ==> d.state.Complete?)
  {
    var ops := OffersOps(c);
    finishing, reissue := FinishingSteps(cfg, c.terms), Resumption(cfg, ops, e.w.writes);
    forall step | step in reissue ensures step.Restored? || step.Reissued? || step.ReissueFailed? || step.StatusStarted? {
      ResumptionKinds(cfg, ops, e.w.writes, step);
    }
    ReissueSendsAPrefix(cfg.registry, ops, 0, e.w.writes, cfg.beyond);
    ResumptionFrames(cfg, ops, e.w.writes);
  }

  // ----- error and errorAck -----

  /** An error for the offered connect is acknowledged and ends it; a resume it had offered is retired. */
  lemma ErrorEndsTheOffer(cfg: Config, c: Conn, w: World)
    requires !c.closed && c.state.AwaitingConnectComplete?
    ensures var d := After(cfg, c, PeerError(0, w));
            && d.closed && d.state.Terminal? && d.log == c.log && d.offer.None? && d.cache == c.cache
            && d.exchange == c.exchange + (if w.sends then [SentErrorAck(0)] else []) + (if c.offer.Some? then [ResumeRetired] else [])
  {
  }

  /**
   Any other error is acknowledged, and of a tracked operation the effect is undone, exactly
   when its command's row says so, and the record removed; without an acknowledgement the
   connection ends and nothing else happens.
   */
  lemma ErrorFinalizes(cfg: Config, c: Conn, opId: int, w: World)
    requires !c.closed && !(opId == 0 && c.state.AwaitingConnectComplete?)
    ensures var d, tracked := After(cfg, c, PeerError(opId, w)), opId in c.cache;
            if w.sends then
              && d.exchange == c.exchange + [SentErrorAck(opId)]
                               + (if tracked && c.cache[opId].command in cfg.registry.byCommand
                                     && cfg.registry.byCommand[c.cache[opId].command].compensates then [Compensated(c.cache[opId])] else [])
              && d.cache == (if w.removes then c.cache - {opId} else c.cache)
              && d.state == c.state && d.log == c.log && !d.closed
            else d.closed && d.state.Terminal? && d.cache == c.cache && d.exchange == c.exchange && d.log == c.log
  {
    if opId !in c.cache {
      assert c.cache - {opId} == c.cache;
    }
  }

  /**
   An errorAck completes a failed connect and closes; before completion any other for the
   connect operation is refused; otherwise it only consumes an awaited acknowledgement,
   and removes a service center operation whose sequence the error had replaced.
   */
  lemma ErrorAckConsumes(cfg: Config, c: Conn, opId: int, w: World)
    requires !c.closed
    ensures var d := After(cfg, c, PeerErrorAck(opId, w));
            if opId == 0 && c.state.AwaitingConnectErrorAck? then
              d.closed && d.state.Terminal? && d.log == c.log
            else if opId == 0 && !c.state.Complete? then
              d.log == c.log && d.awaitedAcks.Keys <= c.awaitedAcks.Keys + {opId}
              && (w.sends ==> d.state.AwaitingConnectErrorAck? && d.exchange == c.exchange + [SentError(0, InvalidHandshakeState)])
            else if opId !in c.awaitedAcks then d == c
            else
              && d.awaitedAcks == c.awaitedAcks - {opId}
              && d.cache == (if c.awaitedAcks[opId] && opId < 0 && w.removes then c.cache - {opId} else c.cache)
              && d.closed == c.state.AwaitingConnectErrorAck? && d.log == c.log && d.exchange == c.exchange
  {
  }

  // ----- whole runs -----

  lemma OfferedOnce(cfg: Config, t: Terms, ops: seq<PendingOp>, writes: Writes)
    requires t.station.Some?
    ensures forall step <- Activation(cfg, t) + Resumption(cfg, ops, writes) :: !step.SentConRsp?
  {
    forall step | step in Resumption(cfg, ops, writes) ensures !step.SentConRsp? {
      ResumptionKinds(cfg, ops, writes, step);
    }
  }

  lemma ConRspIsFirst(cfg: Config, tenant: int, events: seq<Event>)
    requires Run(cfg, FreshConn(tenant), events).log != []
    ensures var c := Run(cfg, FreshConn(tenant), events);
            && c.log[0] == SentConRsp(c.terms.negotiatedVersion, c.terms.resumed, c.terms.uuid)
            && forall k | 0 < k < |c.log| :: !c.log[k].SentConRsp?
  {
    var ops, writes := LogOf(cfg, tenant, events);
    if Run(cfg, FreshConn(tenant), events).handshakeComplete {
      OfferedOnce(cfg, Run(cfg, FreshConn(tenant), events).terms, ops, writes);
    }
  }

  /**
   Over every run, whenever conRsp was sent it was the first step, and it was sent for a con
   whose certificate bound the EUI, whose registration is the one the session keeps, and
   whose tenant the organization policy allowed.
   */
  lemma ConRspMeansAdmitted(cfg: Config, tenant: int, events: seq<Event>)
    requires Run(cfg, FreshConn(tenant), events).log != []
    ensures var c := Run(cfg, FreshConn(tenant), events);
            && c.log[0] == SentConRsp(c.terms.negotiatedVersion, c.terms.resumed, c.terms.uuid)
            && (forall k | 0 < k < |c.log| :: !c.log[k].SentConRsp?)
            && exists i | 0 <= i < |events| ::
                 && events[i].Con? && events[i].opId == 0 && Readable(cfg, events[i].con)
                 && events[i].con.bsEui == EuiOf(c.terms.eui) && cfg.negotiate(c.terms.clientVersion) == Success(c.terms.negotiatedVersion)
                 && Admissible(cfg, events[i].w, c.terms.eui, tenant)
                 && c.terms.station == Some(events[i].w.registered[c.terms.eui])
  {
    var c := Run(cfg, FreshConn(tenant), events);
    RunKeepsInv(cfg, tenant, events);
    var i :| 0 <= i < |events| && TermsOf(cfg, tenant, c.terms, events[i]) && Progress(cfg, c, events, i);
    assert Readable(cfg, events[i].con) && Admissible(cfg, events[i].w, c.terms.eui, tenant);
    ConRspIsFirst(cfg, tenant, events);
  }

  lemma RunOfTwo(cfg: Config, c: Conn, first: Event, second: Event)
    ensures Run(cfg, c, [first, second]) == After(cfg, After(cfg, c, first), second)
  {
    var events := [first, second];
    assert events[..1] == [first] && [first][..0] == [];
    assert Run(cfg, c, [first]) == After(cfg, Run(cfg, c, []), first);
    assert Run(cfg, c, events) == After(cfg, Run(cfg, c, events[..1]), events[1]);
  }

  /** A con that can be answered and its conCmp make the connection active, when nothing on the way fails. */
  lemma HandshakeCompletes(cfg: Config, tenant: int, con: Event, conCmp: Event)
    requires con.Con? && con.w.sends && Answerable(cfg, FreshConn(tenant), con)
    requires conCmp.ConCmp? && conCmp.opId == 0 && conCmp.w.persists && conCmp.w.registers
    ensures var c, eui, uuid := Run(cfg, FreshConn(tenant), [con, conCmp]), con.con.bsEui.eui, con.w.resume.uuid;
            && c.handshakeComplete && c.terms.eui == eui && c.terms.station == Some(con.w.registered[eui])
            && |c.log| > 5 && c.log[0].SentConRsp? && c.log[4] == SessionPublished(eui, uuid)
  {
    var start, offered := FreshConn(tenant), After(cfg, FreshConn(tenant), con);
    RunOfTwo(cfg, start, con, conCmp);
    ConIsAnsweredExactlyWhen(cfg, start, con);
    AnsweredConLeaves(cfg, start, con);
    var finishing, reissue := AcceptedConCmpLeaves(cfg, offered, conCmp);
  }

  lemma ReissuedAfterActivation(cfg: Config, t: Terms, ops: seq<PendingOp>, writes: Writes, e: Effect)
    requires t.station.Some? && e.Reissued? && e in Offered(t) + (Activation(cfg, t) + Resumption(cfg, ops, writes))
    ensures e in ReissueTrace(cfg.registry, ops, 0, writes, cfg.beyond).0
  {
    BeforeTheReissue(cfg, t);
    assert e !in Offered(t) + Activation(cfg, t);
  }

  lemma ReissuedOnlyWhenActive(cfg: Config, tenant: int, events: seq<Event>, e: Effect)
    requires e in Run(cfg, FreshConn(tenant), events).log && e.Reissued?
    ensures Run(cfg, FreshConn(tenant), events).handshakeComplete
  {
    var _, _ := LogOf(cfg, tenant, events);
  }

  /** Over every run each frame sent again is the repaired message of a resumable operation the connection's con had offered. */
  lemma ReissuedFramesOfARun(cfg: Config, tenant: int, events: seq<Event>, e: Effect)
    requires e in Run(cfg, FreshConn(tenant), events).log && e.Reissued?
    ensures exists i | 0 <= i < |events| :: exists op <- OfferedOps(events[i]) ::
              && e.opId == op.opId < 0 && op.command in cfg.registry.byCommand && cfg.registry.byCommand[op.command].resumable
              && SendsAgain(cfg.registry, op, e.frame)
  {
    ReissuedOnlyWhenActive(cfg, tenant, events, e);
    var i, writes := ActivatedOffer(cfg, tenant, events);
    var ops := OfferedOps(events[i]);
    ReissuedAfterActivation(cfg, Run(cfg, FreshConn(tenant), events).terms, ops, writes, e);
    ReissuedFramesAreRepaired(cfg.registry, ops, 0, writes, cfg.beyond, e);
  }
}
