/**
 The connect handshake of one base station connection (BSSCI rev1 sections 5.3
 and 5.17): con is answered with conRsp or refused, conCmp activates the session,
 and every collaborator on the way may fail.
 */
module Handshake {
  import opened Codec
  import opened CommandRegistry
  import opened ConnectLog
  import opened Reissue
  import opened Wrappers

  datatype ConnectState = AwaitingConnect | AwaitingConnectComplete | AwaitingConnectErrorAck | Complete | Terminal

  datatype BsEuiField = NoEui | MalformedEui | EuiOf(eui: nat)

  /** The con fields the handler reads; bidi and version are None unless present with their type. */
  datatype ConMessage = ConMessage(version: Option<string>, bsEui: BsEuiField, bidi: Option<bool>, geo: Option<GeoFix>)

  /** The server's fixed parts: version negotiation, organization policy and the command table. */
  datatype Config = Config(
    negotiate: string -> Result<string, Token>,
    orgEnforcement: bool,
    registry: Registry,
    recordsCapabilities: bool,
    beyond: real -> int
  )

  /** How session negotiation answers a con. */
  datatype ResumeAnswer =
    | Declined(token: Token)
    | LoadFailed(uuid: int, tenant: int, token: Token)
    | Starts(uuid: int)
    | Resumes(uuid: int, tenant: int, ops: seq<PendingOp>)

  /** What the collaborators answer while one message is handled. */
  datatype World = World(
    registered: map<nat, Station>,   // registrations by EUI; a failed lookup finds none
    certificateBinds: bool,
    resume: ResumeAnswer,
    sends: bool,                     // the response, error or errorAck frame is written
    persists: bool,
    registers: bool,
    writes: Writes,                  // the frames of a reissue
    removes: bool,                   // removing a pending operation succeeds
    otherFails: bool                 // another command's handler returns an error
  )

  /** What the con said and the handler settled for it: the terms the conRsp offers. */
  datatype Terms = Terms(
    eui: nat,
    clientVersion: string,
    negotiatedVersion: string,
    bidi: bool,
    geo: Option<GeoFix>,
    station: Option<Station>,        // the registration the con was admitted for
    resumed: bool,
    uuid: int
  )

  /** The provisional, then active session of the connection, with the steps it took. */
  datatype Conn = Conn(
    state: ConnectState,
    handshakeComplete: bool,
    closed: bool,                    // the read loop has ended
    terms: Terms,
    offer: Option<seq<PendingOp>>,   // the operations a resuming conRsp offered to reissue
    tenant: int,
    awaitedAcks: map<int, bool>,     // errors sent, with whether their errorAck finalizes the operation
    cache: map<int, PendingOp>,
    exchange: seq<Exchange>,         // the error exchange so far, oldest first
    log: seq<Effect>                 // the steps taken so far, oldest first
  )

  datatype Event =
    | Con(opId: int, con: ConMessage, w: World)
    | ConCmp(opId: int, w: World)
    | PeerError(opId: int, w: World)
    | PeerErrorAck(opId: int, w: World)
    // any other command, or a malformed message, with the errors its handler sends
    | OtherCommand(opId: int, token: Token, errors: seq<(int, bool)>, w: World)
    | Disconnect

  // ----- what each message leaves; the flag says whether the handler fails and the connection closes -----

  function Exchanged(c: Conn, x: Exchange): Conn {
    c.(exchange := c.exchange + [x])
  }

  /** An error frame that was written; outside the connect operation its errorAck is awaited. */
  function ErrorSent(c: Conn, opId: int, token: Token): Conn {
    Exchanged(c, SentError(opId, token))
      .(awaitedAcks := if opId == 0 && !c.handshakeComplete then c.awaitedAcks else c.awaitedAcks[opId := false])
  }

  function Rejected(c: Conn, opId: int, token: Token, w: World): (Conn, bool) {
    if w.sends then (ErrorSent(c, opId, token).(state := AwaitingConnectErrorAck), false)
    else (c.(state := Terminal), true)
  }

  /** The con fields in the order they are judged; a refusal may come after the first fields were taken over. */
  function ReadRequest(cfg: Config, c: Conn, con: ConMessage): (Conn, Option<Token>) {
    if con.version.None? then (c, Some(MandatoryFieldMissing))
    else if con.bsEui.NoEui? then (c, Some(MissingBsEui))
    else match cfg.negotiate(con.version.value)
      case Failure(token) => (c, Some(token))
      case Success(selected) =>
        if con.bsEui.MalformedEui? then (c, Some(InvalidBsEui))
        else
          var t := c.terms.(eui := con.bsEui.eui, clientVersion := con.version.value, negotiatedVersion := selected);
          if con.bidi.None? then (c.(terms := t), Some(MissingBidiFlag)) else (c.(terms := t.(bidi := con.bidi.value)), None)
  }

  /** The registration a con is admitted for: registered under its EUI, bound to the certificate, of an allowed tenant. */
  function Admitted(cfg: Config, w: World, eui: nat, tenant: int): Option<Station> {
    if eui !in w.registered || !w.certificateBinds then None
    else if cfg.orgEnforcement && tenant != w.registered[eui].tenant then None
    else Some(w.registered[eui])
  }

  function SettledTenant(cfg: Config, s: Station, tenant: int): int {
    if !cfg.orgEnforcement && s.tenant > 0 then s.tenant else tenant
  }

  function Negotiated(c: Conn, w: World): (Conn, Option<Token>) {
    match w.resume
    case Declined(token) => (c, Some(token))
    case LoadFailed(uuid, tenant, token) => (c.(terms := c.terms.(resumed := true, uuid := uuid), tenant := tenant), Some(token))
    case Starts(uuid) => (c.(terms := c.terms.(uuid := uuid)), None)
    case Resumes(uuid, tenant, ops) =>
      (c.(terms := c.terms.(resumed := true, uuid := uuid), tenant := tenant, offer := Some(ops)), None)
  }

  /** The conRsp offers the negotiated session. */
  function Offered(t: Terms): seq<Effect> {
    [SentConRsp(t.negotiatedVersion, t.resumed, t.uuid)]
  }

  function Responded(c: Conn, w: World): (Conn, bool) {
    if w.sends
    then (c.(log := c.log + Offered(c.terms), state := AwaitingConnectComplete), false)
    else (c.(state := Terminal), true)
  }

  /** The session a con prepares for its conRsp, or the refusal that keeps it from being offered. */
  function Prepared(cfg: Config, c: Conn, con: ConMessage, w: World): (Conn, Option<Token>) {
    var (read, refusal) := ReadRequest(cfg, c, con);
    if refusal.Some? then (read, refusal)
    else
      var station := Admitted(cfg, w, read.terms.eui, read.tenant);
      if station.None? then (read, Some(BaseStationNotRegistered))
      else
        var geo := if con.geo.Some? then con.geo else read.terms.geo;
        Negotiated(read.(terms := read.terms.(station := station, geo := geo),
                         tenant := SettledTenant(cfg, station.value, read.tenant)), w)
  }

  function Connected(cfg: Config, c: Conn, opId: int, con: ConMessage, w: World): (Conn, bool) {
    if c.state != AwaitingConnect then Rejected(c, opId, InvalidHandshakeState, w)
    else if opId != 0 then Rejected(c, opId, InvalidConnectOpId, w)
    else
      var (prepared, refusal) := Prepared(cfg, c, con, w);
      if refusal.Some? then Rejected(prepared, opId, refusal.value, w) else Responded(prepared, w)
  }

  /** The steps that make the offered session live: published only once it is persisted and registered. */
  function PublishingSteps(t: Terms): seq<Effect>
    requires t.station.Some?
  {
    [SessionPersisted(t.station.value, t.eui, t.negotiatedVersion, t.resumed), ReservationsReclaimed,
     ConnectionRegistered(t.station.value, t.uuid), SessionPublished(t.eui, t.uuid), SessionIndexed(t.uuid)]
  }

  /** The steps that complete the handshake of the live session. */
  function FinishingSteps(cfg: Config, t: Terms): seq<Effect>
    requires t.station.Some?
  {
    (if cfg.recordsCapabilities then [CapabilitiesRecorded(t.station.value.id, t.bidi, t.geo)] else [])
    + [HandshakeMarked]
    + (if t.resumed then [OperationsReopened] else [])
  }

  function Activation(cfg: Config, t: Terms): seq<Effect>
    requires t.station.Some?
  {
    PublishingSteps(t) + FinishingSteps(cfg, t)
  }

  /** The reissue, and the start of status polling once it has reached its end. */
  function Resumption(cfg: Config, ops: seq<PendingOp>, writes: Writes): seq<Effect> {
    var (trace, done) := ReissueTrace(cfg.registry, ops, 0, writes, cfg.beyond);
    trace + (if done then [StatusStarted] else [])
  }

  function UnregisteredSteps(t: Terms): seq<Effect>
    requires t.station.Some?
  {
    [SessionPersisted(t.station.value, t.eui, t.negotiatedVersion, t.resumed), ReservationsReclaimed, RegisterFailed]
  }

  /** The steps a conCmp takes: persist, reclaim, register, publish; the first that fails is the last. */
  function CompletionSteps(cfg: Config, t: Terms, ops: seq<PendingOp>, w: World): seq<Effect>
    requires t.station.Some?
  {
    if !w.persists then [PersistFailed]
    else if !w.registers then UnregisteredSteps(t)
    else Activation(cfg, t) + Resumption(cfg, ops, w.writes)
  }

  function OffersOps(c: Conn): seq<PendingOp> {
    if c.offer.Some? then c.offer.value else []
  }

  /** The session a conCmp activates, with the operations it reissues. */
  function Activated(cfg: Config, c: Conn, ops: seq<PendingOp>, w: World): (Conn, bool)
    requires c.terms.station.Some?
  {
    var ended := c.(log := c.log + CompletionSteps(cfg, c.terms, ops, w));
    if !w.persists || !w.registers then (ended.(state := Terminal), true)
    else
      var (trace, done) := ReissueTrace(cfg.registry, ops, 0, w.writes, cfg.beyond);
      (ended.(handshakeComplete := true, state := Complete, cache := Cached(c.cache, RestoredOps(trace))), !done)
  }

  function ConnectCompleted(cfg: Config, c: Conn, opId: int, w: World): (Conn, bool) {
    if c.state != AwaitingConnectComplete then Rejected(c, opId, InvalidHandshakeState, w)
    else if opId != 0 then Rejected(c, opId, InvalidConnectCompleteOpId, w)
    else if c.terms.station.None? then (c.(state := Terminal), true)
    else Activated(cfg, c.(offer := None), OffersOps(c), w)
  }

  /** An errored operation that is tracked is compensated, if its command undoes anything, and no longer tracked. */
  function Finalized(cfg: Config, c: Conn, opId: int, w: World): Conn {
    if opId !in c.cache then c
    else
      var undone := if Compensates(cfg.registry, c.cache[opId].command) then Exchanged(c, Compensated(c.cache[opId])) else c;
      if w.removes then undone.(cache := c.cache - {opId}) else undone
  }

  function ErrorReceived(cfg: Config, c: Conn, opId: int, w: World): (Conn, bool) {
    var acked := if w.sends then Exchanged(c, SentErrorAck(opId)) else c;
    if opId == 0 && c.state == AwaitingConnectComplete then
      var refused := acked.(state := Terminal);
      (if c.offer.Some? then Exchanged(refused, ResumeRetired).(offer := None) else refused, true)
    else if !w.sends then (c, true)
    else (Finalized(cfg, acked, opId, w), false)
  }

  /** The errors another command's handler sent are awaited with it. */
  function Awaiting(acks: map<int, bool>, errors: seq<(int, bool)>): map<int, bool>
    decreases errors
  {
    if errors == [] then acks else Awaiting(acks[errors[0].0 := errors[0].1], errors[1..])
  }

  function ErrorAckReceived(c: Conn, opId: int, w: World): (Conn, bool) {
    if opId == 0 && c.state == AwaitingConnectErrorAck then (c.(state := Terminal), true)
    else if opId == 0 && c.state != Complete then Rejected(c, opId, InvalidHandshakeState, w)
    else if opId !in c.awaitedAcks then (c, false)
    else
      var finalized := c.awaitedAcks[opId] && opId < 0 && w.removes;
      var consumed := c.(awaitedAcks := c.awaitedAcks - {opId}, cache := if finalized then c.cache - {opId} else c.cache);
      if c.state == AwaitingConnectErrorAck then (consumed.(state := Terminal), true) else (consumed, false)
  }

  /** Dispatch by phase: a message of another command needs an active connection, and a con or conCmp one that is not yet active. */
  function Dispatched(cfg: Config, c: Conn, e: Event): (Conn, bool) {
    match e
    case Con(opId, con, w) =>
      if c.handshakeComplete then (if w.sends then ErrorSent(c, opId, InvalidHandshakeState) else c, false)
      else Connected(cfg, c, opId, con, w)
    case ConCmp(opId, w) =>
      if c.handshakeComplete then (if w.sends then ErrorSent(c, opId, InvalidHandshakeState) else c, false)
      else ConnectCompleted(cfg, c, opId, w)
    case PeerError(opId, w) => ErrorReceived(cfg, c, opId, w)
    case PeerErrorAck(opId, w) => ErrorAckReceived(c, opId, w)
    case OtherCommand(opId, token, errors, w) =>
      if c.handshakeComplete then (c.(awaitedAcks := Awaiting(c.awaitedAcks, errors)), w.otherFails) else Rejected(c, opId, token, w)
    case Disconnect => (c, true)
  }

  /** A handler that fails ends the read loop. */
  function Closing(c: Conn, failed: bool): Conn {
    if failed then c.(state := Terminal, closed := true) else c
  }

  /** The connection after an event; a closed connection hears nothing. */
  function After(cfg: Config, c: Conn, e: Event): Conn {
    if c.closed then c
    else
      var (handled, failed) := Dispatched(cfg, c, e);
      Closing(handled, failed)
  }

  function Run(cfg: Config, c: Conn, events: seq<Event>): Conn {
    if events == [] then c else After(cfg, Run(cfg, c, events[..|events| - 1]), events[|events| - 1])
  }

  function FreshConn(tenant: int): Conn {
    Conn(AwaitingConnect, false, false, Terms(0, "", "", false, None, None, false, 0), None, tenant, map[], map[], [], [])
  }

  // ----- the order of effects -----

  /** The terms came from that con: its registration was admitted for the connection's tenant and its version was negotiated. */
  ghost predicate TermsOf(cfg: Config, tenant: int, t: Terms, e: Event) {
    && e.Con? && e.opId == 0 && e.w.sends
    && e.con.version == Some(t.clientVersion)
    && cfg.negotiate(t.clientVersion) == Success(t.negotiatedVersion)
    && e.con.bsEui == EuiOf(t.eui)
    && e.con.bidi == Some(t.bidi) && e.con.geo == t.geo
    && e.w.certificateBinds && t.eui in e.w.registered && t.station == Some(e.w.registered[t.eui])
    && (cfg.orgEnforcement ==> tenant == e.w.registered[t.eui].tenant)
    && match e.w.resume {
         case Starts(uuid) => !t.resumed && t.uuid == uuid
         case Resumes(uuid, _, _) => t.resumed && t.uuid == uuid
         case _ => false
       }
  }

  /** The operations the con offered to resume. */
  function OfferedOps(e: Event): seq<PendingOp> {
    if e.Con? && e.w.resume.Resumes? then e.w.resume.ops else []
  }

  /** How far the connection got with the offer of event i: each case lists every step, in order. */
  ghost predicate Progress(cfg: Config, c: Conn, events: seq<Event>, i: nat)
    requires i < |events| && c.terms.station.Some?
  {
    var ops := OfferedOps(events[i]);
    if c.handshakeComplete then
      exists j | i < j < |events| :: events[j].ConCmp? && events[j].opId == 0
        && c.log == Offered(c.terms) + (Activation(cfg, c.terms) + Resumption(cfg, ops, events[j].w.writes))
    else if c.state.AwaitingConnectComplete? then
      c.log == Offered(c.terms) && OffersOps(c) == ops
    else
      || c.log == Offered(c.terms)
      || c.log == Offered(c.terms) + [PersistFailed]
      || c.log == Offered(c.terms) + UnregisteredSteps(c.terms)
  }

  /** Where the steps stand: none before an offer, afterwards those of the con that was answered. */
  ghost predicate Inv(cfg: Config, tenant: int, c: Conn, events: seq<Event>) {
    && (c.state.AwaitingConnect? ==> c.log == [] && c.terms == FreshConn(0).terms && c.tenant == tenant && c.offer.None? && !c.handshakeComplete)
    && (c.state.AwaitingConnectComplete? ==> c.log != [] && !c.handshakeComplete)
    && (c.state.Complete? ==> c.handshakeComplete)
    && (c.handshakeComplete ==> c.log != [] && (c.state.Complete? || (c.closed && c.state.Terminal?)))
    && (c.log != [] ==> exists i | 0 <= i < |events| :: TermsOf(cfg, tenant, c.terms, events[i]) && Progress(cfg, c, events, i))
  }

  /** The message took no step and left the offer alone; it may have ended the connect operation. */
  ghost predicate Quiet(c: Conn, d: Conn) {
    && d.terms == c.terms && d.tenant == c.tenant
    && d.log == c.log && d.handshakeComplete == c.handshakeComplete && d.closed == c.closed
    && (c.handshakeComplete ==> d.state == c.state)
    && ((d.state == c.state && d.offer == c.offer) || d.state.AwaitingConnectErrorAck? || d.state.Terminal?)
  }

  lemma QuietKeepsInv(cfg: Config, tenant: int, c: Conn, events: seq<Event>, d: Conn, failed: bool, e: Event)
    requires Inv(cfg, tenant, c, events) && Quiet(c, d)
    ensures Inv(cfg, tenant, Closing(d, failed), events + [e])
  {
    if c.log != [] {
      var i :| 0 <= i < |events| && TermsOf(cfg, tenant, c.terms, events[i]) && Progress(cfg, c, events, i);
      var later := events + [e];
      assert later[i] == events[i];
      if c.handshakeComplete {
        var j :| i < j < |events| && events[j].ConCmp? && events[j].opId == 0
                 && c.log == Offered(c.terms) + (Activation(cfg, c.terms) + Resumption(cfg, OfferedOps(events[i]), events[j].w.writes));
        assert later[j] == events[j];
      }
      assert Progress(cfg, Closing(d, failed), later, i);
    }
  }

  lemma ErrorsAreQuiet(cfg: Config, c: Conn, opId: int, w: World)
    requires c.handshakeComplete ==> c.state.Complete?
    ensures Quiet(c, ErrorReceived(cfg, c, opId, w).0) && Quiet(c, ErrorAckReceived(c, opId, w).0)
  {
  }

  /** The error exchange, and any message the phase refuses, take no step. */
  lemma OthersAreQuiet(cfg: Config, c: Conn, e: Event)
    requires c.handshakeComplete ==> c.state.Complete?
    requires (e.Con? ==> c.handshakeComplete || !c.state.AwaitingConnect?)
    requires (e.ConCmp? ==> c.handshakeComplete || !c.state.AwaitingConnectComplete? || e.opId != 0)
    ensures Quiet(c, Dispatched(cfg, c, e).0)
  {
    if e.PeerError? || e.PeerErrorAck? {
      ErrorsAreQuiet(cfg, c, e.opId, e.w);
    }
  }

  /** What a con leaves that was refused before any conRsp: no step taken, and the connect operation failed. */
  ghost predicate RefusedFrom(c: Conn, d: Conn) {
    && d.log == c.log && d.handshakeComplete == c.handshakeComplete && d.closed == c.closed
    && (d.state.AwaitingConnectErrorAck? || d.state.Terminal?)
  }

  /** What a con leaves that was answered with conRsp. */
  ghost predicate OfferMade(cfg: Config, tenant: int, c: Conn, d: Conn, e: Event) {
    && d.log == c.log + Offered(d.terms) && d.handshakeComplete == c.handshakeComplete && d.closed == c.closed
    && d.state.AwaitingConnectComplete?
    && TermsOf(cfg, tenant, d.terms, e) && OffersOps(d) == OfferedOps(e)
  }

  /** Preparing a session, refused or not, takes no step of the connection. */
  lemma PreparingIsNoStep(cfg: Config, c: Conn, e: Event)
    requires e.Con?
    ensures var p := Prepared(cfg, c, e.con, e.w).0;
            p.state == c.state && p.log == c.log && p.handshakeComplete == c.handshakeComplete && p.closed == c.closed
  {
  }

  /** A con that is not refused prepares the terms of its own registration, version and resume answer. */
  lemma PreparedTerms(cfg: Config, c: Conn, e: Event)
    requires e.Con? && c.terms == FreshConn(0).terms && c.offer.None?
    requires Prepared(cfg, c, e.con, e.w).1.None? && e.opId == 0 && e.w.sends
    ensures var p := Prepared(cfg, c, e.con, e.w).0;
            TermsOf(cfg, c.tenant, p.terms, e) && OffersOps(p) == OfferedOps(e)
  {
    var read := ReadRequest(cfg, c, e.con).0;
    var version := e.con.version.value;
    assert read == c.(terms := Terms(e.con.bsEui.eui, version, cfg.negotiate(version).value, e.con.bidi.value, None, None, false, 0));
  }

  /** A con on a fresh connection is refused without a step, or answered with an offer made for it. */
  lemma ConnectedOffersOrRefuses(cfg: Config, c: Conn, e: Event)
    requires e.Con? && c.state.AwaitingConnect? && c.terms == FreshConn(0).terms && c.offer.None?
    ensures var (d, failed) := Connected(cfg, c, e.opId, e.con, e.w);
            RefusedFrom(c, d) || (OfferMade(cfg, c.tenant, c, d, e) && !failed)
  {
    PreparingIsNoStep(cfg, c, e);
    if Prepared(cfg, c, e.con, e.w).1.None? && e.opId == 0 && e.w.sends {
      PreparedTerms(cfg, c, e);
    }
  }

  lemma OfferKeepsInv(cfg: Config, tenant: int, c: Conn, events: seq<Event>, d: Conn, failed: bool, e: Event)
    requires Inv(cfg, tenant, c, events) && c.state.AwaitingConnect?
    requires RefusedFrom(c, d) || (OfferMade(cfg, tenant, c, d, e) && !failed)
    ensures Inv(cfg, tenant, Closing(d, failed), events + [e])
  {
    var later := events + [e];
    if d.state.AwaitingConnectComplete? {
      assert later[|events|] == e && TermsOf(cfg, tenant, d.terms, later[|events|]);
      assert Progress(cfg, d, later, |events|);
    }
  }

  /** The conCmp that is accepted takes the steps of the offer up to the first that fails. */
  lemma CompletionKeepsInv(cfg: Config, tenant: int, c: Conn, events: seq<Event>, e: Event)
    requires Inv(cfg, tenant, c, events) && c.state.AwaitingConnectComplete? && !c.closed && e.ConCmp? && e.opId == 0
    ensures var (d, failed) := ConnectCompleted(cfg, c, 0, e.w);
            Inv(cfg, tenant, Closing(d, failed), events + [e])
  {
    var i :| 0 <= i < |events| && TermsOf(cfg, tenant, c.terms, events[i]) && Progress(cfg, c, events, i);
    var later := events + [e];
    assert later[i] == events[i] && later[|events|] == e;
    var (d, failed) := ConnectCompleted(cfg, c, 0, e.w);
    assert Progress(cfg, Closing(d, failed), later, i);
  }

  lemma AfterKeepsInv(cfg: Config, tenant: int, c: Conn, events: seq<Event>, e: Event)
    requires Inv(cfg, tenant, c, events)
    ensures Inv(cfg, tenant, After(cfg, c, e), events + [e])
  {
    if c.closed {
      QuietKeepsInv(cfg, tenant, c, events, c, false, e);
    } else {
      var (d, failed) := Dispatched(cfg, c, e);
      assert After(cfg, c, e) == Closing(d, failed);
      if e.Con? && c.state.AwaitingConnect? {
        ConnectedOffersOrRefuses(cfg, c, e);
        OfferKeepsInv(cfg, tenant, c, events, d, failed, e);
      } else if e.ConCmp? && c.state.AwaitingConnectComplete? && e.opId == 0 {
        CompletionKeepsInv(cfg, tenant, c, events, e);
      } else {
        OthersAreQuiet(cfg, c, e);
        QuietKeepsInv(cfg, tenant, c, events, d, failed, e);
      }
    }
  }

  lemma {:induction false} RunKeepsInv(cfg: Config, tenant: int, events: seq<Event>)
    ensures Inv(cfg, tenant, Run(cfg, FreshConn(tenant), events), events)
  {
    if events != [] {
      var front, last := events[..|events| - 1], events[|events| - 1];
      RunKeepsInv(cfg, tenant, front);
      AfterKeepsInv(cfg, tenant, Run(cfg, FreshConn(tenant), front), front, last);
      assert events == front + [last];
    }
  }

  // ----- what holds over every run -----

  /**
   While conCmp is awaited, the session's EUI, version and registration are those of
   the one con that was admitted; conRsp, and nothing else, was done, with that version.
   */
  lemma {:induction false} AwaitedCompletionMatchesTheOffer(cfg: Config, tenant: int, events: seq<Event>)
    requires Run(cfg, FreshConn(tenant), events).state.AwaitingConnectComplete?
    ensures var c := Run(cfg, FreshConn(tenant), events);
            && c.log == [SentConRsp(c.terms.negotiatedVersion, c.terms.resumed, c.terms.uuid)]
            && exists i | 0 <= i < |events| :: TermsOf(cfg, tenant, c.terms, events[i]) && OffersOps(c) == OfferedOps(events[i])
  {
    RunKeepsInv(cfg, tenant, events);
  }

  /** The con whose offer an active connection carries out. */
  lemma ActivatedOffer(cfg: Config, tenant: int, events: seq<Event>) returns (i: nat, writes: Writes)
    requires Run(cfg, FreshConn(tenant), events).handshakeComplete
    ensures var c := Run(cfg, FreshConn(tenant), events);
            && i < |events| && TermsOf(cfg, tenant, c.terms, events[i])
            && c.log == Offered(c.terms) + (Activation(cfg, c.terms) + Resumption(cfg, OfferedOps(events[i]), writes))
  {
    var c := Run(cfg, FreshConn(tenant), events);
    RunKeepsInv(cfg, tenant, events);
    i :| 0 <= i < |events| && TermsOf(cfg, tenant, c.terms, events[i]) && Progress(cfg, c, events, i);
    var j :| i < j < |events| && events[j].ConCmp?
             && c.log == Offered(c.terms) + (Activation(cfg, c.terms) + Resumption(cfg, OfferedOps(events[i]), events[j].w.writes));
    writes := events[j].w.writes;
  }

  /** The steps of a run that made an offer, in full. */
  lemma LogOf(cfg: Config, tenant: int, events: seq<Event>) returns (ops: seq<PendingOp>, writes: Writes)
    requires Run(cfg, FreshConn(tenant), events).log != []
    ensures var c := Run(cfg, FreshConn(tenant), events);
            && c.terms.station.Some?
            && if c.handshakeComplete then
                 c.log == Offered(c.terms) + (Activation(cfg, c.terms) + Resumption(cfg, ops, writes))
               else
                 c.log == Offered(c.terms) || c.log == Offered(c.terms) + [PersistFailed]
                 || c.log == Offered(c.terms) + UnregisteredSteps(c.terms)
  {
    var c := Run(cfg, FreshConn(tenant), events);
    RunKeepsInv(cfg, tenant, events);
    ops, writes := [], n => true;
    if c.handshakeComplete {
      var i, allWrites := ActivatedOffer(cfg, tenant, events);
      ops, writes := OfferedOps(events[i]), allWrites;
    }
  }

  lemma ResumptionKinds(cfg: Config, ops: seq<PendingOp>, writes: Writes, e: Effect)
    requires e in Resumption(cfg, ops, writes)
    ensures e.Restored? || e.Reissued? || e.ReissueFailed? || e.StatusStarted?
  {
    if e != StatusStarted {
      TraceKinds(cfg.registry, ops, 0, writes, cfg.beyond, e);
    }
  }

  lemma ActiveLog(cfg: Config, t: Terms, ops: seq<PendingOp>, writes: Writes, k: nat)
    requires t.station.Some?
    requires k < |Offered(t) + (Activation(cfg, t) + Resumption(cfg, ops, writes))|
    ensures var log := Offered(t) + (Activation(cfg, t) + Resumption(cfg, ops, writes));
            && log[..6] == Offered(t) + PublishingSteps(t)
            && (log[k].SessionPublished? ==> k == 4)
            && !log[k].PersistFailed? && !log[k].RegisterFailed?
  {
    var first, last := Offered(t) + PublishingSteps(t), FinishingSteps(cfg, t);
    var rest := Resumption(cfg, ops, writes);
    assert Offered(t) + (Activation(cfg, t) + rest) == first + (last + rest);
    if |first| + |last| <= k {
      ResumptionKinds(cfg, ops, writes, rest[k - |first| - |last|]);
    }
  }

  /**
   A session is published at most once, and only as the fifth step: after conRsp,
   persisting, reclaiming and registering all succeeded with the offered terms.
   */
  lemma {:induction false} PublishedOnlyAfterPersistAndRegister(cfg: Config, tenant: int, events: seq<Event>, k: nat)
    requires k < |Run(cfg, FreshConn(tenant), events).log| && Run(cfg, FreshConn(tenant), events).log[k].SessionPublished?
    ensures var c := Run(cfg, FreshConn(tenant), events);
            && k == 4 && c.handshakeComplete && c.terms.station.Some? && 5 <= |c.log|
            && c.log[..5] == [SentConRsp(c.terms.negotiatedVersion, c.terms.resumed, c.terms.uuid),
                              SessionPersisted(c.terms.station.value, c.terms.eui, c.terms.negotiatedVersion, c.terms.resumed),
                              ReservationsReclaimed,
                              ConnectionRegistered(c.terms.station.value, c.terms.uuid),
                              SessionPublished(c.terms.eui, c.terms.uuid)]
  {
    var c := Run(cfg, FreshConn(tenant), events);
    var ops, writes := LogOf(cfg, tenant, events);
    if c.handshakeComplete {
      ActiveLog(cfg, c.terms, ops, writes, k);
      assert c.log[..5] == c.log[..6][..5];
    }
  }

  /** A persist or register that failed is the last step, of a connection that never became active. */
  lemma {:induction false} FailureIsTheLastStep(cfg: Config, tenant: int, events: seq<Event>, k: nat)
    requires k < |Run(cfg, FreshConn(tenant), events).log|
    requires var step := Run(cfg, FreshConn(tenant), events).log[k]; step.PersistFailed? || step.RegisterFailed?
    ensures var c := Run(cfg, FreshConn(tenant), events);
            k == |c.log| - 1 && !c.handshakeComplete
  {
    var c := Run(cfg, FreshConn(tenant), events);
    var ops, writes := LogOf(cfg, tenant, events);
    if c.handshakeComplete {
      ActiveLog(cfg, c.terms, ops, writes, k);
    }
  }

  /** The steps that belong to the reissue, or follow it. */
  predicate AfterActivation(e: Effect) {
    e.Reissued? || e.Restored? || e.StatusStarted?
  }

  lemma ResumptionFrames(cfg: Config, ops: seq<PendingOp>, writes: Writes)
    ensures var (trace, done) := ReissueTrace(cfg.registry, ops, 0, writes, cfg.beyond);
            var log := Resumption(cfg, ops, writes);
            && FramesOf(log) == FramesOf(trace) && RestoredOps(log) == RestoredOps(trace)
            && (StatusStarted in log <==> done)
            && (done ==> log != [] && log[|log| - 1] == StatusStarted)
  {
    var (trace, done) := ReissueTrace(cfg.registry, ops, 0, writes, cfg.beyond);
    FramesOfAppend(trace, if done then [StatusStarted] else []);
    RestoredOpsAppend(trace, if done then [StatusStarted] else []);
    if StatusStarted in trace {
      TraceKinds(cfg.registry, ops, 0, writes, cfg.beyond, StatusStarted);
    }
  }

  lemma {:induction false} WithoutFrames(log: seq<Effect>)
    requires forall e <- log :: !AfterActivation(e)
    ensures FramesOf(log) == [] && RestoredOps(log) == []
  {
    if log != [] {
      assert !AfterActivation(log[0]);
      WithoutFrames(log[1..]);
    }
  }

  lemma CompletedFrames(cfg: Config, before: seq<Effect>, ops: seq<PendingOp>, writes: Writes)
    requires forall e <- before :: !AfterActivation(e)
    ensures var log := before + Resumption(cfg, ops, writes);
            var eligible := Eligible(cfg.registry, ops, cfg.beyond);
            && FramesOf(log) <= eligible
            && (StatusStarted in log <==> FramesOf(log) == eligible)
            && (StatusStarted in log ==> log[|log| - 1] == StatusStarted && RestoredOps(log) == ops)
  {
    WithoutFrames(before);
    FramesOfAppend(before, Resumption(cfg, ops, writes));
    RestoredOpsAppend(before, Resumption(cfg, ops, writes));
    ReissueSendsAPrefix(cfg.registry, ops, 0, writes, cfg.beyond);
    ReissueRestoresAPrefix(cfg.registry, ops, 0, writes, cfg.beyond);
    ResumptionFrames(cfg, ops, writes);
    assert StatusStarted !in before;
  }

  lemma BeforeTheReissue(cfg: Config, t: Terms)
    requires t.station.Some?
    ensures forall e <- Offered(t) + Activation(cfg, t) :: !AfterActivation(e)
  {
  }

  /**
   On an active connection the frames reissued are a prefix, in order, of the eligible
   operations of the session the con offered to resume; status polling starts exactly
   when that is all of them, and then as the last step.
   */
  lemma PollingStartsExactlyAfterTheReissue(cfg: Config, tenant: int, events: seq<Event>)
    requires Run(cfg, FreshConn(tenant), events).handshakeComplete
    ensures var c := Run(cfg, FreshConn(tenant), events);
            exists i | 0 <= i < |events| ::
              && TermsOf(cfg, tenant, c.terms, events[i])
              && var eligible := Eligible(cfg.registry, OfferedOps(events[i]), cfg.beyond);
                 && FramesOf(c.log) <= eligible
                 && (StatusStarted in c.log <==> FramesOf(c.log) == eligible)
                 && (StatusStarted in c.log ==> c.log[|c.log| - 1] == StatusStarted && RestoredOps(c.log) == OfferedOps(events[i]))
  {
    var c := Run(cfg, FreshConn(tenant), events);
    var i, writes := ActivatedOffer(cfg, tenant, events);
    var before := Offered(c.terms) + Activation(cfg, c.terms);
    var resumption := Resumption(cfg, OfferedOps(events[i]), writes);
    assert c.log == before + resumption;
    BeforeTheReissue(cfg, c.terms);
    CompletedFrames(cfg, before, OfferedOps(events[i]), writes);
  }

  /** What a connection activates is what it restored: the log holds no restored operation before. */
  lemma ActivatedRestores(cfg: Config, c: Conn, ops: seq<PendingOp>, w: World)
    requires c.terms.station.Some? && w.persists && w.registers && c.log == Offered(c.terms)
    ensures var d := Activated(cfg, c, ops, w).0;
            d.cache == Cached(c.cache, RestoredOps(d.log))
  {
    var before, after := Offered(c.terms) + Activation(cfg, c.terms), Resumption(cfg, ops, w.writes);
    assert Activated(cfg, c, ops, w).0.log == Offered(c.terms) + (Activation(cfg, c.terms) + after) == before + after;
    BeforeTheReissue(cfg, c.terms);
    WithoutFrames(before);
    RestoredOpsAppend(before, after);
    ResumptionFrames(cfg, ops, w.writes);
    assert RestoredOps(before + after) == [] + RestoredOps(after) == RestoredOps(after);
  }

  lemma OnlyPrepares(cfg: Config, c: Conn, e: Event)
    requires e.Con?
    ensures Connected(cfg, c, e.opId, e.con, e.w).0.handshakeComplete == c.handshakeComplete
  {
  }

  /** Only a conCmp that is awaited, persisted and registered completes the handshake. */
  lemma OnlyConCmpCompletes(cfg: Config, c: Conn, e: Event)
    requires !c.handshakeComplete && After(cfg, c, e).handshakeComplete
    ensures e.ConCmp? && c.state.AwaitingConnectComplete? && c.terms.station.Some? && e.w.persists && e.w.registers
    ensures var d := Activated(cfg, c.(offer := None), OffersOps(c), e.w).0;
            After(cfg, c, e).log == d.log && After(cfg, c, e).cache == d.cache
  {
    if e.Con? {
      OnlyPrepares(cfg, c, e);
    } else if !e.ConCmp? {
      if e.PeerError? || e.PeerErrorAck? {
        ErrorsAreQuiet(cfg, c, e.opId, e.w);
      }
    }
  }

  /**
   Right after the conCmp that activates a connection, the cache holds every operation
   the connection restored, each ID its last one.
   */
  lemma RestoredOperationsAreCached(cfg: Config, tenant: int, events: seq<Event>, e: Event, i: nat)
    requires !Run(cfg, FreshConn(tenant), events).handshakeComplete && Run(cfg, FreshConn(tenant), events + [e]).handshakeComplete
    requires LastOfItsId(RestoredOps(Run(cfg, FreshConn(tenant), events + [e]).log), i)
    ensures var d := Run(cfg, FreshConn(tenant), events + [e]);
            var op := RestoredOps(d.log)[i];
            op.opId in d.cache && d.cache[op.opId] == op
  {
    var c := Run(cfg, FreshConn(tenant), events);
    RunKeepsInv(cfg, tenant, events);
    assert (events + [e])[..|events|] == events;
    OnlyConCmpCompletes(cfg, c, e);
    AwaitedCompletionMatchesTheOffer(cfg, tenant, events);
    ActivatedRestores(cfg, c.(offer := None), OffersOps(c), e.w);
    var d := After(cfg, c, e);
    LastRestoredIsCached(c.cache, RestoredOps(d.log), i);
  }

  /** An active connection stays complete, whatever arrives, until it closes. */
  lemma CompleteUntilClosed(cfg: Config, tenant: int, events: seq<Event>, e: Event)
    requires Run(cfg, FreshConn(tenant), events).state.Complete?
    ensures var c := Run(cfg, FreshConn(tenant), events + [e]);
            && c.terms == Run(cfg, FreshConn(tenant), events).terms && c.handshakeComplete
            && (c.state.Complete? || (c.closed && c.state.Terminal?))
  {
    RunKeepsInv(cfg, tenant, events);
    assert (events + [e])[..|events|] == events;
    OthersAreQuiet(cfg, Run(cfg, FreshConn(tenant), events), e);
  }
}
