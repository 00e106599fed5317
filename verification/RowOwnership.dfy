/**
 Who owns a base station's row. Every registration writes its session ID into the
 row; a connection that goes away may take the row offline only while the row is
 still its own.
 */
module RowOwnership {
  import opened Wrappers

  datatype Row = Row(isOnline: bool, lastSeen: int, connectionType: string, sessionUuid: Option<string>, startedAt: Option<int>)

  /** A status update; a registration is one that carries a session ID. */
  datatype Status = Status(isOnline: bool, lastSeen: int, connectionType: string, sessionId: string, startedAt: Option<int>)

  /** Whether the store answers the read and the write of an operation, and the recorder its event. */
  datatype World = World(answersRead: bool, answersWrite: bool, answersEvent: bool)

  datatype Op =
    | Update(eui: nat, status: Status, w: World)
    | Seen(eui: nat, at: int, w: World)
    | Disconnect(eui: nat, connectionId: string, at: int, w: World)

  datatype Event = Online(eui: nat, at: int, sessionId: string) | Offline(eui: nat, at: int, sessionId: string)

  datatype Error = BaseStationNotFound | StoreFailed | RecordFailed

  type Rows = map<nat, Row>

  // ----- what an operation leaves in the rows -----

  function Written(r: Row, s: Status): Row {
    r.(isOnline := s.isOnline, lastSeen := s.lastSeen, connectionType := s.connectionType,
       sessionUuid := if s.sessionId != "" then Some(s.sessionId) else r.sessionUuid,
       startedAt := if s.startedAt.Some? then s.startedAt else r.startedAt)
  }

  function TakenOffline(r: Row, at: int): Row {
    r.(isOnline := false, lastSeen := at)
  }

  /** The operation reached the store and found its row. */
  predicate Reaches(rows: Rows, op: Op) {
    op.eui in rows && op.w.answersRead && op.w.answersWrite
  }

  predicate Owns(rows: Rows, op: Op)
    requires op.Disconnect?
  {
    op.eui in rows && rows[op.eui].sessionUuid == Some(op.connectionId)
  }

  /** The operation changes the row's status. */
  predicate Effective(rows: Rows, op: Op) {
    Reaches(rows, op) && (op.Disconnect? ==> Owns(rows, op))
  }

  function SeenStatus(r: Row, at: int): Status {
    Status(true, at, r.connectionType, "", None)
  }

  function After(rows: Rows, op: Op): Rows {
    if !Effective(rows, op) then rows
    else
      var r := rows[op.eui];
      rows[op.eui := match op
                     case Update(_, status, _) => Written(r, status)
                     case Seen(_, at, _) => Written(r, SeenStatus(r, at))
                     case Disconnect(_, _, at, _) => TakenOffline(r, at)]
  }

  function EventOf(op: Op): Option<Event> {
    match op
    case Update(eui, s, _) => Some(if s.isOnline then Online(eui, s.lastSeen, s.sessionId) else Offline(eui, s.lastSeen, s.sessionId))
    case Seen(_, _, _) => None
    case Disconnect(eui, id, at, _) => Some(Offline(eui, at, id))
  }

  /** The event an operation records: that of a change to the row, and only while the recorder answers. */
  function Recorded(rows: Rows, op: Op): seq<Event> {
    if Effective(rows, op) && EventOf(op).Some? && op.w.answersEvent then [EventOf(op).value] else []
  }

  function Run(rows: Rows, ops: seq<Op>): Rows {
    if ops == [] then rows else After(Run(rows, ops[..|ops| - 1]), ops[|ops| - 1])
  }

  function EventsOf(rows: Rows, ops: seq<Op>): seq<Event> {
    if ops == [] then []
    else EventsOf(rows, ops[..|ops| - 1]) + Recorded(Run(rows, ops[..|ops| - 1]), ops[|ops| - 1])
  }

  /** The store behind the connection manager, with the recorded events. */
  class ConnectionManager {
    var rows: Rows
    var events: seq<Event>

    constructor (rows: Rows)
      ensures this.rows == rows && events == []
    {
      this.rows, events := rows, [];
    }

    /** The adapter's write, after its read. */
    method StoreStatus(eui: nat, status: Status, w: World) returns (out: Outcome<Error>)
      modifies this`rows
      ensures rows == After(old(rows), Update(eui, status, w))
      ensures out == if !w.answersRead then Fail(StoreFailed) else if eui !in old(rows) then Fail(BaseStationNotFound)
                     else if !w.answersWrite then Fail(StoreFailed) else Pass
    {
      if !w.answersRead {
        return Fail(StoreFailed);
      }
      if eui !in rows {
        return Fail(BaseStationNotFound);
      }
      if !w.answersWrite {
        return Fail(StoreFailed);
      }
      var row := rows[eui].(isOnline := status.isOnline, lastSeen := status.lastSeen, connectionType := status.connectionType);
      if status.sessionId != "" {
        row := row.(sessionUuid := Some(status.sessionId));
      }
      if status.startedAt.Some? {
        row := row.(startedAt := status.startedAt);
      }
      rows := rows[eui := row];
      return Pass;
    }

    method UpdateConnectionStatus(eui: nat, status: Status, w: World) returns (out: Outcome<Error>)
      modifies this
      ensures rows == After(old(rows), Update(eui, status, w))
      ensures events == old(events) + Recorded(old(rows), Update(eui, status, w))
      ensures out.Pass? <==> Reaches(old(rows), Update(eui, status, w)) && w.answersEvent
    {
      out := StoreStatus(eui, status, w);
      if out.Fail? {
        return;
      }
      if !w.answersEvent {
        return Fail(RecordFailed);
      }
      events := events + [if status.isOnline then Online(eui, status.lastSeen, status.sessionId)
                          else Offline(eui, status.lastSeen, status.sessionId)];
      return Pass;
    }

    /** Activity keeps the row online without touching who owns it, and records no event. */
    method UpdateLastSeen(eui: nat, at: int, w: World) returns (out: Outcome<Error>)
      modifies this
      ensures rows == After(old(rows), Seen(eui, at, w)) && events == old(events)
      ensures out.Pass? <==> Reaches(old(rows), Seen(eui, at, w))
    {
      if !w.answersRead {
        return Fail(StoreFailed);
      }
      if eui !in rows {
        return Fail(BaseStationNotFound);
      }
      out := StoreStatus(eui, Status(true, at, rows[eui].connectionType, "", None), w);
    }

    /** The adapter's conditional offline write; it tells whether it acted. */
    method DisconnectIfCurrent(eui: nat, connectionId: string, at: int, w: World) returns (acted: Result<bool, Error>)
      modifies this`rows
      ensures rows == After(old(rows), Disconnect(eui, connectionId, at, w))
      ensures acted == Success(true) <==> Effective(old(rows), Disconnect(eui, connectionId, at, w))
      ensures acted == Success(false) <==> w.answersRead && !Owns(old(rows), Disconnect(eui, connectionId, at, w))
    {
      if !w.answersRead {
        return Failure(StoreFailed);
      }
      if eui !in rows {
        return Success(false);
      }
      if rows[eui].sessionUuid.None? || rows[eui].sessionUuid.value != connectionId {
        return Success(false);
      }
      if !w.answersWrite {
        return Failure(StoreFailed);
      }
      rows := rows[eui := rows[eui].(isOnline := false, lastSeen := at)];
      return Success(true);
    }

    method DisconnectBaseStationIfCurrent(eui: nat, connectionId: string, at: int, w: World) returns (out: Outcome<Error>)
      modifies this
      ensures rows == After(old(rows), Disconnect(eui, connectionId, at, w))
      ensures events == old(events) + Recorded(old(rows), Disconnect(eui, connectionId, at, w))
    {
      var acted := DisconnectIfCurrent(eui, connectionId, at, w);
      if acted.Failure? {
        return Fail(acted.fault);
      }
      if !acted.value {
        return Pass;
      }
      if !w.answersEvent {
        return Fail(RecordFailed);
      }
      events := events + [Offline(eui, at, connectionId)];
      return Pass;
    }

    /** The operations in turn. */
    method Serve(ops: seq<Op>)
      modifies this
      ensures rows == Run(old(rows), ops)
      ensures events == old(events) + EventsOf(old(rows), ops)
    {
      for i := 0 to |ops|
        invariant rows == Run(old(rows), ops[..i])
        invariant events == old(events) + EventsOf(old(rows), ops[..i])
      {
        assert ops[..i + 1][..i] == ops[..i];
        match ops[i] {
          case Update(eui, status, w) =>
            var _ := UpdateConnectionStatus(eui, status, w);
          case Seen(eui, at, w) =>
            var _ := UpdateLastSeen(eui, at, w);
          case Disconnect(eui, connectionId, at, w) =>
            var _ := DisconnectBaseStationIfCurrent(eui, connectionId, at, w);
        }
      }
      assert ops[..|ops|] == ops;
    }
  }

  /**
   What one operation leaves and records: an update that reaches its row writes the status,
   with its session and start if it carries them; activity only keeps the row online; and a
   disconnect takes offline only the row of its own session. Nothing else changes.
   */
  lemma OperationLeaves(rows: Rows, op: Op)
    ensures var after, recorded := After(rows, op), Recorded(rows, op);
            if op.eui in rows && op.w.answersRead && op.w.answersWrite && (op.Disconnect? ==> rows[op.eui].sessionUuid == Some(op.connectionId))
            then
              var row := rows[op.eui];
              match op
              case Update(eui, s, w) =>
                && after == rows[eui := Row(s.isOnline, s.lastSeen, s.connectionType,
                                            if s.sessionId == "" then row.sessionUuid else Some(s.sessionId),
                                            if s.startedAt.None? then row.startedAt else s.startedAt)]
                && (!w.answersEvent ==> recorded == [])
                && (w.answersEvent && s.isOnline ==> recorded == [Online(eui, s.lastSeen, s.sessionId)])
                && (w.answersEvent && !s.isOnline ==> recorded == [Offline(eui, s.lastSeen, s.sessionId)])
              case Seen(eui, at, _) =>
                after == rows[eui := Row(true, at, row.connectionType, row.sessionUuid, row.startedAt)] && recorded == []
              case Disconnect(eui, id, at, w) =>
                && after == rows[eui := Row(false, at, row.connectionType, row.sessionUuid, row.startedAt)]
                && recorded == if w.answersEvent then [Offline(eui, at, id)] else []
            else after == rows && recorded == []
  {
  }

  /** The events of a run are those its operations recorded, each once and in order. */
  lemma EventsFollowTheOperations(rows: Rows, ops: seq<Op>, k: nat)
    requires k < |ops|
    ensures EventsOf(rows, ops[..0]) == [] && ops[..|ops|] == ops
    ensures EventsOf(rows, ops[..k + 1]) == EventsOf(rows, ops[..k]) + Recorded(Run(rows, ops[..k]), ops[k])
  {
    assert ops[..k + 1][..k] == ops[..k];
  }

  // ----- serial runs -----

  /** The operation registers a session for the station. */
  predicate Registers(op: Op, eui: nat) {
    op.Update? && op.eui == eui && op.status.sessionId != "" && op.w.answersRead && op.w.answersWrite
  }

  /** The session registered last, or the one the row had before. */
  function LastRegistered(before: Option<string>, ops: seq<Op>, eui: nat): Option<string> {
    if ops == [] then before
    else if Registers(ops[|ops| - 1], eui) then Some(ops[|ops| - 1].status.sessionId)
    else LastRegistered(before, ops[..|ops| - 1], eui)
  }

  /** Over every run no row appears or goes, and a row's session is the one registered last. */
  lemma {:induction false} RowBelongsToTheLastRegistration(rows: Rows, ops: seq<Op>, eui: nat)
    ensures Run(rows, ops).Keys == rows.Keys
    ensures eui in rows ==> Run(rows, ops)[eui].sessionUuid == LastRegistered(rows[eui].sessionUuid, ops, eui)
  {
    if ops == [] {
    } else {
      RowBelongsToTheLastRegistration(rows, ops[..|ops| - 1], eui);
    }
  }

  /** A disconnect of a session that is not the last registered changes no row and records no event. */
  lemma ForeignDisconnectDoesNothing(rows: Rows, ops: seq<Op>, op: Op)
    requires op.Disconnect? && op.eui in rows
    requires LastRegistered(rows[op.eui].sessionUuid, ops, op.eui) != Some(op.connectionId)
    ensures Run(rows, ops + [op]) == Run(rows, ops)
    ensures EventsOf(rows, ops + [op]) == EventsOf(rows, ops)
  {
    RowBelongsToTheLastRegistration(rows, ops, op.eui);
    assert (ops + [op])[..|ops|] == ops;
  }

  /** The last operation of a run that wrote the station's status. */
  predicate LastWrite(rows: Rows, ops: seq<Op>, eui: nat, k: nat) {
    && k < |ops| && ops[k].eui == eui && Effective(Run(rows, ops[..k]), ops[k])
    && forall j | k < j < |ops| :: ops[j].eui != eui || !Effective(Run(rows, ops[..j]), ops[j])
  }

  predicate BringsOnline(op: Op) {
    op.Seen? || (op.Update? && op.status.isOnline)
  }

  lemma {:induction false} UntouchedSince(rows: Rows, ops: seq<Op>, eui: nat, k: nat)
    requires k <= |ops| && eui in rows
    requires forall j | k <= j < |ops| :: ops[j].eui != eui || !Effective(Run(rows, ops[..j]), ops[j])
    ensures eui in Run(rows, ops[..k]) && eui in Run(rows, ops)
    ensures Run(rows, ops)[eui] == Run(rows, ops[..k])[eui]
    decreases |ops| - k
  {
    RowBelongsToTheLastRegistration(rows, ops[..k], eui);
    if k == |ops| {
      assert ops[..k] == ops;
    } else {
      UntouchedSince(rows, ops, eui, k + 1);
      assert ops[..k + 1][..k] == ops[..k] && ops[..k + 1][k] == ops[k];
    }
  }

  /**
   A row is online exactly when the last write of its status was activity or an online
   update; it is offline only after an explicit offline update or a disconnect of the
   session that had registered last.
   */
  lemma OnlineExactlyAfterAnOnlineWrite(rows: Rows, ops: seq<Op>, eui: nat, k: nat)
    requires eui in rows && LastWrite(rows, ops, eui, k)
    ensures eui in Run(rows, ops)
    ensures Run(rows, ops)[eui].isOnline <==> BringsOnline(ops[k])
    ensures !BringsOnline(ops[k]) ==>
              || (ops[k].Update? && !ops[k].status.isOnline)
              || (ops[k].Disconnect? && LastRegistered(rows[eui].sessionUuid, ops[..k], eui) == Some(ops[k].connectionId))
  {
    RowBelongsToTheLastRegistration(rows, ops[..k], eui);
    UntouchedSince(rows, ops, eui, k + 1);
    assert ops[..k + 1][..k] == ops[..k] && ops[..k + 1][k] == ops[k];
  }

  // ----- the disconnect as the code does it: a read, then a write -----

  /** A disconnect that read its own row, was overtaken by other operations, and then wrote: the rows, and that it acted. */
  function SplitDisconnect(rows: Rows, between: seq<Op>, op: Op): (Rows, bool)
    requires op.Disconnect? && Owns(rows, op)
  {
    var overtaken := Run(rows, between);
    (if op.eui in overtaken then overtaken[op.eui := TakenOffline(overtaken[op.eui], op.at)] else overtaken, true)
  }

  /** What the conditional transition promises at the moment of its write. */
  function AtomicDisconnect(rows: Rows, between: seq<Op>, op: Op): (Rows, bool)
    requires op.Disconnect?
  {
    var overtaken := Run(rows, between);
    (After(overtaken, op), Effective(overtaken, op))
  }

  /**
   Reading first and writing later is the promised transition exactly when the last
   registration in between, if any, is the disconnecting session's own.
   */
  lemma SplitIsAtomicExactlyWhen(rows: Rows, between: seq<Op>, op: Op)
    requires op.Disconnect? && Owns(rows, op) && op.w.answersRead && op.w.answersWrite
    ensures SplitDisconnect(rows, between, op) == AtomicDisconnect(rows, between, op)
            <==> LastRegistered(Some(op.connectionId), between, op.eui) == Some(op.connectionId)
  {
    RowBelongsToTheLastRegistration(rows, between, op.eui);
  }

  /** A reconnect between the read and the write is taken offline, although its session is the one registered last. */
  lemma ReconnectTakenOffline(rows: Rows, op: Op, reconnect: Op)
    requires op.Disconnect? && Owns(rows, op)
    requires Registers(reconnect, op.eui) && reconnect.status.isOnline && reconnect.status.sessionId != op.connectionId
    ensures var (left, acted) := SplitDisconnect(rows, [reconnect], op);
            acted && op.eui in left && !left[op.eui].isOnline && left[op.eui].sessionUuid == Some(reconnect.status.sessionId)
  {
    assert [reconnect][..0] == [];
    assert Run(rows, [reconnect]) == After(rows, reconnect);
  }
}
