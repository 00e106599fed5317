/** What a base station connection does that others can see, in the order it does it. */
module ConnectLog {
  import opened Codec
  import opened Wrappers

  datatype Station = Station(id: int, eui: nat, tenant: int)

  datatype GeoFix = GeoFix(latitude: real, longitude: real, altitude: real)

  datatype PendingOp = PendingOp(opId: int, command: string, message: Message)

  datatype Token =
    | MandatoryFieldMissing | MissingBsEui | InvalidBsEui | MissingBidiFlag | VersionIncompatible | CatalogToken(code: int)
    | InvalidHandshakeState | InvalidConnectOpId | InvalidConnectCompleteOpId | BaseStationNotRegistered
    | CommandBeforeHandshake

  /** The error exchange (BSSCI section 5.17), which replaces the rest of an operation. */
  datatype Exchange =
    | SentError(opId: int, token: Token)
    | SentErrorAck(opId: int)
    | Compensated(op: PendingOp)
    | ResumeRetired

  /** The steps that make or resume a session. */
  datatype Effect =
    | SentConRsp(version: string, resumed: bool, uuid: int)
    | SessionPersisted(station: Station, eui: nat, version: string, resumed: bool)
    | PersistFailed
    | ReservationsReclaimed
    | ConnectionRegistered(station: Station, uuid: int)
    | RegisterFailed
    | SessionPublished(eui: nat, uuid: int)
    | SessionIndexed(uuid: int)
    | CapabilitiesRecorded(stationId: int, bidi: bool, geo: Option<GeoFix>)
    | HandshakeMarked
    | OperationsReopened
    | Restored(op: PendingOp)
    | Reissued(opId: int, frame: Message)
    | ReissueFailed(opId: int)
    | StatusStarted
}
