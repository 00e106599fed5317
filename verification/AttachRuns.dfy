/**
 Runs of one base station connection as its attach operations see it: att and attCmp,
 every other message that may use the same operation ID, and the attaches other
 stations bring.
 */
module AttachRuns {
  import opened AttachHandler
  import opened Wrappers

  datatype Event =
    | AttArrives(opId: int, att: Att, c: Collaborators)
    | AttCmpArrives(opId: int, c: Collaborators)
    | DetArrives(opId: int, journaled: bool, c: Collaborators)
    | DetCmpArrives(opId: int, c: Collaborators)
    | ResultCmpArrives(opId: int, c: Collaborators)
    | ErrorArrives(opId: int, c: Collaborators)
    | ErrorAckArrives(opId: int)
    | Opens(opId: int, c: Collaborators)            // any opening message whose handler records nothing
    | Closes(opId: int, c: Collaborators)           // any completion whose handler removes nothing
    | AttachedElsewhere(epEui: nat, r: AttachRecord) // another station's attach is persisted
    | ConnectionLost

  function After(d: Desk, e: Event): Desk {
    match e
    case AttachedElsewhere(epEui, r) => d.(stored := PersistAttachSession(d.stored, epEui, r, Commits).0)
    case _ =>
      if d.closed then d
      else match e
        case AttArrives(opId, a, c) => AfterAtt(d, opId, a, c)
        case AttCmpArrives(opId, c) => AfterAttCmp(d, opId, c)
        case DetArrives(opId, journaled, c) => AfterDet(d, opId, journaled, c)
        case DetCmpArrives(opId, c) => AfterDetCmp(d, opId, c)
        case ResultCmpArrives(opId, c) => AfterResultCmp(d, opId, c)
        case ErrorArrives(opId, c) => AfterError(d, opId, c)
        case ErrorAckArrives(opId) => Ended(d, opId)
        case Opens(opId, c) => if OpenFault(d, opId).Some? then OutOfSequence(d, opId, OpenFault(d, opId).value, c)
                               else Sent(Started(d, opId), Reply(opId), c)
        case Closes(opId, c) => if CloseFault(d, opId).Some? then OutOfSequence(d, opId, CloseFault(d, opId).value, c)
                                else d.(open := d.open - {opId})
        case _ => d.(closed := true)
  }

  function Run(d: Desk, events: seq<Event>): Desk {
    if events == [] then d else After(Run(d, events[..|events| - 1]), events[|events| - 1])
  }

  /** The desk before event j of a run. */
  function Before(d: Desk, events: seq<Event>, j: nat): Desk
    requires j <= |events|
  {
    Run(d, events[..j])
  }

  lemma BeforeNext(d: Desk, events: seq<Event>, j: nat)
    requires j < |events|
    ensures Before(d, events, j + 1) == After(Before(d, events, j), events[j])
  {
    assert events[..j + 1][..j] == events[..j];
  }

  // ----- operations complete and are decided at most once -----

  /** A connection that has just completed its handshake, with the operations its session resumed. */
  predicate Fresh(d: Desk) {
    && d.lastOpId >= 0 && !d.closed && d.frames == [] && d.completions == [] && d.decided == []
    && (forall opId <- d.pending :: opId in d.open)
    && (forall opId <- d.open :: 0 < opId <= d.lastOpId)
  }

  ghost predicate Sequenced(d: Desk) {
    && d.lastOpId >= 0
    && (forall opId <- d.open :: 0 < opId <= d.lastOpId && opId !in d.completions)
    && (forall opId <- d.completions :: 0 < opId <= d.lastOpId)
    && (forall i, j | 0 <= i < j < |d.completions| :: d.completions[i] != d.completions[j])
    && (forall i, j | 0 <= i < j < |d.decided| :: d.decided[i].opId != d.decided[j].opId)
    && (forall decision <- d.decided :: decision.opId in d.completions)
  }

  lemma AttCmpStaysSequenced(d: Desk, opId: int, c: Collaborators)
    requires Sequenced(d)
    ensures Sequenced(AfterAttCmp(d, opId, c))
  {
  }

  lemma FreshIsSequenced(d: Desk)
    requires Fresh(d)
    ensures Sequenced(d)
  {
  }

  /** The event completes and decides nothing, and opens at most a new operation. */
  predicate OnlyOpens(d: Desk, after: Desk) {
    && after.completions == d.completions && after.decided == d.decided && after.lastOpId >= d.lastOpId
    && forall opId <- after.open :: opId in d.open || d.lastOpId < opId == after.lastOpId
  }

  lemma OnlyOpensStaysSequenced(d: Desk, after: Desk)
    requires Sequenced(d) && OnlyOpens(d, after)
    ensures Sequenced(after)
  {
  }

  lemma AfterStaysSequenced(d: Desk, e: Event)
    requires Sequenced(d)
    ensures Sequenced(After(d, e))
  {
    if e.AttCmpArrives? {
      AttCmpStaysSequenced(d, e.opId, e.c);
    } else {
      assert OnlyOpens(d, After(d, e));
      OnlyOpensStaysSequenced(d, After(d, e));
    }
  }

  /**
   Over every run, whatever arrives and whatever fails: operations complete at most
   once, every decision belongs to a completed operation, and no operation is decided
   twice.
   */
  lemma {:induction false} RunDecidesOnce(d: Desk, events: seq<Event>)
    requires Sequenced(d)
    ensures Sequenced(Run(d, events))
  {
    if events != [] {
      RunDecidesOnce(d, events[..|events| - 1]);
      AfterStaysSequenced(Run(d, events[..|events| - 1]), events[|events| - 1]);
    }
  }
}
