/**
 When an attach is pending: from the attRsp that answers it, or from the session that
 resumed it, until attCmp completes it or another message takes its record.
 */
module PendingAttaches {
  import AttachCounter
  import opened AttachHandler
  import opened AttachLaws
  import opened AttachRuns
  import opened Bytes
  import opened Wrappers

  /** Every frame is written and every removal of a record succeeds. */
  predicate Succeeds(e: Event) {
    match e
    case ErrorAckArrives(_) => true
    case AttachedElsewhere(_, _) => true
    case ConnectionLost => true
    case _ => e.c.sends && e.c.removes
  }

  predicate AttachPending(d: Desk, opId: int) {
    opId in d.pending && d.pending[opId].AttachOp?
  }

  /** The event is an att under that ID that is answered with attRsp. */
  predicate Accepts(d: Desk, e: Event, opId: int) {
    && !d.closed && e.AttArrives? && e.opId == opId && e.c.sends
    && AfterAtt(d, opId, e.att, e.c).frames[|d.frames|].AttRsp?
  }

  /** The event is an attCmp for the open operation. */
  predicate CompletionArrives(d: Desk, e: Event, opId: int) {
    !d.closed && e.AttCmpArrives? && e.opId == opId && MayClose(d, opId)
  }

  /**
   The event takes away what is recorded under the ID: an error, a det that is recorded
   or a dlDataResCmp under the open ID, or an att that is recorded there and refused.
   */
  predicate Takes(d: Desk, e: Event, opId: int) {
    && !d.closed
    && match e
       case AttArrives(id, a, c) => id == opId && MayOpen(d, opId) && IsRecorded(d, a, c) && RefusesRecorded(d, a, c)
       case DetArrives(id, journaled, _) => id == opId && MayOpen(d, opId) && journaled
       case ResultCmpArrives(id, _) => id == opId && MayClose(d, opId)
       case ErrorArrives(id, _) => id == opId
       case _ => false
  }

  /** What an att does to the record of an operation. */
  lemma AttOnPending(d: Desk, opId: int, a: Att, c: Collaborators, id: int)
    requires c.sends && c.removes && !d.closed
    ensures var e, after := AttArrives(opId, a, c), AfterAtt(d, opId, a, c);
            AttachPending(after, id) <==> Accepts(d, e, id) || (AttachPending(d, id) && !Takes(d, e, id))
  {
    RecordsAfterAtt(d, opId, a, c);
    AcceptedUnlessRefused(d, opId, a, c);
  }

  /** An attach is pending after an event exactly when the event is its accepted att, or it was pending and neither completed nor taken. */
  lemma PendingAfter(d: Desk, e: Event, opId: int)
    requires Succeeds(e)
    ensures AttachPending(After(d, e), opId) <==>
            Accepts(d, e, opId) || (AttachPending(d, opId) && !CompletionArrives(d, e, opId) && !Takes(d, e, opId))
  {
    if e.AttArrives? && !d.closed {
      AttOnPending(d, e.opId, e.att, e.c, opId);
    }
  }

  predicate DetachPending(d: Desk, opId: int) {
    opId in d.pending && d.pending[opId].DetachOp?
  }

  /** The event is a det in sequence that is recorded under that ID. */
  predicate RecordsDetach(d: Desk, e: Event, opId: int) {
    !d.closed && e.DetArrives? && e.opId == opId && MayOpen(d, opId) && e.journaled
  }

  /** What an att does to the detach record of an operation. */
  lemma AttOnDetach(d: Desk, opId: int, a: Att, c: Collaborators, id: int)
    requires c.sends && c.removes && !d.closed
    ensures var e, after := AttArrives(opId, a, c), AfterAtt(d, opId, a, c);
            DetachPending(after, id) <==> DetachPending(d, id) && !Accepts(d, e, id) && !Takes(d, e, id)
  {
    RecordsAfterAtt(d, opId, a, c);
    AcceptedUnlessRefused(d, opId, a, c);
  }

  /** A detach is pending after an event exactly when the event records it, or it was pending and neither completed, replaced nor taken. */
  lemma DetachPendingAfter(d: Desk, e: Event, opId: int)
    requires Succeeds(e)
    ensures DetachPending(After(d, e), opId) <==>
            || RecordsDetach(d, e, opId)
            || (&& DetachPending(d, opId) && !Accepts(d, e, opId) && !Takes(d, e, opId)
                && !(!d.closed && e.DetCmpArrives? && e.opId == opId && MayClose(d, opId)))
  {
    if e.AttArrives? && !d.closed {
      AttOnDetach(d, e.opId, e.att, e.c, opId);
    }
  }

  /** What the events of a run are to one operation: event j answers it, completes it or takes its record; pending says so before it. */
  datatype History = History(answered: nat -> bool, completed: nat -> bool, taken: nat -> bool, pending: nat -> bool)

  predicate AnsweredIn(d: Desk, events: seq<Event>, opId: int, j: nat) {
    j < |events| && Accepts(Before(d, events, j), events[j], opId)
  }

  predicate CompletedIn(d: Desk, events: seq<Event>, opId: int, j: nat) {
    j < |events| && CompletionArrives(Before(d, events, j), events[j], opId)
  }

  predicate TakenIn(d: Desk, events: seq<Event>, opId: int, j: nat) {
    j < |events| && Takes(Before(d, events, j), events[j], opId)
  }

  predicate PendingBefore(d: Desk, events: seq<Event>, opId: int, j: nat) {
    j <= |events| && AttachPending(Before(d, events, j), opId)
  }

  function HistoryOf(d: Desk, events: seq<Event>, opId: int): History {
    History((j: nat) => AnsweredIn(d, events, opId, j), (j: nat) => CompletedIn(d, events, opId, j),
            (j: nat) => TakenIn(d, events, opId, j), (j: nat) => PendingBefore(d, events, opId, j))
  }

  /** The attach was answered at event k, or before the run when k is -1. */
  predicate AnsweredAt(h: History, k: int) {
    -1 <= k && if k == -1 then h.pending(0) else h.answered(k)
  }

  /** It happens at no event after k and before n. */
  predicate NotSince(happens: nat -> bool, k: int, n: nat) {
    forall j: nat | k < j < n :: !happens(j)
  }

  /** Answered at k, and neither completed nor taken since. */
  predicate StandsSince(h: History, k: int, n: nat) {
    k < n && AnsweredAt(h, k) && NotSince(h.completed, k, n) && NotSince(h.taken, k, n)
  }

  /** attRsp was sent for the attach, and no attCmp has arrived since. */
  ghost predicate AwaitsCompletion(h: History, n: nat) {
    exists k | k < n :: AnsweredAt(h, k) && NotSince(h.completed, k, n)
  }

  /** Answered at k for the last time, with no attCmp since, and then an event took the record. */
  predicate TakenSince(h: History, k: int, n: nat) {
    k < n && AnsweredAt(h, k) && NotSince(h.answered, k, n) && NotSince(h.completed, k, n) && !NotSince(h.taken, k, n)
  }

  /** Event j answers the operation, or leaves it pending unless it completes or takes it. */
  predicate LawfulAt(h: History, j: nat) {
    h.pending(j + 1) <==> h.answered(j) || (h.pending(j) && !h.completed(j) && !h.taken(j))
  }

  predicate Lawful(h: History, n: nat) {
    forall j: nat | j < n :: LawfulAt(h, j)
  }

  lemma LawfulIn(d: Desk, events: seq<Event>, opId: int, j: nat)
    requires j < |events| && Succeeds(events[j])
    ensures LawfulAt(HistoryOf(d, events, opId), j)
  {
    PendingAfter(Before(d, events, j), events[j], opId);
    BeforeNext(d, events, j);
  }

  lemma RunsAreLawful(d: Desk, events: seq<Event>, opId: int)
    requires forall e <- events :: Succeeds(e)
    ensures Lawful(HistoryOf(d, events, opId), |events|)
  {
    forall j: nat | j < |events| ensures LawfulAt(HistoryOf(d, events, opId), j) {
      LawfulIn(d, events, opId, j);
    }
  }

  lemma NotSinceLonger(happens: nat -> bool, k: int, n: nat)
    requires k < n
    ensures NotSince(happens, k, n + 1) <==> NotSince(happens, k, n) && !happens(n)
  {
  }

  lemma {:induction false} PendingSinceItsAnswer(h: History, n: nat)
    requires Lawful(h, n)
    ensures h.pending(n) <==> exists k :: StandsSince(h, k, n)
  {
    if n == 0 {
      assert StandsSince(h, -1, 0) <==> h.pending(0);
    } else {
      PendingSinceItsAnswer(h, n - 1);
      assert StandsSince(h, n - 1, n) <==> h.answered(n - 1);
      assert LawfulAt(h, n - 1);
      forall k | -1 <= k < n - 1
        ensures StandsSince(h, k, n) <==> StandsSince(h, k, n - 1) && !h.completed(n - 1) && !h.taken(n - 1)
      {
        NotSinceLonger(h.completed, k, n - 1);
        NotSinceLonger(h.taken, k, n - 1);
      }
      if h.pending(n) && !h.answered(n - 1) {
        var k :| StandsSince(h, k, n - 1);
        assert StandsSince(h, k, n);
      }
      if k :| StandsSince(h, k, n) {
        assert k == n - 1 || StandsSince(h, k, n - 1);
      }
    }
  }

  lemma {:induction false} LastAnswer(h: History, k: int, n: nat, m: nat) returns (last: int)
    requires k < n <= m && AnsweredAt(h, k) && NotSince(h.answered, n - 1, m)
    ensures k <= last < n && AnsweredAt(h, last) && NotSince(h.answered, last, m)
    decreases n
  {
    if k == n - 1 {
      last := k;
    } else if h.answered(n - 1) {
      last := n - 1;
    } else {
      last := LastAnswer(h, k, n - 1, m);
    }
  }

  /**
   Over every run whose sends and removals succeed, resumed attaches included: an attach
   is pending exactly when it was answered with attRsp and no event since completed it
   or took its record.
   */
  lemma {:induction false} RunKeepsPendingAnswered(d: Desk, events: seq<Event>, opId: int)
    requires forall e <- events :: Succeeds(e)
    ensures AttachPending(Run(d, events), opId) <==> exists k :: StandsSince(HistoryOf(d, events, opId), k, |events|)
  {
    RunsAreLawful(d, events, opId);
    PendingSinceItsAnswer(HistoryOf(d, events, opId), |events|);
    assert events[..|events|] == events;
  }

  lemma LostWhenTaken(h: History, n: nat)
    ensures (exists k :: TakenSince(h, k, n)) <==> AwaitsCompletion(h, n) && !exists k :: StandsSince(h, k, n)
  {
    if AwaitsCompletion(h, n) && !exists k :: StandsSince(h, k, n) {
      var k :| k < n && AnsweredAt(h, k) && NotSince(h.completed, k, n);
      var last := LastAnswer(h, k, n, n);
      assert !StandsSince(h, last, n);
      assert TakenSince(h, last, n);
    }
    forall k, m | TakenSince(h, k, n) ensures !StandsSince(h, m, n) {
      var j: nat :| k < j < n && h.taken(j);
      if k < m < n {
        assert !h.answered(m);
      }
    }
  }

  /**
   Pending means attRsp sent and attCmp outstanding, except exactly when, after the att
   was last answered, an event took its record: an error for the operation, a det or a
   dlDataResCmp under its open ID, or an att that was recorded there and refused.
   */
  lemma {:induction false} PendingMeansAwaitingExactlyWhen(d: Desk, events: seq<Event>, opId: int)
    requires forall e <- events :: Succeeds(e)
    ensures var h, n := HistoryOf(d, events, opId), |events|;
            && (AttachPending(Run(d, events), opId) ==> AwaitsCompletion(h, n))
            && ((AttachPending(Run(d, events), opId) <==> AwaitsCompletion(h, n)) <==> !exists k :: TakenSince(h, k, n))
  {
    RunKeepsPendingAnswered(d, events, opId);
    LostWhenTaken(HistoryOf(d, events, opId), |events|);
    forall k | StandsSince(HistoryOf(d, events, opId), k, |events|) ensures AwaitsCompletion(HistoryOf(d, events, opId), |events|) {
    }
  }

  /** A message under the ID that may record, take or replace an operation's record. */
  predicate Touches(e: Event, opId: int) {
    (e.AttArrives? || e.DetArrives? || e.ResultCmpArrives? || e.ErrorArrives?) && e.opId == opId
  }

  lemma EventsTouch(d: Desk, events: seq<Event>, opId: int, j: nat)
    requires AnsweredIn(d, events, opId, j) || TakenIn(d, events, opId, j)
    ensures j < |events| && Touches(events[j], opId)
  {
  }

  /** A record that is taken was touched twice: when it was answered, if not resumed, and when it was taken. */
  lemma TakenTouchesTwice(d: Desk, events: seq<Event>, opId: int, k: int)
    requires TakenSince(HistoryOf(d, events, opId), k, |events|)
    ensures || (AttachPending(d, opId) && exists e <- events :: Touches(e, opId))
            || (exists i, j | 0 <= i < j < |events| :: Touches(events[i], opId) && Touches(events[j], opId))
  {
    var j: nat :| k < j < |events| && TakenIn(d, events, opId, j);
    EventsTouch(d, events, opId, j);
    if k >= 0 {
      EventsTouch(d, events, opId, k);
    } else {
      assert events[..0] == [];
      assert events[j] in events;
    }
  }

  /**
   An operation under whose ID only one att, and no error, det or dlDataResCmp, arrives is
   pending exactly when attRsp was sent and attCmp has not arrived; so is a resumed one
   for which none of them arrives.
   */
  lemma {:induction false} InitiatedOnceIsNeverLost(d: Desk, events: seq<Event>, opId: int)
    requires forall e <- events :: Succeeds(e)
    requires forall i, j | 0 <= i < j < |events| :: !(Touches(events[i], opId) && Touches(events[j], opId))
    requires AttachPending(d, opId) ==> forall e <- events :: !Touches(e, opId)
    ensures AttachPending(Run(d, events), opId) <==> AwaitsCompletion(HistoryOf(d, events, opId), |events|)
  {
    PendingMeansAwaitingExactlyWhen(d, events, opId);
    forall k ensures !TakenSince(HistoryOf(d, events, opId), k, |events|) {
      if TakenSince(HistoryOf(d, events, opId), k, |events|) {
        TakenTouchesTwice(d, events, opId, k);
        assert false;
      }
    }
  }

  /** The attCmp of an attach that is not pending, lost or never answered, decides nothing and ends the connection. */
  lemma CompletionWithoutRecordFails(d: Desk, opId: int, c: Collaborators)
    requires !d.closed && !AttachPending(d, opId)
    ensures var after := After(d, AttCmpArrives(opId, c)); after.closed && after.decided == d.decided && after.pending == d.pending
  {
  }

  // Runs that lose a record: a desk with one over-the-air endpoint, an att for it, and then another message under its ID.

  function OneEndpoint(): Desk {
    Desk(1, 0, {}, map[], Stored(map[5 := Endpoint(7, 1, seq(16, _ => 0 as Byte), None, [], None)], map[]), [], [], [], false)
  }

  function AttOfCounter3(): Att {
    Att(Some(5), Some(0), Some(3), true, true, Valid([1, 2, 3, 4]), Valid([1, 2, 3, 4]), true, true, None)
  }

  function AllSucceed(): Collaborators {
    Collaborators(false, true, true, (_, _, _, _) => true, (_, _, _, _) => Some([9 as Byte]), [], Commits, true, true)
  }

  function AcceptedAtt(): Event {
    AttArrives(1, AttOfCounter3(), AllSucceed())
  }

  /** The desk before the message. */
  function Served(): Desk {
    After(OneEndpoint(), AcceptedAtt())
  }

  /** After the accepted att the message leaves an attach that awaits its attCmp without its record. */
  ghost predicate LosesPending(e: Event) {
    var events := [AcceptedAtt(), e];
    AwaitsCompletion(HistoryOf(OneEndpoint(), events, 1), 2) && !AttachPending(Run(OneEndpoint(), events), 1)
  }

  lemma FirstAttIsAnswered()
    ensures Fresh(OneEndpoint()) && Accepts(OneEndpoint(), AcceptedAtt(), 1)
    ensures Served().open == {1} && Served().lastOpId == 1 && !Served().closed && Served().station == 1
    ensures 5 in Served().stored.endpoints
    ensures OverTheAirBound(Served().stored.endpoints[5]) == Some(3) && |Served().stored.endpoints[5].nwkSnKey| == 16
  {
    var d, a, c := OneEndpoint(), AttOfCounter3(), AllSucceed();
    assert FieldRefusal(a).None? && Raced(d.stored, 5, c.races) == d.stored;
    assert Judge(d.stored, 1, a, c).Serve?;
  }

  lemma TakingLosesPending(e: Event)
    requires Succeeds(e) && Takes(Served(), e, 1) && !Accepts(Served(), e, 1) && !CompletionArrives(Served(), e, 1)
    ensures LosesPending(e)
  {
    var d, events := OneEndpoint(), [AcceptedAtt(), e];
    FirstAttIsAnswered();
    assert events[..0] == [] && events[..1] == [AcceptedAtt()] && [AcceptedAtt()][..0] == [];
    assert Before(d, events, 0) == d && Before(d, events, 1) == Served() && Run(d, events) == After(Served(), e);
    PendingAfter(Served(), e, 1);
    var h := HistoryOf(d, events, 1);
    assert AnsweredIn(d, events, 1, 0) && !CompletedIn(d, events, 1, 1);
    assert AnsweredAt(h, 0) && NotSince(h.completed, 0, 2);
  }

  /** The station reports an error for the operation. */
  lemma ErrorLosesPending()
    ensures LosesPending(ErrorArrives(1, AllSucceed()))
  {
    FirstAttIsAnswered();
    TakingLosesPending(ErrorArrives(1, AllSucceed()));
  }

  /** The station initiates a detach under the ID of the open attach. */
  lemma DetLosesPending()
    ensures LosesPending(DetArrives(1, true, AllSucceed()))
  {
    FirstAttIsAnswered();
    TakingLosesPending(DetArrives(1, true, AllSucceed()));
  }

  /** The station completes a downlink result under the ID of the open attach. */
  lemma ResultCompletionLosesPending()
    ensures LosesPending(ResultCmpArrives(1, AllSucceed()))
  {
    FirstAttIsAnswered();
    TakingLosesPending(ResultCmpArrives(1, AllSucceed()));
  }

  /** The station repeats the att, and the second is refused as stale. */
  lemma RepeatedAttLosesPending()
    ensures LosesPending(AcceptedAtt())
  {
    FirstAttIsAnswered();
    var d, a, c := Served(), AttOfCounter3(), AllSucceed();
    assert IsRecorded(d, a, c) && RefusesRecorded(d, a, c);
    AcceptedUnlessRefused(d, 1, a, c);
    TakingLosesPending(AcceptedAtt());
  }
}
