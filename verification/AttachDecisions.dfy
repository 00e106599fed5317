/**
 What an attCmp decides: the attach that was last answered under its ID, with the
 endpoint as it was stored when that att arrived.
 */
module AttachDecisions {
  import opened AttachHandler
  import opened AttachLaws
  import opened AttachRuns
  import opened PendingAttaches
  import opened Wrappers

  /** An answered att is recorded under its ID with its EUI, its counter, and the endpoint stored when it arrived. */
  lemma AnsweredAttIsRecorded(d: Desk, e: Event, opId: int)
    requires Accepts(d, e, opId)
    ensures e.att.epEui.Some? && e.att.attachCnt.Some? && e.att.epEui.value in d.stored.endpoints && e.att.attachCnt.value >= 0
    ensures var after, endpoint := After(d, e), d.stored.endpoints[e.att.epEui.value];
            && after.pending == d.pending[opId := AttachOp(e.att.epEui.value, endpoint.id, endpoint.owner, e.att.attachCnt.value)]
            && after.decided == d.decided && after.completions == d.completions && !after.closed
            && opId in after.open
  {
    AcceptedUnlessRefused(d, opId, e.att, e.c);
  }

  /** A record stays as it is until its attach is answered anew, completed or taken. */
  lemma RecordStays(d: Desk, e: Event, opId: int)
    requires Succeeds(e) && AttachPending(d, opId) && !Accepts(d, e, opId) && !CompletionArrives(d, e, opId) && !Takes(d, e, opId)
    ensures opId in After(d, e).pending && After(d, e).pending[opId] == d.pending[opId]
  {
    if e.AttArrives? && !d.closed {
      RecordsAfterAtt(d, e.opId, e.att, e.c);
      AcceptedUnlessRefused(d, e.opId, e.att, e.c);
    }
  }

  /** The attach was last answered at event k, before the run when k is -1, and neither completed nor taken since. */
  predicate LastAnsweredAt(h: History, k: int, n: nat) {
    StandsSince(h, k, n) && NotSince(h.answered, k, n)
  }

  /** What was recorded when the attach was answered. */
  function AnsweredRecord(d: Desk, events: seq<Event>, opId: int, k: int): Pending
    requires -1 <= k < |events| && AnsweredAt(HistoryOf(d, events, opId), k)
  {
    if k == -1 then Before(d, events, 0).pending[opId]
    else
      var desk, a := Before(d, events, k), events[k].att;
      AnsweredAttIsRecorded(desk, events[k], opId);
      AttachOp(a.epEui.value, desk.stored.endpoints[a.epEui.value].id, desk.stored.endpoints[a.epEui.value].owner, a.attachCnt.value)
  }

  lemma LastAnsweredEarlier(h: History, k: int, n: nat)
    requires LastAnsweredAt(h, k, n + 1) && k < n
    ensures LastAnsweredAt(h, k, n) && !h.answered(n) && !h.completed(n) && !h.taken(n)
  {
  }

  lemma RecordStandsAtFirst(d: Desk, events: seq<Event>, opId: int, k: int)
    requires -1 <= k < |events| && AnsweredAt(HistoryOf(d, events, opId), k)
    ensures AttachPending(Before(d, events, k + 1), opId) && Before(d, events, k + 1).pending[opId] == AnsweredRecord(d, events, opId, k)
  {
    if k >= 0 {
      AnsweredAttIsRecorded(Before(d, events, k), events[k], opId);
      BeforeNext(d, events, k);
    }
  }

  lemma RecordStandsOn(d: Desk, events: seq<Event>, opId: int, n: nat, p: Pending)
    requires n < |events| && Succeeds(events[n]) && p.AttachOp? && !AnsweredIn(d, events, opId, n)
    requires !CompletedIn(d, events, opId, n) && !TakenIn(d, events, opId, n)
    requires opId in Before(d, events, n).pending && Before(d, events, n).pending[opId] == p
    ensures opId in Before(d, events, n + 1).pending && Before(d, events, n + 1).pending[opId] == p
  {
    RecordStays(Before(d, events, n), events[n], opId);
    BeforeNext(d, events, n);
  }

  lemma {:induction false} RecordStands(d: Desk, events: seq<Event>, opId: int, k: int, n: nat)
    requires n <= |events| && k < |events| && forall e <- events :: Succeeds(e)
    requires LastAnsweredAt(HistoryOf(d, events, opId), k, n)
    ensures opId in Before(d, events, n).pending && Before(d, events, n).pending[opId] == AnsweredRecord(d, events, opId, k)
    ensures AnsweredRecord(d, events, opId, k).AttachOp?
    decreases n
  {
    RecordStandsAtFirst(d, events, opId, k);
    if n > k + 1 {
      LastAnsweredEarlier(HistoryOf(d, events, opId), k, n - 1);
      RecordStands(d, events, opId, k, n - 1);
      assert !AnsweredIn(d, events, opId, n - 1) && !CompletedIn(d, events, opId, n - 1) && !TakenIn(d, events, opId, n - 1);
      RecordStandsOn(d, events, opId, n - 1, AnsweredRecord(d, events, opId, k));
    }
  }

  /** What deciding a record appends: nothing unless endpoint and EUI are known. */
  function DecidedFrom(opId: int, p: Pending): seq<Decision>
    requires p.AttachOp?
  {
    if p.endpointId > 0 && p.epEui != 0 then [Decision(opId, p.owner, p.endpointId, p.epEui)] else []
  }

  /** An attach is decided by the attCmp that completes its record, from that record, and by nothing else. */
  lemma DecidedByItsCompletion(d: Desk, e: Event)
    ensures After(d, e).decided == d.decided + (if e.AttCmpArrives? && CompletionArrives(d, e, e.opId) && AttachPending(d, e.opId)
                                                then DecidedFrom(e.opId, d.pending[e.opId]) else [])
    ensures e.AttCmpArrives? && CompletionArrives(d, e, e.opId) && AttachPending(d, e.opId) ==>
              && After(d, e).completions == d.completions + [e.opId] && !After(d, e).closed
              && After(d, e).pending == if e.c.removes then d.pending - {e.opId} else d.pending
  {
  }

  /**
   Over every run whose sends and removals succeed: the attCmp of an attach that was last
   answered at event k, and neither completed nor taken since, decides it. One decision is
   appended, with the EUI of that att and the ID and owner of the endpoint stored when it
   arrived, or none if that ID is not positive or the EUI is zero. The operation completes
   and its record goes.
   */
  lemma {:induction false} AnsweredAttachIsDecided(d: Desk, events: seq<Event>, opId: int, k: nat, c: Collaborators)
    requires k < |events| && forall e <- events :: Succeeds(e)
    requires LastAnsweredAt(HistoryOf(d, events, opId), k, |events|)
    requires CompletionArrives(Run(d, events), AttCmpArrives(opId, c), opId)
    ensures events[k].AttArrives? && events[k].att.epEui.Some? && events[k].att.epEui.value in Before(d, events, k).stored.endpoints
    ensures var eui, desk, after := events[k].att.epEui.value, Run(d, events), After(Run(d, events), AttCmpArrives(opId, c));
            var endpoint := Before(d, events, k).stored.endpoints[eui];
            && after.decided == desk.decided + (if endpoint.id > 0 && eui != 0 then [Decision(opId, endpoint.owner, endpoint.id, eui)] else [])
            && after.completions == desk.completions + [opId] && !after.closed
            && after.pending == if c.removes then desk.pending - {opId} else desk.pending
  {
    RecordStands(d, events, opId, k, |events|);
    AnsweredAttIsRecorded(Before(d, events, k), events[k], opId);
    DecidedByItsCompletion(Run(d, events), AttCmpArrives(opId, c));
    assert events[..|events|] == events;
  }

  /** An attach the session resumed, and nothing answered, completed or took since, is decided from the record it resumed. */
  lemma {:induction false} ResumedAttachIsDecided(d: Desk, events: seq<Event>, opId: int, c: Collaborators)
    requires AttachPending(d, opId) && forall e <- events :: Succeeds(e)
    requires LastAnsweredAt(HistoryOf(d, events, opId), -1, |events|)
    requires CompletionArrives(Run(d, events), AttCmpArrives(opId, c), opId)
    ensures var p, desk, after := d.pending[opId], Run(d, events), After(Run(d, events), AttCmpArrives(opId, c));
            && after.decided == desk.decided + (if p.endpointId > 0 && p.epEui != 0 then [Decision(opId, p.owner, p.endpointId, p.epEui)] else [])
            && after.completions == desk.completions + [opId] && !after.closed
            && after.pending == if c.removes then desk.pending - {opId} else desk.pending
  {
    RecordStands(d, events, opId, -1, |events|);
    DecidedByItsCompletion(Run(d, events), AttCmpArrives(opId, c));
    assert events[..|events|] == events && events[..0] == [];
  }

  /** The attach of that decision was last answered at event k and completed by the attCmp at event j. */
  ghost predicate DecidedAt(d: Desk, events: seq<Event>, decision: Decision, k: int, j: nat) {
    && k < j < |events| && LastAnsweredAt(HistoryOf(d, events, decision.opId), k, j)
    && CompletedIn(d, events, decision.opId, j)
    && AnsweredRecord(d, events, decision.opId, k).AttachOp?
    && [decision] == DecidedFrom(decision.opId, AnsweredRecord(d, events, decision.opId, k))
  }

  ghost predicate DecidedIn(d: Desk, events: seq<Event>, decision: Decision, n: nat) {
    exists k, j: nat | j < n :: DecidedAt(d, events, decision, k, j)
  }

  /** A pending attach was last answered at some event. */
  lemma PendingWasLastAnswered(d: Desk, events: seq<Event>, opId: int, n: nat) returns (k: int)
    requires n <= |events| && (forall e <- events :: Succeeds(e)) && AttachPending(Before(d, events, n), opId)
    ensures k < n && LastAnsweredAt(HistoryOf(d, events, opId), k, n)
  {
    var h := HistoryOf(d, events, opId);
    RunsAreLawful(d, events, opId);
    PendingSinceItsAnswer(h, n);
    var m :| StandsSince(h, m, n);
    k := LastAnswer(h, m, n, n);
  }

  lemma {:induction false} DecidedBefore(d: Desk, events: seq<Event>, n: nat)
    requires n <= |events| && forall e <- events :: Succeeds(e)
    ensures forall decision <- Before(d, events, n).decided :: decision in d.decided || DecidedIn(d, events, decision, n)
  {
    if n == 0 {
      assert events[..0] == [];
    } else {
      DecidedBefore(d, events, n - 1);
      BeforeNext(d, events, n - 1);
      var desk, e := Before(d, events, n - 1), events[n - 1];
      DecidedByItsCompletion(desk, e);
      forall decision | decision in Before(d, events, n).decided && decision !in desk.decided
        ensures DecidedIn(d, events, decision, n)
      {
        var k := PendingWasLastAnswered(d, events, e.opId, n - 1);
        RecordStands(d, events, e.opId, k, n - 1);
        assert DecidedAt(d, events, decision, k, n - 1);
      }
      forall decision | DecidedIn(d, events, decision, n - 1) ensures DecidedIn(d, events, decision, n) {
        var k, j: nat :| j < n - 1 && DecidedAt(d, events, decision, k, j);
        assert DecidedAt(d, events, decision, k, j);
      }
    }
  }

  /**
   Nothing else is ever decided: over every run whose sends and removals succeed, each
   decision has the EUI, the endpoint and the owner recorded for an attach that was
   answered, and completed by an attCmp later, with nothing in between that answered it
   anew, completed it or took its record.
   */
  lemma {:induction false} OnlyAnsweredAttachesAreDecided(d: Desk, events: seq<Event>)
    requires forall e <- events :: Succeeds(e)
    ensures forall decision <- Run(d, events).decided :: decision in d.decided || DecidedIn(d, events, decision, |events|)
  {
    DecidedBefore(d, events, |events|);
    assert events[..|events|] == events;
  }

  /** The accepted att of one endpoint and its attCmp leave one decision, and nothing open or pending. */
  lemma CompletedAttachIsDecided()
    ensures var after := After(Served(), AttCmpArrives(1, AllSucceed()));
            && after.decided == [Decision(1, 1, 7, 5)] && after.completions == [1]
            && after.open == {} && after.pending == map[] && !after.closed
  {
    FirstAttIsAnswered();
    AnsweredAttIsRecorded(OneEndpoint(), AcceptedAtt(), 1);
    assert OneEndpoint().stored.endpoints[5] == Endpoint(7, 1, seq(16, _ => 0), None, [], None);
  }
}
