/**
 The attach counters a connection stores: the handler's check and transaction keep the
 order the counter rule promises, over every run and whatever other stations bring.
 */
module StoredAttachCounters {
  import AttachCounter
  import opened AttachHandler
  import opened AttachRuns
  import PendingAttaches
  import opened Wrappers

  /** The counter that binds an endpoint's next attach. */
  function Bound(s: Stored, epEui: nat): Option<nat> {
    if epEui in s.endpoints then OverTheAirBound(s.endpoints[epEui]) else None
  }

  function PersistedCounter(s: Stored, epEui: nat, r: AttachRecord, tx: Transaction): seq<nat> {
    if PersistAttachSession(s, epEui, r, tx).1 == Persisted then [r.attachCnt] else []
  }

  function RacedCounters(s: Stored, epEui: nat, races: seq<AttachRecord>): seq<nat>
    decreases races
  {
    if races == [] then []
    else
      PersistedCounter(s, epEui, races[0], Commits)
      + RacedCounters(PersistAttachSession(s, epEui, races[0], Commits).0, epEui, races[1..])
  }

  /** The counters an event stores for an endpoint: those of attaches other stations bring, and its own. */
  function CountersOf(d: Desk, e: Event, epEui: nat): seq<nat> {
    match e
    case AttachedElsewhere(id, r) => if id == epEui then PersistedCounter(d.stored, epEui, r, Commits) else []
    case AttArrives(opId, a, c) =>
      var verdict := Judge(d.stored, d.station, a, c);
      if d.closed || OpenFault(d, opId).Some? || verdict.Refuse? || a.epEui != Some(epEui) then []
      else RacedCounters(d.stored, epEui, c.races) + PersistedCounter(Locked(d, a, c), epEui, verdict.record, c.tx)
    case _ => []
  }

  /** The counters a run stores for an endpoint, oldest first. */
  function StoredCounters(d: Desk, events: seq<Event>, epEui: nat): seq<nat> {
    if events == [] then []
    else
      StoredCounters(d, events[..|events| - 1], epEui)
      + CountersOf(Run(d, events[..|events| - 1]), events[|events| - 1], epEui)
  }

  /** The counters advance one another from the first bound on, and the last of them is the final bound. */
  ghost predicate Advance(initial: Option<nat>, counters: seq<nat>, final: Option<nat>) {
    var trail := AttachCounter.TrailOf(initial, counters);
    AttachCounter.Chain(AttachCounter.BSSCI_WINDOW, trail) && final == (if trail == [] then None else Some(trail[|trail| - 1]))
  }

  predicate Fits(bound: Option<nat>) {
    bound.Some? ==> bound.value <= AttachCounter.BSSCI_WINDOW.max
  }

  lemma AdvanceOn(a: Option<nat>, x: seq<nat>, b: Option<nat>, y: seq<nat>, c: Option<nat>)
    requires Advance(a, x, b) && Advance(b, y, c)
    ensures Advance(a, x + y, c)
  {
    var first, second, whole := AttachCounter.TrailOf(a, x), AttachCounter.TrailOf(b, y), AttachCounter.TrailOf(a, x + y);
    assert whole == first + y;
    if first != [] {
      var n := |first|;
      assert forall k | n - 1 <= k < |whole| :: whole[k] == second[k - (n - 1)];
      assert forall k | 0 <= k < n :: whole[k] == first[k];
      forall k | 0 < k < |whole| ensures AttachCounter.Advances(AttachCounter.BSSCI_WINDOW, Some(whole[k - 1]), whole[k]) {
        if k >= n {
          assert AttachCounter.Advances(AttachCounter.BSSCI_WINDOW, Some(second[k - (n - 1) - 1]), second[k - (n - 1)]);
        }
      }
    } else {
      assert whole == second;
    }
  }

  lemma PersistAdvances(s: Stored, epEui: nat, r: AttachRecord, tx: Transaction, other: nat)
    requires Fits(Bound(s, epEui))
    ensures Advance(Bound(s, epEui), PersistedCounter(s, epEui, r, tx), Bound(PersistAttachSession(s, epEui, r, tx).0, epEui))
    ensures other != epEui ==> Bound(PersistAttachSession(s, epEui, r, tx).0, other) == Bound(s, other)
  {
  }

  lemma {:induction false} RacedAdvances(s: Stored, epEui: nat, races: seq<AttachRecord>, other: nat)
    requires Fits(Bound(s, epEui))
    ensures Advance(Bound(s, epEui), RacedCounters(s, epEui, races), Bound(Raced(s, epEui, races), epEui))
    ensures Fits(Bound(Raced(s, epEui, races), epEui))
    ensures other != epEui ==> Bound(Raced(s, epEui, races), other) == Bound(s, other)
    decreases races
  {
    if races != [] {
      var next := PersistAttachSession(s, epEui, races[0], Commits).0;
      PersistAdvances(s, epEui, races[0], Commits, other);
      RacedAdvances(next, epEui, races[1..], other);
      AdvanceOn(Bound(s, epEui), PersistedCounter(s, epEui, races[0], Commits), Bound(next, epEui),
                RacedCounters(next, epEui, races[1..]), Bound(Raced(s, epEui, races), epEui));
    }
  }

  /** The stored state after an att: untouched, or as the races and then its own transaction leave it. */
  lemma AttStores(d: Desk, opId: int, a: Att, c: Collaborators)
    ensures var verdict, after := Judge(d.stored, d.station, a, c), AfterAtt(d, opId, a, c).stored;
            if OpenFault(d, opId).Some? || verdict.Refuse? then after == d.stored
            else a.epEui.Some? && after == PersistAttachSession(Locked(d, a, c), a.epEui.value, verdict.record, c.tx).0
  {
  }

  lemma AttAdvances(d: Desk, e: Event, epEui: nat)
    requires e.AttArrives? && !d.closed && forall id :: Fits(Bound(d.stored, id))
    ensures Advance(Bound(d.stored, epEui), CountersOf(d, e, epEui), Bound(AfterAtt(d, e.opId, e.att, e.c).stored, epEui))
    ensures Fits(Bound(AfterAtt(d, e.opId, e.att, e.c).stored, epEui))
  {
    var a, c, verdict := e.att, e.c, Judge(d.stored, d.station, e.att, e.c);
    AttStores(d, e.opId, a, c);
    if OpenFault(d, e.opId).None? && verdict.Serve? {
      var id, locked := a.epEui.value, Locked(d, a, c);
      var after := PersistAttachSession(locked, id, verdict.record, c.tx).0;
      RacedAdvances(d.stored, id, c.races, epEui);
      PersistAdvances(locked, id, verdict.record, c.tx, epEui);
      if id == epEui {
        AdvanceOn(Bound(d.stored, id), RacedCounters(d.stored, id, c.races), Bound(locked, id),
                  PersistedCounter(locked, id, verdict.record, c.tx), Bound(after, id));
      }
    }
  }

  lemma OthersStoreNothing(d: Desk, e: Event)
    requires !e.AttachedElsewhere? && (e.AttArrives? ==> d.closed)
    ensures After(d, e).stored == d.stored
  {
  }

  lemma EventAdvances(d: Desk, e: Event, epEui: nat)
    requires forall id :: Fits(Bound(d.stored, id))
    ensures Advance(Bound(d.stored, epEui), CountersOf(d, e, epEui), Bound(After(d, e).stored, epEui))
    ensures Fits(Bound(After(d, e).stored, epEui))
  {
    if e.AttachedElsewhere? {
      PersistAdvances(d.stored, e.epEui, e.r, Commits, epEui);
    } else if e.AttArrives? && !d.closed {
      AttAdvances(d, e, epEui);
    } else {
      OthersStoreNothing(d, e);
    }
  }

  lemma {:induction false} RunAdvances(d: Desk, events: seq<Event>, epEui: nat)
    requires forall id :: Fits(Bound(d.stored, id))
    ensures Advance(Bound(d.stored, epEui), StoredCounters(d, events, epEui), Bound(Run(d, events).stored, epEui))
    ensures forall id :: Fits(Bound(Run(d, events).stored, id))
  {
    if events != [] {
      var front, last := events[..|events| - 1], events[|events| - 1];
      RunAdvances(d, front, epEui);
      var before := Run(d, front);
      forall id ensures Fits(Bound(After(before, last).stored, id)) {
        EventAdvances(before, last, id);
      }
      EventAdvances(before, last, epEui);
      AdvanceOn(Bound(d.stored, epEui), StoredCounters(d, front, epEui), Bound(before.stored, epEui),
                CountersOf(before, last, epEui), Bound(Run(d, events).stored, epEui));
    }
  }

  /**
   Over every run, attaches other stations bring included, the counters stored for an
   endpoint strictly increase in (epoch, counter) order, an epoch turns only across the
   window, and the last of them is the one that binds its next attach.
   */
  lemma {:induction false} StoredCountersIncrease(d: Desk, events: seq<Event>, epEui: nat)
    requires forall id :: Fits(Bound(d.stored, id))
    ensures var trail := AttachCounter.TrailOf(Bound(d.stored, epEui), StoredCounters(d, events, epEui));
            && AttachCounter.Increases(trail)
            && AttachCounter.TurnsAtTheWindow(AttachCounter.BSSCI_WINDOW, trail)
            && AttachCounter.EpochsAreShort(AttachCounter.BSSCI_WINDOW, trail)
            && Bound(Run(d, events).stored, epEui) == (if trail == [] then None else Some(trail[|trail| - 1]))
  {
    RunAdvances(d, events, epEui);
    AttachCounter.ChainOrders(AttachCounter.BSSCI_WINDOW, AttachCounter.TrailOf(Bound(d.stored, epEui), StoredCounters(d, events, epEui)));
  }

  /** Every counter answered with attRsp is the last one its event stored for its endpoint. */
  lemma AnsweredCountersAreStored(d: Desk, e: Event, opId: int)
    requires PendingAttaches.Accepts(d, e, opId)
    ensures e.att.epEui.Some? && e.att.attachCnt.Some?
    ensures var counters := CountersOf(d, e, e.att.epEui.value);
            counters != [] && counters[|counters| - 1] == e.att.attachCnt.value
  {
    AttRspMeansVerified(d, opId, e.att, e.c);
  }
}
