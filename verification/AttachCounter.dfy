/**
 The 24-bit attach counter rule and what it guarantees when attaches of one
 endpoint run concurrently: each first checks the counter it read, and later
 persists under the endpoint's row lock, where the rule is applied again.
 */
module AttachCounter {
  import opened Wrappers

  /** The counter range and the rollover window (BSSCI section 5.6.1). */
  datatype Window = Window(max: nat, high: nat, low: nat)

  const BSSCI_WINDOW := Window(0xFFFFFF, 0xFFFF00, 0x100)

  /** Whether an attach counter moves past the one that binds the endpoint; none binds it before its first attach. */
  predicate Advances(w: Window, bound: Option<nat>, incoming: int) {
    if bound.None? then true
    else
      var rollover := bound.value > w.high && incoming < w.low;
      rollover || incoming > bound.value
  }

  // ----- concurrent attaches of one endpoint -----

  /** The stored counter, the attaches past their read check, and the counters accepted so far, oldest first. */
  datatype System = System(bound: Option<nat>, checked: map<nat, nat>, accepted: seq<nat>)

  /** One step of one attach; `seen` is the counter its handler had read from the store, however old. */
  datatype Move =
    | ReadCheck(attach: nat, counter: int, seen: Option<nat>)
    | Persist(attach: nat, committed: bool)

  function Step(w: Window, s: System, m: Move): System {
    match m
    case ReadCheck(attach, counter, seen) =>
      if 0 <= counter <= w.max && Advances(w, seen, counter) then s.(checked := s.checked[attach := counter]) else s
    case Persist(attach, committed) =>
      if attach !in s.checked then s
      else
        var counter := s.checked[attach];
        var answered := s.(checked := s.checked - {attach});
        if committed && Advances(w, s.bound, counter)
        then answered.(bound := Some(counter), accepted := s.accepted + [counter])
        else answered
  }

  function Run(w: Window, s: System, moves: seq<Move>): System
    decreases moves
  {
    if moves == [] then s else Run(w, Step(w, s, moves[0]), moves[1..])
  }

  /** The counters that have bound the endpoint: the one stored at first, if any, then those accepted. */
  function TrailOf(initial: Option<nat>, accepted: seq<nat>): seq<nat> {
    (if initial.Some? then [initial.value] else []) + accepted
  }

  /** The counters that have bound the endpoint, starting with the one stored before the run. */
  function Trail(initial: Option<nat>, s: System): seq<nat> {
    TrailOf(initial, s.accepted)
  }

  /** How often the counter had started over when trail[k] was stored. */
  function Epoch(trail: seq<nat>, k: nat): nat
    requires k < |trail|
  {
    if k == 0 then 0 else Epoch(trail, k - 1) + (if trail[k] > trail[k - 1] then 0 else 1)
  }

  /** Each counter of the trail advances its predecessor and fits the counter field. */
  ghost predicate Chain(w: Window, trail: seq<nat>) {
    && (forall k | 0 <= k < |trail| :: trail[k] <= w.max)
    && (forall k | 0 < k < |trail| :: Advances(w, Some(trail[k - 1]), trail[k]))
  }

  ghost predicate Inv(w: Window, initial: Option<nat>, s: System) {
    var trail := Trail(initial, s);
    && Chain(w, trail)
    && s.bound == (if trail == [] then None else Some(trail[|trail| - 1]))
    && (forall attach <- s.checked :: s.checked[attach] <= w.max)
  }

  lemma StepKeepsInv(w: Window, initial: Option<nat>, s: System, m: Move)
    requires Inv(w, initial, s)
    ensures Inv(w, initial, Step(w, s, m))
    ensures s.accepted <= Step(w, s, m).accepted
  {
    var trail, next := Trail(initial, s), Trail(initial, Step(w, s, m));
    if |next| > |trail| {
      assert next == trail + [next[|trail|]];
    }
  }

  lemma {:induction false} RunKeepsInv(w: Window, initial: Option<nat>, s: System, moves: seq<Move>)
    requires Inv(w, initial, s)
    ensures Inv(w, initial, Run(w, s, moves))
    decreases moves
  {
    if moves != [] {
      StepKeepsInv(w, initial, s, moves[0]);
      RunKeepsInv(w, initial, Step(w, s, moves[0]), moves[1..]);
    }
  }

  lemma {:induction false} ChainIncreases(w: Window, trail: seq<nat>, i: nat, j: nat)
    requires Chain(w, trail) && i < j < |trail|
    ensures Epoch(trail, i) < Epoch(trail, j) || (Epoch(trail, i) == Epoch(trail, j) && trail[i] + (j - i) <= trail[j])
  {
    if i < j - 1 {
      ChainIncreases(w, trail, i, j - 1);
    }
  }

  /** (epoch, counter) strictly increases along the trail. */
  ghost predicate Increases(trail: seq<nat>) {
    forall i, j | 0 <= i < j < |trail| ::
      Epoch(trail, i) < Epoch(trail, j) || (Epoch(trail, i) == Epoch(trail, j) && trail[i] < trail[j])
  }

  /** An epoch ends above the window's high end and the next one starts below its low end. */
  ghost predicate TurnsAtTheWindow(w: Window, trail: seq<nat>) {
    forall k | 0 < k < |trail| :: Epoch(trail, k) == Epoch(trail, k - 1) || (trail[k - 1] > w.high && trail[k] < w.low)
  }

  /** Positions of one epoch are at most max apart, so an epoch holds at most max + 1 counters. */
  ghost predicate EpochsAreShort(w: Window, trail: seq<nat>) {
    forall i, j | 0 <= i <= j < |trail| && Epoch(trail, i) == Epoch(trail, j) :: j - i <= w.max
  }

  lemma {:induction false} ChainOrders(w: Window, trail: seq<nat>)
    requires Chain(w, trail)
    ensures Increases(trail) && TurnsAtTheWindow(w, trail) && EpochsAreShort(w, trail)
  {
    forall i, j | 0 <= i < j < |trail|
      ensures Epoch(trail, i) < Epoch(trail, j) || (Epoch(trail, i) == Epoch(trail, j) && trail[i] < trail[j])
    {
      ChainIncreases(w, trail, i, j);
    }
    forall k | 0 < k < |trail|
      ensures Epoch(trail, k) == Epoch(trail, k - 1) || (trail[k - 1] > w.high && trail[k] < w.low)
    {
      assert Advances(w, Some(trail[k - 1]), trail[k]);
    }
    forall i, j | 0 <= i <= j < |trail| && Epoch(trail, i) == Epoch(trail, j)
      ensures j - i <= w.max
    {
      if i < j {
        ChainIncreases(w, trail, i, j);
      }
    }
  }

  /**
   Under any interleaving the counters that bind the endpoint strictly increase in
   (epoch, counter) order, an epoch turns only across the rollover window, and no
   epoch accepts more than max + 1 attaches.
   */
  lemma {:induction false} AcceptedCountersIncrease(w: Window, initial: Option<nat>, moves: seq<Move>)
    requires initial.Some? ==> initial.value <= w.max
    ensures var trail := Trail(initial, Run(w, System(initial, map[], []), moves));
            Increases(trail) && TurnsAtTheWindow(w, trail) && EpochsAreShort(w, trail)
  {
    var start := System(initial, map[], []);
    assert Trail(initial, start) == (if initial.Some? then [initial.value] else []);
    RunKeepsInv(w, initial, start, moves);
    ChainOrders(w, Trail(initial, Run(w, start, moves)));
  }

  /** A counter is stored again, or undercut, only across a rollover: past the window's high end, then below its low end. */
  lemma {:induction false} RepeatNeedsRollover(w: Window, trail: seq<nat>, i: nat, j: nat)
    requires Chain(w, trail) && i < j < |trail| && trail[j] <= trail[i]
    ensures exists k | i < k <= j :: trail[k - 1] > w.high && trail[k] < w.low
  {
    if trail[j] > trail[j - 1] {
      RepeatNeedsRollover(w, trail, i, j - 1);
    }
  }

  /** A device that counts modulo the field width is never locked out. */
  lemma CountingDeviceAdvances(w: Window, stored: nat)
    requires w.high < w.max && 0 < w.low && stored <= w.max
    ensures Advances(w, Some(stored), (stored + 1) % (w.max + 1))
  {
    if stored < w.max {
      assert (stored + 1) % (w.max + 1) == stored + 1;
    }
  }

  /** The rule refuses exactly what would start the counter over elsewhere than across the window. */
  lemma AdvancesExactlyWhen(w: Window, bound: Option<nat>, incoming: nat)
    ensures Advances(w, bound, incoming) <==> TurnsAtTheWindow(w, TrailOf(bound, [incoming]))
  {
    var trail := TrailOf(bound, [incoming]);
    if bound.Some? {
      assert trail == [bound.value, incoming];
      assert Epoch(trail, 1) == Epoch(trail, 0) <==> incoming > bound.value;
      assert trail[1] == incoming && trail[0] == bound.value;
    }
  }

  /**
   An attach no other comes between is accepted exactly when it commits and its counter fits
   the field and is the first, higher, or past the window the stored one is before.
   */
  lemma SerialAttach(w: Window, bound: Option<nat>, attach: nat, counter: int, committed: bool)
    ensures var after := Run(w, System(bound, map[], []), [ReadCheck(attach, counter, bound), Persist(attach, committed)]);
            if committed && 0 <= counter <= w.max && (bound.None? || counter > bound.value || (bound.value > w.high && counter < w.low))
            then after == System(Some(counter), map[], [counter]) else after == System(bound, map[], [])
  {
    var read, persist, start := ReadCheck(attach, counter, bound), Persist(attach, committed), System(bound, map[], []);
    assert [read, persist][1..] == [persist] && [persist][1..] == [];
    var once := Step(w, start, read);
    assert Run(w, once, [persist]) == Run(w, Step(w, once, persist), []);
    if 0 <= counter {
      var checked: map<nat, nat> := map[attach := counter];
      assert checked - {attach} == map[];
    }
  }
}
