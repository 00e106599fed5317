/**
 Reissue of a resumed session's pending operations: each is restored to the
 cache, and the ones the service center started and may resume are sent again
 in order, until a write fails.
 */
module Reissue {
  import opened Codec
  import opened CommandRegistry
  import opened ConnectLog
  import opened Wrappers

  /** Whether the n-th frame written during the reissue reaches the transport. */
  type Writes = nat -> bool

  /** The frame that sends an operation again. */
  function Frame(r: Registry, op: PendingOp, beyond: real -> int): Effect {
    Reissued(op.opId, Repaired(r, op.message, op.command, beyond))
  }

  /** What the reissue does with one operation, whose frame is written or not. */
  function Processed(r: Registry, op: PendingOp, written: bool, beyond: real -> int): seq<Effect> {
    if !Resumable(r, op.opId, op.command) then [Restored(op)]
    else [Restored(op), if written then Frame(r, op, beyond) else ReissueFailed(op.opId)]
  }

  /** What the reissue does from its n-th frame on, and whether it reached the end. */
  function ReissueTrace(r: Registry, ops: seq<PendingOp>, n: nat, writes: Writes, beyond: real -> int): (seq<Effect>, bool)
    decreases ops
  {
    if ops == [] then ([], true)
    else
      var resumable := Resumable(r, ops[0].opId, ops[0].command);
      var steps := Processed(r, ops[0], writes(n), beyond);
      if resumable && !writes(n) then (steps, false)
      else
        var (rest, done) := ReissueTrace(r, ops[1..], if resumable then n + 1 else n, writes, beyond);
        (steps + rest, done)
  }

  /** The frames a complete reissue sends: the resumable operations' repaired messages, in order. */
  function Eligible(r: Registry, ops: seq<PendingOp>, beyond: real -> int): seq<Effect> {
    if ops == [] then []
    else
      (if Resumable(r, ops[0].opId, ops[0].command) then [Frame(r, ops[0], beyond)] else [])
      + Eligible(r, ops[1..], beyond)
  }

  function FramesOf(log: seq<Effect>): seq<Effect> {
    if log == [] then [] else (if log[0].Reissued? then [log[0]] else []) + FramesOf(log[1..])
  }

  function RestoredOps(log: seq<Effect>): seq<PendingOp> {
    if log == [] then [] else (if log[0].Restored? then [log[0].op] else []) + RestoredOps(log[1..])
  }

  lemma {:induction false} FramesOfAppend(a: seq<Effect>, b: seq<Effect>)
    ensures FramesOf(a + b) == FramesOf(a) + FramesOf(b)
  {
    if a == [] {
      assert a + b == b;
    } else {
      var all := a + b;
      assert all[0] == a[0] && all[1..] == a[1..] + b;
      FramesOfAppend(a[1..], b);
      assert FramesOf(all) == (if a[0].Reissued? then [a[0]] else []) + (FramesOf(a[1..]) + FramesOf(b));
    }
  }

  lemma {:induction false} RestoredOpsAppend(a: seq<Effect>, b: seq<Effect>)
    ensures RestoredOps(a + b) == RestoredOps(a) + RestoredOps(b)
  {
    if a == [] {
      assert a + b == b;
    } else {
      var all := a + b;
      assert all[0] == a[0] && all[1..] == a[1..] + b;
      RestoredOpsAppend(a[1..], b);
      assert RestoredOps(all) == (if a[0].Restored? then [a[0].op] else []) + (RestoredOps(a[1..]) + RestoredOps(b));
    }
  }

  lemma ProcessedOnce(r: Registry, op: PendingOp, written: bool, beyond: real -> int)
    ensures FramesOf(Processed(r, op, written, beyond))
            == if Resumable(r, op.opId, op.command) && written then [Frame(r, op, beyond)] else []
    ensures RestoredOps(Processed(r, op, written, beyond)) == [op]
  {
    var steps := Processed(r, op, written, beyond);
    assert steps == [Restored(op)] + steps[1..];
    FramesOfAppend([Restored(op)], steps[1..]);
    RestoredOpsAppend([Restored(op)], steps[1..]);
  }

  /**
   The frames sent are a prefix of the eligible ones: all of them exactly when the
   reissue reached its end, and otherwise up to the first write that failed.
   */
  lemma {:induction false} ReissueSendsAPrefix(r: Registry, ops: seq<PendingOp>, n: nat, writes: Writes, beyond: real -> int)
    ensures var (log, done) := ReissueTrace(r, ops, n, writes, beyond);
            var sent, eligible := FramesOf(log), Eligible(r, ops, beyond);
            && sent <= eligible
            && (done <==> sent == eligible)
            && (forall k | n <= k < n + |sent| :: writes(k))
            && (!done ==> |sent| < |eligible| && !writes(n + |sent|))
    decreases ops
  {
    if ops == [] {
    } else {
      var resumable := Resumable(r, ops[0].opId, ops[0].command);
      var steps := Processed(r, ops[0], writes(n), beyond);
      ProcessedOnce(r, ops[0], writes(n), beyond);
      if !resumable || writes(n) {
        var m := if resumable then n + 1 else n;
        ReissueSendsAPrefix(r, ops[1..], m, writes, beyond);
        var (rest, done) := ReissueTrace(r, ops[1..], m, writes, beyond);
        FramesOfAppend(steps, rest);
        assert ReissueTrace(r, ops, n, writes, beyond) == (steps + rest, done);
        assert Eligible(r, ops, beyond) == FramesOf(steps) + Eligible(r, ops[1..], beyond);
      }
    }
  }

  /**
   The operations restored are a prefix of the pending ones: all of them when the
   reissue reached its end.
   */
  lemma {:induction false} ReissueRestoresAPrefix(r: Registry, ops: seq<PendingOp>, n: nat, writes: Writes, beyond: real -> int)
    ensures var (log, done) := ReissueTrace(r, ops, n, writes, beyond);
            var restored := RestoredOps(log);
            && restored <= ops
            && (done ==> restored == ops)
    decreases ops
  {
    if ops == [] {
    } else {
      var resumable := Resumable(r, ops[0].opId, ops[0].command);
      var steps := Processed(r, ops[0], writes(n), beyond);
      ProcessedOnce(r, ops[0], writes(n), beyond);
      if !resumable || writes(n) {
        var m := if resumable then n + 1 else n;
        ReissueRestoresAPrefix(r, ops[1..], m, writes, beyond);
        var (rest, done) := ReissueTrace(r, ops[1..], m, writes, beyond);
        RestoredOpsAppend(steps, rest);
        var restored := RestoredOps(rest);
        assert ReissueTrace(r, ops, n, writes, beyond) == (steps + rest, done);
        assert RestoredOps(steps + rest) == [ops[0]] + restored;
        assert [ops[0]] + restored <= [ops[0]] + ops[1..] == ops;
      }
    }
  }

  /** An opId as strict decoding leaves an int64: a double up to 2^53, an integer beyond. */
  predicate StandsForInt64(v: Value, n: int) {
    MIN_INT64 <= n <= MAX_INT64 && (v == Float(n as real) || v == Int64(n))
  }

  /**
   The frame sends that operation again: repaired by its row's normalizer, if it has one;
   otherwise the message as it was, but that an opId that stands for an int64 is one.
   */
  ghost predicate SendsAgain(r: Registry, op: PendingOp, frame: Message)
    requires op.command in r.byCommand
  {
    match r.byCommand[op.command].normalizer
    case Some(normalize) => frame == normalize(op.message)
    case None =>
      && frame.Keys == op.message.Keys
      && (forall k <- frame | k != "opId" :: frame[k] == op.message[k])
      && ("opId" in frame && !op.message["opId"].Float? ==> frame["opId"] == op.message["opId"])
      && (forall n | "opId" in frame && StandsForInt64(op.message["opId"], n) :: frame["opId"] == Int64(n))
  }

  lemma RepairedOpId(f: real, n: int, beyond: real -> int)
    requires f == n as real && MIN_INT64 <= n <= MAX_INT64
    ensures Truncated(f, beyond) == n
  {
    assert f.Floor == n;
    assert -f == (-n) as real && (-f).Floor == -n;
  }

  lemma RepairedSendsAgain(r: Registry, op: PendingOp, beyond: real -> int)
    requires op.command in r.byCommand
    ensures SendsAgain(r, op, Repaired(r, op.message, op.command, beyond))
  {
    if r.byCommand[op.command].normalizer.None? && "opId" in op.message {
      forall n | StandsForInt64(op.message["opId"], n)
        ensures Repaired(r, op.message, op.command, beyond)["opId"] == Int64(n)
      {
        if op.message["opId"].Float? {
          RepairedOpId(op.message["opId"].f, n, beyond);
        }
      }
    }
  }

  /** The operations of a negative ID whose row is resumable. */
  function ResumableOps(r: Registry, ops: seq<PendingOp>): seq<PendingOp> {
    if ops == [] then []
    else
      var op := ops[0];
      (if op.opId < 0 && op.command in r.byCommand && r.byCommand[op.command].resumable then [op] else []) + ResumableOps(r, ops[1..])
  }

  /** A complete reissue sends every resumable operation again, in order, and no other. */
  lemma {:induction false} EligibleAreTheResumable(r: Registry, ops: seq<PendingOp>, beyond: real -> int)
    ensures var frames, resumable := Eligible(r, ops, beyond), ResumableOps(r, ops);
            && |frames| == |resumable|
            && forall i | 0 <= i < |frames| ::
                 && frames[i].Reissued? && frames[i].opId == resumable[i].opId
                 && resumable[i].command in r.byCommand && SendsAgain(r, resumable[i], frames[i].frame)
  {
    if ops == [] {
    } else {
      EligibleAreTheResumable(r, ops[1..], beyond);
      if ops[0].command in r.byCommand {
        RepairedSendsAgain(r, ops[0], beyond);
      }
    }
  }

  /** Every frame of a reissue sends again, repaired, the message of a pending operation of the same negative ID whose row is resumable. */
  lemma {:induction false} ReissuedFramesAreRepaired(r: Registry, ops: seq<PendingOp>, n: nat, writes: Writes, beyond: real -> int, e: Effect)
    requires e in ReissueTrace(r, ops, n, writes, beyond).0 && e.Reissued?
    ensures exists op <- ops ::
              && e.opId == op.opId < 0 && op.command in r.byCommand && r.byCommand[op.command].resumable
              && SendsAgain(r, op, e.frame)
    decreases ops
  {
    var op := ops[0];
    if e in Processed(r, op, writes(n), beyond) {
      RepairedSendsAgain(r, op, beyond);
      assert op in ops;
    } else {
      ReissuedFramesAreRepaired(r, ops[1..], if Resumable(r, op.opId, op.command) then n + 1 else n, writes, beyond, e);
    }
  }

  /**
   Every int64 opId survives as the same int64 from the persisted JSON, through strict
   decoding, to the frame that is sent again for a command without a normalizer.
   */
  lemma OpIdSurvivesReissue(r: Registry, decoded: Message, opId: int, op: PendingOp, frame: Message, float64: Rounding)
    requires "opId" in decoded && decoded["opId"] == Number(opId as real) && MIN_INT64 <= opId <= MAX_INT64
    requires Object(op.message) == Normalized(Object(decoded), float64)
    requires op.command in r.byCommand && r.byCommand[op.command].normalizer.None? && SendsAgain(r, op, frame)
    ensures "opId" in frame && frame["opId"] == Int64(opId) && frame.Keys == decoded.Keys
  {
    assert (opId as real).Floor == opId;
    assert StandsForInt64(op.message["opId"], opId);
  }

  /** Every frame sent answers to a restored operation whose ID is the service center's and whose row is resumable. */
  lemma {:induction false} OnlyServiceCenterOperationsAreSent(r: Registry, ops: seq<PendingOp>, n: nat, writes: Writes,
                                                              beyond: real -> int, e: Effect)
    requires e in ReissueTrace(r, ops, n, writes, beyond).0 && e.Reissued?
    ensures exists op <- ops :: e == Frame(r, op, beyond) && op.opId < 0 && Resumable(r, op.opId, op.command)
                                && Restored(op) in ReissueTrace(r, ops, n, writes, beyond).0
    decreases ops
  {
    var op := ops[0];
    if e in Processed(r, op, writes(n), beyond) {
      assert op in ops && Restored(op) == Processed(r, op, writes(n), beyond)[0];
    } else {
      OnlyServiceCenterOperationsAreSent(r, ops[1..], if Resumable(r, op.opId, op.command) then n + 1 else n, writes, beyond, e);
    }
  }

  /** The cache after the operations of a log were restored into it, later ones replacing earlier ones of the same ID. */
  function Cached(cache: map<int, PendingOp>, restored: seq<PendingOp>): map<int, PendingOp>
    decreases restored
  {
    if restored == [] then cache else Cached(cache[restored[0].opId := restored[0]], restored[1..])
  }

  /** The log and cache a reissue leaves, and whether it reached the end. */
  function Reissuing(r: Registry, ops: seq<PendingOp>, n: nat, writes: Writes, beyond: real -> int,
                   log: seq<Effect>, cache: map<int, PendingOp>): (seq<Effect>, map<int, PendingOp>, bool)
  {
    var (trace, done) := ReissueTrace(r, ops, n, writes, beyond);
    (log + trace, Cached(cache, RestoredOps(trace)), done)
  }

  /** The first operation is restored; a failed write ends the reissue there, otherwise the rest follows. */
  lemma {:induction false} ReissueStep(r: Registry, ops: seq<PendingOp>, n: nat, writes: Writes, beyond: real -> int,
                    log: seq<Effect>, cache: map<int, PendingOp>)
    requires ops != []
    ensures var op := ops[0];
            var resumable := Resumable(r, op.opId, op.command);
            var logged, cached := log + Processed(r, op, writes(n), beyond), cache[op.opId := op];
            Reissuing(r, ops, n, writes, beyond, log, cache)
            == if resumable && !writes(n) then (logged, cached, false)
               else Reissuing(r, ops[1..], if resumable then n + 1 else n, writes, beyond, logged, cached)
  {
    var op := ops[0];
    var resumable := Resumable(r, op.opId, op.command);
    var steps := Processed(r, op, writes(n), beyond);
    ProcessedOnce(r, op, writes(n), beyond);
    if !resumable || writes(n) {
      var rest := ReissueTrace(r, ops[1..], if resumable then n + 1 else n, writes, beyond).0;
      RestoredOpsAppend(steps, rest);
      assert ([op] + RestoredOps(rest))[1..] == RestoredOps(rest);
      assert log + (steps + rest) == (log + steps) + rest;
    } else {
      assert [op][1..] == [] && Cached(cache, [op]) == cache[op.opId := op];
    }
  }

  /** The operations of a list are the last of their ID at these positions. */
  predicate LastOfItsId(restored: seq<PendingOp>, i: nat) {
    i < |restored| && forall j | i < j < |restored| :: restored[j].opId != restored[i].opId
  }

  lemma {:induction false} OtherIdsStayCached(cache: map<int, PendingOp>, restored: seq<PendingOp>, id: int)
    requires forall op <- restored :: op.opId != id
    ensures id in Cached(cache, restored) <==> id in cache
    ensures id in cache ==> Cached(cache, restored)[id] == cache[id]
    decreases restored
  {
    if restored != [] {
      assert restored[0].opId != id;
      OtherIdsStayCached(cache[restored[0].opId := restored[0]], restored[1..], id);
    }
  }

  lemma {:induction false} LastRestoredIsCached(cache: map<int, PendingOp>, restored: seq<PendingOp>, i: nat)
    requires LastOfItsId(restored, i)
    ensures restored[i].opId in Cached(cache, restored) && Cached(cache, restored)[restored[i].opId] == restored[i]
    decreases restored
  {
    var next := cache[restored[0].opId := restored[0]];
    if i == 0 {
      OtherIdsStayCached(next, restored[1..], restored[0].opId);
    } else {
      LastRestoredIsCached(next, restored[1..], i - 1);
    }
  }

  /** The cache holds exactly the restored operations, each ID its last one, over what it held for other IDs. */
  lemma {:induction false} RestoredAreCached(cache: map<int, PendingOp>, restored: seq<PendingOp>)
    ensures forall i: nat | LastOfItsId(restored, i) ::
              restored[i].opId in Cached(cache, restored) && Cached(cache, restored)[restored[i].opId] == restored[i]
    ensures forall id | forall op <- restored :: op.opId != id ::
              (id in Cached(cache, restored) <==> id in cache) && (id in cache ==> Cached(cache, restored)[id] == cache[id])
  {
    forall i: nat | LastOfItsId(restored, i)
      ensures restored[i].opId in Cached(cache, restored) && Cached(cache, restored)[restored[i].opId] == restored[i]
    {
      LastRestoredIsCached(cache, restored, i);
    }
    forall id | forall op <- restored :: op.opId != id
      ensures (id in Cached(cache, restored) <==> id in cache) && (id in cache ==> Cached(cache, restored)[id] == cache[id])
    {
      OtherIdsStayCached(cache, restored, id);
    }
  }

  lemma {:induction false} TraceKinds(r: Registry, ops: seq<PendingOp>, n: nat, writes: Writes, beyond: real -> int, e: Effect)
    requires e in ReissueTrace(r, ops, n, writes, beyond).0
    ensures e.Restored? || e.Reissued? || e.ReissueFailed?
    decreases ops
  {
    if e !in Processed(r, ops[0], writes(n), beyond) {
      TraceKinds(r, ops[1..], if Resumable(r, ops[0].opId, ops[0].command) then n + 1 else n, writes, beyond, e);
    }
  }
}
