/**
 Normalisation of strictly decoded JSON: numbers that were kept as exact tokens
 become the value shapes the rest of the service expects, without losing an
 integer (numbers: section 6 of RFC 8259).
 */
module Codec {
  import opened Wrappers

  /** A decoded tree; Number is a token kept exact, the other numeric cases are machine values. */
  datatype Value =
    | Null
    | Bool(b: bool)
    | Text(s: string)
    | Number(token: real)
    | Float(f: real)
    | Int64(i: int)
    | Uint64(n: nat)
    | Object(fields: map<string, Value>)
    | Array(items: seq<Value>)

  type Message = map<string, Value>

  /** The double nearest to a token; a token beyond the double range has none. */
  type Rounding = real -> Option<real>

  const MAX_EXACT_FLOAT: int := 0x20_0000_0000_0000
  const MIN_INT64: int := -0x8000_0000_0000_0000
  const MAX_INT64: int := 0x7FFF_FFFF_FFFF_FFFF
  const MAX_UINT64: int := 0xFFFF_FFFF_FFFF_FFFF

  function NormalizedNumber(token: real, float64: Rounding): Value {
    var i := token.Floor;
    if i as real == token && MIN_INT64 <= i <= MAX_INT64 then
      if -MAX_EXACT_FLOAT <= i <= MAX_EXACT_FLOAT then Float(token) else Int64(i)
    else if i as real == token && 0 <= i <= MAX_UINT64 then Uint64(i)
    else match float64(token)
      case Some(f) => Float(f)
      case None => Number(token)
  }

  function Normalized(v: Value, float64: Rounding): Value {
    match v
    case Number(token) => NormalizedNumber(token, float64)
    case Object(fields) => Object(map k | k in fields :: Normalized(fields[k], float64))
    case Array(items) => Array(seq(|items|, i requires 0 <= i < |items| => Normalized(items[i], float64)))
    case _ => v
  }

  // ----- positions in a tree -----

  datatype Hop = Key(key: string) | Index(index: nat)

  /** The value found by following a path from the root. */
  function At(v: Value, path: seq<Hop>): Option<Value>
    decreases path
  {
    if path == [] then Some(v)
    else match path[0]
      case Key(k) => if v.Object? && k in v.fields then At(v.fields[k], path[1..]) else None
      case Index(i) => if v.Array? && i < |v.items| then At(v.items[i], path[1..]) else None
  }

  /** The integer a machine value stands for. */
  function IntegerOf(v: Value): Option<int> {
    match v
    case Float(f) => if f.Floor as real == f then Some(f.Floor) else None
    case Int64(i) => Some(i)
    case Uint64(n) => Some(n)
    case _ => None
  }

  /** Normalisation keeps the shape: it has a value at exactly the same paths, the normalised one. */
  lemma {:induction false} NormalizedKeepsShape(v: Value, path: seq<Hop>, float64: Rounding)
    ensures At(Normalized(v, float64), path) ==
            if At(v, path).None? then None else Some(Normalized(At(v, path).value, float64))
    decreases path
  {
    if path != [] {
      match path[0] {
        case Key(k) =>
          if v.Object? && k in v.fields {
            NormalizedKeepsShape(v.fields[k], path[1..], float64);
          }
        case Index(i) =>
          if v.Array? && i < |v.items| {
            NormalizedKeepsShape(v.items[i], path[1..], float64);
          }
      }
    }
  }

  /**
   Every integer token in [-2^63, 2^64), wherever it stands, becomes a machine value of
   exactly that integer: a double up to 2^53 in magnitude, an int64 or uint64 beyond.
   */
  lemma {:induction false} IntegersStayExact(v: Value, path: seq<Hop>, i: int, float64: Rounding)
    requires At(v, path) == Some(Number(i as real))
    requires MIN_INT64 <= i <= MAX_UINT64
    ensures At(Normalized(v, float64), path).Some?
    ensures var w := At(Normalized(v, float64), path).value;
            && IntegerOf(w) == Some(i)
            && (w.Float? <==> -MAX_EXACT_FLOAT <= i <= MAX_EXACT_FLOAT)
            && (w.Uint64? <==> i > MAX_INT64)
  {
    NormalizedKeepsShape(v, path, float64);
    assert (i as real).Floor == i;
  }

  /** The token is an integer that a machine integer holds. */
  predicate IsMachineInteger(token: real) {
    token == token.Floor as real && -0x8000_0000_0000_0000 <= token.Floor <= 0xFFFF_FFFF_FFFF_FFFF
  }

  /**
   Any other token becomes the nearest double, or stays exact when it has none; every leaf
   that is no token stays as it is.
   */
  lemma {:induction false} OtherLeavesKeepTheirValue(v: Value, path: seq<Hop>, float64: Rounding)
    requires At(v, path).Some? && !At(v, path).value.Object? && !At(v, path).value.Array?
    ensures At(Normalized(v, float64), path).Some?
    ensures var before, after := At(v, path).value, At(Normalized(v, float64), path).value;
            if before.Number? then
              IsMachineInteger(before.token) || after == match float64(before.token) { case Some(f) => Float(f) case None => before }
            else after == before
  {
    NormalizedKeepsShape(v, path, float64);
  }

  /** A second pass changes nothing. */
  lemma {:induction false} NormalizedIsIdempotent(v: Value, float64: Rounding)
    ensures Normalized(Normalized(v, float64), float64) == Normalized(v, float64)
  {
    var once := Normalized(v, float64);
    match v {
      case Object(fields) =>
        forall k | k in fields
          ensures Normalized(once.fields[k], float64) == once.fields[k]
        {
          NormalizedIsIdempotent(fields[k], float64);
        }
        assert Normalized(once, float64).fields == once.fields;
      case Array(items) =>
        forall i | 0 <= i < |items|
          ensures Normalized(once.items[i], float64) == once.items[i]
        {
          NormalizedIsIdempotent(items[i], float64);
        }
        assert Normalized(once, float64).items == once.items;
      case _ =>
    }
  }

  // ----- the passes as they run -----

  method NormalizeMap(decoded: Value, float64: Rounding) returns (m: Message)
    requires decoded.Object?
    ensures Object(m) == Normalized(decoded, float64)
    decreases decoded, 0
  {
    ghost var normalized := Normalized(decoded, float64).fields;
    m := decoded.fields;
    var keys := m.Keys;
    while keys != {}
      invariant keys <= m.Keys == decoded.fields.Keys
      invariant forall k | k in m && k !in keys :: m[k] == normalized[k]
      decreases keys
    {
      var k :| k in keys;
      var value := NormalizeValue(decoded.fields[k], float64);
      m := m[k := value];
      keys := keys - {k};
    }
    assert m == normalized;
  }

  method NormalizeValue(v: Value, float64: Rounding) returns (w: Value)
    ensures w == Normalized(v, float64)
    decreases v, 1
  {
    match v {
      case Number(token) =>
        w := NormalizedNumber(token, float64);
      case Object(_) =>
        var m := NormalizeMap(v, float64);
        w := Object(m);
      case Array(items) =>
        var t := items;
        for i := 0 to |items|
          invariant |t| == |items|
          invariant forall j | 0 <= j < |t| :: t[j] == if j < i then Normalized(items[j], float64) else items[j]
        {
          var e := NormalizeValue(items[i], float64);
          t := t[i := e];
        }
        w := Array(t);
        assert t == Normalized(v, float64).items;
      case _ =>
        w := v;
    }
  }

  // ----- the operation ID -----

  const OP_ID := "opId"

  /** The int64 a double converts to: truncated in range, the platform's choice beyond. */
  function Truncated(f: real, beyond: real -> int): int {
    var toward := if f < 0.0 then -((-f).Floor) else f.Floor;
    if MIN_INT64 <= toward <= MAX_INT64 then toward else beyond(f)
  }

  function WithIntegerOpId(msg: Message, beyond: real -> int): Message {
    if OP_ID in msg && msg[OP_ID].Float? then msg[OP_ID := Int64(Truncated(msg[OP_ID].f, beyond))] else msg
  }

  /** A copy of the message whose opId, if it became a double, is an int64 again. */
  method NormalizeOpIdOnly(msg: Message, beyond: real -> int) returns (normalized: Message)
    ensures normalized == WithIntegerOpId(msg, beyond)
  {
    normalized := map[];
    var keys := msg.Keys;
    while keys != {}
      invariant keys <= msg.Keys && normalized.Keys == msg.Keys - keys
      invariant forall k <- normalized :: normalized[k] == msg[k]
      decreases keys
    {
      var k :| k in keys;
      normalized := normalized[k := msg[k]];
      keys := keys - {k};
    }
    assert normalized == msg;
    if OP_ID in msg && msg[OP_ID].Float? {
      normalized := normalized[OP_ID := Int64(Truncated(msg[OP_ID].f, beyond))];
    }
  }

  /** A double opId becomes the integer next to it towards zero, while an int64 holds that; beyond, what the platform converts it to. */
  lemma DoubleOpIdIsTruncated(msg: Message, beyond: real -> int, n: int)
    requires OP_ID in msg && msg[OP_ID].Float?
    requires var f := msg[OP_ID].f; if f >= 0.0 then n as real <= f < n as real + 1.0 else n as real - 1.0 < f <= n as real
    ensures WithIntegerOpId(msg, beyond)
            == msg["opId" := Int64(if -0x8000_0000_0000_0000 <= n <= 0x7FFF_FFFF_FFFF_FFFF then n else beyond(msg[OP_ID].f))]
  {
    var f := msg[OP_ID].f;
    if f >= 0.0 {
      assert f.Floor == n;
    } else {
      assert (-n) as real <= -f < (-n) as real + 1.0;
      assert (-f).Floor == -n;
    }
  }

  /**
   Every int64 operation ID survives being persisted as JSON, decoded strictly,
   normalised and prepared for reissue as the same int64, and no other field changes.
   */
  lemma {:induction false} OpIdSurvivesResume(decoded: Message, opId: int, float64: Rounding, beyond: real -> int)
    requires OP_ID in decoded && decoded[OP_ID] == Number(opId as real)
    requires MIN_INT64 <= opId <= MAX_INT64
    ensures var resumed := Normalized(Object(decoded), float64).fields;
            var reissued := WithIntegerOpId(resumed, beyond);
            && reissued.Keys == decoded.Keys
            && reissued[OP_ID] == Int64(opId)
            && forall k <- decoded | k != OP_ID :: reissued[k] == resumed[k]
  {
    assert (opId as real).Floor == opId;
    assert (-(opId as real)).Floor == -opId by {
      assert -(opId as real) == (-opId) as real;
    }
  }
}
