/**
 Text a remote peer chose, cut for a log line without splitting a rune. The
 byte grammar is section 4 of RFC 3629; the scan decides as Go's unicode/utf8
 package does.
 */
module UntrustedText {
  import opened Bytes

  // ----- RFC 3629, section 4 -----

  predicate Tail(b: Byte) {
    0x80 <= b <= 0xBF
  }

  /** One UTF8-char. */
  predicate Rune(s: seq<Byte>) {
    match |s|
    case 1 => s[0] <= 0x7F
    case 2 => 0xC2 <= s[0] <= 0xDF && Tail(s[1])
    case 3 =>
      && Tail(s[2])
      && (|| (s[0] == 0xE0 && 0xA0 <= s[1] <= 0xBF)
          || (0xE1 <= s[0] <= 0xEC && Tail(s[1]))
          || (s[0] == 0xED && 0x80 <= s[1] <= 0x9F)
          || (0xEE <= s[0] <= 0xEF && Tail(s[1])))
    case 4 =>
      && Tail(s[2]) && Tail(s[3])
      && (|| (s[0] == 0xF0 && 0x90 <= s[1] <= 0xBF)
          || (0xF1 <= s[0] <= 0xF3 && Tail(s[1]))
          || (s[0] == 0xF4 && 0x80 <= s[1] <= 0x8F))
    case _ => false
  }

  /** The length of the rune a string begins with, 0 when it begins with none. */
  function FirstRune(s: seq<Byte>): (n: nat)
    ensures n <= |s| && n <= 4
    ensures n > 0 ==> Rune(s[..n])
    ensures n == 0 ==> forall m | 0 <= m <= |s| :: !Rune(s[..m])
  {
    if |s| >= 1 && Rune(s[..1]) then 1
    else if |s| >= 2 && Rune(s[..2]) then 2
    else if |s| >= 3 && Rune(s[..3]) then 3
    else if |s| >= 4 && Rune(s[..4]) then 4
    else 0
  }

  predicate ValidUtf8(s: seq<Byte>) {
    s == [] || (FirstRune(s) > 0 && ValidUtf8(s[FirstRune(s)..]))
  }

  /** Position k of a string lies between two of its runes, or at an end. */
  predicate Boundary(s: seq<Byte>, k: nat) {
    k == 0 || (0 < FirstRune(s) <= k && Boundary(s[FirstRune(s)..], k - FirstRune(s)))
  }

  /** The beginning of a rune that the end of the text cuts off. */
  ghost predicate SplitRune(t: seq<Byte>) {
    0 < |t| && exists rest: seq<Byte> :: rest != [] && Rune(t + rest)
  }

  // ----- the scan -----

  predicate RuneStart(b: Byte) {
    !Tail(b)
  }

  /** What the first byte of a rune says of it: its length, and the range of its second byte. */
  datatype Lead = Lead(size: nat, low: Byte, high: Byte)

  function LeadOf(b: Byte): Lead {
    if b <= 0x7F then Lead(0, 0, 0)
    else if b <= 0xC1 then Lead(1, 0, 0)
    else if b <= 0xDF then Lead(2, 0x80, 0xBF)
    else if b == 0xE0 then Lead(3, 0xA0, 0xBF)
    else if b == 0xED then Lead(3, 0x80, 0x9F)
    else if b <= 0xEF then Lead(3, 0x80, 0xBF)
    else if b == 0xF0 then Lead(4, 0x90, 0xBF)
    else if b <= 0xF3 then Lead(4, 0x80, 0xBF)
    else if b == 0xF4 then Lead(4, 0x80, 0x8F)
    else Lead(1, 0, 0)
  }

  /** Whether the text begins with a whole rune; an invalid byte counts as one of width 1. */
  predicate FullRune(s: seq<Byte>) {
    if s == [] then false
    else
      var lead := LeadOf(s[0]);
      || |s| >= lead.size
      || (|s| > 1 && (s[1] < lead.low || lead.high < s[1]))
      || (|s| > 2 && !Tail(s[2]))
  }

  /** The bytes that complete a text which is no full rune. */
  function Completion(s: seq<Byte>): seq<Byte>
    requires s != [] && !FullRune(s)
  {
    var lead := LeadOf(s[0]);
    if |s| == 1 then [lead.low] + seq(lead.size - 2, i => 0x80 as Byte) else seq(lead.size - |s|, i => 0x80 as Byte)
  }

  lemma SplitIsNotFull(s: seq<Byte>, rest: seq<Byte>)
    requires s != [] && rest != [] && Rune(s + rest)
    ensures !FullRune(s)
  {
    var whole := s + rest;
    assert whole[0] == s[0] && (|s| > 1 ==> whole[1] == s[1]) && (|s| > 2 ==> whole[2] == s[2]);
  }

  /** The scan tells exactly the texts that are the beginning of one rune. */
  lemma FullRuneUnlessSplit(s: seq<Byte>)
    requires s != []
    ensures SplitRune(s) <==> !FullRune(s)
  {
    if !FullRune(s) {
      assert Rune(s + Completion(s));
    }
    forall rest: seq<Byte> | rest != [] && Rune(s + rest) ensures !FullRune(s) {
      SplitIsNotFull(s, rest);
    }
  }

  /** Only the beginning of a rune split at the end is missing. */
  ghost predicate DropsTheSplitRune(value: seq<Byte>, kept: seq<Byte>) {
    && (forall i | 0 <= i < |value| && SplitRune(value[i..]) :: kept == value[..i])
    && ((forall i | 0 <= i < |value| :: !SplitRune(value[i..])) ==> kept == value)
  }

  /** A split rune begins with its one start byte and has at most three bytes. */
  lemma SplitRuneShape(t: seq<Byte>)
    requires SplitRune(t)
    ensures |t| <= 3 && RuneStart(t[0]) && forall i | 0 < i < |t| :: !RuneStart(t[i])
  {
    var rest :| rest != [] && Rune(t + rest);
    forall i | 0 <= i < |t| ensures (t + rest)[i] == t[i] {
    }
  }

  method WithoutPartialTrailingRune(value: seq<Byte>) returns (kept: seq<Byte>)
    ensures DropsTheSplitRune(value, kept)
  {
    forall i | 0 <= i < |value| && SplitRune(value[i..])
      ensures |value| - i <= 3 && RuneStart(value[i]) && forall j | i < j < |value| :: !RuneStart(value[j])
    {
      SplitRuneShape(value[i..]);
      forall j | i < j < |value| ensures !RuneStart(value[j]) {
        assert value[i..][j - i] == value[j];
      }
    }
    var i := |value| - 1;
    while i >= 0 && i > |value| - 4
      invariant -1 <= i < |value|
      invariant forall j | i < j < |value| :: !RuneStart(value[j])
    {
      if RuneStart(value[i]) {
        FullRuneUnlessSplit(value[i..]);
        if !FullRune(value[i..]) {
          return value[..i];
        }
        return value;
      }
      i := i - 1;
    }
    return value;
  }

  /** The text a log field keeps of a value: all of it when it fits, otherwise the cut without the rune it splits. */
  ghost predicate KeptOf(value: seq<Byte>, limit: nat, kept: seq<Byte>) {
    if |value| <= limit then kept == value else DropsTheSplitRune(value[..limit], kept)
  }

  /** What a log field renders is the quoted text it keeps. */
  method UntrustedValue(value: seq<Byte>, limit: nat, quote: seq<Byte> -> string) returns (rendered: string)
    ensures exists kept: seq<Byte> :: KeptOf(value, limit, kept) && rendered == quote(kept)
  {
    var text := value;
    if |text| > limit {
      text := WithoutPartialTrailingRune(text[..limit]);
    }
    assert KeptOf(value, limit, text);
    return quote(text);
  }

  // ----- what the cut keeps -----

  /** The cut is a prefix, and loses at most three bytes, whatever the bytes are. */
  lemma {:induction false} CutLosesAtMostThree(value: seq<Byte>, kept: seq<Byte>)
    requires DropsTheSplitRune(value, kept)
    ensures kept <= value && |kept| >= |value| - 3
  {
    if i :| 0 <= i < |value| && SplitRune(value[i..]) {
      SplitRuneShape(value[i..]);
    }
  }

  /** No rune begins another: the first byte fixes the length. */
  lemma RunesArePrefixFree(s: seq<Byte>, t: seq<Byte>)
    requires Rune(s) && Rune(t) && s[0] == t[0]
    ensures |s| == |t|
  {
  }

  /** A nonempty valid text is no split rune. */
  lemma ValidIsNotSplit(s: seq<Byte>)
    requires s != [] && ValidUtf8(s)
    ensures !SplitRune(s)
  {
    if SplitRune(s) {
      var rest :| rest != [] && Rune(s + rest);
      RunesArePrefixFree(s[..FirstRune(s)], s + rest);
      assert false;
    }
  }

  /** The last boundary at or before the limit. */
  function LastBoundary(s: seq<Byte>, limit: nat): nat
    decreases |s|
  {
    if 0 < FirstRune(s) <= limit then FirstRune(s) + LastBoundary(s[FirstRune(s)..], limit - FirstRune(s)) else 0
  }

  lemma {:induction false} LastBoundaryIsLast(s: seq<Byte>, limit: nat)
    ensures var k := LastBoundary(s, limit);
            && k <= |s| && k <= limit && Boundary(s, k)
            && forall j | 0 <= j <= limit && Boundary(s, j) :: j <= k
    decreases |s|
  {
    var n := FirstRune(s);
    if 0 < n <= limit {
      var k := LastBoundary(s[n..], limit - n);
      LastBoundaryIsLast(s[n..], limit - n);
      forall j | 0 <= j <= limit && Boundary(s, j) ensures j <= n + k {
        assert j == 0 || Boundary(s[n..], j - n);
      }
    }
  }

  lemma FirstRuneOfPrefix(s: seq<Byte>, m: nat)
    requires 0 < FirstRune(s) <= m <= |s|
    ensures FirstRune(s[..m]) == FirstRune(s)
  {
    var n := FirstRune(s);
    assert s[..m][..n] == s[..n];
    RunesArePrefixFree(s[..m][..FirstRune(s[..m])], s[..n]);
  }

  /** What lies before a boundary is valid. */
  lemma {:induction false} BoundaryEndsAValidPrefix(s: seq<Byte>, k: nat)
    requires k <= |s| && Boundary(s, k)
    ensures ValidUtf8(s[..k])
    decreases |s|
  {
    if k > 0 {
      var n := FirstRune(s);
      BoundaryEndsAValidPrefix(s[n..], k - n);
      FirstRuneOfPrefix(s, k);
      assert s[..k][n..] == s[n..][..k - n];
    }
  }

  lemma SliceOfSlice(s: seq<Byte>, n: nat, k: nat, limit: nat)
    requires n + k <= limit <= |s|
    ensures s[n..][k..limit - n] == s[n + k..limit]
  {
  }

  lemma CutRuneIsSplit(s: seq<Byte>, limit: nat, n: nat)
    requires 0 < limit < n <= |s| && Rune(s[..n])
    ensures SplitRune(s[0..limit])
  {
    assert s[0..limit] + s[limit..n] == s[..n];
  }

  /** What lies between the last boundary and the cut is the beginning of the rune the cut splits. */
  lemma {:induction false} AfterTheLastBoundary(s: seq<Byte>, limit: nat)
    requires ValidUtf8(s) && limit < |s| && LastBoundary(s, limit) < limit
    ensures SplitRune(s[LastBoundary(s, limit)..limit])
    decreases |s|
  {
    var n := FirstRune(s);
    if n <= limit {
      var k := LastBoundary(s[n..], limit - n);
      LastBoundaryIsLast(s[n..], limit - n);
      AfterTheLastBoundary(s[n..], limit - n);
      SliceOfSlice(s, n, k, limit);
    } else {
      CutRuneIsSplit(s, limit, n);
    }
  }

  /** In a valid text a start byte stands only on a boundary. */
  lemma {:induction false} SplitOnlyAtTheEnd(s: seq<Byte>, i: nat)
    requires ValidUtf8(s) && i < |s|
    ensures !SplitRune(s[i..])
    decreases |s|
  {
    var n := FirstRune(s);
    if i == 0 {
      ValidIsNotSplit(s);
      assert s[0..] == s;
    } else if i < n {
      assert s[..n][i] == s[i..][0] && Tail(s[..n][i]);
      if SplitRune(s[i..]) {
        SplitRuneShape(s[i..]);
        assert false;
      }
    } else {
      SplitOnlyAtTheEnd(s[n..], i - n);
      assert s[n..][i - n..] == s[i..];
    }
  }

  lemma {:induction false} WholeIsBounded(s: seq<Byte>, limit: nat)
    requires ValidUtf8(s) && |s| <= limit
    ensures LastBoundary(s, limit) == |s|
    decreases |s|
  {
    if s == [] {
    } else {
      WholeIsBounded(s[FirstRune(s)..], limit - FirstRune(s));
    }
  }

  /**
   Of a valid text the cut keeps the longest prefix within the limit that ends
   between two runes: valid itself, and at most three bytes short of the limit.
   */
  lemma {:induction false} CutIsTheLongestWholePrefix(value: seq<Byte>, limit: nat, kept: seq<Byte>)
    requires ValidUtf8(value)
    requires KeptOf(value, limit, kept)
    ensures kept <= value && |kept| <= limit && ValidUtf8(kept) && Boundary(value, |kept|)
    ensures forall j | 0 <= j <= limit && Boundary(value, j) :: j <= |kept|
    ensures |value| > limit ==> |kept| >= limit - 3
  {
    LastBoundaryIsLast(value, limit);
    var k := LastBoundary(value, limit);
    BoundaryEndsAValidPrefix(value, k);
    if |value| <= limit {
      WholeIsBounded(value, limit);
    } else {
      CutLosesAtMostThree(value[..limit], kept);
      if k < limit {
        AfterTheLastBoundary(value, limit);
        assert value[..limit][k..] == value[k..limit] && value[..limit][..k] == value[..k];
        assert kept == value[..k];
      } else {
        forall i | 0 <= i < limit ensures !SplitRune(value[..limit][i..]) {
          SplitOnlyAtTheEnd(value[..limit], i);
        }
        assert kept == value[..limit];
      }
    }
  }
}
