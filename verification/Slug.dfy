/**
 Slugs derived from display names, and the model codes they become. Upper case
 and white space are Unicode tables, which are parameters here.
 */
module Slug {
  import opened Wrappers

  const MODEL_CODE_MAX_LENGTH := 64
  const FALLBACK_MODEL_SLUG := "model"

  datatype Unicode = Unicode(lower: char -> char, space: char -> bool)

  /** A character a slug may hold. */
  predicate SlugChar(c: char) {
    'a' <= c <= 'z' || '0' <= c <= '9' || c == '-'
  }

  predicate Hyphen(c: char) {
    c == '-'
  }

  /** The tables leave what a slug may hold alone, as every version of Unicode does. */
  ghost predicate FixesSlugChars(u: Unicode) {
    forall c :: SlugChar(c) ==> u.lower(c) == c && !u.space(c)
  }

  // ----- the string operations -----

  function TrimmedStart(s: string, drop: char -> bool): string {
    if s != "" && drop(s[0]) then TrimmedStart(s[1..], drop) else s
  }

  function TrimmedEnd(s: string, drop: char -> bool): string {
    if s != "" && drop(s[|s| - 1]) then TrimmedEnd(s[..|s| - 1], drop) else s
  }

  function Trimmed(s: string, drop: char -> bool): string {
    TrimmedEnd(TrimmedStart(s, drop), drop)
  }

  function Lowered(u: Unicode, s: string): string {
    seq(|s|, i requires 0 <= i < |s| => u.lower(s[i]))
  }

  function SpacesHyphenated(s: string): string {
    seq(|s|, i requires 0 <= i < |s| => if s[i] == ' ' then '-' else s[i])
  }

  function Stripped(s: string): string {
    if s == "" then "" else (if SlugChar(s[0]) then [s[0]] else "") + Stripped(s[1..])
  }

  predicate HasDoubleHyphen(s: string) {
    exists i | 0 <= i < |s| - 1 :: s[i] == '-' == s[i + 1]
  }

  /** One pass that replaces each "--" found from the left, without overlap, by "-". */
  function Halved(s: string): string {
    if |s| < 2 then s
    else if s[0] == '-' == s[1] then "-" + Halved(s[2..])
    else [s[0]] + Halved(s[1..])
  }

  /** Each run of hyphens as one hyphen. */
  function Collapsed(s: string): string {
    if |s| < 2 then s
    else if s[0] == '-' == s[1] then Collapsed(s[1..])
    else [s[0]] + Collapsed(s[1..])
  }

  /** What the slug keeps of the name, with its hyphens as they fell. */
  function Kept(u: Unicode, name: string): string {
    Stripped(SpacesHyphenated(Lowered(u, Trimmed(name, u.space))))
  }

  /** What is left of a name before the cut: its slug characters, with single hyphens inside. */
  function Uncut(u: Unicode, name: string): string {
    Trimmed(Collapsed(Kept(u, name)), Hyphen)
  }

  function SlugOf(u: Unicode, name: string): string {
    var whole := Uncut(u, name);
    var cut := if |whole| > MODEL_CODE_MAX_LENGTH then whole[..MODEL_CODE_MAX_LENGTH] else whole;
    if cut == "" then FALLBACK_MODEL_SLUG else cut
  }

  /** The cut leaves a hyphen at the end. */
  predicate CutAtHyphen(u: Unicode, name: string) {
    var whole := Uncut(u, name);
    |whole| > MODEL_CODE_MAX_LENGTH && whole[MODEL_CODE_MAX_LENGTH - 1] == '-'
  }

  // ----- the replace loop -----

  lemma {:induction false} CollapsedAfter(c: char, s: string, t: string)
    requires Collapsed(s) == Collapsed(t)
    requires |s| == 0 <==> |t| == 0
    requires |s| > 0 ==> s[0] == t[0]
    ensures Collapsed([c] + s) == Collapsed([c] + t)
  {
    assert ([c] + s)[1..] == s && ([c] + t)[1..] == t;
  }

  /** A pass keeps the first character and the runs, and shrinks exactly the strings with a double hyphen. */
  lemma {:induction false} HalvedKeepsRuns(s: string)
    ensures |Halved(s)| <= |s|
    ensures HasDoubleHyphen(s) <==> |Halved(s)| < |s|
    ensures Collapsed(Halved(s)) == Collapsed(s)
    ensures |s| > 0 ==> |Halved(s)| > 0 && Halved(s)[0] == s[0]
  {
    if |s| < 2 {
    } else if s[0] == '-' == s[1] {
      HalvedKeepsRuns(s[2..]);
      CollapsedAfter('-', Halved(s[2..]), s[2..]);
      assert s[1..] == "-" + s[2..];
    } else {
      HalvedKeepsRuns(s[1..]);
      CollapsedAfter(s[0], Halved(s[1..]), s[1..]);
      assert s == [s[0]] + s[1..];
      if HasDoubleHyphen(s) {
        var i :| 0 <= i < |s| - 1 && s[i] == '-' == s[i + 1];
        assert s[1..][i - 1] == '-' == s[1..][i];
      }
    }
  }

  lemma {:induction false} CollapsedFixes(s: string)
    requires !HasDoubleHyphen(s)
    ensures Collapsed(s) == s
  {
    if |s| < 2 {
    } else {
      assert s[0] != '-' || s[1] != '-';
      forall i | 0 <= i < |s[1..]| - 1 ensures s[1..][i] != '-' || s[1..][i + 1] != '-' {
        assert s[i + 1] != '-' || s[i + 1 + 1] != '-';
      }
      CollapsedFixes(s[1..]);
    }
  }

  /** The code: the replace loop runs until no double hyphen is left. */
  method DeriveSlug(u: Unicode, name: string) returns (slug: string)
    ensures slug == SlugOf(u, name)
  {
    slug := Lowered(u, Trimmed(name, u.space));
    slug := SpacesHyphenated(slug);
    slug := Stripped(slug);
    ghost var stripped := slug;
    while HasDoubleHyphen(slug)
      invariant Collapsed(slug) == Collapsed(stripped)
      decreases |slug|
    {
      HalvedKeepsRuns(slug);
      slug := Halved(slug);
    }
    CollapsedFixes(slug);
    slug := Trimmed(slug, Hyphen);
    if |slug| > MODEL_CODE_MAX_LENGTH {
      slug := slug[..MODEL_CODE_MAX_LENGTH];
    }
    if slug == "" {
      slug := FALLBACK_MODEL_SLUG;
    }
  }

  // ----- the shape of a slug -----

  predicate SlugChars(s: string) {
    forall c <- s :: SlugChar(c)
  }

  lemma {:induction false} StrippedHolds(s: string)
    ensures SlugChars(Stripped(s))
  {
    if s == "" {
    } else {
      StrippedHolds(s[1..]);
    }
  }

  lemma {:induction false} CollapsedShape(s: string)
    ensures !HasDoubleHyphen(Collapsed(s))
    ensures s != "" ==> Collapsed(s) != "" && Collapsed(s)[0] == s[0]
    ensures SlugChars(s) ==> SlugChars(Collapsed(s))
  {
    if |s| < 2 {
    } else {
      CollapsedShape(s[1..]);
    }
  }

  lemma {:induction false} TrimmedStartIsASuffix(s: string, drop: char -> bool) returns (k: nat)
    ensures k <= |s| && TrimmedStart(s, drop) == s[k..]
    ensures k < |s| ==> !drop(s[k])
    ensures forall i | 0 <= i < k :: drop(s[i])
  {
    if s != "" && drop(s[0]) {
      var j := TrimmedStartIsASuffix(s[1..], drop);
      k := j + 1;
    } else {
      k := 0;
    }
  }

  lemma {:induction false} TrimmedEndIsAPrefix(s: string, drop: char -> bool) returns (k: nat)
    ensures k <= |s| && TrimmedEnd(s, drop) == s[..k]
    ensures k > 0 ==> !drop(s[k - 1])
    ensures forall i | k <= i < |s| :: drop(s[i])
  {
    if s != "" && drop(s[|s| - 1]) {
      k := TrimmedEndIsAPrefix(s[..|s| - 1], drop);
    } else {
      k := |s|;
    }
  }

  /** The trimmed string is the part between the characters dropped at both ends. */
  lemma TrimmedIsAPart(s: string, drop: char -> bool) returns (i: nat, j: nat)
    ensures i <= j <= |s| && Trimmed(s, drop) == s[i..j]
    ensures i < j ==> !drop(s[i]) && !drop(s[j - 1])
    ensures forall k | 0 <= k < i || j <= k < |s| :: drop(s[k])
  {
    i := TrimmedStartIsASuffix(s, drop);
    var n := TrimmedEndIsAPrefix(s[i..], drop);
    j := i + n;
    forall k | j <= k < |s| ensures drop(s[k]) {
      assert s[i..][k - i] == s[k];
    }
  }

  lemma PartHasNoDoubleHyphen(s: string, i: nat, j: nat)
    requires i <= j <= |s| && !HasDoubleHyphen(s)
    ensures !HasDoubleHyphen(s[i..j])
  {
    forall k | 0 <= k < j - i - 1 ensures s[i..j][k] != '-' || s[i..j][k + 1] != '-' {
      assert s[i + k] != '-' || s[i + k + 1] != '-';
    }
  }

  /** The whole name's shape before the cut. */
  lemma UncutShape(u: Unicode, name: string)
    ensures var whole := Uncut(u, name);
            SlugChars(whole) && !HasDoubleHyphen(whole) && (whole != "" ==> whole[0] != '-' && whole[|whole| - 1] != '-')
  {
    var s := Kept(u, name);
    StrippedHolds(SpacesHyphenated(Lowered(u, Trimmed(name, u.space))));
    CollapsedShape(s);
    var i, j := TrimmedIsAPart(Collapsed(s), Hyphen);
    PartHasNoDoubleHyphen(Collapsed(s), i, j);
  }

  /** Every slug: 1 to 64 characters of [a-z0-9-], none leading, no two hyphens together; only the cut leaves one at the end. */
  lemma SlugShape(u: Unicode, name: string)
    ensures var slug := SlugOf(u, name);
            && 1 <= |slug| <= MODEL_CODE_MAX_LENGTH
            && SlugChars(slug) && !HasDoubleHyphen(slug) && slug[0] != '-'
            && (slug[|slug| - 1] == '-' <==> CutAtHyphen(u, name))
  {
    UncutShape(u, name);
    var whole := Uncut(u, name);
    if |whole| > MODEL_CODE_MAX_LENGTH {
      PartHasNoDoubleHyphen(whole, 0, MODEL_CODE_MAX_LENGTH);
    }
  }

  // ----- a slug as the words of the name -----

  /** The maximal runs of other characters between hyphens. */
  function Words(s: string): (words: seq<string>)
    ensures s != "" && s[0] != '-' ==> words != []
  {
    if s == "" then []
    else if s[0] == '-' then Words(s[1..])
    else if |s| == 1 || s[1] == '-' then [[s[0]]] + Words(s[1..])
    else
      var rest := Words(s[1..]);
      [[s[0]] + rest[0]] + rest[1..]
  }

  function Joined(words: seq<string>): string {
    if words == [] then ""
    else if |words| == 1 then words[0]
    else words[0] + "-" + Joined(words[1..])
  }

  lemma {:induction false} CollapsedKeepsWords(s: string)
    ensures Words(Collapsed(s)) == Words(s)
  {
    if |s| < 2 {
    } else {
      CollapsedKeepsWords(s[1..]);
      CollapsedShape(s[1..]);
      assert s[0] != '-' || s[1] != '-' ==> Collapsed(s)[1..] == Collapsed(s[1..]);
    }
  }

  lemma {:induction false} LastHyphenIsNoWord(s: string)
    requires s != "" && s[|s| - 1] == '-'
    ensures Words(s) == Words(s[..|s| - 1])
  {
    if |s| == 1 {
    } else {
      LastHyphenIsNoWord(s[1..]);
      assert s[1..][..|s| - 2] == s[..|s| - 1][1..];
    }
  }

  lemma {:induction false} TrimmedEndKeepsWords(s: string)
    ensures Words(TrimmedEnd(s, Hyphen)) == Words(s)
    decreases |s|
  {
    if s != "" && Hyphen(s[|s| - 1]) {
      LastHyphenIsNoWord(s);
      TrimmedEndKeepsWords(s[..|s| - 1]);
    }
  }

  lemma {:induction false} TrimmedStartKeepsWords(s: string)
    ensures Words(TrimmedStart(s, Hyphen)) == Words(s)
  {
    if s != "" && Hyphen(s[0]) {
      TrimmedStartKeepsWords(s[1..]);
    }
  }

  lemma JoinedAfter(word: string, words: seq<string>)
    requires words != []
    ensures Joined([word] + words) == word + "-" + Joined(words)
  {
    assert ([word] + words)[1..] == words;
  }

  lemma JoinedLonger(c: char, words: seq<string>)
    requires words != []
    ensures Joined([[c] + words[0]] + words[1..]) == [c] + Joined(words)
  {
    assert ([[c] + words[0]] + words[1..])[1..] == words[1..];
  }

  /** A string with single hyphens, and none at its ends, is its words joined. */
  lemma {:induction false} WordsJoinBack(s: string)
    requires !HasDoubleHyphen(s) && (s != "" ==> s[0] != '-' && s[|s| - 1] != '-')
    ensures Joined(Words(s)) == s
  {
    if |s| <= 1 {
    } else if s[1] == '-' {
      PartHasNoDoubleHyphen(s, 2, |s|);
      assert s[1] == '-' && s[1..][1..] == s[2..];
      WordsJoinBack(s[2..]);
      JoinedAfter([s[0]], Words(s[2..]));
      assert s == [s[0]] + "-" + s[2..];
    } else {
      PartHasNoDoubleHyphen(s, 1, |s|);
      WordsJoinBack(s[1..]);
      JoinedLonger(s[0], Words(s[1..]));
      assert s == [s[0]] + s[1..];
    }
  }

  /** What one character becomes: itself in lower case, a hyphen for a space, and nothing if a slug may not hold it. */
  function KeptChar(u: Unicode, c: char): string {
    var l := u.lower(c);
    if l == ' ' then "-" else if 'a' <= l <= 'z' || '0' <= l <= '9' || l == '-' then [l] else ""
  }

  function KeptChars(u: Unicode, s: string): string {
    if s == "" then "" else KeptChar(u, s[0]) + KeptChars(u, s[1..])
  }

  /** Lowering, hyphenating and stripping in turn keep what one pass over the characters keeps. */
  lemma {:induction false} KeptInOnePass(u: Unicode, s: string)
    ensures Stripped(SpacesHyphenated(Lowered(u, s))) == KeptChars(u, s)
  {
    if s == "" {
    } else {
      var passed := SpacesHyphenated(Lowered(u, s));
      KeptInOnePass(u, s[1..]);
      assert passed[1..] == SpacesHyphenated(Lowered(u, s[1..]));
    }
  }

  /**
   The slug is made of the name between its outer white space, character by character: the
   words that leaves, joined by single hyphens and cut to 64 characters, or "model" when
   there are none.
   */
  lemma SlugJoinsTheWords(u: Unicode, name: string) returns (i: nat, j: nat)
    ensures i <= j <= |name| && (forall k | 0 <= k < i || j <= k < |name| :: u.space(name[k]))
    ensures i < j ==> !u.space(name[i]) && !u.space(name[j - 1])
    ensures var words := Words(KeptChars(u, name[i..j]));
            var whole := Joined(words);
            && (whole == "" <==> words == [])
            && SlugOf(u, name) == if words == [] then "model" else if |whole| <= 64 then whole else whole[..64]
  {
    i, j := TrimmedIsAPart(name, u.space);
    KeptInOnePass(u, name[i..j]);
    CollapsedKeepsWords(Kept(u, name));
    TrimmedStartKeepsWords(Collapsed(Kept(u, name)));
    TrimmedEndKeepsWords(TrimmedStart(Collapsed(Kept(u, name)), Hyphen));
    UncutShape(u, name);
    WordsJoinBack(Uncut(u, name));
  }

  // ----- slugs of slugs, and model codes -----

  lemma {:induction false} StrippedFixes(s: string)
    requires SlugChars(s)
    ensures Stripped(s) == s
  {
    if s == "" {
    } else {
      StrippedFixes(s[1..]);
    }
  }

  lemma TrimmedFixes(s: string, drop: char -> bool)
    requires s != "" ==> !drop(s[0]) && !drop(s[|s| - 1])
    ensures Trimmed(s, drop) == s
  {
  }

  lemma TrimmedDropsTheLast(s: string, drop: char -> bool)
    requires |s| >= 2 && !drop(s[0]) && !drop(s[|s| - 2]) && drop(s[|s| - 1])
    ensures Trimmed(s, drop) == s[..|s| - 1]
  {
    assert TrimmedStart(s, drop) == s;
    assert TrimmedEnd(s, drop) == TrimmedEnd(s[..|s| - 1], drop);
  }

  /** A string of a slug's shape is its own slug but for hyphens at its ends. */
  lemma UncutOfSlug(u: Unicode, s: string)
    requires FixesSlugChars(u) && SlugChars(s) && !HasDoubleHyphen(s)
    ensures Uncut(u, s) == Trimmed(s, Hyphen)
  {
    TrimmedFixes(s, u.space);
    assert Lowered(u, s) == s;
    assert SpacesHyphenated(s) == s by {
      assert forall i | 0 <= i < |s| :: SlugChar(s[i]);
    }
    StrippedFixes(s);
    CollapsedFixes(s);
  }

  /** A slug is derived again from itself exactly when the cut left no hyphen at its end; a second derivation settles it. */
  lemma SlugIdempotentExactlyWhen(u: Unicode, name: string)
    requires FixesSlugChars(u)
    ensures SlugOf(u, SlugOf(u, name)) == SlugOf(u, name) <==> !CutAtHyphen(u, name)
    ensures SlugOf(u, SlugOf(u, SlugOf(u, name))) == SlugOf(u, SlugOf(u, name))
  {
    var slug := SlugOf(u, name);
    SlugShape(u, name);
    UncutOfSlug(u, slug);
    if slug[|slug| - 1] == '-' {
      var shorter := slug[..|slug| - 1];
      var k := |slug| - 2;
      assert slug[k] != '-';
      TrimmedDropsTheLast(slug, Hyphen);
      assert SlugOf(u, slug) == shorter;
      PartHasNoDoubleHyphen(slug, 0, |shorter|);
      UncutOfSlug(u, shorter);
      TrimmedFixes(shorter, Hyphen);
    } else {
      TrimmedFixes(slug, Hyphen);
    }
  }

  datatype CodeError = ModelCodeFormat

  predicate HasDoubleDot(s: string) {
    exists i | 0 <= i < |s| - 1 :: s[i] == '.' == s[i + 1]
  }

  /** A persisted model code: 1 to 64 slug characters without a hyphen at either end. */
  predicate ModelCode(s: string) {
    SlugChars(s) && 1 <= |s| <= MODEL_CODE_MAX_LENGTH && s[0] != '-' && s[|s| - 1] != '-'
  }

  lemma SlugCharsHaveNoDots(s: string)
    ensures SlugChars(s) ==> !HasDoubleDot(s)
  {
    if SlugChars(s) {
      assert forall i | 0 <= i < |s| :: SlugChar(s[i]);
    }
  }

  /** Validates and lowercases a persisted model code; the check for ".." refuses nothing the others admit. */
  function CanonicalModelCode(u: Unicode, code: string): (r: Result<string, CodeError>)
    ensures r.Success? <==> ModelCode(Lowered(u, Trimmed(code, u.space)))
    ensures r.Success? ==> ModelCode(r.value) && r.value == Lowered(u, Trimmed(code, u.space))
  {
    var canonical := Lowered(u, Trimmed(code, u.space));
    SlugCharsHaveNoDots(canonical);
    if canonical == "" || (exists c <- canonical :: !SlugChar(c)) || HasDoubleDot(canonical)
       || canonical[0] == '-' || canonical[|canonical| - 1] == '-' then Failure(ModelCodeFormat)
    else if |canonical| > MODEL_CODE_MAX_LENGTH then Failure(ModelCodeFormat)
    else Success(canonical)
  }

  /** A canonical code is accepted unchanged. */
  lemma CanonicalCodesStay(u: Unicode, code: string)
    requires FixesSlugChars(u)
    ensures CanonicalModelCode(u, code) == Success(code)
            <==> ModelCode(code)
    ensures var r := CanonicalModelCode(u, code); r.Success? ==> CanonicalModelCode(u, r.value) == r
  {
    var r := CanonicalModelCode(u, code);
    if SlugChars(code) && code != "" {
      TrimmedFixes(code, u.space);
      assert Lowered(u, code) == code;
    }
    if r.Success? {
      TrimmedFixes(r.value, u.space);
      assert Lowered(u, r.value) == r.value;
    }
  }

  /** A slug is a model code as it stands exactly when the cut left no hyphen at its end; otherwise it is refused. */
  lemma SlugIsAModelCodeExactlyWhen(u: Unicode, name: string)
    requires FixesSlugChars(u)
    ensures CanonicalModelCode(u, SlugOf(u, name))
            == if CutAtHyphen(u, name) then Failure(ModelCodeFormat) else Success(SlugOf(u, name))
  {
    var slug := SlugOf(u, name);
    SlugShape(u, name);
    TrimmedFixes(slug, u.space);
    assert Lowered(u, slug) == slug;
  }

  /** 63 letters, then a word of its own. */
  function CutName(): string {
    seq(63, i => 'a') + "-b"
  }

  /** A name whose slug is neither its own slug nor a model code. */
  lemma SlugNotIdempotent(u: Unicode)
    requires FixesSlugChars(u)
    ensures SlugOf(u, SlugOf(u, CutName())) != SlugOf(u, CutName())
    ensures CanonicalModelCode(u, SlugOf(u, CutName())).Failure?
  {
    var name := CutName();
    UncutOfSlug(u, name);
    TrimmedFixes(name, Hyphen);
    assert name[63] == '-' && CutAtHyphen(u, name);
    SlugIdempotentExactlyWhen(u, name);
    SlugIsAModelCodeExactlyWhen(u, name);
  }
}
