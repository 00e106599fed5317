/**
 Offset pages of a listing: what a token and a page size ask for, where a page
 stands among the matching rows, and the walk that follows the tokens.
 */
module Pagination {
  import opened Wrappers

  const MAX_INT := 0x7FFF_FFFF_FFFF_FFFF
  const MAX_INT32 := 0x7FFF_FFFF

  const DEFAULT_PAGE_SIZE := 20
  const MAX_PAGE_SIZE := 100
  const DEFAULT_DOWNLINK_RESULTS_PAGE_SIZE := 50
  const MAX_DOWNLINK_RESULTS_PAGE_SIZE := 500

  datatype Error = InvalidPageToken | ResultCountOverflow

  // ----- tokens: decimal integers, as Go's strconv prints and parses them -----

  predicate IsDigit(c: char) {
    '0' <= c <= '9'
  }

  function DigitValue(c: char): nat
    requires IsDigit(c)
  {
    c as int - 48
  }

  function DigitOf(n: nat): (c: char)
    requires n < 10
    ensures IsDigit(c) && DigitValue(c) == n
  {
    (n + 48) as char
  }

  function Itoa(n: nat): string {
    (if n < 10 then "" else Itoa(n / 10)) + [DigitOf(n % 10)]
  }

  predicate AllDigits(s: string) {
    forall c <- s :: IsDigit(c)
  }

  function ValueOf(s: string): (value: int)
    requires AllDigits(s)
    ensures value >= 0
  {
    if s == "" then 0 else ValueOf(s[..|s| - 1]) * 10 + DigitValue(s[|s| - 1])
  }

  /** A decimal integer with an optional sign that fits a 64-bit int. */
  function Atoi(s: string): Option<int> {
    var digits := if s != "" && (s[0] == '+' || s[0] == '-') then s[1..] else s;
    if digits == "" || !AllDigits(digits) then None
    else
      var value: int := if s[0] == '-' then -ValueOf(digits) else ValueOf(digits);
      if -MAX_INT - 1 <= value <= MAX_INT then Some(value) else None
  }

  /** A string parses as an integer exactly when it is decimal digits of it, with a sign or none, and a 64-bit int holds it. */
  lemma ParsesExactlyWhen(s: string, v: int)
    ensures Atoi(s) == Some(v) <==>
            && -0x8000_0000_0000_0000 <= v <= 0x7FFF_FFFF_FFFF_FFFF
            && exists digits: string | digits != "" && AllDigits(digits) ::
                 || (v == ValueOf(digits) && (s == digits || s == "+" + digits))
                 || (v == -ValueOf(digits) && s == "-" + digits)
  {
    if s != "" && (s[0] == '+' || s[0] == '-') {
      assert s == [s[0]] + s[1..];
      assert !IsDigit(s[0]);
      forall digits: string | s == "+" + digits || s == "-" + digits ensures digits == s[1..] {
      }
    }
  }

  lemma {:induction false} ItoaIsDecimal(n: nat)
    ensures Itoa(n) != "" && AllDigits(Itoa(n)) && ValueOf(Itoa(n)) == n
  {
    var front := if n < 10 then "" else Itoa(n / 10);
    if n >= 10 {
      ItoaIsDecimal(n / 10);
    }
    assert AllDigits(front) && ValueOf(front) == n / 10;
    var s := Itoa(n);
    assert s == front + [DigitOf(n % 10)];
    assert s[..|s| - 1] == front && s[|s| - 1] == DigitOf(n % 10);
  }

  /** How a listing's tokens are printed and parsed. */
  datatype Tokens = Tokens(format: nat -> string, parse: string -> Option<int>)

  const DECIMAL := Tokens((n: nat) => Itoa(n), (s: string) => Atoi(s))

  /** A printed offset is never the empty token and reads back as the same offset. */
  ghost predicate ReadsBack(t: Tokens) {
    forall n: nat | n <= MAX_INT :: t.format(n) != "" && t.parse(t.format(n)) == Some(n)
  }

  lemma {:induction false} DecimalTokensReadBack()
    ensures ReadsBack(DECIMAL)
  {
    forall n: nat | n <= MAX_INT ensures Itoa(n) != "" && Atoi(Itoa(n)) == Some(n) {
      ItoaIsDecimal(n);
      assert IsDigit(Itoa(n)[0]);
    }
  }

  // ----- pages -----

  datatype PageResponse = PageResponse(nextToken: string, totalCount: int)

  function TotalCountOf(total: int): Result<int, Error> {
    if total < 0 || total > MAX_INT32 then Failure(ResultCountOverflow) else Success(total)
  }

  datatype PageRequest = PageRequest(limit: int, offset: int) {

    /** The next page's token while rows remain after this one, and the total, which must fit an int32. */
    function Respond(t: Tokens, total: int): Result<PageResponse, Error>
      requires 0 <= offset && 0 <= limit
    {
      var totalCount :- TotalCountOf(total);
      var next := offset + limit;
      Success(PageResponse(if next < total then t.format(next) else "", totalCount))
    }
  }

  /** The page a request asks for; the offset of the page after it must fit an int. */
  function ReadPage(t: Tokens, limit: int, token: string): (page: Result<PageRequest, Error>)
    ensures page.Success? ==> 0 <= page.value.offset && page.value.offset + limit <= MAX_INT && page.value.limit == limit
  {
    var offset := if token == "" then Some(0) else t.parse(token);
    if offset.None? || offset.value < 0 || offset.value > MAX_INT - limit then Failure(InvalidPageToken)
    else Success(PageRequest(limit, offset.value))
  }

  /** A token is accepted exactly when it is empty or reads as an offset that leaves room for a page; it asks for that page. */
  lemma AcceptedTokens(t: Tokens, limit: int, token: string, page: PageRequest)
    ensures ReadPage(t, limit, token) == Success(page) <==>
            && page.limit == limit && 0 <= page.offset <= MAX_INT - limit
            && (if token == "" then page.offset == 0 else t.parse(token) == Some(page.offset))
  {
  }

  /** A response carries the total, which must fit an int32, and the token of the page behind it exactly while rows remain there. */
  lemma ResponseTells(t: Tokens, page: PageRequest, total: int, response: PageResponse)
    requires 0 <= page.offset && 0 <= page.limit
    ensures page.Respond(t, total) == Success(response) <==>
            && 0 <= total <= 0x7FFF_FFFF && response.totalCount == total
            && response.nextToken == if page.offset + page.limit < total then t.format(page.offset + page.limit) else ""
  {
  }

  function ClampPageSize(requested: int): (size: int)
    ensures 1 <= size <= MAX_PAGE_SIZE
    ensures size == requested <==> 1 <= requested <= MAX_PAGE_SIZE
    ensures size != requested ==> size == DEFAULT_PAGE_SIZE
  {
    if requested <= 0 || requested > MAX_PAGE_SIZE then DEFAULT_PAGE_SIZE else requested
  }

  function ClampDownlinkResultsPageSize(requested: int): (size: int)
    ensures 1 <= size <= MAX_DOWNLINK_RESULTS_PAGE_SIZE
    ensures size == requested <==> 1 <= requested <= MAX_DOWNLINK_RESULTS_PAGE_SIZE
    ensures requested > MAX_DOWNLINK_RESULTS_PAGE_SIZE ==> size == MAX_DOWNLINK_RESULTS_PAGE_SIZE
    ensures requested <= 0 ==> size == DEFAULT_DOWNLINK_RESULTS_PAGE_SIZE
  {
    if requested <= 0 then DEFAULT_DOWNLINK_RESULTS_PAGE_SIZE
    else if requested > MAX_DOWNLINK_RESULTS_PAGE_SIZE then MAX_DOWNLINK_RESULTS_PAGE_SIZE
    else requested
  }

  // ----- the walk -----

  /** A page size any listing allows, and far from it: the offsets up to the largest total leave room for one more page. */
  predicate Allowed(limit: int) {
    0 < limit <= MAX_INT - MAX_INT32
  }

  /** The token asks for a page that may be followed. */
  lemma NextIsFurther(t: Tokens, limit: int, token: string, total: int)
    requires ReadsBack(t) && Allowed(limit)
    requires ReadPage(t, limit, token).Success?
    requires var r := ReadPage(t, limit, token).value.Respond(t, total); r.Success? && r.value.nextToken != ""
    ensures var page := ReadPage(t, limit, token).value;
            && page.offset + limit < total
            && ReadPage(t, limit, page.Respond(t, total).value.nextToken) == Success(PageRequest(limit, page.offset + limit))
  {
  }

  /** How much of the listing lies behind the page a token asks for. */
  function Remaining(t: Tokens, limit: int, token: string, total: int): nat {
    if ReadPage(t, limit, token).Success? && ReadPage(t, limit, token).value.offset < total
    then total - ReadPage(t, limit, token).value.offset else 0
  }

  /** What following the tokens from one on yields: the pages served, and the refusal that ended the walk early. */
  ghost function Walk(t: Tokens, limit: int, token: string, total: int): (seq<PageRequest>, Option<Error>)
    requires ReadsBack(t) && Allowed(limit)
    decreases Remaining(t, limit, token, total)
  {
    var read := ReadPage(t, limit, token);
    if read.Failure? then ([], Some(read.fault))
    else
      var response := read.value.Respond(t, total);
      if response.Failure? then ([], Some(response.fault))
      else if response.value.nextToken == "" then ([read.value], None)
      else
        NextIsFurther(t, limit, token, total);
        var (pages, refusal) := Walk(t, limit, response.value.nextToken, total);
        ([read.value] + pages, refusal)
  }

  /** Where page i begins: i times the limit. */
  function OffsetOf(limit: nat, i: nat): nat {
    if i == 0 then 0 else OffsetOf(limit, i - 1) + limit
  }

  lemma {:induction false} OffsetIsAMultiple(limit: nat, i: nat)
    ensures OffsetOf(limit, i) == i * limit
  {
    if i == 0 {
    } else {
      OffsetIsAMultiple(limit, i - 1);
      assert i * limit == (i - 1) * limit + limit;
    }
  }

  lemma {:induction false} OffsetsAscend(limit: nat, i: nat, j: nat)
    requires i < j
    ensures OffsetOf(limit, i) + limit <= OffsetOf(limit, j)
    decreases j
  {
    if i < j - 1 {
      OffsetsAscend(limit, i, j - 1);
    }
  }

  function PageAt(limit: nat, i: nat): PageRequest {
    PageRequest(limit, OffsetOf(limit, i))
  }

  /** One step of the walk: it ends at a page that reaches the total, and otherwise goes on right behind the page. */
  lemma WalkStep(t: Tokens, limit: int, token: string, total: int, offset: nat)
    requires ReadsBack(t) && Allowed(limit) && 0 <= total <= MAX_INT32
    requires ReadPage(t, limit, token) == Success(PageRequest(limit, offset))
    ensures var page, next := PageRequest(limit, offset), offset + limit;
            if next < total then
              && ReadPage(t, limit, t.format(next)) == Success(PageRequest(limit, next))
              && Remaining(t, limit, t.format(next), total) < Remaining(t, limit, token, total)
              && Walk(t, limit, token, total) == ([page] + Walk(t, limit, t.format(next), total).0, Walk(t, limit, t.format(next), total).1)
            else Walk(t, limit, token, total) == ([page], None)
  {
  }

  /** The n pages from page i on. */
  function Pages(limit: nat, i: nat, n: nat): seq<PageRequest> {
    seq(n, k requires 0 <= k < n => PageAt(limit, i + k))
  }

  lemma PagesFrom(limit: nat, i: nat, n: nat)
    ensures [PageAt(limit, i)] + Pages(limit, i + 1, n) == Pages(limit, i, n + 1)
  {
    var left, right := [PageAt(limit, i)] + Pages(limit, i + 1, n), Pages(limit, i, n + 1);
    forall k | 0 <= k < n + 1 ensures left[k] == right[k] {
      assert k > 0 ==> left[k] == PageAt(limit, i + 1 + (k - 1));
    }
  }

  lemma WalkOn(t: Tokens, limit: int, token: string, total: int, i: nat, rest: nat)
    requires ReadsBack(t) && Allowed(limit) && 0 <= total <= MAX_INT32
    requires ReadPage(t, limit, token) == Success(PageAt(limit, i)) && OffsetOf(limit, i + 1) < total
    requires Walk(t, limit, t.format(OffsetOf(limit, i + 1)), total) == (Pages(limit, i + 1, rest), None)
    ensures Walk(t, limit, token, total) == (Pages(limit, i, rest + 1), None)
  {
    WalkStep(t, limit, token, total, OffsetOf(limit, i));
    PagesFrom(limit, i, rest);
  }

  /** From page i on, the walk serves page after page up to the one that reaches the total, and no request is refused. */
  lemma {:induction false} WalkFrom(t: Tokens, limit: int, token: string, total: int, i: nat) returns (n: nat)
    requires ReadsBack(t) && Allowed(limit) && 0 <= total <= MAX_INT32
    requires ReadPage(t, limit, token) == Success(PageAt(limit, i))
    ensures n > 0 && Walk(t, limit, token, total) == (Pages(limit, i, n), None)
    ensures total <= OffsetOf(limit, i + n) && (n > 1 ==> OffsetOf(limit, i + n - 1) < total)
    decreases total - OffsetOf(limit, i)
  {
    WalkStep(t, limit, token, total, OffsetOf(limit, i));
    var next := OffsetOf(limit, i + 1);
    if next < total {
      var rest := WalkFrom(t, limit, t.format(next), total, i + 1);
      n := rest + 1;
      WalkOn(t, limit, token, total, i, rest);
      assert i + n == i + 1 + rest;
    } else {
      n := 1;
      assert Pages(limit, i, 1) == [PageAt(limit, i)];
    }
  }

  /** The rounded-up quotient is the one count whose last page begins before the total and reaches it. */
  lemma RoundedUp(limit: nat, total: nat, n: nat)
    requires limit > 0 && n > 0 && OffsetOf(limit, n - 1) < total <= OffsetOf(limit, n)
    ensures n == (total + limit - 1) / limit
  {
    var q, r := (total + limit - 1) / limit, (total + limit - 1) % limit;
    assert total + limit - 1 == q * limit + r;
    OffsetIsAMultiple(limit, q);
    if q < n - 1 {
      OffsetsAscend(limit, q, n - 1);
    } else if n < q {
      OffsetsAscend(limit, n, q);
    }
  }

  /**
   Following the tokens from the first page serves max(1, ceil(total / limit)) pages,
   none refused, and they begin at the multiples of the limit, in order.
   */
  lemma {:induction false} WalkServesEveryPage(t: Tokens, limit: int, total: int)
    requires ReadsBack(t) && Allowed(limit) && 0 <= total <= MAX_INT32
    ensures var (pages, refusal) := Walk(t, limit, "", total);
            && refusal.None?
            && |pages| == (if total == 0 then 1 else (total + limit - 1) / limit)
            && forall k | 0 <= k < |pages| :: pages[k] == PageRequest(limit, k * limit)
  {
    var n := WalkFrom(t, limit, "", total, 0);
    var pages := Pages(limit, 0, n);
    forall k | 0 <= k < |pages| ensures pages[k] == PageRequest(limit, k * limit) {
      OffsetIsAMultiple(limit, k);
      assert pages[k] == PageAt(limit, 0 + k);
    }
    assert Walk(t, limit, "", total) == (pages, None);
    if total > 0 {
      RoundedUp(limit, total, n);
    }
  }

  predicate Holds(page: PageRequest, row: int) {
    page.offset <= row < page.offset + page.limit
  }

  /** The page that holds a row, among pages that reach past it. */
  lemma {:induction false} RowIsOnAPage(limit: nat, row: nat, n: nat) returns (i: nat)
    requires row < OffsetOf(limit, n)
    ensures i < n && Holds(PageAt(limit, i), row)
  {
    if n > 0 && OffsetOf(limit, n - 1) <= row {
      i := n - 1;
    } else {
      i := RowIsOnAPage(limit, row, n - 1);
    }
  }

  /** Every row is on exactly one of the pages served. */
  lemma {:induction false} EveryRowOnExactlyOnePage(t: Tokens, limit: int, total: int, row: int)
    requires ReadsBack(t) && Allowed(limit) && 0 <= row < total <= MAX_INT32
    ensures var pages := Walk(t, limit, "", total).0;
            exists i | 0 <= i < |pages| :: Holds(pages[i], row) && forall k | 0 <= k < |pages| && Holds(pages[k], row) :: k == i
  {
    var n := WalkFrom(t, limit, "", total, 0);
    var pages := Pages(limit, 0, n);
    var i := RowIsOnAPage(limit, row, n);
    forall k | 0 <= k < |pages| && Holds(pages[k], row) ensures k == i {
      assert pages[k] == PageAt(limit, 0 + k);
      if k < i {
        OffsetsAscend(limit, k, i);
      } else if i < k {
        OffsetsAscend(limit, i, k);
      }
    }
    assert pages[i] == PageAt(limit, 0 + i);
  }

  /** A total the API cannot carry is refused on the first page already; no other total is. */
  lemma RefusedExactlyWhenTheTotalOverflows(t: Tokens, limit: int, total: int)
    requires ReadsBack(t) && Allowed(limit)
    ensures Walk(t, limit, "", total).1 == (if 0 <= total <= MAX_INT32 then None else Some(ResultCountOverflow))
    ensures !(0 <= total <= MAX_INT32) ==> Walk(t, limit, "", total).0 == []
  {
    if 0 <= total <= MAX_INT32 {
      WalkServesEveryPage(t, limit, total);
    }
  }
}
