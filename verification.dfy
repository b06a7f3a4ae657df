/**
 * The heuristic header verification. A request whose User-Agent mentions
 * `curl` or `mozilla` and whose Content-Type mentions `text/html` is
 * "gated": it passes only if the cache status is `miss`, the `primitives`
 * header is in the variant's allow-set, and the first four-digit run in
 * the Date header is a year after 2026. Every other request passes.
 */
module Verification {
  import opened Js
  import opened Headers
  import opened Config

  /** `(getHeader(name) || '') + ''`. */
  function HeaderText(headers: Option<HeaderList>, name: string): string {
    TextOf(GetHeader(headers, name))
  }

  /** `uaLower.includes('curl') || uaLower.includes('mozilla')`. */
  predicate LooksLikeCurlOrBrowser(ua: string) {
    Includes(Lower(ua), "curl") || Includes(Lower(ua), "mozilla")
  }

  /** The condition under which the three sub-checks run. */
  predicate Gated(headers: Option<HeaderList>) {
    LooksLikeCurlOrBrowser(HeaderText(headers, "user-agent"))
    && Includes(Lower(HeaderText(headers, "content-type")), "text/html")
  }

  /** `(getHeader('x-cache') || getHeader('x-nf-cache-status') || '') + ''`. */
  function CacheStatus(headers: Option<HeaderList>): string {
    TextOf(StrOr(GetHeader(headers, "x-cache"), GetHeader(headers, "x-nf-cache-status")))
  }

  predicate CacheOk(headers: Option<HeaderList>) {
    Lower(CacheStatus(headers)) == "miss"
  }

  predicate PrimitivesOk(variant: Variant, headers: Option<HeaderList>) {
    HeaderText(headers, "primitives") in PrimitivesAllowSet(variant)
  }

  /** `\d`: an ASCII digit. */
  predicate IsDigit(c: char) {
    '0' <= c <= '9'
  }

  /** `\d{4}` matches at position `i`. */
  predicate FourDigitsAt(s: string, i: int) {
    0 <= i && i + 4 <= |s|
    && IsDigit(s[i]) && IsDigit(s[i + 1]) && IsDigit(s[i + 2]) && IsDigit(s[i + 3])
  }

  /** `i` is the leftmost position at which `\d{4}` matches. */
  predicate LeftmostRun(s: string, i: int) {
    FourDigitsAt(s, i) && forall j :: 0 <= j < i ==> !FourDigitsAt(s, j)
  }

  /** The position at which `s.match(/(\d{4})/)` matches, or none. */
  function FirstRun(s: string): (r: Option<nat>)
    ensures r.Some? ==> LeftmostRun(s, r.value)
    ensures r.None? ==> forall j :: !FourDigitsAt(s, j)
    decreases |s|
  {
    if |s| < 4 then None
    else if FourDigitsAt(s, 0) then Some(0)
    else
      var r := FirstRun(s[1..]);
      assert forall j :: 1 <= j ==> FourDigitsAt(s, j) == FourDigitsAt(s[1..], j - 1);
      match r
      case None => None
      case Some(i) => Some(i + 1)
  }

  function DigitValue(c: char): nat
    requires IsDigit(c)
  {
    c as int - '0' as int
  }

  /** `parseInt` of the four digits at position `i`. */
  function YearAt(s: string, i: int): nat
    requires FourDigitsAt(s, i)
  {
    DigitValue(s[i]) * 1000 + DigitValue(s[i + 1]) * 100 + DigitValue(s[i + 2]) * 10 + DigitValue(s[i + 3])
  }

  /** `typeof localYear === 'number' && localYear > 2026`. */
  predicate YearOk(date: string) {
    match FirstRun(date)
    case None => false
    case Some(i) => YearAt(date, i) > 2026
  }

  /** `yearOk` holds exactly when the Date text has a four-digit run and the
      leftmost one reads as a year after 2026. */
  lemma YearOkIff(date: string)
    ensures YearOk(date) <==> exists i :: LeftmostRun(date, i) && YearAt(date, i) > 2026
  {
    if YearOk(date) {
      assert LeftmostRun(date, FirstRun(date).value);
    }
    if exists i :: LeftmostRun(date, i) && YearAt(date, i) > 2026 {
      var i :| LeftmostRun(date, i) && YearAt(date, i) > 2026;
      LeftmostUnique(date, i, FirstRun(date).value);
    }
  }

  /** There is only one leftmost run. */
  lemma LeftmostUnique(s: string, i: int, k: int)
    requires LeftmostRun(s, i) && LeftmostRun(s, k)
    ensures i == k
  {
  }

  /** The verification stage lets the request through. */
  predicate Passes(variant: Variant, headers: Option<HeaderList>) {
    !Gated(headers)
    || (CacheOk(headers) && PrimitivesOk(variant, headers) && YearOk(HeaderText(headers, "date")))
  }

  /** A request that is not gated passes, whatever its cache, primitives and
      Date headers say; a gated one passes exactly when the cache status is
      `miss` ignoring case, the primitives header is in the allow-set, and the
      leftmost four-digit run of the Date header reads as a year after 2026. */
  lemma PassesIff(variant: Variant, headers: Option<HeaderList>)
    ensures !Gated(headers) ==> Passes(variant, headers)
    ensures Gated(headers) ==>
      (Passes(variant, headers) <==>
        Lower(CacheStatus(headers)) == "miss"
        && HeaderText(headers, "primitives") in PrimitivesAllowSet(variant)
        && exists i :: LeftmostRun(HeaderText(headers, "date"), i)
                       && YearAt(HeaderText(headers, "date"), i) > 2026)
  {
    YearOkIff(HeaderText(headers, "date"));
  }

  /** Every request the lean variant lets through, the Netlify variant lets
      through too: its allow-set is the larger one. */
  lemma LeanStricter(headers: Option<HeaderList>)
    ensures Passes(Lean, headers) ==> Passes(Netlify, headers)
  {
  }

  /** A request without any header object is never gated. */
  lemma NoHeadersPass(variant: Variant)
    ensures Passes(variant, None)
  {
    assert HeaderText(None, "user-agent") == "";
    assert !Includes(Lower(""), "curl") && !Includes(Lower(""), "mozilla");
  }
}
