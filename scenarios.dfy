/**
 * Concrete requests: example requests for the verification rule, and
 * requests on which the two variants of the handler part ways.
 */
module Scenarios {
  import opened Js
  import opened Headers
  import opened Config
  import opened Sanitizer
  import opened Verification
  import opened Handler

  function BrowserHeaders(date: string, primitives: string): HeaderList {
    [("User-Agent", "curl/7.0"), ("Content-Type", "text/html"), ("X-Cache", "MISS"),
     ("primitives", primitives), ("Date", date)]
  }

  /** The header texts the verifier reads from `BrowserHeaders`, one
      header at a time. */
  lemma UserAgentText(date: string, primitives: string)
    ensures HeaderText(Some(BrowserHeaders(date, primitives)), "user-agent") == "curl/7.0"
  {
    assert Lower("User-Agent") == "user-agent";
    GetHeaderFirstMatch(BrowserHeaders(date, primitives), "user-agent", 0);
  }

  lemma ContentTypeText(date: string, primitives: string)
    ensures HeaderText(Some(BrowserHeaders(date, primitives)), "content-type") == "text/html"
  {
    assert Lower("Content-Type") == "content-type";
    assert Lower("User-Agent") != "content-type";
    GetHeaderFirstMatch(BrowserHeaders(date, primitives), "content-type", 1);
  }

  lemma CacheText(date: string, primitives: string)
    ensures CacheStatus(Some(BrowserHeaders(date, primitives))) == "MISS"
  {
    assert Lower("X-Cache") == "x-cache";
    assert Lower("User-Agent") != "x-cache";
    assert Lower("Content-Type") != "x-cache";
    GetHeaderFirstMatch(BrowserHeaders(date, primitives), "x-cache", 2);
  }

  lemma PrimitivesText(date: string, primitives: string)
    requires primitives != ""
    ensures HeaderText(Some(BrowserHeaders(date, primitives)), "primitives") == primitives
  {
    assert Lower("User-Agent")[0] != "primitives"[0];
    assert Lower("Content-Type") != "primitives";
    assert Lower("X-Cache") != "primitives";
    assert Lower("primitives") == "primitives";
    GetHeaderFirstMatch(BrowserHeaders(date, primitives), "primitives", 3);
  }

  lemma DateText(date: string, primitives: string)
    requires date != ""
    ensures HeaderText(Some(BrowserHeaders(date, primitives)), "date") == date
  {
    assert Lower("User-Agent") != "date";
    assert Lower("Content-Type") != "date";
    assert Lower("X-Cache") != "date";
    assert Lower("primitives") != "date";
    assert Lower("Date") == "date";
    GetHeaderFirstMatch(BrowserHeaders(date, primitives), "date", 4);
  }

  /** curl with an HTML content type is gated, and the cache status
      `MISS` is accepted. */
  lemma BrowserHeadersGated(date: string, primitives: string)
    ensures Gated(Some(BrowserHeaders(date, primitives)))
    ensures CacheOk(Some(BrowserHeaders(date, primitives)))
  {
    UserAgentText(date, primitives);
    ContentTypeText(date, primitives);
    CacheText(date, primitives);
    CurlLooksLikeCurl();
    HtmlIsHtml();
    MissIsMiss();
  }

  lemma CurlLooksLikeCurl()
    ensures LooksLikeCurlOrBrowser("curl/7.0")
  {
    assert Lower("curl/7.0")[..4] == "curl";
  }

  lemma HtmlIsHtml()
    ensures Includes(Lower("text/html"), "text/html")
  {
    assert Lower("text/html")[..9] == "text/html";
  }

  lemma MissIsMiss()
    ensures Lower("MISS") == "miss"
  {
  }

  /** HTTP dates, written as the day part, the year and the time. */
  const Date2027 := "Sat, 01 Jan " + "2027" + " 00:00:00 GMT"
  const Date2025 := "Wed, 01 Jan " + "2025" + " 00:00:00 GMT"
  const Date12027 := "Fri, 01 Jan " + "12027" + " 00:00:00 GMT"

  /** A day part of the form `Ddd, DD Mmm `. */
  predicate DayPart(day: string) {
    |day| == 12 && !IsDigit(day[3]) && !IsDigit(day[4]) && !IsDigit(day[7]) && !IsDigit(day[8])
    && !IsDigit(day[11])
  }

  /** In `day + year + time` the year is the leftmost four-digit run, so it
      alone decides `yearOk`. */
  lemma YearOfDate(day: string, year: string, time: string)
    requires DayPart(day) && FourDigitsAt(year, 0)
    ensures YearOk(day + year + time) <==> YearAt(year, 0) > 2026
  {
    var s := day + year + time;
    assert forall k :: 0 <= k < 4 ==> s[12 + k] == year[k];
    assert forall j :: 0 <= j < 12 ==> !FourDigitsAt(s, j);
    assert LeftmostRun(s, 12);
    YearOkIff(s);
  }

  lemma Date2027Ok()
    ensures YearOk(Date2027)
  {
    assert DayPart("Sat, 01 Jan ");
    YearOfDate("Sat, 01 Jan ", "2027", " 00:00:00 GMT");
  }

  lemma Date2025NotOk()
    ensures !YearOk(Date2025)
  {
    assert DayPart("Wed, 01 Jan ");
    YearOfDate("Wed, 01 Jan ", "2025", " 00:00:00 GMT");
  }

  /** The leftmost four-digit run decides, even inside a longer number: a
      five-digit year 12027 reads as 1202 and is refused. */
  lemma FiveDigitYearRefused()
    ensures !YearOk(Date12027)
  {
    assert DayPart("Fri, 01 Jan ");
    assert "12027" + " 00:00:00 GMT" == "1202" + "7 00:00:00 GMT";
    assert Date12027 == "Fri, 01 Jan " + "1202" + "7 00:00:00 GMT";
    YearOfDate("Fri, 01 Jan ", "1202", "7 00:00:00 GMT");
  }

  /** UA `curl/7.0`, `text/html`, cache `MISS`, primitives `-` and a 2027
      date pass. */
  lemma CurlMiss2027Passes(variant: Variant)
    ensures Passes(variant, Some(BrowserHeaders(Date2027, "-")))
  {
    BrowserHeadersGated(Date2027, "-");
    PrimitivesText(Date2027, "-");
    DateText(Date2027, "-");
    Date2027Ok();
  }

  /** The same request dated 2025 is refused. */
  lemma CurlMiss2025Refused(variant: Variant)
    ensures !Passes(variant, Some(BrowserHeaders(Date2025, "-")))
  {
    BrowserHeadersGated(Date2025, "-");
    DateText(Date2025, "-");
    Date2025NotOk();
  }

  /** `primitives: f` passes the Netlify variant. */
  lemma PrimitivesFNetlify()
    ensures Passes(Netlify, Some(BrowserHeaders(Date2027, "f")))
  {
    BrowserHeadersGated(Date2027, "f");
    PrimitivesText(Date2027, "f");
    DateText(Date2027, "f");
    Date2027Ok();
  }

  /** `primitives: f` fails the lean variant. */
  lemma PrimitivesFLean()
    ensures !Passes(Lean, Some(BrowserHeaders(Date2027, "f")))
  {
    BrowserHeadersGated(Date2027, "f");
    PrimitivesText(Date2027, "f");
  }

  /** A token sent as `X-Webhook-Token` is accepted by the Netlify variant
      only; sent as `X-WEBHOOK-TOKEN` it is refused by both. */
  lemma TokenCasing()
    ensures CheckToken(Netlify, Some("s3cret"), Some([("X-Webhook-Token", "s3cret")])) == Accept
    ensures CheckToken(Lean, Some("s3cret"), Some([("X-Webhook-Token", "s3cret")])) == Reject
    ensures CheckToken(Netlify, Some("s3cret"), Some([("X-WEBHOOK-TOKEN", "s3cret")])) == Reject
    ensures CheckToken(Lean, Some("s3cret"), Some([("X-WEBHOOK-TOKEN", "s3cret")])) == Reject
  {
  }

  /** With a token configured, a request without a header object is refused
      by the Netlify variant and makes the lean one throw. */
  lemma MissingHeaderObject(event: Event, sink: Payload -> SinkReply)
    requires event.headers.None?
    ensures Decide(Netlify, Env(Some("https://hook"), Some("s3cret")), event, sink) == Unauthorized
    ensures Decide(Lean, Env(Some("https://hook"), Some("s3cret")), event, sink) == Crashed
  {
  }

  /** A body whose `content` is a number, with one embed whose title ends
      in a newline. */
  const NumericBody := JObj(map["content" := JNum(5.0), "embeds" := JArr([JObj(map["title" := JStr("hi\n")])])])

  /** The Netlify variant resets that body and posts an empty content
      without embeds. */
  lemma NumericContentNetlify(sink: Payload -> SinkReply)
    ensures Decide(Netlify, Env(Some("https://hook"), None), Event(None, Parsed(NumericBody)), sink)
            == Relayed(Payload(JStr(""), None), sink(Payload(JStr(""), None)))
  {
    NoHeadersPass(Netlify);
    assert Prop(NumericBody, "content") == Some(JNum(5.0));
    assert BodyAfterParse(Netlify, Parsed(NumericBody)) == JObj(map[]);
  }

  /** The lean variant posts the number as the content and the embed with
      its title sanitised. */
  lemma NumericContentLean(sink: Payload -> SinkReply)
    ensures var p := Payload(JNum(5.0), Some(JArr([JObj(map["title" := JStr("hi")])])));
      Decide(Lean, Env(Some("https://hook"), None), Event(None, Parsed(NumericBody)), sink)
      == Relayed(p, sink(p))
  {
    NoHeadersPass(Lean);
    NumericOutgoing();
  }

  lemma NumericOutgoing()
    ensures Outgoing(NumericBody) == Some(Payload(JNum(5.0), Some(JArr([JObj(map["title" := JStr("hi")])]))))
  {
    assert Prop(NumericBody, "embeds") == Some(JArr(NumericEmbeds));
    assert ContentSan(NumericBody) == JNum(5.0);
    NumericEmbedsSanitized();
  }

  const NumericEmbeds := [JObj(map["title" := JStr("hi\n")])]

  /** The loop sanitises the one embed's title. */
  lemma NumericEmbedsSanitized()
    ensures FirstNull(NumericEmbeds) == 1
    ensures AfterLoop(NumericEmbeds) == [JObj(map["title" := JStr("hi")])]
  {
    SanitizeNewline();
    assert SanitizeField(map["title" := JStr("hi\n")], "title") == map["title" := JStr("hi")];
  }

  /** The line break is removed. */
  lemma SanitizeNewline()
    ensures SanitizeStr("hi\n") == "hi"
  {
    assert !Allowed('\n');
    assert "hi\n"[1..] == "i\n" && "i\n"[1..] == "\n" && "\n"[1..] == [];
    assert SanitizeStr("\n") == [];
    assert SanitizeStr("i\n") == "i";
  }

  /** A null embed makes both variants throw. */
  lemma NullEmbed(variant: Variant, sink: Payload -> SinkReply)
    ensures Decide(variant, Env(Some("https://hook"), None),
                   Event(None, Parsed(JObj(map["embeds" := JArr([JNull])]))), sink) == Crashed
  {
    NoHeadersPass(variant);
    assert FirstNull([JNull]) == 0;
  }
}
