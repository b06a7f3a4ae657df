/**
 * The request handler `exports.handler` of both variants: the config
 * gate, the token check, JSON body recovery, header verification,
 * sanitising, relaying to the chat webhook and mapping its answer.
 *
 * `Decide` says which way a request goes and `Render` what the caller gets
 * back; `Handle` is the handler itself, a sequence of early exits that
 * sanitises the embeds in place.
 */
module Handler {
  import opened Js
  import opened Headers
  import opened Config
  import opened Sanitizer
  import opened Verification

  /** The two environment variables; `undefined` is None. */
  datatype Env = Env(webhookUrl: Option<string>, token: Option<string>)

  /** What `JSON.parse(event.body || '{}')` gave: a value, or an exception. */
  datatype ParsedBody = Parsed(value: Json) | Malformed

  /** The inbound request: its header object, if any, and its parsed body. */
  datatype Event = Event(headers: Option<HeaderList>, body: ParsedBody)

  /** The JSON object posted to the chat webhook; `embeds` is left out of
      the JSON when undefined. */
  datatype Payload = Payload(content: Json, embeds: Option<Json>)

  /** The outcome of `fetch` plus `resp.text()`: an exception, or a status
      and the response text. */
  datatype SinkReply = TransportError(message: string) | HttpReply(status: int, text: string)

  /** What the handler returns: status code, body and Content-Type header. */
  datatype Response = Response(status: int, body: string, contentType: Option<string>)

  /** The handler returns a response, or throws a TypeError it does not catch. */
  datatype HandlerResult = Returned(response: Response) | Threw

  /** The way a request goes. */
  datatype Outcome =
    | NotConfigured
    | Unauthorized
    | Forbidden
    | Relayed(payload: Payload, reply: SinkReply)
    | Crashed

  const NoWebhookResponse := Response(500, "No webhook configured", None)
  const UnauthorizedResponse := Response(401, "{\"error\":\"Unauthorized\"}", Some("application/json"))
  const ForbiddenResponse := Response(403, "{\"error\":\"Forbidden: verification failed\"}", Some("application/json"))

  /** The token the handler compares: `headers?.['x-webhook-token'] ||
      headers?.['X-Webhook-Token']` in the Netlify variant,
      `headers['x-webhook-token']` in the lean one (None when it throws or
      is undefined). */
  function ReceivedToken(variant: Variant, headers: Option<HeaderList>): Option<string> {
    match headers
    case None => None
    case Some(h) =>
      match variant
      case Netlify => StrOr(Exact(h, "x-webhook-token"), Exact(h, "X-Webhook-Token"))
      case Lean => Exact(h, "x-webhook-token")
  }

  datatype TokenVerdict = Accept | Reject | TokenThrows

  /** `if (token && received !== token)`: with a truthy token the received
      value must equal it exactly. In the lean variant reading a header of a
      request without a header object throws. */
  function CheckToken(variant: Variant, token: Option<string>, headers: Option<HeaderList>): (v: TokenVerdict)
    ensures v == TokenThrows <==> variant == Lean && StrTruthy(token) && headers.None?
    ensures v == Accept <==> !StrTruthy(token) || (headers.Some? && ReceivedToken(variant, headers) == token)
  {
    if !StrTruthy(token) then Accept
    else if variant == Lean && headers.None? then TokenThrows
    else if ReceivedToken(variant, headers) == token then Accept
    else Reject
  }

  /** `body` after the parse `try`: `{}` when parsing threw. In the Netlify
      variant the diagnostics call inside the same `try` evaluates
      `Object.keys(body)` and `body.content.substring(...)`, which throw on a
      null body and on a truthy `content` that is not a string, and so also
      reset the body to `{}`. */
  function BodyAfterParse(variant: Variant, parsed: ParsedBody): (r: Json)
    ensures parsed.Malformed? ==> r == JObj(map[])
    ensures parsed.Parsed? ==> r == parsed.value || r == JObj(map[])
    ensures variant == Lean && parsed.Parsed? ==> r == parsed.value
    ensures variant == Netlify ==> r != JNull
    ensures variant == Netlify && TruthyOpt(Prop(r, "content")) ==> Prop(r, "content").value.JStr?
    ensures variant == Netlify && parsed.Parsed? && parsed.value != JNull
            && (!TruthyOpt(Prop(parsed.value, "content")) || Prop(parsed.value, "content").value.JStr?)
            ==> r == parsed.value
  {
    match parsed
    case Malformed => JObj(map[])
    case Parsed(v) =>
      if variant == Netlify && (v == JNull || (TruthyOpt(Prop(v, "content")) && !Prop(v, "content").value.JStr?))
      then JObj(map[])
      else v
  }

  /** `sanitizeStr(body.content) || ''` on a body that is not null. */
  function ContentSan(body: Json): (c: Json)
    ensures Truthy(c) || c == JStr("")
    ensures c.JStr? ==> AllAllowed(c.s)
    ensures Prop(body, "content").None? ==> c == JStr("")
    ensures Prop(body, "content").Some? && Prop(body, "content").value.JStr? ==>
      c == JStr(SanitizeStr(Prop(body, "content").value.s))
    ensures Prop(body, "content").Some? && !Prop(body, "content").value.JStr? ==>
      c == if Truthy(Prop(body, "content").value) then Prop(body, "content").value else JStr("")
  {
    match Prop(body, "content")
    case None => JStr("")
    case Some(v) =>
      var r := SanitizeValue(v);
      if Truthy(r) then r else JStr("")
  }

  /** The payload that is posted, or None when building it throws: reading
      `body.content` of a null body, or the embed loop reaching a null embed. */
  function Outgoing(body: Json): Option<Payload> {
    if body == JNull then None
    else
      match Prop(body, "embeds")
      case Some(JArr(items)) =>
        if FirstNull(items) < |items| then None
        else Some(Payload(ContentSan(body), Some(JArr(AfterLoop(items)))))
      case e => Some(Payload(ContentSan(body), e))
  }

  /** Which way the handler sends a request, given the chat webhook's
      behaviour `sink`. */
  function Decide(variant: Variant, env: Env, event: Event, sink: Payload -> SinkReply): Outcome {
    if !StrTruthy(env.webhookUrl) then NotConfigured
    else
      match CheckToken(variant, env.token, event.headers)
      case TokenThrows => Crashed
      case Reject => Unauthorized
      case Accept =>
        var body := BodyAfterParse(variant, event.body);
        if !Passes(variant, event.headers) then Forbidden
        else
          match Outgoing(body)
          case None => Crashed
          case Some(p) => Relayed(p, sink(p))
  }

  /** `statusCode: resp.ok ? 200 : resp.status, body: text || "Success"`, or
      500 with the error's text when the exchange threw. */
  function RelayResponse(reply: SinkReply): (r: Response)
    ensures reply.HttpReply? ==> (r.status == 200 <==> 200 <= reply.status <= 299)
    ensures reply.HttpReply? && !(200 <= reply.status <= 299) ==> r.status == reply.status
    ensures reply.HttpReply? ==> r.body != "" && (reply.text != "" ==> r.body == reply.text)
    ensures reply.HttpReply? && reply.text == "" ==> r.body == "Success"
    ensures reply.HttpReply? ==> r.contentType == Some("text/plain")
    ensures reply.TransportError? ==> r == Response(500, reply.message, None)
  {
    match reply
    case TransportError(m) => Response(500, m, None)
    case HttpReply(status, text) =>
      Response(if 200 <= status <= 299 then 200 else status,
               if text == "" then "Success" else text,
               Some("text/plain"))
  }

  /** What the caller receives for an outcome. */
  function Render(o: Outcome): HandlerResult {
    match o
    case NotConfigured => Returned(NoWebhookResponse)
    case Unauthorized => Returned(UnauthorizedResponse)
    case Forbidden => Returned(ForbiddenResponse)
    case Relayed(_, reply) => Returned(RelayResponse(reply))
    case Crashed => Threw
  }

  /** The sanitising part of the handler: `contentSan` and the in-place
      loop over `body.embeds`, giving the payload, or None when it throws. */
  method BuildPayload(body: Json) returns (payload: Option<Payload>)
    ensures payload == Outgoing(body)
  {
    if body == JNull {
      return None;
    }
    var content := ContentSan(body);
    var embeds := Prop(body, "embeds");
    if embeds.Some? && embeds.value.JArr? {
      var items := embeds.value.items;
      var a := new Json[|items|](i requires 0 <= i < |items| => items[i]);
      assert a[..] == items;
      var ok := SanitizeEmbeds(a);
      if !ok {
        return None;
      }
      embeds := Some(JArr(a[..]));
    }
    return Some(Payload(content, embeds));
  }

  /** `exports.handler`, with the diagnostics calls left out. */
  method Handle(variant: Variant, env: Env, event: Event, sink: Payload -> SinkReply)
    returns (result: HandlerResult)
    ensures result == Render(Decide(variant, env, event, sink))
  {
    if !StrTruthy(env.webhookUrl) {
      return Returned(NoWebhookResponse);
    }

    var verdict := CheckToken(variant, env.token, event.headers);
    if verdict == TokenThrows {
      return Threw;
    }
    if verdict == Reject {
      return Returned(UnauthorizedResponse);
    }

    var body := JObj(map[]);
    if event.body.Parsed? {
      body := event.body.value;
      if variant == Netlify && (body == JNull || (TruthyOpt(Prop(body, "content")) && !Prop(body, "content").value.JStr?)) {
        body := JObj(map[]);
      }
    }
    assert body == BodyAfterParse(variant, event.body);

    var passes := Passes(variant, event.headers);
    if !passes {
      assert Decide(variant, env, event, sink) == Forbidden;
      return Returned(ForbiddenResponse);
    }

    var payload := BuildPayload(body);
    if payload.None? {
      assert Decide(variant, env, event, sink) == Crashed;
      return Threw;
    }
    var reply := sink(payload.value);
    assert Decide(variant, env, event, sink) == Relayed(payload.value, reply);
    result := Returned(RelayResponse(reply));
  }

  /** Without a configured webhook the handler fails closed with 500, whatever
      the rest of the request is. */
  lemma NoWebhookFailsClosed(variant: Variant, env: Env, event: Event, sink: Payload -> SinkReply)
    requires !StrTruthy(env.webhookUrl)
    ensures Render(Decide(variant, env, event, sink)) == Returned(Response(500, "No webhook configured", None))
  {
  }

  /** With a webhook and a token configured, a request whose header object
      exists is answered 401 exactly when the received token is not the
      configured one. */
  lemma UnauthorizedIff(variant: Variant, env: Env, event: Event, sink: Payload -> SinkReply)
    requires StrTruthy(env.webhookUrl) && StrTruthy(env.token) && event.headers.Some?
    ensures Decide(variant, env, event, sink) == Unauthorized <==>
      ReceivedToken(variant, event.headers) != env.token
  {
  }

  /** With no token configured the token check never rejects. */
  lemma NoTokenNeverUnauthorized(variant: Variant, env: Env, event: Event, sink: Payload -> SinkReply)
    requires !StrTruthy(env.token)
    ensures Decide(variant, env, event, sink) != Unauthorized
    ensures CheckToken(variant, env.token, event.headers) == Accept
  {
  }

  /** A request that is not gated is never answered 403. */
  lemma UngatedNeverForbidden(variant: Variant, env: Env, event: Event, sink: Payload -> SinkReply)
    requires !Gated(event.headers)
    ensures Decide(variant, env, event, sink) != Forbidden
  {
  }

  /** Once past the config gate and the token check, a request is answered
      403 exactly when it is gated and one of the three sub-checks fails. */
  lemma ForbiddenIff(variant: Variant, env: Env, event: Event, sink: Payload -> SinkReply)
    requires StrTruthy(env.webhookUrl)
    requires CheckToken(variant, env.token, event.headers) == Accept
    ensures Decide(variant, env, event, sink) == Forbidden <==>
      Gated(event.headers)
      && !(CacheOk(event.headers) && PrimitivesOk(variant, event.headers)
           && YearOk(HeaderText(event.headers, "date")))
  {
    PassesIff(variant, event.headers);
  }

  /** A relayed payload is the request's own content and embeds, sanitised,
      and the reply is the sink's answer to it: the content is
      `ContentSan` of the body; embeds that are an array keep their number
      and order, each sanitised; embeds that are not an array are passed
      through untouched. Its string content and every string title and
      description of its embeds are allow-listed, and in the Netlify
      variant the content is always a string. */
  lemma RelayedPayloadClean(variant: Variant, env: Env, event: Event, sink: Payload -> SinkReply)
    requires Decide(variant, env, event, sink).Relayed?
    ensures var o := Decide(variant, env, event, sink);
      var body := BodyAfterParse(variant, event.body);
      o.reply == sink(o.payload)
      && o.payload.content == ContentSan(body)
      && (o.payload.content.JStr? ==> AllAllowed(o.payload.content.s))
      && (variant == Netlify ==> o.payload.content.JStr?)
      && (Prop(body, "embeds").Some? && Prop(body, "embeds").value.JArr? ==>
            o.payload.embeds.Some? && o.payload.embeds.value.JArr?
            && |o.payload.embeds.value.items| == |Prop(body, "embeds").value.items|
            && forall j :: 0 <= j < |o.payload.embeds.value.items| ==>
                 o.payload.embeds.value.items[j] == SanitizeEmbed(Prop(body, "embeds").value.items[j])
                 && EmbedClean(o.payload.embeds.value.items[j]))
      && (!(Prop(body, "embeds").Some? && Prop(body, "embeds").value.JArr?) ==>
            o.payload.embeds == Prop(body, "embeds"))
  {
    var body := BodyAfterParse(variant, event.body);
    var e := Prop(body, "embeds");
    if e.Some? && e.value.JArr? {
      AfterLoopSpec(e.value.items);
    }
  }

  /** A body that is not valid JSON is treated as `{}`: once the request is
      let through, the chat webhook gets an empty content and no embeds. */
  lemma MalformedRelaysEmpty(variant: Variant, env: Env, headers: Option<HeaderList>, sink: Payload -> SinkReply)
    requires StrTruthy(env.webhookUrl)
    requires CheckToken(variant, env.token, headers) == Accept
    requires Passes(variant, headers)
    ensures Decide(variant, env, Event(headers, Malformed), sink)
            == Relayed(Payload(JStr(""), None), sink(Payload(JStr(""), None)))
  {
  }

  /** The embeds array of a body contains a null entry. */
  predicate HasNullEmbed(body: Json) {
    Prop(body, "embeds").Some? && Prop(body, "embeds").value.JArr?
    && JNull in Prop(body, "embeds").value.items
  }

  /** The handler throws exactly when a webhook is configured and either the
      lean variant reads the token header of a request without a header
      object while a token is set, or a request let through has a null body
      or a null embed. */
  lemma CrashedIff(variant: Variant, env: Env, event: Event, sink: Payload -> SinkReply)
    ensures var b := BodyAfterParse(variant, event.body);
      Decide(variant, env, event, sink) == Crashed <==>
        StrTruthy(env.webhookUrl)
        && ((variant == Lean && StrTruthy(env.token) && event.headers.None?)
            || (CheckToken(variant, env.token, event.headers) == Accept && Passes(variant, event.headers)
                && (b == JNull || HasNullEmbed(b))))
  {
    var b := BodyAfterParse(variant, event.body);
    var e := Prop(b, "embeds");
    if e.Some? && e.value.JArr? {
      var items := e.value.items;
      var k := FirstNull(items);
      if k < |items| {
        assert items[k] == JNull;
      } else {
        assert JNull !in items;
      }
    }
  }
}
