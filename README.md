# Webhook relay handler — a Dafny model

This project models the request handler of a serverless webhook relay. The
handler accepts an HTTP request and fails closed when no chat webhook is
configured. It checks a shared token and runs a heuristic header
verification. It then strips disallowed characters from the message and
posts it to the chat webhook. Finally it maps the webhook's answer back to
the caller.

There are two copies of the handler:

- `netlify/functions/webhook.js` has verbose diagnostics (variant `Netlify`).
- `function/webhook.js` is lean (variant `Lean`).

`Config.Variant` selects between them. They differ in three ways:

- **Primitives allow-set.** `{"-", "f"}` for `Netlify`, `{"-"}` for `Lean`.
- **Where the token is read.** `Netlify` reads `x-webhook-token`, then falls back to `X-Webhook-Token`. `Lean` reads only `x-webhook-token`. When a token is configured and the request has no header object, that read throws; with no token configured the read is skipped.
- **What the diagnostics call evaluates.** In `Netlify`, a diagnostics call inside the JSON-parse `try` evaluates `Object.keys(body)` and `body.content.substring(...)`. These throw on a `null` body and on a truthy non-string `content`, so in those cases the body is reset to `{}`.

Modules:

- `Js` (js.dfy): JSON values, JavaScript truthiness, property reads, `toLowerCase` and `includes`.
- `Headers` (headers.dfy): the header object as an ordered list of entries, exact lookup, and `getHeader` with its case-insensitive search and fallback.
- `Sanitizer` (sanitizer.dfy): the allow-list filter `sanitizeStr`, and the `forEach` loop over the embeds. The loop is a method that changes an `array` in place.
- `Verification` (verification.dfy): the gate on User-Agent and Content-Type, and the cache, primitives and year sub-checks.
- `Handler` (handler.dfy): the handler's decision function, a method written as a sequence of early exits, and the properties of the whole pipeline.
- `Scenarios` (scenarios.dfy): concrete requests. These include example requests for the verification rule and requests on which the two variants differ.

How the model is organised:

- `Handler.Decide` says which way a request goes: not configured, unauthorized, forbidden, relayed (with the payload and the sink's reply), or crashed.
- `Handler.Render` turns that into the status, body and Content-Type the caller gets, or into an uncaught exception.
- `Handler.Handle` is the handler itself. It is proved to return exactly `Render(Decide(...))`.
- The chat webhook is a parameter `sink: Payload -> SinkReply`. The sink answers with a transport error or with a status and a text.

In three places the model follows the code where a reader might expect otherwise:

- The 500 body for a missing webhook is the plain text `No webhook configured`, not a JSON object.
- The token header is not looked up case-insensitively. `Scenarios.TokenCasing` shows this.
- No body padding or truncation is done, and embed `fields` are not sanitised.

Besides answering 500, 401, 403 or relaying, the handler can also throw an uncaught `TypeError`. `Handler.CrashedIff` states exactly when this happens.

## Model

| member | source | states |
|---|---|---|
| `Js.Lower` | netlify/functions/webhook.js:144 | lowering keeps the length, lowers each ASCII letter, and leaves no upper-case ASCII letter |
| `Js.IncludesIff` | netlify/functions/webhook.js:145 | `includes` holds exactly when the searched text occurs at some position |
| `Headers.Exact` | netlify/functions/webhook.js:100 | `headers[name]` returns a value stored under exactly `name`, and is undefined exactly when no entry has that name |
| `Headers.FindKeyFirst` | netlify/functions/webhook.js:99 | `find` returns the first non-empty key equal to the name ignoring case, and undefined only when none matches |
| `Headers.FindKeySameLower` | function/webhook.js:47 | the key search depends on the requested name only through its lower-case form |
| `Headers.GetHeaderFirstMatch` | netlify/functions/webhook.js:97-101 | if the first case-insensitive match holds a non-empty value, `getHeader` returns it for every spelling of the name |
| `Headers.GetHeaderSound` | function/webhook.js:45-49 | whatever `getHeader` returns is the value of an entry whose name matches ignoring case; with no header object it returns undefined |
| `Headers.GetHeaderAbsent` | netlify/functions/webhook.js:100 | a non-empty name that no entry matches gives undefined |
| `Headers.GetHeaderMissesLaterSpelling` | netlify/functions/webhook.js:97-101 | when the first case-insensitive match holds the empty string and no entry is stored under exactly the name or its lower-case form, `getHeader` returns undefined, whatever later matching entries hold |
| `Headers.GetHeaderFallbackHit` | netlify/functions/webhook.js:100 | when the first case-insensitive match holds the empty string, a non-empty value stored under exactly the requested name is returned |
| `Headers.GetHeaderFallbackLower` | function/webhook.js:48 | when the first case-insensitive match holds the empty string and nothing non-empty is stored under exactly the name, a non-empty value stored under its lower-case form is returned |
| `Sanitizer.SanitizeStr` | netlify/functions/webhook.js:244-245 | the filtered text holds only allow-listed characters and is no longer than the input |
| `Sanitizer.SanitizeIsSubsequence` | netlify/functions/webhook.js:245 | the filtered text is a subsequence of the input |
| `Sanitizer.SanitizeAppend` | function/webhook.js:97-98 | filtering distributes over concatenation |
| `Sanitizer.SanitizeChar` | function/webhook.js:97 | a single character is kept exactly when it is in the allow-set |
| `Sanitizer.SanitizeFixedIff` | netlify/functions/webhook.js:244 | the filter is the identity exactly on all-allowed text |
| `Sanitizer.SanitizeIdempotent` | function/webhook.js:98 | sanitising twice equals sanitising once |
| `Sanitizer.SanitizeCounts` | function/webhook.js:97-98 | every occurrence of an allowed character is kept and every other character is removed |
| `Sanitizer.SanitizeValue` | netlify/functions/webhook.js:245 | strings become allow-listed subsequences of themselves; non-strings are returned unchanged |
| `Sanitizer.SanitizeEmbedSpec` | netlify/functions/webhook.js:251-270 | an embed keeps its keys and all other fields; a truthy title or description is sanitised and a falsy one is left alone; afterwards every string title and description is allow-listed |
| `Sanitizer.FirstNull` | function/webhook.js:102-103 | the loop throws at the first null embed, and every embed before it is not null |
| `Sanitizer.AfterLoopSpec` | netlify/functions/webhook.js:249-287 | the loop keeps the number and order of embeds, sanitises each embed before the first null one, and leaves every embed clean when none is null |
| `Sanitizer.SanitizeEmbeds` | function/webhook.js:101-105 | the in-place loop over the array leaves the embeds as `AfterLoop` of the old ones, and reports whether it ran to the end |
| `Verification.FirstRun` | netlify/functions/webhook.js:168 | `match(/(\d{4})/)` finds the leftmost position followed by four digits, or none if there is no such position |
| `Verification.YearOkIff` | netlify/functions/webhook.js:167-171 | `yearOk` holds exactly when there is a four-digit run and the leftmost one, as a number, exceeds 2026 |
| `Verification.PassesIff` | netlify/functions/webhook.js:163-171 | ungated requests always pass; a gated one passes exactly when the cache status lowered is `miss`, primitives is in the allow-set, and the leftmost four-digit run of the Date header reads above 2026 |
| `Verification.LeanStricter` | function/webhook.js:72 | whatever the lean variant accepts, the Netlify variant accepts too |
| `Verification.NoHeadersPass` | function/webhook.js:46 | a request with no header object is never gated, so it passes |
| `Handler.CheckToken` | netlify/functions/webhook.js:59-61 | the check throws only in the lean variant when a token is set and there is no header object; it accepts exactly when no token is set or the received token equals it exactly |
| `Handler.BodyAfterParse` | netlify/functions/webhook.js:103-134 | a body that fails to parse becomes `{}`; otherwise the parsed value is kept or replaced by `{}`; the lean variant always keeps it; in the Netlify variant the body is never null and its truthy `content` is always a string, and a non-null body whose `content` is falsy or a string is kept |
| `Handler.ContentSan` | netlify/functions/webhook.js:247 | a string `content` is relayed as its filtered text; any other `content` is relayed as it is when truthy, and as `""` otherwise; a missing `content` gives `""` |
| `Handler.RelayResponse` | function/webhook.js:116-125 | status is 200 exactly for a 2xx answer, and otherwise the sink's status; the body is the answer's text when that is non-empty and `Success` when it is empty; the Content-Type is `text/plain`; a transport error gives 500 with the error text |
| `Handler.BuildPayload` | function/webhook.js:100-106 | computing `contentSan` and running the in-place embed loop over a fresh array gives exactly the payload `Outgoing` describes, or none when reading the body or an embed throws |
| `Handler.Handle` | netlify/functions/webhook.js:29-359 | the handler's early-exit sequence and in-place embed loop return exactly what `Render(Decide(...))` describes |
| `Handler.NoWebhookFailsClosed` | netlify/functions/webhook.js:29-31 | without a webhook URL the answer is 500 `No webhook configured`, whatever the other inputs |
| `Handler.UnauthorizedIff` | netlify/functions/webhook.js:58-81 | with a token set and a header object present, the answer is 401 exactly when the received token differs from it |
| `Handler.NoTokenNeverUnauthorized` | function/webhook.js:33 | with no token set, the token check never rejects or throws |
| `Handler.UngatedNeverForbidden` | netlify/functions/webhook.js:163 | an ungated request is never answered 403 |
| `Handler.ForbiddenIff` | function/webhook.js:70-89 | past the token check, the answer is 403 exactly when the request is gated and a sub-check fails |
| `Handler.RelayedPayloadClean` | netlify/functions/webhook.js:247-302 | the posted payload is the body's sanitised content and its embeds, kept in number and order and each sanitised (a non-array `embeds` is passed through); the reply is the sink's answer to it; string content, titles and descriptions are allow-listed; in Netlify the content is always a string |
| `Handler.MalformedRelaysEmpty` | function/webhook.js:51-57 | a body that is not valid JSON, once let through, is relayed as empty content with no embeds |
| `Handler.CrashedIff` | function/webhook.js:33-105 | the handler throws exactly when a webhook is set and either the lean variant reads the token of a request without a header object while a token is set, or a request let through has a null body or a null embed |
| `Scenarios.YearOfDate` | function/webhook.js:75-78 | in a Date of the form `Ddd, DD Mmm YYYY ...` the year alone decides `yearOk`: it holds exactly when the year exceeds 2026 |
| `Scenarios.Date2027Ok` | function/webhook.js:75-78 | a Date in 2027 satisfies the year check |
| `Scenarios.Date2025NotOk` | function/webhook.js:75-78 | a Date in 2025 fails the year check |
| `Scenarios.CurlMiss2027Passes` | function/webhook.js:70-80 | curl, `text/html`, `MISS`, `-` and a 2027 date pass in both variants |
| `Scenarios.CurlMiss2025Refused` | function/webhook.js:70-80 | the same request dated 2025 is refused in both variants |
| `Scenarios.FiveDigitYearRefused` | function/webhook.js:75-78 | a Date with year 12027 is read as 1202 and refused |
| `Scenarios.PrimitivesFNetlify` | netlify/functions/webhook.js:165 | a gated request with `primitives: f` and a 2027 date passes the Netlify variant |
| `Scenarios.PrimitivesFLean` | function/webhook.js:72 | the same request fails the lean variant, whose allow-set is `-` only |
| `Scenarios.TokenCasing` | function/webhook.js:33 | `X-Webhook-Token` is accepted only by the Netlify variant; `X-WEBHOOK-TOKEN` is refused by both |
| `Scenarios.MissingHeaderObject` | function/webhook.js:33 | with a token set and no header object, the Netlify variant answers 401 and the lean variant throws |
| `Scenarios.NumericContentNetlify` | netlify/functions/webhook.js:103-134 | a body with numeric `content` is reset, so the relayed payload has empty content and no embeds |
| `Scenarios.NumericContentLean` | function/webhook.js:100-109 | the lean variant relays the numeric content unchanged and the embed title sanitised |
| `Scenarios.NullEmbed` | netlify/functions/webhook.js:250-251 | a null embed makes both variants throw |

## Left out

- Diagnostics (`sendDebugToDiscord`, `requestData`, console logging): these only post messages to the same webhook and swallow their own failures. The exception is the argument evaluation inside the parse `try` that can reset the body; that is modelled.
- `fetch` and `resp.text()`: network I/O. They are the `sink` parameter, and `String(err)` is the sink's error text. Whether that text contains the webhook URL is decided by the runtime and is not modelled.
- `JSON.parse` and `JSON.stringify`: the parsed body is an input and the payload is a value. Serialisation, key order inside objects, and objects with duplicated keys are not modelled. Numbers are reals, because only their truthiness matters.
- The `catch` around verification (403 `Forbidden: verification error`): header values are strings, so nothing inside it can throw.
- What the hosting platform does with an uncaught exception: the model only records `Threw`.
- Unicode `toLowerCase`: lowering is ASCII folding. For the names and keywords compared here, the results are the same.
- Lone UTF-16 surrogates: strings are sequences of Unicode scalar values.
- Header order: the header list is taken in the order `Object.keys` enumerates it. Integer-like header names, which JavaScript lists first, are not treated specially.
- Prototype keys such as `__proto__` on the parsed body are not modelled.
- Embed objects: they are mutated in place. The model copies the embeds into a fresh array and sanitises that array in place. Nothing reads the original body afterwards, and `JSON.parse` never shares objects, so no aliasing is lost.
- Body padding or truncation, and sanitising embed `fields`: neither file does them.
- script.js: page scripting, unrelated to the handler.
