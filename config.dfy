/**
 * The two deployed copies of the webhook handler differ in three ways: the
 * `primitives` allow-set, where the token header is read, and the Netlify
 * copy's reset of the body to `{}` inside the parse `try`.
 * `Netlify` is netlify/functions/webhook.js (the copy with verbose
 * diagnostics), `Lean` is function/webhook.js.
 */
module Config {

  datatype Variant = Netlify | Lean

  /** The values of the `primitives` header that pass verification. */
  function PrimitivesAllowSet(v: Variant): set<string> {
    match v
    case Netlify => {"-", "f"}
    case Lean => {"-"}
  }
}
