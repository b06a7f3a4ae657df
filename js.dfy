/**
 * The JavaScript values the webhook handlers work on: what `JSON.parse`
 * produces, JavaScript truthiness, property reads, and the two string
 * operations the handlers use on header text (`toLowerCase`, `includes`).
 */
module Js {

  datatype Option<+T> = None | Some(value: T)

  /** A value produced by `JSON.parse`. Objects are maps, because
      `JSON.parse` keeps the last of duplicated keys; numbers are reals. */
  datatype Json =
    | JNull
    | JBool(b: bool)
    | JNum(n: real)
    | JStr(s: string)
    | JArr(items: seq<Json>)
    | JObj(fields: map<string, Json>)

  /** JavaScript truthiness of a value. */
  predicate Truthy(v: Json) {
    match v
    case JNull => false
    case JBool(b) => b
    case JNum(n) => n != 0.0
    case JStr(s) => s != ""
    case JArr(_) => true
    case JObj(_) => true
  }

  /** Truthiness of a value that may be `undefined` (None). */
  predicate TruthyOpt(v: Option<Json>) {
    v.Some? && Truthy(v.value)
  }

  /** `v.key` on a value that is not null: only objects have the keys the
      handlers read (`content`, `embeds`, `title`, `description`); on
      arrays, strings, numbers and booleans the read gives `undefined`. */
  function Prop(v: Json, key: string): Option<Json> {
    if v.JObj? && key in v.fields then Some(v.fields[key]) else None
  }

  /** Truthiness of a string that may be `undefined`. */
  predicate StrTruthy(o: Option<string>) {
    o.Some? && o.value != ""
  }

  /** `a || b` on strings that may be `undefined`. */
  function StrOr(a: Option<string>, b: Option<string>): (r: Option<string>)
    ensures StrTruthy(r) <==> StrTruthy(a) || StrTruthy(b)
  {
    if StrTruthy(a) then a else b
  }

  /** `(x || '') + ''`: the text of a string that may be `undefined`. */
  function TextOf(o: Option<string>): string {
    if o.Some? then o.value else ""
  }

  function LowerChar(c: char): char {
    if 'A' <= c <= 'Z' then (c as int + 32) as char else c
  }

  /** `toLowerCase`, folding ASCII letters only. Every string the handlers
      compare a lowered text with is ASCII, and no non-ASCII character
      lowers to a string that could complete one of them, so the
      comparisons come out as in JavaScript. */
  function Lower(s: string): (r: string)
    ensures |r| == |s|
    ensures forall i :: 0 <= i < |s| ==> r[i] == LowerChar(s[i])
    ensures forall i :: 0 <= i < |r| ==> !('A' <= r[i] <= 'Z')
  {
    seq(|s|, i requires 0 <= i < |s| => LowerChar(s[i]))
  }

  lemma LowerIdempotent(s: string)
    ensures Lower(Lower(s)) == Lower(s)
  {
  }

  /** `s.includes(t)`, scanning from the left. */
  function Includes(s: string, t: string): bool
    decreases |s|
  {
    if |s| < |t| then false
    else s[..|t|] == t || Includes(s[1..], t)
  }

  /** `t` occurs in `s` starting at position `i`. */
  predicate OccursAt(s: string, t: string, i: int) {
    0 <= i && i + |t| <= |s| && s[i..i + |t|] == t
  }

  /** `Includes` holds exactly when `t` occurs in `s` at some position. */
  lemma {:induction false} IncludesIff(s: string, t: string)
    ensures Includes(s, t) <==> exists i :: OccursAt(s, t, i)
    decreases |s|
  {
    if |s| < |t| {
    } else if s[..|t|] == t {
      assert OccursAt(s, t, 0);
    } else {
      IncludesIff(s[1..], t);
      if Includes(s[1..], t) {
        var i :| OccursAt(s[1..], t, i);
        assert s[i + 1..i + 1 + |t|] == s[1..][i..i + |t|];
        assert OccursAt(s, t, i + 1);
      }
      if exists i :: OccursAt(s, t, i) {
        var i :| OccursAt(s, t, i);
        assert i != 0;
        assert s[1..][i - 1..i - 1 + |t|] == s[i..i + |t|];
        assert OccursAt(s[1..], t, i - 1);
      }
    }
  }
}
