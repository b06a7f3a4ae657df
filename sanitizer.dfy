/**
 * The allow-list sanitiser: `sanitizeStr` removes every character outside
 * a fixed set, and the embed loop applies it in place to the truthy
 * `title` and `description` of each embed.
 *
 * The source filters UTF-16 code units; a character outside the Basic
 * Multilingual Plane is two code units, both outside the set, so removing
 * it whole, as here, gives the same text.
 */
module Sanitizer {
  import opened Js

  /** The punctuation the filter keeps, besides ASCII letters and digits. */
  const Punctuation: set<char> :=
    {' ', '%', '`', '-', '=', '[', ']', ';', '\'', ',', '.', '/', '!', '@', '#', '$',
     '^', '&', '*', '(', ')', '_', '+', '{', '}', '|', ':', '>', '<', '?', '"'}

  predicate Allowed(c: char) {
    ('A' <= c <= 'Z') || ('a' <= c <= 'z') || ('0' <= c <= '9') || c in Punctuation
  }

  predicate AllAllowed(s: string) {
    forall i :: 0 <= i < |s| ==> Allowed(s[i])
  }

  /** `s.replace(allowedRegex, '')`: the allowed characters of `s`, in order. */
  function SanitizeStr(s: string): (r: string)
    ensures AllAllowed(r)
    ensures |r| <= |s|
  {
    if s == [] then []
    else (if Allowed(s[0]) then [s[0]] else []) + SanitizeStr(s[1..])
  }

  /** `a` can be obtained from `b` by deleting characters. */
  predicate IsSubsequence(a: string, b: string)
    decreases |b|
  {
    if a == [] then true
    else if b == [] then false
    else (a[0] == b[0] && IsSubsequence(a[1..], b[1..])) || IsSubsequence(a, b[1..])
  }

  /** The sanitised text is obtained from the input by deleting characters. */
  lemma {:induction false} SanitizeIsSubsequence(s: string)
    ensures IsSubsequence(SanitizeStr(s), s)
  {
    if s != [] {
      SanitizeIsSubsequence(s[1..]);
      var r := SanitizeStr(s[1..]);
      if Allowed(s[0]) {
        assert ([s[0]] + r)[1..] == r;
      } else {
        assert [] + r == r;
        if r != [] {
          assert IsSubsequence(r, s[1..]);
        }
      }
    }
  }

  /** Filtering distributes over concatenation. Together with the value on a
      single character this determines the filter completely. */
  lemma {:induction false} SanitizeAppend(a: string, b: string)
    ensures SanitizeStr(a + b) == SanitizeStr(a) + SanitizeStr(b)
  {
    if a == [] {
      assert a + b == b;
    } else {
      var head := if Allowed(a[0]) then [a[0]] else [];
      assert (a + b)[0] == a[0];
      assert (a + b)[1..] == a[1..] + b;
      SanitizeAppend(a[1..], b);
      assert SanitizeStr(a + b) == head + (SanitizeStr(a[1..]) + SanitizeStr(b));
      assert SanitizeStr(a) == head + SanitizeStr(a[1..]);
    }
  }

  /** A single character is kept exactly when it is allowed. */
  lemma SanitizeChar(c: char)
    ensures SanitizeStr([c]) == if Allowed(c) then [c] else []
  {
    assert [c][1..] == [];
  }

  /** The filter leaves a text unchanged exactly when all of it is allowed. */
  lemma {:induction false} SanitizeFixedIff(s: string)
    ensures SanitizeStr(s) == s <==> AllAllowed(s)
  {
    if s != [] {
      SanitizeFixedIff(s[1..]);
      if !Allowed(s[0]) {
        assert |SanitizeStr(s)| <= |s[1..]| < |s|;
      } else if AllAllowed(s) {
        assert AllAllowed(s[1..]);
        assert s == [s[0]] + s[1..];
      }
    }
  }

  /** Sanitising twice is sanitising once. */
  lemma SanitizeIdempotent(s: string)
    ensures SanitizeStr(SanitizeStr(s)) == SanitizeStr(s)
  {
    SanitizeFixedIff(SanitizeStr(s));
  }

  /** Every occurrence of an allowed character survives and every occurrence
      of any other character is removed. */
  lemma {:induction false} SanitizeCounts(s: string, c: char)
    ensures multiset(SanitizeStr(s))[c] == if Allowed(c) then multiset(s)[c] else 0
  {
    if s != [] {
      SanitizeCounts(s[1..], c);
      assert s == [s[0]] + s[1..];
      assert multiset(s) == multiset{s[0]} + multiset(s[1..]);
    }
  }

  /** `sanitizeStr(v)`: strings are filtered, every other value is returned
      as it is. */
  function SanitizeValue(v: Json): (r: Json)
    ensures r.JStr? <==> v.JStr?
    ensures r.JStr? ==> AllAllowed(r.s) && IsSubsequence(r.s, v.s)
    ensures !v.JStr? ==> r == v
  {
    if v.JStr? then
      SanitizeIsSubsequence(v.s);
      JStr(SanitizeStr(v.s))
    else v
  }

  /** `if (e[key]) e[key] = sanitizeStr(e[key])` on the fields of an object. */
  function SanitizeField(m: map<string, Json>, key: string): map<string, Json> {
    if key in m && Truthy(m[key]) then m[key := SanitizeValue(m[key])] else m
  }

  /** The body of the embed loop applied to one embed that is not null. */
  function SanitizeEmbed(e: Json): Json {
    match e
    case JObj(m) => JObj(SanitizeField(SanitizeField(m, "title"), "description"))
    case _ => e
  }

  /** What the loop does to an embed: an object keeps its keys and every
      field other than `title` and `description`; those two, when truthy, are
      sanitised, and when falsy are left as they are; anything else than an
      object is left as it is. Afterwards a string title or description is
      allow-listed. */
  lemma SanitizeEmbedSpec(e: Json)
    ensures !e.JObj? ==> SanitizeEmbed(e) == e
    ensures e.JObj? ==> SanitizeEmbed(e).JObj? && SanitizeEmbed(e).fields.Keys == e.fields.Keys
    ensures e.JObj? ==> forall k :: k in e.fields && k != "title" && k != "description" ==>
      SanitizeEmbed(e).fields[k] == e.fields[k]
    ensures e.JObj? ==> forall k :: k in e.fields && (k == "title" || k == "description") ==>
      SanitizeEmbed(e).fields[k] == (if Truthy(e.fields[k]) then SanitizeValue(e.fields[k]) else e.fields[k])
    ensures EmbedClean(SanitizeEmbed(e))
  {
    if e.JObj? {
      var m := e.fields;
      var r := SanitizeEmbed(e).fields;
      forall k | k in r && (k == "title" || k == "description") && r[k].JStr?
        ensures AllAllowed(r[k].s)
      {
        if !Truthy(m[k]) {
          assert r[k] == m[k] == JStr("");
        }
      }
    }
  }

  /** Every string `title` and `description` of an object is allow-listed. */
  predicate EmbedClean(e: Json) {
    e.JObj? ==> forall k :: k in e.fields && (k == "title" || k == "description") && e.fields[k].JStr? ==>
      AllAllowed(e.fields[k].s)
  }

  /** The index of the first null embed, or the number of embeds: `forEach`
      reads `e.title` on each embed, which throws on null. */
  function FirstNull(s: seq<Json>): (k: nat)
    ensures k <= |s|
    ensures forall j :: 0 <= j < k ==> s[j] != JNull
    ensures k < |s| ==> s[k] == JNull
  {
    if s == [] then 0
    else if s[0] == JNull then 0
    else
      var k := FirstNull(s[1..]);
      assert forall j :: 1 <= j < k + 1 ==> s[j] == s[1..][j - 1];
      1 + k
  }

  /** The embeds after the loop: each embed before the first null one is
      sanitised; from the first null one on, nothing is touched. */
  function AfterLoop(s: seq<Json>): seq<Json> {
    var k := FirstNull(s);
    seq(k, j requires 0 <= j < k => SanitizeEmbed(s[j])) + s[k..]
  }

  /** The loop keeps the number and the order of the embeds, and when no
      embed is null it leaves every embed clean. */
  lemma AfterLoopSpec(s: seq<Json>)
    ensures |AfterLoop(s)| == |s|
    ensures forall j :: 0 <= j < |s| ==>
      AfterLoop(s)[j] == if j < FirstNull(s) then SanitizeEmbed(s[j]) else s[j]
    ensures FirstNull(s) == |s| ==> forall j :: 0 <= j < |s| ==> EmbedClean(AfterLoop(s)[j])
  {
    if FirstNull(s) == |s| {
      forall j | 0 <= j < |s| ensures EmbedClean(AfterLoop(s)[j]) {
        SanitizeEmbedSpec(s[j]);
      }
    }
  }

  /** `body.embeds.forEach(e => { if (e.title) e.title = ...; if
      (e.description) e.description = ...; })`, in place. `ok` is false when
      the loop stops by throwing on a null embed. */
  method SanitizeEmbeds(a: array<Json>) returns (ok: bool)
    modifies a
    ensures ok <==> FirstNull(old(a[..])) == a.Length
    ensures a[..] == AfterLoop(old(a[..]))
  {
    ghost var s := a[..];
    var i := 0;
    while i < a.Length
      invariant 0 <= i <= a.Length
      invariant forall j :: 0 <= j < i ==> s[j] != JNull
      invariant forall j :: 0 <= j < i ==> a[j] == SanitizeEmbed(s[j])
      invariant forall j :: i <= j < a.Length ==> a[j] == s[j]
    {
      if a[i] == JNull {
        assert FirstNull(s) == i;
        assert a[..] == AfterLoop(s);
        return false;
      }
      a[i] := SanitizeEmbed(a[i]);
      i := i + 1;
    }
    assert FirstNull(s) == a.Length;
    assert a[..] == AfterLoop(s);
    return true;
  }
}
