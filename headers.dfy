/**
 * The request's header object and the handlers' `getHeader` helper.
 *
 * A header object is the list of its (name, value) entries in the order
 * `Object.keys` enumerates them. Header values are strings. A JavaScript
 * object has no duplicated name, and `Exact` takes the first entry with the
 * name, so it reads what `headers[name]` reads.
 */
module Headers {
  import opened Js

  type HeaderList = seq<(string, string)>

  /** `headers[name]`: the value stored under exactly `name`, or `undefined`. */
  function Exact(h: HeaderList, name: string): (r: Option<string>)
    ensures r.Some? ==> exists i :: 0 <= i < |h| && h[i] == (name, r.value)
    ensures r.None? <==> forall i :: 0 <= i < |h| ==> h[i].0 != name
  {
    if h == [] then None
    else if h[0].0 == name then Some(h[0].1)
    else
      var r := Exact(h[1..], name);
      assert forall i :: 1 <= i < |h| ==> h[i] == h[1..][i - 1];
      r
  }

  /** The test `find` applies to each key: `k && k.toLowerCase() === name.toLowerCase()`. */
  predicate Matches(key: string, name: string) {
    key != "" && Lower(key) == Lower(name)
  }

  /** `Object.keys(headers).find(k => Matches(k, name))`. */
  function FindKey(h: HeaderList, name: string): Option<string> {
    if h == [] then None
    else if Matches(h[0].0, name) then Some(h[0].0)
    else FindKey(h[1..], name)
  }

  /** `getHeader(name)`: the value under the first key that matches `name`
      ignoring case, if that value is truthy; otherwise
      `headers[name] || headers[name.toLowerCase()]`; and `undefined` when the
      request has no header object at all. */
  function GetHeader(headers: Option<HeaderList>, name: string): Option<string> {
    match headers
    case None => None
    case Some(h) =>
      var key := FindKey(h, name);
      if key.Some? && StrTruthy(Exact(h, key.value)) then Exact(h, key.value)
      else StrOr(Exact(h, name), Exact(h, Lower(name)))
  }

  /** `FindKey` returns the name of the first entry that matches, and
      `undefined` only when no entry matches. */
  lemma {:induction false} FindKeyFirst(h: HeaderList, name: string)
    ensures FindKey(h, name).None? <==> forall i :: 0 <= i < |h| ==> !Matches(h[i].0, name)
    ensures FindKey(h, name).Some? ==>
      exists i :: 0 <= i < |h| && h[i].0 == FindKey(h, name).value && Matches(h[i].0, name)
                  && forall j :: 0 <= j < i ==> !Matches(h[j].0, name)
  {
    if h != [] && !Matches(h[0].0, name) {
      FindKeyFirst(h[1..], name);
      assert forall i :: 1 <= i < |h| ==> h[i] == h[1..][i - 1];
      if FindKey(h, name).Some? {
        var i :| 0 <= i < |h[1..]| && h[1..][i].0 == FindKey(h, name).value && Matches(h[1..][i].0, name)
                  && forall j :: 0 <= j < i ==> !Matches(h[1..][j].0, name);
        assert forall j :: 0 <= j < i + 1 ==> !Matches(h[j].0, name) by {
          forall j | 0 <= j < i + 1 ensures !Matches(h[j].0, name) {
            if j > 0 { assert h[j] == h[1..][j - 1]; }
          }
        }
        assert h[i + 1] == h[1..][i];
      }
    }
  }

  /** When the first entry whose name matches `name` ignoring case holds a
      non-empty value, `getHeader` returns that value, for every spelling of
      `name`: the lookup is case-insensitive on this path. */
  lemma GetHeaderFirstMatch(h: HeaderList, name: string, i: int)
    requires 0 <= i < |h| && Matches(h[i].0, name) && h[i].1 != ""
    requires forall j :: 0 <= j < i ==> !Matches(h[j].0, name)
    ensures forall n :: Lower(n) == Lower(name) ==> GetHeader(Some(h), n) == Some(h[i].1)
  {
    FindKeyFirst(h, name);
    var k :| 0 <= k < |h| && h[k].0 == FindKey(h, name).value && Matches(h[k].0, name)
             && forall j :: 0 <= j < k ==> !Matches(h[j].0, name);
    assert k == i;
    ExactFirst(h, i);
    forall n | Lower(n) == Lower(name)
      ensures GetHeader(Some(h), n) == Some(h[i].1)
    {
      FindKeySameLower(h, name, n);
    }
  }

  /** `FindKey` depends on the name only through its lower-case form. */
  lemma {:induction false} FindKeySameLower(h: HeaderList, n1: string, n2: string)
    requires Lower(n1) == Lower(n2)
    ensures FindKey(h, n1) == FindKey(h, n2)
  {
    if h != [] {
      FindKeySameLower(h[1..], n1, n2);
    }
  }

  /** The value of an entry is what the exact lookup of its name reads,
      when no earlier entry has the same name. */
  lemma {:induction false} ExactFirst(h: HeaderList, i: int)
    requires 0 <= i < |h|
    requires forall j :: 0 <= j < i ==> h[j].0 != h[i].0
    ensures Exact(h, h[i].0) == Some(h[i].1)
  {
    if i > 0 {
      assert h[1..][i - 1] == h[i];
      ExactFirst(h[1..], i - 1);
    }
  }

  /** Whatever `getHeader` returns is the value of an entry whose name
      matches the requested name ignoring case. */
  lemma GetHeaderSound(headers: Option<HeaderList>, name: string)
    ensures GetHeader(headers, name).Some? ==>
      headers.Some? &&
      exists i :: 0 <= i < |headers.value| && headers.value[i].1 == GetHeader(headers, name).value
                  && Lower(headers.value[i].0) == Lower(name)
  {
    if headers.Some? {
      var h := headers.value;
      FindKeyFirst(h, name);
      LowerIdempotent(name);
    }
  }

  /** With a non-empty name that no entry matches ignoring case, `getHeader`
      returns `undefined`. */
  lemma GetHeaderAbsent(h: HeaderList, name: string)
    requires name != ""
    requires forall i :: 0 <= i < |h| ==> !Matches(h[i].0, name)
    ensures GetHeader(Some(h), name) == None
  {
    FindKeyFirst(h, name);
    LowerIdempotent(name);
    assert forall i :: 0 <= i < |h| ==> h[i].0 != name && h[i].0 != Lower(name);
  }

  /** The fallback misses a later differently-cased entry: when the first
      entry matching `name` ignoring case holds the empty string and no entry
      is stored under exactly `name` or its lower-case form, `getHeader`
      returns `undefined`, whatever non-empty values later matching entries
      hold. */
  lemma GetHeaderMissesLaterSpelling(h: HeaderList, name: string, i: int)
    requires 0 <= i < |h| && Matches(h[i].0, name) && h[i].1 == ""
    requires forall j :: 0 <= j < i ==> !Matches(h[j].0, name)
    requires forall j :: 0 <= j < |h| ==> h[j].0 != name && h[j].0 != Lower(name)
    ensures GetHeader(Some(h), name) == None
  {
    FindKeyFirst(h, name);
    var k :| 0 <= k < |h| && h[k].0 == FindKey(h, name).value && Matches(h[k].0, name)
             && forall j :: 0 <= j < k ==> !Matches(h[j].0, name);
    assert k == i;
    ExactFirst(h, i);
  }

  /** The fallback finds a value stored under exactly `name`: when the first
      case-insensitive match holds the empty string, the first entry named
      exactly `name` is returned if it is non-empty. */
  lemma GetHeaderFallbackHit(h: HeaderList, name: string, i: int, j: int)
    requires 0 <= i < |h| && Matches(h[i].0, name) && h[i].1 == ""
    requires forall k :: 0 <= k < i ==> !Matches(h[k].0, name)
    requires 0 <= j < |h| && h[j].0 == name && h[j].1 != ""
    requires forall k :: 0 <= k < j ==> h[k].0 != name
    ensures GetHeader(Some(h), name) == Some(h[j].1)
  {
    FindKeyFirst(h, name);
    var k :| 0 <= k < |h| && h[k].0 == FindKey(h, name).value && Matches(h[k].0, name)
             && forall m :: 0 <= m < k ==> !Matches(h[m].0, name);
    assert k == i;
    ExactFirst(h, i);
    ExactFirst(h, j);
  }

  /** The fallback finds a value stored under the lower-case name: when the
      first case-insensitive match holds the empty string and nothing
      truthy is stored under exactly `name`, the first entry named
      `Lower(name)` is returned if it is non-empty. */
  lemma GetHeaderFallbackLower(h: HeaderList, name: string, i: int, j: int)
    requires 0 <= i < |h| && Matches(h[i].0, name) && h[i].1 == ""
    requires forall k :: 0 <= k < i ==> !Matches(h[k].0, name)
    requires !StrTruthy(Exact(h, name))
    requires 0 <= j < |h| && h[j].0 == Lower(name) && h[j].1 != ""
    requires forall k :: 0 <= k < j ==> h[k].0 != Lower(name)
    ensures GetHeader(Some(h), name) == Some(h[j].1)
  {
    FindKeyFirst(h, name);
    var k :| 0 <= k < |h| && h[k].0 == FindKey(h, name).value && Matches(h[k].0, name)
             && forall m :: 0 <= m < k ==> !Matches(h[m].0, name);
    assert k == i;
    ExactFirst(h, i);
    ExactFirst(h, j);
  }
}
