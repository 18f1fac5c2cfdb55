/** JSON values as the importer sees them after `JSON.parse`, and the few
    JavaScript built-ins the core applies to them: `typeof`, truthiness,
    `Object.keys`/`Object.entries`, property lookup and `${}` interpolation. */
module JsonModel {

  datatype Option<T> = None | Some(value: T)

  /** One own property of a JavaScript object. */
  datatype Member = Member(key: string, value: Json)

  /** A parsed JSON value. An object lists its own properties in the order
      `Object.keys` enumerates them, one member per key: a document with a
      repeated key is taken to be listed as `JSON.parse` leaves it (the last
      value, at the first key's position). A number is kept
      as the text `String(n)` gives for it, which is all the core ever uses
      of a number: it is copied, tested for truthiness and interpolated. */
  datatype Json =
    | JNull
    | JBool(b: bool)
    | JNum(text: string)
    | JStr(s: string)
    | JArr(elems: seq<Json>)
    | JObj(members: seq<Member>)

  /** `typeof v === 'object'`, which holds for `null` too. */
  predicate IsObjectTyped(v: Json)
  {
    v.JNull? || v.JArr? || v.JObj?
  }

  /** JavaScript truthiness, the test behind `a || b`. */
  predicate Truthy(v: Json)
  {
    match v
    case JNull => false
    case JBool(b) => b
    case JNum(t) => t != "0" && t != "NaN"
    case JStr(s) => s != ""
    case JArr(_) => true
    case JObj(_) => true
  }

  /** The falsy JSON values are exactly `null`, `false`, `0` (and `-0`,
      whose `String` is also "0"), `NaN` and the empty string. */
  lemma FalsyValues(v: Json)
    ensures !Truthy(v) <==>
      v == JNull || v == JBool(false) || v == JNum("0") || v == JNum("NaN") || v == JStr("")
  {
  }

  /** `s.startsWith(prefix)`. */
  predicate StartsWith(s: string, prefix: string)
  {
    |prefix| <= |s| && s[..|prefix|] == prefix
  }

  // ---------------------------------------------------------------------
  // A size measure under which every member and element is strictly
  // smaller than the value holding it.

  function Size(j: Json): (n: nat)
    ensures n >= 1
  {
    match j
    case JArr(es) => 1 + ElemsSize(es)
    case JObj(ms) => 1 + MembersSize(ms)
    case _ => 1
  }

  function ElemsSize(es: seq<Json>): nat
  {
    if es == [] then 0 else ElemsSize(es[..|es| - 1]) + 1 + Size(es[|es| - 1])
  }

  function MembersSize(ms: seq<Member>): nat
  {
    if ms == [] then 0 else MembersSize(ms[..|ms| - 1]) + 1 + Size(ms[|ms| - 1].value)
  }

  lemma {:induction false} ElemSizeBound(es: seq<Json>, i: nat)
    requires i < |es|
    ensures Size(es[i]) < ElemsSize(es)
    decreases |es|
  {
    if i < |es| - 1 {
      assert es[..|es| - 1][i] == es[i];
      ElemSizeBound(es[..|es| - 1], i);
    }
  }

  lemma {:induction false} MemberSizeBound(ms: seq<Member>, i: nat)
    requires i < |ms|
    ensures Size(ms[i].value) < MembersSize(ms)
    decreases |ms|
  {
    if i < |ms| - 1 {
      assert ms[..|ms| - 1][i] == ms[i];
      MemberSizeBound(ms[..|ms| - 1], i);
    }
  }

  // ---------------------------------------------------------------------
  // Object.keys / Object.entries

  function Digit(d: nat): (c: char)
    requires d < 10
    ensures '0' <= c <= '9' && DigitValue(c) == d
  {
    (('0' as int) + d) as char
  }

  function DigitValue(c: char): int
  {
    c as int - '0' as int
  }

  /** The number a string of decimal digits denotes. */
  function DecimalValue(s: string): int
  {
    if s == [] then 0 else 10 * DecimalValue(s[..|s| - 1]) + DigitValue(s[|s| - 1])
  }

  /** `String(n)` for an array index: the decimal digits of `n`, with no
      leading zero. */
  function DecimalString(n: nat): (r: string)
    ensures r != []
    ensures forall k :: 0 <= k < |r| ==> '0' <= r[k] <= '9'
    ensures DecimalValue(r) == n
    ensures |r| > 1 ==> r[0] != '0'
  {
    if n < 10 then [Digit(n)]
    else
      var r := DecimalString(n / 10) + [Digit(n % 10)];
      assert r[..|r| - 1] == DecimalString(n / 10);
      r
  }

  /** Distinct indices have distinct keys. */
  lemma DecimalStringInjective(i: nat, j: nat)
    requires i != j
    ensures DecimalString(i) != DecimalString(j)
  {
  }

  /** The own properties of an array or a string: its indices, as strings. */
  function IndexEntries(es: seq<Json>): seq<Member>
  {
    seq(|es|, i requires 0 <= i < |es| => Member(DecimalString(i), es[i]))
  }

  /** The characters of a string, each as a one-character string. */
  function Characters(s: string): seq<Json>
  {
    seq(|s|, i requires 0 <= i < |s| => JStr([s[i]]))
  }

  /** `Object.entries(v)`, which is also `Object.keys(v)` paired with `v[key]`.
      A number or a boolean has no own enumerable properties; a string has
      one per character; `null` is refused by the caller (both built-ins
      throw on it). */
  function OwnEntries(v: Json): seq<Member>
    requires !v.JNull?
  {
    match v
    case JObj(ms) => ms
    case JArr(es) => IndexEntries(es)
    case JStr(s) => IndexEntries(Characters(s))
    case _ => []
  }

  /** An object's own properties are its members; an array's are its
      elements in order, and a string's its characters, each under the key
      `String(i)` of its index; a number or boolean has none. */
  lemma OwnEntriesCases(v: Json)
    requires !v.JNull?
    ensures v.JObj? ==> OwnEntries(v) == v.members
    ensures v.JBool? || v.JNum? ==> OwnEntries(v) == []
    ensures v.JArr? ==> (|OwnEntries(v)| == |v.elems| &&
      forall i :: 0 <= i < |v.elems| ==> DecimalValue(OwnEntries(v)[i].key) == i && OwnEntries(v)[i].value == v.elems[i])
    ensures v.JStr? ==> (|OwnEntries(v)| == |v.s| &&
      forall i :: 0 <= i < |v.s| ==> DecimalValue(OwnEntries(v)[i].key) == i && OwnEntries(v)[i].value == JStr([v.s[i]]))
  {
  }

  /** The index keys of an array or a string are pairwise distinct. */
  lemma IndexKeysDistinct(es: seq<Json>, i: nat, j: nat)
    requires i < j < |es|
    ensures IndexEntries(es)[i].key != IndexEntries(es)[j].key
  {
    DecimalStringInjective(i, j);
  }

  lemma {:induction false} IndexEntriesSize(es: seq<Json>)
    ensures MembersSize(IndexEntries(es)) == ElemsSize(es)
    decreases |es|
  {
    if es != [] {
      var n := |es| - 1;
      assert IndexEntries(es)[..n] == IndexEntries(es[..n]);
      IndexEntriesSize(es[..n]);
    }
  }

  /** The own properties of an object or an array weigh less than it. */
  lemma OwnEntriesSmaller(v: Json)
    requires v.JObj? || v.JArr? || v.JBool? || v.JNum?
    ensures MembersSize(OwnEntries(v)) < Size(v)
  {
    if v.JArr? {
      IndexEntriesSize(v.elems);
    }
  }

  /** An object-typed own property of `v` weighs less than `v`. */
  lemma OwnEntrySmaller(v: Json, i: nat)
    requires !v.JNull? && i < |OwnEntries(v)|
    requires IsObjectTyped(OwnEntries(v)[i].value)
    ensures Size(OwnEntries(v)[i].value) < Size(v)
  {
    match v
    case JObj(ms) => MemberSizeBound(ms, i);
    case JArr(es) => ElemSizeBound(es, i);
  }

  /** `obj[key]` for an own property, the first one listed. */
  function Lookup(ms: seq<Member>, key: string): (r: Option<Json>)
    ensures r.Some? <==> exists i :: 0 <= i < |ms| && ms[i].key == key
    ensures r.Some? ==> exists i :: 0 <= i < |ms| && ms[i] == Member(key, r.value)
  {
    if ms == [] then None
    else if ms[0].key == key then Some(ms[0].value)
    else
      var r := Lookup(ms[1..], key);
      assert forall i :: 1 <= i < |ms| ==> ms[i] == ms[1..][i - 1];
      r
  }

  // ---------------------------------------------------------------------
  // `${v}`: the default conversion of a value to a string.

  /** `String(v)` as a template literal computes it (objects use
      `Object.prototype.toString`, arrays `Array.prototype.join`). */
  function TemplateString(v: Json): string
  {
    match v
    case JNull => "null"
    case JBool(b) => if b then "true" else "false"
    case JNum(t) => t
    case JStr(s) => s
    case JArr(es) => Joined(es)
    case JObj(_) => "[object Object]"
  }

  /** A string interpolates as itself, a number as its text, an object as
      `[object Object]`; an empty array as the empty string, a one-element
      array as its element, `null` there giving the empty string. */
  lemma TemplateStringCases(v: Json)
    ensures v.JStr? ==> TemplateString(v) == v.s
    ensures v.JNum? ==> TemplateString(v) == v.text
    ensures v.JObj? ==> TemplateString(v) == "[object Object]"
    ensures v.JArr? && v.elems == [] ==> TemplateString(v) == ""
    ensures v.JArr? && |v.elems| == 1 && v.elems[0].JStr? ==> TemplateString(v) == v.elems[0].s
    ensures v.JArr? && |v.elems| == 1 && v.elems[0].JNull? ==> TemplateString(v) == ""
  {
    if v.JArr? && |v.elems| == 1 {
      var e := v.elems[0];
      assert v.elems[|v.elems| - 1] == e;
      assert Joined(v.elems) == if e.JNull? then "" else TemplateString(e);
    }
  }

  /** `es.join(",")`, where `null` elements contribute the empty string. */
  function Joined(es: seq<Json>): string
  {
    if es == [] then ""
    else
      var last := if es[|es| - 1].JNull? then "" else TemplateString(es[|es| - 1]);
      if |es| == 1 then last else Joined(es[..|es| - 1]) + "," + last
  }
}
