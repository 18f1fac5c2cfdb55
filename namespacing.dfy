/** `expandRefs(path, schema)`: the walk that qualifies a document's local
    references `#/definitions/X` with the document's own path.

    `Expanded` is the walk as a function, case by case as the source does it;
    `ExpandRefs` is the source's loop, proved to compute it. The lemmas say
    what the walk keeps (keys, their order, array lengths, every value other
    than a local reference), exactly when it throws, and which trees it leaves
    unchanged, which makes it idempotent. */
module Namespacing {
  import opened JsonModel

  /** The two `TypeError`s the walk can throw. */
  datatype TypeError =
    | NullToObject       // `Object.keys(null)`: "Cannot convert undefined or null to object"
    | StartsWithMissing  // `value.startsWith` on a number or boolean under "$ref"

  datatype Result<T> = Success(value: T) | Failure(error: TypeError)

  const RefKey := "$ref"
  const LocalRefPrefix := "#/definitions/"

  /** A reference into the document's own `definitions` map. */
  predicate IsLocalRef(s: string)
  {
    StartsWith(s, LocalRefPrefix)
  }

  // ---------------------------------------------------------------------
  // The walk

  /** `expandRefs(path, schema)`: a fresh object with one property per key
      of `Object.keys(schema)`, in that order. An array that reaches it
      (one nested directly in an array) therefore comes back as an object
      keyed by its indices, a string as its characters keyed by index, a
      number or boolean as `{}`; `null` throws. */
  function Expanded(path: string, schema: Json): (r: Result<Json>)
    ensures r.Success? ==> r.value.JObj?
    decreases Size(schema), 1
  {
    match schema
    case JNull => Failure(NullToObject)
    case JStr(_) =>
      // Keys are digits and values are one character long, so nothing is rewritten.
      Success(JObj(OwnEntries(schema)))
    case _ =>
      OwnEntriesSmaller(schema);
      match ExpandMembers(path, OwnEntries(schema))
      case Failure(e) => Failure(e)
      case Success(ms) => Success(JObj(ms))
  }

  /** The loop over the keys: each value rewritten in turn; the first throw ends it. */
  function ExpandMembers(path: string, ms: seq<Member>): Result<seq<Member>>
    decreases MembersSize(ms), 0
  {
    if ms == [] then Success([])
    else
      var last := ms[|ms| - 1];
      match ExpandMembers(path, ms[..|ms| - 1])
      case Failure(e) => Failure(e)
      case Success(done) =>
        match ExpandValue(path, last.key, last.value)
        case Failure(e) => Failure(e)
        case Success(v) => Success(done + [Member(last.key, v)])
  }

  /** `newValue` for the property `key: value`. */
  function ExpandValue(path: string, key: string, value: Json): Result<Json>
    decreases Size(value), 2
  {
    if IsObjectTyped(value) then
      if value.JArr? then
        match ExpandElements(path, value.elems)
        case Failure(e) => Failure(e)
        case Success(es) => Success(JArr(es))
      else
        Expanded(path, value)
    else if key == RefKey then
      if value.JStr? then
        if IsLocalRef(value.s) then Success(JStr(path + value.s)) else Success(value)
      else
        Failure(StartsWithMissing)
    else
      Success(value)
  }

  /** `value.map(e => typeof e === 'object' ? expandRefs(path, e) : e)`. */
  function ExpandElements(path: string, es: seq<Json>): Result<seq<Json>>
    decreases ElemsSize(es), 0
  {
    if es == [] then Success([])
    else
      match ExpandElements(path, es[..|es| - 1])
      case Failure(e) => Failure(e)
      case Success(done) =>
        match ExpandElement(path, es[|es| - 1])
        case Failure(e) => Failure(e)
        case Success(v) => Success(done + [v])
  }

  function ExpandElement(path: string, e: Json): Result<Json>
    decreases Size(e), 2
  {
    if IsObjectTyped(e) then Expanded(path, e) else Success(e)
  }

  // ---------------------------------------------------------------------
  // The source's loop

  /** `expandRefs` as the source writes it: a loop over `Object.keys(schema)`
      assigning `obj[key] = newValue`, with an inner loop for `value.map`.
      It has no `modifies` clause: the input is never changed, a new tree
      is built. */
  method ExpandRefs(path: string, schema: Json) returns (r: Result<Json>)
    ensures r == Expanded(path, schema)
    decreases Size(schema), 1
  {
    if schema.JNull? {
      return Failure(NullToObject);
    }
    var keys := OwnEntries(schema);
    var obj: seq<Member> := [];
    for i := 0 to |keys|
      invariant ExpandMembers(path, keys[..i]) == Success(obj)
    {
      var key, value := keys[i].key, keys[i].value;
      MembersStep(path, keys, i);
      var newValue: Json;
      if IsObjectTyped(value) {
        OwnEntrySmaller(schema, i);
        if value.JArr? {
          var mapped := MapElements(path, value.elems);
          if mapped.Failure? {
            MembersFailurePersists(path, keys, i + 1);
            return Failure(mapped.error);
          }
          newValue := JArr(mapped.value);
        } else {
          var sub := ExpandRefs(path, value);
          if sub.Failure? {
            MembersFailurePersists(path, keys, i + 1);
            return Failure(sub.error);
          }
          newValue := sub.value;
        }
      } else if key == RefKey {
        if !value.JStr? {
          MembersFailurePersists(path, keys, i + 1);
          return Failure(StartsWithMissing);
        }
        newValue := if IsLocalRef(value.s) then JStr(path + value.s) else value;
      } else {
        newValue := value;
      }
      obj := obj + [Member(key, newValue)];
    }
    assert keys[..|keys|] == keys;
    if schema.JStr? {
      CharactersCopied(path, schema.s);
    }
    r := Success(JObj(obj));
  }

  /** `value.map(e => typeof e === 'object' ? expandRefs(path, e) : e)`,
      element by element. */
  method MapElements(path: string, es: seq<Json>) returns (r: Result<seq<Json>>)
    ensures r == ExpandElements(path, es)
    decreases ElemsSize(es), 0
  {
    var mapped: seq<Json> := [];
    for j := 0 to |es|
      invariant ExpandElements(path, es[..j]) == Success(mapped)
    {
      assert es[..j + 1][..j] == es[..j];
      var e := es[j];
      var newE := e;
      if IsObjectTyped(e) {
        ElemSizeBound(es, j);
        var sub := ExpandRefs(path, e);
        if sub.Failure? {
          ElementsFailurePersists(path, es, j + 1);
          return Failure(sub.error);
        }
        newE := sub.value;
      }
      mapped := mapped + [newE];
    }
    assert es[..|es|] == es;
    r := Success(mapped);
  }

  // ---------------------------------------------------------------------
  // Helpers for the loop: a throw ends the walk; characters are copied.

  lemma MembersStep(path: string, ms: seq<Member>, i: nat)
    requires i < |ms| && ExpandMembers(path, ms[..i]).Success?
    ensures ExpandMembers(path, ms[..i + 1]) ==
      match ExpandValue(path, ms[i].key, ms[i].value)
      case Failure(e) => Failure(e)
      case Success(v) => Success(ExpandMembers(path, ms[..i]).value + [Member(ms[i].key, v)])
  {
    assert ms[..i + 1][..i] == ms[..i];
  }

  lemma {:induction false} MembersFailurePersists(path: string, ms: seq<Member>, k: nat)
    requires k <= |ms| && ExpandMembers(path, ms[..k]).Failure?
    ensures ExpandMembers(path, ms) == ExpandMembers(path, ms[..k])
    decreases |ms| - k
  {
    if k < |ms| {
      assert ms[..k + 1][..k] == ms[..k];
      MembersFailurePersists(path, ms, k + 1);
    } else {
      assert ms[..k] == ms;
    }
  }

  lemma {:induction false} ElementsFailurePersists(path: string, es: seq<Json>, k: nat)
    requires k <= |es| && ExpandElements(path, es[..k]).Failure?
    ensures ExpandElements(path, es) == ExpandElements(path, es[..k])
    decreases |es| - k
  {
    if k < |es| {
      assert es[..k + 1][..k] == es[..k];
      ElementsFailurePersists(path, es, k + 1);
    } else {
      assert es[..k] == es;
    }
  }

  lemma CharactersCopied(path: string, s: string)
    ensures ExpandMembers(path, OwnEntries(JStr(s))) == Success(OwnEntries(JStr(s)))
  {
    var ms := OwnEntries(JStr(s));
    MembersPointwise(path, ms);
    forall i | 0 <= i < |ms|
      ensures ExpandValue(path, ms[i].key, ms[i].value) == Success(ms[i].value)
    {
      assert ms[i].value == JStr([s[i]]);
    }
    var out := ExpandMembers(path, ms).value;
    assert out == ms;
  }

  // ---------------------------------------------------------------------
  // The walk member by member and element by element

  /** The walk over an object's members goes key by key: it succeeds exactly
      when every value's rewrite succeeds, and then keeps each key in place
      with its value rewritten; otherwise it throws the first key's error. */
  lemma {:induction false} MembersPointwise(path: string, ms: seq<Member>)
    ensures ExpandMembers(path, ms).Success? <==>
      forall i :: 0 <= i < |ms| ==> ExpandValue(path, ms[i].key, ms[i].value).Success?
    ensures ExpandMembers(path, ms).Success? ==>
      var out := ExpandMembers(path, ms).value;
      |out| == |ms| &&
      forall i :: 0 <= i < |ms| ==>
        out[i] == Member(ms[i].key, ExpandValue(path, ms[i].key, ms[i].value).value)
    ensures ExpandMembers(path, ms).Failure? ==>
      exists k :: 0 <= k < |ms| &&
        ExpandValue(path, ms[k].key, ms[k].value) == Failure(ExpandMembers(path, ms).error) &&
        forall i :: 0 <= i < k ==> ExpandValue(path, ms[i].key, ms[i].value).Success?
    decreases |ms|
  {
    if ms != [] {
      var n := |ms| - 1;
      var init := ms[..n];
      MembersPointwise(path, init);
      assert forall i :: 0 <= i < n ==> init[i] == ms[i];
    }
  }

  /** The same for `value.map(...)` over an array's elements. */
  lemma {:induction false} ElementsPointwise(path: string, es: seq<Json>)
    ensures ExpandElements(path, es).Success? <==>
      forall i :: 0 <= i < |es| ==> ExpandElement(path, es[i]).Success?
    ensures ExpandElements(path, es).Success? ==>
      var out := ExpandElements(path, es).value;
      |out| == |es| &&
      forall i :: 0 <= i < |es| ==> out[i] == ExpandElement(path, es[i]).value
    ensures ExpandElements(path, es).Failure? ==>
      exists k :: 0 <= k < |es| &&
        ExpandElement(path, es[k]) == Failure(ExpandElements(path, es).error) &&
        forall i :: 0 <= i < k ==> ExpandElement(path, es[i]).Success?
    decreases |es|
  {
    if es != [] {
      var n := |es| - 1;
      var init := es[..n];
      ElementsPointwise(path, init);
      assert forall i :: 0 <= i < n ==> init[i] == es[i];
    }
  }

  // ---------------------------------------------------------------------
  // What the walk does to one member of an object

  /** The result has the input's keys, in the input's order. */
  lemma ExpandedKeepsKeys(path: string, ms: seq<Member>)
    requires Expanded(path, JObj(ms)).Success?
    ensures var out := Expanded(path, JObj(ms)).value.members;
      |out| == |ms| && forall i :: 0 <= i < |ms| ==> out[i].key == ms[i].key
  {
    MembersPointwise(path, ms);
  }

  /** A string under "$ref" that starts with `#/definitions/` becomes
      `path + value`; every other string value is copied. */
  lemma ExpandedRewritesLocalRefs(path: string, ms: seq<Member>, i: nat)
    requires Expanded(path, JObj(ms)).Success?
    requires i < |ms| && ms[i].value.JStr?
    ensures var out := Expanded(path, JObj(ms)).value.members; var s := ms[i].value.s;
      i < |out| &&
      out[i] == Member(ms[i].key, if ms[i].key == RefKey && IsLocalRef(s) then JStr(path + s) else JStr(s))
  {
    MembersPointwise(path, ms);
  }

  /** A number or boolean is copied and never sits under "$ref" in a walk
      that returns (`value.startsWith` would throw). */
  lemma ExpandedCopiesScalars(path: string, ms: seq<Member>, i: nat)
    requires Expanded(path, JObj(ms)).Success?
    requires i < |ms| && (ms[i].value.JBool? || ms[i].value.JNum?)
    ensures var out := Expanded(path, JObj(ms)).value.members;
      i < |out| && out[i] == ms[i] && ms[i].key != RefKey
  {
    MembersPointwise(path, ms);
  }

  /** An array value keeps its length: scalar elements are copied and
      object-typed elements are walked on their own. */
  lemma ExpandedMapsArrays(path: string, ms: seq<Member>, i: nat)
    requires Expanded(path, JObj(ms)).Success?
    requires i < |ms| && ms[i].value.JArr?
    ensures var out := Expanded(path, JObj(ms)).value.members; var es := ms[i].value.elems;
      i < |out| && out[i].key == ms[i].key && out[i].value.JArr? &&
      |out[i].value.elems| == |es| &&
      forall k :: 0 <= k < |es| ==>
        if IsObjectTyped(es[k]) then Expanded(path, es[k]) == Success(out[i].value.elems[k])
        else out[i].value.elems[k] == es[k]
  {
    MembersPointwise(path, ms);
    ElementsPointwise(path, ms[i].value.elems);
  }

  /** An object value is walked recursively, whatever its key, "$ref" included. */
  lemma ExpandedRecursesIntoObjects(path: string, ms: seq<Member>, i: nat)
    requires Expanded(path, JObj(ms)).Success?
    requires i < |ms| && ms[i].value.JObj?
    ensures var out := Expanded(path, JObj(ms)).value.members;
      i < |out| && out[i].key == ms[i].key && Expanded(path, ms[i].value) == Success(out[i].value)
  {
    MembersPointwise(path, ms);
  }

  /** The new value of one property: `null` throws; an object is walked;
      an array stays an array; a string under "$ref" that is a local
      reference is prefixed with `path`, any other string copied; a number
      or boolean under "$ref" throws at `startsWith`, elsewhere it is copied. */
  lemma ExpandValueCases(path: string, key: string, value: Json)
    ensures var r := ExpandValue(path, key, value);
      && (value.JNull? ==> r == Failure(NullToObject))
      && (value.JObj? ==> r == Expanded(path, value))
      && (value.JArr? && r.Success? ==> r.value.JArr?)
      && (value.JStr? ==>
            r == Success(if key == RefKey && IsLocalRef(value.s) then JStr(path + value.s) else value))
      && ((value.JBool? || value.JNum?) ==>
            r == if key == RefKey then Failure(StartsWithMissing) else Success(value))
  {
  }

  /** The `map` callback: a non-object element is kept; an object-typed
      one, arrays included, comes back as an object. */
  lemma ExpandElementCases(path: string, e: Json)
    ensures !IsObjectTyped(e) ==> ExpandElement(path, e) == Success(e)
    ensures ExpandElement(path, e).Success? ==> (ExpandElement(path, e).value.JObj? <==> IsObjectTyped(e))
  {
  }

  /** An array directly inside an array comes back as an object keyed by
      its indices: one member per element, in order, keys `String(i)` and so
      pairwise distinct, each element rewritten as a property value. */
  lemma NestedArrayIsIndexed(path: string, es: seq<Json>)
    requires ExpandElement(path, JArr(es)).Success?
    ensures var out := ExpandElement(path, JArr(es)).value.members;
      |out| == |es| &&
      (forall i :: 0 <= i < |es| ==>
        DecimalValue(out[i].key) == i && ExpandValue(path, out[i].key, es[i]) == Success(out[i].value)) &&
      forall i, k :: 0 <= i < k < |es| ==> out[i].key != out[k].key
  {
    MembersPointwise(path, OwnEntries(JArr(es)));
  }

  // ---------------------------------------------------------------------
  // When the walk throws

  /** The trees on which `expandRefs` returns: no `null` where the walk
      reaches it (a property value, an array element or the root), and no
      number or boolean under "$ref". */
  predicate Expandable(j: Json)
    decreases j, 1
  {
    match j
    case JNull => false
    case JObj(ms) => forall i :: 0 <= i < |ms| ==> ValueExpandable(ms[i].key, ms[i].value)
    case JArr(es) => forall i :: 0 <= i < |es| ==> ValueExpandable(DecimalString(i), es[i])
    case _ => true
  }

  predicate ValueExpandable(key: string, v: Json)
    decreases v, 2
  {
    match v
    case JNull => false
    case JArr(es) => forall i :: 0 <= i < |es| ==> ElementExpandable(es[i])
    case JObj(_) => Expandable(v)
    case JStr(_) => true
    case _ => key != RefKey
  }

  predicate ElementExpandable(e: Json)
    decreases e, 2
  {
    match e
    case JNull => false
    case JArr(_) => Expandable(e)
    case JObj(_) => Expandable(e)
    case _ => true
  }

  /** `expandRefs` returns exactly on the `Expandable` trees, and throws on all others. */
  lemma {:induction false} ExpandableIff(path: string, j: Json)
    ensures Expanded(path, j).Success? <==> Expandable(j)
    decreases j, 1
  {
    match j
    case JObj(ms) =>
      MembersPointwise(path, ms);
      forall i | 0 <= i < |ms|
        ensures ExpandValue(path, ms[i].key, ms[i].value).Success? <==> ValueExpandable(ms[i].key, ms[i].value)
      {
        ValueExpandableIff(path, ms[i].key, ms[i].value);
      }
    case JArr(es) =>
      var ms := OwnEntries(j);
      MembersPointwise(path, ms);
      forall i | 0 <= i < |es|
        ensures ExpandValue(path, ms[i].key, ms[i].value).Success? <==> ValueExpandable(DecimalString(i), es[i])
      {
        ValueExpandableIff(path, DecimalString(i), es[i]);
      }
    case _ =>
  }

  lemma {:induction false} ValueExpandableIff(path: string, key: string, v: Json)
    ensures ExpandValue(path, key, v).Success? <==> ValueExpandable(key, v)
    decreases v, 2
  {
    match v
    case JArr(es) =>
      ElementsPointwise(path, es);
      forall i | 0 <= i < |es|
        ensures ExpandElement(path, es[i]).Success? <==> ElementExpandable(es[i])
      {
        if IsObjectTyped(es[i]) {
          ExpandableIff(path, es[i]);
        }
      }
    case JObj(_) => ExpandableIff(path, v);
    case JNull => ExpandableIff(path, v);
    case _ =>
  }

  // ---------------------------------------------------------------------
  // The trees the walk leaves unchanged

  /** An object in which no array sits directly inside an array, at any depth. */
  predicate Canonical(j: Json)
    decreases j, 1
  {
    j.JObj? && forall i :: 0 <= i < |j.members| ==> CanonicalValue(j.members[i].value)
  }

  predicate CanonicalValue(v: Json)
    decreases v, 2
  {
    match v
    case JArr(es) => forall i :: 0 <= i < |es| ==> CanonicalElement(es[i])
    case JObj(_) => Canonical(v)
    case _ => true
  }

  predicate CanonicalElement(e: Json)
    decreases e, 2
  {
    match e
    case JArr(_) => false
    case JObj(_) => Canonical(e)
    case _ => true
  }

  /** The member is not a local reference. */
  predicate RefSettled(m: Member)
  {
    m.key == RefKey && m.value.JStr? ==> !IsLocalRef(m.value.s)
  }

  /** No string under "$ref", at any depth, starts with `#/definitions/`. */
  predicate NoLocalRefs(j: Json)
  {
    match j
    case JArr(es) => forall i :: 0 <= i < |es| ==> NoLocalRefs(es[i])
    case JObj(ms) => forall i :: 0 <= i < |ms| ==> RefSettled(ms[i]) && NoLocalRefs(ms[i].value)
    case _ => true
  }

  /** What a walk with `path` leaves as it is. With the empty path a local
      reference is rewritten to itself, so it may stay. */
  predicate Settled(path: string, j: Json)
  {
    Expandable(j) && Canonical(j) && (path == "" || NoLocalRefs(j))
  }

  predicate ValueSettled(path: string, key: string, v: Json)
  {
    ValueExpandable(key, v) && CanonicalValue(v) &&
    (path == "" || (RefSettled(Member(key, v)) && NoLocalRefs(v)))
  }

  /** Prefixing a path that is not itself a local reference to a local
      reference never yields a local reference. */
  lemma QualifiedIsNotLocal(path: string, s: string)
    requires path != "" && !IsLocalRef(path) && IsLocalRef(s)
    ensures !IsLocalRef(path + s)
  {
    var n := |LocalRefPrefix|;
    var t := path + s;
    var k := |path|;
    if k >= n {
      assert t[..n] == path[..n];
    } else if n <= |t| {
      assert s[..n][0] == '#';
      assert t[k] == '#';
      assert forall m :: 0 < m < n ==> LocalRefPrefix[m] != '#';
      assert t[..n][k] != LocalRefPrefix[k];
    }
  }

  /** An object whose every property is settled is settled. */
  lemma SettledOfMembers(path: string, ms: seq<Member>)
    requires forall i :: 0 <= i < |ms| ==> ValueSettled(path, ms[i].key, ms[i].value)
    ensures Settled(path, JObj(ms))
  {
  }

  /** Whatever the walk returns is settled for `path`, provided `path`
      does not itself start with `#/definitions/`. */
  lemma {:induction false} ExpandedIsSettled(path: string, j: Json)
    requires !IsLocalRef(path) && Expanded(path, j).Success?
    ensures Settled(path, Expanded(path, j).value)
    decreases j, 1
  {
    match j
    case JStr(s) =>
      var ms := OwnEntries(j);
      forall i | 0 <= i < |ms|
        ensures ValueSettled(path, ms[i].key, ms[i].value)
      {
        assert ms[i].value == JStr([s[i]]);
      }
      SettledOfMembers(path, ms);
    case JObj(ms) =>
      MembersPointwise(path, ms);
      var out := Expanded(path, j).value.members;
      forall i | 0 <= i < |ms|
        ensures ValueSettled(path, out[i].key, out[i].value)
      {
        ValueOutSettled(path, ms[i].key, ms[i].value);
      }
      SettledOfMembers(path, out);
    case JArr(es) =>
      var ms := OwnEntries(j);
      MembersPointwise(path, ms);
      var out := Expanded(path, j).value.members;
      forall i | 0 <= i < |ms|
        ensures ValueSettled(path, out[i].key, out[i].value)
      {
        assert ms[i] == Member(DecimalString(i), es[i]);
        ValueOutSettled(path, DecimalString(i), es[i]);
      }
      SettledOfMembers(path, out);
    case _ =>
  }

  lemma {:induction false} ValueOutSettled(path: string, key: string, v: Json)
    requires !IsLocalRef(path) && ExpandValue(path, key, v).Success?
    ensures ValueSettled(path, key, ExpandValue(path, key, v).value)
    decreases v, 2
  {
    match v
    case JArr(es) =>
      ElementsPointwise(path, es);
      var out := ExpandValue(path, key, v).value.elems;
      forall k | 0 <= k < |es|
        ensures ElementExpandable(out[k]) && CanonicalElement(out[k]) && (path == "" || NoLocalRefs(out[k]))
      {
        if IsObjectTyped(es[k]) {
          ExpandedIsSettled(path, es[k]);
        }
      }
    case JObj(_) => ExpandedIsSettled(path, v);
    case JStr(s) =>
      if key == RefKey && IsLocalRef(s) && path != "" {
        QualifiedIsNotLocal(path, s);
      }
    case _ =>
  }

  /** A settled tree is returned unchanged. */
  lemma {:induction false} SettledIsFixed(path: string, j: Json)
    requires Settled(path, j)
    ensures Expanded(path, j) == Success(j)
    decreases j, 1
  {
    var ms := j.members;
    MembersPointwise(path, ms);
    forall i | 0 <= i < |ms|
      ensures ExpandValue(path, ms[i].key, ms[i].value) == Success(ms[i].value)
    {
      SettledValueIsFixed(path, ms[i].key, ms[i].value);
    }
    assert Expanded(path, j).value.members == ms;
  }

  lemma {:induction false} SettledValueIsFixed(path: string, key: string, v: Json)
    requires ValueSettled(path, key, v)
    ensures ExpandValue(path, key, v) == Success(v)
    decreases v, 2
  {
    match v
    case JArr(es) =>
      ElementsPointwise(path, es);
      forall k | 0 <= k < |es|
        ensures ExpandElement(path, es[k]) == Success(es[k])
      {
        assert ElementExpandable(es[k]) && CanonicalElement(es[k]);
        if es[k].JObj? {
          assert path == "" || NoLocalRefs(es[k]);
          SettledIsFixed(path, es[k]);
        }
      }
      assert ExpandElements(path, es).value == es;
    case JObj(_) => SettledIsFixed(path, v);
    case JStr(s) =>
      assert "" + s == s;
    case _ =>
  }

  /** A tree the walk returns unchanged is settled. */
  lemma {:induction false} FixedIsSettled(path: string, j: Json)
    requires Expanded(path, j) == Success(j)
    ensures Settled(path, j)
    decreases j, 1
  {
    var ms := j.members;
    MembersPointwise(path, ms);
    forall i | 0 <= i < |ms|
      ensures ValueSettled(path, ms[i].key, ms[i].value)
    {
      var out := Expanded(path, j).value.members;
      assert out[i] == ms[i];
      FixedValueIsSettled(path, ms[i].key, ms[i].value);
    }
  }

  lemma {:induction false} FixedValueIsSettled(path: string, key: string, v: Json)
    requires ExpandValue(path, key, v) == Success(v)
    ensures ValueSettled(path, key, v)
    decreases v, 2
  {
    match v
    case JArr(es) =>
      ElementsPointwise(path, es);
      forall k | 0 <= k < |es|
        ensures ElementExpandable(es[k]) && CanonicalElement(es[k]) && (path == "" || NoLocalRefs(es[k]))
      {
        assert ExpandElement(path, es[k]) == Success(es[k]);
        if IsObjectTyped(es[k]) {
          FixedIsSettled(path, es[k]);
        }
      }
    case JObj(_) => FixedIsSettled(path, v);
    case JStr(s) =>
      if key == RefKey && IsLocalRef(s) {
        assert |path + s| == |s|;
      }
    case _ =>
  }

  /** The walk returns a tree unchanged exactly when the tree is settled. */
  lemma FixpointIff(path: string, j: Json)
    ensures Expanded(path, j) == Success(j) <==> Settled(path, j)
  {
    if Expanded(path, j) == Success(j) {
      FixedIsSettled(path, j);
    }
    if Settled(path, j) {
      SettledIsFixed(path, j);
    }
  }

  /** With the empty path the walk is the identity on every object that
      does not throw and has no array directly inside an array. */
  lemma EmptyPathIdentity(j: Json)
    requires Expandable(j) && Canonical(j)
    ensures Expanded("", j) == Success(j)
  {
    SettledIsFixed("", j);
  }

  /** Walking a walked tree again with the same path changes nothing,
      provided the path does not itself start with `#/definitions/`. */
  lemma Idempotent(path: string, j: Json)
    requires !IsLocalRef(path) && Expanded(path, j).Success?
    ensures Expanded(path, Expanded(path, j).value) == Expanded(path, j)
  {
    ExpandedIsSettled(path, j);
    SettledIsFixed(path, Expanded(path, j).value);
  }
}
