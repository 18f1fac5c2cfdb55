/** `findApiObjectDefinitions(schema)`: one record per entry of a document's
    `definitions`, tagged with the document's title as namespace. */
module ApiObjects {
  import opened JsonModel

  /** A `DeploymentObjectDefinition`. The namespace is whatever
      `schema.title || 'undefined'` yields, so any truthy JSON value. */
  datatype ApiObjectDefinition = ApiObjectDefinition(namespace: Json, name: string, schema: Json)

  const DefaultNamespace := JStr("undefined")

  /** `schema.title || 'undefined'`. */
  function Namespace(document: seq<Member>): (ns: Json)
    ensures Truthy(ns)
    ensures forall t :: Lookup(document, "title") == Some(JStr(t)) && t != "" ==> ns == JStr(t)
    ensures Lookup(document, "title").None? ==> ns == DefaultNamespace
    ensures Lookup(document, "title").Some? && !Truthy(Lookup(document, "title").value) ==> ns == DefaultNamespace
  {
    match Lookup(document, "title")
    case Some(t) => if Truthy(t) then t else DefaultNamespace
    case None => DefaultNamespace
  }

  /** `Object.entries(schema.definitions || {})`. */
  function DefinitionEntries(document: seq<Member>): seq<Member>
  {
    match Lookup(document, "definitions")
    case Some(d) => if Truthy(d) then OwnEntries(d) else []
    case None => []
  }

  /** No `definitions`, or a falsy one, gives no entries; an object gives
      its members, in order. */
  lemma DefinitionEntriesCases(document: seq<Member>)
    ensures var d := Lookup(document, "definitions");
      && (d.None? ==> DefinitionEntries(document) == [])
      && (d.Some? && !Truthy(d.value) ==> DefinitionEntries(document) == [])
      && (d.Some? && d.value.JObj? ==> DefinitionEntries(document) == d.value.members)
  {
  }

  /** The list `findApiObjectDefinitions` returns: one record per
      definitions entry, in entry order. */
  function ApiObjectDefinitions(schema: Json): seq<ApiObjectDefinition>
    requires schema.JObj?
  {
    var entries := DefinitionEntries(schema.members);
    seq(|entries|, i requires 0 <= i < |entries| =>
      ApiObjectDefinition(Namespace(schema.members), entries[i].key, entries[i].value))
  }

  /** Absent or falsy `definitions` give no records; an object gives one
      record per entry, in entry order, named by its key and holding its
      value; every record carries the document's namespace. */
  lemma ApiObjectDefinitionsCases(schema: Json)
    requires schema.JObj?
    ensures var list := ApiObjectDefinitions(schema); var d := Lookup(schema.members, "definitions");
      && (d.None? ==> list == [])
      && (d.Some? && !Truthy(d.value) ==> list == [])
      && (d.Some? && d.value.JObj? ==>
            |list| == |d.value.members| &&
            forall i :: 0 <= i < |d.value.members| ==>
              list[i].name == d.value.members[i].key && list[i].schema == d.value.members[i].value)
      && (forall i :: 0 <= i < |list| ==> list[i].namespace == Namespace(schema.members))
  {
    DefinitionEntriesCases(schema.members);
  }

  /** The source's loop, pushing one record per entry. */
  method FindApiObjectDefinitions(schema: Json) returns (list: seq<ApiObjectDefinition>)
    requires schema.JObj?
    ensures list == ApiObjectDefinitions(schema)
  {
    var definitions := Lookup(schema.members, "definitions");
    var entries: seq<Member> := [];
    if definitions.Some? && Truthy(definitions.value) {
      entries := OwnEntries(definitions.value);
    }
    list := [];
    for i := 0 to |entries|
      invariant |list| == i
      invariant forall k :: 0 <= k < i ==>
        list[k] == ApiObjectDefinition(Namespace(schema.members), entries[k].key, entries[k].value)
    {
      var typename, def := entries[i].key, entries[i].value;
      list := list + [ApiObjectDefinition(Namespace(schema.members), typename, def)];
    }
  }
}
