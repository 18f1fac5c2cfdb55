/** `ImportKubernetesApi.generateTypeScript`: namespace every bundled
    document in place, then issue one construct request per definition of
    every document, then ask the generator for its output once.

    The bundler's document set and the type generator are modelled by what
    the importer uses of them: `paths()`, `get` and `set` on the one, and
    the sequence of calls made on the other. */
module ImportApi {
  import opened JsonModel
  import opened Namespacing
  import opened ApiObjects

  /** The argument of `typeGenerator.emitConstruct`. */
  datatype ConstructRequest = ConstructRequest(fqn: string, kind: string, schema: Json)

  /** One call made on the type generator. */
  datatype GeneratorCall = EmitConstructCall(request: ConstructRequest) | GenerateCall

  predicate Distinct(paths: seq<string>)
  {
    forall i, j :: 0 <= i < j < |paths| ==> paths[i] != paths[j]
  }

  /** The bundled document set (`$Refs`): one root per document path. */
  class BundledSchema {
    const paths: seq<string>
    var documents: map<string, Json>

    ghost predicate Valid()
      reads this
    {
      Distinct(paths) && documents.Keys == set p | p in paths
    }

    constructor (paths: seq<string>, documents: map<string, Json>)
      requires Distinct(paths) && documents.Keys == set p | p in paths
      ensures Valid() && this.paths == paths && this.documents == documents
    {
      this.paths := paths;
      this.documents := documents;
    }

    /** `resolvedSchema.get(path)`. */
    function Get(path: string): Json
      reads this
      requires path in documents
    {
      documents[path]
    }

    /** `resolvedSchema.set(path, schema)`: replaces the whole document. */
    method Set(path: string, schema: Json)
      requires Valid() && path in documents
      modifies this
      ensures Valid() && documents == old(documents)[path := schema]
    {
      documents := documents[path := schema];
    }
  }

  /** The type generator, seen through the calls it receives. */
  class TypeGenerator {
    const refs: BundledSchema
    var calls: seq<GeneratorCall>

    constructor (refs: BundledSchema)
      ensures this.refs == refs && calls == []
    {
      this.refs := refs;
      calls := [];
    }

    method EmitConstruct(request: ConstructRequest)
      modifies this
      ensures calls == old(calls) + [EmitConstructCall(request)]
    {
      calls := calls + [EmitConstructCall(request)];
    }

    method Generate()
      modifies this
      ensures calls == old(calls) + [GenerateCall]
    {
      calls := calls + [GenerateCall];
    }
  }

  // ---------------------------------------------------------------------
  // One construct request per definition

  /** The request `emitConstructForApiObject` builds. */
  function ConstructRequestFor(apidef: ApiObjectDefinition): (c: ConstructRequest)
    ensures c.kind == apidef.name && c.schema == apidef.schema
  {
    ConstructRequest(TemplateString(apidef.namespace) + "." + apidef.name, apidef.name, apidef.schema)
  }

  /** The fqn is the namespace's string, a dot, and the name. */
  lemma FqnParts(apidef: ApiObjectDefinition)
    ensures var ns := TemplateString(apidef.namespace); var fqn := ConstructRequestFor(apidef).fqn;
      |fqn| == |ns| + 1 + |apidef.name| &&
      fqn[..|ns|] == ns && fqn[|ns|] == '.' && fqn[|ns| + 1..] == apidef.name
  {
  }

  method EmitConstructForApiObject(typeGenerator: TypeGenerator, apidef: ApiObjectDefinition)
    modifies typeGenerator
    ensures typeGenerator.calls == old(typeGenerator.calls) + [EmitConstructCall(ConstructRequestFor(apidef))]
  {
    typeGenerator.EmitConstruct(ConstructRequest(
      TemplateString(apidef.namespace) + "." + apidef.name, apidef.name, apidef.schema));
  }

  /** A document titled with a non-empty string `t` gives its definitions
      the fqn `t.name`; an untitled one (or one whose title is falsy)
      gives `undefined.name`. The kind is always the definition's key. */
  lemma RequestFqn(document: Json, i: nat)
    requires document.JObj? && i < |ApiObjectDefinitions(document)|
    ensures var d := ApiObjectDefinitions(document)[i]; var c := ConstructRequestFor(d);
      c.kind == d.name &&
      (forall t :: Lookup(document.members, "title") == Some(JStr(t)) && t != "" ==> c.fqn == t + "." + d.name) &&
      (Lookup(document.members, "title").None? ==> c.fqn == "undefined." + d.name) &&
      (Lookup(document.members, "title").Some? && !Truthy(Lookup(document.members, "title").value) ==>
        c.fqn == "undefined." + d.name)
  {
    ApiObjectDefinitionsCases(document);
  }

  /** Within one namespace the fqn identifies the definition's name. */
  lemma FqnIdentifiesName(a: ApiObjectDefinition, b: ApiObjectDefinition)
    requires TemplateString(a.namespace) == TemplateString(b.namespace)
    ensures ConstructRequestFor(a).fqn == ConstructRequestFor(b).fqn <==> a.name == b.name
  {
    var prefix := TemplateString(a.namespace) + ".";
    if ConstructRequestFor(a).fqn == ConstructRequestFor(b).fqn {
      assert a.name == (prefix + a.name)[|prefix|..];
      assert b.name == (prefix + b.name)[|prefix|..];
    }
  }

  /** The requests issued for one document, in definition order. */
  function DocumentRequests(document: Json): seq<ConstructRequest>
    requires document.JObj?
  {
    var defs := ApiObjectDefinitions(document);
    seq(|defs|, i requires 0 <= i < |defs| => ConstructRequestFor(defs[i]))
  }

  predicate AllObjects(paths: seq<string>, docs: map<string, Json>)
  {
    forall p :: p in paths ==> p in docs && docs[p].JObj?
  }

  /** The requests of each document, in path order. */
  function Batches(paths: seq<string>, docs: map<string, Json>): (batches: seq<seq<ConstructRequest>>)
    requires AllObjects(paths, docs)
    ensures |batches| == |paths|
  {
    seq(|paths|, i requires 0 <= i < |paths| => DocumentRequests(docs[paths[i]]))
  }

  /** Batches one after another. */
  function Concat<T>(batches: seq<seq<T>>): seq<T>
  {
    if batches == [] then [] else Concat(batches[..|batches| - 1]) + batches[|batches| - 1]
  }

  /** The requests issued for a sequence of documents, document after document. */
  function Requests(paths: seq<string>, docs: map<string, Json>): seq<ConstructRequest>
    requires AllObjects(paths, docs)
  {
    Concat(Batches(paths, docs))
  }

  function EmitCalls(requests: seq<ConstructRequest>): seq<GeneratorCall>
  {
    seq(|requests|, i requires 0 <= i < |requests| => EmitConstructCall(requests[i]))
  }

  lemma EmitCallsAppend(requests: seq<ConstructRequest>, more: seq<ConstructRequest>)
    ensures EmitCalls(requests + more) == EmitCalls(requests) + EmitCalls(more)
  {
  }

  lemma ConcatPrefix<T>(batches: seq<seq<T>>, i: nat)
    requires i < |batches|
    ensures Concat(batches[..i + 1]) == Concat(batches[..i]) + batches[i]
  {
    assert batches[..i + 1][..i] == batches[..i];
  }

  /** Element `j` of batch `i` sits after all of the earlier batches. */
  lemma {:induction false} ConcatInOrder<T>(batches: seq<seq<T>>, i: nat, j: nat)
    requires i < |batches| && j < |batches[i]|
    ensures |Concat(batches[..i])| + j < |Concat(batches)|
    ensures Concat(batches)[|Concat(batches[..i])| + j] == batches[i][j]
    decreases |batches|
  {
    var n := |batches| - 1;
    var init := batches[..n];
    assert Concat(batches) == Concat(init) + batches[n];
    if i < n {
      assert init[..i] == batches[..i];
      assert init[i] == batches[i];
      ConcatInOrder(init, i, j);
    } else {
      assert batches[..i] == init;
    }
  }

  /** Every element of the concatenation comes from one batch. */
  lemma {:induction false} ConcatOrigin<T>(batches: seq<seq<T>>, n: nat) returns (i: nat, j: nat)
    requires n < |Concat(batches)|
    ensures i < |batches| && j < |batches[i]|
    ensures n == |Concat(batches[..i])| + j && Concat(batches)[n] == batches[i][j]
    decreases |batches|
  {
    var last := |batches| - 1;
    var init := batches[..last];
    assert Concat(batches) == Concat(init) + batches[last];
    if n < |Concat(init)| {
      i, j := ConcatOrigin(init, n);
      assert init[..i] == batches[..i];
      assert init[i] == batches[i];
    } else {
      i, j := last, n - |Concat(init)|;
      assert batches[..i] == init;
    }
  }

  lemma BatchesPrefix(paths: seq<string>, docs: map<string, Json>, i: nat)
    requires AllObjects(paths, docs) && i <= |paths|
    ensures AllObjects(paths[..i], docs) && Batches(paths, docs)[..i] == Batches(paths[..i], docs)
  {
  }

  lemma RequestsPrefix(paths: seq<string>, docs: map<string, Json>, i: nat)
    requires AllObjects(paths, docs) && i <= |paths|
    ensures AllObjects(paths[..i], docs)
    ensures Requests(paths[..i], docs) == Concat(Batches(paths, docs)[..i])
  {
    BatchesPrefix(paths, docs, i);
  }

  // ---------------------------------------------------------------------
  // The first loop: namespacing every document

  /** The documents after the first loop, and the error if a walk threw. */
  datatype Pass = Pass(documents: map<string, Json>, thrown: Option<TypeError>)

  /** The first loop over `paths`: each document read, walked and written
      back in turn; the first throw ends the loop with the documents
      written so far. */
  function NamespacePass(paths: seq<string>, docs: map<string, Json>): (r: Pass)
    requires forall p :: p in paths ==> p in docs
    ensures r.documents.Keys == docs.Keys
    ensures forall q :: q in docs && q !in paths ==> r.documents[q] == docs[q]
    decreases |paths|
  {
    if paths == [] then Pass(docs, None)
    else
      var p := paths[|paths| - 1];
      var prior := NamespacePass(paths[..|paths| - 1], docs);
      if prior.thrown.Some? then prior
      else
        match Expanded(p, prior.documents[p])
        case Failure(e) => Pass(prior.documents, Some(e))
        case Success(v) => Pass(prior.documents[p := v], None)
  }

  /** One more document visited by the first loop. */
  lemma PassStep(paths: seq<string>, docs: map<string, Json>, i: nat)
    requires (forall p :: p in paths ==> p in docs) && i < |paths|
    ensures forall p :: p in paths[..i] ==> p in docs
    ensures forall p :: p in paths[..i + 1] ==> p in docs
    ensures var prior := NamespacePass(paths[..i], docs);
      prior.thrown.None? ==>
        NamespacePass(paths[..i + 1], docs) ==
          match Expanded(paths[i], prior.documents[paths[i]])
          case Failure(e) => Pass(prior.documents, Some(e))
          case Success(v) => Pass(prior.documents[paths[i] := v], None)
  {
    assert forall p :: p in paths[..i] ==> p in paths;
    assert forall p :: p in paths[..i + 1] ==> p in paths;
    assert paths[..i + 1][..i] == paths[..i];
  }

  /** Once a walk has thrown, later paths are not visited. */
  lemma {:induction false} PassAbortPersists(paths: seq<string>, docs: map<string, Json>, k: nat)
    requires forall p :: p in paths ==> p in docs
    requires k <= |paths| && NamespacePass(paths[..k], docs).thrown.Some?
    ensures NamespacePass(paths, docs) == NamespacePass(paths[..k], docs)
    decreases |paths| - k
  {
    if k < |paths| {
      PassStep(paths, docs, k);
      assert paths[..k + 1][..k] == paths[..k];
      assert NamespacePass(paths[..k + 1], docs) == NamespacePass(paths[..k], docs);
      PassAbortPersists(paths, docs, k + 1);
    } else {
      assert paths[..k] == paths;
    }
  }

  /** The first loop completes exactly when no document's walk throws, and
      then every document is replaced by its walk with its own path. */
  lemma {:induction false} NamespacePassSucceeds(paths: seq<string>, docs: map<string, Json>)
    requires Distinct(paths) && forall p :: p in paths ==> p in docs
    ensures NamespacePass(paths, docs).thrown.None? <==>
      forall p :: p in paths ==> Expanded(p, docs[p]).Success?
    ensures NamespacePass(paths, docs).thrown.None? ==>
      forall p :: p in paths ==> NamespacePass(paths, docs).documents[p] == Expanded(p, docs[p]).value
    decreases |paths|
  {
    if paths != [] {
      var n := |paths| - 1;
      var p := paths[n];
      var init := paths[..n];
      assert forall q :: q in init ==> q in paths;
      assert p !in init by {
        forall i | 0 <= i < n ensures init[i] != p { assert init[i] == paths[i]; }
      }
      assert forall q :: q in paths ==> q in init || q == p;
      NamespacePassSucceeds(init, docs);
    }
  }

  /** When a walk throws, the loop stops at the first such document `k`:
      the ones before it are replaced, it and the ones after it are
      untouched, and the error is its walk's. */
  lemma {:induction false} NamespacePassAborts(paths: seq<string>, docs: map<string, Json>) returns (k: nat)
    requires Distinct(paths) && forall p :: p in paths ==> p in docs
    requires NamespacePass(paths, docs).thrown.Some?
    ensures k < |paths|
    ensures Expanded(paths[k], docs[paths[k]]) == Failure(NamespacePass(paths, docs).thrown.value)
    ensures forall i :: 0 <= i < k ==>
      Expanded(paths[i], docs[paths[i]]).Success? &&
      NamespacePass(paths, docs).documents[paths[i]] == Expanded(paths[i], docs[paths[i]]).value
    ensures forall i :: k <= i < |paths| ==> NamespacePass(paths, docs).documents[paths[i]] == docs[paths[i]]
    decreases |paths|
  {
    var n := |paths| - 1;
    var p := paths[n];
    var init := paths[..n];
    assert forall i :: 0 <= i < n ==> init[i] == paths[i];
    assert p !in init by {
      forall i | 0 <= i < n ensures init[i] != p { assert init[i] == paths[i]; }
    }
    var prior := NamespacePass(init, docs);
    if prior.thrown.Some? {
      k := NamespacePassAborts(init, docs);
      assert NamespacePass(paths, docs) == prior;
    } else {
      NamespacePassSucceeds(init, docs);
      k := n;
      assert Expanded(p, docs[p]).Failure?;
    }
  }

  // ---------------------------------------------------------------------
  // The second loop: extraction and emission

  /** Request `j` of a document is the one for its record `j`. */
  lemma DocumentRequestAt(document: Json, j: nat)
    requires document.JObj? && j < |ApiObjectDefinitions(document)|
    ensures |DocumentRequests(document)| == |ApiObjectDefinitions(document)|
    ensures DocumentRequests(document)[j] == ConstructRequestFor(ApiObjectDefinitions(document)[j])
  {
  }

  lemma BatchAt(paths: seq<string>, docs: map<string, Json>, i: nat, j: nat)
    requires AllObjects(paths, docs) && i < |paths| && j < |DocumentRequests(docs[paths[i]])|
    ensures AllObjects(paths[..i], docs)
    ensures var at := |Requests(paths[..i], docs)| + j;
      at < |Requests(paths, docs)| && Requests(paths, docs)[at] == DocumentRequests(docs[paths[i]])[j]
  {
    var batches := Batches(paths, docs);
    RequestsPrefix(paths, docs, i);
    ConcatInOrder(batches, i, j);
    assert batches[i] == DocumentRequests(docs[paths[i]]);
  }

  /** The `j`th definition of the `i`th document is the request issued at
      position |requests for the first i documents| + j: documents in path
      order, definitions in entry order. */
  lemma RequestsInOrder(paths: seq<string>, docs: map<string, Json>, i: nat, j: nat)
    requires AllObjects(paths, docs)
    requires i < |paths| && j < |ApiObjectDefinitions(docs[paths[i]])|
    ensures AllObjects(paths[..i], docs)
    ensures var at := |Requests(paths[..i], docs)| + j;
      at < |Requests(paths, docs)| &&
      Requests(paths, docs)[at] == ConstructRequestFor(ApiObjectDefinitions(docs[paths[i]])[j])
  {
    DocumentRequestAt(docs[paths[i]], j);
    BatchAt(paths, docs, i, j);
  }

  lemma BatchOrigin(paths: seq<string>, docs: map<string, Json>, n: nat) returns (i: nat, j: nat)
    requires AllObjects(paths, docs) && n < |Requests(paths, docs)|
    ensures i < |paths| && j < |DocumentRequests(docs[paths[i]])|
    ensures AllObjects(paths[..i], docs) && n == |Requests(paths[..i], docs)| + j
    ensures Requests(paths, docs)[n] == DocumentRequests(docs[paths[i]])[j]
  {
    var batches := Batches(paths, docs);
    i, j := ConcatOrigin(batches, n);
    RequestsPrefix(paths, docs, i);
    assert batches[i] == DocumentRequests(docs[paths[i]]);
  }

  /** Conversely, every request issued is the one for some definition of
      some document, at the position that `RequestsInOrder` gives it. */
  lemma RequestOrigin(paths: seq<string>, docs: map<string, Json>, n: nat) returns (i: nat, j: nat)
    requires AllObjects(paths, docs) && n < |Requests(paths, docs)|
    ensures i < |paths| && j < |ApiObjectDefinitions(docs[paths[i]])|
    ensures AllObjects(paths[..i], docs) && n == |Requests(paths[..i], docs)| + j
    ensures Requests(paths, docs)[n] == ConstructRequestFor(ApiObjectDefinitions(docs[paths[i]])[j])
  {
    i, j := BatchOrigin(paths, docs, n);
    DocumentRequestAt(docs[paths[i]], j);
  }

  /** The number of definitions entries over all documents. */
  function DefinitionCount(paths: seq<string>, docs: map<string, Json>): nat
    requires AllObjects(paths, docs)
  {
    if paths == [] then 0
    else DefinitionCount(paths[..|paths| - 1], docs) + |DefinitionEntries(docs[paths[|paths| - 1]].members)|
  }

  /** Exactly one request per definitions entry. */
  lemma {:induction false} RequestsCount(paths: seq<string>, docs: map<string, Json>)
    requires AllObjects(paths, docs)
    ensures |Requests(paths, docs)| == DefinitionCount(paths, docs)
    decreases |paths|
  {
    if paths != [] {
      var n := |paths| - 1;
      var batches := Batches(paths, docs);
      RequestsPrefix(paths, docs, n);
      assert Requests(paths, docs) == Concat(batches[..n]) + batches[n];
      assert |batches[n]| == |DefinitionEntries(docs[paths[n]].members)|;
      RequestsCount(paths[..n], docs);
    }
  }

  /** The definitions of a document without local references carry none. */
  lemma DefinitionsHaveNoLocalRefs(document: Json)
    requires document.JObj? && NoLocalRefs(document)
    ensures forall e :: e in DefinitionEntries(document.members) ==> NoLocalRefs(e.value)
  {
  }

  /** No construct request sees a local reference: after the first loop
      completes, every schema handed to the generator has all its
      `#/definitions/` references qualified, provided no document path is
      empty or itself starts with `#/definitions/`. */
  lemma RequestsSeeNoLocalRefs(paths: seq<string>, docs: map<string, Json>)
    requires Distinct(paths) && forall p :: p in paths ==> p in docs
    requires forall p :: p in paths ==> p != "" && !IsLocalRef(p)
    requires NamespacePass(paths, docs).thrown.None?
    ensures var namespaced := NamespacePass(paths, docs).documents;
      (forall p :: p in paths ==> namespaced[p].JObj? && NoLocalRefs(namespaced[p])) &&
      forall r :: r in Requests(paths, namespaced) ==> NoLocalRefs(r.schema)
  {
    var namespaced := NamespacePass(paths, docs).documents;
    NamespacePassSucceeds(paths, docs);
    forall p | p in paths ensures namespaced[p].JObj? && NoLocalRefs(namespaced[p]) {
      ExpandedIsSettled(p, docs[p]);
    }
    forall r | r in Requests(paths, namespaced) ensures NoLocalRefs(r.schema) {
      var n :| 0 <= n < |Requests(paths, namespaced)| && Requests(paths, namespaced)[n] == r;
      RequestSchemaHasNoLocalRefs(paths, namespaced, n);
    }
  }

  lemma RequestSchemaHasNoLocalRefs(paths: seq<string>, docs: map<string, Json>, n: nat)
    requires forall p :: p in paths ==> p in docs && docs[p].JObj? && NoLocalRefs(docs[p])
    requires n < |Requests(paths, docs)|
    ensures NoLocalRefs(Requests(paths, docs)[n].schema)
  {
    var i, j := RequestOrigin(paths, docs, n);
    var document := docs[paths[i]];
    DefinitionsHaveNoLocalRefs(document);
    assert DefinitionEntries(document.members)[j] in DefinitionEntries(document.members);
  }

  // ---------------------------------------------------------------------
  // The orchestration

  /** The first loop of `generateTypeScript`: every document, in path
      order, read, walked with its own path as namespace and written back,
      until a walk throws. */
  method NamespaceDocuments(resolvedSchema: BundledSchema) returns (thrown: Option<TypeError>)
    requires resolvedSchema.Valid()
    modifies resolvedSchema
    ensures resolvedSchema.Valid()
    ensures Pass(resolvedSchema.documents, thrown) == NamespacePass(resolvedSchema.paths, old(resolvedSchema.documents))
  {
    ghost var bundled := resolvedSchema.documents;
    var paths := resolvedSchema.paths;
    for i := 0 to |paths|
      invariant resolvedSchema.Valid()
      invariant NamespacePass(paths[..i], bundled) == Pass(resolvedSchema.documents, None)
    {
      var path := paths[i];
      var schema := resolvedSchema.Get(path);
      var expanded := ExpandRefs(path, schema);
      PassStep(paths, bundled, i);
      if expanded.Failure? {
        PassAbortPersists(paths, bundled, i + 1);
        return Some(expanded.error);
      }
      resolvedSchema.Set(path, expanded.value);
    }
    assert paths[..|paths|] == paths;
    thrown := None;
  }

  /** The second loop of `generateTypeScript`: for every document, in path
      order, one request per definition, in entry order. */
  method EmitDocuments(typeGenerator: TypeGenerator, resolvedSchema: BundledSchema)
    requires resolvedSchema.Valid() && AllObjects(resolvedSchema.paths, resolvedSchema.documents)
    modifies typeGenerator
    ensures typeGenerator.calls ==
      old(typeGenerator.calls) + EmitCalls(Requests(resolvedSchema.paths, resolvedSchema.documents))
  {
    var paths := resolvedSchema.paths;
    ghost var batches := Batches(paths, resolvedSchema.documents);
    ghost var start := typeGenerator.calls;
    for i := 0 to |paths|
      invariant typeGenerator.calls == start + EmitCalls(Concat(batches[..i]))
    {
      var path := paths[i];
      var schema := resolvedSchema.Get(path);
      EmitDocument(typeGenerator, schema);
      ConcatPrefix(batches, i);
      EmitCallsAppend(Concat(batches[..i]), batches[i]);
    }
    assert batches[..|paths|] == batches;
  }

  /** The body of the second loop for one document: its definitions
      extracted, then one request each, in entry order. */
  method EmitDocument(typeGenerator: TypeGenerator, schema: Json)
    requires schema.JObj?
    modifies typeGenerator
    ensures typeGenerator.calls == old(typeGenerator.calls) + EmitCalls(DocumentRequests(schema))
  {
    var topLevelObjects := FindApiObjectDefinitions(schema);
    ghost var start := typeGenerator.calls;
    ghost var batch := DocumentRequests(schema);
    for j := 0 to |topLevelObjects|
      invariant typeGenerator.calls == start + EmitCalls(batch[..j])
    {
      assert batch[j] == ConstructRequestFor(topLevelObjects[j]);
      assert batch[..j + 1] == batch[..j] + [batch[j]];
      EmitCallsAppend(batch[..j], [batch[j]]);
      EmitConstructForApiObject(typeGenerator, topLevelObjects[j]);
    }
    assert batch[..|topLevelObjects|] == batch;
  }

  /** `generateTypeScript` from the bundled set on: the first loop writes
      every document back namespaced; only if it completes is the generator
      built (over the same, now namespaced, set), fed one request per
      definition in document-then-definition order, and asked to generate
      exactly once, as its last call. A throw in the first loop ends the
      import before any request is issued. */
  method GenerateTypeScript(resolvedSchema: BundledSchema) returns (thrown: Option<TypeError>, typeGenerator: TypeGenerator?)
    requires resolvedSchema.Valid()
    modifies resolvedSchema
    ensures resolvedSchema.Valid()
    ensures Pass(resolvedSchema.documents, thrown) == NamespacePass(resolvedSchema.paths, old(resolvedSchema.documents))
    ensures thrown.Some? ==> typeGenerator == null
    ensures thrown.None? ==>
      && typeGenerator != null && fresh(typeGenerator) && typeGenerator.refs == resolvedSchema
      && (forall p :: p in resolvedSchema.paths ==>
            && Expanded(p, old(resolvedSchema.documents)[p]).Success?
            && resolvedSchema.documents[p] == Expanded(p, old(resolvedSchema.documents)[p]).value
            && resolvedSchema.documents[p].JObj?)
      && typeGenerator.calls ==
           EmitCalls(Requests(resolvedSchema.paths, resolvedSchema.documents)) + [GenerateCall]
  {
    thrown := NamespaceDocuments(resolvedSchema);
    if thrown.Some? {
      return thrown, null;
    }
    NamespacePassSucceeds(resolvedSchema.paths, old(resolvedSchema.documents));
    typeGenerator := new TypeGenerator(resolvedSchema);
    EmitDocuments(typeGenerator, resolvedSchema);
    typeGenerator.Generate();
  }

  // ---------------------------------------------------------------------
  // A worked import of two documents

  const BarDefinition := JObj([Member(RefKey, JStr("#/definitions/Baz"))])
  const BazDefinition := JObj([Member("type", JStr("string"))])
  const TitledDocument := JObj([
    Member("title", JStr("Foo")),
    Member("definitions", JObj([Member("Bar", BarDefinition), Member("Baz", BazDefinition)]))])
  const UntitledDocument := JObj([Member("definitions", JObj([Member("Item", JObj([]))]))])

  const NamespacedBar := JObj([Member(RefKey, JStr("a#/definitions/Baz"))])
  const NamespacedTitledDocument := JObj([
    Member("title", JStr("Foo")),
    Member("definitions", NamespacedDefinitions)])

  const NamespacedDefinitions := JObj([Member("Bar", NamespacedBar), Member("Baz", BazDefinition)])

  /** Bar's local reference is qualified with the document path `a`. */
  lemma BarNamespaced()
    ensures Expanded("a", BarDefinition) == Success(NamespacedBar)
  {
    assert IsLocalRef("#/definitions/Baz");
    assert "a" + "#/definitions/Baz" == "a#/definitions/Baz";
    assert ExpandValue("a", RefKey, JStr("#/definitions/Baz")) == Success(JStr("a#/definitions/Baz"));
    MembersPointwise("a", BarDefinition.members);
    assert ExpandMembers("a", BarDefinition.members).value == NamespacedBar.members;
  }

  lemma BazUnchanged()
    ensures Expanded("a", BazDefinition) == Success(BazDefinition)
  {
    MembersPointwise("a", BazDefinition.members);
    assert ExpandMembers("a", BazDefinition.members).value == BazDefinition.members;
  }

  lemma DefinitionsNamespaced()
    ensures Expanded("a", TitledDocument.members[1].value) == Success(NamespacedDefinitions)
  {
    BarNamespaced();
    BazUnchanged();
    var definitions := TitledDocument.members[1].value;
    assert definitions.members == [Member("Bar", BarDefinition), Member("Baz", BazDefinition)];
    assert ExpandValue("a", "Bar", BarDefinition) == Success(NamespacedBar);
    assert ExpandValue("a", "Baz", BazDefinition) == Success(BazDefinition);
    MembersPointwise("a", definitions.members);
    assert ExpandMembers("a", definitions.members).value == NamespacedDefinitions.members;
  }

  /** Walking `a` qualifies Bar's reference and leaves everything else. */
  lemma TitledDocumentNamespaced()
    ensures Expanded("a", TitledDocument) == Success(NamespacedTitledDocument)
  {
    DefinitionsNamespaced();
    MembersPointwise("a", TitledDocument.members);
    assert ExpandMembers("a", TitledDocument.members).value == NamespacedTitledDocument.members;
  }

  const ItemDefinitions := JObj([Member("Item", JObj([]))])

  lemma ItemDefinitionsUnchanged()
    ensures Expanded("b", ItemDefinitions) == Success(ItemDefinitions)
  {
    assert Expanded("b", JObj([])) == Success(JObj([]));
    MembersPointwise("b", ItemDefinitions.members);
    assert ExpandMembers("b", ItemDefinitions.members).value == ItemDefinitions.members;
  }

  /** `b` has no references, so walking it changes nothing. */
  lemma UntitledDocumentUnchanged()
    ensures Expanded("b", UntitledDocument) == Success(UntitledDocument)
  {
    ItemDefinitionsUnchanged();
    assert UntitledDocument.members[0].value == ItemDefinitions;
    MembersPointwise("b", UntitledDocument.members);
    assert ExpandMembers("b", UntitledDocument.members).value == UntitledDocument.members;
  }

  /** `a`'s definitions, tagged with its title. */
  lemma TitledDocumentRequests()
    ensures DocumentRequests(NamespacedTitledDocument) == [
      ConstructRequest("Foo.Bar", "Bar", NamespacedBar), ConstructRequest("Foo.Baz", "Baz", BazDefinition)]
  {
    var ms := NamespacedTitledDocument.members;
    var definitions := ms[1].value;
    assert Lookup(ms, "title") == Some(JStr("Foo"));
    assert Lookup(ms, "definitions") == Some(definitions);
    assert Namespace(ms) == JStr("Foo");
    assert DefinitionEntries(ms) == definitions.members;
    assert ApiObjectDefinitions(NamespacedTitledDocument) == [
      ApiObjectDefinition(JStr("Foo"), "Bar", NamespacedBar), ApiObjectDefinition(JStr("Foo"), "Baz", BazDefinition)];
    assert "Foo" + "." + "Bar" == "Foo.Bar" && "Foo" + "." + "Baz" == "Foo.Baz";
  }

  /** `b`'s one definition, in the default namespace. */
  lemma UntitledDocumentRequests()
    ensures DocumentRequests(UntitledDocument) == [ConstructRequest("undefined.Item", "Item", JObj([]))]
  {
    var ms := UntitledDocument.members;
    assert Lookup(ms, "title") == None;
    assert Lookup(ms, "definitions") == Some(ms[0].value);
    assert Namespace(ms) == DefaultNamespace;
    assert ApiObjectDefinitions(UntitledDocument) == [ApiObjectDefinition(DefaultNamespace, "Item", JObj([]))];
    assert "undefined" + "." + "Item" == "undefined.Item";
  }

  const BundledDocuments := map["a" := TitledDocument, "b" := UntitledDocument]

  /** The first loop's visit to `a`. */
  lemma FirstDocumentPass()
    ensures NamespacePass(["a"], BundledDocuments) == Pass(BundledDocuments["a" := NamespacedTitledDocument], None)
  {
    TitledDocumentNamespaced();
    PassStep(["a"], BundledDocuments, 0);
    assert ["a"][..1] == ["a"] && ["a"][..0] == [];
  }

  /** The first loop over `a`, `b` completes and rewrites only `a`. */
  lemma TwoDocumentPass()
    ensures NamespacePass(["a", "b"], BundledDocuments) ==
      Pass(BundledDocuments["a" := NamespacedTitledDocument], None)
  {
    FirstDocumentPass();
    UntitledDocumentUnchanged();
    var paths := ["a", "b"];
    assert paths[..1] == ["a"] && paths[..2] == paths;
    PassStep(paths, BundledDocuments, 1);
    var once := BundledDocuments["a" := NamespacedTitledDocument];
    assert once["b"] == UntitledDocument;
    assert once["b" := UntitledDocument] == once;
  }

  /** Importing `a` (titled Foo, whose Bar refers to Baz) and `b`
      (untitled): Bar's reference is qualified with `a`, and the requests
      come out as Foo.Bar, Foo.Baz, undefined.Item, in that order. */
  lemma TwoDocumentImport()
    ensures var pass := NamespacePass(["a", "b"], BundledDocuments);
      && pass.thrown.None?
      && AllObjects(["a", "b"], pass.documents)
      && Requests(["a", "b"], pass.documents) == [
           ConstructRequest("Foo.Bar", "Bar", NamespacedBar),
           ConstructRequest("Foo.Baz", "Baz", BazDefinition),
           ConstructRequest("undefined.Item", "Item", JObj([]))]
  {
    TwoDocumentPass();
    var namespaced := BundledDocuments["a" := NamespacedTitledDocument];
    var first := DocumentRequests(NamespacedTitledDocument);
    var second := DocumentRequests(UntitledDocument);
    TitledDocumentRequests();
    UntitledDocumentRequests();
    var batches := Batches(["a", "b"], namespaced);
    assert batches == [first, second];
    assert batches[..1] == [first] && [first][..0] == [];
    assert Concat(batches[..1]) == first;
    assert Requests(["a", "b"], namespaced) == first + second;
  }
}
