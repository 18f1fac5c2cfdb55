# armkit import: reference namespacing and API object extraction

This project models the core of `armkit import`, which turns an Azure
Resource Manager deployment template JSON schema into TypeScript constructs.
It covers the part of `ImportKubernetesApi.generateTypeScript` from the
bundled document set onward:

- **Namespacing** (`expandRefs`). Every bundled document is walked and
  rebuilt. Each `"$ref"` string that starts with `#/definitions/` gets the
  document's own path as a prefix, so `#/definitions/Baz` in document `a`
  becomes `a#/definitions/Baz`. Everything else is copied.
- **Extraction** (`findApiObjectDefinitions`). Each document's `definitions`
  map becomes a list of `{namespace, name, schema}` records. The namespace is
  the document's `title`, or `'undefined'`.
- **Emission** (`emitConstructForApiObject` and the two loops of
  `generateTypeScript`). When namespacing is done, the type generator gets one
  construct request `{fqn: namespace.name, kind: name, schema}` per record, in
  document-then-definition order. Then `generate` is called once.

The files are:

- `json.dfy` (module `JsonModel`): JSON values and the JavaScript built-ins
  the core uses on them. These are `typeof`, truthiness, `Object.keys` and
  `Object.entries`, property lookup, and `${}` interpolation.
- `namespacing.dfy` (module `Namespacing`): the walk.
  - `Expanded` is the walk as a recursive function.
  - `ExpandRefs` is the source's loop, proved to compute `Expanded`.
  - The lemmas cover what the walk keeps and exactly when it throws.
  - They also cover which trees the walk leaves unchanged, and from that its
    idempotence and the empty-path identity.
- `api_objects.dfy` (module `ApiObjects`): the extraction.
  - `ApiObjectDefinitions` is the list.
  - `FindApiObjectDefinitions` is the source's loop, proved to compute it.
- `import_api.dfy` (module `ImportApi`): the orchestration.
  - The bundled set (`BundledSchema`) is a class whose document map is
    rewritten in place.
  - The type generator (`TypeGenerator`) is a class that records the calls it
    receives.
  - `GenerateTypeScript` runs both loops.
  - Its contract ties the new document map, and any error, to the
    specification function `NamespacePass`.
  - It ties the generator's trace to `Requests` followed by one
    `GenerateCall`.
  - Lemmas cover the order, the count and the origin of the requests, and
    show that no request carries an unqualified reference when no document
    path is empty or itself a local reference.
  - A worked two-document import closes the file.

JavaScript behaviour is modelled as the source has it, not ruled out by
preconditions:
- **`null`**: `typeof null === 'object'`, so a `null` anywhere the walk
  reaches makes `Object.keys(null)` throw (`TypeError.NullToObject`).
- **A number or boolean under `"$ref"`**: `value.startsWith` throws
  (`TypeError.StartsWithMissing`).
- **An array directly inside an array**: `value.map` hands it to
  `expandRefs`, which returns an object keyed `"0"`, `"1"`, ….
- **An object under `"$ref"`**: walked like any other object.
- **A string root**: becomes an object of its characters.
- **A number or boolean root**: becomes `{}`.

A throw in the first loop ends the import before any construct request is
issued.

Two consequences of the code that are easy to miss:
- **Malformed `$ref` values are not passed through.** A `null` under
  `"$ref"` is object-typed, so the walk calls `Object.keys(null)` and
  throws. A number or boolean there has no `startsWith`, so the call throws
  (`packages/armkit-cli/lib/import.ts:89-96`). `Namespacing.ExpandableIff`
  states exactly when the walk throws.
- **The namespace default uses `||`** (`packages/armkit-cli/lib/import.ts:113`).
  So an empty title also gives `'undefined'`, and a truthy title that is not
  a string is kept as it is. `ApiObjects.Namespace` states the string and
  falsy cases. The fqn is then built with `${}`, so
  `JsonModel.TemplateString` models the string conversion for any title.

## Model

| member | source | states |
|---|---|---|
| JsonModel.Lookup | packages/armkit-cli/lib/import.ts:111-113 | `obj[key]` is defined exactly when some own property has that key, and then it is that property's value |
| JsonModel.FalsyValues | packages/armkit-cli/lib/import.ts:111-113 | the values `||` passes over are exactly `null`, `false`, `0`, `NaN` and `""` |
| JsonModel.DecimalString | packages/armkit-cli/lib/import.ts:85 | `String(i)` for an index: a non-empty string of decimal digits with no leading zero whose decimal value is `i` |
| JsonModel.DecimalStringInjective | packages/armkit-cli/lib/import.ts:85 | different indices get different keys |
| JsonModel.OwnEntriesCases | packages/armkit-cli/lib/import.ts:85 | `Object.keys`/`Object.entries`: an object's own properties are its members in order; an array's are its elements and a string's its characters, entry i under the key whose decimal value is i; a number or boolean has none |
| JsonModel.IndexKeysDistinct | packages/armkit-cli/lib/import.ts:85 | the index keys of an array or string are pairwise distinct |
| JsonModel.TemplateStringCases | packages/armkit-cli/lib/import.ts:75 | `${v}`: a string is itself, a number its text, an object `[object Object]`, an empty array `""`, a one-element array its element with `null` giving `""` |
| Namespacing.Expanded | packages/armkit-cli/lib/import.ts:82-106 | when `expandRefs` returns, it returns an object (the fresh `obj`) |
| Namespacing.ExpandRefs | packages/armkit-cli/lib/import.ts:82-106 | the loop over `Object.keys(schema)` computes `Expanded`, throws included |
| Namespacing.MapElements | packages/armkit-cli/lib/import.ts:91 | the `value.map` over an array computes `ExpandElements` |
| Namespacing.ExpandValueCases | packages/armkit-cli/lib/import.ts:87-101 | `newValue` for one property: `null` throws; an object is walked; an array stays an array; a string under `"$ref"` starting with `#/definitions/` gets the path prefixed, any other string is copied; a number or boolean under `"$ref"` throws, elsewhere it is copied |
| Namespacing.ExpandElementCases | packages/armkit-cli/lib/import.ts:91 | the `map` callback copies a non-object element and turns an object-typed one, arrays included, into an object |
| Namespacing.NestedArrayIsIndexed | packages/armkit-cli/lib/import.ts:91 | an array inside an array comes back as an object with one member per element, keyed by the element's index, each holding that element's new value |
| Namespacing.MembersPointwise | packages/armkit-cli/lib/import.ts:85-103 | the key loop returns exactly when every value's rewrite returns, then output i is key i with value i rewritten; on a throw the error is the first failing key's |
| Namespacing.ElementsPointwise | packages/armkit-cli/lib/import.ts:91 | the `map` returns exactly when every element's rewrite returns, then elementwise; on a throw the error is the first failing element's |
| Namespacing.ExpandedKeepsKeys | packages/armkit-cli/lib/import.ts:83-105 | the result has the input object's keys, the same number of them, in the same order |
| Namespacing.ExpandedRewritesLocalRefs | packages/armkit-cli/lib/import.ts:96-99 | a string under `"$ref"` starting with `#/definitions/` becomes exactly `path + value`; every other string value is copied |
| Namespacing.ExpandedCopiesScalars | packages/armkit-cli/lib/import.ts:96-99 | a number or boolean value is copied, and in a walk that returns it never sits under `"$ref"` |
| Namespacing.ExpandedMapsArrays | packages/armkit-cli/lib/import.ts:90-91 | an array value keeps its length; object-typed elements are walked on their own, other elements copied |
| Namespacing.ExpandedRecursesIntoObjects | packages/armkit-cli/lib/import.ts:92-94 | an object value, under any key including `"$ref"`, is replaced by its own walk |
| Namespacing.ExpandableIff | packages/armkit-cli/lib/import.ts:85-96 | the walk returns if and only if no `null` is reached and no number or boolean sits under `"$ref"` |
| Namespacing.ValueExpandableIff | packages/armkit-cli/lib/import.ts:89-99 | the same, for the new value of one property |
| Namespacing.QualifiedIsNotLocal | packages/armkit-cli/lib/import.ts:96-97 | a local reference prefixed with a non-empty path that is not itself a local reference is no longer a local reference |
| Namespacing.ExpandedIsSettled | packages/armkit-cli/lib/import.ts:96-97 | with a path that is not itself a local reference, the walk's result has no array directly in an array and, for a non-empty path, no local reference left |
| Namespacing.SettledIsFixed | packages/armkit-cli/lib/import.ts:82-106 | a settled tree comes back unchanged from the walk |
| Namespacing.FixedIsSettled | packages/armkit-cli/lib/import.ts:82-106 | a tree the walk returns unchanged is settled |
| Namespacing.FixpointIff | packages/armkit-cli/lib/import.ts:82-106 | the walk leaves a tree unchanged if and only if it is settled |
| Namespacing.EmptyPathIdentity | packages/armkit-cli/lib/import.ts:96-97 | with the empty path the walk is the identity on every object it does not throw on and that has no array directly in an array |
| Namespacing.Idempotent | packages/armkit-cli/lib/import.ts:96-97 | walking a walked tree again with the same path changes nothing, provided the path does not start with `#/definitions/` |
| ApiObjects.Namespace | packages/armkit-cli/lib/import.ts:113 | the namespace is always truthy: a non-empty string title gives that title; an absent or falsy title gives `'undefined'` |
| ApiObjects.DefinitionEntriesCases | packages/armkit-cli/lib/import.ts:111 | `Object.entries(schema.definitions || {})`: no entries for absent or falsy `definitions`, the members in order for an object |
| ApiObjects.ApiObjectDefinitionsCases | packages/armkit-cli/lib/import.ts:108-120 | one record per `definitions` entry, in entry order, name = key and schema = value; absent or falsy `definitions` gives `[]`; every namespace is the document's |
| ApiObjects.FindApiObjectDefinitions | packages/armkit-cli/lib/import.ts:108-120 | the push loop builds exactly `ApiObjectDefinitions` |
| ImportApi.BundledSchema.constructor | packages/armkit-cli/lib/import.ts:43 | the bundled set has distinct paths, each with one document |
| ImportApi.BundledSchema.Set | packages/armkit-cli/lib/import.ts:53 | `set(path, schema)` replaces that one document and keeps the set's paths |
| ImportApi.TypeGenerator.constructor | packages/armkit-cli/lib/import.ts:58 | a generator over the namespaced set starts with no calls |
| ImportApi.TypeGenerator.EmitConstruct | packages/armkit-cli/lib/import.ts:74-78 | appends one construct request to the trace |
| ImportApi.TypeGenerator.Generate | packages/armkit-cli/lib/import.ts:70 | appends the `generate` call to the trace |
| ImportApi.ConstructRequestFor | packages/armkit-cli/lib/import.ts:74-78 | the request's kind is the record's name and its schema the record's schema |
| ImportApi.FqnParts | packages/armkit-cli/lib/import.ts:75 | the fqn is the namespace's string, then one `.`, then the name |
| ImportApi.EmitConstructForApiObject | packages/armkit-cli/lib/import.ts:73-79 | issues exactly one request for the record, and nothing else |
| ImportApi.RequestFqn | packages/armkit-cli/lib/import.ts:73-79 | a document titled with a non-empty string `t` gives the fqn `t.name`; an untitled one, or one with a falsy title, gives `undefined.name`; the kind is the name |
| ImportApi.FqnIdentifiesName | packages/armkit-cli/lib/import.ts:75 | within one namespace, two records get the same fqn if and only if they have the same name |
| ImportApi.NamespacePass | packages/armkit-cli/lib/import.ts:51-54 | the first loop keeps the set's paths and never touches a document whose path it does not visit |
| ImportApi.PassAbortPersists | packages/armkit-cli/lib/import.ts:51-54 | once a walk throws, no later path is visited |
| ImportApi.NamespacePassSucceeds | packages/armkit-cli/lib/import.ts:51-54 | the first loop completes if and only if every document's walk returns, and then each document is replaced by its walk under its own path |
| ImportApi.NamespacePassAborts | packages/armkit-cli/lib/import.ts:51-54 | on a throw the error is the first failing document's: documents before it are replaced, it and later ones untouched |
| ImportApi.RequestsInOrder | packages/armkit-cli/lib/import.ts:60-68 | record j of document i is the request at position (requests of the first i documents) + j: documents in path order, definitions in entry order |
| ImportApi.RequestOrigin | packages/armkit-cli/lib/import.ts:60-68 | every request issued is the one for some record of some document, at that position |
| ImportApi.RequestsCount | packages/armkit-cli/lib/import.ts:60-68 | exactly one request per `definitions` entry over all documents |
| ImportApi.RequestsSeeNoLocalRefs | packages/armkit-cli/lib/import.ts:51-68 | when every path is non-empty and not a local reference, every namespaced document and every schema handed to the generator is free of local references |
| ImportApi.NamespaceDocuments | packages/armkit-cli/lib/import.ts:51-54 | the get/walk/set loop leaves exactly the documents and the error of `NamespacePass` |
| ImportApi.EmitDocument | packages/armkit-cli/lib/import.ts:61-67 | one document's records are extracted and requested in entry order |
| ImportApi.EmitDocuments | packages/armkit-cli/lib/import.ts:60-68 | the second loop appends exactly `Requests` of the namespaced set to the trace |
| ImportApi.GenerateTypeScript | packages/armkit-cli/lib/import.ts:51-70 | every document is namespaced before the generator exists; on a throw there is no generator and no request; otherwise the trace is exactly the requests in order followed by one `generate` |
| ImportApi.TitledDocumentNamespaced | packages/armkit-cli/lib/import.ts:96-97 | in document `a`, Bar's `#/definitions/Baz` becomes `a#/definitions/Baz` and nothing else changes |
| ImportApi.TwoDocumentPass | packages/armkit-cli/lib/import.ts:51-54 | the first loop over `a`, `b` completes and rewrites only `a` |
| ImportApi.TitledDocumentRequests | packages/armkit-cli/lib/import.ts:73-79 | the document titled Foo yields `Foo.Bar` and `Foo.Baz` |
| ImportApi.UntitledDocumentRequests | packages/armkit-cli/lib/import.ts:113 | an untitled document's `Item` yields `undefined.Item` |
| ImportApi.TwoDocumentImport | packages/armkit-cli/lib/import.ts:51-79 | importing `a` (title Foo) and `b` (untitled) issues `Foo.Bar` with the qualified reference, then `Foo.Baz`, then `undefined.Item` |

## Left out

- `downloadSchema`, the `SCHEMA_DEFINITION_URL` lookup and `JSON.parse` (`packages/armkit-cli/lib/import.ts:131-135`): network I/O and environment state. The model starts from parsed JSON.
- `$RefParser.resolve` (`packages/armkit-cli/lib/import.ts:43`): an external bundler. Its result is the input `BundledSchema`, with distinct paths, each holding one document.
- `writeFileSync` of `resolved.json` (`packages/armkit-cli/lib/import.ts:56`): diagnostic file I/O. A successful write does not change what is imported. A failing write, which would end the import after the first loop and before any request, is not modelled.
- The `code.line` header and `CodeMaker` (`packages/armkit-cli/lib/import.ts:45-48`): text output. The `code` argument of `generate` is not modelled.
- The inside of `TypeGenerator` (type generation, its reading of the bundled set, its own rejections): not part of this model. The generator is the trace of calls it receives, so an error it might raise on a request is not modelled.
- The `include` and `exclude` options (`packages/armkit-cli/lib/import.ts:22`, `29`): declared but never read by the modelled code.
- `packages/@armkit/core/lib/arm-resource.ts`: a thin wrapper over the `constructs` library. It is not part of this model.
- `async`/`await`: the modelled code is sequential once its inputs are available.
- The call stack: `expandRefs` recurses (`packages/armkit-cli/lib/import.ts:91`, `93`), and a deep enough document makes it throw a `RangeError`, ending the first loop as the modelled `TypeError`s do. `Namespacing.Expanded` is total on trees of any depth, so this throw is not modelled.
- `BundledSchema.Get` (`packages/armkit-cli/lib/import.ts:52`, `61`): `get(path)` is a plain read of the path's current document in the abstract set. Its effect is stated through the loops that use it (`NamespaceDocuments`, `EmitDocuments`), not by a contract of its own.
- JSON numbers are kept as the text `String(n)` gives for them. The core only copies them, tests them for truthiness and interpolates them, so no arithmetic is modelled.
- Strings are sequences of characters. `Object.keys` and `${}` on a string go by UTF-16 code units, which are not distinguished here.
- Object keys are ordinary keys. A `__proto__` key, which the source's `obj[key] = ...` would treat as a prototype assignment, is not treated specially.
- Integer-like keys: `Object.keys` lists them in ascending numeric order ahead of the other keys. Member lists are taken to be already in enumeration order.
- JsonModel.TemplateString: uses the default conversions (`[object Object]` for objects, `join` for arrays). An object with an own `toString` key, which `JSON.parse` can produce, makes `${}` throw a `TypeError`: the key's value is never callable, and the inherited `valueOf` returns the object itself. The model gives `[object Object]` for it. The same holds for such an object inside an array title. An own `valueOf` key alone does not change the result.
- Repeated keys: an object has one member per key. `JSON.parse` keeps the last value of a repeated key, at the position where the key first appears. The model takes member lists to be in that resolved form, and `JsonModel.Lookup` returns the first match.
- ApiObjects.ApiObjectDefinitions: requires the document to be an object. The source's parameter type is `JSONSchema4`, an object, and in `generateTypeScript` every document it receives is the output of `expandRefs`, which is always an object (`Namespacing.Expanded`).
