# Verification model of vendorfake

vendorfake keeps fake units of vendor APIs faithful to the vendors' own OpenAPI documents. This project models the parts
of it that decide something, and proves what they promise:

- **The specification cutter** (`json`, `graph`, `schema`, `clean`, `positions`, `acceptance`, `closure`, `namespacing`,
  `merge`, `resolving`, `twins`, `routes`, `operations`, `places`, `keeping`, `cutting`, `records`, `meaning`, `losses`,
  `surface`, `digests`): a linker for schema graphs. It cuts the modeled operations out of each vendor document, cleans
  their schemas, takes the reachability closure, merges several documents into one name space, and digests what it kept.
  Meaning is the unfolding of references to every depth `k`, and what a validator accepts to every depth, so cyclic
  schemas are covered; `Meaning.ReadSchemaMeansTheSame` is the whole of it, from the vendors' documents to the schema
  that is read at run time.
- **The deviation judge and its ledger** (`pointers`, `matching`, `deviations`, `judge`, `verdicts`, `ledger`,
  `validator`, `accounts`): which failing bodies the declared deviations excuse, the memo tables of a session, and its
  counters.
- **Version-cursor sync and the rate limiter** (`versions`, `sync`, `ratelimit`): the server half of a replication
  protocol with a client that follows it, its answers on their way while the store goes on changing, and a fixed-window
  limiter, both over whole runs.
- **Pin and cache** (`pins`, `refreshing`, `caches`, `reports`, `workspace`, `lawful`, `prose`): the files that tie an
  extract to upstream bytes, across runs on different dates, and the guard against copied prose.
- **Snapshot comparison** (`snapshots`): the rows where two state snapshots differ, read as a patch.

The functions that follow the code step by step are pinned a second time by what they come to, in terms of the inputs
alone: `positions` has the annotations and schema positions of OpenAPI, `keeping` and `records` what is left of an
operation and what the ledger learns, `verdicts` the judgement read off the schema, `accounts` what an exchange enters in
the books, `reports` what a refresh, a verification and a cache say and write.

A JSON object is a map and a number a real. Python's `==` holds between `True` and `1`; `JsonTree.PyEqual` says so, and
is what the source's comparisons become. Loops over dicts and sets take their keys in any order. A raised exception is an
error value, or, for the session, a step that did not return and leaves the state it had reached. Code that updates
fields or lists step by step is a class or a method with loops, proved against a function that the lemmas are about.

What turned out not to hold as one might read it, with the exact condition:

- Cleaning is idempotent exactly when no extension is mapped onto a key that a second cleaning drops, replaces or looks
  inside (`Cleaning.CleaningIdempotentExactlyWhen`).
- Cleaning preserves what a schema accepts, for every sane validator to which annotations say nothing, exactly when no
  extension is mapped onto another keyword that holds schemas (`Acceptance.AcceptancePreservedExactlyWhen`): such a value is copied without being cleaned.
- A definition spelled `<label>.<Name>` can be overwritten by a namespaced one (`Namespacing.SpelledNameLoses`,
  `Namespacing.SpelledDefinitionMeets`); all are kept exactly when those that come together agree
  (`Namespacing.KeptExactlyWhen`), and always when no definition is spelled after one that has to be renamed. That
  references unfold as in their source is proved of a source when up to it no source mentions a name that the merge
  handed out (`Merging.NamesFree`, readable off the `namespaced` ledger, and known beforehand when no document mentions a
  name spelled `<label>.<Name>`: `Merging.FreeBeforehand`); that none dangles, without any such hypothesis.
- A name that a source lacks resolves to the first earlier document that defines it exactly when the roots of that
  document reach it and no roots before them do (`Resolving.ResolvedAsMeantExactlyWhen`). Otherwise it is stubbed, or
  resolves elsewhere, although an earlier document defines it; `Losses.UnreachedDefinitionLost` is the least such input.
- Definitions that differ only in `true` against 1 are laid over one another, and a validator that takes `enum` at its word
  tells them apart (`Losses.BooleanLosesMeaning`). For every sane validator meaning is kept where what comes together is
  identical, which the documents alone can show (`Twins.IdenticalBeforehand`); objects without nested schemas are kept
  exactly then (`Meaning.LaidOverExactlyWhen`).
- A reference in data, in an `enum` say, is rewritten like one in a schema. The keywords that hold no schema keep their
  meaning, for every sane validator, exactly when they refer to no renamed name (`Meaning.DataKeptExactlyWhen`).
- Cutter and reader agree on a modeled route exactly when it is neither matched through the bare base path of its own
  source, and so cut to a place where the reader does not look, nor overruled by a route that is
  (`Cutting.CutterAndReaderAgree`). In the sorted order the routes come in, only a route that no source declares can be
  overruled (`Cutting.SortedRoutesAgreeExactlyWhen`).
- A `oneOf` without a branch that holds as it stands loses every pass again once enough is excused, so one more
  deviation can turn a pass into a failure. The condition is exact for a `oneOf` whose branches are themselves free of
  such choices (`Judging.OneOfMonotoneExactlyWhen`).
- An error status declared without a body is answered through the envelope, but not recorded as such, so the error
  member is not asked of it (`Validators.EnvelopeTableExactlyWhen`, `Validators.MemberAskedExactlyWhen`).
- Waiting `retry_after_ms` is enough exactly when the clock stood on a whole millisecond, and waiting for the HTTP-date
  exactly when, besides, the window ends on a whole second (`RateLimits.RetryAccepted`,
  `RateLimits.DateAcceptedExactlyWhen`).
- A snapshot member that holds the string `<absent>` is taken for a missing one (`Snapshots.MarkerIsInvisible`).
- A refresh settles unless the extract is not vendored and nothing is modeled; then the pin records no cut digest and
  every refresh reports a change (`Refreshing.RefreshSettlesExactlyWhen`).

## Model

| member | source | states |
|---|---|---|
| References.RewriteRefs | src/vendorfake/fidelity/extract.py:193-202 | a rewritten node refers to exactly the new names of what it referred to |
| References.RewriteIdle | src/vendorfake/fidelity/extract.py:602-610 | a rename that touches none of a node's references leaves the node unchanged |
| References.RewriteDiffers | src/vendorfake/fidelity/extract.py:618-622 | a node that refers to a namespaced name always differs from what it was, so the conflict spreads to it |
| References.PyEqualRefs | src/vendorfake/fidelity/extract.py:144-154 | documents Python finds equal refer to the same names |
| Cleaning.CleaningIdempotent | src/vendorfake/fidelity/extract.py:114-141 | cleaning twice is cleaning once when every extension stands for a plain keyword |
| Cleaning.CleaningIdempotentExactlyWhen | src/vendorfake/fidelity/extract.py:114-141 | and only then: the condition on the extension map is necessary |
| Cleaning.UnsettledTarget | src/vendorfake/fidelity/extract.py:122-136 | any other mapped extension gives an object that a second cleaning changes |
| Cleaning.FoldedIsClean | src/vendorfake/fidelity/extract.py:137-140 | the choice a nullable reference becomes is its own cleaning |
| Cleaning.NothingLeftToStrip | src/vendorfake/fidelity/extract.py:114-141 | nothing the ledger would record is left in a cleaned schema, when every extension stands for a plain keyword |
| Cleaning.SuppliedLast | src/vendorfake/fidelity/extract.py:122-126 | of several extensions for one keyword, it takes the value of the one the object lists last |
| Positions.StrippedExactly | src/vendorfake/fidelity/extract.py:127-136 | the stripped ledger of a schema is exactly the annotations that stand in some schema of it, unless mapped; annotations and schema positions are those of OpenAPI, not the code's lists |
| Positions.NoAnnotationLeft | src/vendorfake/fidelity/extract.py:114-141 | no annotation is left in any schema of a cleaned schema, when every extension stands for a plain keyword |
| Acceptance.CleaningPreservesAcceptance | src/vendorfake/fidelity/extract.py:114-141 | at every depth, for every sane validator that heeds no description, summary, title, example, examples, externalDocs or `x-` key, a standard reading of the cleaned schema accepts exactly what the whole original means, extensions as keywords besides and a nullable reference as null or its target, unless an extension stands for a keyword that holds schemas |
| Acceptance.AcceptancePreservedExactlyWhen | src/vendorfake/fidelity/extract.py:114-141 | and that exception is exact: for all schemas, values, definitions and such validators it holds if and only if no extension is mapped so |
| Acceptance.HoldingTargetLosesMeaning | src/vendorfake/fidelity/extract.py:122-126 | any extension mapped so gives a schema whose cleaning accepts other values |
| Acceptance.FoldedAccepts | src/vendorfake/fidelity/extract.py:137-140 | the folded choice accepts null and whatever the reference accepts, nothing else |
| Acceptance.NamesPreserved | src/vendorfake/fidelity/extract.py:129-130 | property and pattern names survive, whatever they are called |
| Closures.Cut.constructor | src/vendorfake/fidelity/extract.py:102-109 | a cut starts with empty ledgers |
| Closures.Cut.CleanSchema | src/vendorfake/fidelity/extract.py:114-141 | the recursion, member by member in listing order, gives the cleaned schema and adds exactly the stripped keys of every level to the ledger |
| Closures.Cut.CleanMember | src/vendorfake/fidelity/extract.py:129-136 | a kept member is copied or cleaned by what its keyword holds |
| Closures.Cut.Take | src/vendorfake/fidelity/extract.py:588-598 | one name's cleaned definition and references, or an empty one recorded as stubbed |
| Closures.Cut.Closure | src/vendorfake/fidelity/extract.py:579-599 | the worklist ends with exactly the reachable names, cleaned, but for those that it lacks and that were merged before; both ledgers are exact |
| Closures.ClosureIsLeast | src/vendorfake/fidelity/extract.py:579-599 | the closure lies inside every set that holds the roots and is closed under references |
| Closures.ClosureIsClosed | src/vendorfake/fidelity/extract.py:589-595 | no reference of a collected definition dangles |
| Closures.StubsAreUndefined | src/vendorfake/fidelity/extract.py:596-598 | stubs are exactly the reachable names that this source lacks and that were not merged before |
| Namespacing.Namespace | src/vendorfake/fidelity/extract.py:641-648 | the loop ends with no conflict left and every directly differing name renamed; when no definition is spelled after one that has to be renamed, what it renamed is exactly the shared names from which a directly differing shared definition is reachable through shared ones |
| Namespacing.RenamedDefinition | src/vendorfake/fidelity/extract.py:613-615 | each definition is found under its new name with its references rewritten, when none is spelled as a name handed out |
| Namespacing.KeptExactlyWhen | src/vendorfake/fidelity/extract.py:613-615 | no definition is lost exactly when those that come to one name agree |
| Namespacing.NothingLostWhenUnspelled | src/vendorfake/fidelity/extract.py:613-648 | whatever the loop ends with, every definition is kept when none is spelled after one that has to be renamed |
| Namespacing.SpelledDefinitionMeets | src/vendorfake/fidelity/extract.py:613-648 | a definition spelled after a directly differing one, unknown to the earlier sources, meets it at one name, and one of the two is lost unless they come out the same |
| Namespacing.SpelledNameLoses | src/vendorfake/fidelity/extract.py:613-615 | a definition already spelled with the label is overwritten or overwrites, silently |
| Namespacing.BooleanTakenForNumber | src/vendorfake/fidelity/extract.py:622 | definitions that differ in `true` against `1` do not conflict |
| Merging.UnfoldAlike | src/vendorfake/fidelity/extract.py:602-610 | a node of a source and its rewriting unfold alike at every depth, names resolved as the merge does |
| Merging.MergePreservesMeaning | src/vendorfake/fidelity/extract.py:625-664 | for linked layers, every definition of every source unfolds in the merged schemas as in its closures |
| Merging.OperationPreserved | src/vendorfake/fidelity/extract.py:749-753 | a kept operation, its references renamed, unfolds as in its source |
| Merging.MergedIsClosed | src/vendorfake/fidelity/extract.py:633-658 | at every stage of every merge, however names are spelled, the accumulated schema map is closed under references and only grows |
| Merging.OperationIsClosed | src/vendorfake/fidelity/extract.py:749-757 | and no reference of a kept operation dangles once it follows its source's renames |
| Merging.StubbedAtItsStage | src/vendorfake/fidelity/extract.py:596-598 | the stubs of the whole extract are exactly the names that some source's roots reach, that it lacks, and that had not been merged |
| Merging.StageOrigin | src/vendorfake/fidelity/extract.py:649-657 | whatever stands in the merged schemas is some source's definition, rewritten, under its own new name |
| Merging.LayerLinks | src/vendorfake/fidelity/extract.py:633-658 | merging one more source keeps every earlier definition placed and every mentioned name defined |
| Merging.BuiltLinks | src/vendorfake/fidelity/extract.py:633-664 | so after any number of sources everything is linked |
| Merging.ErrorSchemaStands | src/vendorfake/fidelity/extract.py:632-634 | the declared error schema stands in the merge under its own name, and cleaned under its new one for every source that defines it, though nothing refers to it |
| Merging.SourceSaysAsMerged | src/vendorfake/fidelity/extract.py:625-664 | for every source, every definition its roots reach and every depth, the merged document says under the new name what the cleaned definition says with names as the merge resolves them, when up to that source none mentions a name handed out |
| Merging.OperationSaysAsMerged | src/vendorfake/fidelity/extract.py:749-753 | the same for a kept operation |
| Merging.UnfoldKept | src/vendorfake/fidelity/extract.py:649-657 | laying agreeing definitions over a name space closed under references changes what nothing says, at every depth |
| Merging.FreeBeforehand | src/vendorfake/fidelity/extract.py:641-648 | no name is handed out that a source mentions, when no document or root names one spelled after a label and a name its source mentions |
| Merging.TakenIsNamespaced | src/vendorfake/fidelity/extract.py:649-655 | only a namespaced name can be found taken |
| Merging.MergeSource | src/vendorfake/fidelity/extract.py:640-658 | one source's closure, renames and overlay, or the namespaced name that is taken and by what; the ledgers after it |
| Merging.Overlay | src/vendorfake/fidelity/extract.py:649-655 | the definitions laid over the merged ones, or the first that is there and differs |
| Merging.MergeSchemas | src/vendorfake/fidelity/extract.py:625-664 | each source's roots are its own and the declared error schema, if it has that; each adds one built layer, the ledgers record exactly its renames, stubs and stripped keys, every stage is closed under references, the whole is linked, and the error schema stands in it; a taken name is the failing source's, and the error schema is missing exactly when no source has it |
| Merging.NeverTaken | src/vendorfake/fidelity/extract.py:649-655 | no name is found taken when no document or root says a name spelled after a label and no two labels make one name |
| Merging.NamesApartWhenLabelled | src/vendorfake/fidelity/extract.py:237-238 | distinct labels without a dot do not |
| Resolving.ResolvedAsMeantExactlyWhen | src/vendorfake/fidelity/extract.py:579-599 | a name that a source reaches and lacks is found where the first earlier document that defines it has it exactly when that document's roots reach it and none before do |
| Resolving.OwnerAskedFirst | src/vendorfake/fidelity/extract.py:589-598 | wherever the merge finds it, the roots of that source were the first to reach it |
| Resolving.SourcePreserved | src/vendorfake/fidelity/extract.py:625-664 | for every source, every definition its roots reach and every depth, the merged document says under the new name what the cleaned definition says in the documents, when every name it leads to is handed on by the document that defines it and no source so far mentions a name handed out |
| Resolving.OperationSaysTheSame | src/vendorfake/fidelity/extract.py:749-753 | the same for a kept operation |
| Resolving.StubbedExactly | src/vendorfake/fidelity/extract.py:596-598 | the stubs are exactly the names that the first source to reach them lacks |
| Resolving.StubIsUndefinedExactlyWhen | src/vendorfake/fidelity/extract.py:579-580 | a stub is a name that no document so far defines exactly when it was handed on |
| Twins.PlacedIdentically | src/vendorfake/fidelity/extract.py:649-657 | where what comes together is identical, every definition stands in the merged schemas to the letter |
| Twins.IdenticalBeforehand | src/vendorfake/fidelity/extract.py:622 | and it is, when no two reached definitions differ only in strings and in `true` against 1 |
| Routes.ShapeAfterBase | src/vendorfake/fidelity/types.py:65-67 | a brace-free prefix passes through the shape unchanged |
| Routes.ParameterErased | src/vendorfake/fidelity/types.py:65-67 | the name of a parameter does not show in the shape, its place does |
| Routes.ShapeOfShape | src/vendorfake/fidelity/types.py:65-67 | a shape is its own shape |
| Routes.StripBaseShape | src/vendorfake/fidelity/extract.py:557-565 | whether a base path is carried, and what is left, depends on the shape alone |
| Routes.StripSameShape | src/vendorfake/fidelity/extract.py:557-565 | so does it for a route that is the base path itself |
| Routes.IndexPaths | src/vendorfake/fidelity/extract.py:536-549 | the index finds exactly the first declared path of each method and shape |
| Routes.SameShapeSameMatch | src/vendorfake/fidelity/extract.py:721-745 | parameter names do not decide which operation a route is |
| Routes.OutPathShape | src/vendorfake/fidelity/extract.py:730-732 | the extract's path has the route's shape, unless the route is its own source's base path |
| Routes.ThroughBareShape | src/vendorfake/fidelity/extract.py:561-562 | and then it has another one, a slash longer |
| Routes.SamePlaceSameMatch | src/vendorfake/fidelity/extract.py:739-740 | two routes whose operations stand at one path of the extract are one operation |
| Routes.MatchExactly | src/vendorfake/fidelity/extract.py:721-733 | without the index: a route is the first path, of the first source, that declares its method under the shape its base path leaves; it has none when none does |
| Operations.ResolveLocal | src/vendorfake/fidelity/extract.py:205-218 | a reference to anything but a schema leads down the document one unescaped step at a time, or is an error |
| Operations.CutMembers | src/vendorfake/fidelity/extract.py:486-511 | the loop over an object's members, in any order: what is kept of each, every dropped key in the ledger, an error exactly when something referred to is undefined |
| Operations.CutMember | src/vendorfake/fidelity/extract.py:470-533 | one member of a media type, content, body, response or parameter: copied, cleaned, cut in turn, or dropped |
| Operations.CutOperationMember | src/vendorfake/fidelity/extract.py:488-511 | likewise of the operation itself |
| Operations.CutParameters | src/vendorfake/fidelity/extract.py:450-467 | one row for each parameter that is an object, references followed |
| Operations.CutOperation | src/vendorfake/fidelity/extract.py:486-511 | the kept operation and the dropped keys, or an error exactly when a parameter, body or response is undefined |
| Operations.CutStandsAlone | src/vendorfake/fidelity/extract.py:205-206 | a kept operation needs no component section but the schemas: in any document it is cut to itself and drops nothing, when every extension stands for a plain keyword |
| Places.PlaceKept | src/vendorfake/fidelity/extract.py:450-533 | every body it takes or answers with, and every parameter, keeps its schema, cleaned, and no other has one |
| Places.PlaceRewritten | src/vendorfake/fidelity/extract.py:749-753 | and once references follow the renames, that schema rewritten |
| Keeping.CutExactly | src/vendorfake/fidelity/extract.py:450-533 | what is left of an operation, member by member: `operationId` and `deprecated` as they are; one row for each parameter that is an object, in order, its `name`, `in` and `required` as they are and its schema cleaned; a body's `required` as it is; each status, described by itself; each media type, with its schema cleaned and nothing else |
| Keeping.DropsExactly | src/vendorfake/fidelity/extract.py:450-533 | what that adds to the ledger: exactly the members left out anywhere in it, and the annotations in its schemas |
| Keeping.DefinedExactly | src/vendorfake/fidelity/extract.py:205-219 | an operation can be cut exactly when each parameter, its body and each response that refers to something in the document finds it there |
| Cutting.CutRoutes | src/vendorfake/fidelity/extract.py:721-745 | the operations kept, what stands at a place being what the last route that puts something there puts; their origin and roots, the missing list and the dropped keys, each exactly; an error exactly when a matched operation refers to what its document lacks |
| Cutting.FindOperation | src/vendorfake/fidelity/extract.py:723-730 | going through the indexes finds the first source's first match |
| Cutting.FollowRenames | src/vendorfake/fidelity/extract.py:750-753 | each kept operation is rewritten with the renames of the source it came from |
| Cutting.CutWebhooks | src/vendorfake/fidelity/extract.py:667-691 | each declared name is kept from the first source that has it or listed missing; exactly its references join that source's roots and exactly its other keys are dropped |
| Cutting.FindEntry | src/vendorfake/fidelity/extract.py:676-679 | the first source that has the entry, not past a reference that its document does not define |
| Cutting.CutHook | src/vendorfake/fidelity/extract.py:676-688 | one entry, cut as an operation, or none |
| Cutting.FollowHooks | src/vendorfake/fidelity/extract.py:754-757 | each kept entry is rewritten with the renames of the source it came from |
| Cutting.CutExtract | src/vendorfake/fidelity/extract.py:694-757 | the parts together: routes and webhooks cut, schemas merged and linked, references followed, nothing in the document refers outside it, its ledgers exact; the roots of each source are what its operations and entries refer to and the declared error schema, which stands in the document; no sources is an error, an undefined parameter, body, response or entry exactly when one is met, a taken name and an undefined error schema as the merge has them |
| Cutting.RootsExactly | src/vendorfake/fidelity/extract.py:735-745 | the roots of a source are exactly what its matched operations and its kept webhooks entries refer to |
| Records.AvailableExactly | src/vendorfake/fidelity/extract.py:573-576 | a source's definitions are exactly the schemas of its document's components |
| Records.TargetExactly | src/vendorfake/fidelity/extract.py:205-219 | a reference into the document, other than to a schema, stands for what its pointer leads to through objects, and for nothing where it ends; any other node stands for itself |
| Records.HookExactly | src/vendorfake/fidelity/extract.py:667-691 | a webhooks entry is the first document's that has one with an operation under `post`, its reference followed |
| Records.HookFineExactly | src/vendorfake/fidelity/extract.py:667-691 | a webhooks entry can be looked for and cut exactly when no document up to the one that has it refers to something undefined for it, nor its operation does |
| Records.LedgerExactly | src/vendorfake/fidelity/extract.py:111-112 | the stripped ledger of a whole cut: exactly the members left out of some kept operation or webhooks entry, and the annotations in a schema of one or in a definition that was merged |
| Cutting.HookFaithful | src/vendorfake/fidelity/extract.py:747-757 | a webhooks entry says, at every depth, what the first source that has it says over the documents, likewise |
| Cutting.Extract.constructor | src/vendorfake/fidelity/types.py:445-452 | the reader finds an operation for every shape and method that stands in the extract |
| Cutting.CutterAndReaderAgree | src/vendorfake/fidelity/types.py:480-482 | for each modeled route: it is listed missing, or the reader finds its first match's operation, never both, exactly when it is neither matched through its own source's bare base path nor overruled by one that is |
| Cutting.CutterAndReaderAgreeExactlyWhen | src/vendorfake/fidelity/types.py:480-482 | so they agree on all modeled routes exactly when none is matched through a bare base path |
| Cutting.SortedRoutesAgreeExactlyWhen | src/vendorfake/fidelity/runner.py:238-250 | in the order the routes are listed in, every route some source declares agrees unless matched so, and a missing one unless the path without its slash is |
| Cutting.OverruledMisread | src/vendorfake/fidelity/extract.py:739-740 | an overruled route is read as the other's operation |
| Cutting.BareRouteMisplaced | src/vendorfake/fidelity/extract.py:561-562 | any route matched so is misplaced |
| Cutting.BareBaseMisplaced | src/vendorfake/fidelity/extract.py:561-562 | and can stand over the operation of another route |
| Cutting.ExtractFaithful | src/vendorfake/fidelity/extract.py:721-757 | what the reader finds for such a route says, at every depth, what the first matching source says over the documents, when every name it leads to is handed on |
| Cutting.KeptIsClosed | src/vendorfake/fidelity/extract.py:749-757 | every kept operation and webhooks entry, and every schema, refers only to schemas of the document |
| Meaning.AcceptAlike | src/vendorfake/fidelity/extract.py:602-610 | across any renaming that leads references to what they led to, a node and its rewriting accept the same values at every depth: to every sane validator where the two sides are identical, and to those that tell no more than Python where they are only equal |
| Meaning.DefinitionMeansTheSame | src/vendorfake/fidelity/extract.py:625-664 | for every source, every definition its roots reach, every value and every depth: a standard validator accepts of the merged definition what the vendor's own means over the documents, when every name it leads to is handed on, no data on the way refers to a renamed one, and what comes together is identical or the validator tells no more than Python |
| Meaning.ErrorSchemaMeansTheSame | src/vendorfake/fidelity/extract.py:632-664 | the merged error schema accepts, under its new name, what each document that defines it means by it |
| Meaning.KeptSchemaMeansTheSame | src/vendorfake/fidelity/extract.py:749-753 | the same for a schema that a kept operation holds |
| Meaning.ReadSchemaMeansTheSame | src/vendorfake/fidelity/extract.py:694-757 | from the documents to the reader: for a modeled route, its extract has a schema for a body exactly where the first matching source has one, and over the extract it accepts what the vendor's means, under the same conditions |
| Meaning.HookSchemaMeansTheSame | src/vendorfake/fidelity/extract.py:747-757 | the same for a webhooks entry |
| Meaning.DataKeptExactlyWhen | src/vendorfake/fidelity/extract.py:193-202 | keywords that hold no schema mean the same after rewriting, for every sane validator, exactly when they refer to no renamed name; so too for those that tell no more than Python |
| Meaning.EnumeratingConforms | src/vendorfake/fidelity/extract.py:139-140 | there are sane validators that take `enum` at its word, and heed no annotation |
| Meaning.ConformingFits | src/vendorfake/fidelity/extract.py:622 | every such validator tells `true` from 1, so the theorems hold of it exactly where what comes together is identical |
| Meaning.SomeValidatorFits | src/vendorfake/fidelity/extract.py:622 | and there are validators that tell no more than Python, for which they hold of every merge |
| Meaning.LaidOverExactlyWhen | src/vendorfake/fidelity/extract.py:649-657 | an object without nested schemas laid over one that Python finds equal accepts the same, for every sane validator, exactly when the two are identical |
| Losses.UnreachedDefinitionLost | src/vendorfake/fidelity/extract.py:589-598 | a name that an earlier document defines, and nothing kept there reaches, is stubbed, and what refers to it accepts every value where the documents allow none |
| Losses.BooleanLosesMeaning | src/vendorfake/fidelity/extract.py:622 | `enum` with 1 is laid over `enum` with `true`, and every conforming validator rejects what the first document accepts |
| Surfaces.ModeledRoutes | src/vendorfake/fidelity/runner.py:238-250 | exactly the unit's vendor routes, as the document spells them |
| Surfaces.ClassifiedExactly | src/vendorfake/fidelity/types.py:518-530 | over the extract cut for the unit, a vendor route is called an operation exactly when some source declares it, and then the first such source's; otherwise it is listed missing, and excused or undeclared; for each route the cutter and the reader agree on |
| Surfaces.ClassifyExactly | src/vendorfake/fidelity/types.py:518-530 | by its own fields and the declaration's rows: hidden or under `/__` it is control plane; else an operation if the reader finds one under its first alias, excused if some row excuses it, undeclared if none does |
| Surfaces.NoneUndeclaredExactlyWhen | src/vendorfake/fidelity/types.py:518-530 | no route is undeclared exactly when every vendor route listed missing has an excuse |
| Surfaces.ExcuseUnused | src/vendorfake/fidelity/types.py:524-530 | one more excuse changes the classification of nothing but the undeclared route it names |
| Digests.Reached | src/vendorfake/fidelity/extract.py:157-170 | the worklist ends with exactly the schemas reachable from the node |
| Digests.ReachedExactly | src/vendorfake/fidelity/extract.py:157-170 | they are the least set that holds what the node refers to and what a schema in it refers to, each as it is defined, or empty |
| Digests.CutDigests | src/vendorfake/fidelity/extract.py:178-186 | one digest per kept operation, over it, what it reaches and its annotations |
| Digests.DigestLocalAndComplete | src/vendorfake/fidelity/extract.py:180-186 | a digest moves exactly when the operation, its annotations or a schema it reaches does, its two payloads not colliding |
| Digests.DigestExactlyWhenApart | src/vendorfake/fidelity/extract.py:180-186 | which is exactly what the digest has to give for that |
| Digests.DiffIsExact | src/vendorfake/fidelity/pin.py:453-464 | the report names exactly the affected operations |
| Digests.CutIsGrounded | src/vendorfake/fidelity/extract.py:157-170 | in an extract the cutter made, everything an operation reaches is defined |
| Digests.OutsideMeansElsewhere | src/vendorfake/fidelity/pin.py:462-464 | when it names none, every operation agrees and what moved is reached by none of them |
| Pointers.UnescapeEscape | src/vendorfake/fidelity/corpus.py:460-461 | unescaping an escaped token gives it back (RFC 6901 sections 3 and 4) |
| Pointers.SplitPointer | src/vendorfake/fidelity/corpus.py:369 | splitting a built pointer gives its escaped tokens |
| Pointers.TokensOfPointer | src/vendorfake/fidelity/corpus.py:369-370 | a pointer reads back as the tokens it was built from |
| Pointers.MalformedExactly | src/vendorfake/fidelity/corpus.py:362-368 | a pointer is malformed exactly when it begins with something else than a slash |
| Pointers.DecimalRoundTrip | src/vendorfake/fidelity/corpus.py:376-378 | a list index reads back from its decimal spelling |
| Pointers.ResolvePointer | src/vendorfake/fidelity/corpus.py:362-381 | the walk gives what the tokens lead to, MISSING, or an error for a malformed pointer |
| Matching.Match | src/vendorfake/fidelity/corpus.py:419-444 | none exactly when the expectation is contained in the response; otherwise a mismatch whose tokens lead to it on both sides |
| Matching.MismatchResolves | src/vendorfake/fidelity/corpus.py:362-381 | the reported pointer resolves to the reported expected and actual values, or to two lists of the reported lengths |
| Matching.TokensExactly | src/vendorfake/fidelity/corpus.py:405-416 | `${any}` matches whatever is there, `${re:...}` a scalar other than null that the pattern matches in full, any other scalar its equal alone |
| Matching.SubsetExactly | src/vendorfake/fidelity/corpus.py:405-444 | place by place: a response matches exactly when everything a pointer finds in the expectation fits what it finds in the response, an object an object, a list one of its length, a scalar by its token or value |
| Matching.SubsetReflexive | src/vendorfake/fidelity/corpus.py:405-444 | a document without matcher tokens contains itself |
| Matching.SubsetGrows | src/vendorfake/fidelity/corpus.py:419-430 | members added to a response break no match |
| Matching.AbsentViolations | src/vendorfake/fidelity/corpus.py:464-470 | the first pointer that resolves, none when none does, an error for a malformed one before it |
| Deviations.PointerMatchesExactly | src/vendorfake/fidelity/types.py:192-201 | a pattern matches exactly when its elements can be aligned with the segments |
| Deviations.PlainPattern | src/vendorfake/fidelity/types.py:192-201 | without `**`, segment by segment and only at equal length |
| Deviations.DoubleStarCollapses | src/vendorfake/fidelity/types.py:197-198 | two `**` in a row match what one does |
| Deviations.ExcusedExactly | src/vendorfake/fidelity/validate.py:467-478 | a leaf is put down to the first declared deviation that has its keyword, its value or a pattern its text matches in full, its route or none, and a pointer whose elements can be aligned with its own; to none when there is none |
| Judging.ErrorsExactly | src/vendorfake/fidelity/validate.py:426 | the evaluator has errors exactly for an invalid body |
| Judging.JudgementExact | src/vendorfake/fidelity/validate.py:422-479 | no error remains exactly when the body satisfies the relaxed schema, so no failing choice is dropped |
| Judging.NullableAsReference | src/vendorfake/fidelity/validate.py:449-453 | a nullable reference, for a value that is not null, is judged as its reference alone |
| Verdicts.VerdictExactly | src/vendorfake/fidelity/validate.py:422-479 | read off the schema: exactly which messages remain and which labels are absorbed, in order; a passing choice absorbs those of its reference or of its first branch to pass, a failing one absorbs nothing and reports its reference, its most relevant branch, or how many pass |
| Judging.AbsorbsNothingExactlyWhenValid | src/vendorfake/fidelity/validate.py:422-430 | nothing remains and nothing is absorbed exactly for a valid body |
| Judging.MoreDeviationsExcuseMore | src/vendorfake/fidelity/validate.py:454-465 | more deviations never turn a pass into a failure when every `oneOf` that is looked into has a branch that holds as it stands or no second branch; below a choice that has a holding branch nothing is looked into |
| Judging.HoldingRelaxed | src/vendorfake/fidelity/validate.py:426 | where a branch holds as it stands, deviations decide nothing but for a `oneOf` with several such |
| Judging.OneOfMonotoneExactlyWhen | src/vendorfake/fidelity/validate.py:454-462 | over branches themselves so, a `oneOf` is monotone exactly when it has a branch that holds, no second branch, or no deviations at all that make it pass |
| Judging.EveryPassIsLost | src/vendorfake/fidelity/validate.py:457-462 | otherwise it fails once everything is excused |
| Judging.MoreDeviationsCanFail | src/vendorfake/fidelity/validate.py:457-462 | the least such case, with two leaves |
| Judging.JudgeError | src/vendorfake/fidelity/validate.py:432-479 | grouping by branch and judging each group gives the judgement the lemmas are about |
| Judging.Decide | src/vendorfake/fidelity/validate.py:449-465 | the decision from the branches' verdicts is that judgement |
| Ledgers.Ledger.constructor | src/vendorfake/fidelity/validate.py:186-188 | a ledger starts empty |
| Ledgers.Ledger.Record | src/vendorfake/fidelity/validate.py:198-202 | one counter of one route goes up by one |
| Ledgers.Ledger.Absorb | src/vendorfake/fidelity/validate.py:190-192 | one deviation's uses go up by one |
| Ledgers.Ledger.AbsorbAll | src/vendorfake/fidelity/validate.py:528-530 | every excused error is recorded and absorbed once |
| Ledgers.Ledger.Total | src/vendorfake/fidelity/validate.py:212-213 | the loop adds one counter over every row |
| Ledgers.RecordTallies | src/vendorfake/fidelity/validate.py:198-202 | recording moves the sum over all rows by one exactly for the counters summed |
| Ledgers.AbsorbAllSums | src/vendorfake/fidelity/validate.py:528-530 | uses by label and uses by route move together |
| Validators.MemoStaysRight | src/vendorfake/fidelity/validate.py:532-577 | a memoised answer is the resolution order override, declared, envelope, error schema; both tables match it, also after an error |
| Validators.MemoIsInvisible | src/vendorfake/fidelity/validate.py:532-535 | what an exchange comes to never depends on what the memo holds |
| Validators.DeliveryMemoIsInvisible | src/vendorfake/fidelity/validate.py:334-346 | what a delivery comes to does not depend on the deliveries before it, and is decided by its schema and its errors |
| Validators.SessionConserves | src/vendorfake/fidelity/validate.py:299-330 | over any session, whichever calls raise: calls counted are calls returned, deviations by route equal deviations by label, and the memo agrees |
| Validators.NothingUncheckedIsValidated | src/vendorfake/fidelity/validate.py:496-505 | a status below 400 without override or declared schema is never counted validated, and a JSON body there raises |
| Validators.EnvelopeTableExactlyWhen | src/vendorfake/fidelity/validate.py:540-544 | the envelope table misses exactly the statuses a declared key names without a body |
| Validators.MemberAskedExactlyWhen | src/vendorfake/fidelity/validate.py:506-527 | an error body without the member, fault-free otherwise, raises exactly when the table says envelope, and else counts as validated |
| Validators.EnvelopeUnnoticed | src/vendorfake/fidelity/validate.py:508-525 | a 404 declared without a body returns and counts as validated on the success schema alone, without the member |
| Accounts.ResponseSchemaExactly | src/vendorfake/fidelity/types.py:408-426 | the schema of a status is under the first key that has one: exact, range, default, and for an error the envelope |
| Accounts.ResolvedChecks | src/vendorfake/fidelity/validate.py:532-577 | what a body is checked against: the override, else that schema, else for an error the error schema, each only if it stands in the extract |
| Accounts.RequestAccount | src/vendorfake/fidelity/validate.py:380-420 | the request half raises exactly for an accepted body that is not JSON or leaves errors, and otherwise enters one request validated and one deviated for each absorbed label |
| Accounts.ResponseAccount | src/vendorfake/fidelity/validate.py:481-530 | the response half returns exactly when there is nothing to check, or a JSON body has a schema, leaves no error and carries the member where the envelope answered; it enters one validated, one undeclared status exactly where the operation does not name it, one deviated for each label, and nothing when it raises |
| Accounts.ExchangeAccount | src/vendorfake/fidelity/validate.py:299-330 | so for every kind of route: when the call returns, which counters move, under its key alone, and which labels are used |
| Accounts.DeliveryAccount | src/vendorfake/fidelity/validate.py:332-372 | and for a delivery |
| Validators.ResponseValidator.constructor | src/vendorfake/fidelity/validate.py:253-282 | empty tables beside the given ledger |
| Validators.ResponseValidator.ValidatorForSlot | src/vendorfake/fidelity/validate.py:532-577 | the tables after one look-up and what it gives, branch by branch |
| Validators.ResponseValidator.ValidateRequest | src/vendorfake/fidelity/validate.py:380-420 | which accepted requests are checked, what is counted and when it raises |
| Validators.ResponseValidator.ValidateResponse | src/vendorfake/fidelity/validate.py:481-530 | a response body against the schema the tables give: the new state of memo and ledger, and when it raises |
| Validators.ResponseValidator.Observe | src/vendorfake/fidelity/validate.py:299-330 | one exchange, by the kind of its route, the request before the response |
| Validators.ResponseValidator.ObserveDelivery | src/vendorfake/fidelity/validate.py:332-372 | one delivery, against its entry's schema |
| Versions.LightspeedVersions.constructor | src/vendorfake/lightspeed/versioning.py:60-61 | the sequence starts at the first version |
| Versions.LightspeedVersions.Reset | src/vendorfake/lightspeed/versioning.py:63-65 | and starts again |
| Versions.LightspeedVersions.Bump | src/vendorfake/lightspeed/versioning.py:72-76 | each draw is the next number, then the current one |
| Versions.ReadListQuery | src/vendorfake/lightspeed/versioning.py:120-138 | a page size below 1 is refused and a large one clamped, so an accepted query always makes progress |
| Versions.Select | src/vendorfake/lightspeed/versioning.py:141-154 | filter, stable sort by version, cap |
| Versions.SelectIsPage | src/vendorfake/lightspeed/versioning.py:141-154 | however the store lists its rows: ascending, only selected rows, none left out but above a full page |
| Versions.PageExactly | src/vendorfake/lightspeed/versioning.py:141-154 | row by row: nothing from before its start, after its end or, unasked, deleted; whatever else is left out is above a full page |
| Versions.SortedStably | src/vendorfake/lightspeed/versioning.py:152 | rows are put in order of version, and those of one version stay as they were listed |
| Versions.PagesPartition | src/vendorfake/lightspeed/versioning.py:141-151 | `after` is exclusive and `before` inclusive, so the selections on either side of a version neither overlap nor miss a row |
| Versions.MaxIsLast | src/vendorfake/lightspeed/versioning.py:157-164 | the envelope's maximum is the last row's version |
| ForwardSync.PollKeepsSync | src/vendorfake/lightspeed/versioning.py:141-164 | a page and its maximum never move the cursor past a row the client lacks |
| ForwardSync.ReceiveKeepsSync | src/vendorfake/lightspeed/versioning.py:141-164 | so does a page received after anything was written since the server answered |
| ForwardSync.AlwaysInSync | src/vendorfake/lightspeed/versioning.py:72-76 | in every interleaving of stamped writes, soft deletes, draws elsewhere, answers, receipts and lost answers, the replica agrees with the store on every row up to the cursor |
| ForwardSync.EmptyPageMeansEqual | src/vendorfake/lightspeed/versioning.py:141-154 | an empty page means the replica is the store |
| ForwardSync.EmptyReceiptMeansEqual | src/vendorfake/lightspeed/versioning.py:141-154 | received later, that it is the store as it was when it answered |
| ForwardSync.LivePollExactlyWhen | src/vendorfake/lightspeed/versioning.py:150 | polled without `deleted`, exactly when no soft delete waits beyond the cursor |
| ForwardSync.PageIsPrefix | src/vendorfake/lightspeed/versioning.py:141-154 | a page of any size is the beginning of what remains, and not empty while anything does |
| ForwardSync.QuietPollsVisitInOrder | src/vendorfake/lightspeed/versioning.py:141-164 | with mutations stopped, the pages concatenate to the remaining rows, each once and in order |
| ForwardSync.QuietPollsConverge | src/vendorfake/lightspeed/versioning.py:141-164 | after as many polls as rows remained the replica is the store |
| ForwardSync.QuietRunsConverge | src/vendorfake/lightspeed/versioning.py:141-164 | and for every quiet run there is such a listing of what remained |
| ForwardSync.QuietPollIsTwoSteps | src/vendorfake/lightspeed/versioning.py:141-164 | such a poll is an answer and its receipt with nothing in between |
| RateLimits.LightspeedRateLimiter.constructor | src/vendorfake/lightspeed/ratelimit.py:39-43 | no window is open |
| RateLimits.LightspeedRateLimiter.Reset | src/vendorfake/lightspeed/ratelimit.py:45-49 | the new quota, and no window open |
| RateLimits.LightspeedRateLimiter.Roll | src/vendorfake/lightspeed/ratelimit.py:58-62 | another window index opens that window with nothing spent |
| RateLimits.LightspeedRateLimiter.TakeSnapshot | src/vendorfake/lightspeed/ratelimit.py:64-67 | the window rolls and what is left is shown, never below zero |
| RateLimits.LightspeedRateLimiter.ConsumeOne | src/vendorfake/lightspeed/ratelimit.py:69-84 | the count moves even on a refusal, which says how long to wait |
| RateLimits.StateCounts | src/vendorfake/lightspeed/ratelimit.py:58-62 | over any run with a clock that does not go back, the two fields are the current window and the requests made in it |
| RateLimits.StateCountsSince | src/vendorfake/lightspeed/ratelimit.py:58-62 | whatever the clock does, also when it goes back: they are the window of the last call and the requests since it was entered last |
| RateLimits.AnswerExactly | src/vendorfake/lightspeed/ratelimit.py:64-84 | every answer, from the requests its window has seen |
| RateLimits.WindowAcceptsExactly | src/vendorfake/lightspeed/ratelimit.py:69-84 | each window accepts exactly the smaller of the quota and its requests |
| RateLimits.SnapshotShows | src/vendorfake/lightspeed/ratelimit.py:64-67 | a snapshot shows the quota less what its window accepted |
| RateLimits.SnapshotsSpendNothing | src/vendorfake/lightspeed/ratelimit.py:64-67 | a request is answered as if no snapshot had been taken |
| RateLimits.IntervalAcceptsAtMostTwice | src/vendorfake/lightspeed/ratelimit.py:55-62 | any interval of one window length, both ends counted, accepts at most twice the quota |
| RateLimits.RetryOpensNextExactlyWhenWhole | src/vendorfake/lightspeed/ratelimit.py:74-82 | that long after a refusal the next window is open exactly when the clock was whole |
| RateLimits.RetryAccepted | src/vendorfake/lightspeed/ratelimit.py:74-82 | and the first request then is accepted exactly then; otherwise it is told to wait nothing |
| RateLimits.DateOpensNextExactlyWhen | src/vendorfake/lightspeed/errors.py:118-130 | after the HTTP-date's truncation, exactly when the window also ends on a whole second (section 10.2.3 of RFC 9110) |
| RateLimits.DateAcceptedExactlyWhen | src/vendorfake/lightspeed/errors.py:300-305 | and the first request at the date, where that has not passed, is accepted exactly then |
| RateLimits.DateIsEnough | src/vendorfake/lightspeed/errors.py:300-305 | with a window of whole seconds and a whole clock the date is the instant itself, and the request there is accepted |
| Snapshots.Report.constructor | src/vendorfake/conformance/env.py:465 | a report starts without rows |
| Snapshots.Report.Diff | src/vendorfake/conformance/env.py:448-456 | the recursion appends exactly the places where the two sides part, each once |
| Snapshots.ReportedDiffers | src/vendorfake/conformance/env.py:448-456 | what is reported differs, whatever stands around it |
| Snapshots.DifferentIsReported | src/vendorfake/conformance/env.py:448-456 | values that differ have something reported |
| Snapshots.PutSettles | src/vendorfake/conformance/env.py:448-456 | putting a reported value in place settles that row and no other |
| Snapshots.PathsDisjoint | src/vendorfake/conformance/env.py:448-456 | no row's path leads through another's |
| Snapshots.PatchLeavesNothing | src/vendorfake/conformance/env.py:448-456 | applying every row in turn, deleting where the right side has none, leaves a value equal to the second snapshot but for members holding the marker |
| Snapshots.PatchGivesTheirs | src/vendorfake/conformance/env.py:448-456 | without the marker in either, it gives the second snapshot |
| Snapshots.FoundExactlyWhenDifferent | src/vendorfake/conformance/env.py:448-456 | there are rows exactly when the sides differ in more than members holding the marker |
| Snapshots.SeenExactlyWhenUnequal | src/vendorfake/conformance/env.py:448-456 | without the marker, exactly when they are unequal |
| Snapshots.MarkerIsInvisible | src/vendorfake/conformance/env.py:445 | a member holding the marker is taken for a missing one |
| Snapshots.SnapshotDifferences | src/vendorfake/conformance/env.py:459-467 | the timestamp filter never hides the only difference: with a positive limit nothing is shown exactly when the collections agree |
| Snapshots.ShownExactly | src/vendorfake/conformance/env.py:459-467 | shown are, in their order and up to the limit, the rows whose last name ends in none of `_at`, `_at_ms` and `_time`, or all rows when every one does |
| Pins.PinReadsBack | src/vendorfake/fidelity/pin.py:119-163 | a pin reads back from its file exactly when it records no operations without a cut digest |
| Pins.UntouchedUnlessWritten | src/vendorfake/fidelity/pin.py:286-374 | check mode, a failed source and an error leave both files as they were |
| Pins.RowsSettle | src/vendorfake/fidelity/pin.py:302-324 | rows once pinned are cut again as they were, whatever the date, and count as neither moved, new nor gone |
| Refreshing.RefreshSettlesExactlyWhen | src/vendorfake/fidelity/pin.py:277-381 | after a refresh that wrote, one of the same bytes on any date reports nothing and writes nothing, unless not vendored with nothing modeled |
| Refreshing.RefreshReportsExactly | src/vendorfake/fidelity/pin.py:299-343 | against other bytes, the digests compared not colliding: the extract changed exactly when what its digest covers did, and bytes moved under an unchanged cut are a chore |
| Refreshing.UnfetchedReportsExactly | src/vendorfake/fidelity/pin.py:384-439 | with a source that cannot be fetched nothing is written, and an upstream change is reported exactly when a source that was fetched has other bytes |
| Refreshing.VerifyAcceptsExactlyWhen | src/vendorfake/fidelity/pin.py:503-605 | offline, what a refresh wrote is accepted exactly when its stubs are |
| Reports.RefreshReports | src/vendorfake/fidelity/pin.py:299-381 | whatever pin and extract it finds: what a refresh reports as changed, and what as moved, by URLs, digests and records |
| Reports.RefreshFailures | src/vendorfake/fidelity/pin.py:274-289 | and how it ends otherwise: exactly which sources failed, and what is said of the rest |
| Reports.RefreshWrites | src/vendorfake/fidelity/pin.py:365-368 | what it writes: every row dated by when its bytes were first obtained, and the pin of that document, with routes, digests and webhooks exactly when not vendored and something is modeled |
| Reports.VerifyExactly | src/vendorfake/fidelity/pin.py:503-605 | whatever pin and text it finds: the extract is in order exactly when the text is the pinned one with the pinned rows, or a cache of the pinned cut, its stubs are accepted and its webhooks are the declared ones; so every edit of a committed extract is found |
| Reports.VerifyWithout | src/vendorfake/fidelity/pin.py:503-530 | without a pin everything is new, without an extract a committed one is missing, and another kind of pin is an error |
| Caches.KeyReadsBackExactlyWhen | src/vendorfake/fidelity/cache.py:196-201 | a route key parts into its method and path exactly when the method is not empty and has no space and the path is not empty |
| Caches.UpperAlikeExactlyWhen | src/vendorfake/fidelity/types.py:55-57 | methods are spelled alike exactly when they differ at most in the case of ASCII letters |
| Caches.RoutesReadBack | src/vendorfake/fidelity/cache.py:189-201 | so a pin's routes are the ones it was cut for |
| Reports.RoutesOfExactly | src/vendorfake/fidelity/cache.py:189-201 | any keys: their routes, or the first key that spells none |
| Caches.CacheUntouched | src/vendorfake/fidelity/cache.py:307-331 | a hit, a failed fetch, a leak or an error writes nothing |
| Reports.PopulateExactly | src/vendorfake/fidelity/cache.py:282-391 | whatever the files hold: which of a hit, a stale copy, a fresh cut or an error comes of it, and what each holds; copied prose is refused wherever the documents are at hand |
| Caches.PinRebuildsExtract | src/vendorfake/fidelity/cache.py:307-391 | from the pin alone an empty cache is filled with the very text that was pinned, and the next look is a hit, the prose guard run or not |
| Caches.RefreshIsReproducible | src/vendorfake/fidelity/cache.py:307-391 | the same, said of any refresh that wrote |
| Caches.DriftedCacheIsJudgedByItsCut | src/vendorfake/fidelity/pin.py:541-558 | a cache filled after the upstream moved: what drifted is what moved, and verification finds a change exactly when what the digest covers changed |
| Caches.NothingModeledIsNotRebuilt | src/vendorfake/fidelity/cache.py:190-194 | a pin with nothing modeled cannot be cut again |
| LawfulTools.LawsCanBeMet | src/vendorfake/fidelity/extract.py:92-94 | what these theorems ask of rendering, reading and digests can be met by tools whose extracts differ whenever the bytes do and whose digests never collide, and a refresh writes under them |
| Workspaces.Workspace.FetchAll | src/vendorfake/fidelity/pin.py:277-285 | every source is fetched whatever the one before it did; the failures are exact |
| Workspaces.Workspace.StampAll | src/vendorfake/fidelity/pin.py:302-319 | rows stamped in place, with what moved and whether any is new |
| Workspaces.Workspace.AnyGone | src/vendorfake/fidelity/pin.py:320-324 | whether a pinned source is no longer declared |
| Workspaces.Workspace.Unfetched | src/vendorfake/fidelity/pin.py:384-439 | what a refresh that could not fetch everything says of the rest |
| Workspaces.Workspace.FetchInOrder | src/vendorfake/fidelity/cache.py:313-329 | the sources in order, up to the first that cannot be fetched |
| Workspaces.Workspace.Refresh | src/vendorfake/fidelity/pin.py:240-381 | the flags set step by step, and the files written, are the refresh the lemmas are about |
| Workspaces.Workspace.Populate | src/vendorfake/fidelity/cache.py:282-391 | likewise for the cache, with the prose guard on a hit |
| Prose.PaddedSearchExactly | src/vendorfake/fidelity/cache.py:244-252 | the padded string search finds a window exactly when its words follow one another in the documents' tokens |
| Prose.ProseLeaks | src/vendorfake/fidelity/cache.py:246-257 | the windows reported are exactly those, eight words long and without "http" |
| Prose.SharedWithOneIsFound | src/vendorfake/fidelity/cache.py:241-257 | nothing copied from one document is missed |
| Prose.FoundIsInTheWords | src/vendorfake/fidelity/cache.py:244 | whatever is reported follows one another in the documents' concatenated words |
| Prose.WindowsStraddle | src/vendorfake/fidelity/cache.py:244 | a window may straddle two documents and stand in neither |
| Prose.EmptyDocumentSeparates | src/vendorfake/fidelity/cache.py:244 | unless a document without words lies between them |

## Left out

- Resolving.SourcePreserved: assumes that up to the source none mentions a name the merge handed out; without that a definition can be lost, as Namespacing.SpelledDefinitionMeets shows. What a definition says is compared up to Python's `==`; Meaning compares what it accepts to the letter.
- Meaning.DefinitionMeansTheSame: likewise; the other conditions are each shown to be needed, at objects without nested schemas or at an input, and not for every schema at once. A number where a schema should stand is read as the flag it equals, where a validator would fail.
- Judging.OneOfMonotoneExactlyWhen: is exact for branches that are harmless themselves; for others no condition is given.
- Namespacing.SpelledDefinitionMeets: does not say what comes of a definition spelled so that an earlier source defines too, which the loop may rename in turn.
- Cutting.CutterAndReaderAgree: for base paths without braces, which the shapes of the routes would erase.
- Cutting.CutExtract: takes a document's operations as a list in document order beside the document itself, whose members have no order; the annotations read from descriptions are not kept.
- Closures.Cut.CleanSchema: does not count renamed extensions and rewritten nullable references; the two counters go only into the extract's metadata.
- ForwardSync.AlwaysInSync: the client waits for one answer at a time, and asking again forgets the one before; a client that takes an older answer after a newer one is not covered.
- Swagger 2.0 conversion, annotations read out of prose, and reading JSON and YAML.
- The order of object members and of reported rows, except the order `clean_schema` depends on, which `Cleaning.Extensions.order` stands for.
- The difference between an integer and the float of the same value: both are one real, so `1` and `1.0` render alike, digest alike, and a deviation for one excuses the other.
- Method names are spelled in one case in routes and extracts, except in route keys, where upper-casing is modeled for ASCII letters.
- `str.isdigit` on digits outside ASCII, and regular expressions, shell globs, `best_match` relevance, media types and validator keywords, which are parameters.
- Locating a schema inside the extract document, and building request and delivery validators, which are taken to succeed when there is a schema.
- The unit's router, and the classification of routes within a session, where it is a parameter; `Surfaces` has its rule.
- Parsing of query parameters, and a reset of the version sequence in the middle of a replication.
- A clock that moves between the limiter's readings within one call, and what is answered while it goes back; `Retry-After` as text.
- SHA-256, the rendering of documents and the network: functions taken as deterministic; where a lemma says so, the digests it compares do not collide and what the cutter made is read back.
- Writing a file, making directories and temporary files; two processes at once; a text on disk that is not JSON.
- How words are lifted out of a text.
- The wording of every message, and the line counts of an extract diff.
