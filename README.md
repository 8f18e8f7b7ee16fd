# owl.js core, modelled in Dafny

`lib/owl.js` wraps the OWL API for scripting ontologies. Under the
wrapper's factory and I/O plumbing sits a small core, which this project
models.

- **Axiom store.** An `OWL` object holds an ontology, seen here as a finite
  set of axioms. It also holds the append-only list `changes`, where every
  AddAxiom/RemoveAxiom it applies is pushed. The class `Store.Owl` keeps
  the invariant that its axioms are the loaded axioms with the logged
  changes replayed over them in order.
- **Filter and rewrite passes.** `grepAxioms` keeps the axioms a predicate
  accepts, or rejects when negated. With `isReplace`, it removes every
  axiom and adds the kept ones back. `sedAxioms` collects the rewrites a
  function returns, adds them, and then removes the originals it touched.
- **Identifier allocation.** `genIRI` advances `config.lastId` and formats
  it as seven zero-padded digits. It builds
  `http://purl.obolibrary.org/obo/<idspace>_<digits>` and skips every
  counter whose IRI is already in use.
- **Ancestors over a relation.** `getAncestorsOver` unfolds the reasoner's
  superclasses of a class through the lookup from each temporary class
  back to the class it stands for. The temporary class stands for
  `prop some C` and is named `C-<prop><isReflexive>`.
- **Labels and lookup.** `getLabel` returns the last rdfs:label it
  enumerates. `concatLiteral` joins strings and labels with single
  spaces. `keyMatches`, `find` and `mfind` look objects up by rendering
  or by label.
- **Genus-differentia.** `generateXP` mints an identifier and builds a
  frame whose label is "genus of diff" and whose definition is "a genus
  that is relation a diff". The frame is equivalent to
  `genus and (relation some diff)`.
- **n-ary constructors.** `intersectionOf`, `unionOf`,
  `equivalentClasses`, `disjointClasses` and `disjointUnion` collect
  their operands into a hash set.

Modules, in dependency order:

- `Collections`: set enumeration in an unspecified order, for Java's
  `toArray`.
- `Terms`: IRIs, class expressions, axioms and the n-ary constructors.
- `Changes`: change records and their replay.
- `Transform`: the grep and sed loops and their specifications.
- `IdAlloc`: padding, candidate IRIs, the used-checks, and the bound that
  ends the search.
- `Ancestors`.
- `Labels`.
- `GenusDifferentia`.
- `Store`: the `Owl` class.

Where the code differs from what the library's documentation leads one to
expect, the model follows the code:

- `generateXP` pushes the frame onto `generatedFrames` but adds no axioms
  to the ontology (lib/owl.js:1316-1319). `Store.Owl.GenerateXP` leaves the
  axioms and the change log untouched.
- When a `sedAxioms` function returns a list, even an empty one, the code
  collects the list's `concat` method rather than its members
  (lib/owl.js:390-393). `addAxioms` then throws on that element before any
  original is removed; replacements collected before it have already been
  added (lib/owl.js:401-402). `Store.Owl.SedAxioms` models this as written.
  The first row of the findings below records the discrepancy.
- The `sedAxioms` example in the documentation (lib/owl.js:371-374) cannot
  run as written. It tests `instanceof OWLSubClassOf`, a name no OWL API
  type has, and it reads a second parameter `owl` that `sedAxioms` never
  passes: only the axiom is passed (lib/owl.js:387). Only `grepAxioms`
  passes the `OWL` object as a second argument (lib/owl.js:346, 351).
- `disjointUnion` is documented to take its operands either spread over
  the arguments or as one list. As written, only the list form gets past
  `flattenArgs` (lib/owl.js:1126-1131); `Terms.DisjointUnionOf` models this,
  and `Terms.DisjointUnionOfCorrected` is the corrected operation of the
  third row of the findings below.
- `getLabel` is documented to return the first label and warn. Its loop
  returns the last label enumerated and warns once per extra label
  (lib/owl.js:679-684).
- `getInferredSuperClasses` discards the result of `rl.concat(...)`
  (lib/owl.js:250), so its reflexive flag has no effect. The model takes
  the superclass list as an input.

## Model

| member | source | states |
|---|---|---|
| Collections.Enumerate | lib/owl.js:338 | `getAxioms().toArray()` lists every axiom of the set exactly once, in an order the model leaves open |
| Terms.OperandSet | lib/owl.js:938-943 | the hash set filled one argument at a time holds exactly the arguments and is no larger than the argument list |
| Terms.DistinctOperandsKeepCount | lib/owl.js:938-943 | without repeated arguments no operand is lost: the set has as many operands as there were arguments |
| Terms.OperandOrderIrrelevant | lib/owl.js:938-943 | arguments that agree as sets, whatever their order or repetitions, build the same operand set |
| Terms.IntersectionOfArgs | lib/owl.js:937-950 | `intersectionOf` yields an intersection whose operands are exactly the arguments |
| Terms.UnionOfArgs | lib/owl.js:967-980 | `unionOf` yields a union whose operands are exactly the arguments |
| Terms.DisjointClassesOf | lib/owl.js:1096-1102 | `disjointClasses` yields a disjointness axiom whose members are exactly the arguments |
| Terms.EquivalentClassesOf | lib/owl.js:1076-1082 | succeeds exactly when every argument is a string, an IRI or a class expression; the members are then exactly the converted arguments (a string or IRI becomes its named class, lib/owl.js:876-888) |
| Terms.EnsureClassExpression | lib/owl.js:876-888 | a string or IRI becomes its named class, a class expression passes unchanged, and only another object is refused |
| Terms.FlattenArgsAsWritten | lib/owl.js:1126-1131 | as written, only a list at position i is returned (as its elements); a missing position, or any other argument, fails |
| Terms.FlattenArgs | lib/owl.js:1126-1131 | a missing argument at position i is an error; a list there yields its elements; otherwise the arguments from i on |
| Terms.VarargsRejectedAsWritten | lib/owl.js:1126-1131 | as written, any call that spreads operands over the positions fails, while the corrected helper returns exactly those operands |
| Terms.FlattenConventionsAgree | lib/owl.js:1104-1131 | corrected, the varargs form and the single-list form of `disjointUnion` flatten to the same operands |
| Terms.DisjointUnionOver | lib/owl.js:1119-1122 | the flattened arguments build an axiom about `c` exactly when every one is a convertible operand, and its members are exactly the converted operands |
| Terms.OverSpread | lib/owl.js:1119-1122 | over operands spread one per position, the axiom is built exactly when every operand converts, and its members are exactly their conversions |
| Terms.ListArgSpreads | lib/owl.js:1126-1131 | a single list argument flattens to its members in both versions of `flattenArgs` |
| Terms.DisjointUnionOf | lib/owl.js:1117-1131 | as written: no operand is an error; operands spread over the arguments always fail; for a single list argument it succeeds exactly when every element converts, and its members are exactly the converted elements; the axiom's class is `c` |
| Terms.DisjointUnionOfCorrected | lib/owl.js:1117-1131 | with the corrected `flattenArgs`: spread operands and a single list both succeed exactly when every operand converts, and the members are exactly the converted operands |
| Changes.ReplayLastRecordDecides | lib/owl.js:537-541 | replaying the log: an axiom no record names keeps its membership, and otherwise the last record naming it decides whether it is present |
| Changes.Apply | lib/owl.js:537-541 | after an AddAxiom the axiom is present, after a RemoveAxiom absent; no other axiom changes membership |
| Changes.ReplayConcat | lib/owl.js:537-541 | replaying two logs one after the other equals replaying their concatenation |
| Changes.ReplaySnoc | lib/owl.js:537-541 | pushing one record onto the log applies it to the current axioms |
| Changes.AddsOf | lib/owl.js:583-588 | `addAxioms` logs one AddAxiom per list element, in list order |
| Changes.RemovesOf | lib/owl.js:606-610 | `removeAxioms` logs one RemoveAxiom per list element, in list order |
| Changes.ReplayAdds | lib/owl.js:583-588 | replaying the records of `addAxioms` adds exactly the listed axioms |
| Changes.ReplayRemoves | lib/owl.js:606-610 | replaying the records of `removeAxioms` removes exactly the listed axioms |
| Changes.AddTwiceIsAddOnce | lib/owl.js:573-576 | adding a present axiom leaves the set as it was; only the log grows |
| Changes.RemoveTwiceIsRemoveOnce | lib/owl.js:595-599 | removing an absent axiom leaves the set as it was; only the log grows |
| Transform.Select | lib/owl.js:343-355 | the kept axioms are exactly those of the input the predicate accepts (rejects when negated), none added |
| Transform.SelectConcat | lib/owl.js:343-355 | filtering distributes over concatenation, so kept axioms keep their relative order |
| Transform.SelectIdempotent | lib/owl.js:337-361 | filtering the filtered list again changes nothing |
| Transform.SelectPartitions | lib/owl.js:345-354 | the plain and the negated filter split the input: their lengths add up to its length |
| Transform.FilterAxioms | lib/owl.js:342-355 | the loop of `grepAxioms` pushes exactly the kept axioms, in input order |
| Transform.NewAxioms | lib/owl.js:385-399 | an axiom is a replacement exactly when the function returned it, or a list holding it, for some original |
| Transform.Touched | lib/owl.js:385-399 | the removed originals are exactly those for which the function did not return null |
| Transform.CollectRewrites | lib/owl.js:381-400 | the loop of `sedAxioms` builds exactly those replacements and removed originals, with list results contributing their elements |
| Transform.ListRewritesLostAsWritten | lib/owl.js:390-393 | as written, the only axioms collected are single-axiom results; no element of a list result is ever collected |
| Transform.NewAxiomsAsWritten | lib/owl.js:388-398 | as written, a function object is collected exactly when some result is a list, and never more items than originals |
| Transform.CollectRewritesAsWritten | lib/owl.js:381-400 | the loop of `sedAxioms` as written builds exactly `NewAxiomsAsWritten` and the touched originals |
| Transform.AddedBeforeThrow | lib/owl.js:583-588 | `addAxioms` submits the collected items in order up to, not including, the first one that is not an axiom; it reaches the end exactly when there is none |
| Transform.AsWrittenWithoutLists | lib/owl.js:388-401 | when no result is a list, the as-written collection submits exactly the intended replacements |
| Transform.ListRewriteExample | lib/owl.js:390-402 | over the one axiom `a`, turning it into any list, even `[]`, collects only the `concat` function as written, so nothing is submitted before the throw; the intended collection is the list's members |
| Transform.AddThenRemoveOutcome | lib/owl.js:401-402 | submitting the additions and then the removals leaves (axioms + additions) − removals |
| Transform.RemoveThenAddOutcome | lib/owl.js:619-622 | submitting the removals and then the additions leaves (axioms − removals) + additions |
| Transform.IdentityRewriteErased | lib/owl.js:401-402 | a rewrite that returns its own axiom deletes it when the additions go first, and keeps it when the removals go first |
| Transform.SwappedPairErased | lib/owl.js:401-402 | a function that inverts subclass axioms, run over an ontology that holds an axiom and its inverse, leaves neither as written, and both with the removals first |
| Transform.RemoveThenAddKeepsReplacements | lib/owl.js:381-404 | with the removals first, every replacement is present, untouched axioms stay, and a touched original stays exactly when it is also a replacement |
| Transform.AddThenRemoveDropsReturnedOriginals | lib/owl.js:401-402 | with the additions first, every touched original is gone, untouched axioms stay, and a replacement survives exactly when it is not a touched original |
| IdAlloc.Pad7 | lib/owl.js:1209 | `%07d`: decimal digits only, seven of them unless the number needs more |
| IdAlloc.Pad7Value | lib/owl.js:1209 | the padded digits read back as the counter |
| IdAlloc.CounterRoundTrip | lib/owl.js:1209-1210 | the counter can be read back out of the candidate IRI |
| IdAlloc.CandidateInjective | lib/owl.js:1209-1210 | distinct counters give distinct candidate IRIs |
| IdAlloc.CandidateIri | lib/owl.js:1209-1211 | the candidate is the OBO prefix, the idspace and `_`, followed by at least seven digits |
| IdAlloc.CompactId | lib/owl.js:1213 | the compact id is the idspace, `:`, and the same digits the candidate IRI ends with |
| IdAlloc.AnnotatedAt | lib/owl.js:1215-1217 | check (a) holds exactly when the set of annotation assertions about the IRI has size above 0 |
| IdAlloc.DescribesClass | lib/owl.js:1218-1223 | check (b) holds exactly when the set of axioms about the class of the IRI has size above 0 |
| IdAlloc.MentionedAsLiteral | lib/owl.js:1224-1241 | check (c) holds exactly when some annotation assertion has the literal value of the full IRI or of the compact id |
| IdAlloc.IsUsed | lib/owl.js:1215-1246 | a counter is rejected exactly when one axiom of the ontology, on its own, passes one of the three checks |
| IdAlloc.ScanLiterals | lib/owl.js:1224-1241 | the scan reports use exactly when some annotation assertion has a literal value equal to the full IRI or the compact id |
| IdAlloc.FirstFreeUnique | lib/owl.js:1202-1250 | the first free counter after `lastId` is unique |
| IdAlloc.UsedIsMentioned | lib/owl.js:1215-1241 | a used candidate occurs among the strings the ontology mentions |
| IdAlloc.UnusedBeyondBound | lib/owl.js:1202-1250 | a counter whose digits are longer than every string in the ontology is free, so the search ends |
| IdAlloc.UsedBounded | lib/owl.js:1243-1246 | all used counters lie below one bound, which is what makes the recursion finite |
| IdAlloc.FirstFreeAfterMintedRange | lib/owl.js:1202-1250 | when exactly the counters after `last` and before `n` name described classes, `n` is the first free counter |
| IdAlloc.FirstFreeExample | lib/owl.js:1202-1250 | with CL_0000001 to CL_0000005 in use and lastId 0, the answer is http://purl.obolibrary.org/obo/CL_0000006 |
| Ancestors.TempIri | lib/owl.js:296-310 | the temporary class name starts with the class's IRI followed by `-`, and its length is that of the class, the dash, the property and the flag text |
| Ancestors.TempIriInjective | lib/owl.js:296-310 | the temporary class name `C-<prop><isReflexive>` determines C for a fixed property and flag |
| Ancestors.MaterializeLookup | lib/owl.js:305-313 | the lookup sends each class's temporary class back to that class, and holds nothing else |
| Ancestors.AncestorsOver | lib/owl.js:282-291 | the answer is the superclass list mapped through the lookup, keeping order and length, with `cls` appended when reflexive |
| Ancestors.GetAncestorsOver | lib/owl.js:279-293 | one answer per superclass, plus `cls` when reflexive; a temporary class among the superclasses comes back as its class, and any other superclass comes back unchanged |
| Ancestors.ReflexiveIncludesSelf | lib/owl.js:289-291 | a reflexive query answers `cls` itself, last |
| Ancestors.AnswersAccountedFor | lib/owl.js:279-293 | every answer is a superclass the reasoner gave, a class reached through its temporary class, or `cls` when reflexive |
| Labels.LabelValues | lib/owl.js:677 | the label values are exactly the values of rdfs:label assertions on the object |
| Labels.LabelOf | lib/owl.js:678-685 | fails exactly when some value is an IRI; null for no values; otherwise the last value's literal |
| Labels.LastLabel | lib/owl.js:676-686 | the loop answers `LabelOf`, and warns once for every value after the first it reads |
| Labels.LabelErrorPersists | lib/owl.js:683 | after a value without `getLiteral` has thrown, later values change nothing |
| Labels.LabelOfEnumeration | lib/owl.js:676-686 | whatever the enumeration order: it fails exactly when some label is an IRI, answers null exactly when there is no label, otherwise answers one of the labels, and answers the label when there is just one |
| Labels.MultiLabelOrderDependent | lib/owl.js:679-684 | with two different labels the answer depends on the enumeration order |
| Labels.Join | lib/owl.js:1265 | `join(" ")` of no parts is empty, of one part is that part, and adds no character but spaces |
| Labels.SplitJoin | lib/owl.js:1256-1265 | joining space-free parts and splitting at spaces gives the parts back |
| Labels.KeyMatches | lib/owl.js:742-762 | a rendering equal to the key matches whatever the label; otherwise the object matches exactly when its label is the key, and an object without a label never matches by label |
| Labels.MatchAll | lib/owl.js:730-740 | `mfind` collects exactly the objects whose rendering or label equals the key, and no more than there are objects |
| Labels.MatchAllConcat | lib/owl.js:730-740 | splitting the objects splits `mfind`'s answer the same way, so the matches keep the objects' order |
| Labels.FirstMatch | lib/owl.js:708-716 | `find` answers an object that matches and that no earlier object precedes as a match; nothing exactly when no object matches |
| Labels.FindIsFirstOfMFind | lib/owl.js:708-740 | `find` answers the first of what `mfind` answers, and nothing when `mfind` answers nothing |
| Labels.Find | lib/owl.js:708-716 | the loop returns at the first object that matches |
| Labels.MFind | lib/owl.js:730-740 | the loop pushes every object that matches, in order |
| GenusDifferentia.Differentia | lib/owl.js:1301 | the equivalent class is an intersection of exactly two operands, the genus and `relation some diff` |
| GenusDifferentia.LabelText | lib/owl.js:1297 | the default label, `concatLiteral(genus, 'of', diff)` joined with single spaces, reads "<genus> of <diff>" |
| GenusDifferentia.DefinitionText | lib/owl.js:1302-1304 | the default definition reads "a <genus> that is <relation> a <diff>" |
| Store.Owl.constructor | lib/owl.js:62-72 | a new object holds the loaded axioms, an empty change log and no generated frames |
| Store.Owl.ApplyChange | lib/owl.js:537-541 | the change is applied to the axioms and pushed onto the log, and the replay invariant is kept |
| Store.Owl.AddAxiom | lib/owl.js:573-576 | exactly one AddAxiom record; the axiom is present and no other axiom changes membership |
| Store.Owl.RemoveAxiom | lib/owl.js:595-599 | exactly one RemoveAxiom record; the axiom is absent and no other axiom changes membership |
| Store.Owl.AddAxioms | lib/owl.js:583-588 | one AddAxiom per element in order, so the log grows by the list's length; the listed axioms are added; the list is returned |
| Store.Owl.RemoveAxioms | lib/owl.js:606-610 | one RemoveAxiom per element in order; the listed axioms are removed |
| Store.Owl.ReplaceAxiom | lib/owl.js:619-622 | every new axiom is present; the old axiom is absent unless it is among the new ones |
| Store.Owl.Add | lib/owl.js:553-566 | an axiom goes to addAxiom, a list to addAxioms, and anything else fails without changing the store |
| Store.Owl.GrepAxioms | lib/owl.js:337-361 | returns the kept axioms in enumeration order. Without isReplace nothing changes. With it, exactly the kept axioms remain and the log grows by all axioms plus the kept ones |
| Store.Owl.AddCollected | lib/owl.js:583-588 | one AddAxiom per collected axiom, in order, up to the first element that is not an axiom; exactly those axioms are added |
| Store.Owl.SedAxioms | lib/owl.js:381-404 | as written: it fails exactly when some result is a list, and then only the items before the function object were added and nothing was removed. Otherwise the intended replacements are added, then the touched originals removed, so every touched original is gone even when it was also returned as a replacement. Axioms the function returned null for always stay |
| Store.Owl.SedAxiomsCorrected | lib/owl.js:381-404 | removals first: untouched axioms stay, every replacement is present, and a touched original stays exactly when it is also a replacement |
| Store.Owl.CandidateUsed | lib/owl.js:1212-1241 | reports use exactly when one of the three checks holds: annotation assertions about the IRI, axioms about its class, or a literal equal to the IRI or the compact id |
| Store.Owl.GenIRI | lib/owl.js:1202-1250 | lastId ends strictly above its old value (null counts as 0) on the first free counter, every counter skipped was used, and the IRI returned carries that counter |
| Store.Owl.GetLabel | lib/owl.js:676-686 | the answer fails exactly when some label value is an IRI, and otherwise is one of the object's labels, or null when it has none |
| Store.Owl.ConcatLiteral | lib/owl.js:1253-1267 | fails exactly when a label lookup fails; otherwise each string token is kept, each object becomes one of its labels or the empty string, joined with single spaces |
| Store.Owl.DefaultLabel | lib/owl.js:1297 | fails exactly when the genus or diff label lookup fails; otherwise "<genus label> of <diff label>" |
| Store.Owl.DefaultDefinition | lib/owl.js:1302-1304 | fails exactly when a label lookup of genus, relation or diff fails; otherwise "a <genus label> that is <relation label> a <diff label>" |
| Store.Owl.GenerateXP | lib/owl.js:1289-1320 | the id is the freshly minted IRI. The label is "genus of diff" unless given. The definition is "a genus that is relation a diff" unless given. The frame is equivalent to `genus and (relation some diff)` and is the one frame pushed; the axioms are untouched |

## Left out

- Loading and saving ontologies, catalogs, formats and classpath setup (lib/owl.js:85-197, 417-511): file and network I/O.
- The reasoner (`getReasoner`, `getInferredSuperClasses`, `getInferredEquivalentClasses`): its superclass answer is an input of `Ancestors.GetAncestorsOver`.
- `materializeExistentialExpressions` beyond its naming and lookup. Its loop reads an undefined `p` and `lookup`, never adds the equivalence axiom, and returns the AddImports change instead of `mat` (lib/owl.js:309-318). `Ancestors.MaterializeLookup` is the intended lookup, over the class signature given as a set.
- `owl/owlframe` is not part of this model: `toAxioms`, `stamp`, and the frame branch of `add` (lib/owl.js:557-559) are left out. `GenusDifferentia.Frame` is the slot map only.
- `ann` (its undefined `set`), the regular-expression branch of `keyMatches` (lib/owl.js:743-752), `generateJSON`, `undo`, logging and `print`.
- The data-property branch of `someValuesFrom` (lib/owl.js:913-915); `class`, `subClassOf` and `classAssertion` are the datatype constructors `Named`, `SubClassOf` and `ClassAssertion`.
- The `OWL` object that `grepAxioms` passes to its function as a second argument (lib/owl.js:346, 351): grep functions are modelled as functions of the axiom alone. `sedAxioms` passes the axiom only (lib/owl.js:387), and its functions are likewise functions of the axiom.
- Terms.IntersectionOfArgs, Terms.UnionOfArgs, Terms.EquivalentClassesOf and Terms.DisjointClassesOf: only the varargs form is modelled. Their documentation also promises a single argument holding a list (lib/owl.js:926-927, 956-957, 1068-1069, 1088-1089). The code adds such a list to the hash set as one element (lib/owl.js:940-942, 970-972, 1078-1080, 1098-1100), and what the data factory does with it is outside this code.
- Terms.EnsureClassExpression: an operand that is neither a string, an IRI nor a class expression is treated as an error. The code prints a warning and returns it unchanged (lib/owl.js:884-887). What `getOWLEquivalentClassesAxiom` and `getOWLDisjointUnionAxiom` then do with it is not part of this model, so the failure cases of `Terms.EquivalentClassesOf` and `Terms.DisjointUnionOf` rest on this choice.
- Store.Owl.ReplaceAxiom: takes the new axioms as a list; the single-axiom form is not modelled.
- Store.Owl.GenIRI: does not model the 32-bit `java.lang.Integer` range of the counter; counters are unbounded. `lastId` is a natural number or null, so a negative or fractional `config.lastId` is not modelled; `%07d` would render -3 as "-000003".
- Store.Owl.GenerateXP: genus, relation and diff are named entities given by IRI. String arguments, anonymous expressions, and the write of the default definition back into the caller's `defaultMap` are not modelled.
- Ancestors.TempIriInjective: the flag is a boolean; an omitted `isReflexive`, which renders as "undefined" in the name, is not modelled.
- Store.Owl.SedAxioms: the exception `addAxioms` raises on the collected function object is the error result `NotAnAxiom`; the changes applied before it stay in place, as they do in the source.
- Labels.Find: the object renderings and labels are given as functions, so a failing `getLabel` inside `keyMatches` is not modelled.
- Store.Owl.GetLabel: reads only this ontology's axioms, not its imports closure (lib/owl.js:649).
- The enumeration order of Java sets is left open, so `Store.Owl.GetLabel` and `Store.Owl.ConcatLiteral` may enumerate the same labels in different orders on two calls. Each promises only "one of the labels".

## Findings

| source | as written | input that shows it | evidently intended | confidence | as-written member | corrected member |
|---|---|---|---|---|---|---|
| lib/owl.js:392 | `newAxioms.concat(ax2.concat)` appends the list's `concat` method, not its elements | a function that maps axiom `a` to a list, `[b]` or `[]`: `addAxioms` throws on the collected function before any original is removed; on the one-axiom ontology `{a}` nothing is added either (`Transform.ListRewriteExample`) | `newAxioms.concat(ax2)`: the replacements are the list's elements | high, not executed | Transform.ListRewritesLostAsWritten | Transform.CollectRewrites |
| lib/owl.js:401-402 | the replacements are added before the touched originals are removed | a function that inverts each subclass axiom through `this` (`this.subClassOf(ax.getSuperClass(), ax.getSubClass())`), on an ontology holding both `A ⊑ B` and `B ⊑ A`, which ends with neither (`Transform.SwappedPairErased`) | remove the originals first, then add the replacements, so every replacement is present | medium, not executed | Store.Owl.SedAxioms | Store.Owl.SedAxiomsCorrected |
| lib/owl.js:1126-1131 | `args.splice(i)` on an `arguments` object, which has no `splice`; a string argument has a `length` and is returned whole | `disjointUnion(c, x1, x2)` with operands spread over the arguments (`Terms.VarargsRejectedAsWritten`) | `Array.prototype.slice.call(args, i)`: the arguments from position i on | high, not executed | Terms.DisjointUnionOf | Terms.DisjointUnionOfCorrected |
