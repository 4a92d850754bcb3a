# QxFx0: a verified model of its core logic

QxFx0 is a dialogue engine written in Rust, with evaluation tools in Python. This project models the parts
of it where a mistake would be hard to see: seven components, each as the program has it, with proofs about
every input, every run or every reachable state. `dafny verify dfyconfig.toml` checks all of it.

| files | component |
|---|---|
| `Types`, `Composition`, `CodeGraphs`, `TypeEdges`, `ChainSearch`, `EdgeBuilder` | type-directed code composition: the compatibility test on type terms, the registry graph with its two indexes, the breadth-first search for call chains, the materialised edges, chain scores |
| `Text`, `TypeParser`, `RoundTrip` | the type printer and the heuristic parser that should invert it |
| `Lexicon`, `Loading`, `Morphology`, `Lookups` | the morphology runtime: loading, compact sorted indexes, lookups |
| `Authority` | delegation of permissions: cycle refusal and permission search |
| `RelationScoring`, `FloorMatching` | argument scoring: multiset counts, the greedy matcher, confidence floors |
| `Commitments` | the commitment store: duplicates, quarantine, promotion, lineage |
| `Turns`, `TurnOutcomes` | the turn driver as a transaction: session check, snapshot, roll-back, guard, bounded history |
| `TraceReport`, `TraceOutcomes`, `Latency` | the authority report over trace records; nearest-rank percentiles |
| `Options`, `Arithmetic`, `StableSort`, `KeyOrder` | shared: options, a fact about products, a stable insertion sort with its laws, ordered keys |

What the program changes in place is a class whose methods are proved against a function of the old state
(`AuthorityMap`, `CodeGraph`, `MorphologyRuntime`, `Session`); loops that compute a value are methods with
invariants; what the program computes by matching and recursion is a function with lemmas about it.

Four results are about what the code does *not* do:

- The parser does not invert the printer on all types. `RoundTrip.RoundTripExactly` says exactly on which:
  commas inside tuple items or outside the angle brackets of an argument, a semicolon inside an array
  element, bounds, lifetimes on mutable references, names that read as keywords or parameters are what
  breaks it.
- `quarantine_observation` and `revise` do not look for duplicates. `QuarantineKeepsDistinctIff` and
  `ReviseKeepsDistinctIff` say exactly when they keep claims distinct all the same; `QuarantineMayRepeat` and
  `ReviseMayRepeat` are runs that hold one claim twice, and `QuarantineMayOverfill` says that any 1,025
  quarantines pass the bound.
- The refusal text of a turn says that the state is unchanged (qxfx0-pipeline/src/lib.rs:400), but the
  session id is adopted before the state is validated (lines 1460-1474). `RefusalChangesNothingIff` says
  exactly when the text is right, `RefusedTurnMayAdopt` gives a session for which it is wrong.
- Validation does not compare the governance log with the turn count (qxfx0-types/src/system_state.rs:205-216),
  so a loaded session may pass it and be refused for good once a turn has been recorded.
  `RecordedTurnStaysValidIff` says exactly when, `LogAheadLocksOut` that nothing is accepted afterwards, and
  `ValidSessionLocksItselfOut` gives such a session. `NeverLockedOut` is the converse over runs.

Opaque things are left open: lower-casing is any function, the upper-case test is any that is right on ASCII, stages are any functions of state and context,
digests and JSON values are plain data.

## Model

| member | source | states |
|---|---|---|
| `Composition.ComposesIffPeelFits` | qxfx0-code/src/type_info.rs:383-557 | the recursive compatibility test accepts a pair exactly when the producer, after shedding some outer references, `Option`s, `Result`s or tuple layers, fits what is under the consumer's references; an account with no recursion on the pair itself, in which component types are compared by the test |
| `Composition.ComposesStep` | qxfx0-code/src/type_info.rs:397-557 | against a consumer that is no reference, the test succeeds exactly by a direct fit or by shedding one layer |
| `Composition.ReferencesTransparent` | qxfx0-code/src/type_info.rs:400-413 | references on either side, to any depth, never change the verdict, except that a reference meets a trait literally named "ref" |
| `Composition.BorrowTransparent` | qxfx0-code/src/type_info.rs:407-413 | one reference around the consumer never matters |
| `Composition.DerefTransparent` | qxfx0-code/src/type_info.rs:400-406 | one reference around the producer matters only for a trait named "ref" |
| `Composition.TupleComposes` | qxfx0-code/src/type_info.rs:502-509 | the exact effect of wrapping the producer in a tuple |
| `Composition.OptionComposes` | qxfx0-code/src/type_info.rs:482-490 | the exact effect of wrapping the producer in an `Option` |
| `Composition.ResultComposes` | qxfx0-code/src/type_info.rs:492-500 | the exact effect of making the producer the `Ok` side of a `Result` |
| `Composition.ComposesWhenShed` | qxfx0-code/src/type_info.rs:383-557 | wrapping a composable producer keeps it composable with any consumer, references included |
| `Composition.VerdictMeaning` | qxfx0-code/src/type_info.rs:383-600 | exactly when each of the verdicts is given, by families of rules and their rank, and that confidence is 1 exactly for equal types and at least 0.3 exactly for composable ones |
| `Composition.NoNumericWidening` | qxfx0-code/src/type_info.rs:371-382 | under whatever references, one primitive feeds another exactly if they are the same: no widening |
| `Composition.ParamMatchesAll` | qxfx0-code/src/type_info.rs:359-398 | a type parameter, declared or suggested by an upper-case name of one or two characters, matches everything on either side |
| `Composition.ArgumentsAreNoParam` | qxfx0-code/src/type_info.rs:359-368 | a name with arguments is no parameter, however short: it matches no primitive type except through an `Option` or a `Result` |
| `Composition.BareNamesCompose` | qxfx0-code/src/type_info.rs:415-480 | two different bare names of three or more characters compose only where a standard container turns into another |
| `Composition.SatisfiesByName` | qxfx0-code/src/type_info.rs:530-554 | which trait or trait object a producer satisfies by name, form by form |
| `Composition.TupleSatisfies` | qxfx0-code/src/type_info.rs:502-535 | a tuple satisfies the trait "tuple" and the traits of its items |
| `Composition.ConfidenceOfVerdicts` | qxfx0-code/src/type_info.rs:571-587 | the confidences, and that no two verdicts share one |
| `TypeParser.SplitGenericArgs` | qxfx0-code/src/batch_loader.rs:358-383 | the character loop computes the recursive account of splitting at commas outside angle brackets |
| `RoundTrip.RoundTripExactly` | qxfx0-code/src/batch_loader.rs:242-356 | for every type whose names are identifiers, parsing the printed form gives the type back up to lifetimes if and only if the type is in the readable fragment |
| `RoundTrip.RoundTripIdentity` | qxfx0-code/src/batch_loader.rs:242-356 | the very same type comes back if and only if it is readable and carries no lifetime |
| `RoundTrip.ParsedReadsBackIff` | qxfx0-code/src/batch_loader.rs:242-356 | what the parser returned for any input comes back from its own printed form exactly if it is readable |
| `RoundTrip.DisplayInjective` | qxfx0-code/src/type_info.rs:178-285 | two readable types without lifetimes never print alike |
| `RoundTrip.SplitInvertsJoin` | qxfx0-code/src/batch_loader.rs:358-383 | splitting undoes joining with ", " on bracket-balanced arguments without outer commas, nested to any depth |
| `RoundTrip.SplitLength` | qxfx0-code/src/batch_loader.rs:358-383 | the number of pieces is one more than the number of outer commas |
| `RoundTrip.TupleSplitInvertsJoin` | qxfx0-code/src/batch_loader.rs:294-302 | splitting a tuple body at every comma undoes joining exactly the comma-free items |
| `RoundTrip.DisplayedChars` | qxfx0-code/src/type_info.rs:178-285 | a comma or a semicolon is in the printed form exactly when the structure of the type says so |
| `RoundTrip.DisplayedScan` | qxfx0-code/src/type_info.rs:178-285 | printed forms are bracket-balanced and have an outer comma exactly when the structure says so |
| `RoundTrip.ParsedIsErased` | qxfx0-code/src/batch_loader.rs:242-356 | whatever the input, the parser never returns a lifetime, a function type, a trait or a bound |
| `RoundTrip.NoSemicolonNoArray` | qxfx0-code/src/batch_loader.rs:242-356 | without a semicolon in the text no sized array comes out |
| `RoundTrip.WordsParse` | qxfx0-code/src/batch_loader.rs:242-340 | each of the seventeen words is read as its primitive type, the brackets as the unit type, the underscore and the empty text as unknown |
| `RoundTrip.BareNameParses` | qxfx0-code/src/batch_loader.rs:320-356 | any other identifier is a parameter exactly if it has at most two characters and begins in upper case, and a named type otherwise |
| `RoundTrip.SurroundingsIgnored` | qxfx0-code/src/batch_loader.rs:242-246 | whitespace around a type and punctuation behind it make no difference |
| `RoundTrip.BracketsParse` | qxfx0-code/src/batch_loader.rs:279-292 | square brackets are cut at the first semicolon into element and length, and are a slice without one |
| `RoundTrip.LastCommaDropped` | qxfx0-code/src/batch_loader.rs:358-383 | a comma behind the last argument adds no piece |
| `RoundTrip.PrintedFunction` | qxfx0-code/src/type_info.rs:178-285 | the printed form of a function type |
| `RoundTrip.PrintedBounds` | qxfx0-code/src/type_info.rs:178-285 | the printed forms of bounded parameters and traits |
| `RoundTrip.PrintedTraits` | qxfx0-code/src/type_info.rs:178-285 | the printed forms of trait objects, associated types and lifetimes |
| `Text.ParsePrintedSize` | qxfx0-code/src/batch_loader.rs:283-290 | reading a printed 64-bit array length gives the length back |
| `Text.SizeTexts` | qxfx0-code/src/batch_loader.rs:283-290 | a length may have a plus sign and leading zeros, and must fit 64 bits |
| `Text.NoSizeText` | qxfx0-code/src/batch_loader.rs:283-290 | anything but digits behind an optional plus sign is no length |
| `Text.WhitespaceTable` | qxfx0-code/src/batch_loader.rs:242-243 | the twenty-five characters that trimming removes, by code point |
| `CodeGraphs.CodeGraph.AddAtom` | qxfx0-code/src/code_schema.rs:131-133 | stores the atom under its own id and keeps both indexes equal to the ones rebuilt from the edge list |
| `CodeGraphs.CodeGraph.AddRelation` | qxfx0-code/src/code_schema.rs:135-143 | appends the edge and keeps both indexes equal to the ones rebuilt from the edge list |
| `CodeGraphs.CodeGraph.QueriesAreFilters` | qxfx0-code/src/code_schema.rs:145-157 | in every graph the operations reach, both queries give exactly the matching edges in insertion order |
| `CodeGraphs.LookUpIsFilter` | qxfx0-code/src/code_schema.rs:135-157 | an index rebuilt from the edges answers every lookup with the ordered filter of the edges |
| `CodeGraphs.RebuiltMeans` | qxfx0-code/src/code_schema.rs:135-143 | an index lists under each id exactly the positions of its edges, upwards |
| `CodeGraphs.CodeGraph.Validate` | qxfx0-code/src/code_schema.rs:183-234 | reports every violation that holds of the graph and none that does not, stale indexes included |
| `TypeEdges.FindConsumers` | qxfx0-code/src/type_edges.rs:46-77 | the scan and sort compute the consumer list |
| `TypeEdges.FindProducers` | qxfx0-code/src/type_edges.rs:13-43 | the scan and sort compute the producer list |
| `TypeEdges.ConsumersExact` | qxfx0-code/src/type_edges.rs:46-77 | the consumer list holds exactly the other atoms of the language whose first parameter accepts the output, each once, by falling confidence and then by id |
| `TypeEdges.ProducersConverse` | qxfx0-code/src/type_edges.rs:13-77 | `find_producers` is the converse of `find_consumers`, verdict and confidence included |
| `TypeEdges.ListsReport` | qxfx0-code/src/type_edges.rs:13-77 | what stands in either list, on the fields of the atoms: another atom of the language, the verdict on output and first parameter, and its confidence |
| `TypeEdges.ListsInOrder` | qxfx0-code/src/type_edges.rs:37-76 | the more confident match stands first, and of equally confident ones the lower id |
| `KeyOrder.KeyLeMeans` | qxfx0-code/src/type_edges.rs:37-76 | ids are compared character by character from the front, a prefix being lower |
| `ChainSearch.ComposeChain` | qxfx0-code/src/type_edges.rs:81-148 | the worklist search terminates and returns the level-by-level account, longest first |
| `ChainSearch.ChainsAreWalks` | qxfx0-code/src/type_edges.rs:81-148 | the chains, on the fields of the atoms: all walks without repetition of at most max(1, max_depth) atoms, each once, in the language of the start |
| `ChainSearch.SearchExact` | qxfx0-code/src/type_edges.rs:81-148 | the result holds exactly the simple composing paths from the start up to the bound: none missing, none extra, none twice, in non-increasing length |
| `ChainSearch.LevelExact` | qxfx0-code/src/type_edges.rs:96-132 | what the search meets at depth n is exactly the simple paths with n atoms |
| `ChainSearch.PathKeepsLanguage` | qxfx0-code/src/type_edges.rs:46-77 | every path stays within the language of its start |
| `ChainSearch.DepthSaturates` | qxfx0-code/src/type_edges.rs:81-148 | a bound above the number of atoms finds nothing new |
| `ChainSearch.SortFound` | qxfx0-code/src/type_edges.rs:134-146 | the final stable sort turns search order into longest-first and keeps the order within each length |
| `EdgeBuilder.BuildTypeEdges` | qxfx0-code/src/type_edges.rs:151-186 | appends the built edges, changes no atom and keeps the indexes right |
| `EdgeBuilder.OneEdgePerPair` | qxfx0-code/src/type_edges.rs:151-186 | exactly one composes edge per ordered pair of distinct composing atoms of one language, none for any other pair |
| `EdgeBuilder.BuiltEdgesMean` | qxfx0-code/src/type_edges.rs:151-186 | which edges are built, on the fields of atoms and edge, with the note of verdict and language |
| `EdgeBuilder.BuiltInOrder` | qxfx0-code/src/type_edges.rs:151-186 | the edges come producer by producer in the order of their ids |
| `EdgeBuilder.EdgesStayInside` | qxfx0-code/src/type_edges.rs:151-186 | every built edge joins registered, composing atoms |
| `EdgeBuilder.ScoreChain` | qxfx0-code/src/type_edges.rs:189-208 | the loop computes the average confidence of the steps |
| `EdgeBuilder.ScoreOfFoundChain` | qxfx0-code/src/type_edges.rs:189-208 | every chain the search returns scores between 0.3 and 1, and 1 exactly when each step passes on the very same type |
| `EdgeBuilder.ScoreAverages` | qxfx0-code/src/type_edges.rs:189-208 | a single atom scores one; each further step moves the average by its own confidence, or by nothing when an atom or a type is missing |
| `Loading.LoadExact` | qxfx0-morphology/src/runtime.rs:211-233 | loading succeeds exactly when no lemma is empty and entries with one lower-cased lemma are equal, and then keeps each entry once |
| `Loading.LoadForgetsOrder` | qxfx0-morphology/src/runtime.rs:211-273 | any rearrangement of the input succeeds or fails alike and keeps the same lexemes |
| `Loading.LoadErrorMeans` | qxfx0-morphology/src/runtime.rs:211-233 | a failed load names the offence of its first offending entry |
| `Loading.HeadIsBest` | qxfx0-morphology/src/runtime.rs:275-295 | the candidates tied with the head of a sorted row are exactly those of the best lexemes |
| `Lexicon.CorrectAnswerExists` | qxfx0-morphology/src/runtime.rs:398-435 | the scan of all forms of all lexemes always admits an answer |
| `Lexicon.CorrectAnswerUnique` | qxfx0-morphology/src/runtime.rs:398-435 | that answer is the only one, up to the order of ambiguous candidates |
| `Lexicon.AnswerForgetsOrder` | qxfx0-morphology/src/runtime.rs:398-435 | an answer correct for a lexicon is correct for every rearrangement of it |
| `Morphology.MorphologyRuntime.BuildIndexes` | qxfx0-morphology/src/runtime.rs:211-297 | the one-pass build fails exactly as the duplicate rule says, and otherwise leaves the loaded lexemes, their lemma tables and sorted rows |
| `Morphology.MorphologyRuntime.EntryFor` | qxfx0-morphology/src/runtime.rs:444-448 | both map accesses behind a compact candidate succeed and yield its lexeme |
| `Morphology.MorphologyRuntime.Lemmatize` | qxfx0-morphology/src/runtime.rs:398-435 | the index gives the brute-force answer: unknown if no form matches, resolved to the one lexeme of maximal trust and quality in its first matching form, otherwise ambiguous between all matches |
| `Morphology.MorphologyRuntime.ResolveSurface` | qxfx0-morphology/src/runtime.rs:314-345 | the same three-way decision and the same lexeme as `Lemmatize` |
| `Morphology.MorphologyRuntime.ContestedSurfaces` | qxfx0-morphology/src/runtime.rs:355-375 | the counted surfaces are exactly those with two different best lexemes |
| `Morphology.MorphologyRuntime.ContestedAreAmbiguous` | qxfx0-morphology/src/runtime.rs:355-435 | a surface is among the counted ones exactly when `Lemmatize` answers ambiguous |
| `Morphology.RowDecides` | qxfx0-morphology/src/runtime.rs:398-435 | what a sorted row decides agrees with the scan: emptiness, contest, candidates, head |
| `Morphology.LoadOrderIrrelevant` | qxfx0-morphology/src/runtime.rs:211-297 | runtimes built from two arrangements of one list resolve every surface alike, or offer the same candidates |
| `Lookups.ResolvedMeans` | qxfx0-morphology/src/runtime.rs:237-435 | a resolved surface is, in source order, the first of the twelve fields that shows it, with that field's case and number, of a lexeme that outranks every other one showing it |
| `Lookups.UnknownMeans` | qxfx0-morphology/src/runtime.rs:398-403 | a surface is unknown exactly when no field of any lexeme shows it |
| `Lookups.AmbiguousMeans` | qxfx0-morphology/src/runtime.rs:404-435 | a surface is ambiguous exactly when two different lexemes are unbeaten, and the candidates are then all fields that show it |
| `Lookups.CountMeans` | qxfx0-morphology/src/runtime.rs:355-375 | the count is that of the surfaces with two unbeaten lexemes |
| `Lookups.MoreTrustedWins` | qxfx0-morphology/src/runtime.rs:275-295 | a lexeme in a more trusted tier is the answer whatever the qualities: curated, reviewed, verified, coverage |
| `Authority.AuthorityMap.Delegate` | qxfx0-governance/src/lib.rs:41-68 | refuses exactly self-delegations and cycles leaving the list as it was, otherwise appends the requested entry, and then exactly the delegate and those it reaches gain exactly the granted permissions and what the delegator held |
| `Authority.AuthorityMap.WouldCreateCycle` | qxfx0-governance/src/lib.rs:71-89 | on any list, cyclic or not, the search terminates and finds the delegator exactly when it is reachable from the delegate |
| `Authority.AuthorityMap.HasPermission` | qxfx0-governance/src/lib.rs:97-116 | on any list the search terminates and grants exactly what some entry for the principal or an ancestor of it grants |
| `Authority.GrantEffect` | qxfx0-governance/src/lib.rs:41-68 | a grant changes permissions exactly for the delegate and those it reaches, by the granted permissions and what the delegator held |
| `Authority.StepEffect` | qxfx0-governance/src/lib.rs:41-68 | what one step of any run does to every permission |
| `Authority.RefusedExactlyWhenCyclic` | qxfx0-governance/src/lib.rs:47-55 | the refused delegations are exactly the ones that would close a cycle |
| `Authority.RunStaysAcyclic` | qxfx0-governance/src/lib.rs:41-68 | every sequence of calls keeps an acyclic map acyclic |
| `Authority.NoCycleInAnyRun` | qxfx0-governance/src/lib.rs:41-89 | in every map reached from the empty one, no walk of any length returns to its start |
| `Authority.RunKeepsPermissions` | qxfx0-governance/src/lib.rs:41-68 | no sequence of calls takes a permission away |
| `Authority.NoEscalation` | qxfx0-governance/src/lib.rs:41-116 | an accepted delegation changes nothing for the delegator and those above it |
| `RelationScoring.MatchCase` | tools/user_argument_evaluation.py:708-839 | the greedy matcher adds exactly the true positives to "correct" and the false positives to "incorrect", kind by kind, in any order of predictions, and fills each bucket with as many outcomes as there are predictions in its range |
| `RelationScoring.OneMorePrediction` | tools/user_argument_evaluation.py:824-839 | a prediction hits exactly when gold has more of its signature than the predictions before it, and the multiset counts move accordingly |
| `RelationScoring.ScoreConserves` | tools/user_argument_evaluation.py:788-800 | per kind, hits and misses make up the gold relations, hits and surplus the predicted ones |
| `RelationScoring.ScoreForgetsOrder` | tools/user_argument_evaluation.py:788-800 | the counts do not depend on the order of predictions |
| `RelationScoring.Evaluate` | tools/user_argument_evaluation.py:724-839 | over all cases the calibration table agrees with the multiset counts, which account for every gold and every predicted relation, and each bucket holds the predictions of its range |
| `RelationScoring.SignaturesIgnoreIds` | tools/user_argument_evaluation.py:663-680 | renaming the node ids of a case without merging any, in nodes and relations, leaves its whole list of relation signatures as it was |
| `RelationScoring.SignaturesAgreeIff` | tools/user_argument_evaluation.py:663-680 | two relations have one signature exactly when their kinds agree and both their sources and their targets say the same |
| `RelationScoring.SinglePrediction` | tools/user_argument_evaluation.py:788-800 | a single prediction is a true positive exactly when it matches a gold relation in that sense |
| `RelationScoring.TotalsMean` | tools/user_argument_evaluation.py:788-800 | the totals are those of the gold and of the predicted relations of each kind |
| `RelationScoring.OneMoreCase` | tools/user_argument_evaluation.py:754-800 | each case adds the score of its own predicted against its own gold relations |
| `RelationScoring.RatioOfPart` | tools/user_argument_evaluation.py:719-721 | a share of a whole is undefined only for an empty whole, at most 10,000, and 10,000 only for all of it |
| `RelationScoring.RatioRoundsDown` | tools/user_argument_evaluation.py:719-721 | ratios are rounded down |
| `RelationScoring.MetricsPerfect` | tools/user_argument_evaluation.py:867-884 | precision is 10,000 exactly without false positives, recall exactly without false negatives |
| `FloorMatching.ConfidenceFloorMisses` | tools/user_argument_evaluation.py:682-705 | the grouping loops count the misses of the pairing under every shared signature |
| `FloorMatching.NoMissIffTopCoverable` | tools/user_argument_evaluation.py:697-705 | under one signature there is no miss exactly when the floors that take part can be given distinct predictions that meet them |
| `FloorMatching.NoMissesIffAllTopCoverable` | tools/user_argument_evaluation.py:682-705 | for any input, the whole count is zero exactly when, under every shared signature, the floors that take part can be matched injectively |
| `FloorMatching.NoMissesIffAllCoverable` | tools/user_argument_evaluation.py:682-705 | with enough predictions, the whole count is zero exactly when every gold floor can be matched injectively under every shared signature |
| `FloorMatching.SortedPairingSuffices` | tools/user_argument_evaluation.py:698-704 | the exchange argument: if any assignment meets the floors, pairing both lists from the top does |
| `FloorMatching.MissesForgetOrder` | tools/user_argument_evaluation.py:682-705 | the count never depends on the order of either input |
| `FloorMatching.MissesMean` | tools/user_argument_evaluation.py:697-705 | the misses are the positions at which the predictions, highest first, are below the floors, highest first |
| `FloorMatching.ValuesMean` | tools/user_argument_evaluation.py:691-696 | a value is listed under a signature as often as an item has both |
| `Commitments.PromoteMatchingQuarantine` | qxfx0-commitment/src/lib.rs:273-296 | the loop moves exactly the entries of the topic, with their turn and lineage |
| `Commitments.EveryRunIsSound` | qxfx0-commitment/src/lib.rs:27-161 | after any sequence of all operations from the empty store: active and quarantined ids are disjoint and together are exactly the issued ids, lineages belong to the active ones, and end in the entry's turn |
| `Commitments.RunKeepsSound` | qxfx0-commitment/src/lib.rs:27-161 | the same from any sound store, and no id, held claim or lineage entry is ever lost |
| `Commitments.DuplicateMeansEqualClaim` | qxfx0-commitment/src/lib.rs:27-106 | the id-collision branch is unreachable: `Duplicate` always names an entry with the same claim, `New` a fresh id |
| `Commitments.GuardedRunKeepsDistinct` | qxfx0-commitment/src/lib.rs:27-106 | runs of commit, commit_observation and promotion keep at most 1,024 entries with pairwise distinct claims |
| `Commitments.PromotionConserves` | qxfx0-commitment/src/lib.rs:273-296 | promotion leaves every id its payload, and nothing of the topic in quarantine |
| `Commitments.QuarantineKeepsDistinctIff` | qxfx0-commitment/src/lib.rs:109-120 | exactly when the unchecked quarantine keeps claims distinct and the store within bounds |
| `Commitments.ReviseKeepsDistinctIff` | qxfx0-commitment/src/lib.rs:124-143 | exactly when the unchecked revision keeps claims distinct |
| `Commitments.QuarantineMayRepeat` | qxfx0-commitment/src/lib.rs:109-120 | quarantining any claim twice from the empty store holds it twice |
| `Commitments.ReviseMayRepeat` | qxfx0-commitment/src/lib.rs:124-143 | committing two claims and revising the second to the first holds the first twice |
| `Commitments.QuarantineMayOverfill` | qxfx0-commitment/src/lib.rs:109-120 | a run of quarantines from the empty store stays within 1,024 entries exactly if it is no longer than that |
| `Commitments.CommittedIsRecognised` | qxfx0-commitment/src/lib.rs:27-106 | a committed claim is recognised in any spelling with the same key, and the store stays as it is |
| `Commitments.SameKeyIff` | qxfx0-commitment/src/lib.rs:81-106 | two claims are the same exactly when their topics and their words, however spread, are lowered alike |
| `Commitments.CommitEffect` | qxfx0-commitment/src/lib.rs:27-106 | an equal claim is found active first and lowest id first, then room is demanded, then a free id; otherwise the claim becomes active, with its turn and lineage |
| `Commitments.OtherEffects` | qxfx0-commitment/src/lib.rs:109-161 | what quarantining, revising and contradicting change, and that they change nothing else |
| `Commitments.PromoteEffect` | qxfx0-commitment/src/lib.rs:273-296 | promotion moves the quarantined claims on exactly that topic and nothing else |
| `Turns.Session.ProcessTurn` | qxfx0-pipeline/src/lib.rs:1433-1821 | the in-place turn, with stages that fail half-way and are rolled back, refines the turn as a function |
| `Turns.Session.Conclude` | qxfx0-pipeline/src/lib.rs:1721-1801 | persisting and bookkeeping in place, from any state the stages leave |
| `Turns.TurnIsATransaction` | qxfx0-pipeline/src/lib.rs:1454-1801 | a refused or failing turn changes nothing but a missing session id; any other advances count, history and log by one and keeps the semantic and the conversation state when blocked |
| `Turns.StagesKeepBooks` | qxfx0-pipeline/src/lib.rs:1513-1716 | no stage sequence touches session id, count, history or log |
| `Turns.RefusalChangesNothingIff` | qxfx0-pipeline/src/lib.rs:1454-1474 | exactly when the refusal text is right that nothing changed |
| `Turns.RefusedTurnMayAdopt` | qxfx0-pipeline/src/lib.rs:1460-1474 | a session whose id is changed by a turn it refuses |
| `Turns.HistoryExact` | qxfx0-pipeline/src/lib.rs:1761-1768 | over every run the history is the last 10,000 of what was there and every response recorded since, and the count is exact |
| `Turns.FreshHistory` | qxfx0-pipeline/src/lib.rs:1761-1768 | from a new session, history is exactly the last min(count, 10,000) recorded responses |
| `Turns.SessionIdExact` | qxfx0-pipeline/src/lib.rs:1454-1464 | over every run the session id never changes once set, and is the first acceptable one offered |
| `Turns.FreshRunStaysInStep` | qxfx0-pipeline/src/stages.rs:819-857 | over every run of a new session the governance log numbers the turns of the history one by one, marks refusals as refusals and passes its replay check |
| `Turns.RunStaysInStep` | qxfx0-pipeline/src/stages.rs:819-857 | the same from any session in which log and history are in step |
| `Turns.RecordedTurnStaysValidIff` | qxfx0-types/src/system_state.rs:197-292 | with orderly stages, a recorded turn of a valid session leaves it valid exactly if its log was not ahead of its count |
| `Turns.LogAheadLocksOut` | qxfx0-pipeline/src/lib.rs:1460-1474 | a valid session whose log is ahead refuses every input once a turn has been recorded |
| `Turns.ValidSessionLocksItselfOut` | qxfx0-pipeline/src/lib.rs:1460-1474 | a session that passes validation, records one turn and is refused from then on |
| `Turns.NeverLockedOut` | qxfx0-types/src/system_state.rs:197-292 | after any run of orderly turns, from a new session or from any valid one whose log is not ahead, a turn is refused exactly for an unacceptable or foreign id |
| `Turns.AdjustKeepsBounds` | qxfx0-pipeline/src/lib.rs:1772-1801 | the field adjustments never leave the bounds that validation demands |
| `TurnOutcomes.RefusalMeans` | qxfx0-pipeline/src/lib.rs:1454-1474 | when a turn is refused, in characters and bounds, and what it answers |
| `TurnOutcomes.FaultMeans` | qxfx0-pipeline/src/lib.rs:1513-1660 | which fault answers with what had been learnt by then, stage by stage, leaving the state as it was |
| `TurnOutcomes.BlockedMeans` | qxfx0-pipeline/src/stages.rs:688-806 | a turn is blocked for the first of four reasons; its answer and the whole state it leaves |
| `TurnOutcomes.AcceptedMeans` | qxfx0-pipeline/src/lib.rs:1685-1821 | any other turn is accepted unless grounding fails; its answer and the whole state it leaves |
| `TurnOutcomes.AdjustMeans` | qxfx0-pipeline/src/lib.rs:1772-1801 | known topics raise confidence, resonance and valence, unknown ones the counterfactual, lowering valence; each by its step up to its bound |
| `TraceReport.AuthorityReport` | qxfx0-cli/src/lib.rs:462-700 | reading artifact by artifact and stopping at the first error is the fold over all lines; a report without turns is an error |
| `TraceReport.FoldBalances` | qxfx0-cli/src/lib.rs:544-655 | in every report turns are outcomes plus denials, rollbacks are expected plus unexpected ones, denials are rollbacks |
| `TraceReport.CountersExact` | qxfx0-cli/src/lib.rs:515-660 | every counter is the number of records in scope that have what it counts, read off the records alone |
| `TraceReport.CasesExact` | qxfx0-cli/src/lib.rs:524-543 | the case ids are those of the labelled records in scope, one each, and the input classes are tallied over the same records |
| `TraceReport.FailClosedVouches` | qxfx0-cli/src/lib.rs:570-695 | a fail-closed success means every turn was compositional or audited verbatim, with no denial, rollback, guard block or replay failure |
| `TraceReport.FailClosedExact` | qxfx0-cli/src/lib.rs:570-695 | a fail-closed report succeeds exactly when the open one does and every record in scope meets the release conditions, and is then the same report |
| `TraceReport.ScopesAdd` | qxfx0-cli/src/lib.rs:516-523 | for labelled records, the positive and the negative report sum to the whole one, counter by counter |
| `TraceOutcomes.AbsorbedIff` | qxfx0-cli/src/lib.rs:482-695 | exactly which records are counted: what digests, labels, receipt, outcome, steps and, failing closed, release conditions they must have |
| `TraceOutcomes.RefusedForOffence` | qxfx0-cli/src/lib.rs:482-695 | every error names something that is wrong with the record |
| `TraceOutcomes.ScopeMeans` | qxfx0-cli/src/lib.rs:515-523 | which expected results put a record in which scope |
| `TraceOutcomes.TurnWeights` | qxfx0-cli/src/lib.rs:617-645 | under which outcome a record counts |
| `TraceOutcomes.FailureWeights` | qxfx0-cli/src/lib.rs:557-660 | which records count as replay failures, guard blocks, rollbacks and denials |
| `TraceOutcomes.LabelWeights` | qxfx0-cli/src/lib.rs:512-630 | which records count as positive, negative and failing their expectation |
| `Latency.FromSamples` | qxfx0-cli/src/measurement.rs:23-36 | sorts the samples in place and reads the distribution off them |
| `Latency.NearestRankExact` | qxfx0-cli/src/measurement.rs:261-264 | the nearest rank is in bounds and is the least sample that the given percentage of samples do not exceed |
| `Latency.SummaryExact` | qxfx0-cli/src/measurement.rs:23-36 | true extremes and percentiles of the samples as handed in, with min <= p50 <= p95 <= max and min <= mean <= max |
| `Latency.MeanExact` | qxfx0-cli/src/measurement.rs:23-36 | the mean is the sum of the samples as handed in over their number, rounded down |
| `Latency.SummaryForgetsOrder` | qxfx0-cli/src/measurement.rs:23-36 | the whole distribution is the same for any arrangement of the samples |

## Left out

- Which characters beyond ASCII are upper case: the model holds for any such classification, so it does not say which.
- `RoundTrip.RoundTripExactly`: speaks of types whose bases, parameters and lifetimes are identifiers or paths, as in source code; names that contain brackets, quotes or spaces are not covered.
- `TypeParser.ParseRustType`: `parse_python_type`, `parse_signature` and `infer_self_type` are field-by-field heuristics without an inverse.
- `EdgeBuilder.ScoreOfFoundChain`: confidences are real numbers, so rounding in the average is not modelled.
- `Morphology.MorphologyRuntime.ContestedAreAmbiguous`: needs lower-casing to be idempotent on the surface; qualities are real numbers, so NaN is not modelled.
- `Morphology.MorphologyRuntime.BuildIndexes`: error texts, manifest and hash validation and `stats` are not modelled.
- `Commitments.EveryRunIsSound`: ids are unbounded, so overflow of the id counter is not modelled; `retrieve` and `detect_engagement` are substring heuristics.
- `Commitments.PromoteMatchingQuarantine`: the store is a value, as in the source, where every operation returns a new store.
- `RelationScoring.Evaluate`: node counts use the same multiset counts as relations and are not repeated; dispositions, omissions, digests and privacy checks are independent counters.
- `RelationScoring.MatchCase`: inputs are validated cases, so both ends of a relation are nodes of its case.
- `Turns.TurnIsATransaction`: stages are assumed not to touch session id, count, history, last move and log; in the source only the persist stage does, and that one is modelled in full.
- `Turns.Session.ProcessTurn`: tracing, timings, shadow observers, renderer authority and the two output fields computed from the semantic state are not modelled; a grounding error that the source ignores counts as a grounding step that succeeded.
- `Turns.AdjustKeepsBounds`: the field is made of real numbers, so rounding and non-finite values are not modelled.
- `Turns.NeverLockedOut`: the validity of the rest of the semantic state is an arbitrary predicate that orderly stages keep.
- `TraceReport.AuthorityReport`: line numbers in error texts, and reading and decoding of files; a record is what decoding yields.
- `TraceReport.ScopesAdd`: speaks of the folds; a partial report without turns is itself an error.
- `Latency.FromSamples`: samples are unbounded integers; the product of percentile and count and the 64-bit mean do not overflow for the at most 10,000 samples taken.
- `CodeGraphs.CodeGraph.Validate`: violations are values instead of texts; documentation, tags and complexity of atoms are not modelled.
- Finding atoms by name or tag, cross-language mappings and relation queries by type: plain filters.
- SQLite storage, the command line, JSON, hashing, clocks and the network.
- The static registries, templates, keyword tables and inflection tables: data.
- The conversation state machine's transition table: finite, settled by cases.
- The intent parser and the code renderer: substring scoring and formatting.
