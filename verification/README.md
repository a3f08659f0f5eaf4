# The qualification court, in Dafny

The pack under `priv/ggen/ash-manufacture-pack/bin` qualifies a manufacture run with small checker
programs. Each appends findings to a report, and its verdict is that the report is empty. This
project models those programs and proves what an empty report implies about the whole input.
For most of them silence is shown *equivalent* to a readable condition. Where the promise in the
programs' own documentation does not follow from the code, a concrete input shows it and the
condition under which it does follow is proved.

| file | models |
|---|---|
| `Text.dfy` | Python's `join`, `split`, `replace`, `sorted`, the order of strings, and searching for a pattern |
| `Ontology.dfy`, `DriftCheck.dfy`, `DriftTheorems.dfy` | `drift_check.py`: facts, flags, both directions, position |
| `Blocks.dfy`, `Documents.dfy`, `BlockTheorems.dfy` | `drift_check.py`: from the text of the ontology to its graph, and what is printed is what is read |
| `Ocel.dfy`, `Coverage.dfy`, `CoverageTheorems.dfy`, `Structure.dfy`, `Seals.dfy`, `Underscore.dfy`, `Conformance.dfy`, `ConformanceTheorems.dfy` | `conformance.py`; the `result` dictionary is the class `Ocel.Report`, whose list every check appends to |
| `Evidence.dfy`, `EvidenceCheck.dfy`, `EvidenceTheorems.dfy` | `evidence_check.py`: the two scanners, the binding, the range floor |
| `Turtle.dfy`, `ObjectList.dfy` | literals and object lists of the Turtle file, as `citation_check.py` and `drift_check.py` read them |
| `Citation.dfy` | `citation_check.py`: pins, suppression, anchors |
| `Receipt.dfy`, `Provenance.dfy` | `receipt.py`: oracles, standing, manifests, provenance |

Each check is a method with the source's loops, proved to report a finding exactly when a
declarative predicate (`Drifts`, `Violates`, `StructureFinding`, `IsProblem`, ...) says so. Findings
carry the facts, events or steps they are about in place of message texts. The theorems are about
those predicates.

What the code does against what its documentation says:

- `drift_check.py` joins the `--extend` groups before splitting, and the empty join splits into one
  empty name. An extension with the empty name is never missed on a resource that is passed no
  `--extend`, even if its resource does not resolve.
- `drift_check.py` keeps only the last resource step per name, so the argv of an earlier step with
  the same name is judged in neither direction. The same holds of enum steps. Every step is vouched
  for exactly when the repeated ones pass the same values.
- `conformance.py` announces exactly one decision event per plan step; it accepts between one and as
  many decisions as the plan has steps with that key. The two agree if and only if plan keys are
  distinct.
- A ledger file that is there but labels nothing switches the seal and ledger comparison off, so two
  failed runs can be `conformant`. Under a conformant verdict every log is corroborated exactly when
  the ledger labels anything.
- The extension group in `evidence_check.py` lists `ex` before `exs`, and nothing after the group can
  make it try again, so an `.exs` path is cited as the `.ex` path and loses its line range.
- `receipt.py` keeps one exit per check label, so a later step with the same label masks a failure.
- `receipt.py` reads a manifest line by line, so a path with a line break in it is cut short. A
  printed manifest is read back exactly when all its paths are trimmed, not empty and free of line
  breaks.
- The single-valued reader of `drift_check.py` knows no escapes and cuts a value at its first quote.
- The literal reader of `citation_check.py` undoes the printer's escapes for quote and backslash, but
  leaves an escaped line break as backslash and `n`.

## Model

| member | source | states |
|---|---|---|
| DriftTheorems.SilenceIsAgreement | priv/ggen/ash-manufacture-pack/bin/drift_check.py:330-513 | The check is silent if and only if ontology and plan agree: manufactured resources are exactly the declared ones, the attribute, relationship, extension and action values of every resource's argv are exactly its facts (with the one escape of the empty extension name spelled out), enum and action csvs that rearrange the declared values hold them in the order of their code points, support modules are invoked exactly when admitted, every composed task is admitted |
| DriftTheorems.EveryResourceStepAgrees | priv/ggen/ash-manufacture-pack/bin/drift_check.py:314-317 | Under silence every resource step, not only the last of its name, carries exactly the facts of its resource if and only if it passes the same values as the last step of its name and no manufactured resource declares the empty extension name while being passed no `--extend` |
| DriftTheorems.DistinctStepIsLast | priv/ggen/ash-manufacture-pack/bin/drift_check.py:314-317 | Where no two steps of a task share a first argument every step is the last of its name, so the condition is met |
| DriftTheorems.EveryActionCsvSorted | priv/ggen/ash-manufacture-pack/bin/drift_check.py:428-451 | Under silence, with actions declared once each, the action csv of every resource step is in sorted order if and only if it is the csv of the last step of its name and repeats nothing |
| DriftTheorems.EveryEnumStepAgrees | priv/ggen/ash-manufacture-pack/bin/drift_check.py:319-322 | Under silence every enum step carries exactly the declared values of its enum if and only if it has a csv with the values of the last step's csv |
| DriftTheorems.EveryEnumCsvSorted | priv/ggen/ash-manufacture-pack/bin/drift_check.py:481-507 | The same for the sorted order, with the values of every enum declared once |
| DriftTheorems.RepeatedEnumStepEscapes | priv/ggen/ash-manufacture-pack/bin/drift_check.py:319-322 | Two steps for one enum, silence, and a value in the first that no fact backs |
| DriftTheorems.RepeatedStepEscapes | priv/ggen/ash-manufacture-pack/bin/drift_check.py:314-317 | A repeated step that passes something else is not seen: two steps for one resource, silence, and an `--attribute` value in the first that no fact backs |
| DriftTheorems.ExtensionsExact | priv/ggen/ash-manufacture-pack/bin/drift_check.py:355-362 | Under silence the split `--extend` values of a resource equal its declared extensions if and only if it does not declare the empty name while being passed no `--extend` |
| DriftTheorems.EmptyExtensionEscapes | priv/ggen/ash-manufacture-pack/bin/drift_check.py:355-362 | The escape is real: a silent report over an extension with the empty name whose resource does not even resolve |
| DriftTheorems.ActionPosition | priv/ggen/ash-manufacture-pack/bin/drift_check.py:428-451 | Under silence, with actions declared once each, a resource's action csv is the sorted list of its declared actions, each value first differing from the next one at ascending characters, if and only if the csv repeats nothing; the joined reading is the per-group reading |
| DriftTheorems.MisplacedMeaning | priv/ggen/ash-manufacture-pack/bin/drift_check.py:420-425 | A csv is reported as out of order exactly when it holds the declared values, each as often, and some neighbours that differ are not in the order of their code points |
| DriftTheorems.BookActionsInOrder | priv/ggen/ash-manufacture-pack/bin/drift_check.py:446-451 | `create,destroy,read,update` is in order for the actions of the Book resource, the order of their declaration is not |
| DriftTheorems.EnumPosition | priv/ggen/ash-manufacture-pack/bin/drift_check.py:379-425 | The same for the values csv of a declared enum that has a step |
| DriftTheorems.OwnersResolve | priv/ggen/ash-manufacture-pack/bin/drift_check.py:140-146 | Under silence a step manufactures the owner of every attribute and relationship block, and of every extension block with a nonempty name; the owner is a resource block of the ontology, unless some resource block names its module `<UNRESOLVED>` |
| DriftTheorems.AttributesReadBack | priv/ggen/ash-manufacture-pack/bin/drift_check.py:152-168 | Under silence, with colon-free names and types, decoding the `--attribute` values of a resource's step gives exactly the attributes its blocks describe |
| DriftTheorems.RelationshipsReadBack | priv/ggen/ash-manufacture-pack/bin/drift_check.py:170-190 | The same for relationships, which read back with `required` only for `belongs_to` |
| DriftTheorems.CheckRendered | priv/ggen/ash-manufacture-pack/bin/drift_check.py:301-313 | The program from the ontology blocks on: its verdict is true exactly when the projected facts and the plan agree |
| DriftCheck.Check | priv/ggen/ash-manufacture-pack/bin/drift_check.py:301-537 | The report holds a finding if and only if the declarative definition of drift says so; `no_drift` is its emptiness |
| DriftCheck.CompareCsv | priv/ggen/ash-manufacture-pack/bin/drift_check.py:410-425 | The values a csv lacks, and whether it holds the declared values, each as often, out of sorted order |
| DriftCheck.LastByFirstArgument | priv/ggen/ash-manufacture-pack/bin/drift_check.py:314-322 | The dictionary from first argument to argv holds exactly the keys that some step of the task starts with, each with its last argv |
| DriftCheck.GroupActions | priv/ggen/ash-manufacture-pack/bin/drift_check.py:324-326 | The declared actions per resource, in declaration order |
| DriftCheck.IndexEnumFacts | priv/ggen/ash-manufacture-pack/bin/drift_check.py:492 | The values of the last enum support module per name |
| DriftCheck.InValuesAfter | priv/ggen/ash-manufacture-pack/bin/drift_check.py:297-298 | `values_after` returns a value exactly when it directly follows an occurrence of the flag |
| DriftCheck.EnumValuesMeaning | priv/ggen/ash-manufacture-pack/bin/drift_check.py:79-94 | The values of an enum invocation are those whose csv is its second argument, unless that starts with two dashes |
| Text.JoinThenSplitIsSplitEach | priv/ggen/ash-manufacture-pack/bin/drift_check.py:357-358 | For every nonempty list of groups, joining and splitting once reads what splitting each group reads |
| Text.AscendingUnique | priv/ggen/ash-manufacture-pack/bin/drift_check.py:63-76 | The sorted rearrangement of a list is unique, so the expected order of `projected_order` is well defined |
| Text.LessEqIsPrecedes | priv/ggen/ash-manufacture-pack/bin/drift_check.py:76 | The order of `sorted` on strings: equal, a proper prefix, or the smaller character at the first place where they differ |
| Text.SortedByNeighbours | priv/ggen/ash-manufacture-pack/bin/drift_check.py:76 | A list is its own sorted list exactly when neighbours that differ are in that order |
| Text.SearchFindsFirst | priv/ggen/ash-manufacture-pack/bin/drift_check.py:109 | A search finds the first match there is, and one wherever there is one |
| Ontology.ParseOntology | priv/ggen/ash-manufacture-pack/bin/drift_check.py:140-220 | One fact per block in block order, owners resolved to the module of the last resource block of that name, the capability map read last block first |
| Ontology.BlockFacts | priv/ggen/ash-manufacture-pack/bin/drift_check.py:152-218 | The facts of complete blocks, spelled out: the flags with their parts and modifiers in order, the extension name, the support module with its kind and values |
| Ontology.MissingShows | priv/ggen/ash-manufacture-pack/bin/drift_check.py:103-110 | A property that is not there shows in the facts, under its own name |
| Ontology.AdmittedMeaning | priv/ggen/ash-manufacture-pack/bin/drift_check.py:192-194 | A task is admitted as the last capability block that names it says |
| Blocks.Guard | priv/ggen/ash-manufacture-pack/bin/drift_check.py:224-256 | The parse failures are exactly the classes that a line of the text declares, and the list properties it asserts, of which the blocks hold nothing |
| Blocks.CheckText | priv/ggen/ash-manufacture-pack/bin/drift_check.py:97-537 | The program from the text of the ontology on: the graph is the one cut and read from the text, the facts are its projection, and the verdict is true exactly when facts and plan agree |
| Blocks.SilenceIsNotVacuous | priv/ggen/ash-manufacture-pack/bin/drift_check.py:230-250 | Under silence the text has blocks of every class that it declares at the start of a line |
| Blocks.SilenceReadsValues | priv/ggen/ash-manufacture-pack/bin/drift_check.py:237-256 | Under silence values were read of each list property that the text asserts |
| Documents.DocumentRoundTrip | priv/ggen/ash-manufacture-pack/bin/drift_check.py:100-101 | Cutting a printed document gives the subjects of a class, each with its whole body, in document order, whatever prefixes, comments and subjects of other classes stand between |
| BlockTheorems.AttributeRoundTrip | priv/ggen/ash-manufacture-pack/bin/drift_check.py:152-168 | An attribute block printed property after property, with an owner that is not called like a property and literals in which no name starts, is read as it was printed if and only if its name and type hold no quote, backslash or line break |
| BlockTheorems.BodyHolds | priv/ggen/ash-manufacture-pack/bin/drift_check.py:103-151 | A printed body holds each of its properties at the first place its pattern matches, if nothing printed before it can be taken for it |
| BlockTheorems.AttributeRead | priv/ggen/ash-manufacture-pack/bin/drift_check.py:152-168 | Wherever its properties stand in the body, an attribute block is read as it was printed if and only if its name and type hold no quote, backslash or line break |
| BlockTheorems.SupportRead | priv/ggen/ash-manufacture-pack/bin/drift_check.py:197-205 | The same for an enum support block with its list of values |
| BlockTheorems.ResourceRead | priv/ggen/ash-manufacture-pack/bin/drift_check.py:207-212 | The same for a resource block with its list of default actions |
| BlockTheorems.RelationshipRead | priv/ggen/ash-manufacture-pack/bin/drift_check.py:170-190 | A relationship block is read as it was printed if and only if its kind and name are plain |
| BlockTheorems.ExtensionRead | priv/ggen/ash-manufacture-pack/bin/drift_check.py:214-220 | The same for an extension block |
| BlockTheorems.CapabilityRead | priv/ggen/ash-manufacture-pack/bin/drift_check.py:192-194 | A capability block is admitted exactly as it was printed, and names its task if and only if that is plain |
| BlockTheorems.DomainRead | priv/ggen/ash-manufacture-pack/bin/drift_check.py:212 | A printed domain block is a domain of the facts |
| BlockTheorems.RowsOfClasses | priv/ggen/ash-manufacture-pack/bin/drift_check.py:140-220 | Each list of the graph reads the blocks of the class it is named after, row by row |
| BlockTheorems.ComposedIsAdmitted | priv/ggen/ash-manufacture-pack/bin/drift_check.py:509-513 | From the text on: under silence the last capability block of every composed task prints it as admitted |
| BlockTheorems.RelationshipReachesArgv | priv/ggen/ash-manufacture-pack/bin/drift_check.py:170-190 | From the text on: under silence the step of the owner passes the flag of every printed relationship, letter by letter |
| BlockTheorems.ExtensionReachesArgv | priv/ggen/ash-manufacture-pack/bin/drift_check.py:355-362 | The same for extensions with a nonempty name |
| BlockTheorems.SupportReachesArgv | priv/ggen/ash-manufacture-pack/bin/drift_check.py:364-376 | From the text on: under silence a support module is invoked exactly when its generator is admitted |
| BlockTheorems.TextReadsBack | priv/ggen/ash-manufacture-pack/bin/drift_check.py:152-168 | Under silence, when every attribute block is a printed one with plain, colon-free fields, decoding the `--attribute` values of a resource's step gives exactly the attributes the text of the ontology declares of it |
| Ontology.AttributeFlagFaithful | priv/ggen/ash-manufacture-pack/bin/drift_check.py:154-167 | Decoding an attribute flag gives the attribute back if and only if neither name nor type holds a colon |
| Ontology.RelationshipFlagFaithful | priv/ggen/ash-manufacture-pack/bin/drift_check.py:172-189 | Decoding a relationship flag gives the relationship back if and only if kind, name and target are colon-free and `required` is not set outside `belongs_to` |
| Ontology.AttributeFlagCollision | priv/ggen/ash-manufacture-pack/bin/drift_check.py:164-166 | Two different attributes, one with a colon in its type, carry one flag |
| ConformanceTheorems.GuardFlipIsReal | priv/ggen/ash-manufacture-pack/bin/conformance.py:593-607 | A conformant verdict shows a planned step that was composed in run 1, where nothing of its subject was refused, and refused admission in run 2; a module subject's file is on disk |
| ConformanceTheorems.ConformantIsLawful | priv/ggen/ash-manufacture-pack/bin/conformance.py:482-607 | `conformant` holds if and only if setup, both runs and the flip are lawful: every log complete, closed, sealed as applied and, if the ledger labels anything, corroborated with exit 0; every stream covered, admitted, refused, ordered and on disk |
| ConformanceTheorems.CorroboratedIffLabelled | priv/ggen/ash-manufacture-pack/bin/conformance.py:520-521 | Given a conformant verdict, every log is corroborated by the ledger if and only if the ledger labels anything |
| ConformanceTheorems.FailedRunsConform | priv/ggen/ash-manufacture-pack/bin/conformance.py:520-521 | A concrete input with a ledger that labels nothing: the verdict is `conformant` although the seals of both runs carry exit 7 |
| ConformanceTheorems.DecisionsArePlanSteps | priv/ggen/ash-manufacture-pack/bin/conformance.py:324-382 | With pairwise distinct plan keys a conformant verdict gives, in both runs, exactly one decision event for every plan step and exactly one step for every decision event, matched on phase, step and subject, and `decisions` equals the number of plan steps |
| ConformanceTheorems.SummaryMeaning | priv/ggen/ash-manufacture-pack/bin/conformance.py:582-591 | The summary of a run names exactly the tasks it composed and refused and the subjects it refused admission |
| ConformanceTheorems.SealsAndLedgerAgree | priv/ggen/ash-manufacture-pack/bin/conformance.py:504-521 | With a ledger that labels anything, every log of both runs is sealed, every seal is applied with exit 0, and the last ledger record of its label has exit 0 |
| Conformance.Check | priv/ggen/ash-manufacture-pack/bin/conformance.py:408-610 | The report holds exactly the violations of the declarative definition, the verdict is their absence, and each run's summary is the one of its stream |
| Conformance.CheckRun | priv/ggen/ash-manufacture-pack/bin/conformance.py:482-591 | One run adds exactly that run's violations, in the report's own list, and its summary |
| Conformance.CheckOrder | priv/ggen/ash-manufacture-pack/bin/conformance.py:558-576 | One violation is added exactly when a base-phase event follows a core-phase event somewhere in the stream |
| Conformance.CheckAdmission | priv/ggen/ash-manufacture-pack/bin/conformance.py:535-547 | Exactly the composed events whose task is undeclared or not admitted |
| Conformance.CheckRefusals | priv/ggen/ash-manufacture-pack/bin/conformance.py:549-556 | Exactly the capabilities not admitted that no event refuses |
| Conformance.CheckSubjectsOnDisk | priv/ggen/ash-manufacture-pack/bin/conformance.py:385-405 | Exactly the composed module subjects without a file under their name, folded, with `_` where a word starts |
| Conformance.CheckFlip | priv/ggen/ash-manufacture-pack/bin/conformance.py:593-605 | The no-flip violation is added exactly when both runs are there and no subject is refused in run 2 only |
| Ocel.EventReaders | priv/ggen/ash-manufacture-pack/bin/conformance.py:75-106 | The task and subject of an event are the objects of its first `generator` and `subject` relationships, its phase and exit the values of its last attributes of these names |
| Ocel.KeysJoin | priv/ggen/ash-manufacture-pack/bin/conformance.py:324-332 | Events and plan steps are joined on phase, step and subject, and on nothing else |
| Coverage.CheckCoverage | priv/ggen/ash-manufacture-pack/bin/conformance.py:317-382 | Appends exactly the coverage findings, each once |
| CoverageTheorems.SilenceIsCoverage | priv/ggen/ash-manufacture-pack/bin/conformance.py:335-382 | Coverage is silent if and only if planned and decided keys are the same and no key is decided more often than planned |
| CoverageTheorems.SilentSteps | priv/ggen/ash-manufacture-pack/bin/conformance.py:335-382 | Under silence every plan step is decided by some event and every decision event decides some plan step |
| CoverageTheorems.DistinctSteps | priv/ggen/ash-manufacture-pack/bin/conformance.py:330-332 | Plan keys are distinct exactly when no two steps agree in phase, step and subject |
| CoverageTheorems.CoverageBijection | priv/ggen/ash-manufacture-pack/bin/conformance.py:349-373 | With distinct plan keys silence makes the decision keys a rearrangement of the plan keys, each step decided by exactly one event and each decision planned by exactly one step |
| CoverageTheorems.BijectionNeedsDistinctKeys | priv/ggen/ash-manufacture-pack/bin/conformance.py:8-13 | The documented reading, exactly one decision per step, follows from silence for every stream if and only if no two plan steps share a key |
| CoverageTheorems.ReportSize | priv/ggen/ash-manufacture-pack/bin/conformance.py:335-382 | For every plan and stream the size of the report is silent phases + unobserved keys outside them + keys observed more often than planned + keys never planned |
| Structure.CheckStructure | priv/ggen/ash-manufacture-pack/bin/conformance.py:212-270 | Appends exactly the structure findings; reports of duplicate ids plus distinct ids equal the events |
| Structure.SilenceIsClosure | priv/ggen/ash-manufacture-pack/bin/conformance.py:26-29 | There is no structure finding if and only if event ids are unique, all types and referenced objects are declared, and no event repeats an edge |
| Seals.LoadLedger | priv/ggen/ash-manufacture-pack/bin/conformance.py:189-209 | Keeps the last record per label, lists the labels seen before, and labelled records equal distinct labels plus dupes |
| Seals.LabelMeaning | priv/ggen/ash-manufacture-pack/bin/conformance.py:280-282 | A log named task, dot, phase and `.ocel.json` is recorded under `manufacture-`, the phase, and `-run1` or `-run2` |
| Seals.CheckSealLedger | priv/ggen/ash-manufacture-pack/bin/conformance.py:273-314 | Appends exactly the mistyped, uncorroborated and disagreeing seals |
| Seals.CheckLog | priv/ggen/ash-manufacture-pack/bin/conformance.py:488-521 | One log adds exactly its missing keys, structure, seal and ledger faults |
| Seals.LogSilence | priv/ggen/ash-manufacture-pack/bin/conformance.py:494-521 | A log is silent if and only if it is complete, closed, sealed as applied and, where the ledger labels anything, every seal and the ledger's entry of the log have exit 0 |
| Seals.EmptyLedgerSkips | priv/ggen/ash-manufacture-pack/bin/conformance.py:520-521 | With an empty ledger a seal that claims success over a nonzero exit goes unreported |
| Underscore.TwoPassesAreOne | priv/ggen/ash-manufacture-pack/bin/conformance.py:176-186 | The two substitutions give the folded text with `_` before position i exactly when upper, upper, lower surround i or a lowercase letter or digit precedes an uppercase letter at i |
| Underscore.UnderscoreLength | priv/ggen/ash-manufacture-pack/bin/conformance.py:183-186 | The length grows by the number of such boundaries |
| Underscore.LowerMeaning | priv/ggen/ash-manufacture-pack/bin/conformance.py:186 | A capital becomes the small letter of its place in the alphabet, nothing else changes |
| Underscore.FoldMeaning | priv/ggen/ash-manufacture-pack/bin/conformance.py:183-186 | A dot becomes a slash, a dash an underscore, a capital its small letter, and nothing else changes |
| Underscore.UnderscoreOfParts | priv/ggen/ash-manufacture-pack/bin/conformance.py:183 | A dot makes a directory: the parts of a name are folded each on its own |
| Underscore.WordsFold | priv/ggen/ash-manufacture-pack/bin/conformance.py:184-185 | Two capitalised words without anything between them are divided by `_` |
| Underscore.FileOfBook | priv/ggen/ash-manufacture-pack/bin/conformance.py:177-181 | `BookLibrary.Catalog.Book` becomes `book_library/catalog/book` |
| Underscore.UnderscoreIdempotent | priv/ggen/ash-manufacture-pack/bin/conformance.py:183-186 | Applying it twice is applying it once |
| Evidence.References | priv/ggen/ash-manufacture-pack/bin/evidence_check.py:59-84 | The references are, in text order, each path mark and each continuation bound to the latest path before it; exactly the continuations before the first path are dropped; the marks are all paths and all continuations outside them, in disjoint ranges |
| Evidence.FindMarks | priv/ggen/ash-manufacture-pack/bin/evidence_check.py:65-72 | The collected marks are exactly the path matches and the continuation matches that do not start inside one, each once |
| Evidence.Bind | priv/ggen/ash-manufacture-pack/bin/evidence_check.py:76-84 | Carrying the current path along binds every mark from the first path on to its nearest preceding path |
| Evidence.MarksAreDisjoint | priv/ggen/ash-manufacture-pack/bin/evidence_check.py:66-72 | Two different marks of a literal never overlap |
| Evidence.CapturedWhole | priv/ggen/ash-manufacture-pack/bin/evidence_check.py:49 | Anywhere in a literal, a well-formed `deps/` path followed by no further path character is captured whole, with exactly the range right behind it, unless its extension is `exs`; an `.exs` path is read as the `.ex` path of the same name without any range |
| Evidence.CitationRead | priv/ggen/ash-manufacture-pack/bin/evidence_check.py:49 | A path printed with `:first` or `:first-last` behind it is read with these two groups and up to their end, unless its extension is `exs` |
| EvidenceTheorems.PathMarksAreMatches | priv/ggen/ash-manufacture-pack/bin/evidence_check.py:66-67 | The path marks are exactly the matches of the citation pattern that start inside no other mark, none left out |
| EvidenceTheorems.ContMarksAreMatches | priv/ggen/ash-manufacture-pack/bin/evidence_check.py:68-72 | The same for the continuations |
| EvidenceTheorems.ContinuationRead | priv/ggen/ash-manufacture-pack/bin/evidence_check.py:54 | A printed range is read as a continuation with its two groups, except right behind a path character |
| EvidenceTheorems.CitationIsReference | priv/ggen/ash-manufacture-pack/bin/evidence_check.py:59-84 | Every citation printed in a literal and set apart from what precedes it is among the references, however many there are |
| EvidenceTheorems.PathMarkChars | priv/ggen/ash-manufacture-pack/bin/evidence_check.py:49 | A path mark holds path characters and the colon of its range only, so none runs over a blank or a bracket |
| EvidenceTheorems.ContinuationIsReference | priv/ggen/ash-manufacture-pack/bin/evidence_check.py:76-84 | A continuation printed behind a citation, with no other path between the two, is a reference into the same file |
| EvidenceTheorems.NumberOfDecimal | priv/ggen/ash-manufacture-pack/bin/evidence_check.py:125 | Line numbers are read in base ten |
| EvidenceTheorems.JudgeMeaning | priv/ggen/ash-manufacture-pack/bin/evidence_check.py:111-130 | A reference is reported as dangling, as cited whole by an admitted capability, or as out of range with its two numbers, exactly when it is |
| EvidenceTheorems.PrintedCitationsResolve | priv/ggen/ash-manufacture-pack/bin/evidence_check.py:91-139 | When all references resolve, every citation printed in the evidence names a file that has its lines |
| EvidenceTheorems.MissingFileIsReported | priv/ggen/ash-manufacture-pack/bin/evidence_check.py:111-113 | A printed citation of a file that is not there is reported |
| EvidenceCheck.ReferencesUnique | priv/ggen/ash-manufacture-pack/bin/evidence_check.py:59-84 | Those conditions determine the references of a literal: no other list meets them |
| EvidenceCheck.Check | priv/ggen/ash-manufacture-pack/bin/evidence_check.py:91-139 | The problems are exactly those of all references; `all_resolve` holds if and only if every reference names a file, ranged ones have first >= 1 and last <= length, and admitted capabilities cite no file whole |
| Turtle.UnescapeIsTokenwise | priv/ggen/ash-manufacture-pack/bin/citation_check.py:59-68 | On every body the literal pattern accepts, the two sequential replaces do what one left-to-right pass over the escape tokens does |
| Turtle.EscapeIsEach | test/ggen_igniter_ash_action_surface_test.exs:492-497 | The printer's three sequential replaces escape each character on its own |
| Turtle.ScanStops | priv/ggen/ash-manufacture-pack/bin/citation_check.py:65 | A literal is read up to a quote, and what is in front of it holds no quote that no backslash escapes |
| Turtle.ScanFinds | priv/ggen/ash-manufacture-pack/bin/citation_check.py:65 | A body that the pattern accepts is read whole wherever a quote follows it |
| Turtle.LiteralRoundTrip | priv/ggen/ash-manufacture-pack/bin/citation_check.py:68 | Reading a printed literal gives the value back if and only if it holds no line break |
| ObjectList.ScanPrinted | priv/ggen/ash-manufacture-pack/bin/citation_check.py:65 | The literal body of a printed value is consumed exactly up to its real closing quote, whatever follows |
| ObjectList.PropertyRoundTrip | priv/ggen/ash-manufacture-pack/bin/citation_check.py:59-68 | Reading a property printed in a block, behind any text that does not match its pattern, gives its value back if and only if the value holds no line break |
| ObjectList.OneRoundTrip | priv/ggen/ash-manufacture-pack/bin/drift_check.py:103-110 | The drift check's single-valued reader, which knows no escapes, gives a printed value back if and only if it holds no quote, backslash or line break |
| ObjectList.UpToQuoteStops | priv/ggen/ash-manufacture-pack/bin/drift_check.py:109 | The single-valued reader stops in front of the first quote |
| ObjectList.ListStands | priv/ggen/ash-manufacture-pack/bin/drift_check.py:125-128 | A list that is read stands behind its property and white space, starts with a quote, and is a part of the text |
| ObjectList.PrintedListRest | priv/ggen/ash-manufacture-pack/bin/drift_check.py:125-128 | The list pattern consumes a printed list, with any spacing around its commas, exactly up to its terminator |
| ObjectList.ManyRoundTrip | priv/ggen/ash-manufacture-pack/bin/drift_check.py:112-131 | `many` returns every body of a printed list in declaration order, and unescaping gives exactly the values without line breaks back |
| Citation.Check | priv/ggen/ash-manufacture-pack/bin/citation_check.py:124-203 | Skipped are exactly the citations whose dependency drifted, missed exactly those with a held pin and a broken anchor; `all_anchored` holds if and only if every pin holds and every citation's lines are in its file and hold its symbol, in one of them if it has no line break; then nothing is skipped and all are checked |
| Citation.ContainsInLines | priv/ggen/ash-manufacture-pack/bin/citation_check.py:188-189 | A symbol without a line break is in the joined lines exactly when it is in one of them |
| Citation.SymbolAboveTheRange | priv/ggen/ash-manufacture-pack/bin/citation_check.py:188-189 | A symbol that stands only above the cited lines is no anchor |
| Citation.CitationFields | priv/ggen/ash-manufacture-pack/bin/citation_check.py:92-115 | Each property of a citation block goes to the field it is named for, a missing one as a sentinel |
| Citation.CheckPins | priv/ggen/ash-manufacture-pack/bin/citation_check.py:133-153 | Exactly the pin drift there is, and exactly the dependencies it suppresses |
| Citation.CheckAnchors | priv/ggen/ash-manufacture-pack/bin/citation_check.py:155-194 | Misses and skips in citation order; checked + skipped + missing files equal the citations declared |
| Citation.Conservation | priv/ggen/ash-manufacture-pack/bin/citation_check.py:159-194 | Two disjoint classes of citations count up to their union, so every citation falls into exactly one |
| Citation.DefaultEndIsOneLine | priv/ggen/ash-manufacture-pack/bin/citation_check.py:100-103 | Without an end line, or with 0, a citation is in range exactly as the one line it starts on |
| Receipt.SameLaws | priv/ggen/ash-manufacture-pack/bin/receipt.py:40-69 | `same` is symmetric, transitive, reflexive exactly on existing files, and is the `identical` of the three-way comparison |
| Receipt.Judge | priv/ggen/ash-manufacture-pack/bin/receipt.py:138-206 | The failed oracles are exactly those that fail, and are none if and only if IDEMPOTENCY_ALIVE holds |
| Receipt.OracleMeaning | priv/ggen/ash-manufacture-pack/bin/receipt.py:172-195 | Which two artifacts each oracle compares, and when it reports them as different or as not exercised |
| Receipt.CaptureMustBeReal | priv/ggen/ash-manufacture-pack/bin/receipt.py:144-156 | A database capture that was not shown to be real, because the step is missing or did not exit as expected, denies the standing and is reported |
| Receipt.OraclesAgree | priv/ggen/ash-manufacture-pack/bin/receipt.py:172-206 | No oracle fails if and only if the standing holds, for every combination of missing, equal and differing artifacts; then T1 equals T3 and D1 equals D3 |
| Receipt.CleanNeedsDistinctLabels | priv/ggen/ash-manufacture-pack/bin/receipt.py:160-165 | A clean verdict means that every check step exited 0, whatever the exits, if and only if no check label is used twice |
| Receipt.ReadChecks | priv/ggen/ash-manufacture-pack/bin/receipt.py:160-165 | Clean exactly when there is a check step and the last exit kept for every check label is 0 |
| Provenance.ProvenancePartition | priv/ggen/ash-manufacture-pack/bin/receipt.py:242-255 | Unchanged, modified and removed partition the day-zero paths; unchanged, modified and generated partition the final ones; so |T0| + |generated| == |final| + |removed| |
| Provenance.PathFate | priv/ggen/ash-manufacture-pack/bin/receipt.py:242-255 | Where a path is listed, by its hash at day zero and in the end |
| Provenance.ManifestPaths | priv/ggen/ash-manufacture-pack/bin/receipt.py:72-89 | The tree maps exactly the paths that the lines of the text name, each to the hash of its last line; a missing file is an empty tree |
| Provenance.LinesOfText | priv/ggen/ash-manufacture-pack/bin/receipt.py:82 | The kept lines put together again are the text whose line breaks were made universal, so nothing is lost in between |
| Provenance.CarriageReturns | priv/ggen/ash-manufacture-pack/bin/receipt.py:82 | A carriage return is one line break, with a line feed behind it or without |
| Provenance.PartitionMeaning | priv/ggen/ash-manufacture-pack/bin/receipt.py:86 | The first double space divides a line; without one there is no path |
| Provenance.LineRoundTrip | priv/ggen/ash-manufacture-pack/bin/receipt.py:82-88 | The text of a printed manifest line is read back as its path and hash and nothing else if and only if the path is trimmed, not empty and free of line breaks, inner double spaces included |
| Provenance.BrokenPath | priv/ggen/ash-manufacture-pack/bin/receipt.py:82-88 | The manifest line of the path `a`, line break, `b` is read as the path `a` |
| Provenance.ManifestRoundTrip | priv/ggen/ash-manufacture-pack/bin/receipt.py:72-89 | Parsing the text of a printed manifest of distinct paths gives back exactly its entries if and only if every path is trimmed, not empty and free of line breaks |

## Left out

- DriftCheck.Check: states which findings the report holds, not their order or how often one is repeated, because dictionaries are walked in an arbitrary order here.
- Conformance.Check: the same, except that the coverage report is stated to hold each finding once and duplicate event ids are counted.
- EvidenceCheck.Check: the counters `checked` and `bare` are not modelled.
- BlockTheorems.TextReadsBack: both directions from the text on are stated for attributes; for relationships and extensions only from the text to the argv, the other direction from their blocks on (DriftTheorems.RelationshipsReadBack).
- Conformance.CheckSubjectsOnDisk: capital letters are ASCII ones; Unicode capitals and case folding are not modelled.
- Underscore.TwoPassesAreOne: `\d` and `lower` are taken on ASCII.
- The rendered task file is taken as its parsed steps (`parse_rendered`, `parse_plan`), the logs and the ledger as parsed JSON in which the fields the programs index directly are there; a missing one stops the original without a verdict.
- Attribute values of events are strings or integers; other JSON values, and Python's equality of 0, 0.0 and false, are not modelled.
- The sorting of keys for messages, which fails in Python when subjects of different types meet, is not modelled.
- Regular expressions are written as deterministic scanners for the given patterns over ASCII; there is no general matcher.
- File reading, directory listing, JSON output, SHA-256, exit codes and message texts: contents are parameters and digests are opaque.
- `isolate_db.py`: one line-wise substitution, whose properties would be easy ones.
- `parse_admitted`, the capability matrix, toolchain fields, the citation and evidence blocks that are cut out of the text by the other programs, the guard and runtime standings of the receipt: one-branch facts.
- The OCEL summary of the receipt and the choice between the T3 and T2 manifest: plumbing around the parts modelled.
- Domain steps that no ontology domain backs: the drift check does not look for them, so nothing is claimed.
- The Elixir pipeline, the Rust and WASM wrappers and the release scripts are not part of this model.
