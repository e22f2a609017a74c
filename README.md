# KSP service annotation processor — a Dafny model

This project models `KSPServiceProcessor`, the Kotlin Symbol Processing (KSP) processor of
KSPServiceAnnotation. For each class annotated `@Service(SomeService::class, ...)` it
records the class as a provider of each named service. At the end of every round it writes a
provider-configuration file `META-INF/services/<service binary name>` in the format that
`java.util.ServiceLoader` reads. It hands back the declarations that name types the compiler
has not resolved yet, so the host can retry them in a later round.

The model follows the processor's structure:

| module (file) | what it holds |
|---|---|
| `Strings` (strings.dfy) | `joinToString`, `split` on one character and `removePrefix`, with split/join round trips |
| `Symbols` (symbols.dfy) | the slice of the compiler's symbol model the processor reads, as input values, and the kinds of diagnostics |
| `Options` (options.dfy) | the three processor options and Kotlin's `String?.toBoolean()` |
| `BinaryNames` (binary_names.dfy) | `toBinaryName`/`toClassName` and KotlinPoet's `reflectionName()` (binary names as in section 13.1 of the Java Language Specification) |
| `Validation` (validation.dfy) | `failsServiceValidation` as written |
| `Manifest` (manifest.dfy) | the text and dependencies of one manifest, plus a reader that parses a manifest the way `ServiceLoader` does |
| `Aggregation` (aggregation.dfy) | the two process-lifetime maps `services` and `serviceFiles`, with their insertion order |
| `Pipeline` (pipeline.dfy) | one round as pure functions of the state before it: the reference definition |
| `RoundProperties` (round_properties.dfy) | what a round does: defer rules, recording, manifest writing, clearing |
| `Coverage` (coverage.dfy) | which class ends up in which manifest over a whole round with verification off |
| `Processor` (processor.dfy) | `class ServiceProcessor`: the processor object, whose methods run the Kotlin loops in place and are proved to end in the state the `Pipeline` functions compute |

Both Kotlin collections keep insertion order (`LinkedHashMap`, `LinkedHashSet`), and the
manifests follow that order. So a set of implementors is a duplicate-free sequence, and the
map's key order is a sequence kept next to the map.

The model follows the code in three places where a prose description of the processor could
read differently:
- With `kspservice.verify` on, `failsServiceValidation` never returns `VALID`. Line 225
  evaluates `ValidationResult.VALID` and discards it, so the answer is `DEFERRED` when some
  supertype is an error type and `INVALID` otherwise (`Validation.VerifyNeverAccepts`).
- A flag is on when its value equals "true" with case ignored, because that is what Kotlin's
  `toBoolean()` does. So "TRUE" and "True" also switch it on.
- Manifest lines are in insertion order, not sorted.

## Model

| member | source | states |
|---|---|---|
| Strings.RemovePrefix | src/main/kotlin/ca/solostudios/kspservice/processor/KSPServiceProcessor.kt:241 | when the prefix is there, prefix + result is the input; otherwise the input comes back unchanged |
| Strings.SplitFree | src/main/kotlin/ca/solostudios/kspservice/processor/KSPServiceProcessor.kt:243 | a string without the separator splits into exactly one piece, itself |
| Strings.SplitAppend | src/main/kotlin/ca/solostudios/kspservice/processor/KSPServiceProcessor.kt:243 | the pieces of `a + sep + b` are the pieces of `a` followed by the pieces of `b` |
| Strings.SplitJoin | src/main/kotlin/ca/solostudios/kspservice/processor/KSPServiceProcessor.kt:243-244 | `Split` (Kotlin `split` on one character) undoes `Join` (`joinToString`) on the same separator: the parts come back whenever no part contains the separator |
| Strings.JoinEndsWithLast | src/main/kotlin/ca/solostudios/kspservice/processor/KSPServiceProcessor.kt:194 | `Join` of a non-empty list ends with its last part, so there is no trailing separator |
| Strings.JoinFree | src/main/kotlin/ca/solostudios/kspservice/processor/KSPServiceProcessor.kt:194 | joining parts and a separator that all lack a character gives a string that lacks it |
| Options.ToBoolean | src/main/kotlin/ca/solostudios/kspservice/processor/KSPServiceProcessor.kt:26-28 | a flag can only be true for a present four-character value (the exact set of values is in `Options.ToBooleanSpellings`) |
| Options.ToBooleanSpellings | src/main/kotlin/ca/solostudios/kspservice/processor/KSPServiceProcessor.kt:26-28 | a value reads as true exactly when it is present and is one of the sixteen letter-case spellings of "true" |
| Options.OptionSpelled | src/main/kotlin/ca/solostudios/kspservice/processor/KSPServiceProcessor.kt:26-28 | an option read with `toBoolean()` is on exactly when it is given and is a spelling of "true" |
| Options.OptionsSpelled | src/main/kotlin/ca/solostudios/kspservice/processor/KSPServiceProcessor.kt:26-28 | `ConfigOf`: verify and verbose are on exactly when their option is a spelling of "true"; the banner is off exactly when `kspservice.comment` is given and is not one |
| Options.Defaults | src/main/kotlin/ca/solostudios/kspservice/processor/KSPServiceProcessor.kt:26-28 | with no options, verify is off, the banner is on and verbose logging is off |
| Options.FlagsFollowOptions | src/main/kotlin/ca/solostudios/kspservice/processor/KSPServiceProcessor.kt:26-28 | `ConfigOf`: each flag follows its own option through `toBoolean()`; the banner is off exactly when `kspservice.comment` is set to something that does not read as true |
| Options.ToBooleanExamples | src/main/kotlin/ca/solostudios/kspservice/processor/KSPServiceProcessor.kt:26-28 | "true" in any case is true; "false", "yes", "1", "" and an absent value are false |
| BinaryNames.BinaryName | src/main/kotlin/ca/solostudios/kspservice/processor/KSPServiceProcessor.kt:233-245 | there is no binary name exactly for a local or anonymous class; for such a class `require` throws |
| BinaryNames.BinaryNameOfNested | src/main/kotlin/ca/solostudios/kspservice/processor/KSPServiceProcessor.kt:233-245 | `BinaryName`, through `ReflectionName`: for a class named package + nesting path, the binary name is the package, a dot unless the package is empty, and the path joined by `$` |
| BinaryNames.JoinHead | src/main/kotlin/ca/solostudios/kspservice/processor/KSPServiceProcessor.kt:241 | a path of non-empty names starts with its first name's first character, so a default-package name has no leading dot to strip |
| BinaryNames.NestedOnce | src/test/kotlin/ca/solostudios/kspservice/processor/ServiceSymbolProcessorTest.kt:386 | `pkg.Outer.Inner` has the binary name `pkg.Outer$Inner`, the shape of `test.Enclosing$NestedSomeServiceProvider` |
| BinaryNames.DefaultPackage | src/main/kotlin/ca/solostudios/kspservice/processor/KSPServiceProcessor.kt:240-244 | a top-level class in the default package keeps its simple name, with no leading dot |
| Validation.TrustModeAcceptsAll | src/main/kotlin/ca/solostudios/kspservice/processor/KSPServiceProcessor.kt:218-220 | `Validate` with verify off: every pair is valid, whatever the supertypes are |
| Validation.VerifyNeverAccepts | src/main/kotlin/ca/solostudios/kspservice/processor/KSPServiceProcessor.kt:218-231 | `Validate` with verify on: no pair is valid; the result is deferred exactly when some supertype is an error type, and invalid exactly when all are resolved |
| Manifest.Hashes | src/main/kotlin/ca/solostudios/kspservice/processor/KSPServiceProcessor.kt:189-196 | the rule has the requested length and holds only `#` |
| Manifest.PathOf | src/main/kotlin/ca/solostudios/kspservice/processor/KSPServiceProcessor.kt:166 | the resource path is `META-INF/services/` followed by the service's binary name |
| Manifest.SourcesOf | src/main/kotlin/ca/solostudios/kspservice/processor/KSPServiceProcessor.kt:172 | the dependency files are exactly the recorded files of the implementors that have one; there is one per implementor when all have one |
| Manifest.StripCommentKeeps | src/main/kotlin/ca/solostudios/kspservice/processor/KSPServiceProcessor.kt:194 | a line without `#` has no comment to strip (the reader's side of the format) |
| Manifest.EntryOfName | src/main/kotlin/ca/solostudios/kspservice/processor/KSPServiceProcessor.kt:194 | a binary-name line reads back as that name |
| Manifest.EntriesAppend | src/main/kotlin/ca/solostudios/kspservice/processor/KSPServiceProcessor.kt:186-196 | the names declared by two blocks of lines are those of the first block, then those of the second |
| Manifest.EntriesOfNames | src/main/kotlin/ca/solostudios/kspservice/processor/KSPServiceProcessor.kt:194 | lines that are binary names declare exactly those names, in order |
| Manifest.RuleLine | src/main/kotlin/ca/solostudios/kspservice/processor/KSPServiceProcessor.kt:189 | the rule is 51 `#` characters, one line, which the reader ignores |
| Manifest.TitleLine | src/main/kotlin/ca/solostudios/kspservice/processor/KSPServiceProcessor.kt:190 | the title is one line, which the reader ignores |
| Manifest.BodyLines | src/main/kotlin/ca/solostudios/kspservice/processor/KSPServiceProcessor.kt:194 | the joined names read back as exactly the names, including the empty list |
| Manifest.FramedLines | src/main/kotlin/ca/solostudios/kspservice/processor/KSPServiceProcessor.kt:186-196 | the banner, a newline, the body, a newline and the rule split into the three banner lines, the body's lines and the rule |
| Manifest.CommentedLines | src/main/kotlin/ca/solostudios/kspservice/processor/KSPServiceProcessor.kt:186-196 | with the banner, the lines are rule, title, rule, the lines of the banner-free content, and the closing rule |
| Manifest.NoCommentContent | src/test/kotlin/ca/solostudios/kspservice/processor/ServiceSymbolProcessorTest.kt:146-200 | without the banner the content is exactly the names joined by newlines and ends with the last name (no trailing newline) |
| Manifest.NoCommentSplits | src/main/kotlin/ca/solostudios/kspservice/processor/KSPServiceProcessor.kt:194 | for a non-empty list of names without newlines, splitting the banner-free content on newlines gives the list back (the empty list, whose content is "", is read back through `BodyLines`) |
| Manifest.ContentLoadsBack | src/main/kotlin/ca/solostudios/kspservice/processor/KSPServiceProcessor.kt:184-197 | `Content`, with or without the banner, read the way `ServiceLoader` reads it, declares exactly the implementor list, in order |
| Aggregation.Registry.GetOrPut | src/main/kotlin/ca/solostudios/kspservice/processor/KSPServiceProcessor.kt:140 | the key is present afterwards; a new key is appended to the key order and maps to an empty set; an existing key changes nothing; no other set changes |
| Aggregation.Registry.Add | src/main/kotlin/ca/solostudios/kspservice/processor/KSPServiceProcessor.kt:142-144 | the set gains the implementor at its end unless it already holds it, so insertion order is kept and no element repeats; no other set and no key changes; the implementor's file is overwritten |
| Aggregation.Registry.Record | src/main/kotlin/ca/solostudios/kspservice/processor/KSPServiceProcessor.kt:139-145 | accepting a pair: the service's set (empty when the service is new) gains the implementor at its end unless already there; other sets stay, the file entry is set, and every set stays non-empty and duplicate-free |
| Aggregation.Cleared | src/main/kotlin/ca/solostudios/kspservice/processor/KSPServiceProcessor.kt:210 | `services.clear()` empties the map and keeps every source-file entry |
| Aggregation.RecordIdempotent | src/main/kotlin/ca/solostudios/kspservice/processor/KSPServiceProcessor.kt:140-144 | recording the same pair twice is the same as recording it once |
| Aggregation.RecordTwiceSize | src/main/kotlin/ca/solostudios/kspservice/processor/KSPServiceProcessor.kt:140-142 | a new service's set is exactly the implementor, once or twice recorded |
| Pipeline.Log | src/main/kotlin/ca/solostudios/kspservice/processor/KSPServiceProcessor.kt:44-50 | reporting appends one diagnostic and changes nothing else |
| Pipeline.Extract | src/main/kotlin/ca/solostudios/kspservice/processor/KSPServiceProcessor.kt:59-112 | a missing annotation, a null value and a wrongly typed value each skip the class with their own error; a single class becomes a one-element list; an empty list is reported but goes on |
| Pipeline.Accept | src/main/kotlin/ca/solostudios/kspservice/processor/KSPServiceProcessor.kt:139-145 | accepting keeps the maps well formed and reports and writes nothing |
| Pipeline.InterfaceStep | src/main/kotlin/ca/solostudios/kspservice/processor/KSPServiceProcessor.kt:125-158 | one iteration keeps the maps well formed and writes nothing (its report for a type without a class declaration is in `RoundProperties.MissingDeclarationReported`) |
| Pipeline.StepNext | src/main/kotlin/ca/solostudios/kspservice/processor/KSPServiceProcessor.kt:128-157 | an iteration returns `true` exactly on an error type or a deferred validation, and throws exactly on an accepted pair that names a local class |
| Pipeline.Interfaces | src/main/kotlin/ca/solostudios/kspservice/processor/KSPServiceProcessor.kt:124-162 | the service loop keeps the maps well formed and writes nothing |
| Pipeline.CandidateStep | src/main/kotlin/ca/solostudios/kspservice/processor/KSPServiceProcessor.kt:58-116 | one class of the candidate loop keeps the maps well formed and writes nothing |
| Pipeline.Candidates | src/main/kotlin/ca/solostudios/kspservice/processor/KSPServiceProcessor.kt:56-117 | the candidate loop keeps the maps well formed and writes nothing |
| Pipeline.Attempt | src/main/kotlin/ca/solostudios/kspservice/processor/KSPServiceProcessor.kt:170-207 | a write attempt leaves the maps alone |
| Pipeline.Emit | src/main/kotlin/ca/solostudios/kspservice/processor/KSPServiceProcessor.kt:165-208 | the manifest loop leaves the maps alone |
| Pipeline.GenerateConfigFiles | src/main/kotlin/ca/solostudios/kspservice/processor/KSPServiceProcessor.kt:164-211 | the source-file map survives writing |
| RoundProperties.VerdictMeaning | src/main/kotlin/ca/solostudios/kspservice/processor/KSPServiceProcessor.kt:124-162 | the loop runs to the end exactly when every type is ordinary; it returns `true` only because of a deferring type and throws only because of a crashing one |
| RoundProperties.InterfacesVerdict | src/main/kotlin/ca/solostudios/kspservice/processor/KSPServiceProcessor.kt:124-162 | the loop's answer depends only on the class and its service types, never on what the maps hold |
| RoundProperties.InterfacesStopAt | src/main/kotlin/ca/solostudios/kspservice/processor/KSPServiceProcessor.kt:125-129 | the loop stops at the first type that is not ordinary; what came before it stays recorded and later types are not visited |
| RoundProperties.InterfacesGrow | src/main/kotlin/ca/solostudios/kspservice/processor/KSPServiceProcessor.kt:124-162 | the service loop never removes a key, an implementor or a file entry, and only appends diagnostics |
| RoundProperties.StepGrows | src/main/kotlin/ca/solostudios/kspservice/processor/KSPServiceProcessor.kt:125-158 | one iteration never removes a key, an implementor or a file entry, and only appends diagnostics |
| RoundProperties.InterfacesValid | src/main/kotlin/ca/solostudios/kspservice/processor/KSPServiceProcessor.kt:140-142 | unless it throws, the service loop leaves every set non-empty and duplicate-free |
| RoundProperties.StepValid | src/main/kotlin/ca/solostudios/kspservice/processor/KSPServiceProcessor.kt:140-142 | an iteration that goes on leaves every set non-empty and duplicate-free |
| RoundProperties.ServiceNames | src/main/kotlin/ca/solostudios/kspservice/processor/KSPServiceProcessor.kt:140 | the binary name of each service type, position by position |
| RoundProperties.TrustStep | src/main/kotlin/ca/solostudios/kspservice/processor/KSPServiceProcessor.kt:138-145 | with verify off, a resolved non-local service records the pair and goes on |
| RoundProperties.TrustModeRecordsAll | src/main/kotlin/ca/solostudios/kspservice/processor/KSPServiceProcessor.kt:124-162 | with verify off and resolvable non-local types, the class is registered under every one of its services, is not deferred and nothing is reported; the keys are the old ones plus those services |
| RoundProperties.TrustModeKeepsOthers | src/main/kotlin/ca/solostudios/kspservice/processor/KSPServiceProcessor.kt:139-145 | with verify off, the sets of services the class does not name are unchanged |
| RoundProperties.VerifyRejectsAll | src/main/kotlin/ca/solostudios/kspservice/processor/KSPServiceProcessor.kt:147-155 | with verify on and resolved supertypes, every resolved service type is reported in order, one diagnostic each, and the maps do not change |
| RoundProperties.VerifyKeepsMaps | src/main/kotlin/ca/solostudios/kspservice/processor/KSPServiceProcessor.kt:218-231 | with verify on the service loop never changes the maps and never throws |
| RoundProperties.MissingDeclarationReported | src/main/kotlin/ca/solostudios/kspservice/processor/KSPServiceProcessor.kt:131-137 | in either mode, a service type without a class declaration logs exactly that it is missing, changes nothing else, and the loop goes on |
| RoundProperties.MissingDeclarationContinues | src/main/kotlin/ca/solostudios/kspservice/processor/KSPServiceProcessor.kt:125-137 | in either mode, a missing declaration at the front of the remaining types adds its report and the loop carries on with the rest |
| RoundProperties.MissingDeclarationsReported | src/main/kotlin/ca/solostudios/kspservice/processor/KSPServiceProcessor.kt:125-137 | in either mode, service types none of which has a class declaration give one missing-declaration report each, in order, record nothing, and the loop completes |
| RoundProperties.DeferredOfMembers | src/main/kotlin/ca/solostudios/kspservice/processor/KSPServiceProcessor.kt:114-116 | a class is in the deferred list exactly when it is one of the symbols and its service loop returns `true` |
| RoundProperties.StepDeferred | src/main/kotlin/ca/solostudios/kspservice/processor/KSPServiceProcessor.kt:58-116 | one class throws exactly when its loop throws; otherwise it adds itself to the deferred list exactly when its loop returns `true` |
| RoundProperties.CandidatesCrash | src/main/kotlin/ca/solostudios/kspservice/processor/KSPServiceProcessor.kt:56-117 | the candidate loop is left by an exception exactly when some class's loop throws |
| RoundProperties.CandidatesDeferred | src/main/kotlin/ca/solostudios/kspservice/processor/KSPServiceProcessor.kt:54-121 | without an exception, the returned list is exactly the classes whose loop returned `true`, in symbol order |
| RoundProperties.CandidatesCons | src/main/kotlin/ca/solostudios/kspservice/processor/KSPServiceProcessor.kt:58 | proof helper, unfolds one step: the candidate loop is its first class, then the rest |
| RoundProperties.DeferredOfCons | src/main/kotlin/ca/solostudios/kspservice/processor/KSPServiceProcessor.kt:115-116 | proof helper, unfolds one step: the deferred classes of a list are those of its head, then those of the rest |
| RoundProperties.AnyCrashAt | src/main/kotlin/ca/solostudios/kspservice/processor/KSPServiceProcessor.kt:236-238 | some symbol throws exactly when there is a position whose class throws |
| RoundProperties.CandidateStepValid | src/main/kotlin/ca/solostudios/kspservice/processor/KSPServiceProcessor.kt:140-142 | one class that does not throw leaves every set non-empty and duplicate-free |
| RoundProperties.CandidatesValid | src/main/kotlin/ca/solostudios/kspservice/processor/KSPServiceProcessor.kt:56-117 | a candidate loop without an exception leaves every set non-empty and duplicate-free |
| RoundProperties.CandidateStepGrows | src/main/kotlin/ca/solostudios/kspservice/processor/KSPServiceProcessor.kt:58-116 | one class never removes a key, an implementor or a file entry |
| RoundProperties.CandidatesGrow | src/main/kotlin/ca/solostudios/kspservice/processor/KSPServiceProcessor.kt:56-117 | the candidate loop never removes a key, an implementor or a file entry |
| RoundProperties.VerifyStepKeepsMaps | src/main/kotlin/ca/solostudios/kspservice/processor/KSPServiceProcessor.kt:218-231 | with verify on, one class changes neither map and never throws |
| RoundProperties.VerifyCandidatesKeepMaps | src/main/kotlin/ca/solostudios/kspservice/processor/KSPServiceProcessor.kt:218-231 | with verify on, the candidate loop changes neither map and never throws |
| RoundProperties.CandidatesSingle | src/main/kotlin/ca/solostudios/kspservice/processor/KSPServiceProcessor.kt:56-117 | proof helper, unfolds one step: the loop over one symbol is that symbol's step |
| RoundProperties.InterfacesCons | src/main/kotlin/ca/solostudios/kspservice/processor/KSPServiceProcessor.kt:125-159 | proof helper, unfolds one step: the service loop is its first iteration, then the rest unless it returned |
| RoundProperties.InterfacesSingle | src/main/kotlin/ca/solostudios/kspservice/processor/KSPServiceProcessor.kt:125-159 | proof helper, unfolds one step: the loop over one type is that type's iteration |
| RoundProperties.EmptyListCandidate | src/main/kotlin/ca/solostudios/kspservice/processor/KSPServiceProcessor.kt:104-116 | an empty service list is reported once, records nothing and is not deferred |
| RoundProperties.SkippedCandidate | src/main/kotlin/ca/solostudios/kspservice/processor/KSPServiceProcessor.kt:59-102 | a class skipped at extraction (annotation not found again, null value, wrongly typed value) reports exactly that error and changes no map, no file and no deferral |
| RoundProperties.OtherSymbolIgnored | src/main/kotlin/ca/solostudios/kspservice/processor/KSPServiceProcessor.kt:56-58 | a symbol that is not a class declaration is dropped: no report, no change, wherever it stands in the round |
| RoundProperties.DeferredCandidateKeepsPairs | src/main/kotlin/ca/solostudios/kspservice/processor/KSPServiceProcessor.kt:113-116 | a class whose service loop defers at type `j` is handed back, and what the types before `j` recorded stays recorded for this round's manifests |
| RoundProperties.WrittenFiles | src/main/kotlin/ca/solostudios/kspservice/processor/KSPServiceProcessor.kt:182-197 | the files written are exactly the manifests of the keys whose path does not fail |
| RoundProperties.FailureReports | src/main/kotlin/ca/solostudios/kspservice/processor/KSPServiceProcessor.kt:200-207 | the write errors reported are exactly one per key whose path fails, naming the path and the cause |
| RoundProperties.OneAttemptPerKey | src/main/kotlin/ca/solostudios/kspservice/processor/KSPServiceProcessor.kt:165-208 | files written plus errors reported equal the number of keys |
| RoundProperties.EmitAttemptsEach | src/main/kotlin/ca/solostudios/kspservice/processor/KSPServiceProcessor.kt:165-208 | with no empty set, the loop reaches the end; it appends the files written in key order and the errors reported in key order |
| RoundProperties.EmitCons | src/main/kotlin/ca/solostudios/kspservice/processor/KSPServiceProcessor.kt:165-208 | proof helper, unfolds one step: the manifest loop is one attempt for the first key, then the rest |
| RoundProperties.AttemptEffect | src/main/kotlin/ca/solostudios/kspservice/processor/KSPServiceProcessor.kt:184-207 | proof helper, unfolds one step: one attempt either writes that key's manifest or reports its write error |
| RoundProperties.WrittenCons | src/main/kotlin/ca/solostudios/kspservice/processor/KSPServiceProcessor.kt:184-197 | proof helper, unfolds one step: the files for a list of keys are those of the head, then those of the rest |
| RoundProperties.FailuresCons | src/main/kotlin/ca/solostudios/kspservice/processor/KSPServiceProcessor.kt:200-207 | proof helper, unfolds one step: the errors for a list of keys are those of the head, then those of the rest |
| RoundProperties.GenerateConfigFilesClears | src/main/kotlin/ca/solostudios/kspservice/processor/KSPServiceProcessor.kt:164-211 | between rounds, writing makes one attempt per key in key order and then empties `services`, keeping `serviceFiles`; files plus errors equal the number of services |
| RoundProperties.EmptySetSkipsClear | src/main/kotlin/ca/solostudios/kspservice/processor/KSPServiceProcessor.kt:174-175 | an empty set anywhere in the key order leaves the function before `services.clear()` |
| RoundProperties.EmitStops | src/main/kotlin/ca/solostudios/kspservice/processor/KSPServiceProcessor.kt:174-175 | the manifest loop returns early when some key has an empty set |
| RoundProperties.RoundWithoutAnnotation | src/main/kotlin/ca/solostudios/kspservice/processor/KSPServiceProcessor.kt:40-52 | `Round`: without the annotation class, a round reports one error, returns an empty list, writes nothing and leaves the maps alone |
| RoundProperties.RoundCompletes | src/main/kotlin/ca/solostudios/kspservice/processor/KSPServiceProcessor.kt:54-121 | `Round`: a round without an exception returns exactly the deferred classes, ends with `services` empty and keeps every file entry |
| RoundProperties.RoundCrashWritesNothing | src/main/kotlin/ca/solostudios/kspservice/processor/KSPServiceProcessor.kt:236-238 | `Round`: a local class among the accepted pairs makes the round throw before any file is written |
| RoundProperties.VerifyModeWritesNothing | src/main/kotlin/ca/solostudios/kspservice/processor/KSPServiceProcessor.kt:218-231 | with verify on and nothing recorded earlier, a round completes and writes no file |
| RoundProperties.SingleCandidate | src/main/kotlin/ca/solostudios/kspservice/processor/KSPServiceProcessor.kt:56-117 | with verify off, one class naming one resolvable service records exactly that pair and is not deferred |
| RoundProperties.AcceptedCandidate | src/main/kotlin/ca/solostudios/kspservice/processor/KSPServiceProcessor.kt:59-116 | a class whose extraction goes on without a warning and whose loop completes is the state its loop leaves, not deferred |
| RoundProperties.SingleManifest | src/main/kotlin/ca/solostudios/kspservice/processor/KSPServiceProcessor.kt:166-197 | one service with one implementor gets one file at its path, depending on that implementor's source file |
| RoundProperties.ManifestForLoadsBack | src/main/kotlin/ca/solostudios/kspservice/processor/KSPServiceProcessor.kt:166-197 | `ManifestFor`: the manifest sits at `META-INF/services/<service>`, is aggregating over exactly the recorded files of its implementors, and reads back as the implementors in insertion order |
| RoundProperties.RecordIntoEmpty | src/main/kotlin/ca/solostudios/kspservice/processor/KSPServiceProcessor.kt:139-145 | recording into empty maps gives one key holding one implementor, with its file recorded |
| RoundProperties.RoundOfPass | src/main/kotlin/ca/solostudios/kspservice/processor/KSPServiceProcessor.kt:54-121 | proof helper, unfolds one step: a round without an exception is the candidate loop followed by writing |
| RoundProperties.SingleServiceFiles | src/main/kotlin/ca/solostudios/kspservice/processor/KSPServiceProcessor.kt:164-211 | one service with one implementor: one file is written, nothing is reported, and `services` is emptied |
| RoundProperties.SingleServiceRound | src/test/kotlin/ca/solostudios/kspservice/processor/ServiceSymbolProcessorTest.kt:32-81 | one annotated class naming one service yields one manifest at `META-INF/services/<service>` holding its binary name, with no errors and no deferral |
| RoundProperties.DeferThenResolve | src/test/kotlin/ca/solostudios/kspservice/processor/DeferredServiceTest.kt:36-117 | a class whose service is not generated yet is deferred and nothing is written; once the service resolves in the next round its manifest is written |
| Coverage.ClaimedMeaning | src/main/kotlin/ca/solostudios/kspservice/processor/KSPServiceProcessor.kt:125-158 | the services the loop records a class under, followed type by type, are exactly those of the reference definition: a type the loop reaches whose class is that service, with neither class local |
| Coverage.TrustInterfacesRecords | src/main/kotlin/ca/solostudios/kspservice/processor/KSPServiceProcessor.kt:125-158 | with verification off and no exception, one class's service loop adds exactly the services it claims as keys, and adds the class's binary name to exactly those sets |
| Coverage.TrustCandidatesRecords | src/main/kotlin/ca/solostudios/kspservice/processor/KSPServiceProcessor.kt:56-117 | with verification off and no exception, the candidate loop adds exactly the (service, binary name) pairs of its classes, and no other key or element |
| Coverage.AllMeaning | src/main/kotlin/ca/solostudios/kspservice/processor/KSPServiceProcessor.kt:56-117 | those keys and pairs are exactly the services some class of the round is recorded under (`Names`) and the classes recorded under each (`Provides`) |
| Coverage.ManifestOfKey | src/main/kotlin/ca/solostudios/kspservice/processor/KSPServiceProcessor.kt:166-197 | a recorded service's manifest sits at its path and declares, once each, exactly the classes recorded under it |
| Coverage.EmittedCoverage | src/main/kotlin/ca/solostudios/kspservice/processor/KSPServiceProcessor.kt:164-211 | for a registry holding exactly the round's claims, every requested service whose write succeeds gets its manifest, and every manifest written belongs to a requested service |
| Coverage.TrustRoundRegistry | src/main/kotlin/ca/solostudios/kspservice/processor/KSPServiceProcessor.kt:56-117 | with verification off, from empty maps and with no exception, the candidate loop completes, defers exactly the classes `DeferredOf` names, writes nothing, and leaves a registry whose keys are exactly the requested services and whose names under each are exactly the classes providing it |
| Coverage.RoundCoverage | src/main/kotlin/ca/solostudios/kspservice/processor/KSPServiceProcessor.kt:39-122 | a trust-mode round from empty maps that does not throw: each service some class reaches gets a manifest (unless its write fails) declaring exactly the classes that reach it, and no other manifest is written; one class for two services thus appears in both manifests, and several classes for one service in the same one |
| Processor.ServiceProcessor.constructor | src/main/kotlin/ca/solostudios/kspservice/processor/KSPServiceProcessor.kt:19-28 | the options are read once and both maps start empty |
| Processor.ServiceProcessor.Process | src/main/kotlin/ca/solostudios/kspservice/processor/KSPServiceProcessor.kt:39-122 | the imperative round ends in the state and with the result that `Pipeline.Round` computes |
| Processor.ServiceProcessor.ProcessServiceInterfaces | src/main/kotlin/ca/solostudios/kspservice/processor/KSPServiceProcessor.kt:124-162 | the imperative service loop ends in the state and with the answer that `Pipeline.Interfaces` computes |
| Processor.ServiceProcessor.Accept | src/main/kotlin/ca/solostudios/kspservice/processor/KSPServiceProcessor.kt:139-145 | updating the maps in place gives the state `Pipeline.Accept` computes |
| Processor.ServiceProcessor.GenerateConfigFiles | src/main/kotlin/ca/solostudios/kspservice/processor/KSPServiceProcessor.kt:164-211 | the imperative manifest loop ends in the state `Pipeline.GenerateConfigFiles` computes |

## Left out

- The KSP compiler API (`Resolver`, `getSymbolsWithAnnotation`, `getAllSuperTypes`, `isAssignableFrom`, `closestClassDeclaration`, `annotationType.resolve()`) is not modelled. The annotated symbols, each class's supertypes and the result of finding the annotation are inputs to a round. Whether the `@Service` annotation class resolves is a boolean input.
- The unchecked cast at line 92 is modelled as a decoded argument value: a list, a single class, null, or something else. The `ClassCastException` a list of non-`KSType` elements would raise later is not modelled.
- Logger message text and verbose logging (lines 168-199, 213-216) are left out. Diagnostics are an append-only sequence of report kinds. Each kind carries what the report is about, whether or not the message text shows it: the qualified name of the annotated class, the simple name of a service type without a class declaration, or the path and cause of a failed write. The `verbose` flag is read but has no effect in the model.
- I/O through `CodeGenerator.createNewFile` and the buffered writer is not modelled. A write either succeeds, and the file is appended to the written files, or fails with the cause that an oracle map gives for its path. A partial write before an `IOException` is not modelled.
- `containingFile!!` at line 144 is assumed non-null, following the comment in the code: each candidate carries its file.
- KotlinPoet's `ClassName` is not modelled as a library. The argument checks it makes on simple names are left out, and only the result of `reflectionName()` is modelled.
- The host's multi-round driver and incremental invalidation are not modelled. The model takes one round's symbols and hands the deferred classes back. `RoundProperties.DeferThenResolve` chains two rounds by hand.
- The older test file `src/test/kotlin/ca/solostudios/kspservice/ServiceSymbolProcessorTest.kt` expects sorted manifests with a trailing newline. That contradicts the code, which writes names in insertion order with no trailing newline, so it is not modelled.
- `Options.ToBoolean` folds ASCII case only. Kotlin ignores case over all of Unicode, but no non-ASCII character folds to a letter of "true", so the result is the same.
- The manifest reader is `ServiceLoader`'s format restricted to `\n` line ends, and it keeps duplicate names instead of dropping them. Neither case arises for the files this processor writes.
- Coverage.RoundCoverage: stated with verification off only, since with it on nothing is written (`RoundProperties.VerifyModeWritesNothing`). It also assumes the round starts with `services` empty and that binary names hold no blank and no `#` (`Coverage.NamesReadable`), as JVM class names do. It gives which names each manifest holds, not their order; the order follows `Aggregation.Registry.Record`, one pair at a time.
- RoundProperties.TrustModeKeepsOthers: how `serviceFiles` changes is stated per recorded pair (`Aggregation.Registry.Record`), not summed over a whole loop.
- `Service.kt`, `KSPServiceProcessorProvider.kt` (a one-line factory), the build script and the compile-based tests are outside the processor's logic and are not part of this model.
