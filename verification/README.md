# Verified models of the build and qualification tools

The native engine is built, packaged and measured by a set of Python tools. Some of them decide things
that nothing downstream checks again: which optimizer recipes are safe for every feature set, which
observations of a paced run were lost, which types a generated client needs, what a rewritten binary
still contains. This project models those decisions in Dafny and proves what the tools promise about them.

`dafny verify dfyconfig.toml` checks everything. There is one module for each component.

| component | modules |
|---|---|
| Optimizer registry: recipe admission, pass order, ambiguity | `OptimizerRecipes`, `DependencyCycles`, `RecipeLaws` |
| Paced sensor runs: the caller queue, the two threads, the final accounting | `CallerQueues`, `PacedRun`, `PacedLaws` |
| Descriptor profiles: closure over types, compaction, source locations | `DescriptorClosure`, `DescriptorFilter`, `ProfileLaws` |
| Registry option: tokens, string literals, aggregate parser, printer, round trips | `RegistryTokens`, `TokenPattern`, `JsonStrings`, `JsonLaws`, `AggregateParsers`, `AggregatePrinters`, `RegistryOptions` |
| PTX line comments | `PtxComments`, `PtxMachine` |
| WebAssembly custom sections | `Leb128`, `WasmSections`, `WasmLaws` |
| TFLite lowering: names, order, saved arrays, what the nodes compute | `TensorNames`, `TfliteLowering`, `TfliteExporter`, `TfliteMeaning`, `ExportMeaning` |
| Teacher-forced evaluation | `TeacherForcing` |
| Release publication and its guard | `Publication`, `ReleaseGuard` |
| Tokenizer tables of the Unicode database | `UnicodeRanges`, `UnicodeLaws` |
| Name lookup tables | `ByteStrings`, `NameLookup` |
| Growing byte writer | `GrowingWriter` |
| Shader packs | `ShaderPack` |
| Shared: results, bytes, decimal numerals, stable sorting | `Results`, `Bytes`, `Decimals`, `Sorting` |

Where the source updates state, the model does too: classes for the queue, the depth-first search, the
type index, the parser, the name table, the exporter, the evaluator and the writer; loops with invariants
for the scanners and tables. Each such method is proved against a specification, and the properties below
are proved about that specification.

The modules named laws, meaning, pattern or machine say once more what a component does, this time without the
functions by which it is specified: which runs a registry lets pass in terms of what its passes declare, what
a sample of the backlog shows of each release, which chain of mentions keeps a message, what each output of an
exported graph computes, which characters a regular expression takes, what one byte after another becomes. The
two accounts are proved to agree for all inputs.

What a tool gets from outside enters as data. A regular expression engine is a table of its answers, which are
proved to be those of the expression, and a digest is the contents that it is made from. A neural network is
any causal function of its tokens, an engine request ends in any terminal state, and the clock readings of a
paced run are any integers.

Four results are about behaviour that is not what one might expect. Each comes with its exact condition.

* The TFLite exporter saves a depthwise filter under a name that leaves out the channel count by which the
  filter was reshaped. `TfliteExporter.ArraysAreFoundExactlyWhen` says, of the operations of the subgraph,
  when every array is found; `TfliteExporter.SharedFilterIsLost` shows for any other subgraph that one of the
  two clashing convolutions does not find its array, and `TfliteExporter.SharedFilterIsExported` gives a
  subgraph for which the exporter succeeds and loses one.
* The release guard reads the three published files without the publishing lock, so it can accept although the
  bundle was never whole while it looked. `Publication.DeceivedExactlyWhen` says from which states that can
  happen, and `Publication.GuardOvertaken` reaches one for any two build trees.
* The descriptor filter keeps extension declarations and does not follow the types they mention.
  `DescriptorFilter.NoExtensionDanglesExactlyWhen` says, of the file and the allowed services, when none of
  those types is lost, and `DescriptorFilter.ExtensionDangles` gives an ordinary file in which one is.
* A full sample does not tell that an observation was dropped: the sample taken at a release counts the
  released observation if it was queued. `PacedLaws.DropsShowInSamples` says that the sample in front of it
  decides, and `PacedLaws.FullSampleIsNotEnough` gives a run with limit one in which the sample of the release
  shows the limit and the observation is queued.

## Model

| member | source | states |
|---|---|---|
| OptimizerRecipes.CanCoSelectIsExact | tools/generate_optimizer_registry.py:441-452 | The set expression is true exactly when some admitted feature set selects both overlays |
| OptimizerRecipes.FlattenIsChosen | tools/generate_optimizer_registry.py:581-587 | What a feature set runs is the occurrence list restricted to the overlays it selects, in order |
| OptimizerRecipes.PairsProtectSelections | tools/generate_optimizer_registry.py:622-655 | If all occurrence pairs are admitted, no feature set runs a pass twice, runs a conflicting pair, or breaks an ordering requirement |
| OptimizerRecipes.RefusedPairIsReached | tools/generate_optimizer_registry.py:622-655 | Every refused pair is run, in its order, by some admitted feature set |
| OptimizerRecipes.OccurrenceIsReached | tools/generate_optimizer_registry.py:584-618 | Every listed occurrence is run by some admitted feature set, and by the empty one if nothing is required |
| OptimizerRecipes.FiniteChecksDecideAllSelections | tools/generate_optimizer_registry.py:581-655 | The finite checks accept exactly when every feature set between required and required plus supported yields a sound run |
| OptimizerRecipes.CheckShape | tools/generate_optimizer_registry.py:500-579 | The shape of a recipe is accepted exactly when its features and overlays are well formed |
| OptimizerRecipes.CheckOccurrence | tools/generate_optimizer_registry.py:584-618 | One occurrence passes exactly when semantics, calibration, interface and targets permit it |
| OptimizerRecipes.CheckPairs | tools/generate_optimizer_registry.py:622-655 | The nested loop accepts exactly when every pair of occurrences is admitted, and otherwise names a genuine pair |
| OptimizerRecipes.AdmitRecipe | tools/generate_optimizer_registry.py:454-655 | A recipe is admitted exactly when its features are declared, it is well shaped, and every feature set runs soundly; an error names something that a feature set really runs |
| OptimizerRecipes.AmbiguousIsExact | tools/generate_optimizer_registry.py:686-698 | The pairwise test holds exactly when one feature set matches both recipes |
| OptimizerRecipes.CheckAmbiguity | tools/generate_optimizer_registry.py:686-698 | The loop accepts exactly when no feature set matches two recipes |
| OptimizerRecipes.LoadRecipes | tools/generate_optimizer_registry.py:454-698 | Accepts exactly when there are recipes, each is admissible, each feature is used, and each feature set matches at most one recipe; a refusal is genuine |
| RecipeLaws.AcceptedExactlyWhen | tools/generate_optimizer_registry.py:500-655 | A recipe is admitted exactly when, in terms of what passes and overlays declare, everything that a feature set runs is permitted, and of two occurrences that run together the passes differ, do not conflict and are in no order that one of them forbids |
| RecipeLaws.LoadedExactlyWhen | tools/generate_optimizer_registry.py:454-698 | A list of recipes is loaded exactly when each is acceptable in these terms, each feature is mentioned, and no feature set is offered by two recipes |
| RecipeLaws.OverlayExactlyDeclared | tools/generate_optimizer_registry.py:536-579 | An overlay is well shaped exactly when it names a declared group and features of its recipe, and some feature set selects it |
| RecipeLaws.RunsKeepEdges | tools/generate_optimizer_registry.py:622-655 | In every run of an admitted recipe all passes differ, none conflicts with another, and none comes behind one that has to run after it |
| RecipeLaws.RankExactlyOrders | tools/generate_optimizer_registry.py:165-188 | A rank is one exactly when it rises along both lists of requirements of every pass |
| DependencyCycles.RankRisesAlongWalk | tools/generate_optimizer_registry.py:165-188 | A topological rank rises along every walk of ordering requirements |
| DependencyCycles.CycleHasNoRank | tools/generate_optimizer_registry.py:165-188 | A cycle leaves no topological rank |
| DependencyCycles.BuildEdges | tools/generate_optimizer_registry.py:166-171 | The edge table is the union of the before and after requirements |
| DependencyCycles.Search.Visit | tools/generate_optimizer_registry.py:175-185 | The recursive visit either finishes a pass after everything behind it or finds a cycle through the passes being visited |
| DependencyCycles.FinishedOrderRanks | tools/generate_optimizer_registry.py:175-185 | The order in which passes are finished is a topological rank |
| DependencyCycles.CheckDependencyCycles | tools/generate_optimizer_registry.py:165-188 | Terminates and accepts exactly when a topological rank exists; a refusal comes with a cycle |
| CallerQueues.FreshnessDecision | tools/native_sensor_paced.py:48-53 | A sample is dropped for the future before it is dropped for its age, and otherwise fresh |
| CallerQueues.LatestFreshIsNewestFresh | tools/native_sensor_replay.py:63-66 | The selection is the fresh observation that no other fresh one exceeds |
| CallerQueues.NewestIsMaximal | tools/native_sensor_paced.py:132 | The maximum by source time and index is a member that nothing exceeds |
| CallerQueues.PopMeaning | tools/native_sensor_paced.py:118-139 | A pop decides every drained row: taken, coalesced, or dropped for its reason, and keeps the backlog bound |
| CallerQueues.CancelMeaning | tools/native_sensor_paced.py:147-152 | Cancelling empties the queue and drops exactly what was queued |
| CallerQueues.EmitMeaning | tools/native_sensor_paced.py:105-116 | Below the limit the queue grows by the observation at its end and the row is pending; at the limit the queue stays and the row is a backlog drop; older rows stay and one sample is recorded |
| CallerQueues.PopIsSeen | tools/native_sensor_paced.py:118-139 | A pop takes all arrivals, or those up to the first that is of age; it returns the newest of age among them, and drops each other by its age |
| CallerQueues.CancelIsSeen | tools/native_sensor_paced.py:147-152 | Exactly the rows of queued arrivals become cancelled, and an empty queue is sampled |
| CallerQueues.CallerQueue.Emit | tools/native_sensor_paced.py:105-116 | A released observation is queued last, or dropped exactly when queued plus processing has reached the limit; older rows stay |
| CallerQueues.CallerQueue.Pop | tools/native_sensor_paced.py:118-139 | With latest, drains the queue and returns what the simple selection picks from it; otherwise takes the first fresh one |
| CallerQueues.CallerQueue.Finish | tools/native_sensor_paced.py:141-145 | Ends the processing of the current observation and records the backlog |
| CallerQueues.CallerQueue.CancelPending | tools/native_sensor_paced.py:147-152 | Drops all queued observations as cancelled and nothing else |
| PacedRun.CountsPartitionRows | tools/native_sensor_paced.py:155-166 | Every row is counted under exactly one decision |
| PacedRun.IndexSetSize | tools/native_sensor_paced.py:161 | The set of sample indices is as large as the list exactly when no index repeats |
| PacedRun.Accounting | tools/native_sensor_paced.py:155-171 | Succeeds exactly on balanced rows; accepted, dropped and unreleased add up to the plan |
| PacedRun.StepKeepsInvariant | tools/native_sensor_paced.py:405-492 | Every atomic step of producer or consumer keeps the bound, the order and the place of every row |
| PacedRun.RunsAreSound | tools/native_sensor_paced.py:405-492 | The invariant holds after every interleaving of steps |
| PacedRun.BacklogNeverExceedsLimit | tools/native_sensor_paced.py:91-116 | Queued plus processing never exceeds the limit, now or in any recorded sample |
| PacedRun.EveryRowIsInOnePlace | tools/native_sensor_paced.py:90-152 | Every released row is in exactly one of queued, in process, caller-dropped or terminal |
| PacedRun.PoppedInEmissionOrder | tools/native_sensor_paced.py:118-139 | Over a whole run observations are popped in the order of their emission |
| PacedRun.NormalExitBalances | tools/native_sensor_paced.py:433-442 | When the loop ends normally nothing is pending and the rows balance |
| PacedRun.AccountAfterExit | tools/native_sensor_paced.py:552 | After a normal exit the accounting cannot raise |
| PacedRun.SettledRowsAreFinal | tools/native_sensor_paced.py:405-492 | No later step changes a settled row |
| PacedLaws.DropsShowInSamples | tools/native_sensor_paced.py:105-116 | In every run a row is a backlog drop exactly when the sample in front of the one taken at its release shows at least the limit, and the sample of the release shows that number, or one more for a queued row |
| PacedLaws.FullSampleIsNotEnough | tools/native_sensor_paced.py:105-116 | A run whose sample at the release shows the limit although the row is queued |
| PacedLaws.StopIsFinal | tools/native_sensor_paced.py:405-492 | After the stop event nothing more is taken from the queue |
| PacedLaws.FailuresStopRuns | tools/native_sensor_paced.py:433-492 | In every run a failed observation stops the run |
| PacedLaws.SubmitsExactlyFresh | tools/native_sensor_paced.py:446-453 | An observation is submitted exactly when it is of age at that moment, and is otherwise dropped for its age |
| PacedLaws.CountsAreRows | tools/native_sensor_paced.py:155-166 | The sums of the tally are the numbers of rows with such decisions |
| PacedLaws.BalancedExactlyWhen | tools/native_sensor_paced.py:159-171 | The accounting passes exactly when all rows are settled, no observation has two rows, and as many ended as were accepted |
| DescriptorClosure.TypeIndex.RegisterMessage | tools/filter_codegen_request.py:182-187 | Registers a message, its enums and everything nested in it under the owner, later names winning |
| DescriptorClosure.TypeIndex.Register | tools/filter_codegen_request.py:177-192 | The three tables resolve every name to its owner or enum |
| DescriptorClosure.LeastIsUnique | tools/filter_codegen_request.py:194-231 | There is only one least closed selection |
| DescriptorClosure.Retain | tools/filter_codegen_request.py:194-231 | The worklist terminates with the least selection that is closed under the references of whole owners |
| DescriptorFilter.CompactAllIsIdentity | tools/filter_codegen_request.py:233-243 | Compacting without dropping anything changes nothing |
| DescriptorFilter.TrimValues | tools/filter_codegen_request.py:255-269 | The kept values in order with an order-preserving index map; an error exactly when value zero is omitted |
| DescriptorFilter.SelectServices | tools/filter_codegen_request.py:161-175 | The allowed services in order, their index map, and the method types they need |
| DescriptorFilter.FilterLocations | tools/filter_codegen_request.py:110-142 | The loop drops and remaps locations as the index maps say |
| DescriptorFilter.ComputeProfile | tools/filter_codegen_request.py:153-272 | Computes the least selection and its index maps; an error exactly when a kept enum loses its zero value |
| DescriptorFilter.FileDescriptor.FilterGenerated | tools/filter_codegen_request.py:153-289 | The descriptor becomes its profile, or an error leaves it as it was |
| DescriptorFilter.NoReferenceDangles | tools/filter_codegen_request.py:194-272 | A method or field type of the profile that the file declares still finds the same message or the trimmed enum |
| DescriptorFilter.NoExtensionDanglesExactlyWhen | tools/filter_codegen_request.py:274-279 | No type that an extension of the profile mentions is lost exactly when the allowed services need each type that an extension of the file, or of a message they need, mentions; needed is what every closed selection of the file has |
| DescriptorFilter.ExtensionDangles | tools/filter_codegen_request.py:274-279 | A request whose service is kept, and in which the filter drops the type of an extension that it keeps |
| DescriptorFilter.ProfileNeedsEverything | tools/filter_codegen_request.py:194-231 | Everything in a profile is needed by its services |
| DescriptorFilter.DroppedExactlyWithDeclaration | tools/filter_codegen_request.py:118-140 | A location is dropped exactly when its declaration is |
| DescriptorFilter.SurvivorsNameTheSame | tools/filter_codegen_request.py:118-140 | A surviving location names the same service, message, enum or enum value as before |
| DescriptorFilter.FilteringIsIdempotent | tools/filter_codegen_request.py:153-289 | Filtering a profile again changes nothing, source locations included |
| ProfileLaws.ResolvesToMessage | tools/filter_codegen_request.py:177-192 | If names are declared once, a name is owned by the message that declares it at any depth |
| ProfileLaws.RefsAreMentions | tools/filter_codegen_request.py:203-220 | What a message refers to are the types of the message, group and enum fields at any depth within it |
| ProfileLaws.LeastIsReached | tools/filter_codegen_request.py:194-231 | The selection is exactly what a chain of mentions from a method of an allowed service leads to |
| ProfileLaws.KeptExactlyReached | tools/filter_codegen_request.py:233-272 | A message or enum is kept exactly when such a chain leads to it, and a service exactly when it is allowed |
| ProfileLaws.ProfileIsReached | tools/filter_codegen_request.py:153-272 | The profile holds what is reached, in order, and nothing else |
| ProfileLaws.MethodTypesSurvive | tools/filter_codegen_request.py:161-175 | What any method of the profile takes and returns is declared in the profile, if it was in the file |
| ProfileLaws.FieldTypesSurvive | tools/filter_codegen_request.py:203-231 | So is the type of every field, at any depth, of every message of the profile |
| RegistryTokens.MatchIsExact | tools/generate_kernel_registry.py:115-125 | What the pattern matches at the head of a text is what its alternatives stand for, and nothing else |
| RegistryTokens.ReadingGivesTokens | tools/generate_kernel_registry.py:128-143 | A text that can be cut into pieces tokenizes to the tokens among them |
| RegistryTokens.TokensComeFromReading | tools/generate_kernel_registry.py:128-143 | A text tokenizes only if it can be cut into pieces |
| RegistryTokens.ReadingIsUnique | tools/generate_kernel_registry.py:128-143 | A text can be cut into pieces in one way |
| RegistryTokens.TokenLine | tools/generate_kernel_registry.py:140-141 | A token's line is one plus the newlines in front of it |
| RegistryTokens.Tokenize | tools/generate_kernel_registry.py:128-143 | The loop takes at least one character a round and returns the tokens or the first unexpected character with its line |
| TokenPattern.ScannerIsPattern | tools/generate_kernel_registry.py:115-125 | What is taken at the head of every text is the first match of the regular expression, found by backtracking over greedy and lazy repetitions |
| TokenPattern.WordIsOneToken | tools/generate_kernel_registry.py:121 | A letter or underscore, then letters, digits, underscores and dots, and then a blank make one identifier token |
| AggregateParsers.FieldsKeepOrder | tools/generate_kernel_registry.py:173 | A message has the fields its items name, each with all values in order |
| AggregateParsers.AcceptsExactlySpellings | tools/generate_kernel_registry.py:165-195 | The parser accepts exactly the spellings of messages, gives their fields, and consumes exactly their tokens |
| AggregateParsers.AggregateParser.Take | tools/generate_kernel_registry.py:156-163 | Takes the next token, or names the mark that is missing, or the end |
| AggregateParsers.AggregateParser.Message | tools/generate_kernel_registry.py:165-178 | The message method returns what the grammar says and leaves the index behind the message |
| AggregateParsers.AggregateParser.ParseOneValue | tools/generate_kernel_registry.py:180-195 | The value method converts a literal, number or identifier, or parses a nested message |
| Decimals.IntRoundTrip | tools/generate_kernel_registry.py:188 | An integer written in decimal is read back as that integer |
| JsonStrings.QuoteRoundTrip | tools/generate_kernel_registry.py:185-186 | Every text, written as a literal with escapes, is decoded to itself |
| JsonLaws.DecodesExactly | tools/generate_kernel_registry.py:185-186 | A literal is decoded to a text exactly when it spells the text by plain characters, short escapes, code units and surrogate pairs |
| AggregatePrinters.EntriesMean | tools/generate_kernel_registry.py:165-195 | In the grammar of the parser a printed message has the fields that it stands for |
| AggregatePrinters.TreeSpells | tools/generate_kernel_registry.py:115-195 | The words printed for a value are tokens and spell the value; literals are escaped, integers are decimal |
| AggregatePrinters.LayoutRoundTrip | tools/generate_kernel_registry.py:128-195 | A text with the words of any message, and any blanks and comments between them, is read as its fields |
| AggregatePrinters.PrintRoundTrip | tools/generate_kernel_registry.py:128-195 | Printing any message and reading the text back gives its fields and uses all tokens |
| RegistryOptions.OptionRoundTrip | tools/generate_kernel_registry.py:198-207 | An option printed anywhere in a file, in any layout, is read as its fields, unless one begins before it |
| RegistryOptions.TokensAreApart | tools/generate_kernel_registry.py:115-125 | The tokens handed to the parser have marks only as punctuation and numerals only as numbers |
| RegistryOptions.FindOption | tools/generate_kernel_registry.py:200-202 | Finds the first occurrence of the option, if there is one |
| RegistryOptions.ParseRegistryOption | tools/generate_kernel_registry.py:198-207 | Returns the fields of the first option up to its semicolon, or the error of the step that failed |
| PtxComments.LexingIsUnique | tools/prepare_cuda_ptx.py:23-60 | A source has at most one lexing into quoted, block, comment and plain lexemes |
| PtxComments.StrippingIsIdempotent | tools/prepare_cuda_ptx.py:17-64 | The output lexes as what was kept, has no comments, and stripping it again changes nothing |
| PtxComments.LinesStay | tools/prepare_cuda_ptx.py:49-63 | Every kept lexeme stays on its line |
| PtxComments.NewlinesStay | tools/prepare_cuda_ptx.py:62-63 | The newline count is preserved, so the final assertion never fires |
| PtxComments.ScanQuoted | tools/prepare_cuda_ptx.py:25-41 | Finds the end of a quoted literal with escapes, or how the source ends inside it |
| PtxComments.StuckHasNoLexeme | tools/prepare_cuda_ptx.py:34-46 | Where an error is reported no lexeme begins |
| PtxComments.StripLineComments | tools/prepare_cuda_ptx.py:17-64 | Succeeds exactly on admitted sources that have a lexing, and returns it without its line comments, and their number |
| PtxMachine.MachineStrips | tools/prepare_cuda_ptx.py:17-64 | The result is what a machine writes that reads one byte after the other in four modes, and the count is that of the comments it leaves out |
| PtxMachine.MachineStops | tools/prepare_cuda_ptx.py:25-46 | Where the scanner reports an error the machine ends with the same one |
| Leb128.DecodeEncode | tools/embed_wasm_custom_section.py:13-38 | Decoding an encoded u32 in any surroundings gives it back |
| Leb128.LebIsShortest | tools/embed_wasm_custom_section.py:29-38 | No encoding of a number is shorter than the one written |
| Leb128.DecodeU32 | tools/embed_wasm_custom_section.py:13-26 | The loop reads at most five groups and fails on overflow or a missing end |
| Leb128.EncodeU32 | tools/embed_wasm_custom_section.py:29-38 | The loop writes the encoding, or refuses what is outside u32 |
| WasmSections.ReadingIsUnique | tools/embed_wasm_custom_section.py:54-64 | The sections of a module are determined by its bytes |
| WasmSections.ReplacementMeaning | tools/embed_wasm_custom_section.py:49-69 | The result is well formed, keeps all other sections in order, and holds the named section once, last, with the contents |
| WasmSections.OtherSectionsSurvive | tools/embed_wasm_custom_section.py:60-63 | Sections without the name are in the result exactly if they were in the module |
| WasmSections.LastReplacementWins | tools/embed_wasm_custom_section.py:49-69 | Two replacements of one section equal the second alone |
| WasmSections.ReadSection | tools/embed_wasm_custom_section.py:54-61 | Reads the section at an offset; an error means that none begins there |
| WasmSections.RetainSections | tools/embed_wasm_custom_section.py:53-65 | The scan keeps the bytes of the other sections; an error means that the module is not well formed |
| WasmSections.ReplaceCustomSection | tools/embed_wasm_custom_section.py:49-69 | Succeeds exactly on well-formed modules whose new section fits, with the replacement |
| WasmLaws.DecodedExactlyWhen | tools/embed_wasm_custom_section.py:13-26 | A number is decoded exactly where at most five bytes stand, all but the last with the continuation bit, whose groups of seven bits make it, below two to the 32nd |
| WasmLaws.ModuleExactlyWhen | tools/embed_wasm_custom_section.py:49-64 | The modules that are read are exactly the header followed by sections of an id, a size and a payload, custom ones with a name in front |
| WasmLaws.NamedExactlyWhen | tools/embed_wasm_custom_section.py:41-63 | A section has the name exactly when its id is zero and its payload begins with the size of the name and the name |
| WasmLaws.KeptInOrder | tools/embed_wasm_custom_section.py:53-65 | The sections that stay are those without the name, at ascending places, each as often as it occurs |
| TensorNames.Base | tools/export_safetensors.py:437 | A base name is portable, not empty and at most 96 characters |
| TensorNames.TriedCount | tools/export_safetensors.py:438-442 | The numbered candidates of a base are all different |
| TensorNames.Names.FirstFree | tools/export_safetensors.py:438-442 | The numbering terminates with the first candidate that is free |
| TensorNames.Names.Short | tools/export_safetensors.py:425-445 | One original always gets one name, and no two originals the same |
| TensorNames.RunBecomesUnderscore | tools/export_safetensors.py:437 | A run of characters that names are not made of becomes one underscore, and what is around it is as without it |
| TensorNames.BaseMeans | tools/export_safetensors.py:437 | A base is the first 96 characters of that without the dots, underscores and dashes around them, or t |
| TfliteLowering.KeyTextsDiffer | tools/export_safetensors.py:447-448 | No two tensors, weights or intermediates share their original |
| TfliteLowering.OpIsSound | tools/export_safetensors.py:722-990 | Lowering an operation adds nodes that read only what is there |
| TfliteLowering.OpIsSingle | tools/export_safetensors.py:722-990 | Lowering an operation with a new output assigns only new keys |
| TfliteLowering.LoweringIsOrdered | tools/export_safetensors.py:722-999 | Every node reads graph inputs, saved arrays or earlier outputs, and every listed output is defined, for any subgraph |
| TfliteLowering.LoweringAssignsOnce | tools/export_safetensors.py:722-999 | If the subgraph produces each tensor once, the nodes assign each key once |
| TfliteLowering.LoweredExactlyWhenFed | tools/export_safetensors.py:687-692 | Lowering succeeds exactly when every operation and output is fed, and filters and biases are constants or folded from them |
| TfliteLowering.LoweringReadsItsArrays | tools/export_safetensors.py:548-616 | The saved arrays that the lowering accounts for are exactly those that its nodes read |
| TfliteLowering.AliasIsFolds | tools/export_safetensors.py:731-737 | Which outputs are folded into which constants depends on the operations alone |
| TfliteLowering.FiltersDecideArrays | tools/export_safetensors.py:548-585 | The arrays that are read differ only in their channels exactly when two convolutions ask for a shared filter with different channels |
| TfliteExporter.Exporter.ResolveConst | tools/export_safetensors.py:379-384 | Follows the aliases, each at most once |
| TfliteExporter.Exporter.EnsureSaved | tools/export_safetensors.py:548-585 | Saves an array under its key's name unless it was asked for before |
| TfliteExporter.Exporter.NameForValue | tools/export_safetensors.py:687-692 | The name of a produced value or of the saved constant, or the error |
| TfliteExporter.Exporter.Lower | tools/export_safetensors.py:722-990 | The loop body adds exactly the nodes of the lowering, by names, or fails as it does |
| TfliteExporter.Exporter.FinishOutput | tools/export_safetensors.py:994-999 | An output that is not a value under its own name is copied |
| TfliteExporter.Exporter.Export | tools/export_safetensors.py:504-1023 | The exported graph is the lowering with every key written as its name, exactly the arrays that nodes read are saved, and each is found exactly when no filters clash |
| TfliteExporter.NameMeansOneKey | tools/export_safetensors.py:425-448 | A name stands for one key |
| TfliteExporter.ExportIsOrdered | tools/export_safetensors.py:653-692 | Every node of the exported graph reads names that are there before it |
| TfliteExporter.ExportDefinesOutputs | tools/export_safetensors.py:994-1023 | Every listed output name is defined at the end |
| TfliteExporter.ExportAssignsOnce | tools/export_safetensors.py:653-685 | If the subgraph produces each tensor once, output names are distinct and differ from input names |
| TfliteExporter.ArraysAreFoundExactlyWhen | tools/export_safetensors.py:548-585 | Every saved array is found under its name exactly when no two convolutions of the subgraph share a filter in one layout with different channels |
| TfliteExporter.SharedFilterIsLost | tools/export_safetensors.py:548-585 | Of any two convolutions that share a filter with different channels, one does not find its array |
| TfliteExporter.NodesFindTheirArrays | tools/export_safetensors.py:548-585 | If no filters clash, the array under every name that a node reads is the one made for that node |
| TfliteExporter.SharedFilterIsExported | tools/export_safetensors.py:816-824 | A subgraph with such a pair of depthwise convolutions is exported without an error |
| TfliteMeaning.LoweringComputes | tools/export_safetensors.py:722-999 | If no dequantization writes to a constant, the lowered nodes, evaluated in order, give every tensor and output the term that the operations define for it: operands and their order, layouts, biases, scales and zero points, expansions |
| ExportMeaning.ExportComputes | tools/export_safetensors.py:504-1023 | If also no filters clash, running the exported nodes by their names leaves that term under the name of every output |
| TeacherForcing.ValidateCases | tools/evaluate_quantization_quality.py:145-159 | Accepts exactly the case lists whose prompts and targets fit their capacity, with a known mode and a sensible task |
| TeacherForcing.Evaluator.EvaluateInBothModes | tools/evaluate_quantization_quality.py:266-315 | Evaluating a text by prefill and step by step gives the same rows |
| TeacherForcing.RowOfPrefix | tools/evaluate_quantization_quality.py:268-274 | A row of a padded or longer array is the row of the tokens up to it |
| TeacherForcing.FullRows | tools/evaluate_quantization_quality.py:276-315 | The rows copied from a full call are those of the targets |
| TeacherForcing.Evaluator.Advance | tools/evaluate_quantization_quality.py:276-289 | A step writes one teacher within the arrays and gets the row behind it |
| TeacherForcing.Evaluator.EvaluateCase | tools/evaluate_quantization_quality.py:266-315 | The rows of a case, in either mode, are those behind the prompt and each prefix of the targets |
| TeacherForcing.Evaluator.ContextFor | tools/evaluate_quantization_quality.py:251-265 | The shared context is closed before a fresh one is opened; if that fails none stays open |
| TeacherForcing.Evaluator.EvaluateCases | tools/evaluate_quantization_quality.py:245-323 | All rows are right, there is never more than one open context, and none is left open however it ends, a failed creation included |
| Publication.StepKeepsInv | tools/finalize_native_release.py:202-217 | Each step keeps what the lock holder has replaced its own, crashes included |
| Publication.OnePublisherAtATime | tools/finalize_native_release.py:208-217 | No two publishers replace files at once |
| Publication.ArtifactVouchesForBundle | tools/finalize_native_release.py:209-213 | After an executable is replaced all three files are its publisher's until somebody replaces files again |
| Publication.CompletionRestores | tools/finalize_native_release.py:209-213 | A completed publication leaves all three files its own, whatever was there |
| Publication.Release.AtomicCopy | tools/finalize_native_release.py:168-190 | Whatever the copy writes and whichever step fails, the destination is the whole copy or what it was, and a temporary file is left only if it cannot be removed |
| Publication.Release.PublishBundle | tools/finalize_native_release.py:193-217 | The replacements happen in order, a failure stops them, the lock is released, and at most one temporary file is left, none on success |
| Publication.PublisherReplaces | tools/finalize_native_release.py:209-213 | The replacements of a process have the effect of the sequential publisher |
| Publication.GuardSeesWholeBundle | tools/ensure_native_release_outputs.py:142-149 | A guard that accepts has seen a whole bundle: at its first look if no publisher of its own tree was at work, at its last if none of another was |
| Publication.WholeWithoutForeign | tools/ensure_native_release_outputs.py:142-149 | If no publisher of another tree can still replace the executable, a guard that accepts has seen a whole bundle |
| Publication.WholeWithoutOwn | tools/ensure_native_release_outputs.py:142-149 | If no publisher of the own tree has yet to begin, a guard that accepts has seen a whole bundle |
| Publication.DeceivedExactlyWhen | tools/ensure_native_release_outputs.py:142-149 | From a reachable state the guard can accept without any whole bundle exactly when the executable is its own, the bundle is not, one of its own publishers has yet to begin, and a foreign one has yet to replace the executable |
| Publication.QuietGuardIsExact | tools/ensure_native_release_outputs.py:142-149 | With nobody at work the three comparisons hold exactly for a whole bundle |
| Publication.GuardOvertaken | tools/ensure_native_release_outputs.py:142-149 | For any two trees there is a reachable state from which the guard of one can be deceived |
| ReleaseGuard.CheckObjects | tools/ensure_native_release_outputs.py:106-129 | The link inputs pass exactly when each is inside the tree, listed once, and unchanged |
| ReleaseGuard.ValidateBundle | tools/ensure_native_release_outputs.py:57-149 | Accepts exactly when the tree fits its evidence and all three published files are the tree's own |
| ReleaseGuard.OneTreeIsAccepted | tools/ensure_native_release_outputs.py:84-149 | Of two build trees that publish to one place at most one directory is accepted |
| ReleaseGuard.EveryChangeIsSeen | tools/ensure_native_release_outputs.py:84-149 | With the same evidence, a tree stays accepted exactly as long as its outputs, its link inputs and the published files stay as they were |
| ReleaseGuard.AcceptedEvidence | tools/ensure_native_release_outputs.py:84-129 | Accepted evidence has the known format and directory, and lists link inputs of the build directory, each once |
| UnicodeRanges.MergeWords | tools/generate_tokenizer_unicode.py:80-86 | The merged ranges are ascending, apart by more than one, and cover exactly the code points of the inputs |
| UnicodeRanges.SeparatedIsUnique | tools/generate_tokenizer_unicode.py:80-86 | There is only one such table for a set of code points |
| UnicodeRanges.Collect | tools/generate_tokenizer_unicode.py:37-67 | The category table gives every code point the kind of its line, and is canonical for ascending lines |
| UnicodeRanges.KindIsUnique | tools/generate_tokenizer_unicode.py:64-67 | A canonical table gives a code point at most one kind |
| UnicodeRanges.ComposeTable | tools/generate_tokenizer_unicode.py:87-93 | Succeeds exactly when no two retained decompositions share a pair, with exactly the retained ones in strictly ascending order of pairs |
| UnicodeRanges.CompositionInverts | tools/generate_tokenizer_unicode.py:90-93 | Composing what a retained code point decomposes into gives it back and nothing else |
| UnicodeLaws.ReadMeans | tools/generate_tokenizer_unicode.py:46-63 | Reading fails exactly at a Last line for a table that has no First line in front of it |
| UnicodeLaws.KindsAreOfLines | tools/generate_tokenizer_unicode.py:46-67 | A code point has a kind in the category table exactly when a line with its code has the kind, or a Last line has it and the code point is between the code of the First line in front and its own |
| UnicodeLaws.WordsAreOfLines | tools/generate_tokenizer_unicode.py:46-86 | The word ranges cover exactly the code points of word lines, and those between First and Last |
| UnicodeLaws.AscendingLinesGiveCanonical | tools/generate_tokenizer_unicode.py:46-67 | For ascending lines the category table is canonical, with exactly these kinds |
| UnicodeLaws.CompositionMeans | tools/generate_tokenizer_unicode.py:87-93 | The composition table is the ascending one of the pairs that decompose a code point not excluded and of class zero |
| Sorting.SortPermutes | tools/generate_tokenizer_unicode.py:81 | Sorting keeps every item as often as it occurs |
| ByteStrings.Compare | tools/generate_operator_vocabulary.py:172-176 | The emitted comparison decides equality and the lexicographic order of unsigned bytes |
| ByteStrings.LexIsFirstDifference | tools/pack_native_shaders.py:408 | A byte string is not behind another exactly when it begins it, or is smaller where they first differ |
| NameLookup.ScanIsUnique | tools/generate_operator_vocabulary.py:90-101 | With distinct names a linear scan has one answer |
| NameLookup.KindFromBytes | tools/generate_operator_vocabulary.py:167-182 | The emitted binary search terminates and answers every byte string as a linear scan does |
| NameLookup.KindName | tools/generate_operator_vocabulary.py:188-192 | The name of a kind, or nothing exactly when no entry has the kind |
| NameLookup.RoundTrip | tools/generate_operator_vocabulary.py:159-192 | Looking up the name of a kind gives the kind, and the other way round |
| GrowingWriter.Writer.Reserve | tools/generate_proto.py:443-449 | Growing keeps the contents, at least doubles the buffer, and keeps the total copied below its size |
| GrowingWriter.Writer.WriteByte | tools/generate_proto.py:451-454 | Appends one byte |
| GrowingWriter.Writer.WriteRaw | tools/generate_proto.py:461-465 | Appends the data |
| GrowingWriter.Writer.ToUint8Array | tools/generate_proto.py:439-441 | Returns the contents in an array of its own |
| GrowingWriter.RunWrites | tools/generate_proto.py:422-475 | After any writes the writer holds what a list would, in at most twice the space, and earlier snapshots are unchanged |
| ShaderPack.SharedStems | tools/pack_native_shaders.py:219-229 | Finds the source names that several sources share, with their paths; there are none exactly when names are unique |
| ShaderPack.TieIsUnreachable | tools/pack_native_shaders.py:232-255 | With unique source names a compiled shader has a source exactly when one matches, the longest, and the tie error cannot occur |
| ShaderPack.RecordGivesBytes | tools/pack_native_shaders.py:411-424 | A record is aligned and in bounds, and slicing the block at it gives the artifact's bytes |
| ShaderPack.RecordsAreDisjoint | tools/pack_native_shaders.py:411-424 | Records of a block do not overlap |
| ShaderPack.DifferentRecordsAreApart | tools/pack_native_shaders.py:396-456 | Of two different records of a pack in one block, one ends before the other begins |
| ShaderPack.PackBlock | tools/pack_native_shaders.py:401-426 | Packs a block exactly when it fits u32 |
| ShaderPack.BuildPack | tools/pack_native_shaders.py:396-456 | Packs all groups exactly when every block fits, with the records in the order of the paths |
| ShaderPack.EveryRecordGivesAnArtifact | tools/pack_native_shaders.py:411-424 | Every record of a pack gives the bytes of an artifact of its block's group |
| ShaderPack.EveryArtifactHasARecord | tools/pack_native_shaders.py:403-424 | Every artifact of a packed group has a record that gives its bytes |
| ShaderPack.OneRecordForEachPath | tools/pack_native_shaders.py:396-456 | With distinct paths and groups a pack has one record for a path |
| ShaderPack.RecordsAscend | tools/pack_native_shaders.py:456 | The paths of the records of a pack ascend |
| ShaderPack.BlocksAscend | tools/pack_native_shaders.py:401-409 | Of two records of one block the one further on has no smaller path |
| ShaderPack.GapsAreZero | tools/pack_native_shaders.py:410-424 | Behind a record come fewer than four bytes, all zero, and then the next record or the end of the block |

## Left out

- The engine itself, the protobuf clients, model numerics and the reports: an execution is an abstract causal function or an arbitrary terminal state.
- Optimizer registry: identifiers, summaries, rejection of unknown fields and uniqueness of names, and the repetition of fixed-point groups; a run traverses each group once.
- DependencyCycles.Search.Visit: does not model the recursion limit of the interpreter, which a long chain of passes could reach.
- CallerQueues.CallerQueue.Pop: leaves out the decision times that the source writes into the rows next to the decisions.
- Paced runs: exceptions in the middle of the consumer's loop end a run without accounting; only the cleanup step that cancels the queue is a step of the model.
- DescriptorFilter.NoReferenceDangles: assumes that no two top-level declarations have one name, which protoc guarantees; the filter itself does not check it. Types of extensions are the subject of the lemma after it.
- ProfileLaws.KeptExactlyReached: assumes that no two declarations of a file have one name, which protoc guarantees; so do the other laws about profiles.
- Descriptor filter: custom options, several files in one request, and the configuration by environment variables.
- RegistryTokens.Tokenize: takes the answers of the pattern from a table; that these are the first matches of the regular expression is a lemma about the pattern.
- AggregateParsers.AggregateParser.ParseOneValue: does not model the limit on the digits of an integer, and no half of a surrogate pair is a character, so a literal with such an escape alone is refused where the decoder of the source accepts it.
- Aggregate parser: the order in which a message's different fields were first seen; only the order of the values of each field is kept.
- TfliteLowering.LowerOp: element types, shapes, quantization records and their error conditions enter as flags of an operation; only the wiring, the names and the saved arrays are modelled.
- TfliteLowering.LoweredExactlyWhenFed: takes tensor numbers as never negative, except for a missing bias.
- TfliteMeaning.LoweringComputes: assumes that no dequantization writes to a constant tensor, since the exporter would then read the overwritten constant where an operation before it meant the old one. Operators are names applied to terms; their attributes are not modelled.
- TFLite export after lowering: the optimizer, external quantization records, and the files themselves.
- TeacherForcing.Evaluator.Execute: is the assumption about the engine, written as a method: a full call computes every active row, a transition computes the row of one new token, and any call may fail.
- Release finalization before publishing: ELF inspection, stripping, symbolization, and the replacements inside the build directory, which have the same order without a lock.
- ReleaseGuard.ValidateBundle: sees the files at one moment; that the guard reads them one after the other is the subject of the module on publication.
- UnicodeRanges.Collect: stops at a Last line that has no First line and is for one of the tables, where the source goes on with a range that has no beginning and fails when it sorts or writes the ranges.
- UnicodeLaws.KindsAreOfLines: assumes that no Last line has a smaller code than its First line.
- UnicodeRanges.MergeWords: assumes that no range of the database ends before it begins.
- NameLookup.KindFromBytes: names contain no zero byte, so their length is that of the emitted string.
- GrowingWriter: the encoding of variable-length integers, which the generator emits around the bytes.
- Shader packs: compression is invertible and its size is not checked; which files are found, training lists, markers and the input hash.
- Hashes are injective: a fingerprint is the contents.
- Rendering of generated C, TypeScript, Python and Markdown text, downloads, subprocesses and argument parsing.
