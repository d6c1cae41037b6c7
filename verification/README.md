# lazydns, modelled and proved in Dafny

lazydns is a DNS server. This project models the parts of it that keep state, interleave, rewrite trees
or carry data there and back, and proves what those parts are for. One module per component:

- `YamlTree`, `EnvOverrides`: configuration overrides from environment variables. A write into the argument
  tree obeys the lens laws, two writes commute exactly when they are independent, and a whole snapshot gives
  one result for every order of the hash map exactly when its entries are pairwise swappable.
- `EnvSubstitution`, `SubstitutionLimits`: the text substitution loop is one simultaneous substitution in every
  environment exactly for the texts with at most one token, and for any text under conditions on its values.
- `FileWatcher`: the debounced watcher as a state machine with a clock: one task per pending path, every
  recorded event called back, no early callback, a latency bound, and a bounded wind-down after a stop.
- `DomainValidator`: the verdict on a name, and the cache that concurrent requests share. The cached plugin
  agrees with the validator on a name exactly when that name's verdict does not depend on the question type.
- `PluginBuilder`: plugins as objects in creation order. The step edges form no cycle for any configuration,
  also when the pass stops on an error and the program goes on; a named step leads to the finally registered
  object exactly when the pass gets through no sequence of that name at or after the one that names it.
- `Shutdown`: accept loops with permits, the shutdown bus, draining and the launcher's join.
- `DnsTypes`, `EdnsOptions`, `Wire`, `WireMeaning`, `UdpResponse`, `StreamFraming`: code tables, the EDNS option
  codec, the conversion to the protocol library's messages and back from either side, what the two forms say of
  each other field by field, UDP truncation, and length-prefixed streams.
- `ResponseSharing`, `GotoHandler`: copy-on-write responses refine private copies; the goto loop ends within
  the number of registered plugins when gotos are acyclic, and exactly then when gotos are unconditional.
- `GeoSite`: the dot-boundary text test is a suffix test on label lists; a lookup finds a category exactly if
  some loaded line means the domain, whatever the order of the lines.
- `Common`, `Text`, `Reordering`: shared datatypes, splitting and joining text, and the theorem that swappable
  updates give one result for every permutation.

`dafny verify dfyconfig.toml` checks the whole project.

Three places where the code does something other than it appears to are kept as they are:

- Different variable names can denote one argument path, and then the order of a hash map decides which value
  survives (`EnvOverrides.DifferentNamesCanCollide`); `EnvOverrides.OrderIrrelevantIff` says
  exactly for which snapshots order never matters.
- A substituted value that spells a later token is substituted again
  (`EnvSubstitution.ValueIsSubstitutedAgain`); `SubstitutionLimits.AlwaysAgreesIff` says exactly which texts are
  safe in every environment.
- The validator's cache is keyed by the name alone, although the verdict also depends on the question type
  (`DomainValidator.SecondIsServedFromCache`); `DomainValidator.CacheAgreesIff` says exactly which names suffer.

## Model

| member | source | states |
|---|---|---|
| YamlTree.SetPath | src/config/loader.rs:345-425 | the cursor loop, with its creation, resizing and replacement of nodes, computes the recursively defined write `Put` for every tree and path |
| YamlTree.PutGet | src/config/loader.rs:345-425 | reading back at the written path gives the written value |
| YamlTree.PutPut | src/config/loader.rs:345-425 | of two writes to one path the last wins |
| YamlTree.GetPut | src/config/loader.rs:345-425 | writing the value that is already there changes nothing |
| YamlTree.PutFrame | src/config/loader.rs:345-425 | every value readable at a path that parts at a segment of the same kind stays readable and unchanged; all that can appear there is null padding |
| YamlTree.PutReplacesOtherKind | src/config/loader.rs:345-425 | where the paths part at segments of different kinds, nothing is left at the other path |
| YamlTree.PutsCommuteIff | src/config/loader.rs:345-425 | two writes commute on a tree if and only if they are independent, a condition on the two writes alone |
| YamlTree.PartSameKindIsIndependent | src/config/loader.rs:345-425 | paths that part at segments of one kind are independent whatever the values |
| EnvOverrides.NormalizedAlikeIff | src/config/loader.rs:460-463 | a tag and a name are identified if and only if they are equal up to case and to writing hyphens as underscores; normalising twice is normalising once |
| EnvOverrides.IndexIsParsed | src/config/loader.rs:323-329 | the decimal text of every index within the machine's range is parsed to that index, and no larger one is an index |
| EnvOverrides.KeyIsParsed | src/config/loader.rs:323-329 | a part with a character that is no digit, bar a leading plus, is a key |
| EnvOverrides.KeyPathIsParsed | src/config/loader.rs:322-329 | parts joined by underscores are the segments of the path, in order |
| EnvOverrides.Find | src/config/loader.rs:331-336 | the first plugin whose name normalises to the tag is chosen |
| EnvOverrides.Config.ApplyOverrides | src/config/loader.rs:217-440 | a pass over the snapshot updates the configuration as the fold of the single overrides, in the order given |
| EnvOverrides.SettingChangesItsOwn | src/config/loader.rs:228-305 | a fixed variable changes the reading of its own setting and of no other, and no plugin: words become the text, switches its truth, a log target is enabled there and keeps its rotation and compression; an empty log variable changes nothing |
| EnvOverrides.ReadingsDetermine | src/config/loader.rs:228-305 | a configuration is determined by the readings of its settings and its plugins, so nothing escapes the previous row |
| EnvOverrides.Config.ApplyToPlugin | src/config/loader.rs:308-436 | a plugin override rewrites the arguments of one plugin, resetting arguments that are not a mapping |
| EnvOverrides.OverrideIsReadBack | src/config/loader.rs:331-436 | the value is read back at its path in the first plugin of that tag, and no other plugin changes |
| EnvOverrides.EntryIsReadBack | src/config/loader.rs:307-436 | the same for an entry of the snapshot, and no setting changes |
| EnvOverrides.ArgWritesCommuteIff | src/config/loader.rs:337-436 | two writes to one plugin's arguments commute if and only if both start at a key and are independent, or both start at an index and write the same sequence |
| EnvOverrides.PluginWritesCommuteIff | src/config/loader.rs:308-436 | the same for the plugin list: different tags never interfere, an unknown tag never matters |
| EnvOverrides.SettingsSwapIff | src/config/loader.rs:228-305 | two fixed settings commute if and only if they differ or have the same effect |
| EnvOverrides.SwapIff | src/config/loader.rs:217-440 | two overrides of any kinds commute on a configuration if and only if a condition on their keys, values and the plugin names holds |
| EnvOverrides.OrderIrrelevantIff | src/config/loader.rs:217-440 | a snapshot gives one configuration for every permutation if and only if any two of its entries are swappable, which is decided by the entries and the plugin names |
| EnvOverrides.PartingIsUnordered | src/config/loader.rs:217-440 | key-first paths that part at segments of one kind are swappable |
| EnvOverrides.PartingSnapshotsAreOrderFree | src/config/loader.rs:217-440 | a snapshot of distinct variables whose key-first argument paths part pairwise at segments of one kind is applied alike in every order |
| EnvOverrides.DifferentNamesCanCollide | src/config/loader.rs:228-440 | two differently named variables whose order decides the result, on every configuration whose first plugin is named x |
| EnvSubstitution.MatchIsUnique | src/config/loader.rs:16 | a token at the front of a text has one length only |
| EnvSubstitution.NameCharsAre | src/config/loader.rs:16 | names are made of upper-case letters, digits and underscores |
| EnvSubstitution.SpelledIsToken | src/config/loader.rs:16 | every text of a name in braces after a dollar sign, alone or with `:-` and a non-empty default without a closing brace, is a token with that name and that default |
| EnvSubstitution.TokenIsSpelled | src/config/loader.rs:16 | and every token is such a text |
| EnvSubstitution.SingleTokenResult | src/config/loader.rs:68-94 | on a single token the loop gives the variable's value if it is set, otherwise the default, and otherwise fails with the name |
| EnvSubstitution.SubstituteEnvVars | src/config/loader.rs:68-94 | the loop performs one global replacement per matched token, in order, and stops at the first name without value or default |
| EnvSubstitution.ReplaceOne | src/config/loader.rs:68-94 | one global replacement in a half-substituted text replaces exactly the tokens of that spelling |
| EnvSubstitution.SameError | src/config/loader.rs:76-90 | if some name has no value, loop and substitution fail on the same name |
| SubstitutionLimits.AlwaysAgreesIff | src/config/loader.rs:68-94 | for every text: the loop is the simultaneous left-to-right substitution in all environments if and only if the text holds at most one token |
| SubstitutionLimits.TwoCanDiffer | src/config/loader.rs:68-94 | for every text with two or more tokens there is an environment in which the loop differs from the substitution |
| SubstitutionLimits.OneSpellingOfText | src/config/loader.rs:68-94 | where all tokens of a text are spelled alike, one global replacement is the substitution |
| EnvSubstitution.QuietTextIsSubstituted | src/config/loader.rs:68-94 | for every text and environment: if no default hides an opening, values hold neither $ nor {, and no $ of the text comes to stand before a { of the text, the loop is the substitution |
| EnvSubstitution.DollarFreeTextIsSubstituted | src/config/loader.rs:68-94 | the same if there is no dollar sign outside the tokens or in a value |
| EnvSubstitution.ValueIsSubstitutedAgain | src/config/loader.rs:68-94 | on the text of any two tokens, a first value that spells the second token is replaced again, and loop and substitution differ unless the second value spells it too |
| FileWatcher.StepKeeps | src/utils/mod.rs:97-199 | every step keeps: one task per pending path, none for others, pending times are the last recorded events, a path is pending exactly while a callback is owed, and no callback within the window |
| FileWatcher.RunKeeps | src/utils/mod.rs:97-199 | every interleaving keeps that invariant |
| FileWatcher.EventsAreArrivals | src/utils/mod.rs:112-139 | in every run the events of the history are exactly the events that arrived, told from the run's steps alone, in order and each with its path, kind and arrival time; only the last may still be unrecorded |
| FileWatcher.HistoryIsArrivals | src/utils/mod.rs:112-139 | the same from the start |
| FileWatcher.ArrivalIsRecorded | src/utils/mod.rs:134-139 | an idle loop takes any event, also one for a pending path, and its window starts anew |
| FileWatcher.RemovalPauses | src/utils/mod.rs:141-152 | the loop goes on at once after an event, but only after 50 ms if it was a removal |
| FileWatcher.StopTakesNothing | src/utils/mod.rs:204-211 | a stopped loop takes no event in any continuation |
| FileWatcher.IdleCanStop | src/utils/mod.rs:204-211 | an idle loop can always be stopped, which changes nothing else |
| FileWatcher.EventsAreAnswered | src/utils/mod.rs:97-199 | in every run from the start each recorded event is followed by a callback for its path, or its path is pending and has its one task or is about to get it |
| FileWatcher.PunctualStepKeeps | src/utils/mod.rs:120-199 | with punctual wake-ups each step keeps the deadlines, the 50 ms pause being granted to removals only |
| FileWatcher.LatencyBound | src/utils/mod.rs:120-199 | with punctual wake-ups a callback comes after the window and before last event + 2 windows, or by last event + window, plus 50 ms if that event was a removal; past that bound nothing is owed |
| FileWatcher.Drains | src/utils/mod.rs:112-199 | from any state of a punctual run the pending map empties without waiting for further events |
| FileWatcher.EveryEventIsCalled | src/utils/mod.rs:97-199 | every recorded event gets its callback, within the bounds, in a continuation without new events |
| FileWatcher.NeverStuck | src/utils/mod.rs:97-199 | the punctuality assumption never blocks the clock: some step is possible, and work due now is finite |
| FileWatcher.AfterStop | src/utils/mod.rs:154-211 | after a stop the history grows by callbacks only, one for each path that leaves the pending map |
| FileWatcher.WakesAreBounded | src/utils/mod.rs:154-199 | after a stop every wake-up uses up a finite measure |
| FileWatcher.StopIsBounded | src/utils/mod.rs:36-42 | the callbacks after a stop number the paths that left the map, and at most two wake-ups per pending path remain |
| DomainValidator.LabelVerdictsAgree | src/plugins/domain_validator.rs:95-108 | the question type changes the verdict on a label only if the label leads with an underscore, which is a character fault for other questions |
| DomainValidator.ValidateDomain | src/plugins/domain_validator.rs:68-134 | the loop over labels returns the fault of the first faulty label |
| DomainValidator.ValidateLabel | src/plugins/domain_validator.rs:84-130 | the byte checks report length before characters before format, for every label and question type |
| DomainValidator.HasDoubleHyphen | src/plugins/domain_validator.rs:121-127 | the scan finds a double hyphen if and only if there is one |
| DomainValidator.AcceptedIff | src/plugins/domain_validator.rs:68-134 | a name is accepted if and only if it is the root, or has a legal length and only legal labels |
| DomainValidator.FaultIff | src/plugins/domain_validator.rs:68-134 | which fault is reported: the name's length first, then the first faulty label's, its length before its characters before its format |
| DomainValidator.AlphanumericIff | src/plugins/domain_validator.rs:99-117 | the legal bytes are the ASCII letters and digits |
| DomainValidator.PunycodeIff | src/plugins/domain_validator.rs:121-127 | a label is taken for Punycode if and only if it begins with xn-- in any case and goes on |
| DomainValidator.ServiceBindingIff | src/plugins/domain_validator.rs:99-108 | the question types that allow an underscore are those of codes 64 and 65 |
| DomainValidator.FaultsDifferIff | src/plugins/domain_validator.rs:84-134 | the question type matters if and only if an underscore label stands after legal labels only, and no label has a character illegal even for a service question after labels legal for one |
| DomainValidator.SensitiveIff | src/plugins/domain_validator.rs:68-134 | the names whose verdict depends on the question type, told from length and labels alone |
| DomainValidator.TouchKeeps | src/plugins/domain_validator.rs:149-169 | a hit adds nothing to the cache and keeps one entry per name |
| DomainValidator.PutKeeps | src/plugins/domain_validator.rs:192-213 | a store keeps one entry per name, never exceeds the capacity, and is found afterwards |
| DomainValidator.KnownGoesFirst | src/plugins/domain_validator.rs:149-213 | a hit or a store of a known name moves its entry to the front and leaves the others in their order |
| DomainValidator.NewGoesFirst | src/plugins/domain_validator.rs:192-213 | a store of a new name goes to the front, and the entry used longest ago goes only if the cache is full; a miss changes nothing |
| DomainValidator.LookupHits | src/plugins/domain_validator.rs:149-169 | a request that finds its name is answered with the cached verdict, and the entry counts as just used |
| DomainValidator.LookupMisses | src/plugins/domain_validator.rs:149-169 | a request that does not find its name goes on to validate and leaves the cache alone |
| DomainValidator.StoreGoesFirst | src/plugins/domain_validator.rs:192-213 | whatever happened in the meantime, a checked verdict is stored in front of what is cached then |
| DomainValidator.StepKeeps | src/plugins/domain_validator.rs:139-222 | every lookup, check or store of any request keeps: cache within capacity, each cached verdict is the validator's for that name under a question type already asked |
| DomainValidator.RunKeeps | src/plugins/domain_validator.rs:139-222 | so does every concurrent run |
| DomainValidator.SecondIsServedFromCache | src/plugins/domain_validator.rs:139-222 | for every name, an address question after a service question is answered with the service verdict |
| DomainValidator.CacheAgreesIff | src/plugins/domain_validator.rs:35-222 | the plugin answers a name as the validator alone would, in every concurrent run, if and only if the name's verdict does not depend on the question type |
| DomainValidator.PlainNamesAgree | src/plugins/domain_validator.rs:35-222 | names with no label starting with an underscore are always answered as by the validator, and the cache never exceeds max(1, cache size) |
| PluginBuilder.Builder.BuildPlugin | src/plugin/builder.rs:38-102 | a plugin that builds is registered under its name as a new object; one that fails leaves the builder as it was |
| PluginBuilder.BuildsIff | src/plugin/builder.rs:38-102 | a build succeeds if and only if the plugin is a sequence, a server or one its factory creates, and then adds one object and registers it |
| PluginBuilder.Builder.LoadAll | src/main.rs:134-152 | building all configurations skips the failing ones |
| PluginBuilder.Builder.ParseSequenceSteps | src/plugin/builder.rs:271-364 | steps are resolved against the registry of the moment; unresolved actions are skipped, a malformed entry fails; the state reached is given in both cases |
| PluginBuilder.Builder.ParseNameList | src/plugin/builder.rs:129-158 | the list of names resolves each one, or fails on the first unknown or ill-typed entry |
| PluginBuilder.Builder.ResolveSequences | src/plugin/builder.rs:107-166 | pass 1 replaces the sequences in order up to the first error; the registry it leaves is given in both cases |
| PluginBuilder.RebuildAllGrounded | src/plugin/builder.rs:107-166 | after pass 1, finished or stopped by an error, every step leads to an object created before its sequence, and every name to an existing object |
| PluginBuilder.StepGraphIsAcyclic | src/main.rs:134-162 | whatever the configuration, and whether or not pass 1 fails, no walk along step edges returns to its start |
| PluginBuilder.PassStopsAtFirstUnresolvable | src/plugin/builder.rs:107-166 | pass 1 gets through exactly the configurations before the first sequence with a malformed step, unsupported arguments or an unregistered name in its list |
| PluginBuilder.RegistryMoves | src/plugin/builder.rs:107-166 | pass 1 moves a name to a new object if it gets through a sequence of that name, and otherwise leaves it |
| PluginBuilder.StepIsFinalIff | src/plugin/builder.rs:107-166 | a named step of a rebuilt sequence leads to the finally registered object if and only if pass 1 gets through no sequence of that name at the same or a later position; otherwise to an older one |
| PluginBuilder.MentionIsStep | src/plugin/builder.rs:271-364 | every reference of a rebuilt sequence to a registered name becomes a step |
| PluginBuilder.ForwardReferenceIsStale | src/plugin/builder.rs:107-166 | a sequence that names itself or a later sequence, both reached by pass 1, has a step to an object other than the registered one |
| PluginBuilder.RebuiltIsRegisteredIff | src/plugin/builder.rs:107-166 | the object rebuilt for a sequence is the registered one at the end if and only if pass 1 gets through no later sequence of its name |
| PluginBuilder.UnreachedIsPlaceholder | src/main.rs:157-162 | a sequence that pass 1 does not get through and whose name no later buildable configuration takes, is still registered as its empty placeholder if and only if no sequence of its name was rebuilt before the error |
| PluginBuilder.StepsAreWanted | src/plugin/builder.rs:271-364 | the steps of a list are exactly the registered references and created actions of its entries, in order |
| PluginBuilder.InlineStepsAreNew | src/plugin/builder.rs:331-364 | every inline action is a new object that no other step of the list leads to; named steps lead to objects that existed before |
| PluginBuilder.NamesAreWanted | src/plugin/builder.rs:129-158 | a list of names resolves if and only if every entry is a registered name, and then to one step per name in order |
| PluginBuilder.NamedStepsAreMentioned | src/plugin/builder.rs:271-364 | named steps of a rebuilt sequence come only from references in its configuration |
| PluginBuilder.ListedInOrderIsFinal | src/main.rs:134-162 | if sequences stand after the sequences they name, every named step of a rebuilt sequence leads to the finally registered object, and to a rebuilt one if it names a sequence, even if pass 1 fails later |
| Shutdown.StepProgress | src/server/udp.rs:213-270 | no step gives a request to a server that has left its loop, revives an ended one or takes back the signal |
| Shutdown.RunKeeps | src/server/tcp.rs:99-163 | over every run available permits + requests in flight = the maximum, for each server, and the bus is one-way |
| Shutdown.EveryRunIsSound | src/server/dot.rs:129-182 | so in every run of the program from its start |
| Shutdown.SpawnedServerAccepts | src/server/launcher.rs:308-335 | a new server accepts with all permits free and no request, and its handle is kept |
| Shutdown.ReceiveTakesIff | src/server/udp.rs:225-262 | an accepting server takes a request if and only if a permit is free, and drops it otherwise; no other takes one |
| Shutdown.FinishFrees | src/server/udp.rs:240-262 | a finished request gives its permit back, in every phase |
| Shutdown.LeavesIffSignalled | src/server/common.rs:12-43 | a server leaves its loop if and only if the shutdown is signalled; a drain ends when all permits are back, or by its timeout |
| Shutdown.DrainedStaysEmpty | src/server/common.rs:12-43 | a drain that ended other than by its timeout leaves no request in flight, now or later |
| Shutdown.HandlesStayNew | src/server/launcher.rs:308-335 | the handle kept for a server that starts differs from all handles kept before |
| Shutdown.Launcher.LaunchAll | src/server/launcher.rs:210-232 | launching servers, some of which fail to start, leaves the vector of handles that the step relation has after spawning the others |
| Shutdown.Launcher.WaitForServers | src/server/launcher.rs:162-179 | the loop takes the handles newest first and sorts them into completed, awaited at the timeout and aborted; all of them completed if and only if it succeeds |
| Shutdown.OutcomeIsRun | src/server/launcher.rs:162-179 | the loop's result is the join of a run of the step relation: the start, one completion per awaited server, and a timeout if any is left |
| Shutdown.RunIsOutcome | src/server/launcher.rs:162-179 | conversely the join of every run, whatever happens in between, is the loop's result for as many completions |
| Shutdown.RunKeepsOrder | src/server/launcher.rs:162-179 | whatever else happens during the join, no handle is lost or duplicated |
| Shutdown.ReversedAt | src/server/launcher.rs:162-179 | the last handle pushed is the first taken |
| Shutdown.JoinPartitionsHandles | src/server/launcher.rs:156-179 | at any point of the join each pushed handle is in exactly one class; success means all completed, failure means exactly one was left being awaited and the completed and aborted ones are over |
| Shutdown.GracefulShutdown | src/server/launcher.rs:156-179 | if the join succeeds and no drain timed out, no launched server has a request in flight, whatever happens afterwards |
| Shutdown.ShutdownCanSucceed | src/server/common.rs:12-43 | from any sound state after the signal, without new requests and without any timeout, every server that was not over drains to the end and the join succeeds |
| DnsTypes.CodesRoundTrip | src/dns/types.rs:76-392 | for types, classes and response codes: decoding then encoding a code is the identity, and encoding then decoding is the identity if and only if the value is not an unknown-variant alias of a named code |
| DnsTypes.OpCodesRoundTrip | src/dns/types.rs:271-301 | the same for operation codes |
| DnsTypes.AssignedNumbers | src/dns/types.rs:76-392 | the named types, classes, response and operation codes have the numbers the IANA registries assign |
| EdnsOptions.EdnsOptionsBlob | src/dns/wire.rs:178-189 | the loop emits the concatenated options |
| EdnsOptions.SetEdnsOptions | src/dns/wire.rs:359-374 | on arbitrary bytes the parser yields the map of the complete options, the last duplicate winning |
| EdnsOptions.CutEncoded | src/dns/wire.rs:178-189 | encoded options are read back first, whatever bytes follow |
| EdnsOptions.HighByteFirst | src/dns/wire.rs:178-189 | 16-bit numbers stand high byte first, in both directions |
| EdnsOptions.OptionLayout | src/dns/wire.rs:178-189 | an option is its code, the length of its value and the value |
| EdnsOptions.CutIsLongest | src/dns/wire.rs:359-374 | any bytes are the encoding of the options read plus a remainder that holds no further option |
| EdnsOptions.PrefixIsCut | src/dns/wire.rs:359-374 | every list of options that the bytes begin with is the beginning of what is read: the longest well-formed prefix |
| EdnsOptions.OptionsRoundTrip | src/dns/wire.rs:178-189 | flattening a map in any order and parsing gives the map back (section 6.1.2 of RFC 6891) |
| Wire.ConvertSection | src/dns/wire.rs:317-329 | the section loop converts record by record, dropping what the library cannot carry, and fails on the first bad name |
| Wire.ConvertQuestions | src/dns/wire.rs:306-315 | questions keep name and type and always become internet-class ones |
| Wire.ConvertAdditional | src/dns/wire.rs:331-354 | OPT records become EDNS data, a later one replacing an earlier one; the others are converted |
| Wire.ConvertToLibrary | src/dns/wire.rs:257-355 | the setters and loops build the converted message, or report the bad name |
| Wire.ConvertFromLibrary | src/dns/wire.rs:78-173 | the loops build the message back, with the OPT record last; `WireMeaning.FromLibraryCarries` says what is in it |
| Wire.ConvertLibSection | src/dns/wire.rs:132-152 | the loop keeps the records whose data can be represented, in order; `WireMeaning.FromSectionCarries` says which and how |
| Wire.ConvertsIff | src/dns/wire.rs:257-355 | conversion fails if and only if a name that is looked at is illegal |
| Wire.RecordRoundTrip | src/dns/wire.rs:198-254 | a record comes back with only the spelling of its codes changed, including the 32-bit SOA fields read as signed and back |
| Wire.SectionRoundTrip | src/dns/wire.rs:377-473 | a section comes back as its convertible records in order |
| Wire.ReturnedIff | src/dns/wire.rs:331-354 | an additional section survives if and only if it is normal: at most one OPT record, last, root name, TTL 0, payload at least 512, no flag but DO |
| Wire.RoundTripIff | src/dns/wire.rs:78-473 | for every option order: the result of the round trip is normal, and is the message itself, options compared as a map, if and only if the message was normal |
| Wire.ConvertsAgain | src/dns/wire.rs:78-473 | what came back converts again |
| Wire.RoundTripIsIdempotent | src/dns/wire.rs:78-473 | there and back twice is the same as once |
| WireMeaning.FromRecordCarries | src/dns/wire.rs:198-254 | a library record comes over if and only if its data is present and emits, with its name, codes, TTL and data: typed data without a variant of its own as its raw bytes |
| WireMeaning.FromSectionCarries | src/dns/wire.rs:132-152 | a section comes over as one record per library record that emits, in order, each saying the same |
| WireMeaning.FromQuestionsCarry | src/dns/wire.rs:122-131 | questions keep name, type code and class code |
| WireMeaning.FromLibraryCarries | src/dns/wire.rs:78-173 | header, questions, records and EDNS data of every library message are in the message it becomes, for every option order |
| WireMeaning.BuildableIff | src/dns/wire.rs:377-473 | exactly the data that the library has a form for are built |
| WireMeaning.RecordFailsIff | src/dns/wire.rs:377-473 | a record fails to convert if and only if its name or a name in its data is illegal, and is dropped if and only if the library has no form for it |
| WireMeaning.ToSectionCarries | src/dns/wire.rs:377-473 | a section goes to the library as its convertible records in order, each saying the same field by field |
| WireMeaning.LastEdnsIsLast | src/dns/wire.rs:331-352 | the last OPT record sets the EDNS data: payload at least 512, version, extended code, DO bit and options |
| WireMeaning.NoOptNoEdns | src/dns/wire.rs:331-352 | without an OPT record there is no EDNS data |
| WireMeaning.ToLibraryCarries | src/dns/wire.rs:257-355 | header, questions and convertible records of every message are in the library message it becomes |
| WireMeaning.LibRecordReturns | src/dns/wire.rs:198-473 | a library record that goes out and back is itself, its bytes under its own type if it was typed data |
| WireMeaning.LibraryReturns | src/dns/wire.rs:78-473 | a library message that goes out and back is what it was, but for internet questions, codes clipped to 255, typed data as bytes, data that emits nothing, and a payload of at least 512 |
| UdpResponse.ClientUdpLimit | src/server/udp.rs:343-355 | if record i is the first of type OPT, the limit is max(512, its class value), and without such a record 512 |
| UdpResponse.FitUdpResponse | src/server/udp.rs:357-381 | a datagram within the limit is sent unchanged, a longer one is replaced by its truncation if that serializes |
| UdpResponse.HandleRequest | src/server/udp.rs:273-321 | the reply is the handler's message under the request's id, fitted to the client's limit |
| UdpResponse.TruncatedConverts | src/server/udp.rs:357-381 | a response that converts still converts truncated, with id, codes and questions kept |
| UdpResponse.ReplyFits | src/server/udp.rs:273-381 | the datagram encodes the answer under the request's id if that fits the limit, and otherwise its truncation; the oversized fallback is never sent; with at most one question it fits the limit, truncated ones into 12+255+4 bytes |
| UdpResponse.StrippedKeeps | src/server/udp.rs:357-381 | a truncation keeps id, codes, questions and every flag but TC, which is set, and has no records |
| StreamFraming.FramesOfStream | src/server/dot.rs:203-286 | framed messages are read back in order, whatever follows |
| StreamFraming.FramesExactly | src/server/dot.rs:203-286 | every list of messages of 1 to 65535 bytes survives the stream (section 4.2.2 of RFC 1035) |
| StreamFraming.InputIsFramesAndTail | src/server/dot.rs:203-230 | any input is the framing of the messages read plus a tail without a whole non-empty message |
| StreamFraming.WholeIsMost | src/server/dot.rs:203-230 | the messages counted as arrived are the most that fit the bytes |
| StreamFraming.FramesOfCutStream | src/server/dot.rs:203-230 | a stream cut anywhere yields exactly the messages that arrived whole |
| StreamFraming.HandleDotConnection | src/server/dot.rs:203-286 | on any input and for any handler, the connection loop receives the framed messages in turn and writes the framed answers, until the input ends, a length is zero, or something fails |
| StreamFraming.PipelinedExchange | src/server/dot.rs:203-286 | a client that pipelines any list of messages reads back exactly the n-th answer for the n-th message, and the connection closes cleanly (section 3.3 of RFC 7858) |
| StreamFraming.BrokenExchange | src/server/dot.rs:203-286 | if the stream breaks, exactly the messages that arrived whole are received and answered, and the connection fails if and only if it broke inside a body |
| StreamFraming.FailureStopsExchange | src/server/dot.rs:224-286 | a message that cannot be answered within a frame is the last one received; the answers before it were written and nothing after |
| StreamFraming.ZeroLengthCloses | src/server/dot.rs:224-230 | a length of zero closes the connection, whatever follows |
| StreamFraming.FrameLayout | src/server/dot.rs:262-280 | a frame is the length, high byte first, and the message |
| StreamFraming.HandleTcpConnection | src/server/tcp.rs:175-255 | one message within the size limit is answered with one frame; in every other case nothing is written, and exactly when |
| ResponseSharing.Owners.SetResponse | src/plugin/context.rs:83-85 | the owner sees its new response, held alone; no other view changes |
| ResponseSharing.Owners.ShareResponse | src/plugin/context.rs:88-90 | taking a clone of another owner's reference shows that owner's view and changes no other |
| ResponseSharing.Owners.MoveResponse | src/plugin/context.rs:88-90 | taking over another owner's reference shows its view, leaves that owner nothing, and changes no other |
| ResponseSharing.Owners.MakeUnique | src/plugin/context.rs:78-80 | afterwards the owner holds its message alone, every view is unchanged, and a copy was made if and only if another owner held it |
| ResponseSharing.Owners.MutateResponse | src/plugin/context.rs:78-80 | the owner's view becomes the changed message if it had one; no other view changes |
| ResponseSharing.Owners.TakeResponse | src/plugin/context.rs:104-109 | the owner's view is returned and nothing is left in its place; no other view changes; it is copied if and only if shared |
| ResponseSharing.Owners.CountTellsAliasing | src/plugin/context.rs:72-109 | a strong count of one means no other owner, and conversely |
| ResponseSharing.Owners.PerformAll | src/plugin/context.rs:72-109 | any run over shared cells shows every owner, and hands out, what private copies would |
| ResponseSharing.SecondTakeIsEmpty | src/plugin/context.rs:104-109 | after a take the owner has nothing until it is given something: whatever the others do in between, a second take yields nothing |
| ResponseSharing.Isolation | src/plugin/context.rs:72-109 | an owner that imports nothing sees exactly what its own operations alone would show it |
| GotoHandler.StartsClean | src/plugin/mod.rs:106-129 | each goto target starts with neither a label nor the return flag, and otherwise with the context its predecessor left |
| GotoHandler.RunsAreShort | src/plugin/mod.rs:106-129 | in an acyclic registry no plugin is executed twice and a run never exceeds the number of registered plugins, for every plugin behaviour |
| GotoHandler.EndedRunIsWhole | src/plugin/mod.rs:106-129 | a handler has one ended run, and every run is a beginning of it |
| GotoHandler.RunEnds | src/plugin/mod.rs:106-129 | in an acyclic registry every run can be completed |
| GotoHandler.CycleNeverEnds | src/plugin/mod.rs:106-129 | from a cycle of unconditional gotos no run ends |
| GotoHandler.EndsIff | src/plugin/mod.rs:106-129 | where gotos do not depend on the context, the handler ends from every entry if and only if they are acyclic |
| GotoHandler.Reply | src/plugin/mod.rs:173-182 | the reply carries the id of the context's request; without a response it is a server failure without records |
| GotoHandler.StoreResponse | src/plugin/mod.rs:131-147 | with a response, and only then, each cache plugin runs once more in registry order, errors ignored |
| GotoHandler.StoresOncePerCache | src/plugin/mod.rs:131-147 | if there is a response, exactly the positions of the order whose plugin is named cache are executed, once each, on the context left before them |
| GotoHandler.Handle | src/plugin/mod.rs:68-184 | whenever the run on the given context ends, the handler follows that run, within the number of registered plugins if gotos are acyclic, fails if and only if an execution failed, and otherwise replies from the context that run left |
| GotoHandler.ReplyHasOriginalId | src/plugin/mod.rs:173-182 | if no plugin rewrites the request's id, the reply carries the id that came in, after any number of gotos and stores |
| GeoSite.CheckDomain | src/plugins/geosite.rs:83-99 | the search over exact names and suffixes finds a match if and only if there is one |
| GeoSite.TextMatchesIff | src/plugins/geosite.rs:83-99 | for all strings the dot-boundary text test holds if and only if the suffix's label list ends the domain's |
| GeoSite.AddPatternMeans | src/plugins/geosite.rs:143-158 | adding a pattern adds exactly the domains it means, stated on label lists |
| GeoSite.ParseIff | src/plugins/geosite.rs:186-204 | for every text a line is used if and only if it has two words and the first does not begin with #, and then as these two words |
| GeoSite.LineIsRead | src/plugins/geosite.rs:185-207 | a line of a category and a pattern is read as such, however indented and spaced and whatever follows |
| GeoSite.Plugin.AddDomain | src/plugins/geosite.rs:143-158 | the pattern is added to its category, which is created if missing; other categories are untouched |
| GeoSite.Plugin.LoadFromString | src/plugins/geosite.rs:185-207 | loading adds the usable lines in order and skips the others |
| GeoSite.Plugin.Lookup | src/plugins/geosite.rs:213-220 | nothing is found if and only if no category matches; what is found matches, for every order of the map |
| GeoSite.LoadedIff | src/plugins/geosite.rs:185-207 | a category holds a domain if and only if it did before or some loaded line gives it |
| GeoSite.LookupIff | src/plugins/geosite.rs:213-220 | after loading, a category is found if and only if some line means the domain; it is one a line gives, and the only one if there is only one |
| GeoSite.LoadOrderIsFree | src/plugins/geosite.rs:185-207 | any permutation of the lines loads the same table |
| Reordering.OrderFree | src/config/loader.rs:228-440 | updates that commute pairwise give one result for every permutation of the list |
| Text.JoinSplit | src/plugins/domain_validator.rs:84-90 | splitting at a separator and joining again is the identity |
| Text.SplitJoin | src/plugins/domain_validator.rs:84-90 | separator-free parts are what splitting their join gives back |
| Text.LowerLetters | src/plugins/geosite.rs:73-84 | upper-case letters become the letters at the same place of the alphabet, all else stays |

## Left out

- Handle: requires that the run on the given context ends, since otherwise the original does not return; `GotoHandler.EndsIff` and `GotoHandler.CycleNeverEnds` say when that is.
- The watcher, the shared cache, the accept loops and the join are step relations over values, so that steps of different tasks interleave freely; their in-place updates are whole-state updates there.
- QuietTextIsSubstituted: for one given environment the conditions are sufficient only, since values can also agree by coincidence; over all environments `SubstitutionLimits.AlwaysAgreesIff` is exact.
- Put: `set_path` is modelled on tree values with an explicit spine above the cursor, not on mutable nodes; the update in place of a shared tree is not captured, and no tree is shared in the original.
- Reading environment variables, the building of the snapshot, the pattern that recognises plugin variables, and the parsing of a value's text as YAML: keys and parsed values are inputs.
- Non-string mapping keys, and a resize to an index near the machine's limit, which would exhaust memory.
- Lower-casing of characters beyond ASCII (`EnvOverrides`, `GeoSite`).
- Include processing (`process_includes`) and all other file-system access.
- EventsAreAnswered: an event that has been stamped but not yet recorded when the program ends is not counted as recorded; the time spent inside callbacks and in waiting for the locks is not modelled.
- The notification library and the re-watching calls themselves; only their 50 ms pause is a step.
- Setting the response for a rejected name, and the validator's log and metrics.
- The LRU library's internals: the cache is a list, most recently used first.
- Passes 2 and 3 of `resolve_references`: the children of fallback plugins are resolved after the steps and are no step edges, so a sequence and a fallback that name each other can still execute each other.
- The parsing of conditions: whether a condition parses is an input.
- Internals of sequence, fallback, cache and forward plugins: an execution is an arbitrary context transformer.
- Panics of server tasks, and the admin, monitoring and web tasks, which are not joined.
- Socket errors in accept loops, a server that fails before its loop (it ends without draining, with no request), TLS, DoH and DoQ.
- The library's byte encoder and decoder, name text with escapes, and the lossy decoding of TXT bytes: names are label lists, which hides that the root comes back as the empty text and that parsing may change the spelling of a name; TXT strings are text, and `UdpResponse.ReplyFits` assumes of the encoder that a message which encodes still does with TC set and its records removed, into at most its uncompressed size.
- ReplyFits: with several questions a truncated datagram may exceed the limit, as in the original; only the size of the questions bounds it then.
- Read timeouts and write errors on streams: the input is what arrives before the connection ends.
- HandleDotConnection: input that stops inside a body is an error as in the original; the two ways of ending inside a header, end of stream and timeout, are one.
- Weak references to a response, of which there are none, and the metadata operations of a context other than the label and flag used by the goto loop.
- The event-log and reverse-lookup hooks after the goto loop, which do not change the response.
- `GeoSite`'s metadata output and the file formats other than lines of text.
