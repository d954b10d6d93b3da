# Verified model of the OpenTelemetry Collector's cores

This project models, in Dafny, the parts of the OpenTelemetry Collector that carry state,
share objects or rewrite text, and proves what they promise for every input and every run:

- **Config reference expansion** (`Text`, `Expand`, `References`, `Escaping`, `Templates`,
  `Resolver`): `${...}` references in configuration values, the escape `$$`, and the
  resolver that closes whatever it retrieved.
- **Protobuf wire codec** (`Wire`, `Messages`, `RoundTrip`, `Codec`, `Decoding`): size,
  back-to-front marshalling and bounded-depth unmarshalling of `ArrayValue`, `AnyValue`,
  `KeyValueList` and `KeyValue`, down to varints, tags and unknown fields.
- **Deep copy in place** (`Copying`): copies that use the destination's memory and object
  pools again.
- **Fan-out with data ownership** (`Fanout`): who receives the original payload, who a
  clone, and when the payload is read-only, over trees of fan-outs.
- **Memory limiter** (`MemoryLimiter`): validated configurations, limits, two coupled
  backoffs and the refusal of data, over every run of ticks.
- **Collector lifecycle** (`Lifecycle`, `Collector`, `ConfigDiff`): services, telemetry
  providers, the config provider and partial reloads, over every run of the control loop.
- **Canonical codecs and shared state** (`InstanceIDs`, `SharedComponent`, `Merge`,
  `FeatureGates`).

Pure code is written as functions, and code that updates things step by step as methods,
classes and arrays. Each such method is proved against a function or a predicate, and the
promises are lemmas about that. `dafny verify dfyconfig.toml` checks the whole project.

How the environment enters: a provider is a function from a URI to what it retrieves
(`Env`); merging, flattening and converters are functions (`Library`); clocks, memory
readings, configurations read from outside and failures of called components are
parameters of each step or run; hashes are any functions without collisions; Unicode
character classes are any predicates that keep white space out of names and signals.
`Common` holds what several modules need.

## Findings

Where a promise does not hold of the code, the code is modelled as it is; an input shows
the failure, and the exact condition under which the promise holds is proved.

- The expansion limit is 1000 passes in the code (confmap/expand.go:29) but 100 in its
  documentation (confmap/README.md:52). The pass that finds nothing more counts, so 999
  distinct references succeed and 1000 fail (`Templates.ExpansionIsSubstitution`).
- Section 3.1 of RFC 3986 allows schemes of one letter, and the code does not
  (confmap/expand.go:16-23): of the schemes of the standard it accepts exactly those of at
  least two characters (`Expand.StandardSchemeAcceptedIff`, `Expand.OneLetterScheme`). The
  same pattern is used without anchors on the schemes of providers
  (confmap/resolver.go:110), so that a provider can be accepted under a scheme that no URI
  can name (`Resolver.UnnameableScheme`). A URI can name a scheme exactly when the whole of
  it matches the pattern (`Resolver.ProviderReachableIff`).
- Doubling every `$` protects a tree exactly if no retained original wraps a string or
  another such wrapper: those wrappers are dropped by the first pass
  (`Escaping.DoublingProtects`, with the input in `Escaping.DoublingCanFail`).
- An unknown group is passed over by the decoder exactly if it holds nothing but groups
  and is not the last thing in the message. With a scalar inside, skipping stops after
  that scalar and the end marker is then an error (`Decoding.UnknownGroupPassedOverIff`,
  `Decoding.UnknownGroupRejected`).
- A nil list pointer inside a value is encoded as nothing, so that it comes back unset
  (`RoundTrip.ArrayValueRoundTrip`, `RoundTrip.NilListLost`), and it is copied to an empty
  list (`Copying.CopiedIffNoNil`, `Copying.NilListCopiedEmpty`). Without such pointers
  both are exact.
- Copying a slice of pointers drops the result of each copy (generated_proto_arrayvalue.go:116-118).
  Where the source pointer is nil, the list that was in the destination stays with its old
  values, and a new one is empty (`Copying.NilSourceKeepsOld`). Where the pointer in the
  destination is nil it stays nil, and what was copied is lost
  (`Copying.NilDestinationStaysNil`). The copy of a pointer is deep-equal exactly when both
  pointers are nil, or neither is and the source holds no nil list
  (`Copying.CopiedPointerIff`, for the results of `Copying.CopyArrayValuePtrSlice`).
- With the soft backoff cap off, the hard gate can become longer than the soft gate. That
  happens in some run exactly if collections can be forced and
  `MemoryLimiter.HardOutgrowsSoft` holds (`MemoryLimiter.SoftGateNeverShorterIff`);
  `MemoryLimiter.HardGateCanOutgrow` has a valid configuration and a run of one tick, after
  which 90 MiB would force a collection at once and 200 MiB would not.
- The percentage limits are computed in 64 bits and wrap for machines with more than
  2^64 / 100 bytes; then the soft limit can exceed the hard limit
  (`MemoryLimiter.SoftLimitCanExceedHard`, and exactly when in
  `MemoryLimiter.SoftLimitBelowHardIff`).
- `Run` leaves the collector in `StateClosed` exactly if no reload failed, and shuts the
  config provider down exactly if neither the first setup nor a reload failed
  (`Collector.RunCollector`, `Collector.FailedReloadStaysOpen`).

## Model

| member | source | states |
|---|---|---|
| `Text.LastOpen` | confmap/expand.go:114-121 | the position found is the last `${`, and there is none after it; -1 exactly when there is none |
| `Text.CountDollars` | confmap/expand.go:128-137 | the backwards loop counts exactly the unbroken run of `$` before the opening |
| `Text.SplitJoin` | featuregate/flag.go:34-62 | splitting at a separator undoes joining with it, for parts without it |
| `Text.SplitTerminated` | component/componentstatus/instance.go:82-91 | splitting text in which every part is terminated gives the parts and a last empty one |
| `Text.SortSorts` | component/componentstatus/instance.go:88 | sorting orders any list of strings |
| `Text.CompactAscends` | component/componentstatus/instance.go:89 | compacting a sorted list leaves it strictly ascending |
| `Text.AscendingUnique` | component/componentstatus/instance.go:82-91 | a strictly ascending list is determined by its members |
| `Expand.OneLetterScheme` | confmap/expand.go:16-23 | a URI whose scheme is one letter, whichever it is, is refused |
| `Expand.StandardSchemeAcceptedIff` | confmap/expand.go:16-23 | a URI with any scheme of RFC 3986 is accepted, and split at that scheme, exactly when the scheme has at least two characters |
| `Expand.NameableIff` | confmap/expand.go:225-231 | some URI has a scheme exactly when the whole scheme matches the pattern |
| `Expand.ReferenceAsks` | confmap/expand.go:192-214 | a reference with a scheme asks for exactly the text between its braces, if the scheme is valid, has a provider, and no `$` follows it; otherwise it fails |
| `Expand.BareReferenceAsks` | confmap/expand.go:192-214 | a reference without a scheme asks the provider of the default scheme for the text between its braces |
| `Expand.ReferenceNames` | confmap/expand.go:192-198 | every reference names a scheme and a rest in one of these two ways |
| `Expand.OriginalKeptIff` | confmap/expand.go:43-71 | a value that is neither a string nor keeps a text itself keeps its original text, expanded, exactly while that stays a string, and loses it without an error otherwise |
| `References.FindURIFindsFirst` | confmap/expand.go:111-147 | for every string, the search returns the expandable reference that closes first, as defined independently by position, escape parity and scheme, and "" exactly when there is none |
| `References.StringUnchangedIffNoReference` | confmap/expand.go:42-105 | a string survives a pass unchanged exactly when it has no expandable reference |
| `References.UnchangedPassIsFinal` | confmap/expand.go:42-105 | when a pass over any tree reports no change, its result has no reference in any string or retained original, and a further pass returns the same |
| `References.PassesEndFinal` | confmap/expand.go:28-40 | whatever number of passes it takes, a successful end is fully expanded |
| `References.ExpansionIsFinal` | confmap/expand.go:28-147 | every successful expansion, for any nesting, has no expandable reference left and expands to itself |
| `Escaping.DoubledHasNoReference` | confmap/expand.go:111-147 | a string with each `$` doubled has no expandable reference, whatever the default scheme |
| `Escaping.DoubledIsFullyExpanded` | confmap/expand.go:42-147 | nor has any tree with each `$` in its strings doubled |
| `Escaping.PassOnFullyExpanded` | confmap/expand.go:42-105 | a pass over a fully expanded tree only takes off wrappers around strings and wrappers, and reports no change |
| `Escaping.UnwrappedIffDirect` | confmap/expand.go:42-70 | it takes nothing off exactly when no wrapper holds a string or a wrapper |
| `Escaping.ReplaceUndoesDoubled` | confmap/resolver.go:226-249 | replacing `$$` by `$` undoes the doubling of each `$`, in every string |
| `Escaping.EscapeUndoesDoubled` | confmap/resolver.go:226-249 | un-escaping undoes doubling in every tree, retained originals included |
| `Escaping.DoublingProtects` | confmap/expand.go:28-147 | expanding a doubled tree always succeeds, for every provider; it returns the tree itself exactly when the tree is direct, and exactly then un-escaping gives back the original |
| `Escaping.DoublingCanFail` | confmap/expand.go:49-53 | a doubled string with a retained original comes back without it |
| `Templates.FindsLeading` | confmap/expand.go:111-147 | after text without `$`, the first reference is found |
| `Templates.ReplaceInRender` | confmap/expand.go:189 | replacing the text of one reference in a rendered template replaces exactly its occurrences as a segment |
| `Templates.OnePass` | confmap/expand.go:28-40 | one pass over a template is the substitution of its first reference everywhere, at the price of one pass |
| `Templates.PassesSubstitute` | confmap/expand.go:28-40 | with a given number of passes left, expansion is simultaneous substitution if the distinct references are fewer, and the limit error otherwise |
| `Templates.ExpansionIsSubstitution` | confmap/expand.go:28-190 | for every template of literals and resolvable references without `$`: with at most 999 distinct references the pass loop equals simultaneous substitution, and with more it reports too many expansions |
| `Templates.WholeReference` | confmap/expand.go:159-181 | a text that is one reference becomes the value that the provider answers with, of whatever type, with its string representation as the original if there is one, and fails without an answer |
| `Templates.EmbeddedReference` | confmap/expand.go:182-189 | a reference in a longer text is replaced by the string representation of the answer, and fails if there is none |
| `Resolver.Resolver.constructor` | confmap/resolver.go:153-159 | a new resolver has its URIs, providers and default scheme, has asked no one, holds no handle and has closed nothing |
| `Resolver.CollectProviders` | confmap/resolver.go:105-119 | the loop accepts exactly lists of schemes that match somewhere and are all different |
| `Resolver.LocateUris` | confmap/resolver.go:134-151 | every URI is located, files and drive letters included, or one has a malformed or unknown scheme |
| `Resolver.NewResolver` | confmap/resolver.go:88-160 | a resolver is created exactly for acceptable settings, with the locations of the URIs in order, all the providers and the default scheme |
| `Resolver.PathIsFile` | confmap/resolver.go:136-143 | a path without a colon, or behind a drive letter, is a file, whatever providers there are |
| `Resolver.UriLocated` | confmap/resolver.go:144-151 | a URI with a scheme of at least two characters is split at the scheme exactly if that is valid and has a provider |
| `Resolver.ProviderReachableIff` | confmap/resolver.go:109-112 | every scheme that a URI can have is accepted, and a URI can have a scheme exactly when all of it matches the pattern |
| `Resolver.UnnameableScheme` | confmap/resolver.go:109-112 | a provider scheme that is accepted but that no URI can have |
| `Resolver.Resolver.CloseIfNeeded` | confmap/resolver.go:282-289 | exactly the handles held are closed, in order, each once and whatever fails; then everything ever retrieved is closed |
| `Resolver.Resolver.RetrieveValue` | confmap/resolver.go:291-297 | a provider is asked exactly if the scheme is known, only when all handles of earlier calls are closed, and an answer is held |
| `Resolver.Resolver.FindUri` | confmap/expand.go:111-147 | the search with its counting loop finds what the specification finds |
| `Resolver.Resolver.ExpandUri` | confmap/expand.go:192-214 | the one provider call is for exactly the scheme and the rest that the reference names, and is made exactly if that may be asked for; a successful one adds one handle to those held, a failing one none |
| `Resolver.Resolver.FindAndExpandUri` | confmap/expand.go:152-190 | the first reference is expanded as specified, with one provider call for exactly what it names; without a reference nothing is retrieved |
| `Resolver.Resolver.ExpandText` | confmap/expand.go:72-78 | a string is expanded as specified; a string without reference makes no provider call, successful or not |
| `Resolver.Resolver.ExpandPass` | confmap/expand.go:42-105 | one pass over any value as specified; nothing happens but provider calls, and none on a fully expanded value |
| `Resolver.Resolver.ExpandItems` | confmap/expand.go:79-90 | the same for the loop over the items of a list |
| `Resolver.Resolver.ExpandEntries` | confmap/expand.go:91-102 | the same for the loop over the entries of a map, in any order |
| `Resolver.Resolver.ExpandValueRecursively` | confmap/expand.go:28-40 | the fuel loop computes the specified expansion; nothing happens but provider calls, and none on a fully expanded value |
| `Resolver.Resolver.RetrieveAll` | confmap/resolver.go:171-186 | the configurations of all URIs are merged in order; the providers are asked exactly for the URIs up to the first failure, and every answer is held |
| `Resolver.MergedIsFold` | confmap/resolver.go:171-186 | when every location is answered, the result is the left fold of merging over the answers in their order, each as the second argument, from an empty configuration, and fails exactly if a step of the fold does |
| `Resolver.MergedIff` | confmap/resolver.go:171-186 | retrieval gives a configuration exactly if every location is answered with a map or with nothing and the answers fold to it |
| `Resolver.AsksInOrder` | confmap/resolver.go:171-186 | the providers are asked for the locations in order: for all of them, or up to the first that is not answered or cannot be merged, and not for that one if its scheme is unknown |
| `Resolver.LastAnswerWins` | confmap/resolver.go:171-186 | with plain merging of maps each key has its value from the last configuration that has the key |
| `Resolver.Resolver.ExpandLeaves` | confmap/resolver.go:191-200 | every leaf is expanded and un-escaped, or one fails; a configuration without references makes no provider call |
| `Resolver.Resolver.Resolve` | confmap/resolver.go:164-210 | the call begins by closing all handles held, and only then asks the providers of the resolver, its URIs first, in order and up to the first failure; it closes none of its own; the result is the specified configuration or the first error; without references no other provider call is made |
| `Resolver.SuccessIff` | confmap/resolver.go:171-210 | resolving succeeds with a configuration exactly if the answers of the providers, merged in order, have leaves that all expand, and it is these leaves un-escaped and converted |
| `Resolver.ErrorsIff` | confmap/resolver.go:171-210 | the error is one of retrieval exactly if the answers do not fold, and one of expansion exactly if they do and some leaf does not expand |
| `Resolver.Resolver.Shutdown` | confmap/resolver.go:266-276 | what is held is closed, then every provider of the resolver is shut down once, in any order; an error is reported exactly if a handle or a provider failed |
| `Resolver.Resolver.ShutdownProviders` | confmap/resolver.go:269-271 | every provider is shut down exactly once, whatever fails |
| `Resolver.ResolveManyAndShutdown` | confmap/resolver.go:164-289 | over any sequence of calls of Resolve, each in its own world, followed by Shutdown, the log falls into one part for each call and one for Shutdown: each call begins, closes what is open, oldest first, and asks for the URIs of the resolver in order up to the first failure, with the specified result; Shutdown closes what is then open and every provider; every handle ever retrieved is closed exactly once, and no provider is asked in a call before all handles of earlier calls are closed |
| `Resolver.ExpandDoubled` | confmap/expand.go:28-147 | expanding a doubled value makes no provider call, returns it exactly when it is direct, and exactly then un-escaping gives back the value |
| `Resolver.DoubledLeaves` | confmap/resolver.go:191-200 | all leaves of a doubled configuration expand and un-escape to the original ones, superfluous wrappers aside |
| `Resolver.ResolveDoubled` | confmap/resolver.go:164-210 | Resolve on a doubled configuration asks providers for its URIs only, and hands the converters the original configuration exactly when it is direct |
| `Wire.SovIsLength` | pdata/internal/proto/size.go:10-12 | the size computed from the bit length is the exact length of the varint, for every number |
| `Wire.VarintRoundTrip` | pdata/internal/proto/unmarshal.go:130-148 | reading a written 64-bit varint gives the number and leaves exactly what follows |
| `Wire.VarintOfGroups` | pdata/internal/proto/unmarshal.go:130-148 | any varint of at most ten bytes, also one that the encoder does not write, is read as the sum of its groups of seven bits modulo 2^64 |
| `Wire.UnendingVarint` | pdata/internal/proto/unmarshal.go:130-148 | ten bytes that all continue are an overflow, and fewer up to the end of the input are an unexpected end |
| `Wire.TagRead` | pdata/internal/proto/unmarshal.go:116-127 | a tag is read as a field number and the three lowest bits as the wire type; the field numbers 0 and from 2^31 on are illegal |
| `Wire.LengthErrors` | pdata/internal/proto/unmarshal.go:88-104 | a length of 2^63 or more is invalid, and one beyond the input is an unexpected end |
| `Wire.RecordRoundTrip` | pdata/internal/proto/unmarshal.go:88-104 | reading a written length-delimited payload gives the payload and what follows |
| `Wire.LittleEndianRoundTrip` | pdata/internal/generated_proto_anyvalue.go:709-713 | fixed-width numbers come back from their bytes |
| `Wire.ConversionsInvert` | pdata/internal/generated_proto_anyvalue.go:704-707 | signed numbers survive the conversion to unsigned ones and back |
| `Wire.OrOfDisjoint` | pdata/internal/proto/unmarshal.go:142 | the bitwise or of a number below 2^k and a multiple of 2^k is their sum |
| `Wire.OrIsSum` | pdata/internal/proto/unmarshal.go:142 | one more group, shifted and cut to 64 bits, is or-ed onto the bits so far as if it were added, modulo 2^64, the tenth group included |
| `Wire.EncodeVarint` | pdata/internal/proto/marshal.go:7-17 | the loop writes exactly the varint, ending at the offset, and nothing else in the buffer |
| `Wire.ConsumeVarint` | pdata/internal/proto/unmarshal.go:130-148 | the shift-and-or loop over at most ten bytes computes the number modulo 2^64, the end of input and overflow errors included |
| `Wire.ConsumeTag` | pdata/internal/proto/unmarshal.go:116-127 | field number and wire type as specified, or the error |
| `Wire.ConsumeLen` | pdata/internal/proto/unmarshal.go:88-104 | the payload lies within the buffer exactly when no error is reported |
| `Wire.ConsumeFixed` | pdata/internal/proto/unmarshal.go:79-113 | exactly n bytes or the end of input |
| `Wire.ConsumeUnknown` | pdata/internal/proto/unmarshal.go:35-76 | the loop with its depth counter skips what the recursive specification skips |
| `RoundTrip.SizeArrayExact` | pdata/internal/generated_proto_arrayvalue.go:158-167 | the size of a list is the length of its encoding |
| `RoundTrip.SizeAnyExact` | pdata/internal/generated_proto_anyvalue.go:641-679 | the same for every kind of value |
| `RoundTrip.SizeKvlistExact` | pdata/internal/generated_proto_keyvaluelist.go:158-167 | the same for a list of pairs |
| `RoundTrip.SizeKeyValueExact` | pdata/internal/generated_proto_keyvalue.go:163-178 | the same for a pair |
| `RoundTrip.AnyRoundTrip` | pdata/internal/generated_proto_anyvalue.go:681-898 | decoding the encoding of a value, followed by anything, lays the value over what was there, or reports the depth error exactly when it nests too deeply |
| `RoundTrip.ArrayRoundTrip` | pdata/internal/generated_proto_arrayvalue.go:169-229 | the same for a list, whose values are appended |
| `RoundTrip.KvlistRoundTrip` | pdata/internal/generated_proto_keyvaluelist.go:169-227 | the same for a list of pairs |
| `RoundTrip.KeyValueRoundTrip` | pdata/internal/generated_proto_keyvalue.go:180-275 | the same for a pair |
| `RoundTrip.NormalIffNoNullAny` | pdata/internal/generated_proto_anyvalue.go:715-730 | encoding loses nothing exactly when no message pointer is nil |
| `RoundTrip.ArrayValueRoundTrip` | pdata/internal/generated_proto_arrayvalue.go:158-229 | for every list, depth and prior content: decoding the encoding appends the values if the levels fit under the limit of 100, and reports the depth error if not |
| `RoundTrip.ConcatenationAppends` | pdata/internal/generated_proto_arrayvalue.go:187-229 | two encodings one after the other append the first list and then the second |
| `RoundTrip.NilListLost` | pdata/internal/generated_proto_anyvalue.go:715-722 | a nil list in a list is encoded like an unset value and decodes to one |
| `RoundTrip.DepthLimit` | pdata/internal/proto/unmarshal.go:25 | at depth 100 nothing decodes, and at depth 99 the empty message does, for all four messages |
| `RoundTrip.EncodedBytes` | pdata/internal/generated_proto_keyvalue.go:180-204 | a pair, a list and a floating-point number, byte by byte |
| `Codec.SizeProtoArray` | pdata/internal/generated_proto_arrayvalue.go:158-167 | the loop computes the exact length of the encoding |
| `Codec.SizeProtoAny` | pdata/internal/generated_proto_anyvalue.go:641-679 | the same for every kind of value |
| `Codec.SizeProtoKvlist` | pdata/internal/generated_proto_keyvaluelist.go:158-167 | the same for a list of pairs |
| `Codec.SizeProtoKeyValue` | pdata/internal/generated_proto_keyvalue.go:163-178 | the same for a pair |
| `Codec.MarshalArray` | pdata/internal/generated_proto_arrayvalue.go:169-181 | writing back to front fills exactly the last SizeProto bytes before the end with the encoding and leaves every other byte |
| `Codec.MarshalAny` | pdata/internal/generated_proto_anyvalue.go:681-746 | the same for every kind of value |
| `Codec.MarshalKvlist` | pdata/internal/generated_proto_keyvaluelist.go:169-181 | the same for a list of pairs |
| `Codec.MarshalKeyValue` | pdata/internal/generated_proto_keyvalue.go:180-204 | the same for a pair |
| `Codec.UnmarshalArray` | pdata/internal/generated_proto_arrayvalue.go:187-229 | the loop over positions decodes exactly as the specification on the remaining bytes, errors included |
| `Codec.UnmarshalAnyField` | pdata/internal/generated_proto_anyvalue.go:752-898 | the same for one field of a value |
| `Codec.UnmarshalAny` | pdata/internal/generated_proto_anyvalue.go:752-898 | the same for a value |
| `Codec.UnmarshalKvlist` | pdata/internal/generated_proto_keyvaluelist.go:187-227 | the same for a list of pairs |
| `Codec.UnmarshalKeyValue` | pdata/internal/generated_proto_keyvalue.go:210-275 | the same for a pair |
| `Codec.MarshalThenUnmarshal` | pdata/internal/generated_proto_arrayvalue.go:158-229 | in any buffer that is large enough the prefix stays, and what was written decodes to the values appended to the prior ones |
| `Decoding.DecodingIsIncremental` | pdata/internal/generated_proto_arrayvalue.go:187-229 | for all bytes: when a message decodes, decoding it with more bytes behind is decoding those onto its result |
| `Decoding.UnknownScalarPassedOver` | pdata/internal/proto/unmarshal.go:35-76 | an unknown field that is no group changes nothing |
| `Decoding.ArrayToken` | pdata/internal/generated_proto_arrayvalue.go:205-226 | elements of another wire type, and the end of a group that did not start, are errors |
| `Decoding.AnyToken` | pdata/internal/generated_proto_anyvalue.go:757-898 | every known field of a value with its wire type replaces the value, whatever its bytes are; with another wire type it is an error; unknown scalar fields change nothing |
| `Decoding.KvlistToken` | pdata/internal/generated_proto_keyvaluelist.go:203-224 | the same for a list of pairs |
| `Decoding.KeyValueToken` | pdata/internal/generated_proto_keyvalue.go:210-275 | the same for a pair, whose other fields stay |
| `Decoding.ExtraEndFails` | pdata/internal/proto/unmarshal.go:35-76 | a message whose groups close once too often never decodes |
| `Decoding.SkipGroup` | pdata/internal/proto/unmarshal.go:35-76 | skipping a balanced group takes all of it if it holds only groups, and stops early after a scalar |
| `Decoding.UnknownGroupPassedOverIff` | pdata/internal/proto/unmarshal.go:35-76 | an unknown balanced group before a decodable rest is passed over exactly if it holds no scalar and something follows; otherwise the message is rejected |
| `Decoding.UnknownGroupRejected` | pdata/internal/proto/unmarshal.go:35-76 | a four-byte message with a well-formed unknown group is rejected |
| `Copying.CopiedIffNoNil` | pdata/internal/generated_proto_anyvalue.go:461-465 | a copy is deep-equal to its source exactly when the source has no nil list |
| `Copying.NilListCopiedEmpty` | pdata/internal/generated_proto_anyvalue.go:461-465 | a nil list is copied to an empty one, also inside a list |
| `Copying.Pools.GetWrapper` | pdata/internal/generated_proto_anyvalue.go:248-259 | an object from the pool leaves it, is overwritten and has no bytes left, and no other changes |
| `Copying.Pools.GetArray` | pdata/internal/generated_proto_arrayvalue.go:31-36 | a list from the pool is empty and leaves it |
| `Copying.CopyAny` | pdata/internal/generated_proto_anyvalue.go:427-488 | the copy has the content of the source and consists of objects that are new or were pooled and are pooled no more |
| `Copying.CopyBytes` | pdata/internal/generated_proto_anyvalue.go:473-476 | copied bytes are in memory of their own, also in an object from the pool |
| `Copying.CopyList` | pdata/internal/generated_proto_anyvalue.go:461-465 | the same for a list behind a pointer, nil included |
| `Copying.DeleteTail` | pdata/internal/generated_proto_anyvalue.go:411-425 | values beyond the new length are cut off and, with pooling on, all of them and nothing else go to the pool; the others stay where they were and out of the pool |
| `Copying.CopySlice` | pdata/internal/generated_proto_anyvalue.go:490-506 | for any length and capacity of the destination the list ends with the content of the source, shares no object with the source or the pools, and the source is as it was |
| `Copying.CopyArrayValue` | pdata/internal/generated_proto_arrayvalue.go:56-72 | the same for a list that may be nil; a destination that is the source, or whose source is nil, is not written to |
| `Copying.CopyEach` | pdata/internal/generated_proto_arrayvalue.go:116-118 | the loop over pointers, nil ones included, each list with a region of its own: afterwards every pointer has behind it what one copied pointer should have, again each in a region of its own |
| `Copying.DeleteArrayValue` | pdata/internal/generated_proto_arrayvalue.go:38-54 | the list is emptied, only its own objects enter the pools, and the list itself only if it may |
| `Copying.CopyArrayValueSlice` | pdata/internal/generated_proto_arrayvalue.go:74-90 | for all lengths and capacities: each list has the deep content of the source in a region apart from the other lists, the source and the pools; slots in excess are emptied, slots beyond the old length stay, and the source is unchanged |
| `Copying.CopyArrayValuePtrSlice` | pdata/internal/generated_proto_arrayvalue.go:92-120 | the same for pointers, nil ones in source and destination included: behind each pointer is what CopiedPointer says, by the source and by what was there or, for a new pointer, an empty list; pointers that were there are used again, in the same array if it is large enough, and the excess ones are cleared |
| `Copying.CopiedPointerIff` | pdata/internal/generated_proto_arrayvalue.go:92-120 | a copied pointer is deep-equal to its source exactly when both pointers are nil, or neither is and the source has no nil list |
| `Copying.NilSourceKeepsOld` | pdata/internal/generated_proto_arrayvalue.go:116-118 | a nil source over a list with one value leaves that value in the result |
| `Copying.NilDestinationStaysNil` | pdata/internal/generated_proto_arrayvalue.go:92-118 | a list copied over a nil pointer leaves it nil |
| `Fanout.SplitKeepsLeaves` | internal/fanoutconsumer/logs.go:26-34 | splitting consumers by capability neither loses nor repeats a leaf |
| `Fanout.ThoseInOrder` | internal/fanoutconsumer/logs.go:26-34 | each of the two lists has all its consumers once, each behind exactly those of its list that were given before it |
| `Fanout.ComponentsInOrder` | internal/fanoutconsumer/logs.go:49-77 | components in one list are called in the order of the list |
| `Fanout.AllMutate` | internal/fanoutconsumer/logs.go:43-46 | below a consumer that declares that it mutates there is a leaf, and every leaf does |
| `Fanout.FailingExact` | internal/fanoutconsumer/logs.go:49-77 | the errors are those of the failing leaves, as often as these are called |
| `Fanout.NewFanout` | internal/fanoutconsumer/logs.go:21-36 | a single consumer that does not mutate is returned as it is; otherwise the two lists hold the mutating and the other consumers in order, and the leaves are those given |
| `Fanout.Clone` | internal/fanoutconsumer/logs.go:79-83 | a clone is a new writable object with equal content |
| `Fanout.ConsumeMutable` | internal/fanoutconsumer/logs.go:52-65 | every mutating consumer but possibly the last gets its own clone; the original is handed over only if the fan-out mutates and the original is writable |
| `Fanout.ConsumeReadonly` | internal/fanoutconsumer/logs.go:67-74 | the other consumers share the original unchanged, read-only when there are several |
| `Fanout.Consume` | internal/fanoutconsumer/logs.go:49-77 | for every tree and every behaviour of the leaves: each leaf is called once, in order, with the original content; a mutating leaf's object is writable and held by no one else; every other leaf holds the original itself, which keeps its content and is read-only when shared; if the tree declares that it mutates and the original is writable, the last leaf and no other gets the original; a tree that does not report mutation leaves the original content; errors are exactly those of the failing leaves |
| `MemoryLimiter.SoftLimitBelowHardIff` | internal/memorylimiter/memorylimiter.go:177-193 | for a validated configuration the soft limit does not wrap and is at most the hard limit exactly with a fixed limit, or when the limit leaves 64 bits no more often than the difference to the spike makes up for, in terms of the two shares and how often they leave 64 bits; so whenever both leave them equally often |
| `MemoryLimiter.SoftLimitCanExceedHard` | internal/memorylimiter/memorylimiter.go:338-340 | a valid configuration and a total memory for which the soft limit exceeds the hard one |
| `MemoryLimiter.FixedLimits` | internal/memorylimiter/memorylimiter.go:177-181 | in bytes: with a fixed limit, memory is above the hard limit from limit_mib MiB on, and above the soft one from limit_mib - spike_limit_mib MiB on, or from four fifths on without a spike limit |
| `MemoryLimiter.PercentageLimits` | internal/memorylimiter/memorylimiter.go:182-193 | the same with percentages of the total memory, as long as the share of the limit fits in 64 bits |
| `MemoryLimiter.ValidIff` | internal/memorylimiter/config.go:97-138 | the configurations that are valid |
| `MemoryLimiter.EffectiveIff` | internal/memorylimiter/memorylimiter.go:220-223 | an observation is effective exactly below the soft limit, or at 95% of the reading before or less, where 95 times that reading is cut to 64 bits |
| `MemoryLimiter.NextIntervalClosedForm` | internal/memorylimiter/memorylimiter.go:249-256 | one more backoff step leads from min(2^k m, M) to min(2^(k+1) m, M), and from 0 to the first value; with the cap off it is the configured minimum |
| `MemoryLimiter.SoftGateNeverShorterIff` | internal/memorylimiter/memorylimiter.go:220-300 | for validated configurations, at every check of every run, the soft gate is never shorter than the hard gate, exactly unless collections can be forced and the hard path outgrows a soft path without cap; so always when both caps are on |
| `MemoryLimiter.HardGateCanOutgrow` | internal/memorylimiter/memorylimiter.go:259-300 | a valid configuration and a run of one tick after which a reading above the hard limit has to wait and one above the soft limit has not |
| `MemoryLimiter.IneffectiveReachableIff` | internal/memorylimiter/memorylimiter.go:220-240 | every number of ineffective collections is met at a check of some run, exactly if collections can be forced; otherwise only none is |
| `MemoryLimiter.NewMemoryLimiter` | internal/memorylimiter/memorylimiter.go:104-131 | creation fails exactly if the total memory is needed and cannot be read; a new limiter has the limits of its configuration, refuses nothing and has no backoff |
| `MemoryLimiter.Limiter.CheckLimitAndBackoff` | internal/memorylimiter/memorylimiter.go:220-240 | both intervals follow the number of ineffective forced collections since the last effective reading |
| `MemoryLimiter.IneffectiveCounts` | internal/memorylimiter/memorylimiter.go:220-240 | the number by which the intervals grow is that of the forced collections from which on no observation was effective |
| `MemoryLimiter.Limiter.ForceGC` | internal/memorylimiter/memorylimiter.go:205-211 | a collection is recorded with its times and the reading after it |
| `MemoryLimiter.Limiter.CheckMemLimits` | internal/memorylimiter/memorylimiter.go:259-312 | readings, collections and reports after a tick are those of the tick as a function of the history and the world: a collection is forced exactly if enabled, above the soft limit and past the gate of the path; refusal and status follow the last reading |
| `MemoryLimiter.TickCollects` | internal/memorylimiter/memorylimiter.go:279-300 | a tick forces a collection, and records its times and both readings, exactly if collections are enabled, the reading is above the soft limit and the gate of its path is open |
| `MemoryLimiter.TickReports` | internal/memorylimiter/memorylimiter.go:265-312 | a tick reports that data is refused exactly when that begins, and that all is well exactly when its last reading is below the soft limit and data was refused or an earlier reading of the tick was above |
| `MemoryLimiter.Ticks` | internal/memorylimiter/memorylimiter.go:220-312 | after every run of ticks, in terms of the run as a function of the world: each interval is min(2^k m, M) for k ineffective forced collections; any two collections are more than the hard minimum apart; the soft gate is not shorter when both caps are on; data is refused exactly when the last reading was above the soft limit, and exactly when the last status reported is the recoverable error |
| `Lifecycle.AtMostOneAlive` | otelcol/collector.go:414-513 | after every prefix of an accepted run at most one service is created and not stopped |
| `Lifecycle.RunningMeansStarted` | otelcol/collector.go:278-286 | whenever the last state set is running, a service is alive and was started |
| `Lifecycle.ConfigProviderOnce` | otelcol/collector.go:495-513 | the config provider is shut down at most once and never asked afterwards |
| `Lifecycle.ServiceCounts` | otelcol/collector.go:414-513 | every service is created at most once, and stopped once if it is not alive any more |
| `Lifecycle.ProviderCounts` | service/service.go:150-224 | every telemetry provider is created at most once, and stopped once if it does not run any more |
| `Lifecycle.ProvidersRun` | service/service.go:150-224 | a service is created, and stopped, while its own logger and providers run |
| `Lifecycle.ReverseOrder` | service/service.go:289-323 | when a provider is stopped, every provider created after it was stopped before |
| `Lifecycle.AllStoppedOnce` | otelcol/collector.go:495-513 | when nothing is alive, every service and provider ever created was stopped exactly once |
| `Collector.Unwind` | service/service.go:150-224 | the deferred clean-ups stop what was created, in reverse order, and do nothing else |
| `Collector.NewService` | service/service.go:108-224 | at whatever step creation fails, exactly the providers of the earlier steps were created, in order, and stopped again, in reverse; on success all three run and the service is alive |
| `Collector.StartService` | service/service.go:232-258 | the service counts as started exactly if starting works |
| `Collector.ShutdownService` | service/service.go:289-323 | whatever steps fail, all steps are done, the three providers stop in reverse order, and an error is reported exactly if a step failed |
| `Collector.LaunchService` | otelcol/collector.go:232-280 | a service that was created but not started is shut down again, with its providers |
| `Collector.Collector.constructor` | otelcol/collector.go:129-157 | a new collector has nothing alive |
| `Collector.Collector.SetupConfigurationComponents` | otelcol/collector.go:183-287 | it fails exactly if one of its steps fails, with nothing alive, and its events are the specified ones; otherwise the service runs the configuration read |
| `Collector.Collector.TryPartialReceiverReload` | otelcol/collector.go:328-364 | a partial reload is attempted exactly when the new configuration differs from that of the last full start, over any chain of partial reloads, only in receivers; the service is told exactly the receivers that changed since the last applied configuration, and keeps running |
| `Collector.Collector.ReloadConfiguration` | otelcol/collector.go:289-322 | it falls back to a full reload unless the partial one succeeds, with the specified steps, and fails exactly if retiring or the new setup fails, with nothing alive |
| `Collector.Collector.Shutdown` | otelcol/collector.go:495-513 | config provider and service are shut down whatever fails, and the collector is closed |
| `Collector.Collector.Run` | otelcol/collector.go:414-493 | for every sequence of inputs the run ends, and goes event by event, as specified from the configurations and failures alone; when it has returned nothing is alive |
| `Collector.Collector.Loop` | otelcol/collector.go:461-493 | the same for the control loop |
| `Collector.RunAccounted` | otelcol/collector.go:183-513 | every run step by step: a setup that is not ready creates neither provider nor service and ends the run closed; one whose service is not created or does not start creates exactly the providers reached, and stops them in reverse; one that works has its eight events. Each input either updates the receivers that changed, or retires the service and then fails at the first step that fails, without a service, or starts the next one, or shuts everything down |
| `Collector.AcceptedIsSafe` | otelcol/collector.go:414-513 | acceptance by the automaton means the safety properties in terms of the events alone |
| `Collector.StoppedIsClean` | otelcol/collector.go:495-513 | and ending with nothing alive means that all was stopped exactly once |
| `Collector.RunCollector` | otelcol/collector.go:414-513 | every run of a new collector has exactly the specified events, which are those that RunAccounted describes; if factories fail, or the configuration is missing, invalid, cannot be marshalled or has no fingerprint when that is needed, no provider and no service is created, and the run ends closed with a failed setup; one service alive at a time, with its own logger and providers running when it is created and when it is stopped; running means started, providers stopped in reverse order, config provider shut down at most once and not asked afterwards; when Run has returned, every service and provider was stopped exactly once, and the state is closed exactly if no reload failed |
| `Collector.FailedReloadStaysOpen` | otelcol/collector.go:464-482 | a reload that fails to read a configuration ends the run, all of whose events are given, with the state not closed and the config provider not shut down |
| `ConfigDiff.HashEntriesByID` | otelcol/config_diff.go:98-120 | the loop hashes every entry under its ID and nothing else |
| `ConfigDiff.ClonePipelines` | otelcol/config_diff.go:70-78 | the clone has the same pipelines |
| `ConfigDiff.FingerprintForPartialReload` | otelcol/config_diff.go:55-81 | the fingerprint is the specified one |
| `ConfigDiff.FilterIDs` | otelcol/config_diff.go:193-201 | the IDs of connectors, in order |
| `ConfigDiff.ConnectorsInOrder` | otelcol/config_diff.go:193-201 | every connector is kept, behind exactly the connectors in front of it |
| `ConfigDiff.CheckReceiversOnlyChanged` | otelcol/config_diff.go:152-189 | the early returns compute the specified relation |
| `ConfigDiff.ReceiversOnlyIff` | otelcol/config_diff.go:152-189 | with a collision-free hash two configurations count as differing in receivers only, exactly when they are equal after striking receiver settings and plain receivers from them |
| `ConfigDiff.StruckIff` | otelcol/config_diff.go:138-189 | what must be the same: telemetry, extensions, processors, exporters and connectors, the enabled extensions, and in every pipeline the processors, the exporters and the connectors among the receivers |
| `ConfigDiff.ReceiversOnlyEquivalence` | otelcol/config_diff.go:152-226 | this relation is reflexive, symmetric and transitive |
| `ConfigDiff.ChangedReceivers` | otelcol/config_diff.go:218-226 | the loop collects the receivers in both fingerprints whose hashes differ |
| `ConfigDiff.ChangedReceiversExact` | otelcol/config_diff.go:218-226 | these are exactly the receivers in both configurations whose settings differ |
| `Collector.ChangedIsDiffering` | otelcol/config_diff.go:218-226 | the same as a set, with a collision-free hash |
| `InstanceIDs.IDRoundTrip` | pipeline/pipeline.go:50-88 | a valid pipeline ID is read back from its text, which is not empty and has no delimiter |
| `InstanceIDs.StringInjective` | pipeline/pipeline.go:82-88 | different valid IDs have different texts |
| `InstanceIDs.UnmarshalValid` | pipeline/pipeline.go:50-103 | whatever is read is a valid ID |
| `InstanceIDs.UnmarshalIff` | pipeline/pipeline.go:50-103 | an ID is read from exactly the texts that are its signal, and behind a slash its name if it has one, with spaces around each |
| `InstanceIDs.EncodingIsCanonical` | component/componentstatus/instance.go:82-91 | two encodings are equal exactly when they encode the same set |
| `InstanceIDs.UnionListed` | component/componentstatus/instance.go:82-91 | sorting and compacting the old and the new texts lists the union once each, in order |
| `InstanceIDs.UpToIsPrefix` | component/componentstatus/instance.go:51-68 | what is visited is a prefix of the list that ends where the callback returns false |
| `InstanceIDs.VisitEncoding` | component/componentstatus/instance.go:51-68 | scanning the encoding visits the listed IDs up to the first refusal |
| `InstanceIDs.InstanceID.constructor` | component/componentstatus/instance.go:30-37 | the pipelines are the set of those given, in any order and with any repetition |
| `InstanceIDs.InstanceID.AddPipelines` | component/componentstatus/instance.go:82-91 | the pipelines become the union, in canonical encoding |
| `InstanceIDs.InstanceID.WithPipelines` | component/componentstatus/instance.go:72-80 | a new object with the union; the old one is unchanged |
| `InstanceIDs.InstanceID.AllPipelineIDs` | component/componentstatus/instance.go:51-68 | the byte loop with its buffer visits the set in sorted order, each ID once, until the callback returns false |
| `InstanceIDs.Compare` | component/componentstatus/instance.go:20-28 | two instance IDs built in any way are equal exactly when component, kind and set of pipelines are |
| `SharedComponent.HostWrapper.constructor` | internal/sharedcomponent/sharedcomponent.go:77-81 | a new wrapper has no source and no event |
| `SharedComponent.HostWrapper.Remember` | internal/sharedcomponent/sharedcomponent.go:120-123 | writing into the ring keeps it equal to the last five events of the log |
| `SharedComponent.HostWrapper.SendToAll` | internal/sharedcomponent/sharedcomponent.go:124-126 | every source gets the event once |
| `SharedComponent.HostWrapper.Report` | internal/sharedcomponent/sharedcomponent.go:116-127 | an event is logged exactly if there is a source, and every source still has the log from at most five events before it joined |
| `SharedComponent.HostWrapper.Replay` | internal/sharedcomponent/sharedcomponent.go:132-136 | going around the ring gives the last five events, oldest first |
| `SharedComponent.LastFiveIs` | internal/sharedcomponent/sharedcomponent.go:77-81 | what is replayed is the last five events of the log, or all of a shorter one |
| `SharedComponent.HostWrapper.AddSource` | internal/sharedcomponent/sharedcomponent.go:129-138 | a newcomer gets exactly the last five events and then joins |
| `SharedComponent.Component.Start` | internal/sharedcomponent/sharedcomponent.go:74-98 | the wrapped component is started once, every call returns the result of that start, and every host that can report joins the sources behind those there are, with the events of the first start, or later with the last five events |
| `SharedComponent.Map.LoadOrStore` | internal/sharedcomponent/sharedcomponent.go:32-53 | the live component of the key, or a new one, or nothing if creation fails |
| `SharedComponent.Map.Shutdown` | internal/sharedcomponent/sharedcomponent.go:141-148 | the first call stops the component and frees its key, further ones do nothing |
| `SharedComponent.OneLivePerKey` | internal/sharedcomponent/sharedcomponent.go:32-53 | two live components never share a key |
| `SharedComponent.Perform` | internal/sharedcomponent/sharedcomponent.go:32-148 | any operation on any component handed out returns what the step of the reference state says, brings the map, the components and the handles to that state, and keeps all components valid and apart |
| `SharedComponent.History` | internal/sharedcomponent/sharedcomponent.go:74-148 | after any run each component is what the operations about it come to: started by the first start, with its error, stopped by the first shutdown; its sources are the reporters of all starts in order, and its log the events since the first of them joined |
| `SharedComponent.LiveIff` | internal/sharedcomponent/sharedcomponent.go:32-53 | after any run the live component of a key is the one with the key that is not stopped |
| `SharedComponent.LoadResult` | internal/sharedcomponent/sharedcomponent.go:32-53 | a load hands out that component, or a new one if there is none and it can be created |
| `SharedComponent.StartAndStopResults` | internal/sharedcomponent/sharedcomponent.go:74-148 | a start returns the error of the first start, and a shutdown its own error only if it is the first |
| `SharedComponent.Run` | internal/sharedcomponent/sharedcomponent.go:32-148 | any sequence of operations returns the results of the reference run, which has logs in place of rings, and ends in its state; no component was started or stopped twice, of two with the same key one is stopped, and every reporter has the log from at most five events before it joined |
| `Merge.IsPresent` | confmap/internal/merge.go:87-94 | whether the value is in the list |
| `Merge.MergeSlice` | confmap/internal/merge.go:72-85 | the two loops compute the specified merge |
| `Merge.MergedIsFirstOccurrences` | confmap/internal/merge.go:72-94 | a merge is the first list followed by the elements of the second that are new, each at its first occurrence |
| `Merge.MergeIdempotent` | confmap/internal/merge.go:72-94 | merging the same list again changes nothing |
| `Merge.MergeAssociative` | confmap/internal/merge.go:72-94 | merging is associative, duplicates in any list included |
| `Merge.MergeAll` | confmap/internal/merge.go:72-94 | folding over any number of lists gives the first list followed by each later element at its first occurrence |
| `FeatureGates.SetKeepsConsistent` | featuregate/registry.go:172-198 | setting a gate keeps the registry consistent, keeps every stage, and changes no other gate |
| `FeatureGates.Registry.Register` | featuregate/registry.go:132-169 | a gate is registered exactly if its ID, options, stage and versions are acceptable and it is new, enabled by default for beta and stable |
| `FeatureGates.ValidIDIff` | featuregate/registry.go:21-25 | an ID is valid exactly if it has only word characters and dots, and no dot at an end or behind another |
| `FeatureGates.RegisterMeans` | featuregate/registry.go:132-169 | a new gate is off if it is alpha or deprecated and on if it is beta or stable, and the stable and the deprecated ones need a version to end in |
| `FeatureGates.RegisterRefuses` | featuregate/registry.go:132-169 | a malformed or known ID, a malformed option and versions in reverse order are refused, and change nothing |
| `FeatureGates.Registry.Set` | featuregate/registry.go:172-198 | a gate takes the value exactly if it exists and its stage allows it |
| `FeatureGates.Registry.VisitAll` | featuregate/registry.go:201-213 | all gates, each once, in the order of their IDs |
| `FeatureGates.Registry.String` | featuregate/flag.go:34-50 | the printed flag names every gate, with a minus sign for the disabled ones |
| `FeatureGates.Registry.SetFlag` | featuregate/flag.go:52-76 | the entries are applied in order, and the refused ones are counted without stopping |
| `FeatureGates.EntryForms` | featuregate/flag.go:60-73 | an ID alone or behind a plus sign turns a gate on, and behind a minus sign off |
| `FeatureGates.LastEntryDecides` | featuregate/flag.go:52-76 | of several entries for an alpha or beta gate the last one decides |
| `FeatureGates.EntriesKeepStages` | featuregate/flag.go:52-76 | no entry adds or removes a gate or changes a stage, and the refused entries are those that are empty, name no gate, or turn a stable gate off or a deprecated one on |
| `FeatureGates.EntryReadBack` | featuregate/flag.go:34-70 | a printed entry is read back as its gate and value |
| `FeatureGates.EntriesRestore` | featuregate/flag.go:52-76 | entries printed earlier are all accepted later, restore the gates they name, and change no other |
| `FeatureGates.PrintedRestores` | featuregate/flag.go:34-76 | the same for the whole text of the flag, the empty registry included |
| `FeatureGates.PrintThenSet` | featuregate/flag.go:34-76 | in any reachable registry, after any operations in between, setting the flag to what was printed reports no error, restores every gate there was, and leaves those registered since as the operations left them |

## Left out

- Fan-out of metrics, traces and profiles: copies of the logs version.
- Which of several errors is reported: errors are kept apart by kind where the code branches on them, and counted or collected by origin otherwise.
- The koanf library's merge, flatten and unflatten, converters and YAML: parameters of the resolver. The order of map iteration is any order, which no result depends on.
- Expansion of strings that hold both an escaped and an unescaped copy of the same reference: the model follows the code, which rewrites both, and no theorem is stated about it.
- Templates.ExpansionIsSubstitution: is about string values of references without `$`; other values are covered by the lemmas on one reference and by the finality theorem.
- Resolver.Resolver.Shutdown: the watcher's channel is a flag.
- Codec.UnmarshalArray: what the list holds after a decoding error is not modelled; the decoder returns the error only.
- Codec.UnmarshalAny: the same for a value.
- Codec.UnmarshalKvlist: the same for a list of pairs.
- Codec.UnmarshalKeyValue: the same for a pair.
- The JSON codecs, and the other messages of pdata: generated from the same templates.
- Copying.CopyAny: scalars of every type are one integer and the pools of all wrappers one pool; lists of pairs are not copied in this model, since their copies have the shape of those of lists.
- Copying.CopyArrayValuePtrSlice: the lists behind the pointers in use in the destination share nothing with each other, with the source or with the pools, as writing into them presupposes.
- Copying.CopyArrayValueSlice: slots are separate objects in place of one block of memory, so that a slot's address is its identity.
- MemoryLimiter.Ticks: 95% of the check interval is one fixed non-negative duration, and durations are below 2^62 nanoseconds; goroutines, the ticker, Start and Shutdown are not modelled.
- Collector.Collector.TryPartialReceiverReload: what UpdateReceivers does to the graph with the changed receivers is one event that may fail; the graph and the extensions are not modelled.
- Collector.Collector.Run: the inputs come one after another in any order; goroutines, signals and channels are not modelled.
- ConfigDiff.HashEntriesByID: keys are component IDs already; the errors of parsing keys and of hashing are one flag of the setup.
- ConfigDiff.FingerprintForPartialReload: its errors are that flag too.
- ConfigDiff.ClonePipelines: pipelines are values, so that the independence of the clone from the original slices is not stated.
- InstanceIDs.UnmarshalValid: the length of a name is counted in characters and not in bytes.
- InstanceIDs.UnmarshalIff: the same.
- SharedComponent.Run: operations are sequential; locks and concurrent first starts are not modelled.
- FeatureGates.Registry.Register: a version is its rank among versions, and parsing versions and URLs only succeeds or fails; descriptions are not kept.
- HTTP and gRPC clients and servers, TLS, compression, exporters, queues and retries, the schema loader and the command line: input and output, or wrappers around other code.
