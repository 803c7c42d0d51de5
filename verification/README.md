# Verified models of Ferrin's deterministic cores

Ferrin is a Rust toolkit for talking to language models.  Much of it moves data between
services, but some parts are small, deterministic machines that everything else relies on.
This project models those parts in Dafny 4.11 and proves what they promise.  `dafny verify
dfyconfig.toml` checks all of it.

Code that updates fields, buffers or local variables step by step is modelled by classes,
methods and loops, each proved equal to a function on values; what the code promises is then
proved about that function, against a definition that does not share the code's steps wherever
there is one.

## What is modelled

**Repairing truncated JSON** (`JsonGrammar`, `Truncation`, `PartialJson`, `RepairProofs`,
`RepairTheorems`).  A 17-state pushdown machine closes JSON that a stream has cut off.
`JsonGrammar` is RFC 8259 (sections 2 to 7) as concrete syntax trees with unique readability.
`Truncation` says, by recursion on the tree, what is left of a document after k characters.
The main theorem, `RepairCuts`, equates the machine's output with that cut for every document
and every k; that the output is JSON, grows monotonically and is stable follows from it.
`StepSound` and `RepairExtendsPrefix` speak about arbitrary input instead.

**OpenAI strict mode and its references** (`JsonValues`, `JsonPointers`, `UriFragments`,
`StrictSchema`, `StrictProofs`, `LocalReferences`, `StrictForm`, `StrictRewrite`,
`StrictValidation`, `StrictTransform`, `StrictAgain`, `SchemaMeaning`, `StrictMeaning`,
`StrictLimits`, `TellingApart`, `LostMeaning`, `StrictKeywords`).  The transform wraps optional
properties, which moves subschemas, and then repairs every local reference from the list of
moves.  `ResolvingCommutes` is the theorem about references (RFC 6901, sections 3 to 6, and RFC
3986, section 2.1) in documents without identifiers, `TransformedStays` the one about the
normal form, and `StrictKeepsMeaning` the one about accepted instances.

Two documented promises have limits.  Values of dictionaries are never discarded outside an
array-valued `additionalProperties` (`NothingDiscarded`), and can be below one
(`DictionaryDiscarded`).  Meaning is lost where something notices the null members that strict
mode adds.  One case is `anyOf` beside keywords that restrict the members of objects, when both
do: strict mode then closes both and makes both require what they declare.
`StrictKeepsMeaning` covers the schemas in which only one side does.  `AlternativesKeepMeaning`
is about the keywords beside `anyOf`, whatever the alternatives there and in their item
schemas: no list of alternatives loses its meaning beside them if and only if they tell no two
instances apart by the members of objects.  The other case is keywords that count or compare
members.  `LostMeaning` has a schema that loses its meaning for each of them, and for `anyOf`
one for each half of the promise.

**Tool fingerprints** (`CanonicalText`, `CanonicalReading`, `Fingerprints`).  Canonical JSON
identifies values up to the order of object members, by way of the unique readability of
`JsonGrammar`, and reads back as the value with its members in order; drift between two sets of
tools is reported exactly when a pinned field differs.

**Server-sent events** (`ServerSentEvents`, `SseDecoding`, `SseMessages`).  The byte-at-a-time
decoder refines the line-based definition of the WHATWG HTML standard (sections 9.2.5 and
9.2.6), fails at a definite byte, and does not depend on how bytes are cut into chunks.  Event
streams as a server may write them decode to exactly their events, whichever spellings and line
ends it chooses (`MessagesDecode`).

**Streams and their contract** (`StreamContract`, `StreamDriver`, `DrivenStreams`,
`EarlyErrors`, `ToolCallStreaming`).  The checker decides a contract stated by positions.  The
driver's output meets it exactly when the wrapped machine kept to it up to its first error.

**Supporting algorithms.**  `EmbeddingSplit` and `EmbeddingCalls` split values into the fewest
calls and put concurrent answers back in order.  `PublishOrder` orders crates by levels, or
reports exactly those from which a cycle can be reached.  `DecimalCosts` and `GatewayCosts` add
decimal texts exactly, and `CostOrder` says when the order of gateway records matters.
`MessagePruning` and `MessagePruner` prune messages; a call is never separated from its result
exactly when all parts about it name one tool.  `PruningByPosition` says what is left by the
positions of messages.  `RetryLoop` says which calls a run makes and how it ends.

`Sequences`, `Options` and `Digits` hold small facts and types that the others share.

## Main results

- Repair: `RepairCuts`, `RepairIsJson`, `RepairKeepsPairs`, `RepairMonotone`, `RepairComplete`, `RepairIdempotent`, `StepSound`, `RepairExtendsPrefix`.
- Strict mode: `ResolvingCommutes`, `TransformedStays`, `ValidationIsExact`, `StrictKeepsMeaning`, `AlternativesKeepMeaning`, `KeywordsDecide`.
- Fingerprints: `CanonicalJsonIdentifies`, `CanonicalJsonReads`, `RecordText`, `DriftIsExact`.
- Server-sent events: `DecoderRefines`, `ChunksDoNotMatter`, `LimitHolds`, `MessagesDecode`.
- Streams: `CheckerDecides`, `ViolationsAre`, `DrivenStreamConforms`, `FailOnEarlyError`, `WholeCallsConform`, `PartsHoldCalls`.
- Algorithms: `SplitIsMinimal`, `EmbeddingBelongs`, `Order`, `OrderUnique`, `AddDecimalStrings`, `CostsInAnyOrder`, `PruningKeepsPartners`, `RulePrunes`, `RuleIsIdempotent`, `RunEnds`.

The table under "Model" lists the theorems first and then the operations.

## How to read it

Text is a sequence of characters.  Where the code works on bytes (references and server-sent
events), a character stands for one byte.  Trees are values: updating a JSON tree in place is
modelled by returning the new tree.  Numbers in JSON values are their printed text.  Fixed-width
arithmetic is written out where the code saturates or overflows (`usize` byte counts, the `u64`
retry field and token counts, the `u32` attempt count, the 16-bit escape value).  Concurrency and
time enter as nondeterminism: the order in which tasks complete is an arbitrary choice in a loop,
the grace timeout is an arbitrary predicate, and a retry run is an arbitrary list of rounds.

## Model

| member | source | states |
|---|---|---|
| `RepairTheorems.RepairCuts` | crates/ferrin-schema/src/partial_json.rs:184-385 | on the first k characters of any RFC 8259 document the machine returns the document cut at k, where the cut is defined on syntax trees without the machine |
| `RepairTheorems.RepairIsJson` | crates/ferrin-schema/src/partial_json.rs:126-385 | the repair of a prefix is a JSON text if and only if the prefix is not just whitespace, nor whitespace and a lone minus; in those two cases it is empty |
| `RepairTheorems.RepairKeepsPairs` | crates/ferrin-schema/src/partial_json.rs:260-277 | when every surrogate escape of the document is paired, so is every one in the repair of a prefix |
| `RepairTheorems.RepairMonotone` | crates/ferrin-schema/src/partial_json.rs:184-358 | for prefixes of one document, the earlier repaired value approximates the later one, and both approximate the full value |
| `RepairTheorems.RepairComplete` | crates/ferrin-schema/src/partial_json.rs:184-358 | a complete document is returned without its trailing whitespace and otherwise unchanged |
| `RepairTheorems.RepairIdempotent` | crates/ferrin-schema/src/partial_json.rs:365-385 | repairing a repaired prefix changes nothing |
| `RepairTheorems.StepSound` | crates/ferrin-schema/src/partial_json.rs:184-323 | for any character whatever: the stack keeps its shape and is never empty, and an escape in progress stays within its 16 bits |
| `RepairTheorems.RunSound` | crates/ferrin-schema/src/partial_json.rs:375-378 | over any input, well-formed or not, the invariant holds and the valid output never shrinks nor passes the input |
| `RepairTheorems.RepairExtendsPrefix` | crates/ferrin-schema/src/partial_json.rs:325-358 | for any input the output is a prefix of it, the rest of one literal and closing quotes and brackets |
| `RepairTheorems.StraysAreSkipped` | crates/ferrin-schema/src/partial_json.rs:126-323 | for any input: where a value, a key, a colon, a comma, a bracket or a hexadecimal digit is due, any other character is skipped |
| `RepairProofs.ReadValue` | crates/ferrin-schema/src/partial_json.rs:184-323 | reading a whole value anywhere a value may stand keeps the open containers and holds the whole value valid |
| `RepairProofs.ReadEntries` | crates/ferrin-schema/src/partial_json.rs:188-249 | reading the entries of an array or object, commas and keys included, leaves the container after its last value |
| `RepairProofs.FinishValue` | crates/ferrin-schema/src/partial_json.rs:184-358 | stopping inside a value leaves its cut, closed, inside the closed containers |
| `RepairProofs.FinishEntries` | crates/ferrin-schema/src/partial_json.rs:188-358 | stopping inside the entries of a container leaves the entries cut, with the last one only as far as it is valid |
| `Truncation.CutGood` | crates/ferrin-schema/src/partial_json.rs:325-358 | a cut value is well formed, and there is none exactly when only a minus of a number was read |
| `Truncation.CutMonotone` | crates/ferrin-schema/src/partial_json.rs:184-358 | cutting later gives a value that the earlier cut approximates |
| `Truncation.CutPaired` | crates/ferrin-schema/src/partial_json.rs:268-275 | cutting between the halves of a surrogate pair drops the first half |
| `JsonGrammar.TerminalsAre` | crates/ferrin-schema/src/partial_json.rs:126-305 | whitespace, hexadecimal digits of either case and the characters of numbers are those of RFC 8259 (sections 2, 6 and 7) |
| `JsonGrammar.UniqueDocument` | crates/ferrin-schema/src/partial_json.rs:184-323 | the grammar of RFC 8259 (sections 2 to 7) reads a text in one way only, so what repair promises about trees is about texts |
| `JsonPointers.UnescapeEscape` | crates/ferrin-schema/src/transform_refs.rs:15-18 | escaping a token as RFC 6901 (section 3) asks is undone by the unescaping of section 4 |
| `JsonPointers.EscapeSpells` | crates/ferrin-schema/src/transform_refs.rs:15-18 | a tilde is spelled `~0`, a slash `~1`, every other character as itself, one after the other (RFC 6901, section 3) |
| `JsonPointers.ChildPathText` | crates/ferrin-schema/src/transform_refs.rs:15-18 | extending a pointer text by a name extends its tokens by that name |
| `JsonPointers.PrefixIsPath` | crates/ferrin-schema/src/transform_refs.rs:192-198 | one pointer text starts with another at a token boundary only when its tokens do |
| `JsonPointers.RelocateAllIsText` | crates/ferrin-schema/src/transform_refs.rs:177-179 | relocating the text by a list of moves relocates the tokens |
| `JsonPointers.RestoreUndoes` | crates/ferrin-schema/src/transform_refs.rs:173-175 | the moves read backwards undo the moves, for every path |
| `UriFragments.DecodeEncode` | crates/ferrin-schema/src/transform_refs.rs:200-228 | percent-encoding a UTF-8 text and decoding it gives the text back |
| `UriFragments.EncodeIsFragment` | crates/ferrin-schema/src/transform_refs.rs:215-228 | an encoded fragment uses only characters that RFC 3986 (section 3.5) allows |
| `UriFragments.EncodeSpells` | crates/ferrin-schema/src/transform_refs.rs:215-228 | a byte is encoded as itself when RFC 3986 (section 3.5) lets it stand in a fragment, otherwise as a percent sign and two upper-case digits |
| `UriFragments.EscapeDecodes` | crates/ferrin-schema/src/transform_refs.rs:200-213 | a percent sign and two hexadecimal digits of either case decode to their byte |
| `UriFragments.OthersDecode` | crates/ferrin-schema/src/transform_refs.rs:200-213 | any other character decodes to itself, and a percent sign without two such digits to nothing |
| `UriFragments.Utf8IsEncoding` | crates/ferrin-schema/src/transform_refs.rs:212 | what counts as text is exactly the encoding of Unicode scalar values (RFC 3629, section 3) |
| `StrictProofs.StrictAt` | crates/ferrin-schema/src/transform.rs:184-219 | every subschema that the rewrite keeps is found, rewritten, at its new position: below each wrapper on the way, never the wrapper itself |
| `StrictProofs.MovesRelocate` | crates/ferrin-schema/src/transform.rs:206-211 | applying the recorded moves to the pointer of any kept subschema gives the pointer of its new position |
| `LocalReferences.MovedPointerFollows` | crates/ferrin-schema/src/transform_refs.rs:172-179 | undoing the moves on the resource, appending the pointer and redoing them leads to the target, seen from the resource, for any resource inside the schema |
| `LocalReferences.ReferenceFollows` | crates/ferrin-schema/src/transform_refs.rs:154-190 | a reference to a kept subschema of any resource decodes, once rewritten, to that subschema's new position in the resource |
| `LocalReferences.ResolvingCommutes` | crates/ferrin-schema/src/transform_refs.rs:132-190 | in a document without identifiers, where a kept schema referred by `$ref`, `$dynamicRef` or `$recursiveRef` to a kept subschema, the keyword at the holder's new position is a fragment that decodes to the target's new position, where the transformed target is; the reference to a target that did not move is unchanged |
| `LocalReferences.OthersStay` | crates/ferrin-schema/src/transform_refs.rs:156-190 | references that do not start with `#`, do not decode or hold no pointer are unchanged |
| `StrictKeywords.ObjectsAreClosed` | crates/ferrin-schema/src/transform.rs:184-214 | after the transform a schema whose type is or lists `object`, or that has no type but properties, forbids other members and requires all that it declares, in order; no schema has `propertyNames` |
| `StrictKeywords.NamedBecome` | crates/ferrin-schema/src/transform.rs:192-218 | a schema under a name in one of the six keywords of named schemas keeps its name and place; one under `properties` of such a schema that is not required becomes `anyOf` of itself and null |
| `StrictKeywords.ListedBecome` | crates/ferrin-schema/src/transform_refs.rs:21-73 | a schema under one of the fifteen other keywords, alone or in an array, is transformed in its place |
| `StrictKeywords.MembersKeepPlaces` | crates/ferrin-schema/src/transform.rs:184-214 | members keep their places, except that removing `propertyNames` moves the last one there, as the JSON library does |
| `StrictKeywords.OthersStay` | crates/ferrin-schema/src/transform.rs:184-219 | every other keyword but references stays as it is, and so do strings under all |
| `LocalReferences.RepairedAt` | crates/ferrin-schema/src/transform.rs:121-127 | evaluating the new position as a JSON pointer in the transformed schema gives the transformed subschema |
| `StrictForm.StrictIsNormal` | crates/ferrin-schema/src/transform.rs:184-219 | every visited schema of the result has no `propertyNames`, forbids additional properties when it is an object schema, and requires exactly its properties |
| `StrictForm.RepairedIsFixed` | crates/ferrin-schema/src/transform.rs:121-127 | the transform's result is in normal form, the rewrite changes nothing in it, and no move is recorded |
| `StrictAgain.TransformedStays` | crates/ferrin-schema/src/transform.rs:121-127 | applied to its own result the transform passes the validation, changes nothing and records no move |
| `StrictAgain.StrictPasses` | crates/ferrin-schema/src/transform.rs:129-219 | the rewrite adds no dictionary: what passes the validation still passes it when rewritten |
| `StrictForm.StrictNullable` | crates/ferrin-schema/src/transform.rs:222-227 | rewriting a nullable wrapper rewrites what it wraps and nothing else |
| `StrictRewrite.OwnThenVisit` | crates/ferrin-schema/src/transform.rs:184-219 | rewriting a schema and then visiting its subschemas, as the code does, gives the tree `Strict` defines in one go |
| `StrictRewrite.MovesAsVisited` | crates/ferrin-schema/src/transform.rs:184-219 | the moves recorded along that way are those `Moves` defines on the original tree |
| `StrictTransform.NothingMoved` | crates/ferrin-schema/src/transform_refs.rs:77-79 | without moves no reference changes, so skipping the pass is right |
| `StrictValidation.ValidationIsExact` | crates/ferrin-schema/src/transform.rs:129-182 | a schema passes if and only if below no path of the eighteen checked keywords a schema has `additionalProperties` or `patternProperties` that is true or an object |
| `StrictValidation.ReportsKeyword` | crates/ferrin-schema/src/transform.rs:129-182 | the keyword reported is one that holds a dictionary at such a position |
| `StrictValidation.NothingDiscarded` | crates/ferrin-schema/src/transform.rs:118-127 | in a schema that passes, no visited position holds a dictionary that the rewrite would discard, unless it lies below an array-valued `additionalProperties` |
| `StrictValidation.DictionaryDiscarded` | crates/ferrin-schema/src/transform.rs:129-214 | that exception is real: below an array-valued `additionalProperties` a dictionary passes the validation and is replaced by `false` |
| `StrictMeaning.StrictKeepsMeaning` | crates/ferrin-schema/src/transform.rs:184-227 | what the strict schema accepts comes from an instance the schema accepts, without undeclared members, by adding nulls; and every such instance extends by nulls to one the strict schema accepts. Covered: type, properties, required, items, length bounds, scalar enumerations and constants, keywords about scalars, and `anyOf` where, on objects and on arrays, the alternatives or the keywords beside them do not notice null members; no keyword may count or compare members |
| `StrictMeaning.SkipsAgree` | crates/ferrin-schema/src/transform.rs:184-227 | a schema that does not notice null members accepts an instance exactly when its strict form accepts it with nulls added |
| `TellingApart.AlternativesKeepMeaning` | crates/ferrin-schema/src/transform.rs:184-227 | beside given keywords every list of covered alternatives keeps its meaning if and only if the keywords, read without undeclared members, tell no two instances apart by the members of their objects; item schemas may hold alternatives at any depth |
| `TellingApart.JudgingIsTellingApart` | crates/ferrin-schema/src/transform.rs:184-227 | where item schemas hold no alternatives, telling instances apart means restricting the members of objects and accepting one, in the schema itself or in the item schemas of arrays that may hold items |
| `TellingApart.KeywordsDecide` | crates/ferrin-schema/src/transform.rs:184-227 | where, besides, no member is required, every list of covered alternatives keeps its meaning if and only if the keywords rule out objects or leave their members alone, and so for the items of arrays: a test of the keywords alone |
| `StrictLimits.SkippingKeeps` | crates/ferrin-schema/src/transform.rs:184-227 | beside keywords that rule out objects or leave their members alone, and so for the items of arrays, every list of covered alternatives keeps its meaning: a test of the keywords alone, nested alternatives included |
| `TellingApart.TellingConflicts` | crates/ferrin-schema/src/transform.rs:184-227 | constructs, for any covered schema that tells instances apart, an alternative and an instance of both that no null members extend to the strict forms |
| `TellingApart.OverlookedIsAccepted` | crates/ferrin-schema/src/transform.rs:184-227 | what a schema accepts without looking at the members of objects, both it and its strict form accept |
| `TellingApart.MarkedIsOverlooked` | crates/ferrin-schema/src/transform.rs:184-227 | what a schema or its strict form accepts although every object in it holds an undeclared member, the schema accepts without looking at members |
| `LostMeaning.ObjectTypeLosesMeaning` | crates/ferrin-schema/src/transform.rs:184-227 | the second half fails: with `type: object` alone beside an alternative that declares a member, the schema accepts the empty object and its strict form accepts nothing |
| `StrictMeaning.ComesFrom` | crates/ferrin-schema/src/transform.rs:184-219 | constructs, for an instance of the strict schema, the instance it comes from |
| `StrictMeaning.ExtendsTo` | crates/ferrin-schema/src/transform.rs:184-219 | constructs, for a closed instance of the schema, its extension by nulls |
| `StrictMeaning.NullableValid` | crates/ferrin-schema/src/transform.rs:222-227 | a nullable wrapper accepts null and what it wraps, whatever else the wrapped schema demands |
| `StrictMeaning.ClosedIsNarrower` | crates/ferrin-schema/src/transform.rs:184-219 | reading objects as closed only narrows what a schema accepts |
| `LostMeaning.MixedAlternatives` | crates/ferrin-schema/src/transform.rs:184-227 | the first half fails too, with properties beside `anyOf`: a schema and an instance for which no instance without nulls exists |
| `LostMeaning.NullIsNoticed` | crates/ferrin-schema/src/transform.rs:184-227 | any plain keyword beside one optional property that accepts the empty object but none with the property loses the empty object: no null members extend it to the strict form |
| `LostMeaning.MaxPropertiesLosesMeaning` | crates/ferrin-schema/src/transform.rs:206-214 | such a keyword is `maxProperties: 0` |
| `LostMeaning.ObjectValuesLoseMeaning` | crates/ferrin-schema/src/transform.rs:206-214 | so is an object as `const`, or as the one value of `enum` |
| `LostMeaning.DependentRequiredLosesMeaning` | crates/ferrin-schema/src/transform.rs:206-214 | so is `dependentRequired` asking for an undeclared member |
| `LostMeaning.MinPropertiesLosesMeaning` | crates/ferrin-schema/src/transform.rs:206-214 | `minProperties: 1` beside an optional string: the strict form accepts the null alone, which adds nulls to no instance of the schema |
| `LostMeaning.UniqueItemsLosesMeaning` | crates/ferrin-schema/src/transform.rs:206-217 | `uniqueItems` over objects with an optional member: items that differ by a null are the same once nulls are added |
| `CanonicalText.CanonicalJsonIdentifies` | crates/ferrin-tool/src/fingerprint.rs:25-62 | two values have one canonical text if and only if they are equal up to the order of object members at every depth |
| `CanonicalText.CanonicalJsonIsJson` | crates/ferrin-tool/src/fingerprint.rs:25-30 | the canonical text is a JSON text of RFC 8259 |
| `CanonicalText.SortedKeysAscend` | crates/ferrin-tool/src/fingerprint.rs:35-36 | sorting lists every key once, each before the later ones: the first characters that differ ascend, and a prefix comes first |
| `CanonicalText.PrecedesIs` | crates/ferrin-tool/src/fingerprint.rs:36 | the order by which keys are sorted compares the first characters that differ |
| `CanonicalReading.CanonicalJsonReads` | crates/ferrin-tool/src/fingerprint.rs:25-62 | read as JSON, the canonical text of a value is that value with its members in key order, and it holds no whitespace and no escape that is not needed |
| `CanonicalText.CharItemDenotes` | crates/ferrin-tool/src/fingerprint.rs:42 | every character is written as one valid item of a JSON string that stands for it |
| `Fingerprints.DriftNames` | crates/ferrin-tool/src/fingerprint.rs:119-134 | added are exactly the names only the current map has, removed those only the baseline has, changed those with different digests |
| `Fingerprints.NoDrift` | crates/ferrin-tool/src/fingerprint.rs:109-134 | no drift is reported if and only if the two maps are equal |
| `Fingerprints.DriftIsExact` | crates/ferrin-tool/src/fingerprint.rs:65-134 | barring digest collisions, drift is reported if and only if tools differ in a name, description, title, or a schema beyond member order |
| `Fingerprints.DriftAscends` | crates/ferrin-tool/src/fingerprint.rs:119-134 | each list of a drift is in ascending order without repetition |
| `Fingerprints.RecordText` | crates/ferrin-tool/src/fingerprint.rs:83-93 | what is hashed for a tool, to the character: its description, input schema and title under these keys |
| `Fingerprints.DescriptionText` | crates/ferrin-tool/src/fingerprint.rs:70-77 | how a fixed, a computed and no description are written in it |
| `ServerSentEvents.DecoderRefines` | crates/ferrin-provider-util/src/sse.rs:96-198 | under every limit the decoder, when it does not fail, ends with the events and state of the line-based reading (one BOM stripped, lines at CRLF, LF or CR, the unterminated line dropped); with a limit of at least two it fails exactly when the limit is exceeded, at the first byte at which it is |
| `ServerSentEvents.ChunksDoNotMatter` | crates/ferrin-provider-util/src/sse.rs:96-138 | however the bytes are cut into chunks, the events and the final state are the same, or reading fails at the same byte |
| `ServerSentEvents.LimitHolds` | crates/ferrin-provider-util/src/sse.rs:102-138 | what a fresh decoder buffers and accumulates never exceeds the limit, over every run without error, if and only if the limit is at least two |
| `ServerSentEvents.LinesGrow` | crates/ferrin-provider-util/src/sse.rs:113-128 | how one more byte changes the lines of a text, the line feed of a CRLF included |
| `SseDecoding.FramesDecode` | examples/example-stream-sse-server/src/main.rs:49-53 | payloads framed as data lines decode back to exactly those payloads if and only if each fits the limit |
| `SseMessages.MessagesDecode` | crates/ferrin-provider-util/src/sse.rs:96-198 | blocks of fields and comments, each field with or without a space after the colon or, without a value, without a colon, every line ended by LF, CR or CRLF, with or without a byte order mark, decode to exactly their events: all data lines joined, the last type, the last identifier without NUL and the last numeric retry time, the latter two carried on; unknown fields and comments change nothing; decoding fails if and only if a line with the data before it exceeds the limit |
| `SseMessages.BlockMakes` | crates/ferrin-provider-util/src/sse.rs:148-198 | the lines of one block and a blank line make its event, or none without data, and leave its identifier and retry time |
| `SseMessages.RunLines` | crates/ferrin-provider-util/src/sse.rs:113-182 | complete lines, whatever ends them, are read one by one, or reading fails when one with the data before it exceeds the limit |
| `StreamContract.CheckerDecides` | crates/ferrin-testing/src/contract.rs:59-157 | the checker accepts exactly the streams that meet the contract, which is stated by positions and not by the checker's sets |
| `StreamContract.ViolationsAre` | crates/ferrin-testing/src/contract.rs:59-127 | after any parts the violations are exactly the rules broken, stated by positions, each with the index of the part that breaks it |
| `StreamContract.CheckerTracks` | crates/ferrin-testing/src/contract.rs:32-42 | after any parts the checker's sets are exactly the parts started and the parts open |
| `StreamDriver.CutIs` | crates/ferrin-provider-util/src/stream_driver.rs:181-192 | cutting keeps the parts before the first error, closes what they leave open and forwards the error |
| `StreamDriver.ClosingEnds` | crates/ferrin-provider-util/src/stream_driver.rs:119-155 | closing after any parts ends the tool inputs that nothing ended, then the reasoning, then the texts, each in opening order |
| `StreamDriver.ProducedIs` | crates/ferrin-provider-util/src/stream_driver.rs:201-219 | the machine handles every chunk in order, each in the state the one before left, and then finishes |
| `DrivenStreams.DrivenStreamConforms` | crates/ferrin-provider-util/src/stream_driver.rs:111-219 | the output meets the contract if and only if the parts before the machine's first error respect it without a terminal part or, without an error, all parts together meet it |
| `DrivenStreams.AgreeAll` | crates/ferrin-provider-util/src/stream_driver.rs:111-129 | whatever the parts, the driver lists exactly the checker's open sets, and each part once while nothing was started twice |
| `DrivenStreams.CloseEverything` | crates/ferrin-provider-util/src/stream_driver.rs:132-155 | the closing parts are no violation and leave nothing open |
| `ToolCallStreaming.WholeCallsConform` | crates/ferrin-provider-util/src/streaming_tool_call.rs:24-71 | whole calls between a start and a finish meet the contract if and only if no two share an identifier |
| `ToolCallStreaming.PartsHoldCalls` | crates/ferrin-provider-util/src/streaming_tool_call.rs:38-71 | the parts report exactly the calls, in order, and stream name and input of the first call with each identifier, once |
| `EmbeddingSplit.SplitIsGreedy` | crates/ferrin-core/src/embed.rs:246-269 | the chunks join back to the values, are feasible, and none could take the first value of the next |
| `EmbeddingSplit.SplitRespects` | crates/ferrin-core/src/embed.rs:246-269 | a chunk of several values has no more values and bytes than allowed, a byte limit of the largest size being none, and the next value would exceed a limit |
| `EmbeddingSplit.SplitIsMinimal` | crates/ferrin-core/src/embed.rs:246-269 | no split into feasible contiguous chunks has fewer |
| `EmbeddingCalls.EmbeddingBelongs` | crates/ferrin-core/src/embed.rs:532-549 | the embedding at a value's position is the one its chunk's call gave for it |
| `EmbeddingCalls.GatheredAll` | crates/ferrin-core/src/embed.rs:532-546 | responses come in chunk order; the token count is the sum over all chunks, at most the largest size, and missing if one is |
| `EmbeddingCalls.ChunksRespect` | crates/ferrin-core/src/embed.rs:451-558 | without limits all values are one chunk; otherwise chunks keep the limits given |
| `EmbeddingCalls.ChunkComesTo` | crates/ferrin-core/src/embed.rs:359-364 | a call succeeds when it gives one embedding per value, and otherwise the error carries its message or both counts |
| `PublishOrder.DependenciesFirst` | xtask/src/publish_order.rs:51-74 | every name the graph lists for another comes before it |
| `PublishOrder.MembersInOrder` | xtask/src/publish_order.rs:33-74 | in the order every member stands after the members it depends on by a normal or build dependency, and before those of its level with a later name |
| `PublishOrder.GraphIs` | xtask/src/publish_order.rs:33-48 | normal and build dependencies on members, and no others, make the graph |
| `PublishOrder.OrderUnique` | xtask/src/publish_order.rs:20-21 | the order is determined by the graph |
| `PublishOrder.StuckReachesCycle` | xtask/src/publish_order.rs:58-63 | from every name that waits for another such name a cycle can be reached |
| `PublishOrder.LevelsReachNoCycle` | xtask/src/publish_order.rs:51-73 | from a published name none can be reached |
| `PublishOrder.LevelsMeanNoCycle` | xtask/src/publish_order.rs:51-74 | a graph that can be published has no cycle |
| `PublishOrder.RoundKeeps` | xtask/src/publish_order.rs:51-73 | a round keeps the levels, the order and what is held back |
| `DecimalCosts.CanonicalUnique` | crates/ferrin-core/src/modality_metadata.rs:132-148 | one number has one canonical text |
| `Digits.DigitIs` | crates/ferrin-core/src/modality_metadata.rs:90-100 | the ten ASCII digits and what they stand for |
| `DecimalCosts.DecimalForms` | crates/ferrin-core/src/modality_metadata.rs:90-100 | a decimal text is digits, or digits, a point and digits |
| `GatewayCosts.MergedMember` | crates/ferrin-core/src/modality_metadata.rs:46-77 | member by member: the seven costs are added when both records hold decimals; otherwise the later record's member stands, or the earlier one's; an empty image list is dropped |
| `GatewayCosts.LastStands` | crates/ferrin-core/src/modality_metadata.rs:43-77 | over any number of records, of a member that is no cost the last record's stands |
| `CostOrder.CostsInAnyOrder` | crates/ferrin-core/src/modality_metadata.rs:43-77 | for any number of records, every order of merging gives the same member under a cost key, or none, if and only if no record holds anything but a decimal text there, or none holds a decimal text and no two differ |
| `CostOrder.NullCostsDependOnOrder` | crates/ferrin-core/src/modality_metadata.rs:56-69 | a record with a null cost beside one with a decimal: the last of the two wins |
| `CostOrder.MergeHoldsTotal` | crates/ferrin-core/src/modality_metadata.rs:43-77 | where only costs are held, the merge holds their exact total, or nothing |
| `MessagePruning.PruningKeepsPartners` | crates/ferrin-message/src/prune.rs:129-317 | the parts of a call all survive or all go under all options if and only if they name one tool; the parts of an approval always do |
| `MessagePruning.TwoNamesSeparate` | crates/ferrin-message/src/prune.rs:226-231 | in any messages, a rule for one of two names of a call separates its parts |
| `MessagePruning.RuleFilters` | crates/ferrin-message/src/prune.rs:233-317 | a rule filters the parts, message by message, and leaves the protected tail as it is |
| `PruningByPosition.RulePrunes` | crates/ferrin-message/src/prune.rs:233-317 | a rule for all but the last k messages leaves those k, and everything if k is zero; elsewhere the parts left, in order, are those that concern no tool, those about calls and approvals that a spared message holds a part about, and, for a rule for certain tools, those of other tools, where an approval is of the tool that the last part about its requested call names |
| `PruningByPosition.RulesInTurn` | crates/ferrin-message/src/prune.rs:131-133 | rules apply one after the other, each to what the one before left |
| `PruningByPosition.ReasoningCommutes` | crates/ferrin-message/src/prune.rs:129-133 | pruning reasoning before or after the rules makes no difference |
| `PruningByPosition.EmptyGoLast` | crates/ferrin-message/src/prune.rs:134-136 | messages without content or text go after everything else, and the others stay in order |
| `MessagePruning.RuleLeavesTheRest` | crates/ferrin-message/src/prune.rs:286-317 | the messages a rule spares, messages without parts, and parts that do not concern tools stay as they are and in order |
| `MessagePruning.CallsLeft` | crates/ferrin-message/src/prune.rs:233-317 | a call or result is left if and only if the protected tail refers to its call or the rule is for other tools |
| `MessagePruning.ApprovalsLeft` | crates/ferrin-message/src/prune.rs:233-317 | an approval part is left if and only if the protected tail refers to its approval or the approval is about a call known to be of another tool |
| `MessagePruning.ReasoningGone` | crates/ferrin-message/src/prune.rs:140-157 | assistant messages lose their reasoning, the last one only when all is pruned; nothing else changes |
| `MessagePruning.EmptyGone` | crates/ferrin-message/src/prune.rs:134-136 | exactly the messages with content are left |
| `MessagePruning.TailProtects` | crates/ferrin-message/src/prune.rs:36-39 | what the protected tail refers to is kept everywhere |
| `MessagePruning.RuleIsIdempotent` | crates/ferrin-message/src/prune.rs:233-317 | applying a rule again, with empty messages kept, changes nothing |
| `RetryLoop.RunEnds` | crates/ferrin-core/src/retry.rs:131-203 | a round is called if and only if no cancellation precedes it and all earlier rounds failed with retryable provider errors within the limit; the ending is the value, the other error or the provider error of the last call, or a retry failure whose reason and errors are what the calls, the limit and the cancellations determine, each if and only if |
| `RetryLoop.RunKeeps` | crates/ferrin-core/src/retry.rs:144-203 | below the largest limit there is at most one call more than retries allowed, and a retry failure lists the provider errors of the calls in order, with their count, all retryable but possibly the last, and gives the right reason |
| `RetryLoop.LargestLimitNeverStops` | crates/ferrin-core/src/retry.rs:161-175 | with the largest 32-bit limit the count saturates and retryable failures never end the loop |
| `PartialJson.Repairer.ProcessValueStart` | crates/ferrin-schema/src/partial_json.rs:126-160 | starting a value updates exactly the fields the value machine does; a lone minus adds nothing to the valid output |
| `PartialJson.Repairer.ProcessAfterObjectValue` | crates/ferrin-schema/src/partial_json.rs:162-171 | a comma and a closing brace are the only characters that change an object after a value |
| `PartialJson.Repairer.ProcessAfterArrayValue` | crates/ferrin-schema/src/partial_json.rs:173-182 | a comma and a closing bracket are the only characters that change an array after a value |
| `PartialJson.Repairer.ProcessUnicodeDigit` | crates/ferrin-schema/src/partial_json.rs:260-277 | a hex digit advances the escape; the fourth commits it unless it leaves half a surrogate pair |
| `PartialJson.Repairer.ProcessNumberChar` | crates/ferrin-schema/src/partial_json.rs:278-305 | a number grows by digits, and the delimiter that ends it acts on the container as well |
| `PartialJson.Repairer.ProcessLiteralChar` | crates/ferrin-schema/src/partial_json.rs:306-321 | a literal grows while it is a prefix of one, and the character that ends it acts on the container |
| `PartialJson.Repairer.ReadChar` | crates/ferrin-schema/src/partial_json.rs:184-323 | the step that updates the fields is the step of the value machine, in all 17 states |
| `PartialJson.Repairer.Close` | crates/ferrin-schema/src/partial_json.rs:325-358 | closing yields the valid prefix, the rest of an open literal and the closers, innermost first |
| `PartialJson.Repair` | crates/ferrin-schema/src/partial_json.rs:365-385 | the character loop computes `Repaired` |
| `UriFragments.DecodeFragment` | crates/ferrin-schema/src/transform_refs.rs:200-213 | the byte loop decodes, and refuses half an escape, a bad digit and text that is not UTF-8 |
| `UriFragments.EncodeFragment` | crates/ferrin-schema/src/transform_refs.rs:215-228 | the byte loop encodes byte by byte |
| `StrictTransform.WrapOptional` | crates/ferrin-schema/src/transform.rs:206-211 | exactly the optional properties are wrapped, and each records its pointer, in order |
| `StrictTransform.RewriteOwn` | crates/ferrin-schema/src/transform.rs:186-214 | one schema's own rewriting and the moves it records |
| `StrictTransform.VisitChildren` | crates/ferrin-schema/src/transform_refs.rs:21-73 | all subschemas are visited in keyword order, each with its own pointer, and the rest of the object stays |
| `StrictTransform.RewriteOpenAiStrict` | crates/ferrin-schema/src/transform.rs:184-219 | the recursive rewrite computes `Strict` and appends the schema's moves, as pointers below its path |
| `StrictTransform.MoveReference` | crates/ferrin-schema/src/transform_refs.rs:154-190 | one reference is rewritten as `RewriteReference` says, and left alone in every other case |
| `StrictTransform.RewriteReferences` | crates/ferrin-schema/src/transform_refs.rs:132-152 | in a document without identifiers every reference keyword of every visited schema is rewritten, and nothing else |
| `StrictTransform.ToOpenAiStrict` | crates/ferrin-schema/src/transform.rs:121-127 | a refused schema stays as it was; otherwise the result is the strict schema with its references to the document root repaired |
| `StrictValidation.ValidateStrictMaps` | crates/ferrin-schema/src/transform.rs:129-182 | the search finds the first unsupported keyword in visiting order |
| `CanonicalText.WriteCanonical` | crates/ferrin-tool/src/fingerprint.rs:32-62 | the recursive writer appends the canonical text to the buffer |
| `CanonicalText.WriteMembers` | crates/ferrin-tool/src/fingerprint.rs:34-48 | members are written in ascending key order, separated by commas |
| `Fingerprints.DetectToolDrift` | crates/ferrin-tool/src/fingerprint.rs:119-134 | the two loops list the added, removed and changed names in map order |
| `SseDecoding.SseDecoder.Dispatch` | crates/ferrin-provider-util/src/sse.rs:183-198 | a blank line completes the event under way, or drops its type when there is no data |
| `SseDecoding.SseDecoder.InterpretLine` | crates/ferrin-provider-util/src/sse.rs:148-181 | a line updates the fields and completes an event as the line-based reading says |
| `SseDecoding.SseDecoder.FeedPlain` | crates/ferrin-provider-util/src/sse.rs:113-135 | one byte past the byte order mark: line ends, the skipped line feed and the limit |
| `SseDecoding.SseDecoder.Feed` | crates/ferrin-provider-util/src/sse.rs:96-138 | feeding bytes ends in the state and with the events of `Run`, or reports that an event is too large |
| `SseDecoding.SseDecoder.Finish` | crates/ferrin-provider-util/src/sse.rs:141-146 | at the end of the stream the incomplete event and line are gone and the rest stays |
| `StreamContract.StreamContractChecker.ObservePart` | crates/ferrin-testing/src/contract.rs:59-130 | observing a part is the checker's step on values |
| `StreamContract.StreamContractChecker.Complete` | crates/ferrin-testing/src/contract.rs:137-157 | there are no violations exactly when none was found, the stream is terminated and nothing is open; those added are an empty stream, a missing end and each open part |
| `StreamContract.Check` | crates/ferrin-testing/src/contract.rs:164-170 | checking a list finds no violation if and only if the stream conforms, and otherwise reports exactly the rules that parts and the end break, with their positions |
| `StreamDriver.OpenParts.ObservePart` | crates/ferrin-provider-util/src/stream_driver.rs:119-129 | starts are appended and ends remove every copy |
| `StreamDriver.OpenParts.Close` | crates/ferrin-provider-util/src/stream_driver.rs:132-155 | the ends of tool inputs, then reasoning, then text, each in opening order; nothing stays open |
| `StreamDriver.Driver.Enqueue` | crates/ferrin-provider-util/src/stream_driver.rs:181-192 | parts are queued up to the first error, which closes what is open, ends the machine and drops the rest |
| `StreamDriver.Driver.Advance` | crates/ferrin-provider-util/src/stream_driver.rs:206-218 | feeding the machine, or finishing it, changes nothing in what is still to be yielded, and comes closer to the end |
| `StreamDriver.Driver.Next` | crates/ferrin-provider-util/src/stream_driver.rs:201-219 | each poll yields the next of the parts that remained |
| `StreamDriver.DriveStream` | crates/ferrin-provider-util/src/stream_driver.rs:166-220 | for every machine and chunk list the output is the start part and what the machine produces, cut at its first error |
| `EarlyErrors.FailOnEarlyError` | crates/ferrin-provider-util/src/stream_driver.rs:55-95 | for any timing of the grace period, success replays the stream exactly; failure happens if and only if the first chunk that does not wait is an error chunk reached in time, and reports that chunk |
| `ToolCallStreaming.StreamingToolCallTracker.Begin` | crates/ferrin-provider-util/src/streaming_tool_call.rs:31-33 | tells whether the call is new and remembers it |
| `ToolCallStreaming.StreamingToolCallTracker.PartsForCompleteCall` | crates/ferrin-provider-util/src/streaming_tool_call.rs:38-71 | the start and input only for a new call, then the end and the call |
| `ToolCallStreaming.StreamCalls` | crates/ferrin-provider-util/src/streaming_tool_call.rs:38-71 | asking one tracker for call after call |
| `EmbeddingSplit.SplitByLimits` | crates/ferrin-core/src/embed.rs:246-269 | the loop, with its saturating byte count, computes `Split` |
| `EmbeddingCalls.RunWindow` | crates/ferrin-core/src/embed.rs:517-529 | whatever order tasks complete in, each answer lands in its own slot, and a failure is that of a chunk of the window |
| `EmbeddingCalls.RunWindows` | crates/ferrin-core/src/embed.rs:509-530 | windows run one after the other; a failure is that of the first window with one, after which no call is started |
| `EmbeddingCalls.Gather` | crates/ferrin-core/src/embed.rs:532-546 | slots are read in order: embeddings and responses in chunk order, token counts summed, or none when one is missing |
| `EmbeddingCalls.RunCalls` | crates/ferrin-core/src/embed.rs:451-558 | zero limits are refused, otherwise every chunk answered and the result is put together in order, or the error is one of the first failing window, whose width is what the model and the caller allow, and no later call is started |
| `PublishOrder.Order` | xtask/src/publish_order.rs:23-75 | the order fails if and only if the graph has a cycle, and then lists exactly the members from which one can be reached; otherwise it lists every member once, by dependency level and name |
| `DecimalCosts.AddDigits` | crates/ferrin-core/src/modality_metadata.rs:114-131 | the digit loop with its carry adds exactly |
| `DecimalCosts.PlacePoint` | crates/ferrin-core/src/modality_metadata.rs:135-148 | the digits, reversed and pointed, are the canonical text of their number |
| `DecimalCosts.AddDecimalStrings` | crates/ferrin-core/src/modality_metadata.rs:102-149 | a sum exists if and only if both are decimal texts; it is canonical and denotes exactly the sum |
| `GatewayCosts.SumCosts` | crates/ferrin-core/src/modality_metadata.rs:57-69 | a cost is summed exactly when both records hold it as a decimal text |
| `GatewayCosts.MergeGateway` | crates/ferrin-core/src/modality_metadata.rs:55-77 | summed costs, otherwise the later record's member, and no empty image list |
| `GatewayCosts.MergeAll` | crates/ferrin-core/src/modality_metadata.rs:43-77 | records merged one after the other |
| `MessagePruner.PruneToolCalls` | crates/ferrin-message/src/prune.rs:233-317 | the passes and the retaining loop compute `PruneRule` |
| `MessagePruner.RemoveReasoning` | crates/ferrin-message/src/prune.rs:140-157 | reasoning goes from the assistant messages that the option names |
| `MessagePruner.Prune` | crates/ferrin-message/src/prune.rs:129-138 | reasoning, then rule by rule, then empty messages |
| `RetryLoop.RetryWith` | crates/ferrin-core/src/retry.rs:131-203 | the loop, with its saturating attempt count, computes `RetryFrom` and makes `Calls` calls; an invalid policy makes none |

## Left out

- `parse_partial`, byte and depth limits and the prototype-key check of the JSON parser: parsing policy around the repair, not part of it.
- `PartialJson.Repair`: offsets count characters where the code counts UTF-8 bytes, and whether the input is returned borrowed is not modelled.
- `SchemaTransform::AdditionalPropertiesFalse` and `SchemaTransform::RemovePropertyNames`: shorter rewrites of the same kind without moves.
- `LocalReferences.ResolvingCommutes`: covers fragment references within one document; joining URLs and indexing resources by `$id` depend on the `url` crate, so `ReferenceFollows` takes the resource's path as given instead.
- `StrictTransform.ToOpenAiStrict`: references are repaired as in a document without `$id` and `id`; those that reach a resource through an identifier or a relative URL stay as they are.
- `StrictTransform.RewriteReferences`: the same, schema by schema.
- `StrictTransform.RewriteOpenAiStrict`: rewrites values instead of updating the tree in place, so aliasing does not arise in the model.
- `StrictMeaning.StrictKeepsMeaning`: `required` names declared properties, `items` holds one schema, and alternatives and the keywords beside them do not both notice null members, and `minProperties`, `maxProperties`, `dependentRequired`, `uniqueItems` and objects or arrays in `const` and `enum` do not occur: `LostMeaning` shows that each of these can lose the meaning, for `const` and `enum` with an object; `allOf`, `oneOf`, `not` and `if` are not covered, since adding nulls does not keep the relation under them.
- `CanonicalText.CanonicalJsonIdentifies`: numbers are compared by the text the JSON library prints for them; their conversion is not modelled.
- SHA-256 and base64: the digest is a parameter, and `DriftIsExact` names the absence of collisions as its condition.
- `ToolCallStreaming.StreamingToolCallTracker.PartsForCompleteCall`: the start of a tool input carries the name only; its flag for execution by the provider is not modelled.
- `SseDecoding.SseDecoder.InterpretLine`: text decodes unchanged; replacing bytes that are not UTF-8 is not modelled, nor are the receiving times that `decode_stream` stamps.
- `StreamContract.StreamContractChecker.Complete`: the messages of violations are rules with their arguments instead of prose, and parts left open are reported in an unspecified order, as the code's hash sets give them.
- `StreamDriver.DriveStream`: the chunk stream is a finite list; a stream that never ends is covered by what each poll yields.
- `EmbeddingCalls.RunCalls`: warnings, provider metadata, headers, telemetry and panicking tasks are not modelled, and the retries of a call are part of its answer.
- `PublishOrder.Order`: reading the workspace metadata is not modelled; members arrive with their names in ascending order, as the code's sorted map holds them.
- `GatewayCosts.MergeGateway`: the record of the gateway namespace only; other providers' image lists and the embedding and video merges are plain appends and overwrites.
- `RetryLoop.RetryWith`: backoff delays, jitter and clocks are not modelled; a run says where waiting was cancelled.
- HTTP transports, the MCP client, telemetry, provider adapters, the command line and builders: plumbing without rules of their own to prove.
