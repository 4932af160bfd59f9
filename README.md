# TiDB aggregate functions and the metapb protobuf codec, in Dafny

This project models two parts of an early TiDB tree and proves properties of them.

**The aggregate-function engine** (`expression/aggregation.go`). `NewAggFunction` maps a function name to one of six kinds: `sum`, `count`, `avg`, `group_concat`, `max`/`min` and `firstrow`. Each kind folds rows into an evaluation context in one of two ways:

- per group key, through `Update` and `GetGroupResult`, in complete or final mode;
- as one stream, through `StreamUpdate` and `GetStreamResult`.

The aggregate function is the class `Aggregation.AggFunction`. Its fields are the ones the Go struct updates in place: the mode, the arguments, the group map and the stream slot. Every `Update` is proved equal to a pure step function of module `AggSteps`. The behaviour of whole runs of rows is proved in module `AggRuns`, as lemmas about the left fold `Run` of those steps. The proved properties are:

- count counts complete rows;
- DISTINCT counts distinct tuples, and DISTINCT sum and group_concat take each distinct value or tuple once, at its first occurrence;
- sum and avg fold exactly the accepted values;
- max and min return an extreme element;
- firstrow keeps the first non-null value;
- group_concat joins the rows' texts with commas;
- a final-mode count or avg over partial results equals the single-phase result.

The Datum package's arithmetic, comparison, text formatting and the distinct checker's key encoding live outside this file. They are the fields of a `Types.DatumOps` record.

**The proto2 codec of the metapb messages** (`metapb.pb.go`). The messages are Cluster, Store, RegionEpoch, Region and Peer. The model covers:

- `Size`, `MarshalTo` and `Marshal` of each message, as methods that write into an `array` proved against a byte-level encoding `Bytes()` (module `Metapb`);
- the varint writer, varint reader and varint size (module `Wire`);
- `skipMetapb` (module `Skip`);
- every `Unmarshal` loop (module `Decode`), as a method proved equal to the decoding function `DecodeFrom`.

The proved properties (modules `CodecProperties` and `RoundTrip`) are:

- decoding an encoding into a message merges it in, and decoding into a reset message gives the message back;
- unknown fields are kept byte for byte;
- a Cluster Id field that occurs twice decodes to its second value (`RoundTrip.LastOccurrenceWins`);
- malformed tags, wrong wire types, bad lengths, overlong or truncated varints and illegal wire types are rejected with the generated code's errors (`CodecProperties.MalformedTagRejected`, `CodecProperties.WrongWireTypeRejected`, `CodecProperties.BadLengthRejected`, `Wire.ReadVarintFailures`, `Skip.IllegalWireTypeRejected`). One case differs. An unknown length-delimited field whose end lies 2^63 or more past its start is rejected there with InvalidLength, while the model reports UnexpectedEOF (see `Decode.UnknownValue` under "Left out").

## Model

| member | source | states |
|---|---|---|
| Aggregation.NewAggFunction | expression/aggregation.go:66-84 | nil exactly for a name outside the seven lower-cased names; otherwise a fresh function of the named kind, named by the lower-cased name, with the given arguments and DISTINCT flag, in complete mode, with an empty group map and no stream context |
| Aggregation.FactoryNames | expression/aggregation.go:66-84 | a name is accepted iff its lower-cased form is one of sum, count, avg, group_concat, max, min, firstrow; max and min are told apart by exactly those two names |
| Aggregation.ToLower | expression/aggregation.go:67-67 | lower-casing keeps the length and maps each character on its own |
| Aggregation.AggFunction.constructor | expression/aggregation.go:107-113 | the new function has the given name, arguments and DISTINCT flag, complete mode, an empty group map and an empty stream slot, and its stream slot is ready |
| Aggregation.AggFunction.Clear | expression/aggregation.go:119-122 | the group map becomes empty and the stream slot nil, which is a ready stream slot |
| Aggregation.AggFunction.SetMode | expression/aggregation.go:129-131 | the mode is replaced |
| Aggregation.AggFunction.SetArgs | expression/aggregation.go:139-141 | the arguments are replaced |
| Aggregation.AggFunction.SetContext | expression/aggregation.go:165-167 | the group map is replaced by the caller's |
| Aggregation.AggFunction.GetContext | expression/aggregation.go:143-153 | returns the key's context; a new key is stored with a fresh context, which has a checker iff DISTINCT |
| Types.GetOrCreate | expression/aggregation.go:143-153 | the key is in the new map and maps to the returned context; other keys are unchanged and no other key is added; a missing key gets a fresh context |
| Types.GetOrCreateIdempotent | expression/aggregation.go:143-153 | looking a key up a second time returns the same context and leaves the map as the first lookup left it |
| Aggregation.AggFunction.GetStreamedContext | expression/aggregation.go:155-163 | returns the stream context, creating one (with a checker iff DISTINCT) when the slot is nil, and the slot then holds it |
| Types.StreamedContext | expression/aggregation.go:155-163 | an existing stream context is reused unchanged; a nil slot gives a fresh context |
| Types.StreamedContextIdempotent | expression/aggregation.go:155-163 | a second call on the slot the first call leaves returns the same context, so a stream accumulates into one context |
| Types.NewCtx | expression/aggregation.go:146-149 | a fresh context has a null value, a zero count, no buffer, and an empty checker exactly when DISTINCT |
| Types.Check | expression/aggregation.go:179-186 | the checker answers "new" iff the tuple's key was not seen, records the key, and fails iff the key encoding fails |
| Types.CheckSeenAgain | expression/aggregation.go:179-186 | a tuple checked a second time is reported as already seen and leaves the checker unchanged |
| Aggregation.AggFunction.Update | expression/aggregation.go:169-194 | the group's context is fetched or created, then replaced by the kind's step on that row in the current mode; the step's error is returned, and a failing call still leaves the key in the map |
| Aggregation.AggFunction.StreamUpdate | expression/aggregation.go:196-221 | the stream context is replaced by the kind's streaming step on that row; the step's error is returned; a ready stream slot stays ready |
| Aggregation.AggFunction.Accumulate | expression/aggregation.go:373-382 | equals the kind's step applied to the results of evaluating every argument against the row; since evaluation is pure, this is what the source's lazy, kind-by-kind evaluation computes; avg takes the partial-result path only in final grouped mode |
| Aggregation.EvalArgs | expression/aggregation.go:261-275 | each argument is evaluated against the row, in order |
| AggSteps.AddToSum | expression/aggregation.go:188-192 | the context's value becomes CalculateSum's result even when it fails; the count goes up by one iff it succeeds |
| AggSteps.SumStep | expression/aggregation.go:169-194 | sum's step keeps the buffer and whether there is a checker |
| AggSteps.SumSeenUnchanged | expression/aggregation.go:179-186 | under DISTINCT, a value whose key the checker already holds leaves the context unchanged and returns no error |
| AggSteps.AvgFinalSeenUnchanged | expression/aggregation.go:352-362 | under DISTINCT in final mode, a partial sum whose key the checker already holds leaves the context unchanged and returns no error |
| AggRuns.DistinctSumRows | expression/aggregation.go:169-221 | from a fresh DISTINCT context and when CalculateSum does not fail, sum (and avg outside final mode) over any rows records the key of every non-null value, sums each distinct value once at its first occurrence, and counts the distinct keys |
| AggRuns.DistinctSumNext | expression/aggregation.go:179-192 | one more DISTINCT row adds and counts its value iff its key is new, and records the key |
| AggRuns.SumRows | expression/aggregation.go:169-221 | without DISTINCT and when CalculateSum does not fail, sum (and avg outside final mode) over any rows folds CalculateSum over exactly the non-null values the expressions produced, and counts them |
| AggRuns.SumNext | expression/aggregation.go:176-192 | one more row adds its value to the fold iff it is accepted |
| Aggregation.CountUpdate | expression/aggregation.go:255-289 | the argument loop equals count's step: it stops at the first error or null; a final-mode row adds its values as integers |
| Aggregation.CountTail | expression/aggregation.go:276-287 | after a complete argument row, the distinct check and the complete-mode increment equal count's step |
| AggSteps.CountStep | expression/aggregation.go:255-320 | count's step never changes the value or the buffer and keeps whether there is a checker |
| AggSteps.CountAdvance | expression/aggregation.go:261-275 | one more accepted argument extends the collected values and their integer sum by that argument |
| AggSteps.CountStepStopsAt | expression/aggregation.go:262-268 | an error or null at argument i stops count's step there, with the error if there is one, after adding the integers of the arguments before it in final mode |
| AggSteps.CountFinalStopsAfterAdding | expression/aggregation.go:266-271 | in final mode the arguments before a null have already been added to the count when the null stops the row |
| AggRuns.CountRows | expression/aggregation.go:255-320 | without DISTINCT and outside final mode, count over any rows adds exactly the number of rows whose arguments are all present |
| AggRuns.DistinctCountRows | expression/aggregation.go:276-318 | COUNT(DISTINCT) from a fresh context counts the distinct keys of the complete rows, and its checker holds exactly those keys |
| AggRuns.CountTwoPhase | expression/aggregation.go:269-287 | without DISTINCT, final-mode count over the partial counts of any split of the rows equals complete-mode count over all the rows |
| AggSteps.AvgFinalStep | expression/aggregation.go:341-370 | avg's final step keeps the buffer and whether there is a checker |
| AggSteps.AddPartial | expression/aggregation.go:360-368 | a partial sum is added to the value with CalculateSum before its count is evaluated and added |
| AggSteps.AvgFinalSumBeforeCount | expression/aggregation.go:360-367 | a partial row whose count expression fails has already had its sum added when the error is returned |
| AggRuns.AvgTwoPhase | expression/aggregation.go:341-382 | without DISTINCT and when summation is exact, final-mode avg over the (sum, count) partials of any split of the rows ends in the same context as complete-mode avg over all the rows |
| AggRuns.AvgMergeOne | expression/aggregation.go:360-368 | when summation is exact, one partial row has the effect of its whole part fed in complete mode |
| AggRuns.SumFoldShift | expression/aggregation.go:188-188 | when summation is exact, folding from a start value equals adding the start value to the fold from null |
| AggSteps.CalculateResult | expression/aggregation.go:384-398 | the average is the float quotient for a float sum, the decimal quotient rounded to four more fractional digits for a decimal sum, and null otherwise |
| AggSteps.EmptyResult | expression/aggregation.go:328-335 | a context nothing was added to gives 0 for count and null for every other kind, whether or not it has a checker |
| Aggregation.ConcatUpdate | expression/aggregation.go:420-453 | the argument loop equals group_concat's step: it stops at the first error or null, checks distinctness, then appends the row |
| Aggregation.WriteRow | expression/aggregation.go:442-450 | the buffer becomes the row's texts, with a comma first when the buffer already exists |
| AggSteps.Extend | expression/aggregation.go:442-447 | a nil buffer becomes the text; an existing one gets a comma and the text |
| AggSteps.ConcatStep | expression/aggregation.go:420-488 | group_concat's step never changes the value or the count, and never drops an existing buffer |
| AggSteps.ConcatSeenUnchanged | expression/aggregation.go:433-441 | under DISTINCT, a complete tuple whose key the checker already holds leaves the context unchanged and returns no error |
| AggRuns.DistinctConcatRows | expression/aggregation.go:420-488 | from a fresh DISTINCT context, over any rows the checker holds the keys of the complete rows, and the buffer is nil iff there are none and otherwise holds the comma-joined texts of the first row of each key, one text per key; value and count stay untouched |
| AggRuns.DistinctConcatNext | expression/aggregation.go:433-451 | one more DISTINCT row appends its text iff it is complete and its key is new, and records the key |
| AggRuns.ConcatRows | expression/aggregation.go:420-488 | without DISTINCT, over any rows the buffer is nil iff no row had all its arguments non-null, and otherwise holds the comma-joined texts of exactly those rows |
| AggRuns.ConcatNext | expression/aggregation.go:442-450 | one more complete row appends a comma and its text; any other row leaves the buffer |
| AggRuns.JoinSnoc | expression/aggregation.go:444-449 | joining one more text adds a comma and that text |
| AggSteps.MaxMinStep | expression/aggregation.go:534-559 | max/min with other than one argument fails with the wrong-number-of-arguments error and changes nothing |
| AggRuns.MaxMinRows | expression/aggregation.go:534-586 | over any single-argument rows whose values the comparison totally orders, max (min) ends with a value that is one of the non-null values and no smaller (larger) than any of them, or null if there are none |
| AggRuns.MaxMinNext | expression/aggregation.go:544-557 | one more row keeps the value extreme over the values so far |
| AggSteps.MaxMinIgnoresDistinct | expression/aggregation.go:534-586 | max and min behave the same with or without DISTINCT |
| AggSteps.FirstRowStep | expression/aggregation.go:593-607 | once the value is non-null the row is ignored |
| AggRuns.FirstRowRows | expression/aggregation.go:593-624 | over any single-argument rows, firstrow ends with the first non-null value, or null if there is none |
| AggRuns.FirstRowNext | expression/aggregation.go:595-605 | one more row sets the value iff it is still null |
| AggSteps.DistinctRepeat | expression/aggregation.go:179-186 | under DISTINCT, feeding the same row again right after a successful step changes nothing |
| AggSteps.CountFinalDistinctRepeat | expression/aggregation.go:269-283 | in final mode, repeating a COUNT(DISTINCT) row leaves the checker as it was but adds the row's integers to the count again, because they are added before the check |
| AggRuns.RunAppend | expression/aggregation.go:255-289 | running two batches of rows one after the other is running them together |
| Aggregation.AggFunction.GetGroupResult | expression/aggregation.go:323-326 | returns the finalized value of the group's context, which is created if the key is new |
| Aggregation.AggFunction.GetStreamResult | expression/aggregation.go:328-335 | returns the finalized value of the stream context; the slot then holds a bare context, so a DISTINCT stream slot is no longer ready |
| Aggregation.AggFunction.GetStreamResultCorrected | expression/aggregation.go:328-335 | returns the same value and empties the slot, so the next stream starts from a fresh context with a checker when DISTINCT |
| AggRuns.StreamResetLosesChecker | expression/aggregation.go:333-333 | a COUNT(DISTINCT) row with a non-null value reaches the checker, and the context the slot left by GetStreamResult supplies has none |
| AggRuns.CorrectedStreamReset | expression/aggregation.go:155-163 | after the corrected reset, a COUNT(DISTINCT) stream counts exactly the distinct tuples of its own rows |
| Wire.SovMetapb | _vendor/vendor/github.com/pingcap/kvproto/pkg/metapb/metapb.pb.go:517-526 | the number of bytes of the value's varint, between 1 and 10, which is the least n with x < 128^n |
| Wire.VarintBytesShape | _vendor/vendor/github.com/pingcap/kvproto/pkg/metapb/metapb.pb.go:434-442 | a varint is the value's base-128 groups from the lowest up: every byte but the last has the high bit set, and the last is below 128 |
| Wire.VarintBytesAtMostTen | _vendor/vendor/github.com/pingcap/kvproto/pkg/metapb/metapb.pb.go:517-526 | a 64-bit value takes at most ten varint bytes |
| Wire.EncodeVarintMetapb | _vendor/vendor/github.com/pingcap/kvproto/pkg/metapb/metapb.pb.go:434-442 | writes exactly the varint of v at offset, leaves every other byte, and returns the index after it |
| Wire.DecodeVarint | _vendor/vendor/github.com/pingcap/kvproto/pkg/metapb/metapb.pb.go:536-549 | the reading loop equals the varint reading function, errors included |
| Wire.ReadVarintRoundTrip | _vendor/vendor/github.com/pingcap/kvproto/pkg/metapb/metapb.pb.go:536-549 | reading the varint of v gives back v and the index after its bytes |
| Wire.ReadVarintFailures | _vendor/vendor/github.com/pingcap/kvproto/pkg/metapb/metapb.pb.go:536-542 | ten continuation bytes give IntOverflow; input ending before a terminating byte gives UnexpectedEOF |
| Wire.Int32Uint64RoundTrip | _vendor/vendor/github.com/pingcap/kvproto/pkg/metapb/metapb.pb.go:696-714 | a Store state sign-extended to 64 bits and cut back to 32 bits is the same int32 |
| Wire.AddInt | _vendor/vendor/github.com/pingcap/kvproto/pkg/metapb/metapb.pb.go:896-896 | Go int addition is exact inside the int64 range and wraps by 2^64 above it |
| Metapb.Cluster.Size | _vendor/vendor/github.com/pingcap/kvproto/pkg/metapb/metapb.pb.go:443-452 | the size is the length of the message's encoding |
| Metapb.Cluster.MarshalTo | _vendor/vendor/github.com/pingcap/kvproto/pkg/metapb/metapb.pb.go:256-271 | writes exactly the encoding at the offset, leaves every other byte, and returns its length |
| Metapb.Cluster.Marshal | _vendor/vendor/github.com/pingcap/kvproto/pkg/metapb/metapb.pb.go:246-254 | returns the encoding |
| Metapb.Store.Size | _vendor/vendor/github.com/pingcap/kvproto/pkg/metapb/metapb.pb.go:454-465 | the size is the length of the message's encoding |
| Metapb.Store.MarshalTo | _vendor/vendor/github.com/pingcap/kvproto/pkg/metapb/metapb.pb.go:283-302 | writes exactly the encoding at the offset, leaves every other byte, and returns its length |
| Metapb.Store.Marshal | _vendor/vendor/github.com/pingcap/kvproto/pkg/metapb/metapb.pb.go:273-281 | returns the encoding |
| Metapb.RegionEpoch.Size | _vendor/vendor/github.com/pingcap/kvproto/pkg/metapb/metapb.pb.go:467-476 | the size is the length of the message's encoding |
| Metapb.RegionEpoch.MarshalTo | _vendor/vendor/github.com/pingcap/kvproto/pkg/metapb/metapb.pb.go:314-329 | writes exactly the encoding at the offset, leaves every other byte, and returns its length |
| Metapb.RegionEpoch.Marshal | _vendor/vendor/github.com/pingcap/kvproto/pkg/metapb/metapb.pb.go:304-312 | returns the encoding |
| Metapb.Peer.Size | _vendor/vendor/github.com/pingcap/kvproto/pkg/metapb/metapb.pb.go:506-515 | the size is the length of the message's encoding |
| Metapb.Peer.MarshalTo | _vendor/vendor/github.com/pingcap/kvproto/pkg/metapb/metapb.pb.go:399-414 | writes exactly the encoding at the offset, leaves every other byte, and returns its length |
| Metapb.Peer.Marshal | _vendor/vendor/github.com/pingcap/kvproto/pkg/metapb/metapb.pb.go:389-397 | returns the encoding |
| Metapb.Region.Size | _vendor/vendor/github.com/pingcap/kvproto/pkg/metapb/metapb.pb.go:478-504 | the size is the length of the message's encoding |
| Metapb.Region.Lengths | _vendor/vendor/github.com/pingcap/kvproto/pkg/metapb/metapb.pb.go:478-504 | the encoding's length is one tag byte plus varint length plus payload for each field that is present, plus the unknown bytes |
| Metapb.Region.MarshalTo | _vendor/vendor/github.com/pingcap/kvproto/pkg/metapb/metapb.pb.go:341-387 | writes exactly the encoding at the offset, leaves every other byte, and returns its length |
| Metapb.Region.Marshal | _vendor/vendor/github.com/pingcap/kvproto/pkg/metapb/metapb.pb.go:331-339 | returns the encoding |
| Metapb.WritePeers | _vendor/vendor/github.com/pingcap/kvproto/pkg/metapb/metapb.pb.go:371-382 | writes the peers' length-delimited encodings one after another and nothing else |
| Metapb.PeersSize | _vendor/vendor/github.com/pingcap/kvproto/pkg/metapb/metapb.pb.go:494-499 | the peers' size is the length of their encodings |
| Metapb.PeersBytesSplit | _vendor/vendor/github.com/pingcap/kvproto/pkg/metapb/metapb.pb.go:371-382 | the peers' encoding is the encoding of any prefix followed by the encoding of the rest |
| Skip.SkipMetapb | _vendor/vendor/github.com/pingcap/kvproto/pkg/metapb/metapb.pb.go:1111-1209 | the skipping loop equals the skipping function, errors included |
| Skip.SkipGroupLoop | _vendor/vendor/github.com/pingcap/kvproto/pkg/metapb/metapb.pb.go:1170-1198 | the group loop equals the group-skipping function |
| Skip.SkipFieldBytes | _vendor/vendor/github.com/pingcap/kvproto/pkg/metapb/metapb.pb.go:1111-1209 | skipping a well-formed field of any wire type, group included, returns exactly its length, whatever follows |
| Skip.SkipGroupBytes | _vendor/vendor/github.com/pingcap/kvproto/pkg/metapb/metapb.pb.go:1170-1198 | a group of well-formed fields and its end tag is skipped as a whole |
| Skip.SkipVarintBytes | _vendor/vendor/github.com/pingcap/kvproto/pkg/metapb/metapb.pb.go:1132-1145 | a varint field is skipped as tag and varint |
| Skip.SkipFixedBytes | _vendor/vendor/github.com/pingcap/kvproto/pkg/metapb/metapb.pb.go:1146-1148 | a 64-bit field is skipped as tag and eight bytes, a 32-bit field as tag and four |
| Skip.SkipLengthDelimitedBytes | _vendor/vendor/github.com/pingcap/kvproto/pkg/metapb/metapb.pb.go:1149-1169 | a length-delimited field is skipped as tag, length and payload |
| Skip.IllegalWireTypeRejected | _vendor/vendor/github.com/pingcap/kvproto/pkg/metapb/metapb.pb.go:1204-1205 | wire types 6 and 7 are rejected with the illegal wire type error |
| Decode.DecodeTag | _vendor/vendor/github.com/pingcap/kvproto/pkg/metapb/metapb.pb.go:534-557 | the tag loop and its two checks equal the tag function |
| Decode.NextTag | _vendor/vendor/github.com/pingcap/kvproto/pkg/metapb/metapb.pb.go:550-557 | an accepted tag has a positive field number, a wire type below 8 other than 4, and is followed by more input or the end |
| CodecProperties.MalformedTagRejected | _vendor/vendor/github.com/pingcap/kvproto/pkg/metapb/metapb.pb.go:550-557 | a tag with wire type 4 ends decoding with the end-group error naming the message; otherwise a field number not positive as an int32 ends it with the illegal-tag error |
| CodecProperties.WrongWireTypeRejected | _vendor/vendor/github.com/pingcap/kvproto/pkg/metapb/metapb.pb.go:559-562 | a known field under a wire type other than its declared one is rejected with the wrong-wire-type error naming the Go field |
| CodecProperties.BadLengthRejected | _vendor/vendor/github.com/pingcap/kvproto/pkg/metapb/metapb.pb.go:893-899 | a bytes or message field whose length is negative as a Go int is rejected with InvalidLength, and one running past the input with UnexpectedEOF |
| Decode.DecodeVarintValue | _vendor/vendor/github.com/pingcap/kvproto/pkg/metapb/metapb.pb.go:559-577 | the varint field branch equals its function: wrong wire type rejected, then the varint |
| Decode.DecodeLengthDelimited | _vendor/vendor/github.com/pingcap/kvproto/pkg/metapb/metapb.pb.go:874-904 | the bytes field branch equals its function: wire type, length, sign and bounds checks, then the slice |
| Decode.LengthDelimitedValue | _vendor/vendor/github.com/pingcap/kvproto/pkg/metapb/metapb.pb.go:874-904 | an accepted field's payload is the slice of the input after its length varint, and lies wholly inside the input |
| Decode.LengthCheckAsWritten | _vendor/vendor/github.com/pingcap/kvproto/pkg/metapb/metapb.pb.go:893-899 | the generated check rejects exactly a negative length and a wrapped postIndex past the end |
| RoundTrip.PostIndexWraps | _vendor/vendor/github.com/pingcap/kvproto/pkg/metapb/metapb.pb.go:896-900 | a StartKey with length 2^63 - 1 passes the generated check with postIndex before the slice start, while the model's decoder rejects it with UnexpectedEOF |
| Decode.DecodeUnknown | _vendor/vendor/github.com/pingcap/kvproto/pkg/metapb/metapb.pb.go:597-611 | the default branch equals its function: skipMetapb from the tag, a bounds check, and the skipped bytes |
| Decode.UnknownValue | _vendor/vendor/github.com/pingcap/kvproto/pkg/metapb/metapb.pb.go:597-611 | the retained bytes are exactly the input from the tag to the end of the skipped field |
| Decode.AppendUnrecognized | _vendor/vendor/github.com/pingcap/kvproto/pkg/metapb/metapb.pb.go:609-609 | the message keeps its kind and gets the bytes appended to its unknown bytes |
| Decode.DecodeField | _vendor/vendor/github.com/pingcap/kvproto/pkg/metapb/metapb.pb.go:558-611 | the switch on the field number equals the field step function for every message |
| Decode.DecodeRegionField | _vendor/vendor/github.com/pingcap/kvproto/pkg/metapb/metapb.pb.go:855-999 | Region's switch equals its field step: keys replaced, the epoch decoded into the existing one, each peer decoded fresh and appended |
| Decode.Unmarshal | _vendor/vendor/github.com/pingcap/kvproto/pkg/metapb/metapb.pb.go:530-618 | the Unmarshal loop equals the decoding function, errors included |
| CodecProperties.DecodeUnknownRun | _vendor/vendor/github.com/pingcap/kvproto/pkg/metapb/metapb.pb.go:597-611 | a run of well-formed unknown fields decodes to the message with exactly those bytes appended |
| CodecProperties.AppendTwice | _vendor/vendor/github.com/pingcap/kvproto/pkg/metapb/metapb.pb.go:609-609 | appending unknown bytes twice is appending their concatenation |
| RoundTrip.ClusterMerge | _vendor/vendor/github.com/pingcap/kvproto/pkg/metapb/metapb.pb.go:530-618 | decoding a well-formed Cluster's encoding into any Cluster sets both fields and appends the unknown bytes |
| RoundTrip.ClusterMaxPeerCountStep | _vendor/vendor/github.com/pingcap/kvproto/pkg/metapb/metapb.pb.go:578-596 | a MaxPeerCount field is read back as the same 32-bit value |
| RoundTrip.LastOccurrenceWins | _vendor/vendor/github.com/pingcap/kvproto/pkg/metapb/metapb.pb.go:559-577 | an Id field that occurs twice decodes to its second value |
| RoundTrip.StoreMerge | _vendor/vendor/github.com/pingcap/kvproto/pkg/metapb/metapb.pb.go:619-736 | decoding a well-formed Store's encoding into any Store sets its three fields and appends the unknown bytes |
| RoundTrip.StoreStateStep | _vendor/vendor/github.com/pingcap/kvproto/pkg/metapb/metapb.pb.go:696-714 | a State field written as a sign-extended varint is read back as the same int32, negative states included |
| RoundTrip.EpochMerge | _vendor/vendor/github.com/pingcap/kvproto/pkg/metapb/metapb.pb.go:737-825 | decoding a well-formed RegionEpoch's encoding into any RegionEpoch sets both fields and appends the unknown bytes |
| RoundTrip.PeerMerge | _vendor/vendor/github.com/pingcap/kvproto/pkg/metapb/metapb.pb.go:1022-1110 | decoding a well-formed Peer's encoding into any Peer sets both fields and appends the unknown bytes |
| RoundTrip.RegionMerge | _vendor/vendor/github.com/pingcap/kvproto/pkg/metapb/metapb.pb.go:826-1021 | decoding a well-formed Region's encoding into any Region sets id and the present keys, merges the epoch into the existing one, appends the peers and the unknown bytes |
| RoundTrip.EmbeddedEpochStep | _vendor/vendor/github.com/pingcap/kvproto/pkg/metapb/metapb.pb.go:962-968 | an embedded RegionEpoch is decoded into the Region's existing epoch, or a new one if there is none |
| RoundTrip.PeersAt | _vendor/vendor/github.com/pingcap/kvproto/pkg/metapb/metapb.pb.go:995-999 | a run of Peer fields appends those peers in order |
| RoundTrip.StartKeyStep | _vendor/vendor/github.com/pingcap/kvproto/pkg/metapb/metapb.pb.go:900-904 | a StartKey field replaces the key with its payload, present even when empty |
| RoundTrip.DecodeEncoding | _vendor/vendor/github.com/pingcap/kvproto/pkg/metapb/metapb.pb.go:826-1021 | for all five messages, decoding a well-formed encoding into a message of the same kind merges it in |
| RoundTrip.DecodeAfterReset | _vendor/vendor/github.com/pingcap/kvproto/pkg/metapb/metapb.pb.go:84-219 | for all five messages, whose Reset methods are at lines 84, 110, 144, 173 and 219, decoding a well-formed message's encoding into the reset message gives the message back |

## Left out

- Aggregation.AggFunction.Update: contexts are values in a map, not shared references. The aliasing between the map handed to SetContext and the caller's map, and between two functions sharing a context, is not modelled.
- Aggregation.AggFunction.Update: where the source panics, the model has a precondition instead. Sum and avg with no argument index Args[0] out of range (expression/aggregation.go:171, :198); final-mode avg with fewer than two arguments indexes Args[1] out of range (:343); a DISTINCT row that reaches the check in a context without a checker, such as one installed through SetContext, dereferences a nil checker. Update and StreamUpdate require at least MinArgs arguments and a checker wherever ReachesCheck holds, so these panics are outside the model.
- AggSteps.CountStep: the count is an unbounded integer; Go's int64 wrap-around on overflow is not modelled.
- AggRuns.AvgTwoPhase: proved only when CalculateSum is exact, that is associative with null as identity, because float and decimal addition are foreign; the step-by-step behaviour is modelled without that hypothesis.
- AggRuns.DistinctSumRows: proved only when CalculateSum never fails, for the same reason as SumRows; a failing addition after a new key records the key without counting it.
- AggRuns.SumRows: proved only when CalculateSum never fails; a failing addition still stores its value, which the step functions model but this lemma does not cover.
- AggRuns.MaxMinRows: proved only when the comparison totally orders the values met, because CompareDatum is foreign and can fail across kinds.
- Float and decimal arithmetic, CompareDatum, GetInt64 of non-integers, `%v` formatting and the distinct checker's key encoding are abstract fields of DatumOps, because they belong to other packages.
- Argument evaluation takes a row and returns a value or an error; the evaluation context argument is not modelled.
- Aggregation.ToLower: lower-cases ASCII letters only; Unicode case mapping is not modelled.
- Group-concat's unimplemented truncation to group_concat_max_len is not modelled, since the source does not do it either.
- The streaming group_concat formats and checks whole datums, while the grouped path uses raw values. The model keeps the two formatters apart. It feeds both to the same abstract distinct key, because the checker's encoding is foreign.
- Metapb.Region.MarshalTo, Metapb.Region.Size: the peers are a sequence of values, so a nil element of Go's []*Peer, on which Size and MarshalTo panic, cannot be expressed.
- Decode.Unmarshal: on an error only the error is modelled. The partly updated message the generated code leaves behind is not.
- Decode.UnknownValue: the index sums of skipMetapb and of the default branch are exact here. In Go they are int sums. An unknown length-delimited field whose end lies 2^63 or more past its start is rejected there as InvalidLength, or panics when pre + skippy wraps, where the model reports UnexpectedEOF.
- String, ProtoMessage, Descriptor, the getters, the enum's JSON and name tables, the init registrations and the file descriptor are left out, because they are reflection metadata with no codec logic.
- encodeFixed64Metapb, encodeFixed32Metapb and sozMetapb are not modelled, because no metapb field uses them. skipMetapb's fixed-width branches are modelled.
- The Go errors are named constructors; the fmt.Errorf message text is kept only as its parameters (message name, field name, field number, wire type).

## Findings

| source | as written | input that shows it | evidently intended | confidence | as-written member | corrected member |
|---|---|---|---|---|---|---|
| expression/aggregation.go:333 | GetStreamResult (lines 246, 333, 411, 510, 529, 636) leaves the stream slot holding a bare context, without a distinct checker | a streamed COUNT(DISTINCT a): StreamUpdate, GetStreamResult, then StreamUpdate of a row with non-null a calls Check on a nil DistinctChecker | reset the slot to nil, so getStreamedContext creates a context with a checker | not executed; high | AggRuns.StreamResetLosesChecker | Aggregation.AggFunction.GetStreamResultCorrected |
| _vendor/vendor/github.com/pingcap/kvproto/pkg/metapb/metapb.pb.go:896 | postIndex := iNdEx + byteLen is a Go int sum, and only postIndex > l is rejected (same in every bytes and message field) | a Region input of tag 0x12 followed by the varint of 2^63 - 1: postIndex wraps negative, passes the check, and data[iNdEx:postIndex] is out of range | reject any length whose end lies past the input | not executed; high | RoundTrip.PostIndexWraps | Decode.LengthDelimitedValue |

The class keeps the as-written `GetStreamResult`. `Aggregation.AggFunction.StreamUpdate` requires a checker whenever a DISTINCT row reaches the check, so the as-written sequence above does not meet its precondition. `Aggregation.AggFunction.GetStreamResultCorrected` empties the slot instead. It is proved to leave a ready stream slot, and `AggRuns.CorrectedStreamReset` proves that the next stream then counts exactly its own distinct tuples. The codec's decoder uses the corrected length check throughout. `Decode.LengthCheckAsWritten` keeps the generated check for comparison.
