# A model of the Prometheus client library for Rust

This Dafny project models the parts of the library where several threads, several passes or several printers have
to fit together, and proves what they promise.

- **Histograms.** The two-shard histogram is a state machine with one action for each atomic operation, for any number
  of threads (`HistogramProtocol`, invariant in `HistogramInvariant`, proof in `HistogramSteps`), with its theorems in
  `HistogramTheorems` and `HistogramProgress`. The same actions are methods of classes with mutable shards, bucket
  arrays and a packed word, with whole calls put together of them (`HistogramCore`, `HistogramCalls`, `LocalHistogram`,
  `PackedWord`). `PlainHistogram` is the sequential
  histogram that every snapshot is compared with, `BucketMakers` the helpers that make bounds.
- **Protocol Buffers.** `Wire` is the wire format (Protocol Buffers Encoding, sections "Base 128 Varints", "Message
  Structure" and "Length-Delimited Records"), `ProtoModel` the messages with the fields they are written as and the
  effect of reading each field, `ProtoStreams` the streams. `ProtoWriter` has the size and write passes, `ProtoReader`
  the parse loops, `ProtoEncoder` the delimited stream, `Encoding` what both encoders check first; `ProtoRoundTrip` shows that reading undoes
  writing, and `ProtoSchema` holds bytes and readers against the schema.
- **Text.** `Escaping`, `TextEncoder` are the printer of the text exposition format 0.0.4. The library has no reader
  for it, so `TextLines` and `TextFamilies` hold one, written from the format's sections "Comments, help text, and type
  information" and "Text format details", and the proof that it reads back what was printed. `TextSchema` has the printed
  words themselves.
- **Registry.** `Registry` is the bookkeeping and the loops of `gather`, `RegistryInvariant` what all runs keep,
  `Gather` what merging, sorting, prefixing and labelling guarantee. `Descriptors` has the bytes that a descriptor's
  two hashes are taken of.
- **Cells, vectors, buffers and the clock.** `AtomicFloat`, `MetricVec` with `VecCreation`, `LocalCounters` and
  `CoarseClock` with `AutoFlush`.

How to read the concurrent parts: threads interleave between atomic operations, which take effect one at a time;
compare-and-swap may fail for no reason where the program uses the weak one. Each theorem about runs is about every
run, of any number of threads. Classes with one method for each atomic operation carry the invariant, so any
interleaving of their methods keeps it.

Assumptions that are stated as `requires`: fewer than 2^63 observations of a histogram, and messages shorter than 2^32
bytes. Observed values and their sums are exact numbers, and bounds may be
infinite; protobuf doubles are opaque 64-bit patterns; the atomic float is proved for any addition on bit patterns, so
rounding does not matter there. How floats are printed in text is a parameter: the text theorems ask that each number
that is printed is one word from which it can be read again. The FNV hash is a parameter too.

Where the code and its comments or documentation differ, the model follows the code:

- `src/registry.rs:174-180` says that metrics without a timestamp come last among equals. They do exactly if none of
  the metrics they tie with has a positive timestamp (`Gather.MissingLastIff`): a missing timestamp counts as zero, which
  is behind negative ones and before positive ones (`Gather.MissingFirst`).
- `src/metrics.rs:39-40` says that nothing is flushed within the interval. A flush comes early exactly if the end of the
  interval does not fit 64 bits (`CoarseClock.DueEarlyIffWraps`); where overflow is checked, the sum panics instead.
- `src/desc.rs:83-85` says that errors are recorded in the descriptor; they are returned (`Descriptors.NewDesc`).
- A histogram with an explicit bound of +Inf is printed without a bucket `le="+Inf"`, as `f64::to_string` prints that
  bound as `inf` (`src/encoder/text.rs:88-112`, `TextFamilies.InfinityPrintedIff`). The reader of the model takes both
  words as infinity.
- An untyped family makes the text encoder panic after its header is written (`src/encoder/text.rs:150-152`); the model
  returns an error at that point.

## Model

| member | source | states |
|---|---|---|
| PackedWord.ShardAndCount.Flip | src/histogram.rs:244-248 | reports shard and count from just before, and changes only the shard |
| PackedWord.ShardAndCount.Get | src/histogram.rs:252-256 | reports shard and count and changes nothing |
| PackedWord.ShardAndCount.IncBy | src/histogram.rs:260-264 | reports shard and count from just before; the word becomes the wrapping 64-bit sum |
| PackedWord.RunDecodes | src/histogram.rs:244-277 | after any run of increments and flips that add less than 2^63, the wrapping word is exactly (parity of the flips, sum of the increments) |
| PackedWord.ReportedDecodes | src/histogram.rs:244-277 | each operation of such a run is given the parity and the sum of the operations before it |
| PlainHistogram.SearchBucket | src/histogram.rs:374-382 | the scan over the bounds stops at the first bound that is at least the value: a finite bound takes a value equal to it, those before are smaller than the value, +Inf takes every value and -Inf none |
| PlainHistogram.CheckAndAdjustBuckets | src/histogram.rs:44-67 | accepts bounds exactly if they strictly increase, as numbers with the infinities at the ends; an error names the first two neighbours that do not; puts in the eleven defaults for none; drops a final +Inf |
| PlainHistogram.PrefixSumCounts | src/histogram.rs:440-455 | with increasing bounds, adding up buckets of which each observation increments one counts exactly the values at most the bound |
| PlainHistogram.PlainTells | src/histogram.rs:440-455 | row i of a plain histogram is bound i with the number of places that hold a value of at most that number, equal ones included |
| PlainHistogram.SumTells | src/histogram.rs:384-384 | the sum is the sum of the values |
| PlainHistogram.PlainShape | src/histogram.rs:440-455 | cumulative buckets never decrease along the bounds and never exceed the sample count |
| PlainHistogram.PlainMonotone | src/histogram.rs:440-455 | more observations make no counter of a snapshot smaller |
| BucketMakers.LinearBuckets | src/histogram.rs:824-843 | accepted exactly for a positive count and width; bounds are one width apart, and strictly increase |
| BucketMakers.ExponentialBuckets | src/histogram.rs:853-883 | accepted exactly for a positive count and start and a factor above 1; each bound is the one before times the factor, and they strictly increase |
| HistogramSteps.StepKeepsInv | src/histogram.rs:363-479 | every atomic operation of every thread keeps the invariant of the two shards |
| HistogramTheorems.RunKeepsInv | src/histogram.rs:363-479 | so the invariant holds in every state of every run, for any number of threads |
| HistogramTheorems.Linearizable | src/histogram.rs:395-465 | every finished collect reports the plain histogram of exactly the observations whose fetch_add came before its flip; all that had returned when it began are in, none that began after it returned is |
| HistogramTheorems.Conservation | src/histogram.rs:363-465 | in every reachable state both shards, what the collector has taken and not merged, and the unfinished part of every writer add up, per bucket, in the sum and in the count, to everything observed |
| HistogramTheorems.ColdIsIdle | src/histogram.rs:395-462 | while the collect lock is free, the cold shard is all zero and no writer is at work on it |
| HistogramTheorems.SnapshotShape | src/histogram.rs:374-455 | bucket i of every snapshot has bound i and counts exactly the observations before the flip that are, as numbers, at most the bound; buckets do not decrease and stay within the sample count |
| HistogramTheorems.SnapshotsMonotone | src/histogram.rs:395-465 | of two snapshots the later is nowhere smaller |
| HistogramTheorems.BatchAllOrNothing | src/histogram.rs:1027-1061 | a flushed batch is in a snapshot as a whole or not at all |
| HistogramTheorems.FlushRefinesObserving | src/histogram.rs:1027-1061 | a histogram at rest after a flush has the same word and the same shards as after observing the batch one by one |
| HistogramTheorems.RestContents | src/histogram.rs:363-387 | at rest the hot shard is the plain contribution of everything observed, the cold one is zero, and the word holds their number |
| HistogramTheorems.SampleSumReads | src/histogram.rs:467-474 | sample_sum yields the sum of the observations that are past their sum step |
| HistogramTheorems.SampleCountReads | src/histogram.rs:476-478 | sample_count yields the number of observations that have begun |
| HistogramProgress.SpinEndsIffDrained | src/histogram.rs:418-428 | while the collector spins, the cold count is the count at the flip exactly if no writer is pending on the cold shard, and then the next try that is not spurious ends the spin |
| HistogramProgress.NoneJoinsCold | src/histogram.rs:401-428 | after the flip every new writer goes to the other shard |
| HistogramProgress.ColdWriterProgresses | src/histogram.rs:370-386 | every step of a cold writer, retries of its sum included, makes a well-founded measure smaller; a compare-and-swap that fails for no reason costs one retry and nothing else |
| HistogramProgress.OthersKeepMeasure | src/histogram.rs:363-428 | no other action changes that measure |
| HistogramProgress.DrainEnds | src/histogram.rs:418-428 | the measure has run out exactly if the spin ends; until then some cold writer can step |
| HistogramProgress.CollectorProgresses | src/histogram.rs:418-462 | each operation of the collector brings it nearer to its release, its spin once the cold writers are done, the rest whatever writers do on the hot shard |
| HistogramProgress.OthersCostARetry | src/histogram.rs:459-460 | nobody else moves the collector back, except that a writer whose compare-and-swap of the hot sum goes through may cost it one retry |
| HistogramCore.HistogramCore.constructor | src/histogram.rs:330-357 | two empty shards behind a zero word satisfy the invariant |
| HistogramCore.HistogramCore.Begin | src/histogram.rs:370-372 | the fetch_add that begins a write is the protocol action of that name, on the objects |
| HistogramCore.HistogramCore.StepWrite | src/histogram.rs:374-386 | bucket, sum load, sum compare-and-swap and count of a writer are the protocol steps, on the objects |
| HistogramCore.HistogramCore.Flip | src/histogram.rs:401-401 | taking the totals and switching the shards is the protocol action, on the objects |
| HistogramCore.HistogramCore.StepCollect | src/histogram.rs:418-462 | spin, drain, merge and release are the protocol steps, on the objects |
| HistogramCore.HistogramCore.Finish | src/histogram.rs:374-386 | a writer that runs alone, with its compare-and-swap loop, comes to its end |
| HistogramCore.HistogramCore.Observe | src/histogram.rs:363-387 | a whole observe appends one finished write of that value |
| HistogramCore.HistogramCore.Proto | src/histogram.rs:395-465 | a whole collect, amid any schedule of writers that go on or begin after its flip, returns the plain histogram of what had begun when it was called |
| HistogramCore.HistogramCore.ReadSum | src/histogram.rs:467-474 | the read of the hot sum under the lock is the protocol action |
| LocalHistogram.LocalHistogramCore.Observe | src/histogram.rs:1001-1016 | the buffers stay the contribution of the buffered values, with the new one |
| LocalHistogram.LocalHistogramCore.Clear | src/histogram.rs:1018-1025 | nothing is buffered any more |
| LocalHistogram.LocalHistogramCore.Flush | src/histogram.rs:1027-1061 | one write that stands for exactly the buffered values, or none if there are none; nothing is buffered any more |
| Registry.RegistryCore.Register | src/registry.rs:40-91 | state and result are those of the function Registered |
| Registry.RegistryCore.Unregister | src/registry.rs:93-117 | state and result are those of the function Unregistered, error branch included |
| RegistryInvariant.RegisterAcceptsIff | src/registry.rs:44-91 | a collector is accepted exactly if its ids are new and distinct, its dimensions fit what is recorded and each other, and its key is free |
| RegistryInvariant.ErrorsTell | src/registry.rs:48-91 | which error a failed call yields: AlreadyReg for an id that is taken or a key that is, the descriptor whose dimensions do not fit, or the name of the one that repeats an id |
| RegistryInvariant.RegisteredTwice | src/registry.rs:48-50 | registering a collector again yields AlreadyReg and changes nothing |
| RegistryInvariant.KeyTells | src/registry.rs:68-81 | a key is the sum of the descriptor ids, each once, modulo 2^64 |
| RegistryInvariant.RegisterEffect | src/registry.rs:40-91 | a failed call leaves collectors and ids alone; a successful one adds exactly its collector and its ids, which were free; recorded dimensions only grow |
| RegistryInvariant.RegisterKeepsInv | src/registry.rs:40-91 | desc_ids stays the disjoint union of the registered ids, keys stay wrapping sums, dimensions match every registered descriptor |
| RegistryInvariant.RegisterUnchangedIff | src/registry.rs:44-81 | a call leaves the whole state as it was exactly if it fails and every name up to where its loop stopped had been recorded before |
| RegistryInvariant.StopUnique | src/registry.rs:44-81 | where the loop stops is determined: at the first descriptor that clashes, or behind the first that repeats |
| RegistryInvariant.StopExists | src/registry.rs:44-81 | there is always such a place, which is the end if the call succeeds |
| RegistryInvariant.FailedRegisterBlocks | src/registry.rs:63-64 | two collectors of which the first fails and by what it recorded makes the second fail too |
| RegistryInvariant.UnregisterKeepsInvIff | src/registry.rs:96-112 | unregistering keeps the invariant exactly if the ids it frees are, among those taken, the ids of the collector found under the wrapping sum |
| RegistryInvariant.UnregisterEffect | src/registry.rs:93-117 | an error leaves the whole state as it was; a success takes out the collector under the key and of the ids exactly those of the argument, and all other collectors and all dimensions stay |
| RegistryInvariant.UnregisterHitsAnother | src/registry.rs:96-112 | a collector with ids 1 and 2 unregisters the one with id 3, whose id stays taken for good |
| RegistryInvariant.RegisterThenUnregister | src/registry.rs:40-117 | unregistering what was just registered restores collectors and ids |
| RegistryInvariant.RunKeepsInv | src/registry.rs:40-117 | the invariant holds after every run in which equal keys mean equal id sets |
| RegistryInvariant.DimensionsOnlyGrow | src/registry.rs:63-64 | over every run no recorded dimension is dropped or changed |
| Registry.RegistryCore.Gather | src/registry.rs:119-215 | the result is the function Gathered of the families of some walk over the collectors, each once, with every common label once |
| Registry.GatheringTells | src/registry.rs:119-215 | so the result is, family by family, what was collected in some walk, with every common label behind every metric and the prefix before every name |
| Registry.InOrderTells | src/registry.rs:122-123 | a walk collects the families of one collector after another |
| Registry.RegistryCore.MergeFamilies | src/registry.rs:120-147 | pruning and merging by name, loop by loop |
| Registry.RegistryCore.SortFamilies | src/registry.rs:153-182 | every family is sorted in place and nothing else changes |
| Gather.MetricsReverse | src/registry.rs:154-181 | the comparison of metrics is antisymmetric and total |
| Gather.MetricsTransitive | src/registry.rs:154-181 | and transitive: a total preorder |
| Gather.MetricsAscend | src/registry.rs:154-181 | fewer labels come first, then the smaller of the first two values that differ, then the smaller timestamp; they tie exactly if values and timestamps are equal |
| Gather.SortStable | src/registry.rs:154-181 | sorting keeps the order of metrics that tie |
| Gather.MissingBehindIff | src/registry.rs:174-180 | among equal label values, a metric without a timestamp sorts behind another exactly if that one's timestamp is not positive |
| Gather.MissingLastIff | src/registry.rs:174-180 | so sorting puts metrics without a timestamp last, as the comment says, exactly if none of those they tie with has a positive one |
| Gather.MissingFirst | src/registry.rs:174-180 | a timestamp of one millisecond is enough for the metric without one to come first |
| Gather.CollatedCanonical | src/registry.rs:122-187 | families are not empty, have distinct names in order, hold exactly the metrics collected under their name, sorted, ties in the order in which the collected list has them; none is missing |
| Gather.MergeTells | src/registry.rs:124-147 | merging keeps, under each name that has metrics, the first family of that name that has any, with all metrics of that name in order of collection |
| Gather.GatheredTells | src/registry.rs:119-215 | of a gathering: every metric ends in the common labels; without them a family holds exactly the metrics collected under one name; it is named prefix, underscore and that name, or just the name; its type and help are those of the first family that has metrics; no name is missing or twice |
| Gather.PrefixKeepsOrder | src/registry.rs:188-192 | a prefix changes no comparison of names |
| Gather.LabelsKeepOrder | src/registry.rs:194-211 | common labels change no comparison of metrics |
| Gather.GatheredCanonical | src/registry.rs:119-215 | the output is sorted by its final names and final labels, and no family is empty |
| Gather.GatherOrderIrrelevant | src/registry.rs:119-215 | the order of collection does not matter if metrics of one name tie only when equal and same-named families agree on type and help |
| Registry.WalksGatherAlike | src/registry.rs:122-123 | so two walks over the hash map gather the same |
| Order.StringsTransitive | src/registry.rs:168-172 | strings are compared transitively |
| Order.StringsAscend | src/registry.rs:168-172 | a string is less than another exactly if, where they first differ, it has ended or has the smaller character |
| Order.SortedUnique | src/desc.rs:115-136 | two sorted lists without repetition of the same strings are the same list |
| Descriptors.HashStrings | src/desc.rs:157-174 | hashing strings one after another with a separator computes the hash of the terminated bytes |
| Descriptors.NamesTell | src/desc.rs:14-46 | accepted names, character by character: letters, digits but not in front, underscore and, in metric names only, the colon |
| Descriptors.AcceptedNamesPrintable | src/desc.rs:14-46 | accepted names are names of the text format |
| Descriptors.ConstNames | src/desc.rs:115-131 | in whatever order the map is walked, the result is the sorted names, or an error for a name that is not valid |
| Descriptors.AddVariableNames | src/desc.rs:138-155 | the sorted names with the marked variable ones; refused exactly if a name is not valid or occurs twice |
| Descriptors.NewDesc | src/desc.rs:86-186 | accepted exactly for a help text, a valid name and valid label names without repeated variable ones; id and dimension hash are those of canonical bytes, constant labels are sorted; each error has its cause |
| Descriptors.IdBytesAre | src/desc.rs:112-163 | the id bytes are the name, 0xFF, and the constant values, each with 0xFF behind it, in ascending order of their names |
| Descriptors.DimBytesAre | src/desc.rs:138-174 | the dimension bytes are the help text, 0xFF, and in ascending order the constant names and the variable ones after a dollar sign, each with 0xFF behind it |
| Descriptors.ConstPairsAre | src/desc.rs:176-183 | the constant pairs are exactly the labels, in ascending order of their names |
| Descriptors.TerminatedInjective | src/desc.rs:157-174 | different lists of strings are different bytes, because 0xFF does not occur in UTF-8 |
| Descriptors.IdBytesTell | src/desc.rs:112-163 | two descriptors feed the same id bytes exactly if they share the name and the constant values in name order |
| Descriptors.DimBytesTell | src/desc.rs:138-174 | two descriptors feed the same dimension bytes exactly if they share help text, constant names and variable names |
| Utf8.RoundTrip | src/desc.rs:158-161 | strings are read back from their UTF-8 bytes |
| Utf8.DecodeExact | proto/proto_model.rs:121-127 | what is read as text is the bytes of that text: no other bytes are |
| Utf8.NoSeparator | src/metrics.rs:13-13 | the separator byte occurs in no UTF-8 text |
| Wire.VarintRoundTrip | proto/proto_model.rs:1297-1341 | base-128 varints are read back |
| Wire.FieldRoundTrip | proto/proto_model.rs:1314-1328 | a field is read back with its number, wire type and value, and exactly its bytes are consumed |
| Wire.MergeEncoded | proto/proto_model.rs:1888-1925 | a parse loop over written fields feeds exactly these fields, in order, to the end of the bytes |
| ProtoRoundTrip.LabelRoundTrip | proto/proto_model.rs:117-160 | a LabelPair is rebuilt from its bytes, absent fields included |
| ProtoRoundTrip.SummaryRoundTrip | proto/proto_model.rs:858-921 | a Summary with its quantiles is rebuilt from its bytes |
| ProtoRoundTrip.HistogramRoundTrip | proto/proto_model.rs:1266-1329 | a Histogram with its buckets is rebuilt from its bytes |
| ProtoRoundTrip.MetricRoundTrip | proto/proto_model.rs:1888-1998 | a Metric with everything nested in it is rebuilt from its bytes |
| ProtoRoundTrip.FamilyRoundTrip | proto/proto_model.rs:2261-2325 | a MetricFamily of less than 2^32 bytes is rebuilt from its bytes: no error branch, every byte consumed |
| ProtoRoundTrip.NewerFieldsPassedOver | proto/proto_model.rs:2278-2280 | fields under numbers that a family does not have make no difference to the rest of it |
| ProtoSchema.VarintTells | proto/proto_model.rs:1308-1308 | a varint is the groups of seven bits, lowest first, all but the last with the top bit set, and none too many |
| ProtoSchema.ReadVarintTells | proto/proto_model.rs:1888-1890 | of any bytes, up to the tenth the first without the top bit ends a varint, and its groups make up 64 bits |
| ProtoSchema.FixedTells | proto/proto_model.rs:319-325 | a double is its eight bytes, the lowest first |
| ProtoSchema.CharTells | proto/proto_model.rs:150-159 | a character is one to four bytes with the bits of RFC 3629, section 3 |
| ProtoSchema.LabelBytesAre | proto/proto_model.proto:19-22 | the bytes by their tags: name 0x0A, value 0x12 |
| ProtoSchema.NumberBytesAre | proto/proto_model.proto:32-38 | the bytes by their tag: value 0x09 |
| ProtoSchema.QuantileBytesAre | proto/proto_model.proto:40-43 | the bytes by their tags: quantile 0x09, value 0x11 |
| ProtoSchema.BucketBytesAre | proto/proto_model.proto:61-64 | the bytes by their tags: cumulative count 0x08, upper bound 0x11 |
| ProtoSchema.SummaryBytesAre | proto/proto_model.proto:45-49 | the bytes by their tags: count 0x08, sum 0x11, every quantile 0x1A with its length |
| ProtoSchema.HistogramBytesAre | proto/proto_model.proto:55-59 | the bytes by their tags: count 0x08, sum 0x11, every bucket 0x1A with its length |
| ProtoSchema.MetricBytesAre | proto/proto_model.proto:66-74 | the bytes by their tags: labels 0x0A, gauge 0x12, counter 0x1A, summary 0x22, untyped 0x2A, histogram 0x3A, timestamp 0x30 in two's complement |
| ProtoSchema.FamilyBytesAre | proto/proto_model.proto:76-81 | the bytes by their tags: name 0x0A, help 0x12, type 0x18 with COUNTER 0, GAUGE 1, SUMMARY 2, UNTYPED 3 and HISTOGRAM 4, every metric 0x22 with its length |
| ProtoSchema.TypeTells | proto/proto_model.proto:24-30 | these numbers and no others are read as these types |
| ProtoSchema.MessagesObey | proto/proto_model.rs:1888-1924 | every message passes over the field numbers that the schema does not give it, and refuses those it does in another wire type |
| ProtoSchema.ForeignPassedOver | proto/proto_model.rs:1888-1924 | so bytes with foreign fields anywhere are read as those without |
| ProtoSchema.MisfitRefusesAll | proto/proto_model.rs:1888-1924 | and bytes with a field in the wrong wire type anywhere are refused |
| ProtoSchema.MessagesIndependent | proto/proto_model.rs:1888-1924 | for every message, fields of different numbers do not affect each other, and of two of the same number that is not repeated the later one counts |
| ProtoSchema.OrderIrrelevant | proto/proto_model.rs:1888-1924 | so exchanging neighbouring fields of different numbers anywhere in the bytes makes no difference to what is read |
| ProtoSchema.LaterTypeCounts | proto/proto_model.rs:2271-2273 | of two types the later one counts, but a number that is no type is passed over |
| ProtoStreams.CodedInputStream.ReadVarint | proto/proto_model.rs:1888-1915 | reading a varint byte by byte decodes it and moves behind it |
| ProtoStreams.CodedInputStream.PushLimit | proto/proto_model.rs:858-886 | reading is confined to the length-delimited body, and what is behind it stays |
| ProtoReader.MergeLabel | proto/proto_model.rs:117-134 | the parse loop computes ParseLabel of the bytes up to the limit, passing over field numbers it does not know |
| ProtoReader.MergeNumber | proto/proto_model.rs:288-306 | the parse loop computes ParseNumber (Gauge; Counter and Untyped are alike) |
| ProtoReader.MergeQuantile | proto/proto_model.rs:628-653 | the parse loop computes ParseQuantile |
| ProtoReader.MergeBucket | proto/proto_model.rs:1483-1508 | the parse loop computes ParseBucket |
| ProtoReader.MergeSummary | proto/proto_model.rs:858-886 | the parse loop with nested quantiles computes ParseSummary |
| ProtoReader.MergeHistogram | proto/proto_model.rs:1266-1294 | the parse loop with nested buckets computes ParseHistogram |
| ProtoReader.MergeMetric | proto/proto_model.rs:1888-1924 | the parse loop with everything nested computes ParseMetric |
| ProtoReader.MergeFamily | proto/proto_model.rs:2261-2284 | the parse loop with nested metrics computes ParseFamily and, if it succeeds, ends at the end |
| ProtoWriter.VarintSizeIsLength | proto/proto_model.rs:1308-1308 | the size of a varint by thresholds is the number of bytes it is written as |
| ProtoWriter.ComputeLabelSize | proto/proto_model.rs:137-148 | the 32-bit size is the number of bytes the message is written as |
| ProtoWriter.ComputeNumberSize | proto/proto_model.rs:309-317 | the same for Gauge (Counter and Untyped are alike) |
| ProtoWriter.ComputeQuantileSize | proto/proto_model.rs:656-667 | the same for Quantile |
| ProtoWriter.ComputeBucketSize | proto/proto_model.rs:1511-1522 | the same for Bucket |
| ProtoWriter.ComputeSummarySize | proto/proto_model.rs:889-904 | sizes of the message and of every quantile in it are cached, and are the numbers of bytes |
| ProtoWriter.ComputeHistogramSize | proto/proto_model.rs:1297-1312 | sizes of the message and of every bucket in it are cached, and are the numbers of bytes |
| ProtoWriter.ComputeMetricSize | proto/proto_model.rs:1927-1959 | the same for everything nested in a Metric |
| ProtoWriter.ComputeFamilySize | proto/proto_model.rs:2287-2305 | the same for a MetricFamily, three levels deep |
| ProtoWriter.WriteLabel | proto/proto_model.rs:150-159 | appends exactly the bytes of the message |
| ProtoWriter.WriteNumber | proto/proto_model.rs:319-325 | appends exactly the bytes of the message (Gauge; Counter and Untyped are alike) |
| ProtoWriter.WriteQuantile | proto/proto_model.rs:669-678 | appends exactly the bytes of the message |
| ProtoWriter.WriteBucket | proto/proto_model.rs:1524-1533 | appends exactly the bytes of the message |
| ProtoWriter.WriteSummary | proto/proto_model.rs:906-920 | with cached sizes, appends the bytes in which every length prefix is the length of the body behind it |
| ProtoWriter.WriteHistogram | proto/proto_model.rs:1314-1328 | with cached sizes, appends the bytes in which every length prefix is the length of the body behind it |
| ProtoWriter.WriteMetric | proto/proto_model.rs:1961-1997 | the same for everything nested in a Metric, the histogram before the timestamp |
| ProtoWriter.WriteFamily | proto/proto_model.rs:2307-2324 | the same for a MetricFamily: exactly as many bytes as the cached size says |
| ProtoEncoder.EncodeFamilies | src/encoder/pb.rs:30-37 | families are written with their lengths up to the first that has no metrics or no name; its error is returned, and what was written stays |
| ProtoEncoder.WriteAndMerge | proto/proto_model.rs:2261-2325 | sizes, bytes and the parse of these bytes, one after another: the family comes back and every byte is consumed |
| ProtoEncoder.DelimitedRoundTrip | src/encoder/pb.rs:30-37 | a stream of families, each behind its length, is read back as the same families |
| Escaping.FindFirstOccurrence | src/encoder/text.rs:245-251 | the first place of a special character, or none |
| Escaping.EscapeString | src/encoder/text.rs:258-287 | scanning and then copying computes the substitution character by character |
| Escaping.EscapeTells | src/encoder/text.rs:270-283 | character by character: a backslash is doubled and a newline becomes backslash and n in both modes, a quote gets a backslash in label values only, and all else stays |
| Escaping.EscapeConcat | src/encoder/text.rs:265-287 | and a text is escaped as its characters are, one by one |
| Escaping.HelpKeepsQuotes | src/encoder/text.rs:258-287 | a help text without backslash and newline stays as it is, quotes included; as a label value it does exactly if it has no quote |
| Escaping.UnescapeEscape | src/encoder/text.rs:253-287 | escaping is undone, in both modes, on every string |
| Escaping.NoNewline | src/encoder/text.rs:253-287 | escaped text has no raw newline |
| Escaping.QuotesEscaped | src/encoder/text.rs:253-287 | every quote in an escaped label value follows an odd number of backslashes, and the closing quote an even one |
| Escaping.ReadQuotedEscape | src/encoder/text.rs:222-240 | a reader that stops at the first unescaped quote gets the value and everything behind it |
| TextLines.ReadLabelsShow | src/encoder/text.rs:212-243 | printed label pairs are read back, in order, up to the closing brace |
| TextLines.DropBlanksTells | src/encoder/text.rs:60-67 | what is lost of a help text that is read back are the blanks and tabs before the first other character |
| TextLines.ReadSampleShow | src/encoder/text.rs:176-203 | a printed sample is read back with name, labels, value and timestamp, zero being none |
| TextLines.ReadLineShow | src/encoder/text.rs:57-75 | every printed line is read back, a help text without its leading blanks |
| TextLines.TextRoundTrip | src/encoder/text.rs:48-158 | the text of a list of lines is read back as these lines |
| TextFamilies.ExpositionRoundTrip | src/encoder/text.rs:48-158 | the text of families with valid names is read back as names, types, help texts without leading blanks, labels in order, values, timestamps, bounds and quantiles |
| TextFamilies.HistogramPointsRead | src/encoder/text.rs:85-112 | what is read of a histogram are its buckets in order, bounds as numbers, with one more for infinity exactly if it has no unbounded one |
| TextFamilies.QuantilePointsRead | src/encoder/text.rs:125-137 | what is read of a summary are its quantiles in order, as numbers |
| TextFamilies.InfinityPrintedIff | src/encoder/text.rs:88-112 | where infinity is printed as inf, the word +Inf is there exactly if no bucket of the histogram is unbounded |
| TextEncoder.LabelPairsToText | src/encoder/text.rs:212-243 | with its changing separator, appends the printed labels, the additional one last, and nothing if there are none |
| TextEncoder.WriteSample | src/encoder/text.rs:176-203 | appends exactly one printed sample line |
| TextEncoder.WriteHistogram | src/encoder/text.rs:85-124 | appends exactly the lines of the histogram, the +Inf bucket only if none was seen |
| TextEncoder.WriteSummary | src/encoder/text.rs:125-149 | appends exactly the lines of the summary |
| TextEncoder.EncodeFamily | src/encoder/text.rs:53-155 | refuses a family without metrics or name before anything is written, and stops behind the header at an untyped one |
| TextEncoder.EncodeImpl | src/encoder/text.rs:48-158 | appends the lines of the families up to the first that fails, and returns its error |
| TextEncoder.EncodedReads | src/encoder/text.rs:48-158 | what a successful encoding wrote is read back as what was to be said of the families |
| TextSchema.SampleTextIs | src/encoder/text.rs:176-243 | the text of a sample, word by word: braces only around labels, commas only between them, a timestamp only if it is not zero |
| TextSchema.DecimalTells | src/encoder/text.rs:194-198 | a timestamp is printed in decimal without zeros in front |
| TextSchema.HeaderTextIs | src/encoder/text.rs:57-75 | a line with the help text only if there is one, and a line with the type in lower case |
| TextSchema.FamilyTextIs | src/encoder/text.rs:53-152 | a family is its header and then its metrics, behind the families before it |
| TextSchema.EncodedTextIs | src/encoder/text.rs:48-158 | an encoding holds the families before the first that has no metrics, no name or no printable type; of that one the header if only its type is at fault, and otherwise nothing |
| AtomicFloat.Linearizable | src/atomic64.rs:99-135 | in every interleaving of load and compare-and-swap steps, set and swap, the cell is what the logged operations make of the first value, bit by bit and whatever addition rounds; every finished operation is in the log once and in its thread's order |
| AtomicFloat.FailureMeansProgress | src/atomic64.rs:109-123 | a compare-and-swap that fails, and not spuriously, fails because an operation took effect since the load |
| AtomicFloat.NothingLostInRun | src/atomic64.rs:99-135 | where no addition was rounded, the cell is the last overwrite plus every delta added since |
| AtomicFloat.AtomicF64.IncBy | src/atomic64.rs:109-123 | amid any operations of others, the loop adds its delta exactly once, or not at all if it is cut off; a round without interference is enough |
| AtomicFloat.AtomicF64.Swap | src/atomic64.rs:133-135 | overwrites, and yields what was there |
| MetricVec.MetricVecCore.HashLabelValues | src/vec.rs:100-114 | the hash of the values run together, or an error for the wrong number |
| MetricVec.MetricVecCore.HashLabels | src/vec.rs:116-138 | the hash of the values in the order of the names, or the error for the first that is missing |
| MetricVec.PositionalTells | src/vec.rs:116-138 | a label map is taken exactly if it has as many entries as there are names and every name; otherwise the error says which number was wanted, or the first name that is missing |
| MetricVec.FedTells | src/vec.rs:108-111 | two tuples are hashed from the same bytes exactly if their values run together are the same string |
| MetricVec.NoHashTellsIff | src/vec.rs:108-111 | so no hash function at all tells two tuples apart exactly if their values run together are the same string |
| MetricVec.MetricVecCore.GetMetricWithLabelValues | src/vec.rs:52-60 | the child under the hash, created if there is none |
| MetricVec.MetricVecCore.GetMetricWith | src/vec.rs:62-71 | for a label map, the same child as for its values in the order of the names |
| MetricVec.MetricVecCore.GetOrCreateMetric | src/vec.rs:156-166 | looks again before it creates |
| MetricVec.MetricVecCore.DeleteLabelValues | src/vec.rs:73-82 | removes the child under the hash, or says that there is none |
| MetricVec.MetricVecCore.DeleteLabels | src/vec.rs:84-93 | for a label map, removes the child of its values in the order of the names |
| MetricVec.StepTells | src/vec.rs:52-98 | what getting, removing and resetting do, case by case, with their errors |
| MetricVec.AgreesIffApart | src/vec.rs:52-114 | a vector answers like a map from label values to children, whatever is done with the tuples in use, exactly if no two of them have the same hash |
| MetricVec.ShiftedCollide | src/vec.rs:108-111 | whatever the hash, moving characters from one value to the next does not change it |
| MetricVec.ShiftedExample | src/vec.rs:108-111 | ("ab", "c") and ("a", "bc") share a child under every hash |
| VecCreation.Linearizable | src/vec.rs:52-98 | in every run of calls that look under the read lock and again under the write lock, removals and resets, each call is answered as if it had happened at once, at the lock that decided it |
| VecCreation.RefinesTable | src/vec.rs:52-114 | so the answers of every concurrent run are those of a map from label values to children, in the order of the deciding locks, as long as no two tuples in use have the same hash |
| VecCreation.StepKeepsInv | src/vec.rs:52-98 | checks under the two locks, removals and resets keep the children what the log of calls says |
| VecCreation.SameChildIff | src/vec.rs:156-166 | of two calls, the later is given the child of the earlier exactly if the hashes are equal and nothing removed it in between |
| VecCreation.ReadDecides | src/vec.rs:55-57 | a child found under the read lock is what the write lock would have given |
| MetricVec.MetricVecCore.ResetAll | src/vec.rs:96-98 | no child is left |
| LocalCounters.RunConserves | src/counter.rs:205-236 | shared value, unflushed values, what resets dropped and what wrapped around make up all increments, in every state of every run |
| LocalCounters.Conservation | src/counter.rs:205-236 | without resets, shared value and unflushed values equal all increments modulo 2^64, and exactly below it |
| LocalCounters.GenericLocalCounter.IncBy | src/counter.rs:205-208 | the total grows by the amount, modulo 2^64 |
| LocalCounters.GenericLocalCounter.ResetBuffer | src/counter.rs:224-226 | nothing is buffered any more, and the shared value stays |
| LocalCounters.GenericLocalCounter.Flush | src/counter.rs:230-236 | what was buffered is shared, and the total stays |
| LocalCounters.GenericLocalCounterVec.WithLabelValues | src/counter.rs:286-292 | the local counter of the hash, made for the vector's child if there is none; succeeds exactly if the number of values fits and the local counter or the child is there or the child can be built |
| LocalCounters.GenericLocalCounterVec.Flush | src/counter.rs:303-307 | in whatever order, every child grows by exactly what was buffered for it, and nothing else changes |
| LocalCounters.GenericLocalCounterVec.RemoveLabelValues | src/counter.rs:296-300 | forgets the local counter without flushing it, and removes the child |
| LocalCounters.RemovalDiscards | src/counter.rs:296-300 | flushing before a removal and flushing after it leave the same shared values exactly if the removed local counter held nothing |
| CoarseClock.NeverDecreases | src/timer.rs:22-35 | racing callers never lower RECENT |
| CoarseClock.ReturnedInRange | src/timer.rs:22-35 | a call returns neither less than its clock reading nor less than RECENT at its load, and RECENT is at least that from then on |
| CoarseClock.ReturnedWasRecent | src/timer.rs:26-34 | what a call has returned is a value that RECENT had at some point of the run |
| CoarseClock.DueEarlyIffWraps | src/metrics.rs:41-49 | a root is found due before its interval has passed exactly if last flush plus interval is past 64 bits |
| CoarseClock.FlushesApartIff | src/metrics.rs:41-49 | in every run, two consecutive flushes of one root are at least its interval apart exactly if the end of the interval is not past 64 bits |
| CoarseClock.FlushedIff | src/metrics.rs:41-49 | in every reachable state a root that is tried is flushed exactly if its interval has passed or its end is past 64 bits |
| CoarseClock.WrapFlushesTwice | src/metrics.rs:41-49 | a root that is to wait 2^64 - 1 milliseconds is flushed twice at the same time |
| CoarseClock.Recent.NowMillis | src/timer.rs:22-35 | amid others that raise the cell, the loop never lowers it and returns either its clock reading, which the cell then holds, or a greater value that was in the cell |
| AutoFlush.AFLocalCounter.TryFlush | src/metrics.rs:41-49 | flushes exactly when it is due; the total stays |
| AutoFlush.AFLocalHistogram.Observe | src/auto_flush.rs:138-144 | the value is buffered, and everything buffered becomes one finished write of the shared histogram if a flush is due |
| AutoFlush.AFLocalCounter.IncBy | src/auto_flush.rs:72-78 | the total grows by the amount, and all of it is shared if a flush is due |

## Left out

- Weak memory: `Relaxed`, `Acquire` and `Release` are not told apart; only interleavings of atomic steps are modelled.
- Rounding, NaN and negative zero in histograms: values are exact numbers. `f64::to_string` is a parameter.
- FNV itself: hashes are functions of the bytes that are fed.
- Keeping unknown fields: a field number that a message does not have, or an enum value that there is not, is passed over, where the library keeps it aside and writes it again. Groups are refused.
- `ProtoReader.MergeLabel`: passes over unknown fields instead of keeping them, as above.
- `ProtoReader.MergeNumber`: passes over unknown fields instead of keeping them, as above.
- `ProtoReader.MergeQuantile`: passes over unknown fields instead of keeping them, as above.
- `ProtoReader.MergeBucket`: passes over unknown fields instead of keeping them, as above.
- `ProtoReader.MergeSummary`: passes over unknown fields instead of keeping them, as above.
- `ProtoReader.MergeHistogram`: passes over unknown fields instead of keeping them, as above.
- `ProtoReader.MergeMetric`: passes over unknown fields instead of keeping them, as above.
- `ProtoReader.MergeFamily`: passes over unknown fields and enum values instead of keeping them, as above.
- Merging into a message that is not empty: every parse starts from the default message, as the library's nested reads do.
- Message structs are values, so the cached size of each message is in a table beside it that has the shape of the message tree, and a size that went stale through a later mutation cannot be expressed.
- Helpers of the protobuf runtime (varints, tags, strings, limits) are written from the public encoding, since the runtime is not part of this model. Text that is not UTF-8 is an error.
- Reflection, message descriptors, lazily made statics and accessors of `proto/proto_model.rs`.
- I/O errors while text or protobuf is written: the writers are growing buffers.
- Strings in text are sequences of characters; searching bytes for the ASCII characters that are escaped is searching characters.
- The metrics a collector yields are fixed with the collector; a collector that changes between `register` and `gather` is not modelled beyond what each theorem says of any list of families.
- `HistogramCore.HistogramCore.Finish`: a writer run without interruption; interrupted runs are covered by the theorems about the protocol.
- `HistogramProgress.ColdWriterProgresses`: a compare-and-swap that fails for no reason is bounded but not ruled out; with endless spurious failures the drain does not end.
- `HistogramCore.HistogramCore.Proto`: the schedule of others is finite, and then everyone comes to their end; what others do between the lock and the flip is covered by the theorems about the protocol.
- `AtomicFloat.AtomicF64.IncBy`: the loop runs through given rounds of interference instead of forever, and says when it is cut off.
- `CoarseClock.Recent.NowMillis`: as above, for the loop over `RECENT`; the clock reading is an input.
- `LocalCounters.GenericLocalCounterVec.WithLabelValues`: returns the error on which the library panics.
- `AutoFlush.AFLocalCounter.IncBy`: the root holds one local counter, where the program's roots may hold several.
- `AutoFlush.AFLocalHistogram.Observe`: the root holds one local histogram, as above.
- Gauges, `Value`, `plain_model`, error texts and option builders: wrappers and records.
- Timers, the updater thread and wall clocks; `src/push.rs` and `src/process_collector.rs`; macros and `static-metric/`; examples and benches.
