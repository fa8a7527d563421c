# Proved models of the reconstruction's algorithms

The repository reconstructs events of a beam-dump experiment: it reads files and banks written by
the data acquisition, calibrates waveforms, decodes trigger words, digitises simulated hits and
draws its own call graph. The Dafny files here model the self-contained algorithms in it and prove
what they promise, for all inputs or for all runs.

| files | part of the program | main results |
|---|---|---|
| `CallGraph.dfy`, `CallGraphBuild.dfy`, `CallGraphFactories.dfy`, `CallGraphLayout.dfy`, `CallGraphDrawing.dfy` | the call-graph view: nodes from a call stack, chaotic fixed-point ranking, columns and boxes | termination, ranks are longest walks, callers right of callees, no overlap |
| `Calendar.dfy`, `TimeStamp.dfy` | the data frame header's BCD and mixed-unit time | round trip exactly on the 32-bit clock's range, order isomorphism |
| `BitFields.dfy`, `PtFormat.dfy`, `PtLayout.dfy`, `PtReader.dfy`, `PtFile.dfy`, `PtRoundTrip.dfy`, `PtTruncated.dfy`, `PtAccess.dfy` | the post-trigger file: packed headers, nested parser, slice index | every header field by its bytes, printing and reading back, exact byte accounting, agreement of the three readers, index and sequential reading |
| `TridasSource.dfy` | the event source on the reader, and waveform alignment | every event of a file once and in order, one time axis |
| `EvioBank.dfy` | the recursive bank parser and its index | parsing any encoded tree, exact counts exactly when, last leaf wins |
| `Composite.dfy`, `Pulses.dfy`, `PulseRoundTrip.dfy` | the composite-bank decoder, samples and pulses | regions in order for any bytes, inverse of two encoders |
| `Calibration.dfy`, `CalibProtocol.dfy`, `CalibClasses.dfy` | calibration handlers, their cache, and sharing between worker threads | invariants of every interleaving, histories of the cache |
| `Crossings.dfy` | threshold crossings and pulse choice | exactly the maximal runs, exactly when nothing touches the threshold |
| `Ini.dfy`, `IniLines.dfy` | the INI parser and reader | print and parse lines of every kind, joined values |
| `Words.dfy`, `Trigger.dfy` | bits of machine words, the trigger-word decoder | OR of the masks, counts that agree |
| `McHits.dfy` | the Monte Carlo hit accumulator | conserved charge, independence of order |
| `Arith.dfy`, `Options.dfy`, `Seqs.dfy` | shared arithmetic facts, the optional value, pieces of sequences | |

Code that the program runs on mutable objects is modelled by classes and methods with loops; each is
tied to a function of its inputs or old state, and the results are proved about that function.
Exceptions, failing assertions and error codes are values. A file is a sequence of bytes, a database
read is an arbitrary table handed in, and a call made under the framework's write lock is one atomic
step, so an interleaving of threads is a sequence of steps. Samples are natural numbers or reals.

These properties one might expect are false of the code. Each has its counterexample and its exact
condition:

- A factory that calls itself may end no higher than another one it calls (`SelfCallSinksCaller`);
  whatever the addresses, all end above their other callees exactly when no factory that calls itself
  calls another one (`CallersEndAboveExactlyWhen`).
- Boxes can overlap, or leave the canvas, when label heights differ (`UnevenHeightsOverlap`,
  `TallLabelPushesOut`, `LayoutIsCleanExactlyWhen`).
- The time round trip fails from 2^31 seconds on (`ClockWraps`) and holds on exactly the range below
  (`FullTimeRoundTripExactlyWhen`).
- An event at the very end of a file may be accepted although its last samples are missing and its frames
  take more than the announced size (`CutEventGetsInventedSample`). Whatever the bytes, an accepted event
  sums to its size exactly when its position and size leave no room for such a frame
  (`SumsExactlyWhen`); for events announced to end within the file, when that is before its end
  (`SumsExactlyWhenBeforeEnd`, `EventBeforeEndSums`).
- The element count of a leaf in a tagsegment counts the padding (`TagSegmentByteIsReadAsFour`,
  `ParseIsTrueExactlyWhen`).
- A remark behind an empty INI value becomes the value (`RemarkBecomesValue`); pairs read back exactly when
  they have none there (`PairReadsBackExactlyWhen`).
- The bound check of the pulse decoder wraps around (`HugeCountIsEmitted`, `RegionsInsideExactlyWhen`).
- Loaded handlers of one table can answer differently, because filling clears the map and not the cache
  (`StaleAfterRefill`, `DisagreeingRunDisagrees`, `LoadedAnswerAlikeExactlyWhen`); until the table is
  cleared they do not (`LoadedAgreeUntilCleared`).
- Pulses that touch at the threshold are merged (`TouchingPulsesMerge`); crossings are the maximal runs
  exactly when no sample above the threshold has a neighbour equal to it (`FindsRunsExactlyWhen`).

Check the whole project with `dafny verify dfyconfig.toml`.

## Model

| member | source | states |
|---|---|---|
| CallGraphDrawing.DrawCallStack | src/plugins/monitoring/janaview/JEventProcessor_janaview.cc:252-359 | From any call stack without circles other than self-calls to its drawing: every factory gets exactly one box, written with its name and, behind a colon, its tag; the callee of every entry stands clear to the left of its caller when no self-calling factory calls another, otherwise those do that the ranking follows; boxes are inside and apart exactly when the columns are roomy, as with one label height |
| CallGraphFactories.NametagsEqualExactlyWhen | src/plugins/monitoring/janaview/JEventProcessor_janaview.cc:187-193 | Over names and tags without a colon, two nametags are equal exactly when name and tag are |
| CallGraphFactories.ColonNamesCollide | src/plugins/monitoring/janaview/JEventProcessor_janaview.cc:187-193 | With a colon in a name it need not be so: name a:b and name a with tag b |
| CallGraphFactories.RecordedFactory | src/plugins/monitoring/janaview/JEventProcessor_janaview.cc:254-266 | A factory, as a pair of name and tag, has a node exactly when some entry that is not ignored has it as caller or callee |
| CallGraphFactories.RecordedCall | src/plugins/monitoring/janaview/JEventProcessor_janaview.cc:254-268 | Factory b is a recorded callee of factory a exactly when some such entry has these two, and a self-call only if the factory was mentioned before |
| CallGraphFactories.TaggedExample | src/plugins/monitoring/janaview/JEventProcessor_janaview.cc:254-268 | A stack with one factory in two tags and the four nodes and edges it gives, as strings |
| CallGraphDrawing.LayoutIsCleanExactlyWhen | src/plugins/monitoring/janaview/JEventProcessor_janaview.cc:343-354 | All boxes are inside the canvas and no two overlap exactly when each column of two rows or more has row spacing at least twice the padding |
| CallGraphBuild.RankCallStack | src/plugins/monitoring/janaview/JEventProcessor_janaview.cc:252-291 | For every call stack without circles other than self-calls the ranks are the longest chains of followed calls, after at most one pass more than the longest has calls |
| CallGraphBuild.CallersEndAboveExactlyWhen | src/plugins/monitoring/janaview/JEventProcessor_janaview.cc:252-291 | Whatever addresses the nodes get, every factory ends above all other factories it calls exactly when no self-calling factory calls another one |
| CallGraphBuild.SelfCallSinksCaller | src/plugins/monitoring/janaview/JEventProcessor_janaview.cc:281-282 | A concrete stack: a calls b and then itself, and with its node at the lower address both end at rank 0 |
| Graphs.LongestRankingIsTheOne | src/plugins/monitoring/janaview/JEventProcessor_janaview.cc:271-291 | An acyclic graph has exactly one ranking by longest walks, so the final ranks do not depend on the order of nodes |
| CallGraph.PromoteCallers | src/plugins/monitoring/janaview/JEventProcessor_janaview.cc:271-291 | The fixed-point loop stops on every acyclic graph; ranks are longest walk lengths and fall along every edge; a pass beyond the first shows a walk of that many edges less one |
| CallGraph.Pass | src/plugins/monitoring/janaview/JEventProcessor_janaview.cc:272-289 | One pass over the nodes in any order keeps every rank a walk length, lowers none, lifts each node above what its callees had, and reports a change exactly when some rank rose |
| CallGraph.Promote | src/plugins/monitoring/janaview/JEventProcessor_janaview.cc:279-287 | One node's inner loop over its callees in address order with the `break` on itself: the rank ends above every callee that is looked at, and rose only to one above such a callee |
| CallGraph.PassCoversOneMore | src/plugins/monitoring/janaview/JEventProcessor_janaview.cc:271-289 | After k passes every walk of at most k edges is accounted for in the rank of its head |
| CallGraph.QuiescentIsLongest | src/plugins/monitoring/janaview/JEventProcessor_janaview.cc:290-291 | When a pass changes nothing, sound ranks are exactly the longest walk lengths |
| Graphs.AcyclicBoundsWalks | src/plugins/monitoring/janaview/JEventProcessor_janaview.cc:271-291 | The termination argument: a walk in an acyclic graph has fewer edges than the graph has nodes |
| Graphs.CyclicNeverQuiescent | src/plugins/monitoring/janaview/JEventProcessor_janaview.cc:271-291 | When the followed edges have a cycle no ranking satisfies the exit condition: there the loop never ends |
| CallGraph.GraphIsFollowed | src/plugins/monitoring/janaview/JEventProcessor_janaview.cc:279-287 | The callees the loop looks at: all, or for a node that is its own callee those at lower addresses |
| Graphs.LoneSelfCalleesAllFollowed | src/plugins/monitoring/janaview/JEventProcessor_janaview.cc:279-287 | When no self-calling node has another callee, the loop follows every callee other than the node itself |
| CallGraph.EdgelessRanks | src/plugins/monitoring/janaview/JEventProcessor_janaview.cc:271-291 | Where the loop follows no edge all ranks are 0 |
| CallGraphBuild.RecordedEdge | src/plugins/monitoring/janaview/JEventProcessor_janaview.cc:254-268 | For every stack: b is a recorded callee of a exactly when some entry says so, except that a self-call which is the first mention of its factory leaves no edge |
| CallGraphBuild.MakeNodes | src/plugins/monitoring/janaview/JEventProcessor_janaview.cc:253-268 | The construction loop builds a table of new nodes, keyed by name and closed under callees, whose edges are those that RecordedEdge characterises |
| CallGraphBuild.AddCall | src/plugins/monitoring/janaview/JEventProcessor_janaview.cc:260-267 | One stack entry: both look-ups come before the insertions, so a first self-call puts its edge on a node that is replaced at once |
| CallGraphDrawing.RankColumns | src/plugins/monitoring/janaview/JEventProcessor_janaview.cc:293-305 | The rank table lists each rank once, ascending, with exactly the factories of that rank in table order |
| CallGraphDrawing.CallerIsLater | src/plugins/monitoring/janaview/JEventProcessor_janaview.cc:293-305 | Ranks that fall along edges put each caller in a later column than its callees |
| CallGraphLayout.Layout | src/plugins/monitoring/janaview/JEventProcessor_janaview.cc:308-359 | The layout loops place every box where the closed forms XPos and YPos on the computed canvas say |
| CallGraphLayout.ColumnsApart | src/plugins/monitoring/janaview/JEventProcessor_janaview.cc:310-357 | Rounded-down column spacing is at least 50 pixels and all columns fit the canvas, whatever the labels |
| CallGraphLayout.DifferentColumnsApart | src/plugins/monitoring/janaview/JEventProcessor_janaview.cc:342-357 | Boxes of different columns are at least 42 pixels apart, whatever the labels |
| CallGraphLayout.CommonHeightIsClean | src/plugins/monitoring/janaview/JEventProcessor_janaview.cc:308-359 | With one label height every box is inside the canvas and no two boxes overlap |
| CallGraphLayout.RowsApartExactlyWhen | src/plugins/monitoring/janaview/JEventProcessor_janaview.cc:343-354 | Neighbouring boxes of a column are apart exactly when the rounded-down row spacing is at least twice the padding |
| CallGraphLayout.RoomyColumnIsClean | src/plugins/monitoring/janaview/JEventProcessor_janaview.cc:343-354 | Under that condition any two boxes of the column are inside the canvas and apart |
| CallGraphLayout.UnevenHeightsOverlap | src/plugins/monitoring/janaview/JEventProcessor_janaview.cc:315-325 | A concrete drawing with uneven label heights whose boxes overlap: the row count is taken from the tallest column only |
| CallGraphLayout.TallLabelPushesOut | src/plugins/monitoring/janaview/JEventProcessor_janaview.cc:315-325 | A concrete drawing, one label of height 100 beside twenty of height 5: the row spacing is 0 and a box leaves the canvas |
| CallGraphLayout.CanvasWidthIsLeast | src/plugins/monitoring/janaview/JEventProcessor_janaview.cc:326-339 | The canvas is the narrowest that holds the frame and leaves 50 pixels between columns |
| CallGraphLayout.CanvasHeightIsLeast | src/plugins/monitoring/janaview/JEventProcessor_janaview.cc:316-336 | It is the lowest that holds the frame and leaves 10 pixels between the rows of the first column of greatest height |
| CallGraphLayout.ThreeLabels | src/plugins/monitoring/janaview/JEventProcessor_janaview.cc:308-359 | A drawing of three labels: the size of its canvas and the corners of its boxes in pixels |
| TimeStamp.FullTimeRoundTripExactlyWhen | src/external/TRIDAS/f_dataformat_bdx.hpp:130-266 | Over all integers: setting a full time succeeds with fields that read back as that time exactly when the time is not before 2000 and its seconds are below 2^31 |
| TimeStamp.ClockWraps | src/external/TRIDAS/f_dataformat_bdx.hpp:237-256 | At 2^31 seconds the year assertion fails; at 2^32 seconds the time zero is written silently |
| TimeStamp.JustBefore2000 | src/external/TRIDAS/f_dataformat_bdx.hpp:210-256 | A time less than 125 microseconds before 2000 passes all assertions, since the divisions round towards zero, and leaves a tick count near 2^16 at the start of 2000 |
| TimeStamp.FullTimeRoundTrip | src/external/TRIDAS/f_dataformat_bdx.hpp:188-266 | In that range the setter writes a well-formed header whose fields fit their bit widths and whose full time is the time |
| TimeStamp.SetAfterGetRestores | src/external/TRIDAS/f_dataformat_bdx.hpp:170-266 | Reading the time of a well-formed header in the clock's range and writing it back restores the header |
| TimeStamp.HeaderRef.SetFullTime | src/external/TRIDAS/f_dataformat_bdx.hpp:237-266 | The setter on the header object, through years, days and time of day, with its failing assertions |
| TimeStamp.HeaderRef.SetYearTime | src/external/TRIDAS/f_dataformat_bdx.hpp:225-233 | Splits a time of the year into the day field and the time-of-day fields, in place |
| TimeStamp.HeaderRef.SetDayTime | src/external/TRIDAS/f_dataformat_bdx.hpp:210-221 | Splits a time of day into seconds, 125 microsecond frames and 4 ns ticks, each cut to its bit field |
| TimeStamp.YearFormulaIsCalendar | src/external/TRIDAS/f_dataformat_bdx.hpp:170-183 | 365 days a year plus the leap-day formula equal the Gregorian day count from 2000 to 2100 |
| TimeStamp.YearFormulaFailsAfter2100 | src/external/TRIDAS/f_dataformat_bdx.hpp:170-183 | For 2101 the formula is one day off |
| TimeStamp.BcdDaysDecode | src/external/TRIDAS/f_dataformat_bdx.hpp:140-196 | Every day number the setter accepts is written as three decimal digits in ten bits and reads back |
| TimeStamp.BcdYearsDecode | src/external/TRIDAS/f_dataformat_bdx.hpp:130-208 | Every year number the setter accepts is written as two decimal digits in eight bits and reads back |
| TimeStamp.FullTimeIsCalendarTime | src/external/TRIDAS/f_dataformat_bdx.hpp:170-183 | The full time of a well-formed header is its Gregorian day number and its time of day; the 32-bit products do not wrap |
| TimeStamp.RawOrderIsTimeOrder | src/external/TRIDAS/f_dataformat_bdx.hpp:130-183 | Comparing well-formed headers field by field is comparing their full times |
| TimeStamp.PackedOrderIsTimeOrder | src/external/TRIDAS/s_dataformat_bdx.hpp:33-38 | The two time words, compared as one 64-bit number, order like the times |
| TimeStamp.EqualTimesEqualFields | src/external/TRIDAS/f_dataformat_bdx.hpp:130-183 | Well-formed headers of equal time have equal time fields |
| TimeStamp.TimesliceIdIsFloor | src/external/TRIDAS/f_dataformat_bdx.hpp:268-276 | Dividing to milliseconds and then by the slice length is one floor division of the 4 ns count |
| TimeStamp.TimesliceIdMonotone | src/external/TRIDAS/f_dataformat_bdx.hpp:268-276 | Slice ids never fall as the raw fields grow |
| TimeStamp.TimesliceIdInSeconds | src/external/TRIDAS/f_dataformat_bdx.hpp:268-276 | One-millisecond slices are numbered a thousand to the second of 250 million ticks, one-second slices one |
| Calendar.YearOfIsUnique | src/external/TRIDAS/f_dataformat_bdx.hpp:246-254 | The year taken from a date is the one year that contains the day |
| PtFormat.FrameRoundTrip | src/external/TRIDAS/s_dataformat_bdx.hpp:25-65 | Every data frame header whose fields fit survives its 16 bytes |
| PtFormat.EventRoundTrip | src/external/TRIDAS/s_dataformat_bdx.hpp:135-146 | The same for the 112 bytes of an event header |
| PtFormat.SliceRoundTrip | src/external/TRIDAS/s_dataformat_bdx.hpp:129-133 | The same for the 16 bytes of a time slice header |
| PtFormat.FileRoundTrip | src/external/TRIDAS/s_dataformat_bdx.hpp:118-127 | The same for the 32 bytes of the file header |
| BitFields.EncodeDecode | src/external/TRIDAS/s_dataformat_bdx.hpp:25-65 | Bytes of a record determine it: every byte string of the right size is the encoding of exactly the record read from it |
| PtLayout.FrameOrigin | src/external/TRIDAS/s_dataformat_bdx.hpp:27-31 | For any bytes: the four identification fields of a frame as quotients and remainders of the little-endian number in bytes 0 to 3 |
| PtLayout.FrameTime | src/external/TRIDAS/s_dataformat_bdx.hpp:33-38 | For any bytes: the time fields by the number in bytes 4 to 11, and day and year by that in bytes 8 to 11 |
| PtLayout.FrameHit | src/external/TRIDAS/s_dataformat_bdx.hpp:40-45 | For any bytes: sample count, flags and charge by the number in bytes 12 to 15 |
| PtLayout.TimeInBytes | src/external/TRIDAS/s_dataformat_bdx.hpp:33-38 | Bytes 4 to 11 of a header as written hold the one number by which times are ordered |
| PtLayout.FrameExample | src/external/TRIDAS/s_dataformat_bdx.hpp:25-65 | Sixteen bytes of day 150 of 2018, the fourteen fields in them and their full time |
| PtLayout.EventFieldsInBytes | src/external/TRIDAS/s_dataformat_bdx.hpp:135-141 | For any bytes: the six fields of an event header are the numbers at bytes 0, 4, 8, 12, 16 (eight bytes) and 24 |
| PtLayout.EventCountersInBytes | src/external/TRIDAS/s_dataformat_bdx.hpp:143-145 | Its 21 counters are the four-byte numbers from byte 28 on |
| PtLayout.SliceFieldsInBytes | src/external/TRIDAS/s_dataformat_bdx.hpp:129-133 | For any bytes: slice id, number of events and size are the numbers at bytes 0 (eight bytes), 8 and 12 |
| PtLayout.FileFieldsInBytes | src/external/TRIDAS/s_dataformat_bdx.hpp:118-127 | For any bytes: the seven fields of the file header are the numbers at bytes 0, 4, 8 (eight bytes), 16, 20, 24 and 28 |
| PtLayout.PayloadIsWords | src/external/TRIDAS/f_dataformat_bdx.hpp:116-120 | The samples of a frame take the fewest whole 32-bit words that hold two bytes for each |
| PtFile.InputStream.ReadHeader | src/external/TRIDAS/ptfile_reader.hpp:12-22 | A header is read whole or the truncation exception is thrown with the stream failed |
| PtFile.InputStream.ReadSampleLoop | src/external/TRIDAS/ptfile_reader.hpp:34-46 | Reads n samples of one or two bytes; past the end of the file they are cut short and the number of bytes really read is returned |
| PtFile.InputStream.NextFrame | src/external/TRIDAS/ptfile_reader.cc:15-29 | One turn of the three parse_event loops: header, compression check, samples, padding, bytes accounted for |
| PtFile.InputStream.ParseEvent | src/external/TRIDAS/ptfile_reader.cc:5-135 | The grouping loop with its current hit and remaining size gives what ParseHits gives, padded to the announced number of hits, or throws the same error |
| PtFile.PtFileReader.Open | src/external/TRIDAS/ptfile_reader.hpp:342-358 | Opening records the position of every time slice and leaves the stream at the start and clear |
| PtFile.PtFileReader.ReadOneEvent | src/external/TRIDAS/ptfile_reader.hpp:164-166 | An event: header, then as many bytes of frames as the header says |
| PtFile.PtFileReader.At | src/external/TRIDAS/ptfile_reader.hpp:396-400 | Random access reads the slice at the recorded position; on a failed stream the seek does nothing and the slice at the old position is read |
| PtProperties.GroupKeepsOrder | src/external/TRIDAS/ptfile_reader.cc:15-30 | Concatenated over the hits, headers and samples are those of the frames in stream order; a hit starts exactly at each unfragmented frame after the first |
| PtProperties.HeadsDetermineHits | src/external/TRIDAS/ptfile_reader.cc:19-23 | Stream order and that rule leave only one grouping |
| PtProperties.ParseHitsGroupsFrames | src/external/TRIDAS/ptfile_reader.cc:5-135 | Filling hits while reading gives the grouping of the frames read, with no more hits than announced |
| PtProperties.ParseHitsSucceeds | src/external/TRIDAS/ptfile_reader.cc:5-135 | It succeeds wherever the frames parse and need no more hits than announced |
| PtProperties.EventBeforeEndSums | src/external/TRIDAS/ptfile_reader.cc:15-34 | An accepted event that is announced to end before the file does (or where it does, unless full-width samples are read) has headers and padded payloads that sum to its size exactly |
| PtTruncated.SumsExactlyWhen | src/external/TRIDAS/ptfile_reader.cc:86-135 | For an event announced anywhere in a file of given length: whatever the bytes, acceptance means an exact sum exactly when no frame fits whose samples the file cuts short and whose padding is what the event is announced to take beyond the file |
| PtTruncated.SumsExactlyWhenBeforeEnd | src/external/TRIDAS/ptfile_reader.cc:86-135 | For events announced to end within the file: exactly when that is before its end, or the size is below that of a header |
| PtTruncated.NoBreakFarBeyondEnd | src/external/TRIDAS/ptfile_reader.cc:86-135 | Announced to end 1, 128 or more than 129 bytes beyond the file, no accepted event misses its sum |
| PtTruncated.SumsExactlyWhenHeadersFit | src/external/TRIDAS/ptfile_reader.cc:5-135 | For given bytes: the accepted event sums exactly when the reader without samples accepts it too |
| PtTruncated.CutEventGetsInventedSample | src/external/TRIDAS/ptfile_reader.cc:86-135 | A concrete file that ends inside the samples: the event is accepted with a zero sample that is not in the file, and its frame is larger than announced |
| PtProperties.SizesSumToEvent | src/external/TRIDAS/ptfile_reader.cc:15-34 | What the result then says: no failure and an exact sum, or a failed stream and a sum above the size |
| PtProperties.CompressedAgrees | src/external/TRIDAS/ptfile_reader.cc:39-135 | Where the compressed overload succeeds, the uncompressed one gives the same frames and position |
| PtProperties.NoSamplesAgrees | src/external/TRIDAS/ptfile_reader.cc:5-135 | Where the uncompressed overload succeeds, the one without samples succeeds exactly when the file did not end inside samples, as for every event announced to end before the file; it gives the same headers and position |
| PtProperties.ReadersAgree | src/external/TRIDAS/ptfile_reader.cc:5-135 | The three overloads on one event give the same hits, samples aside, wherever they succeed |
| PtRoundTrip.EventReadsBack | src/external/TRIDAS/ptfile_reader.cc:5-135 | A printed event reads back as its frames grouped into hits, in each sample type |
| PtRoundTrip.SliceReadsBack | src/external/TRIDAS/ptfile_reader.hpp:264-270 | A printed time slice reads back as itself and ends where the next one begins |
| PtRoundTrip.PositionsArePrefixSums | src/external/TRIDAS/ptfile_reader.hpp:348-354 | Each recorded position is the start plus the sizes of the slices before |
| PtRoundTrip.SlicesIndexed | src/external/TRIDAS/ptfile_reader.hpp:348-354 | The index loop over printed slices records exactly those positions |
| PtRoundTrip.FileReadsBack | src/external/TRIDAS/ptfile_reader.hpp:342-400 | For every printed file and slice number: the index entry is the prefix sum, reading there gives the slice printed, and ends at the next entry |
| PtAccess.ReadInOrder | src/external/TRIDAS/ptfile_reader.hpp:342-400 | A printed file opened with the reader gives the printed slices, taken in any order and as often as wished |
| TridasSource.EventSource.GetEvent | src/libraries/DAQ/JEventSourceTRIDASDAQ.cc:52-95 | The next event of the current slice, else the first of the next slice read from the file, else the end, with the reading errors |
| TridasSource.EventSource.Open | src/libraries/DAQ/JEventSourceTRIDASDAQ.cc:30-38 | The source starts at the first slice of the reader, which it reads twice |
| TridasSource.HandOut | src/libraries/DAQ/JEventSourceTRIDASDAQ.cc:52-95 | Calling until the end hands out the events of all slices of the file once each, in order |
| PtAccess.HandOutPrinted | src/libraries/DAQ/JEventSourceTRIDASDAQ.cc:20-95 | A printed file, opened and walked by the source, gives each printed event once, in order, and then the end |
| TridasSource.EarliestTime | src/libraries/DAQ/JEventSourceTRIDASDAQ.cc:158-166 | The minimum over the hits, and reached by one of them |
| TridasSource.PadWaveform | src/libraries/DAQ/JEventSourceTRIDASDAQ.cc:190-197 | The samples stand behind as many copies of the first as there are ticks of delay |
| TridasSource.AlignWaveforms | src/libraries/DAQ/JEventSourceTRIDASDAQ.cc:158-200 | In every waveform the sample taken at absolute time t stands at index t - minTime; no padding is negative and some waveform has none |
| EvioProperties.ParseReadsTree | src/external/evioReader/EvioBankIndex.cc:70-209 | On the words of any well-formed tree the parser visits exactly its leaves, left to right, each with the count that its header lets a reader work out |
| EvioProperties.ParseIsTrueExactlyWhen | src/external/evioReader/EvioBankIndex.cc:70-209 | It reports every leaf with the number of its bytes, 16-, 32- or 64-bit numbers exactly when no leaf under a tagsegment header is padded; in either case the data it points to are the words these fill |
| EvioProperties.TagSegmentByteIsReadAsFour | src/external/evioReader/EvioBankIndex.cc:70-209 | The words of a bank holding a one-byte tagsegment: parsing them reports four bytes |
| EvioTrees.LeavesAreTrueExactlyWhen | src/external/evioReader/EvioBankIndex.cc:70-209 | The counts a reader can work out are those of the tree exactly when no leaf under a tagsegment header is padded |
| EvioProperties.LeafDataLie | src/external/evioReader/EvioBankIndex.cc:30-39 | The position handed over for each leaf is where the words of its elements lie |
| EvioProperties.ParseReadsChildren | src/external/evioReader/EvioBankIndex.cc:70-209 | The loop over a container advances by whole children and ends exactly at the end of its contents |
| EvioProperties.StepIsLength | src/external/evioReader/EvioBankIndex.cc:70-209 | Each advance equals the child's own total length |
| EvioProperties.HeaderReadsBack | src/external/evioReader/EvioBankIndex.cc:70-209 | Bank, segment and tagsegment headers give back length, tag, type, number and padding |
| EvioProperties.CountReadsBack | src/external/evioReader/EvioBankIndex.cc:70-209 | For each content type of an element size: the count handed to the leaf handler is the number of elements, in a tagsegment with the padding |
| EvioProperties.ElementInMemory | src/external/evioReader/EvioBankIndex.cc:142-172 | Element i of a leaf lies at position i counted in elements of its size, lowest bytes first |
| EvioProperties.KindsAre | src/external/evioReader/EvioBankIndex.cc:97-133 | The six container types and the header format each gives its children; no other type has one |
| EvioProperties.OtherTypesAreRefused | src/external/evioReader/EvioBankIndex.cc:128-209 | Bank types that are no container types are refused, and so are the content types above 0x10 apart from 0x20 |
| EvioProperties.NothingInside | src/external/evioReader/EvioBankIndex.cc:99-199 | A bank container whose length word is below 2 or at least 2^31 - 1 has no children |
| EvioProperties.LengthExamples | src/external/evioReader/EvioBankIndex.cc:97-172 | Four 16-bit integers in literal words are counted as four; a bank that is shorter than its header gets -1 words, and half of that is zero |
| EvioProperties.FilledHoldsLast | src/external/evioReader/EvioBankIndex.cc:30-39 | The index holds the last leaf of each tag and number, and nothing else |
| EvioProperties.KeyIsInjective | src/external/evioReader/EvioBankIndex.h:25-66 | The key holds the tag above the number, so different pairs have different keys |
| EvioIndex.EvioBankIndex.ParseBank | src/external/evioReader/EvioBankIndex.cc:70-209 | The recursive method accepts exactly what Parse accepts and adds exactly its leaves to the index, in order |
| EvioIndex.EvioBankIndex.GetBank | src/external/evioReader/EvioBankIndex.cc:49-58 | Returns the last leaf of the tag's low 16 bits and the number, or nothing |
| EvioIndex.IndexTree | src/external/evioReader/EvioBankIndex.cc:23-58 | Indexing the words of any well-formed tree and asking for a bank gives the last such leaf the reader sees, which has the real number of elements when no leaf under a tagsegment header is padded, and points to the words of its elements |
| CompositeProperties.BlocksInOrder | src/external/evioReader/EvioCompositeDecoder.cc:54-106 | For all byte contents the emitted sample regions are disjoint, in increasing order and inside the buffer, whatever is skipped or given up |
| CompositeProperties.BlocksAgree | src/external/evioReader/EvioCompositeDecoder.cc:54-106 | The output does not depend on bytes past the end, though the decoder may read some |
| CompositeProperties.BlocksReadBack | src/external/evioReader/EvioCompositeDecoder.cc:54-106 | Decoding inverts the encoder on every list of blocks with slot 1 to 21 and 1 to 16 channels, zero-filled to the end of the buffer |
| CompositeProperties.SwapIsInvolution | src/external/evioReader/EvioCompositeDecoder.cc:58-61 | Exchanging the 24-bit halves of a 48-bit time twice gives it back |
| CompositeProperties.SwapIs | src/external/evioReader/EvioCompositeDecoder.cc:58-61 | The two 24-bit halves change places and the bits above them are dropped |
| CompositeProperties.OthersAreSkipped | src/external/evioReader/EvioCompositeDecoder.cc:67-69 | A header without a slot from 1 to 21 or a number of channels from 1 to 16 is passed over by its seventeen bytes |
| CompositeProperties.ZerosAreSkipped | src/external/evioReader/EvioCompositeDecoder.cc:67-69 | Zero fill after the last block emits nothing |
| CompositeDecoder.EvioCompositeDecoder.Decode | src/external/evioReader/EvioCompositeDecoder.cc:40-106 | The nested loops end on every buffer and emit exactly the entries of Blocks, whose regions are in order |
| CompositeDecoder.EvioCompositeDecoder.DecodeChannels | src/external/evioReader/EvioCompositeDecoder.cc:77-103 | The channel loop with its early `break` appends exactly the channels that fit and stops where Channels says |
| CompositeDecoder.EvioCompositeDecoder.DecodePulse | src/external/evioReader/EvioCompositeDecoder.cc:108-183 | The pulse form of the loops emits exactly the entries of PulseBlocks, in increasing order and without overlap, each past the 32-bit check |
| PulseProperties.RegionsInsideExactlyWhen | src/external/evioReader/EvioCompositeDecoder.cc:127-181 | All emitted pulses lie inside the buffer exactly when every channel header on the way that passes the 32-bit check announces pulses that end in the buffer |
| PulseProperties.HugeCountIsEmitted | src/external/evioReader/EvioCompositeDecoder.cc:127-181 | A concrete buffer of 28 bytes: its channel announces 0x1999999a pulses, passes the check and is read 2^32 bytes too far |
| PulseRoundTrip.PulseBlocksReadBack | src/external/evioReader/EvioCompositeDecoder.cc:108-183 | Decoding inverts an encoder of pulse blocks, zero-filled to the end of the buffer; the upper half of the time is dropped |
| PulseRoundTrip.PulseReadsBack | src/external/evioReader/EvioCompositeDecoder.cc:160-171 | Ten bytes hold the four fields of a pulse, each at its place and width, the charge signed |
| CalibTable.FirstRowWins | src/libraries/system/CalibrationHandler.h:98-124 | The map has exactly the indices of the rows, each with the data of its first row |
| CalibTable.FilledAnswers | src/libraries/system/CalibrationHandler.h:87-164 | A handler filled with a table answers an index it does not remember with the data of the first row whose index columns are the index when cut towards zero, and with nothing exactly when no row is or the table is irregular |
| CalibTable.WholeColumnsMatch | src/libraries/system/CalibrationHandler.h:112-114 | Over index columns of whole numbers a row answers exactly the index of these numbers, in their order |
| CalibTable.TwoFields | src/libraries/system/CalibrationHandler.h:98-164 | A table with two index columns and its answers to three indices |
| CalibTable.CacheKeepsFirstHit | src/libraries/system/CalibrationHandler.h:87-164 | Over any history of refills and lookups an index answers with its first successful lookup, and before that with plain lookup in the map of the last refill |
| CalibTable.CachedStays | src/libraries/system/CalibrationHandler.h:87-164 | A remembered value survives every later refill |
| CalibTable.BetweenRefillsCacheIsInvisible | src/libraries/system/CalibrationHandler.h:132-164 | Between refills every answer equals plain lookup in the map |
| CalibTable.StaleAfterRefill | src/libraries/system/CalibrationHandler.h:87-96 | After refilling with other data a looked-up index still gives the old value, because only the map is cleared |
| CalibClasses.CalibrationHandler.FillCalib | src/libraries/system/CalibrationHandler.h:87-126 | Succeeds exactly when all rows have one common length above nIDs; then builds the map, otherwise leaves none; keeps raw data and cache |
| CalibClasses.CalibrationHandler.GetCalib | src/libraries/system/CalibrationHandler.h:132-164 | Cache first, then map; remembers a hit and changes nothing else |
| CalibClasses.CalibrationHandler.GetCalibSingle | src/libraries/system/CalibrationHandler.h:166-178 | The single value of an index, or zero when there is not exactly one |
| CalibProtocol.StepKeepsInv | src/libraries/system/BDXEventProcessor.cc:250-340 | Every call, lookups included, keeps: registered handlers are filed under their table, loaded ones hold the last data read for it and the map built from them, reads are at most one since the last clear |
| CalibProtocol.EveryInterleavingAgrees | src/libraries/system/BDXEventProcessor.cc:250-340 | After any interleaving from the start two loaded handlers of a table hold equal raw data, each with the map built from them |
| CalibProtocol.OneReadBetweenClears | src/libraries/system/BDXEventProcessor.cc:250-340 | In any interleaving, between two clears of a table the database is asked for it at most once |
| CalibProtocol.LoadedAnswerAlikeExactlyWhen | src/libraries/system/CalibrationHandler.h:87-164 | After any interleaving with lookups, two loaded handlers of one table answer an index alike exactly when their own first successful lookups of it, or else their shared map, give the same |
| CalibProtocol.LoadedAgreeUntilCleared | src/libraries/system/BDXEventProcessor.cc:250-340 | However calls and lookups interleave, until a table is cleared its handlers answer by plain lookup in their maps, and loaded ones answer alike |
| CalibProtocol.DisagreeingRunDisagrees | src/libraries/system/BDXEventProcessor.cc:250-340 | A concrete run from the start after which two loaded handlers of one table hold the same map and answer 1.0 and 2.0 |
| CalibProtocol.ReloadedHandlersDisagree | src/libraries/system/CalibrationHandler.h:87-164 | From any state with two loaded handlers: one looks an index up, the table is cleared and loaded with other data, and they give different answers |
| CalibProtocol.UpdateLoadsAll | src/libraries/system/BDXEventProcessor.cc:276-308 | After an update all registered handlers of the table are loaded, with the data in use before or, if none was loaded, the data just read |
| CalibClasses.BDXEventProcessor.UpdateCalibration | src/libraries/system/BDXEventProcessor.cc:250-312 | The method on the heap objects is the protocol's update step |
| CalibClasses.BDXEventProcessor.ClearCalibration | src/libraries/system/BDXEventProcessor.cc:314-336 | The method is the protocol's clear step |
| CalibClasses.BDXEventProcessor.AddCalibration | src/libraries/system/BDXEventProcessor.cc:338-340 | The method is the protocol's register step |
| Crossings.FindsRunsExactlyWhen | src/libraries/IntVeto/IntVetofa250Converter.cc:108-131 | The recorded crossings are exactly the maximal runs above threshold, ordered and disjoint, exactly when no sample above the threshold stands next to one equal to it |
| Crossings.NoTouchFindsRuns | src/libraries/IntVeto/IntVetofa250Converter.cc:108-131 | The direction from the condition, which covers every waveform without a sample at the threshold |
| Crossings.TouchingPulsesMerge | src/libraries/IntVeto/IntVetofa250Converter.cc:113-131 | A concrete waveform: two pulses that meet in a sample at the threshold are recorded as one |
| Crossings.TouchedEndIsMissed | src/libraries/IntVeto/IntVetofa250Converter.cc:117-124 | The run that ends at a sample equal to the threshold is a maximal run and is not recorded |
| Crossings.TouchedStartIsMissed | src/libraries/IntVeto/IntVetofa250Converter.cc:115-115 | The run that begins after a sample equal to the threshold is a maximal run and is not recorded |
| Crossings.TimeOverThresholdIsPositive | src/libraries/IntVeto/IntVetofa250Converter.cc:133-147 | For every non-empty waveform each recorded time over threshold is positive, so the branch that reports a negative one is dead |
| Crossings.FindCrossings | src/libraries/IntVeto/IntVetofa250Converter.cc:108-131 | The loop records exactly what Find says |
| Crossings.GetMaximum | src/libraries/DAQ/fa250Converter.h:56-66 | The highest sample of a range, the earliest of equals |
| Crossings.ChoosePulse | src/libraries/IntVeto/IntVetofa250Converter.cc:140-175 | Of the crossings that are long enough or touch an end, one with the highest peak is chosen; none is chosen only when none rises above the start value |
| IniRoundTrip.DocumentReadsBack | src/external/RootSpy/src/RSArchiver/ini.c:61-165 | Printing any document of sections with single- and multi-line values and parsing it calls the handler once per line of value, in order, with no error |
| IniLines.LinesReadBack | src/external/RootSpy/src/RSArchiver/ini.c:61-165 | A file of well-formed lines of any kind (sections, pairs with = or : and a remark, continuations, comments, blank and broken lines) calls the handler as the lines say, in order; names and sections are kept up to 49 characters, and a byte order mark changes nothing |
| IniLines.ErrorIsFirstBroken | src/external/RootSpy/src/RSArchiver/ini.c:126-151 | The error of such a file is the number of its first broken line, or zero |
| IniLines.LongLineIsCut | src/external/RootSpy/src/RSArchiver/ini.c:90-91 | A line of more than 199 characters is taken in pieces of 199 |
| IniLines.PairReadsBackExactlyWhen | src/external/RootSpy/src/RSArchiver/ini.c:128-143 | A pair of sign, blanks, value and remark gives its name and value exactly when no remark stands behind an empty value |
| IniLines.RemarkBecomesValue | src/external/RootSpy/src/RSArchiver/ini.c:128-143 | A remark directly behind the sign and a space is taken for the value |
| IniReader.SameKeyExactlyWhen | src/external/RootSpy/src/RSArchiver/INIReader.cc:61-68 | Two sections and names share a key exactly when, with a dot between them, they are equal up to the case of ASCII letters |
| IniReader.ReadPrinted | src/external/RootSpy/src/RSArchiver/INIReader.cc:23-80 | Reading a printed document and asking for a section and name up to case gives its values joined by newlines, or the default |
| IniReader.StoredJoinsValues | src/external/RootSpy/src/RSArchiver/INIReader.cc:70-80 | After any handler calls a key holds its values joined by newlines, empty ones at the front left out; other keys are absent |
| IniReader.IniParser.Line | src/external/RootSpy/src/RSArchiver/ini.c:92-152 | One line: byte order mark, comment, continuation, section, pair, first error |
| IniReader.IniParser.PairOnLine | src/external/RootSpy/src/RSArchiver/ini.c:128-151 | A pair: '=' before ':', inline comment cut, both sides stripped |
| IniReader.IniParser.File | src/external/RootSpy/src/RSArchiver/ini.c:90-165 | The loop over the lines, long lines in pieces, gives what ParseFile gives |
| IniReader.StripRight | src/external/RootSpy/src/RSArchiver/ini.c:24-30 | Removes trailing whitespace |
| IniReader.SkipLeft | src/external/RootSpy/src/RSArchiver/ini.c:33-38 | Skips leading whitespace |
| IniReader.FindStop | src/external/RootSpy/src/RSArchiver/ini.c:43-51 | Stops at the first wanted character or ';' behind whitespace |
| IniReader.INIReader.ValueHandler | src/external/RootSpy/src/RSArchiver/INIReader.cc:70-80 | One handler call on the map |
| IniReader.INIReader.Get | src/external/RootSpy/src/RSArchiver/INIReader.cc:23-28 | All values handled under the section and name, up to case, joined by newlines, empty ones at the front left out; the default when there are none |
| Trigger.Evnt | src/libraries/BDXmini/triggerDataBDXmini_factory.cc:80-137 | For every word sequence: trigger times per bit, trigger count as both the set bits before the separator and the recorded times, channel flags exactly those that the words behind the separator call for, trigger flags those with a time inside the window |
| Trigger.ChannelsInWords | src/libraries/BDXmini/triggerDataBDXmini_factory.cc:93-118 | With the first separator at a pair: channel k is in the OR exactly when some whole block of four words behind it has bit k in its first two, and in the trigger word exactly when such a block also has its last two, as a signed 64-bit time, in the window |
| Trigger.NoSeparatorNoChannels | src/libraries/BDXmini/triggerDataBDXmini_factory.cc:80-95 | Without two words 0xabcdabcd side by side at an even place no channel is set |
| Trigger.TimeIs | src/libraries/BDXmini/triggerDataBDXmini_factory.cc:104-105 | A block's time is the signed 64-bit number of its last two words, the first one lower |
| Trigger.TimesInWords | src/libraries/BDXmini/triggerDataBDXmini_factory.cc:86-91 | The times of a trigger are the signed second words of the pairs that have its bit |
| Trigger.WordsExample | src/libraries/BDXmini/triggerDataBDXmini_factory.cc:80-118 | Fourteen words and what they give: the times of two triggers and two channels, one of them outside the default window |
| Trigger.MaskHasBitExactlyWhen | src/libraries/BDXmini/triggerDataBDXmini_factory.cc:104-105 | The bits of the sum of one word and another shifted by 32 are the bits of the two words |
| Words.TestBit | src/libraries/BDXmini/triggerDataBDXmini_factory.cc:109-110 | A mask ANDed with one shifted by k is not zero exactly when its bit k is set |
| Words.SameBits | src/libraries/BDXmini/triggerDataBDXmini.cc:96-102 | 64-bit words with the same bits are equal |
| Trigger.LongWordsOf | src/libraries/BDXmini/triggerDataBDXmini.cc:96-110 | The two 64-bit words of an event are the ORs of its masks, and have exactly the bits that the words of the list call for |
| Trigger.LongWord | src/libraries/BDXmini/triggerDataBDXmini.cc:96-102 | The 64-bit word built by shifts and ORs has bit k set exactly when flag k is |
| Trigger.OrHasBitExactlyWhen | src/libraries/BDXmini/triggerDataBDXmini_factory.cc:97-118 | A channel is in the OR exactly when some block has it, and in the trigger word exactly when some block inside the window has it |
| Trigger.NoChannelsExactlyWhen | src/libraries/BDXmini/triggerDataBDXmini_factory.cc:93-95 | No block is read exactly when the separator is missing or fewer than four words follow it |
| Trigger.Pairs | src/libraries/BDXmini/triggerDataBDXmini_factory.cc:80-92 | The first loop counts every set bit once and files its time under its trigger |
| McHits.Evnt | src/libraries/IntVeto/IntVetoDigiHit_factory_MC.cc:51-561 | For every hit list and version: the groups are the volumes that have readouts, and each readout has the sum over its group of the one adc field assigned to it and the first hit's time in that field |
| McHits.TablesAgree | src/libraries/IntVeto/IntVetoDigiHit_factory_MC.cc:75-559 | Creating and accumulating assign the same fields to the same positions, within the eight fields, no field or label twice |
| McHits.TwoHits | src/libraries/IntVeto/IntVetoDigiHit_factory_MC.cc:51-561 | Two hits of channel 5 in the full detector: the labels, charges and times of their four readouts |
| McHits.LabelsAre | src/libraries/IntVeto/IntVetoDigiHit_factory_MC.cc:75-400 | Readouts are numbered from 1, by the component in BDX-MINI and by the readout elsewhere; single ones of BDX-MINI keep their label |
| McHits.ComponentsAre | src/libraries/IntVeto/IntVetoDigiHit_factory_MC.cc:585-708 | The component of each simulation channel in each version |
| McHits.AddHit | src/libraries/IntVeto/IntVetoDigiHit_factory_MC.cc:75-559 | Accumulating adds one field to each readout's two charges and changes nothing else |
| McHits.ChargeIgnoresOrder | src/libraries/IntVeto/IntVetoDigiHit_factory_MC.cc:51-561 | The summed charges do not depend on the order of the hits |
| McHits.GroupsIgnoreOrder | src/libraries/IntVeto/IntVetoDigiHit_factory_MC.cc:51-567 | From two orders of the same hits the loop makes groups for the same volumes, with the same labels and charges in the same places |

## Left out

- Files, sockets, ET, cMsg, the calibration database and the detector framework: a file is a byte sequence, a database read an arbitrary table, an input collection a list.
- ROOT canvases, histograms, trees and everything else that only displays; of the call-graph view the label measuring, the float coordinates, the vertical mid-points and the arrows.
- `src/users/andrea/janaview`: an identical copy of the call-graph code.
- CallGraphLayout.Layout: the boxes are returned as sequences in column order instead of being written into the fields of the node objects.
- CallGraphBuild.MakeNodes: the allocator is a parameter that gives each name an address, so a node that is replaced by another of its name has the same address; the table never shows the replaced one.
- CallGraph.PromoteCallers: graphs with cycles, apart from nodes that are their own callees, are excluded, since `CyclicNeverQuiescent` shows that the loop does not end on them.
- CompositeDecoder.EvioCompositeDecoder.DecodePulse: once a channel's end has wrapped around, the code reads outside its buffer and its int offset overflows; the model goes on with an unbounded offset over arbitrary memory.
- TimeStamp.HeaderRef.SetFullTime: the signed 32-bit width of the date library's seconds is taken from the source's own comment (f_dataformat_bdx.hpp:242-246); the library itself is replaced by a Gregorian day count. A failing assertion is an outcome, not an abort.
- PtFile.InputStream.ParseEvent: sizes and counts from 2^31 on, which the code converts to negative ints, are kept as they are; more hit-starting frames than announced hits, which the code leaves undefined, are a separate error outcome.
- `datacard()` and the arithmetic of the reader's iterators; the source uses them as slice numbers.
- TridasSource.EventSource.GetEvent: moving to a time slice that reads but has no events is excluded; the code takes the first event unasked. After a reading error the source counts as used up, where the code is left with a deleted slice.
- TridasSource.AlignWaveforms: hits without frames or samples are excluded, as their first element is read unasked.
- EvioProperties.ParseReadsTree: elements are numbers by their size, signs and floating point are not told apart; nesting depth, the user argument and the empty container handler are dropped. Reads outside the buffer and the loop that a length word of 0xffffffff would never leave are refused.
- CalibClasses.CalibrationHandler.FillCalib: table values that do not fit an index field, whose conversion C++ leaves undefined, keep their integer part. `DAQCalibrationHandler` is the same table and cache with three index fields; only its single-value lookup differs, which returns an error code.
- CalibClasses.BDXEventProcessor.UpdateCalibration: a handler counts as loaded even when its table was irregular, as in the code, which ignores the return value; messages are dropped.
- Crossings.ChoosePulse: pedestal, charge sums, rise times and single-photoelectron timing of the same converter; empty waveforms, whose first sample the code reads unasked.
- IniReader.IniParser.File: lines are strings instead of one buffer edited in place with terminators; NUL characters and locales other than C.
- CallGraphFactories.NametagsEqualExactlyWhen: factories with a colon in name or tag are drawn by their nametags only, which may be shared (`ColonNamesCollide`).
- IniLines.LinesReadBack: lines of at most 199 characters that end in a newline; trailing blanks count as part of no value.
- IniRoundTrip.DocumentReadsBack: names, values and lines within the parser's length limits and without characters that form comments, as the format demands.
- `GetInteger`, `GetReal` and `GetBoolean` of the INI reader: thin conversions of a value.
- The set, unset and test methods of the trigger data, whose bound check lets index 64 pass.
- CalibProtocol.LoadedAnswerAlikeExactlyWhen: a lookup is one atomic step, although the code takes no lock for it.
- McHits.Evnt: hits are numbered lists instead of linked objects; the time is that of the first hit, in picoseconds; the output order by map key is not modelled.
- Event builders, EVIO event sources, monitoring plugins, users' processors and scripts: copying and bookkeeping.
