# A verified model of the fault-injection test bench

The repository estimates the design diversity of two circuits on a Cyclone V board. A host program
prints bit strings into a 23-bit port, the FPGA scans a 16-bit fault configuration into a shift
register and runs both circuits, the host logs two result bits per test, and a script reduces the log
to one number, the D-metric. It also ships the tool-chain headers it builds with; three of them carry
algorithms. This project models those parts in Dafny and proves what they do on all inputs.

`dafny verify dfyconfig.toml` checks everything.

| file | models |
|---|---|
| `Bits.dfy`, `Codec.dfy` | powers of two, bits and strings; the three number/string conversions of the host, in its machine arithmetic |
| `InputFiles.dfy` | the configuration and stimulus files the host writes, with the global buffer that is never wiped |
| `Driver.dfy`, `Protocol.dfy` | the staged test loop, its device trace and log text; the fields of the port words |
| `ScanHardware.dfy`, `ScanProtocol.dfy` | control unit and shift register clocked together; the clear/scan/hold/apply protocol over whole campaigns |
| `FaultCircuit.dfy` | fault multiplexers, tri-state buffers and the two designs over four-valued logic |
| `EndToEnd.dfy` | host strings, port words, scan chain, circuit and result characters put together |
| `ClosedLoop.dfy` | the whole loop: random numbers, files, the campaign's own tests on the hardware, log, script, number |
| `TextFiles.dfy`, `PythonText.dfy` | C strings, numerals, lines; substring test, `split`, `rstrip` |
| `ResultFile.dfy`, `DMetric.dfy` | the script: parsing, grouping, and the metric |
| `Printout.dfy`, `Labels.dfy`, `Grouping.dfy` | what the host prints, line by line, which labels the script finds in it and what it puts under them |
| `Agreement.dfy`, `Scoring.dfy` | what the script makes of a log of any number of campaigns, and of one |
| `Misread.dfy` | two concrete campaigns that the script misreads |
| `SectionList.dfy` | the BFD section list on the heap and the test that reads stale links |
| `AlignPower.dfy` | `align_power` in wrapping 64-bit arithmetic |
| `TextStream.dfy` | the buffered character macros with CR/LF translation |
| `Registers.dfy` | masked read-modify-write and the packed GPIO configuration fields |

## What turned out not to hold

- **The configuration in the circuit need not be the one requested.** The first word of every test is
  0x7FFFFF, with the scan bit already high; the comment at `Software/main.c:531` documents 0x7FFFFD. The
  serializer therefore free-runs while the shift register is being cleared. `ConfigLoadedInCampaign` gives
  the exact condition for every test after the first: with flip-flop timing, stage 1 must last one clock edge
  more than a multiple of 32 and the configuration must start with '1'. In the other 31 phases an unknown bit
  stays in the register (`LoadedExactly`). `DocumentedProtocolLoads` shows that the documented word works from
  every state, for all clock counts that let the register fill (at least 1, 17 and 1 in the first three stages).
  `WrongConfigurationExample` is a concrete case where it fails.
- **With flip-flop timing the first bit of a configuration is lost** even in phase: what is loaded is the
  configuration with its first character read as '1' (`ConfigLoadedExactly`, `AnswerIsExpected`). Signal D of
  the second design is therefore never faulted, and a stimulus with D low never detects anything
  (`LastSitePasses`, `LowDNeverDetected`). `FaultMetric` and `NumbersToMetric` count the faults that really are
  injected, as coded and as documented.
- **The script mislabels campaigns of more than eleven configurations.** Its substring test finds the label
  of configuration 0 in the header of configuration 10 as well. `FoundExactly` gives the number of labels found
  in a header: the ends of its numeral that are numerals themselves. `LabelsExactly`: the labels name
  different configurations in order exactly when there are at most eleven. `GroupingExactly`, `MappingShape` and
  `ScoredExactly` say which results end up where, and which rows are never scored, for any number of
  configurations in the campaign and any number set in the script. In `TwelveMisread` the only configuration
  that is detected is never scored and the script stops without a number.
- **Repeated configurations share their results.** The script finds a result line by its configuration, and the
  configurations are random: in `Python Script/data_result.txt` those of headers 27 and 328 are equal (lines 975
  and 11811). `OwnResultsExactly`: a list holds its own row's results alone exactly when no other row has the same
  configuration; `OwnListsExactly` gives the condition for all lists together. `ShortExactly`: the index error
  for too few stimuli depends on how often a list's configuration occurs. `TwinsMisread` is a campaign of three
  rows, two of them equal, whose only detection is lost.
- **A second campaign is not read.** The result file is only appended to. `FirstCampaignOnly`: once the first
  campaign in the log provides enough labels and stimuli, the script's number is that of the first one, whatever
  was logged after it. `LogMetric` states the number for any log.
- **The script's number is not the mean it is meant to be.** It uses one row of the matrix, and only that
  row's first entry. `DistanceFromMean` states the exact difference, `MeanExactly` when it is zero,
  `MeanMissed` concrete result lists for which it is not.
- **`dec_2_int` is positional only up to weight 2^30**, because of `abs` on an `int`. `ParsedIsValueExactly`
  gives the exact condition for all strings; `ValueMissed` is a string that is read wrongly.
- **`align_power` is not monotone.** `Monotone` gives the exact condition: order is lost when the sum wraps for
  the larger address but not for the smaller, unless that is 0.
- **Configuration lines can carry the tail of the last stimulus** when there are more inputs than control
  bits (`StaleTail`).
- **A second campaign runs the first one's lines.** The files are opened for appending and never emptied:
  `ConfigsFromFile` and `InputsFromFile` say what line m is, whatever the files held before.

## Model

| member | source | states |
|---|---|---|
| SectionList.RemovedExactly | Software/bfd.h:1743-1744 | in every sound pointer state, stale links included, the constant-time test is true of a section exactly when it is not in the list |
| SectionList.RunsExact | Software/bfd.h:1659-1744 | over every run of inserts and removes, with re-insertions, the state stays sound and the test stays exact for every section |
| SectionList.InsertThenRemove | Software/bfd.h:1659-1742 | any of the four inserts followed by a removal restores both ends and every other section's links |
| SectionList.RemoveThenInsert | Software/bfd.h:1659-1727 | removing a section and inserting it after its old predecessor restores the whole pointer state |
| SectionList.SameOperation | Software/bfd.h:1675-1742 | all pointers are the same after append and insert-after-last, after prepend and insert-before-first, and after insert-before and insert-after the predecessor or prepend |
| SectionList.Bfd.Append | Software/bfd.h:1675-1693 | on the heap: exactly the pointers that put the section behind the last one change |
| SectionList.Bfd.Prepend | Software/bfd.h:1694-1712 | on the heap: exactly the pointers that put the section before the first one change |
| SectionList.Bfd.InsertAfter | Software/bfd.h:1713-1727 | on the heap: exactly the pointers that put the section between a and its successor change |
| SectionList.Bfd.InsertBefore | Software/bfd.h:1728-1742 | on the heap: exactly the pointers that put the section between b and its predecessor change |
| SectionList.Bfd.Remove | Software/bfd.h:1659-1674 | on the heap: exactly the pointers that join the two neighbours change |
| SectionList.Bfd.Perform | Software/bfd.h:1659-1742 | every macro, used legally, refines its operation on the sequence of sections and keeps the invariant |
| SectionList.Bfd.Run | Software/bfd.h:1659-1744 | any run on the heap ends in the one pointer state the run means, with the test right about every section |
| SectionList.Bfd.RemovedFromList | Software/bfd.h:1743-1744 | the macro's expression decides membership |
| SectionList.Bfd.Admit | Software/bfd.h:1746-1749 | a section that was never inserted may join once its `next` is NULL, as initialised sections have it |
| AlignPower.LeastMultiple | Software/bfd.h:281-282 | the result is a multiple of 2^a; it is the least one not below the address exactly when the sum does not wrap, else 0 |
| AlignPower.ClearLowBits | Software/bfd.h:282 | the mask keeps exactly the bits from a on |
| AlignPower.Idempotent | Software/bfd.h:281-282 | aligning twice is aligning once |
| AlignPower.Monotone | Software/bfd.h:281-282 | order is preserved exactly unless the sum wraps for the larger address only and the smaller one is not 0 |
| AlignPower.Nested | Software/bfd.h:281-282 | aligning to 2^a and then to a coarser 2^b is aligning to 2^b |
| TextStream.DecodeEncode | Software/stdio.h:604-646 | text-mode round trip for every byte string |
| TextStream.EncodeDecode | Software/stdio.h:604-646 | a file survives reading and rewriting exactly when every LF in it follows a CR |
| TextStream.Writer.PutRaw | Software/stdio.h:634-641 | flushed plus pending bytes grow by the one put; the slow path is taken exactly when the buffer is full or a line-buffered newline arrives |
| TextStream.Writer.PutAll | Software/stdio.h:642-646 | after any puts, flushed plus pending bytes are the translation of all of them, in both buffering disciplines |
| TextStream.Reader.GetRaw | Software/stdio.h:589 | the next unread byte or EOF, across refills of any size |
| TextStream.Reader.Get | Software/stdio.h:604-616 | result and remainder depend on the unread bytes only, with a refill between CR and LF or EOF after a CR |
| TextStream.Reader.GetAll | Software/stdio.h:604-616 | reading to the end returns the decoding of the file |
| TextStream.CopyThrough | Software/stdio.h:589-646 | bytes written through any writer and read through any reader come back unchanged |
| Codec.Dec2Int | Software/main.c:63-90 | weights up to 2^30 count in full, weight 2^31 is sign-extended, higher ones are lost |
| Codec.ParsedIsValueExactly | Software/main.c:63-90 | the result is the positional value exactly when no '1' has weight 2^31 or more, or the string is a 64-bit sign extension |
| Codec.ValueMissed | Software/main.c:63-90 | a concrete string that is read wrongly |
| Codec.DecimalToBinary | Software/main.c:161-186 | a fresh terminated buffer with the 32 two's complement digits of any int |
| Codec.ParseInvertsPrint | Software/main.c:63-186 | parsing the printed digits returns every 32-bit int, modulo 2^64 |
| Codec.ParseInvertsLsbFirst | Software/main.c:63-220 | the reversed first L characters of a converted number parse to it modulo 2^L |
| TextFiles.NumeralBack | Software/main.c:117-123 | the printed numeral of a number denotes that number |
| TextFiles.LinesAreAll | Software/main.c:125-159 | reading a file line by line loses nothing, and every line but the last is terminated |
| InputFiles.Host.Dec2BinInputFiles | Software/main.c:204-220 | bit i becomes character i, and the buffer keeps what it held from L on |
| InputFiles.Host.InFile | Software/main.c:222-270 | both files gain exactly the golden line and one line per number, stale tails included |
| InputFiles.NoStaleTail | Software/main.c:53-54 | with no more inputs than control bits the lines are the numbers alone |
| Driver.Tester.ReadLine | Software/main.c:125-159 | the requested line, the last one of a shorter file, or the old buffer for an empty file |
| Driver.Tester.RunTest | Software/main.c:295-464 | one pass emits the block of its configuration and stimulus and appends its result text |
| Driver.Tester.RunTests | Software/main.c:286-507 | the nested loop's whole device trace, and the text it adds to whatever the result file holds |
| Protocol.TraceCounts | Software/main.c:286-412 | exactly 4MJ writes and MJ reads |
| Protocol.TraceBlock | Software/main.c:286-412 | block mJ + j of the trace depends on configuration m and stimulus j alone |
| Protocol.StageFields | Software/main.c:298-394 | the writes of a test are four words, with their fields: which of clear, scan and tri-state are high, the data, and the stimulus in the fourth alone |
| Protocol.PortFields | Software/main.c:511-526 | no conversion loses bits: every field of the word is the field of the string |
| Protocol.FirstWord | Software/main.c:298-310 | the first word is 0x7FFFFF |
| Protocol.WordIsValue | Software/main.c:63-90 | any string of 32 characters is written as its value, although `dec_2_int` sign-extends it |
| ScanHardware.ControlUnit.Posedge | Hardware/CTRL_UNIT.v:17-33 | one clock edge of the control unit |
| ScanHardware.ShiftLarge.Posedge | Hardware/shift_large.v:13-32 | one clock edge of the shift register |
| ScanHardware.Clock | Hardware/system_w_scan.v:22-24 | any number of edges of both blocks in either schedule, wired by position |
| ScanHardware.SerializerClosedForm | Hardware/CTRL_UNIT.v:19-26 | after t enabled edges the count is c - t modulo 32 |
| ScanHardware.EveryBitOncePerPeriod | Hardware/CTRL_UNIT.v:19-26 | in 32 consecutive edges every index is visited once, in cyclic descending order |
| ScanHardware.DisabledRewinds | Hardware/CTRL_UNIT.v:27-31 | edges with scan low rewind the count and lower the enable; serial output and scan shift feedback stay |
| ScanHardware.LastBitEnters | Hardware/shift_large.v:15-32 | when scanning stops at most the bit on its way still enters; without a definite enable the register stays |
| ScanHardware.FeedbackSticks | Hardware/CTRL_UNIT.v:22 | the scan shift feedback never falls once raised |
| ScanHardware.ScanFromRest | Hardware/shift_large.v:15-26 | scanning from rest loads exactly the driven data, for every edge count from 16 (control unit first) or 17 (shift register first) on |
| ScanHardware.ScanUnderWay | Hardware/shift_large.v:15-26 | scanning already under way loads known data exactly in one phase: the driven data, but for the bit already on its way; in the 31 others an unknown bit enters |
| ScanProtocol.LoadedExactly | Software/main.c:302-372 | with scan high while clearing, what is loaded in phase, when that is the data, and that an unknown bit stays otherwise |
| ScanProtocol.LoadedAlways | Software/main.c:530-534 | with scan low while clearing, the data is loaded from any state once the register has time to fill from rest |
| ScanProtocol.NoLeaks | Software/main.c:286-507 | every campaign ends at rest, and what a test leaves behind depends on that test alone |
| FaultCircuit.DesignsAgree | Hardware/ma_1.v:18-26 | the two designs compute the same function, unknown and undriven inputs included |
| FaultCircuit.LoadedMeaning | Hardware/system_w_scan.v:25-36 | a loaded configuration is a set of stuck-at faults on eight sites, and the outputs are the function under them |
| FaultCircuit.OneFault | Hardware/system_w_scan.v:25-36 | controls 2q and 2q + 1 stick signal q mod 4 of design q / 4, and affect nothing else |
| FaultCircuit.KnownOutputs | Hardware/mux.v:8-12 | with unknown register bits, an output the model gives does not depend on what the multiplexers held before |
| FaultCircuit.UnknownOutputs | Hardware/mux.v:8-12 | and one it calls unknown does: it is 0 if they held 0 and 1 if they held 1 |
| FaultCircuit.KnownOutputsSound | Hardware/system_w_scan.v:25-36 | a given output is the output under every configuration that agrees with the known bits |
| EndToEnd.ConfigLoadedExactly | Software/main.c:298-372 | from the strings on: in phase, and only then, the register holds the configuration with its first bit as stage 1 drove it; the requested one exactly when that bit agrees |
| EndToEnd.ConfigLoadedInCampaign | Software/main.c:286-507 | the same for every test after the first, by its own clocks and configuration |
| EndToEnd.DocumentedProtocolLoads | Software/main.c:531 | the documented first word would load the requested one from any state, in any phase |
| EndToEnd.WrongConfigurationExample | Software/main.c:298-372 | concrete clock counts that load a wrong configuration |
| EndToEnd.BitOrder | Software/main.c:204-219 | bit k of the random number is the k-th bit the serializer emits from rest |
| EndToEnd.ConfigsFromFile | Software/main.c:188-269 | whatever the configuration file held before: row m runs an old line, then the golden configuration, then the random numbers |
| EndToEnd.InputsFromFile | Software/main.c:188-258 | the same for the stimuli |
| EndToEnd.RowsBeyondEnd | Software/main.c:142-159 | rows past the end of the file run its last configuration again |
| EndToEnd.AnswerIsExpected | Software/main.c:412-420 | in phase, every bit of the word read: the two outputs under the faults of the loaded configuration, the feedback, and that configuration, last character lowest |
| EndToEnd.LastSitePasses | Hardware/system_w_scan.v:25-36 | with flip-flop timing signal D of the second design is never faulted |
| EndToEnd.UndrivenUntilApplied | Software/main.c:298-372 | in the first three stages neither output is driven, whatever the hardware's state |
| EndToEnd.AnswerShowsRegister | Hardware/HPSFPGA.vhd:150-157 | in any state, bit 2 of the word read is the scan shift feedback and bits 3 to 18 are the register, unreversed |
| EndToEnd.KnownPinsSound | Hardware/system_w_scan.v:25-36 | out of phase, too, a known result pin is the function under the faults of every configuration the known bits allow |
| ClosedLoop.TraceOfTest | Software/main.c:286-412 | the device trace of a campaign writes the four words of its own tests, in their order and with all their fields, and then reads |
| ClosedLoop.ReadsExpected | Software/main.c:286-420 | every test of a campaign in step answers the function under the faults it injects, as coded and as documented; only the clocks have to fit |
| ClosedLoop.LoggedResults | Software/main.c:419-448 | the first result character of a logged test is design 1's output under its faults, the second design 2's |
| ClosedLoop.DetectionsMeant | Python Script/d_metric.py:61-62 | with the answers of the hardware that ran the campaign, a joint detection is a stimulus on which the injected faults change both outputs |
| ClosedLoop.LowDNeverDetected | Software/main.c:298-372 | as coded, with flip-flop timing, no stimulus with D low detects anything |
| ClosedLoop.FaultMetric | Python Script/d_metric.py:25-75 | with those answers, for any configurations, the script computes the metric of the stimuli on which the injected faults of its lists' rows change both outputs, or an index error exactly when labels or results are too few |
| ClosedLoop.NumbersToMetric | Software/main.c:222-507 | the same from the random numbers on, for campaigns that the loop can run |
| ResultFile.ReadLabels | Python Script/d_metric.py:25-31 | the label search, with its index error |
| ResultFile.GroupResults | Python Script/d_metric.py:36-48 | the grouping, with its index errors; both designs' lists stay equally long |
| ResultFile.Analyse | Python Script/d_metric.py:25-75 | the whole script on a text |
| PythonText.RStripExactly | Python Script/d_metric.py:30 | `rstrip` removes exactly the white space at the end |
| PythonText.StrippedCharacters | Python Script/d_metric.py:30 | a last character is removed exactly if it is a space or one of the characters 9 to 13 |
| Printout.PrintedLines | Software/main.c:289-293 | the file splits into exactly the lines printed |
| Labels.LabelErrorExactly | Python Script/d_metric.py:26-31 | on any line, an index error exactly when a label that is found is larger than the list is long by then |
| Labels.FoundExactly | Python Script/d_metric.py:26-27 | header m has as many labels as its numeral has ends that are numerals |
| Labels.LabelsExactly | Python Script/d_metric.py:25-31 | the labels are read without error for any number set in the script; set to the campaign's, they are right for at most eleven, and for more than eleven different ones never |
| Grouping.LineErrorExactly | Python Script/d_metric.py:38-48 | on any line, an index error exactly when a label is missing or a configuration is found in fewer than five columns |
| Grouping.LineGain | Python Script/d_metric.py:38-48 | every list gains the third and fifth columns exactly of the lines that contain its configuration |
| Grouping.ResultColumns | Software/main.c:428-466 | the columns of a printed result: test, two labelled results, stimulus, configuration |
| Agreement.LogGroupedExactly | Python Script/d_metric.py:25-48 | in a log of any number of campaigns, list i gets the results of all rows, in all campaigns, with the configuration of label i; an index error exactly for too few labels |
| Agreement.LogMetric | Python Script/d_metric.py:25-75 | the number for such a log, with its exact error condition |
| Agreement.FirstCampaignOnly | Python Script/d_metric.py:25-75 | if the first campaign in a log provides enough labels and stimuli, the number is that of the first campaign alone |
| Scoring.GroupingExactly | Python Script/d_metric.py:36-48 | for any sizes and any repetitions: an index error exactly for too few labels, else list i gets exactly the result characters of every test of every row with the configuration of row Mapping(i), in order |
| Scoring.MappingShape | Python Script/d_metric.py:25-48 | list i is labelled by row i exactly for at most eleven lists, all with a row; from twelve on list 11 is labelled by row 10 |
| Scoring.OwnResultsExactly | Python Script/d_metric.py:36-48 | a list holds its own row's results alone exactly when no other row has the same configuration |
| Scoring.OwnListsExactly | Python Script/d_metric.py:36-48 | every list holds its own row's results alone exactly for at most eleven lists, all with a row that no other row repeats |
| Scoring.ShortExactly | Python Script/d_metric.py:58-61 | a list is as long as its configuration's rows have tests together, which is when the script's constant is too large |
| Scoring.ScoredExactly | Python Script/d_metric.py:25-48 | a row's results are in some list exactly when the numerals before the first row with its configuration have fewer numeral ends than there are lists |
| Scoring.EndToEndMetric | Python Script/d_metric.py:25-75 | for any sizes, repetitions and constants: the metric of the device's own detections in those lists, or an index error exactly when there are too few labels or some list is too short |
| Scoring.FirstRowsRead | Python Script/d_metric.py:58-65 | with no more stimuli asked for than there were, only the first row with each configuration is looked at |
| Scoring.EmptyFile | Python Script/d_metric.py:25-75 | on an empty file the script always ends in an error, and in which |
| Misread.TwelveMisread | Python Script/d_metric.py:25-75 | twelve concrete configurations whose only detected one is never scored |
| Misread.TwinsMisread | Python Script/d_metric.py:36-75 | three concrete configurations, two equal, whose only detection is lost |
| DMetric.Matrix | Python Script/d_metric.py:58-65 | row k is 1, 2, ..., hits(k); an index error exactly when a result is missing |
| DMetric.Reduce | Python Script/d_metric.py:67-75 | the closed form (z + 1 - 2^-n)/(N - 1), or a name error exactly when all rows are empty |
| DMetric.DMetric | Python Script/d_metric.py:58-75 | both steps together |
| DMetric.Bounds | Python Script/d_metric.py:75 | the number lies in [0, 1) |
| DMetric.DistanceFromMean | Python Script/d_metric.py:67-75 | the exact difference from the mean over all configurations |
| DMetric.MeanExactly | Python Script/d_metric.py:67-75 | when the difference is zero |
| DMetric.MeanMissed | Python Script/d_metric.py:58-75 | concrete result lists where it is not |
| DMetric.SwapDesigns | Python Script/d_metric.py:61-62 | exchanging the designs changes nothing |
| DMetric.PermuteInputs | Python Script/d_metric.py:60-65 | nor does any order of the inputs |
| DMetric.PermuteConfigurations | Python Script/d_metric.py:67-75 | nor any order of the non-golden configurations |
| Registers.RecordOfFields | Software/socal.h:225 | under any run of field writes every field reads back its last value cut to its width, and no other bit changes |
| Registers.GetOfSet | Software/alt_gpio.h:1443-1880 | a field's get returns what its set put in place, cut to its width |
| Registers.SetWithinMask | Software/alt_gpio.h:1443-1880 | a field's set puts nothing outside the field |
| Registers.ClearedByMask | Software/alt_gpio.h:1213-1366 | the clear mask of a field makes it read 0 and keeps all other bits |
| Registers.DeviceWord.SetBits | Software/socal.h:206 | the given bits become 1, all others stay |
| Registers.DeviceWord.ClrBits | Software/socal.h:212 | the given bits become 0, all others stay |
| Registers.DeviceWord.XorBits | Software/socal.h:218 | the given bits are inverted, all others stay |
| Registers.DeviceWord.ReplBits | Software/socal.h:225 | the masked bits become those of the source, all others stay |
| Registers.DeviceWord.WriteFields | Software/socal.h:225 | a run of field writes on the device word |

## Left out

- Swbuf: `__swbuf_r` is not in the repository; the model gives it the effect its callers rely on (flush a full buffer, store, flush a line-buffered newline). Failing writes are not modelled.
- Srget: `__srget_r` is not in the repository; the model refills with a chunk of any positive length. Read errors are not modelled.
- Ungetc: `ungetc` is not in the repository; only pushing back the byte just read, or EOF, is modelled.
- Writer: unbuffered streams (one-byte buffers that are never fast) are not modelled; `_lbfsize` is 0 or minus the buffer size.
- Abs: `abs` of the smallest `int` is undefined in C; the model leaves the value as it is, as two's complement hardware does.
- Usable: the loop copies 16 and 4 characters from its lines; what it copies from shorter lines is whatever the buffers held before, and is not modelled. Lines of 255 characters and more, which `fgets` splits, are not modelled either.
- ResultText: `input_data` has no terminator in the source, so its printed tail is not determined; the model prints its four characters.
- Dec2BinInputFiles: widths above 32, where the source shifts past its `int` and fills the terminator of its buffer, are not modelled; `1 << 31` is taken as the sign bit.
- NumbersToMetric: campaigns with fewer than four inputs, where the loop copies the newline of a stimulus, and with more than sixteen, where configuration lines carry a tail and differ in length from the golden one, are not covered.
- Collect: the source writes the same result line in two branches, for the first test of a row and for the others; the model has one.
- Mux: with an unknown select the Verilog multiplexer keeps its old output; the model calls that unknown and does not keep track of it (`KnownOutputs` and `UnknownOutputs` say exactly what that covers).
- Clocks: how many clock edges a stage lasts is an arbitrary number; `usleep` is not modelled.
- Removed: with a section that is in the list of another `bfd` the test's answer is about that list; the model has one list.
- Position: `section_count` and the other fields of a section are not maintained by the list macros and not modelled.
- ClearLow: the mask of `align_power` is modelled by subtracting the remainder; `ClearLowBits` proves that this is what it does bit by bit.
- Metric: decimal rounding is not modelled; numbers are exact reals.
- Device files, `mmap`, console input and output, the log file and `rand` are not modelled; their values are parameters.
- `Hardware/ma_1.vhd` and `ma_2.vhd` are not part of the synthesised project (`Hardware/HPSFPGA.qsf:1148-1156`) and not modelled.
- The remaining vendored headers declare names and constants without algorithms.
