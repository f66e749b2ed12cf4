/** From the host's strings to the device's answer: the four words of a test, each held on the
    port for some number of clock edges, run through the scan hardware and the fault circuit. */
module EndToEnd {
  import opened Bits
  import opened Codec
  import opened Driver
  import opened Protocol
  import opened ScanHardware
  import opened ScanProtocol
  import opened FaultCircuit
  import opened TextFiles
  import InputFiles

  const ONES: string := "1111111111111111"

  datatype Test = Test(config: string, inputs: string, clocks: Clocks) {
    predicate Valid() { |config| == 16 && |inputs| == 4 && clocks.Enough() }
  }

  /** The words a test writes to the port. */
  function WordOf(t: Test, stage: nat): int
    requires |t.config| == 16 && |t.inputs| == 4 && 1 <= stage <= 4
  {
    Writes(t.config, t.inputs)[stage - 1].word
  }

  /** What the clocked part of the design sees of them. */
  function DrivesOf(t: Test): Drives
    requires t.Valid()
  {
    Drives(DriveOf(WordOf(t, 1)), DriveOf(WordOf(t, 2)), DriveOf(WordOf(t, 3)), DriveOf(WordOf(t, 4)))
  }

  /** What those words mean to the hardware. */
  function MeantBy(config: string): Drives
    requires |config| == 16
  {
    Drives(Drive(true, true, BusOf(ONES)), Drive(true, false, BusOf(config)),
           Drive(false, false, BusOf(config)), Drive(false, false, BusOf(config)))
  }

  lemma DrivesMeant(t: Test)
    requires t.Valid()
    ensures DrivesOf(t) == MeantBy(t.config)
  {
    StageFields(1, t.config, t.inputs);
    StageFields(2, t.config, t.inputs);
    StageFields(3, t.config, t.inputs);
    StageFields(4, t.config, t.inputs);
  }

  function StepOf(t: Test): (s: Step)
    requires t.Valid()
    ensures s.Valid()
  {
    DrivesMeant(t);
    Step(DrivesOf(t), t.clocks)
  }

  // ---------------------------------------------------------------- which configuration is loaded

  /** The register holds the configuration of the test's string, character i as bit 15 - i. */
  predicate HoldsConfig(h: Hardware, config: string)
    requires |config| == 16
  {
    h.sipo.tmp == KnownBus(BusOf(config))
  }

  /** The serializer is in phase when stage 2 begins. This depends on how long stage 1 lasted,
      because the scan bit is already high in its word. */
  predicate ClocksInPhase(count: nat, clocks: Clocks, order: Schedule) {
    (count - clocks.n1) % 32 == LoadingPhase(order)
  }

  /** With `ShiftFirst` the bit on its way when stage 2 begins was driven by stage 1, and is a '1'. */
  predicate FirstBitKept(config: string, order: Schedule)
    requires |config| == 16
  {
    order == ControlFirst || config[0] == '1'
  }

  /** The configuration that a test in phase loads. */
  function Effective(config: string, order: Schedule): (r: string)
    requires |config| == 16
    ensures |r| == 16 && (FirstBitKept(config, order) ==> r == config)
  {
    if order == ShiftFirst then config[0 := '1'] else config
  }

  lemma EffectiveBus(config: string, order: Schedule)
    requires |config| == 16
    ensures BusOf(Effective(config, order)) == LoadedData(MeantBy(config), order)
    ensures order == ControlFirst || MeantBy(config).clear.data[15] == MeantBy(config).scan.data[15] <==>
            FirstBitKept(config, order)
  {
    assert BusOf(ONES)[15] && BusOf(config)[15] == (config[0] == '1');
    forall k | 0 <= k < 16
      ensures BusOf(Effective(config, order))[k] == LoadedData(MeantBy(config), order)[k]
    {
    }
  }

  /** The requested configuration reaches the fault circuit exactly when the serializer is in phase
      and the first bit is kept; in phase it is the effective one, out of phase an unknown bit gets
      into the register. Every test leaves the serializer at rest. */
  lemma ConfigLoadedExactly(h: Hardware, t: Test, order: Schedule)
    requires h.Valid() && t.Valid()
    ensures var r, inPhase := AfterTest(h, DrivesOf(t), t.clocks, order), ClocksInPhase(h.ctrl.count, t.clocks, order);
            && (HoldsConfig(r, t.config) <==> inPhase && FirstBitKept(t.config, order))
            && (HoldsConfig(r, Effective(t.config, order)) <==> inPhase)
            && (X in r.sipo.tmp <==> !inPhase)
            && r.Valid() && r.AtRest() && r.ctrl.scanShiftFeedback == L1
  {
    DrivesMeant(t);
    MeantLoadedExactly(h, t.config, t.clocks, order);
  }

  lemma MeantLoadedExactly(h: Hardware, config: string, clocks: Clocks, order: Schedule)
    requires h.Valid() && |config| == 16 && clocks.Enough()
    ensures var r, inPhase := AfterTest(h, MeantBy(config), clocks, order), ClocksInPhase(h.ctrl.count, clocks, order);
            && (HoldsConfig(r, config) <==> inPhase && FirstBitKept(config, order))
            && (HoldsConfig(r, Effective(config, order)) <==> inPhase)
            && (X in r.sipo.tmp <==> !inPhase)
            && r.Valid() && r.AtRest() && r.ctrl.scanShiftFeedback == L1
  {
    EffectiveBus(config, order);
    ScanProtocol.LoadedExactly(h, MeantBy(config), clocks, order);
  }

  /** Being in phase after another test: stage 1 lasts 1 (`ShiftFirst`) or 0 (`ControlFirst`)
      clock edges more than a multiple of 32. */
  predicate InPhaseFromRest(clocks: Clocks, order: Schedule) {
    clocks.n1 % 32 == EdgesToPhase(order)
  }

  /** In a campaign of any length, every test but the first gets its effective configuration exactly
      when it is in phase by its own clocks, and its own when, besides, the first bit is kept. */
  lemma ConfigLoadedInCampaign(h: Hardware, tests: seq<Test>, order: Schedule)
    requires h.Valid() && |tests| > 1 && forall t :: t in tests ==> t.Valid()
    ensures tests[|tests| - 1] in tests
    ensures var r, last := RunAll(h, Steps(tests), order), tests[|tests| - 1];
            && (HoldsConfig(r, Effective(last.config, order)) <==> InPhaseFromRest(last.clocks, order))
            && (HoldsConfig(r, last.config) <==>
                InPhaseFromRest(last.clocks, order) && FirstBitKept(last.config, order))
  {
    var last := tests[|tests| - 1];
    DrivesMeant(last);
    EffectiveBus(last.config, order);
    LoadedInCampaign(h, Steps(tests), order);
    assert Steps(tests)[|tests| - 1] == Step(MeantBy(last.config), last.clocks);
  }

  function Steps(tests: seq<Test>): (r: seq<Step>)
    requires forall t :: t in tests ==> t.Valid()
    ensures forall s :: s in r ==> s.Valid()
  {
    seq(|tests|, i requires 0 <= i < |tests| => StepOf(tests[i]))
  }

  /** A concrete failure: two clock edges in stage 1, all else generous, from rest, load a wrong
      configuration under either schedule. */
  lemma WrongConfigurationExample(h: Hardware, t: Test, order: Schedule)
    requires h == Hardware(Control(15, L0, L1, L0), Sipo(seq(16, _ => L0), 0))
    requires t == Test("1010101010101010", "0000", Clocks(2, 100, 100, 100))
    ensures h.AtRest() && t.Valid() && !HoldsConfig(AfterTest(h, DrivesOf(t), t.clocks, order), t.config)
  {
    NotInPhase(h, t, order);
  }

  lemma NotInPhase(h: Hardware, t: Test, order: Schedule)
    requires h.Valid() && t.Valid() && h.ctrl.count == 15 && t.clocks.n1 == 2
    ensures !HoldsConfig(AfterTest(h, DrivesOf(t), t.clocks, order), t.config)
  {
    ConfigLoadedExactly(h, t, order);
    assert (15 - 2) % 32 == 13;
  }

  /** The string of the documented first word: as stage 1, but with scan low. */
  function DocumentedString(): (s: string)
    ensures |s| == 32
  {
    PortString('1', ONES, "1111", '0', '1')
  }

  lemma DocumentedWord()
    ensures Word(DocumentedString()) == 0x7F_FFFD
  {
    PortWordIsValue(DocumentedString());
    DocumentedValue(DocumentedString());
  }

  lemma DocumentedValue(s: string)
    requires |s| == 32 && s[30] == '0' && s[31] == '1'
    requires forall i :: 0 <= i < 30 ==> s[i] == if i < 9 then '0' else '1'
    ensures Value(s) == 0x7F_FFFD
  {
    var hi := s[..30];
    assert s == hi + "01";
    ValueAppend(hi, "01");
    ValueOfOne();
    OnesFrom(hi, 9);
    TwentyOne();
  }

  lemma OnesFrom(s: string, n: nat)
    requires n <= |s| && forall i :: 0 <= i < |s| ==> s[i] == if i < n then '0' else '1'
    ensures Value(s) == Pow2(|s| - n) - 1
  {
    ValueAllOnes(s, |s| - n);
  }

  lemma ValueOfOne()
    ensures Value("01") == 1
  {
    ValueCons('0', "1");
    ValueCons('1', "");
    assert "0" + "1" == "01" && "1" + "" == "1";
  }

  lemma TwentyOne()
    ensures Pow2(21) == 0x20_0000 && Pow2(2) == 4
  {
    Pow2Constants();
  }

  /** Had stage 1 written the word its documentation gives, the requested configuration would be
      loaded from any hardware state, under either schedule, for any clock counts that let the register
      fill from rest. */
  lemma DocumentedProtocolLoads(h: Hardware, t: Test, order: Schedule)
    requires h.Valid() && t.Valid() && t.clocks.n2 >= EdgesFromRest(order)
    ensures var r := AfterTest(h, DocumentedDrives(t), t.clocks, order);
            HoldsConfig(r, t.config) && r.Valid() && r.AtRest() && r.ctrl.scanShiftFeedback == L1
  {
    DocumentedWord();
    PortFields('1', ONES, "1111", '0', '1');
    DrivesMeant(t);
    LoadedAlways(h, MeantBy(t.config).(clear := Drive(false, true, BusOf(ONES))), t.clocks, order);
  }

  /** The words of a test with the documented first one. */
  function DocumentedDrives(t: Test): Drives
    requires t.Valid()
  {
    DrivesOf(t).(clear := DriveOf(0x7F_FFFD))
  }

  /** Bit k of the random number a configuration line was made from is the k-th bit the
      serializer emits from rest. */
  lemma BitOrder(h: Hardware, t: Test, order: Schedule, r: int, k: nat)
    requires h.Valid() && h.AtRest() && t.Valid() && k < 16
    requires t.config == LsbFirst(r, 16)
    ensures Run(h, DrivesOf(t).scan, order, k + 1).ctrl.scanChain == Known(Bit(r, k))
  {
    DrivesMeant(t);
    EmittedFromRest(h, MeantBy(t.config).scan, order, k);
    assert t.config[k] == Digit(Bit(r, k));
  }

  lemma EmittedFromRest(h: Hardware, d: Drive, order: Schedule, k: nat)
    requires h.Valid() && h.AtRest() && d.scan && k < 16
    ensures Run(h, d, order, k + 1).ctrl.scanChain == Known(d.data[15 - k])
  {
    SerializerClosedForm(h, d, order, k + 1);
    BelowFifteen(k);
  }

  lemma BelowFifteen(k: nat)
    requires k < 16
    ensures (15 - (k + 1) + 1) % 32 == 15 - k
  {
  }

  // ---------------------------------------------------------------- the answer the host reads

  /** The 19 pins the host reads: the outputs, the control unit's feedback, the register. */
  function Pins(h: Hardware, signals: seq<bool>, tri: bool): (s: seq<Logic>)
    requires |signals| == 4
    ensures |s| == 19
  {
    var y := Outputs(h.sipo.tmp, signals, tri);
    [y.0, y.1, h.ctrl.scanShiftFeedback] + h.sipo.tmp
  }

  /** The word made of fully known pins. */
  function WordOfPins(pins: seq<Logic>): nat {
    Value(Reverse(seq(|pins|, k requires 0 <= k < |pins| => Digit(pins[k] == L1))))
  }

  lemma BitOfPins(pins: seq<Logic>, k: nat)
    requires k < |pins|
    ensures Bit(WordOfPins(pins), k) == (pins[k] == L1)
  {
    BitOfValue(Reverse(seq(|pins|, i requires 0 <= i < |pins| => Digit(pins[i] == L1))), k);
  }

  /** What the host reads at the end of a test, with the fourth word on the port. */
  function Answer(h: Hardware, t: Test): seq<Logic>
    requires t.Valid()
  {
    var w := WordOf(t, 4);
    Pins(h, SignalsOf(w), TriStateOf(w))
  }

  lemma AnswerPins(h: Hardware, t: Test)
    requires t.Valid()
    ensures Answer(h, t) == Pins(h, SignalsIn(t.inputs), false)
  {
    StageFields(4, t.config, t.inputs);
  }

  /** Behind the two outputs the host sees the control unit's feedback and then the register, bit by bit. */
  lemma AnswerShowsRegister(h: Hardware, t: Test)
    requires t.Valid()
    ensures Answer(h, t)[2] == h.ctrl.scanShiftFeedback
    ensures forall k :: 3 <= k < 19 ==> Answer(h, t)[k] == h.sipo.tmp[k - 3]
  {
    AnswerPins(h, t);
  }

  /** Whatever the hardware's state, with one of the first three words on the port nothing is driven. */
  lemma UndrivenUntilApplied(h: Hardware, t: Test, stage: nat)
    requires t.Valid() && 1 <= stage <= 3
    ensures var w := WordOf(t, stage);
            Outputs(h.sipo.tmp, SignalsOf(w), TriStateOf(w)) == (Z, Z)
  {
    StageFields(stage, t.config, t.inputs);
    Latched(h.sipo.tmp, SignalsOf(WordOf(t, stage)));
  }

  /** The two characters a test should produce: the designs' common function of the stimulus under
      the stuck-at faults of the configuration. */
  function Expected(config: string, inputs: string): (char, char)
    requires |config| == 16 && |inputs| == 4
  {
    (Digit(Faulty(0, BusOf(config), SignalsIn(inputs))), Digit(Faulty(1, BusOf(config), SignalsIn(inputs))))
  }

  /** All pins are known: design 1 answers on bit 0 of the word and design 2 on bit 1 with the function
      under the configuration's faults, bit 2 is the control unit's feedback, and the bits from 3 on
      show the configuration, its last character lowest. */
  predicate Answers(pins: seq<Logic>, config: string, inputs: string)
    requires |pins| == 19 && |config| == 16 && |inputs| == 4
  {
    var w := WordOfPins(pins);
    && (forall k :: 0 <= k < 19 ==> pins[k] == L0 || pins[k] == L1)
    && w < 0x8_0000
    && Bit(w, 0) == Faulty(0, BusOf(config), SignalsIn(inputs))
    && Bit(w, 1) == Faulty(1, BusOf(config), SignalsIn(inputs))
    && Bit(w, 2)
    && (forall k: nat :: 3 <= k < 19 ==> Bit(w, k) == (config[18 - k] == '1'))
    && Results(w) == Expected(config, inputs)
  }

  lemma AnswerWhenLoaded(r: Hardware, t: Test, config: string)
    requires t.Valid() && |config| == 16 && HoldsConfig(r, config) && r.ctrl.scanShiftFeedback == L1
    ensures Answers(Answer(r, t), config, t.inputs)
  {
    AnswerPins(r, t);
    PinsWhenLoaded(r, BusOf(config), SignalsIn(t.inputs));
    WordSmall(Answer(r, t));
    AnswersFromBits(Answer(r, t), config, t.inputs);
  }

  lemma AnswersFromBits(pins: seq<Logic>, config: string, inputs: string)
    requires |pins| == 19 && |config| == 16 && |inputs| == 4 && WordOfPins(pins) < 0x8_0000
    requires forall k :: 0 <= k < 19 ==> pins[k] == L0 || pins[k] == L1
    requires ShowsBits(WordOfPins(pins), Faulty(0, BusOf(config), SignalsIn(inputs)),
                       Faulty(1, BusOf(config), SignalsIn(inputs)), BusOf(config))
    ensures Answers(pins, config, inputs)
  {
    ConfigurationShown(WordOfPins(pins), Faulty(0, BusOf(config), SignalsIn(inputs)),
                       Faulty(1, BusOf(config), SignalsIn(inputs)), config);
  }

  lemma ConfigurationShown(w: int, y0: bool, y1: bool, config: string)
    requires |config| == 16 && ShowsBits(w, y0, y1, BusOf(config))
    ensures forall k: nat :: 3 <= k < 19 ==> Bit(w, k) == (config[18 - k] == '1')
  {
    forall k: nat | 3 <= k < 19
      ensures Bit(w, k) == (config[18 - k] == '1')
    {
      assert BusOf(config)[k - 3] == IsOne(config[15 - (k - 3)]);
    }
  }

  /** The bits of the word that the host reads from known pins. */
  predicate ShowsBits(w: int, y0: bool, y1: bool, data: Bus) {
    Bit(w, 0) == y0 && Bit(w, 1) == y1 && Bit(w, 2) && forall k: nat :: 3 <= k < 19 ==> Bit(w, k) == data[k - 3]
  }

  lemma WordSmall(pins: seq<Logic>)
    requires |pins| == 19
    ensures WordOfPins(pins) < 0x8_0000
  {
    assert Pow2(19) == 0x8_0000 by {
      Pow2Add(16, 3);
      Pow2Constants();
    }
  }

  /** Whenever the serializer is in phase, every pin is known and the two result characters the
      host extracts are the expected ones of the effective configuration. */
  lemma AnswerIsExpected(h: Hardware, t: Test, order: Schedule)
    requires h.Valid() && t.Valid() && ClocksInPhase(h.ctrl.count, t.clocks, order)
    ensures Answers(Answer(AfterTest(h, DrivesOf(t), t.clocks, order), t), Effective(t.config, order), t.inputs)
  {
    ConfigLoadedExactly(h, t, order);
    AnswerWhenLoaded(AfterTest(h, DrivesOf(t), t.clocks, order), t, Effective(t.config, order));
  }

  /** With the documented first word they are those of the requested configuration, in any phase. */
  lemma DocumentedAnswer(h: Hardware, t: Test, order: Schedule)
    requires h.Valid() && t.Valid() && t.clocks.n2 >= EdgesFromRest(order)
    ensures Answers(Answer(AfterTest(h, DocumentedDrives(t), t.clocks, order), t), t.config, t.inputs)
  {
    DocumentedProtocolLoads(h, t, order);
    AnswerWhenLoaded(AfterTest(h, DocumentedDrives(t), t.clocks, order), t, t.config);
  }

  lemma PinsWhenLoaded(h: Hardware, data: Bus, signals: seq<bool>)
    requires |signals| == 4 && h.sipo.tmp == KnownBus(data) && h.ctrl.scanShiftFeedback == L1
    ensures var pins := Pins(h, signals, false);
            && (forall k :: 0 <= k < 19 ==> pins[k] == L0 || pins[k] == L1)
            && ShowsBits(WordOfPins(pins), Faulty(0, data, signals), Faulty(1, data, signals), data)
  {
    LoadedMeaning(data, signals);
    WordWhenKnown(Faulty(0, data, signals), Faulty(1, data, signals), data, Pins(h, signals, false));
  }

  lemma WordWhenKnown(y0: bool, y1: bool, data: Bus, pins: seq<Logic>)
    requires pins == [Known(y0), Known(y1), L1] + KnownBus(data)
    ensures forall k :: 0 <= k < 19 ==> pins[k] == L0 || pins[k] == L1
    ensures ShowsBits(WordOfPins(pins), y0, y1, data)
  {
    forall k: nat | k < 19
      ensures Bit(WordOfPins(pins), k) == (pins[k] == L1)
    {
      BitOfPins(pins, k);
    }
    forall k: nat | 3 <= k < 19
      ensures pins[k] == Known(data[k - 3])
    {
    }
  }

  /** Out of phase, too: a result pin that is known shows the function under the faults of every
      configuration that the register's known bits allow. */
  lemma KnownPinsSound(h: Hardware, t: Test, data: Bus)
    requires t.Valid() && Agrees(h.sipo.tmp, data)
    ensures Covers(Answer(h, t)[0], Known(Faulty(0, data, SignalsIn(t.inputs))))
    ensures Covers(Answer(h, t)[1], Known(Faulty(1, data, SignalsIn(t.inputs))))
  {
    AnswerPins(h, t);
    KnownOutputsSound(h.sipo.tmp, data, SignalsIn(t.inputs));
  }

  /** After a campaign of any length, a test that is in phase answers what is expected of its own
      effective configuration and stimulus, whatever the tests before it were. */
  lemma CampaignAnswer(h: Hardware, tests: seq<Test>, last: Test, order: Schedule)
    requires h.Valid() && tests != [] && forall t :: t in tests ==> t.Valid()
    requires last.Valid() && InPhaseFromRest(last.clocks, order)
    ensures var before := RunAll(h, Steps(tests), order);
            Answers(Answer(AfterTest(before, DrivesOf(last), last.clocks, order), last),
                    Effective(last.config, order), last.inputs)
  {
    AtRestAfter(h, tests, order);
    PhaseAtRest(last.clocks, order);
    AnswerIsExpected(RunAll(h, Steps(tests), order), last, order);
  }

  lemma AtRestAfter(h: Hardware, tests: seq<Test>, order: Schedule)
    requires h.Valid() && tests != [] && forall t :: t in tests ==> t.Valid()
    ensures RunAll(h, Steps(tests), order).Valid() && RunAll(h, Steps(tests), order).AtRest()
  {
    NoLeaks(h, Steps(tests), Hardware(Control(15, L0, L1, X), h.sipo), order);
  }

  lemma PhaseAtRest(clocks: Clocks, order: Schedule)
    ensures ClocksInPhase(15, clocks, order) <==> InPhaseFromRest(clocks, order)
  {
    PhaseFromRest(clocks.n1);
  }

  /** With `ShiftFirst`, site 7 of an effective configuration always passes its signal on: signal D of
      the second design is never faulted, so while D is low that design answers like a healthy one. */
  lemma LastSitePasses(config: string, inputs: string)
    requires |config| == 16 && |inputs| == 4
    ensures FaultAt(BusOf(Effective(config, ShiftFirst)), 7) == Pass
    ensures inputs[0] != '1' ==> !Faulty(1, BusOf(Effective(config, ShiftFirst)), SignalsIn(inputs))
  {
    assert BusOf(Effective(config, ShiftFirst))[15];
  }

  /** The golden configuration answers the fault-free function, twice. */
  lemma GoldenAnswer(inputs: string)
    requires |inputs| == 4
    ensures var f := Digit(IsOne(inputs[3]) && IsOne(inputs[0]) && (IsOne(inputs[2]) || IsOne(inputs[1])));
            Expected(ONES, inputs) == (f, f)
  {
    GoldenIsFaultFree(BusOf(ONES), SignalsIn(inputs), 0);
    GoldenIsFaultFree(BusOf(ONES), SignalsIn(inputs), 1);
  }

  // ---------------------------------------------------------------- from the random numbers on

  /** The lines read from a file to which `in_file` appended: the old whole lines, then the new
      ones, the first of them behind whatever was left of an unterminated line. */
  lemma LineFromFile(text: string, added: seq<string>, m: nat)
    requires added != [] && forall l :: l in added ==> IsLine(l)
    requires m < WholeLines(text) + |added|
    ensures var n := WholeLines(text);
            && n <= |Lines(text)|
            && NthLine(text + Unlines(added), m, "") ==
               if m < n then Lines(text)[m] else if m == n then LeftOver(text) + added[0] else added[m - n]
  {
    LinesAppended(text, added);
    ExtendedAt(text, added, m);
    NthOf(text + Unlines(added), Extended(text, added), m);
  }

  /** Beyond its end a file keeps giving its last line, and an empty file what was read before. */
  lemma LineBeyondEnd(text: string, n: nat, previous: string)
    ensures Lines(text) != [] && n >= |Lines(text)| - 1 ==> NthLine(text, n, previous) == Lines(text)[|Lines(text)| - 1]
    ensures text == "" ==> NthLine(text, n, previous) == previous
  {
  }

  /** So rows past the last configuration that `in_file` wrote run that one again. */
  lemma RowsBeyondEnd(c: Campaign, before: string, configs: seq<int>, stimuli: seq<int>, numInputs: nat, m: nat)
    requires c.testConfig ==
             before + Unlines(InputFiles.ConfigLines(configs, 16, InputFiles.LastStimulus(stimuli, numInputs)))
    requires m >= WholeLines(before) + |configs|
    ensures c.ConfigLine(m) == c.ConfigLine(WholeLines(before) + |configs|)
  {
    var added := InputFiles.ConfigLines(configs, 16, InputFiles.LastStimulus(stimuli, numInputs));
    ConfigLinesAreLines(configs, stimuli, numInputs);
    FileLength(before, added);
    LineBeyondEnd(c.testConfig, m, "");
    LineBeyondEnd(c.testConfig, WholeLines(before) + |configs|, "");
  }

  lemma FileLength(text: string, added: seq<string>)
    requires added != [] && forall l :: l in added ==> IsLine(l)
    ensures |Lines(text + Unlines(added))| == WholeLines(text) + |added|
  {
    LinesAppended(text, added);
    ExtendedAt(text, added, WholeLines(text));
  }

  lemma NthOf(text: string, lines: seq<string>, m: nat)
    requires Lines(text) == lines && m < |lines|
    ensures NthLine(text, m, "") == lines[m]
  {
  }

  lemma ConfigLinesAreLines(configs: seq<int>, stimuli: seq<int>, numInputs: nat)
    ensures forall l ::
              l in InputFiles.ConfigLines(configs, 16, InputFiles.LastStimulus(stimuli, numInputs)) ==> IsLine(l)
  {
    var stale := InputFiles.LastStimulus(stimuli, numInputs);
    var lines := InputFiles.ConfigLines(configs, 16, stale);
    forall i | 0 <= i < |lines|
      ensures IsLine(lines[i])
    {
      var text := if i == 0 then InputFiles.Ones(16) else InputFiles.Overlay(LsbFirst(configs[i - 1], 16), stale);
      assert lines[i] == text + "\n" && lines[i][..|text|] == text;
    }
  }

  /** The line at which `in_file` leaves configuration m, whatever the file held before. */
  function LineLeft(before: string, configs: seq<int>, stale: string, m: nat): string
    requires m <= WholeLines(before) + |configs| && WholeLines(before) <= |Lines(before)|
  {
    var n := WholeLines(before);
    if m < n then Lines(before)[m]
    else if m == n then LeftOver(before) + (ONES + "\n")
    else InputFiles.Overlay(LsbFirst(configs[m - n - 1], 16), stale) + "\n"
  }

  lemma ConfigLineFromFile(c: Campaign, before: string, configs: seq<int>, stimuli: seq<int>, numInputs: nat, m: nat)
    requires c.testConfig ==
             before + Unlines(InputFiles.ConfigLines(configs, 16, InputFiles.LastStimulus(stimuli, numInputs)))
    requires m <= WholeLines(before) + |configs|
    ensures WholeLines(before) <= |Lines(before)|
    ensures c.ConfigLine(m) == LineLeft(before, configs, InputFiles.LastStimulus(stimuli, numInputs), m)
  {
    var stale := InputFiles.LastStimulus(stimuli, numInputs);
    ConfigLinesAreLines(configs, stimuli, numInputs);
    LineFromFile(before, InputFiles.ConfigLines(configs, 16, stale), m);
    LineAt(configs, stale, if m > WholeLines(before) then m - WholeLines(before) else 0);
  }

  lemma LineAt(configs: seq<int>, stale: string, k: nat)
    requires k <= |configs|
    ensures InputFiles.ConfigLines(configs, 16, stale)[k] ==
            if k == 0 then ONES + "\n" else InputFiles.Overlay(LsbFirst(configs[k - 1], 16), stale) + "\n"
  {
    assert InputFiles.Ones(16) == ONES;
  }

  /** What the loop runs after `in_file`, whatever the configuration file held before: its old lines
      first, then the golden configuration, behind the rest of an unterminated line if there is one,
      then the random numbers. */
  lemma ConfigsFromFile(c: Campaign, before: string, configs: seq<int>, stimuli: seq<int>, numInputs: nat, m: nat)
    requires c.testConfig ==
             before + Unlines(InputFiles.ConfigLines(configs, 16, InputFiles.LastStimulus(stimuli, numInputs)))
    requires m <= WholeLines(before) + |configs|
    ensures WholeLines(before) <= |Lines(before)|
    ensures c.ConfigLine(m) == LineLeft(before, configs, InputFiles.LastStimulus(stimuli, numInputs), m)
    ensures m == WholeLines(before) && Complete(before) ==> c.Config(m) == ONES
    ensures m > WholeLines(before) ==> c.Config(m) == LsbFirst(configs[m - WholeLines(before) - 1], 16)
  {
    ConfigLineFromFile(c, before, configs, stimuli, numInputs, m);
    if m > WholeLines(before) {
      OverlayPrefix(LsbFirst(configs[m - WholeLines(before) - 1], 16), InputFiles.LastStimulus(stimuli, numInputs));
    } else if m == WholeLines(before) && Complete(before) {
      OverlayPrefix(ONES, "");
      assert "" + (ONES + "\n") == InputFiles.Overlay(ONES, "") + "\n";
    }
  }

  lemma OverlayPrefix(bits: string, stale: string)
    requires |bits| == 16
    ensures Prefix(InputFiles.Overlay(bits, stale) + "\n", 16) == bits
  {
  }

  lemma StimulusLinesAreLines(stimuli: seq<int>, numInputs: nat)
    ensures forall l :: l in InputFiles.StimulusLines(stimuli, numInputs) ==> IsLine(l)
  {
    var lines := InputFiles.StimulusLines(stimuli, numInputs);
    forall i | 0 <= i < |lines|
      ensures IsLine(lines[i])
    {
      assert lines[i][..|lines[i]| - 1] == LsbFirst(stimuli[i], numInputs);
    }
  }

  /** The same for the stimuli. */
  lemma InputsFromFile(c: Campaign, before: string, stimuli: seq<int>, numInputs: nat, j: nat)
    requires c.dutInputs == before + Unlines(InputFiles.StimulusLines(stimuli, numInputs))
    requires j < WholeLines(before) + |stimuli| && stimuli != []
    ensures var n := WholeLines(before);
            && n <= |Lines(before)|
            && c.InputLine(j) ==
               if j < n then Lines(before)[j]
               else (if j == n then LeftOver(before) else "") + (LsbFirst(stimuli[j - n], numInputs) + "\n")
  {
    StimulusLinesAreLines(stimuli, numInputs);
    LineFromFile(before, InputFiles.StimulusLines(stimuli, numInputs), j);
  }
}
