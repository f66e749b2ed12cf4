/** The whole loop: random numbers, input files, device words, hardware, log, script, D-metric. */
module ClosedLoop {
  import opened Bits
  import opened Codec
  import opened TextFiles
  import opened Driver
  import opened Protocol
  import opened ScanHardware
  import opened ScanProtocol
  import opened FaultCircuit
  import opened EndToEnd
  import opened Printout
  import opened Labels
  import opened Grouping
  import opened Scoring

  /** The first word as the program has it, or as its comment documents it. */
  datatype Variant = AsCoded | AsDocumented

  function DrivesFor(v: Variant, t: Test): Drives
    requires t.Valid()
  {
    match v
    case AsCoded => DrivesOf(t)
    case AsDocumented => DocumentedDrives(t)
  }

  // ---------------------------------------------------------------- the campaign's own list of tests

  function TestBlock(c: Campaign, clocks: (nat, nat) -> Clocks): (nat, nat) -> seq<Test> {
    (m: nat, j: nat) => [Test(c.Config(m), c.Inputs(j), clocks(m, j))]
  }

  /** The tests in the order in which the two nested loops run them. */
  function TestList(c: Campaign, clocks: (nat, nat) -> Clocks, rows: nat, tests: nat): seq<Test> {
    Grid(TestBlock(c, clocks), rows, tests)
  }

  ghost predicate OneEach<T(!new)>(f: (nat, nat) -> seq<T>) {
    forall m: nat, j: nat :: |f(m, j)| == 1
  }

  lemma {:induction false} RowAt<T(!new)>(f: (nat, nat) -> seq<T>, m: nat, tests: nat)
    requires OneEach(f)
    ensures |GridRow(f, m, tests)| == tests
    ensures forall j: nat :: j < tests ==> GridRow(f, m, tests)[j] == f(m, j)[0]
  {
    if tests > 0 {
      RowAt(f, m, tests - 1);
    }
  }

  lemma {:induction false} GridLength<T(!new)>(f: (nat, nat) -> seq<T>, rows: nat, tests: nat)
    requires OneEach(f)
    ensures |Grid(f, rows, tests)| == rows * tests
  {
    if rows > 0 {
      GridLength(f, rows - 1, tests);
      assert |Grid(f, rows, tests)| == |Grid(f, rows - 1, tests)| + tests by {
        RowAt(f, rows - 1, tests);
      }
      OneMore(rows - 1, tests);
    }
  }

  lemma AppendAt<T>(a: seq<T>, b: seq<T>, i: nat)
    requires i < |a| + |b|
    ensures (a + b)[i] == if i < |a| then a[i] else b[i - |a|]
  {
  }

  lemma {:induction false} GridBehind<T>(f: (nat, nat) -> seq<T>, rows: nat, tests: nat, m: nat, j: nat)
    requires m < rows && j < |GridRow(f, m, tests)|
    ensures var n := |Grid(f, m, tests)|;
            n + j < |Grid(f, rows, tests)| && Grid(f, rows, tests)[n + j] == GridRow(f, m, tests)[j]
    decreases rows
  {
    if m < rows - 1 {
      GridBehind(f, rows - 1, tests, m, j);
    }
    AppendAt(Grid(f, rows - 1, tests), GridRow(f, rows - 1, tests), |Grid(f, m, tests)| + j);
  }

  lemma GridElement<T(!new)>(f: (nat, nat) -> seq<T>, rows: nat, tests: nat, m: nat, j: nat)
    requires OneEach(f) && m < rows && j < tests
    ensures var n := |Grid(f, m, tests)|;
            n + j < |Grid(f, rows, tests)| && Grid(f, rows, tests)[n + j] == f(m, j)[0]
  {
    RowAt(f, m, tests);
    GridBehind(f, rows, tests, m, j);
  }

  lemma GridAt<T(!new)>(f: (nat, nat) -> seq<T>, rows: nat, tests: nat, m: nat, j: nat, p: int)
    requires OneEach(f) && m < rows && j < tests && p == m * tests + j
    ensures 0 <= p < |Grid(f, rows, tests)| && Grid(f, rows, tests)[p] == f(m, j)[0]
  {
    GridLength(f, m, tests);
    GridElement(f, rows, tests, m, j);
  }

  /** Test m * tests + j is that of configuration m and stimulus j. */
  lemma TestAt(c: Campaign, clocks: (nat, nat) -> Clocks, rows: nat, tests: nat, m: nat, j: nat)
    requires m < rows && j < tests
    ensures var list, p := TestList(c, clocks, rows, tests), m * tests + j;
            0 <= p < |list| && list[p] == Test(c.Config(m), c.Inputs(j), clocks(m, j))
  {
    GridAt(TestBlock(c, clocks), rows, tests, m, j, m * tests + j);
  }

  function TestNumber(c: Campaign, clocks: (nat, nat) -> Clocks, rows: nat, tests: nat, m: nat, j: nat): (p: nat)
    requires m < rows && j < tests
    ensures p < |TestList(c, clocks, rows, tests)|
    ensures TestList(c, clocks, rows, tests)[p] == Test(c.Config(m), c.Inputs(j), clocks(m, j))
  {
    TestAt(c, clocks, rows, tests, m, j);
    m * tests + j
  }

  /** The event writes the word of a stage of the test, which means what that stage should. */
  predicate StageWritten(e: Event, t: Test, stage: nat)
    requires |t.config| == 16 && |t.inputs| == 4 && 1 <= stage <= 4
  {
    e == Event.Write(WordOf(t, stage)) && MeansStage(WordOf(t, stage), stage, t.config, t.inputs)
  }

  /** The trace of the loop writes the words of these tests, four at a time, and then reads. */
  lemma TraceOfTest(c: Campaign, clocks: (nat, nat) -> Clocks, rows: nat, tests: nat, m: nat, j: nat)
    requires m < rows && j < tests && clocks(m, j).Enough()
    ensures var trace, p := Events(c, rows, tests), m * tests + j;
            var t := Test(c.Config(m), c.Inputs(j), clocks(m, j));
            && 0 <= p < |TestList(c, clocks, rows, tests)| && TestList(c, clocks, rows, tests)[p] == t
            && 5 * p + 5 <= |trace|
            && StageWritten(trace[5 * p], t, 1) && StageWritten(trace[5 * p + 1], t, 2)
            && StageWritten(trace[5 * p + 2], t, 3) && StageWritten(trace[5 * p + 3], t, 4)
            && trace[5 * p + 4] == Event.Read(c.outputs(m, j))
  {
    TestAt(c, clocks, rows, tests, m, j);
    TraceBlock(c, rows, tests, m, j);
    var trace, at := Events(c, rows, tests), 5 * (m * tests + j);
    var block := Block(c.Config(m), c.Inputs(j), c.outputs(m, j));
    BlockWords(Test(c.Config(m), c.Inputs(j), clocks(m, j)), c.outputs(m, j));
    BlockAt(trace, at, block);
  }

  lemma BlockAt<T>(trace: seq<T>, at: nat, block: seq<T>)
    requires |block| == 5 && at + 5 <= |trace| && trace[at..at + 5] == block
    ensures trace[at] == block[0] && trace[at + 1] == block[1] && trace[at + 2] == block[2]
    ensures trace[at + 3] == block[3] && trace[at + 4] == block[4]
  {
  }

  lemma BlockWords(t: Test, output: int)
    requires |t.config| == 16 && |t.inputs| == 4
    ensures var block := Block(t.config, t.inputs, output);
            && |block| == 5 && block[4] == Event.Read(output)
            && StageWritten(block[0], t, 1) && StageWritten(block[1], t, 2)
            && StageWritten(block[2], t, 3) && StageWritten(block[3], t, 4)
  {
    StageFields(1, t.config, t.inputs);
    StageFields(2, t.config, t.inputs);
    StageFields(3, t.config, t.inputs);
    StageFields(4, t.config, t.inputs);
  }

  // ---------------------------------------------------------------- what the hardware answers

  ghost predicate AllValid(list: seq<Test>) {
    forall t :: t in list ==> t.Valid()
  }

  function StepsFor(v: Variant, list: seq<Test>): (s: seq<Step>)
    requires AllValid(list)
    ensures |s| == |list|
  {
    seq(|list|, i requires 0 <= i < |list| => Step(DrivesFor(v, list[i]), list[i].clocks))
  }

  /** The word the host reads at the end of test p, when all tests up to it ran on the hardware. */
  function HostReads(v: Variant, h: Hardware, list: seq<Test>, order: Schedule, p: nat): nat
    requires AllValid(list) && p < |list|
  {
    WordOfPins(PinsRead(v, h, list, order, p))
  }

  function PinsRead(v: Variant, h: Hardware, list: seq<Test>, order: Schedule, p: nat): (pins: seq<Logic>)
    requires AllValid(list) && p < |list|
    ensures |pins| == 19
  {
    Answer(RunAll(h, StepsFor(v, list)[..p + 1], order), list[p])
  }

  /** As coded, the first test has to be in phase with the hardware and every later one by its own
      clocks; as documented, the register only needs time to fill from rest. */
  ghost predicate InStep(v: Variant, h: Hardware, list: seq<Test>, order: Schedule) {
    forall p :: 0 <= p < |list| ==> TestInStep(v, h.ctrl.count, p, list[p].clocks, order)
  }

  predicate TestInStep(v: Variant, count: nat, p: nat, clocks: Clocks, order: Schedule) {
    match v
    case AsCoded => if p == 0 then ClocksInPhase(count, clocks, order) else InPhaseFromRest(clocks, order)
    case AsDocumented => clocks.n2 >= EdgesFromRest(order)
  }

  /** The configuration that is in the circuit when a test in step is read: as documented the one
      requested; as coded the first bit is lost under `ShiftFirst`. */
  function Injected(v: Variant, order: Schedule, config: string): (r: string)
    requires |config| == 16
    ensures |r| == 16
  {
    if v == AsCoded then Effective(config, order) else config
  }

  lemma {:induction false} RunAllValid(h: Hardware, steps: seq<Step>, order: Schedule)
    requires h.Valid()
    ensures RunAll(h, steps, order).Valid()
    decreases |steps|
  {
    if steps != [] {
      RunAllValid(h, steps[..|steps| - 1], order);
    }
  }

  lemma LastTest(v: Variant, h: Hardware, list: seq<Test>, order: Schedule, p: nat)
    requires AllValid(list) && p < |list|
    ensures RunAll(h, StepsFor(v, list)[..p + 1], order) ==
            AfterTest(RunAll(h, StepsFor(v, list)[..p], order), DrivesFor(v, list[p]), list[p].clocks, order)
  {
    var steps := StepsFor(v, list);
    assert steps[..p + 1][..p] == steps[..p];
    assert steps[..p + 1][p] == steps[p];
  }

  /** Test p answers what is expected of its own stimulus and of what its own configuration injects. */
  ghost predicate ReadsRight(v: Variant, h: Hardware, list: seq<Test>, order: Schedule, p: nat)
    requires AllValid(list) && p < |list|
  {
    var t := list[p];
    assert t in list;
    Answers(PinsRead(v, h, list, order, p), Injected(v, order, t.config), t.inputs)
  }

  lemma StepsBefore(list: seq<Test>, p: nat)
    requires AllValid(list) && p <= |list|
    ensures AllValid(list[..p]) && StepsFor(AsCoded, list)[..p] == Steps(list[..p])
  {
  }

  lemma ReadsLast(v: Variant, h: Hardware, list: seq<Test>, order: Schedule, p: nat, t: Test, before: Hardware)
    requires AllValid(list) && p < |list| && t == list[p] && t.Valid()
    requires before == RunAll(h, StepsFor(v, list)[..p], order)
    requires Answers(Answer(AfterTest(before, DrivesFor(v, t), t.clocks, order), t),
                     Injected(v, order, t.config), t.inputs)
    ensures ReadsRight(v, h, list, order, p)
  {
    LastTest(v, h, list, order, p);
  }

  lemma CodedReads(h: Hardware, list: seq<Test>, order: Schedule, p: nat)
    requires h.Valid() && AllValid(list) && 0 < p < |list| && InPhaseFromRest(list[p].clocks, order)
    ensures ReadsRight(AsCoded, h, list, order, p)
  {
    var t := list[p];
    assert t in list;
    StepsBefore(list, p);
    CampaignAnswer(h, list[..p], t, order);
    ReadsLast(AsCoded, h, list, order, p, t, RunAll(h, Steps(list[..p]), order));
  }

  lemma FirstCodedReads(h: Hardware, list: seq<Test>, order: Schedule)
    requires h.Valid() && AllValid(list) && list != [] && ClocksInPhase(h.ctrl.count, list[0].clocks, order)
    ensures ReadsRight(AsCoded, h, list, order, 0)
  {
    var t := list[0];
    assert t in list;
    AnswerIsExpected(h, t, order);
    assert StepsFor(AsCoded, list)[..0] == [];
    ReadsLast(AsCoded, h, list, order, 0, t, h);
  }

  lemma DocumentedAnswered(before: Hardware, t: Test, order: Schedule)
    requires before.Valid() && t.Valid() && t.clocks.n2 >= EdgesFromRest(order)
    ensures Answers(Answer(AfterTest(before, DrivesFor(AsDocumented, t), t.clocks, order), t),
                    Injected(AsDocumented, order, t.config), t.inputs)
  {
    DocumentedAnswer(before, t, order);
  }

  lemma DocumentedReads(h: Hardware, list: seq<Test>, order: Schedule, p: nat)
    requires h.Valid() && AllValid(list) && p < |list| && list[p].clocks.n2 >= EdgesFromRest(order)
    ensures ReadsRight(AsDocumented, h, list, order, p)
  {
    var t, before := list[p], RunAll(h, StepsFor(AsDocumented, list)[..p], order);
    assert t in list;
    RunAllValid(h, StepsFor(AsDocumented, list)[..p], order);
    DocumentedAnswered(before, t, order);
    ReadsLast(AsDocumented, h, list, order, p, t, before);
  }

  /** So does every test of a campaign in step. */
  lemma ReadsExpected(v: Variant, h: Hardware, list: seq<Test>, order: Schedule, p: nat)
    requires h.Valid() && AllValid(list) && InStep(v, h, list, order) && p < |list|
    ensures ReadsRight(v, h, list, order, p)
  {
    assert TestInStep(v, h.ctrl.count, p, list[p].clocks, order);
    if v == AsDocumented {
      DocumentedReads(h, list, order, p);
    } else if p == 0 {
      FirstCodedReads(h, list, order);
    } else {
      CodedReads(h, list, order, p);
    }
  }

  // ---------------------------------------------------------------- the loop closed

  /** The device's answers are those of the hardware running the campaign's own tests. */
  ghost predicate AnsweredBy(c: Campaign, v: Variant, h: Hardware, clocks: (nat, nat) -> Clocks, order: Schedule,
                             rows: nat, tests: nat)
    requires AllValid(TestList(c, clocks, rows, tests))
  {
    forall m: nat, j: nat :: m < rows && j < tests ==>
      c.outputs(m, j) == AnswerTo(c, v, h, clocks, order, rows, tests, m, j)
  }

  function AnswerTo(c: Campaign, v: Variant, h: Hardware, clocks: (nat, nat) -> Clocks, order: Schedule,
                    rows: nat, tests: nat, m: nat, j: nat): nat
    requires AllValid(TestList(c, clocks, rows, tests)) && m < rows && j < tests
  {
    HostReads(v, h, TestList(c, clocks, rows, tests), order, TestNumber(c, clocks, rows, tests, m, j))
  }

  lemma AnswerExpected(c: Campaign, v: Variant, h: Hardware, clocks: (nat, nat) -> Clocks, order: Schedule,
                       rows: nat, tests: nat, m: nat, j: nat)
    requires h.Valid() && AllValid(TestList(c, clocks, rows, tests)) && m < rows && j < tests
    requires InStep(v, h, TestList(c, clocks, rows, tests), order)
    ensures Driver.Results(AnswerTo(c, v, h, clocks, order, rows, tests, m, j)) ==
            Expected(Injected(v, order, c.Config(m)), c.Inputs(j))
  {
    var p := TestNumber(c, clocks, rows, tests, m, j);
    ReadsExpected(v, h, TestList(c, clocks, rows, tests), order, p);
  }

  /** Under the stimulus, the faults of the configuration change the output of both designs. */
  predicate ChangesBoth(config: string, inputs: string)
    requires |config| == 16 && |inputs| == 4
  {
    var s := SignalsIn(inputs);
    var healthy := Function(s[0], s[1], s[2], s[3]);
    Faulty(0, BusOf(config), s) != healthy && Faulty(1, BusOf(config), s) != healthy
  }

  /** As coded, flip-flops never fault signal D of the second design: a stimulus with D low detects
      nothing. */
  lemma LowDNeverDetected(config: string, inputs: string)
    requires |config| == 16 && |inputs| == 4
    ensures ChangesBoth(Injected(AsCoded, ShiftFirst, config), inputs) ==> inputs[0] == '1'
  {
    LastSitePasses(config, inputs);
    assert SignalsIn(inputs)[3] == IsOne(inputs[0]);
  }

  /** With both answers as expected, a joint detection against a golden test is a stimulus on which the
      faults change both outputs. */
  lemma DetectionMeaning(c: Campaign, config: string, m: nat, g: nat, j: nat)
    requires |config| == 16
    requires Driver.Results(c.outputs(g, j)) == Expected(ONES, c.Inputs(j))
    requires Driver.Results(c.outputs(m, j)) == Expected(config, c.Inputs(j))
    ensures JointlyAt(c, (m, j), (g, j)) <==> ChangesBoth(config, c.Inputs(j))
  {
    GoldenAnswer(c.Inputs(j));
  }

  lemma GoldenInjected(v: Variant, order: Schedule)
    ensures Injected(v, order, ONES) == ONES
  {
    assert FirstBitKept(ONES, order);
  }

  /** A joint detection in the log is a stimulus on which the injected faults change the outputs of
      both designs, in the hardware that ran the campaign; g is any row with the golden configuration. */
  lemma DetectionsMeant(c: Campaign, v: Variant, h: Hardware, clocks: (nat, nat) -> Clocks, order: Schedule,
                        rows: nat, tests: nat, m: nat, g: nat, j: nat)
    requires h.Valid() && AllValid(TestList(c, clocks, rows, tests)) && m < rows && g < rows && j < tests
    requires InStep(v, h, TestList(c, clocks, rows, tests), order)
    requires AnsweredBy(c, v, h, clocks, order, rows, tests) && c.Config(g) == ONES
    ensures JointlyAt(c, (m, j), (g, j)) <==> ChangesBoth(Injected(v, order, c.Config(m)), c.Inputs(j))
  {
    AnswerExpected(c, v, h, clocks, order, rows, tests, g, j);
    AnswerExpected(c, v, h, clocks, order, rows, tests, m, j);
    GoldenInjected(v, order);
    DetectionMeaning(c, Injected(v, order, c.Config(m)), m, g, j);
  }

  /** The stimuli whose results a list holds: all of them, again for every row with its configuration. */
  function StimulusAt(tests: nat, j: nat): nat {
    if tests == 0 then 0 else j % tests
  }

  /** Which of a list's first `inputs` results are for stimuli on which the faults that row m injects
      change both outputs. */
  function Changes(c: Campaign, v: Variant, order: Schedule, m: nat, tests: nat, inputs: nat): seq<bool> {
    seq(inputs, j requires 0 <= j < inputs =>
      ChangesBoth(Injected(v, order, c.Config(m)), c.Inputs(StimulusAt(tests, j))))
  }

  /** How many, for the rows that label lists 1, 2, ... */
  function FaultCounts(c: Campaign, v: Variant, order: Schedule, w: seq<nat>, tests: nat, inputs: nat): (r: seq<nat>)
    ensures |r| == if w == [] then 0 else |w| - 1
  {
    seq(if w == [] then 0 else |w| - 1,
        k requires 0 <= k < |w| - 1 => DMetric.CountTrue(Changes(c, v, order, w[k + 1], tests, inputs)))
  }

  /** In the log the first result of a test is design 1's and the second design 2's. */
  lemma LoggedResults(c: Campaign, v: Variant, h: Hardware, clocks: (nat, nat) -> Clocks, order: Schedule,
                      rows: nat, tests: nat, m: nat, j: nat)
    requires h.Valid() && AllValid(TestList(c, clocks, rows, tests)) && m < rows && j < tests
    requires InStep(v, h, TestList(c, clocks, rows, tests), order)
    requires AnsweredBy(c, v, h, clocks, order, rows, tests)
    ensures var data := BusOf(Injected(v, order, c.Config(m)));
            && (PrintedResult(c, m, j, 1) == '1' <==> Faulty(0, data, SignalsIn(c.Inputs(j))))
            && (PrintedResult(c, m, j, 2) == '1' <==> Faulty(1, data, SignalsIn(c.Inputs(j))))
  {
    AnswerExpected(c, v, h, clocks, order, rows, tests, m, j);
  }

  /** Rows with equal configurations inject the same. */
  lemma EqualRows(c: Campaign, cfgs: seq<string>, tests: nat, m: nat, k: nat)
    requires Uses(c, cfgs, tests) && m < |cfgs| && k < |cfgs| && cfgs[m] == cfgs[k]
    ensures c.Config(m) == c.Config(k)
  {
    assert c.ConfigLine(m) == c.ConfigLine(k);
  }

  /** Entry j of the list of row m, in a campaign that the hardware answered. */
  lemma EntryMeant(c: Campaign, v: Variant, h: Hardware, clocks: (nat, nat) -> Clocks, order: Schedule,
                   cfgs: seq<string>, tests: nat, m: nat, j: nat)
    requires Uses(c, cfgs, tests) && cfgs != [] && c.Config(0) == ONES && m < |cfgs|
    requires h.Valid() && AllValid(TestList(c, clocks, |cfgs|, tests))
    requires InStep(v, h, TestList(c, clocks, |cfgs|, tests), order)
    requires AnsweredBy(c, v, h, clocks, order, |cfgs|, tests)
    requires j < |TestsOf(cfgs, cfgs[m], |cfgs|, tests)| && j < |TestsOf(cfgs, cfgs[0], |cfgs|, tests)|
    ensures JointlyAt(c, TestsOf(cfgs, cfgs[m], |cfgs|, tests)[j], TestsOf(cfgs, cfgs[0], |cfgs|, tests)[j]) <==>
            ChangesBoth(Injected(v, order, c.Config(m)), c.Inputs(StimulusAt(tests, j)))
  {
    var p, g := TestsOf(cfgs, cfgs[m], |cfgs|, tests)[j], TestsOf(cfgs, cfgs[0], |cfgs|, tests)[j];
    EntryRow(cfgs, cfgs[m], |cfgs|, tests, j);
    EntryRow(cfgs, cfgs[0], |cfgs|, tests, j);
    EntryStimulus(cfgs, cfgs[m], |cfgs|, tests, j);
    EntryStimulus(cfgs, cfgs[0], |cfgs|, tests, j);
    EqualRows(c, cfgs, tests, p.0, m);
    EqualRows(c, cfgs, tests, g.0, 0);
    DetectionsMeant(c, v, h, clocks, order, |cfgs|, tests, p.0, g.0, p.1);
    assert p == (p.0, p.1) && g == (g.0, p.1);
  }

  lemma ListMeant(c: Campaign, v: Variant, h: Hardware, clocks: (nat, nat) -> Clocks, order: Schedule,
                  cfgs: seq<string>, tests: nat, inputs: nat, m: nat)
    requires Uses(c, cfgs, tests) && cfgs != [] && c.Config(0) == ONES && m < |cfgs|
    requires h.Valid() && AllValid(TestList(c, clocks, |cfgs|, tests))
    requires InStep(v, h, TestList(c, clocks, |cfgs|, tests), order)
    requires AnsweredBy(c, v, h, clocks, order, |cfgs|, tests)
    requires inputs <= |TestsOf(cfgs, cfgs[m], |cfgs|, tests)| && inputs <= |TestsOf(cfgs, cfgs[0], |cfgs|, tests)|
    ensures ReadDetections(c, TestsOf(cfgs, cfgs[m], |cfgs|, tests), TestsOf(cfgs, cfgs[0], |cfgs|, tests), inputs) ==
            Changes(c, v, order, m, tests, inputs)
  {
    var list, golden := TestsOf(cfgs, cfgs[m], |cfgs|, tests), TestsOf(cfgs, cfgs[0], |cfgs|, tests);
    forall j | 0 <= j < inputs
      ensures ReadDetections(c, list, golden, inputs)[j] == Changes(c, v, order, m, tests, inputs)[j]
    {
      EntryMeant(c, v, h, clocks, order, cfgs, tests, m, j);
    }
  }

  /** Every list the script can read is what the faults of its label's row do. */
  ghost predicate ListsMeant(c: Campaign, v: Variant, order: Schedule, cfgs: seq<string>, tests: nat, inputs: nat)
    requires cfgs != []
  {
    forall m: nat :: m < |cfgs| ==> ListRead(c, v, order, cfgs, tests, inputs, m)
  }

  predicate ListRead(c: Campaign, v: Variant, order: Schedule, cfgs: seq<string>, tests: nat, inputs: nat, m: nat)
    requires m < |cfgs|
  {
    var list, golden := TestsOf(cfgs, cfgs[m], |cfgs|, tests), TestsOf(cfgs, cfgs[0], |cfgs|, tests);
    inputs <= |list| && inputs <= |golden| ==>
      ReadDetections(c, list, golden, inputs) == Changes(c, v, order, m, tests, inputs)
  }

  lemma SameCounts(c: Campaign, v: Variant, order: Schedule, cfgs: seq<string>, w: seq<nat>, tests: nat, inputs: nat)
    requires cfgs != [] && ListsMeant(c, v, order, cfgs, tests, inputs)
    requires (forall i :: 0 <= i < |w| ==> w[i] < |cfgs|) && (w != [] ==> w[0] == 0)
    requires |w| <= 1 || !Short(cfgs, w, tests, inputs)
    ensures ReadCounts(c, cfgs, w, tests, inputs) == FaultCounts(c, v, order, w, tests, inputs)
  {
    forall k | 0 <= k < |w| - 1
      ensures ReadCounts(c, cfgs, w, tests, inputs)[k] == FaultCounts(c, v, order, w, tests, inputs)[k]
    {
      LongLists(cfgs, w, tests, inputs, k + 1);
      assert ListRead(c, v, order, cfgs, tests, inputs, w[k + 1]);
    }
  }

  /** From the hardware to the number: with the device answering as the clocked design does, the
      script's result is the metric of the stimuli on which the faults injected by the rows that label
      its lists change both designs' outputs, or an index error exactly when there are fewer labels
      than lists or some list is shorter than the script asks for. */
  lemma FaultMetric(c: Campaign, v: Variant, h: Hardware, clocks: (nat, nat) -> Clocks, order: Schedule,
                    cfgs: seq<string>, tests: nat, cases: nat, inputs: nat, noInputs: nat)
    requires Uses(c, cfgs, tests) && cfgs != [] && c.Config(0) == ONES
    requires h.Valid() && AllValid(TestList(c, clocks, |cfgs|, tests))
    requires InStep(v, h, TestList(c, clocks, |cfgs|, tests), order)
    requires AnsweredBy(c, v, h, clocks, order, |cfgs|, tests)
    ensures ResultFile.Analysis(Text(c, |cfgs|, tests), cases, inputs, noInputs) ==
            if EndsBefore(|cfgs|) < cases then DMetric.Failure(DMetric.IndexError)
            else
              var w := Mapping(|cfgs|, cases);
              if cases > 1 && Short(cfgs, w, tests, inputs) then DMetric.Failure(DMetric.IndexError)
              else DMetric.Metric(FaultCounts(c, v, order, w, tests, inputs), noInputs)
  {
    EndToEndMetric(c, cfgs, tests, cases, inputs, noInputs);
    AllListsMeant(c, v, h, clocks, order, cfgs, tests, inputs);
    if EndsBefore(|cfgs|) >= cases {
      GoldenLabel(|cfgs|, cases);
      if cases <= 1 || !Short(cfgs, Mapping(|cfgs|, cases), tests, inputs) {
        SameCounts(c, v, order, cfgs, Mapping(|cfgs|, cases), tests, inputs);
      }
    }
  }

  lemma GoldenLabel(rows: nat, cases: nat)
    requires EndsBefore(rows) >= cases && rows > 0
    ensures Mapping(rows, cases) != [] ==> Mapping(rows, cases)[0] == 0
  {
    if cases > 0 {
      GoldenFirst(rows, cases);
    }
  }

  lemma AllListsMeant(c: Campaign, v: Variant, h: Hardware, clocks: (nat, nat) -> Clocks, order: Schedule,
                      cfgs: seq<string>, tests: nat, inputs: nat)
    requires Uses(c, cfgs, tests) && cfgs != [] && c.Config(0) == ONES
    requires h.Valid() && AllValid(TestList(c, clocks, |cfgs|, tests))
    requires InStep(v, h, TestList(c, clocks, |cfgs|, tests), order)
    requires AnsweredBy(c, v, h, clocks, order, |cfgs|, tests)
    ensures ListsMeant(c, v, order, cfgs, tests, inputs)
  {
    forall m: nat | m < |cfgs|
      ensures ListRead(c, v, order, cfgs, tests, inputs, m)
    {
      var list, golden := TestsOf(cfgs, cfgs[m], |cfgs|, tests), TestsOf(cfgs, cfgs[0], |cfgs|, tests);
      if inputs <= |list| && inputs <= |golden| {
        ListMeant(c, v, h, clocks, order, cfgs, tests, inputs, m);
      }
    }
  }

  // ---------------------------------------------------------------- from the random numbers on

  /** The configurations that a campaign on fresh files runs: the golden one, then all random numbers
      but the last. */
  function Requested(configs: seq<int>): (cfgs: seq<string>)
    requires configs != []
    ensures |cfgs| == |configs| && forall m :: 0 <= m < |cfgs| ==> |cfgs[m]| == 16
  {
    seq(|configs|, m requires 0 <= m < |configs| => if m == 0 then ONES else LsbFirst(configs[m - 1], 16))
  }

  /** The campaign reads the files that `in_file` made of these numbers. */
  ghost predicate FromFreshFiles(c: Campaign, configs: seq<int>, stimuli: seq<int>, numInputs: nat) {
    && c.testConfig == Unlines(InputFiles.ConfigLines(configs, 16, InputFiles.LastStimulus(stimuli, numInputs)))
    && c.dutInputs == Unlines(InputFiles.StimulusLines(stimuli, numInputs))
  }

  lemma FreshLine(lines: seq<string>, m: nat)
    requires m < |lines| && forall l :: l in lines ==> IsLine(l)
    ensures NthLine(Unlines(lines), m, "") == lines[m]
  {
    WrittenLines(lines);
  }

  lemma RequestedAt(c: Campaign, configs: seq<int>, stimuli: seq<int>, numInputs: nat, m: nat)
    requires FromFreshFiles(c, configs, stimuli, numInputs) && numInputs <= 16 && m < |configs|
    ensures c.ConfigLine(m) == Requested(configs)[m] + "\n" && c.Config(m) == Requested(configs)[m]
    ensures Binary(Requested(configs)[m])
  {
    var lines := InputFiles.ConfigLines(configs, 16, InputFiles.LastStimulus(stimuli, numInputs));
    ConfigLinesAreLines(configs, stimuli, numInputs);
    FreshLine(lines, m);
    InputFiles.NoStaleTail(stimuli, numInputs, configs, 16);
    RequestedLine(configs, m);
    assert (Requested(configs)[m] + "\n")[..16] == Requested(configs)[m];
  }

  lemma RequestedLine(configs: seq<int>, m: nat)
    requires m < |configs|
    ensures ([InputFiles.Ones(16) + "\n"] + InputFiles.StimulusLines(configs, 16))[m] == Requested(configs)[m] + "\n"
    ensures Binary(Requested(configs)[m])
  {
    assert InputFiles.Ones(16) == ONES;
  }

  lemma StimulusFrom(c: Campaign, configs: seq<int>, stimuli: seq<int>, numInputs: nat, j: nat)
    requires FromFreshFiles(c, configs, stimuli, numInputs) && numInputs >= 4 && j < |stimuli|
    ensures c.InputLine(j) == LsbFirst(stimuli[j], numInputs) + "\n"
    ensures c.Inputs(j) == LsbFirst(stimuli[j], 4) && Binary(c.Inputs(j))
  {
    StimulusLinesAreLines(stimuli, numInputs);
    FreshLine(InputFiles.StimulusLines(stimuli, numInputs), j);
    FirstBits(stimuli[j], numInputs, 4, c.InputLine(j));
  }

  lemma FirstBits(n: int, w: nat, k: nat, line: string)
    requires k <= w && line == LsbFirst(n, w) + "\n"
    ensures Prefix(line, k) == LsbFirst(n, k) && Binary(LsbFirst(n, k))
  {
  }

  /** Fresh files of four to sixteen inputs make a campaign the log of which the script can read. */
  lemma FreshCampaign(c: Campaign, configs: seq<int>, stimuli: seq<int>, numInputs: nat)
    requires FromFreshFiles(c, configs, stimuli, numInputs) && 4 <= numInputs <= 16 && configs != []
    ensures Uses(c, Requested(configs), |stimuli|) && c.Config(0) == ONES
  {
    forall m | 0 <= m < |configs|
      ensures c.ConfigLine(m) == Requested(configs)[m] + "\n" && Binary(Requested(configs)[m])
    {
      RequestedAt(c, configs, stimuli, numInputs, m);
    }
    forall j | 0 <= j < |stimuli|
      ensures Binary(c.Inputs(j))
    {
      StimulusFrom(c, configs, stimuli, numInputs, j);
    }
    RequestedAt(c, configs, stimuli, numInputs, 0);
  }

  /** The loop can run every test of such a campaign. */
  lemma FreshUsable(c: Campaign, v: Variant, h: Hardware, clocks: (nat, nat) -> Clocks, order: Schedule,
                    configs: seq<int>, stimuli: seq<int>, numInputs: nat, m: nat, j: nat)
    requires FromFreshFiles(c, configs, stimuli, numInputs) && 4 <= numInputs <= 16
    requires m < |configs| && j < |stimuli|
    requires AllValid(TestList(c, clocks, |configs|, |stimuli|))
    requires AnsweredBy(c, v, h, clocks, order, |configs|, |stimuli|)
    ensures c.Usable(m, j)
  {
    RequestedAt(c, configs, stimuli, numInputs, m);
    StimulusFrom(c, configs, stimuli, numInputs, j);
    NoTerminator(c.Config(m));
    NoTerminator(c.Inputs(j));
    AnswerSmall(c, v, h, clocks, order, |configs|, |stimuli|, m, j);
  }

  lemma AnswerSmall(c: Campaign, v: Variant, h: Hardware, clocks: (nat, nat) -> Clocks, order: Schedule,
                    rows: nat, tests: nat, m: nat, j: nat)
    requires AllValid(TestList(c, clocks, rows, tests)) && m < rows && j < tests
    requires AnsweredBy(c, v, h, clocks, order, rows, tests)
    ensures 0 <= c.outputs(m, j) < TWO_TO_31
  {
    var p := TestNumber(c, clocks, rows, tests, m, j);
    WordSmall(PinsRead(v, h, TestList(c, clocks, rows, tests), order, p));
  }

  lemma NoTerminator(s: string)
    requires Binary(s)
    ensures NUL !in s
  {
  }

  /** The loop can run the campaign, with these configurations and stimuli. */
  ghost predicate RunsNumbers(c: Campaign, configs: seq<int>, stimuli: seq<int>) {
    && (forall m :: 0 <= m < |configs| ==> c.Config(m) == Requested(configs)[m])
    && (forall j :: 0 <= j < |stimuli| ==> c.Inputs(j) == LsbFirst(stimuli[j], 4))
    && (forall m, j :: 0 <= m < |configs| && 0 <= j < |stimuli| ==> c.Usable(m, j))
  }

  lemma FreshRun(c: Campaign, v: Variant, h: Hardware, clocks: (nat, nat) -> Clocks, order: Schedule,
                 configs: seq<int>, stimuli: seq<int>, numInputs: nat)
    requires FromFreshFiles(c, configs, stimuli, numInputs) && 4 <= numInputs <= 16
    requires AllValid(TestList(c, clocks, |configs|, |stimuli|))
    requires AnsweredBy(c, v, h, clocks, order, |configs|, |stimuli|)
    ensures RunsNumbers(c, configs, stimuli)
  {
    forall m | 0 <= m < |configs|
      ensures c.Config(m) == Requested(configs)[m]
    {
      RequestedAt(c, configs, stimuli, numInputs, m);
    }
    forall j | 0 <= j < |stimuli|
      ensures c.Inputs(j) == LsbFirst(stimuli[j], 4)
    {
      StimulusFrom(c, configs, stimuli, numInputs, j);
    }
    forall m, j | 0 <= m < |configs| && 0 <= j < |stimuli|
      ensures c.Usable(m, j)
    {
      FreshUsable(c, v, h, clocks, order, configs, stimuli, numInputs, m, j);
    }
  }

  /** From the random numbers to the number: the D-metric printed for a campaign on fresh files is
      that of the faults which its own random configurations inject, counted over its own random
      stimuli, in the lists the script puts them into; and the loop can run it. */
  lemma NumbersToMetric(c: Campaign, v: Variant, h: Hardware, clocks: (nat, nat) -> Clocks, order: Schedule,
                        configs: seq<int>, stimuli: seq<int>, numInputs: nat, cases: nat, inputs: nat, noInputs: nat)
    requires FromFreshFiles(c, configs, stimuli, numInputs) && 4 <= numInputs <= 16 && configs != []
    requires h.Valid() && AllValid(TestList(c, clocks, |configs|, |stimuli|))
    requires InStep(v, h, TestList(c, clocks, |configs|, |stimuli|), order)
    requires AnsweredBy(c, v, h, clocks, order, |configs|, |stimuli|)
    ensures ResultFile.Analysis(Text(c, |configs|, |stimuli|), cases, inputs, noInputs) ==
            if EndsBefore(|configs|) < cases then DMetric.Failure(DMetric.IndexError)
            else
              var w := Mapping(|configs|, cases);
              if cases > 1 && Short(Requested(configs), w, |stimuli|, inputs) then DMetric.Failure(DMetric.IndexError)
              else DMetric.Metric(FaultCounts(c, v, order, w, |stimuli|, inputs), noInputs)
    ensures RunsNumbers(c, configs, stimuli)
  {
    FreshRun(c, v, h, clocks, order, configs, stimuli, numInputs);
    FreshCampaign(c, configs, stimuli, numInputs);
    FaultMetric(c, v, h, clocks, order, Requested(configs), |stimuli|, cases, inputs, noInputs);
  }
}
