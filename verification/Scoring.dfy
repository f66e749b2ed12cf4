/** The number the script computes from the log of one campaign: which results each of its lists holds,
    and what is counted. */
module Scoring {
  import opened TextFiles
  import opened Driver
  import opened DMetric
  import opened ResultFile
  import opened Printout
  import opened Labels
  import opened Grouping
  import opened Agreement

  // ---------------------------------------------------------------- which results end up where

  /** The row whose configuration is the label of each list, if there is a label for every list. */
  function Mapping(rows: nat, cases: nat): (w: seq<nat>)
    requires EndsBefore(rows) >= cases
    ensures |w| == cases && forall i :: 0 <= i < cases ==> w[i] < rows
  {
    EnoughLabels(rows, cases);
    LabelOrder(rows, cases)[..cases]
  }

  /** Every list is labelled with its own row's configuration exactly when the script is set to at most
      eleven, and to no more than there are; otherwise, from twelve on, list 11 has that of row 10. */
  lemma MappingShape(rows: nat, cases: nat)
    requires EndsBefore(rows) >= cases
    ensures Mapping(rows, cases) == Range(cases) <==> cases <= 11 && cases <= rows
    ensures forall i :: 0 <= i < cases && i < rows && i < 11 ==> Mapping(rows, cases)[i] == i
    ensures rows > 10 && cases > 11 ==> Mapping(rows, cases)[11] == 10
  {
    EnoughLabels(rows, cases);
    if cases <= rows {
      OrderShape(cases, cases);
      OrderPrefix(LabelCount(cases), cases, rows);
      PrefixShape(LabelOrder(cases, cases), LabelOrder(rows, cases), cases, cases);
    } else {
      OrderShape(rows, cases);
      PrefixShape(LabelOrder(rows, cases), LabelOrder(rows, cases), rows, cases);
    }
  }

  lemma PrefixShape(o: seq<nat>, all: seq<nat>, rows: nat, cases: nat)
    requires InOrder(o, rows) && o <= all && rows <= cases <= |all|
    requires rows < cases ==> all[rows] < rows
    ensures all[..cases] == Range(cases) <==> cases <= 11 && cases == rows
    ensures forall i :: 0 <= i < rows && i < 11 ==> all[..cases][i] == i
    ensures rows > 10 && cases > 11 ==> all[..cases][11] == 10
  {
    var w := all[..cases];
    assert forall i :: 0 <= i < |o| && i < cases ==> w[i] == o[i];
    if rows < cases {
      assert w[rows] != Range(cases)[rows];
    } else if cases <= 11 {
      assert w == Range(cases);
    } else {
      assert w[11] == 10 && Range(cases)[11] == 11;
    }
  }

  /** A row labels some list exactly when the headers before its own have fewer labels than there
      are lists. */
  lemma LabelsSome(rows: nat, cases: nat, m: nat)
    requires EndsBefore(rows) >= cases && m < rows
    ensures m in Mapping(rows, cases) <==> EndsBefore(m) < cases
  {
    var count := LabelCount(cases);
    EnoughLabels(rows, cases);
    EnoughLabels(m, cases);
    if EndsBefore(m) < cases {
      EndsBeforeLong(m);
      EveryoneFound(cases);
      OrderFirst(count, m, rows);
      assert Mapping(rows, cases)[|Order(count, m)|] == m;
    } else if m in Mapping(rows, cases) {
      var i :| 0 <= i < cases && Mapping(rows, cases)[i] == m;
      OrderBefore(count, m, rows, i);
      assert false;
    }
  }

  lemma GoldenFirst(rows: nat, cases: nat)
    requires EndsBefore(rows) >= cases > 0
    ensures Mapping(rows, cases)[0] == 0
  {
    EnoughLabels(rows, cases);
    EveryoneFound(cases);
    OrderFirst(LabelCount(cases), 0, rows);
  }

  lemma {:induction false} EndsMonotone(a: nat, b: nat)
    requires a <= b
    ensures EndsBefore(a) <= EndsBefore(b)
  {
    if a < b {
      EndsMonotone(a, b - 1);
    }
  }

  /** The labels of the script's lists. */
  function LabelsFor(cfgs: seq<string>, cases: nat): (labels: seq<string>)
    requires EndsBefore(|cfgs|) >= cases
    ensures |labels| == cases && forall i :: 0 <= i < cases ==> labels[i] == cfgs[Mapping(|cfgs|, cases)[i]]
  {
    Pick(cfgs, Mapping(|cfgs|, cases))
  }

  /** Whatever numbers of configurations the campaign has and the script is set to, and however often
      a configuration is repeated, the grouping of the printed file stops with an index error exactly
      when there are fewer labels than lists; otherwise list i gets exactly the two result characters
      of every test of every row whose configuration is that of row Mapping(i), in order. */
  lemma GroupingExactly(c: Campaign, cfgs: seq<string>, tests: nat, cases: nat)
    requires Uses(c, cfgs, tests) && cfgs != []
    ensures var lines := Lines(Text(c, |cfgs|, tests));
            var b := LabelsIn([], lines, cases);
            && b.Success?
            && Group(NoResults(cases), b.value, lines, cases) ==
               if EndsBefore(|cfgs|) < cases then Failure(IndexError)
               else Success(Lists(LabelsFor(cfgs, cases), CampaignGain(c, cfgs, |cfgs|, tests)))
  {
    PrintedLines(c, cfgs, tests);
    LabelsExactly(c, cfgs, tests, cases);
    EnoughLabels(|cfgs|, cases);
    var b := Pick(cfgs, LabelOrder(|cfgs|, cases));
    if EndsBefore(|cfgs|) < cases {
      FileNotEmpty(c, cfgs, |cfgs|, tests);
      TooFewLabelsInLog(b, FileLines(c, cfgs, |cfgs|, tests), cases);
    } else {
      LabelledGroup(c, cfgs, tests, b, LabelsFor(cfgs, cases));
    }
  }

  lemma LabelledGroup(c: Campaign, cfgs: seq<string>, tests: nat, b: seq<string>, labels: seq<string>)
    requires Uses(c, cfgs, tests) && labels <= b && forall i :: 0 <= i < |labels| ==> labels[i] in cfgs
    ensures Group(NoResults(|labels|), b, FileLines(c, cfgs, |cfgs|, tests), |labels|) ==
            Success(Lists(labels, CampaignGain(c, cfgs, |cfgs|, tests)))
  {
    CampaignGroup(NoResults(|labels|), b, labels, c, cfgs, tests);
    ExtendEmpty(labels, CampaignGain(c, cfgs, |cfgs|, tests));
  }

  // ---------------------------------------------------------------- repeated configurations

  /** No other row has the configuration of row k. */
  ghost predicate Alone(cfgs: seq<string>, k: nat)
    requires k < |cfgs|
  {
    forall m :: 0 <= m < |cfgs| && m != k ==> cfgs[m] != cfgs[k]
  }

  function Twins(cfgs: seq<string>, cfg: string, rows: nat): nat
    requires rows <= |cfgs|
  {
    if rows == 0 then 0 else Twins(cfgs, cfg, rows - 1) + if cfgs[rows - 1] == cfg then 1 else 0
  }

  lemma {:induction false} ListLength(cfgs: seq<string>, cfg: string, rows: nat, tests: nat)
    requires rows <= |cfgs|
    ensures |TestsOf(cfgs, cfg, rows, tests)| == tests * Twins(cfgs, cfg, rows)
  {
    if rows > 0 {
      ListLength(cfgs, cfg, rows - 1, tests);
      TimesNext(tests, Twins(cfgs, cfg, rows - 1));
    }
  }

  lemma TimesNext(a: nat, b: nat)
    ensures a * (b + 1) == a * b + a
  {
  }

  /** Every entry of a list is a test of a row with that configuration. */
  lemma {:induction false} EntryRow(cfgs: seq<string>, cfg: string, rows: nat, tests: nat, j: nat)
    requires rows <= |cfgs| && j < |TestsOf(cfgs, cfg, rows, tests)|
    ensures var p := TestsOf(cfgs, cfg, rows, tests)[j]; p.0 < rows && cfgs[p.0] == cfg && p.1 < tests
  {
    var before := TestsOf(cfgs, cfg, rows - 1, tests);
    if j < |before| {
      EntryRow(cfgs, cfg, rows - 1, tests, j);
    } else {
      assert TestsOf(cfgs, cfg, rows, tests)[j] == RowTests(rows - 1, tests)[j - |before|];
    }
  }

  /** Entry j of a list is of stimulus j, or of its remainder when the list holds several rows. */
  lemma {:induction false} EntryStimulus(cfgs: seq<string>, cfg: string, rows: nat, tests: nat, j: nat)
    requires rows <= |cfgs| && tests > 0 && j < |TestsOf(cfgs, cfg, rows, tests)|
    ensures TestsOf(cfgs, cfg, rows, tests)[j].1 == j % tests
  {
    var before := TestsOf(cfgs, cfg, rows - 1, tests);
    if j < |before| {
      EntryStimulus(cfgs, cfg, rows - 1, tests, j);
    } else {
      ListLength(cfgs, cfg, rows - 1, tests);
      Bits.QuotientUnique(j, tests, Twins(cfgs, cfg, rows - 1), j - |before|);
      assert TestsOf(cfgs, cfg, rows, tests)[j] == RowTests(rows - 1, tests)[j - |before|];
    }
  }

  lemma {:induction false} NoTests(cfgs: seq<string>, cfg: string, rows: nat, tests: nat)
    requires rows <= |cfgs| && forall m :: 0 <= m < rows ==> cfgs[m] != cfg
    ensures TestsOf(cfgs, cfg, rows, tests) == []
  {
    if rows > 0 {
      NoTests(cfgs, cfg, rows - 1, tests);
    }
  }

  lemma {:induction false} OwnTests(cfgs: seq<string>, k: nat, rows: nat, tests: nat)
    requires k < rows <= |cfgs| && Alone(cfgs, k)
    ensures TestsOf(cfgs, cfgs[k], rows, tests) == RowTests(k, tests)
  {
    if k < rows - 1 {
      OwnTests(cfgs, k, rows - 1, tests);
    } else {
      NoTests(cfgs, cfgs[k], k, tests);
    }
  }

  lemma {:induction false} TwoRows(cfgs: seq<string>, k: nat, m: nat, rows: nat, tests: nat)
    requires k < m < rows <= |cfgs| && cfgs[m] == cfgs[k]
    ensures |TestsOf(cfgs, cfgs[k], rows, tests)| >= tests + tests
  {
    if m < rows - 1 {
      TwoRows(cfgs, k, m, rows - 1, tests);
    } else {
      RowInList(cfgs, k, m, tests);
    }
  }

  /** The list of a configuration holds the results of its own row alone exactly when no other row has
      the same configuration (or nothing was tested). */
  lemma OwnResultsExactly(cfgs: seq<string>, k: nat, tests: nat)
    requires k < |cfgs|
    ensures TestsOf(cfgs, cfgs[k], |cfgs|, tests) == RowTests(k, tests) <==> tests == 0 || Alone(cfgs, k)
  {
    if tests == 0 {
      ListLength(cfgs, cfgs[k], |cfgs|, 0);
    } else if Alone(cfgs, k) {
      OwnTests(cfgs, k, |cfgs|, tests);
    } else {
      var m :| 0 <= m < |cfgs| && m != k && cfgs[m] == cfgs[k];
      TwoRows(cfgs, if k < m then k else m, if k < m then m else k, |cfgs|, tests);
    }
  }

  /** List i holds the results of row i alone, for every i, exactly when the script is set to at most
      eleven lists, all of them rows of the campaign, and no other row repeats one of theirs. */
  lemma OwnListsExactly(cfgs: seq<string>, cases: nat, tests: nat)
    requires EndsBefore(|cfgs|) >= cases && tests > 0
    ensures (forall i :: 0 <= i < cases ==>
               TestsOf(cfgs, LabelsFor(cfgs, cases)[i], |cfgs|, tests) == RowTests(i, tests)) <==>
            cases <= 11 && cases <= |cfgs| && forall i :: 0 <= i < cases ==> Alone(cfgs, i)
  {
    var labels, w := LabelsFor(cfgs, cases), Mapping(|cfgs|, cases);
    MappingShape(|cfgs|, cases);
    if forall i :: 0 <= i < cases ==> TestsOf(cfgs, labels[i], |cfgs|, tests) == RowTests(i, tests) {
      forall i | 0 <= i < cases
        ensures i < |cfgs| && Alone(cfgs, i) && w[i] == i
      {
        OwnList(cfgs, w[i], i, tests);
      }
      assert w == Range(cases);
    } else if cases <= 11 && cases <= |cfgs| && forall i :: 0 <= i < cases ==> Alone(cfgs, i) {
      forall i | 0 <= i < cases
        ensures TestsOf(cfgs, labels[i], |cfgs|, tests) == RowTests(i, tests)
      {
        assert w[i] == Range(cases)[i] == i;
        OwnResultsExactly(cfgs, i, tests);
      }
      assert false;
    }
  }

  lemma OwnList(cfgs: seq<string>, k: nat, i: nat, tests: nat)
    requires k < |cfgs| && tests > 0 && TestsOf(cfgs, cfgs[k], |cfgs|, tests) == RowTests(i, tests)
    ensures i < |cfgs| && Alone(cfgs, i) && k == i
  {
    EntryRow(cfgs, cfgs[k], |cfgs|, tests, 0);
    assert RowTests(i, tests)[0] == (i, 0);
    OwnResultsExactly(cfgs, i, tests);
  }

  /** The first row with a configuration. */
  function FirstRow(cfgs: seq<string>, cfg: string): (m: nat)
    requires cfg in cfgs
    ensures m < |cfgs| && cfgs[m] == cfg && forall k :: 0 <= k < m ==> cfgs[k] != cfg
  {
    if cfgs[0] == cfg then 0 else 1 + FirstRow(cfgs[1..], cfg)
  }

  lemma FirstIsOwn(cfgs: seq<string>, m: nat)
    requires m < |cfgs| && AllDifferent(cfgs)
    ensures FirstRow(cfgs, cfgs[m]) == m
  {
  }

  /** The results of a row are in some list exactly when the headers before the first row with the same
      configuration have fewer labels than there are lists. */
  lemma ScoredExactly(cfgs: seq<string>, cases: nat, m: nat)
    requires EndsBefore(|cfgs|) >= cases && m < |cfgs|
    ensures cfgs[m] in LabelsFor(cfgs, cases) <==> EndsBefore(FirstRow(cfgs, cfgs[m])) < cases
  {
    var f, w := FirstRow(cfgs, cfgs[m]), Mapping(|cfgs|, cases);
    LabelsSome(|cfgs|, cases, f);
    if cfgs[m] in LabelsFor(cfgs, cases) {
      var i :| 0 <= i < cases && LabelsFor(cfgs, cases)[i] == cfgs[m];
      LabelsSome(|cfgs|, cases, w[i]);
      EndsMonotone(f, w[i]);
    }
    if f in w {
      var i :| 0 <= i < cases && w[i] == f;
      assert LabelsFor(cfgs, cases)[i] == cfgs[m];
    }
  }

  // ---------------------------------------------------------------- from the answers to the number

  /** Both designs answered differently in two tests, the second of which they answered alike. */
  predicate JointlyAt(c: Campaign, test: (nat, nat), golden: (nat, nat)) {
    && PrintedResult(c, test.0, test.1, 1) != PrintedResult(c, golden.0, golden.1, 1)
    && PrintedResult(c, test.0, test.1, 2) != PrintedResult(c, golden.0, golden.1, 2)
    && PrintedResult(c, golden.0, golden.1, 1) == PrintedResult(c, golden.0, golden.1, 2)
  }

  /** Whether test (m, j) detects configuration m jointly, told from the device's answers. */
  predicate JointlyDetected(c: Campaign, m: nat, j: nat) {
    JointlyAt(c, (m, j), (0, j))
  }

  function Detections(c: Campaign, m: nat, inputs: nat): seq<bool> {
    seq(inputs, j requires 0 <= j < inputs => JointlyDetected(c, m, j))
  }

  /** The joint detections, by the first `inputs` stimuli, of the rows that label lists 1, 2, ... */
  function DetectionCounts(c: Campaign, w: seq<nat>, inputs: nat): (r: seq<nat>)
    ensures |r| == if w == [] then 0 else |w| - 1
  {
    seq(if w == [] then 0 else |w| - 1,
        k requires 0 <= k < |w| - 1 => CountTrue(Detections(c, w[k + 1], inputs)))
  }

  /** The first `inputs` entries of a list, compared with those of the golden one. */
  function ReadDetections(c: Campaign, list: seq<(nat, nat)>, golden: seq<(nat, nat)>, inputs: nat): seq<bool>
    requires inputs <= |list| && inputs <= |golden|
  {
    seq(inputs, j requires 0 <= j < inputs => JointlyAt(c, list[j], golden[j]))
  }

  /** The tests whose results a list holds. */
  function TestsIn(cfgs: seq<string>, w: seq<nat>, tests: nat, i: nat): seq<(nat, nat)>
    requires i < |w| && w[i] < |cfgs|
  {
    TestsOf(cfgs, cfgs[w[i]], |cfgs|, tests)
  }

  /** Some list is shorter than the script asks for. */
  ghost predicate Short(cfgs: seq<string>, w: seq<nat>, tests: nat, inputs: nat)
    requires forall i :: 0 <= i < |w| ==> w[i] < |cfgs|
  {
    exists i :: 0 <= i < |w| && |TestsIn(cfgs, w, tests, i)| < inputs
  }

  /** A list is as long as its configuration's rows have tests together. */
  lemma ShortExactly(cfgs: seq<string>, w: seq<nat>, tests: nat, inputs: nat)
    requires forall i :: 0 <= i < |w| ==> w[i] < |cfgs|
    ensures Short(cfgs, w, tests, inputs) <==>
            exists i :: 0 <= i < |w| && tests * Twins(cfgs, cfgs[w[i]], |cfgs|) < inputs
    ensures inputs <= tests ==> !Short(cfgs, w, tests, inputs)
  {
    forall i | 0 <= i < |w|
      ensures |TestsIn(cfgs, w, tests, i)| == tests * Twins(cfgs, cfgs[w[i]], |cfgs|) >= tests
    {
      ListLength(cfgs, cfgs[w[i]], |cfgs|, tests);
      RowInList(cfgs, w[i], |cfgs|, tests);
    }
  }

  ghost function ReadCounts(c: Campaign, cfgs: seq<string>, w: seq<nat>, tests: nat, inputs: nat): (r: seq<nat>)
    requires forall i :: 0 <= i < |w| ==> w[i] < |cfgs|
    requires |w| <= 1 || !Short(cfgs, w, tests, inputs)
    ensures |r| == if w == [] then 0 else |w| - 1
  {
    seq(if w == [] then 0 else |w| - 1, k requires 0 <= k < |w| - 1 =>
      LongLists(cfgs, w, tests, inputs, k + 1);
      CountTrue(ReadDetections(c, TestsIn(cfgs, w, tests, k + 1), TestsIn(cfgs, w, tests, 0), inputs)))
  }

  lemma LongLists(cfgs: seq<string>, w: seq<nat>, tests: nat, inputs: nat, i: nat)
    requires (forall k :: 0 <= k < |w| ==> w[k] < |cfgs|) && i < |w|
    requires !Short(cfgs, w, tests, inputs)
    ensures inputs <= |TestsIn(cfgs, w, tests, i)| && inputs <= |TestsIn(cfgs, w, tests, 0)|
  {
  }

  lemma SingleCharacters(a: char, b: char)
    ensures [a] == [b] <==> a == b
  {
    assert [a][0] == a && [b][0] == b;
  }

  lemma FlagsOfLists(c: Campaign, cfgs: seq<string>, w: seq<nat>, tests: nat, inputs: nat, k: nat)
    requires (forall i :: 0 <= i < |w| ==> w[i] < |cfgs|) && 1 <= k < |w|
    requires !Short(cfgs, w, tests, inputs)
    requires Lists(Pick(cfgs, w), CampaignGain(c, cfgs, |cfgs|, tests)).Complete(|w|, inputs)
    ensures inputs <= |TestsIn(cfgs, w, tests, k)| && inputs <= |TestsIn(cfgs, w, tests, 0)|
    ensures Lists(Pick(cfgs, w), CampaignGain(c, cfgs, |cfgs|, tests)).Flags(|w|, inputs, k) ==
            ReadDetections(c, TestsIn(cfgs, w, tests, k), TestsIn(cfgs, w, tests, 0), inputs)
  {
    var r := Lists(Pick(cfgs, w), CampaignGain(c, cfgs, |cfgs|, tests));
    var list, golden := TestsIn(cfgs, w, tests, k), TestsIn(cfgs, w, tests, 0);
    LongLists(cfgs, w, tests, inputs, k);
    forall j | 0 <= j < inputs
      ensures r.Joint(|w|, k, j) == JointlyAt(c, list[j], golden[j])
    {
      SingleCharacters(PrintedResult(c, list[j].0, list[j].1, 1), PrintedResult(c, golden[j].0, golden[j].1, 1));
      SingleCharacters(PrintedResult(c, list[j].0, list[j].1, 2), PrintedResult(c, golden[j].0, golden[j].1, 2));
      SingleCharacters(PrintedResult(c, golden[j].0, golden[j].1, 1), PrintedResult(c, golden[j].0, golden[j].1, 2));
    }
  }

  lemma HitsOfLists(c: Campaign, cfgs: seq<string>, w: seq<nat>, tests: nat, inputs: nat)
    requires forall i :: 0 <= i < |w| ==> w[i] < |cfgs|
    ensures var r := Lists(Pick(cfgs, w), CampaignGain(c, cfgs, |cfgs|, tests));
            && (r.Complete(|w|, inputs) <==> |w| <= 1 || !Short(cfgs, w, tests, inputs))
            && (r.Complete(|w|, inputs) ==> r.Hits(|w|, inputs) == ReadCounts(c, cfgs, w, tests, inputs))
  {
    var labels, gain := Pick(cfgs, w), CampaignGain(c, cfgs, |cfgs|, tests);
    CompleteExactly(labels, gain, inputs);
    SameShort(c, cfgs, w, tests, inputs);
    var r := Lists(labels, gain);
    if r.Complete(|w|, inputs) {
      forall k | 0 <= k < |w| - 1
        ensures r.Hits(|w|, inputs)[k] == ReadCounts(c, cfgs, w, tests, inputs)[k]
      {
        FlagsOfLists(c, cfgs, w, tests, inputs, k + 1);
      }
    }
  }

  lemma SameShort(c: Campaign, cfgs: seq<string>, w: seq<nat>, tests: nat, inputs: nat)
    requires forall i :: 0 <= i < |w| ==> w[i] < |cfgs|
    ensures ShortList(Pick(cfgs, w), CampaignGain(c, cfgs, |cfgs|, tests), inputs) <==> Short(cfgs, w, tests, inputs)
  {
    var labels, gain := Pick(cfgs, w), CampaignGain(c, cfgs, |cfgs|, tests);
    forall i | 0 <= i < |w|
      ensures |gain(labels[i], 1)| == |TestsIn(cfgs, w, tests, i)|
    {
    }
  }

  /** From the device's answers to the number, for any sizes of the campaign, any repetitions and any
      constants in the script: an index error exactly when there are fewer labels than lists or some
      list is shorter than the script asks for, and otherwise the metric of the detections in those
      lists. */
  lemma EndToEndMetric(c: Campaign, cfgs: seq<string>, tests: nat, cases: nat, inputs: nat, noInputs: nat)
    requires Uses(c, cfgs, tests) && cfgs != []
    ensures Analysis(Text(c, |cfgs|, tests), cases, inputs, noInputs) ==
            if EndsBefore(|cfgs|) < cases then Failure(IndexError)
            else
              var w := Mapping(|cfgs|, cases);
              if cases > 1 && Short(cfgs, w, tests, inputs) then Failure(IndexError)
              else Metric(ReadCounts(c, cfgs, w, tests, inputs), noInputs)
  {
    GroupingExactly(c, cfgs, tests, cases);
    if EndsBefore(|cfgs|) >= cases {
      HitsOfLists(c, cfgs, Mapping(|cfgs|, cases), tests, inputs);
    }
  }

  /** The first row with each label's configuration. */
  function FirstRows(cfgs: seq<string>, w: seq<nat>): (f: seq<nat>)
    requires forall i :: 0 <= i < |w| ==> w[i] < |cfgs|
    ensures |f| == |w|
  {
    seq(|w|, i requires 0 <= i < |w| => FirstRow(cfgs, cfgs[w[i]]))
  }

  lemma {:induction false} FirstTests(cfgs: seq<string>, cfg: string, rows: nat, tests: nat, j: nat)
    requires cfg in cfgs && FirstRow(cfgs, cfg) < rows <= |cfgs| && j < tests
    ensures j < |TestsOf(cfgs, cfg, rows, tests)| && TestsOf(cfgs, cfg, rows, tests)[j] == (FirstRow(cfgs, cfg), j)
  {
    if FirstRow(cfgs, cfg) < rows - 1 {
      FirstTests(cfgs, cfg, rows - 1, tests, j);
    } else {
      NoTests(cfgs, cfg, rows - 1, tests);
      assert RowTests(rows - 1, tests)[j] == (rows - 1, j);
    }
  }

  lemma FirstDetections(c: Campaign, cfgs: seq<string>, w: seq<nat>, tests: nat, inputs: nat, i: nat)
    requires (forall k :: 0 <= k < |w| ==> w[k] < |cfgs|) && i < |w| && w[0] == 0 && inputs <= tests
    ensures inputs <= |TestsIn(cfgs, w, tests, i)| && inputs <= |TestsIn(cfgs, w, tests, 0)|
    ensures ReadDetections(c, TestsIn(cfgs, w, tests, i), TestsIn(cfgs, w, tests, 0), inputs) ==
            Detections(c, FirstRow(cfgs, cfgs[w[i]]), inputs)
  {
    RowInList(cfgs, w[i], |cfgs|, tests);
    RowInList(cfgs, w[0], |cfgs|, tests);
    forall j | 0 <= j < inputs
      ensures TestsIn(cfgs, w, tests, i)[j] == (FirstRow(cfgs, cfgs[w[i]]), j)
      ensures TestsIn(cfgs, w, tests, 0)[j] == (0, j)
    {
      FirstTests(cfgs, cfgs[w[i]], |cfgs|, tests, j);
      FirstTests(cfgs, cfgs[0], |cfgs|, tests, j);
    }
  }

  /** As long as the script asks for no more stimuli than there were, only the first row with each
      configuration is looked at. */
  lemma FirstRowsRead(c: Campaign, cfgs: seq<string>, w: seq<nat>, tests: nat, inputs: nat)
    requires (forall i :: 0 <= i < |w| ==> w[i] < |cfgs|) && (w != [] ==> w[0] == 0) && inputs <= tests
    ensures !Short(cfgs, w, tests, inputs)
    ensures ReadCounts(c, cfgs, w, tests, inputs) == DetectionCounts(c, FirstRows(cfgs, w), inputs)
  {
    ShortExactly(cfgs, w, tests, inputs);
    forall k | 0 <= k < |w| - 1
      ensures ReadCounts(c, cfgs, w, tests, inputs)[k] == DetectionCounts(c, FirstRows(cfgs, w), inputs)[k]
    {
      FirstDetections(c, cfgs, w, tests, inputs, k + 1);
    }
  }

  /** An empty result file always ends in an error. */
  lemma EmptyFile(cases: nat, inputs: nat, noInputs: nat)
    ensures Analysis("", cases, inputs, noInputs) ==
            Failure(if cases > 1 && inputs > 0 then IndexError else NameError)
  {
    var r := NoResults(cases);
    if r.Complete(cases, inputs) {
      forall k | 0 <= k < cases - 1
        ensures r.Hits(cases, inputs)[k] == 0
      {
        assert r.Flags(cases, inputs, k + 1) == [];
      }
      AllZeros(r.Hits(cases, inputs));
    }
  }

  lemma {:induction false} AllZeros(hits: seq<nat>)
    requires forall k :: 0 <= k < |hits| ==> hits[k] == 0
    ensures Zeros(hits) == |hits|
  {
    if hits != [] {
      AllZeros(hits[..|hits| - 1]);
    }
  }
}
