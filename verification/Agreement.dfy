/** What the host program prints and what the script makes of it: the results it groups under each
    label, and the number it computes from them. */
module Agreement {
  import opened TextFiles
  import opened Driver
  import opened DMetric
  import opened ResultFile
  import opened Printout
  import opened Labels
  import opened Grouping

  // ---------------------------------------------------------------- logs of any number of campaigns

  /** A campaign that was run: its configurations, and how many stimuli each of them got. */
  datatype Session = Session(c: Campaign, cfgs: seq<string>, tests: nat)

  /** The result file is only ever appended to. */
  function LogText(ss: seq<Session>): string {
    if ss == [] then ""
    else var s := ss[|ss| - 1]; LogText(ss[..|ss| - 1]) + Text(s.c, |s.cfgs|, s.tests)
  }

  function LogLines(ss: seq<Session>): seq<string> {
    if ss == [] then []
    else var s := ss[|ss| - 1]; LogLines(ss[..|ss| - 1]) + FileLines(s.c, s.cfgs, |s.cfgs|, s.tests)
  }

  /** All configurations in the log have the same length. */
  ghost predicate Readable(ss: seq<Session>, width: nat) {
    forall s :: s in ss ==> Uses(s.c, s.cfgs, s.tests) && forall m :: 0 <= m < |s.cfgs| ==> |s.cfgs[m]| == width
  }

  lemma {:induction false} LogWritten(ss: seq<Session>, width: nat)
    requires Readable(ss, width)
    ensures LogText(ss) == Unlines(LogLines(ss)) && forall l :: l in LogLines(ss) ==> IsLine(l)
    decreases |ss|
  {
    if ss != [] {
      var init, s := ss[..|ss| - 1], ss[|ss| - 1];
      assert s in ss;
      LogWritten(init, width);
      TextLines(s.c, s.cfgs, |s.cfgs|, s.tests);
      FileLinesAreLines(s.c, s.cfgs, |s.cfgs|, s.tests);
      UnlinesAppend(LogLines(init), FileLines(s.c, s.cfgs, |s.cfgs|, s.tests));
    }
  }

  lemma LogSplit(ss: seq<Session>, width: nat)
    requires Readable(ss, width)
    ensures Lines(LogText(ss)) == LogLines(ss)
  {
    LogWritten(ss, width);
    WrittenLines(LogLines(ss));
  }

  /** The labels that are read from a log: those of the campaigns, one after the other. */
  function LogLabels(ss: seq<Session>, cases: nat): seq<string> {
    if ss == [] then []
    else var s := ss[|ss| - 1]; LogLabels(ss[..|ss| - 1], cases) + Pick(s.cfgs, LabelOrder(|s.cfgs|, cases))
  }

  lemma {:induction false} LabelsOfLog(ss: seq<Session>, width: nat, cases: nat)
    requires Readable(ss, width)
    ensures LabelsIn([], LogLines(ss), cases) == Success(LogLabels(ss, cases))
    ensures forall b :: b in LogLabels(ss, cases) ==> Binary(b) && |b| == width
    decreases |ss|
  {
    if ss != [] {
      var init, s := ss[..|ss| - 1], ss[|ss| - 1];
      assert s in ss;
      LabelsOfLog(init, width, cases);
      FileLabels(LogLabels(init, cases), s.c, s.cfgs, s.tests, cases);
      LabelsAppend([], LogLines(init), FileLines(s.c, s.cfgs, |s.cfgs|, s.tests), cases);
    }
  }

  /** The results in a log of all rows with one configuration, in order. */
  function LogList(ss: seq<Session>, name: string, dut: nat): seq<string> {
    if ss == [] then []
    else
      var s := ss[|ss| - 1];
      LogList(ss[..|ss| - 1], name, dut) + CampaignGain(s.c, s.cfgs, |s.cfgs|, s.tests)(name, dut)
  }

  function LogGain(ss: seq<Session>): Gain {
    (name: string, dut: nat) => LogList(ss, name, dut)
  }

  lemma {:induction false} LogGroup(ss: seq<Session>, width: nat, b: seq<string>, labels: seq<string>)
    requires Readable(ss, width) && Names(b, labels, width)
    ensures Group(NoResults(|labels|), b, LogLines(ss), |labels|) ==
            Success(Extend(NoResults(|labels|), labels, LogGain(ss)))
    decreases |ss|
  {
    var r := NoResults(|labels|);
    if ss == [] {
      ExtendNothing(r, labels, LogGain([]));
    } else {
      LogGroup(ss[..|ss| - 1], width, b, labels);
      NextSession(ss, width, b, labels);
    }
  }

  lemma NextSession(ss: seq<Session>, width: nat, b: seq<string>, labels: seq<string>)
    requires ss != [] && Readable(ss, width) && Names(b, labels, width)
    requires Group(NoResults(|labels|), b, LogLines(ss[..|ss| - 1]), |labels|) ==
             Success(Extend(NoResults(|labels|), labels, LogGain(ss[..|ss| - 1])))
    ensures Group(NoResults(|labels|), b, LogLines(ss), |labels|) ==
            Success(Extend(NoResults(|labels|), labels, LogGain(ss)))
  {
    var r, init, s := NoResults(|labels|), ss[..|ss| - 1], ss[|ss| - 1];
    var gain := CampaignGain(s.c, s.cfgs, |s.cfgs|, s.tests);
    assert s in ss;
    CampaignGroup(Extend(r, labels, LogGain(init)), b, labels, s.c, s.cfgs, s.tests);
    GroupAppend(r, b, LogLines(init), FileLines(s.c, s.cfgs, |s.cfgs|, s.tests), |labels|);
    LogGainStep(ss);
    ExtendTwice(r, labels, LogGain(init), gain, LogGain(ss));
  }

  lemma LogGainStep(ss: seq<Session>)
    requires ss != []
    ensures var s := ss[|ss| - 1];
            Follows(LogGain(ss[..|ss| - 1]), CampaignGain(s.c, s.cfgs, |s.cfgs|, s.tests), LogGain(ss))
  {
  }

  /** The result lists under the given labels; list 0 is the golden one. */
  function Lists(labels: seq<string>, gain: Gain): (r: Results)
    ensures |r.test1| == |r.test2| == |labels|
  {
    Results(if labels == [] then [] else gain(labels[0], 1),
            if labels == [] then [] else gain(labels[0], 2),
            seq(|labels|, i requires 0 <= i < |labels| => if i == 0 then [] else gain(labels[i], 1)),
            seq(|labels|, i requires 0 <= i < |labels| => if i == 0 then [] else gain(labels[i], 2)))
  }

  lemma ExtendEmpty(labels: seq<string>, gain: Gain)
    ensures Extend(NoResults(|labels|), labels, gain) == Lists(labels, gain)
  {
    var r, l := Extend(NoResults(|labels|), labels, gain), Lists(labels, gain);
    assert r.golden1 == l.golden1 && r.golden2 == l.golden2;
    forall i | 0 <= i < |labels|
      ensures r.test1[i] == l.test1[i] && r.test2[i] == l.test2[i]
    {
    }
    assert r.test1 == l.test1 && r.test2 == l.test2;
  }

  /** The grouping of a log of any number of campaigns: an index error exactly when there is a line
      but not a label for every list; otherwise list i gets the results of all rows, in all
      campaigns, whose configuration is label i. */
  lemma LogGroupedExactly(ss: seq<Session>, width: nat, cases: nat)
    requires Readable(ss, width)
    ensures var lines, b := Lines(LogText(ss)), LogLabels(ss, cases);
            && LabelsIn([], lines, cases) == Success(b)
            && Group(NoResults(cases), b, lines, cases) ==
               if lines == [] then Success(NoResults(cases))
               else if |b| < cases then Failure(IndexError)
               else Success(Lists(b[..cases], LogGain(ss)))
  {
    LogSplit(ss, width);
    LabelsOfLog(ss, width, cases);
    if LogLines(ss) != [] && |LogLabels(ss, cases)| < cases {
      TooFewLabelsInLog(LogLabels(ss, cases), LogLines(ss), cases);
    } else if LogLines(ss) != [] {
      EnoughLabelsInLog(ss, width, cases);
    }
  }

  lemma TooFewLabelsInLog(b: seq<string>, lines: seq<string>, cases: nat)
    requires lines != [] && |b| < cases
    ensures Group(NoResults(cases), b, lines, cases) == Failure(IndexError)
  {
    TooFewLabels(NoResults(cases), b, lines[0], 0, cases);
  }

  lemma FirstNames(b: seq<string>, width: nat, cases: nat)
    requires cases <= |b| && forall name :: name in b ==> Binary(name) && |name| == width
    ensures Names(b, b[..cases], width)
  {
  }

  lemma EnoughLabelsInLog(ss: seq<Session>, width: nat, cases: nat)
    requires Readable(ss, width) && |LogLabels(ss, cases)| >= cases
    ensures var b := LogLabels(ss, cases);
            Group(NoResults(cases), b, LogLines(ss), cases) == Success(Lists(b[..cases], LogGain(ss)))
  {
    var b := LogLabels(ss, cases);
    LabelsOfLog(ss, width, cases);
    FirstNames(b, width, cases);
    LogGroup(ss, width, b, b[..cases]);
    ExtendEmpty(b[..cases], LogGain(ss));
  }

  lemma {:induction false} LogListLengths(ss: seq<Session>, name: string)
    ensures |LogList(ss, name, 1)| == |LogList(ss, name, 2)|
    decreases |ss|
  {
    if ss != [] {
      LogListLengths(ss[..|ss| - 1], name);
    }
  }

  /** Some list has fewer results than the script asks for. */
  ghost predicate ShortList(labels: seq<string>, gain: Gain, inputs: nat) {
    exists i :: 0 <= i < |labels| && |gain(labels[i], 1)| < inputs
  }

  lemma CompleteExactly(labels: seq<string>, gain: Gain, inputs: nat)
    requires forall name :: |gain(name, 1)| == |gain(name, 2)|
    ensures Lists(labels, gain).Paired(|labels|)
    ensures Lists(labels, gain).Complete(|labels|, inputs) <==> |labels| <= 1 || !ShortList(labels, gain, inputs)
  {
    var r := Lists(labels, gain);
    if |labels| > 1 && r.Complete(|labels|, inputs) {
      forall i | 0 <= i < |labels|
        ensures |gain(labels[i], 1)| >= inputs
      {
        assert i > 0 ==> r.test1[i] == gain(labels[i], 1);
      }
    }
  }

  /** The number for a log of any number of campaigns. */
  lemma LogMetric(ss: seq<Session>, width: nat, cases: nat, inputs: nat, noInputs: nat)
    requires Readable(ss, width) && LogLines(ss) != []
    ensures var b, d := LogLabels(ss, cases), Analysis(LogText(ss), cases, inputs, noInputs);
            if |b| < cases || (cases > 1 && ShortList(b[..cases], LogGain(ss), inputs)) then d == Failure(IndexError)
            else
              var r := Lists(b[..cases], LogGain(ss));
              r.Complete(cases, inputs) && d == Metric(r.Hits(cases, inputs), noInputs)
  {
    LogSplit(ss, width);
    LogGroupedExactly(ss, width, cases);
    if |LogLabels(ss, cases)| >= cases {
      forall name
        ensures |LogGain(ss)(name, 1)| == |LogGain(ss)(name, 2)|
      {
        LogListLengths(ss, name);
      }
      CompleteExactly(LogLabels(ss, cases)[..cases], LogGain(ss), inputs);
    }
  }

  // ---------------------------------------------------------------- the first campaign in a log

  lemma {:induction false} FirstLabels(ss: seq<Session>, cases: nat)
    requires ss != []
    ensures LogLabels(ss[..1], cases) <= LogLabels(ss, cases)
    decreases |ss|
  {
    if |ss| == 1 {
      assert ss[..1] == ss;
    } else {
      FirstLabels(ss[..|ss| - 1], cases);
      assert ss[..|ss| - 1][..1] == ss[..1];
    }
  }

  lemma {:induction false} FirstList(ss: seq<Session>, name: string, dut: nat)
    requires ss != []
    ensures LogList(ss[..1], name, dut) <= LogList(ss, name, dut)
    decreases |ss|
  {
    if |ss| == 1 {
      assert ss[..1] == ss;
    } else {
      FirstList(ss[..|ss| - 1], name, dut);
      assert ss[..|ss| - 1][..1] == ss[..1];
    }
  }

  lemma {:induction false} FirstLines(ss: seq<Session>)
    requires ss != []
    ensures LogLines(ss[..1]) <= LogLines(ss)
    decreases |ss|
  {
    if |ss| == 1 {
      assert ss[..1] == ss;
    } else {
      FirstLines(ss[..|ss| - 1]);
      assert ss[..|ss| - 1][..1] == ss[..1];
    }
  }

  /** Longer lists do not change what their first `inputs` results say. */
  lemma SameHits(labels: seq<string>, f: Gain, g: Gain, inputs: nat)
    requires Grows(f, g)
    requires Lists(labels, f).Complete(|labels|, inputs) && Lists(labels, g).Complete(|labels|, inputs)
    ensures Lists(labels, g).Hits(|labels|, inputs) == Lists(labels, f).Hits(|labels|, inputs)
  {
    var r, r' := Lists(labels, f), Lists(labels, g);
    forall k | 1 <= k < |labels|
      ensures r'.Flags(|labels|, inputs, k) == r.Flags(|labels|, inputs, k)
    {
      SameFlags(labels, f, g, inputs, k);
    }
  }

  lemma SameFlags(labels: seq<string>, f: Gain, g: Gain, inputs: nat, k: nat)
    requires Grows(f, g)
    requires Lists(labels, f).Complete(|labels|, inputs) && Lists(labels, g).Complete(|labels|, inputs)
    requires 1 <= k < |labels|
    ensures Lists(labels, g).Flags(|labels|, inputs, k) == Lists(labels, f).Flags(|labels|, inputs, k)
  {
    var r, r' := Lists(labels, f), Lists(labels, g);
    assert r.golden1 <= r'.golden1 && r.golden2 <= r'.golden2;
    assert r.test1[k] <= r'.test1[k] && r.test2[k] <= r'.test2[k];
    forall j | 0 <= j < inputs
      ensures r'.Joint(|labels|, k, j) == r.Joint(|labels|, k, j)
    {
    }
  }

  /** The first campaign in a log gives the script all its labels and as many stimuli as it asks for. */
  predicate Served(s: Session, cases: nat, inputs: nat) {
    s.cfgs != [] && EndsBefore(|s.cfgs|) >= cases && inputs <= s.tests
  }

  /** A campaign that is run again without emptying the result file is not read: the number is that of
      the first campaign alone, whatever was logged after it. */
  lemma FirstCampaignOnly(ss: seq<Session>, width: nat, cases: nat, inputs: nat, noInputs: nat)
    requires Readable(ss, width) && ss != [] && Served(ss[0], cases, inputs)
    ensures Analysis(LogText(ss), cases, inputs, noInputs) ==
            Analysis(Text(ss[0].c, |ss[0].cfgs|, ss[0].tests), cases, inputs, noInputs)
  {
    var first, labels := ss[..1], LogLabels(ss[..1], cases);
    assert first == [ss[0]];
    OneSession(ss[0], cases, "", 1);
    SameLabels(ss, cases);
    LongEnough(ss[0], cases, inputs);
    GainsGrow(ss);
    StillLong(labels[..cases], LogGain(first), LogGain(ss), inputs);
    LogMetric(first, width, cases, inputs, noInputs);
    LogMetric(ss, width, cases, inputs, noInputs);
    SameHits(labels[..cases], LogGain(first), LogGain(ss), inputs);
  }

  lemma HasLines(s: Session)
    requires s.cfgs != []
    ensures LogLines([s]) != []
  {
    OneSession(s, 0, "", 1);
    FileNotEmpty(s.c, s.cfgs, |s.cfgs|, s.tests);
  }

  lemma HasLabels(s: Session, cases: nat)
    requires EndsBefore(|s.cfgs|) >= cases
    ensures |LogLabels([s], cases)| >= cases
    ensures forall name :: name in LogLabels([s], cases) ==> name in s.cfgs
  {
    OneSession(s, cases, "", 1);
    EnoughLabels(|s.cfgs|, cases);
  }

  lemma SameLabels(ss: seq<Session>, cases: nat)
    requires ss != [] && ss[0].cfgs != [] && EndsBefore(|ss[0].cfgs|) >= cases
    ensures LogLines(ss[..1]) != [] && LogLines(ss) != []
    ensures cases <= |LogLabels(ss[..1], cases)| <= |LogLabels(ss, cases)|
    ensures LogLabels(ss, cases)[..cases] == LogLabels(ss[..1], cases)[..cases]
  {
    assert ss[..1] == [ss[0]];
    HasLines(ss[0]);
    HasLabels(ss[0], cases);
    FirstLines(ss);
    FirstLabels(ss, cases);
    SamePrefix(LogLabels(ss[..1], cases), LogLabels(ss, cases), cases);
  }

  lemma SamePrefix<T>(a: seq<T>, b: seq<T>, n: nat)
    requires a <= b && n <= |a|
    ensures b[..n] == a[..n]
  {
  }

  lemma LongEnough(s: Session, cases: nat, inputs: nat)
    requires Served(s, cases, inputs) && |LogLabels([s], cases)| >= cases
    ensures !ShortList(LogLabels([s], cases)[..cases], LogGain([s]), inputs)
  {
    HasLabels(s, cases);
    var labels := LogLabels([s], cases);
    forall i | 0 <= i < cases
      ensures |LogGain([s])(labels[..cases][i], 1)| >= inputs
    {
      assert labels[i] in s.cfgs;
      var m :| 0 <= m < |s.cfgs| && s.cfgs[m] == labels[i];
      ListLong(s, m);
    }
  }

  lemma ListLong(s: Session, m: nat)
    requires m < |s.cfgs|
    ensures |LogGain([s])(s.cfgs[m], 1)| >= s.tests
  {
    OneSession(s, 0, s.cfgs[m], 1);
    RowInList(s.cfgs, m, |s.cfgs|, s.tests);
  }

  lemma {:induction false} RowInList(cfgs: seq<string>, m: nat, rows: nat, tests: nat)
    requires m < rows <= |cfgs|
    ensures |TestsOf(cfgs, cfgs[m], rows, tests)| >= tests
  {
    if m < rows - 1 {
      RowInList(cfgs, m, rows - 1, tests);
    }
  }

  /** Each gain starts with that of the other. */
  ghost predicate Grows(f: Gain, g: Gain) {
    forall name, dut :: f(name, dut) <= g(name, dut)
  }

  lemma GainsGrow(ss: seq<Session>)
    requires ss != []
    ensures Grows(LogGain(ss[..1]), LogGain(ss))
  {
    forall name, dut
      ensures LogGain(ss[..1])(name, dut) <= LogGain(ss)(name, dut)
    {
      FirstList(ss, name, dut);
    }
  }

  lemma StillLong(labels: seq<string>, f: Gain, g: Gain, inputs: nat)
    requires Grows(f, g)
    ensures ShortList(labels, g, inputs) ==> ShortList(labels, f, inputs)
  {
    if ShortList(labels, g, inputs) {
      var i :| 0 <= i < |labels| && |g(labels[i], 1)| < inputs;
      assert f(labels[i], 1) <= g(labels[i], 1);
    }
  }

  lemma OneSession(s: Session, cases: nat, name: string, dut: nat)
    ensures LogText([s]) == Text(s.c, |s.cfgs|, s.tests)
    ensures LogLines([s]) == FileLines(s.c, s.cfgs, |s.cfgs|, s.tests)
    ensures LogLabels([s], cases) == Pick(s.cfgs, LabelOrder(|s.cfgs|, cases))
    ensures LogList([s], name, dut) == CampaignGain(s.c, s.cfgs, |s.cfgs|, s.tests)(name, dut)
  {
    assert [s][..0] == [];
  }

  lemma {:induction false} RowNotEmpty(c: Campaign, cfg: string, m: nat, tests: nat)
    ensures RowLines(c, cfg, m, tests) != []
  {
  }

  lemma FileNotEmpty(c: Campaign, cfgs: seq<string>, rows: nat, tests: nat)
    requires 0 < rows <= |cfgs|
    ensures FileLines(c, cfgs, rows, tests) != []
  {
    RowNotEmpty(c, cfgs[rows - 1], rows - 1, tests);
  }
}
