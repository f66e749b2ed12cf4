/** Two concrete campaigns whose result files the script misreads. */
module Misread {
  import opened Bits
  import opened TextFiles
  import opened Driver
  import opened DMetric
  import opened ResultFile
  import opened Printout
  import opened Labels
  import opened Grouping
  import opened Scoring

  // ---------------------------------------------------------------- one stimulus, one detection

  ghost predicate Plain(cfgs: seq<string>) {
    forall m :: 0 <= m < |cfgs| ==> |cfgs[m]| == 16 && Binary(cfgs[m])
  }

  function ConfigFile(cfgs: seq<string>): (lines: seq<string>)
    ensures |lines| == |cfgs| && forall m :: 0 <= m < |cfgs| ==> lines[m] == cfgs[m] + "\n"
  {
    seq(|cfgs|, m requires 0 <= m < |cfgs| => cfgs[m] + "\n")
  }

  /** A device whose two outputs change in one row only. */
  function Trial(cfgs: seq<string>, detected: nat): Campaign {
    Campaign(Unlines(ConfigFile(cfgs)), Unlines(["0000\n"]), (m: nat, j: nat) => if m == detected then 3 else 0)
  }

  lemma TrialConfig(cfgs: seq<string>, detected: nat, m: nat)
    requires Plain(cfgs) && m < |cfgs|
    ensures Trial(cfgs, detected).ConfigLine(m) == cfgs[m] + "\n"
  {
    var lines := ConfigFile(cfgs);
    forall i | 0 <= i < |cfgs|
      ensures IsLine(lines[i])
    {
      assert lines[i][..16] == cfgs[i];
    }
    WrittenLines(lines);
  }

  lemma OneStimulus(cfgs: seq<string>, detected: nat)
    ensures Trial(cfgs, detected).Inputs(0) == "0000"
  {
    assert "0000\n"[..4] == "0000" && IsLine("0000\n");
    WrittenLines(["0000\n"]);
  }

  lemma TrialUses(cfgs: seq<string>, detected: nat)
    requires Plain(cfgs)
    ensures Uses(Trial(cfgs, detected), cfgs, 1)
  {
    forall m | 0 <= m < |cfgs|
      ensures Trial(cfgs, detected).ConfigLine(m) == cfgs[m] + "\n"
    {
      TrialConfig(cfgs, detected, m);
    }
    forall j | 0 <= j < 1
      ensures Binary(Trial(cfgs, detected).Inputs(j))
    {
      OneStimulus(cfgs, detected);
    }
  }

  lemma TrialAnswers(cfgs: seq<string>, detected: nat, m: nat)
    requires detected > 0
    ensures JointlyDetected(Trial(cfgs, detected), m, 0) <==> m == detected
  {
    assert Pow2(1) == 2 && Pow2(0) == 1;
    assert Bit(3, 0) && Bit(3, 1) && !Bit(0, 0) && !Bit(0, 1);
  }

  lemma OneDetection(cfgs: seq<string>, detected: nat, m: nat)
    requires detected > 0
    ensures CountTrue(Detections(Trial(cfgs, detected), m, 1)) == if m == detected then 1 else 0
  {
    TrialAnswers(cfgs, detected, m);
    assert Detections(Trial(cfgs, detected), m, 1)[..0] == [];
  }

  lemma NoneDetected(cfgs: seq<string>, detected: nat, w: seq<nat>, noInputs: nat)
    requires detected > 0 && w != [] && forall k :: 0 <= k < |w| ==> w[k] != detected
    ensures Metric(DetectionCounts(Trial(cfgs, detected), w, 1), noInputs) == Failure(NameError)
  {
    var hits := DetectionCounts(Trial(cfgs, detected), w, 1);
    forall k | 0 <= k < |hits|
      ensures hits[k] == 0
    {
      OneDetection(cfgs, detected, w[k + 1]);
    }
    AllZeros(hits);
  }

  /** Counted row by row, the detection in the last row gives a number. */
  lemma LastDetected(cfgs: seq<string>, cases: nat, noInputs: nat)
    requires cases > 1
    ensures Metric(DetectionCounts(Trial(cfgs, cases - 1), Range(cases), 1), noInputs).Success?
  {
    var hits := DetectionCounts(Trial(cfgs, cases - 1), Range(cases), 1);
    OneDetection(cfgs, cases - 1, Range(cases)[cases - 1]);
    assert hits[cases - 2] == 1 && hits[..cases - 1] == hits;
  }

  /** If no label's first row is the detected one, the script stops without a number. */
  lemma NeverRead(cfgs: seq<string>, detected: nat, noInputs: nat)
    requires Plain(cfgs) && cfgs != [] && detected > 0 && EndsBefore(|cfgs|) >= |cfgs|
    requires forall k :: 0 <= k < |cfgs| ==> FirstRows(cfgs, Mapping(|cfgs|, |cfgs|))[k] != detected
    ensures Analysis(Text(Trial(cfgs, detected), |cfgs|, 1), |cfgs|, 1, noInputs) == Failure(NameError)
  {
    var c, w := Trial(cfgs, detected), Mapping(|cfgs|, |cfgs|);
    TrialUses(cfgs, detected);
    EndToEndMetric(c, cfgs, 1, |cfgs|, 1, noInputs);
    GoldenFirst(|cfgs|, |cfgs|);
    FirstRowsRead(c, cfgs, w, 1, 1);
    NoneDetected(cfgs, detected, FirstRows(cfgs, w), noInputs);
  }

  // ---------------------------------------------------------------- twelve configurations

  /** Twelve different configurations. */
  function Twelve(): (cfgs: seq<string>)
    ensures |cfgs| == 12 && Plain(cfgs)
  {
    seq(12, m requires 0 <= m < 12 => LsbFirst(m, 16))
  }

  lemma NumberBack(n: nat)
    requires n < 12
    ensures Value(Reverse(LsbFirst(n, 16))) == n
  {
    LsbFirstValue(n, 16);
    Pow2Constants();
    SmallRemainder(n, Pow2(16));
  }

  lemma SmallRemainder(n: nat, d: nat)
    requires n < d
    ensures n % d == n
  {
  }

  lemma TwelveDiffer()
    ensures AllDifferent(Twelve())
  {
    forall i, k | 0 <= i < k < 12
      ensures Twelve()[i] != Twelve()[k]
    {
      NumberBack(i);
      NumberBack(k);
    }
  }

  /** No label is that of row 11. */
  lemma ElevenNotLabel(rows: nat, k: nat)
    requires k < rows == 12 && EndsBefore(rows) >= rows
    ensures Mapping(rows, rows)[k] != 11
  {
    MappingShape(rows, rows);
  }

  /** The script, set to exactly these twelve, never looks at the one configuration that is detected
      and stops without a number; the metric of the rows themselves exists. */
  lemma TwelveMisread(cfgs: seq<string>, noInputs: nat)
    requires cfgs == Twelve()
    ensures |cfgs| == 12 && Uses(Trial(cfgs, 11), cfgs, 1)
    ensures Analysis(Text(Trial(cfgs, 11), |cfgs|, 1), |cfgs|, 1, noInputs) == Failure(NameError)
    ensures Metric(DetectionCounts(Trial(cfgs, 11), Range(|cfgs|), 1), noInputs).Success?
  {
    TrialUses(cfgs, 11);
    EndsBeforeLong(|cfgs|);
    TwelveDiffer();
    forall k | 0 <= k < |cfgs|
      ensures FirstRows(cfgs, Mapping(|cfgs|, |cfgs|))[k] != 11
    {
      ElevenNotLabel(|cfgs|, k);
      FirstIsOwn(cfgs, Mapping(|cfgs|, |cfgs|)[k]);
    }
    NeverRead(cfgs, 11, noInputs);
    LastDetected(cfgs, |cfgs|, noInputs);
  }

  // ---------------------------------------------------------------- three, two of them equal

  /** The golden configuration, and another one twice. */
  function Three(): (cfgs: seq<string>)
    ensures |cfgs| == 3 && Plain(cfgs) && cfgs[1] == cfgs[2] != cfgs[0]
  {
    var golden, other := "1111111111111111", "0000000000000000";
    assert golden[0] != other[0];
    [golden, other, other]
  }

  /** Both lists of the repeated configuration hold the results of both rows. */
  lemma BothRows(cfgs: seq<string>)
    requires cfgs == Three()
    ensures TestsOf(cfgs, cfgs[1], |cfgs|, 1) == TestsOf(cfgs, cfgs[2], |cfgs|, 1) == [(1, 0), (2, 0)]
  {
    NoTests(cfgs, cfgs[1], 1, 1);
    assert TestsOf(cfgs, cfgs[1], 2, 1) == [] + RowTests(1, 1);
    assert TestsOf(cfgs, cfgs[1], 3, 1) == TestsOf(cfgs, cfgs[1], 2, 1) + RowTests(2, 1);
  }

  lemma SecondNotFirst(cfgs: seq<string>, m: nat)
    requires cfgs == Three() && m < |cfgs|
    ensures FirstRow(cfgs, cfgs[m]) < 2
  {
  }

  /** Two equal configurations are enough: the script reads the first row's results in both lists, so
      the detection in the second row is lost and there is no number. */
  lemma TwinsMisread(cfgs: seq<string>, noInputs: nat)
    requires cfgs == Three()
    ensures |cfgs| == 3 && Uses(Trial(cfgs, 2), cfgs, 1)
    ensures TestsOf(cfgs, cfgs[1], |cfgs|, 1) == TestsOf(cfgs, cfgs[2], |cfgs|, 1) == [(1, 0), (2, 0)]
    ensures Analysis(Text(Trial(cfgs, 2), |cfgs|, 1), |cfgs|, 1, noInputs) == Failure(NameError)
    ensures Metric(DetectionCounts(Trial(cfgs, 2), Range(|cfgs|), 1), noInputs).Success?
  {
    TrialUses(cfgs, 2);
    EndsBeforeLong(|cfgs|);
    BothRows(cfgs);
    forall k | 0 <= k < |cfgs|
      ensures FirstRows(cfgs, Mapping(|cfgs|, |cfgs|))[k] != 2
    {
      SecondNotFirst(cfgs, Mapping(|cfgs|, |cfgs|)[k]);
    }
    NeverRead(cfgs, 2, noInputs);
    LastDetected(cfgs, |cfgs|, noInputs);
  }
}
