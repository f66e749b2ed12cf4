/** How the script groups the results of a printed campaign under any list of labels. */
module Grouping {
  import opened TextFiles
  import opened PythonText
  import opened Driver
  import opened DMetric
  import opened ResultFile
  import opened Printout

  // ---------------------------------------------------------------- result lists by label

  /** What the list of a label gains, for each of the two designs. */
  type Gain = (string, nat) -> seq<string>

  /** The lists after the first `n` of them gained what their labels bring. */
  function ExtendFirst(r: Results, labels: seq<string>, gain: Gain, n: nat): (r': Results)
    requires |r.test1| == |r.test2| == |labels|
    ensures |r'.test1| == |r'.test2| == |labels|
  {
    Results(r.golden1 + (if n > 0 && labels != [] then gain(labels[0], 1) else []),
            r.golden2 + (if n > 0 && labels != [] then gain(labels[0], 2) else []),
            seq(|labels|, i requires 0 <= i < |labels| =>
              if 0 < i < n then r.test1[i] + gain(labels[i], 1) else r.test1[i]),
            seq(|labels|, i requires 0 <= i < |labels| =>
              if 0 < i < n then r.test2[i] + gain(labels[i], 2) else r.test2[i]))
  }

  function Extend(r: Results, labels: seq<string>, gain: Gain): (r': Results)
    requires |r.test1| == |r.test2| == |labels|
    ensures |r'.test1| == |r'.test2| == |labels|
  {
    ExtendFirst(r, labels, gain, |labels|)
  }

  lemma Associate<T>(a: seq<T>, b: seq<T>, c: seq<T>)
    ensures a + (b + c) == a + b + c
  {
  }

  /** The gains of `g` come after those of `f`. */
  ghost predicate Follows(f: Gain, g: Gain, sum: Gain) {
    forall name, dut :: sum(name, dut) == f(name, dut) + g(name, dut)
  }

  /** Two gains, one after the other, are one. */
  lemma ExtendTwice(r: Results, labels: seq<string>, f: Gain, g: Gain, sum: Gain)
    requires |r.test1| == |r.test2| == |labels| && Follows(f, g, sum)
    ensures Extend(Extend(r, labels, f), labels, g) == Extend(r, labels, sum)
  {
    var one, two, all := Extend(r, labels, f), Extend(Extend(r, labels, f), labels, g), Extend(r, labels, sum);
    if labels != [] {
      Associate(r.golden1, f(labels[0], 1), g(labels[0], 1));
      Associate(r.golden2, f(labels[0], 2), g(labels[0], 2));
    }
    forall i | 0 <= i < |labels|
      ensures two.test1[i] == all.test1[i] && two.test2[i] == all.test2[i]
    {
      Associate(r.test1[i], f(labels[i], 1), g(labels[i], 1));
      Associate(r.test2[i], f(labels[i], 2), g(labels[i], 2));
    }
  }

  lemma ExtendNothing(r: Results, labels: seq<string>, gain: Gain)
    requires |r.test1| == |r.test2| == |labels| && forall name, dut :: gain(name, dut) == []
    ensures Extend(r, labels, gain) == r
  {
    var r' := Extend(r, labels, gain);
    assert labels != [] ==> gain(labels[0], 1) == [] && gain(labels[0], 2) == [];
    assert r'.golden1 == r.golden1 && r'.golden2 == r.golden2;
    forall i | 0 <= i < |labels|
      ensures r'.test1[i] == r.test1[i] && r'.test2[i] == r.test2[i]
    {
      assert gain(labels[i], 1) == [] && gain(labels[i], 2) == [];
    }
    assert r'.test1 == r.test1 && r'.test2 == r.test2;
  }

  // ---------------------------------------------------------------- the results of a campaign

  /** The result character of a design in test (m, j). */
  function PrintedResult(c: Campaign, m: nat, j: nat, dut: nat): (r: char)
    ensures r == '0' || r == '1'
  {
    if dut == 1 then Driver.Results(c.outputs(m, j)).0 else Driver.Results(c.outputs(m, j)).1
  }

  /** The results of some tests, given by row and stimulus. */
  function ResultsOf(c: Campaign, tests: seq<(nat, nat)>, dut: nat): (r: seq<string>)
    ensures |r| == |tests|
  {
    seq(|tests|, k requires 0 <= k < |tests| => [PrintedResult(c, tests[k].0, tests[k].1, dut)])
  }

  lemma ResultsAppend(c: Campaign, a: seq<(nat, nat)>, b: seq<(nat, nat)>, dut: nat)
    ensures ResultsOf(c, a + b, dut) == ResultsOf(c, a, dut) + ResultsOf(c, b, dut)
  {
  }

  function RowTests(m: nat, tests: nat): (r: seq<(nat, nat)>)
    ensures |r| == tests && forall j :: 0 <= j < tests ==> r[j] == (m, j)
  {
    seq(tests, j requires 0 <= j < tests => (m, j))
  }

  /** All tests of the rows with one configuration, row after row. */
  function TestsOf(cfgs: seq<string>, cfg: string, rows: nat, tests: nat): seq<(nat, nat)>
    requires rows <= |cfgs|
  {
    if rows == 0 then []
    else TestsOf(cfgs, cfg, rows - 1, tests) + if cfgs[rows - 1] == cfg then RowTests(rows - 1, tests) else []
  }

  function OneGain(c: Campaign, m: nat, j: nat, cfg: string): Gain {
    (name: string, dut: nat) => if name == cfg then [[PrintedResult(c, m, j, dut)]] else []
  }

  function RowGain(c: Campaign, m: nat, tests: nat, cfg: string): Gain {
    (name: string, dut: nat) => if name == cfg then ResultsOf(c, RowTests(m, tests), dut) else []
  }

  /** The list of a label gains the results of every row with that configuration. */
  function CampaignGain(c: Campaign, cfgs: seq<string>, rows: nat, tests: nat): Gain
    requires rows <= |cfgs|
  {
    (name: string, dut: nat) => ResultsOf(c, TestsOf(cfgs, name, rows, tests), dut)
  }

  lemma OneMoreTest(c: Campaign, m: nat, t: nat, cfg: string)
    ensures Follows(RowGain(c, m, t, cfg), OneGain(c, m, t, cfg), RowGain(c, m, t + 1, cfg))
  {
    forall name, dut
      ensures RowGain(c, m, t + 1, cfg)(name, dut) ==
              RowGain(c, m, t, cfg)(name, dut) + OneGain(c, m, t, cfg)(name, dut)
    {
      assert ResultsOf(c, RowTests(m, t + 1), dut) ==
             ResultsOf(c, RowTests(m, t), dut) + [[PrintedResult(c, m, t, dut)]];
    }
  }

  lemma OneMoreRow(c: Campaign, cfgs: seq<string>, m: nat, tests: nat)
    requires m < |cfgs|
    ensures Follows(CampaignGain(c, cfgs, m, tests), RowGain(c, m, tests, cfgs[m]), CampaignGain(c, cfgs, m + 1, tests))
  {
    forall name, dut
      ensures CampaignGain(c, cfgs, m + 1, tests)(name, dut) ==
              CampaignGain(c, cfgs, m, tests)(name, dut) + RowGain(c, m, tests, cfgs[m])(name, dut)
    {
      RowAdds(c, cfgs, name, m, tests, dut);
    }
  }

  lemma RowAdds(c: Campaign, cfgs: seq<string>, name: string, m: nat, tests: nat, dut: nat)
    requires m < |cfgs|
    ensures ResultsOf(c, TestsOf(cfgs, name, m + 1, tests), dut) ==
            ResultsOf(c, TestsOf(cfgs, name, m, tests), dut)
            + if name == cfgs[m] then ResultsOf(c, RowTests(m, tests), dut) else []
  {
    var before := TestsOf(cfgs, name, m, tests);
    if name == cfgs[m] {
      ResultsAppend(c, before, RowTests(m, tests), dut);
    } else {
      assert TestsOf(cfgs, name, m + 1, tests) == before;
      assert ResultsOf(c, before, dut) + [] == ResultsOf(c, before, dut);
    }
  }

  // ---------------------------------------------------------------- line by line

  /** The script's first labels are these: '0'/'1' strings as long as the configurations. */
  ghost predicate Names(b: seq<string>, labels: seq<string>, width: nat) {
    labels <= b && forall i :: 0 <= i < |labels| ==> Binary(labels[i]) && |labels[i]| == width
  }

  lemma NoResultInLine(r: Results, b: seq<string>, line: string, i: nat, cases: nat)
    requires |r.test1| == |r.test2| == cases <= |b| && ',' !in line
    ensures GroupLine(r, b, line, i, cases) == Success(r)
    decreases cases - i
  {
    if i < cases {
      ContainsChar(line, "," + b[i], ',');
      NoResultInLine(r, b, line, i + 1, cases);
    }
  }

  /** Among the labels, a result line of configuration m contains that of m only. */
  lemma ConfigFound(c: Campaign, m: nat, j: nat, cfg: string, b: string)
    requires Binary(cfg) && Binary(b) && |b| == |cfg| > 4 && Binary(c.Inputs(j))
    ensures Contains(ResultLine(c, m, j, cfg), "," + b) <==> b == cfg
  {
    var f := ResultFields(c, m, j, cfg);
    FieldsClean(c, m, j, cfg);
    ContainsField(f, b, ',');
    assert b[0] != 'D';
    assert b <= cfg + "\n" <==> b == cfg by {
      assert (cfg + "\n")[..|b|] == cfg;
    }
    assert StartsField(f, b) <==> b <= f[6] by {
      assert !(b <= f[1]) && !(b <= f[2]) && !(b <= f[3]) && !(b <= f[4]) && !(b <= f[5]);
    }
  }

  /** What a result line holds, column by column. */
  lemma ResultColumns(c: Campaign, m: nat, j: nat, cfg: string)
    requires Binary(cfg) && Binary(c.Inputs(j)) && cfg != []
    ensures var f := Split(ResultLine(c, m, j, cfg), ',');
            && |f| == 7
            && f[0] == Decimal(j) && f[1] == "DUT_Result_1" && f[3] == "DUT_Result_2"
            && RStrip(f[2]) == [PrintedResult(c, m, j, 1)] && RStrip(f[4]) == [PrintedResult(c, m, j, 2)]
            && f[5] == c.Inputs(j) && RStrip(f[6]) == cfg
  {
    FieldsClean(c, m, j, cfg);
    SplitJoin(ResultFields(c, m, j, cfg), ',');
    assert cfg[|cfg| - 1] == '0' || cfg[|cfg| - 1] == '1';
    RStripLine(cfg);
  }

  lemma OneMoreList(r: Results, labels: seq<string>, c: Campaign, m: nat, j: nat, cfg: string, i: nat)
    requires |r.test1| == |r.test2| == |labels| && i < |labels|
    ensures var before := ExtendFirst(r, labels, OneGain(c, m, j, cfg), i);
            ExtendFirst(r, labels, OneGain(c, m, j, cfg), i + 1) ==
            if labels[i] == cfg
            then Add(before, i, [PrintedResult(c, m, j, 1)], [PrintedResult(c, m, j, 2)]) else before
  {
    OneMoreInto(r, labels, OneGain(c, m, j, cfg), i);
  }

  /** List i gains what its label brings, and no other list does. */
  lemma OneMoreInto(r: Results, labels: seq<string>, gain: Gain, i: nat)
    requires |r.test1| == |r.test2| == |labels| && i < |labels|
    ensures var before, after := ExtendFirst(r, labels, gain, i), ExtendFirst(r, labels, gain, i + 1);
            after == if i == 0
                     then before.(golden1 := before.golden1 + gain(labels[0], 1),
                                  golden2 := before.golden2 + gain(labels[0], 2))
                     else before.(test1 := before.test1[i := before.test1[i] + gain(labels[i], 1)],
                                  test2 := before.test2[i := before.test2[i] + gain(labels[i], 2)])
    ensures gain(labels[i], 1) == [] && gain(labels[i], 2) == [] ==>
              ExtendFirst(r, labels, gain, i + 1) == ExtendFirst(r, labels, gain, i)
  {
    var before, after := ExtendFirst(r, labels, gain, i), ExtendFirst(r, labels, gain, i + 1);
    forall k | 0 <= k < |labels| && k != i
      ensures after.test1[k] == before.test1[k] && after.test2[k] == before.test2[k]
    {
    }
    assert before.golden1 + [] == before.golden1 && before.golden2 + [] == before.golden2;
    assert before.test1[i] + [] == before.test1[i] && before.test2[i] + [] == before.test2[i];
    assert r.golden1 + [] == r.golden1 && r.golden2 + [] == r.golden2;
    if i == 0 {
      assert r.golden1 + [] + gain(labels[0], 1) == r.golden1 + gain(labels[0], 1);
      assert r.golden2 + [] + gain(labels[0], 2) == r.golden2 + gain(labels[0], 2);
      assert after.test1 == before.test1 && after.test2 == before.test2;
    } else {
      assert after.test1 == before.test1[i := before.test1[i] + gain(labels[i], 1)];
      assert after.test2 == before.test2[i := before.test2[i] + gain(labels[i], 2)];
    }
  }

  /** List i takes the result exactly if the line's configuration is its label. */
  lemma OneList(r: Results, b: seq<string>, labels: seq<string>, c: Campaign, m: nat, j: nat, cfg: string, i: nat)
    requires |r.test1| == |r.test2| == |labels| && Names(b, labels, |cfg|) && i < |labels|
    requires Binary(cfg) && |cfg| > 4 && Binary(c.Inputs(j))
    ensures var line, gain := ResultLine(c, m, j, cfg), OneGain(c, m, j, cfg);
            GroupLine(ExtendFirst(r, labels, gain, i), b, line, i, |labels|) ==
            GroupLine(ExtendFirst(r, labels, gain, i + 1), b, line, i + 1, |labels|)
  {
    assert b[i] == labels[i];
    ConfigFound(c, m, j, cfg, labels[i]);
    OneMoreList(r, labels, c, m, j, cfg, i);
    ResultColumns(c, m, j, cfg);
  }

  lemma ExtendNone(r: Results, labels: seq<string>, gain: Gain)
    requires |r.test1| == |r.test2| == |labels|
    ensures ExtendFirst(r, labels, gain, 0) == r
  {
    var r' := ExtendFirst(r, labels, gain, 0);
    assert r'.golden1 == r.golden1 && r'.golden2 == r.golden2;
    assert r'.test1 == r.test1 && r'.test2 == r.test2;
  }

  lemma ResultLineGroup(r: Results, b: seq<string>, labels: seq<string>, c: Campaign, m: nat, j: nat, cfg: string)
    requires |r.test1| == |r.test2| == |labels| && Names(b, labels, |cfg|)
    requires Binary(cfg) && |cfg| > 4 && Binary(c.Inputs(j))
    ensures GroupLine(r, b, ResultLine(c, m, j, cfg), 0, |labels|) ==
            Success(Extend(r, labels, OneGain(c, m, j, cfg)))
  {
    var line, gain := ResultLine(c, m, j, cfg), OneGain(c, m, j, cfg);
    ExtendNone(r, labels, gain);
    for i := 0 to |labels|
      invariant GroupLine(ExtendFirst(r, labels, gain, i), b, line, i, |labels|) ==
                GroupLine(r, b, line, 0, |labels|)
    {
      OneList(r, b, labels, c, m, j, cfg, i);
    }
  }

  lemma {:induction false} GroupAppend(r: Results, b: seq<string>, l1: seq<string>, l2: seq<string>, cases: nat)
    requires |r.test1| == |r.test2| == cases
    ensures var g := Group(r, b, l1, cases);
            Group(r, b, l1 + l2, cases) == if g.Failure? then g else Group(g.value, b, l2, cases)
    decreases |l1|
  {
    if l1 == [] {
      assert l1 + l2 == l2;
    } else {
      assert (l1 + l2)[0] == l1[0] && (l1 + l2)[1..] == l1[1..] + l2;
      var g := GroupLine(r, b, l1[0], 0, cases);
      if g.Success? {
        GroupAppend(g.value, b, l1[1..], l2, cases);
      }
    }
  }

  lemma GroupTwo(r: Results, b: seq<string>, first: string, second: string, cases: nat)
    requires |r.test1| == |r.test2| == cases
    ensures var g := GroupLine(r, b, first, 0, cases);
            Group(r, b, [first, second], cases) == if g.Failure? then g else GroupLine(g.value, b, second, 0, cases)
  {
    assert [first, second][1..] == [second];
    var g := GroupLine(r, b, first, 0, cases);
    if g.Success? {
      GroupOne(g.value, b, second, cases);
    }
  }

  lemma GroupOne(r: Results, b: seq<string>, line: string, cases: nat)
    requires |r.test1| == |r.test2| == cases
    ensures Group(r, b, [line], cases) == GroupLine(r, b, line, 0, cases)
  {
    assert [line][1..] == [];
  }

  lemma HeaderGroup(r: Results, b: seq<string>, c: Campaign, m: nat, cfg: string, cases: nat)
    requires |r.test1| == |r.test2| == cases <= |b| && Binary(cfg)
    ensures Group(r, b, RowLines(c, cfg, m, 0), cases) == Success(r)
  {
    var h := HeaderLine(m, cfg);
    assert ',' !in h && ',' !in RULE;
    NoResultInLine(r, b, "\n", 0, cases);
    NoResultInLine(r, b, h, 0, cases);
    NoResultInLine(r, b, RULE, 0, cases);
    GroupTwo(r, b, "\n", "\n", cases);
    GroupTwo(r, b, h, RULE, cases);
    GroupAppend(r, b, ["\n", "\n"], [h, RULE], cases);
    assert ["\n", "\n"] + [h, RULE] == RowLines(c, cfg, m, 0);
  }

  lemma TestGroup(r: Results, b: seq<string>, labels: seq<string>, c: Campaign, m: nat, j: nat, cfg: string)
    requires |r.test1| == |r.test2| == |labels| && Names(b, labels, |cfg|)
    requires Binary(cfg) && |cfg| > 4 && Binary(c.Inputs(j))
    ensures Group(r, b, [ResultLine(c, m, j, cfg), "\n"], |labels|) ==
            Success(Extend(r, labels, OneGain(c, m, j, cfg)))
  {
    var r' := Extend(r, labels, OneGain(c, m, j, cfg));
    ResultLineGroup(r, b, labels, c, m, j, cfg);
    NoResultInLine(r', b, "\n", 0, |labels|);
    GroupTwo(r, b, ResultLine(c, m, j, cfg), "\n", |labels|);
  }

  lemma RowGroup(r: Results, b: seq<string>, labels: seq<string>, c: Campaign, m: nat, tests: nat, cfg: string)
    requires |r.test1| == |r.test2| == |labels| && Names(b, labels, |cfg|)
    requires Binary(cfg) && |cfg| > 4 && forall j :: 0 <= j < tests ==> Binary(c.Inputs(j))
    ensures Group(r, b, RowLines(c, cfg, m, tests), |labels|) == Success(Extend(r, labels, RowGain(c, m, tests, cfg)))
  {
    HeaderGroup(r, b, c, m, cfg, |labels|);
    ExtendNothing(r, labels, RowGain(c, m, 0, cfg));
    for t := 0 to tests
      invariant Group(r, b, RowLines(c, cfg, m, t), |labels|) == Success(Extend(r, labels, RowGain(c, m, t, cfg)))
    {
      NextTest(r, b, labels, c, m, t, cfg);
    }
  }

  lemma NextTest(r: Results, b: seq<string>, labels: seq<string>, c: Campaign, m: nat, t: nat, cfg: string)
    requires |r.test1| == |r.test2| == |labels| && Names(b, labels, |cfg|)
    requires Binary(cfg) && |cfg| > 4 && Binary(c.Inputs(t))
    requires Group(r, b, RowLines(c, cfg, m, t), |labels|) == Success(Extend(r, labels, RowGain(c, m, t, cfg)))
    ensures Group(r, b, RowLines(c, cfg, m, t + 1), |labels|) == Success(Extend(r, labels, RowGain(c, m, t + 1, cfg)))
  {
    TestGroup(Extend(r, labels, RowGain(c, m, t, cfg)), b, labels, c, m, t, cfg);
    OneMoreTest(c, m, t, cfg);
    ExtendTwice(r, labels, RowGain(c, m, t, cfg), OneGain(c, m, t, cfg), RowGain(c, m, t + 1, cfg));
    GroupAppend(r, b, RowLines(c, cfg, m, t), [ResultLine(c, m, t, cfg), "\n"], |labels|);
  }

  /** The labels can be compared with the configurations of a campaign. */
  ghost predicate NamesFor(b: seq<string>, labels: seq<string>, cfgs: seq<string>) {
    cfgs != [] ==> Names(b, labels, |cfgs[0]|)
  }

  /** After the first `m` rows the lists have gained their results. */
  ghost predicate Grouped(r: Results, b: seq<string>, labels: seq<string>, c: Campaign, cfgs: seq<string>,
                          m: nat, tests: nat)
    requires |r.test1| == |r.test2| == |labels| && m <= |cfgs|
  {
    Group(r, b, FileLines(c, cfgs, m, tests), |labels|) == Success(Extend(r, labels, CampaignGain(c, cfgs, m, tests)))
  }

  /** From any lists and under any labels, the printed campaign adds to each list the results of all
      rows with that configuration. */
  lemma CampaignGroup(r: Results, b: seq<string>, labels: seq<string>, c: Campaign, cfgs: seq<string>, tests: nat)
    requires |r.test1| == |r.test2| == |labels| && Uses(c, cfgs, tests) && NamesFor(b, labels, cfgs)
    ensures Grouped(r, b, labels, c, cfgs, |cfgs|, tests)
  {
    NoRows(r, b, labels, c, cfgs, tests);
    AllRows(r, b, labels, c, cfgs, tests);
  }

  lemma AllRows(r: Results, b: seq<string>, labels: seq<string>, c: Campaign, cfgs: seq<string>, tests: nat)
    requires |r.test1| == |r.test2| == |labels| && Uses(c, cfgs, tests) && NamesFor(b, labels, cfgs)
    requires Grouped(r, b, labels, c, cfgs, 0, tests)
    ensures Grouped(r, b, labels, c, cfgs, |cfgs|, tests)
  {
    for m := 0 to |cfgs|
      invariant Grouped(r, b, labels, c, cfgs, m, tests)
    {
      NextRow(r, b, labels, c, cfgs, m, tests);
    }
  }

  lemma NoRows(r: Results, b: seq<string>, labels: seq<string>, c: Campaign, cfgs: seq<string>, tests: nat)
    requires |r.test1| == |r.test2| == |labels|
    ensures Grouped(r, b, labels, c, cfgs, 0, tests)
  {
    ExtendNothing(r, labels, CampaignGain(c, cfgs, 0, tests));
  }

  lemma NextRow(r: Results, b: seq<string>, labels: seq<string>, c: Campaign, cfgs: seq<string>, m: nat, tests: nat)
    requires |r.test1| == |r.test2| == |labels| && Uses(c, cfgs, tests) && NamesFor(b, labels, cfgs) && m < |cfgs|
    requires Grouped(r, b, labels, c, cfgs, m, tests)
    ensures Grouped(r, b, labels, c, cfgs, m + 1, tests)
  {
    RowGroup(Extend(r, labels, CampaignGain(c, cfgs, m, tests)), b, labels, c, m, tests, cfgs[m]);
    OneMoreRow(c, cfgs, m, tests);
    ExtendTwice(r, labels, CampaignGain(c, cfgs, m, tests), RowGain(c, m, tests, cfgs[m]),
                CampaignGain(c, cfgs, m + 1, tests));
    GroupAppend(r, b, FileLines(c, cfgs, m, tests), RowLines(c, cfgs[m], m, tests), |labels|);
  }

  /** With fewer labels than lists the first line already stops the script. */
  lemma {:induction false} TooFewLabels(r: Results, b: seq<string>, line: string, i: nat, cases: nat)
    requires |r.test1| == |r.test2| == cases && i <= |b| < cases
    ensures GroupLine(r, b, line, i, cases) == Failure(IndexError)
    decreases cases - i
  {
    if i < |b| {
      if Contains(line, "," + b[i]) {
        var f := Split(line, ',');
        if |f| > 4 {
          TooFewLabels(Add(r, i, RStrip(f[2]), RStrip(f[4])), b, line, i + 1, cases);
        }
      } else {
        TooFewLabels(r, b, line, i + 1, cases);
      }
    }
  }

  // ---------------------------------------------------------------- any line at all

  /** The line is a result of the configuration of list k. */
  ghost predicate Found(b: seq<string>, line: string, k: nat)
    requires k < |b|
  {
    Contains(line, "," + b[k])
  }

  /** What the grouping of one line does, whatever the line: an index error exactly when a label is missing
      or a configuration is found in a line of fewer than five columns. */
  lemma {:induction false} LineErrorExactly(r: Results, b: seq<string>, line: string, i: nat, cases: nat)
    requires |r.test1| == |r.test2| == cases && i <= cases
    ensures var g := GroupLine(r, b, line, i, cases);
            && (g.Failure? <==>
                (i < cases && |b| < cases) ||
                (|Split(line, ',')| < 5 && exists k: nat :: i <= k < cases && k < |b| && Found(b, line, k)))
            && (g.Failure? ==> g.error == IndexError)
    decreases cases - i
  {
    if i < cases && i < |b| {
      var f := Split(line, ',');
      if Contains(line, "," + b[i]) {
        assert Found(b, line, i);
        if |f| > 4 {
          LineErrorExactly(Add(r, i, RStrip(f[2]), RStrip(f[4])), b, line, i + 1, cases);
        }
      } else {
        LineErrorExactly(r, b, line, i + 1, cases);
        assert !Found(b, line, i);
      }
    }
  }

  /** List k of a design; list 0 is the golden one. */
  function ListOf(r: Results, k: nat, dut: nat): seq<string>
    requires |r.test1| == |r.test2| && k < |r.test1|
  {
    if dut == 1 then (if k == 0 then r.golden1 else r.test1[k]) else (if k == 0 then r.golden2 else r.test2[k])
  }

  lemma AddedTo(r: Results, i: nat, v1: string, v2: string, k: nat, dut: nat)
    requires |r.test1| == |r.test2| && i < |r.test1| && k < |r.test1|
    ensures ListOf(Add(r, i, v1, v2), k, dut) ==
            ListOf(r, k, dut) + if k == i then [if dut == 1 then v1 else v2] else []
  {
    assert ListOf(r, k, dut) + [] == ListOf(r, k, dut);
  }

  /** The gain of list k from a line: its third column for design 1 and its fifth for design 2, if the
      configuration is found in it. */
  lemma {:induction false} LineGain(r: Results, b: seq<string>, line: string, i: nat, cases: nat, k: nat, dut: nat)
    requires |r.test1| == |r.test2| == cases <= |b| && i <= cases && k < cases
    requires GroupLine(r, b, line, i, cases).Success?
    ensures var found := k >= i && Found(b, line, k);
            && (found ==> |Split(line, ',')| > 4)
            && ListOf(GroupLine(r, b, line, i, cases).value, k, dut) ==
               ListOf(r, k, dut) + if found then [RStrip(Split(line, ',')[if dut == 1 then 2 else 4])] else []
    decreases cases - i
  {
    assert ListOf(r, k, dut) + [] == ListOf(r, k, dut);
    if i < cases {
      if Found(b, line, i) {
        var f := Split(line, ',');
        var v1, v2 := RStrip(f[2]), RStrip(f[4]);
        var r' := Add(r, i, v1, v2);
        LineGain(r', b, line, i + 1, cases, k, dut);
        AddedTo(r, i, v1, v2, k, dut);
        assert ListOf(r', k, dut) + [] == ListOf(r', k, dut);
      } else {
        LineGain(r, b, line, i + 1, cases, k, dut);
      }
    }
  }
}
