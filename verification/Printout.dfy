/** The result file of a campaign, line by line. */
module Printout {
  import opened TextFiles
  import opened PythonText
  import opened Driver
  import opened ResultFile

  predicate Binary(s: string) {
    forall i :: 0 <= i < |s| ==> s[i] == '0' || s[i] == '1'
  }

  /** The campaign uses these configurations: '0'/'1' strings of one length, longer than the stimuli. */
  predicate Uses(c: Campaign, cfgs: seq<string>, tests: nat) {
    && (forall m :: 0 <= m < |cfgs| ==> c.ConfigLine(m) == cfgs[m] + "\n")
    && (forall m :: 0 <= m < |cfgs| ==> Binary(cfgs[m]) && |cfgs[m]| == |cfgs[0]| > 4)
    && (forall j :: 0 <= j < tests ==> Binary(c.Inputs(j)))
  }

  function HeaderLine(m: nat, cfg: string): string {
    Decimal(m) + TAG + cfg + "\n"
  }

  function ResultFields(c: Campaign, m: nat, j: nat, cfg: string): seq<string> {
    var v := Driver.Results(c.outputs(m, j));
    [Decimal(j), "DUT_Result_1", [v.0], "DUT_Result_2", [v.1], c.Inputs(j), cfg + "\n"]
  }

  function ResultLine(c: Campaign, m: nat, j: nat, cfg: string): string {
    Join(ResultFields(c, m, j, cfg), ',')
  }

  function RowLines(c: Campaign, cfg: string, m: nat, tests: nat): seq<string> {
    if tests == 0 then ["\n", "\n", HeaderLine(m, cfg), RULE]
    else RowLines(c, cfg, m, tests - 1) + [ResultLine(c, m, tests - 1, cfg), "\n"]
  }

  function FileLines(c: Campaign, cfgs: seq<string>, rows: nat, tests: nat): seq<string>
    requires rows <= |cfgs|
  {
    if rows == 0 then [] else FileLines(c, cfgs, rows - 1, tests) + RowLines(c, cfgs[rows - 1], rows - 1, tests)
  }

  lemma JoinFrom(f: seq<string>, i: nat)
    requires i + 1 < |f|
    ensures Join(f[i..], ',') == f[i] + "," + Join(f[i + 1..], ',')
  {
    assert f[i..][1..] == f[i + 1..];
  }

  lemma JoinThree(f: seq<string>, i: nat)
    requires i + 3 < |f|
    ensures Join(f[i..], ',') == f[i] + "," + f[i + 1] + "," + f[i + 2] + "," + Join(f[i + 3..], ',')
  {
    JoinFrom(f, i);
    JoinFrom(f, i + 1);
    JoinFrom(f, i + 2);
    FlatThree(f[i], f[i + 1], f[i + 2], Join(f[i + 3..], ','), ",");
  }

  lemma FlatThree(a: string, b: string, c: string, d: string, x: string)
    ensures a + x + (b + x + (c + x + d)) == a + x + b + x + c + x + d
  {
  }

  lemma JoinResult(f: seq<string>)
    requires |f| == 7
    ensures Join(f, ',') == f[0] + "," + f[1] + "," + f[2] + "," + f[3] + "," + f[4] + "," + f[5] + "," + f[6]
  {
    JoinThree(f, 0);
    JoinThree(f, 3);
    assert f[0..] == f && f[6..] == [f[6]];
    FlatTail(f[0] + "," + f[1] + "," + f[2], f[3], f[4], f[5], f[6], ",");
  }

  lemma FlatTail(a: string, b: string, c: string, d: string, e: string, x: string)
    ensures a + x + (b + x + c + x + d + x + e) == a + x + b + x + c + x + d + x + e
  {
  }

  lemma Regroup(a: string, b: string, c: string, d: string, e: string, f: string, g: string, x: string)
    ensures a + (x + b + x) + c + (x + d + x) + e + x + f + x + g
            == a + x + b + x + c + x + d + x + e + x + f + x + g
  {
  }

  lemma TestTextLines(c: Campaign, m: nat, j: nat, cfg: string)
    requires c.ConfigLine(m) == cfg + "\n"
    ensures TestText(c, m, j) == ResultLine(c, m, j, cfg) + "\n"
  {
    var f := ResultFields(c, m, j, cfg);
    JoinResult(f);
    Regroup(f[0], f[1], f[2], f[3], f[4], f[5], f[6], ",");
    assert ",DUT_Result_1," == "," + f[1] + ",";
    assert ",DUT_Result_2," == "," + f[3] + ",";
  }

  lemma HeaderTextLines(m: nat, cfg: string)
    ensures HeaderText(m, cfg + "\n") == Unlines(["\n", "\n", HeaderLine(m, cfg), RULE])
  {
    UnlinesAppend(["\n", "\n"], [HeaderLine(m, cfg), RULE]);
    UnlinesPair("\n", "\n");
    UnlinesPair(HeaderLine(m, cfg), RULE);
    assert ["\n", "\n", HeaderLine(m, cfg), RULE] == ["\n", "\n"] + [HeaderLine(m, cfg), RULE];
    HeaderGroup(Decimal(m), TAG, cfg, RULE);
  }

  lemma {:induction false} RowTextLines(c: Campaign, cfg: string, m: nat, tests: nat)
    requires c.ConfigLine(m) == cfg + "\n"
    ensures RowText(c, m, tests) == Unlines(RowLines(c, cfg, m, tests))
  {
    if tests == 0 {
      HeaderTextLines(m, cfg);
    } else {
      var line := ResultLine(c, m, tests - 1, cfg);
      RowTextLines(c, cfg, m, tests - 1);
      TestTextLines(c, m, tests - 1, cfg);
      UnlinesPair(line, "\n");
      UnlinesTogether(RowLines(c, cfg, m, tests - 1), [line, "\n"], RowText(c, m, tests - 1), line + "\n");
    }
  }

  lemma HeaderGroup(a: string, tag: string, cfg: string, rule: string)
    ensures "\n\n" + a + tag + (cfg + "\n") + rule == "\n" + "\n" + (a + tag + cfg + "\n" + rule)
  {
  }

  lemma UnlinesPair(a: string, b: string)
    ensures Unlines([a, b]) == a + b
  {
    assert [a, b][..1] == [a] && [a][..0] == [];
    assert Unlines([a]) == a;
  }

  lemma UnlinesTogether(a: seq<string>, b: seq<string>, textA: string, textB: string)
    requires textA == Unlines(a) && textB == Unlines(b)
    ensures textA + textB == Unlines(a + b)
  {
    UnlinesAppend(a, b);
  }

  lemma OneMoreRow(c: Campaign, cfgs: seq<string>, m: nat, tests: nat)
    requires m < |cfgs|
    ensures Text(c, m + 1, tests) == Text(c, m, tests) + RowText(c, m, tests)
    ensures FileLines(c, cfgs, m + 1, tests) == FileLines(c, cfgs, m, tests) + RowLines(c, cfgs[m], m, tests)
  {
  }

  lemma {:induction false} TextLines(c: Campaign, cfgs: seq<string>, rows: nat, tests: nat)
    requires rows <= |cfgs| && forall m :: 0 <= m < rows ==> c.ConfigLine(m) == cfgs[m] + "\n"
    ensures Text(c, rows, tests) == Unlines(FileLines(c, cfgs, rows, tests))
  {
    if rows > 0 {
      var m := rows - 1;
      TextLines(c, cfgs, m, tests);
      RowTextLines(c, cfgs[m], m, tests);
      UnlinesTogether(FileLines(c, cfgs, m, tests), RowLines(c, cfgs[m], m, tests),
                      Text(c, m, tests), RowText(c, m, tests));
      OneMoreRow(c, cfgs, m, tests);
    }
  }

  lemma FieldsClean(c: Campaign, m: nat, j: nat, cfg: string)
    requires Binary(cfg) && Binary(c.Inputs(j))
    ensures forall f :: f in ResultFields(c, m, j, cfg) ==> ',' !in f && ':' !in f
    ensures forall f :: f in ResultFields(c, m, j, cfg)[..6] ==> '\n' !in f
  {
    assert forall x :: x in cfg + "\n" ==> x in cfg || x == '\n';
  }

  lemma JoinedLine(init: seq<string>, cfg: string)
    requires '\n' !in cfg && forall g :: g in init ==> '\n' !in g
    ensures IsLine(Join(init + [cfg + "\n"], ','))
  {
    JoinLast(init, cfg, "\n", ',');
    JoinAvoids(init + [cfg], ',', '\n');
    var s := Join(init + [cfg], ',');
    assert (s + "\n")[..|s|] == s;
  }

  lemma ResultLineIsLine(c: Campaign, m: nat, j: nat, cfg: string)
    requires Binary(cfg) && Binary(c.Inputs(j))
    ensures IsLine(ResultLine(c, m, j, cfg))
    ensures ':' !in ResultLine(c, m, j, cfg)
  {
    var f := ResultFields(c, m, j, cfg);
    FieldsClean(c, m, j, cfg);
    assert f == f[..6] + [cfg + "\n"];
    JoinedLine(f[..6], cfg);
    JoinAvoids(f, ',', ':');
  }

  lemma {:induction false} RowLinesAreLines(c: Campaign, cfg: string, m: nat, tests: nat)
    requires Binary(cfg) && forall j :: 0 <= j < tests ==> Binary(c.Inputs(j))
    ensures forall l :: l in RowLines(c, cfg, m, tests) ==> IsLine(l)
  {
    if tests == 0 {
      HeaderIsLine(m, cfg);
    } else {
      RowLinesAreLines(c, cfg, m, tests - 1);
      ResultLineIsLine(c, m, tests - 1, cfg);
    }
  }

  lemma HeaderIsLine(m: nat, cfg: string)
    requires Binary(cfg)
    ensures IsLine(HeaderLine(m, cfg)) && IsLine(RULE) && IsLine("\n")
  {
    var s := HeaderLine(m, cfg);
    assert s[..|s| - 1] == Decimal(m) + TAG + cfg;
    assert '\n' !in Decimal(m) && '\n' !in TAG && '\n' !in cfg;
    assert '\n' !in DASHES && RULE[..|RULE| - 1] == DASHES;
  }

  lemma {:induction false} FileLinesAreLines(c: Campaign, cfgs: seq<string>, rows: nat, tests: nat)
    requires rows <= |cfgs| && Uses(c, cfgs, tests)
    ensures forall l :: l in FileLines(c, cfgs, rows, tests) ==> IsLine(l)
  {
    if rows > 0 {
      FileLinesAreLines(c, cfgs, rows - 1, tests);
      RowLinesAreLines(c, cfgs[rows - 1], rows - 1, tests);
    }
  }

  /** Reading the file line by line gives back the lines that were printed. */
  lemma PrintedLines(c: Campaign, cfgs: seq<string>, tests: nat)
    requires Uses(c, cfgs, tests)
    ensures Lines(Text(c, |cfgs|, tests)) == FileLines(c, cfgs, |cfgs|, tests)
  {
    var lines := FileLines(c, cfgs, |cfgs|, tests);
    TextLines(c, cfgs, |cfgs|, tests);
    FileLinesAreLines(c, cfgs, |cfgs|, tests);
    WrittenLines(lines);
  }
}
