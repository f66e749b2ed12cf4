/** How "Python Script/d_metric.py" reads back the result file that Software/main.c prints: the
    configuration labels, then the results grouped by configuration. */
module ResultFile {
  import opened TextFiles
  import opened PythonText
  import opened DMetric

  const TAG: string := "_Test_Configuration:"

  // ---------------------------------------------------------------- the script

  /** The script's search of one line for the labels x, x + 1, ...; every hit appends the same
      configuration and then looks at entry x of the list. */
  function LabelsInLine(b: seq<string>, line: string, x: nat, cases: nat): Result<seq<string>>
    decreases cases - x
  {
    if x >= cases then Success(b)
    else if Contains(line, Decimal(x) + TAG) then
      var b' := b + [RStrip(Nth(Split(line, ':'), 1))];
      if x < |b'| then LabelsInLine(b', line, x + 1, cases) else Failure(IndexError)
    else LabelsInLine(b, line, x + 1, cases)
  }

  function Nth(fields: seq<string>, n: nat): string {
    if n < |fields| then fields[n] else []
  }

  function LabelsIn(b: seq<string>, lines: seq<string>, cases: nat): Result<seq<string>>
    decreases |lines|
  {
    if lines == [] then Success(b)
    else
      var r := LabelsInLine(b, lines[0], 0, cases);
      if r.Failure? then r else LabelsIn(r.value, lines[1..], cases)
  }

  method ReadLabels(lines: seq<string>, cases: nat) returns (r: Result<seq<string>>)
    ensures r == LabelsIn([], lines, cases)
  {
    var b: seq<string> := [];
    for l := 0 to |lines|
      invariant LabelsIn(b, lines[l..], cases) == LabelsIn([], lines, cases)
    {
      ghost var before := b;
      assert lines[l..][0] == lines[l] && lines[l..][1..] == lines[l + 1..];
      for x := 0 to cases
        invariant LabelsInLine(b, lines[l], x, cases) == LabelsInLine(before, lines[l], 0, cases)
      {
        if Contains(lines[l], Decimal(x) + TAG) {
          var a := Split(lines[l], ':');
          b := b + [RStrip(Nth(a, 1))];
          if x >= |b| {
            return Failure(IndexError);
          }
        }
      }
    }
    return Success(b);
  }

  function Add(r: Results, i: nat, v1: string, v2: string): (r': Results)
    requires i < |r.test1| == |r.test2|
    ensures |r'.test1| == |r.test1| && |r'.test2| == |r.test2|
  {
    if i == 0 then r.(golden1 := r.golden1 + [v1], golden2 := r.golden2 + [v2])
    else r.(test1 := r.test1[i := r.test1[i] + [v1]], test2 := r.test2[i := r.test2[i] + [v2]])
  }

  /** The script's search of one line for the configurations i, i + 1, ... */
  function GroupLine(r: Results, b: seq<string>, line: string, i: nat, cases: nat): (g: Result<Results>)
    requires |r.test1| == |r.test2| == cases
    ensures g.Success? ==> |g.value.test1| == |g.value.test2| == cases
    decreases cases - i
  {
    if i >= cases then Success(r)
    else if i >= |b| then Failure(IndexError)
    else if Contains(line, "," + b[i]) then
      var c := Split(line, ',');
      if |c| <= 4 then Failure(IndexError)
      else GroupLine(Add(r, i, RStrip(c[2]), RStrip(c[4])), b, line, i + 1, cases)
    else GroupLine(r, b, line, i + 1, cases)
  }

  function Group(r: Results, b: seq<string>, lines: seq<string>, cases: nat): (g: Result<Results>)
    requires |r.test1| == |r.test2| == cases
    ensures g.Success? ==> |g.value.test1| == |g.value.test2| == cases
    decreases |lines|
  {
    if lines == [] then Success(r)
    else
      var g := GroupLine(r, b, lines[0], 0, cases);
      if g.Failure? then g else Group(g.value, b, lines[1..], cases)
  }

  function NoResults(cases: nat): (r: Results)
    ensures |r.test1| == |r.test2| == cases
  {
    Results([], [], seq(cases, _ => []), seq(cases, _ => []))
  }

  method GroupResults(lines: seq<string>, b: seq<string>, cases: nat) returns (g: Result<Results>)
    ensures g == Group(NoResults(cases), b, lines, cases)
    ensures g.Success? ==> g.value.Paired(cases)
  {
    var r := NoResults(cases);
    for l := 0 to |lines|
      invariant r.Paired(cases)
      invariant Group(r, b, lines[l..], cases) == Group(NoResults(cases), b, lines, cases)
    {
      ghost var before := r;
      assert lines[l..][0] == lines[l] && lines[l..][1..] == lines[l + 1..];
      for i := 0 to cases
        invariant r.Paired(cases)
        invariant GroupLine(r, b, lines[l], i, cases) == GroupLine(before, b, lines[l], 0, cases)
      {
        if i >= |b| {
          return Failure(IndexError);
        }
        if Contains(lines[l], "," + b[i]) {
          var c := Split(lines[l], ',');
          if |c| <= 4 {
            return Failure(IndexError);
          }
          r := Add(r, i, RStrip(c[2]), RStrip(c[4]));
        }
      }
    }
    return Success(r);
  }

  /** The whole script on the text of a result file. */
  method Analyse(text: string, cases: nat, inputs: nat, noInputs: nat) returns (d: Result<real>)
    ensures d == Analysis(text, cases, inputs, noInputs)
  {
    var b := ReadLabels(Lines(text), cases);
    if b.Failure? {
      return Failure(b.error);
    }
    var g := GroupResults(Lines(text), b.value, cases);
    if g.Failure? {
      return Failure(g.error);
    }
    d := DMetric.DMetric(g.value, cases, inputs, noInputs);
  }

  function Analysis(text: string, cases: nat, inputs: nat, noInputs: nat): Result<real> {
    var b := LabelsIn([], Lines(text), cases);
    if b.Failure? then Failure(b.error)
    else
      var g := Group(NoResults(cases), b.value, Lines(text), cases);
      if g.Failure? then Failure(g.error)
      else if g.value.Complete(cases, inputs) then Metric(g.value.Hits(cases, inputs), noInputs)
      else Failure(IndexError)
  }
}
