/** Preparation of the configuration and stimulus files (`dec2bin_input_files` and `in_file` in
    Software/main.c).  The conversion buffer is a global that is never wiped. */
module InputFiles {
  import opened Bits
  import opened TextFiles

  /** A buffer holding `text` and nothing but NULs after it. */
  predicate Holds(buffer: seq<char>, text: string) {
    && NUL !in text
    && |text| < |buffer|
    && buffer[..|text|] == text
    && forall i :: |text| <= i < |buffer| ==> buffer[i] == NUL
  }

  lemma HoldsCString(buffer: seq<char>, text: string)
    requires Holds(buffer, text)
    ensures CString(buffer) == text
  {
    assert buffer == text + buffer[|text|..];
    CStringPadded(text, buffer[|text|..]);
  }

  function Tail(text: string, width: nat): string {
    if |text| > width then text[width..] else []
  }

  /** Writing `bits` over the start of `text`: a longer old text shows behind it. */
  function Overlay(bits: string, text: string): string {
    bits + Tail(text, |bits|)
  }

  /** The last stimulus line, whose tail is left in the buffer for the configurations. */
  function LastStimulus(stimuli: seq<int>, width: nat): string {
    if stimuli == [] then "" else LsbFirst(stimuli[|stimuli| - 1], width)
  }

  function Ones(width: nat): string {
    seq(width, _ => '1')
  }

  /** What the files gain, line by line. */
  function StimulusLines(stimuli: seq<int>, width: nat): seq<string> {
    seq(|stimuli|, i requires 0 <= i < |stimuli| => LsbFirst(stimuli[i], width) + "\n")
  }

  function ConfigLines(configs: seq<int>, width: nat, stale: string): seq<string> {
    [Ones(width) + "\n"] +
    seq(|configs|, i requires 0 <= i < |configs| => Overlay(LsbFirst(configs[i], width), stale) + "\n")
  }

  class Host {
    const valueInputFiles: array<char>
    const testConfigGolden: array<char>
    var dutInputs: string
    var testConfig: string

    constructor (dutInputs: string, testConfig: string)
      ensures this.dutInputs == dutInputs && this.testConfig == testConfig
      ensures fresh(valueInputFiles) && fresh(testConfigGolden) && valueInputFiles != testConfigGolden
      ensures valueInputFiles.Length == 33 && Holds(valueInputFiles[..], "")
      ensures testConfigGolden.Length == 257 && Holds(testConfigGolden[..], "")
    {
      valueInputFiles := new char[33](_ => NUL);
      testConfigGolden := new char[257](_ => NUL);
      this.dutInputs, this.testConfig := dutInputs, testConfig;
    }

    /** `dec2bin_input_files`: bit i of the number becomes character i of the buffer, and what
        the buffer held from `maxLength` on stays. */
    method Dec2BinInputFiles(randNumber: int, maxLength: nat, ghost text: string) returns (s: string)
      requires valueInputFiles.Length == 33 && maxLength <= 32
      requires Holds(valueInputFiles[..], text)
      modifies valueInputFiles
      ensures s == Overlay(LsbFirst(randNumber, maxLength), text)
      ensures Holds(valueInputFiles[..], s)
      ensures valueInputFiles[..] == LsbFirst(randNumber, maxLength) + old(valueInputFiles[maxLength..])
    {
      var i := maxLength - 1;
      while i >= 0
        invariant -1 <= i < maxLength
        invariant forall k :: i < k < maxLength ==> valueInputFiles[k] == Digit(Bit(randNumber, k))
        invariant forall k :: 0 <= k < 33 && !(i < k < maxLength) ==> valueInputFiles[k] == old(valueInputFiles[k])
      {
        if randNumber / Pow2(i) % 2 != 0 {
          valueInputFiles[i] := '1';
        } else {
          valueInputFiles[i] := '0';
        }
        i := i - 1;
      }
      ghost var bits := LsbFirst(randNumber, maxLength);
      ghost var now := Overlay(bits, text);
      assert forall k :: 0 <= k < |text| ==> text[k] != NUL;
      assert forall k :: |text| <= k < 33 ==> old(valueInputFiles[..])[k] == NUL;
      assert forall k :: 0 <= k < |text| ==> old(valueInputFiles[..])[k] == text[k];
      assert forall k :: 0 <= k < |now| ==> valueInputFiles[k] == now[k] != NUL;
      HoldsCString(valueInputFiles[..], now);
      s := CString(valueInputFiles[..]);
    }

    /** The golden configuration: all ones. */
    method WriteGolden(width: nat)
      requires width < 257 && testConfigGolden.Length == 257 && Holds(testConfigGolden[..], "")
      modifies this`testConfig, testConfigGolden
      ensures testConfig == old(testConfig) + Unlines([Ones(width) + "\n"])
    {
      for i := 0 to width
        invariant testConfig == old(testConfig)
        invariant forall k :: 0 <= k < 257 ==> testConfigGolden[k] == if k < i then '1' else NUL
      {
        testConfigGolden[i] := '1';
      }
      HoldsCString(testConfigGolden[..], Ones(width));
      testConfig := testConfig + CString(testConfigGolden[..]);
      testConfig := testConfig + "\n";
      assert [Ones(width) + "\n"][..0] == [];
      assert testConfig == old(testConfig) + (Ones(width) + "\n");
    }

    /** The stimuli; the last one stays in the buffer. */
    method WriteStimuli(numInputs: nat, stimuli: seq<int>)
      requires numInputs <= 32
      requires valueInputFiles.Length == 33 && Holds(valueInputFiles[..], "")
      modifies this`dutInputs, valueInputFiles
      ensures dutInputs == old(dutInputs) + Unlines(StimulusLines(stimuli, numInputs))
      ensures Holds(valueInputFiles[..], LastStimulus(stimuli, numInputs))
    {
      ghost var lines := StimulusLines(stimuli, numInputs);
      ghost var text := "";
      assert lines[..0] == [] && dutInputs == old(dutInputs) + [];
      for i := 0 to |stimuli|
        invariant Holds(valueInputFiles[..], text) && text == LastStimulus(stimuli[..i], numInputs)
        invariant dutInputs == old(dutInputs) + Unlines(lines[..i])
      {
        var input := Dec2BinInputFiles(stimuli[i], numInputs, text);
        text := input;
        dutInputs := dutInputs + input;
        dutInputs := dutInputs + "\n";
        assert lines[..i + 1] == lines[..i] + [input + "\n"];
        UnlinesSnoc(old(dutInputs), lines[..i], input);
      }
      assert stimuli[..|stimuli|] == stimuli && lines[..|stimuli|] == lines;
    }

    /** The random configurations, over whatever the buffer still holds. */
    method WriteConfigs(width: nat, configs: seq<int>, ghost stale: string)
      requires width <= 32
      requires valueInputFiles.Length == 33 && Holds(valueInputFiles[..], stale)
      modifies this`testConfig, valueInputFiles
      ensures testConfig == old(testConfig) + Unlines(ConfigLines(configs, width, stale)[1..])
    {
      ghost var lines := ConfigLines(configs, width, stale)[1..];
      ghost var text, before := stale, testConfig;
      assert lines[..0] == [] && testConfig == before + [];
      for i := 0 to |configs|
        invariant Holds(valueInputFiles[..], text)
        invariant Tail(text, width) == Tail(stale, width)
        invariant testConfig == before + Unlines(lines[..i])
      {
        ghost var bits := LsbFirst(configs[i], width);
        TailKept(bits, text, stale);
        var fault := Dec2BinInputFiles(configs[i], width, text);
        text := fault;
        testConfig := testConfig + fault;
        testConfig := testConfig + "\n";
        NextLine(lines, i, fault + "\n");
        UnlinesSnoc(before, lines[..i], fault);
      }
      assert lines[..|configs|] == lines;
    }

    /** `in_file`: the two files gain exactly the lines specified above, in order. */
    method InFile(numInputs: nat, stimuli: seq<int>, numFaultPoints: nat, configs: seq<int>)
      requires numInputs <= 32 && numFaultPoints * 2 <= 32
      requires valueInputFiles.Length == 33 && Holds(valueInputFiles[..], "")
      requires testConfigGolden.Length == 257 && Holds(testConfigGolden[..], "")
      requires valueInputFiles != testConfigGolden
      modifies this, valueInputFiles, testConfigGolden
      ensures dutInputs == old(dutInputs) + Unlines(StimulusLines(stimuli, numInputs))
      ensures testConfig == old(testConfig)
                            + Unlines(ConfigLines(configs, numFaultPoints * 2, LastStimulus(stimuli, numInputs)))
    {
      var width := numFaultPoints * 2;
      WriteGolden(width);
      WriteStimuli(numInputs, stimuli);
      ghost var stale := LastStimulus(stimuli, numInputs);
      WriteConfigs(width, configs, stale);
      GoldenFirst(old(testConfig), configs, width, stale);
    }
  }

  /** Overwriting the start of a text leaves its tail. */
  lemma TailKept(bits: string, text: string, stale: string)
    requires Tail(text, |bits|) == Tail(stale, |bits|)
    ensures Overlay(bits, text) == Overlay(bits, stale)
    ensures Tail(Overlay(bits, text), |bits|) == Tail(stale, |bits|)
  {
  }

  lemma NextLine(lines: seq<string>, i: nat, line: string)
    requires i < |lines| && lines[i] == line
    ensures lines[..i + 1] == lines[..i] + [line]
  {
  }

  lemma UnlinesSnoc(before: string, lines: seq<string>, text: string)
    ensures before + Unlines(lines + [text + "\n"]) == before + Unlines(lines) + text + "\n"
  {
    assert (lines + [text + "\n"])[..|lines|] == lines;
  }

  lemma GoldenFirst(before: string, configs: seq<int>, width: nat, stale: string)
    ensures before + Unlines(ConfigLines(configs, width, stale)) ==
            before + Unlines([Ones(width) + "\n"]) + Unlines(ConfigLines(configs, width, stale)[1..])
  {
    var lines := ConfigLines(configs, width, stale);
    assert lines == [Ones(width) + "\n"] + lines[1..];
    UnlinesAppend([Ones(width) + "\n"], lines[1..]);
  }

  /** With at most as many inputs as control bits the buffer leaves no trace: the configuration
      file is the golden line of ones followed by the numbers, least significant bit first. */
  lemma NoStaleTail(stimuli: seq<int>, numInputs: nat, configs: seq<int>, width: nat)
    requires numInputs <= width
    ensures ConfigLines(configs, width, LastStimulus(stimuli, numInputs)) ==
            [Ones(width) + "\n"] + StimulusLines(configs, width)
  {
    forall i | 0 <= i < |configs|
      ensures Overlay(LsbFirst(configs[i], width), LastStimulus(stimuli, numInputs)) == LsbFirst(configs[i], width)
    {
    }
  }

  /** With more inputs than control bits every configuration line but the golden one carries the
      tail of the last stimulus, and is too long by that much. */
  lemma StaleTail(stimuli: seq<int>, numInputs: nat, configs: seq<int>, width: nat, i: nat)
    requires numInputs > width && stimuli != [] && i < |configs|
    ensures var line := ConfigLines(configs, width, LastStimulus(stimuli, numInputs))[i + 1];
            && |line| == numInputs + 1
            && line == LsbFirst(configs[i], width) + LsbFirst(stimuli[|stimuli| - 1], numInputs)[width..] + "\n"
  {
  }
}
