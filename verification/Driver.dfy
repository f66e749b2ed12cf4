/** The staged test loop of `main` in Software/main.c: what it writes to and reads from the
    device, and what it appends to the result file. */
module Driver {
  import opened Bits
  import opened TextFiles
  import opened Codec

  datatype Event = Write(word: int) | Read(word: int)

  /** What `fgets` leaves in the line buffer when asked for line `n`: the last line when the file
      is shorter, the old buffer when it is empty. */
  function NthLine(text: string, n: nat, previous: string): string {
    var lines := Lines(text);
    if lines == [] then previous else if n < |lines| then lines[n] else lines[|lines| - 1]
  }

  /** The two files, and what the device answers to the read of test (m, j). */
  datatype Campaign = Campaign(testConfig: string, dutInputs: string, outputs: (nat, nat) -> int) {
    function ConfigLine(m: nat): string { NthLine(testConfig, m, "") }
    function InputLine(j: nat): string { NthLine(dutInputs, j, "") }
    function Config(m: nat): string { Prefix(ConfigLine(m), 16) }
    function Inputs(j: nat): string { Prefix(InputLine(j), 4) }

    /** The loop may copy 16 and 4 characters from the lines of test (m, j), and the device's
        word is 32 bits wide. */
    predicate Usable(m: nat, j: nat) {
      && |ConfigLine(m)| >= 16 && NUL !in Config(m)
      && |InputLine(j)| >= 4 && NUL !in Inputs(j)
      && -TWO_TO_31 <= outputs(m, j) < TWO_TO_31
    }
  }

  /** The first `n` characters of a line that has that many. */
  function Prefix(s: string, n: nat): (r: string)
    ensures |r| == n
  {
    if n <= |s| then s[..n] else seq(n, _ => '0')
  }

  /** The 32-character string for the 23-bit port: unused, clear, test data, inputs, scan, tri-state. */
  function PortString(clear: char, data: string, inputs: string, scan: char, tri: char): (s: string)
    requires |data| == 16 && |inputs| == 4
    ensures |s| == 32
  {
    "000000000" + [clear] + data + inputs + [scan, tri]
  }

  /** The string of each of the four writing stages. */
  function StageString(stage: nat, config: string, inputs: string): (s: string)
    requires 1 <= stage <= 4 && |config| == 16 && |inputs| == 4
    ensures |s| == 32
  {
    if stage == 1 then PortString('1', "1111111111111111", "1111", '1', '1')
    else if stage == 2 then PortString('0', config, "1111", '1', '1')
    else if stage == 3 then PortString('0', config, "1111", '0', '1')
    else PortString('0', config, inputs, '0', '0')
  }

  /** The word a string is written as: parsed, narrowed to `int`, stored as `uint32_t`. */
  function Word(s: string): int {
    ToInt(Parsed(s)) % TWO_TO_32
  }

  /** The four writes of one test. */
  function Writes(config: string, inputs: string): seq<Event>
    requires |config| == 16 && |inputs| == 4
  {
    [ Write(Word(StageString(1, config, inputs))), Write(Word(StageString(2, config, inputs))),
      Write(Word(StageString(3, config, inputs))), Write(Word(StageString(4, config, inputs))) ]
  }

  function Block(config: string, inputs: string, output: int): seq<Event>
    requires |config| == 16 && |inputs| == 4
  {
    Writes(config, inputs) + [Read(output)]
  }

  /** `p` written over `s` from index `at` on. */
  function Patch(s: string, at: nat, p: string): (r: string)
    requires at + |p| <= |s|
    ensures |r| == |s|
    ensures forall k :: 0 <= k < |s| ==> r[k] == if at <= k < at + |p| then p[k - at] else s[k]
  {
    s[..at] + p + s[at + |p|..]
  }

  lemma PatchClean(s: string, at: nat, p: string)
    requires at + |p| <= |s| && NUL !in s && NUL !in p
    ensures NUL !in Patch(s, at, p)
  {
  }

  /** What the edits of a stage make of the string of the one before. */
  lemma StagesPatched(config: string, inputs: string)
    requires |config| == 16 && |inputs| == 4
    ensures StageString(2, config, inputs) ==
            Patch(StageString(1, config, inputs)[9 := '0'][30 := '1'], 10, config)
    ensures StageString(3, config, inputs) == StageString(2, config, inputs)[30 := '0']
    ensures StageString(4, config, inputs) == Patch(StageString(3, config, inputs)[31 := '0'], 26, inputs)
  {
  }

  lemma LastDigits(n: int)
    ensures Binary32(n)[31] == Results(n).0 && Binary32(n)[30] == Results(n).1
  {
  }

  lemma Initial(config: string, inputs: string, buffer: seq<char>)
    requires |config| == 16 && |inputs| == 4 && |buffer| == 33
    requires forall i :: 0 <= i < 33 ==> buffer[i] == if i < 9 then '0' else if i < 32 then '1' else NUL
    ensures buffer == StageString(1, config, inputs) + [NUL] && NUL !in StageString(1, config, inputs)
  {
  }

  /** The 33-character buffer holds a string of 32. */
  ghost predicate Holds(mainString: array<char>, s: string)
    reads mainString
  {
    mainString.Length == 33 && |s| == 32 && NUL !in s && mainString[..] == s + [NUL]
  }

  lemma StrLen(mainString: array<char>, s: string)
    requires Holds(mainString, s)
    ensures |CString(mainString[..])| == 32
  {
    CStringPadded(s, [NUL]);
  }

  lemma Assoc<T>(a: seq<T>, b: seq<T>, c: seq<T>)
    ensures a + (b + c) == a + b + c
  {
  }

  function Dashes(n: nat): (s: string)
    ensures |s| == n && forall i :: 0 <= i < n ==> s[i] == '-'
  {
    seq(n, _ => '-')
  }

  const DASHES: string := " " + Dashes(68) + " "
  const RULE: string := DASHES + "\n"

  /** 68 dashes between two spaces. */
  lemma RuleText()
    ensures |RULE| == 71 && RULE[0] == RULE[69] == ' ' && RULE[70] == '\n'
    ensures forall k :: 1 <= k <= 68 ==> RULE[k] == '-'
  {
  }

  function HeaderText(m: nat, configLine: string): string {
    "\n\n" + Decimal(m) + "_Test_Configuration:" + configLine + RULE
  }

  function ResultText(j: nat, v0: char, v1: char, inputs: string, configLine: string): string {
    Decimal(j) + ",DUT_Result_1," + [v0] + ",DUT_Result_2," + [v1] + "," + inputs + "," + configLine + "\n"
  }

  /** The two result characters are the lowest two bits of the word read. */
  function Results(output: int): (char, char) {
    (Digit(Bit(output, 0)), Digit(Bit(output, 1)))
  }

  function TestText(c: Campaign, m: nat, j: nat): string {
    var v := Results(c.outputs(m, j));
    ResultText(j, v.0, v.1, c.Inputs(j), c.ConfigLine(m))
  }

  /** What two nested loops append when pass (m, j) appends `f(m, j)`. */
  function GridRow<T>(f: (nat, nat) -> seq<T>, m: nat, tests: nat): seq<T> {
    if tests == 0 then [] else GridRow(f, m, tests - 1) + f(m, tests - 1)
  }

  function Grid<T>(f: (nat, nat) -> seq<T>, rows: nat, tests: nat): seq<T> {
    if rows == 0 then [] else Grid(f, rows - 1, tests) + GridRow(f, rows - 1, tests)
  }

  function Blocks(c: Campaign): (nat, nat) -> seq<Event> {
    (m: nat, j: nat) => Block(c.Config(m), c.Inputs(j), c.outputs(m, j))
  }

  function Events(c: Campaign, rows: nat, tests: nat): seq<Event> {
    Grid(Blocks(c), rows, tests)
  }

  function RowText(c: Campaign, m: nat, tests: nat): string {
    if tests == 0 then HeaderText(m, c.ConfigLine(m)) else RowText(c, m, tests - 1) + TestText(c, m, tests - 1)
  }

  function Text(c: Campaign, rows: nat, tests: nat): string {
    if rows == 0 then [] else Text(c, rows - 1, tests) + RowText(c, rows - 1, tests)
  }

  class Tester {
    var port: seq<Event>
    var result: string
    var line: string
    var lineTest: string

    constructor ()
      ensures port == [] && result == [] && line == [] && lineTest == []
    {
      port, result, line, lineTest := [], [], [], [];
    }

    /** `File_Read_DUT_Inputs` and `File_Read_Test_Config`. */
    static method ReadLine(text: string, d: nat, previous: string) returns (line: string)
      ensures line == NthLine(text, d, previous)
    {
      var lines := Lines(text);
      line := previous;
      var count := 0;
      while count < |lines|
        invariant 0 <= count <= |lines| && count <= d
        invariant line == if count == 0 then previous else lines[count - 1]
      {
        line := lines[count];
        if count == d {
          return;
        }
        count := count + 1;
      }
    }

    /** `*(uint32_t *)ma1_input_addr = dec_2_int(main_string)`, through an `int`. */
    method WriteStage(mainString: array<char>, ghost s: string)
      requires Holds(mainString, s)
      modifies this`port
      ensures port == old(port) + [Write(Word(s))]
    {
      CStringPadded(s, [NUL]);
      var v := Dec2Int(CString(mainString[..]));
      port := port + [Write(ToInt(v) % TWO_TO_32)];
    }

    /** Stage 2: clear released, scanning on, configuration copied in. */
    method LoadConfig(mainString: array<char>, testConfig: string, ghost s: string)
      requires Holds(mainString, s) && |testConfig| >= 16 && NUL !in testConfig[..16]
      modifies mainString
      ensures Holds(mainString, Patch(s[9 := '0'][30 := '1'], 10, testConfig[..16]))
    {
      StrLen(mainString, s);
      mainString[|CString(mainString[..])| - 23] := '0';
      StrLen(mainString, s[9 := '0']);
      mainString[|CString(mainString[..])| - 2] := '1';
      ghost var t := s[9 := '0'][30 := '1'];
      for scanCount := 10 to 26
        invariant forall k :: 0 <= k < 33 ==>
          mainString[k] == (if 10 <= k < scanCount then testConfig[k - 10] else (t + [NUL])[k])
      {
        mainString[scanCount] := testConfig[scanCount - 10];
      }
      PatchClean(t, 10, testConfig[..16]);
      assert mainString[..] == Patch(t, 10, testConfig[..16]) + [NUL];
    }

    /** Stage 3: scanning off. */
    method StopScan(mainString: array<char>, ghost s: string)
      requires Holds(mainString, s)
      modifies mainString
      ensures Holds(mainString, s[30 := '0'])
    {
      StrLen(mainString, s);
      mainString[|CString(mainString[..])| - 2] := '0';
      assert mainString[..] == s[30 := '0'] + [NUL];
    }

    /** Stage 4: tri-state released, stimulus copied in. */
    method LoadInputs(mainString: array<char>, inputTestData: string, ghost s: string) returns (inputData: string)
      requires Holds(mainString, s) && |inputTestData| >= 4 && NUL !in inputTestData[..4]
      modifies mainString
      ensures Holds(mainString, Patch(s[31 := '0'], 26, inputTestData[..4]))
      ensures inputData == inputTestData[..4]
    {
      StrLen(mainString, s);
      mainString[|CString(mainString[..])| - 1] := '0';
      inputData := "";
      ghost var t := s[31 := '0'];
      for inputCount := 26 to 30
        invariant forall k :: 0 <= k < 33 ==>
          mainString[k] == (if 26 <= k < inputCount then inputTestData[k - 26] else (t + [NUL])[k])
        invariant inputData == inputTestData[..inputCount - 26]
      {
        mainString[inputCount] := inputTestData[inputCount - 26];
        inputData := inputData + [inputTestData[inputCount - 26]];
      }
      PatchClean(t, 26, inputTestData[..4]);
      assert mainString[..] == Patch(t, 26, inputTestData[..4]) + [NUL];
    }

    /** Stage 5: read the outputs and append the result line. */
    method Collect(c: Campaign, m: nat, j: nat, inputData: string)
      requires c.Usable(m, j) && inputData == c.Inputs(j)
      modifies this`port, this`result, this`lineTest
      ensures port == old(port) + [Read(c.outputs(m, j))]
      ensures result == old(result) + TestText(c, m, j)
    {
      var stg5 := c.outputs(m, j);
      port := port + [Read(stg5)];
      var buffer := DecimalToBinary(stg5);
      CStringPadded(Binary32(stg5), [NUL]);
      LastDigits(stg5);
      var length := |CString(buffer[..])|;
      var v0, v1 := buffer[length - 1], buffer[length - 2];
      lineTest := ReadLine(c.testConfig, m, lineTest);
      var text := Decimal(j);
      text := text + ",DUT_Result_1,";
      text := text + [v0];
      text := text + ",DUT_Result_2,";
      text := text + [v1];
      text := text + ",";
      text := text + inputData;
      text := text + ",";
      text := text + lineTest;
      text := text + "\n";
      result := result + text;
    }

    /** Stages 1 to 4: four writes from one string edited in place; `s` are its successive values. */
    method DriveStages(c: Campaign, m: nat, j: nat, mainString: array<char>, ghost s: seq<string>)
      returns (inputData: string)
      requires c.Usable(m, j) && |s| == 4 && Holds(mainString, s[0])
      requires s[1] == Patch(s[0][9 := '0'][30 := '1'], 10, c.Config(m)) && |s[1]| == 32
      requires s[2] == s[1][30 := '0'] && s[3] == Patch(s[2][31 := '0'], 26, c.Inputs(j))
      modifies this`port, this`line, this`lineTest, mainString
      ensures port == old(port) + [Write(Word(s[0])), Write(Word(s[1])), Write(Word(s[2])), Write(Word(s[3]))]
      ensures inputData == c.Inputs(j)
    {
      WriteStage(mainString, s[0]);
      lineTest := ReadLine(c.testConfig, m, lineTest);
      LoadConfig(mainString, lineTest, s[0]);
      WriteStage(mainString, s[1]);
      StopScan(mainString, s[1]);
      WriteStage(mainString, s[2]);
      line := ReadLine(c.dutInputs, j, line);
      inputData := LoadInputs(mainString, line, s[2]);
      WriteStage(mainString, s[3]);
    }

    method Stimulate(c: Campaign, m: nat, j: nat) returns (inputData: string)
      requires c.Usable(m, j)
      modifies this`port, this`line, this`lineTest
      ensures port == old(port) + Writes(c.Config(m), c.Inputs(j))
      ensures inputData == c.Inputs(j)
    {
      ghost var config, inputs := c.Config(m), c.Inputs(j);
      var mainString := new char[33](i => if i < 9 then '0' else if i < 32 then '1' else NUL);
      Initial(config, inputs, mainString[..]);
      StagesPatched(config, inputs);
      inputData := DriveStages(c, m, j, mainString,
        [StageString(1, config, inputs), StageString(2, config, inputs),
         StageString(3, config, inputs), StageString(4, config, inputs)]);
    }

    /** One pass of the inner loop: the stages of the `switch`, which falls through. */
    method RunTest(c: Campaign, m: nat, j: nat)
      requires c.Usable(m, j)
      modifies this
      ensures port == old(port) + Block(c.Config(m), c.Inputs(j), c.outputs(m, j))
      ensures result == old(result) + TestText(c, m, j)
    {
      var inputData := Stimulate(c, m, j);
      Collect(c, m, j, inputData);
      Assoc(old(port), Writes(c.Config(m), c.Inputs(j)), [Read(c.outputs(m, j))]);
    }

    method WriteHeader(c: Campaign, m: nat)
      requires Lines(c.testConfig) != []
      modifies this`result, this`lineTest
      ensures result == old(result) + HeaderText(m, c.ConfigLine(m))
    {
      lineTest := ReadLine(c.testConfig, m, lineTest);
      var text := "\n\n";
      text := text + Decimal(m);
      text := text + "_Test_Configuration:";
      text := text + lineTest;
      text := text + RULE;
      result := result + text;
    }

    /** The inner loop. */
    method RunRow(c: Campaign, m: nat, tests: nat)
      requires forall j :: 0 <= j < tests ==> c.Usable(m, j)
      requires Lines(c.testConfig) != []
      modifies this
      ensures port == old(port) + GridRow(Blocks(c), m, tests)
      ensures result == old(result) + RowText(c, m, tests)
    {
      WriteHeader(c, m);
      ghost var port0, result0 := old(port), old(result);
      assert port == port0 + [];
      for j := 0 to tests
        invariant port == port0 + GridRow(Blocks(c), m, j)
        invariant result == result0 + RowText(c, m, j)
      {
        RunTest(c, m, j);
        Assoc(port0, GridRow(Blocks(c), m, j), Blocks(c)(m, j));
        Assoc(result0, RowText(c, m, j), TestText(c, m, j));
      }
    }

    /** The whole campaign. The result file may already hold the text of earlier ones. */
    method RunTests(c: Campaign, rows: nat, tests: nat)
      requires forall m, j :: 0 <= m < rows && 0 <= j < tests ==> c.Usable(m, j)
      requires Lines(c.testConfig) != []
      modifies this
      ensures port == old(port) + Events(c, rows, tests)
      ensures result == old(result) + Text(c, rows, tests)
    {
      ghost var port0, result0 := port, result;
      assert port == port0 + [] && result == result0 + [];
      for m := 0 to rows
        invariant port == port0 + Events(c, m, tests)
        invariant result == result0 + Text(c, m, tests)
      {
        RunRow(c, m, tests);
        Assoc(port0, Events(c, m, tests), GridRow(Blocks(c), m, tests));
        Assoc(result0, Text(c, m, tests), RowText(c, m, tests));
      }
    }
  }
}
