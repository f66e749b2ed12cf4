/** The shape of a whole campaign's device trace, and the fields of the words in it.  The pins
    follow the port map of Hardware/HPSFPGA.vhd. */
module Protocol {
  import opened Bits
  import opened Codec
  import opened Driver
  import Hw = ScanHardware

  function IsOne(c: char): bool { c == '1' }

  // ---------------------------------------------------------------- the 23-bit port

  /** The clocked part of the design sees bits 1, 22 and 21..6 of the word. */
  function DriveOf(word: int): Hw.Drive {
    Hw.Drive(Bit(word, 1), Bit(word, 22), seq(16, k requires 0 <= k < 16 => Bit(word, 6 + k)))
  }

  /** SIGNAL_A to SIGNAL_D: bits 2 to 5. */
  function SignalsOf(word: int): seq<bool> {
    seq(4, k requires 0 <= k < 4 => Bit(word, 2 + k))
  }

  predicate TriStateOf(word: int) {
    Bit(word, 0)
  }

  /** A string's data characters as the bus they drive: character i is bit 15 - i. */
  function BusOf(data: string): Hw.Bus
    requires |data| == 16
  {
    seq(16, k requires 0 <= k < 16 => IsOne(data[15 - k]))
  }

  function SignalsIn(inputs: string): seq<bool>
    requires |inputs| == 4
  {
    seq(4, k requires 0 <= k < 4 => IsOne(inputs[3 - k]))
  }

  /** Parsing and both integer conversions lose nothing: the word fits the 23-bit port and every
      field of it is the string's field. */
  lemma PortFields(clear: char, data: string, inputs: string, scan: char, tri: char)
    requires |data| == 16 && |inputs| == 4
    ensures var w := Word(PortString(clear, data, inputs, scan, tri));
            && 0 <= w < 0x80_0000
            && DriveOf(w) == Hw.Drive(IsOne(scan), IsOne(clear), BusOf(data))
            && SignalsOf(w) == SignalsIn(inputs)
            && TriStateOf(w) == IsOne(tri)
  {
    var s := PortString(clear, data, inputs, scan, tri);
    PortWordIsValue(s);
    PortBits(s);
    PortChars(clear, data, inputs, scan, tri);
    DataField(Word(s), s, data);
    InputsField(Word(s), s, inputs);
  }

  lemma PortBits(s: string)
    requires |s| == 32 && Word(s) == Value(s)
    ensures forall k: nat :: k < 23 ==> Bit(Word(s), k) == IsOne(s[31 - k])
  {
    forall k: nat | k < 23
      ensures Bit(Word(s), k) == IsOne(s[31 - k])
    {
      BitOfValue(s, k);
    }
  }

  lemma PortChars(clear: char, data: string, inputs: string, scan: char, tri: char)
    requires |data| == 16 && |inputs| == 4
    ensures var s := PortString(clear, data, inputs, scan, tri);
            && s[9] == clear && s[30] == scan && s[31] == tri
            && (forall k :: 0 <= k < 16 ==> s[10 + k] == data[k])
            && forall k :: 0 <= k < 4 ==> s[26 + k] == inputs[k]
  {
  }

  lemma DataField(w: int, s: string, data: string)
    requires |s| == 32 && |data| == 16 && forall k :: 0 <= k < 16 ==> s[10 + k] == data[k]
    requires forall k: nat :: k < 23 ==> Bit(w, k) == IsOne(s[31 - k])
    ensures DriveOf(w) == Hw.Drive(IsOne(s[30]), IsOne(s[9]), BusOf(data))
  {
    forall k: nat | k < 16
      ensures DriveOf(w).data[k] == BusOf(data)[k]
    {
      assert s[31 - (6 + k)] == s[10 + (15 - k)];
    }
  }

  lemma InputsField(w: int, s: string, inputs: string)
    requires |s| == 32 && |inputs| == 4 && forall k :: 0 <= k < 4 ==> s[26 + k] == inputs[k]
    requires forall k: nat :: k < 23 ==> Bit(w, k) == IsOne(s[31 - k])
    ensures SignalsOf(w) == SignalsIn(inputs) && TriStateOf(w) == IsOne(s[31])
  {
    forall k: nat | k < 4
      ensures SignalsOf(w)[k] == SignalsIn(inputs)[k]
    {
      assert s[31 - (2 + k)] == s[26 + (3 - k)];
    }
  }

  /** Any string of 32 characters is written as its value: the sign extension of `dec_2_int` is cut off
      again. */
  lemma WordIsValue(s: string)
    requires |s| == 32
    ensures Word(s) == Value(s)
  {
    var lo := s[1..];
    assert s == [s[0]] + lo && Low(s, 31) == lo;
    ValueCons(s[0], lo);
    Pow2Constants();
    SignedWord(Value(lo), Weight(s[0]));
  }

  lemma SignedWord(v: nat, sign: nat)
    requires v < TWO_TO_31 && sign <= 1
    ensures ToInt(v + sign * (TWO_TO_64 - TWO_TO_31)) % TWO_TO_32 == sign * TWO_TO_31 + v
  {
    if sign == 1 {
      assert v + (TWO_TO_64 - TWO_TO_31) == TWO_TO_32 * (TWO_TO_32 - 1) + (TWO_TO_31 + v);
      QuotientUnique(v + (TWO_TO_64 - TWO_TO_31), TWO_TO_32, TWO_TO_32 - 1, TWO_TO_31 + v);
    }
  }

  lemma PortWordIsValue(s: string)
    requires |s| == 32 && forall i :: 0 <= i < 9 ==> s[i] == '0'
    ensures Word(s) == Value(s) && 0 <= Word(s) < 0x80_0000
  {
    WordIsValue(s);
    PortValueSmall(s);
  }

  lemma PortValueSmall(s: string)
    requires |s| == 32 && forall i :: 0 <= i < 9 ==> s[i] == '0'
    ensures Value(s) < 0x80_0000
  {
    ValueAppend(s[..9], s[9..]);
    assert s == s[..9] + s[9..];
    ValueZero(s[..9]);
    Pow2Constants();
  }

  /** What the word on the port means in each stage: clear is high only in the first, scan only in the
      first two, tri-state low only in the fourth; the test data is the configuration from the second
      on and the inputs are all ones until the fourth. */
  predicate MeansStage(w: int, stage: nat, config: string, inputs: string)
    requires 1 <= stage <= 4 && |config| == 16 && |inputs| == 4
  {
    && 0 <= w < 0x80_0000
    && DriveOf(w) == Hw.Drive(stage <= 2, stage == 1, BusOf(if stage == 1 then "1111111111111111" else config))
    && SignalsOf(w) == SignalsIn(if stage == 4 then inputs else "1111")
    && TriStateOf(w) == (stage != 4)
  }

  /** The writes of every test are those four words, in order. */
  lemma StageFields(stage: nat, config: string, inputs: string)
    requires 1 <= stage <= 4 && |config| == 16 && |inputs| == 4
    ensures |Writes(config, inputs)| == 4 && Writes(config, inputs)[stage - 1].Write?
    ensures MeansStage(Writes(config, inputs)[stage - 1].word, stage, config, inputs)
  {
    if stage == 1 {
      PortFields('1', "1111111111111111", "1111", '1', '1');
    } else if stage == 2 {
      PortFields('0', config, "1111", '1', '1');
    } else if stage == 3 {
      PortFields('0', config, "1111", '0', '1');
    } else {
      PortFields('0', config, inputs, '0', '0');
    }
  }

  /** The first word is 0x7FFFFF: the scan bit is high, unlike in the documented 0x7FFFFD. */
  lemma FirstWord(config: string, inputs: string)
    requires |config| == 16 && |inputs| == 4
    ensures Writes(config, inputs) != [] && Writes(config, inputs)[0] == Write(0x7F_FFFF)
  {
    var s := StageString(1, config, inputs);
    PortWordIsValue(s);
    FirstValue(s);
  }

  lemma FirstValue(s: string)
    requires |s| == 32 && forall i :: 0 <= i < 32 ==> s[i] == if i < 9 then '0' else '1'
    ensures Value(s) == 0x7F_FFFF
  {
    ValueAllOnes(s, 23);
    Pow2Constants();
  }

  // ---------------------------------------------------------------- the whole trace

  function CountWrites(t: seq<Event>): nat {
    if t == [] then 0 else CountWrites(t[..|t| - 1]) + if t[|t| - 1].Write? then 1 else 0
  }

  lemma {:induction false} CountWritesAppend(a: seq<Event>, b: seq<Event>)
    ensures CountWrites(a + b) == CountWrites(a) + CountWrites(b)
    decreases |b|
  {
    if b == [] {
      assert a + b == a;
    } else {
      assert (a + b)[..|a + b| - 1] == a + b[..|b| - 1];
      CountWritesAppend(a, b[..|b| - 1]);
    }
  }

  lemma CountBlock(config: string, inputs: string, output: int)
    requires |config| == 16 && |inputs| == 4
    ensures CountWrites(Block(config, inputs, output)) == 4
  {
    var w := Writes(config, inputs);
    CountWritesAppend([w[0]], [w[1]]);
    CountWritesAppend([w[0]] + [w[1]], [w[2]]);
    CountWritesAppend([w[0]] + [w[1]] + [w[2]], [w[3]]);
    assert w == [w[0]] + [w[1]] + [w[2]] + [w[3]];
    CountWritesAppend(w, [Read(output)]);
    CountOne(w[0]);
    CountOne(w[1]);
    CountOne(w[2]);
    CountOne(w[3]);
    CountOne(Read(output));
  }

  lemma CountOne(e: Event)
    ensures CountWrites([e]) == if e.Write? then 1 else 0
  {
    assert [e][..0] == [];
  }

  lemma SliceLeft<T>(a: seq<T>, b: seq<T>, p: nat, q: nat)
    requires p <= q <= |a|
    ensures (a + b)[p..q] == a[p..q]
  {
  }

  lemma SliceRight<T>(a: seq<T>, b: seq<T>, p: nat, q: nat)
    requires p <= q <= |b|
    ensures (a + b)[|a| + p..|a| + q] == b[p..q]
  {
  }

  /** Every pass appends five events, four of them writes. */
  ghost predicate FourWritesOneRead(f: (nat, nat) -> seq<Event>) {
    forall m: nat, j: nat :: |f(m, j)| == 5 && CountWrites(f(m, j)) == 4
  }

  lemma {:induction false} RowShape(f: (nat, nat) -> seq<Event>, m: nat, tests: nat)
    requires FourWritesOneRead(f)
    ensures |GridRow(f, m, tests)| == 5 * tests
    ensures CountWrites(GridRow(f, m, tests)) == 4 * tests
  {
    if tests > 0 {
      RowShape(f, m, tests - 1);
      CountWritesAppend(GridRow(f, m, tests - 1), f(m, tests - 1));
    }
  }

  lemma OneMore(a: nat, d: nat)
    ensures (a + 1) * d == a * d + d
  {
  }

  lemma GridShape(f: (nat, nat) -> seq<Event>, rows: nat, tests: nat)
    requires FourWritesOneRead(f)
    ensures |Grid(f, rows, tests)| == 5 * (rows * tests)
    ensures CountWrites(Grid(f, rows, tests)) == 4 * (rows * tests)
  {
    for m := 0 to rows
      invariant |Grid(f, m, tests)| == 5 * (m * tests)
      invariant CountWrites(Grid(f, m, tests)) == 4 * (m * tests)
    {
      RowShape(f, m, tests);
      CountWritesAppend(Grid(f, m, tests), GridRow(f, m, tests));
      OneMore(m, tests);
    }
  }

  lemma {:induction false} RowBlock(f: (nat, nat) -> seq<Event>, m: nat, tests: nat, j: nat)
    requires FourWritesOneRead(f) && j < tests
    ensures |GridRow(f, m, tests)| == 5 * tests
    ensures GridRow(f, m, tests)[5 * j..5 * j + 5] == f(m, j)
  {
    RowShape(f, m, tests);
    RowShape(f, m, tests - 1);
    var before, last := GridRow(f, m, tests - 1), f(m, tests - 1);
    if j < tests - 1 {
      RowBlock(f, m, tests - 1, j);
      SliceLeft(before, last, 5 * j, 5 * j + 5);
    } else {
      SliceRight(before, last, 0, 5);
    }
  }

  lemma {:induction false} GridBlock(f: (nat, nat) -> seq<Event>, rows: nat, tests: nat, m: nat, j: nat, p: nat)
    requires FourWritesOneRead(f) && m < rows && j < tests
    requires p == 5 * (m * tests + j)
    ensures p + 5 <= |Grid(f, rows, tests)|
    ensures Grid(f, rows, tests)[p..p + 5] == f(m, j)
    decreases rows
  {
    var before, row := Grid(f, rows - 1, tests), GridRow(f, rows - 1, tests);
    if m < rows - 1 {
      GridBlock(f, rows - 1, tests, m, j, p);
      SliceLeft(before, row, p, p + 5);
    } else {
      assert |before| == 5 * (m * tests) by {
        GridShape(f, rows - 1, tests);
      }
      RowBlock(f, m, tests, j);
      SliceRight(before, row, 5 * j, 5 * j + 5);
    }
  }

  lemma BlocksShape(c: Campaign)
    ensures FourWritesOneRead(Blocks(c))
  {
    forall m: nat, j: nat
      ensures |Blocks(c)(m, j)| == 5 && CountWrites(Blocks(c)(m, j)) == 4
    {
      CountBlock(c.Config(m), c.Inputs(j), c.outputs(m, j));
    }
  }

  /** A campaign of `rows` configurations and `tests` stimuli makes exactly 4 * rows * tests
      writes and rows * tests reads. */
  lemma TraceCounts(c: Campaign, rows: nat, tests: nat)
    ensures |Events(c, rows, tests)| == 5 * (rows * tests)
    ensures CountWrites(Events(c, rows, tests)) == 4 * (rows * tests)
  {
    BlocksShape(c);
    GridShape(Blocks(c), rows, tests);
  }

  /** Events 5 * (m * tests + j) on are the block of configuration m and stimulus j, which depends
      on nothing else. */
  lemma TraceBlock(c: Campaign, rows: nat, tests: nat, m: nat, j: nat)
    requires m < rows && j < tests
    ensures var t, p := Events(c, rows, tests), 5 * (m * tests + j);
            && 0 <= p && p + 5 <= |t|
            && t[p..p + 5] == Block(c.Config(m), c.Inputs(j), c.outputs(m, j))
  {
    BlocksShape(c);
    assert 0 <= m * tests;
    GridBlock(Blocks(c), rows, tests, m, j, 5 * (m * tests + j));
  }
}
