/** The configuration labels that the script finds in the result file. */
module Labels {
  import opened TextFiles
  import opened PythonText
  import opened Driver
  import opened DMetric
  import opened ResultFile
  import opened Printout

  // ---------------------------------------------------------------- numerals

  predicate Suffix(a: string, b: string) {
    |a| <= |b| && b[|b| - |a|..] == a
  }

  lemma SuffixParts(a: string, b: string)
    requires Suffix(a, b) && a != []
    ensures a[|a| - 1] == b[|b| - 1] && Suffix(a[..|a| - 1], b[..|b| - 1])
  {
    var n := |b| - |a|;
    assert b[n..][|a| - 1] == b[|b| - 1];
    assert b[..|b| - 1][n..] == b[n..][..|a| - 1];
  }

  lemma LastDigit(n: nat)
    ensures Decimal(n)[|Decimal(n)| - 1] == DigitChar(n % 10)
    ensures Decimal(n)[..|Decimal(n)| - 1] == if n < 10 then [] else Decimal(n / 10)
  {
    if n >= 10 {
      assert (Decimal(n / 10) + [DigitChar(n % 10)])[..|Decimal(n / 10)|] == Decimal(n / 10);
    }
  }

  /** A numeral that ends another one denotes a number that is not larger. */
  lemma {:induction false} SuffixNotLarger(x: nat, m: nat)
    requires Suffix(Decimal(x), Decimal(m))
    ensures x <= m && x % 10 == m % 10
    decreases x
  {
    SuffixParts(Decimal(x), Decimal(m));
    LastDigit(x);
    LastDigit(m);
    DigitCharInjective(x % 10, m % 10);
    if x >= 10 {
      TenOrMore(x, m);
      SuffixNotLarger(x / 10, m / 10);
    }
  }

  lemma TenOrMore(x: nat, m: nat)
    requires x >= 10 && Suffix(Decimal(x), Decimal(m))
    ensures m >= 10
  {
  }

  lemma FoundSuffix(pre: string, tag: string, rest: string, d: string)
    requires Suffix(d, pre)
    ensures Contains(pre + tag + rest, d + tag)
  {
    var s, i := pre + tag + rest, |pre| - |d|;
    assert pre == pre[..i] + d;
    assert s == pre[..i] + (d + tag) + rest;
    assert MatchAt(s, d + tag, i);
  }

  lemma SuffixFound(pre: string, tag: string, rest: string, d: string, i: nat)
    requires MatchAt(pre + tag + rest, d + tag, i) && i + |d| == |pre|
    ensures Suffix(d, pre)
  {
    var s := pre + tag + rest;
    assert d == (d + tag)[..|d|] == s[i..i + |d + tag|][..|d|] == s[i..|pre|] == pre[i..];
  }

  /** The label of x is found in the header of configuration m exactly when the numeral of x ends
      the numeral of m. */
  lemma LabelFound(m: nat, cfg: string, x: nat)
    requires Binary(cfg)
    ensures Contains(HeaderLine(m, cfg), Decimal(x) + TAG) <==> Suffix(Decimal(x), Decimal(m))
  {
    assert HeaderLine(m, cfg) == Decimal(m) + TAG + (cfg + "\n");
    if Suffix(Decimal(x), Decimal(m)) {
      FoundSuffix(Decimal(m), TAG, cfg + "\n", Decimal(x));
    }
    if Contains(HeaderLine(m, cfg), Decimal(x) + TAG) {
      var i: nat :| i <= |HeaderLine(m, cfg)| && MatchAt(HeaderLine(m, cfg), Decimal(x) + TAG, i);
      LabelPlace(m, cfg, Decimal(x), i);
      SuffixFound(Decimal(m), TAG, cfg + "\n", Decimal(x), i);
    }
  }

  /** A label can only be found where the header's own tag starts. */
  lemma LabelPlace(m: nat, cfg: string, d: string, i: nat)
    requires Binary(cfg) && MatchAt(HeaderLine(m, cfg), d + TAG, i)
    ensures i + |d| == |Decimal(m)|
  {
    TagChars();
    MatchedChar(HeaderLine(m, cfg), d + TAG, i, |d|);
    MatchedChar(HeaderLine(m, cfg), d + TAG, i, |d| + 1);
    assert (d + TAG)[|d|] == TAG[0] && (d + TAG)[|d| + 1] == TAG[1];
    UnderscoreT(m, cfg, i + |d|);
  }

  lemma HeaderChar(m: nat, cfg: string, q: nat)
    requires q < |HeaderLine(m, cfg)|
    ensures var n := |Decimal(m)|;
            HeaderLine(m, cfg)[q] == if q < n then Decimal(m)[q]
                                     else if q < n + |TAG| then TAG[q - n] else (cfg + "\n")[q - n - |TAG|]
  {
  }

  /** The only place in a header line where an underscore precedes a T. */
  lemma UnderscoreT(m: nat, cfg: string, q: nat)
    requires Binary(cfg) && q + 1 < |HeaderLine(m, cfg)|
    ensures HeaderLine(m, cfg)[q] == '_' && HeaderLine(m, cfg)[q + 1] == 'T' ==> q == |Decimal(m)|
  {
    HeaderChar(m, cfg, q);
    HeaderChar(m, cfg, q + 1);
    TagChars();
  }

  lemma TagChars()
    ensures |TAG| == 20 && TAG[0] == '_' && TAG[1] == 'T' && TAG[6] == 'C'
    ensures forall k :: 0 <= k < 20 && TAG[k] == '_' ==> k == 0 || k == 5
  {
  }

  // ---------------------------------------------------------------- the labels of one line

  lemma NoLabelInLine(b: seq<string>, line: string, x: nat, cases: nat)
    requires ':' !in line
    ensures LabelsInLine(b, line, x, cases) == Success(b)
    decreases cases - x
  {
    if x < cases {
      assert (Decimal(x) + TAG)[|Decimal(x)| + 19] == TAG[19] == ':';
      ContainsChar(line, Decimal(x) + TAG, ':');
      NoLabelInLine(b, line, x + 1, cases);
    }
  }

  /** What a header line contributes is its configuration. */
  lemma HeaderConfig(m: nat, cfg: string)
    requires Binary(cfg) && cfg != []
    ensures RStrip(Nth(Split(HeaderLine(m, cfg), ':'), 1)) == cfg
  {
    var last := cfg[|cfg| - 1];
    assert last == '0' || last == '1';
    assert !IsSpace(last);
    var before := Decimal(m) + "_Test_Configuration";
    assert TAG == "_Test_Configuration" + ":";
    assert HeaderLine(m, cfg) == before + ":" + (cfg + "\n");
    assert ':' !in "_Test_Configuration" && ':' !in before;
    assert ':' !in cfg + "\n";
    SplitField([], before, cfg + "\n", ':');
    SplitField([], cfg + "\n", [], ':');
    assert [] + (cfg + "\n") == cfg + "\n";
    RStripLine(cfg);
  }

  function LabelEnds(m: nat): nat -> bool {
    (x: nat) => Suffix(Decimal(x), Decimal(m))
  }

  function CountFrom(p: nat -> bool, x: nat, cases: nat): nat
    decreases cases - x
  {
    if x >= cases then 0 else (if p(x) then 1 else 0) + CountFrom(p, x + 1, cases)
  }

  /** How many of the labels x, x + 1, ... are found in the header of configuration m. */
  function Found(m: nat, x: nat, cases: nat): nat {
    CountFrom(LabelEnds(m), x, cases)
  }

  function Repeat<T>(s: T, n: nat): (r: seq<T>)
    ensures |r| == n && forall i :: 0 <= i < n ==> r[i] == s
  {
    seq(n, _ => s)
  }

  lemma RepeatStep(b: seq<string>, s: string, n: nat)
    ensures b + [s] + Repeat(s, n) == b + Repeat(s, n + 1)
  {
  }

  /** The search of a line at `x` adds `cfg` to the labels if `p(x)`, and goes on. */
  ghost predicate Adds(search: (seq<string>, nat) -> Result<seq<string>>, cfg: string,
                       p: nat -> bool, n: nat, cases: nat)
  {
    && (forall b :: search(b, cases) == Success(b))
    && forall b, x: nat :: |b| >= n && x < cases ==> search(b, x) == search(if p(x) then b + [cfg] else b, x + 1)
  }

  lemma {:induction false} AddsCounted(search: (seq<string>, nat) -> Result<seq<string>>, cfg: string,
                                       p: nat -> bool, b: seq<string>, x: nat, cases: nat)
    requires Adds(search, cfg, p, |b|, cases) && x <= cases
    ensures search(b, x) == Success(b + Repeat(cfg, CountFrom(p, x, cases)))
    decreases cases - x
  {
    if x == cases {
      assert b + Repeat(cfg, 0) == b;
    } else if p(x) {
      AddsCounted(search, cfg, p, b + [cfg], x + 1, cases);
      RepeatStep(b, cfg, CountFrom(p, x + 1, cases));
    } else {
      AddsCounted(search, cfg, p, b, x + 1, cases);
    }
  }

  /** A header appends its configuration once for every label found. */
  lemma HeaderLabels(b: seq<string>, m: nat, cfg: string, cases: nat)
    requires Binary(cfg) && cfg != [] && (|b| >= m || |b| >= cases)
    ensures LabelsInLine(b, HeaderLine(m, cfg), 0, cases) == Success(b + Repeat(cfg, Found(m, 0, cases)))
  {
    var search := (b: seq<string>, x: nat) => LabelsInLine(b, HeaderLine(m, cfg), x, cases);
    forall b', x: nat | |b'| >= |b| && x < cases
      ensures search(b', x) == search(if LabelEnds(m)(x) then b' + [cfg] else b', x + 1)
    {
      OneLabel(b', m, cfg, x, cases);
    }
    AddsCounted(search, cfg, LabelEnds(m), b, 0, cases);
  }

  lemma OneLabel(b: seq<string>, m: nat, cfg: string, x: nat, cases: nat)
    requires Binary(cfg) && cfg != [] && (|b| >= m || |b| >= cases) && x < cases
    ensures LabelsInLine(b, HeaderLine(m, cfg), x, cases) ==
            LabelsInLine(if Suffix(Decimal(x), Decimal(m)) then b + [cfg] else b, HeaderLine(m, cfg), x + 1, cases)
  {
    LabelFound(m, cfg, x);
    HeaderConfig(m, cfg);
    if Suffix(Decimal(x), Decimal(m)) {
      SuffixNotLarger(x, m);
    }
  }

  // ---------------------------------------------------------------- how many labels a header has

  /** What a number is printed as: digits, and no leading zero. */
  predicate IsNumeral(s: string) {
    s != [] && (forall c :: c in s ==> '0' <= c <= '9') && (|s| == 1 || s[0] != '0')
  }

  /** How many ends of a string are numerals. */
  function NumeralEnds(s: string): nat {
    if s == [] then 0 else (if IsNumeral(s) then 1 else 0) + NumeralEnds(s[1..])
  }

  lemma DigitOf(c: char) returns (d: nat)
    requires '0' <= c <= '9'
    ensures d < 10 && DigitChar(d) == c
  {
    d := c as int - 48;
  }

  lemma {:induction false} NoLeadingZero(n: nat)
    requires n > 0
    ensures Decimal(n)[0] != '0'
  {
    if n >= 10 {
      NoLeadingZero(n / 10);
    }
  }

  lemma DecimalIsNumeral(n: nat)
    ensures IsNumeral(Decimal(n))
  {
    if n > 0 {
      NoLeadingZero(n);
    }
  }

  lemma {:induction false} NumeralOf(s: string) returns (n: nat)
    requires IsNumeral(s)
    ensures Decimal(n) == s
    decreases |s|
  {
    var init, last := s[..|s| - 1], s[|s| - 1];
    assert s == init + [last] && last in s;
    var d := DigitOf(last);
    if init == [] {
      n := d;
    } else {
      assert init[0] == s[0] && forall c :: c in init ==> c in s;
      var n' := NumeralOf(init);
      assert n' > 0 by {
        assert Decimal(0) == [DigitChar(0)];
      }
      n := 10 * n' + d;
    }
  }

  lemma DecimalInjective(x: nat, y: nat)
    requires Decimal(x) == Decimal(y)
    ensures x == y
  {
    NumeralBack(x);
    NumeralBack(y);
  }

  /** The labels of at most `k` digits that end the numeral `s`. */
  function ShortEnds(s: string, k: nat): nat -> bool {
    (x: nat) => |Decimal(x)| <= k && Suffix(Decimal(x), s)
  }

  lemma {:induction false} CountMore(p: nat -> bool, q: nat -> bool, v: nat, x: nat, cases: nat)
    requires forall y: nat :: q(y) <==> p(y) || y == v
    requires !p(v)
    ensures CountFrom(q, x, cases) == CountFrom(p, x, cases) + if x <= v < cases then 1 else 0
    decreases cases - x
  {
    if x < cases {
      CountMore(p, q, v, x + 1, cases);
    }
  }

  lemma {:induction false} CountSame(p: nat -> bool, q: nat -> bool, x: nat, cases: nat)
    requires forall y: nat :: q(y) <==> p(y)
    ensures CountFrom(q, x, cases) == CountFrom(p, x, cases)
    decreases cases - x
  {
    if x < cases {
      CountSame(p, q, x + 1, cases);
    }
  }

  lemma {:induction false} CountNone(p: nat -> bool, x: nat, cases: nat)
    requires forall y: nat :: !p(y)
    ensures CountFrom(p, x, cases) == 0
    decreases cases - x
  {
    if x < cases {
      CountNone(p, x + 1, cases);
    }
  }

  lemma EndOfLength(s: string, x: nat, k: nat)
    requires k <= |s|
    ensures |Decimal(x)| == k && Suffix(Decimal(x), s) <==> Decimal(x) == s[|s| - k..]
  {
  }

  /** Every label that ends `s` is one the script looks for. */
  ghost predicate AllSought(s: string, cases: nat) {
    forall x: nat :: Suffix(Decimal(x), s) ==> x < cases
  }

  /** With one more digit there is one more label if that end is a numeral, and none otherwise. */
  lemma OneMoreDigit(s: string, k: nat, cases: nat)
    requires AllSought(s, cases) && 0 < k <= |s|
    ensures CountFrom(ShortEnds(s, k), 0, cases) ==
            CountFrom(ShortEnds(s, k - 1), 0, cases) + if IsNumeral(s[|s| - k..]) then 1 else 0
  {
    var end := s[|s| - k..];
    var p, q := ShortEnds(s, k - 1), ShortEnds(s, k);
    forall y: nat
      ensures q(y) <==> p(y) || Decimal(y) == end
      ensures Decimal(y) == end ==> !p(y)
    {
      EndOfLength(s, y, k);
    }
    if IsNumeral(end) {
      var v := OnlyNumeral(end);
      assert Suffix(Decimal(v), s);
      CountMore(p, q, v, 0, cases);
    } else {
      forall y: nat
        ensures Decimal(y) != end
      {
        DecimalIsNumeral(y);
      }
      CountSame(p, q, 0, cases);
    }
  }

  lemma OnlyNumeral(s: string) returns (v: nat)
    requires IsNumeral(s)
    ensures Decimal(v) == s && forall y: nat :: Decimal(y) == s ==> y == v
  {
    v := NumeralOf(s);
    forall y: nat | Decimal(y) == s
      ensures y == v
    {
      DecimalInjective(y, v);
    }
  }

  lemma {:induction false} FoundShort(s: string, k: nat, cases: nat)
    requires AllSought(s, cases) && k <= |s|
    ensures CountFrom(ShortEnds(s, k), 0, cases) == NumeralEnds(s[|s| - k..])
  {
    if k == 0 {
      CountNone(ShortEnds(s, 0), 0, cases);
    } else {
      FoundShort(s, k - 1, cases);
      OneMoreDigit(s, k, cases);
      assert s[|s| - k..][1..] == s[|s| - (k - 1)..];
    }
  }

  lemma AllEndsSought(m: nat, cases: nat)
    requires m < cases
    ensures AllSought(Decimal(m), cases)
  {
    forall x: nat | Suffix(Decimal(x), Decimal(m))
      ensures x < cases
    {
      SuffixNotLarger(x, m);
    }
  }

  /** The labels found in the header of a configuration that has one are as many as the ends of its
      numeral that are numerals. */
  lemma FoundExactly(m: nat, cases: nat)
    requires m < cases
    ensures Found(m, 0, cases) == NumeralEnds(Decimal(m))
  {
    var s := Decimal(m);
    AllEndsSought(m, cases);
    FoundShort(s, |s|, cases);
    assert s[0..] == s;
    CountSame(ShortEnds(s, |s|), LabelEnds(m), 0, cases);
  }

  lemma {:induction false} EndsAtLeastOne(s: string)
    requires s != [] && '0' <= s[|s| - 1] <= '9'
    ensures NumeralEnds(s) >= 1
    decreases |s|
  {
    if |s| > 1 {
      EndsAtLeastOne(s[1..]);
    }
  }

  /** One label for each of the first ten configurations, two for the next. */
  lemma FoundShape(m: nat, cases: nat)
    requires m < cases
    ensures Found(m, 0, cases) >= 1
    ensures m < 10 ==> Found(m, 0, cases) == 1
    ensures m == 10 ==> Found(m, 0, cases) == 2
  {
    FoundExactly(m, cases);
    var s := Decimal(m);
    assert s[|s| - 1] in s;
    EndsAtLeastOne(s);
    if m < 10 {
      assert s[1..] == [];
    } else if m == 10 {
      assert s == Decimal(1) + [DigitChar(0)] == ['1', '0'];
      assert s[1..] == ['0'] && s[1..][1..] == [];
      assert NumeralEnds(['0']) == 1;
    }
  }

  // ---------------------------------------------------------------- the labels of the whole file

  lemma {:induction false} LabelsAppend(b: seq<string>, l1: seq<string>, l2: seq<string>, cases: nat)
    ensures var r := LabelsIn(b, l1, cases);
            LabelsIn(b, l1 + l2, cases) == if r.Failure? then r else LabelsIn(r.value, l2, cases)
    decreases |l1|
  {
    if l1 == [] {
      assert l1 + l2 == l2;
    } else {
      assert (l1 + l2)[0] == l1[0] && (l1 + l2)[1..] == l1[1..] + l2;
      var r := LabelsInLine(b, l1[0], 0, cases);
      if r.Success? {
        LabelsAppend(r.value, l1[1..], l2, cases);
      }
    }
  }

  lemma LabelsOne(b: seq<string>, line: string, cases: nat)
    ensures LabelsIn(b, [line], cases) == LabelsInLine(b, line, 0, cases)
  {
    assert [line][1..] == [];
  }

  /** Only the header of a row of tests is searched with success. */
  lemma {:induction false} RowLabels(b: seq<string>, c: Campaign, m: nat, cfg: string, tests: nat, cases: nat)
    requires Binary(cfg) && cfg != [] && (|b| >= m || |b| >= cases)
    requires forall j :: 0 <= j < tests ==> Binary(c.Inputs(j))
    ensures LabelsIn(b, RowLines(c, cfg, m, tests), cases) == Success(b + Repeat(cfg, Found(m, 0, cases)))
    decreases tests
  {
    var r := b + Repeat(cfg, Found(m, 0, cases));
    if tests == 0 {
      NoLabelInLine(b, "\n", 0, cases);
      HeaderLabels(b, m, cfg, cases);
      assert ':' !in RULE;
      NoLabelInLine(r, RULE, 0, cases);
      var h := HeaderLine(m, cfg);
      LabelsOne(b, "\n", cases);
      LabelsOne(b, h, cases);
      LabelsOne(r, RULE, cases);
      LabelsAppend(b, ["\n"], ["\n"], cases);
      LabelsAppend(b, ["\n", "\n"], [h], cases);
      LabelsAppend(b, ["\n", "\n", h], [RULE], cases);
      assert ["\n"] + ["\n"] == ["\n", "\n"] && ["\n", "\n"] + [h] == ["\n", "\n", h];
      assert ["\n", "\n", h] + [RULE] == RowLines(c, cfg, m, 0);
    } else {
      var line := ResultLine(c, m, tests - 1, cfg);
      RowLabels(b, c, m, cfg, tests - 1, cases);
      ResultLineIsLine(c, m, tests - 1, cfg);
      NoLabelInLine(r, line, 0, cases);
      NoLabelInLine(r, "\n", 0, cases);
      LabelsOne(r, line, cases);
      LabelsOne(r, "\n", cases);
      LabelsAppend(r, [line], ["\n"], cases);
      LabelsAppend(b, RowLines(c, cfg, m, tests - 1), [line] + ["\n"], cases);
      assert [line] + ["\n"] == [line, "\n"];
    }
  }

  /** Every m below `rows` as often as `count` says, in order. */
  function Order(count: nat -> nat, rows: nat): (o: seq<nat>)
    ensures forall i :: 0 <= i < |o| ==> o[i] < rows
  {
    if rows == 0 then [] else Order(count, rows - 1) + Repeat<nat>(rows - 1, count(rows - 1))
  }

  function LabelCount(cases: nat): nat -> nat {
    (m: nat) => Found(m, 0, cases)
  }

  /** Which configuration each label is of, after the first `rows` headers. */
  function LabelOrder(rows: nat, cases: nat): (o: seq<nat>)
    ensures forall i :: 0 <= i < |o| ==> o[i] < rows
  {
    Order(LabelCount(cases), rows)
  }

  /** Every m below `cases` has a place. */
  ghost predicate Everyone(count: nat -> nat, cases: nat) {
    forall m: nat :: m < cases ==> count(m) >= 1
  }

  lemma EveryoneFound(cases: nat)
    ensures Everyone(LabelCount(cases), cases)
  {
    forall m: nat | m < cases
      ensures LabelCount(cases)(m) >= 1
    {
      FoundShape(m, cases);
    }
  }

  lemma {:induction false} OrderLong(count: nat -> nat, rows: nat, cases: nat)
    requires Everyone(count, cases)
    ensures |Order(count, rows)| >= rows || |Order(count, rows)| >= cases
  {
    if 0 < rows {
      OrderLong(count, rows - 1, cases);
      assert rows - 1 < cases ==> count(rows - 1) >= 1;
    }
  }

  /** Later headers only append. */
  lemma {:induction false} OrderPrefix(count: nat -> nat, m: nat, rows: nat)
    requires m <= rows
    ensures Order(count, m) <= Order(count, rows)
  {
    if m < rows {
      OrderPrefix(count, m, rows - 1);
    }
  }

  /** The first place of m comes right after all smaller ones. */
  lemma OrderFirst(count: nat -> nat, m: nat, rows: nat)
    requires m < rows && count(m) >= 1
    ensures var n := |Order(count, m)|; n < |Order(count, rows)| && Order(count, rows)[n] == m
  {
    OrderPrefix(count, m + 1, rows);
    assert Order(count, m + 1)[|Order(count, m)|] == m;
  }

  lemma OrderBefore(count: nat -> nat, m: nat, rows: nat, i: nat)
    requires m <= rows && i < |Order(count, m)|
    ensures i < |Order(count, rows)| && Order(count, rows)[i] < m
  {
    OrderPrefix(count, m, rows);
    assert Order(count, m)[i] == Order(count, rows)[i];
  }

  /** How many labels the headers before configuration m have. */
  function EndsBefore(m: nat): nat {
    if m == 0 then 0 else EndsBefore(m - 1) + NumeralEnds(Decimal(m - 1))
  }

  lemma {:induction false} OrderLength(m: nat, cases: nat)
    requires m <= cases
    ensures |LabelOrder(m, cases)| == EndsBefore(m)
  {
    if m > 0 {
      OrderLength(m - 1, cases);
      FoundExactly(m - 1, cases);
    }
  }

  lemma {:induction false} EndsBeforeLong(m: nat)
    ensures EndsBefore(m) >= m
  {
    if m > 0 {
      EndsBeforeLong(m - 1);
      FoundShape(m - 1, m);
      FoundExactly(m - 1, m);
    }
  }

  /** There is a label for each of the script's `cases` lists exactly when the numerals below `rows`
      have that many numeral ends. */
  lemma EnoughLabels(rows: nat, cases: nat)
    ensures |LabelOrder(rows, cases)| >= cases <==> EndsBefore(rows) >= cases
  {
    if rows <= cases {
      OrderLength(rows, cases);
    } else {
      EveryoneFound(cases);
      OrderLong(LabelCount(cases), rows, cases);
      EndsBeforeLong(rows);
    }
  }

  /** One label per header up to configuration 9, but two for configuration 10. */
  predicate InOrder(o: seq<nat>, rows: nat) {
    && |o| >= rows
    && (rows <= 10 ==> |o| == rows)
    && (rows > 10 ==> |o| >= 12 && o[11] == 10)
    && forall i :: 0 <= i < rows && i < 11 ==> o[i] == i
  }

  lemma InOrderStep(o: seq<nat>, m: nat, n: nat)
    requires InOrder(o, m) && n >= 1 && (m < 10 ==> n == 1) && (m == 10 ==> n == 2)
    ensures InOrder(o + Repeat(m, n), m + 1)
  {
  }

  lemma {:induction false} OrderShape(rows: nat, cases: nat)
    requires rows <= cases
    ensures InOrder(LabelOrder(rows, cases), rows)
  {
    if rows > 0 {
      OrderShape(rows - 1, cases);
      FoundShape(rows - 1, cases);
      InOrderStep(LabelOrder(rows - 1, cases), rows - 1, Found(rows - 1, 0, cases));
    }
  }

  lemma PickRepeat(cfgs: seq<string>, o: seq<nat>, m: nat, n: nat)
    requires m < |cfgs| && forall i :: 0 <= i < |o| ==> o[i] < |cfgs|
    ensures Pick(cfgs, o + Repeat(m, n)) == Pick(cfgs, o) + Repeat(cfgs[m], n)
  {
  }

  // ---------------------------------------------------------------- any line at all

  function LabelIn(line: string): nat -> bool {
    (x: nat) => Contains(line, Decimal(x) + TAG)
  }

  /** Label y is found in the line, and the list has no entry y when it has been appended. */
  ghost predicate Missing(b: seq<string>, line: string, x: nat, y: nat) {
    LabelIn(line)(y) && |b| + CountFrom(LabelIn(line), x, y + 1) <= y
  }

  ghost predicate SomeMissing(b: seq<string>, line: string, x: nat, cases: nat) {
    exists y: nat :: x <= y < cases && Missing(b, line, x, y)
  }

  lemma MissingFurther(b: seq<string>, b': seq<string>, line: string, x: nat, cases: nat)
    requires |b'| == |b| + (if LabelIn(line)(x) then 1 else 0) && !Missing(b, line, x, x)
    ensures SomeMissing(b, line, x, cases) <==> SomeMissing(b', line, x + 1, cases)
  {
    if SomeMissing(b, line, x, cases) {
      var y: nat :| x <= y < cases && Missing(b, line, x, y);
      assert Missing(b', line, x + 1, y);
    }
    if SomeMissing(b', line, x + 1, cases) {
      var y: nat :| x + 1 <= y < cases && Missing(b', line, x + 1, y);
      assert Missing(b, line, x, y);
    }
  }

  /** Whatever the line, its search stops with an index error exactly when some label that is found is
      larger than the list is long by then. */
  lemma {:induction false} LabelErrorExactly(b: seq<string>, line: string, x: nat, cases: nat)
    requires x <= cases
    ensures LabelsInLine(b, line, x, cases).Failure? <==> SomeMissing(b, line, x, cases)
    ensures LabelsInLine(b, line, x, cases).Failure? ==> LabelsInLine(b, line, x, cases).error == IndexError
    decreases cases - x
  {
    if x < cases {
      CountOne(LabelIn(line), x);
      var b' := if LabelIn(line)(x) then b + [RStrip(Nth(Split(line, ':'), 1))] else b;
      if Missing(b, line, x, x) {
        assert SomeMissing(b, line, x, cases);
      } else {
        MissingFurther(b, b', line, x, cases);
        LabelErrorExactly(b', line, x + 1, cases);
      }
    }
  }

  /** And otherwise appends one entry for every label found. */
  lemma {:induction false} LabelsAppended(b: seq<string>, line: string, x: nat, cases: nat)
    requires x <= cases && LabelsInLine(b, line, x, cases).Success?
    ensures var entry := RStrip(Nth(Split(line, ':'), 1));
            LabelsInLine(b, line, x, cases).value == b + Repeat(entry, CountFrom(LabelIn(line), x, cases))
    decreases cases - x
  {
    var entry := RStrip(Nth(Split(line, ':'), 1));
    if x == cases {
      assert b + Repeat(entry, 0) == b;
    } else if LabelIn(line)(x) {
      LabelsAppended(b + [entry], line, x + 1, cases);
      RepeatStep(b, entry, CountFrom(LabelIn(line), x + 1, cases));
    } else {
      LabelsAppended(b, line, x + 1, cases);
    }
  }

  lemma CountOne(p: nat -> bool, x: nat)
    ensures CountFrom(p, x, x + 1) == if p(x) then 1 else 0
  {
  }

  /** Behind labels that are there already, a campaign appends its own. */
  lemma FileLabels(b: seq<string>, c: Campaign, cfgs: seq<string>, tests: nat, cases: nat)
    requires Uses(c, cfgs, tests)
    ensures LabelsIn(b, FileLines(c, cfgs, |cfgs|, tests), cases) ==
            Success(b + Pick(cfgs, LabelOrder(|cfgs|, cases)))
  {
    assert b + Pick(cfgs, LabelOrder(0, cases)) == b;
    for m := 0 to |cfgs|
      invariant LabelsIn(b, FileLines(c, cfgs, m, tests), cases) == Success(b + Pick(cfgs, LabelOrder(m, cases)))
    {
      NextHeader(b, c, cfgs, m, tests, cases);
    }
  }

  lemma NextHeader(b: seq<string>, c: Campaign, cfgs: seq<string>, m: nat, tests: nat, cases: nat)
    requires Uses(c, cfgs, tests) && m < |cfgs|
    requires LabelsIn(b, FileLines(c, cfgs, m, tests), cases) == Success(b + Pick(cfgs, LabelOrder(m, cases)))
    ensures LabelsIn(b, FileLines(c, cfgs, m + 1, tests), cases) == Success(b + Pick(cfgs, LabelOrder(m + 1, cases)))
  {
    EveryoneFound(cases);
    OrderLong(LabelCount(cases), m, cases);
    LabelsAppend(b, FileLines(c, cfgs, m, tests), RowLines(c, cfgs[m], m, tests), cases);
    RowLabels(b + Pick(cfgs, LabelOrder(m, cases)), c, m, cfgs[m], tests, cases);
    PickRepeat(cfgs, LabelOrder(m, cases), m, Found(m, 0, cases));
    Behind(b, Pick(cfgs, LabelOrder(m, cases)), Repeat(cfgs[m], Found(m, 0, cases)));
  }

  lemma Behind(a: seq<string>, b: seq<string>, c: seq<string>)
    ensures a + b + c == a + (b + c)
  {
  }

  ghost predicate AllDifferent(cfgs: seq<string>) {
    forall i, k :: 0 <= i < k < |cfgs| ==> cfgs[i] != cfgs[k]
  }

  /** Whatever number of configurations the script is set to, it reads the labels without an error.
      Set to that of the campaign, they name different configurations in order exactly when there are
      at most eleven: the header of configuration 10 also counts as configuration 0's. */
  lemma LabelsExactly(c: Campaign, cfgs: seq<string>, tests: nat, cases: nat)
    requires Uses(c, cfgs, tests)
    ensures var b := LabelsIn([], Lines(Text(c, |cfgs|, tests)), cases);
            && b == Success(Pick(cfgs, LabelOrder(|cfgs|, cases)))
            && (cases == |cfgs| <= 11 ==> cfgs <= b.value)
            && (cases == |cfgs| > 11 && AllDifferent(cfgs) ==> !(cfgs <= b.value))
  {
    PrintedLines(c, cfgs, tests);
    FileLabels([], c, cfgs, tests, cases);
    assert [] + Pick(cfgs, LabelOrder(|cfgs|, cases)) == Pick(cfgs, LabelOrder(|cfgs|, cases));
    if cases == |cfgs| {
      OrderShape(|cfgs|, |cfgs|);
      PrefixExactly(cfgs, LabelOrder(|cfgs|, |cfgs|));
    }
  }

  lemma PrefixExactly(cfgs: seq<string>, o: seq<nat>)
    requires InOrder(o, |cfgs|) && forall i :: 0 <= i < |o| ==> o[i] < |cfgs|
    ensures |cfgs| <= 11 ==> cfgs <= Pick(cfgs, o)
    ensures |cfgs| > 11 && AllDifferent(cfgs) ==> !(cfgs <= Pick(cfgs, o))
  {
    var b := Pick(cfgs, o);
    if |cfgs| > 11 {
      assert b[11] == cfgs[10];
    } else {
      assert b[..|cfgs|] == cfgs;
    }
  }
}
