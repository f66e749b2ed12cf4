/** Text as the C and Python programs see it: C strings, decimal numerals, lines. */
module TextFiles {

  const NUL: char := '\0'

  /** The string held by a character buffer: everything before its first NUL. */
  function CString(buffer: seq<char>): (s: string)
    ensures NUL !in s && |s| <= |buffer|
  {
    if buffer == [] || buffer[0] == NUL then [] else [buffer[0]] + CString(buffer[1..])
  }

  lemma {:induction false} CStringPadded(s: string, pad: seq<char>)
    requires NUL !in s && pad != [] && pad[0] == NUL
    ensures CString(s + pad) == s
  {
    if s == [] {
      assert s + pad == pad;
    } else {
      assert (s + pad)[1..] == s[1..] + pad;
      CStringPadded(s[1..], pad);
    }
  }

  function DigitChar(d: nat): (c: char)
    requires d < 10
    ensures '0' <= c <= '9'
  {
    (48 + d) as char
  }

  lemma DigitCharInjective(a: nat, b: nat)
    requires a < 10 && b < 10 && DigitChar(a) == DigitChar(b)
    ensures a == b
  {
    assert DigitChar(a) as int == 48 + a && DigitChar(b) as int == 48 + b;
  }

  /** The numeral that `%d` and `str` print for a natural number. */
  function Decimal(n: nat): (s: string)
    ensures |s| > 0
    ensures forall c :: c in s ==> '0' <= c <= '9'
    ensures n < 10 <==> |s| == 1
  {
    if n < 10 then [DigitChar(n)] else Decimal(n / 10) + [DigitChar(n % 10)]
  }

  /** The number a string of decimal digits denotes. */
  function NumeralValue(s: string): int {
    if s == [] then 0 else 10 * NumeralValue(s[..|s| - 1]) + (s[|s| - 1] as int - '0' as int)
  }

  /** A numeral denotes the number it was printed from. */
  lemma {:induction false} NumeralBack(n: nat)
    ensures NumeralValue(Decimal(n)) == n
  {
    if n < 10 {
      assert [DigitChar(n)][..0] == [];
    } else {
      NumeralBack(n / 10);
      assert Decimal(n)[..|Decimal(n)| - 1] == Decimal(n / 10);
    }
  }

  /** The lines of a text, each with its newline; the last may lack one. */
  function Lines(text: string): seq<string> {
    LinesFrom([], text)
  }

  function LinesFrom(pending: string, text: string): seq<string>
    decreases |text|
  {
    if text == [] then if pending == [] then [] else [pending]
    else if text[0] == '\n' then [pending + "\n"] + LinesFrom([], text[1..])
    else LinesFrom(pending + [text[0]], text[1..])
  }

  lemma {:induction false} FirstLine(pending: string, line: string, rest: string)
    requires '\n' !in line
    ensures LinesFrom(pending, line + "\n" + rest) == [pending + line + "\n"] + Lines(rest)
    decreases |line|
  {
    var text := line + "\n" + rest;
    if line == [] {
      assert text[1..] == rest && pending + line == pending;
    } else {
      assert text[1..] == line[1..] + "\n" + rest;
      FirstLine(pending + [line[0]], line[1..], rest);
      assert pending + [line[0]] + line[1..] == pending + line;
    }
  }

  /** Terminated lines, written one after the other. */
  function Unlines(lines: seq<string>): string {
    if lines == [] then [] else Unlines(lines[..|lines| - 1]) + lines[|lines| - 1]
  }

  predicate IsLine(s: string) {
    |s| > 0 && s[|s| - 1] == '\n' && '\n' !in s[..|s| - 1]
  }

  /** Splitting a text into lines recovers the terminated lines it was written from. */
  lemma {:induction false} LinesOfUnlines(lines: seq<string>, rest: string)
    requires forall l :: l in lines ==> IsLine(l)
    ensures Lines(Unlines(lines) + rest) == lines + Lines(rest)
    decreases |lines|
  {
    if lines == [] {
      assert Unlines(lines) + rest == rest;
    } else {
      var init, last := lines[..|lines| - 1], lines[|lines| - 1];
      assert IsLine(last);
      LinesOfUnlines(init, last + rest);
      LineFirst([], last, rest);
      assert [] + last == last;
      assert Unlines(lines) + rest == Unlines(init) + (last + rest);
      assert lines + Lines(rest) == init + ([last] + Lines(rest));
    }
  }

  lemma LineFirst(pending: string, line: string, rest: string)
    requires IsLine(line)
    ensures LinesFrom(pending, line + rest) == [pending + line] + Lines(rest)
  {
    var text := line[..|line| - 1];
    FirstLine(pending, text, rest);
    assert line == text + "\n" && pending + line == pending + text + "\n";
  }

  lemma {:induction false} UnlinesAppend(a: seq<string>, b: seq<string>)
    ensures Unlines(a + b) == Unlines(a) + Unlines(b)
    decreases |b|
  {
    if b == [] {
      assert a + b == a;
    } else {
      var init, last := b[..|b| - 1], b[|b| - 1];
      assert (a + b)[..|a + b| - 1] == a + init && (a + b)[|a + b| - 1] == last;
      UnlinesAppend(a, init);
      assert Unlines(a) + Unlines(init) + last == Unlines(a) + (Unlines(init) + last);
    }
  }

  /** The text ends where a line ends. */
  predicate Complete(text: string) {
    text == [] || text[|text| - 1] == '\n'
  }

  /** A file's lines after more lines were appended: an unterminated last line runs into the first
      new one. */
  function Extended(text: string, added: seq<string>): seq<string>
    requires added != []
  {
    PendingLines([], text);
    Grown(Lines(text), Complete(text), added)
  }

  function ExtendedFrom(pending: string, text: string, added: seq<string>): seq<string>
    requires added != []
  {
    PendingLines(pending, text);
    Grown(LinesFrom(pending, text), Complete(pending + text), added)
  }

  /** `lines` and then `added`, whose first line runs on from the last of `lines` if that is not
      complete. */
  function Grown(lines: seq<string>, complete: bool, added: seq<string>): seq<string>
    requires added != [] && (complete || lines != [])
  {
    if complete then lines + added
    else lines[..|lines| - 1] + [lines[|lines| - 1] + added[0]] + added[1..]
  }

  lemma GrownBehind(first: string, lines: seq<string>, complete: bool, added: seq<string>)
    requires added != [] && (complete || lines != [])
    ensures Grown([first] + lines, complete, added) == [first] + Grown(lines, complete, added)
  {
    if !complete {
      var all := [first] + lines;
      assert all[..|all| - 1] == [first] + lines[..|lines| - 1];
    }
  }

  lemma {:induction false} PendingLines(pending: string, text: string)
    ensures pending + text != [] ==> LinesFrom(pending, text) != []
    decreases |text|
  {
    if text != [] && text[0] != '\n' {
      PendingLines(pending + [text[0]], text[1..]);
    }
  }

  lemma {:induction false} LinesFromAppended(pending: string, text: string, added: seq<string>)
    requires added != [] && '\n' !in pending && forall l :: l in added ==> IsLine(l)
    ensures LinesFrom(pending, text + Unlines(added)) == ExtendedFrom(pending, text, added)
    decreases |text|
  {
    if text == [] {
      AppendedToPending(pending, added);
      assert [] + Unlines(added) == Unlines(added) && pending + [] == pending;
    } else {
      var tail := text[1..];
      assert (text + Unlines(added))[1..] == tail + Unlines(added);
      if text[0] == '\n' {
        LinesFromAppended([], tail, added);
        BehindNewline(pending, text, added);
      } else {
        LinesFromAppended(pending + [text[0]], tail, added);
        assert pending + [text[0]] + tail == pending + text;
      }
    }
  }

  lemma BehindNewline(pending: string, text: string, added: seq<string>)
    requires added != [] && text != [] && text[0] == '\n'
    ensures ExtendedFrom(pending, text, added) == [pending + "\n"] + ExtendedFrom([], text[1..], added)
  {
    var tail := text[1..];
    PendingLines([], tail);
    CompleteTail(pending, text);
    GrownBehind(pending + "\n", LinesFrom([], tail), Complete(tail), added);
  }

  lemma CompleteTail(pending: string, text: string)
    requires text != [] && text[0] == '\n'
    ensures Complete(pending + text) == Complete(text[1..]) == Complete([] + text[1..])
  {
    assert [] + text[1..] == text[1..];
  }

  lemma AppendedToPending(pending: string, added: seq<string>)
    requires added != [] && '\n' !in pending && forall l :: l in added ==> IsLine(l)
    ensures LinesFrom(pending, Unlines(added)) == if pending == [] then added else [pending + added[0]] + added[1..]
  {
    var first, rest := added[0], added[1..];
    assert first in added;
    UnlinesCons(first, rest);
    assert added == [first] + rest;
    LineFirst(pending, first, Unlines(rest));
    WrittenLines(rest);
    assert pending == [] ==> pending + first == first;
  }

  lemma UnlinesCons(first: string, rest: seq<string>)
    ensures Unlines([first] + rest) == first + Unlines(rest)
  {
    UnlinesAppend([first], rest);
    assert [first][..0] == [];
    assert Unlines([first]) == first;
  }

  lemma WrittenLines(lines: seq<string>)
    requires forall l :: l in lines ==> IsLine(l)
    ensures Lines(Unlines(lines)) == lines
  {
    LinesOfUnlines(lines, []);
    assert Unlines(lines) + [] == Unlines(lines) && lines + Lines([]) == lines;
  }

  /** The lines of a file to which lines were appended, whatever it held before. */
  lemma LinesAppended(text: string, added: seq<string>)
    requires added != [] && forall l :: l in added ==> IsLine(l)
    ensures Lines(text + Unlines(added)) == Extended(text, added)
  {
    LinesFromAppended([], text, added);
    assert [] + text == text;
  }

  /** How many whole lines a text has. */
  function WholeLines(text: string): nat {
    if Complete(text) then |Lines(text)|
    else
      PendingLines([], text);
      |Lines(text)| - 1
  }

  /** What precedes the first line that is appended to a text. */
  function LeftOver(text: string): string {
    if Complete(text) then ""
    else
      PendingLines([], text);
      Lines(text)[|Lines(text)| - 1]
  }

  /** Line by line: the old whole lines, then the new ones, the first of them behind whatever was
      left of an unterminated line. */
  lemma ExtendedAt(text: string, added: seq<string>, m: nat)
    requires added != [] && m < WholeLines(text) + |added|
    ensures var n := WholeLines(text);
            && |Extended(text, added)| == n + |added| && n <= |Lines(text)|
            && Extended(text, added)[m] ==
               if m < n then Lines(text)[m] else if m == n then LeftOver(text) + added[0] else added[m - n]
  {
    PendingLines([], text);
    GrownAt(Lines(text), Complete(text), added, m);
  }

  lemma GrownAt(lines: seq<string>, complete: bool, added: seq<string>, m: nat)
    requires added != [] && (complete || lines != [])
    requires m < |Grown(lines, complete, added)|
    ensures var n := if complete then |lines| else |lines| - 1;
            && |Grown(lines, complete, added)| == n + |added|
            && Grown(lines, complete, added)[m] ==
               if m < n then lines[m]
               else if m == n then (if complete then "" else lines[n]) + added[0]
               else added[m - n]
  {
    assert "" + added[0] == added[0];
  }

  lemma {:induction false} LinesContent(pending: string, text: string)
    ensures Unlines(LinesFrom(pending, text)) == pending + text
    decreases |text|
  {
    if text == [] {
      assert pending + text == pending;
      assert [pending][..0] == [];
    } else if text[0] == '\n' {
      LinesContent([], text[1..]);
      UnlinesCons(pending + "\n", LinesFrom([], text[1..]));
      CutAtNewline(pending, text);
    } else {
      LinesContent(pending + [text[0]], text[1..]);
      assert pending + text == pending + [text[0]] + text[1..];
    }
  }

  /** Every line but the last is terminated. */
  predicate Terminated(lines: seq<string>) {
    forall i :: 0 <= i < |lines| - 1 ==> IsLine(lines[i])
  }

  lemma TerminatedBehind(line: string, lines: seq<string>)
    requires IsLine(line) && Terminated(lines)
    ensures Terminated([line] + lines)
  {
    var all := [line] + lines;
    forall i | 0 <= i < |all| - 1
      ensures IsLine(all[i])
    {
      assert i > 0 ==> all[i] == lines[i - 1];
    }
  }

  lemma {:induction false} LinesTerminated(pending: string, text: string)
    requires '\n' !in pending
    ensures Terminated(LinesFrom(pending, text))
    decreases |text|
  {
    if text == [] {
    } else if text[0] == '\n' {
      LinesTerminated([], text[1..]);
      assert (pending + "\n")[..|pending|] == pending;
      TerminatedBehind(pending + "\n", LinesFrom([], text[1..]));
    } else {
      LinesTerminated(pending + [text[0]], text[1..]);
    }
  }

  lemma CutAtNewline(pending: string, text: string)
    requires text != [] && text[0] == '\n'
    ensures pending + text == pending + "\n" + ([] + text[1..])
  {
  }

  /** Reading a text line by line loses nothing: the lines are all of it, and every one but the last is
      terminated. */
  lemma LinesAreAll(text: string)
    ensures Unlines(Lines(text)) == text
    ensures Terminated(Lines(text))
  {
    LinesContent([], text);
    LinesTerminated([], text);
    assert [] + text == text;
  }
}
