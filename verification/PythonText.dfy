/** The string operations the Python script uses: substring test, `split` and `rstrip`. */
module PythonText {

  predicate MatchAt(s: string, sub: string, i: nat) {
    i + |sub| <= |s| && s[i..i + |sub|] == sub
  }

  /** `sub in s`. */
  predicate Contains(s: string, sub: string) {
    exists i: nat :: i <= |s| && MatchAt(s, sub, i)
  }

  /** A substring brings all its characters. */
  lemma ContainsChar(s: string, sub: string, c: char)
    requires c in sub && c !in s
    ensures !Contains(s, sub)
  {
    if Contains(s, sub) {
      var i: nat :| i <= |s| && MatchAt(s, sub, i);
      var k :| 0 <= k < |sub| && sub[k] == c;
      MatchedChar(s, sub, i, k);
      assert false;
    }
  }

  lemma MatchedChar(s: string, sub: string, i: nat, k: nat)
    requires MatchAt(s, sub, i) && k < |sub|
    ensures i + k < |s| && s[i + k] == sub[k] && sub[k] in s
  {
    assert s[i..i + |sub|][k] == s[i + k];
  }

  /** The fields of a string: `split` on one character. */
  function Split(s: string, c: char): (r: seq<string>)
    ensures r != []
    ensures c in s ==> |r| > 1
  {
    SplitFrom([], s, c)
  }

  function SplitFrom(pending: string, s: string, c: char): (r: seq<string>)
    ensures r != []
    ensures c in s ==> |r| > 1
    decreases |s|
  {
    if s == [] then [pending]
    else if s[0] == c then [pending] + SplitFrom([], s[1..], c)
    else SplitFrom(pending + [s[0]], s[1..], c)
  }

  function Join(fields: seq<string>, c: char): string {
    if fields == [] then []
    else if |fields| == 1 then fields[0]
    else fields[0] + [c] + Join(fields[1..], c)
  }

  lemma {:induction false} JoinAvoids(fields: seq<string>, c: char, x: char)
    requires x != c && forall f :: f in fields ==> x !in f
    ensures x !in Join(fields, c)
    decreases |fields|
  {
    if |fields| > 1 {
      JoinAvoids(fields[1..], c, x);
    }
    if fields != [] {
      assert fields[0] in fields;
    }
  }

  /** A suffix of the last field is a suffix of the whole. */
  lemma {:induction false} JoinLast(fields: seq<string>, last: string, end: string, c: char)
    ensures Join(fields + [last + end], c) == Join(fields + [last], c) + end
    decreases |fields|
  {
    if fields != [] {
      assert (fields + [last + end])[1..] == fields[1..] + [last + end];
      assert (fields + [last])[1..] == fields[1..] + [last];
      JoinLast(fields[1..], last, end, c);
    }
  }

  lemma {:induction false} SplitField(pending: string, field: string, rest: string, c: char)
    requires c !in field
    ensures SplitFrom(pending, field, c) == [pending + field]
    ensures SplitFrom(pending, field + [c] + rest, c) == [pending + field] + Split(rest, c)
    decreases |field|
  {
    if field == [] {
      assert pending + field == pending;
      assert (field + [c] + rest)[1..] == rest;
    } else {
      SplitField(pending + [field[0]], field[1..], rest, c);
      assert (field + [c] + rest)[1..] == field[1..] + [c] + rest;
      assert pending + [field[0]] + field[1..] == pending + field;
    }
  }

  /** Splitting undoes joining fields that do not contain the separator. */
  lemma {:induction false} SplitJoin(fields: seq<string>, c: char)
    requires fields != [] && forall f :: f in fields ==> c !in f
    ensures Split(Join(fields, c), c) == fields
    decreases |fields|
  {
    assert fields[0] in fields;
    if |fields| == 1 {
      SplitField([], fields[0], [], c);
      assert [] + fields[0] == fields[0] && fields == [fields[0]];
    } else {
      SplitJoin(fields[1..], c);
      SplitField([], fields[0], Join(fields[1..], c), c);
      assert [] + fields[0] == fields[0];
      assert fields == [fields[0]] + fields[1..];
    }
  }

  /** A prefix without the separator lies within the first field. */
  lemma PrefixOfFirst(fields: seq<string>, b: string, c: char)
    requires fields != [] && c !in b && forall f :: f in fields ==> c !in f
    ensures b <= Join(fields, c) <==> b <= fields[0]
  {
    if |fields| > 1 && b <= Join(fields, c) && |b| > |fields[0]| {
      PrefixChar(b, Join(fields, c), |fields[0]|);
      assert false;
    }
  }

  lemma PrefixChar(b: string, s: string, n: nat)
    requires b <= s && n < |b|
    ensures s[n] in b
  {
    assert b[n] == s[n];
  }

  /** The pattern is found right after the first field, or further on. */
  lemma ContainsStep(field: string, t: string, b: string, c: char)
    requires c !in field && c !in b
    ensures Contains(field + ([c] + t), [c] + b) <==> b <= t || Contains(t, [c] + b)
  {
    MatchAtSeparator(field, t, b, c);
    if Contains(t, [c] + b) {
      FoundFurther(field + [c], t, [c] + b);
    }
    var s, sub, n := field + ([c] + t), [c] + b, |field|;
    assert s == field + [c] + t;
    if Contains(s, sub) {
      var i: nat :| i <= |s| && MatchAt(s, sub, i);
      if i > n {
        MatchShift(field + [c], t, sub, i - n - 1);
      }
    }
    if b <= t {
      assert MatchAt(s, sub, n);
    }
  }

  lemma FoundFurther(before: string, t: string, sub: string)
    requires Contains(t, sub)
    ensures Contains(before + t, sub)
  {
    var i: nat :| i <= |t| && MatchAt(t, sub, i);
    MatchShift(before, t, sub, i);
    assert MatchAt(before + t, sub, |before| + i);
  }

  /** `b` starts one of the fields after the first. */
  predicate StartsField(fields: seq<string>, b: string) {
    exists k :: 1 <= k < |fields| && b <= fields[k]
  }

  lemma StartsFieldStep(fields: seq<string>, b: string)
    requires |fields| > 1
    ensures StartsField(fields, b) <==> b <= fields[1] || StartsField(fields[1..], b)
  {
    var rest := fields[1..];
    if StartsField(rest, b) {
      var k :| 1 <= k < |rest| && b <= rest[k];
      assert b <= fields[k + 1];
    }
    if StartsField(fields, b) {
      var k :| 1 <= k < |fields| && b <= fields[k];
      if k > 1 {
        assert b <= rest[k - 1];
      }
    }
  }

  /** A separator followed by a separator-free pattern is found in joined fields exactly when the
      pattern starts one of the fields after the first. */
  lemma {:induction false} ContainsField(fields: seq<string>, b: string, c: char)
    requires fields != [] && c !in b && forall f :: f in fields ==> c !in f
    ensures Contains(Join(fields, c), [c] + b) <==> StartsField(fields, b)
    decreases |fields|
  {
    assert fields[0] in fields;
    if |fields| == 1 {
      ContainsChar(Join(fields, c), [c] + b, c);
    } else {
      var rest := fields[1..];
      ContainsField(rest, b, c);
      PrefixOfFirst(rest, b, c);
      StartsFieldStep(fields, b);
      assert Join(fields, c) == fields[0] + ([c] + Join(rest, c));
      ContainsStep(fields[0], Join(rest, c), b, c);
    }
  }

  lemma MatchShift(before: string, t: string, sub: string, i: nat)
    ensures MatchAt(before + t, sub, |before| + i) <==> MatchAt(t, sub, i)
  {
    if i + |sub| <= |t| {
      assert (before + t)[|before| + i..|before| + i + |sub|] == t[i..i + |sub|];
    }
  }

  lemma MatchAtSeparator(field: string, t: string, b: string, c: char)
    requires c !in field
    ensures MatchAt(field + ([c] + t), [c] + b, |field|) <==> b <= t
    ensures forall i: nat :: i < |field| ==> !MatchAt(field + ([c] + t), [c] + b, i)
  {
    var s := field + ([c] + t);
    if |b| <= |t| {
      assert s[|field|..|field| + 1 + |b|] == [c] + t[..|b|];
      assert b <= t <==> t[..|b|] == b;
      assert [c] + t[..|b|] == [c] + b <==> t[..|b|] == b by {
        assert ([c] + t[..|b|])[1..] == t[..|b|] && ([c] + b)[1..] == b;
      }
    }
    forall i: nat | i < |field|
      ensures !MatchAt(s, [c] + b, i)
    {
      if MatchAt(s, [c] + b, i) {
        MatchedChar(s, [c] + b, i, 0);
        assert false;
      }
    }
  }

  /** Space, tab, line feed, vertical tab, form feed, carriage return. */
  predicate IsSpace(c: char) {
    c == ' ' || 9 <= c as int <= 13
  }

  /** `rstrip`. */
  function RStrip(s: string): string {
    if s != [] && IsSpace(s[|s| - 1]) then RStrip(s[..|s| - 1]) else s
  }

  /** `rstrip` removes exactly the white space at the end. */
  lemma {:induction false} RStripExactly(s: string)
    ensures RStrip(s) <= s && forall i :: |RStrip(s)| <= i < |s| ==> IsSpace(s[i])
    ensures RStrip(s) == [] || !IsSpace(RStrip(s)[|RStrip(s)| - 1])
  {
    if s != [] && IsSpace(s[|s| - 1]) {
      RStripExactly(s[..|s| - 1]);
    }
  }

  /** White space is the space and the characters from the tab, 9, to the carriage return, 13. */
  lemma StrippedCharacters(s: string, c: char)
    ensures c as int in {9, 10, 11, 12, 13, 32} ==> RStrip(s + [c]) == RStrip(s)
    ensures c as int !in {9, 10, 11, 12, 13, 32} ==> RStrip(s + [c]) == s + [c]
  {
    assert (s + [c])[..|s|] == s;
    assert ' ' as int == 32;
  }

  lemma RStripLine(s: string)
    requires s != [] && !IsSpace(s[|s| - 1])
    ensures RStrip(s) == s && RStrip(s + "\n") == s
  {
    assert (s + "\n")[..|s|] == s;
  }
}
