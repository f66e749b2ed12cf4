/** The buffered character macros of Software/stdio.h with their CR/LF translation: a writer for
    `__sputc_raw_r`/`__sputc_r`, a reader for `__sgetc_raw_r`/`__sgetc_r`. */
module TextStream {

  type Byte = b: int | 0 <= b < 256
  const CR: Byte := 13
  const LF: Byte := 10
  const EOF: int := -1

  // ---------------------------------------------------------------- the translation

  /** What writing a byte string in text mode puts in the file. */
  function Encode(s: seq<Byte>): seq<Byte> {
    if s == [] then [] else Encode(s[..|s| - 1]) + EncodeByte(s[|s| - 1])
  }

  function EncodeByte(c: Byte): seq<Byte> {
    if c == LF then [CR, LF] else [c]
  }

  /** How many bytes of the file the next character takes. */
  function Width(t: seq<Byte>): nat
    requires t != []
    ensures 1 <= Width(t) <= |t|
  {
    if t[0] == CR && |t| > 1 && t[1] == LF then 2 else 1
  }

  /** What reading a file in text mode returns. */
  function Decode(t: seq<Byte>): seq<Byte>
    decreases |t|
  {
    if t == [] then [] else [t[Width(t) - 1]] + Decode(t[Width(t)..])
  }

  lemma {:induction false} EncodeAppend(a: seq<Byte>, b: seq<Byte>)
    ensures Encode(a + b) == Encode(a) + Encode(b)
    decreases |b|
  {
    if b == [] {
      assert a + b == a;
    } else {
      assert (a + b)[..|a + b| - 1] == a + b[..|b| - 1];
      EncodeAppend(a, b[..|b| - 1]);
    }
  }

  lemma EncodeCons(c: Byte, s: seq<Byte>)
    ensures Encode([c] + s) == EncodeByte(c) + Encode(s)
  {
    EncodeAppend([c], s);
    assert [c][..0] == [];
  }

  lemma EncodeFirst(s: seq<Byte>)
    requires s != []
    ensures Encode(s) != [] && Encode(s)[0] != LF
  {
    assert s == [s[0]] + s[1..];
    EncodeCons(s[0], s[1..]);
  }

  /** A translated character is read back, whatever follows, unless that starts with a bare LF. */
  lemma DecodeOne(c: Byte, u: seq<Byte>)
    requires u != [] ==> u[0] != LF
    ensures Decode(EncodeByte(c) + u) == [c] + Decode(u)
  {
    var t := EncodeByte(c) + u;
    assert Width(t) == |EncodeByte(c)|;
    assert t[Width(t)..] == u;
  }

  /** Text mode round trip: for every byte string, with lone CRs and CR LF pairs of its own. */
  lemma {:induction false} DecodeEncode(s: seq<Byte>)
    ensures Decode(Encode(s)) == s
    decreases |s|
  {
    if s != [] {
      var c, rest := s[0], s[1..];
      assert s == [c] + rest;
      EncodeCons(c, rest);
      DecodeEncode(rest);
      if rest != [] {
        EncodeFirst(rest);
      }
      DecodeOne(c, Encode(rest));
    }
  }

  /** Every LF follows a CR. */
  predicate Paired(t: seq<Byte>) {
    forall i :: 0 <= i < |t| && t[i] == LF ==> i > 0 && t[i - 1] == CR
  }

  /** The other way round, a file survives exactly when every LF in it follows a CR. */
  lemma {:induction false} EncodeDecode(t: seq<Byte>)
    ensures Encode(Decode(t)) == t <==> Paired(t)
    decreases |t|
  {
    if t != [] {
      var w := Width(t);
      var rest, c := t[w..], t[w - 1];
      EncodeDecode(rest);
      EncodeCons(c, Decode(rest));
      EncodeDecodeStep(t, rest, Encode(Decode(rest)));
    }
  }

  /** One character of the argument, with `again` for what comes back of the rest. */
  lemma EncodeDecodeStep(t: seq<Byte>, rest: seq<Byte>, again: seq<Byte>)
    requires t != [] && rest == t[Width(t)..] && (again == rest <==> Paired(rest))
    ensures EncodeByte(t[Width(t) - 1]) + again == t <==> Paired(t)
  {
    var w := Width(t);
    var c := t[w - 1];
    if w == 1 && c == LF {
      assert (EncodeByte(c) + again)[0] == CR && t[0] == LF;
    } else {
      assert EncodeByte(c) == t[..w];
      assert t == t[..w] + rest;
      assert (EncodeByte(c) + again)[w..] == again;
      Shifted(t, rest, w);
    }
  }

  lemma Shifted(t: seq<Byte>, rest: seq<Byte>, w: nat)
    requires t != [] && w == Width(t) && rest == t[w..] && !(w == 1 && t[0] == LF)
    ensures Paired(t) <==> Paired(rest)
  {
    if Paired(rest) {
      forall i | 0 <= i < |t| && t[i] == LF
        ensures i > 0 && t[i - 1] == CR
      {
        if i >= w {
          assert rest[i - w] == LF;
        }
      }
    }
    if Paired(t) {
      forall i | 0 <= i < |rest| && rest[i] == LF
        ensures i > 0 && rest[i - 1] == CR
      {
        assert t[i + w] == LF;
      }
    }
  }

  // ---------------------------------------------------------------- the writer

  class Writer {
    const buf: array<Byte>
    const lbfsize: int
    const scle: bool
    var p: nat
    var w: int
    var out: seq<Byte>

    /** Fully buffered (`_lbfsize` 0) or line buffered (`_lbfsize` is minus the size). */
    ghost predicate Valid()
      reads this, buf
    {
      && buf.Length > 0 && (lbfsize == 0 || lbfsize == -buf.Length)
      && p <= buf.Length
      && p + w == (if lbfsize == 0 then buf.Length else 0)
      && (lbfsize != 0 ==> LF !in buf[..p])
    }

    /** Everything put so far: flushed bytes, then the pending ones. */
    ghost function Contents(): seq<Byte>
      reads this, buf
      requires p <= buf.Length
    {
      out + buf[..p]
    }

    constructor (size: nat, lineBuffered: bool, scle: bool)
      requires size > 0
      ensures Valid() && fresh(buf) && Contents() == [] && this.scle == scle
      ensures buf.Length == size && lbfsize == if lineBuffered then 0 - buf.Length else 0
    {
      buf := new Byte[size](_ => 0);
      var n: int := size;
      lbfsize := if lineBuffered then -n else 0;
      this.scle := scle;
      p, w, out := 0, if lineBuffered then 0 else size, [];
    }

    /** Hand all pending bytes to the file. */
    method Flush()
      requires buf.Length > 0 && (lbfsize == 0 || lbfsize == -buf.Length) && p <= buf.Length
      modifies this
      ensures Valid() && p == 0 && out == old(Contents())
    {
      out := out + buf[..p];
      p := 0;
      w := if lbfsize != 0 then 0 else buf.Length;
    }

    /** `__swbuf_r`, which is not in the repository: the contract the macros rely on. The byte goes
        after the pending ones, a full buffer is flushed first, and a line-buffered stream is
        flushed up to and including a newline. */
    method Swbuf(c: Byte)
      requires buf.Length > 0 && (lbfsize == 0 || lbfsize == -buf.Length) && p <= buf.Length
      requires lbfsize != 0 ==> LF !in buf[..p]
      modifies this, buf
      ensures Valid() && Contents() == old(Contents()) + [c]
      ensures lbfsize != 0 && c == LF ==> p == 0
    {
      ghost var before := Contents();
      if p >= buf.Length {
        Flush();
      }
      assert Contents() == before;
      buf[p] := c;
      p := p + 1;
      assert buf[..p] == buf[..p - 1] + [c];
      w := (if lbfsize != 0 then 0 else buf.Length) - p;
      if p == buf.Length || (lbfsize != 0 && c == LF) {
        Flush();
      }
    }

    /** `__sputc_raw_r`. Nothing is lost or reordered, the slow path is taken exactly when the
        buffer is full or a line-buffered newline arrives, and otherwise nothing is flushed. */
    method PutRaw(c: Byte) returns (r: Byte, ghost slow: bool)
      requires Valid()
      modifies this, buf
      ensures Valid() && Contents() == old(Contents()) + [c] && r == c
      ensures slow <==> old(p) == buf.Length || (lbfsize != 0 && c == LF)
      ensures !slow ==> out == old(out) && p == old(p) + 1
      ensures lbfsize != 0 && c == LF ==> p == 0
    {
      slow := false;
      r := c;
      w := w - 1;
      if w < 0 {
        if w >= lbfsize {
          buf[p] := c;
          if buf[p] != LF {
            p := p + 1;
          } else {
            slow := true;
            Swbuf(LF);
          }
        } else {
          slow := true;
          Swbuf(c);
        }
      } else {
        buf[p] := c;
        p := p + 1;
      }
    }

    /** `__sputc_r`. */
    method Put(c: Byte) returns (r: Byte)
      requires Valid()
      modifies this, buf
      ensures Valid() && Contents() == old(Contents()) + (if scle then EncodeByte(c) else [c]) && r == c
      ensures lbfsize != 0 && c == LF ==> p == 0
    {
      ghost var slow;
      if scle && c == LF {
        r, slow := PutRaw(CR);
      }
      r, slow := PutRaw(c);
    }

    /** Any number of puts. */
    method PutAll(s: seq<Byte>)
      requires Valid()
      modifies this, buf
      ensures Valid() && Contents() == old(Contents()) + Written(s, scle)
    {
      ghost var before := Contents();
      assert before + Written([], scle) == before;
      for i := 0 to |s|
        invariant Valid() && Contents() == before + Written(s[..i], scle)
      {
        var r := Put(s[i]);
        WrittenNext(before, s, i, scle);
      }
      assert s[..|s|] == s;
    }
  }

  /** What writing a byte string puts in the file, with and without translation. */
  function Written(s: seq<Byte>, scle: bool): seq<Byte> {
    if scle then Encode(s) else s
  }

  lemma WrittenNext(before: seq<Byte>, s: seq<Byte>, i: nat, scle: bool)
    requires i < |s|
    ensures before + Written(s[..i + 1], scle) ==
            before + Written(s[..i], scle) + if scle then EncodeByte(s[i]) else [s[i]]
  {
    assert s[..i + 1] == s[..i] + [s[i]];
    assert s[..i + 1][..i] == s[..i];
  }

  // ---------------------------------------------------------------- the reader

  /** What reading a file returns, with and without translation. */
  function Text(t: seq<Byte>, scle: bool): seq<Byte> {
    if scle then Decode(t) else t
  }

  /** A byte that is not a line feed goes back where it came from. */
  lemma AfterReturn(u: seq<Byte>, tail: seq<Byte>, c: int, rest: seq<Byte>)
    requires u != [] && u[0] == CR && tail == u[1..]
    requires if tail == [] then c == EOF && rest == [] else c == tail[0] && rest == tail[1..]
    ensures if c == LF then Width(u) == 2 && u[1] == LF && rest == u[2..]
            else Width(u) == 1 && (if c == EOF then rest else [c] + rest) == u[1..]
  {
  }

  lemma NextOfText(t: seq<Byte>, scle: bool, c: int, rest: seq<Byte>)
    requires t != [] && if scle then c == t[Width(t) - 1] && rest == t[Width(t)..] else c == t[0] && rest == t[1..]
    ensures Text(t, scle) == [c] + Text(rest, scle)
  {
  }

  class Reader {
    const buf: array<Byte>
    const scle: bool
    var p: nat
    var r: int
    var rest: seq<Byte>

    ghost predicate Valid()
      reads this, buf
    {
      buf.Length > 0 && 0 <= r && p + r <= buf.Length
    }

    /** The bytes still to be read: those in the buffer, then those not fetched yet. */
    ghost function Unread(): seq<Byte>
      reads this, buf
      requires Valid()
    {
      buf[p..p + r] + rest
    }

    constructor (file: seq<Byte>, size: nat, scle: bool)
      requires size > 0
      ensures Valid() && fresh(buf) && Unread() == file && this.scle == scle
    {
      buf := new Byte[size](_ => 0);
      this.scle := scle;
      p, r, rest := 0, 0, file;
    }

    /** `__srget_r`, which is not in the repository: refill the empty buffer with a non-empty chunk
        of any length the file and the buffer allow, and return its first byte; or report the end
        of the file. */
    method Srget() returns (c: int)
      requires buf.Length > 0 && r == -1
      modifies this, buf
      ensures Valid()
      ensures old(rest) == [] ==> c == EOF && Unread() == []
      ensures old(rest) != [] ==> c == old(rest)[0] && Unread() == old(rest)[1..] && p > 0 && buf[p - 1] == c
    {
      p, r := 0, 0;
      if rest == [] {
        return EOF;
      }
      var n: nat :| 1 <= n <= |rest| && n <= buf.Length;
      forall i | 0 <= i < n {
        buf[i] := rest[i];
      }
      ghost var all := rest;
      r := n - 1;
      rest := rest[n..];
      p := 1;
      c := buf[0];
      assert buf[1..n] == all[1..n];
      assert all[1..] == all[1..n] + all[n..];
    }

    /** `__sgetc_raw_r`. */
    method GetRaw() returns (c: int)
      requires Valid()
      modifies this, buf
      ensures Valid()
      ensures old(Unread()) == [] ==> c == EOF && Unread() == []
      ensures old(Unread()) != [] ==> c == old(Unread())[0] && Unread() == old(Unread())[1..]
      ensures old(Unread()) != [] ==> p > 0 && buf[p - 1] == c
    {
      ghost var before := Unread();
      r := r - 1;
      if r < 0 {
        assert before == rest;
        c := Srget();
      } else {
        c := buf[p];
        p := p + 1;
        assert buf[p..p + r] + rest == before[1..];
      }
    }

    /** `ungetc` of the byte just read, or of EOF, which does nothing. */
    method Ungetc(c: int)
      requires Valid() && (c != EOF ==> p > 0 && buf[p - 1] == c)
      modifies this
      ensures Valid() && Unread() == (if c == EOF then old(Unread()) else [c] + old(Unread()))
    {
      if c != EOF {
        p := p - 1;
        r := r + 1;
        assert r > 0 && buf[p] == c;
        assert buf[p..p + r] == [c] + buf[p + 1..p + r];
      }
    }

    /** `__sgetc_r`. The result and what is left depend on the unread bytes only, not on how they
        are spread over the buffer and the refills to come. */
    method Get() returns (c: int)
      requires Valid()
      modifies this, buf
      ensures Valid()
      ensures var u := old(Unread());
              if u == [] then c == EOF && Unread() == []
              else if scle then c == u[Width(u) - 1] && Unread() == u[Width(u)..]
              else c == u[0] && Unread() == u[1..]
      ensures c != EOF ==> Text(old(Unread()), scle) == [c] + Text(Unread(), scle)
    {
      ghost var u := Unread();
      c := GetRaw();
      ghost var rest' := Unread();
      if scle && c == CR {
        var c2 := GetRaw();
        AfterReturn(u, rest', c2, Unread());
        if c2 == LF {
          c := c2;
          rest' := Unread();
        } else {
          Ungetc(c2);
        }
      }
      assert Unread() == rest';
      if c != EOF {
        NextOfText(u, scle, c, rest');
      }
    }

    /** Reading to the end. */
    method GetAll() returns (s: seq<Byte>)
      requires Valid()
      modifies this, buf
      ensures Valid() && Unread() == []
      ensures s == Text(old(Unread()), scle)
    {
      s := [];
      ghost var goal := Text(Unread(), scle);
      var done := false;
      while !done
        invariant Valid() && s + Text(Unread(), scle) == goal && (done ==> Unread() == [])
        decreases !done, |Unread()|
      {
        var c := Get();
        if c == EOF {
          done := true;
        } else {
          Shift(s, c, Text(Unread(), scle));
          s := s + [c];
        }
      }
      assert Text([], scle) == [];
    }
  }

  lemma Shift(s: seq<Byte>, c: Byte, t: seq<Byte>)
    ensures s + ([c] + t) == s + [c] + t
  {
  }

  /** Writing any bytes through any buffer, in either buffering discipline, and reading the file
      back through any other buffer with any refills, returns the bytes. */
  method CopyThrough(s: seq<Byte>, writeSize: nat, lineBuffered: bool, readSize: nat, scle: bool) returns (t: seq<Byte>)
    requires writeSize > 0 && readSize > 0
    ensures t == s
  {
    var writer := new Writer(writeSize, lineBuffered, scle);
    writer.PutAll(s);
    writer.Flush();
    assert writer.out == Written(s, scle);
    var reader := new Reader(writer.out, readSize, scle);
    t := reader.GetAll();
    DecodeEncode(s);
  }
}
