/** Masked read-modify-write of device words (Software/socal.h) and the packed fields of the
    GPIO configuration registers (Software/alt_gpio.h). */
module Registers {

  type Word = bv32

  /** The fields of CFG_REG1 and CFG_REG2. */
  datatype Field =
    | APB_DATA_WIDTH | NUM_PORTS | PORTA_SINGLE_CTL | PORTB_SINGLE_CTL | PORTC_SINGLE_CTL | PORTD_SINGLE_CTL
    | HW_PORTA | PORTA_INTR | DEBOUNCE | ADD_ENC_PARAMS | GPIO_ID | ENC_ID_WIDTH
    | PWIDTH_A | PWIDTH_B | PWIDTH_C | PWIDTH_D
  {
    predicate InReg2() { PWIDTH_A? || PWIDTH_B? || PWIDTH_C? || PWIDTH_D? }
  }

  /** `_SET_MSK`. */
  function SetMsk(f: Field): Word {
    match f
    case APB_DATA_WIDTH => 0x00000003
    case NUM_PORTS => 0x0000000c
    case PORTA_SINGLE_CTL => 0x00000010
    case PORTB_SINGLE_CTL => 0x00000020
    case PORTC_SINGLE_CTL => 0x00000040
    case PORTD_SINGLE_CTL => 0x00000080
    case HW_PORTA => 0x00000100
    case PORTA_INTR => 0x00001000
    case DEBOUNCE => 0x00002000
    case ADD_ENC_PARAMS => 0x00004000
    case GPIO_ID => 0x00008000
    case ENC_ID_WIDTH => 0x001f0000
    case PWIDTH_A => 0x0000001f
    case PWIDTH_B => 0x000003e0
    case PWIDTH_C => 0x00007c00
    case PWIDTH_D => 0x000f8000
  }

  /** `_CLR_MSK`. */
  function ClrMsk(f: Field): Word {
    match f
    case APB_DATA_WIDTH => 0xfffffffc
    case NUM_PORTS => 0xfffffff3
    case PORTA_SINGLE_CTL => 0xffffffef
    case PORTB_SINGLE_CTL => 0xffffffdf
    case PORTC_SINGLE_CTL => 0xffffffbf
    case PORTD_SINGLE_CTL => 0xffffff7f
    case HW_PORTA => 0xfffffeff
    case PORTA_INTR => 0xffffefff
    case DEBOUNCE => 0xffffdfff
    case ADD_ENC_PARAMS => 0xffffbfff
    case GPIO_ID => 0xffff7fff
    case ENC_ID_WIDTH => 0xffe0ffff
    case PWIDTH_A => 0xffffffe0
    case PWIDTH_B => 0xfffffc1f
    case PWIDTH_C => 0xffff83ff
    case PWIDTH_D => 0xfff07fff
  }

  /** The values a field of its width can hold. */
  function Limit(f: Field): Word {
    match f
    case APB_DATA_WIDTH => 0x3
    case NUM_PORTS => 0x3
    case ENC_ID_WIDTH => 0x1f
    case PWIDTH_A => 0x1f
    case PWIDTH_B => 0x1f
    case PWIDTH_C => 0x1f
    case PWIDTH_D => 0x1f
    case _ => 0x1
  }

  /** The shifts of `_GET` and `_SET`, by the field's `_LSB`. */
  function Down(f: Field, v: Word): Word {
    match f
    case APB_DATA_WIDTH => v >> 0
    case NUM_PORTS => v >> 2
    case PORTA_SINGLE_CTL => v >> 4
    case PORTB_SINGLE_CTL => v >> 5
    case PORTC_SINGLE_CTL => v >> 6
    case PORTD_SINGLE_CTL => v >> 7
    case HW_PORTA => v >> 8
    case PORTA_INTR => v >> 12
    case DEBOUNCE => v >> 13
    case ADD_ENC_PARAMS => v >> 14
    case GPIO_ID => v >> 15
    case ENC_ID_WIDTH => v >> 16
    case PWIDTH_A => v >> 0
    case PWIDTH_B => v >> 5
    case PWIDTH_C => v >> 10
    case PWIDTH_D => v >> 15
  }

  function Up(f: Field, v: Word): Word {
    match f
    case APB_DATA_WIDTH => v << 0
    case NUM_PORTS => v << 2
    case PORTA_SINGLE_CTL => v << 4
    case PORTB_SINGLE_CTL => v << 5
    case PORTC_SINGLE_CTL => v << 6
    case PORTD_SINGLE_CTL => v << 7
    case HW_PORTA => v << 8
    case PORTA_INTR => v << 12
    case DEBOUNCE => v << 13
    case ADD_ENC_PARAMS => v << 14
    case GPIO_ID => v << 15
    case ENC_ID_WIDTH => v << 16
    case PWIDTH_A => v << 0
    case PWIDTH_B => v << 5
    case PWIDTH_C => v << 10
    case PWIDTH_D => v << 15
  }

  /** `_GET`. */
  function Get(f: Field, value: Word): Word {
    Down(f, value & SetMsk(f))
  }

  /** `_SET`. */
  function Set(f: Field, value: Word): Word {
    Up(f, value) & SetMsk(f)
  }

  function Replaced(word: Word, msk: Word, src: Word): Word {
    (word & !msk) | (src & msk)
  }

  // ---------------------------------------------------------------- one write

  /** Fields of one register do not overlap. */
  lemma Disjoint(f: Field, g: Field)
    requires f != g && f.InReg2() == g.InReg2()
    ensures SetMsk(f) & SetMsk(g) == 0
  {
  }

  lemma ClearIsComplement(f: Field)
    ensures ClrMsk(f) == !SetMsk(f)
  {
  }

  lemma GetOfSetLow(f: Field, v: Word)
    requires !f.InReg2() && SetMsk(f) < 0x100
    ensures Get(f, Set(f, v)) == v & Limit(f)
  {
    match f
    case APB_DATA_WIDTH => assert (((v << 0) & 0x00000003) & 0x00000003) >> 0 == v & 0x3;
    case NUM_PORTS => assert (((v << 2) & 0x0000000c) & 0x0000000c) >> 2 == v & 0x3;
    case PORTA_SINGLE_CTL => assert (((v << 4) & 0x00000010) & 0x00000010) >> 4 == v & 0x1;
    case PORTB_SINGLE_CTL => assert (((v << 5) & 0x00000020) & 0x00000020) >> 5 == v & 0x1;
    case PORTC_SINGLE_CTL => assert (((v << 6) & 0x00000040) & 0x00000040) >> 6 == v & 0x1;
    case PORTD_SINGLE_CTL => assert (((v << 7) & 0x00000080) & 0x00000080) >> 7 == v & 0x1;
    case _ =>
  }

  lemma GetOfSetHigh(f: Field, v: Word)
    requires !f.InReg2() && SetMsk(f) >= 0x100
    ensures Get(f, Set(f, v)) == v & Limit(f)
  {
    match f
    case HW_PORTA => assert (((v << 8) & 0x00000100) & 0x00000100) >> 8 == v & 0x1;
    case PORTA_INTR => assert (((v << 12) & 0x00001000) & 0x00001000) >> 12 == v & 0x1;
    case DEBOUNCE => assert (((v << 13) & 0x00002000) & 0x00002000) >> 13 == v & 0x1;
    case ADD_ENC_PARAMS => assert (((v << 14) & 0x00004000) & 0x00004000) >> 14 == v & 0x1;
    case GPIO_ID => assert (((v << 15) & 0x00008000) & 0x00008000) >> 15 == v & 0x1;
    case ENC_ID_WIDTH => assert (((v << 16) & 0x001f0000) & 0x001f0000) >> 16 == v & 0x1f;
    case _ =>
  }

  lemma GetOfSetReg2(f: Field, v: Word)
    requires f.InReg2()
    ensures Get(f, Set(f, v)) == v & Limit(f)
  {
    match f
    case PWIDTH_A => assert (((v << 0) & 0x0000001f) & 0x0000001f) >> 0 == v & 0x1f;
    case PWIDTH_B => assert (((v << 5) & 0x000003e0) & 0x000003e0) >> 5 == v & 0x1f;
    case PWIDTH_C => assert (((v << 10) & 0x00007c00) & 0x00007c00) >> 10 == v & 0x1f;
    case PWIDTH_D => assert (((v << 15) & 0x000f8000) & 0x000f8000) >> 15 == v & 0x1f;
    case _ =>
  }

  /** `_GET` reads back what `_SET` put in place, cut to the width of the field. */
  lemma GetOfSet(f: Field, v: Word)
    ensures Get(f, Set(f, v)) == v & Limit(f)
  {
    if f.InReg2() {
      GetOfSetReg2(f, v);
    } else if SetMsk(f) < 0x100 {
      GetOfSetLow(f, v);
    } else {
      GetOfSetHigh(f, v);
    }
  }

  /** `_SET` gives nothing outside the field, however large the value. */
  lemma SetWithinMask(f: Field, v: Word)
    ensures Set(f, v) & SetMsk(f) == Set(f, v)
  {
    Remasked(Up(f, v), SetMsk(f));
  }

  lemma Remasked(a: Word, msk: Word)
    ensures a & msk & msk == a & msk
  {
  }

  /** `_GET` depends on the field's own bits only. */
  lemma GetWithinMask(f: Field, a: Word, b: Word)
    requires a & SetMsk(f) == b & SetMsk(f)
    ensures Get(f, a) == Get(f, b)
  {
  }

  lemma ReplacedOther(word: Word, msk: Word, src: Word, other: Word)
    requires msk & other == 0
    ensures Replaced(word, msk, src) & other == word & other
  {
  }

  /** `after` takes the bits of `msk` from `src` and all others from `before`. */
  predicate Changed(before: Word, after: Word, msk: Word, src: Word) {
    after & msk == src & msk && after & !msk == before & !msk
  }

  lemma OrMasks(word: Word, bits: Word)
    ensures (word | bits) & bits == bits && (word | bits) & !bits == word & !bits
    ensures bits & bits == bits
  {
  }

  lemma OrChanges(word: Word, bits: Word)
    ensures Changed(word, word | bits, bits, bits)
  {
    OrMasks(word, bits);
  }

  lemma AndNotMasks(word: Word, bits: Word)
    ensures word & !bits & bits == 0 && word & !bits & !bits == word & !bits
    ensures 0 & bits == 0
  {
  }

  lemma AndNotChanges(word: Word, bits: Word)
    ensures Changed(word, word & !bits, bits, 0)
  {
    AndNotMasks(word, bits);
  }

  lemma XorMasks(word: Word, bits: Word)
    ensures (word ^ bits) & bits == !word & bits && (word ^ bits) & !bits == word & !bits
  {
  }

  /** `after` has the given bits inverted and all others of `before`. */
  predicate Toggled(before: Word, after: Word, bits: Word) {
    Changed(before, after, bits, !before)
  }

  lemma XorChanges(word: Word, bits: Word)
    ensures Toggled(word, word ^ bits, bits)
  {
    XorMasks(word, bits);
  }

  lemma ReplacedMasks(word: Word, msk: Word, src: Word)
    ensures Replaced(word, msk, src) & msk == src & msk
    ensures Replaced(word, msk, src) & !msk == word & !msk
  {
  }

  lemma ReplacedChanges(word: Word, msk: Word, src: Word)
    ensures Changed(word, Replaced(word, msk, src), msk, src)
  {
    ReplacedMasks(word, msk, src);
  }

  /** The masked and the other bits are all there is: a word is what `Changed` says of it. */
  lemma ChangedOnce(before: Word, after: Word, after': Word, msk: Word, src: Word)
    requires Changed(before, after, msk, src) && Changed(before, after', msk, src)
    ensures after == after'
  {
    Halves(after, msk);
    Halves(after', msk);
  }

  lemma Halves(word: Word, msk: Word)
    ensures word == (word & msk) | (word & !msk)
  {
  }

  /** The clear mask of a field makes it read 0 and keeps all other bits. */
  lemma ClearedByMask(word: Word, f: Field)
    ensures Changed(word, word & ClrMsk(f), SetMsk(f), 0)
    ensures Get(f, word & ClrMsk(f)) == 0
  {
    ClearIsComplement(f);
    AndNotChanges(word, SetMsk(f));
    GetWithinMask(f, word & ClrMsk(f), 0);
    GetOfZero(f);
  }

  lemma GetOfZero(f: Field)
    ensures Get(f, 0) == 0
  {
  }

  // ---------------------------------------------------------------- registers and runs of writes

  datatype Write = Write(field: Field, value: Word)

  /** The word after a run of field writes. */
  function After(word: Word, writes: seq<Write>): Word {
    if writes == [] then word
    else
      var w := writes[|writes| - 1];
      Replaced(After(word, writes[..|writes| - 1]), SetMsk(w.field), Set(w.field, w.value))
  }

  /** The value last written to a field, cut to its width; what the word held if there is none. */
  function LastWritten(word: Word, writes: seq<Write>, f: Field): Word {
    if writes == [] then Get(f, word)
    else if writes[|writes| - 1].field == f then writes[|writes| - 1].value & Limit(f)
    else LastWritten(word, writes[..|writes| - 1], f)
  }

  /** All fields lie in one register. */
  predicate OneRegister(reg2: bool, writes: seq<Write>) {
    forall w :: w in writes ==> w.field.InReg2() == reg2
  }

  /** Under any run of writes to the fields of a register the word behaves like a record: every
      field reads back the last value written to it, and bits outside all written fields, defined
      or not, never change. */
  lemma RecordOfFields(word: Word, reg2: bool, writes: seq<Write>, f: Field, others: Word)
    requires OneRegister(reg2, writes) && f.InReg2() == reg2
    requires forall w :: w in writes ==> SetMsk(w.field) & others == 0
    ensures Get(f, After(word, writes)) == LastWritten(word, writes, f)
    ensures After(word, writes) & others == word & others
  {
    FieldReadsBack(word, reg2, writes, f);
    OthersStay(word, writes, others);
  }

  lemma {:induction false} FieldReadsBack(word: Word, reg2: bool, writes: seq<Write>, f: Field)
    requires OneRegister(reg2, writes) && f.InReg2() == reg2
    ensures Get(f, After(word, writes)) == LastWritten(word, writes, f)
    decreases |writes|
  {
    if writes != [] {
      var init, w := writes[..|writes| - 1], writes[|writes| - 1];
      FieldReadsBack(word, reg2, init, f);
      assert w in writes;
      OneWrite(After(word, init), w, f);
    }
  }

  lemma {:induction false} OthersStay(word: Word, writes: seq<Write>, others: Word)
    requires forall w :: w in writes ==> SetMsk(w.field) & others == 0
    ensures After(word, writes) & others == word & others
    decreases |writes|
  {
    if writes != [] {
      var init, w := writes[..|writes| - 1], writes[|writes| - 1];
      OthersStay(word, init, others);
      assert w in writes;
      ReplacedOther(After(word, init), SetMsk(w.field), Set(w.field, w.value), others);
    }
  }

  lemma OneWrite(before: Word, w: Write, f: Field)
    requires w.field.InReg2() == f.InReg2()
    ensures Get(f, Replaced(before, SetMsk(w.field), Set(w.field, w.value)))
            == if w.field == f then w.value & Limit(f) else Get(f, before)
  {
    if w.field == f {
      WriteSame(before, f, w.value);
    } else {
      Disjoint(w.field, f);
      WriteOther(before, SetMsk(w.field), Set(w.field, w.value), f);
    }
  }

  lemma WriteSame(before: Word, f: Field, v: Word)
    ensures Get(f, Replaced(before, SetMsk(f), Set(f, v))) == v & Limit(f)
  {
    GetOfSet(f, v);
    ReplacedMasks(before, SetMsk(f), Set(f, v));
    GetWithinMask(f, Replaced(before, SetMsk(f), Set(f, v)), Set(f, v));
  }

  lemma WriteOther(before: Word, msk: Word, src: Word, f: Field)
    requires msk & SetMsk(f) == 0
    ensures Get(f, Replaced(before, msk, src)) == Get(f, before)
  {
    ReplacedOther(before, msk, src, SetMsk(f));
    GetWithinMask(f, Replaced(before, msk, src), before);
  }

  /** A device word, as the access macros see it. */
  class DeviceWord {
    var word: Word

    constructor (word: Word)
      ensures this.word == word
    {
      this.word := word;
    }

    method WriteWord(src: Word)
      modifies this
      ensures word == src
    {
      word := src;
    }

    method ReadWord() returns (r: Word)
      ensures r == word
    {
      r := word;
    }

    /** The given bits become 1, all others stay. */
    method SetBits(bits: Word)
      modifies this
      ensures Changed(old(word), word, bits, bits)
    {
      var r := ReadWord();
      OrChanges(r, bits);
      WriteWord(r | bits);
    }

    /** The given bits become 0, all others stay. */
    method ClrBits(bits: Word)
      modifies this
      ensures Changed(old(word), word, bits, 0)
    {
      var r := ReadWord();
      AndNotChanges(r, bits);
      WriteWord(r & !bits);
    }

    /** The given bits are inverted, all others stay. */
    method XorBits(bits: Word)
      modifies this
      ensures Toggled(old(word), word, bits)
    {
      var r := ReadWord();
      XorChanges(r, bits);
      WriteWord(r ^ bits);
    }

    /** The masked bits become those of `src`, all others stay. */
    method ReplBits(msk: Word, src: Word)
      modifies this
      ensures Changed(old(word), word, msk, src)
    {
      var r := ReadWord();
      ReplacedChanges(r, msk, src);
      WriteWord(Replaced(r, msk, src));
    }

    /** A run of field writes, each through the field's own mask and shift. */
    method WriteFields(writes: seq<Write>)
      modifies this
      ensures word == After(old(word), writes)
    {
      for i := 0 to |writes|
        invariant word == After(old(word), writes[..i])
      {
        ghost var before, msk, src := word, SetMsk(writes[i].field), Set(writes[i].field, writes[i].value);
        ReplBits(SetMsk(writes[i].field), Set(writes[i].field, writes[i].value));
        ReplacedChanges(before, msk, src);
        ChangedOnce(before, word, Replaced(before, msk, src), msk, src);
        assert writes[..i + 1][..i] == writes[..i];
      }
      assert writes[..|writes|] == writes;
    }
  }
}
