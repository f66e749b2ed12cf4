/** The clocked scan hardware: the control unit that serialises a configuration
    (Hardware/CTRL_UNIT.v), the serial-in parallel-out register that collects it
    (Hardware/shift_large.v), and the way Hardware/system_w_scan.v wires them.

    Both registers are updated on the same clock edge with blocking assignments, so
    Verilog allows either block to run first.  Every result names the schedule it is for.
    `ShiftFirst` is also what synthesised flip-flops do: each sees the other's old value. */
module ScanHardware {

  /** The four Verilog values; `X` is unknown, `Z` is not driven. */
  datatype Logic = L0 | L1 | X | Z

  datatype Schedule = ShiftFirst | ControlFirst

  /** A 16-bit bus; index `k` is bit `k`. */
  type Bus = s: seq<bool> | |s| == 16 witness seq(16, _ => false)
  type Register = s: seq<Logic> | |s| == 16 witness seq(16, _ => X)

  function Known(b: bool): Logic {
    if b then L1 else L0
  }

  function KnownBus(data: Bus): Register {
    seq(16, k requires 0 <= k < 16 => Known(data[k]))
  }

  /** Reading one bit of a 16-bit bus with a 5-bit index: out of range is unknown. */
  function BitSelect(data: Bus, index: nat): Logic {
    if index < 16 then Known(data[index]) else X
  }

  /** The control unit's registers; `count` is five bits wide. */
  datatype Control = Control(count: nat, ctrlFeedback: Logic, scanShiftFeedback: Logic, scanChain: Logic) {
    predicate Valid() { count < 32 }
  }

  /** The shift register's registers. */
  datatype Sipo = Sipo(tmp: Register, count: nat)

  datatype Hardware = Hardware(ctrl: Control, sipo: Sipo) {
    predicate Valid() { ctrl.Valid() }

    /** Serializer idle and rewound, as after any clock edge with scan low. */
    predicate AtRest() { ctrl.count == 15 && ctrl.ctrlFeedback == L0 }
  }

  /** What the clocked logic sees of the 23-bit port. */
  datatype Drive = Drive(scan: bool, clear: bool, data: Bus)

  function ControlNext(c: Control, scan: bool, data: Bus): (r: Control)
    ensures c.Valid() ==> r.Valid()
  {
    if scan then Control((c.count - 1) % 32, L1, L1, BitSelect(data, c.count))
    else c.(count := 15, ctrlFeedback := L0)
  }

  function SipoNext(s: Sipo, serialIn: Logic, enable: Logic, clear: bool): Sipo {
    if clear then Sipo(seq(16, _ => L0), 0)
    else if s.count < 16 && enable == L1 then Sipo([serialIn] + s.tmp[..15], s.count + 1)
    else s
  }

  /** One clock edge of the whole design. The shift register is enabled by `ctrl_feedback`:
      system_w_scan.v connects the control unit's ports by position. */
  function Next(h: Hardware, d: Drive, order: Schedule): (r: Hardware)
    ensures h.Valid() ==> r.Valid()
  {
    var ctrl := ControlNext(h.ctrl, d.scan, d.data);
    var seen := if order == ShiftFirst then h.ctrl else ctrl;
    Hardware(ctrl, SipoNext(h.sipo, seen.scanChain, seen.ctrlFeedback, d.clear))
  }

  /** `t` clock edges with the port held constant. */
  function Run(h: Hardware, d: Drive, order: Schedule, t: nat): (r: Hardware)
    ensures h.Valid() ==> r.Valid()
  {
    if t == 0 then h else Next(Run(h, d, order, t - 1), d, order)
  }

  // ---------------------------------------------------------------- the modules as clocked blocks

  class ControlUnit {
    var count: nat
    var ctrlFeedback: Logic
    var scanShiftFeedback: Logic
    var scanChain: Logic

    function State(): Control
      reads this
    {
      Control(count, ctrlFeedback, scanShiftFeedback, scanChain)
    }

    constructor ()
      ensures State() == Control(15, X, X, X)
    {
      count, ctrlFeedback, scanShiftFeedback, scanChain := 15, X, X, X;
    }

    method Posedge(data: Bus, scanEnable: bool)
      requires State().Valid()
      modifies this
      ensures State() == ControlNext(old(State()), scanEnable, data)
    {
      if scanEnable && count >= 0 {
        ctrlFeedback := L1;
        scanShiftFeedback := L1;
        scanChain := BitSelect(data, count);
        count := (count - 1) % 32;
      }
      if !scanEnable {
        ctrlFeedback := L0;
        count := 15;
      }
    }
  }

  class ShiftLarge {
    var tmp: Register
    var count: nat

    function State(): Sipo
      reads this
    {
      Sipo(tmp, count)
    }

    constructor ()
      ensures State() == Sipo(seq(16, _ => X), 0)
    {
      tmp, count := seq(16, _ => X), 0;
    }

    method Posedge(serialIn: Logic, enable: Logic, clear: bool)
      modifies this
      ensures State() == SipoNext(old(State()), serialIn, enable, clear)
    {
      if count < 16 && enable == L1 && !clear {
        tmp := [serialIn] + tmp[..15];
        count := count + 1;
      } else if clear {
        tmp := seq(16, _ => L0);
        count := 0;
      }
    }
  }

  /** `t` clock edges of the two blocks, in the given schedule. */
  method Clock(ctrl: ControlUnit, sipo: ShiftLarge, d: Drive, order: Schedule, t: nat)
    requires ctrl.State().Valid()
    modifies ctrl, sipo
    ensures ctrl.State().Valid()
    ensures Hardware(ctrl.State(), sipo.State()) == Run(old(Hardware(ctrl.State(), sipo.State())), d, order, t)
  {
    for i := 0 to t
      invariant ctrl.State().Valid()
      invariant Hardware(ctrl.State(), sipo.State()) == Run(old(Hardware(ctrl.State(), sipo.State())), d, order, i)
    {
      if order == ShiftFirst {
        sipo.Posedge(ctrl.scanChain, ctrl.ctrlFeedback, d.clear);
        ctrl.Posedge(d.data, d.scan);
      } else {
        ctrl.Posedge(d.data, d.scan);
        sipo.Posedge(ctrl.scanChain, ctrl.ctrlFeedback, d.clear);
      }
    }
  }

  // ---------------------------------------------------------------- the serializer alone

  lemma {:induction false} RunAdd(h: Hardware, d: Drive, order: Schedule, s: nat, t: nat)
    ensures Run(h, d, order, s + t) == Run(Run(h, d, order, s), d, order, t)
  {
    if t > 0 {
      RunAdd(h, d, order, s, t - 1);
    }
  }

  lemma WrapStep(x: int)
    ensures (x % 32 - 1) % 32 == (x - 1) % 32
  {
    var q, r := x / 32, x % 32;
    assert x == 32 * q + r;
    if r == 0 {
      assert x - 1 == 32 * (q - 1) + 31;
    } else {
      assert x - 1 == 32 * q + (r - 1);
    }
  }

  /** After `t` enabled edges the counter is `t` below where it was, modulo 32, and the serial
      output is the bit the counter pointed at one edge earlier. */
  lemma {:induction false} SerializerClosedForm(h: Hardware, d: Drive, order: Schedule, t: nat)
    requires h.Valid() && d.scan
    ensures var c := Run(h, d, order, t).ctrl;
            && c.count == (h.ctrl.count - t) % 32
            && (t > 0 ==> c == Control((h.ctrl.count - t) % 32, L1, L1, BitSelect(d.data, (h.ctrl.count - t + 1) % 32)))
  {
    if t > 0 {
      SerializerClosedForm(h, d, order, t - 1);
      WrapStep(h.ctrl.count - (t - 1));
    } else {
      assert Run(h, d, order, 0) == h && h.ctrl.count % 32 == h.ctrl.count;
    }
  }

  lemma WrapInverse(c: nat, k: nat, t: nat)
    requires c < 32 && k < 32 && t < 32
    ensures (c - t) % 32 == k <==> t == (c - k) % 32
  {
    assert (c - t) % 32 == if t <= c then c - t else c - t + 32;
    assert (c - k) % 32 == if k <= c then c - k else c - k + 32;
  }

  /** In any 32 consecutive enabled edges with constant data the counter visits every index once,
      in cyclic descending order, so every data bit is emitted exactly once and the other 16
      edges emit unknowns. */
  lemma EveryBitOncePerPeriod(h: Hardware, d: Drive, order: Schedule, k: nat)
    requires h.Valid() && d.scan && k < 32
    ensures var at := (h.ctrl.count - k) % 32;
            && Run(h, d, order, at + 1).ctrl.scanChain == BitSelect(d.data, k)
            && forall t :: 0 <= t < 32 ==> (Run(h, d, order, t).ctrl.count == k <==> t == at)
  {
    forall t | 0 <= t < 32
      ensures Run(h, d, order, t).ctrl.count == k <==> t == (h.ctrl.count - k) % 32
    {
      SerializerClosedForm(h, d, order, t);
      WrapInverse(h.ctrl.count, k, t);
    }
  }

  /** From any state, clock edges with scan low rewind the serializer; its serial output and the scan
      shift feedback stay as they are. */
  lemma {:induction false} DisabledRewinds(h: Hardware, d: Drive, order: Schedule, t: nat)
    requires !d.scan && t > 0
    ensures var c := Run(h, d, order, t).ctrl;
            && c.count == 15 && c.ctrlFeedback == L0
            && c.scanChain == h.ctrl.scanChain && c.scanShiftFeedback == h.ctrl.scanShiftFeedback
  {
    if t > 1 {
      DisabledRewinds(h, d, order, t - 1);
    } else {
      assert Run(h, d, order, 0) == h;
    }
  }

  /** When scanning stops, at most the one bit already on its way still enters: with `ShiftFirst`, if the
      register was enabled and not full. An unknown or undriven enable leaves it alone. */
  lemma {:induction false} LastBitEnters(h: Hardware, d: Drive, order: Schedule, t: nat)
    requires !d.scan && !d.clear && t > 0
    ensures Run(h, d, order, t).sipo ==
            if order == ShiftFirst && h.ctrl.ctrlFeedback == L1 && h.sipo.count < 16
            then Sipo([h.ctrl.scanChain] + h.sipo.tmp[..15], h.sipo.count + 1) else h.sipo
  {
    if t > 1 {
      LastBitEnters(h, d, order, t - 1);
      DisabledRewinds(h, d, order, t - 1);
    } else {
      assert Run(h, d, order, 0) == h;
    }
  }

  /** An edge without clear and without a definite enable leaves the register alone. */
  lemma NotEnabledHolds(s: Sipo, serialIn: Logic, enable: Logic)
    requires enable != L1
    ensures SipoNext(s, serialIn, enable, false) == s
  {
  }

  /** Clock edges with a new port value on each. */
  function RunTrace(h: Hardware, drives: seq<Drive>, order: Schedule): Hardware
    decreases |drives|
  {
    if drives == [] then h else RunTrace(Next(h, drives[0], order), drives[1..], order)
  }

  /** `scan_shift_feedback` never falls: whatever the port is driven to, edge after edge. */
  lemma {:induction false} FeedbackSticks(h: Hardware, drives: seq<Drive>, order: Schedule)
    requires h.ctrl.scanShiftFeedback == L1
    ensures RunTrace(h, drives, order).ctrl.scanShiftFeedback == L1
    decreases |drives|
  {
    if drives != [] {
      FeedbackSticks(Next(h, drives[0], order), drives[1..], order);
    }
  }

  // ---------------------------------------------------------------- serializer and shift register

  /** Clearing empties the shift register for as long as it lasts. */
  lemma {:induction false} ClearHolds(h: Hardware, d: Drive, order: Schedule, t: nat)
    requires d.clear && t > 0
    ensures Run(h, d, order, t).sipo == Sipo(seq(16, _ => L0), 0)
  {
    if t > 1 {
      ClearHolds(h, d, order, t - 1);
    }
  }

  /** A full shift register keeps its contents while it is not cleared. */
  lemma {:induction false} FullHolds(h: Hardware, d: Drive, order: Schedule, t: nat)
    requires !d.clear && h.sipo.count >= 16
    ensures Run(h, d, order, t).sipo == h.sipo
  {
    if t > 0 {
      FullHolds(h, d, order, t - 1);
    }
  }

  /** The `k`-th bit (from 1) that enters the shift register when scanning continues with the
      control unit in state `c`. */
  function Entering(c: Control, data: Bus, order: Schedule, k: nat): Logic
    requires k > 0
  {
    match order
    case ShiftFirst => if k == 1 then c.scanChain else BitSelect(data, (c.count - k + 2) % 32)
    case ControlFirst => BitSelect(data, (c.count - k + 1) % 32)
  }

  /** The register fills in `t` edges, newest bit at index 0. */
  lemma {:induction false} Filling(h: Hardware, d: Drive, order: Schedule, t: nat)
    requires h.Valid() && d.scan && !d.clear && t <= 16
    requires h.sipo.count == 0
    requires order == ControlFirst || h.ctrl.ctrlFeedback == L1
    ensures var s := Run(h, d, order, t).sipo;
            && s.count == t
            && forall i | 0 <= i < t :: s.tmp[i] == Entering(h.ctrl, d.data, order, t - i)
  {
    if t > 0 {
      Filling(h, d, order, t - 1);
      BitEnters(h, d, order, t);
      Shifted(h.ctrl, d.data, order, t, Run(h, d, order, t - 1).sipo.tmp);
    }
  }

  lemma Shifted(c: Control, data: Bus, order: Schedule, t: nat, tmp: Register)
    requires 0 < t <= 16 && forall i | 0 <= i < t - 1 :: tmp[i] == Entering(c, data, order, t - 1 - i)
    ensures forall i | 0 <= i < t :: ([Entering(c, data, order, t)] + tmp[..15])[i] == Entering(c, data, order, t - i)
  {
  }

  /** Edge `t` shifts the `t`-th bit in. */
  lemma BitEnters(h: Hardware, d: Drive, order: Schedule, t: nat)
    requires h.Valid() && d.scan && !d.clear && 0 < t <= 16
    requires Run(h, d, order, t - 1).sipo.count == t - 1
    requires order == ControlFirst || h.ctrl.ctrlFeedback == L1
    ensures var before := Run(h, d, order, t - 1).sipo;
            Run(h, d, order, t).sipo == Sipo([Entering(h.ctrl, d.data, order, t)] + before.tmp[..15], t)
  {
    SerializerClosedForm(h, d, order, t - 1);
    SerializerClosedForm(h, d, order, t);
    assert Run(h, d, order, 0) == h;
  }

  /** The register after sixteen bits have entered. */
  function Scanned(c: Control, data: Bus, order: Schedule): Register {
    seq(16, i requires 0 <= i < 16 => Entering(c, data, order, 16 - i))
  }

  lemma Filled(h: Hardware, d: Drive, order: Schedule)
    requires h.Valid() && d.scan && !d.clear && h.sipo.count == 0
    requires order == ControlFirst || h.ctrl.ctrlFeedback == L1
    ensures Run(h, d, order, 16).sipo == Sipo(Scanned(h.ctrl, d.data, order), 16)
  {
    Filling(h, d, order, 16);
    assert Run(h, d, order, 16).sipo.tmp == Scanned(h.ctrl, d.data, order);
  }

  /** What scanning leaves in the register, for every number of edges from 16 on. */
  lemma ScannedContents(h: Hardware, d: Drive, order: Schedule, t: nat)
    requires h.Valid() && d.scan && !d.clear && t >= 16
    requires h.sipo.count == 0
    requires order == ControlFirst || h.ctrl.ctrlFeedback == L1
    ensures Run(h, d, order, t).sipo == Sipo(Scanned(h.ctrl, d.data, order), 16)
  {
    Filled(h, d, order);
    RunAdd(h, d, order, 16, t - 16);
    FullHolds(Run(h, d, order, 16), d, order, t - 16);
  }

  /** How many edges it takes to load the register from rest. */
  function EdgesFromRest(order: Schedule): nat {
    if order == ShiftFirst then 17 else 16
  }

  /** Scanning an emptied register from rest loads exactly the driven data, in both schedules
      and however long it goes on once the register is full. */
  lemma ScanFromRest(h: Hardware, d: Drive, order: Schedule, t: nat)
    requires h.Valid() && h.AtRest() && h.sipo.count == 0
    requires d.scan && !d.clear && t >= EdgesFromRest(order)
    ensures Run(h, d, order, t).sipo == Sipo(KnownBus(d.data), 16)
  {
    if order == ControlFirst {
      ScannedContents(h, d, order, t);
      PhaseControlFirst(h.ctrl, d.data);
    } else {
      RunAdd(h, d, order, 1, t - 1);
      FirstEdge(h, d);
      ScannedContents(Run(h, d, order, 1), d, order, t - 1);
    }
  }

  /** One edge from rest arms the serializer with the top bit. */
  lemma FirstEdge(h: Hardware, d: Drive)
    requires h.Valid() && h.AtRest() && h.sipo.count == 0 && d.scan && !d.clear
    ensures var armed := Run(h, d, ShiftFirst, 1);
            && armed.Valid() && armed.sipo.count == 0 && armed.ctrl.ctrlFeedback == L1
            && Scanned(armed.ctrl, d.data, ShiftFirst) == KnownBus(d.data)
  {
    assert Run(h, d, ShiftFirst, 0) == h;
    var armed := Run(h, d, ShiftFirst, 1);
    assert armed == Next(h, d, ShiftFirst);
    PhaseShiftFirst(armed.ctrl, d.data, d.data);
    assert d.data[15 := d.data[15]] == d.data;
  }

  /** What scanning on `data` right after `prev` can load: with `ShiftFirst` the top bit is the one
      already on its way. */
  function Overtaken(prev: Bus, data: Bus, order: Schedule): Bus {
    if order == ShiftFirst then data[15 := prev[15]] else data
  }

  /** The one phase of the serializer in which scanning under way loads whole data. */
  function LoadingPhase(order: Schedule): nat {
    if order == ShiftFirst then 14 else 15
  }

  /** Scanning that was already under way on data `prev` loads known data exactly when the serializer
      is in the one right phase: with `ControlFirst` the driven data, with `ShiftFirst` the driven
      data but for the bit already on its way. In every other phase an unknown bit enters. */
  lemma ScanUnderWay(h: Hardware, prev: Bus, d: Drive, order: Schedule, t: nat)
    requires h.Valid() && h.ctrl.ctrlFeedback == L1 && h.sipo.count == 0
    requires h.ctrl.scanChain == BitSelect(prev, (h.ctrl.count + 1) % 32)
    requires d.scan && !d.clear && t >= 16
    ensures var s := Run(h, d, order, t).sipo;
            && s.count == 16
            && (s.tmp == KnownBus(Overtaken(prev, d.data, order)) <==> h.ctrl.count == LoadingPhase(order))
            && (X in s.tmp <==> h.ctrl.count != LoadingPhase(order))
  {
    ScannedContents(h, d, order, t);
    if order == ShiftFirst {
      PhaseShiftFirst(h.ctrl, prev, d.data);
    } else {
      PhaseControlFirst(h.ctrl, d.data);
    }
  }

  /** So the driven data itself is loaded when, besides, that bit is the right one. */
  lemma SameBus(prev: Bus, data: Bus, order: Schedule)
    ensures KnownBus(Overtaken(prev, data, order)) == KnownBus(data) <==> order == ControlFirst || prev[15] == data[15]
    ensures X !in KnownBus(data)
  {
    var loaded := Overtaken(prev, data, order);
    if loaded[15] != data[15] {
      assert KnownBus(loaded)[15] != KnownBus(data)[15];
    } else {
      assert loaded == data;
    }
  }

  lemma PhaseShiftFirst(c: Control, prev: Bus, data: Bus)
    requires c.Valid() && c.scanChain == BitSelect(prev, (c.count + 1) % 32)
    ensures Scanned(c, data, ShiftFirst) == KnownBus(data[15 := prev[15]]) <==> c.count == 14
    ensures X in Scanned(c, data, ShiftFirst) <==> c.count != 14
  {
    var tmp, loaded := Scanned(c, data, ShiftFirst), data[15 := prev[15]];
    if c.count == 14 {
      assert forall i :: 0 <= i < 15 ==> tmp[i] == KnownBus(loaded)[i];
      assert tmp[15] == Known(prev[15]);
    } else {
      // some bit is taken from an index above 15
      var bad := if c.count < 14 then 13 - c.count else if c.count == 15 then 15 else 14;
      assert tmp[bad] == X;
      assert KnownBus(loaded)[bad] != X;
    }
  }

  lemma PhaseControlFirst(c: Control, data: Bus)
    requires c.Valid()
    ensures Scanned(c, data, ControlFirst) == KnownBus(data) <==> c.count == 15
    ensures X in Scanned(c, data, ControlFirst) <==> c.count != 15
  {
    var tmp := Scanned(c, data, ControlFirst);
    if c.count == 15 {
      assert forall i :: 0 <= i < 16 ==> tmp[i] == KnownBus(data)[i];
    } else {
      var bad := if c.count < 15 then 14 - c.count else 15;
      assert tmp[bad] == X;
      assert KnownBus(data)[bad] != X;
    }
  }
}
