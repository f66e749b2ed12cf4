/** The four-step protocol as the scan hardware sees it: clear, scan, hold, apply.  Each step
    keeps one value on the port for some number of clock edges. */
module ScanProtocol {
  import opened ScanHardware

  datatype Clocks = Clocks(n1: nat, n2: nat, n3: nat, n4: nat) {
    /** Enough edges to clear, for the register to fill when scanning is under way, and for the
        serializer to notice its end. */
    predicate Enough() { n1 >= 1 && n2 >= 16 && n3 >= 1 }
  }

  datatype Drives = Drives(clear: Drive, scan: Drive, hold: Drive, apply: Drive) {
    /** Only the first step clears; scanning stops after the second. */
    predicate Staged() {
      clear.clear && !scan.clear && !hold.clear && !apply.clear && scan.scan && !hold.scan && !apply.scan
    }
  }

  function AfterClear(h: Hardware, d: Drives, n: Clocks, order: Schedule): Hardware {
    Run(h, d.clear, order, n.n1)
  }

  function AfterScan(h: Hardware, d: Drives, n: Clocks, order: Schedule): Hardware {
    Run(AfterClear(h, d, n, order), d.scan, order, n.n2)
  }

  /** The hardware at the end of the fourth step, when the host reads the answer. */
  function AfterTest(h: Hardware, d: Drives, n: Clocks, order: Schedule): Hardware {
    Run(Run(AfterScan(h, d, n, order), d.hold, order, n.n3), d.apply, order, n.n4)
  }

  /** The register holds exactly the data of the scanning step. */
  predicate Loaded(h: Hardware, d: Drives) {
    h.sipo.tmp == KnownBus(d.scan.data)
  }

  lemma NextIndex(x: int)
    ensures (x % 32 + 1) % 32 == (x + 1) % 32
  {
  }

  lemma PhaseFromRest(n: nat)
    ensures (15 - n) % 32 == 14 <==> n % 32 == 1
    ensures (15 - n) % 32 == 15 <==> n % 32 == 0
  {
    var q, r := n / 32, n % 32;
    assert 15 - n == 32 * (-q) + (15 - r);
    assert (15 - n) % 32 == if r <= 15 then 15 - r else 47 - r;
  }

  /** A clearing step with scan high forgets everything but the phase of the serializer. */
  lemma ClearForgets(h: Hardware, d: Drives, n: Clocks, order: Schedule)
    requires h.Valid() && d.Staged() && d.clear.scan && n.Enough()
    ensures var c := (h.ctrl.count - n.n1) % 32;
            AfterClear(h, d, n, order) ==
            Hardware(Control(c, L1, L1, BitSelect(d.clear.data, (c + 1) % 32)), Sipo(seq(16, _ => L0), 0))
  {
    SerializerClosedForm(h, d.clear, order, n.n1);
    ClearHolds(h, d.clear, order, n.n1);
    NextIndex(h.ctrl.count - n.n1);
  }

  /** The last two steps keep a full register and rewind the serializer. */
  lemma LaterStepsHold(h: Hardware, d: Drives, n: Clocks, order: Schedule)
    requires h.Valid() && d.Staged() && n.Enough()
    requires AfterScan(h, d, n, order).sipo.count >= 16
    ensures var h2, r := AfterScan(h, d, n, order), AfterTest(h, d, n, order);
            && r.Valid() && r.AtRest()
            && r.sipo == h2.sipo && r.ctrl.scanShiftFeedback == h2.ctrl.scanShiftFeedback
  {
    var h2 := AfterScan(h, d, n, order);
    FullHolds(h2, d.hold, order, n.n3);
    DisabledRewinds(h2, d.hold, order, n.n3);
    var h3 := Run(h2, d.hold, order, n.n3);
    FullHolds(h3, d.apply, order, n.n4);
    if n.n4 > 0 {
      DisabledRewinds(h3, d.apply, order, n.n4);
    }
  }

  /** The data that scanning can load when it was under way while clearing. */
  function LoadedData(d: Drives, order: Schedule): Bus {
    Overtaken(d.clear.data, d.scan.data, order)
  }

  /** With scan high already while clearing, the register ends up with known data exactly when the
      serializer is in the one right phase when clearing ends: the scanned data, but with
      `ShiftFirst` its top bit is the one driven while clearing. In the 31 other phases an unknown
      bit stays in it. */
  lemma LoadedExactly(h: Hardware, d: Drives, n: Clocks, order: Schedule)
    requires h.Valid() && d.Staged() && d.clear.scan && n.Enough()
    ensures var r, phase := AfterTest(h, d, n, order), (h.ctrl.count - n.n1) % 32;
            && (r.sipo.tmp == KnownBus(LoadedData(d, order)) <==> phase == LoadingPhase(order))
            && (Loaded(r, d) <==>
                phase == LoadingPhase(order) && (order == ControlFirst || d.clear.data[15] == d.scan.data[15]))
            && (X in r.sipo.tmp <==> phase != LoadingPhase(order))
            && r.Valid() && r.AtRest() && r.sipo.count == 16 && r.ctrl.scanShiftFeedback == L1
  {
    ClearForgets(h, d, n, order);
    var h1 := AfterClear(h, d, n, order);
    ScanUnderWay(h1, d.clear.data, d.scan, order, n.n2);
    SameBus(d.clear.data, d.scan.data, order);
    SerializerClosedForm(h1, d.scan, order, n.n2);
    LaterStepsHold(h, d, n, order);
  }

  /** With scan low while clearing, the register always ends up with the scanned data: from any
      state, under either schedule, for any clock counts that let it fill from rest. */
  lemma LoadedAlways(h: Hardware, d: Drives, n: Clocks, order: Schedule)
    requires h.Valid() && d.Staged() && !d.clear.scan && n.Enough() && n.n2 >= EdgesFromRest(order)
    ensures var r := AfterTest(h, d, n, order);
            Loaded(r, d) && r.Valid() && r.AtRest() && r.ctrl.scanShiftFeedback == L1
  {
    DisabledRewinds(h, d.clear, order, n.n1);
    ClearHolds(h, d.clear, order, n.n1);
    ScanFromRest(AfterClear(h, d, n, order), d.scan, order, n.n2);
    SerializerClosedForm(AfterClear(h, d, n, order), d.scan, order, n.n2);
    LaterStepsHold(h, d, n, order);
  }

  /** A test of a campaign, as the hardware sees it. */
  datatype Step = Step(drives: Drives, clocks: Clocks) {
    predicate Valid() { drives.Staged() && drives.clear.scan && clocks.Enough() }
  }

  /** Any number of tests, one after the other. */
  function RunAll(h: Hardware, steps: seq<Step>, order: Schedule): Hardware {
    if steps == [] then h
    else var last := steps[|steps| - 1];
         AfterTest(RunAll(h, steps[..|steps| - 1], order), last.drives, last.clocks, order)
  }

  /** From two states with the serializer in the same place, a test ends in the same state. */
  lemma OnlyPhaseMatters(h: Hardware, other: Hardware, s: Step, order: Schedule)
    requires h.Valid() && other.Valid() && s.Valid() && h.ctrl.count == other.ctrl.count
    ensures AfterTest(h, s.drives, s.clocks, order) == AfterTest(other, s.drives, s.clocks, order)
  {
    ClearForgets(h, s.drives, s.clocks, order);
    ClearForgets(other, s.drives, s.clocks, order);
  }

  /** Nothing leaks from one test to the next: every campaign ends at rest, and what the last of
      two or more tests leaves behind is what it leaves from any state at rest. */
  lemma {:induction false} NoLeaks(h: Hardware, steps: seq<Step>, other: Hardware, order: Schedule)
    requires h.Valid() && steps != [] && forall s :: s in steps ==> s.Valid()
    requires other.Valid() && other.AtRest()
    ensures var r, last := RunAll(h, steps, order), steps[|steps| - 1];
            && r.Valid() && r.AtRest()
            && (|steps| > 1 ==> r == AfterTest(other, last.drives, last.clocks, order))
    decreases |steps|
  {
    var init, last := steps[..|steps| - 1], steps[|steps| - 1];
    assert last in steps;
    if |steps| > 1 {
      NoLeaks(h, init, other, order);
      OnlyPhaseMatters(RunAll(h, init, order), other, last, order);
    }
    LoadedExactly(RunAll(h, init, order), last.drives, last.clocks, order);
  }

  /** How many clock edges more than a multiple of 32 clearing has to last, from rest, for the
      serializer to end up in phase. */
  function EdgesToPhase(order: Schedule): nat {
    if order == ShiftFirst then 1 else 0
  }

  /** Every test of a campaign but the first loads known data exactly when its own clearing step
      lasted 1 (`ShiftFirst`) or 0 (`ControlFirst`) clock edges more than a multiple of 32; that is its
      own data when, with `ShiftFirst`, the bit scanned while clearing was the top bit of the data. */
  lemma LoadedInCampaign(h: Hardware, steps: seq<Step>, order: Schedule)
    requires h.Valid() && |steps| > 1 && forall s :: s in steps ==> s.Valid()
    ensures var r, last := RunAll(h, steps, order), steps[|steps| - 1];
            && (r.sipo.tmp == KnownBus(LoadedData(last.drives, order)) <==> last.clocks.n1 % 32 == EdgesToPhase(order))
            && (Loaded(r, last.drives) <==>
                && last.clocks.n1 % 32 == EdgesToPhase(order)
                && (order == ControlFirst || last.drives.clear.data[15] == last.drives.scan.data[15]))
  {
    var init, last := steps[..|steps| - 1], steps[|steps| - 1];
    assert last in steps;
    NoLeaks(h, init, Hardware(Control(15, L0, L1, X), h.sipo), order);
    LoadedExactly(RunAll(h, init, order), last.drives, last.clocks, order);
    PhaseFromRest(last.clocks.n1);
  }
}
