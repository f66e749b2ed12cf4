/** The combinational half of the design: fault-injection multiplexers (Hardware/TS_FI_MUX.v,
    mux.v, tri_buffer.v) in front of the two designs under test (ma_1.v, ma_2.v), wired as in
    Hardware/system_w_scan.v. */
module FaultCircuit {
  import opened ScanHardware

  // Gates see an undriven input as an unknown one.

  function Not(a: Logic): Logic {
    match a case L0 => L1 case L1 => L0 case _ => X
  }

  function And(a: Logic, b: Logic): Logic {
    if a == L0 || b == L0 then L0 else if a == L1 && b == L1 then L1 else X
  }

  function Or(a: Logic, b: Logic): Logic {
    if a == L1 || b == L1 then L1 else if a == L0 && b == L0 then L0 else X
  }

  /** Active-low tri-state buffer. */
  function TriBuffer(input: Logic, en: Logic): Logic {
    match en case L1 => Z case L0 => input case _ => X
  }

  /** With an unknown select the output keeps a value this model does not know. */
  function Mux(in1: Logic, in2: Logic, sel: Logic): Logic {
    match sel case L0 => in1 case L1 => in2 case _ => X
  }

  function FaultMux(sigIn: Logic, selF: Logic, selMain: Logic, triE: Logic): Logic {
    TriBuffer(Mux(Mux(L1, L0, selF), sigIn, selMain), triE)
  }

  function Ma1(a: Logic, b: Logic, c: Logic, d: Logic, tri: Logic): Logic {
    TriBuffer(And(And(Or(b, c), a), d), tri)
  }

  function Ma2(a: Logic, b: Logic, c: Logic, d: Logic, tri: Logic): Logic {
    TriBuffer(Not(Or(Or(And(Not(c), Not(b)), Not(a)), Not(d))), tri)
  }

  /** Injection site `q` of the eight: the register's bits 2q and 2q + 1 are its controls. */
  function Site(tmp: Register, q: nat, signal: bool, tri: Logic): Logic
    requires q < 8
  {
    FaultMux(Known(signal), tmp[2 * q], tmp[2 * q + 1], tri)
  }

  /** The two outputs, from the register, the four signals A to D and the tri-state control. */
  function Outputs(tmp: Register, signals: seq<bool>, tri: bool): (Logic, Logic)
    requires |signals| == 4
  {
    var t := Known(tri);
    (Ma1(Site(tmp, 0, signals[0], t), Site(tmp, 1, signals[1], t),
         Site(tmp, 2, signals[2], t), Site(tmp, 3, signals[3], t), t),
     Ma2(Site(tmp, 4, signals[0], t), Site(tmp, 5, signals[1], t),
         Site(tmp, 6, signals[2], t), Site(tmp, 7, signals[3], t), t))
  }

  /** The two designs are structurally different but functionally the same, on all four values. */
  lemma DesignsAgree(a: Logic, b: Logic, c: Logic, d: Logic, tri: Logic)
    ensures Ma1(a, b, c, d, tri) == Ma2(a, b, c, d, tri)
  {
  }

  /** What a pair of control bits does to a signal: passes it on, or sticks it at a value. */
  datatype Fault = Pass | Stuck(value: bool) {
    function Apply(signal: bool): bool {
      match this case Pass => signal case Stuck(v) => v
    }
  }

  function FaultAt(data: Bus, q: nat): Fault
    requires q < 8
  {
    if data[2 * q + 1] then Pass else Stuck(!data[2 * q])
  }

  /** The function both designs implement. */
  predicate Function(a: bool, b: bool, c: bool, d: bool) {
    a && d && (b || c)
  }

  /** The value of design 0 or 1 under the faults of a configuration. */
  predicate Faulty(dut: nat, data: Bus, signals: seq<bool>)
    requires dut < 2 && |signals| == 4
  {
    var q := 4 * dut;
    Function(FaultAt(data, q).Apply(signals[0]), FaultAt(data, q + 1).Apply(signals[1]),
             FaultAt(data, q + 2).Apply(signals[2]), FaultAt(data, q + 3).Apply(signals[3]))
  }

  /** With the register holding a configuration and the tri-state released, the outputs are the
      common function of the signals with that configuration's stuck-at faults. */
  lemma LoadedMeaning(data: Bus, signals: seq<bool>)
    requires |signals| == 4
    ensures Outputs(KnownBus(data), signals, false) ==
            (Known(Faulty(0, data, signals)), Known(Faulty(1, data, signals)))
  {
    var tmp := KnownBus(data);
    SiteMeaning(data, 0, signals[0]);
    SiteMeaning(data, 1, signals[1]);
    SiteMeaning(data, 2, signals[2]);
    SiteMeaning(data, 3, signals[3]);
    SiteMeaning(data, 4, signals[0]);
    SiteMeaning(data, 5, signals[1]);
    SiteMeaning(data, 6, signals[2]);
    SiteMeaning(data, 7, signals[3]);
  }

  /** A site controlled by known bits passes its signal on, or is stuck. */
  lemma SiteMeaning(data: Bus, q: nat, signal: bool)
    requires q < 8
    ensures Site(KnownBus(data), q, signal, L0) == Known(FaultAt(data, q).Apply(signal))
  {
  }

  /** While the tri-state control is high nothing is driven, whatever the register holds. */
  lemma Latched(tmp: Register, signals: seq<bool>)
    requires |signals| == 4
    ensures Outputs(tmp, signals, true) == (Z, Z)
  {
  }

  /** The all-ones configuration injects no fault: both outputs are the fault-free function. */
  lemma GoldenIsFaultFree(data: Bus, signals: seq<bool>, dut: nat)
    requires |signals| == 4 && dut < 2
    requires forall k :: 0 <= k < 16 ==> data[k]
    ensures Faulty(dut, data, signals) == Function(signals[0], signals[1], signals[2], signals[3])
  {
    assert forall q: nat :: q < 8 ==> FaultAt(data, q) == Pass;
  }

  /** One stuck signal in the hardware: with pass control 2q + 1 low and everything else high, site q is
      stuck at 0 or 1 by its control 2q, and only the design it belongs to is affected. */
  lemma OneFault(data: Bus, q: nat, signals: seq<bool>)
    requires q < 8 && |signals| == 4
    requires forall k :: 0 <= k < 16 && k != 2 * q && k != 2 * q + 1 ==> data[k]
    requires !data[2 * q + 1]
    ensures var s := signals[q % 4 := !data[2 * q]];
            var healthy := Known(Function(signals[0], signals[1], signals[2], signals[3]));
            var stuck := Known(Function(s[0], s[1], s[2], s[3]));
            Outputs(KnownBus(data), signals, false) == if q < 4 then (stuck, healthy) else (healthy, stuck)
  {
    LoadedMeaning(data, signals);
    OneFaultIn(data, q, 0, signals);
    OneFaultIn(data, q, 1, signals);
  }

  lemma OneFaultIn(data: Bus, q: nat, dut: nat, signals: seq<bool>)
    requires q < 8 && dut < 2 && |signals| == 4 && !data[2 * q + 1]
    requires forall k :: 0 <= k < 16 && k != 2 * q && k != 2 * q + 1 ==> data[k]
    ensures var s := if q / 4 == dut then signals[q % 4 := !data[2 * q]] else signals;
            Faulty(dut, data, signals) == Function(s[0], s[1], s[2], s[3])
  {
    OneFaultAt(data, q, 4 * dut);
    OneFaultAt(data, q, 4 * dut + 1);
    OneFaultAt(data, q, 4 * dut + 2);
    OneFaultAt(data, q, 4 * dut + 3);
  }

  lemma OneFaultAt(data: Bus, q: nat, k: nat)
    requires q < 8 && k < 8 && !data[2 * q + 1]
    requires forall k :: 0 <= k < 16 && k != 2 * q && k != 2 * q + 1 ==> data[k]
    ensures FaultAt(data, k) == if k == q then Stuck(!data[2 * q]) else Pass
  {
  }

  // ---------------------------------------------------------------- unknown register bits

  // In Verilog a multiplexer with an unknown select keeps its old output. These are the same
  // circuits with that output as a parameter.

  function MuxHeld(in1: Logic, in2: Logic, sel: Logic, held: Logic): Logic {
    match sel case L0 => in1 case L1 => in2 case _ => held
  }

  function FaultMuxHeld(sigIn: Logic, selF: Logic, selMain: Logic, triE: Logic, oldF: Logic, oldMain: Logic): Logic {
    TriBuffer(MuxHeld(MuxHeld(L1, L0, selF, oldF), sigIn, selMain, oldMain), triE)
  }

  /** The old outputs of site `q` are at 2q and 2q + 1. */
  function SiteHeld(tmp: Register, q: nat, signal: bool, olds: Register): Logic
    requires q < 8
  {
    FaultMuxHeld(Known(signal), tmp[2 * q], tmp[2 * q + 1], L0, olds[2 * q], olds[2 * q + 1])
  }

  function OutputsHeld(tmp: Register, signals: seq<bool>, olds: Register): (Logic, Logic)
    requires |signals| == 4
  {
    (Ma1(SiteHeld(tmp, 0, signals[0], olds), SiteHeld(tmp, 1, signals[1], olds),
         SiteHeld(tmp, 2, signals[2], olds), SiteHeld(tmp, 3, signals[3], olds), L0),
     Ma2(SiteHeld(tmp, 4, signals[0], olds), SiteHeld(tmp, 5, signals[1], olds),
         SiteHeld(tmp, 6, signals[2], olds), SiteHeld(tmp, 7, signals[3], olds), L0))
  }

  predicate Definite(v: Logic) {
    v == L0 || v == L1
  }

  /** A value the model gives is the one there is; an unknown one may be either. */
  predicate Covers(model: Logic, actual: Logic) {
    Definite(model) ==> actual == model
  }

  /** With an unknown enable a buffer gives at most what it gives for both of its values. */
  lemma EnableCovers(input: Logic, en: Logic)
    ensures Definite(en) || TriBuffer(input, en) == X ||
            TriBuffer(input, L0) == TriBuffer(input, en) == TriBuffer(input, L1)
  {
  }

  lemma SiteCovers(tmp: Register, q: nat, signal: bool, olds: Register)
    requires q < 8
    ensures Covers(Site(tmp, q, signal, L0), SiteHeld(tmp, q, signal, olds))
  {
  }

  lemma GatesCover(a: Logic, b: Logic, c: Logic, d: Logic, a': Logic, b': Logic, c': Logic, d': Logic)
    requires Covers(a, a') && Covers(b, b') && Covers(c, c') && Covers(d, d')
    ensures Covers(Ma1(a, b, c, d, L0), Ma1(a', b', c', d', L0))
    ensures Covers(Ma2(a, b, c, d, L0), Ma2(a', b', c', d', L0))
  {
    DesignsAgree(a, b, c, d, L0);
    DesignsAgree(a', b', c', d', L0);
  }

  /** The four sites of a design, as a vector. */
  function Sites(tmp: Register, dut: nat, signals: seq<bool>): seq<Logic>
    requires dut < 2 && |signals| == 4
  {
    [Site(tmp, 4 * dut, signals[0], L0), Site(tmp, 4 * dut + 1, signals[1], L0),
     Site(tmp, 4 * dut + 2, signals[2], L0), Site(tmp, 4 * dut + 3, signals[3], L0)]
  }

  function SitesHeld(tmp: Register, dut: nat, signals: seq<bool>, olds: Register): seq<Logic>
    requires dut < 2 && |signals| == 4
  {
    [SiteHeld(tmp, 4 * dut, signals[0], olds), SiteHeld(tmp, 4 * dut + 1, signals[1], olds),
     SiteHeld(tmp, 4 * dut + 2, signals[2], olds), SiteHeld(tmp, 4 * dut + 3, signals[3], olds)]
  }

  function Gates(dut: nat, s: seq<Logic>): Logic
    requires dut < 2 && |s| == 4
  {
    if dut == 0 then Ma1(s[0], s[1], s[2], s[3], L0) else Ma2(s[0], s[1], s[2], s[3], L0)
  }

  lemma OutputsBySites(tmp: Register, signals: seq<bool>, olds: Register)
    requires |signals| == 4
    ensures Outputs(tmp, signals, false) == (Gates(0, Sites(tmp, 0, signals)), Gates(1, Sites(tmp, 1, signals)))
    ensures OutputsHeld(tmp, signals, olds) ==
            (Gates(0, SitesHeld(tmp, 0, signals, olds)), Gates(1, SitesHeld(tmp, 1, signals, olds)))
  {
  }

  lemma VectorCovers(dut: nat, s: seq<Logic>, s': seq<Logic>)
    requires dut < 2 && |s| == |s'| == 4 && forall i :: 0 <= i < 4 ==> Covers(s[i], s'[i])
    ensures Covers(Gates(dut, s), Gates(dut, s'))
  {
    GatesCover(s[0], s[1], s[2], s[3], s'[0], s'[1], s'[2], s'[3]);
  }

  lemma SitesCover(tmp: Register, dut: nat, signals: seq<bool>, olds: Register)
    requires dut < 2 && |signals| == 4
    ensures Covers(Gates(dut, Sites(tmp, dut, signals)), Gates(dut, SitesHeld(tmp, dut, signals, olds)))
  {
    SiteCovers(tmp, 4 * dut, signals[0], olds);
    SiteCovers(tmp, 4 * dut + 1, signals[1], olds);
    SiteCovers(tmp, 4 * dut + 2, signals[2], olds);
    SiteCovers(tmp, 4 * dut + 3, signals[3], olds);
    VectorCovers(dut, Sites(tmp, dut, signals), SitesHeld(tmp, dut, signals, olds));
  }

  /** Whatever the register holds, an output that the model gives does not depend on what the
      multiplexers held before. */
  lemma KnownOutputs(tmp: Register, signals: seq<bool>, olds: Register)
    requires |signals| == 4
    ensures Covers(Outputs(tmp, signals, false).0, OutputsHeld(tmp, signals, olds).0)
    ensures Covers(Outputs(tmp, signals, false).1, OutputsHeld(tmp, signals, olds).1)
  {
    OutputsBySites(tmp, signals, olds);
    SitesCover(tmp, 0, signals, olds);
    SitesCover(tmp, 1, signals, olds);
  }

  /** All multiplexers held the same value. */
  function AllHeld(v: bool): Register {
    seq(16, _ => Known(v))
  }

  function Filled(v: Logic, held: bool): Logic {
    if v == X then Known(held) else v
  }

  lemma SiteFilled(tmp: Register, q: nat, signal: bool, held: bool)
    requires q < 8
    ensures SiteHeld(tmp, q, signal, AllHeld(held)) == Filled(Site(tmp, q, signal, L0), held)
    ensures Site(tmp, q, signal, L0) != Z
  {
  }

  lemma GatesFilled(a: Logic, b: Logic, c: Logic, d: Logic, held: bool)
    requires a != Z && b != Z && c != Z && d != Z
    ensures Ma1(Filled(a, held), Filled(b, held), Filled(c, held), Filled(d, held), L0) ==
            Filled(Ma1(a, b, c, d, L0), held)
  {
  }

  lemma VectorFilled(dut: nat, s: seq<Logic>, s': seq<Logic>, held: bool)
    requires dut < 2 && |s| == |s'| == 4 && forall i :: 0 <= i < 4 ==> s[i] != Z && s'[i] == Filled(s[i], held)
    ensures Gates(dut, s') == Filled(Gates(dut, s), held)
  {
    GatesFilled(s[0], s[1], s[2], s[3], held);
    DesignsAgree(s[0], s[1], s[2], s[3], L0);
    DesignsAgree(s'[0], s'[1], s'[2], s'[3], L0);
  }

  lemma SitesFilled(tmp: Register, dut: nat, signals: seq<bool>, held: bool)
    requires dut < 2 && |signals| == 4
    ensures Gates(dut, SitesHeld(tmp, dut, signals, AllHeld(held))) ==
            Filled(Gates(dut, Sites(tmp, dut, signals)), held)
  {
    SiteFilled(tmp, 4 * dut, signals[0], held);
    SiteFilled(tmp, 4 * dut + 1, signals[1], held);
    SiteFilled(tmp, 4 * dut + 2, signals[2], held);
    SiteFilled(tmp, 4 * dut + 3, signals[3], held);
    VectorFilled(dut, Sites(tmp, dut, signals), SitesHeld(tmp, dut, signals, AllHeld(held)), held);
  }

  /** And an output that it calls unknown does depend on that: it is 0 if they held 0 and 1 if they held 1. */
  lemma UnknownOutputs(tmp: Register, signals: seq<bool>, held: bool)
    requires |signals| == 4
    ensures OutputsHeld(tmp, signals, AllHeld(held)).0 == Filled(Outputs(tmp, signals, false).0, held)
    ensures OutputsHeld(tmp, signals, AllHeld(held)).1 == Filled(Outputs(tmp, signals, false).1, held)
  {
    OutputsBySites(tmp, signals, AllHeld(held));
    SitesFilled(tmp, 0, signals, held);
    SitesFilled(tmp, 1, signals, held);
  }

  /** The bus has the register's value at every bit that is known. */
  predicate Agrees(tmp: Register, data: Bus) {
    forall k :: 0 <= k < 16 ==> Covers(tmp[k], Known(data[k]))
  }

  lemma SiteSound(tmp: Register, data: Bus, q: nat, signal: bool)
    requires q < 8 && Agrees(tmp, data)
    ensures Covers(Site(tmp, q, signal, L0), Site(KnownBus(data), q, signal, L0))
  {
    assert Covers(tmp[2 * q], Known(data[2 * q])) && Covers(tmp[2 * q + 1], Known(data[2 * q + 1]));
  }

  /** With unknown bits in the register, an output that is given is the output under every
      configuration that agrees with the bits that are known. */
  lemma KnownOutputsSound(tmp: Register, data: Bus, signals: seq<bool>)
    requires |signals| == 4 && Agrees(tmp, data)
    ensures Covers(Outputs(tmp, signals, false).0, Known(Faulty(0, data, signals)))
    ensures Covers(Outputs(tmp, signals, false).1, Known(Faulty(1, data, signals)))
  {
    LoadedMeaning(data, signals);
    OutputsBySites(tmp, signals, tmp);
    OutputsBySites(KnownBus(data), signals, tmp);
    SitesSound(tmp, data, 0, signals);
    SitesSound(tmp, data, 1, signals);
  }

  lemma SitesSound(tmp: Register, data: Bus, dut: nat, signals: seq<bool>)
    requires dut < 2 && |signals| == 4 && Agrees(tmp, data)
    ensures Covers(Gates(dut, Sites(tmp, dut, signals)), Gates(dut, Sites(KnownBus(data), dut, signals)))
  {
    SiteSound(tmp, data, 4 * dut, signals[0]);
    SiteSound(tmp, data, 4 * dut + 1, signals[1]);
    SiteSound(tmp, data, 4 * dut + 2, signals[2]);
    SiteSound(tmp, data, 4 * dut + 3, signals[3]);
    VectorCovers(dut, Sites(tmp, dut, signals), Sites(KnownBus(data), dut, signals));
  }
}
