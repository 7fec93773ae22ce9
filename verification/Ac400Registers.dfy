/** What setters and getters do to the registers, attribute by attribute, in the header's own
    terms: addresses, bits and codes. */
module Registers {
  import opened Options
  import opened Words
  import opened Layout
  import opened Store

  // ---- writes --------------------------------------------------------------------------

  /** Nothing but one bit of one register has changed, if that. */
  predicate BitSet(before: Bank, after: Bank, r: Reg, b: nat, on: bool)
    requires b < 16
  {
    after == before[r := ReadReg(before, r)[b := on]]
  }

  /** Nothing but one register has changed: its bits `l` to `h` are the low bits of the number, those
      below are as before, and those above, too, but for bits of a number too wide, which are set. */
  predicate FieldSet(before: Bank, after: Bank, r: Reg, h: nat, l: nat, n: nat) {
    && r in after && after == before[r := after[r]]
    && forall k :: 0 <= k < 16 ==>
         (after[r][k] <==>
            if k < l then ReadReg(before, r)[k]
            else if k <= h then BitAt(n, k - l)
            else ReadReg(before, r)[k] || BitAt(n, k - l))
  }

  /** The same, the number being the place of the value in a list of codes. */
  ghost predicate CodeSet(before: Bank, after: Bank, r: Reg, h: nat, l: nat, v: AttrValue, codes: seq<AttrValue>) {
    exists n :: 0 <= n < |codes| && codes[n] == v && FieldSet(before, after, r, h, l, n)
  }

  const RATE_CODES := [RateV(Otu4), RateV(Ge100)]
  const GRID_CODES := [GridV(Ghz100), GridV(Ghz50), GridV(Ghz33), GridV(Ghz25), GridV(Ghz12_5), GridV(Ghz6_25)]
  const MODULATION_CODES := [ModulationV(Qam16), ModulationV(Qpsk), ModulationV(Qam8)]
  const FEC_CODES := [FecV(Fec15), FecV(Fec15NonStd), FecV(Fec25)]
  const MODE_CODES := [ModeV(Independent), ModeV(Coupled)]

  /** An attribute of host interface `i` set. The FEC bits and the enables of the lanes' outputs are
      disable bits. */
  ghost predicate HostWritten(before: Bank, after: Bank, m: nat, i: nat, a: HostAttr, v: AttrValue)
    requires i < NUM_HOSTIF
  {
    match a
    case Rate => CodeSet(before, after, Reg(m, 0x9020), 3 * i + 2, 3 * i, v, RATE_CODES)
    case Enable => v.Flag? && BitSet(before, after, Reg(m, 0x9020), 12 + i, v.on)
    case FecDecoder => v.Flag? && BitSet(before, after, Reg(m, 0x9200 + i), 15, !v.on)
    case FecEncoder => v.Flag? && BitSet(before, after, Reg(m, 0x9200 + i), 7, !v.on)
    case HostTxReset => v.Flag? && BitSet(before, after, Reg(m, 0x9200 + i), 11, v.on)
    case HostRxReset => v.Flag? && BitSet(before, after, Reg(m, 0x9200 + i), 5, v.on)
    case LfCtleGain => v.Number? && FieldSet(before, after, Reg(m, 0x9218 + i), 15, 12, v.n)
    case CtleGain => v.Number? && FieldSet(before, after, Reg(m, 0x9218 + i), 11, 7, v.n)
    case DfeCoefficient => v.Number? && FieldSet(before, after, Reg(m, 0x9218 + i), 5, 0, v.n)
    case Tap0Gain => v.Number? && FieldSet(before, after, Reg(m, 0x9220 + i), 6, 4, v.n)
    case Tap0Delay => v.Number? && FieldSet(before, after, Reg(m, 0x9220 + i), 2, 0, v.n)
    case Tap1Gain => v.Number? && FieldSet(before, after, Reg(m, 0x9228 + i), 6, 4, v.n)
    case Tap2Gain => v.Number? && FieldSet(before, after, Reg(m, 0x9230 + i), 7, 4, v.n)
    case Tap2Delay => v.Number? && FieldSet(before, after, Reg(m, 0x9230 + i), 2, 0, v.n)
  }

  /** An attribute of network interface `i` set; a frequency is written in MHz. */
  ghost predicate NetWritten(before: Bank, after: Bank, m: nat, i: nat, a: NetAttr, v: AttrValue)
    requires i < NUM_NETIF
  {
    match a
    case TxEnable => v.Flag? && BitSet(before, after, Reg(m, 0xB013), i, !v.on)
    case MasterEnable => v.Flag? && BitSet(before, after, Reg(m, 0x9018), i, v.on)
    case GridSpacing => CodeSet(before, after, Reg(m, 0xB400 + i), 15, 13, v, GRID_CODES)
    case TxChannel => v.Number? && FieldSet(before, after, Reg(m, 0xB400 + i), 9, 0, v.n)
    case FineTune => v.Hertz? && FieldSet(before, after, Reg(m, 0xB430 + i), 15, 0, v.hz / 1_000_000)
    case Modulation => CodeSet(before, after, Reg(m, 0x9100 + i), 11, 8, v, MODULATION_CODES)
    case Differential => v.Flag? && BitSet(before, after, Reg(m, 0x9100 + i), 7, !v.on)
    case FecMode => CodeSet(before, after, Reg(m, 0x9100 + i), 2, 0, v, FEC_CODES)
    case TxReset => v.Flag? && BitSet(before, after, Reg(m, 0x9120 + i), 8, v.on)
    case TxFifoReset => v.Flag? && BitSet(before, after, Reg(m, 0x9120 + i), 10, v.on)
    case RxReset => v.Flag? && BitSet(before, after, Reg(m, 0x9128 + i), 8, v.on)
    case RxFifoReset => v.Flag? && BitSet(before, after, Reg(m, 0x9128 + i), 4, v.on)
  }

  /** The network mode set: the whole register is the code. */
  ghost predicate ModeRegister(before: Bank, after: Bank, m: nat, v: AttrValue) {
    exists n :: 0 <= n < |MODE_CODES| && MODE_CODES[n] == v && after == before[Reg(m, 0x9010) := Code(n)]
  }

  ghost predicate Written(before: Bank, after: Bank, s: Slot, v: AttrValue)
    requires s.Valid()
  {
    match s
    case Host(m, i, a) => HostWritten(before, after, m, i, a, v)
    case Net(m, i, a) => NetWritten(before, after, m, i, a, v)
    case NetworkMode(m) => ModeRegister(before, after, m, v)
  }

  lemma FlagPut(bank: Bank, r: Reg, b: nat, on: bool)
    requires b < 16
    ensures BitSet(bank, bank[r := PutField(ReadReg(bank, r), b, b, BitOf(on))], r, b, on)
  {
    BitField(ReadReg(bank, r), b, on);
  }

  lemma FieldPut(bank: Bank, r: Reg, h: nat, l: nat, n: nat)
    requires l <= h < 16
    ensures FieldSet(bank, bank[r := PutField(ReadReg(bank, r), h, l, Code(n))], r, h, l, n)
  {
    PutBits(ReadReg(bank, r), h, l, Code(n));
    CodeBits(n);
  }

  lemma CodePut(bank: Bank, s: Slot, n: nat, v: AttrValue, codes: seq<AttrValue>)
    requires s.Valid() && !s.NetworkMode? && n < |codes| && codes[n] == v
    ensures CodeSet(bank, Put(bank, s, Code(n)), RegOf(s), PlaceOf(s).msb, PlaceOf(s).lsb, v, codes)
  {
    FieldPut(bank, RegOf(s), PlaceOf(s).msb, PlaceOf(s).lsb, n);
  }

  lemma HostPutWritten(bank: Bank, m: nat, i: nat, a: HostAttr, v: AttrValue)
    requires m in {1, 2} && i < NUM_HOSTIF
    requires Typed(KindOf(Host(m, i, a)), v) && Encode(KindOf(Host(m, i, a)), v).Some?
    ensures HostWritten(bank, Put(bank, Host(m, i, a), Code(Encode(KindOf(Host(m, i, a)), v).value)), m, i, a, v)
  {
    if a == Rate {
      HostRateWritten(bank, m, i, v, Encode(RateKind, v).value);
    } else if KindOf(Host(m, i, a)).FlagKind? {
      HostFlagWritten(bank, m, i, a, v);
    } else {
      HostNumberWritten(bank, m, i, a, v);
    }
  }

  lemma HostRateWritten(bank: Bank, m: nat, i: nat, v: AttrValue, n: nat)
    requires m in {1, 2} && i < NUM_HOSTIF && v.RateV? && Encode(RateKind, v) == Some(n)
    ensures HostWritten(bank, Put(bank, Host(m, i, Rate), Code(n)), m, i, Rate, v)
  {
    RatePlace(i);
    CodePut(bank, Host(m, i, Rate), n, v, RATE_CODES);
  }

  lemma RatePlace(i: nat)
    requires i < NUM_HOSTIF
    ensures HostPlace(i, Rate) == Place(0x9020, 3 * i + 2, 3 * i)
  {
  }

  lemma HostFlagWritten(bank: Bank, m: nat, i: nat, a: HostAttr, v: AttrValue)
    requires m in {1, 2} && i < NUM_HOSTIF && KindOf(Host(m, i, a)).FlagKind? && v.Flag?
    ensures HostWritten(bank, Put(bank, Host(m, i, a), Code(Encode(KindOf(Host(m, i, a)), v).value)), m, i, a, v)
  {
    var (k, p) := (KindOf(Host(m, i, a)), HostPlace(i, a));
    FlagPut(bank, Reg(m, p.addr), p.lsb, v.on != k.inverted);
  }

  lemma HostNumberWritten(bank: Bank, m: nat, i: nat, a: HostAttr, v: AttrValue)
    requires m in {1, 2} && i < NUM_HOSTIF && KindOf(Host(m, i, a)) == NumberKind && v.Number?
    ensures HostWritten(bank, Put(bank, Host(m, i, a), Code(v.n)), m, i, a, v)
  {
    FieldPut(bank, Reg(m, HostPlace(i, a).addr), HostPlace(i, a).msb, HostPlace(i, a).lsb, v.n);
  }

  lemma NetPutWritten(bank: Bank, m: nat, i: nat, a: NetAttr, v: AttrValue)
    requires m in {1, 2} && i < NUM_NETIF
    requires Typed(KindOf(Net(m, i, a)), v) && Encode(KindOf(Net(m, i, a)), v).Some?
    ensures NetWritten(bank, Put(bank, Net(m, i, a), Code(Encode(KindOf(Net(m, i, a)), v).value)), m, i, a, v)
  {
    if KindOf(Net(m, i, a)).FlagKind? {
      NetFlagWritten(bank, m, i, a, v);
    } else {
      NetFieldWritten(bank, m, i, a, v, Encode(KindOf(Net(m, i, a)), v).value);
    }
  }

  lemma NetFlagWritten(bank: Bank, m: nat, i: nat, a: NetAttr, v: AttrValue)
    requires m in {1, 2} && i < NUM_NETIF && KindOf(Net(m, i, a)).FlagKind? && v.Flag?
    ensures NetWritten(bank, Put(bank, Net(m, i, a), Code(Encode(KindOf(Net(m, i, a)), v).value)), m, i, a, v)
  {
    var (k, p) := (KindOf(Net(m, i, a)), NetPlace(i, a));
    FlagPut(bank, Reg(m, p.addr), p.lsb, v.on != k.inverted);
  }

  lemma NetFieldWritten(bank: Bank, m: nat, i: nat, a: NetAttr, v: AttrValue, n: nat)
    requires m in {1, 2} && i < NUM_NETIF && !KindOf(Net(m, i, a)).FlagKind?
    requires Typed(KindOf(Net(m, i, a)), v) && Encode(KindOf(Net(m, i, a)), v) == Some(n)
    ensures NetWritten(bank, Put(bank, Net(m, i, a), Code(n)), m, i, a, v)
  {
    NetCodes(m, i, a, v, n);
    if a == TxChannel || a == FineTune {
      NetNumberWritten(bank, m, i, a, v, n);
    } else {
      NetCodeWritten(bank, m, i, a, v, n);
    }
  }

  lemma NetNumberWritten(bank: Bank, m: nat, i: nat, a: NetAttr, v: AttrValue, n: nat)
    requires m in {1, 2} && i < NUM_NETIF
    requires (a == TxChannel && v == Number(n)) || (a == FineTune && v.Hertz? && n == v.hz / 1_000_000)
    ensures NetWritten(bank, Put(bank, Net(m, i, a), Code(n)), m, i, a, v)
  {
    FieldPut(bank, Reg(m, NetPlace(i, a).addr), NetPlace(i, a).msb, NetPlace(i, a).lsb, n);
  }

  ghost function CodesOf(a: NetAttr): seq<AttrValue> {
    if a == GridSpacing then GRID_CODES else if a == Modulation then MODULATION_CODES else FEC_CODES
  }

  lemma NetCodeWritten(bank: Bank, m: nat, i: nat, a: NetAttr, v: AttrValue, n: nat)
    requires m in {1, 2} && i < NUM_NETIF && (a == GridSpacing || a == Modulation || a == FecMode)
    requires n < |CodesOf(a)| && CodesOf(a)[n] == v
    ensures NetWritten(bank, Put(bank, Net(m, i, a), Code(n)), m, i, a, v)
  {
    CodePut(bank, Net(m, i, a), n, v, CodesOf(a));
  }

  lemma NetCodes(m: nat, i: nat, a: NetAttr, v: AttrValue, n: nat)
    requires Typed(KindOf(Net(m, i, a)), v) && Encode(KindOf(Net(m, i, a)), v) == Some(n)
    ensures a == GridSpacing ==> n < |GRID_CODES| && GRID_CODES[n] == v
    ensures a == Modulation ==> n < |MODULATION_CODES| && MODULATION_CODES[n] == v
    ensures a == FecMode ==> n < |FEC_CODES| && FEC_CODES[n] == v
    ensures a == TxChannel ==> v == Number(n)
    ensures a == FineTune ==> v.Hertz? && n == v.hz / 1_000_000
  {
  }

  /** MAIN RESULT. Every accepted set writes exactly the bits the header names for the attribute, with
      the sense and the code the setters give them, and nothing else. */
  lemma PutWritten(bank: Bank, s: Slot, v: AttrValue)
    requires s.Valid() && Typed(KindOf(s), v) && Encode(KindOf(s), v).Some?
    ensures Written(bank, Put(bank, s, Code(Encode(KindOf(s), v).value)), s, v)
  {
    match s
    case Host(m, i, a) => HostPutWritten(bank, m, i, a, v);
    case Net(m, i, a) => NetPutWritten(bank, m, i, a, v);
    case NetworkMode(m) =>
      var n := Encode(KindOf(s), v).value;
      assert MODE_CODES[n] == v;
  }

  /** A value is refused exactly if it is one of the enumerations' values that has no code. */
  lemma RefusedValues(s: Slot, v: AttrValue)
    requires s.Valid() && Typed(KindOf(s), v)
    ensures Encode(KindOf(s), v).None? <==>
            || v == RateV(OtherRate) || v == GridV(UnknownGrid) || v == ModulationV(UnknownModulation)
            || v == FecV(UnknownFec) || v == ModeV(UnknownMode)
  {
  }

  /** A code that no value has is shown as the unknown value, and an unknown rate not at all. */
  lemma UnknownCodes(bank: Bank, s: Slot, n: nat)
    requires s.Valid() && n == Num(Look(bank, s))
    ensures KindOf(s) == RateKind && n >= |RATE_CODES| ==> Shown(bank, s) == None
    ensures KindOf(s) == GridKind && n >= |GRID_CODES| ==> Shown(bank, s) == Some(GridV(UnknownGrid))
    ensures KindOf(s) == ModulationKind && n >= |MODULATION_CODES| ==>
              Shown(bank, s) == Some(ModulationV(UnknownModulation))
    ensures KindOf(s) == FecKind && n >= |FEC_CODES| ==> Shown(bank, s) == Some(FecV(UnknownFec))
    ensures KindOf(s) == ModeKind && n >= |MODE_CODES| ==> Shown(bank, s) == Some(ModeV(UnknownMode))
  {
    CodesEnd(KindOf(s), n);
  }

  lemma CodesEnd(k: Kind, n: nat)
    ensures k == RateKind && n >= 2 ==> Decode(k, n) == None
    ensures k == GridKind && n >= 6 ==> Decode(k, n) == Some(GridV(UnknownGrid))
    ensures k == ModulationKind && n >= 3 ==> Decode(k, n) == Some(ModulationV(UnknownModulation))
    ensures k == FecKind && n >= 3 ==> Decode(k, n) == Some(FecV(UnknownFec))
    ensures k == ModeKind && n >= 2 ==> Decode(k, n) == Some(ModeV(UnknownMode))
  {
  }
}
