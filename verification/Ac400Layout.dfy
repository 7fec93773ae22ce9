/** Where the settable attributes of the AC400's interfaces live in its registers, and the proof
    that the packed bank behaves like a store with one cell per attribute. */
module Layout {
  import opened Words

  // ---- attributes -----------------------------------------------------------------

  datatype HostAttr =
    | Rate | Enable | FecDecoder | FecEncoder | HostTxReset | HostRxReset
    | LfCtleGain | CtleGain | DfeCoefficient
    | Tap0Gain | Tap0Delay | Tap1Gain | Tap2Gain | Tap2Delay

  datatype NetAttr =
    | TxEnable | GridSpacing | TxChannel | FineTune | MasterEnable
    | Modulation | Differential | FecMode
    | TxReset | TxFifoReset | RxReset | RxFifoReset

  /** One attribute of one interface of one module (1 or 2), or a module's network mode. */
  datatype Slot =
    | Host(hostModule: nat, hostIdx: nat, hostAttr: HostAttr)
    | Net(netModule: nat, netIdx: nat, netAttr: NetAttr)
    | NetworkMode(modeModule: nat)
  {
    predicate Valid() {
      match this
      case Host(m, i, _) => m in {1, 2} && i < NUM_HOSTIF
      case Net(m, i, _) => m in {1, 2} && i < NUM_NETIF
      case NetworkMode(m) => m in {1, 2}
    }

    function Module(): nat {
      match this
      case Host(m, _, _) => m
      case Net(m, _, _) => m
      case NetworkMode(m) => m
    }
  }

  const NUM_HOSTIF: nat := 4
  const NUM_NETIF: nat := 2

  // ---- registers -------------------------------------------------------------------

  const DEVICE_SETUP: nat := 0x9010
  const LANES_ENABLE: nat := 0x9018
  const CLIENT_INTF_DEF: nat := 0x9020
  const GEN_MODE: nat := 0x9100
  const NTWK_TX_CNTL: nat := 0x9120
  const NTWK_RX_CNTL: nat := 0x9128
  const CLIENT_GEN_CNTL: nat := 0x9200
  const TX_EQUAL: nat := 0x9218
  const RX_TAP_0: nat := 0x9220
  const RX_TAP_1: nat := 0x9228
  const RX_TAP_2: nat := 0x9230
  const LANE_TX_DIS: nat := 0xB013
  const TX_CHAN: nat := 0xB400
  const TX_LASER_FTF: nat := 0xB430

  datatype Place = Place(addr: nat, msb: nat, lsb: nat)

  function HostPlace(i: nat, a: HostAttr): (p: Place)
    requires i < NUM_HOSTIF
    ensures p.lsb <= p.msb < 16
  {
    match a
    case Rate =>
      if i == 0 then Place(CLIENT_INTF_DEF, 2, 0) else if i == 1 then Place(CLIENT_INTF_DEF, 5, 3)
      else if i == 2 then Place(CLIENT_INTF_DEF, 8, 6) else Place(CLIENT_INTF_DEF, 11, 9)
    case Enable =>
      if i == 0 then Place(CLIENT_INTF_DEF, 12, 12) else if i == 1 then Place(CLIENT_INTF_DEF, 13, 13)
      else if i == 2 then Place(CLIENT_INTF_DEF, 14, 14) else Place(CLIENT_INTF_DEF, 15, 15)
    case FecDecoder => Place(CLIENT_GEN_CNTL + i, 15, 15)
    case FecEncoder => Place(CLIENT_GEN_CNTL + i, 7, 7)
    case HostTxReset => Place(CLIENT_GEN_CNTL + i, 11, 11)
    case HostRxReset => Place(CLIENT_GEN_CNTL + i, 5, 5)
    case LfCtleGain => Place(TX_EQUAL + i, 15, 12)
    case CtleGain => Place(TX_EQUAL + i, 11, 7)
    case DfeCoefficient => Place(TX_EQUAL + i, 5, 0)
    case Tap0Gain => Place(RX_TAP_0 + i, 6, 4)
    case Tap0Delay => Place(RX_TAP_0 + i, 2, 0)
    case Tap1Gain => Place(RX_TAP_1 + i, 6, 4)
    case Tap2Gain => Place(RX_TAP_2 + i, 7, 4)
    case Tap2Delay => Place(RX_TAP_2 + i, 2, 0)
  }

  function NetPlace(i: nat, a: NetAttr): (p: Place)
    requires i < NUM_NETIF
    ensures p.lsb <= p.msb < 16
  {
    match a
    case TxEnable => if i == 0 then Place(LANE_TX_DIS, 0, 0) else Place(LANE_TX_DIS, 1, 1)
    case MasterEnable => if i == 0 then Place(LANES_ENABLE, 0, 0) else Place(LANES_ENABLE, 1, 1)
    case GridSpacing => Place(TX_CHAN + i, 15, 13)
    case TxChannel => Place(TX_CHAN + i, 9, 0)
    case FineTune => Place(TX_LASER_FTF + i, 15, 0)
    case Modulation => Place(GEN_MODE + i, 11, 8)
    case Differential => Place(GEN_MODE + i, 7, 7)
    case FecMode => Place(GEN_MODE + i, 2, 0)
    case TxReset => Place(NTWK_TX_CNTL + i, 8, 8)
    case TxFifoReset => Place(NTWK_TX_CNTL + i, 10, 10)
    case RxReset => Place(NTWK_RX_CNTL + i, 8, 8)
    case RxFifoReset => Place(NTWK_RX_CNTL + i, 4, 4)
  }

  function PlaceOf(s: Slot): (p: Place)
    requires s.Valid()
    ensures p.lsb <= p.msb < 16
  {
    match s
    case Host(_, i, a) => HostPlace(i, a)
    case Net(_, i, a) => NetPlace(i, a)
    case NetworkMode(_) => Place(DEVICE_SETUP, 1, 0)
  }

  predicate Apart(p: Place, q: Place) {
    p.addr != q.addr || p.msb < q.lsb || q.msb < p.lsb
  }

  lemma HostApart(i: nat, a: HostAttr, j: nat, b: HostAttr)
    requires i < NUM_HOSTIF && j < NUM_HOSTIF && (i, a) != (j, b)
    ensures Apart(HostPlace(i, a), HostPlace(j, b))
  {
  }

  lemma NetApart(i: nat, a: NetAttr, j: nat, b: NetAttr)
    requires i < NUM_NETIF && j < NUM_NETIF && (i, a) != (j, b)
    ensures Apart(NetPlace(i, a), NetPlace(j, b))
  {
  }

  lemma HostNetApart(i: nat, a: HostAttr, j: nat, b: NetAttr)
    requires i < NUM_HOSTIF && j < NUM_NETIF
    ensures HostPlace(i, a).addr != NetPlace(j, b).addr
    ensures HostPlace(i, a).addr != DEVICE_SETUP && NetPlace(j, b).addr != DEVICE_SETUP
  {
  }

  /** No two attributes share a bit: rates and enables of four interfaces in one register, lane
      enables in one register, and per-interface registers at neighbouring addresses included. */
  lemma SlotsApart(s: Slot, t: Slot)
    requires s.Valid() && t.Valid() && s != t && s.Module() == t.Module()
    ensures Apart(PlaceOf(s), PlaceOf(t))
  {
    match (s, t)
    case (Host(_, i, a), Host(_, j, b)) => HostApart(i, a, j, b);
    case (Net(_, i, a), Net(_, j, b)) => NetApart(i, a, j, b);
    case (Host(_, i, a), Net(_, j, b)) => HostNetApart(i, a, j, b);
    case (Net(_, j, b), Host(_, i, a)) => HostNetApart(i, a, j, b);
    case (Host(_, i, a), NetworkMode(_)) => HostNetApart(i, a, 0, TxEnable);
    case (NetworkMode(_), Host(_, i, a)) => HostNetApart(i, a, 0, TxEnable);
    case (Net(_, j, b), NetworkMode(_)) => HostNetApart(0, Rate, j, b);
    case (NetworkMode(_), Net(_, j, b)) => HostNetApart(0, Rate, j, b);
    case (NetworkMode(_), NetworkMode(_)) =>
  }

  // ---- the bank ---------------------------------------------------------------------

  datatype Reg = Reg(mod: nat, addr: nat)
  type Bank = map<Reg, Word>

  function ReadReg(bank: Bank, r: Reg): Word {
    if r in bank then bank[r] else Code(0)
  }

  function RegOf(s: Slot): Reg
    requires s.Valid()
  {
    Reg(s.Module(), PlaceOf(s).addr)
  }

  /** What a getter isolates. */
  function Look(bank: Bank, s: Slot): Word
    requires s.Valid()
  {
    GetField(ReadReg(bank, RegOf(s)), PlaceOf(s).msb, PlaceOf(s).lsb)
  }

  /** The register write of a successful setter: read-modify-write of one field, except that the
      network mode is written as a whole register. */
  function Put(bank: Bank, s: Slot, code: Word): Bank
    requires s.Valid()
  {
    var p := PlaceOf(s);
    bank[RegOf(s) := if s.NetworkMode? then code else PutField(ReadReg(bank, RegOf(s)), p.msb, p.lsb, code)]
  }

  predicate CodeFits(s: Slot, code: Word)
    requires s.Valid()
  {
    Fits(PlaceOf(s).msb, PlaceOf(s).lsb, code)
  }

  /** One write is one cell of the store: the slot reads back, every other slot is as it was. */
  lemma PutLook(bank: Bank, s: Slot, code: Word, t: Slot)
    requires s.Valid() && t.Valid() && CodeFits(s, code)
    ensures Look(Put(bank, s, code), t) == if t == s then code else Look(bank, t)
  {
    if t == s {
      PutLookSame(bank, s, code);
    } else if RegOf(s) == RegOf(t) {
      SlotsApart(s, t);
      OnlyModeSlot(s, t);
      var (p, q) := (PlaceOf(s), PlaceOf(t));
      GetPutOther(ReadReg(bank, RegOf(s)), p.msb, p.lsb, code, q.msb, q.lsb);
    }
  }

  lemma PutLookSame(bank: Bank, s: Slot, code: Word)
    requires s.Valid() && CodeFits(s, code)
    ensures Look(Put(bank, s, code), s) == code
  {
    var p := PlaceOf(s);
    GetPut(ReadReg(bank, RegOf(s)), p.msb, p.lsb, code);
    if s.NetworkMode? {
      GetBits(code, 1, 0);
      SmallBits(code, 2);
      assert forall k :: 0 <= k < 16 ==> GetField(code, 1, 0)[k] == code[k];
    }
  }

  /** The network mode has its register to itself. */
  lemma OnlyModeSlot(s: Slot, t: Slot)
    requires s.Valid() && t.Valid() && s != t && RegOf(s) == RegOf(t)
    ensures !s.NetworkMode? && !t.NetworkMode?
  {
    SlotsApart(s, t);
    match (s, t)
    case (NetworkMode(_), Host(_, i, a)) => HostNetApart(i, a, 0, TxEnable);
    case (Host(_, i, a), NetworkMode(_)) => HostNetApart(i, a, 0, TxEnable);
    case (NetworkMode(_), Net(_, j, b)) => HostNetApart(0, Rate, j, b);
    case (Net(_, j, b), NetworkMode(_)) => HostNetApart(0, Rate, j, b);
    case _ =>
  }

  // ---- values too wide for their field ----------------------------------------------------

  /** A bit of the code lands in the other attribute's field. */
  predicate Spills(s: Slot, code: Word, t: Slot)
    requires s.Valid() && t.Valid()
  {
    RegOf(s) == RegOf(t) &&
    exists k :: 0 <= k < 16 && code[k] && PlaceOf(t).lsb <= k + PlaceOf(s).lsb <= PlaceOf(t).msb
  }

  /** Setters do not mask: a write keeps another attribute in every bank exactly if no set bit of the
      value, moved to its field, lands in the other's. */
  lemma NeighbourKeptIff(s: Slot, code: Word, t: Slot)
    requires s.Valid() && t.Valid() && s != t && !s.NetworkMode? && !t.NetworkMode?
    ensures (forall bank :: Look(Put(bank, s, code), t) == Look(bank, t)) <==> !Spills(s, code, t)
  {
    var (p, q) := (PlaceOf(s), PlaceOf(t));
    if RegOf(s) == RegOf(t) {
      SlotsApart(s, t);
      if k :| 0 <= k < 16 && code[k] && q.lsb <= k + p.lsb <= q.msb {
        var bank: Bank := map[];
        assert Code(0) == BitOf(false);
        BitDigits(false);
        SpillShows(Code(0), p, q, code, k);
        assert Look(Put(bank, s, code), t) != Look(bank, t);
      } else {
        forall bank ensures Look(Put(bank, s, code), t) == Look(bank, t) {
          NoSpill(ReadReg(bank, RegOf(s)), p, q, code);
        }
      }
    }
  }

  lemma NoSpill(w: Word, p: Place, q: Place, code: Word)
    requires p.lsb <= p.msb < 16 && q.lsb <= q.msb < 16 && (p.msb < q.lsb || q.msb < p.lsb)
    requires !exists k :: 0 <= k < 16 && code[k] && q.lsb <= k + p.lsb <= q.msb
    ensures GetField(PutField(w, p.msb, p.lsb, code), q.msb, q.lsb) == GetField(w, q.msb, q.lsb)
  {
    var w' := PutField(w, p.msb, p.lsb, code);
    PutBits(w, p.msb, p.lsb, code);
    GetBits(w', q.msb, q.lsb);
    GetBits(w, q.msb, q.lsb);
    forall k | 0 <= k < 16 ensures GetField(w', q.msb, q.lsb)[k] == GetField(w, q.msb, q.lsb)[k] {
      if k + q.lsb <= q.msb {
        var b := k + q.lsb;
        assert b >= p.lsb ==> b == (b - p.lsb) + p.lsb;
        assert w'[b] == w[b];
      }
    }
  }

  lemma SpillShows(w: Word, p: Place, q: Place, code: Word, k: nat)
    requires p.lsb <= p.msb < 16 && q.lsb <= q.msb < 16 && (p.msb < q.lsb || q.msb < p.lsb)
    requires k < 16 && code[k] && q.lsb <= k + p.lsb <= q.msb && !w[k + p.lsb]
    ensures GetField(PutField(w, p.msb, p.lsb, code), q.msb, q.lsb) != GetField(w, q.msb, q.lsb)
  {
    var w' := PutField(w, p.msb, p.lsb, code);
    PutBits(w, p.msb, p.lsb, code);
    GetBits(w', q.msb, q.lsb);
    GetBits(w, q.msb, q.lsb);
    var b := k + p.lsb;
    assert w'[b];
    assert GetField(w', q.msb, q.lsb)[b - q.lsb] && !GetField(w, q.msb, q.lsb)[b - q.lsb];
  }
}
