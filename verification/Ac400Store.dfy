/** Attribute values, their register codes, and the packed register bank as a store of values. */
module Store {
  import opened Options
  import opened Words
  import opened Layout

  datatype RateValue = Otu4 | Ge100 | OtherRate
  datatype GridValue = Ghz100 | Ghz50 | Ghz33 | Ghz25 | Ghz12_5 | Ghz6_25 | UnknownGrid
  datatype ModulationValue = Qam16 | Qpsk | Qam8 | UnknownModulation
  datatype FecValue = Fec15 | Fec15NonStd | Fec25 | UnknownFec
  datatype ModeValue = Independent | Coupled | UnknownMode

  /** A value of an attribute; `Number` is the u16 and `Hertz` the u64 member of the union. */
  datatype AttrValue =
    | Flag(on: bool)
    | Number(n: nat)
    | Hertz(hz: nat)
    | RateV(rate: RateValue)
    | GridV(grid: GridValue)
    | ModulationV(modulation: ModulationValue)
    | FecV(fec: FecValue)
    | ModeV(mode: ModeValue)

  /** How an attribute's value sits in its field; an inverted flag is stored negated. */
  datatype Kind =
    | FlagKind(inverted: bool)
    | NumberKind | HertzKind | RateKind | GridKind | ModulationKind | FecKind | ModeKind

  function KindOf(s: Slot): Kind {
    match s
    case Host(_, _, a) =>
      (match a
       case Rate => RateKind
       case Enable => FlagKind(false)
       case FecDecoder => FlagKind(true)
       case FecEncoder => FlagKind(true)
       case HostTxReset => FlagKind(false)
       case HostRxReset => FlagKind(false)
       case _ => NumberKind)
    case Net(_, _, a) =>
      (match a
       case TxEnable => FlagKind(true)
       case GridSpacing => GridKind
       case TxChannel => NumberKind
       case FineTune => HertzKind
       case Modulation => ModulationKind
       case Differential => FlagKind(true)
       case FecMode => FecKind
       case _ => FlagKind(false))
    case NetworkMode(_) => ModeKind
  }

  /** The value is in the union member the attribute uses; a u16 is below 65536. */
  predicate Typed(k: Kind, v: AttrValue) {
    match k
    case FlagKind(_) => v.Flag?
    case NumberKind => v.Number? && v.n < 65536
    case HertzKind => v.Hertz?
    case RateKind => v.RateV?
    case GridKind => v.GridV?
    case ModulationKind => v.ModulationV?
    case FecKind => v.FecV?
    case ModeKind => v.ModeV?
  }

  // ---- codes ---------------------------------------------------------------------

  /** The number a setter computes; None when it refuses the value. */
  function Encode(k: Kind, v: AttrValue): Option<nat> {
    match v
    case Flag(on) => Some(if k.FlagKind? && k.inverted then (if on then 0 else 1) else (if on then 1 else 0))
    case Number(n) => Some(n)
    case Hertz(hz) => Some(hz / 1_000_000)
    case RateV(r) => (match r case Otu4 => Some(0) case Ge100 => Some(1) case OtherRate => None)
    case GridV(g) =>
      (match g
       case Ghz100 => Some(0) case Ghz50 => Some(1) case Ghz33 => Some(2)
       case Ghz25 => Some(3) case Ghz12_5 => Some(4) case Ghz6_25 => Some(5)
       case UnknownGrid => None)
    case ModulationV(m) =>
      (match m case Qam16 => Some(0) case Qpsk => Some(1) case Qam8 => Some(2) case UnknownModulation => None)
    case FecV(f) =>
      (match f case Fec15 => Some(0) case Fec15NonStd => Some(1) case Fec25 => Some(2) case UnknownFec => None)
    case ModeV(m) =>
      (match m case Independent => Some(0) case Coupled => Some(1) case UnknownMode => None)
  }

  function ModeOf(n: nat): ModeValue {
    if n == 0 then Independent else if n == 1 then Coupled else UnknownMode
  }

  /** What a getter makes of the number in the field; None when it fails. */
  function Decode(k: Kind, n: nat): Option<AttrValue> {
    match k
    case FlagKind(inverted) => Some(Flag(if inverted then n == 0 else n != 0))
    case NumberKind => Some(Number(n))
    case HertzKind => Some(Hertz(n * 1_000_000))
    case RateKind => if n == 0 then Some(RateV(Otu4)) else if n == 1 then Some(RateV(Ge100)) else None
    case GridKind =>
      Some(GridV(if n == 0 then Ghz100 else if n == 1 then Ghz50 else if n == 2 then Ghz33
                 else if n == 3 then Ghz25 else if n == 4 then Ghz12_5 else if n == 5 then Ghz6_25 else UnknownGrid))
    case ModulationKind =>
      Some(ModulationV(if n == 0 then Qam16 else if n == 1 then Qpsk else if n == 2 then Qam8 else UnknownModulation))
    case FecKind =>
      Some(FecV(if n == 0 then Fec15 else if n == 1 then Fec15NonStd else if n == 2 then Fec25 else UnknownFec))
    case ModeKind => Some(ModeV(ModeOf(n)))
  }

  // ---- one set and get -----------------------------------------------------------------

  function Width(s: Slot): nat
    requires s.Valid()
  {
    PlaceOf(s).msb - PlaceOf(s).lsb + 1
  }

  /** What the host can check beforehand: a number fits its field; a frequency is a whole number of
      MHz below 65536. */
  predicate ValueFits(s: Slot, v: AttrValue)
    requires s.Valid()
  {
    match v
    case Number(n) => n < Pow2(Width(s))
    case Hertz(hz) => hz % 1_000_000 == 0 && hz / 1_000_000 < 65536
    case _ => true
  }

  predicate WidthFor(k: Kind, w: nat) {
    match k
    case FlagKind(_) => w == 1
    case NumberKind => w <= 10
    case HertzKind => w == 16
    case ModulationKind => w == 4
    case ModeKind => w == 2
    case _ => w == 3
  }

  lemma Widths(s: Slot)
    requires s.Valid()
    ensures WidthFor(KindOf(s), Width(s))
  {
  }

  lemma SmallPowers()
    ensures Pow2(1) == 2 && Pow2(2) == 4 && Pow2(3) == 8 && Pow2(4) == 16 && Pow2(16) == 65536
  {
    assert Pow2(8) == 256;
    assert Pow2(12) == 4096;
  }

  /** Every code but a number's is below two to the width of its field. */
  lemma EncodeSmall(k: Kind, v: AttrValue, w: nat)
    requires Typed(k, v) && Encode(k, v).Some? && WidthFor(k, w)
    ensures Encode(k, v).value % 65536 < Pow2(w) <==> (v.Number? ==> v.n < Pow2(w))
  {
    SmallPowers();
  }

  lemma CodeNumber(s: Slot, n: nat)
    requires s.Valid()
    ensures CodeFits(s, Code(n)) <==> n % 65536 < Pow2(Width(s))
  {
    NumOfCode(n);
  }

  lemma CodesFit(s: Slot, v: AttrValue)
    requires s.Valid() && Typed(KindOf(s), v) && Encode(KindOf(s), v).Some?
    ensures CodeFits(s, Code(Encode(KindOf(s), v).value)) <==> (v.Number? ==> ValueFits(s, v))
  {
    Widths(s);
    EncodeSmall(KindOf(s), v, Width(s));
    CodeNumber(s, Encode(KindOf(s), v).value);
  }

  lemma DecodeEncode(k: Kind, v: AttrValue)
    requires Typed(k, v) && Encode(k, v).Some?
    ensures Decode(k, Encode(k, v).value % 65536) == Some(v) <==>
            (v.Hertz? ==> v.hz % 1_000_000 == 0 && v.hz / 1_000_000 < 65536)
  {
  }

  function Shown(bank: Bank, s: Slot): Option<AttrValue>
    requires s.Valid()
  {
    Decode(KindOf(s), Num(Look(bank, s)))
  }

  /** An accepted set followed by a get shows the value exactly when the value fits: setters do not
      mask, so a wide number comes back cut off, and sub-MHz parts of a frequency are lost. */
  lemma ReadsBackIffFits(bank: Bank, s: Slot, v: AttrValue)
    requires s.Valid() && Typed(KindOf(s), v) && Encode(KindOf(s), v).Some?
    ensures Shown(Put(bank, s, Code(Encode(KindOf(s), v).value)), s) == Some(v) <==> ValueFits(s, v)
  {
    var n := Encode(KindOf(s), v).value;
    NumOfCode(n);
    CodesFit(s, v);
    DecodeEncode(KindOf(s), v);
    if CodeFits(s, Code(n)) {
      PutLook(bank, s, Code(n), s);
    } else {
      NumberCutOff(bank, s, n);
    }
  }

  lemma NumberCutOff(bank: Bank, s: Slot, n: nat)
    requires s.Valid() && KindOf(s) == NumberKind && n < 65536 && !CodeFits(s, Code(n))
    ensures Num(Look(Put(bank, s, Code(n)), s)) != n
  {
    var p := PlaceOf(s);
    GetPut(ReadReg(bank, RegOf(s)), p.msb, p.lsb, Code(n));
    CodeOfNum(Look(Put(bank, s, Code(n)), s));
  }

  /** An input where it does not fit: channel 0x2000 reads back as channel 0, and moves the grid
      spacing, which shares the register, from 100 to 50 GHz. */
  lemma WideChannelMovesGrid(bank: Bank, s: Slot, t: Slot, n: nat)
    requires s == Net(1, 0, TxChannel) && t == Net(1, 0, GridSpacing) && n == 0x2000
    requires RegOf(s) !in bank
    ensures Typed(KindOf(s), Number(n)) && Encode(KindOf(s), Number(n)) == Some(n)
    ensures Shown(Put(bank, s, Code(n)), s) == Some(Number(0))
    ensures Shown(bank, t) == Some(GridV(Ghz100)) && Shown(Put(bank, s, Code(n)), t) == Some(GridV(Ghz50))
  {
    ChannelCode(n);
    BitsShown(false);
    BitsShown(true);
    assert ReadReg(bank, RegOf(s)) == BitOf(false);
    WideLook(bank, s, t, BitOf(false), BitOf(true), Code(n));
    GridShown(bank, t, BitOf(false));
    GridShown(Put(bank, s, Code(n)), t, BitOf(true));
    ChannelShown(Put(bank, s, Code(n)), s, BitOf(false));
  }

  lemma BitsShown(on: bool)
    ensures Num(BitOf(on)) == if on then 1 else 0
    ensures forall k :: 0 <= k < 16 ==> (BitOf(on)[k] <==> k == 0 && on)
  {
    NumOfCode(if on then 1 else 0);
    BitDigits(on);
  }

  lemma GridShown(bank: Bank, t: Slot, w: Word)
    requires t == Net(1, 0, GridSpacing) && Look(bank, t) == w && Num(w) < 2
    ensures Shown(bank, t) == Some(GridV(if Num(w) == 0 then Ghz100 else Ghz50))
  {
  }

  lemma ChannelShown(bank: Bank, s: Slot, w: Word)
    requires s == Net(1, 0, TxChannel) && Look(bank, s) == w
    ensures Shown(bank, s) == Some(Number(Num(w)))
  {
  }

  lemma WideLook(bank: Bank, s: Slot, t: Slot, zero: Word, one: Word, code: Word)
    requires s == Net(1, 0, TxChannel) && t == Net(1, 0, GridSpacing)
    requires ReadReg(bank, RegOf(s)) == zero
    requires forall k :: 0 <= k < 16 ==> !zero[k] && (one[k] <==> k == 0) && (code[k] <==> k == 13)
    ensures Look(Put(bank, s, code), s) == zero
    ensures Look(bank, t) == zero && Look(Put(bank, s, code), t) == one
  {
    WideFields(zero, one, code, PlaceOf(s), PlaceOf(t));
  }

  lemma WideFields(zero: Word, one: Word, code: Word, p: Place, q: Place)
    requires p.lsb == 0 && p.msb == 9 && q.lsb == 13 && q.msb == 15
    requires forall k :: 0 <= k < 16 ==> !zero[k] && (one[k] <==> k == 0) && (code[k] <==> k == 13)
    ensures var w := PutField(zero, p.msb, p.lsb, code);
            && GetField(w, p.msb, p.lsb) == zero
            && GetField(w, q.msb, q.lsb) == one && GetField(zero, q.msb, q.lsb) == zero
  {
    var w := PutField(zero, p.msb, p.lsb, code);
    PutBits(zero, p.msb, p.lsb, code);
    GetBits(w, p.msb, p.lsb);
    GetBits(w, q.msb, q.lsb);
    GetBits(zero, q.msb, q.lsb);
    forall k | 0 <= k < 16 ensures GetField(w, q.msb, q.lsb)[k] == one[k] {
      assert k + q.lsb <= 15 ==> w[k + q.lsb] == code[k + q.lsb];
    }
    assert GetField(w, p.msb, p.lsb) == zero && GetField(w, q.msb, q.lsb) == one;
  }

  lemma ChannelCode(n: nat)
    requires n == 0x2000
    ensures forall k :: 0 <= k < 16 ==> (Code(n)[k] <==> k == 13)
  {
    PowerDigits(13, 16);
    assert Pow2(4) == 16 && Pow2(8) == 256 && Pow2(12) == 4096;
    assert Pow2(13) == n;
  }

  // ---- runs ------------------------------------------------------------------------------

  /** A set of the host that was accepted. */
  datatype Accepted = Accepted(slot: Slot, value: AttrValue)

  predicate Good(a: Accepted) {
    && a.slot.Valid() && Typed(KindOf(a.slot), a.value)
    && Encode(KindOf(a.slot), a.value).Some? && ValueFits(a.slot, a.value)
  }

  function PutOne(bank: Bank, a: Accepted): Bank
    requires Good(a)
  {
    Put(bank, a.slot, Code(Encode(KindOf(a.slot), a.value).value))
  }

  function PutAll(bank: Bank, sets: seq<Accepted>): Bank
    requires forall a :: a in sets ==> Good(a)
  {
    if sets == [] then bank else PutOne(PutAll(bank, sets[..|sets| - 1]), sets[|sets| - 1])
  }

  /** The store that remembers the last value set, attribute by attribute. */
  function LastSet(sets: seq<Accepted>, t: Slot, initial: Option<AttrValue>): Option<AttrValue> {
    if sets == [] then initial
    else
      var n := |sets| - 1;
      if sets[n].slot == t then Some(sets[n].value) else LastSet(sets[..n], t, initial)
  }

  /** One accepted set is one cell of the store. */
  lemma PutOneShown(bank: Bank, a: Accepted, t: Slot)
    requires Good(a) && t.Valid()
    ensures Shown(PutOne(bank, a), t) == if t == a.slot then Some(a.value) else Shown(bank, t)
  {
    CodesFit(a.slot, a.value);
    if t == a.slot {
      ReadsBackIffFits(bank, a.slot, a.value);
    } else {
      PutLook(bank, a.slot, Code(Encode(KindOf(a.slot), a.value).value), t);
    }
  }

  /** MAIN RESULT. The packed bank refines the store: after any sequence of accepted sets on both
      modules and all interfaces, every attribute shows the last value set, or what it showed. */
  lemma {:induction false} BankRefinesStore(bank: Bank, sets: seq<Accepted>, t: Slot)
    requires t.Valid() && forall a :: a in sets ==> Good(a)
    ensures Shown(PutAll(bank, sets), t) == LastSet(sets, t, Shown(bank, t))
  {
    if sets != [] {
      var n := |sets| - 1;
      BankRefinesStore(bank, sets[..n], t);
      PutOneShown(PutAll(bank, sets[..n]), sets[n], t);
    }
  }
}
