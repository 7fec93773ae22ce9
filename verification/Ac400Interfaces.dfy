/** Attribute calls on host and network interfaces: dispatch, the shared client register, the
    per-interface register lists, and the list calls. */
module Interfaces {
  import opened Options
  import opened Words
  import opened Layout
  import opened Store
  import opened Registers
  import opened Timing
  import opened Trace
  import opened Device

  datatype HostAttrId = HostIndex | HostReadOnly | HostSettable(attr: HostAttr) | HostUnknown

  datatype NetAttrId =
    | NetIndex | NetReadOnly | NetSettable(attr: NetAttr) | ClearFecCounters | NetOperStatus | NetUnknown

  datatype HostItem = HostItem(id: HostAttrId, value: AttrValue)

  /** A value for any network interface attribute; an operating state is an enumeration of its own. */
  datatype NetValue = Plain(value: AttrValue) | Oper(status: OperStatus)
  datatype NetItem = NetItem(id: NetAttrId, value: NetValue)

  const FEC_ACCUM_CNTL: nat := 0x9400

  // ---- register access ---------------------------------------------------------------

  predicate Unguarded(addr: nat) {
    addr != GEN_MODE && addr != GEN_MODE + 1 && addr != DEVICE_SETUP
  }

  /** `ac400_set_field_from_reg_list`, and every other read-modify-write of one field. */
  method SetField(d: Driver, m: nat, addr: nat, msb: nat, lsb: nat, field: Word) returns (st: Status)
    requires d.Valid() && lsb <= msb < 16 && Unguarded(addr)
    modifies d`tick, d`bank, d`trace
    ensures d.Valid() && old(d.trace) <= d.trace
    ensures st == if d.world.fails(d.tick) then Failure else Success
    ensures var r := Reg(m, addr);
            d.bank == if st == Success then old(d.bank)[r := PutField(ReadReg(old(d.bank), r), msb, lsb, field)]
                      else old(d.bank)
  {
    var ok, w := d.MdioRead(m, addr);
    if !ok {
      return Failure;
    }
    ok := d.MdioWrite(m, addr, PutField(w, msb, lsb, field));
    st := if ok then Success else Failure;
  }

  method SetBit(d: Driver, m: nat, addr: nat, bit: nat, on: bool) returns (st: Status)
    requires d.Valid() && bit < 16 && Unguarded(addr)
    modifies d`tick, d`bank, d`trace
    ensures d.Valid() && old(d.trace) <= d.trace
    ensures st == if d.world.fails(d.tick) then Failure else Success
    ensures var r := Reg(m, addr);
            d.bank == if st == Success then old(d.bank)[r := PutField(ReadReg(old(d.bank), r), bit, bit, BitOf(on))]
                      else old(d.bank)
  {
    var ok, w := d.MdioRead(m, addr);
    if !ok {
      return Failure;
    }
    var w' := WithBit(w, bit, on);
    ok := d.MdioWrite(m, addr, w');
    st := if ok then Success else Failure;
  }

  method WithBit(w: Word, bit: nat, on: bool) returns (r: Word)
    requires bit < 16
    ensures r == PutField(w, bit, bit, BitOf(on))
  {
    BitMacros(w, bit, on);
    BitField(w, bit, on);
    r := PutBit(w, bit, on);
  }

  method GetFieldAt(d: Driver, m: nat, addr: nat, msb: nat, lsb: nat) returns (ok: bool, field: Word)
    requires lsb <= msb < 16
    modifies d`tick
    ensures d.tick == old(d.tick) + 1 && ok == !d.world.fails(d.tick)
    ensures ok ==> field == GetField(ReadReg(d.bank, Reg(m, addr)), msb, lsb)
  {
    var w;
    ok, w := d.MdioRead(m, addr);
    field := GetField(w, msb, lsb);
  }

  // ---- host interfaces ------------------------------------------------------------------

  /** What a list entry does to the bank if it is accepted. */
  function HostEffect(bank: Bank, m: nat, i: nat, item: HostItem): Bank
    requires m in {1, 2} && i < NUM_HOSTIF
  {
    if item.id.HostSettable? && Encode(KindOf(Host(m, i, item.id.attr)), item.value).Some?
    then Put(bank, Host(m, i, item.id.attr), Code(Encode(KindOf(Host(m, i, item.id.attr)), item.value).value))
    else bank
  }

  predicate HostTyped(m: nat, i: nat, item: HostItem) {
    item.id.HostSettable? ==> Typed(KindOf(Host(m, i, item.id.attr)), item.value)
  }

  /** `ac400_set_host_interface_attribute`. */
  method SetHostAttribute(d: Driver, m: nat, i: nat, item: HostItem) returns (st: Status)
    requires d.Valid() && m in {1, 2} && i < NUM_HOSTIF && HostTyped(m, i, item)
    modifies d`tick, d`bank, d`trace
    ensures d.Valid() && old(d.trace) <= d.trace
    ensures d.bank == if st == Success then HostEffect(old(d.bank), m, i, item) else old(d.bank)
    ensures match item.id
            case HostIndex => st == Success
            case HostReadOnly => st == Refused(0)
            case HostUnknown => st == Unsupported(0)
            case HostSettable(attr) =>
              st == if Encode(KindOf(Host(m, i, attr)), item.value).None? || d.world.fails(d.tick) then Failure
                    else Success
    ensures item.id.HostSettable? ==>
              && (st == Success <==> item.value != RateV(OtherRate) && !d.world.fails(d.tick))
              && (st == Success ==> HostWritten(old(d.bank), d.bank, m, i, item.id.attr, item.value))
  {
    ghost var start := d.bank;
    match item.id {
      case HostIndex => st := Success;
      case HostReadOnly => st := Refused(0);
      case HostUnknown => st := Unsupported(0);
      case HostSettable(attr) =>
        var p := HostPlace(i, attr);
        var code := Encode(KindOf(Host(m, i, attr)), item.value);
        RefusedHostValues(m, i, attr, item.value);
        if code.None? {
          return Failure;
        }
        if attr == Enable {
          st := SetBit(d, m, CLIENT_INTF_DEF, p.lsb, item.value.on);
        } else {
          st := SetField(d, m, p.addr, p.msb, p.lsb, Code(code.value));
        }
        HostPutWritten(start, m, i, attr, item.value);
    }
  }

  lemma RefusedHostValues(m: nat, i: nat, attr: HostAttr, v: AttrValue)
    requires m in {1, 2} && i < NUM_HOSTIF && Typed(KindOf(Host(m, i, attr)), v)
    ensures Encode(KindOf(Host(m, i, attr)), v).None? <==> v == RateV(OtherRate)
  {
  }

  /** The getters of the settable attributes; a rate code that is not known fails. */
  method GetHostAttribute(d: Driver, m: nat, i: nat, attr: HostAttr) returns (read: bool, v: Option<AttrValue>)
    requires m in {1, 2} && i < NUM_HOSTIF
    modifies d`tick
    ensures d.tick == old(d.tick) + 1 && read == !d.world.fails(d.tick)
    ensures v == if read then Shown(d.bank, Host(m, i, attr)) else None
  {
    var p := HostPlace(i, attr);
    var field;
    read, field := GetFieldAt(d, m, p.addr, p.msb, p.lsb);
    if !read {
      return read, None;
    }
    v := Decode(KindOf(Host(m, i, attr)), Num(field));
  }

  function HostEffects(bank: Bank, m: nat, i: nat, items: seq<HostItem>): Bank
    requires m in {1, 2} && i < NUM_HOSTIF
  {
    if items == [] then bank
    else HostEffect(HostEffects(bank, m, i, items[..|items| - 1]), m, i, items[|items| - 1])
  }

  /** `ac400_set_host_interface_attributes`: the entries before the first that fails are applied, in
      order, and nothing else; a refusal names the index of the entry. */
  method SetHostAttributes(d: Driver, m: nat, i: nat, items: seq<HostItem>) returns (st: Status, done: nat)
    requires d.Valid() && m in {1, 2} && i < NUM_HOSTIF
    requires forall item :: item in items ==> HostTyped(m, i, item)
    modifies d`tick, d`bank, d`trace
    ensures d.Valid() && old(d.trace) <= d.trace
    ensures done <= |items| && (st == Success <==> done == |items|)
    ensures d.bank == HostEffects(old(d.bank), m, i, items[..done])
    ensures st != Success ==>
              match items[done].id
              case HostReadOnly => st == Refused(done)
              case HostUnknown => st == Unsupported(done)
              case _ => st == Failure
  {
    done := 0;
    while done < |items|
      invariant done <= |items| && d.Valid() && old(d.trace) <= d.trace
      invariant d.bank == HostEffects(old(d.bank), m, i, items[..done])
    {
      st := SetHostAttribute(d, m, i, items[done]);
      if st != Success {
        return AtIndex(st, done), done;
      }
      assert items[..done + 1][..done] == items[..done];
      done := done + 1;
    }
    assert items[..done] == items;
    st := Success;
  }

  // ---- network interfaces ----------------------------------------------------------------------

  predicate NetTyped(m: nat, lane: nat, item: NetItem) {
    match item.id
    case NetSettable(attr) => item.value.Plain? && Typed(KindOf(Net(m, lane, attr)), item.value.value)
    case ClearFecCounters => item.value.Plain? && item.value.value.Flag?
    case NetOperStatus => item.value.Oper?
    case _ => true
  }

  /** What a list entry does to the bank if it is accepted. The bit that clears the counters is the
      negation of the one its getter shows. */
  function NetEffect(bank: Bank, m: nat, lane: nat, item: NetItem): Bank
    requires m in {1, 2} && lane < NUM_NETIF && NetTyped(m, lane, item)
  {
    match item.id
    case NetSettable(attr) =>
      var code := Encode(KindOf(Net(m, lane, attr)), item.value.value);
      if code.Some? then Put(bank, Net(m, lane, attr), Code(code.value)) else bank
    case ClearFecCounters =>
      var r := Reg(m, FEC_ACCUM_CNTL + lane);
      bank[r := PutField(ReadReg(bank, r), 0, 0, BitOf(!item.value.value.on))]
    case _ => bank
  }

  function NetEffects(bank: Bank, m: nat, lane: nat, items: seq<NetItem>): Bank
    requires m in {1, 2} && lane < NUM_NETIF && forall item :: item in items ==> NetTyped(m, lane, item)
  {
    if items == [] then bank
    else NetEffect(NetEffects(bank, m, lane, items[..|items| - 1]), m, lane, items[|items| - 1])
  }

  /** The attributes written inside the low-power bracket. */
  predicate Bracketed(a: NetAttr) {
    a == Modulation || a == Differential || a == FecMode
  }

  /** The bank where an entry fails: unchanged, unless the entry is one written inside the bracket. */
  ghost predicate StoppedAt(start: Bank, bank: Bank, m: nat, lane: nat, item: NetItem)
    requires lane < NUM_NETIF && NetTyped(m, lane, item)
  {
    bank == start
    || (item.id.NetSettable? && Bracketed(item.id.attr)
        && Interrupted(start, bank, m, lane, item.id.attr, item.value.value))
  }

  /** `ac400_set_network_interface_attribute`. */
  method SetNetAttribute(d: Driver, m: nat, lane: nat, item: NetItem) returns (st: Status)
    requires d.Valid() && m in {1, 2} && lane < NUM_NETIF && NetTyped(m, lane, item)
    modifies d`tick, d`bank, d`trace, d`signals, d`slept
    ensures d.Valid() && old(d.trace) <= d.trace
    ensures st == Success ==> d.bank == NetEffect(old(d.bank), m, lane, item)
    ensures st != Success ==> StoppedAt(old(d.bank), d.bank, m, lane, item)
    ensures match item.id
            case NetIndex => st == Success
            case NetReadOnly => st == Refused(0)
            case NetUnknown => st == Unsupported(0)
            case ClearFecCounters => st == if d.world.fails(d.tick) then Failure else Success
            case NetOperStatus =>
              && (st == Success ==> InState(d.trace, m, item.value.status))
              && (st == Refused(0) ==> !Settable(item.value.status))
              && (st == Failure ==> d.world.fails(d.tick)
                                    || GaveUp(old(d.trace), d.trace, m, item.value.status, d.slept - old(d.slept)))
            case NetSettable(attr) =>
              var code := Encode(KindOf(Net(m, lane, attr)), item.value.value);
              && (st == Success ==> code.Some?)
              && (st != Success && code.Some? ==>
                    d.world.fails(d.tick) || (Bracketed(attr) && StateChangeFailed(m, old(d.Now()), d.Now())))
    ensures st == Success ==> NetItemWritten(old(d.bank), d.bank, m, lane, item)
  {
    ghost var start := d.bank;
    match item.id {
      case NetIndex => st := Success;
      case NetReadOnly => st := Refused(0);
      case NetUnknown => st := Unsupported(0);
      case NetOperStatus => st := d.SetModuleOperStatus(m, item.value.status);
      case ClearFecCounters =>
        st := SetField(d, m, FEC_ACCUM_CNTL + lane, 0, 0, BitOf(!item.value.value.on));
      case NetSettable(attr) => st := SetNetField(d, m, lane, attr, item.value.value);
    }
    if st == Success { NetItemPut(start, m, lane, item); }
  }

  /** What an accepted entry has written, in the registers' own terms; no value without a code is. */
  ghost predicate NetItemWritten(before: Bank, after: Bank, m: nat, lane: nat, item: NetItem)
    requires lane < NUM_NETIF && NetTyped(m, lane, item)
  {
    match item.id
    case NetSettable(attr) =>
      NetWritten(before, after, m, lane, attr, item.value.value)
    case ClearFecCounters => BitSet(before, after, Reg(m, 0x9400 + lane), 0, !item.value.value.on)
    case _ => after == before
  }

  lemma NetItemPut(bank: Bank, m: nat, lane: nat, item: NetItem)
    requires m in {1, 2} && lane < NUM_NETIF && NetTyped(m, lane, item)
    requires item.id.NetSettable? ==> Encode(KindOf(Net(m, lane, item.id.attr)), item.value.value).Some?
    ensures NetItemWritten(bank, NetEffect(bank, m, lane, item), m, lane, item)
  {
    match item.id
    case NetSettable(attr) => NetPutWritten(bank, m, lane, attr, item.value.value);
    case ClearFecCounters => FlagPut(bank, Reg(m, FEC_ACCUM_CNTL + lane), 0, !item.value.value.on);
    case _ =>
  }

  /** The setters behind it. A setter outside the bracket fails only if its value has no code or an
      access fails, and then has changed nothing. */
  method SetNetField(d: Driver, m: nat, lane: nat, attr: NetAttr, value: AttrValue) returns (st: Status)
    requires d.Valid() && m in {1, 2} && lane < NUM_NETIF && Typed(KindOf(Net(m, lane, attr)), value)
    modifies d`tick, d`bank, d`trace, d`signals, d`slept
    ensures d.Valid() && old(d.trace) <= d.trace
    ensures st == Success ==>
              var s := Net(m, lane, attr);
              var code := Encode(KindOf(s), value);
              code.Some? && d.bank == Put(old(d.bank), s, Code(code.value))
    ensures st != Success && !Bracketed(attr) ==>
              d.bank == old(d.bank) && (d.world.fails(d.tick) || Encode(KindOf(Net(m, lane, attr)), value).None?)
    ensures st != Success && Bracketed(attr) ==> Interrupted(old(d.bank), d.bank, m, lane, attr, value)
    ensures st != Success && Bracketed(attr) && Encode(KindOf(Net(m, lane, attr)), value).Some? ==>
              || d.world.fails(d.tick)
              || (ModeIn(old(d.bank), m) == Coupled && StateChangeFailed(m, old(d.Now()), d.Now()))
  {
    var p := NetPlace(lane, attr);
    match attr {
      case Modulation => st := d.SetGeneralMode(m, lane, attr, value);
      case Differential => st := d.SetGeneralMode(m, lane, attr, value);
      case FecMode => st := d.SetGeneralMode(m, lane, attr, value);
      case MasterEnable =>
        WithLaneIsPut(d.bank, m, lane, value.on);
        st := d.SetMasterEnable(m, lane, value.on);
      case TxEnable => st := SetBit(d, m, LANE_TX_DIS, p.lsb, !value.on);
      case FineTune =>
        // the whole register is written, without reading it
        var w := Code(value.hz / 1_000_000);
        WholeField(ReadReg(d.bank, Reg(m, p.addr)), w);
        var ok := d.MdioWrite(m, p.addr, w);
        st := if ok then Success else Failure;
      case GridSpacing => st := SetGridSpacing(d, m, lane, value);
      case _ =>
        st := SetField(d, m, p.addr, p.msb, p.lsb, Code(Encode(KindOf(Net(m, lane, attr)), value).value));
    }
  }

  /** `ac400_set_tx_grid_spacing` reads the register before it looks at the value. */
  method SetGridSpacing(d: Driver, m: nat, lane: nat, value: AttrValue) returns (st: Status)
    requires d.Valid() && m in {1, 2} && lane < NUM_NETIF && value.GridV?
    modifies d`tick, d`bank, d`trace
    ensures d.Valid() && old(d.trace) <= d.trace
    ensures st == if d.world.fails(d.tick) || value.grid == UnknownGrid then Failure else Success
    ensures d.bank == if st == Success
                      then Put(old(d.bank), Net(m, lane, GridSpacing), Code(Encode(GridKind, value).value))
                      else old(d.bank)
  {
    var p := NetPlace(lane, GridSpacing);
    var ok, w := d.MdioRead(m, p.addr);
    if !ok {
      return Failure;
    }
    var code := Encode(GridKind, value);
    if code.None? {
      return Failure;
    }
    ok := d.MdioWrite(m, p.addr, PutField(w, p.msb, p.lsb, Code(code.value)));
    st := if ok then Success else Failure;
  }

  lemma WholeField(w: Word, v: Word)
    ensures PutField(w, 15, 0, v) == v
  {
    PutBits(w, 15, 0, v);
    assert forall k :: 0 <= k < 16 ==> PutField(w, 15, 0, v)[k] == v[k];
  }

  method GetNetAttribute(d: Driver, m: nat, lane: nat, attr: NetAttr) returns (read: bool, v: Option<AttrValue>)
    requires m in {1, 2} && lane < NUM_NETIF
    modifies d`tick
    ensures d.tick == old(d.tick) + 1 && read == !d.world.fails(d.tick)
    ensures v == if read then Shown(d.bank, Net(m, lane, attr)) else None
  {
    var p := NetPlace(lane, attr);
    var field;
    read, field := GetFieldAt(d, m, p.addr, p.msb, p.lsb);
    if !read {
      return read, None;
    }
    v := Decode(KindOf(Net(m, lane, attr)), Num(field));
  }

  /** `ac400_set_network_interface_attributes`: the entries before the first that fails have had
      their effect, in order, and that one what its failure can leave. However the list ends, every
      write it made to a guarded register was allowed. */
  method SetNetAttributes(d: Driver, m: nat, lane: nat, items: seq<NetItem>) returns (st: Status, done: nat)
    requires d.Valid() && m in {1, 2} && lane < NUM_NETIF
    requires forall item :: item in items ==> NetTyped(m, lane, item)
    modifies d`tick, d`bank, d`trace, d`signals, d`slept
    ensures d.Valid() && old(d.trace) <= d.trace
    ensures done <= |items| && (st == Success <==> done == |items|)
    ensures st != Success && items[done].id.NetReadOnly? ==> st == Refused(done)
    ensures st != Success && items[done].id.NetUnknown? ==> st == Unsupported(done)
    ensures var applied := NetEffects(old(d.bank), m, lane, items[..done]);
            if st == Success then d.bank == applied else StoppedAt(applied, d.bank, m, lane, items[done])
  {
    done := 0;
    while done < |items|
      invariant done <= |items| && d.Valid() && old(d.trace) <= d.trace
      invariant d.bank == NetEffects(old(d.bank), m, lane, items[..done])
    {
      st := SetNetAttribute(d, m, lane, items[done]);
      if st != Success {
        return AtIndex(st, done), done;
      }
      assert items[..done + 1][..done] == items[..done];
      done := done + 1;
    }
    assert items[..done] == items;
    st := Success;
  }

  // ---- runs of the driver ---------------------------------------------------------------------

  datatype Call =
    | HostCall(m: nat, i: nat, hostItem: HostItem)
    | NetCall(m: nat, lane: nat, netItem: NetItem)
    | ModeCall(m: nat, mode: ModeValue)

  predicate CallOk(c: Call) {
    match c
    case HostCall(m, i, item) => m in {1, 2} && i < NUM_HOSTIF && HostTyped(m, i, item)
    case NetCall(m, lane, item) => m in {1, 2} && lane < NUM_NETIF && NetTyped(m, lane, item)
    case ModeCall(m, _) => m in {1, 2}
  }

  /** The set of the store a call asks for, if it is a set of a stored attribute. */
  function SetOf(c: Call): Option<Accepted> {
    match c
    case HostCall(m, i, item) =>
      if item.id.HostSettable? then Some(Accepted(Host(m, i, item.id.attr), item.value)) else None
    case NetCall(m, lane, item) =>
      if item.id.NetSettable? && item.value.Plain? then Some(Accepted(Net(m, lane, item.id.attr), item.value.value))
      else None
    case ModeCall(m, mode) => Some(Accepted(NetworkMode(m), ModeV(mode)))
  }

  /** The attribute the call sets or, the bracket being left open by a failure, the lane's enable. */
  predicate Touches(c: Call, t: Slot) {
    || (SetOf(c).Some? && t == SetOf(c).value.slot)
    || (c.NetCall? && c.netItem.id.NetSettable? && Bracketed(c.netItem.id.attr) && t == Net(c.m, c.lane, MasterEnable))
  }

  ghost predicate ShowsSame(before: Bank, after: Bank, t: Slot) {
    t.Valid() ==> Shown(after, t) == Shown(before, t)
  }

  lemma ClearKeeps(bank: Bank, m: nat, lane: nat, w: Word, t: Slot)
    requires lane < NUM_NETIF
    ensures ShowsSame(bank, bank[Reg(m, FEC_ACCUM_CNTL + lane) := w], t)
  {
    match t
    case Host(_, i, a) => if i < NUM_HOSTIF { HostPlaceBelow(i, a); }
    case Net(_, i, a) => if i < NUM_NETIF { NetPlaceBelow(i, a); }
    case NetworkMode(_) =>
  }

  lemma HostPlaceBelow(i: nat, a: HostAttr)
    requires i < NUM_HOSTIF
    ensures HostPlace(i, a).addr < FEC_ACCUM_CNTL
  {
  }

  lemma NetPlaceBelow(i: nat, a: NetAttr)
    requires i < NUM_NETIF
    ensures NetPlace(i, a).addr < FEC_ACCUM_CNTL || NetPlace(i, a).addr > FEC_ACCUM_CNTL + 1
  {
  }

  /** Whatever an interrupted bracket leaves, only the attribute and the lane's enable can have moved. */
  lemma InterruptedShows(start: Bank, bank: Bank, m: nat, lane: nat, attr: NetAttr, value: AttrValue, t: Slot)
    requires m in {1, 2} && lane < NUM_NETIF && Bracketed(attr) && Typed(KindOf(Net(m, lane, attr)), value)
    requires Interrupted(start, bank, m, lane, attr, value)
    requires t != Net(m, lane, attr) && t != Net(m, lane, MasterEnable)
    ensures ShowsSame(start, bank, t)
  {
    if t.Valid() {
      var off := InBracket(start, m, lane);
      InBracketShows(start, m, lane, t);
      if Encode(KindOf(Net(m, lane, attr)), value).Some? {
        ReplacedIsPut(off, m, lane, attr, value);
        PutOneShown(off, Accepted(Net(m, lane, attr), value), t);
      }
    }
  }

  lemma InBracketShows(start: Bank, m: nat, lane: nat, t: Slot)
    requires m in {1, 2} && lane < NUM_NETIF && t.Valid() && t != Net(m, lane, MasterEnable)
    ensures Shown(InBracket(start, m, lane), t) == Shown(start, t)
  {
    WithLaneIsPut(start, m, lane, false);
    PutOneShown(start, Accepted(Net(m, lane, MasterEnable), Flag(false)), t);
  }

  /** A call that sets no stored attribute moves none. */
  lemma OtherNetCallKeeps(start: Bank, bank: Bank, m: nat, lane: nat, item: NetItem, t: Slot)
    requires m in {1, 2} && lane < NUM_NETIF && NetTyped(m, lane, item) && !item.id.NetSettable?
    requires bank == start || bank == NetEffect(start, m, lane, item)
    ensures ShowsSame(start, bank, t)
  {
    if item.id.ClearFecCounters? {
      var r := Reg(m, FEC_ACCUM_CNTL + lane);
      ClearKeeps(start, m, lane, PutField(ReadReg(start, r), 0, 0, BitOf(!item.value.value.on)), t);
    }
  }

  /** Where a call fails, no attribute it does not touch has moved. */
  lemma StoppedShows(start: Bank, bank: Bank, m: nat, lane: nat, item: NetItem, t: Slot)
    requires m in {1, 2} && lane < NUM_NETIF && NetTyped(m, lane, item) && StoppedAt(start, bank, m, lane, item)
    requires !Touches(NetCall(m, lane, item), t)
    ensures ShowsSame(start, bank, t)
  {
    if bank != start {
      InterruptedShows(start, bank, m, lane, item.id.attr, item.value.value, t);
    }
  }

  lemma ModeShows(start: Bank, m: nat, mode: ModeValue, t: Slot)
    requires m in {1, 2} && mode != UnknownMode && t != NetworkMode(m)
    ensures ShowsSame(start, PutOne(start, Accepted(NetworkMode(m), ModeV(mode))), t)
  {
    ModeWritten(start, m, mode);
    if t.Valid() { PutOneShown(start, Accepted(NetworkMode(m), ModeV(mode)), t); }
  }

  /** What a call has done to the bank. */
  ghost predicate Executed(c: Call, st: Status, before: Bank, after: Bank) {
    && CallOk(c)
    && (st == Success && SetOf(c).Some? && ValueFits(SetOf(c).value.slot, SetOf(c).value.value) ==>
          Good(SetOf(c).value) && after == PutOne(before, SetOf(c).value))
    && (SetOf(c).None? ==> forall t: Slot :: ShowsSame(before, after, t))
    && (st != Success ==> forall t: Slot :: !Touches(c, t) ==> ShowsSame(before, after, t))
  }

  /** A set of a value that has a code fails only with an access or a change of the module's state. */
  ghost predicate Explained(c: Call, st: Status, w: World, before: Moment, after: Moment) {
    && CallOk(c)
    && (st != Success && SetOf(c).Some? && Good(SetOf(c).value) ==>
          w.fails(after.tick) || StateChangeFailed(SetOf(c).value.slot.Module(), before, after))
  }

  lemma NetCallExecuted(start: Bank, bank: Bank, m: nat, lane: nat, item: NetItem, st: Status)
    requires m in {1, 2} && lane < NUM_NETIF && NetTyped(m, lane, item)
    requires if st == Success then bank == NetEffect(start, m, lane, item) else StoppedAt(start, bank, m, lane, item)
    requires st == Success && item.id.NetSettable? ==>
               Encode(KindOf(Net(m, lane, item.id.attr)), item.value.value).Some?
    ensures Executed(NetCall(m, lane, item), st, start, bank)
  {
    var c := NetCall(m, lane, item);
    forall t: Slot | st != Success && !Touches(c, t) ensures ShowsSame(start, bank, t) {
      StoppedShows(start, bank, m, lane, item, t);
    }
    forall t: Slot | SetOf(c).None? ensures ShowsSame(start, bank, t) {
      OtherNetCallKeeps(start, bank, m, lane, item, t);
    }
  }

  lemma ModeCallExecuted(start: Bank, bank: Bank, m: nat, mode: ModeValue, st: Status)
    requires m in {1, 2} && (st == Success ==> mode != UnknownMode)
    requires || (st != Success && bank == start)
             || (mode != UnknownMode && bank == PutOne(start, Accepted(NetworkMode(m), ModeV(mode))))
    ensures Executed(ModeCall(m, mode), st, start, bank)
  {
    forall t: Slot | st != Success && !Touches(ModeCall(m, mode), t) ensures ShowsSame(start, bank, t) {
      if bank != start { ModeShows(start, m, mode, t); }
    }
  }

  method Execute(d: Driver, c: Call) returns (st: Status)
    requires d.Valid() && CallOk(c)
    modifies d`tick, d`bank, d`trace, d`signals, d`slept
    ensures d.Valid() && old(d.trace) <= d.trace
    ensures Executed(c, st, old(d.bank), d.bank) && Explained(c, st, d.world, old(d.Now()), d.Now())
  {
    ghost var start := d.bank;
    match c {
      case HostCall(m, i, item) =>
        st := SetHostAttribute(d, m, i, item);
      case NetCall(m, lane, item) =>
        st := SetNetAttribute(d, m, lane, item);
        NetCallExecuted(start, d.bank, m, lane, item, st);
      case ModeCall(m, mode) =>
        st := d.SetNetworkMode(m, mode);
        ModeCallExecuted(start, d.bank, m, mode, st);
    }
  }

  /** Any run of the driver, whatever fails in it, keeps the trace safe. */
  method RunAll(d: Driver, calls: seq<Call>)
    requires d.Valid() && forall c :: c in calls ==> CallOk(c)
    modifies d`tick, d`bank, d`trace, d`signals, d`slept
    ensures d.Valid() && old(d.trace) <= d.trace
  {
    for k := 0 to |calls|
      invariant d.Valid() && old(d.trace) <= d.trace
    {
      var st := Execute(d, calls[k]);
    }
  }

  /** A call a host can be sure about beforehand: what it sets fits its field. */
  predicate Fitting(c: Call) {
    CallOk(c) && (SetOf(c).Some? ==> ValueFits(SetOf(c).value.slot, SetOf(c).value.value))
  }

  /** The sets of stored attributes among the calls. */
  function SetsIn(calls: seq<Call>): seq<Accepted> {
    if calls == [] then []
    else
      var n := |calls| - 1;
      SetsIn(calls[..n]) + if SetOf(calls[n]).Some? then [SetOf(calls[n]).value] else []
  }

  /** The store after the calls: the last value set, or what the bank showed to begin with. */
  ghost predicate AsStored(start: Bank, bank: Bank, calls: seq<Call>, t: Slot) {
    t.Valid() ==> Shown(bank, t) == LastSet(SetsIn(calls), t, Shown(start, t))
  }

  lemma LastSetMore(sets: seq<Accepted>, a: Accepted, t: Slot, initial: Option<AttrValue>)
    ensures LastSet(sets + [a], t, initial) == if a.slot == t then Some(a.value) else LastSet(sets, t, initial)
  {
    assert (sets + [a])[..|sets|] == sets;
  }

  lemma StoredMore(start: Bank, before: Bank, after: Bank, calls: seq<Call>, c: Call, t: Slot)
    requires AsStored(start, before, calls, t) && Fitting(c)
    requires if SetOf(c).Some? then Good(SetOf(c).value) && after == PutOne(before, SetOf(c).value)
             else ShowsSame(before, after, t)
    ensures AsStored(start, after, calls + [c], t)
  {
    assert (calls + [c])[..|calls|] == calls;
    assert SetsIn(calls + [c]) == if SetOf(c).Some? then SetsIn(calls) + [SetOf(c).value] else SetsIn(calls);
    if t.Valid() && SetOf(c).Some? {
      LastSetMore(SetsIn(calls), SetOf(c).value, t, Shown(start, t));
      PutOneShown(before, SetOf(c).value, t);
    }
  }

  /** The calls that succeeded. */
  function Succeeded(calls: seq<Call>, sts: seq<Status>): seq<Call>
    requires |sts| == |calls|
  {
    if calls == [] then []
    else
      var n := |calls| - 1;
      Succeeded(calls[..n], sts[..n]) + if sts[n] == Success then [calls[n]] else []
  }

  /** No call that failed touches the attribute. */
  ghost predicate Spared(calls: seq<Call>, sts: seq<Status>, t: Slot)
    requires |sts| == |calls|
  {
    forall k :: 0 <= k < |calls| && sts[k] != Success ==> !Touches(calls[k], t)
  }

  ghost predicate Kept(start: Bank, bank: Bank, calls: seq<Call>, sts: seq<Status>)
    requires |sts| == |calls|
  {
    forall t: Slot :: Spared(calls, sts, t) ==> AsStored(start, bank, Succeeded(calls, sts), t)
  }

  lemma KeptOne(start: Bank, before: Bank, after: Bank, done: seq<Call>, c: Call, st: Status, t: Slot)
    requires AsStored(start, before, done, t) && Fitting(c) && Executed(c, st, before, after)
    requires st != Success ==> !Touches(c, t)
    ensures AsStored(start, after, if st == Success then done + [c] else done, t)
  {
    assert st != Success || SetOf(c).None? ==> ShowsSame(before, after, t);
    if st == Success { StoredMore(start, before, after, done, c, t); }
  }

  lemma OneCallMore(calls: seq<Call>, sts: seq<Status>, c: Call, st: Status, t: Slot)
    requires |sts| == |calls|
    ensures Succeeded(calls + [c], sts + [st])
         == if st == Success then Succeeded(calls, sts) + [c] else Succeeded(calls, sts)
    ensures Spared(calls + [c], sts + [st], t) ==> Spared(calls, sts, t) && (st != Success ==> !Touches(c, t))
  {
    var (calls', sts') := (calls + [c], sts + [st]);
    assert calls'[..|calls|] == calls && sts'[..|calls|] == sts;
    assert calls'[|calls|] == c && sts'[|calls|] == st;
    if Spared(calls', sts', t) {
      forall k | 0 <= k < |calls| && sts[k] != Success ensures !Touches(calls[k], t) {
        assert calls'[k] == calls[k] && sts'[k] == sts[k];
      }
    }
  }

  lemma KeptMore(start: Bank, before: Bank, after: Bank, calls: seq<Call>, sts: seq<Status>, c: Call, st: Status)
    requires |sts| == |calls| && Kept(start, before, calls, sts) && Fitting(c) && Executed(c, st, before, after)
    ensures Kept(start, after, calls + [c], sts + [st])
  {
    forall t: Slot | Spared(calls + [c], sts + [st], t)
      ensures AsStored(start, after, Succeeded(calls + [c], sts + [st]), t)
    {
      OneCallMore(calls, sts, c, st, t);
      KeptOne(start, before, after, Succeeded(calls, sts), c, st, t);
    }
  }

  /** MAIN RESULT. Any run of fitting calls, whatever they set or do besides and whichever fail: every
      attribute of both modules that no failing call touches shows the last value set for it by the
      calls that succeeded. `at` has the moments between the calls. */
  method RunOn(d: Driver, calls: seq<Call>) returns (sts: seq<Status>, ghost at: seq<Moment>)
    requires d.Valid() && forall c :: c in calls ==> Fitting(c)
    modifies d`tick, d`bank, d`trace, d`signals, d`slept
    ensures d.Valid() && |sts| == |calls| && |at| == |calls| + 1
    ensures at[0] == old(d.Now()) && at[|calls|] == d.Now()
    ensures forall k :: 0 <= k < |calls| ==> Explained(calls[k], sts[k], d.world, at[k], at[k + 1])
    ensures Kept(old(d.bank), d.bank, calls, sts)
  {
    sts, at := [], [d.Now()];
    for done := 0 to |calls|
      invariant d.Valid() && |sts| == done && |at| == done + 1
      invariant at[0] == old(d.Now()) && at[done] == d.Now()
      invariant forall k :: 0 <= k < done ==> Explained(calls[k], sts[k], d.world, at[k], at[k + 1])
      invariant Kept(old(d.bank), d.bank, calls[..done], sts)
    {
      ghost var before := d.bank;
      assert calls[done] in calls && calls[..done + 1] == calls[..done] + [calls[done]];
      var st := Execute(d, calls[done]);
      KeptMore(old(d.bank), before, d.bank, calls[..done], sts, calls[done], st);
      sts, at := sts + [st], at + [d.Now()];
    }
    assert calls[..|calls|] == calls;
  }

  /** The run until a call fails: every attribute which that call does not touch shows the last value
      set before it. `last` is the moment at which the last call began. */
  method RunSets(d: Driver, calls: seq<Call>) returns (done: nat, ghost last: Moment)
    requires d.Valid() && forall c :: c in calls ==> Fitting(c)
    modifies d`tick, d`bank, d`trace, d`signals, d`slept
    ensures d.Valid() && done <= |calls| && old(d.trace) <= last.trace <= d.trace
    ensures done < |calls| ==>
              var a := SetOf(calls[done]);
              a.Some? && Good(a.value) ==>
                d.world.fails(d.tick) || StateChangeFailed(a.value.slot.Module(), last, d.Now())
    ensures forall t: Slot :: (done < |calls| ==> !Touches(calls[done], t)) ==>
              AsStored(old(d.bank), d.bank, calls[..done], t)
  {
    done := 0;
    last := d.Now();
    while done < |calls|
      invariant d.Valid() && done <= |calls| && old(d.trace) <= last.trace <= d.trace
      invariant forall t: Slot :: AsStored(old(d.bank), d.bank, calls[..done], t)
    {
      last := d.Now();
      var c := calls[done];
      assert c in calls;
      var st := Execute(d, c);
      if st != Success {
        forall t: Slot | !Touches(c, t) ensures AsStored(old(d.bank), d.bank, calls[..done], t) {
          KeptOne(old(d.bank), last.bank, d.bank, calls[..done], c, st, t);
        }
        return;
      }
      ghost var more := calls[..done] + [c];
      forall t: Slot ensures AsStored(old(d.bank), d.bank, more, t) {
        KeptOne(old(d.bank), last.bank, d.bank, calls[..done], c, st, t);
      }
      assert calls[..done + 1] == more;
      done := done + 1;
    }
  }
}
