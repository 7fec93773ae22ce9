/** The AC400 driver on one Voyager: registers, signals and time as an object, and the calls that
    change module state, network mode and attributes. */
module Device {
  import opened Options
  import opened Words
  import opened Layout
  import opened Store
  import opened Registers
  import opened Timing
  import opened Trace

  /** `Refused` is TAI_STATUS_INVALID_ATTRIBUTE_0, `Unsupported` ATTR_NOT_SUPPORTED_0, each shifted by
      the index in a list. */
  datatype Status = Success | Failure | Refused(index: nat) | Unsupported(index: nat)

  /** `convert_tai_error_to_list`. */
  function AtIndex(st: Status, i: nat): Status {
    match st
    case Refused(k) => if k == 0 then Refused(i) else st
    case Unsupported(k) => if k == 0 then Unsupported(i) else st
    case _ => st
  }

  /** The outside world, indexed by the count of accesses made so far: whether an access fails, what
      the module state register reads, and the global alarm. */
  datatype World = World(fails: nat -> bool, stateWord: nat -> Word, alarm: nat -> bool)

  /** The state word of a module, read from the most urgent bit down. */
  function StatusOf(w: Word): OperStatus {
    if w[8] then HighPowerDown else if w[7] then TxTurnOff else if w[6] then Fault
    else if w[5] then Ready else if w[4] then TxTurnOn else if w[3] then TxOff
    else if w[2] then HighPowerUp else if w[1] then LowPower else if w[0] then Initialize
    else Unknown
  }

  /** The states in the order of the state word's bits. */
  const STATES := [Initialize, LowPower, HighPowerUp, TxOff, TxTurnOn, Ready, Fault, TxTurnOff, HighPowerDown]

  /** The highest of the nine bits that is set, and that none is. */
  predicate IsTop(w: Word, b: nat) {
    b < 9 && w[b] && forall c :: b < c < 9 ==> !w[c]
  }

  predicate NoneSet(w: Word) {
    forall c :: 0 <= c < 9 ==> !w[c]
  }

  /** The highest bit gives the status; with none set it is unknown. */
  ghost predicate TopBitSays(w: Word, status: OperStatus) {
    && (forall b: nat :: IsTop(w, b) ==> status == STATES[b])
    && (NoneSet(w) ==> status == Unknown)
  }

  lemma TopBit(w: Word)
    ensures TopBitSays(w, StatusOf(w))
  {
    forall b: nat | IsTop(w, b) ensures StatusOf(w) == STATES[b] { TopBitIs(w, b); }
  }

  lemma TopBitIs(w: Word, b: nat)
    requires IsTop(w, b)
    ensures StatusOf(w) == STATES[b]
  {
  }

  /** What `move_to_low_power` leaves in `prev_state`: the union member depends on the mode. */
  datatype Saved = SavedState(status: OperStatus) | SavedEnable(on: bool)

  datatype WaitResult = Reached | ReadFailed | TimedOut

  /** The state of a driver. */
  datatype Moment = Moment(bank: Bank, trace: seq<Event>, signals: map<nat, Signals>, tick: nat, slept: int)

  const NO_SIGNALS := Signals(false, false, false, false)

  function SignalsOf(signals: map<nat, Signals>, m: nat): Signals {
    if m in signals then signals[m] else NO_SIGNALS
  }

  class Driver {
    const world: World
    var bank: Bank
    var signals: map<nat, Signals>
    var tick: nat
    var slept: int
    ghost const initial: map<nat, Signals>
    ghost var trace: seq<Event>

    /** Every guarded write was allowed, and the trace accounts for the signals in force. */
    ghost predicate Valid()
      reads this`trace, this`signals
    {
      Safe(trace) && forall m {:trigger Accounted(m)} :: Accounted(m)
    }

    ghost predicate Accounted(m: nat)
      reads this`trace, this`signals
    {
      InForce(trace, m, SignalsOf(initial, m)) == SignalsOf(signals, m)
    }

    constructor (world: World, bank: Bank, signals: map<nat, Signals>)
      ensures this.world == world && this.bank == bank && this.signals == signals && initial == signals
      ensures trace == [] && Valid() && slept == 0
    {
      this.world, this.bank, this.signals, tick, slept := world, bank, signals, 0, 0;
      initial, trace := signals, [];
    }

    // ---- access -------------------------------------------------------------------

    method MdioRead(m: nat, addr: nat) returns (ok: bool, w: Word)
      modifies this`tick
      ensures tick == old(tick) + 1 && ok == !world.fails(tick)
      ensures ok ==> w == ReadReg(bank, Reg(m, addr))
    {
      tick := tick + 1;
      ok, w := !world.fails(tick), ReadReg(bank, Reg(m, addr));
    }

    /** The one place where registers change. A write that reports an error has not landed. */
    method MdioWrite(m: nat, addr: nat, w: Word) returns (ok: bool)
      requires Valid() && Allowed(trace, Wrote(m, addr, w, bank))
      modifies this`tick, this`bank, this`trace
      ensures tick == old(tick) + 1 && ok == !world.fails(tick)
      ensures Valid() && trace == old(trace) + [Wrote(m, addr, w, old(bank))]
      ensures bank == if ok then old(bank)[Reg(m, addr) := w] else old(bank)
    {
      SafeAppend(trace, Wrote(m, addr, w, bank));
      SameInForce(Wrote(m, addr, w, bank));
      trace := trace + [Wrote(m, addr, w, bank)];
      tick := tick + 1;
      ok := !world.fails(tick);
      if ok {
        bank := bank[Reg(m, addr) := w];
      }
    }

    ghost function Now(): Moment
      reads this
    {
      Moment(bank, trace, signals, tick, slept)
    }

    lemma SameInForce(e: Event)
      requires Valid() && !e.Driven?
      ensures forall m: nat {:trigger SignalsOf(signals, m)} ::
                InForce(trace + [e], m, SignalsOf(initial, m)) == SignalsOf(signals, m)
    {
      forall m: nat ensures InForce(trace + [e], m, SignalsOf(initial, m)) == SignalsOf(signals, m) {
        assert Accounted(m);
        InForceAppend(trace, e, m, SignalsOf(initial, m));
      }
    }

    // ---- module state -----------------------------------------------------------------

    /** `ac400_get_module_oper_status`. */
    method GetModuleOperStatus(m: nat) returns (ok: bool, status: OperStatus)
      requires Valid()
      modifies this`tick, this`trace
      ensures Valid()
      ensures trace == if ok then old(trace) + [Observed(m, status)] else old(trace)
      ensures old(tick) < tick && ok == !world.fails(tick)
      ensures status == if !ok then Unknown else if SignalsOf(signals, m).reset then Reset
                        else StatusOf(world.stateWord(tick))
      ensures ok && !SignalsOf(signals, m).reset ==> TopBitSays(world.stateWord(tick), status)
    {
      status := Unknown;
      tick := tick + 1;
      if world.fails(tick) {
        return false, status;
      }
      if SignalsOf(signals, m).reset {
        status := Reset;
      } else {
        tick := tick + 1;
        if world.fails(tick) {
          return false, status;
        }
        TopBit(world.stateWord(tick));
        status := StatusOf(world.stateWord(tick));
      }
      ok := true;
      SafeAppend(trace, Observed(m, status));
      SameInForce(Observed(m, status));
      trace := trace + [Observed(m, status)];
    }

    /** One signal file written. */
    method Drive(m: nat, s: Signals) returns (ok: bool)
      requires Valid()
      modifies this`tick, this`signals, this`trace
      ensures tick == old(tick) + 1 && ok == !world.fails(tick)
      ensures Valid() && trace == old(trace) + [Driven(m, SignalsOf(signals, m))]
      ensures signals == if ok then old(signals)[m := s] else old(signals)
    {
      tick := tick + 1;
      ok := !world.fails(tick);
      ghost var was := signals;
      forall k: nat ensures InForce(trace, k, SignalsOf(initial, k)) == SignalsOf(was, k) { assert Accounted(k); }
      if ok {
        signals := signals[m := s];
      }
      ghost var e := Driven(m, SignalsOf(signals, m));
      SafeAppend(trace, e);
      forall k: nat ensures InForce(trace + [e], k, SignalsOf(initial, k)) == SignalsOf(signals, k) {
        assert InForce(trace, k, SignalsOf(initial, k)) == SignalsOf(was, k);
        InForceAppend(trace, e, k, SignalsOf(initial, k));
      }
      trace := trace + [e];
    }

    /** The same as the next of four, `n` of which have been driven since the trace and signals given. */
    method DriveNext(m: nat, s: Signals, ghost before: seq<Event>, ghost was: map<nat, Signals>,
                     ghost want: Signals, ghost n: nat)
        returns (ok: bool)
      requires Valid() && n < 4 && s == UpTo(SignalsOf(was, m), want, n + 1)
      requires Drove(before, was, trace, signals, m, want, n, true)
      modifies this`tick, this`signals, this`trace
      ensures Valid() && tick == old(tick) + 1 && ok == !world.fails(tick)
      ensures Drove(before, was, trace, signals, m, want, if ok then n + 1 else n, ok)
    {
      ok := Drive(m, s);
    }

    /** Reset, low power and the two transmit disables, in that order, up to one that fails. */
    method DriveAll(m: nat, reset: bool, lowPower: bool, txDisable: bool) returns (ok: bool, ghost n: nat)
      requires Valid()
      modifies this`tick, this`signals, this`trace
      ensures Valid() && OnlyDriven(old(trace), trace, m)
      ensures old(tick) < tick && ok == !world.fails(tick)
      ensures ok ==> signals == old(signals)[m := Signals(reset, lowPower, txDisable, txDisable)]
      ensures n <= 4 && (ok <==> n == 4)
      ensures Drove(old(trace), old(signals), trace, signals, m, Signals(reset, lowPower, txDisable, txDisable), n, ok)
    {
      ghost var (before, was, want) := (trace, signals, Signals(reset, lowPower, txDisable, txDisable));
      var s := SignalsOf(signals, m);
      s := s.(reset := reset);
      n := 0;
      ok := DriveNext(m, s, before, was, want, n);
      if ok {
        s := s.(lowPower := lowPower);
        n := 1;
        ok := DriveNext(m, s, before, was, want, n);
      }
      if ok {
        ok, n := DriveDisables(m, s, txDisable, before, was, want);
      }
      DrivenIsOnly(before, was, trace, signals, m, want, n, ok);
    }

    /** The last two of them. */
    method DriveDisables(m: nat, from: Signals, txDisable: bool, ghost before: seq<Event>, ghost was: map<nat, Signals>,
                         ghost want: Signals)
        returns (ok: bool, ghost n: nat)
      requires Valid() && from == UpTo(SignalsOf(was, m), want, 2) && want.txDisable1 == want.txDisable2 == txDisable
      requires Drove(before, was, trace, signals, m, want, 2, true)
      modifies this`tick, this`signals, this`trace
      ensures Valid() && old(tick) < tick && ok == !world.fails(tick)
      ensures 2 <= n <= 4 && (ok <==> n == 4) && Drove(before, was, trace, signals, m, want, n, ok)
    {
      var s := from.(txDisable1 := txDisable);
      ok := DriveNext(m, s, before, was, want, 2);
      n := 2;
      if ok {
        s := s.(txDisable2 := txDisable);
        ok := DriveNext(m, s, before, was, want, 3);
        n := if ok then 4 else 3;
      }
    }

    /** Up to a hundred looks at the global alarm, 200 ms apart. */
    method WaitForAlarm() returns (seen: bool)
      modifies this`tick, this`slept
      ensures old(tick) < tick <= old(tick) + 100
      ensures forall t :: old(tick) < t < tick ==> !world.alarm(t)
      ensures seen <==> world.alarm(tick)
      ensures old(slept) <= slept
      ensures seen ==> slept - old(slept) == 200_000 * (tick - old(tick) - 1)
      ensures !seen ==> tick == old(tick) + 100 && slept - old(slept) == 20_000_000
    {
      var reps := 100;
      while true
        invariant 1 <= reps <= 100
        invariant slept - old(slept) == (100 - reps) * 200_000 && tick == old(tick) + 100 - reps
        invariant forall t :: old(tick) < t <= tick ==> !world.alarm(t)
        decreases reps
      {
        tick := tick + 1;
        if world.alarm(tick) {
          return true;
        }
        slept := slept + 200_000;
        reps := reps - 1;
        if reps == 0 {
          return false;
        }
      }
    }

    /** One look at the module. */
    method Poll(m: nat, target: OperStatus, ghost before: seq<Event>) returns (ok: bool, hit: bool)
      requires Valid() && Missed(before, trace, m, target)
      modifies this`tick, this`trace
      ensures Valid() && old(tick) < tick && ok == !world.fails(tick)
      ensures |trace| == if ok then |old(trace)| + 1 else |old(trace)|
      ensures NoGuardedWrites(before, trace)
      ensures if ok && hit then Hit(before, trace, m, target) && InState(trace, m, target)
              else Missed(before, trace, m, target) && (ok ==> Elsewhere(trace, m, target))
    {
      var status;
      ok, status := GetModuleOperStatus(m);
      hit := ok && status == target;
      if ok {
        assert trace[..|trace| - 1] == old(trace);
        WaitEnds(before, trace, m, target);
        if !hit { MissedMore(before, old(trace), m, target, status); }
      }
    }

    /** The back-off loop. `polls` counts the status reads. A time-out has slept at least the budget
        and less than half a second more; without a budget there is one poll and no sleep. */
    method WaitForState(m: nat, target: OperStatus, budget: int) returns (r: WaitResult, polls: nat)
      requires Valid()
      modifies this`tick, this`trace, this`slept
      ensures Valid() && old(trace) <= trace && old(tick) < tick
      ensures polls >= 1 && slept == old(slept) + SleptAfter(polls) && old(slept) <= slept
      ensures polls > 1 ==> SleptAfter(polls - 1) < budget
      ensures |trace| == |old(trace)| + if r == ReadFailed then polls - 1 else polls
      ensures if r == Reached then Hit(old(trace), trace, m, target) else Missed(old(trace), trace, m, target)
      ensures r == Reached ==> InState(trace, m, target)
      ensures NoGuardedWrites(old(trace), trace) && (r == TimedOut ==> Elsewhere(trace, m, target))
      ensures r == TimedOut ==> if budget <= 0 then polls == 1 else budget <= slept - old(slept) < budget + 500_000
      ensures r == ReadFailed <==> world.fails(tick)
    {
      var sleepTime, waitTime := 25, budget;
      polls := 0;
      while true
        invariant Valid() && old(tick) <= tick
        invariant |trace| == |old(trace)| + polls && Missed(old(trace), trace, m, target)
        invariant sleepTime == (if polls == 0 then FIRST_SLEEP else Doubled(SleepBefore(polls)))
        invariant sleepTime == 25 <==> polls == 0
        invariant 25 <= sleepTime <= 500_000
        invariant if polls == 0 then slept == old(slept) else slept == old(slept) + SleptAfter(polls)
        invariant waitTime == budget - (slept - old(slept)) && slept >= old(slept)
        invariant polls > 0 ==> waitTime > 0
        decreases polls == 0, waitTime
      {
        if 25 != sleepTime {
          slept := slept + sleepTime;
          waitTime := waitTime - sleepTime;
        }
        sleepTime := if sleepTime * 2 < 500_000 then sleepTime * 2 else 500_000;
        polls := polls + 1;
        var ok, hit := Poll(m, target, old(trace));
        if !ok {
          return ReadFailed, polls;
        }
        if hit {
          return Reached, polls;
        }
        if waitTime <= 0 {
          return TimedOut, polls;
        }
      }
    }

    /** `ac400_set_module_oper_status`. On success the module was last seen in the requested state. It
        fails if an access does, or if the time allowed for the change has gone by. */
    method SetModuleOperStatus(m: nat, target: OperStatus) returns (st: Status)
      requires Valid()
      modifies this`tick, this`signals, this`trace, this`slept
      ensures Valid() && old(trace) <= trace && old(tick) <= tick && old(slept) <= slept
      ensures st == Success ==> Settable(target) && InState(trace, m, target) && old(trace) < trace
      ensures st == Success ==> signals == old(signals)[m := SignalsFor(target)]
      ensures st == Success ==> PinsFor(SignalsOf(signals, m), target) && target in {Reset, LowPower, TxOff, Ready}
      ensures st in {Success, Failure, Refused(0)} && NoGuardedWrites(old(trace), trace)
      ensures st == Refused(0) ==> !Settable(target) && signals == old(signals) && slept == old(slept)
      ensures st == Refused(0) ==> target !in {Reset, LowPower, TxOff, Ready}
      ensures st == Failure ==> world.fails(tick) || GaveUp(old(trace), trace, m, target, slept - old(slept))
      ensures st == Success && target != Reset && trace[|old(trace)|] == Observed(m, Reset) ==>
                AlarmSeen(world, old(tick), tick)
      ensures st == Success ==> Attempted(old(trace), trace, m)
      ensures st == Failure ==> world.fails(tick) || Attempted(old(trace), trace, m)
    {
      var ok, previous := GetModuleOperStatus(m);
      if !ok {
        return Failure;
      }
      if !Settable(target) {
        return Refused(0);
      }
      var wanted := SignalsFor(target);
      ghost var n;
      ok, n := DriveAll(m, wanted.reset, wanted.lowPower, wanted.txDisable1);
      assert Saw(old(trace), trace, m, previous) && trace[|old(trace)| + 1].Driven? &&
          trace[|old(trace)| + 1].mod == m;
      if !ok {
        return Failure;
      }
      st := AwaitChange(m, previous, target);
    }

    /** The two waits. */
    method AwaitChange(m: nat, previous: OperStatus, target: OperStatus) returns (st: Status)
      requires Valid()
      modifies this`tick, this`trace, this`slept
      ensures Valid() && old(trace) <= trace && NoGuardedWrites(old(trace), trace)
      ensures st in {Success, Failure} && old(tick) <= tick && old(slept) <= slept
      ensures st == Success ==> InState(trace, m, target)
      ensures st == Success && previous == Reset && target != Reset ==> AlarmSeen(world, old(tick), tick)
      ensures st == Failure ==> world.fails(tick) || TimeIsUp(trace, m, previous, target, slept - old(slept))
    {
      if previous == Reset && target != Reset {
        var seen := WaitForAlarm();
        if !seen {
          return Failure;
        }
      }
      assert previous == Reset && target != Reset ==> AlarmSeen(world, old(tick), tick);
      var r, polls := WaitForState(m, target, TransitionTime(previous, target) * 1_000_000);
      st := if r == Reached then Success else Failure;
    }

    // ---- network mode ----------------------------------------------------------------------

    method GetNetworkMode(m: nat) returns (ok: bool, mode: ModeValue)
      modifies this`tick
      ensures old(tick) <= tick && ok == !world.fails(tick)
      ensures ok ==> mode == ModeIn(bank, m)
      ensures ok ==>
                var w := ReadReg(bank, Reg(m, 0x9010));
                (mode == Independent <==> !w[0] && !w[1]) && (mode == Coupled <==> w[0] && !w[1])
    {
      var w;
      ok, w := MdioRead(m, DEVICE_SETUP);
      TwoBits(w);
      mode := ModeOf(Num(GetField(w, 1, 0)));
    }

    /** `ac400_set_network_mode`. */
    method SetNetworkMode(m: nat, mode: ModeValue) returns (st: Status)
      requires Valid() && m in {1, 2}
      modifies this`tick, this`signals, this`trace, this`slept, this`bank
      ensures Valid()
      ensures mode == UnknownMode ==> st == Refused(0) && Now() == old(Now())
      ensures mode != UnknownMode ==> ModeOutcome(m, st, world, SignalsOf(initial, m), old(Now()), Now())
      ensures st != Success ==>
                bank == old(bank)
                || (mode != UnknownMode && bank == PutOne(old(bank), Accepted(NetworkMode(m), ModeV(mode))))
      ensures st == Success ==>
                && mode != UnknownMode
                && bank == PutOne(old(bank), Accepted(NetworkMode(m), ModeV(mode)))
                && ModeIn(bank, m) == mode
                && ModeRegister(old(bank), bank, m, ModeV(mode))
    {
      if mode == UnknownMode {
        return Refused(0);
      }
      ModeWritten(bank, m, mode);
      st := ChangeNetworkMode(m, Code(if mode == Independent then 0 else 1));
    }

    /** The bracket around the mode write. */
    method ChangeNetworkMode(m: nat, code: Word) returns (st: Status)
      requires Valid()
      modifies this`tick, this`signals, this`trace, this`slept, this`bank
      ensures Valid()
      ensures ModeOutcome(m, st, world, SignalsOf(initial, m), old(Now()), Now())
      ensures bank == old(bank)[Reg(m, DEVICE_SETUP) := code] || (st != Success && bank == old(bank))
    {
      ghost var before := Now();
      var ok, previous := GetModuleOperStatus(m);
      if !ok {
        return Failure;
      }
      LastSeenAppend(before.trace, Observed(m, previous), m);
      ghost var mid := Now();
      assert SeenAt(world, before.tick, mid.tick, SignalsOf(before.signals, m).reset, previous);
      st := WriteModeInLowPower(m, code, previous);
      ModeChanged(m, previous, st, world, SignalsOf(initial, m), before, mid, Now());
    }

    /** Down to low power if need be, the write, and back. */
    method WriteModeInLowPower(m: nat, code: Word, previous: OperStatus) returns (st: Status)
      requires Valid() && InState(trace, m, previous)
      modifies this`tick, this`signals, this`trace, this`slept, this`bank
      ensures Valid() && old(trace) <= trace && old(tick) <= tick && old(slept) <= slept
      ensures st != Success ==>
                || world.fails(tick)
                || (Attempted(old(trace), trace, m) && previous != LowPower
                    && (GaveUp(old(trace), trace, m, LowPower, slept - old(slept))
                        || NotRestored(old(trace), trace, m, previous, slept - old(slept))))
      ensures GuardedWritesUnder(old(trace), trace, m, SignalsOf(initial, m),
                                 if previous == LowPower then SignalsOf(old(signals), m) else SignalsFor(LowPower))
      ensures bank == old(bank)[Reg(m, DEVICE_SETUP) := code] || (st != Success && bank == old(bank))
      ensures st == Success ==> Settable(previous) && InState(trace, m, previous)
    {
      if previous != LowPower {
        st := SetModuleOperStatus(m, LowPower);
        if st != Success {
          return;
        }
      }
      ghost var (attempted, begin, g) := (trace, SignalsOf(initial, m), SignalsOf(signals, m));
      var ok := WriteMode(m, code);
      WritesThen(old(trace), attempted, trace, m, begin, g);
      if !ok {
        return Failure;
      }
      st := Success;
      if previous != LowPower {
        ghost var mid := trace;
        AttemptedLater(old(trace), attempted, mid, m);
        st := SetModuleOperStatus(m, previous);
        AttemptedLater(old(trace), mid, trace, m);
        WritesThen(old(trace), mid, trace, m, begin, g);
        assert st == Failure && !world.fails(tick) ==> NotRestored(old(trace), trace, m, previous, slept - old(slept));
      }
    }

    method WriteMode(m: nat, code: Word) returns (ok: bool)
      requires Valid() && InState(trace, m, LowPower)
      modifies this`tick, this`bank, this`trace
      ensures Valid() && old(trace) <= trace && InState(trace, m, LowPower)
      ensures old(tick) <= tick && ok == !world.fails(tick)
      ensures GuardedWritesUnder(old(trace), trace, m, SignalsOf(initial, m), SignalsOf(signals, m))
      ensures bank == if ok then old(bank)[Reg(m, DEVICE_SETUP) := code] else old(bank)
    {
      assert Accounted(m);
      OneWrite(trace, Wrote(m, DEVICE_SETUP, code, bank), m, SignalsOf(initial, m));
      LastSeenAppend(trace, Wrote(m, DEVICE_SETUP, code, bank), m);
      ok := MdioWrite(m, DEVICE_SETUP, code);
    }

    // ---- the bracket around general-mode writes ------------------------------------------------

    method GetMasterEnable(m: nat, lane: nat) returns (ok: bool, on: bool)
      requires lane < NUM_NETIF
      modifies this`tick
      ensures old(tick) <= tick && ok == !world.fails(tick)
      ensures ok ==> on == LaneOn(bank, m, lane) && on == ReadReg(bank, Reg(m, 0x9018))[lane]
    {
      var w;
      ok, w := MdioRead(m, LANES_ENABLE);
      on := LaneBit(w, lane);
    }

    method LaneBit(w: Word, lane: nat) returns (on: bool)
      requires lane < NUM_NETIF
      ensures on == w[lane]
    {
      BitMacros(w, lane, true);
      on := TestBit(w, lane);
    }

    method PutLaneBit(w: Word, lane: nat, on: bool) returns (r: Word)
      requires lane < NUM_NETIF
      ensures r == w[lane := on]
    {
      BitMacros(w, lane, on);
      r := PutBit(w, lane, on);
    }

    method SetMasterEnable(m: nat, lane: nat, on: bool) returns (st: Status)
      requires Valid() && m in {1, 2} && lane < NUM_NETIF
      modifies this`tick, this`bank, this`trace
      ensures Valid() && old(trace) <= trace
      ensures old(tick) <= tick && st == if world.fails(tick) then Failure else Success
      ensures bank == if st == Success then WithLane(old(bank), m, lane, on) else old(bank)
      ensures NoGuardedWrites(old(trace), trace)
      ensures LastSeen(trace, m) == LastSeen(old(trace), m)
    {
      var ok, w := MdioRead(m, LANES_ENABLE);
      if !ok {
        return Failure;
      }
      var w' := PutLaneBit(w, lane, on);
      LastSeenAppend(trace, Wrote(m, LANES_ENABLE, w', bank), m);
      ok := MdioWrite(m, LANES_ENABLE, w');
      st := if ok then Success else Failure;
    }

    /** Its coupled half. */
    method LowerModule(m: nat, lane: nat) returns (st: Status, saved: Saved)
      requires Valid() && lane < NUM_NETIF && ModeIn(bank, m) == Coupled
      modifies this`tick, this`signals, this`trace, this`slept
      ensures Valid()
      ensures WentDown(m, lane, st, saved, world, old(Now()), Now())
    {
      ghost var before := Now();
      var ok, status := GetModuleOperStatus(m);
      saved := SavedState(status);
      st := Failure;
      if ok {
        assert SeenAt(world, before.tick, tick, SignalsOf(before.signals, m).reset, status);
        st := LowerFrom(m, lane, status, before);
      } else {
        StoppedAtOnce(m, lane, saved, world, before, Now());
      }
    }

    /** From the state just seen; `before` is the moment before that. */
    method LowerFrom(m: nat, lane: nat, status: OperStatus, ghost before: Moment) returns (st: Status)
      requires Valid() && lane < NUM_NETIF && ModeIn(bank, m) == Coupled && before.tick < tick
      requires Now() == before.(tick := tick, trace := before.trace + [Observed(m, status)])
      requires SeenAt(world, before.tick, tick, SignalsOf(before.signals, m).reset, status)
      modifies this`tick, this`signals, this`trace, this`slept
      ensures Valid()
      ensures WentDown(m, lane, st, SavedState(status), world, before, Now())
    {
      ghost var seen := trace;
      if status == LowPower {
        ModuleLow(m, lane, world, before, Now());
        return Success;
      }
      st := SetModuleOperStatus(m, LowPower);
      if st == Success {
        ModuleLowered(m, lane, status, world, before, seen, Now());
      } else {
        ModuleNotLowered(m, lane, status, world, before, seen, Now());
      }
    }

    /** Its other half. */
    method DisableLane(m: nat, lane: nat) returns (st: Status, saved: Saved)
      requires Valid() && m in {1, 2} && lane < NUM_NETIF && ModeIn(bank, m) != Coupled
      modifies this`tick, this`trace, this`bank
      ensures Valid()
      ensures WentDown(m, lane, st, saved, world, old(Now()), Now())
    {
      ghost var before := Now();
      var ok, on := GetMasterEnable(m, lane);
      saved := SavedEnable(on);
      if ok {
        st := DisableIf(m, lane, on, before);
      } else {
        st := Failure;
        StoppedAtOnce(m, lane, saved, world, before, Now());
      }
    }

    /** With what was read; `before` is the moment before that. */
    method DisableIf(m: nat, lane: nat, on: bool, ghost before: Moment) returns (st: Status)
      requires Valid() && m in {1, 2} && lane < NUM_NETIF && ModeIn(bank, m) != Coupled && on == LaneOn(bank, m, lane)
      requires before.tick <= tick && Now() == before.(tick := tick)
      modifies this`tick, this`trace, this`bank
      ensures Valid()
      ensures WentDown(m, lane, st, SavedEnable(on), world, before, Now())
    {
      st := Success;
      if on {
        st := SetMasterEnable(m, lane, false);
      }
      LaneDisabled(m, lane, st, on, world, before, Now());
    }

    /** `move_to_low_power`. */
    method MoveToLowPower(m: nat, lane: nat) returns (st: Status, saved: Saved)
      requires Valid() && m in {1, 2} && lane < NUM_NETIF
      modifies this`tick, this`signals, this`trace, this`slept, this`bank
      ensures Valid()
      ensures WentDown(m, lane, st, saved, world, old(Now()), Now())
    {
      ghost var before := Now();
      saved := SavedEnable(false);
      var ok, mode := GetNetworkMode(m);
      if !ok {
        return Failure, saved;
      }
      ghost var asked := Now();
      if mode == Coupled {
        st, saved := LowerModule(m, lane);
      } else {
        st, saved := DisableLane(m, lane);
      }
      WentDownEarlier(m, lane, st, saved, world, before, asked, Now());
    }

    /** `restore_from_low_power`. */
    method RestoreFromLowPower(m: nat, lane: nat, saved: Saved) returns (st: Status)
      requires Valid() && m in {1, 2} && lane < NUM_NETIF
      requires saved.SavedState? <==> ModeIn(bank, m) == Coupled
      modifies this`tick, this`signals, this`trace, this`slept, this`bank
      ensures Valid()
      ensures WentBack(m, lane, st, saved, world, old(Now()), Now())
    {
      st := Failure;
      var ok, mode := GetNetworkMode(m);
      if ok && mode == Coupled {
        st := RaiseModule(m, lane, saved);
      } else if ok {
        st := EnableLane(m, lane, saved);
      }
    }

    /** Its coupled half. */
    method RaiseModule(m: nat, lane: nat, saved: Saved) returns (st: Status)
      requires Valid() && lane < NUM_NETIF && saved.SavedState?
      modifies this`tick, this`signals, this`trace, this`slept
      ensures Valid()
      ensures WentBack(m, lane, st, saved, world, old(Now()), Now())
    {
      st := Success;
      if saved.status != LowPower {
        st := SetModuleOperStatus(m, saved.status);
      }
    }

    /** Its other half. */
    method EnableLane(m: nat, lane: nat, saved: Saved) returns (st: Status)
      requires Valid() && m in {1, 2} && lane < NUM_NETIF && saved.SavedEnable?
      modifies this`tick, this`trace, this`bank
      ensures Valid()
      ensures WentBack(m, lane, st, saved, world, old(Now()), Now())
    {
      st := Success;
      if saved.on {
        st := SetMasterEnable(m, lane, true);
      }
    }

    /** The write inside the bracket. */
    method WriteGeneralMode(m: nat, lane: nat, w: Word) returns (ok: bool)
      requires Valid() && lane < NUM_NETIF && LaneQuiet(trace, bank, m, lane)
      modifies this`tick, this`bank, this`trace
      ensures Valid() && trace == old(trace) + [Wrote(m, GEN_MODE + lane, w, old(bank))]
      ensures old(tick) <= tick && ok == !world.fails(tick)
      ensures bank == if ok then old(bank)[Reg(m, GEN_MODE + lane) := w] else old(bank)
      ensures GuardedWritesUnder(old(trace), trace, m, SignalsOf(initial, m), SignalsOf(signals, m))
    {
      assert Accounted(m);
      OneWrite(trace, Wrote(m, GEN_MODE + lane, w, bank), m, SignalsOf(initial, m));
      QuietAllows(trace, bank, m, lane, w);
      ok := MdioWrite(m, GEN_MODE + lane, w);
    }

    /** `ac400_set_modulation_format`, `ac400_set_differential` and `ac400_set_fec_mode`: the bracket,
        and in it one field of the lane's general-mode register. A value that has no code is noticed
        only inside the bracket, which is then left open: the lane stays off, or the module in low
        power. An error exit, too, leaves the bank as it is at that point. */
    method SetGeneralMode(m: nat, lane: nat, attr: NetAttr, value: AttrValue) returns (st: Status)
      requires Valid() && m in {1, 2} && lane < NUM_NETIF
      requires attr == Modulation || attr == Differential || attr == FecMode
      requires Typed(KindOf(Net(m, lane, attr)), value)
      modifies this`tick, this`signals, this`trace, this`slept, this`bank
      ensures Valid()
      ensures BracketOutcome(m, lane, attr, value, st, world, SignalsOf(initial, m), old(Now()), Now())
    {
      ghost var before := Now();
      var saved;
      st, saved := MoveToLowPower(m, lane);
      if st == Success {
        st := FinishGeneralMode(m, lane, attr, value, saved, before);
      } else {
        StoppedOnTheWayDown(m, lane, attr, value, st, saved, world, SignalsOf(initial, m), before, Now());
      }
    }

    /** The rest of it once the lane may be written; `before` is the moment of the call. */
    method FinishGeneralMode(m: nat, lane: nat, attr: NetAttr, value: AttrValue, saved: Saved, ghost before: Moment)
        returns (st: Status)
      requires Valid() && m in {1, 2} && lane < NUM_NETIF
      requires attr == Modulation || attr == Differential || attr == FecMode
      requires Typed(KindOf(Net(m, lane, attr)), value)
      requires WentDown(m, lane, Success, saved, world, before, Now())
      modifies this`tick, this`signals, this`trace, this`slept, this`bank
      ensures Valid()
      ensures BracketOutcome(m, lane, attr, value, st, world, SignalsOf(initial, m), before, Now())
    {
      ghost var mid := Now();
      st := ChangeGeneralMode(m, lane, attr, value, saved, before.bank);
      ghost var coded := HasCode(m, lane, attr, value);
      BracketComposed(m, lane, coded, saved, st, world, SignalsOf(initial, m), before, mid, Now());
    }

    /** The code of the value, then the replacement; `start` is the bank before the bracket. */
    method ChangeGeneralMode(m: nat, lane: nat, attr: NetAttr, value: AttrValue, saved: Saved, ghost start: Bank)
        returns (st: Status)
      requires Valid() && m in {1, 2} && lane < NUM_NETIF && LaneQuiet(trace, bank, m, lane)
      requires attr == Modulation || attr == Differential || attr == FecMode
      requires Typed(KindOf(Net(m, lane, attr)), value)
      requires Paused(bank, start, m, lane, saved) && bank == InBracket(start, m, lane)
      modifies this`tick, this`signals, this`trace, this`slept, this`bank
      ensures Valid()
      ensures BankOutcome(m, lane, attr, value, st, world.fails(tick), start, bank)
      ensures Changed(m, lane, HasCode(m, lane, attr, value), saved, st, world, SignalsOf(initial, m),
                      old(Now()), Now())
    {
      var code := Encode(KindOf(Net(m, lane, attr)), value);
      if code.None? {
        return Failure;
      }
      var p := NetPlace(lane, attr);
      st := ReplaceAndRestore(m, lane, p.msb, p.lsb, Code(code.value), saved, start);
      FieldReplaced(m, lane, attr, value, st, world.fails(tick), start, bank);
    }

    /** The second half of the bracket; `start` is the bank before the first. */
    method ReplaceAndRestore(m: nat, lane: nat, msb: nat, lsb: nat, code: Word, saved: Saved, ghost start: Bank)
        returns (st: Status)
      requires Valid() && m in {1, 2} && lane < NUM_NETIF && LaneQuiet(trace, bank, m, lane)
      requires lsb <= msb < 16
      requires Paused(bank, start, m, lane, saved)
      modifies this`tick, this`signals, this`trace, this`slept, this`bank
      ensures Valid()
      ensures Changed(m, lane, true, saved, st, world, SignalsOf(initial, m), old(Now()), Now())
      ensures if st == Success then bank == Replaced(start, m, lane, msb, lsb, code)
              else bank == old(bank) || bank == Replaced(old(bank), m, lane, msb, lsb, code)
    {
      ghost var before := Now();
      var ok, w := MdioRead(m, GEN_MODE + lane);
      st := Failure;
      if ok {
        PausedRegister(bank, start, m, lane, saved);
        ghost var read := Now();
        st := WriteAndRestore(m, lane, PutField(w, msb, lsb, code), saved, start);
        ChangedEarlier(m, lane, saved, st, world, SignalsOf(initial, m), before, read, Now());
      } else {
        AccessFailed(m, lane, saved, world, SignalsOf(initial, m), before, Now());
      }
    }

    method WriteAndRestore(m: nat, lane: nat, w: Word, saved: Saved, ghost start: Bank) returns (st: Status)
      requires Valid() && m in {1, 2} && lane < NUM_NETIF && LaneQuiet(trace, bank, m, lane)
      requires Paused(bank, start, m, lane, saved)
      modifies this`tick, this`signals, this`trace, this`slept, this`bank
      ensures Valid()
      ensures Changed(m, lane, true, saved, st, world, SignalsOf(initial, m), old(Now()), Now())
      ensures if st == Success then bank == start[Reg(m, GEN_MODE + lane) := w]
              else bank == old(bank) || bank == old(bank)[Reg(m, GEN_MODE + lane) := w]
    {
      ghost var before := Now();
      st := Failure;
      var ok := WriteGeneralMode(m, lane, w);
      if ok {
        ghost var mid := Now();
        st := RestoreFromLowPower(m, lane, saved);
        WrittenThenBack(m, lane, w, st, saved, world, SignalsOf(initial, m), start, before, mid, Now());
      } else {
        AccessFailed(m, lane, saved, world, SignalsOf(initial, m), before, Now());
      }
    }
  }

  lemma QuietAllows(trace: seq<Event>, bank: Bank, m: nat, lane: nat, w: Word)
    requires lane < NUM_NETIF && LaneQuiet(trace, bank, m, lane)
    ensures Allowed(trace, Wrote(m, GEN_MODE + lane, w, bank))
  {
  }

  /** The signals after the way back. */
  function SignalsResumed(was: map<nat, Signals>, m: nat, saved: Saved): map<nat, Signals> {
    if saved.SavedState? && saved.status != LowPower then was[m := SignalsFor(saved.status)] else was
  }

  /** Why a way back failed: an access did, or the module cannot go back to its state, or did not in time. */
  ghost predicate BackFailed(m: nat, saved: Saved, w: World, before: Moment, after: Moment) {
    || w.fails(after.tick)
    || (saved.SavedState? && (!Settable(saved.status) || Attempted(before.trace, after.trace, m))
        && NotRestored(before.trace, after.trace, m, saved.status, after.slept - before.slept))
  }

  /** What `restore_from_low_power` has done between two moments. */
  ghost predicate WentBack(m: nat, lane: nat, st: Status, saved: Saved, w: World, before: Moment, after: Moment)
    requires lane < NUM_NETIF
  {
    && before.trace <= after.trace && before.tick <= after.tick && before.slept <= after.slept
    && NoGuardedWrites(before.trace, after.trace)
    && (st != Success ==> after.bank == before.bank && BackFailed(m, saved, w, before, after))
    && (st == Success ==>
          && after.signals == SignalsResumed(before.signals, m, saved)
          && after.bank == (if saved == SavedEnable(true) then WithLane(before.bank, m, lane, true) else before.bank)
          && (saved.SavedState? ==>
                if saved.status == LowPower then after.trace == before.trace
                else Settable(saved.status) && InState(after.trace, m, saved.status)))
  }

  /** The write, made with the lane quiet, and then the way back. */
  lemma WrittenThenBack(m: nat, lane: nat, v: Word, st: Status, saved: Saved, w: World, begin: Signals, start: Bank,
                        before: Moment, mid: Moment, after: Moment)
    requires lane < NUM_NETIF && WentBack(m, lane, st, saved, w, mid, after)
    requires Paused(before.bank, start, m, lane, saved) && LaneQuiet(before.trace, before.bank, m, lane)
    requires before.tick <= mid.tick && before.slept == mid.slept && before.signals == mid.signals
    requires mid.trace == before.trace + [Wrote(m, GEN_MODE + lane, v, before.bank)]
    requires mid.bank == before.bank[Reg(m, GEN_MODE + lane) := v]
    requires GuardedWritesUnder(before.trace, mid.trace, m, begin, SignalsOf(before.signals, m))
    ensures Changed(m, lane, true, saved, st, w, begin, before, after)
    ensures if st == Success then after.bank == start[Reg(m, GEN_MODE + lane) := v] else after.bank == mid.bank
  {
    WritesThen(before.trace, mid.trace, after.trace, m, begin, SignalsOf(before.signals, m));
    BackFromFurther(m, saved, w, before, mid, after);
    LastSeenAppend(before.trace, Wrote(m, GEN_MODE + lane, v, before.bank), m);
    if saved == SavedEnable(true) {
      EnablePutBack(start, m, lane, Reg(m, GEN_MODE + lane), v);
    }
  }

  lemma AccessFailed(m: nat, lane: nat, saved: Saved, w: World, begin: Signals, before: Moment, after: Moment)
    requires before.trace <= after.trace && before.tick <= after.tick && before.slept <= after.slept
    requires GuardedWritesUnder(before.trace, after.trace, m, begin, SignalsOf(before.signals, m))
    requires w.fails(after.tick)
    ensures Changed(m, lane, true, saved, Failure, w, begin, before, after)
  {
  }

  lemma BackFromFurther(m: nat, saved: Saved, w: World, before: Moment, mid: Moment, after: Moment)
    requires before.trace <= mid.trace <= after.trace && before.slept <= mid.slept
    ensures BackFailed(m, saved, w, mid, after) ==> BackFailed(m, saved, w, before, after)
  {
    if Attempted(mid.trace, after.trace, m) { AttemptedLater(before.trace, mid.trace, after.trace, m); }
  }

  lemma ChangedEarlier(m: nat, lane: nat, saved: Saved, st: Status, w: World, begin: Signals,
                       before: Moment, read: Moment, after: Moment)
    requires read == before.(tick := read.tick) && before.tick <= read.tick
    requires Changed(m, lane, true, saved, st, w, begin, read, after)
    ensures Changed(m, lane, true, saved, st, w, begin, before, after)
  {
  }

  /** The bank once the field is replaced inside the bracket, or not. */
  lemma FieldReplaced(m: nat, lane: nat, attr: NetAttr, value: AttrValue, st: Status, failed: bool,
                      start: Bank, bank: Bank)
    requires m in {1, 2} && lane < NUM_NETIF && (attr == Modulation || attr == Differential || attr == FecMode)
    requires Typed(KindOf(Net(m, lane, attr)), value) && HasCode(m, lane, attr, value)
    requires var (off, p) := (InBracket(start, m, lane), NetPlace(lane, attr));
             var code := Code(Encode(KindOf(Net(m, lane, attr)), value).value);
             if st == Success then bank == Replaced(start, m, lane, p.msb, p.lsb, code)
             else bank == off || bank == Replaced(off, m, lane, p.msb, p.lsb, code)
    ensures BankOutcome(m, lane, attr, value, st, failed, start, bank)
  {
    ReplacedIsPut(start, m, lane, attr, value);
  }

  /** A lane's general-mode register with one field replaced. */
  function Replaced(bank: Bank, m: nat, lane: nat, msb: nat, lsb: nat, code: Word): Bank
    requires lsb <= msb < 16
  {
    var r := Reg(m, GEN_MODE + lane);
    bank[r := PutField(ReadReg(bank, r), msb, lsb, code)]
  }

  /** The bank inside the bracket. */
  function InBracket(bank: Bank, m: nat, lane: nat): Bank
    requires lane < NUM_NETIF
  {
    if ModeIn(bank, m) != Coupled && LaneOn(bank, m, lane) then WithLane(bank, m, lane, false) else bank
  }

  /** What a call that fails can leave: nothing done, the lane off, or that and the field replaced. */
  ghost predicate Interrupted(start: Bank, bank: Bank, m: nat, lane: nat, attr: NetAttr, value: AttrValue)
    requires lane < NUM_NETIF
  {
    || bank == start || bank == InBracket(start, m, lane)
    || var (code, p) := (Encode(KindOf(Net(m, lane, attr)), value), NetPlace(lane, attr));
       code.Some? && bank == Replaced(InBracket(start, m, lane), m, lane, p.msb, p.lsb, Code(code.value))
  }

  predicate HasCode(m: nat, lane: nat, attr: NetAttr, value: AttrValue) {
    Encode(KindOf(Net(m, lane, attr)), value).Some?
  }

  /** What a general-mode setter has done between two moments, and why it failed if it did. */
  ghost predicate BracketOutcome(m: nat, lane: nat, attr: NetAttr, value: AttrValue, st: Status, w: World,
                                 begin: Signals, before: Moment, after: Moment)
    requires m in {1, 2} && lane < NUM_NETIF
  {
    && BankOutcome(m, lane, attr, value, st, w.fails(after.tick), before.bank, after.bank)
    && TraceOutcome(m, lane, HasCode(m, lane, attr, value), st, w, begin, before, after)
  }

  /** A failure leaves the bank in one of three ways; a value without a code fails, and if no access
      does, leaves the bracket open. On success just the field is replaced. */
  ghost predicate BankOutcome(m: nat, lane: nat, attr: NetAttr, value: AttrValue, st: Status, failed: bool,
                              start: Bank, bank: Bank)
    requires m in {1, 2} && lane < NUM_NETIF
  {
    && (st != Success ==> Interrupted(start, bank, m, lane, attr, value))
    && (!HasCode(m, lane, attr, value) ==> st != Success && (!failed ==> bank == InBracket(start, m, lane)))
    && (st == Success ==>
          && Good(Accepted(Net(m, lane, attr), value)) && bank == PutOne(start, Accepted(Net(m, lane, attr), value)))
  }

  /** Every guarded write was to the module, and under these signals; a coupled module was looked at
      first. A failure takes a failing access, a value without a code, or a change of state that did
      not come about. A coupled module is left in low power if the value has no code; on success it is
      back in the state it was first seen in, with the signals that ask for it; if that was LOW_POWER,
      nothing but the write happened. */
  ghost predicate TraceOutcome(m: nat, lane: nat, coded: bool, st: Status, w: World, begin: Signals,
                               before: Moment, after: Moment)
  {
    var coupled := ModeIn(before.bank, m) == Coupled;
    var waited := after.slept - before.slept;
    && before.trace <= after.trace
    && GuardedWritesUnder(before.trace, after.trace, m, begin,
                          SignalsFound(before.trace, after.trace, coupled, SignalsOf(before.signals, m)))
    && (coupled ==> LooksFirst(m, w, begin, before, after))
    && (st != Success && coded ==> w.fails(after.tick) || (coupled && StateChangeFailed(m, before, after)))
    && (!coded && !w.fails(after.tick) ==>
          && st == Failure
          && (coupled ==> LeftLow(before.trace, after.trace, m) || Stuck(before.trace, after.trace, m, waited)))
    && (st == Success ==> if coupled then CoupledSuccess(m, lane, before, after) else after.signals == before.signals)
  }

  ghost predicate CoupledSuccess(m: nat, lane: nat, before: Moment, after: Moment) {
    && BackInState(before.trace, after.trace, m)
    && var p := after.trace[|before.trace|].status;
       && after.signals == (if p == LowPower then before.signals else before.signals[m := SignalsFor(p)])
       && (p == LowPower ==>
             JustThen(before.trace, after.trace, 1,
                      Wrote(m, GEN_MODE + lane, ReadReg(after.bank, Reg(m, GEN_MODE + lane)), before.bank)))
  }

  /** The part of it between entering the bracket and the end. */
  ghost predicate Changed(m: nat, lane: nat, coded: bool, saved: Saved, st: Status, w: World, begin: Signals,
                          mid: Moment, after: Moment)
  {
    && mid.trace <= after.trace && mid.tick <= after.tick && mid.slept <= after.slept
    && GuardedWritesUnder(mid.trace, after.trace, m, begin, SignalsOf(mid.signals, m))
    && (if !coded then st == Failure && after == mid else st != Success ==> BackFailed(m, saved, w, mid, after))
    && (st == Success ==>
          && Resumed(after.trace, m, saved) && after.signals == SignalsResumed(mid.signals, m, saved)
          && (saved == SavedState(LowPower) ==>
                JustThen(mid.trace, after.trace, 0,
                         Wrote(m, GEN_MODE + lane, ReadReg(after.bank, Reg(m, GEN_MODE + lane)), mid.bank))))
  }

  lemma BracketComposed(m: nat, lane: nat, coded: bool, saved: Saved, st: Status, w: World, begin: Signals,
                        before: Moment, mid: Moment, after: Moment)
    requires lane < NUM_NETIF && WentDown(m, lane, Success, saved, w, before, mid)
    requires Changed(m, lane, coded, saved, st, w, begin, mid, after)
    ensures TraceOutcome(m, lane, coded, st, w, begin, before, after)
  {
    WritesFound(before.trace, mid.trace, after.trace, m, begin, saved, SignalsOf(before.signals, m),
                SignalsOf(mid.signals, m));
    if saved.SavedState? {
      CoupledBracket(m, lane, coded, saved.status, st, w, begin, before, mid, after);
    }
  }

  lemma CoupledBracket(m: nat, lane: nat, coded: bool, p: OperStatus, st: Status, w: World, begin: Signals,
                       before: Moment, mid: Moment, after: Moment)
    requires lane < NUM_NETIF && WentDown(m, lane, Success, SavedState(p), w, before, mid)
    requires Changed(m, lane, coded, SavedState(p), st, w, begin, mid, after)
    ensures Began(before.trace, after.trace, m, w, before.tick, after.tick, SignalsOf(before.signals, m).reset)
    ensures st == Success ==> CoupledSuccess(m, lane, before, after)
    ensures !coded ==> LeftLow(before.trace, after.trace, m)
    ensures st != Success && coded && !w.fails(after.tick) ==> StateChangeFailed(m, before, after)
  {
    if st == Success {
      CoupledBracketSucceeds(m, lane, coded, p, w, begin, before, mid, after);
    } else if coded && !w.fails(after.tick) {
      FailedBracket(before.trace, mid.trace, after.trace, m, p, after.slept - mid.slept, after.slept - before.slept);
    }
  }

  lemma CoupledBracketSucceeds(m: nat, lane: nat, coded: bool, p: OperStatus, w: World, begin: Signals,
                               before: Moment, mid: Moment, after: Moment)
    requires lane < NUM_NETIF && WentDown(m, lane, Success, SavedState(p), w, before, mid)
    requires Changed(m, lane, coded, SavedState(p), Success, w, begin, mid, after)
    ensures CoupledSuccess(m, lane, before, after)
  {
    assert Saw(before.trace, after.trace, m, p);
  }

  lemma StoppedOnTheWayDown(m: nat, lane: nat, attr: NetAttr, value: AttrValue, st: Status, saved: Saved, w: World,
                            begin: Signals, before: Moment, after: Moment)
    requires m in {1, 2} && lane < NUM_NETIF && st != Success
    requires WentDown(m, lane, st, saved, w, before, after)
    ensures BracketOutcome(m, lane, attr, value, st, w, begin, before, after)
  {
    assert TraceOutcome(m, lane, HasCode(m, lane, attr, value), st, w, begin, before, after);
  }

  /** The first event in between is a status read of the module, that saw this state. */
  ghost predicate Saw(before: seq<Event>, after: seq<Event>, m: nat, p: OperStatus) {
    before < after && after[|before|] == Observed(m, p)
  }

  /** So many events in between and then this one, the last. */
  ghost predicate JustThen(before: seq<Event>, after: seq<Event>, n: nat, e: Event) {
    before <= after && |after| == |before| + n + 1 && after[|before| + n] == e
  }

  ghost predicate Looked(before: seq<Event>, after: seq<Event>, m: nat) {
    before < after && after[|before|].Observed? && after[|before|].mod == m
  }

  /** Having been seen in some state first, the module ended up in low power. */
  ghost predicate LeftLow(before: seq<Event>, after: seq<Event>, m: nat) {
    Looked(before, after, m) && InState(after, m, LowPower)
  }

  /** Having been seen in another state first, it was asked for low power and did not get there in time. */
  ghost predicate Stuck(before: seq<Event>, after: seq<Event>, m: nat, waited: int) {
    && Looked(before, after, m) && after[|before|].status != LowPower
    && GaveUpFrom(after, |before| + 1, m, LowPower, waited)
  }

  /** The state to go back to cannot be asked for, or was not reached in time. */
  ghost predicate NotRestored(before: seq<Event>, after: seq<Event>, m: nat, p: OperStatus, waited: int) {
    p != LowPower &&
    (!Settable(p) ||
     exists k: nat, w: int {:trigger GaveUpFrom(after, k, m, p, w)} ::
       |before| <= k && w <= waited && GaveUpFrom(after, k, m, p, w))
  }

  /** Why a change of state inside a call did not come about: on the way down, or on the way back. */
  ghost predicate ChangeFailed(before: seq<Event>, after: seq<Event>, m: nat, waited: int) {
    || Stuck(before, after, m, waited)
    || (Looked(before, after, m) && NotRestored(before, after, m, after[|before|].status, waited))
  }

  /** Signals of the module were driven, but the change of its state did not come about. */
  ghost predicate StateChangeFailed(m: nat, before: Moment, after: Moment) {
    && Attempted(before.trace, after.trace, m)
    && ChangeFailed(before.trace, after.trace, m, after.slept - before.slept)
  }

  /** The status is what was read between two accesses: RESET if that signal is up, else the state
      word's. */
  ghost predicate SeenAt(w: World, before: nat, after: nat, reset: bool, status: OperStatus) {
    if reset then status == Reset else exists t :: before < t <= after && status == StatusOf(w.stateWord(t))
  }

  /** The first event in between, if there is any, is a status read of the module. */
  ghost predicate Began(before: seq<Event>, after: seq<Event>, m: nat, w: World, from: nat, to: nat, reset: bool) {
    before < after ==> Looked(before, after, m) && SeenAt(w, from, to, reset, after[|before|].status)
  }

  /** The way down, from the state seen first: nothing to do, or signals driven. */
  ghost predicate Entered(before: seq<Event>, after: seq<Event>, m: nat, p: OperStatus) {
    && Saw(before, after, m, p)
    && if p == LowPower then |after| == |before| + 1 else Attempted(before, after, m)
  }

  lemma WritesFound(before: seq<Event>, mid: seq<Event>, after: seq<Event>, m: nat, start: Signals, saved: Saved,
                    was: Signals, now: Signals)
    requires before <= mid <= after && NoGuardedWrites(before, mid) && GuardedWritesUnder(mid, after, m, start, now)
    requires saved.SavedState? ==> Saw(before, mid, m, saved.status)
    requires now == if saved.SavedState? && saved.status != LowPower then SignalsFor(LowPower) else was
    ensures GuardedWritesUnder(before, after, m, start, SignalsFound(before, after, saved.SavedState?, was))
  {
    WritesThen(before, mid, after, m, start, now);
  }

  /** What `move_to_low_power` has done between two moments. On success the lane may be written: a
      coupled module was last seen in low power, another's lane is off. On failure no register has
      changed, and an access failed or the module did not get to low power in time. */
  ghost predicate WentDown(m: nat, lane: nat, st: Status, saved: Saved, w: World, before: Moment, after: Moment)
    requires lane < NUM_NETIF
  {
    var coupled := ModeIn(before.bank, m) == Coupled;
    var waited := after.slept - before.slept;
    && st in {Success, Failure} && Quietly(m, coupled, w, before, after)
    && (st != Success ==>
          && after.bank == before.bank
          && (|| w.fails(after.tick)
              || (coupled && Attempted(before.trace, after.trace, m) && Stuck(before.trace, after.trace, m, waited))))
    && (st == Success ==>
          && LaneQuiet(after.trace, after.bank, m, lane) && ModeIn(after.bank, m) == ModeIn(before.bank, m)
          && Paused(after.bank, before.bank, m, lane, saved) && after.bank == InBracket(before.bank, m, lane)
          && after.signals == SignalsPaused(before.signals, m, saved)
          && (saved.SavedState? ==> Entered(before.trace, after.trace, m, saved.status)))
  }

  /** No guarded write between two moments, and a look at the module first if it is coupled. */
  ghost predicate Quietly(m: nat, coupled: bool, w: World, before: Moment, after: Moment) {
    && before.trace <= after.trace && before.tick <= after.tick && before.slept <= after.slept
    && NoGuardedWrites(before.trace, after.trace)
    && (coupled ==>
          Began(before.trace, after.trace, m, w, before.tick, after.tick, SignalsOf(before.signals, m).reset))
  }

  function SignalsPaused(was: map<nat, Signals>, m: nat, saved: Saved): map<nat, Signals> {
    if saved.SavedState? && saved.status != LowPower then was[m := SignalsFor(LowPower)] else was
  }

  lemma ModuleLow(m: nat, lane: nat, w: World, before: Moment, after: Moment)
    requires lane < NUM_NETIF && ModeIn(before.bank, m) == Coupled && before.tick < after.tick
    requires after == before.(tick := after.tick, trace := before.trace + [Observed(m, LowPower)])
    requires SeenAt(w, before.tick, after.tick, SignalsOf(before.signals, m).reset, LowPower)
    ensures WentDown(m, lane, Success, SavedState(LowPower), w, before, after)
  {
    LastSeenAppend(before.trace, Observed(m, LowPower), m);
  }

  lemma ModuleLowered(m: nat, lane: nat, p: OperStatus, w: World, before: Moment, seen: seq<Event>, after: Moment)
    requires lane < NUM_NETIF && ModeIn(before.bank, m) == Coupled && after.bank == before.bank && p != LowPower
    requires seen == before.trace + [Observed(m, p)] && seen <= after.trace && NoGuardedWrites(seen, after.trace)
    requires before.tick < after.tick && before.slept <= after.slept
    requires SeenAt(w, before.tick, after.tick, SignalsOf(before.signals, m).reset, p)
    requires Attempted(seen, after.trace, m) && InState(after.trace, m, LowPower)
    requires after.signals == before.signals[m := SignalsFor(LowPower)]
    ensures WentDown(m, lane, Success, SavedState(p), w, before, after)
  {
    QuietSinceLook(m, p, w, before, seen, after);
    AttemptedLater(before.trace, seen, after.trace, m);
  }

  lemma QuietSinceLook(m: nat, p: OperStatus, w: World, before: Moment, seen: seq<Event>, after: Moment)
    requires seen == before.trace + [Observed(m, p)] && seen <= after.trace && NoGuardedWrites(seen, after.trace)
    requires before.tick < after.tick && before.slept <= after.slept
    requires SeenAt(w, before.tick, after.tick, SignalsOf(before.signals, m).reset, p)
    ensures Quietly(m, true, w, before, after) && Saw(before.trace, after.trace, m, p)
  {
  }

  lemma ModuleNotLowered(m: nat, lane: nat, p: OperStatus, w: World, before: Moment, seen: seq<Event>, after: Moment)
    requires lane < NUM_NETIF && ModeIn(before.bank, m) == Coupled && after.bank == before.bank && p != LowPower
    requires seen == before.trace + [Observed(m, p)] && seen <= after.trace && NoGuardedWrites(seen, after.trace)
    requires before.tick < after.tick && before.slept <= after.slept
    requires SeenAt(w, before.tick, after.tick, SignalsOf(before.signals, m).reset, p)
    requires || w.fails(after.tick)
             || (Attempted(seen, after.trace, m)
                 && GaveUp(seen, after.trace, m, LowPower, after.slept - before.slept))
    ensures WentDown(m, lane, Failure, SavedState(p), w, before, after)
  {
    QuietSinceLook(m, p, w, before, seen, after);
    if !w.fails(after.tick) { AttemptedLater(before.trace, seen, after.trace, m); }
  }

  lemma LaneDisabled(m: nat, lane: nat, st: Status, on: bool, w: World, before: Moment, after: Moment)
    requires lane < NUM_NETIF && ModeIn(before.bank, m) != Coupled
    requires st == Success ==> on == LaneOn(before.bank, m, lane)
    requires before.trace <= after.trace && NoGuardedWrites(before.trace, after.trace) && before.tick <= after.tick
    requires after.slept == before.slept && after.signals == before.signals && st in {Success, Failure}
    requires st == Failure ==> w.fails(after.tick)
    requires after.bank == if on && st == Success then WithLane(before.bank, m, lane, false) else before.bank
    ensures WentDown(m, lane, st, SavedEnable(on), w, before, after)
  {
    LaneOffIs(before.bank, m, lane);
  }

  lemma StoppedAtOnce(m: nat, lane: nat, saved: Saved, w: World, before: Moment, after: Moment)
    requires lane < NUM_NETIF && after == before.(tick := after.tick)
    requires before.tick <= after.tick && w.fails(after.tick)
    ensures WentDown(m, lane, Failure, saved, w, before, after)
  {
  }

  lemma WentDownEarlier(m: nat, lane: nat, st: Status, saved: Saved, w: World,
                        before: Moment, asked: Moment, after: Moment)
    requires lane < NUM_NETIF && asked == before.(tick := asked.tick) && before.tick <= asked.tick
    requires WentDown(m, lane, st, saved, w, asked, after)
    ensures WentDown(m, lane, st, saved, w, before, after)
  {
    QuietEarlier(m, ModeIn(before.bank, m) == Coupled, w, before, asked, after);
  }

  lemma QuietEarlier(m: nat, coupled: bool, w: World, before: Moment, asked: Moment, after: Moment)
    requires asked == before.(tick := asked.tick) && before.tick <= asked.tick && Quietly(m, coupled, w, asked, after)
    ensures Quietly(m, coupled, w, before, after)
  {
  }

  /** What a change of the network mode has done between two moments: a failure takes a failing access
      or a change of state that did not come about; after a success the module is back in its state. */
  ghost predicate ModeOutcome(m: nat, st: Status, w: World, begin: Signals, before: Moment, after: Moment) {
    && before.tick <= after.tick && LooksFirst(m, w, begin, before, after)
    && (st == Success ==> BackInState(before.trace, after.trace, m))
    && (st != Success ==>
          w.fails(after.tick) || StateChangeFailed(m, before, after))
  }

  lemma ModeChanged(m: nat, p: OperStatus, st: Status, w: World, begin: Signals,
                    before: Moment, mid: Moment, after: Moment)
    requires before.tick <= mid.tick <= after.tick && mid.trace == before.trace + [Observed(m, p)]
    requires mid == before.(tick := mid.tick, trace := mid.trace) && mid.trace <= after.trace
    requires SeenAt(w, before.tick, mid.tick, SignalsOf(before.signals, m).reset, p)
    requires GuardedWritesUnder(mid.trace, after.trace, m, begin,
                                if p == LowPower then SignalsOf(before.signals, m) else SignalsFor(LowPower))
    requires st == Success ==> Settable(p) && InState(after.trace, m, p)
    requires st != Success && !w.fails(after.tick) ==>
               var waited := after.slept - before.slept;
               && Attempted(mid.trace, after.trace, m) && p != LowPower
               && (GaveUp(mid.trace, after.trace, m, LowPower, waited)
                   || NotRestored(mid.trace, after.trace, m, p, waited))
    ensures ModeOutcome(m, st, w, begin, before, after)
  {
    WritesFound(before.trace, mid.trace, after.trace, m, begin, SavedState(p), SignalsOf(before.signals, m),
                if p == LowPower then SignalsOf(before.signals, m) else SignalsFor(LowPower));
    assert Saw(before.trace, after.trace, m, p);
    if st != Success && !w.fails(after.tick) {
      AttemptedLater(before.trace, mid.trace, after.trace, m);
    }
  }

  lemma FailedBracket(before: seq<Event>, mid: seq<Event>, after: seq<Event>, m: nat, p: OperStatus, waited: int,
                      total: int)
    requires Entered(before, mid, m, p) && mid <= after && waited <= total
    requires NotRestored(mid, after, m, p, waited) && (!Settable(p) || Attempted(mid, after, m))
    ensures Attempted(before, after, m) && ChangeFailed(before, after, m, total)
  {
    AttemptedLater(before, mid, after, m);
    assert NotRestored(before, after, m, p, total);
  }

  /** What the call does first, if it does anything, is a look at the module; and its guarded writes
      find the signals that follow from what was seen. */
  ghost predicate LooksFirst(m: nat, w: World, begin: Signals, before: Moment, after: Moment) {
    && before.trace <= after.trace
    && Began(before.trace, after.trace, m, w, before.tick, after.tick, SignalsOf(before.signals, m).reset)
    && GuardedWritesUnder(before.trace, after.trace, m, begin,
                          SignalsFound(before.trace, after.trace, true, SignalsOf(before.signals, m)))
  }

  /** What that means for the module: any guarded write of a mode change, or of a setter on a coupled
      module, finds it surely in low power exactly if the call first read another state, or the signals
      at the call asked for low power. `states` is some course of states. */
  lemma CallFindsLowPowerIff(m: nat, w: World, begin: Signals, before: Moment, after: Moment, k: nat,
                             states: seq<OperStatus>)
    requires LooksFirst(m, w, begin, before, after)
    requires Safe(after.trace) && |before.trace| <= k < |after.trace| && Follows(after.trace[..k + 1], m, begin, states)
    requires after.trace[k].Wrote? && after.trace[k].addr in {0x9010, 0x9100, 0x9101}
    requires ModeIn(after.trace[k].bank, m) == Coupled || after.trace[k].addr == DEVICE_SETUP
    ensures after.trace[|before.trace|].Observed?
    ensures SurelyIn(after.trace[..k + 1], m, begin, LowPower)
       <==> after.trace[|before.trace|].status != LowPower || SignalsOf(before.signals, m) == SignalsFor(LowPower)
  {
    BeganIsLook(before.trace, after.trace, m, w, before.tick, after.tick, SignalsOf(before.signals, m).reset);
    BracketFindsLowPowerIff(before.trace, after.trace, m, begin, SignalsOf(before.signals, m), k, states);
  }

  lemma BeganIsLook(before: seq<Event>, after: seq<Event>, m: nat, w: World, from: nat, to: nat, reset: bool)
    requires before < after && Began(before, after, m, w, from, to, reset)
    ensures after[|before|].Observed?
  {
  }

  /** Where the value was refused, the enables are as before exactly if the lane was off. */
  lemma RefusedRestoresLaneIff(bank: Bank, m: nat, lane: nat)
    requires lane < NUM_NETIF && ModeIn(bank, m) != Coupled
    ensures InBracket(bank, m, lane) == bank <==> !LaneOn(bank, m, lane)
    ensures !LaneOn(InBracket(bank, m, lane), m, lane)
    ensures LaneOn(InBracket(bank, m, lane), m, 1 - lane) == LaneOn(bank, m, 1 - lane)
    ensures ModeIn(InBracket(bank, m, lane), m) == ModeIn(bank, m)
  {
    if LaneOn(bank, m, lane) {
      LaneOffIs(bank, m, lane);
    }
  }

  lemma LaneOffIs(bank: Bank, m: nat, lane: nat)
    requires lane < NUM_NETIF
    ensures var off := WithLane(bank, m, lane, false);
            && !LaneOn(off, m, lane) && LaneOn(off, m, 1 - lane) == LaneOn(bank, m, 1 - lane)
            && ReadReg(off, Reg(m, DEVICE_SETUP)) == ReadReg(bank, Reg(m, DEVICE_SETUP))
  {
  }

  /** And a coupled module is back in its state exactly if it was seen in low power to begin with. */
  lemma RefusedRestoresModuleIff(before: seq<Event>, after: seq<Event>, m: nat, p: OperStatus)
    requires Saw(before, after, m, p) && InState(after, m, LowPower)
    ensures BackInState(before, after, m) <==> p == LowPower
  {
  }

  /** An input that is left so: modulation UNKNOWN, on an enabled lane of an independent module, with
      no access failing. The call fails, and the lane is off afterwards. */
  method RefusedModulationLeavesLaneOff() returns (d: Driver, st: Status)
    ensures fresh(d) && d.Valid() && st == Failure
    ensures ModeIn(d.bank, 1) == Independent && !LaneOn(d.bank, 1, 0)
  {
    var bank: Bank := map[Reg(1, LANES_ENABLE) := Ones(16)];
    d := new Driver(World(t => false, t => Code(0), t => false), bank, map[]);
    EmptyModeIs(bank);
    st := RefuseModulation(d, 1, 0);
  }

  method RefuseModulation(d: Driver, m: nat, lane: nat) returns (st: Status)
    requires d.Valid() && m in {1, 2} && lane < NUM_NETIF && forall t :: !d.world.fails(t)
    requires ModeIn(d.bank, m) != Coupled && LaneOn(d.bank, m, lane)
    modifies d`tick, d`signals, d`trace, d`slept, d`bank
    ensures d.Valid() && st == Failure
    ensures ModeIn(d.bank, m) == ModeIn(old(d.bank), m) && !LaneOn(d.bank, m, lane)
  {
    RefusedRestoresLaneIff(d.bank, m, lane);
    st := SetUnknownModulation(d, m, lane);
  }

  method SetUnknownModulation(d: Driver, m: nat, lane: nat) returns (st: Status)
    requires d.Valid() && m in {1, 2} && lane < NUM_NETIF && forall t :: !d.world.fails(t)
    modifies d`tick, d`signals, d`trace, d`slept, d`bank
    ensures d.Valid() && st == Failure && d.bank == InBracket(old(d.bank), m, lane)
  {
    var value := ModulationV(UnknownModulation);
    assert Encode(KindOf(Net(m, lane, Modulation)), value) == None;
    st := d.SetGeneralMode(m, lane, Modulation, value);
  }

  /** A run with a write that may find the module outside low power: coupled, its signals asking for
      READY, its state word LOW_POWER at every look, no access failing. The call reads LOW_POWER,
      drives no signal, writes and succeeds. */
  method WriteInPassing() returns (d: Driver, st: Status)
    ensures fresh(d) && d.Valid() && st == Success && SignalsOf(d.signals, 1) == SignalsFor(Ready)
    ensures |d.trace| == 2 && d.trace[0] == Observed(1, LowPower)
    ensures d.trace[1].Wrote? && d.trace[1].mod == 1 && d.trace[1].addr == GEN_MODE
    ensures ModeIn(d.trace[1].bank, 1) == Coupled && !SurelyIn(d.trace, 1, SignalsFor(Ready), LowPower)
  {
    var bank: Bank := map[Reg(1, DEVICE_SETUP) := Code(1)];
    d := new Driver(World(t => false, t => Code(2), t => false), bank, map[1 := SignalsFor(Ready)]);
    OneModeIs(bank);
    LowPowerWord();
    st := SetSeenLow(d, 1);
    LowPowerInPassing(d.trace, 1);
  }

  method SetSeenLow(d: Driver, m: nat) returns (st: Status)
    requires d.Valid() && d.trace == [] && m in {1, 2} && ModeIn(d.bank, m) == Coupled
    requires SignalsOf(d.signals, m) == SignalsFor(Ready)
    requires forall t :: !d.world.fails(t) && StatusOf(d.world.stateWord(t)) == LowPower
    modifies d`tick, d`signals, d`trace, d`slept, d`bank
    ensures d.Valid() && st == Success && d.signals == old(d.signals)
    ensures JustThen([Observed(m, LowPower)], d.trace, 0,
                     Wrote(m, GEN_MODE, ReadReg(d.bank, Reg(m, GEN_MODE)), old(d.bank)))
  {
    ghost var before := d.Now();
    st := d.SetGeneralMode(m, 0, Modulation, ModulationV(Qpsk));
    SeenLowSucceeds(m, ModulationV(Qpsk), st, d.world, SignalsOf(d.initial, m), before, d.Now());
  }

  lemma SeenLowSucceeds(m: nat, value: AttrValue, st: Status, w: World, begin: Signals, before: Moment, after: Moment)
    requires ModeIn(before.bank, m) == Coupled && before.trace == []
    requires !SignalsOf(before.signals, m).reset
    requires forall t :: !w.fails(t) && StatusOf(w.stateWord(t)) == LowPower
    requires m in {1, 2} && value == ModulationV(Qpsk)
    requires BracketOutcome(m, 0, Modulation, value, st, w, begin, before, after)
    ensures st == Success && after.signals == before.signals
    ensures JustThen([Observed(m, LowPower)], after.trace, 0,
                     Wrote(m, GEN_MODE, ReadReg(after.bank, Reg(m, GEN_MODE)), before.bank))
  {
  }

  lemma LowPowerWord()
    ensures StatusOf(Code(2)) == LowPower
  {
    PowerDigits(1, 16);
    assert Pow2(1) == 2 * Pow2(0);
  }

  lemma OneModeIs(bank: Bank)
    requires Reg(1, DEVICE_SETUP) in bank && bank[Reg(1, DEVICE_SETUP)] == Code(1)
    ensures ModeIn(bank, 1) == Coupled
  {
    OneBitMode(true);
  }

  lemma OneBitMode(on: bool)
    ensures Num(GetField(BitOf(on), 1, 0)) == if on then 1 else 0
  {
    var n := if on then 1 else 0;
    NumOfCode(n);
    SmallBits(Code(n), 1);
    LowTwoBits(Code(n));
  }

  lemma LowTwoBits(w: Word)
    requires forall k :: 2 <= k < 16 ==> !w[k]
    ensures GetField(w, 1, 0) == w
  {
    GetBits(w, 1, 0);
    assert forall k :: 0 <= k < 16 ==> GetField(w, 1, 0)[k] == w[k];
  }

  lemma TwoBits(w: Word)
    ensures Num(GetField(w, 1, 0)) == (if w[0] then 1 else 0) + (if w[1] then 2 else 0)
  {
    var f := GetField(w, 1, 0);
    GetBits(w, 1, 0);
    SmallBits(f[1..][1..], 0);
    assert forall k :: 0 <= k < |f[1..][1..]| ==> f[1..][1..][k] == f[k + 2];
  }

  lemma EmptyModeIs(bank: Bank)
    requires Reg(1, DEVICE_SETUP) !in bank
    ensures ModeIn(bank, 1) == Independent
  {
    OneBitMode(false);
  }

  /** How `bank` differs from the one before the bracket: a lane that was on is off, unless coupled. */
  ghost predicate Paused(bank: Bank, start: Bank, m: nat, lane: nat, saved: Saved)
    requires lane < NUM_NETIF
  {
    && (saved.SavedState? <==> ModeIn(start, m) == Coupled)
    && if saved.SavedState? then bank == start
       else saved.on == LaneOn(start, m, lane) && bank == if saved.on then WithLane(start, m, lane, false) else start
  }

  ghost predicate Resumed(trace: seq<Event>, m: nat, saved: Saved) {
    saved.SavedState? ==> Settable(saved.status) && InState(trace, m, saved.status)
  }

  lemma PausedRegister(bank: Bank, start: Bank, m: nat, lane: nat, saved: Saved)
    requires lane < NUM_NETIF && Paused(bank, start, m, lane, saved)
    ensures ReadReg(bank, Reg(m, GEN_MODE + lane)) == ReadReg(start, Reg(m, GEN_MODE + lane))
    ensures ReadReg(bank, Reg(m, DEVICE_SETUP)) == ReadReg(start, Reg(m, DEVICE_SETUP))
  {
  }

  /** A field of a general-mode register replaced is the attribute put, and leaves the mode alone. */
  lemma ReplacedIsPut(bank: Bank, m: nat, lane: nat, attr: NetAttr, value: AttrValue)
    requires m in {1, 2} && lane < NUM_NETIF && (attr == Modulation || attr == Differential || attr == FecMode)
    requires Typed(KindOf(Net(m, lane, attr)), value) && Encode(KindOf(Net(m, lane, attr)), value).Some?
    ensures var (r, p) := (Reg(m, GEN_MODE + lane), NetPlace(lane, attr));
            var bank' := bank[r := PutField(ReadReg(bank, r), p.msb, p.lsb,
                                               Code(Encode(KindOf(Net(m, lane, attr)), value).value))];
            && Good(Accepted(Net(m, lane, attr), value))
            && PutOne(bank, Accepted(Net(m, lane, attr), value)) == bank'
            && ModeIn(bank', m) == ModeIn(bank, m)
  {
  }

  /** The module was last seen in some other state. */
  ghost predicate Elsewhere(trace: seq<Event>, m: nat, target: OperStatus) {
    LastSeen(trace, m).Some? && LastSeen(trace, m).value != target
  }

  /** One of the accesses in between found the global alarm up. */
  ghost predicate AlarmSeen(w: World, before: nat, after: nat) {
    exists t :: before < t <= after && w.alarm(t)
  }

  /** Signals of the module were driven in between, and nothing else happened. */
  ghost predicate OnlyDriven(before: seq<Event>, after: seq<Event>, m: nat) {
    before < after && forall k :: |before| <= k < |after| ==> after[k].Driven? && after[k].mod == m
  }

  /** The first `n` of the four signals as wanted, the others as they were. */
  function UpTo(was: Signals, want: Signals, n: nat): Signals {
    Signals(if n > 0 then want.reset else was.reset, if n > 1 then want.lowPower else was.lowPower,
            if n > 2 then want.txDisable1 else was.txDisable1, if n > 3 then want.txDisable2 else was.txDisable2)
  }

  function SignalsUpTo(was: map<nat, Signals>, m: nat, want: Signals, n: nat): map<nat, Signals> {
    if n == 0 then was else was[m := UpTo(SignalsOf(was, m), want, n)]
  }

  /** The first `n` signals were driven, one after the other, and nothing else happened. */
  ghost predicate DrivenUpTo(before: seq<Event>, after: seq<Event>, m: nat, was: Signals, want: Signals, n: nat) {
    && before <= after && |after| == |before| + n
    && forall k :: |before| <= k < |after| ==> after[k] == Driven(m, UpTo(was, want, k - |before| + 1))
  }

  /** And then the next failed, and left the signals as they were. */
  ghost predicate DrivenShort(before: seq<Event>, after: seq<Event>, m: nat, was: Signals, want: Signals, n: nat) {
    && before < after && DrivenUpTo(before, after[..|after| - 1], m, was, want, n)
    && after[|after| - 1] == Driven(m, UpTo(was, want, n))
  }

  /** Either the first `n`, or they and a failure at the next; and the signals that leaves. */
  ghost predicate Drove(before: seq<Event>, was: map<nat, Signals>, after: seq<Event>, signals: map<nat, Signals>,
                        m: nat, want: Signals, n: nat, ok: bool)
  {
    && signals == SignalsUpTo(was, m, want, n)
    && if ok then DrivenUpTo(before, after, m, SignalsOf(was, m), want, n)
       else DrivenShort(before, after, m, SignalsOf(was, m), want, n)
  }

  lemma DrivenIsOnly(before: seq<Event>, was: map<nat, Signals>, after: seq<Event>, signals: map<nat, Signals>,
                     m: nat, want: Signals, n: nat, ok: bool)
    requires Drove(before, was, after, signals, m, want, n, ok) && (ok ==> n == 4)
    ensures OnlyDriven(before, after, m) && (ok ==> signals == was[m := want])
  {
    if !ok {
      assert forall k :: |before| <= k < |after| - 1 ==> after[k] == after[..|after| - 1][k];
    }
  }

  /** Only status reads of the module in between, none of which saw the state. */
  ghost predicate Missed(before: seq<Event>, after: seq<Event>, m: nat, target: OperStatus) {
    && before <= after
    && forall k :: |before| <= k < |after| ==> after[k].Observed? && after[k].mod == m && after[k].status != target
  }

  /** The same, but for the last event, which is a read that did. */
  ghost predicate Hit(before: seq<Event>, after: seq<Event>, m: nat, target: OperStatus) {
    before < after && Missed(before, after[..|after| - 1], m, target) && after[|after| - 1] == Observed(m, target)
  }

  lemma MissedMore(before: seq<Event>, after: seq<Event>, m: nat, target: OperStatus, status: OperStatus)
    requires Missed(before, after, m, target) && status != target
    ensures Missed(before, after + [Observed(m, status)], m, target)
  {
  }

  /** What the end of a wait means for the module. */
  lemma WaitEnds(before: seq<Event>, after: seq<Event>, m: nat, target: OperStatus)
    requires before < after && Missed(before, after[..|after| - 1], m, target) && after[|after| - 1].Observed?
    requires after[|after| - 1].mod == m
    ensures NoGuardedWrites(before, after)
    ensures if after[|after| - 1].status == target then InState(after, m, target) else Elsewhere(after, m, target)
  {
    var n := |after| - 1;
    assert InState(after, m, after[n].status);
    forall k | |before| <= k < n ensures after[k] == after[..n][k] {}
  }

  /** A signal of the module was driven in between. */
  ghost predicate Attempted(before: seq<Event>, after: seq<Event>, m: nat) {
    exists k :: |before| <= k < |after| && after[k].Driven? && after[k].mod == m
  }

  lemma AttemptedLater(before: seq<Event>, mid: seq<Event>, after: seq<Event>, m: nat)
    requires before <= mid <= after && (Attempted(before, mid, m) || Attempted(mid, after, m))
    ensures Attempted(before, after, m)
  {
    if k :| |before| <= k < |mid| && mid[k].Driven? && mid[k].mod == m {
      assert after[k] == mid[k];
    }
  }

  /** The module had all its time: twenty seconds to report the end of a reset, or what the table
      says for the change from the state it was first seen in, at the end of which it was elsewhere. */
  ghost predicate GaveUp(before: seq<Event>, after: seq<Event>, m: nat, target: OperStatus, waited: int) {
    before <= after && GaveUpFrom(after, |before|, m, target, waited)
  }

  ghost predicate GaveUpFrom(trace: seq<Event>, k: nat, m: nat, target: OperStatus, waited: int) {
    k < |trace| && trace[k].Observed? && trace[k].mod == m && TimeIsUp(trace, m, trace[k].status, target, waited)
  }

  ghost predicate TimeIsUp(after: seq<Event>, m: nat, previous: OperStatus, target: OperStatus, waited: int) {
    || (previous == Reset && target != Reset && waited == 20_000_000)
    || (Elsewhere(after, m, target) && BudgetSpent(previous, target, waited))
  }

  /** The time allowed has gone by, and no more than half a second over, not counting what was spent
      before on the end of a reset. */
  predicate BudgetSpent(previous: OperStatus, target: OperStatus, waited: int) {
    var budget := TransitionTime(previous, target) * 1_000_000;
    budget <= waited < budget + (if previous == Reset && target != Reset then 20_500_000 else 500_000)
  }

  /** In seconds: a change that was given up was given the time to settle and to go up or down the
      ladder of states, and at most half a second more; from READY to LOW_POWER, 11 seconds. A module
      in RESET was also given the twenty seconds for the alarm, or just those. */
  lemma GivesUpAfter(before: seq<Event>, after: seq<Event>, m: nat, target: OperStatus, waited: int)
    requires GaveUp(before, after, m, target, waited) && target in {Reset, LowPower, TxOff, Ready}
    ensures var p := after[|before|].status;
            var seconds := if target == Reset || p == Unknown || p == Fault then 0
                           else Settles(p).1 + Ladder(Settles(p).0, target);
            && (p != Reset ==> 1_000_000 * seconds <= waited < 1_000_000 * seconds + 500_000)
            && (p == Reset ==> waited == 20_000_000 || 1_000_000 * seconds <= waited < 1_000_000 * seconds + 20_500_000)
            && (p == Ready && target == LowPower ==> 11_000_000 <= waited < 11_500_000)
  {
    TableIsLadder(after[|before|].status, target);
  }

  /** The later trace begins with an observation of the module in a settable state, and ends with it
      last seen in that state with no signal driven since. */
  ghost predicate BackInState(before: seq<Event>, after: seq<Event>, m: nat) {
    Looked(before, after, m) && var s := after[|before|].status; Settable(s) && InState(after, m, s)
  }

  lemma ModeWritten(bank: Bank, m: nat, mode: ModeValue)
    requires m in {1, 2} && mode != UnknownMode
    ensures var a := Accepted(NetworkMode(m), ModeV(mode));
            && Good(a)
            && PutOne(bank, a) == bank[Reg(m, DEVICE_SETUP) := Code(if mode == Independent then 0 else 1)]
            && ModeIn(PutOne(bank, a), m) == mode
            && ModeRegister(bank, PutOne(bank, a), m, ModeV(mode))
  {
    PutWritten(bank, NetworkMode(m), ModeV(mode));
    PutOneShown(bank, Accepted(NetworkMode(m), ModeV(mode)), NetworkMode(m));
  }

  /** The bank with a lane's master enable bit changed. */
  function WithLane(bank: Bank, m: nat, lane: nat, on: bool): Bank
    requires lane < NUM_NETIF
  {
    bank[Reg(m, LANES_ENABLE) := ReadReg(bank, Reg(m, LANES_ENABLE))[lane := on]]
  }

  lemma WithLaneIsPut(bank: Bank, m: nat, lane: nat, on: bool)
    requires m in {1, 2} && lane < NUM_NETIF
    ensures WithLane(bank, m, lane, on) == Put(bank, Net(m, lane, MasterEnable), BitOf(on))
  {
    var w := ReadReg(bank, Reg(m, LANES_ENABLE));
    BitField(w, lane, on);
    assert NetPlace(lane, MasterEnable) == Place(LANES_ENABLE, lane, lane);
  }

  /** Clearing an enable that was set, writing elsewhere and setting it again is just the write. */
  lemma EnablePutBack(bank: Bank, m: nat, lane: nat, r: Reg, w: Word)
    requires lane < NUM_NETIF && LaneOn(bank, m, lane) && r != Reg(m, LANES_ENABLE)
    ensures WithLane(WithLane(bank, m, lane, false)[r := w], m, lane, true) == bank[r := w]
  {
    var e := Reg(m, LANES_ENABLE);
    var v := ReadReg(bank, e);
    assert v[lane := false][lane := true] == v;
    assert e in bank by {
      assert Code(0) == BitOf(false);
      BitDigits(false);
    }
  }
}
