/** What the driver does to a module, as a trace of events, and when a configuration write is safe. */
module Trace {
  import opened Options
  import opened Words
  import opened Layout
  import opened Store
  import opened Timing

  datatype Signals = Signals(reset: bool, lowPower: bool, txDisable1: bool, txDisable2: bool)

  /** The fallthrough switch of `ac400_set_module_oper_status`. */
  function SignalsFor(target: OperStatus): Signals {
    Signals(target == Reset, target == Reset || target == LowPower, target != Ready, target != Ready)
  }

  /** The pins of a state: reset for RESET alone, low power for it and LOW_POWER, both transmitters
      disabled for all but READY. */
  predicate PinsFor(s: Signals, target: OperStatus) {
    && (s.reset <==> target == Reset)
    && (s.lowPower <==> target == Reset || target == LowPower)
    && (s.txDisable1 <==> target != Ready) && (s.txDisable2 <==> target != Ready)
  }

  /** So no two states that can be asked for have the same pins, and the pins tell which is asked for. */
  lemma PinsTell(s: Signals, target: OperStatus)
    requires target in {Reset, LowPower, TxOff, Ready}
    ensures Asks(s, target) <==> PinsFor(s, target)
    ensures PinsFor(s, target) ==>
              target == if s.reset then Reset else if s.lowPower then LowPower
                        else if s.txDisable1 then TxOff else Ready
  {
  }

  /** A register write carries the bank it found; an observation is a successful status read; the
      driving of a signal carries the signals of the module in force afterwards. */
  datatype Event =
    | Wrote(mod: nat, addr: nat, value: Word, bank: Bank)
    | Observed(mod: nat, status: OperStatus)
    | Driven(mod: nat, signals: Signals)

  /** The state the module was last seen in, unless a signal of it has been driven since. */
  ghost function LastSeen(trace: seq<Event>, m: nat): Option<OperStatus> {
    if trace == [] then None
    else
      var e := trace[|trace| - 1];
      if e.Observed? && e.mod == m then Some(e.status)
      else if e.Driven? && e.mod == m then None
      else LastSeen(trace[..|trace| - 1], m)
  }

  ghost predicate InState(trace: seq<Event>, m: nat, s: OperStatus) {
    LastSeen(trace, m) == Some(s)
  }

  /** The mode in the device setup register. */
  function ModeIn(bank: Bank, m: nat): ModeValue {
    ModeOf(Num(GetField(ReadReg(bank, Reg(m, DEVICE_SETUP)), 1, 0)))
  }

  /** The lane's master enable bit. */
  function LaneOn(bank: Bank, m: nat, lane: nat): bool
    requires lane < NUM_NETIF
  {
    ReadReg(bank, Reg(m, LANES_ENABLE))[lane]
  }

  /** A lane's general-mode register may be written: in coupled mode with the module in low power,
      otherwise with the lane's master enable clear. */
  ghost predicate LaneQuiet(trace: seq<Event>, bank: Bank, m: nat, lane: nat)
    requires lane < NUM_NETIF
  {
    if ModeIn(bank, m) == Coupled then InState(trace, m, LowPower) else !LaneOn(bank, m, lane)
  }

  /** The hardware's conditions on a write: general-mode registers need a quiet lane, the network
      mode needs low power. */
  ghost predicate Allowed(trace: seq<Event>, e: Event) {
    e.Wrote? ==>
      && (e.addr == GEN_MODE ==> LaneQuiet(trace, e.bank, e.mod, 0))
      && (e.addr == GEN_MODE + 1 ==> LaneQuiet(trace, e.bank, e.mod, 1))
      && (e.addr == DEVICE_SETUP ==> InState(trace, e.mod, LowPower))
  }

  /** Every write of the trace was allowed when it was made. */
  ghost predicate Safe(trace: seq<Event>) {
    forall i: nat {:trigger AllowedAt(trace, i)} :: AllowedAt(trace, i)
  }

  ghost predicate AllowedAt(trace: seq<Event>, i: nat) {
    i < |trace| ==> Allowed(trace[..i], trace[i])
  }

  lemma SafeAppend(trace: seq<Event>, e: Event)
    requires Safe(trace) && Allowed(trace, e)
    ensures Safe(trace + [e])
  {
    var t := trace + [e];
    forall i: nat ensures AllowedAt(t, i) {
      if i < |trace| {
        assert AllowedAt(trace, i);
        assert t[..i] == trace[..i] && t[i] == trace[i];
      } else if i == |trace| {
        assert t[..i] == trace;
      }
    }
  }

  lemma LastSeenAppend(trace: seq<Event>, e: Event, m: nat)
    ensures LastSeen(trace + [e], m) ==
            if e.Observed? && e.mod == m then Some(e.status)
            else if e.Driven? && e.mod == m then None
            else LastSeen(trace, m)
  {
    assert (trace + [e])[..|trace|] == trace;
  }

  // ---- signals --------------------------------------------------------------------------

  /** The module's signals at the end of the trace, `start` being those at its beginning. */
  ghost function InForce(trace: seq<Event>, m: nat, start: Signals): Signals {
    if trace == [] then start
    else
      var e := trace[|trace| - 1];
      if e.Driven? && e.mod == m then e.signals else InForce(trace[..|trace| - 1], m, start)
  }

  lemma InForceAppend(trace: seq<Event>, e: Event, m: nat, start: Signals)
    ensures InForce(trace + [e], m, start) == if e.Driven? && e.mod == m then e.signals else InForce(trace, m, start)
  {
    assert (trace + [e])[..|trace|] == trace;
  }

  predicate Guarded(addr: nat) {
    addr == GEN_MODE || addr == GEN_MODE + 1 || addr == DEVICE_SETUP
  }

  ghost predicate NoGuardedWrites(before: seq<Event>, after: seq<Event>) {
    forall k :: |before| <= k < |after| && after[k].Wrote? ==> !Guarded(after[k].addr)
  }

  /** The guarded writes in between are to module `m`, and find these signals in force. */
  ghost predicate GuardedWritesUnder(before: seq<Event>, after: seq<Event>, m: nat, start: Signals, g: Signals) {
    forall k :: |before| <= k < |after| && after[k].Wrote? && Guarded(after[k].addr) ==>
      after[k].mod == m && InForce(after[..k], m, start) == g
  }

  lemma OneWrite(trace: seq<Event>, e: Event, m: nat, start: Signals)
    requires e.Wrote? && e.mod == m
    ensures GuardedWritesUnder(trace, trace + [e], m, start, InForce(trace, m, start))
  {
    assert (trace + [e])[..|trace|] == trace;
  }

  lemma WritesThen(before: seq<Event>, mid: seq<Event>, after: seq<Event>, m: nat, start: Signals, g: Signals)
    requires before <= mid <= after
    requires GuardedWritesUnder(before, mid, m, start, g) && GuardedWritesUnder(mid, after, m, start, g)
    ensures GuardedWritesUnder(before, after, m, start, g)
  {
    forall k | |before| <= k < |mid| ensures after[k] == mid[k] && after[..k] == mid[..k] {}
  }

  /** The signals the guarded write of a call finds: those for low power if the driver had to move
      the module there, else, the lane being independent or the module having been read as in low
      power, those there were. */
  ghost function SignalsFound(before: seq<Event>, after: seq<Event>, coupled: bool, was: Signals): Signals {
    if coupled && |before| < |after| && after[|before|].Observed? && after[|before|].status != LowPower
    then SignalsFor(LowPower) else was
  }

  // ---- from observations to the module itself ------------------------------------------

  /** The state is the one the signals ask for. A module that has come to it is settled. */
  predicate Asks(g: Signals, s: OperStatus) {
    Settable(s) && g == SignalsFor(s)
  }

  /** The state module `m` is in when each event happens: what an observation sees; and a settled
      module stays as it is from one event to the next unless a signal of it is driven. Any other
      state may be left at any time. */
  ghost predicate Follows(trace: seq<Event>, m: nat, start: Signals, states: seq<OperStatus>) {
    && |states| == |trace|
    && (forall i :: 0 <= i < |trace| && trace[i].Observed? && trace[i].mod == m ==> states[i] == trace[i].status)
    && (forall i :: 0 <= i < |trace| - 1 ==> Persists(trace, m, start, states, i))
  }

  ghost predicate Persists(trace: seq<Event>, m: nat, start: Signals, states: seq<OperStatus>, i: nat)
    requires i + 1 < |trace| == |states|
  {
    Asks(InForce(trace[..i], m, start), states[i]) && !(trace[i].Driven? && trace[i].mod == m) ==>
        states[i + 1] == states[i]
  }

  lemma {:induction false} InStateIsState(trace: seq<Event>, m: nat, start: Signals, states: seq<OperStatus>,
                                          i: nat, s: OperStatus)
    requires Follows(trace, m, start, states) && i < |trace|
    requires InState(trace[..i], m, s) && Asks(InForce(trace[..i], m, start), s)
    ensures states[i] == s
    decreases i
  {
    var e := trace[i - 1];
    assert trace[..i][i - 1] == e && trace[..i][..i - 1] == trace[..i - 1];
    assert !(e.Driven? && e.mod == m);
    assert Persists(trace, m, start, states, i - 1);
    if !(e.Observed? && e.mod == m) {
      InStateIsState(trace, m, start, states, i - 1, s);
    }
  }

  /** Whatever the module does that the trace allows, it is in state `s` at the last event. */
  ghost predicate SurelyIn(trace: seq<Event>, m: nat, start: Signals, s: OperStatus)
    requires trace != []
  {
    forall states :: Follows(trace, m, start, states) ==> states[|trace| - 1] == s
  }

  /** What the driver knows of the module at an event that is no status read: it is surely in a state
      exactly if it was last seen in it, no signal was driven since, and the signals ask for it. `w`
      is some course of states the trace allows. */
  lemma SurelyInIff(trace: seq<Event>, m: nat, start: Signals, s: OperStatus, w: seq<OperStatus>)
    requires trace != [] && Follows(trace, m, start, w)
    requires !(trace[|trace| - 1].Observed? && trace[|trace| - 1].mod == m)
    ensures var before := trace[..|trace| - 1];
            SurelyIn(trace, m, start, s) <==> InState(before, m, s) && Asks(InForce(before, m, start), s)
  {
    var n := |trace| - 1;
    if InState(trace[..n], m, s) && Asks(InForce(trace[..n], m, start), s) {
      forall states | Follows(trace, m, start, states) ensures states[n] == s {
        InStateIsState(trace, m, start, states, n, s);
      }
    } else {
      var v := AnotherCourse(trace, m, start, s, w);
      assert Follows(trace, m, start, v) && v[n] != s;
    }
  }

  /** A course of states that ends elsewhere. */
  lemma {:induction false} AnotherCourse(trace: seq<Event>, m: nat, start: Signals, s: OperStatus, w: seq<OperStatus>)
      returns (v: seq<OperStatus>)
    requires trace != [] && Follows(trace, m, start, w)
    requires !(trace[|trace| - 1].Observed? && trace[|trace| - 1].mod == m)
    requires var before := trace[..|trace| - 1];
             !(InState(before, m, s) && Asks(InForce(before, m, start), s))
    ensures Follows(trace, m, start, v) && v[|trace| - 1] != s
    decreases |trace|
  {
    var n := |trace| - 1;
    var other := if s == Fault then Unknown else Fault;
    if w[n] != s {
      v := w;
    } else if n == 0 {
      v := [other];
    } else {
      var e := trace[n - 1];
      var front := trace[..n];
      assert front[..n - 1] == trace[..n - 1] && front[n - 1] == e;
      FollowsFront(trace, m, start, w);
      if (e.Driven? || e.Observed?) && e.mod == m {
        assert Persists(trace, m, start, w, n - 1);
        assert w[..n] + [other] == w[n := other];
        FollowsMore(trace, m, start, w[..n], other);
        v := w[..n] + [other];
      } else {
        var u := AnotherCourse(front, m, start, s, w[..n]);
        FollowsMore(trace, m, start, u, u[n - 1]);
        v := u + [u[n - 1]];
      }
    }
  }

  lemma FollowsFront(trace: seq<Event>, m: nat, start: Signals, w: seq<OperStatus>)
    requires trace != [] && Follows(trace, m, start, w)
    ensures Follows(trace[..|trace| - 1], m, start, w[..|trace| - 1])
  {
    var n := |trace| - 1;
    forall i | 0 <= i < n - 1 ensures Persists(trace[..n], m, start, w[..n], i) {
      assert trace[..n][..i] == trace[..i];
      assert Persists(trace, m, start, w, i);
    }
  }

  lemma FollowsMore(trace: seq<Event>, m: nat, start: Signals, u: seq<OperStatus>, x: OperStatus)
    requires |trace| >= 2 && Follows(trace[..|trace| - 1], m, start, u)
    requires !(trace[|trace| - 1].Observed? && trace[|trace| - 1].mod == m)
    requires var k := |trace| - 2;
             Asks(InForce(trace[..k], m, start), u[k]) && !(trace[k].Driven? && trace[k].mod == m) ==> x == u[k]
    ensures Follows(trace, m, start, u + [x])
  {
    var n := |trace| - 1;
    forall i | 0 <= i < n ensures Persists(trace, m, start, u + [x], i) {
      if i < n - 1 {
        assert trace[..n][..i] == trace[..i];
        assert Persists(trace[..n], m, start, u, i);
      }
    }
  }

  /** In a safe trace, a write to a general-mode register of a module that is not coupled finds the
      lane off; that of a coupled module, and a mode write of any, finds the module surely in low
      power exactly if the signals then in force ask for it. They always do if the driver itself
      moved the module there; if it read LOW_POWER to begin with, it may have read it in passing. */
  lemma SafeWritesFindLowPower(trace: seq<Event>, m: nat, start: Signals, i: nat, w: seq<OperStatus>)
    requires Safe(trace) && i < |trace| && trace[i].Wrote? && trace[i].mod == m
    requires Follows(trace[..i + 1], m, start, w)
    ensures trace[i].addr in {0x9010, 0x9100, 0x9101}
            && (trace[i].addr == DEVICE_SETUP || ModeIn(trace[i].bank, m) == Coupled) ==>
              (SurelyIn(trace[..i + 1], m, start, LowPower) <==> InForce(trace[..i], m, start) == SignalsFor(LowPower))
    ensures forall lane: nat :: lane < NUM_NETIF && trace[i].addr == GEN_MODE + lane ==>
              ModeIn(trace[i].bank, m) == Coupled || !LaneOn(trace[i].bank, m, lane)
  {
    assert AllowedAt(trace, i);
    var t := trace[..i + 1];
    assert t[..|t| - 1] == trace[..i];
    SurelyInIff(t, m, start, LowPower, w);
  }

  /** A bracket that began by reading the status finds the module surely in low power at its guarded
      write exactly if that reading was another state, or the signals at the call asked for low power. */
  lemma BracketFindsLowPowerIff(before: seq<Event>, after: seq<Event>, m: nat, start: Signals, was: Signals,
                                k: nat, w: seq<OperStatus>)
    requires before <= after && Safe(after) && |before| < k < |after|
    requires after[|before|].Observed?
    requires GuardedWritesUnder(before, after, m, start, SignalsFound(before, after, true, was))
    requires after[k].Wrote? && after[k].addr in {0x9010, 0x9100, 0x9101}
    requires ModeIn(after[k].bank, m) == Coupled || after[k].addr == DEVICE_SETUP
    requires Follows(after[..k + 1], m, start, w)
    ensures SurelyIn(after[..k + 1], m, start, LowPower)
       <==> after[|before|].status != LowPower || was == SignalsFor(LowPower)
  {
    SafeWritesFindLowPower(after, m, start, k, w);
  }

  /** Where it was such a reading and the signals ask for READY: a module on its way from RESET to
      READY may be passing through LOW_POWER, and the write then finds it in HIGH_POWER_UP. */
  lemma LowPowerInPassing(trace: seq<Event>, m: nat)
    requires |trace| == 2 && trace[0] == Observed(m, LowPower) && trace[1].Wrote?
    ensures Follows(trace, m, SignalsFor(Ready), [LowPower, HighPowerUp])
    ensures !SurelyIn(trace, m, SignalsFor(Ready), LowPower)
  {
    var states := [LowPower, HighPowerUp];
    assert trace[..0] == [] && states[1] != LowPower;
    assert Persists(trace, m, SignalsFor(Ready), states, 0);
    assert Follows(trace, m, SignalsFor(Ready), states);
  }
}
