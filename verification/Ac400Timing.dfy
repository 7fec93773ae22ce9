/** Operating states of an AC400 module, the table of transition times, and the back-off that
    waits for a transition. */
module Timing {
  import opened Words

  datatype OperStatus =
    | Unknown | Reset | Initialize | LowPower | HighPowerUp | TxOff
    | TxTurnOn | Ready | TxTurnOff | HighPowerDown | Fault

  /** The states a host can ask for. */
  predicate Settable(s: OperStatus) {
    s == Reset || s == LowPower || s == TxOff || s == Ready
  }

  // ---- transition times -------------------------------------------------------------

  /** A row of the table, in the order of the enumeration. */
  function Row(previous: OperStatus): (r: seq<nat>)
    ensures |r| == 11
  {
    match previous
    case Unknown       => [0, 0, 0,   0,  0,   0,   0,   0,   0,   0, 0]
    case Reset         => [0, 0, 0,  20, 20, 200, 200, 201, 201, 200, 0]
    case Initialize    => [0, 0, 0,  20, 20, 200, 200, 201, 201, 200, 0]
    case LowPower      => [0, 0, 0,   0,  0, 180, 180, 181, 181, 180, 0]
    case HighPowerUp   => [0, 0, 0, 190,  0, 180, 180, 181, 181, 180, 0]
    case TxOff         => [0, 0, 0,  10, 10,   0,   0,   1,   1,   0, 0]
    case TxTurnOn      => [0, 0, 0,  12, 12,   2,   0,   1,   1,   2, 0]
    case Ready         => [0, 0, 0,  11, 11,   1,   1,   0,   0,   1, 0]
    case TxTurnOff     => [0, 0, 0,  11, 11,   1,   1,   2,   0,   1, 0]
    case HighPowerDown => [0, 0, 0,  10, 10, 190, 190, 191, 191,   0, 0]
    case Fault         => [0, 0, 0,   0,  0,   0,   0,   0,   0,   0, 0]
  }

  function Column(s: OperStatus): nat
  {
    match s
    case Unknown => 0 case Reset => 1 case Initialize => 2 case LowPower => 3 case HighPowerUp => 4
    case TxOff => 5 case TxTurnOn => 6 case Ready => 7 case TxTurnOff => 8 case HighPowerDown => 9 case Fault => 10
  }

  /** `ac400_get_transition_time`, in seconds. */
  function TransitionTime(previous: OperStatus, next: OperStatus): nat {
    Row(previous)[Column(next)]
  }

  /** The state in which a transitory one settles, and the time that takes; the others are at rest. */
  function Settles(s: OperStatus): (OperStatus, nat) {
    match s
    case Initialize => (LowPower, 20)
    case HighPowerUp => (TxOff, 180)
    case TxTurnOn => (Ready, 1)
    case TxTurnOff => (TxOff, 1)
    case HighPowerDown => (LowPower, 10)
    case _ => (s, 0)
  }

  /** Seconds up the ladder reset, low power, transmitters off, ready, or down it. */
  function Ladder(from: OperStatus, to: OperStatus): nat {
    match (from, to)
    case (Reset, LowPower) => 20
    case (Reset, TxOff) => 20 + 180
    case (Reset, Ready) => 20 + 180 + 1
    case (LowPower, TxOff) => 180
    case (LowPower, Ready) => 180 + 1
    case (TxOff, Ready) => 1
    case (Ready, TxOff) => 1
    case (Ready, LowPower) => 1 + 10
    case (TxOff, LowPower) => 10
    case _ => 0
  }

  /** Every time in the table that is ever looked up: to settle and then go up or down the ladder; a
      reset takes none, nor does the table allow any from UNKNOWN or FAULT. */
  lemma TableIsLadder(previous: OperStatus, target: OperStatus)
    requires target in {Reset, LowPower, TxOff, Ready}
    ensures TransitionTime(previous, target)
         == if target == Reset || previous == Unknown || previous == Fault then 0
            else Settles(previous).1 + Ladder(Settles(previous).0, target)
  {
  }

  function PathTime(path: seq<OperStatus>): nat {
    if |path| < 2 then 0 else TransitionTime(path[0], path[1]) + PathTime(path[1..])
  }

  /** A way of getting somewhere: from any state on through settable ones. */
  predicate Path(path: seq<OperStatus>) {
    |path| >= 2 && forall i :: 1 <= i < |path| ==> Settable(path[i])
  }

  lemma Triangle(a: OperStatus, b: OperStatus, c: OperStatus)
    requires Settable(b) && Settable(c) && a != HighPowerUp
    ensures TransitionTime(a, c) <= TransitionTime(a, b) + TransitionTime(b, c)
  {
  }

  lemma {:induction false} PathAtLeastDirect(path: seq<OperStatus>)
    requires Path(path) && path[0] != HighPowerUp
    ensures TransitionTime(path[0], path[|path| - 1]) <= PathTime(path)
    decreases path
  {
    if |path| == 2 {
      assert PathTime(path[1..]) == 0;
    } else {
      PathAtLeastDirect(path[1..]);
      Triangle(path[0], path[1], path[|path| - 1]);
    }
  }

  /** The table gives the time of the shortest way from a state, through settable states, exactly
      if the state is not HIGH_POWER_UP: from there, reset and then low power is shorter. */
  lemma TableIsShortestPath(start: OperStatus)
    ensures (forall path :: Path(path) && path[0] == start ==>
              TransitionTime(start, path[|path| - 1]) <= PathTime(path))
            <==> start != HighPowerUp
  {
    if start != HighPowerUp {
      forall path | Path(path) && path[0] == start ensures TransitionTime(start, path[|path| - 1]) <= PathTime(path) {
        PathAtLeastDirect(path);
      }
    } else {
      var path := [HighPowerUp, Reset, LowPower];
      assert path[1..] == [Reset, LowPower] && path[1..][1..] == [LowPower];
      assert PathTime(path) ==
          TransitionTime(HighPowerUp, Reset) + (TransitionTime(Reset, LowPower) + PathTime([LowPower]));
      assert Path(path) && path[0] == start && TransitionTime(start, path[2]) > PathTime(path);
    }
  }

  // ---- back-off ----------------------------------------------------------------------

  const FIRST_SLEEP: int := 25
  const MAX_SLEEP: int := 500_000

  /** The sleep time doubles from poll to poll, up to half a second. */
  function Doubled(sleepTime: int): int {
    if sleepTime * 2 < MAX_SLEEP then sleepTime * 2 else MAX_SLEEP
  }

  /** Sleep time in force before poll `k`, counted from one; it is not slept before the first. */
  function SleepBefore(k: nat): (t: int)
    requires k >= 1
    ensures 0 < t
  {
    if k == 1 then FIRST_SLEEP else Doubled(SleepBefore(k - 1))
  }

  /** Microseconds slept up to and including poll `k`. */
  function SleptAfter(k: nat): (t: int)
    requires k >= 1
    ensures 0 <= t
  {
    if k == 1 then 0 else SleptAfter(k - 1) + SleepBefore(k)
  }

  lemma {:induction false} SleepClosed(k: nat)
    requires k >= 1
    ensures SleepBefore(k) == if k <= 15 then 25 * Pow2(k - 1) else MAX_SLEEP
    ensures k <= 15 ==> Pow2(k - 1) <= 16384
  {
    if k == 1 {
    } else {
      SleepClosed(k - 1);
      PowersTo15(k);
    }
  }

  lemma PowersTo15(k: nat)
    requires k >= 2
    ensures Pow2(k - 1) == 2 * Pow2(k - 2)
    ensures k <= 15 ==> Pow2(k - 2) <= 8192
    ensures k == 16 ==> Pow2(k - 2) == 16384
  {
    PowMonotone(k - 2, 13);
    assert Pow2(4) == 16 && Pow2(8) == 256 && Pow2(12) == 4096 && Pow2(13) == 8192 && Pow2(14) == 16384;
  }

  lemma {:induction false} PowMonotone(m: nat, n: nat)
    ensures m <= n ==> Pow2(m) <= Pow2(n)
    decreases n
  {
    if m < n { PowMonotone(m, n - 1); }
  }

  /** After k polls the loop has slept 25 * (2^k - 2) microseconds, and from the fifteenth poll on
      half a second more per poll. */
  lemma {:induction false} SleptClosed(k: nat)
    requires k >= 1
    ensures SleptAfter(k) == if k <= 15 then 25 * (Pow2(k) - 2) else 819_150 + 500_000 * (k - 15)
  {
    if k == 1 {
      assert Pow2(1) == 2;
    } else {
      SleptClosed(k - 1);
      SleepClosed(k);
      if k == 16 {
        PowerOf15(k - 1);
      }
    }
  }

  lemma PowerOf15(n: nat)
    requires n == 15
    ensures Pow2(n) == 32768
  {
    assert Pow2(4) == 16 && Pow2(8) == 256 && Pow2(12) == 4096;
  }
}
