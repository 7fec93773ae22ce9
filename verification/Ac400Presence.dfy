/** The module presence thread: reads the absence signal of each module in turn and tells the host
    about changes. */
module Presence {
  import opened Options

  const NUM_MODULES: nat := 2

  /** One pass over the modules: for each, the absence signal read, or None if the read failed. */
  type Round = r: seq<Option<bool>> | |r| == NUM_MODULES witness [None, None]

  /** A call of the host's function. */
  datatype Callback = Callback(mod: nat, present: bool)

  /** The readings of one module over the rounds. */
  function Readings(rounds: seq<Round>, mod: nat): seq<Option<bool>>
    requires mod < NUM_MODULES
  {
    seq(|rounds|, i requires 0 <= i < |rounds| => rounds[i][mod])
  }

  /** The last successful reading, taking the module to be absent before the first. */
  function LastReading(rs: seq<Option<bool>>): bool {
    if rs == [] then true
    else
      var r := rs[|rs| - 1];
      if r.Some? then r.value else LastReading(rs[..|rs| - 1])
  }

  /** It is the last one there is. */
  lemma {:induction false} LastReadingIs(rs: seq<Option<bool>>, k: nat)
    requires forall j :: k <= j < |rs| ==> rs[j].None?
    ensures k == 0 ==> LastReading(rs)
    ensures 0 < k <= |rs| && rs[k - 1].Some? ==> LastReading(rs) == rs[k - 1].value
    decreases rs
  {
    if k < |rs| { LastReadingIs(rs[..|rs| - 1], k); }
  }

  /** The calls about one module. */
  function About(calls: seq<Callback>, mod: nat): seq<bool> {
    if calls == [] then []
    else
      var c := calls[|calls| - 1];
      var before := About(calls[..|calls| - 1], mod);
      if c.mod == mod then before + [c.present] else before
  }

  lemma AboutAppend(calls: seq<Callback>, c: Callback, mod: nat)
    ensures About(calls + [c], mod) == if c.mod == mod then About(calls, mod) + [c.present] else About(calls, mod)
  {
    assert (calls + [c])[..|calls|] == calls;
  }

  /** Present first, then absent, present, absent ... */
  predicate Alternates(calls: seq<bool>) {
    forall i :: 0 <= i < |calls| ==> calls[i] == (i % 2 == 0)
  }

  /** What the host believes after the calls: absent before the first. */
  function HostView(calls: seq<bool>): bool {
    if calls == [] then false else calls[|calls| - 1]
  }

  /** The calls a module's readings give rise to: one for each successful reading that differs from
      the last successful one. */
  function Edges(rs: seq<Option<bool>>): seq<bool> {
    if rs == [] then []
    else
      var n := |rs| - 1;
      Edges(rs[..n]) + Change(LastReading(rs[..n]), rs[n])
  }

  function Change(absent: bool, reading: Option<bool>): seq<bool> {
    if reading.Some? && reading.value != absent then [!reading.value] else []
  }

  /** For any readings, with any of them failed, the calls strictly alternate starting with present,
      and leave the host with the last successful reading. */
  lemma {:induction false} EdgesAlternate(rs: seq<Option<bool>>)
    ensures Alternates(Edges(rs)) && HostView(Edges(rs)) == !LastReading(rs)
  {
    if rs != [] {
      var n := |rs| - 1;
      EdgesAlternate(rs[..n]);
      if rs[n].Some? && rs[n].value != LastReading(rs[..n]) {
        NextAlternates(Edges(rs[..n]), !rs[n].value);
      }
    }
  }

  lemma NextAlternates(calls: seq<bool>, present: bool)
    requires Alternates(calls) && present != HostView(calls)
    ensures Alternates(calls + [present]) && HostView(calls + [present]) == present
  {
  }

  /** One pass of the thread over the modules. */
  method Visit(round: Round, absent: array<bool>, calls: seq<Callback>) returns (calls': seq<Callback>)
    requires absent.Length == NUM_MODULES
    modifies absent
    ensures forall m: nat :: m < NUM_MODULES ==>
              && absent[m] == (if round[m].Some? then round[m].value else old(absent[m]))
              && About(calls', m) == About(calls, m) + Change(old(absent[m]), round[m])
    ensures forall m: nat :: m >= NUM_MODULES ==> About(calls', m) == About(calls, m)
  {
    calls' := calls;
    for mod := 0 to NUM_MODULES
      invariant forall m: nat :: m < NUM_MODULES ==>
                  absent[m] == if m < mod && round[m].Some? then round[m].value else old(absent[m])
      invariant forall m: nat ::
                  About(calls', m) == About(calls, m) + if m < mod then Change(old(absent[m]), round[m]) else []
    {
      var reading := round[mod];
      if reading.Some? && absent[mod] != reading.value {
        forall m: nat ensures About(calls' + [Callback(mod, !reading.value)], m)
                           == if m == mod then About(calls', m) + [!reading.value] else About(calls', m)
        {
          AboutAppend(calls', Callback(mod, !reading.value), m);
        }
        calls' := calls' + [Callback(mod, !reading.value)];
        absent[mod] := reading.value;
      }
    }
  }

  /** The module's calls are the edges of its readings so far, and its flag is the last of them. */
  ghost predicate Reported(calls: seq<Callback>, rounds: seq<Round>, m: nat, absent: bool)
    requires m < NUM_MODULES
  {
    About(calls, m) == Edges(Readings(rounds, m)) && absent == LastReading(Readings(rounds, m))
  }

  lemma ReportedNext(calls: seq<Callback>, calls': seq<Callback>, rounds: seq<Round>, k: nat, m: nat, absent: bool)
    requires k < |rounds| && m < NUM_MODULES && Reported(calls, rounds[..k], m, absent)
    requires About(calls', m) == About(calls, m) + Change(absent, rounds[k][m])
    ensures Reported(calls', rounds[..k + 1], m, if rounds[k][m].Some? then rounds[k][m].value else absent)
  {
    assert Readings(rounds[..k + 1], m)[..k] == Readings(rounds[..k], m);
  }

  /** The thread's loop until it is told to stop; the host's function is registered. Each module's
      calls are the edges of its readings; there are no others. */
  method ModulePresence(rounds: seq<Round>) returns (calls: seq<Callback>)
    ensures forall m: nat :: About(calls, m) == if m < NUM_MODULES then Edges(Readings(rounds, m)) else []
  {
    calls := [];
    var absent := new bool[NUM_MODULES](i => true);
    for k := 0 to |rounds|
      invariant forall m: nat :: m < NUM_MODULES ==> Reported(calls, rounds[..k], m, absent[m])
      invariant forall m: nat :: m >= NUM_MODULES ==> About(calls, m) == []
    {
      ghost var (before, flags) := (calls, absent[..]);
      calls := Visit(rounds[k], absent, calls);
      forall m: nat | m < NUM_MODULES ensures Reported(calls, rounds[..k + 1], m, absent[m]) {
        ReportedNext(before, calls, rounds, k, m, flags[m]);
      }
    }
    assert rounds[..|rounds|] == rounds;
    forall m: nat | m < NUM_MODULES ensures About(calls, m) == Edges(Readings(rounds, m)) {
      assert Reported(calls, rounds, m, absent[m]);
    }
  }
}
