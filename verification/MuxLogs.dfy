/** Log settings: recorded in the multiplexer and replayed to libraries loaded later. */
module MuxLogs {
  import opened Options
  import opened MuxTypes
  import opened MuxSpec

  /** The library carries exactly the recorded settings. */
  ghost predicate UpToDate(s: Mux, a: AdapterId) {
    a < |s.libs| && s.libs[a].logs == s.logSetting
  }

  ghost predicate Current(s: Mux, id: Oid) {
    id in s.objects && UpToDate(s, s.objects[id].adapter)
  }

  /** Every library that hosts a live object does. */
  ghost predicate LiveUpToDate(s: Mux) {
    forall id {:trigger Current(s, id)} :: id in s.objects ==> Current(s, id)
  }

  /** No library has a setting for an API that has none recorded. */
  ghost predicate LogsWithin(s: Mux) {
    && (forall h :: h in s.loader.libMap && s.loader.libMap[h].Some? ==> s.loader.libMap[h].value < |s.libs|)
    && (forall a: AdapterId {:trigger Within(s, a)} :: a < |s.libs| ==> Within(s, a))
  }

  ghost predicate Within(s: Mux, a: AdapterId) {
    a < |s.libs| && s.libs[a].logs.Keys <= s.logSetting.Keys
  }

  // ---- conditions on the run ------------------------------------------------------

  ghost predicate AcceptsLogs(replies: LogReplies) {
    forall a, k :: replies(a, k) == Success
  }

  /** The libraries accept their log calls, and a walk over the adapters meets each listed one and
      no null. */
  ghost predicate Accepting(s: Mux, op: Op) {
    match op
    case Create(_, _, _, _, logs, _) => AcceptsLogs(logs)
    case SetLog(_, _, logger, order, logs) =>
      logger == Success ==> AcceptsLogs(logs) && None !in order && forall a :: a in order <==> Listed(s.loader, a)
    case _ => true
  }

  /** A new setting gets to every library with a live object: some location still maps to it, or the
      setting is the recorded one. */
  ghost predicate Reaches(s: Mux, op: Op) {
    op.SetLog? && op.logger == Success ==>
      forall id :: id in s.objects ==>
        Listed(s.loader, Some(s.objects[id].adapter)) || (op.api in s.logSetting && s.logSetting[op.api] == op.setting)
  }

  ghost predicate AcceptingRun(s: Mux, meta: Meta, ops: seq<Op>)
    decreases ops
  {
    ops == [] || (Accepting(s, ops[0]) && AcceptingRun(Step(s, meta, ops[0]), meta, ops[1..]))
  }

  ghost predicate ReachingRun(s: Mux, meta: Meta, ops: seq<Op>)
    decreases ops
  {
    ops == [] || (Reaches(s, ops[0]) && ReachingRun(Step(s, meta, ops[0]), meta, ops[1..]))
  }

  /** Up to date now and after each call of the run. */
  ghost predicate AlwaysUpToDate(s: Mux, meta: Meta, ops: seq<Op>)
    decreases ops
  {
    LiveUpToDate(s) && (ops == [] || AlwaysUpToDate(Step(s, meta, ops[0]), meta, ops[1..]))
  }

  // ---- the two ways a setting reaches a library ---------------------------------------

  lemma {:induction false} ReplayCarries(libs: seq<Lib>, a: AdapterId, settings: map<Api, LogSetting>,
                                         replies: LogReplies)
    requires a < |libs| && AcceptsLogs(replies)
    ensures var (st, libs') := ReplayLogs(libs, a, settings, replies);
            && st == Success && |libs'| == |libs|
            && libs'[a].logs == libs[a].logs + settings
            && forall b {:trigger libs'[b]} :: 0 <= b < |libs| && b != a ==> libs'[b] == libs[b]
    decreases settings.Keys
  {
    if settings != map[] {
      assert settings.Keys != {};
      var k := Least(settings.Keys);
      var mid := LibLog(libs, a, k, settings[k]);
      ReplayCarries(mid, a, settings - {k}, replies);
      assert mid[a].logs + (settings - {k}) == libs[a].logs + settings;
    }
  }

  lemma {:induction false} BroadcastCarries(libs: seq<Lib>, order: seq<Option<AdapterId>>, api: Api,
                                            setting: LogSetting, replies: LogReplies)
    requires AcceptsLogs(replies)
    ensures BroadcastLog(libs, order, api, setting, replies).0 == if None in order then NullPointer else Success
    ensures None !in order ==>
              var libs' := BroadcastLog(libs, order, api, setting, replies).1;
              && |libs'| == |libs|
              && forall b: AdapterId {:trigger libs'[b]} :: b < |libs| ==>
                   libs'[b].logs == if Some(b) in order then libs[b].logs[api := setting] else libs[b].logs
    decreases order
  {
    if order != [] && order[0].Some? {
      BroadcastCarries(LibLog(libs, order[0].value, api, setting), order[1..], api, setting, replies);
    }
  }

  /** `set_log` with accepting libraries returns exactly if no location maps to a null adapter. */
  lemma SetLogReturns(s: Mux, api: Api, setting: LogSetting, order: seq<Option<AdapterId>>, replies: LogReplies)
    requires AcceptsLogs(replies) && forall a :: a in order <==> Listed(s.loader, a)
    ensures var st := SetLogStep(s, api, setting, Success, order, replies).0;
            if Listed(s.loader, None) then st == NullPointer else st == Success
  {
    BroadcastCarries(s.libs, order, api, setting, replies);
  }

  // ---- creation --------------------------------------------------------------------------

  /** The replay in `Module`'s constructor brings the adapter it got, new or not, up to date, and
      touches no other. */
  lemma ModuleLogs(s: Mux, loc: string, script: ScriptReply, logs: LogReplies)
    requires LogsWithin(s) && AcceptsLogs(logs)
    ensures var lk := LookupAdapter(s.loader, s.libs, loc, script);
            lk.adapter.Some? ==>
              var (st, libs) := ReplayLogs(lk.libs, lk.adapter.value, s.logSetting, logs);
              && st == Success && lk.adapter.value < |lk.libs| == |libs|
              && libs[lk.adapter.value].logs == s.logSetting
              && forall b {:trigger libs[b]} :: 0 <= b < |lk.libs| && b != lk.adapter.value ==> libs[b] == lk.libs[b]
  {
    var lk := LookupAdapter(s.loader, s.libs, loc, script);
    if lk.adapter.Some? {
      var a := lk.adapter.value;
      ReplayCarries(lk.libs, a, s.logSetting, logs);
      assert a < |s.libs| ==> Within(s, a);
      assert lk.libs[a].logs + s.logSetting == s.logSetting;
    }
  }

  /** Libraries keep their place and settings, but for those that are up to date afterwards. */
  ghost predicate Carried(s: Mux, s': Mux) {
    && |s.libs| <= |s'.libs| && s'.logSetting == s.logSetting
    && forall b: AdapterId {:trigger UpToDate(s', b)} :: b < |s.libs| && UpToDate(s, b) ==> UpToDate(s', b)
  }

  lemma LookupLogs(s: Mux, loc: string, script: ScriptReply)
    requires LogsWithin(s)
    ensures var lk := LookupAdapter(s.loader, s.libs, loc, script);
            var s1 := s.(loader := lk.loader, libs := lk.libs);
            LogsWithin(s1) && Carried(s, s1) && (lk.adapter.Some? ==> lk.adapter.value < |lk.libs|)
  {
    var lk := LookupAdapter(s.loader, s.libs, loc, script);
    var s1 := s.(loader := lk.loader, libs := lk.libs);
    forall b: AdapterId | b < |s1.libs| ensures Within(s1, b) {
      assert b < |s.libs| ==> Within(s, b);
    }
  }

  lemma ReplayedLogs(s: Mux, loc: string, script: ScriptReply, logs: LogReplies)
    requires LogsWithin(s) && AcceptsLogs(logs) && LookupAdapter(s.loader, s.libs, loc, script).adapter.Some?
    ensures var lk := LookupAdapter(s.loader, s.libs, loc, script);
            var s2 := s.(loader := lk.loader, libs := ReplayLogs(lk.libs, lk.adapter.value, s.logSetting, logs).1);
            LogsWithin(s2) && Carried(s, s2) && UpToDate(s2, lk.adapter.value)
  {
    var lk := LookupAdapter(s.loader, s.libs, loc, script);
    var s1 := s.(loader := lk.loader, libs := lk.libs);
    var s2 := s1.(libs := ReplayLogs(lk.libs, lk.adapter.value, s.logSetting, logs).1);
    LookupLogs(s, loc, script);
    ModuleLogs(s, loc, script, logs);
    forall b: AdapterId | b < |s2.libs| ensures Within(s2, b) && (UpToDate(s1, b) ==> UpToDate(s2, b)) {
      assert Within(s1, b);
      assert b != lk.adapter.value ==> s2.libs[b] == s1.libs[b];
    }
  }

  lemma InstallLogs(s: Mux, a: AdapterId, t: ObjectType, parent: Oid, realParent: Oid, reply: CreateReply)
    requires LogsWithin(s) && LiveUpToDate(s) && UpToDate(s, a)
    ensures var s' := Install(s, a, t, parent, realParent, reply).2;
            LogsWithin(s') && LiveUpToDate(s')
  {
    var s' := Install(s, a, t, parent, realParent, reply).2;
    assert |s'.libs| == |s.libs| && forall b {:trigger s'.libs[b]} :: 0 <= b < |s.libs| ==>
        s'.libs[b].logs == s.libs[b].logs;
    forall b: AdapterId | b < |s'.libs| ensures Within(s', b) { assert Within(s, b); }
    forall id | id in s'.objects ensures Current(s', id) {
      assert id in s.objects ==> Current(s, id);
    }
  }

  lemma CarriedUpToDate(s: Mux, s': Mux)
    requires LiveUpToDate(s) && Carried(s, s') && s'.objects == s.objects
    ensures LiveUpToDate(s')
  {
    forall id | id in s'.objects ensures Current(s', id) {
      assert Current(s, id);
    }
  }

  lemma CreateLogs(s: Mux, meta: Meta, op: Op)
    requires LogsWithin(s) && LiveUpToDate(s) && op.Create? && Accepting(s, op)
    ensures LogsWithin(Step(s, meta, op)) && LiveUpToDate(Step(s, meta, op))
  {
    var Create(t, parent, loc, script, logs, reply) := op;
    if t == ModuleType {
      if loc.Some? {
        var lk := LookupAdapter(s.loader, s.libs, loc.value, script);
        var s1 := s.(loader := lk.loader, libs := lk.libs);
        LookupLogs(s, loc.value, script);
        CarriedUpToDate(s, s1);
        if lk.thrown == Success && lk.adapter.Some? {
          var s2 := s1.(libs := ReplayLogs(lk.libs, lk.adapter.value, s.logSetting, logs).1);
          ModuleLogs(s, loc.value, script, logs);
          ReplayedLogs(s, loc.value, script, logs);
          CarriedUpToDate(s, s2);
          InstallLogs(s2, lk.adapter.value, ModuleType, NULL_OID, NULL_OID, reply);
        }
      }
    } else if t != NullType && parent in s.objects && s.objects[parent].objectType == ModuleType {
      assert Current(s, parent);
      InstallLogs(s, s.objects[parent].adapter, t, parent, s.objects[parent].realId, reply);
    }
  }

  // ---- the other calls -----------------------------------------------------------------------

  /** A call that changes no setting anywhere and makes no object. */
  lemma LogsFrame(s: Mux, s': Mux)
    requires LogsWithin(s) && LiveUpToDate(s)
    requires s'.loader == s.loader && s'.logSetting == s.logSetting && |s'.libs| == |s.libs|
    requires forall id :: id in s'.objects ==> id in s.objects && s'.objects[id] == s.objects[id]
    requires forall b {:trigger s'.libs[b]} :: 0 <= b < |s.libs| ==> s'.libs[b].logs == s.libs[b].logs
    ensures LogsWithin(s') && LiveUpToDate(s')
  {
    forall b: AdapterId | b < |s'.libs| ensures Within(s', b) { assert Within(s, b); }
    forall id | id in s'.objects ensures Current(s', id) { assert Current(s, id); }
  }

  lemma StoreLogs(libs: seq<Lib>, t: Target, inputs: seq<Attr>, stored: set<nat>)
    ensures var libs' := LibStore(libs, t, inputs, stored);
            |libs'| == |libs| && forall b {:trigger libs'[b]} :: 0 <= b < |libs| ==> libs'[b].logs == libs[b].logs
  {
  }

  lemma SetLogs(s: Mux, meta: Meta, id: Oid, attrs: seq<Attr>, alloc: Allocate, reply: SetReply)
    requires LogsWithin(s) && LiveUpToDate(s)
    ensures var s' := Step(s, meta, SetAttrs(id, attrs, alloc, reply));
            LogsWithin(s') && LiveUpToDate(s')
  {
    if id in s.objects && id in s.pa.table {
      var q := ConvertRequest(s.pa.table, s.pa.notifs, meta, alloc, s.objects[id].objectType, id, attrs);
      var stored := if reply.Accepted? then UpTo(|q.inputs|) else reply.stored;
      StoreLogs(s.libs, s.pa.table[id], q.inputs, stored);
      LogsFrame(s, Step(s, meta, SetAttrs(id, attrs, alloc, reply)));
    }
  }

  /** A new setting leaves every library with a live object up to date exactly if it reaches each. */
  lemma SettingUpToDateIff(s: Mux, api: Api, setting: LogSetting, order: seq<Option<AdapterId>>, replies: LogReplies)
    requires LogsWithin(s) && LiveUpToDate(s)
    requires AcceptsLogs(replies) && None !in order && forall a :: a in order <==> Listed(s.loader, a)
    ensures var (st, s') := SetLogStep(s, api, setting, Success, order, replies);
            && st == Success && LogsWithin(s')
            && (LiveUpToDate(s') <==>
                  forall id :: id in s.objects ==>
                    Listed(s.loader, Some(s.objects[id].adapter)) ||
                        (api in s.logSetting && s.logSetting[api] == setting))
  {
    BroadcastCarries(s.libs, order, api, setting, replies);
    var s' := SetLogStep(s, api, setting, Success, order, replies).1;
    forall b: AdapterId | b < |s'.libs| ensures Within(s', b) { assert Within(s, b); }
    forall id | id in s.objects
      ensures Current(s', id) <==>
                Listed(s.loader, Some(s.objects[id].adapter)) || (api in s.logSetting && s.logSetting[api] == setting)
    {
      assert Current(s, id);
      SettingKept(s.logSetting, api, setting);
    }
  }

  lemma SettingKept(m: map<Api, LogSetting>, api: Api, setting: LogSetting)
    ensures m == m[api := setting] <==> api in m && m[api] == setting
  {
    if m == m[api := setting] {
      assert api in m[api := setting] && m[api := setting][api] == setting;
    }
  }

  // ---- steps and runs --------------------------------------------------------------------

  lemma StepLogs(s: Mux, meta: Meta, op: Op)
    requires LogsWithin(s) && LiveUpToDate(s) && Accepting(s, op)
    ensures LogsWithin(Step(s, meta, op)) && (LiveUpToDate(Step(s, meta, op)) <==> Reaches(s, op))
  {
    match op
    case Create(_, _, _, _, _, _) => CreateLogs(s, meta, op);
    case Remove(id, reply) => LogsFrame(s, Step(s, meta, op));
    case SetAttrs(id, attrs, alloc, reply) => SetLogs(s, meta, id, attrs, alloc, reply);
    case GetAttrs(_) =>
    case SetLog(api, setting, logger, order, logs) =>
      if logger == Success { SettingUpToDateIff(s, api, setting, order, logs); }
  }

  /** In runs where the libraries accept their log calls, every library with a live object carries
      exactly the recorded settings all along, whichever came first, if and only if each new setting
      still finds these libraries under some location, or is no change. Locations may change their
      library as they like otherwise. */
  lemma {:induction false} RunLogs(s: Mux, meta: Meta, ops: seq<Op>)
    requires LogsWithin(s) && LiveUpToDate(s) && AcceptingRun(s, meta, ops)
    ensures AlwaysUpToDate(s, meta, ops) <==> ReachingRun(s, meta, ops)
    decreases ops
  {
    if ops != [] {
      var s' := Step(s, meta, ops[0]);
      StepLogs(s, meta, ops[0]);
      if Reaches(s, ops[0]) {
        RunLogs(s', meta, ops[1..]);
      } else {
        assert !LiveUpToDate(s');
      }
    }
  }

  lemma {:induction false} AlwaysAtEnd(s: Mux, meta: Meta, ops: seq<Op>)
    requires AlwaysUpToDate(s, meta, ops)
    ensures LiveUpToDate(Run(s, meta, ops))
    decreases ops
  {
    if ops != [] { AlwaysAtEnd(Step(s, meta, ops[0]), meta, ops[1..]); }
  }

  lemma LiveObjectsCarrySettings(meta: Meta, ops: seq<Op>)
    requires AcceptingRun(INITIAL, meta, ops)
    ensures AlwaysUpToDate(INITIAL, meta, ops) <==> ReachingRun(INITIAL, meta, ops)
    ensures ReachingRun(INITIAL, meta, ops) ==>
              var s := Run(INITIAL, meta, ops);
              forall id :: id in s.objects ==>
                s.objects[id].adapter < |s.libs| && s.libs[s.objects[id].adapter].logs == s.logSetting
  {
    RunLogs(INITIAL, meta, ops);
    if ReachingRun(INITIAL, meta, ops) {
      AlwaysAtEnd(INITIAL, meta, ops);
      var s := Run(INITIAL, meta, ops);
      forall id | id in s.objects ensures UpToDate(s, s.objects[id].adapter) {
        assert Current(s, id);
      }
    }
  }

  // ---- when a location changes its library ----------------------------------------------

  function Accept(): LogReplies {
    (a: AdapterId, k: Api) => Success
  }

  /** State after the host created a module at location "1" twice, the location having answered
      with library 7 first and library 8 then. */
  ghost function Swapped(meta: Meta): Mux {
    Run(INITIAL, meta, [Create(ModuleType, 0, Some("1"), Script(7, LoadOk), Accept(), Created(10, map[])),
                        Create(ModuleType, 0, Some("1"), Script(8, LoadOk), Accept(), Created(20, map[]))])
  }

  lemma SwappedIs(meta: Meta)
    ensures var s := Swapped(meta);
            && 1 in s.objects && s.objects[1].adapter == 0
            && s.loader.locMap == map["1" := Some(1)]
            && |s.libs| == 2 && s.libs[0].logs == map[] && s.logSetting == map[]
  {
    var op0 := Create(ModuleType, 0, Some("1"), Script(7, LoadOk), Accept(), Created(10, map[]));
    var op1 := Create(ModuleType, 0, Some("1"), Script(8, LoadOk), Accept(), Created(20, map[]));
    var s1 := Step(INITIAL, meta, op0);
    RunTwo(INITIAL, meta, op0, op1);
    assert Swapped(meta) == Step(s1, meta, op1);
    FirstCreated(meta);
  }

  lemma RunTwo(s: Mux, meta: Meta, op0: Op, op1: Op)
    ensures Run(s, meta, [op0, op1]) == Step(Step(s, meta, op0), meta, op1)
  {
    var s1 := Step(s, meta, op0);
    assert [op0, op1][1..] == [op1] && [op1][1..] == [];
    assert Run(s1, meta, [op1]) == Run(Step(s1, meta, op1), meta, []);
  }

  lemma FirstCreated(meta: Meta)
    ensures var s := Step(INITIAL, meta,
              Create(ModuleType, 0, Some("1"), Script(7, LoadOk), Accept(), Created(10, map[])));
            && s.objects == map[1 := MuxObject(1, 10, 0, ModuleType, 0)] && s.pa.used == {1}
            && s.loader.resident == {7} && s.loader.locMap == map["1" := Some(0)]
            && |s.libs| == 1 && s.libs[0].logs == map[] && s.logSetting == map[]
  {
    assert 1 in Free({}) && 2 in Free({1});
  }

  /** An input where the condition fails: the first library has dropped out of the location map, so
      the next setting passes it by although its module is live. */
  lemma ChangedLocationMissesSetting(meta: Meta, setting: LogSetting)
    ensures var s := Swapped(meta);
            && (forall a :: a in [Some(1)] <==> Listed(s.loader, a))
            && var (st, s') := SetLogStep(s, 0, setting, Success, [Some(1)], Accept());
               st == Success && 1 in s'.objects && s'.objects[1].adapter == 0
               && 0 in s'.logSetting && |s'.libs| == 2 && 0 !in s'.libs[0].logs
  {
    var s := Swapped(meta);
    SwappedIs(meta);
    assert s.loader.locMap["1"] == Some(1);
    assert Listed(s.loader, Some(1));
    var order: seq<Option<AdapterId>> := [Some(1)];
    assert order[1..] == [];
    assert BroadcastLog(s.libs, order, 0, setting, Accept()) == (Success, LibLog(s.libs, 1, 0, setting));
  }

  // ---- when a location maps to a null adapter -------------------------------------------------

  /** A library that loads but fails to initialise stays resident without an adapter, so a second
      creation at a location that names it enters a null adapter there. */
  lemma RetryListsNull(s: Mux, loc: string, h: nat, e: Error, load: LoadReply, logs: LogReplies, reply: CreateReply)
    requires s.loader.libMap.Keys <= s.loader.resident && h !in s.loader.resident
    ensures var s1 := CreateStep(s, ModuleType, 0, Some(loc), Script(h, InitFailed(e)), logs, reply).2;
            var (st, id, s2) := CreateStep(s1, ModuleType, 0, Some(loc), Script(h, load), logs, reply);
            st == Failure && Listed(s2.loader, None) && s2.objects == s.objects && s2.libs == s.libs
  {
    var lk := LookupAdapter(s.loader, s.libs, loc, Script(h, InitFailed(e)));
    var lk' := LookupAdapter(lk.loader, lk.libs, loc, Script(h, load));
    assert lk.thrown == e && lk.loader == s.loader.(resident := s.loader.resident + {h}) && lk.libs == s.libs;
    assert lk' == Lookup(Success, None, lk'.loader, s.libs) && lk'.loader.locMap == s.loader.locMap[loc := None];
    assert loc in lk'.loader.locMap && lk'.loader.locMap[loc] == None;
    LookupFails(s, loc, Script(h, InitFailed(e)), logs, reply);
    LookupFails(s.(loader := lk.loader), loc, Script(h, load), logs, reply);
  }

  lemma LookupFails(s: Mux, loc: string, script: ScriptReply, logs: LogReplies, reply: CreateReply)
    requires LookupAdapter(s.loader, s.libs, loc, script).adapter.None?
    ensures var lk := LookupAdapter(s.loader, s.libs, loc, script);
            var (st, id, s') := CreateStep(s, ModuleType, 0, Some(loc), script, logs, reply);
            && st == (if lk.thrown != Success then lk.thrown else Failure)
            && s' == s.(loader := lk.loader, libs := lk.libs)
  {
  }

  /** State after a host that tries so twice in a row. */
  ghost function Retried(meta: Meta, e: Error): Mux {
    Run(INITIAL, meta, [Create(ModuleType, 0, Some("1"), Script(7, InitFailed(e)), Accept(), Created(10, map[])),
                        Create(ModuleType, 0, Some("1"), Script(7, LoadOk), Accept(), Created(10, map[]))])
  }

  lemma RetriedIs(meta: Meta, e: Error)
    ensures Retried(meta, e).loader.locMap == map["1" := None]
  {
    var reply := Created(10, map[]);
    var op0 := Create(ModuleType, 0, Some("1"), Script(7, InitFailed(e)), Accept(), reply);
    var op1 := Create(ModuleType, 0, Some("1"), Script(7, LoadOk), Accept(), reply);
    RunTwo(INITIAL, meta, op0, op1);
    var s1 := Step(INITIAL, meta, op0);
    LookupFails(INITIAL, "1", op0.script, Accept(), reply);
    LookupFails(s1, "1", op1.script, Accept(), reply);
  }

  /** A log setting then fails on the null adapter, although every library would accept it. */
  lemma NullAdapterStopsSetLog(meta: Meta, e: Error, api: Api, setting: LogSetting)
    ensures var s := Retried(meta, e);
            && (forall a :: a in [None] <==> Listed(s.loader, a))
            && SetLogStep(s, api, setting, Success, [None], Accept()).0 == NullPointer
  {
    var s := Retried(meta, e);
    RetriedIs(meta, e);
    assert s.loader.locMap["1"] == None;
    SetLogReturns(s, api, setting, [None], Accept());
  }
}
