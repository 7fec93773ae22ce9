/** What every run of the multiplexer keeps: the three id tables agree whatever the libraries
    answer, and under the library contract they also agree with the objects in the libraries. */
module MuxInvariants {
  import opened Options
  import opened MuxTypes
  import opened Translation
  import opened MuxSpec

  // ---- with no assumption about the libraries -------------------------------------

  /** Keys of `m_objects`, keys of `m_map` and set bits of the allocator are one set of ids in
      1 .. 255, and each object is filed under its own id with its own target. */
  ghost predicate TablesAgree(s: Mux) {
    && s.objects.Keys == s.pa.table.Keys
    && s.pa.table.Keys == s.pa.used
    && (forall id :: id in s.pa.used ==> IsId(id))
    && (forall id {:trigger Filed(s, id)} :: id in s.objects ==> Filed(s, id))
  }

  ghost predicate Filed(s: Mux, id: Oid) {
    && id in s.objects && id in s.pa.table
    && s.objects[id].oid == id && s.objects[id].objectType != NullType
    && s.pa.table[id] == Target(s.objects[id].realId, s.objects[id].adapter)
  }

  lemma FiledFrame(s: Mux, s': Mux)
    requires TablesAgree(s)
    requires s'.objects == s.objects && s'.pa.table == s.pa.table && s'.pa.used == s.pa.used
    ensures TablesAgree(s')
  {
    forall id | id in s'.objects ensures Filed(s', id) { assert Filed(s, id); }
  }

  lemma InstallTablesAgree(s: Mux, a: AdapterId, t: ObjectType, parent: Oid, realParent: Oid, reply: CreateReply)
    requires TablesAgree(s) && t != NullType
    ensures TablesAgree(Install(s, a, t, parent, realParent, reply).2)
    ensures reply.Created? ==> Install(s, a, t, parent, realParent, reply).0 in {Success, Failure}
  {
    var r := Install(s, a, t, parent, realParent, reply);
    if reply.Created? && NextId(s.pa.used) != NULL_OID {
      assert r.2.pa.table.Keys == s.pa.table.Keys + {NextId(s.pa.used)};
      assert r.2.objects.Keys == s.objects.Keys + {NextId(s.pa.used)};
      forall id | id in r.2.objects ensures Filed(r.2, id) {
        assert id in s.objects ==> Filed(s, id);
      }
    } else {
      FiledFrame(s, r.2);
    }
  }

  lemma StepTablesAgree(s: Mux, meta: Meta, op: Op)
    requires TablesAgree(s)
    ensures TablesAgree(Step(s, meta, op))
  {
    var s' := Step(s, meta, op);
    if s'.objects == s.objects && s'.pa.table == s.pa.table && s'.pa.used == s.pa.used { FiledFrame(s, s'); }
    match op
    case Create(t, m, loc, script, logs, reply) =>
      if t == ModuleType {
        if loc.Some? {
          var lk := LookupAdapter(s.loader, s.libs, loc.value, script);
          if lk.thrown == Success && lk.adapter.Some? {
            var (st, libs) := ReplayLogs(lk.libs, lk.adapter.value, s.logSetting, logs);
            FiledFrame(s, s.(loader := lk.loader, libs := libs));
            InstallTablesAgree(s.(loader := lk.loader, libs := libs), lk.adapter.value, ModuleType,
                                NULL_OID, NULL_OID, reply);
          }
        }
      } else if t != NullType && m in s.objects {
        InstallTablesAgree(s, s.objects[m].adapter, t, m, s.objects[m].realId, reply);
      }
    case Remove(id, reply) =>
      if id in s.objects && reply.Removed? {
        assert Filed(s, id);
        assert s'.objects.Keys == s.objects.Keys - {id};
        assert s'.pa.table.Keys == s.pa.table.Keys - {id};
        forall k | k in s'.objects ensures Filed(s', k) { assert Filed(s, k); }
      }
    case _ =>
  }

  /** After every run of calls, failed ones and dishonest libraries included, the tables agree. */
  lemma {:induction false} RunTablesAgree(s: Mux, meta: Meta, ops: seq<Op>)
    requires TablesAgree(s)
    ensures TablesAgree(Run(s, meta, ops))
    decreases ops
  {
    if ops != [] {
      StepTablesAgree(s, meta, ops[0]);
      RunTablesAgree(Step(s, meta, ops[0]), meta, ops[1..]);
    }
  }

  /** So the ITEM_ALREADY_EXISTS exit of `create` is dead, the null id is never issued, and an
      accepted creation fails exactly when all 255 ids are taken. */
  lemma CreateOutcome(s: Mux, a: AdapterId, t: ObjectType, parent: Oid, realParent: Oid, r: Oid,
                      attrs: map<AttrId, Value>)
    requires TablesAgree(s) && t != NullType
    ensures var (st, id, s') := Install(s, a, t, parent, realParent, Created(r, attrs));
            if |s.objects| < MAX_OBJECT - 1
            then st == Success && IsId(id) && id !in s.objects && s'.objects.Keys == s.objects.Keys + {id}
                 && (forall j: nat :: IsId(j) && j < id ==> j in s.objects)
            else st == Failure && s'.objects == s.objects && s'.pa == s.pa
  {
    assert |s.objects| == |s.pa.used|;
    UsedCount(s.pa.used);
    assert forall j: nat :: IsId(j) && j !in s.pa.used ==> j in Free(s.pa.used);
  }

  /** 255 ids can be in use at once, and `next` throws exactly when they are. */
  lemma UsedCount(used: set<nat>)
    requires forall id :: id in used ==> IsId(id)
    ensures |used| <= MAX_OBJECT - 1
    ensures NextId(used) == NULL_OID <==> |used| == MAX_OBJECT - 1
  {
    var ids := set i: nat | i < MAX_OBJECT && IsId(i);
    IdCount(MAX_OBJECT);
    assert Free(used) == ids - used && used <= ids;
    assert |ids - used| == |ids| - |used|;
    assert NextId(used) == NULL_OID <==> Free(used) == {};
  }

  lemma {:induction false} IdCount(n: nat)
    requires 1 <= n <= MAX_OBJECT
    ensures |set i: nat | i < n && IsId(i)| == n - 1
  {
    if n == 1 {
      assert (set i: nat | i < n && IsId(i)) == {};
    } else {
      IdCount(n - 1);
      assert IsId(n - 1);
      assert (set i: nat | i < n && IsId(i)) == (set i: nat | i < n - 1 && IsId(i)) + {n - 1};
    }
  }

  // ---- the contract with the vendor libraries ----------------------------------------

  /** A new object's id is not live in its library, and no attribute starts out holding the
      multiplexer's callback: the library has not been given it for this object. */
  ghost predicate HonestCreate(lib: Lib, reply: CreateReply) {
    reply.Created? ==>
      reply.realId !in lib.live
      && forall x :: x in reply.attrs ==> !HoldsMux(reply.attrs[x])
  }

  predicate HoldsMux(v: Value) {
    v.NotificationV? && v.handler.notify == MuxCallback
  }

  predicate IsInterface(t: ObjectType) {
    t == NetIfType || t == HostIfType
  }

  /** A library refuses to remove a module that still has interfaces. */
  ghost predicate HonestRemove(lib: Lib, o: MuxObject, reply: RemoveReply) {
    reply.Removed? && o.objectType == ModuleType ==>
      forall c :: c in lib.live && IsInterface(lib.live[c].objectType) ==> lib.live[c].parent != o.realId
  }

  /** The host never holds the multiplexer's callback, and new contexts go to unused addresses. */
  ghost predicate HonestSet(attrs: seq<Attr>, alloc: Allocate) {
    && (forall i :: 0 <= i < |attrs| ==> !HoldsMux(attrs[i].value))
    && (forall used: set<nat> :: alloc(used) !in used)
  }

  ghost predicate Honest(s: Mux, op: Op) {
    match op
    case Create(t, parent, loc, script, _, reply) =>
      if t == ModuleType then
        loc.Some? ==>
          var lk := LookupAdapter(s.loader, s.libs, loc.value, script);
          lk.adapter.Some? ==> HonestCreate(LibAt(lk.libs, lk.adapter.value), reply)
      else parent in s.objects ==> HonestCreate(LibAt(s.libs, s.objects[parent].adapter), reply)
    case Remove(id, reply) =>
      id in s.objects ==> HonestRemove(LibAt(s.libs, s.objects[id].adapter), s.objects[id], reply)
    case SetAttrs(_, attrs, alloc, _) => HonestSet(attrs, alloc)
    case _ => true
  }

  ghost predicate HonestRun(s: Mux, meta: Meta, ops: seq<Op>)
    decreases ops
  {
    ops == [] || (Honest(s, ops[0]) && HonestRun(Step(s, meta, ops[0]), meta, ops[1..]))
  }

  // ---- invariant under the contract ---------------------------------------------------

  ghost predicate LoaderOk(s: Mux) {
    && (forall h :: h in s.loader.libMap && s.loader.libMap[h].Some? ==> s.loader.libMap[h].value < |s.libs|)
    && (forall l :: l in s.loader.locMap && s.loader.locMap[l].Some? ==> s.loader.locMap[l].value < |s.libs|)
    && s.loader.libMap.Keys <= s.loader.resident
  }

  ghost predicate ParentOk(s: Mux, o: MuxObject) {
    IsInterface(o.objectType) ==>
      o.parent in s.objects && s.objects[o.parent].objectType == ModuleType
      && s.objects[o.parent].adapter == o.adapter
  }

  /** The real object exists in the library, with the same type and under the same module. */
  ghost predicate LiveAt(s: Mux, o: MuxObject) {
    && o.adapter < |s.libs|
    && o.realId in s.libs[o.adapter].live
    && s.libs[o.adapter].live[o.realId].objectType == o.objectType
    && (IsInterface(o.objectType) && o.parent in s.objects ==>
          s.libs[o.adapter].live[o.realId].parent == s.objects[o.parent].realId)
  }

  ghost predicate Linked(s: Mux) {
    && TablesAgree(s)
    && LoaderOk(s)
    && Injective(s.pa.table)
    && forall id {:trigger Placed(s, id)} :: id in s.objects ==> Placed(s, id)
  }

  ghost predicate Placed(s: Mux, id: Oid) {
    id in s.objects && ParentOk(s, s.objects[id]) && LiveAt(s, s.objects[id])
  }

  /** Every live object of `libs` is still live in `libs'`, with its type and parent. */
  ghost predicate KeepsObjects(libs: seq<Lib>, libs': seq<Lib>) {
    |libs| <= |libs'| && forall a: AdapterId, r {:trigger Keeps(libs, libs', a, r)} :: Keeps(libs, libs', a, r)
  }

  ghost predicate Keeps(libs: seq<Lib>, libs': seq<Lib>, a: AdapterId, r: Oid) {
    a < |libs| && a < |libs'| && r in libs[a].live ==>
      && r in libs'[a].live
      && libs'[a].live[r].objectType == libs[a].live[r].objectType
      && libs'[a].live[r].parent == libs[a].live[r].parent
  }

  lemma {:induction false} ReplayKeeps(libs: seq<Lib>, a: AdapterId, settings: map<Api, LogSetting>,
                                       replies: LogReplies)
    ensures var libs' := ReplayLogs(libs, a, settings, replies).1;
            && KeepsObjects(libs, libs') && |libs'| == |libs|
            && forall i :: 0 <= i < |libs| ==> libs'[i].live == libs[i].live
    decreases settings.Keys
  {
    if settings != map[] {
      assert settings.Keys != {};
      var k := Least(settings.Keys);
      if replies(a, k) == Success {
        assert KeepsObjects(libs, LibLog(libs, a, k, settings[k]));
        ReplayKeeps(LibLog(libs, a, k, settings[k]), a, settings - {k}, replies);
        KeepsTransitive(libs, LibLog(libs, a, k, settings[k]), ReplayLogs(libs, a, settings, replies).1);
      }
    }
  }

  lemma {:induction false} BroadcastKeeps(libs: seq<Lib>, order: seq<Option<AdapterId>>, api: Api, setting: LogSetting,
                                          replies: LogReplies)
    ensures var libs' := BroadcastLog(libs, order, api, setting, replies).1;
            && KeepsObjects(libs, libs') && |libs'| == |libs|
            && forall i :: 0 <= i < |libs| ==> libs'[i].live == libs[i].live
    decreases order
  {
    if order != [] && order[0].Some? && replies(order[0].value, api) == Success {
      BroadcastKeeps(LibLog(libs, order[0].value, api, setting), order[1..], api, setting, replies);
      KeepsTransitive(libs, LibLog(libs, order[0].value, api, setting),
          BroadcastLog(libs, order, api, setting, replies).1);
    }
  }

  lemma KeepsTransitive(l: seq<Lib>, l': seq<Lib>, l'': seq<Lib>)
    requires KeepsObjects(l, l') && KeepsObjects(l', l'')
    ensures KeepsObjects(l, l'')
  {
    forall a: AdapterId, r ensures Keeps(l, l'', a, r) {
      assert Keeps(l, l', a, r) && Keeps(l', l'', a, r);
    }
  }

  /** A step that leaves the id tables alone and takes nothing out of a library keeps the links. */
  lemma KeepsLinked(s: Mux, s': Mux)
    requires Linked(s) && LoaderOk(s')
    requires s'.objects == s.objects && s'.pa.table == s.pa.table && s'.pa.used == s.pa.used
    requires KeepsObjects(s.libs, s'.libs)
    ensures Linked(s')
  {
    FiledFrame(s, s');
    forall id | id in s'.objects ensures Placed(s', id) {
      assert Placed(s, id);
      assert Keeps(s.libs, s'.libs, s.objects[id].adapter, s.objects[id].realId);
    }
  }

  lemma InstallLinked(s: Mux, a: AdapterId, t: ObjectType, parent: Oid, realParent: Oid, reply: CreateReply)
    requires Linked(s) && a < |s.libs| && t != NullType
    requires IsInterface(t) ==> parent in s.objects && s.objects[parent].objectType == ModuleType
                                && s.objects[parent].adapter == a && s.objects[parent].realId == realParent
    requires HonestCreate(s.libs[a], reply)
    ensures Linked(Install(s, a, t, parent, realParent, reply).2)
  {
    if reply.Created? {
      var r := reply.realId;
      var s1 := s.(libs := LibCreate(s.libs, a, r, LibObject(t, realParent, reply.attrs)));
      KeepsLinked(s, s1);
      var id := NextId(s.pa.used);
      if id != NULL_OID {
        var o := MuxObject(id, r, a, t, parent);
        forall k | k in s1.objects ensures s1.pa.table[k] != Target(r, a) {
          assert Placed(s, k) && Filed(s, k);
        }
        AddLinked(s1, o);
      }
    }
  }

  ghost function Add(s: Mux, o: MuxObject): Mux {
    s.(pa := Adapters(s.pa.used + {o.oid}, s.pa.table[o.oid := Target(o.realId, o.adapter)], s.pa.notifs),
       objects := s.objects[o.oid := o])
  }

  lemma AddTablesAgree(s: Mux, o: MuxObject)
    requires TablesAgree(s) && IsId(o.oid) && o.oid !in s.objects && o.objectType != NullType
    ensures TablesAgree(Add(s, o))
  {
    var s' := Add(s, o);
    assert s'.pa.table.Keys == s.pa.table.Keys + {o.oid};
    assert s'.objects.Keys == s.objects.Keys + {o.oid};
    forall id | id in s'.objects ensures Filed(s', id) {
      assert id in s.objects ==> Filed(s, id);
    }
  }

  lemma AddLinked(s: Mux, o: MuxObject)
    requires Linked(s) && IsId(o.oid) && o.oid !in s.objects && o.objectType != NullType
    requires ParentOk(s, o) && LiveAt(s, o)
    requires forall k :: k in s.objects ==> s.pa.table[k] != Target(o.realId, o.adapter)
    ensures Linked(Add(s, o))
  {
    var s' := Add(s, o);
    AddTablesAgree(s, o);
    forall id | id in s'.objects ensures Placed(s', id) {
      if id in s.objects { assert Placed(s, id); }
    }
    InjectiveAdd(s.pa.table, o.oid, Target(o.realId, o.adapter));
  }

  lemma InjectiveAdd(table: Table, id: Oid, t: Target)
    requires Injective(table) && id !in table && forall k :: k in table ==> table[k] != t
    ensures Injective(table[id := t])
  {
  }

  lemma LookupLinked(s: Mux, location: string, script: ScriptReply)
    requires Linked(s)
    ensures var lk := LookupAdapter(s.loader, s.libs, location, script);
            && Linked(s.(loader := lk.loader, libs := lk.libs))
            && (lk.adapter.Some? ==> lk.adapter.value < |lk.libs|)
            && |s.libs| <= |lk.libs| && lk.libs[..|s.libs|] == s.libs
  {
    var lk := LookupAdapter(s.loader, s.libs, location, script);
    KeepsLinked(s, s.(loader := lk.loader, libs := lk.libs));
  }

  lemma ReplayLinked(s: Mux, a: AdapterId, logs: LogReplies)
    requires Linked(s) && a < |s.libs|
    ensures var libs := ReplayLogs(s.libs, a, s.logSetting, logs).1;
            && Linked(s.(libs := libs)) && |libs| == |s.libs|
            && forall i :: 0 <= i < |libs| ==> libs[i].live == s.libs[i].live
  {
    ReplayKeeps(s.libs, a, s.logSetting, logs);
    KeepsLinked(s, s.(libs := ReplayLogs(s.libs, a, s.logSetting, logs).1));
  }

  lemma CreateLinked(s: Mux, meta: Meta, op: Op)
    requires Linked(s) && op.Create? && Honest(s, op)
    ensures Linked(Step(s, meta, op))
  {
    var Create(t, parent, loc, script, logs, reply) := op;
    if t == ModuleType {
      if loc.Some? {
        var lk := LookupAdapter(s.loader, s.libs, loc.value, script);
        LookupLinked(s, loc.value, script);
        if lk.thrown == Success && lk.adapter.Some? {
          var s1 := s.(loader := lk.loader, libs := lk.libs);
          ReplayLinked(s1, lk.adapter.value, logs);
          var libs := ReplayLogs(lk.libs, lk.adapter.value, s.logSetting, logs).1;
          assert NULL_OID !in s.objects;
          InstallLinked(s1.(libs := libs), lk.adapter.value, ModuleType, NULL_OID, NULL_OID, reply);
        }
      }
    } else if t != NullType && parent in s.objects && s.objects[parent].objectType == ModuleType {
      assert Placed(s, parent) && Filed(s, parent);
      InstallLinked(s, s.objects[parent].adapter, t, parent, s.objects[parent].realId, reply);
    }
  }

  lemma RemoveLinked(s: Mux, id: Oid, reply: RemoveReply)
    requires Linked(s)
    requires id in s.objects ==> HonestRemove(LibAt(s.libs, s.objects[id].adapter), s.objects[id], reply)
    ensures Linked(RemoveStep(s, id, reply).1)
  {
    var s' := RemoveStep(s, id, reply).1;
    StepTablesAgree(s, (a, r, x) => None, Remove(id, reply));
    if id in s.objects && reply.Removed? {
      var o := s.objects[id];
      assert Placed(s, id) && Filed(s, id);
      forall k | k in s'.objects ensures Placed(s', k) {
        assert Placed(s, k) && Filed(s, k);
        if IsInterface(s.objects[k].objectType) { assert Filed(s, s.objects[k].parent); }
        assert s.pa.table[k] != s.pa.table[id];
      }
    }
  }

  lemma StoreKeeps(libs: seq<Lib>, t: Target, inputs: seq<Attr>, stored: set<nat>)
    ensures KeepsObjects(libs, LibStore(libs, t, inputs, stored))
    ensures |LibStore(libs, t, inputs, stored)| == |libs|
  {
  }

  /** An attribute call changes contexts and stored attributes only. */
  lemma SetFrame(s: Mux, meta: Meta, t: ObjectType, id: Oid, attrs: seq<Attr>, alloc: Allocate, reply: SetReply)
    ensures var s' := SetStep(s, meta, t, id, attrs, alloc, reply).1;
            && s' == s.(pa := s.pa.(notifs := s'.pa.notifs), libs := s'.libs)
            && KeepsObjects(s.libs, s'.libs) && |s'.libs| == |s.libs|
  {
    if id in s.pa.table {
      var q := ConvertRequest(s.pa.table, s.pa.notifs, meta, alloc, t, id, attrs);
      StoreKeeps(s.libs, s.pa.table[id], q.inputs, UpTo(|q.inputs|));
      if reply.Rejected? { StoreKeeps(s.libs, s.pa.table[id], q.inputs, reply.stored); }
    }
  }

  lemma SetLinked(s: Mux, meta: Meta, id: Oid, attrs: seq<Attr>, alloc: Allocate, reply: SetReply)
    requires Linked(s)
    ensures Linked(Step(s, meta, SetAttrs(id, attrs, alloc, reply)))
  {
    if id in s.objects {
      SetFrame(s, meta, s.objects[id].objectType, id, attrs, alloc, reply);
      KeepsLinked(s, SetStep(s, meta, s.objects[id].objectType, id, attrs, alloc, reply).1);
    }
  }

  lemma StepLinked(s: Mux, meta: Meta, op: Op)
    requires Linked(s) && Honest(s, op)
    ensures Linked(Step(s, meta, op))
  {
    match op
    case Create(_, _, _, _, _, _) => CreateLinked(s, meta, op);
    case Remove(id, reply) => RemoveLinked(s, id, reply);
    case SetAttrs(id, attrs, alloc, reply) => SetLinked(s, meta, id, attrs, alloc, reply);
    case GetAttrs(_) =>
    case SetLog(api, setting, logger, order, logs) =>
      BroadcastKeeps(s.libs, order, api, setting, logs);
      KeepsLinked(s, Step(s, meta, op));
  }

  /** With honest libraries, in every reachable state every mapped pair is live at its adapter,
      no pair has two ids, and every interface hangs on a live module of its own adapter. */
  lemma {:induction false} RunLinked(s: Mux, meta: Meta, ops: seq<Op>)
    requires Linked(s) && HonestRun(s, meta, ops)
    ensures Linked(Run(s, meta, ops))
    decreases ops
  {
    if ops != [] {
      StepLinked(s, meta, ops[0]);
      RunLinked(Step(s, meta, ops[0]), meta, ops[1..]);
    }
  }

  /** `get_mapping` and `get_reverse_mapping` are inverse to each other between the live muxed ids
      and the pairs they stand for. */
  lemma LookupsAreInverse(s: Mux, id: Oid, t: Target)
    requires Linked(s)
    ensures id in s.objects ==>
              Reverse(s.pa.table, Target(s.objects[id].realId, s.objects[id].adapter)) == id
    ensures var r := Reverse(s.pa.table, t);
            if exists o :: o in s.objects && Target(s.objects[o].realId, s.objects[o].adapter) == t
            then r in s.objects && Target(s.objects[r].realId, s.objects[r].adapter) == t
            else r == NULL_OID
  {
    if id in s.objects {
      assert Filed(s, id);
      ReverseOfTarget(s.pa.table, id);
    }
    var r := Reverse(s.pa.table, t);
    if o :| o in s.objects && Target(s.objects[o].realId, s.objects[o].adapter) == t {
      assert Filed(s, o);
      assert o in Sources(s.pa.table, t);
      assert Filed(s, r);
    } else {
      forall k | k in s.objects ensures k !in Sources(s.pa.table, t) { assert Filed(s, k); }
      assert Sources(s.pa.table, t) == {};
    }
  }

  /** `get_object_type` answers, for every mapped id, the type the library itself has for the real
      object; it answers the null type exactly for ids that are not mapped. */
  lemma ObjectTypeIsLibrarys(s: Mux, id: Oid)
    requires Linked(s)
    ensures ObjectTypeOf(s, id) == NullType <==> id !in s.pa.table
    ensures id in s.pa.table ==>
              var t := s.pa.table[id];
              && t.adapter < |s.libs| && t.realId in s.libs[t.adapter].live
              && ObjectTypeOf(s, id) == s.libs[t.adapter].live[t.realId].objectType
  {
    if id in s.objects { assert Filed(s, id) && Placed(s, id); }
  }

  /** `get_module_id` answers, for every live object, a live module of the same adapter: itself for
      a module, its parent, under which the library has it too, for an interface. */
  lemma ModuleIdIsLiveModule(s: Mux, id: Oid)
    requires Linked(s)
    ensures var m := ModuleIdOf(s, id);
            if id in s.objects
            then
              var o := s.objects[id];
              && m in s.objects && s.objects[m].objectType == ModuleType && s.objects[m].adapter == o.adapter
              && o.adapter < |s.libs| && o.realId in s.libs[o.adapter].live
              && (if o.objectType == ModuleType then m == id
                  else s.libs[o.adapter].live[o.realId].parent == s.objects[m].realId)
            else m == NULL_OID
  {
    if id in s.objects { assert Filed(s, id) && Placed(s, id); }
  }
}
