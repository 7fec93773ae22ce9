/** The multiplexer is transparent: what the host sets through it is what the host reads back. */
module MuxTransparency {
  import opened Options
  import opened MuxTypes
  import opened Translation
  import opened MuxSpec
  import opened MuxInvariants
  import opened MuxNotifications

  /** Linked state with well-formed contexts: kept by every honest call, clean or not. */
  ghost predicate Sound(s: Mux) {
    Linked(s) && ContextsOk(s.pa.notifs)
  }

  lemma StepSound(s: Mux, meta: Meta, op: Op)
    requires Sound(s) && Honest(s, op)
    ensures Sound(Step(s, meta, op))
  {
    StepLinked(s, meta, op);
    StepContexts(s, meta, op);
  }

  lemma StepContexts(s: Mux, meta: Meta, op: Op)
    requires ContextsOk(s.pa.notifs) && Honest(s, op)
    ensures ContextsOk(Step(s, meta, op).pa.notifs)
  {
    if op.SetAttrs? && op.id in s.objects && op.id in s.pa.table {
      ConvertRequestOk(s.pa.table, s.pa.notifs, meta, op.alloc, s.objects[op.id].objectType, op.id, op.attrs);
    }
  }

  /** So every state the host can reach with honest libraries is sound. */
  lemma {:induction false} RunSound(s: Mux, meta: Meta, ops: seq<Op>)
    requires Sound(s) && HonestRun(s, meta, ops)
    ensures Sound(Run(s, meta, ops))
    decreases ops
  {
    if ops != [] {
      StepSound(s, meta, ops[0]);
      RunSound(Step(s, meta, ops[0]), meta, ops[1..]);
    }
  }

  // ---- what a step leaves alone -----------------------------------------------------

  predicate Removes(op: Op, id: Oid) {
    op.Remove? && op.id == id
  }

  /** Any attempt to set the attribute counts: a rejected one may have stored it, and replaces the
      handler kept for it. */
  ghost predicate Overwrites(op: Op, id: Oid, x: AttrId) {
    op.SetAttrs? && op.id == id && Mentions(op.attrs, x)
  }

  lemma InstallFrame(s: Mux, a: AdapterId, t: ObjectType, parent: Oid, realParent: Oid, reply: CreateReply, id: Oid)
    requires Linked(s) && a < |s.libs| && HonestCreate(s.libs[a], reply) && id in s.pa.table
    ensures var s' := Install(s, a, t, parent, realParent, reply).2;
            && id in s'.pa.table && s'.pa.table[id] == s.pa.table[id] && s'.pa.notifs == s.pa.notifs
            && StoredAttrs(s'.libs, s.pa.table[id]) == StoredAttrs(s.libs, s.pa.table[id])
  {
    assert Filed(s, id) && Placed(s, id);
    assert NextId(s.pa.used) != id;
  }

  lemma CreateFrame(s: Mux, meta: Meta, op: Op, id: Oid)
    requires Linked(s) && op.Create? && Honest(s, op) && id in s.pa.table
    ensures var s' := Step(s, meta, op);
            && id in s'.pa.table && s'.pa.table[id] == s.pa.table[id] && s'.pa.notifs == s.pa.notifs
            && StoredAttrs(s'.libs, s.pa.table[id]) == StoredAttrs(s.libs, s.pa.table[id])
  {
    var Create(t, parent, loc, script, logs, reply) := op;
    assert Filed(s, id) && Placed(s, id);
    if t == ModuleType {
      if loc.Some? {
        var lk := LookupAdapter(s.loader, s.libs, loc.value, script);
        LookupLinked(s, loc.value, script);
        assert lk.libs[..|s.libs|][s.pa.table[id].adapter] == s.libs[s.pa.table[id].adapter];
        if lk.thrown == Success && lk.adapter.Some? {
          var (s1, a) := (s.(loader := lk.loader, libs := lk.libs), lk.adapter.value);
          ReplayLinked(s1, a, logs);
          var libs := ReplayLogs(lk.libs, a, s.logSetting, logs).1;
          InstallFrame(s1.(libs := libs), a, ModuleType, NULL_OID, NULL_OID, reply, id);
        }
      }
    } else if t != NullType && parent in s.objects && s.objects[parent].objectType == ModuleType {
      assert Placed(s, parent) && Filed(s, parent);
      InstallFrame(s, s.objects[parent].adapter, t, parent, s.objects[parent].realId, reply, id);
    }
  }

  lemma RemoveFrame(s: Mux, id: Oid, reply: RemoveReply, k: Oid)
    requires Linked(s) && k in s.pa.table && k != id
    ensures var s' := RemoveStep(s, id, reply).1;
            && k in s'.pa.table && s'.pa.table[k] == s.pa.table[k] && s'.pa.notifs == s.pa.notifs
            && StoredAttrs(s'.libs, s.pa.table[k]) == StoredAttrs(s.libs, s.pa.table[k])
  {
    assert Filed(s, k) && Placed(s, k);
    if id in s.objects {
      assert Filed(s, id) && Placed(s, id);
      assert s.pa.table[k] != s.pa.table[id];
    }
  }

  ghost predicate SameAt<K(!new), V(!new)>(m: map<K, V>, m': map<K, V>, k: K) {
    (k in m <==> k in m') && (k in m ==> m[k] == m'[k])
  }

  lemma SetAttrFrame(s: Mux, meta: Meta, op: Op, id: Oid, x: AttrId)
    requires Sound(s) && op.SetAttrs? && Honest(s, op) && id in s.pa.table && !Overwrites(op, id, x)
    ensures var s' := Step(s, meta, op);
            && s'.pa.table == s.pa.table
            && SameAt(s.pa.notifs, s'.pa.notifs, Key(id, x))
            && SameAt(StoredAttrs(s.libs, s.pa.table[id]), StoredAttrs(s'.libs, s.pa.table[id]), x)
  {
    var SetAttrs(k, attrs, alloc, reply) := op;
    if k in s.objects {
      var t := s.objects[k].objectType;
      var q := ConvertRequest(s.pa.table, s.pa.notifs, meta, alloc, t, k, attrs);
      ConvertRequestOk(s.pa.table, s.pa.notifs, meta, alloc, t, k, attrs);
      assert Filed(s, k) && Placed(s, k);
      if q.status == Success {
        var stored := if reply.Accepted? then UpTo(|q.inputs|) else reply.stored;
        LibStoreAttrs(s.libs, s.pa.table[k], q.inputs, stored, s.pa.table[id]);
        if k == id {
          assert !Nulls(TypeOf(s.pa.table, meta, id, x), attrs, x);
          SameMentions(attrs, q.inputs, x);
          StoreElsewhere(StoredAttrs(s.libs, s.pa.table[id]), q.inputs, stored, x);
        }
      }
    }
  }

  lemma {:induction false} StoreElsewhere(had: map<AttrId, Value>, inputs: seq<Attr>, stored: set<nat>, x: AttrId)
    requires !Mentions(inputs, x)
    ensures SameAt(had, Store(had, inputs, stored), x)
  {
    if inputs != [] {
      var n := |inputs| - 1;
      assert inputs[n].id != x;
      forall i | 0 <= i < n ensures inputs[..n][i].id != x { assert inputs[i].id != x; }
      StoreElsewhere(had, inputs[..n], stored, x);
    }
  }

  // ---- the value in the library --------------------------------------------------------

  /** The library holds, for attribute `x` of the object behind `id`, the host's value `v` in
      translation, and all that translating it back will need. */
  ghost predicate Carries(s: Mux, meta: Meta, id: Oid, x: AttrId, v: Value) {
    && id in s.pa.table
    && TypeOf(s.pa.table, meta, id, x).Some?
    && x in StoredAttrs(s.libs, s.pa.table[id])
    && var t := TypeOf(s.pa.table, meta, id, x).value;
       var w := StoredAttrs(s.libs, s.pa.table[id])[x];
       if t == NotificationType && v.NotificationV? then CarriesHandler(s.pa.notifs, Key(id, x), v.handler, w)
       else
         var f := Translator(s.pa.table, s.pa.table[id].adapter, false);
         Owned(s.pa.table, s.pa.table[id].adapter, Ids(t, v)) && ValueOk(f, t, v) && w == ConvertValue(f, t, v)
  }

  ghost predicate CarriesHandler(n: Notifs, k: Key, h: Handler, w: Value) {
    if h.notify == NoNotify then k !in n && w == NotificationV(h)
    else k in n && n[k].host == h && w == NotificationV(Handler(n[k].addr, MuxCallback))
  }

  /** The ids the value mentions, as its type is read. */
  ghost function Mentioned(s: Mux, meta: Meta, id: Oid, x: AttrId, v: Value): seq<Oid> {
    if id in s.pa.table && TypeOf(s.pa.table, meta, id, x).Some?
    then Ids(TypeOf(s.pa.table, meta, id, x).value, v) else []
  }

  ghost predicate LeavesAlone(s: Mux, meta: Meta, op: Op, id: Oid, x: AttrId, v: Value) {
    && !Removes(op, id) && !Overwrites(op, id, x)
    && forall o :: o in Mentioned(s, meta, id, x, v) ==> !Removes(op, o)
  }

  /** What a step does to one table entry and one attribute. */
  lemma StepFrame(s: Mux, meta: Meta, op: Op, id: Oid, x: AttrId)
    requires Sound(s) && Honest(s, op) && id in s.pa.table
    requires !Removes(op, id) && !Overwrites(op, id, x)
    ensures var s' := Step(s, meta, op);
            && SameAt(s.pa.table, s'.pa.table, id) && id in s'.pa.table
            && SameAt(s.pa.notifs, s'.pa.notifs, Key(id, x))
            && SameAt(StoredAttrs(s.libs, s.pa.table[id]), StoredAttrs(s'.libs, s.pa.table[id]), x)
  {
    match op
    case Create(_, _, _, _, _, _) => CreateFrame(s, meta, op, id);
    case Remove(k, reply) => RemoveFrame(s, k, reply, id);
    case SetAttrs(_, _, _, _) => SetAttrFrame(s, meta, op, id, x);
    case GetAttrs(_) =>
    case SetLog(api, setting, logger, order, logs) =>
      BroadcastKeeps(s.libs, order, api, setting, logs);
      assert Filed(s, id) && Placed(s, id);
  }

  lemma StepTable(s: Mux, meta: Meta, op: Op, o: Oid)
    requires Sound(s) && Honest(s, op) && o in s.pa.table && !Removes(op, o)
    ensures o in Step(s, meta, op).pa.table && Step(s, meta, op).pa.table[o] == s.pa.table[o]
  {
    match op
    case Create(_, _, _, _, _, _) => CreateFrame(s, meta, op, o);
    case Remove(k, reply) => RemoveFrame(s, k, reply, o);
    case SetAttrs(id, attrs, alloc, reply) =>
      if id in s.objects { SetFrame(s, meta, s.objects[id].objectType, id, attrs, alloc, reply); }
    case _ =>
  }

  lemma StepCarries(s: Mux, meta: Meta, op: Op, id: Oid, x: AttrId, v: Value)
    requires Sound(s) && Honest(s, op) && Carries(s, meta, id, x, v) && LeavesAlone(s, meta, op, id, x, v)
    ensures Carries(Step(s, meta, op), meta, id, x, v) && Step(s, meta, op).pa.table[id] == s.pa.table[id]
    ensures Mentioned(Step(s, meta, op), meta, id, x, v) == Mentioned(s, meta, id, x, v)
  {
    var s' := Step(s, meta, op);
    StepFrame(s, meta, op, id, x);
    var t := TypeOf(s.pa.table, meta, id, x).value;
    if !(t == NotificationType && v.NotificationV?) {
      var f := Translator(s.pa.table, s.pa.table[id].adapter, false);
      var f' := Translator(s'.pa.table, s.pa.table[id].adapter, false);
      forall o | o in Ids(t, v) ensures o in s'.pa.table && s'.pa.table[o] == s.pa.table[o] {
        assert !Removes(op, o);
        StepTable(s, meta, op, o);
      }
      ValueCongruence(f, f', t, v);
    }
  }

  /** Calls that neither set the attribute nor remove the object or an id in the value. */
  ghost predicate LeftAlone(s: Mux, meta: Meta, ops: seq<Op>, id: Oid, x: AttrId, v: Value) {
    forall i :: 0 <= i < |ops| ==> LeavesAlone(s, meta, ops[i], id, x, v)
  }

  lemma {:induction false} RunCarries(s: Mux, meta: Meta, ops: seq<Op>, id: Oid, x: AttrId, v: Value)
    requires Sound(s) && HonestRun(s, meta, ops) && Carries(s, meta, id, x, v)
    requires LeftAlone(s, meta, ops, id, x, v)
    ensures Sound(Run(s, meta, ops)) && Carries(Run(s, meta, ops), meta, id, x, v)
    ensures Run(s, meta, ops).pa.table[id] == s.pa.table[id]
    decreases ops
  {
    if ops != [] {
      StepSound(s, meta, ops[0]);
      StepCarries(s, meta, ops[0], id, x, v);
      var s' := Step(s, meta, ops[0]);
      forall i | 0 <= i < |ops[1..]| ensures LeavesAlone(s', meta, ops[1..][i], id, x, v) {
        assert LeavesAlone(s, meta, ops[i + 1], id, x, v);
      }
      RunCarries(s', meta, ops[1..], id, x, v);
    }
  }

  // ---- set ---------------------------------------------------------------------------------

  /** What a successful request makes of each entry that is not a handler. */
  ghost predicate Translates(table: Table, t: Option<ValueType>, ad: AdapterId, a: Attr, input: Attr) {
    t.Some? && (!(t.value == NotificationType && a.value.NotificationV?) ==>
      var f := Translator(table, ad, false);
      ValueOk(f, t.value, a.value) && input == Attr(a.id, ConvertValue(f, t.value, a.value)))
  }

  lemma {:induction false} RequestValues(table: Table, n: Notifs, meta: Meta, alloc: Allocate, t: ObjectType, id: Oid,
                                         attrs: seq<Attr>, i: nat)
    requires id in table && i < |attrs|
    requires ConvertRequest(table, n, meta, alloc, t, id, attrs).status == Success
    ensures Translates(table, TypeOf(table, meta, id, attrs[i].id), table[id].adapter, attrs[i],
                       ConvertRequest(table, n, meta, alloc, t, id, attrs).inputs[i])
    decreases attrs
  {
    var m := |attrs| - 1;
    if i < m {
      assert attrs[..m][i] == attrs[i];
      RequestValues(table, n, meta, alloc, t, id, attrs[..m], i);
    }
  }

  /** The context of an attribute left with a handler keeps that handler. */
  lemma {:induction false} RequestHandlers(table: Table, n: Notifs, meta: Meta, alloc: Allocate, t: ObjectType,
                                           id: Oid, attrs: seq<Attr>, x: AttrId)
    requires id in table && Mentions(attrs, x) && LiveHandler(TypeOf(table, meta, id, x), LastValue(attrs, x))
    requires ConvertRequest(table, n, meta, alloc, t, id, attrs).status == Success
    ensures var q := ConvertRequest(table, n, meta, alloc, t, id, attrs);
            && Key(id, x) in q.notifs && q.notifs[Key(id, x)].host == LastValue(attrs, x).handler
            && q.notifs[Key(id, x)].objectType == t
    decreases attrs
  {
    var m := |attrs| - 1;
    var k := LastIndex(attrs, x);
    if k < m {
      assert attrs[..m][k] == attrs[k];
      assert Mentions(attrs[..m], x);
      assert LastIndex(attrs[..m], x) == k;
      RequestHandlers(table, n, meta, alloc, t, id, attrs[..m], x);
    }
  }

  /** After a successful `set` the library carries the last value given for each attribute whose
      ids are of the object's adapter (and that is not both nulled and handled in one request). */
  lemma SetCarries(s: Mux, meta: Meta, t: ObjectType, id: Oid, attrs: seq<Attr>, alloc: Allocate, x: AttrId)
    requires Sound(s) && HonestSet(attrs, alloc) && id in s.pa.table && Mentions(attrs, x)
    requires SetStep(s, meta, t, id, attrs, alloc, Accepted).0 == Success
    requires Owned(s.pa.table, s.pa.table[id].adapter, Mentioned(s, meta, id, x, LastValue(attrs, x)))
    requires LiveHandler(TypeOf(s.pa.table, meta, id, x), LastValue(attrs, x)) ==>
              !Nulls(TypeOf(s.pa.table, meta, id, x), attrs, x)
    ensures Carries(SetStep(s, meta, t, id, attrs, alloc, Accepted).1, meta, id, x, LastValue(attrs, x))
  {
    var s' := SetStep(s, meta, t, id, attrs, alloc, Accepted).1;
    var q := ConvertRequest(s.pa.table, s.pa.notifs, meta, alloc, t, id, attrs);
    ConvertRequestOk(s.pa.table, s.pa.notifs, meta, alloc, t, id, attrs);
    assert Filed(s, id) && Placed(s, id);
    LibStoreAttrs(s.libs, s.pa.table[id], q.inputs, UpTo(|q.inputs|), s.pa.table[id]);
    SameMentions(attrs, q.inputs, x);
    StoreLast(StoredAttrs(s.libs, s.pa.table[id]), q.inputs, UpTo(|q.inputs|), x);
    var i := LastIndex(attrs, x);
    var vt := TypeOf(s.pa.table, meta, id, attrs[i].id);
    RequestValues(s.pa.table, s.pa.notifs, meta, alloc, t, id, attrs, i);
    assert InputOk(q.notifs, id, vt, attrs[i], q.inputs[i]);
    assert Translates(s.pa.table, vt, s.pa.table[id].adapter, attrs[i], q.inputs[i]);
    if LiveHandler(vt, attrs[i].value) {
      RequestHandlers(s.pa.table, s.pa.notifs, meta, alloc, t, id, attrs, x);
    }
    if vt == Some(NotificationType) && attrs[i].value.NotificationV? && attrs[i].value.handler.notify == NoNotify {
      assert Nulls(vt, attrs, x);
      NullInput(s.pa.table, s.pa.notifs, meta, alloc, t, id, attrs, i);
    }
  }

  lemma {:induction false} NullInput(table: Table, n: Notifs, meta: Meta, alloc: Allocate, t: ObjectType, id: Oid,
                                     attrs: seq<Attr>, i: nat)
    requires id in table && i < |attrs|
    requires ConvertRequest(table, n, meta, alloc, t, id, attrs).status == Success
    requires NullHandler(TypeOf(table, meta, id, attrs[i].id), attrs[i].value)
    ensures ConvertRequest(table, n, meta, alloc, t, id, attrs).inputs[i] == attrs[i]
    decreases attrs
  {
    var m := |attrs| - 1;
    if i < m {
      assert attrs[..m][i] == attrs[i];
      NullInput(table, n, meta, alloc, t, id, attrs[..m], i);
    }
  }

  // ---- get ---------------------------------------------------------------------------------

  /** The library answers with what it has stored. */
  ghost predicate HonestGet(s: Mux, id: Oid, ids: seq<AttrId>, values: seq<Value>) {
    && |values| == |ids|
    && (id in s.pa.table ==>
          forall i :: 0 <= i < |ids| && ids[i] in StoredAttrs(s.libs, s.pa.table[id]) ==>
            values[i] == StoredAttrs(s.libs, s.pa.table[id])[ids[i]])
  }

  ghost predicate Answers(table: Table, n: Notifs, meta: Meta, id: Oid, a: Attr, shown: Attr) {
    var c := ConvertAttr(table, n, meta, NO_ALLOC, NullType, id, a, true);
    c.status == Success && shown == c.attr
  }

  lemma {:induction false} AnswerValues(table: Table, n: Notifs, meta: Meta, id: Oid, attrs: seq<Attr>)
    ensures var (st, out) := ConvertAnswer(table, n, meta, id, attrs);
            && |out| == |attrs|
            && (st == Success ==> forall i {:trigger out[i]} :: 0 <= i < |attrs| ==>
                 Answers(table, n, meta, id, attrs[i], out[i]))
  {
    if attrs != [] {
      AnswerValues(table, n, meta, id, attrs[1..]);
      var (st, out) := ConvertAnswer(table, n, meta, id, attrs);
      forall i {:trigger out[i]} | st == Success && 0 <= i < |attrs|
        ensures Answers(table, n, meta, id, attrs[i], out[i])
      {
        if i > 0 { assert out[i] == ConvertAnswer(table, n, meta, id, attrs[1..]).1[i - 1]; }
      }
    }
  }

  lemma GetShows(s: Mux, meta: Meta, id: Oid, ids: seq<AttrId>, values: seq<Value>, i: nat, v: Value)
    requires Sound(s) && i < |ids| && HonestGet(s, id, ids, values) && Carries(s, meta, id, ids[i], v)
    requires GetStep(s, meta, id, ids, Got(values)).0 == Success
    ensures |GetStep(s, meta, id, ids, Got(values)).1| == |ids|
    ensures GetStep(s, meta, id, ids, Got(values)).1[i] == Attr(ids[i], v)
  {
    AnswerValues(s.pa.table, s.pa.notifs, meta, id, Answer(ids, values));
    var out := GetStep(s, meta, id, ids, Got(values)).1;
    assert Answers(s.pa.table, s.pa.notifs, meta, id, Answer(ids, values)[i], out[i]);
    var t := TypeOf(s.pa.table, meta, id, ids[i]).value;
    if !(t == NotificationType && v.NotificationV?) {
      ValueRoundTrip(s.pa.table, s.pa.table[id].adapter, t, v);
      assert !HoldsMux(v) || t != NotificationType;
    }
  }

  lemma {:induction false} AnswerSucceeds(table: Table, n: Notifs, meta: Meta, id: Oid, attrs: seq<Attr>)
    requires forall a :: a in attrs ==> ConvertAttr(table, n, meta, NO_ALLOC, NullType, id, a, true).status == Success
    ensures ConvertAnswer(table, n, meta, id, attrs).0 == Success
    decreases attrs
  {
    if attrs != [] { AnswerSucceeds(table, n, meta, id, attrs[1..]); }
  }

  /** A `get` of attributes that are all carried cannot fail in the multiplexer: if the library
      answers, each is translated back. */
  lemma GetSucceeds(s: Mux, meta: Meta, id: Oid, ids: seq<AttrId>, values: seq<Value>, vs: seq<Value>)
    requires Sound(s) && ids != [] && HonestGet(s, id, ids, values) && |vs| == |ids|
    requires forall i :: 0 <= i < |ids| ==> Carries(s, meta, id, ids[i], vs[i])
    ensures GetStep(s, meta, id, ids, Got(values)) == (Success, Answer(ids, vs))
  {
    var ans := Answer(ids, values);
    assert Carries(s, meta, id, ids[0], vs[0]);
    forall a | a in ans
      ensures ConvertAttr(s.pa.table, s.pa.notifs, meta, NO_ALLOC, NullType, id, a, true).status == Success
    {
      var i :| 0 <= i < |ans| && ans[i] == a;
      assert Carries(s, meta, id, ids[i], vs[i]);
      var t := TypeOf(s.pa.table, meta, id, ids[i]).value;
      if !(t == NotificationType && vs[i].NotificationV?) {
        ValueRoundTrip(s.pa.table, s.pa.table[id].adapter, t, vs[i]);
      }
    }
    AnswerSucceeds(s.pa.table, s.pa.notifs, meta, id, ans);
    AnswerValues(s.pa.table, s.pa.notifs, meta, id, ans);
    var out := GetStep(s, meta, id, ids, Got(values)).1;
    forall i | 0 <= i < |ids| ensures out[i] == Answer(ids, vs)[i] {
      GetShows(s, meta, id, ids, values, i, vs[i]);
    }
    assert out == Answer(ids, vs);
  }

  /** MAIN RESULT. A successful `set`, then any calls that neither set the attribute again nor
      remove the object or an object the value names, then a successful `get`: the host reads the
      value it set, be it plain, an id, a list, a nested list or a handler. */
  lemma Transparency(s: Mux, meta: Meta, id: Oid, attrs: seq<Attr>, alloc: Allocate, x: AttrId,
                     ops: seq<Op>, ids: seq<AttrId>, values: seq<Value>, i: nat)
    requires Sound(s) && id in s.objects && HonestSet(attrs, alloc) && Mentions(attrs, x)
    requires SetStep(s, meta, s.objects[id].objectType, id, attrs, alloc, Accepted).0 == Success
    requires forall o :: o in Mentioned(s, meta, id, x, LastValue(attrs, x)) ==>
               o in s.objects && s.objects[o].adapter == s.objects[id].adapter
    requires id in s.pa.table && (LiveHandler(TypeOf(s.pa.table, meta, id, x), LastValue(attrs, x)) ==>
               !Nulls(TypeOf(s.pa.table, meta, id, x), attrs, x))
    requires var s1 := SetStep(s, meta, s.objects[id].objectType, id, attrs, alloc, Accepted).1;
             HonestRun(s1, meta, ops) && LeftAlone(s1, meta, ops, id, x, LastValue(attrs, x))
    requires var s1 := SetStep(s, meta, s.objects[id].objectType, id, attrs, alloc, Accepted).1;
             var s2 := Run(s1, meta, ops);
             HonestGet(s2, id, ids, values) && GetStep(s2, meta, id, ids, Got(values)).0 == Success
    requires i < |ids| && ids[i] == x
    ensures var s1 := SetStep(s, meta, s.objects[id].objectType, id, attrs, alloc, Accepted).1;
            var s2 := Run(s1, meta, ops);
            var out := GetStep(s2, meta, id, ids, Got(values)).1;
            i < |out| && out[i] == Attr(x, LastValue(attrs, x))
  {
    var v := LastValue(attrs, x);
    var op := SetAttrs(id, attrs, alloc, Accepted);
    var s1 := SetStep(s, meta, s.objects[id].objectType, id, attrs, alloc, Accepted).1;
    assert s1 == Step(s, meta, op);
    StepSound(s, meta, op);
    assert Filed(s, id);
    forall o | o in Mentioned(s, meta, id, x, v)
      ensures o in s.pa.table && s.pa.table[o].adapter == s.pa.table[id].adapter
    {
      assert Filed(s, o);
    }
    SetCarries(s, meta, s.objects[id].objectType, id, attrs, alloc, x);
    RunCarries(s1, meta, ops, id, x, v);
    GetShows(Run(s1, meta, ops), meta, id, ids, values, i, v);
  }

  /** With a request for that attribute alone, the `get` need not be assumed to succeed. */
  lemma TransparencyAlone(s: Mux, meta: Meta, id: Oid, attrs: seq<Attr>, alloc: Allocate, x: AttrId,
                          ops: seq<Op>, value: Value)
    requires Sound(s) && id in s.objects && id in s.pa.table && HonestSet(attrs, alloc) && Mentions(attrs, x)
    requires SetStep(s, meta, s.objects[id].objectType, id, attrs, alloc, Accepted).0 == Success
    requires Owned(s.pa.table, s.pa.table[id].adapter, Mentioned(s, meta, id, x, LastValue(attrs, x)))
    requires LiveHandler(TypeOf(s.pa.table, meta, id, x), LastValue(attrs, x)) ==>
               !Nulls(TypeOf(s.pa.table, meta, id, x), attrs, x)
    requires var s1 := SetStep(s, meta, s.objects[id].objectType, id, attrs, alloc, Accepted).1;
             && HonestRun(s1, meta, ops) && LeftAlone(s1, meta, ops, id, x, LastValue(attrs, x))
             && HonestGet(Run(s1, meta, ops), id, [x], [value])
    ensures var s1 := SetStep(s, meta, s.objects[id].objectType, id, attrs, alloc, Accepted).1;
            GetStep(Run(s1, meta, ops), meta, id, [x], Got([value])) == (Success, [Attr(x, LastValue(attrs, x))])
  {
    var s1 := SetStep(s, meta, s.objects[id].objectType, id, attrs, alloc, Accepted).1;
    assert s1 == Step(s, meta, SetAttrs(id, attrs, alloc, Accepted));
    StepSound(s, meta, SetAttrs(id, attrs, alloc, Accepted));
    SetCarries(s, meta, s.objects[id].objectType, id, attrs, alloc, x);
    RunCarries(s1, meta, ops, id, x, LastValue(attrs, x));
    GetSucceeds(Run(s1, meta, ops), meta, id, [x], [value], [LastValue(attrs, x)]);
    assert Answer([x], [LastValue(attrs, x)]) == [Attr(x, LastValue(attrs, x))];
  }

  /** The library holds exactly one context for the attribute, the one at its address; called back
      with it, the multiplexer calls `h` under the object's muxed id, showing only live ids of its adapter. */
  ghost predicate CallsBack(s: Mux, meta: Meta, id: Oid, x: AttrId, h: Handler, notified: seq<Attr>) {
    && Key(id, x) in s.pa.notifs && id in s.pa.table
    && var ctx := s.pa.notifs[Key(id, x)];
       && (forall addr :: Holds(s, id, x, addr) <==> addr == ctx.addr)
       && (forall c :: ContextAt(s.pa.notifs, ctx.addr, c) <==> c == ctx)
       && var d := NotifyStep(s.pa.table, s.pa.notifs, meta, ctx, s.pa.table[id].realId, notified);
          d.Some? && d.value.handler == h && d.value.oid == id
          && forall a :: a in d.value.attrs ==> Confined(s, meta, id, a)
  }

  /** The host hears of what it asked for: after a successful `set` whose last word on the attribute
      is handler `h`, and any run that leaves the attribute alone, the library holds one context for
      it, and a callback with that context calls `h` with the object's muxed id. */
  lemma CallbackCallsSetHandler(s: Mux, meta: Meta, id: Oid, attrs: seq<Attr>, alloc: Allocate, x: AttrId,
                                ops: seq<Op>, h: Handler, notified: seq<Attr>)
    requires Sound(s) && id in s.objects && id in s.pa.table && HonestSet(attrs, alloc) && Mentions(attrs, x)
    requires SetStep(s, meta, s.objects[id].objectType, id, attrs, alloc, Accepted).0 == Success
    requires TypeOf(s.pa.table, meta, id, x) == Some(NotificationType) && !Nulls(Some(NotificationType), attrs, x)
    requires LastValue(attrs, x) == NotificationV(h) && h.notify != NoNotify
    requires var s1 := SetStep(s, meta, s.objects[id].objectType, id, attrs, alloc, Accepted).1;
             HonestRun(s1, meta, ops) && LeftAlone(s1, meta, ops, id, x, NotificationV(h))
    ensures var s1 := SetStep(s, meta, s.objects[id].objectType, id, attrs, alloc, Accepted).1;
            CallsBack(Run(s1, meta, ops), meta, id, x, h, notified)
  {
    var s1 := SetStep(s, meta, s.objects[id].objectType, id, attrs, alloc, Accepted).1;
    assert s1 == Step(s, meta, SetAttrs(id, attrs, alloc, Accepted));
    StepSound(s, meta, SetAttrs(id, attrs, alloc, Accepted));
    SetCarries(s, meta, s.objects[id].objectType, id, attrs, alloc, x);
    RunCarries(s1, meta, ops, id, x, NotificationV(h));
    CarriedDelivers(Run(s1, meta, ops), meta, id, x, h, notified);
  }

  lemma CarriedDelivers(s: Mux, meta: Meta, id: Oid, x: AttrId, h: Handler, notified: seq<Attr>)
    requires Sound(s) && Carries(s, meta, id, x, NotificationV(h)) && h.notify != NoNotify
    requires TypeOf(s.pa.table, meta, id, x) == Some(NotificationType)
    ensures CallsBack(s, meta, id, x, h, notified)
  {
    var ctx := s.pa.notifs[Key(id, x)];
    assert ContextAt(s.pa.notifs, ctx.addr, ctx);
    ShownConfined(s, meta, id, ctx, notified);
  }

  /** Confinement: whatever the library answers, a successful `get` shows the host no id but live
      muxed ids of the queried object's adapter. */
  lemma GetConfined(s: Mux, meta: Meta, id: Oid, ids: seq<AttrId>, values: seq<Value>)
    requires TablesAgree(s) && |values| == |ids|
    requires GetStep(s, meta, id, ids, Got(values)).0 == Success
    ensures id in s.objects
    ensures forall a :: a in GetStep(s, meta, id, ids, Got(values)).1 ==> Confined(s, meta, id, a)
  {
    var ans := Answer(ids, values);
    var out := GetStep(s, meta, id, ids, Got(values)).1;
    AnswerValues(s.pa.table, s.pa.notifs, meta, id, ans);
    forall a | a in out ensures Confined(s, meta, id, a) {
      var i :| 0 <= i < |out| && out[i] == a;
      assert Answers(s.pa.table, s.pa.notifs, meta, id, ans[i], out[i]);
      ConvertedConfined(s, meta, NO_ALLOC, NullType, id, ans[i]);
    }
  }

  // ---- handlers the library does not hold -----------------------------------------------------

  /** The library answers that there is no handler. */
  ghost predicate AnswersNone(s: Mux, meta: Meta, id: Oid, x: AttrId, v: Value) {
    id in s.pa.table && NullHandler(TypeOf(s.pa.table, meta, id, x), v)
  }

  /** The host is then shown none if and only if no context is entered under the attribute; else the
      handler kept there, though nothing will ever call it. */
  lemma UnheldShown(s: Mux, meta: Meta, id: Oid, ids: seq<AttrId>, values: seq<Value>, i: nat)
    requires ContextsOk(s.pa.notifs) && i < |ids| == |values| && AnswersNone(s, meta, id, ids[i], values[i])
    requires GetStep(s, meta, id, ids, Got(values)).0 == Success
    ensures var (out, k) := (GetStep(s, meta, id, ids, Got(values)).1, Key(id, ids[i]));
            && |out| == |ids| && out[i].id == ids[i] && out[i].value.NotificationV?
            && (out[i].value.handler.notify == NoNotify <==> k !in s.pa.notifs)
            && (k in s.pa.notifs ==> out[i].value.handler == s.pa.notifs[k].host)
  {
    AnswerValues(s.pa.table, s.pa.notifs, meta, id, Answer(ids, values));
    var out := GetStep(s, meta, id, ids, Got(values)).1;
    assert Answers(s.pa.table, s.pa.notifs, meta, id, Answer(ids, values)[i], out[i]);
  }

  /** So a handler whose `set` the library rejected is shown as if it had been accepted. */
  lemma RejectedHandlerShown(s: Mux, meta: Meta, id: Oid, attrs: seq<Attr>, alloc: Allocate, e: Error, x: AttrId,
                             ids: seq<AttrId>, values: seq<Value>, i: nat)
    requires Sound(s) && id in s.objects && HonestSet(attrs, alloc) && Mentions(attrs, x)
    requires id in s.pa.table && LiveHandler(TypeOf(s.pa.table, meta, id, x), LastValue(attrs, x))
    requires var t := s.objects[id].objectType;
             ConvertRequest(s.pa.table, s.pa.notifs, meta, alloc, t, id, attrs).status == Success
    requires var s' := SetStep(s, meta, s.objects[id].objectType, id, attrs, alloc, Rejected(e, {})).1;
             && i < |ids| == |values| && ids[i] == x && AnswersNone(s', meta, id, x, values[i])
             && GetStep(s', meta, id, ids, Got(values)).0 == Success
    ensures var (st, s') := SetStep(s, meta, s.objects[id].objectType, id, attrs, alloc, Rejected(e, {}));
            && st == e && StoredAttrs(s'.libs, s'.pa.table[id]) == StoredAttrs(s.libs, s.pa.table[id])
            && var out := GetStep(s', meta, id, ids, Got(values)).1;
               i < |out| && out[i] == Attr(x, LastValue(attrs, x))
  {
    var t := s.objects[id].objectType;
    var s' := SetStep(s, meta, t, id, attrs, alloc, Rejected(e, {})).1;
    var q := ConvertRequest(s.pa.table, s.pa.notifs, meta, alloc, t, id, attrs);
    RequestHandlers(s.pa.table, s.pa.notifs, meta, alloc, t, id, attrs, x);
    StepSound(s, meta, SetAttrs(id, attrs, alloc, Rejected(e, {})));
    UnheldShown(s', meta, id, ids, values, i);
    assert Filed(s, id) && Placed(s, id);
    LibStoreAttrs(s.libs, s.pa.table[id], q.inputs, {}, s.pa.table[id]);
    NothingStored(StoredAttrs(s.libs, s.pa.table[id]), q.inputs);
  }

  lemma {:induction false} NothingStored(had: map<AttrId, Value>, inputs: seq<Attr>)
    ensures Store(had, inputs, {}) == had
  {
    if inputs != [] { NothingStored(had, inputs[..|inputs| - 1]); }
  }

  /** No call but a `set` that names the attribute touches an entry, least of all a removal. */
  lemma StepKeepsEntry(s: Mux, meta: Meta, op: Op, k: Key)
    requires Sound(s) && Honest(s, op) && !Overwrites(op, k.oid, k.attr)
    ensures SameAt(s.pa.notifs, Step(s, meta, op).pa.notifs, k)
  {
    if op.Create? {
      CreateKeepsEntries(s, meta, op);
    } else if op.SetAttrs? && op.id in s.objects {
      assert Filed(s, op.id);
      var t := s.objects[op.id].objectType;
      ConvertRequestOk(s.pa.table, s.pa.notifs, meta, op.alloc, t, op.id, op.attrs);
      if op.id == k.oid { assert !Nulls(TypeOf(s.pa.table, meta, op.id, k.attr), op.attrs, k.attr); }
    }
  }

  lemma CreateKeepsEntries(s: Mux, meta: Meta, op: Op)
    requires op.Create?
    ensures Step(s, meta, op).pa.notifs == s.pa.notifs
  {
  }

  lemma {:induction false} RunKeepsEntry(s: Mux, meta: Meta, ops: seq<Op>, k: Key)
    requires Sound(s) && HonestRun(s, meta, ops) && forall i :: 0 <= i < |ops| ==> !Overwrites(ops[i], k.oid, k.attr)
    ensures Sound(Run(s, meta, ops)) && SameAt(s.pa.notifs, Run(s, meta, ops).pa.notifs, k)
    decreases ops
  {
    if ops != [] {
      StepSound(s, meta, ops[0]);
      StepKeepsEntry(s, meta, ops[0], k);
      RunKeepsEntry(Step(s, meta, ops[0]), meta, ops[1..], k);
    }
  }

  /** And a handler once set is shown for whatever later object has the id, the object it was set on
      removed or not, until a `set` names the attribute again. */
  lemma StaleHandlerShown(s: Mux, meta: Meta, ops: seq<Op>, id: Oid, ids: seq<AttrId>, values: seq<Value>, i: nat)
    requires Sound(s) && HonestRun(s, meta, ops) && i < |ids| == |values| && Key(id, ids[i]) in s.pa.notifs
    requires forall j :: 0 <= j < |ops| ==> !Overwrites(ops[j], id, ids[i])
    requires var s' := Run(s, meta, ops);
             AnswersNone(s', meta, id, ids[i], values[i]) && GetStep(s', meta, id, ids, Got(values)).0 == Success
    ensures var out := GetStep(Run(s, meta, ops), meta, id, ids, Got(values)).1;
            i < |out| && out[i] == Attr(ids[i], NotificationV(s.pa.notifs[Key(id, ids[i])].host))
  {
    RunKeepsEntry(s, meta, ops, Key(id, ids[i]));
    UnheldShown(Run(s, meta, ops), meta, id, ids, values, i);
  }
}
