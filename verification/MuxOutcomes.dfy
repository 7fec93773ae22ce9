/** What each call of the multiplexer comes to, in the host's and the libraries' terms: objects made
    and removed, ids sent and shown, attributes delivered, libraries shared. */
module MuxOutcomes {
  import opened Options
  import opened MuxTypes
  import opened Translation
  import opened MuxSpec
  import opened MuxInvariants
  import opened MuxNotifications
  import opened MuxTransparency
  import PlatformAdapters

  // ---- one value, id by id ---------------------------------------------------------------

  /** The muxed id stands for this real id of the library. */
  predicate Names(table: Table, a: AdapterId, x: Oid, r: Oid) {
    x in table && table[x] == Target(r, a)
  }

  predicate NamesAll(table: Table, a: AdapterId, xs: seq<Oid>, rs: seq<Oid>) {
    |xs| == |rs| && forall k :: 0 <= k < |xs| ==> Names(table, a, xs[k], rs[k])
  }

  /** A host's value and a library's that are the same but for ids, which stand for one another at
      every place where the type has one. */
  predicate Renders(table: Table, a: AdapterId, t: ValueType, host: Value, lib: Value) {
    if t == OidType && lib.OidV? then host.OidV? && Names(table, a, host.oid, lib.oid)
    else if t == ObjListType && lib.ObjListV? then host.ObjListV? && NamesAll(table, a, host.list, lib.list)
    else if t == ObjMapListType && lib.ObjMapListV? then
      && host.ObjMapListV? && |host.entries| == |lib.entries|
      && forall i :: 0 <= i < |lib.entries| ==>
           && Names(table, a, host.entries[i].key, lib.entries[i].key)
           && NamesAll(table, a, host.entries[i].list, lib.entries[i].list)
    else host == lib
  }

  /** Some muxed id stands for the real id. */
  ghost predicate Named(table: Table, a: AdapterId, r: Oid) {
    exists x :: Names(table, a, x, r)
  }

  ghost predicate NamedAll(table: Table, a: AdapterId, rs: seq<Oid>) {
    forall k :: 0 <= k < |rs| ==> Named(table, a, rs[k])
  }

  /** Every id in a library's value has a muxed id. */
  ghost predicate Renderable(table: Table, a: AdapterId, t: ValueType, lib: Value) {
    match (t, lib)
    case (OidType, OidV(r)) => Named(table, a, r)
    case (ObjListType, ObjListV(rs)) => NamedAll(table, a, rs)
    case (ObjMapListType, ObjMapListV(es)) =>
      forall i :: 0 <= i < |es| ==> Named(table, a, es[i].key) && NamedAll(table, a, es[i].list)
    case _ => true
  }

  lemma ReverseNames(table: Table, a: AdapterId, r: Oid)
    requires NULL_OID !in table
    ensures var x := Translator(table, a, true).Apply(r);
            && (x != NULL_OID <==> Named(table, a, r)) && (x != NULL_OID ==> Names(table, a, x, r))
  {
    if x :| Names(table, a, x, r) { assert x in Sources(table, Target(r, a)); }
    var y := Translator(table, a, true).Apply(r);
    if y != NULL_OID { assert Names(table, a, y, r); }
  }

  lemma ReverseNamesAll(table: Table, a: AdapterId, rs: seq<Oid>)
    requires NULL_OID !in table
    ensures ListOk(Translator(table, a, true), rs) <==> NamedAll(table, a, rs)
    ensures NamedAll(table, a, rs) ==> NamesAll(table, a, ConvertList(Translator(table, a, true), rs, rs), rs)
  {
    forall k | 0 <= k < |rs|
      ensures Translator(table, a, true).Apply(rs[k]) != NULL_OID <==> Named(table, a, rs[k])
      ensures Named(table, a, rs[k]) ==> Names(table, a, Translator(table, a, true).Apply(rs[k]), rs[k])
    {
      ReverseNames(table, a, rs[k]);
    }
  }

  /** Reverse translation succeeds exactly if every id in the value has a muxed id of the library's,
      and then puts that id in its place and changes nothing else. */
  lemma ReverseRenders(table: Table, a: AdapterId, t: ValueType, lib: Value)
    requires NULL_OID !in table
    ensures ValueOk(Translator(table, a, true), t, lib) <==> Renderable(table, a, t, lib)
    ensures Renderable(table, a, t, lib) ==>
              Renders(table, a, t, ConvertValue(Translator(table, a, true), t, lib), lib)
  {
    match (t, lib)
    case (OidType, OidV(r)) => ReverseNames(table, a, r);
    case (ObjListType, ObjListV(rs)) => ReverseNamesAll(table, a, rs);
    case (ObjMapListType, ObjMapListV(es)) =>
      forall i | 0 <= i < |es|
        ensures EntryOk(Translator(table, a, true), es[i])
           <==> Named(table, a, es[i].key) && NamedAll(table, a, es[i].list)
        ensures var e := ConvertEntry(Translator(table, a, true), es[i], es[i]);
                EntryOk(Translator(table, a, true), es[i]) ==>
                  Names(table, a, e.key, es[i].key) && NamesAll(table, a, e.list, es[i].list)
      {
        ReverseNames(table, a, es[i].key);
        ReverseNamesAll(table, a, es[i].list);
      }
    case _ =>
  }

  /** On an injective table only one host value renders a library's. */
  lemma RendersUnique(table: Table, a: AdapterId, t: ValueType, h: Value, h': Value, lib: Value)
    requires Injective(table) && Renders(table, a, t, h, lib) && Renders(table, a, t, h', lib)
    ensures h == h'
  {
    if t == ObjListType && lib.ObjListV? {
      assert h.list == h'.list;
    } else if t == ObjMapListType && lib.ObjMapListV? {
      forall i | 0 <= i < |lib.entries| ensures h.entries[i] == h'.entries[i] {
        assert h.entries[i].list == h'.entries[i].list;
      }
      assert h.entries == h'.entries;
    }
  }

  /** The real ids of live objects in place of muxed ones, whichever library they are of. */
  predicate Sends(table: Table, t: ValueType, host: Value, lib: Value) {
    if t == OidType && host.OidV? then lib.OidV? && RealOf(table, host.oid, lib.oid)
    else if t == ObjListType && host.ObjListV? then lib.ObjListV? && RealOfAll(table, host.list, lib.list)
    else if t == ObjMapListType && host.ObjMapListV? then
      && lib.ObjMapListV? && |lib.entries| == |host.entries|
      && forall i :: 0 <= i < |host.entries| ==>
           && RealOf(table, host.entries[i].key, lib.entries[i].key)
           && RealOfAll(table, host.entries[i].list, lib.entries[i].list)
    else lib == host
  }

  predicate RealOf(table: Table, x: Oid, r: Oid) {
    x in table && table[x].realId == r
  }

  predicate RealOfAll(table: Table, xs: seq<Oid>, rs: seq<Oid>) {
    |rs| == |xs| && forall k :: 0 <= k < |xs| ==> RealOf(table, xs[k], rs[k])
  }

  /** No id in the value is unknown, or stands for the null id in its library. */
  predicate Sendable(table: Table, t: ValueType, host: Value) {
    match (t, host)
    case (OidType, OidV(x)) => Real(table, x)
    case (ObjListType, ObjListV(xs)) => RealAll(table, xs)
    case (ObjMapListType, ObjMapListV(es)) =>
      forall i :: 0 <= i < |es| ==> Real(table, es[i].key) && RealAll(table, es[i].list)
    case _ => true
  }

  predicate Real(table: Table, x: Oid) {
    x in table && table[x].realId != NULL_OID
  }

  predicate RealAll(table: Table, xs: seq<Oid>) {
    forall k :: 0 <= k < |xs| ==> Real(table, xs[k])
  }

  lemma ForwardSendsAll(table: Table, a: AdapterId, xs: seq<Oid>)
    ensures ListOk(Translator(table, a, false), xs) <==> RealAll(table, xs)
    ensures RealAll(table, xs) ==> RealOfAll(table, xs, ConvertList(Translator(table, a, false), xs, xs))
  {
  }

  lemma ForwardSends(table: Table, a: AdapterId, t: ValueType, host: Value)
    ensures ValueOk(Translator(table, a, false), t, host) <==> Sendable(table, t, host)
    ensures Sendable(table, t, host) ==>
              Sends(table, t, host, ConvertValue(Translator(table, a, false), t, host))
  {
    match (t, host)
    case (ObjListType, ObjListV(xs)) => ForwardSendsAll(table, a, xs);
    case (ObjMapListType, ObjMapListV(es)) =>
      forall i | 0 <= i < |es|
        ensures EntryOk(Translator(table, a, false), es[i]) <==> Real(table, es[i].key) && RealAll(table, es[i].list)
        ensures var e := ConvertEntry(Translator(table, a, false), es[i], es[i]);
                EntryOk(Translator(table, a, false), es[i]) ==>
                  RealOf(table, es[i].key, e.key) && RealOfAll(table, es[i].list, e.list)
      {
        ForwardSendsAll(table, a, es[i].list);
      }
    case _ =>
  }

  // ---- set -----------------------------------------------------------------------------------

  predicate IsHandler(t: ValueType, v: Value) {
    t == NotificationType && v.NotificationV?
  }

  /** The library knows the attribute, and every id in the value has a real id. */
  predicate CanSend(table: Table, meta: Meta, id: Oid, a: Attr)
    requires id in table
  {
    var t := TypeOf(table, meta, id, a.id);
    t.Some? && (IsHandler(t.value, a.value) || Sendable(table, t.value, a.value))
  }

  ghost predicate CanSendAll(table: Table, meta: Meta, id: Oid, attrs: seq<Attr>)
    requires id in table
  {
    forall i :: 0 <= i < |attrs| ==> CanSend(table, meta, id, attrs[i])
  }

  lemma ConvertSends(table: Table, n: Notifs, meta: Meta, alloc: Allocate, t: ObjectType, id: Oid, a: Attr)
    requires id in table
    ensures ConvertAttr(table, n, meta, alloc, t, id, a, false).status
         == if CanSend(table, meta, id, a) then Success else Failure
  {
    var vt := TypeOf(table, meta, id, a.id);
    if vt.Some? { ForwardSends(table, table[id].adapter, vt.value, a.value); }
  }

  lemma CanSendFront(table: Table, meta: Meta, id: Oid, attrs: seq<Attr>)
    requires id in table && attrs != []
    ensures CanSendAll(table, meta, id, attrs)
       <==> CanSendAll(table, meta, id, attrs[..|attrs| - 1]) && CanSend(table, meta, id, attrs[|attrs| - 1])
  {
    var front := attrs[..|attrs| - 1];
    if CanSendAll(table, meta, id, front) && CanSend(table, meta, id, attrs[|attrs| - 1]) {
      forall i | 0 <= i < |attrs| ensures CanSend(table, meta, id, attrs[i]) {
        if i < |front| { assert front[i] == attrs[i]; }
      }
    }
  }

  lemma {:induction false} RequestSends(table: Table, n: Notifs, meta: Meta, alloc: Allocate, t: ObjectType, id: Oid,
                                        attrs: seq<Attr>)
    requires id in table
    ensures ConvertRequest(table, n, meta, alloc, t, id, attrs).status
         == if CanSendAll(table, meta, id, attrs) then Success else Failure
    decreases attrs
  {
    if attrs != [] {
      var m := |attrs| - 1;
      var q := ConvertRequest(table, n, meta, alloc, t, id, attrs[..m]);
      RequestSends(table, n, meta, alloc, t, id, attrs[..m]);
      CanSendFront(table, meta, id, attrs);
      ConvertSends(table, q.notifs, meta, alloc, t, id, attrs[m]);
    }
  }

  /** `set` fails for an unknown id, an attribute the library does not know or an id without a real
      one, and then the library is not called; else its answer is the library's. */
  lemma SetOutcome(s: Mux, meta: Meta, t: ObjectType, id: Oid, attrs: seq<Attr>, alloc: Allocate, reply: SetReply)
    ensures var (st, s') := SetStep(s, meta, t, id, attrs, alloc, reply);
            if id in s.pa.table && CanSendAll(s.pa.table, meta, id, attrs)
            then st == if reply.Accepted? then Success else reply.error
            else st == Failure && s'.libs == s.libs
  {
    if id in s.pa.table { RequestSends(s.pa.table, s.pa.notifs, meta, alloc, t, id, attrs); }
  }

  /** A request that fails at some attribute has entered the contexts of the handlers before it. */
  lemma FailedSetEnters(s: Mux, meta: Meta, t: ObjectType, id: Oid, attrs: seq<Attr>, alloc: Allocate,
                        reply: SetReply, n: nat, x: AttrId)
    requires id in s.pa.table && n < |attrs| && !CanSend(s.pa.table, meta, id, attrs[n])
    requires CanSendAll(s.pa.table, meta, id, attrs[..n])
    requires Mentions(attrs[..n], x) && LiveHandler(TypeOf(s.pa.table, meta, id, x), LastValue(attrs[..n], x))
    ensures var k := Key(id, x);
            var notifs := SetStep(s, meta, t, id, attrs, alloc, reply).1.pa.notifs;
            k in notifs && notifs[k].host == LastValue(attrs[..n], x).handler
  {
    var upTo := attrs[..n + 1];
    assert upTo[..n] == attrs[..n] && upTo[n] == attrs[n];
    FailsAtLast(s.pa.table, s.pa.notifs, meta, alloc, t, id, upTo);
    RequestSends(s.pa.table, s.pa.notifs, meta, alloc, t, id, attrs[..n]);
    RequestHandlers(s.pa.table, s.pa.notifs, meta, alloc, t, id, attrs[..n], x);
    PlatformAdapters.RequestStops(s.pa.table, s.pa.notifs, meta, alloc, t, id, attrs, n + 1);
  }

  lemma FailsAtLast(table: Table, n: Notifs, meta: Meta, alloc: Allocate, t: ObjectType, id: Oid, attrs: seq<Attr>)
    requires id in table && attrs != [] && CanSendAll(table, meta, id, attrs[..|attrs| - 1])
    requires !CanSend(table, meta, id, attrs[|attrs| - 1])
    ensures var q := ConvertRequest(table, n, meta, alloc, t, id, attrs);
            q.status == Failure && q.notifs == ConvertRequest(table, n, meta, alloc, t, id, attrs[..|attrs| - 1]).notifs
  {
    var q := ConvertRequest(table, n, meta, alloc, t, id, attrs[..|attrs| - 1]);
    RequestSends(table, n, meta, alloc, t, id, attrs[..|attrs| - 1]);
    ConvertSends(table, q.notifs, meta, alloc, t, id, attrs[|attrs| - 1]);
  }

  /** After an accepted `set` the library holds, for each attribute named that is no handler, the last
      value given, with the real id in the place of every id. */
  lemma SetStoresRealIds(s: Mux, meta: Meta, t: ObjectType, id: Oid, attrs: seq<Attr>, alloc: Allocate, x: AttrId)
    requires Sound(s) && HonestSet(attrs, alloc) && id in s.pa.table && Mentions(attrs, x)
    requires SetStep(s, meta, t, id, attrs, alloc, Accepted).0 == Success
    ensures var (vt, v) := (TypeOf(s.pa.table, meta, id, x), LastValue(attrs, x));
            var held := StoredAttrs(SetStep(s, meta, t, id, attrs, alloc, Accepted).1.libs, s.pa.table[id]);
            vt.Some? && x in held && (!IsHandler(vt.value, v) ==> Sends(s.pa.table, vt.value, v, held[x]))
  {
    var q := ConvertRequest(s.pa.table, s.pa.notifs, meta, alloc, t, id, attrs);
    ConvertRequestOk(s.pa.table, s.pa.notifs, meta, alloc, t, id, attrs);
    assert Filed(s, id) && Placed(s, id);
    LibStoreAttrs(s.libs, s.pa.table[id], q.inputs, UpTo(|q.inputs|), s.pa.table[id]);
    SameMentions(attrs, q.inputs, x);
    StoreLast(StoredAttrs(s.libs, s.pa.table[id]), q.inputs, UpTo(|q.inputs|), x);
    var i := LastIndex(attrs, x);
    var vt := TypeOf(s.pa.table, meta, id, attrs[i].id);
    RequestValues(s.pa.table, s.pa.notifs, meta, alloc, t, id, attrs, i);
    assert Translates(s.pa.table, vt, s.pa.table[id].adapter, attrs[i], q.inputs[i]);
    ForwardSends(s.pa.table, s.pa.table[id].adapter, vt.value, attrs[i].value);
  }

  /** And for a handler the context it was sent is entered, and carries what a callback needs: the
      handler, the object's muxed id and its type. */
  lemma SetEntersContext(s: Mux, meta: Meta, t: ObjectType, id: Oid, attrs: seq<Attr>, alloc: Allocate, x: AttrId)
    requires Sound(s) && HonestSet(attrs, alloc) && id in s.pa.table && Mentions(attrs, x)
    requires SetStep(s, meta, t, id, attrs, alloc, Accepted).0 == Success
    requires LiveHandler(TypeOf(s.pa.table, meta, id, x), LastValue(attrs, x))
    requires !Nulls(TypeOf(s.pa.table, meta, id, x), attrs, x)
    ensures var (n, k) := (SetStep(s, meta, t, id, attrs, alloc, Accepted).1.pa.notifs, Key(id, x));
            k in n && n[k] == Ctx(n[k].addr, LastValue(attrs, x).handler, id, t)
  {
    ConvertRequestOk(s.pa.table, s.pa.notifs, meta, alloc, t, id, attrs);
    RequestHandlers(s.pa.table, s.pa.notifs, meta, alloc, t, id, attrs, x);
  }

  // ---- get -----------------------------------------------------------------------------------

  /** The library knows the attribute, and every id in its value has a muxed id. */
  ghost predicate CanShow(table: Table, meta: Meta, id: Oid, a: Attr)
    requires id in table
  {
    var t := TypeOf(table, meta, id, a.id);
    t.Some? && (IsHandler(t.value, a.value) || Renderable(table, table[id].adapter, t.value, a.value))
  }

  /** The host's attribute for the library's; a handler is the one kept, if there is one. */
  predicate Shows(table: Table, n: Notifs, meta: Meta, id: Oid, a: Attr, shown: Attr)
    requires id in table && TypeOf(table, meta, id, a.id).Some?
  {
    var t := TypeOf(table, meta, id, a.id).value;
    && shown.id == a.id
    && if IsHandler(t, a.value)
       then shown.value == if Key(id, a.id) in n then NotificationV(n[Key(id, a.id)].host) else a.value
       else Renders(table, table[id].adapter, t, shown.value, a.value)
  }

  lemma ConvertShows(table: Table, n: Notifs, meta: Meta, t: ObjectType, id: Oid, a: Attr)
    requires id in table && NULL_OID !in table
    ensures var c := ConvertAttr(table, n, meta, NO_ALLOC, t, id, a, true);
            if CanShow(table, meta, id, a) then c.status == Success && Shows(table, n, meta, id, a, c.attr)
            else c.status == Failure
  {
    var vt := TypeOf(table, meta, id, a.id);
    if vt.Some? { ReverseRenders(table, table[id].adapter, vt.value, a.value); }
  }

  lemma {:induction false} AnswerShows(table: Table, n: Notifs, meta: Meta, id: Oid, attrs: seq<Attr>)
    requires id in table && NULL_OID !in table
    ensures var (st, out) := ConvertAnswer(table, n, meta, id, attrs);
            && |out| == |attrs|
            && if forall i :: 0 <= i < |attrs| ==> CanShow(table, meta, id, attrs[i])
               then st == Success && forall i :: 0 <= i < |attrs| ==> Shows(table, n, meta, id, attrs[i], out[i])
               else st == Failure
    decreases attrs
  {
    if attrs != [] {
      ConvertShows(table, n, meta, NullType, id, attrs[0]);
      AnswerShows(table, n, meta, id, attrs[1..]);
      assert forall i :: 1 <= i < |attrs| ==> attrs[1..][i - 1] == attrs[i];
      assert forall i :: 0 <= i < |attrs| - 1 ==> attrs[1..][i] == attrs[i + 1];
      var out := ConvertAnswer(table, n, meta, id, attrs).1;
      if forall i :: 0 <= i < |attrs| ==> CanShow(table, meta, id, attrs[i]) {
        forall i | 0 <= i < |attrs| ensures Shows(table, n, meta, id, attrs[i], out[i]) {
          if i > 0 { assert Shows(table, n, meta, id, attrs[1..][i - 1], out[i]); }
        }
      }
    }
  }

  /** `get` fails for an unknown id, passes on the library's refusal, and else succeeds exactly if
      the library knows every attribute and every id in its values has a muxed id, showing that. */
  lemma GetOutcome(s: Mux, meta: Meta, id: Oid, ids: seq<AttrId>, reply: GetReply)
    requires TablesAgree(s) && (reply.Got? ==> |reply.values| == |ids|)
    ensures var (st, out) := GetStep(s, meta, id, ids, reply);
            if id !in s.pa.table then st == Failure
            else match reply
              case GetRefused(e) => st == e
              case Got(values) =>
                if forall i :: 0 <= i < |ids| ==> CanShow(s.pa.table, meta, id, Attr(ids[i], values[i]))
                then
                  && st == Success && |out| == |ids|
                  && forall i :: 0 <= i < |ids| ==>
                       Shows(s.pa.table, s.pa.notifs, meta, id, Attr(ids[i], values[i]), out[i])
                else st == Failure
  {
    if id in s.pa.table && reply.Got? {
      var ans := Answer(ids, reply.values);
      AnswerShows(s.pa.table, s.pa.notifs, meta, id, ans);
      assert forall i :: 0 <= i < |ids| ==> ans[i] == Attr(ids[i], reply.values[i]);
    }
  }

  /** Where `get` stops, the attributes before are shown and those after are left as the library
      filled them in. */
  lemma {:induction false} GetStopsAt(table: Table, n: Notifs, meta: Meta, id: Oid, attrs: seq<Attr>, k: nat)
    requires id in table && NULL_OID !in table && k < |attrs| && !CanShow(table, meta, id, attrs[k])
    requires forall i :: 0 <= i < k ==> CanShow(table, meta, id, attrs[i])
    ensures var (st, out) := ConvertAnswer(table, n, meta, id, attrs);
            && st == Failure && |out| == |attrs| && out[k + 1..] == attrs[k + 1..]
            && forall i :: 0 <= i < k ==>
                 CanShow(table, meta, id, attrs[i]) && Shows(table, n, meta, id, attrs[i], out[i])
    decreases attrs
  {
    ConvertShows(table, n, meta, NullType, id, attrs[0]);
    if k > 0 {
      GetStopsAt(table, n, meta, id, attrs[1..], k - 1);
      var (out, rest) := (ConvertAnswer(table, n, meta, id, attrs).1, ConvertAnswer(table, n, meta, id, attrs[1..]).1);
      assert out[1..] == rest && out[k + 1..] == rest[k..] && attrs[k + 1..] == attrs[1..][k..];
      forall i | 0 <= i < k
        ensures CanShow(table, meta, id, attrs[i]) && Shows(table, n, meta, id, attrs[i], out[i])
      {
        if i > 0 { assert Shows(table, n, meta, id, attrs[1..][i - 1], rest[i - 1]); }
      }
    }
  }

  // ---- notifications ---------------------------------------------------------------------------

  /** The library's metadata, asked with the id it called back with, knows the attribute too. */
  ghost predicate Deliverable(s: Mux, meta: Meta, id: Oid, realOid: Oid, a: Attr)
    requires id in s.pa.table
  {
    meta(s.pa.table[id].adapter, realOid, a.id).Some? && CanShow(s.pa.table, meta, id, a)
  }

  lemma ShownIs(s: Mux, meta: Meta, ctx: Ctx, realOid: Oid, a: Attr)
    requires TablesAgree(s) && ctx.muxedOid in s.pa.table
    ensures var one := Shown(s.pa.table, s.pa.notifs, meta, ctx, realOid, a);
            if Deliverable(s, meta, ctx.muxedOid, realOid, a)
            then |one| == 1 && Shows(s.pa.table, s.pa.notifs, meta, ctx.muxedOid, a, one[0])
            else one == []
  {
    ConvertShows(s.pa.table, s.pa.notifs, meta, ctx.objectType, ctx.muxedOid, a);
  }

  /** With no attributes the host is called with none; each further one is delivered in its turn as
      the host knows it, or skipped exactly if its metadata is unknown or an id in it is not the real
      id of a live object of that library. */
  lemma NotifyOneMore(s: Mux, meta: Meta, ctx: Ctx, realOid: Oid, attrs: seq<Attr>, a: Attr)
    requires TablesAgree(s)
    ensures NotifyStep(s.pa.table, s.pa.notifs, meta, ctx, realOid, []) ==
              if ctx.muxedOid in s.pa.table then Some(Delivery(ctx.host, ctx.muxedOid, [])) else None
    ensures var d := NotifyStep(s.pa.table, s.pa.notifs, meta, ctx, realOid, attrs);
            var d' := NotifyStep(s.pa.table, s.pa.notifs, meta, ctx, realOid, attrs + [a]);
            if ctx.muxedOid !in s.pa.table then d.None? && d'.None?
            else
              && d.Some? && d'.Some? && d'.value.handler == ctx.host && d'.value.oid == ctx.muxedOid
              && if Deliverable(s, meta, ctx.muxedOid, realOid, a)
                 then
                   && |d'.value.attrs| == |d.value.attrs| + 1 && d.value.attrs <= d'.value.attrs
                   && Shows(s.pa.table, s.pa.notifs, meta, ctx.muxedOid, a, d'.value.attrs[|d.value.attrs|])
                 else d'.value.attrs == d.value.attrs
  {
    if ctx.muxedOid in s.pa.table {
      ShownLast(s.pa.table, s.pa.notifs, meta, ctx, realOid, attrs + [a]);
      assert (attrs + [a])[..|attrs|] == attrs;
      ShownIs(s, meta, ctx, realOid, a);
    }
  }

  /** The library sends these attributes for those of the host. */
  ghost predicate SentFor(s: Mux, meta: Meta, id: Oid, realOid: Oid, sent: seq<Attr>, hosts: seq<Attr>)
    requires id in s.pa.table
  {
    && |sent| == |hosts|
    && forall i :: 0 <= i < |sent| ==> SentOne(s, meta, id, realOid, sent[i], hosts[i])
  }

  ghost predicate SentOne(s: Mux, meta: Meta, id: Oid, realOid: Oid, a: Attr, host: Attr)
    requires id in s.pa.table
  {
    && a.id == host.id
    && meta(s.pa.table[id].adapter, realOid, a.id).Some?
    && var t := TypeOf(s.pa.table, meta, id, a.id);
       && t.Some? && !IsHandler(t.value, a.value)
       && Renders(s.pa.table, s.pa.table[id].adapter, t.value, host.value, a.value)
  }

  /** MAIN RESULT. The host is told exactly what the library means: if every attribute is of known
      type and the library sends the host's values in its own ids, those values are delivered, all of
      them and in order, to the handler of the context under the object's muxed id. */
  lemma NotifyDelivers(s: Mux, meta: Meta, ctx: Ctx, realOid: Oid, sent: seq<Attr>, hosts: seq<Attr>)
    requires Linked(s) && ctx.muxedOid in s.pa.table && SentFor(s, meta, ctx.muxedOid, realOid, sent, hosts)
    ensures NotifyStep(s.pa.table, s.pa.notifs, meta, ctx, realOid, sent)
         == Some(Delivery(ctx.host, ctx.muxedOid, hosts))
  {
    AllDelivered(s, meta, ctx, realOid, sent, hosts);
  }

  lemma {:induction false} AllDelivered(s: Mux, meta: Meta, ctx: Ctx, realOid: Oid, sent: seq<Attr>, hosts: seq<Attr>)
    requires Linked(s) && ctx.muxedOid in s.pa.table && SentFor(s, meta, ctx.muxedOid, realOid, sent, hosts)
    ensures ShownAll(s.pa.table, s.pa.notifs, meta, ctx, realOid, sent) == hosts
    decreases sent
  {
    if sent != [] {
      var n := |sent| - 1;
      var (front, last, others, host) := (sent[..n], sent[n], hosts[..n], hosts[n]);
      assert hosts == others + [host];
      SentForFront(s, meta, ctx.muxedOid, realOid, sent, hosts);
      ShownLast(s.pa.table, s.pa.notifs, meta, ctx, realOid, sent);
      AllDelivered(s, meta, ctx, realOid, front, others);
      OneDelivered(s, meta, ctx, realOid, last, host);
    }
  }

  lemma SentForFront(s: Mux, meta: Meta, id: Oid, realOid: Oid, sent: seq<Attr>, hosts: seq<Attr>)
    requires id in s.pa.table && sent != [] && SentFor(s, meta, id, realOid, sent, hosts)
    ensures var n := |sent| - 1;
            SentFor(s, meta, id, realOid, sent[..n], hosts[..n]) && SentOne(s, meta, id, realOid, sent[n], hosts[n])
  {
    var (front, others) := (sent[..|sent| - 1], hosts[..|sent| - 1]);
    forall i | 0 <= i < |front| ensures SentOne(s, meta, id, realOid, front[i], others[i]) {
      assert SentOne(s, meta, id, realOid, sent[i], hosts[i]);
    }
  }

  lemma OneDelivered(s: Mux, meta: Meta, ctx: Ctx, realOid: Oid, a: Attr, host: Attr)
    requires Linked(s) && ctx.muxedOid in s.pa.table && SentOne(s, meta, ctx.muxedOid, realOid, a, host)
    ensures Shown(s.pa.table, s.pa.notifs, meta, ctx, realOid, a) == [host]
  {
    var (id, ad) := (ctx.muxedOid, s.pa.table[ctx.muxedOid].adapter);
    var t := TypeOf(s.pa.table, meta, id, a.id).value;
    RendersIsNamed(s.pa.table, ad, t, host.value, a.value);
    ShownIs(s, meta, ctx, realOid, a);
    var shown := Shown(s.pa.table, s.pa.notifs, meta, ctx, realOid, a)[0];
    RendersUnique(s.pa.table, ad, t, shown.value, host.value, a.value);
  }

  lemma RendersIsNamed(table: Table, a: AdapterId, t: ValueType, host: Value, lib: Value)
    requires Renders(table, a, t, host, lib)
    ensures Renderable(table, a, t, lib)
  {
    match (t, lib)
    case (ObjListType, ObjListV(rs)) => NamesAreNamed(table, a, host.list, rs);
    case (ObjMapListType, ObjMapListV(es)) =>
      forall i | 0 <= i < |es| ensures Named(table, a, es[i].key) && NamedAll(table, a, es[i].list) {
        NamesAreNamed(table, a, host.entries[i].list, es[i].list);
      }
    case _ =>
  }

  lemma NamesAreNamed(table: Table, a: AdapterId, xs: seq<Oid>, rs: seq<Oid>)
    requires NamesAll(table, a, xs, rs)
    ensures NamedAll(table, a, rs)
  {
    forall k | 0 <= k < |rs| ensures Named(table, a, rs[k]) { assert Names(table, a, xs[k], rs[k]); }
  }

  // ---- create ------------------------------------------------------------------------------------

  /** A new object of this type and parent is known to the host under `id`. */
  ghost predicate Made(s: Mux, s': Mux, id: Oid, a: AdapterId, t: ObjectType, parent: Oid, r: Oid) {
    && 1 <= id <= 255 && id !in s.objects
    && s'.objects == s.objects[id := MuxObject(id, r, a, t, parent)]
    && s'.pa.table == s.pa.table[id := Target(r, a)] && s'.pa.used == s.pa.used + {id} && s'.pa.notifs == s.pa.notifs
  }

  /** The library has made its object. */
  ghost predicate LibraryMade(libs: seq<Lib>, a: AdapterId, t: ObjectType, realParent: Oid, r: Oid,
                              attrs: map<AttrId, Value>)
  {
    a < |libs| ==> r in libs[a].live && libs[a].live[r] == LibObject(t, realParent, attrs)
  }

  lemma InstallMakes(s: Mux, a: AdapterId, t: ObjectType, parent: Oid, realParent: Oid, r: Oid,
                     attrs: map<AttrId, Value>)
    requires TablesAgree(s) && t != NullType
    ensures var (st, id, s') := Install(s, a, t, parent, realParent, Created(r, attrs));
            && (st == Success <==> |s.objects| < 255)
            && LibraryMade(s'.libs, a, t, realParent, r, attrs)
            && if st == Success then Made(s, s', id, a, t, parent, r)
               else st == Failure && s'.objects == s.objects && s'.pa == s.pa
  {
    CreateOutcome(s, a, t, parent, realParent, r, attrs);
  }

  /** An interface is made exactly if the parent is a live module, its library accepts and fewer than
      255 objects live: of the type asked for, in the parent's library and under the parent there. At
      255 the call fails, and the library is left with its object. */
  lemma CreateInterface(s: Mux, t: ObjectType, parent: Oid, loc: Option<string>, script: ScriptReply,
                        logs: LogReplies, reply: CreateReply)
    requires TablesAgree(s) && IsInterface(t)
    ensures var (st, id, s') := CreateStep(s, t, parent, loc, script, logs, reply);
            if parent !in s.objects then st == Uninitialized && s' == s
            else if s.objects[parent].objectType != ModuleType then st == InvalidObjectId && s' == s
            else match reply
              case CreateRefused(e) => st == e && s' == s
              case Created(r, attrs) =>
                var m := s.objects[parent];
                && (st == Success <==> |s.objects| < 255)
                && LibraryMade(s'.libs, m.adapter, t, m.realId, r, attrs)
                && (st == Success ==> Made(s, s', id, m.adapter, t, parent, r))
                && (st != Success ==> st == Failure && s'.objects == s.objects && s'.pa == s.pa)
                && s'.loader == s.loader && s'.logSetting == s.logSetting
  {
    if parent in s.objects && reply.Created? {
      var m := s.objects[parent];
      InstallMakes(s, m.adapter, t, parent, m.realId, reply.realId, reply.attrs);
    }
  }

  /** The replay of recorded settings succeeds exactly if the library accepts each. */
  lemma {:induction false} ReplayAccepted(libs: seq<Lib>, a: AdapterId, settings: map<Api, LogSetting>,
                                          replies: LogReplies)
    ensures ReplayLogs(libs, a, settings, replies).0 == Success
       <==> forall k :: k in settings ==> replies(a, k) == Success
    decreases settings.Keys
  {
    if settings != map[] {
      assert settings.Keys != {};
      var k := Least(settings.Keys);
      if replies(a, k) == Success {
        ReplayAccepted(LibLog(libs, a, k, settings[k]), a, settings - {k}, replies);
        assert forall j :: j in settings <==> j == k || j in settings - {k};
      }
    }
  }

  function Below(settings: map<Api, LogSetting>, k: Api): map<Api, LogSetting> {
    map j | j in settings && j < k :: settings[j]
  }

  /** A refused replay has sent exactly the settings before the refused one, in ascending order. */
  lemma {:induction false} ReplayStopsAt(libs: seq<Lib>, a: AdapterId, settings: map<Api, LogSetting>,
                                         replies: LogReplies, k: Api)
    requires a < |libs| && k in settings && replies(a, k) != Success
    requires forall j :: j in settings && j < k ==> replies(a, j) == Success
    ensures var (st, libs') := ReplayLogs(libs, a, settings, replies);
            && st == replies(a, k) && |libs'| == |libs|
            && libs'[a] == libs[a].(logs := libs[a].logs + Below(settings, k))
            && forall b :: 0 <= b < |libs| && b != a ==> libs'[b] == libs[b]
    decreases settings.Keys
  {
    assert settings.Keys != {};
    var j := Least(settings.Keys);
    if j == k {
      assert Below(settings, k).Keys == {};
    } else {
      var mid := LibLog(libs, a, j, settings[j]);
      ReplayStopsAt(mid, a, settings - {j}, replies, k);
      assert mid[a].logs + Below(settings - {j}, k) == libs[a].logs + Below(settings, k);
    }
  }

  /** A module is made exactly if the location leads to a library, that accepts the recorded settings
      and the creation, and fewer than 255 objects live. */
  lemma CreateModule(s: Mux, parent: Oid, loc: string, script: ScriptReply, logs: LogReplies, reply: CreateReply)
    requires Linked(s)
    ensures var lk := LookupAdapter(s.loader, s.libs, loc, script);
            var (st, id, s') := CreateStep(s, ModuleType, parent, Some(loc), script, logs, reply);
            && (st == Success <==>
                  && lk.thrown == Success && lk.adapter.Some?
                  && (forall k :: k in s.logSetting ==> logs(lk.adapter.value, k) == Success)
                  && reply.Created? && |s.objects| < 255)
            && (st == Success ==>
                  && lk.adapter.value < |s'.libs|
                  && Made(s, s', id, lk.adapter.value, ModuleType, NULL_OID, reply.realId)
                  && LibraryMade(s'.libs, lk.adapter.value, ModuleType, NULL_OID, reply.realId, reply.attrs))
            && (st != Success ==> s'.objects == s.objects && s'.pa == s.pa)
            && (lk.thrown != Success ==> st == lk.thrown)
            && (lk.thrown == Success && lk.adapter.None? ==> st == Failure)
            && (lk.thrown == Success && lk.adapter.Some? && reply.CreateRefused? ==>
                  (forall k :: k in s.logSetting ==> logs(lk.adapter.value, k) == Success) ==> st == reply.error)
            && s'.loader == lk.loader && |s'.libs| == |lk.libs| && s'.logSetting == s.logSetting
  {
    var lk := LookupAdapter(s.loader, s.libs, loc, script);
    LookupLinked(s, loc, script);
    if lk.thrown == Success && lk.adapter.Some? {
      var s1 := s.(loader := lk.loader, libs := lk.libs);
      ModuleAt(s1, lk.adapter.value, logs, reply);
      assert CreateStep(s, ModuleType, parent, Some(loc), script, logs, reply)
          == ReplayThenInstall(s1, lk.adapter.value, logs, reply);
    }
  }

  ghost function ReplayThenInstall(s: Mux, a: AdapterId, logs: LogReplies, reply: CreateReply): (Status, Oid, Mux) {
    var (st, libs) := ReplayLogs(s.libs, a, s.logSetting, logs);
    if st != Success then (st, NULL_OID, s.(libs := libs))
    else Install(s.(libs := libs), a, ModuleType, NULL_OID, NULL_OID, reply)
  }

  lemma ModuleAt(s: Mux, a: AdapterId, logs: LogReplies, reply: CreateReply)
    requires TablesAgree(s) && a < |s.libs|
    ensures var (st, id, s') := ReplayThenInstall(s, a, logs, reply);
            && (st == Success <==>
                  (forall k :: k in s.logSetting ==> logs(a, k) == Success) && reply.Created? && |s.objects| < 255)
            && (st == Success ==>
                  && Made(s, s', id, a, ModuleType, NULL_OID, reply.realId)
                  && LibraryMade(s'.libs, a, ModuleType, NULL_OID, reply.realId, reply.attrs))
            && (st != Success ==> s'.objects == s.objects && s'.pa == s.pa)
            && ((forall k :: k in s.logSetting ==> logs(a, k) == Success) && reply.CreateRefused? ==> st == reply.error)
            && s'.loader == s.loader && |s'.libs| == |s.libs| && s'.logSetting == s.logSetting
  {
    ReplayAccepted(s.libs, a, s.logSetting, logs);
    ReplayKeeps(s.libs, a, s.logSetting, logs);
    var s2 := s.(libs := ReplayLogs(s.libs, a, s.logSetting, logs).1);
    FiledFrame(s, s2);
    if reply.Created? {
      InstallMakes(s2, a, ModuleType, NULL_OID, NULL_OID, reply.realId, reply.attrs);
    }
  }

  /** What is neither, and a module without a location, is refused. */
  lemma CreateRefusals(s: Mux, t: ObjectType, parent: Oid, loc: Option<string>, script: ScriptReply,
                       logs: LogReplies, reply: CreateReply)
    requires t == NullType || (t == ModuleType && loc.None?)
    ensures CreateStep(s, t, parent, loc, script, logs, reply)
         == (if t == NullType then NotSupported else MandatoryAttributeMissing, NULL_OID, s)
  {
  }

  // ---- remove ------------------------------------------------------------------------------------

  /** A removed object is gone: from the host's view, from both id tables, and from its library; its
      id is free again, and no lookup leads to it. Nothing else is touched. */
  lemma RemovedIsGone(s: Mux, id: Oid)
    requires Linked(s) && id in s.objects
    ensures var (o, (st, s')) := (s.objects[id], RemoveStep(s, id, Removed));
            && st == Success && s'.objects == s.objects - {id}
            && s'.pa == Adapters(s.pa.used - {id}, s.pa.table - {id}, s.pa.notifs)
            && Reverse(s'.pa.table, Target(o.realId, o.adapter)) == NULL_OID && ObjectTypeOf(s', id) == NullType
            && id in Free(s'.pa.used)
            && o.realId !in LibAt(s'.libs, o.adapter).live
            && |s'.libs| == |s.libs|
            && (forall a :: 0 <= a < |s.libs| ==>
                  s'.libs[a] == if a == o.adapter then s.libs[a].(live := s.libs[a].live - {o.realId}) else s.libs[a])
            && s'.loader == s.loader && s'.logSetting == s.logSetting
  {
    var (o, s') := (s.objects[id], RemoveStep(s, id, Removed).1);
    assert Filed(s, id) && Placed(s, id);
    assert Sources(s'.pa.table, Target(o.realId, o.adapter)) == {};
  }

  /** An unknown object, and a removal the library refuses, change nothing. */
  lemma RemoveRefusals(s: Mux, id: Oid, reply: RemoveReply)
    requires TablesAgree(s) && (id !in s.objects || reply.RemoveRefused?)
    ensures RemoveStep(s, id, reply) == (if id !in s.objects then ItemNotFound else reply.error, s)
  {
    if id in s.objects { assert Filed(s, id); }
  }

  // ---- one adapter per library ---------------------------------------------------------------------

  ghost predicate HasAdapter(l: Loader, h: nat, a: AdapterId) {
    h in l.resident && h in l.libMap && l.libMap[h] == Some(a)
  }

  /** No two libraries share one of the adapters made so far, and a library that has one is resident. */
  ghost predicate HandlesApart(l: Loader, adapters: nat) {
    && (forall h: nat, a: nat {:trigger HasAdapter(l, h, a)} :: HasAdapter(l, h, a) ==> a < adapters)
    && (forall h: nat, h': nat, a: nat {:trigger HasAdapter(l, h, a), HasAdapter(l, h', a)} ::
          HasAdapter(l, h, a) && HasAdapter(l, h', a) ==> h == h')
    && l.libMap.Keys <= l.resident
  }

  lemma LookupKeepsHandles(l: Loader, libs: seq<Lib>, loc: string, script: ScriptReply, h: nat, a: AdapterId)
    requires HandlesApart(l, |libs|)
    ensures var lk := LookupAdapter(l, libs, loc, script);
            HandlesApart(lk.loader, |lk.libs|) && (HasAdapter(l, h, a) ==> HasAdapter(lk.loader, h, a))
  {
    var lk := LookupAdapter(l, libs, loc, script);
    forall g: nat, b: nat | HasAdapter(lk.loader, g, b)
      ensures HasAdapter(l, g, b) || (lk.libs == libs + [Lib(map[], map[])] && b == |libs| && script.handle == g)
    {
    }
  }

  lemma StepHandles(s: Mux, meta: Meta, op: Op, h: nat, a: AdapterId)
    requires HandlesApart(s.loader, |s.libs|)
    ensures var s' := Step(s, meta, op);
            && HandlesApart(s'.loader, |s'.libs|)
            && (HasAdapter(s.loader, h, a) ==> HasAdapter(s'.loader, h, a))
  {
    LoaderStep(s, meta, op);
    if op.Create? && op.location.Some? { LookupKeepsHandles(s.loader, s.libs, op.location.value, op.script, h, a); }
  }

  /** Only the creation of a module touches the loader. */
  lemma LoaderStep(s: Mux, meta: Meta, op: Op)
    ensures var s' := Step(s, meta, op);
            if op.Create? && op.objectType == ModuleType && op.location.Some?
            then
              var lk := LookupAdapter(s.loader, s.libs, op.location.value, op.script);
              s'.loader == lk.loader && |s'.libs| == |lk.libs|
            else s'.loader == s.loader && |s'.libs| == |s.libs|
  {
    match op
    case Create(t, parent, loc, script, logs, reply) =>
      if t == ModuleType && loc.Some? {
        var lk := LookupAdapter(s.loader, s.libs, loc.value, script);
        if lk.thrown == Success && lk.adapter.Some? { ReplayKeeps(lk.libs, lk.adapter.value, s.logSetting, logs); }
      }
    case Remove(_, _) =>
    case SetAttrs(id, attrs, alloc, reply) =>
      if id in s.objects { SetFrame(s, meta, s.objects[id].objectType, id, attrs, alloc, reply); }
    case GetAttrs(_) =>
    case SetLog(api, setting, logger, order, logs) => BroadcastKeeps(s.libs, order, api, setting, logs);
  }

  /** Over every run a library keeps the adapter it was given, and no other library is given it. */
  lemma {:induction false} RunHandles(s: Mux, meta: Meta, ops: seq<Op>, h: nat, a: AdapterId)
    requires HandlesApart(s.loader, |s.libs|)
    ensures HandlesApart(INITIAL.loader, |INITIAL.libs|)
    ensures var s' := Run(s, meta, ops);
            HandlesApart(s'.loader, |s'.libs|) && (HasAdapter(s.loader, h, a) ==> HasAdapter(s'.loader, h, a))
    decreases ops
  {
    if ops != [] {
      StepHandles(s, meta, ops[0], h, a);
      RunHandles(Step(s, meta, ops[0]), meta, ops[1..], h, a);
    }
  }

  /** A library that is not resident gets an adapter of its own if it loads, under its handle and for
      the location; if it does not, the creation fails and no adapter is made. */
  lemma FirstModuleLoads(s: Mux, h: nat, parent: Oid, loc: string, load: LoadReply, logs: LogReplies,
                         reply: CreateReply)
    requires Linked(s) && HandlesApart(s.loader, |s.libs|) && h !in s.loader.resident
    ensures var (st, id, s') := CreateStep(s, ModuleType, parent, Some(loc), Script(h, load), logs, reply);
            match load
            case LoadOk =>
              && (st == Success ==> id in s'.objects && s'.objects[id].adapter == |s.libs|)
              && HasAdapter(s'.loader, h, |s.libs|) && |s'.libs| == |s.libs| + 1
              && s'.loader.locMap == s.loader.locMap[loc := Some(|s.libs|)]
            case OpenFailed => st == Failure && s' == s
            case InitFailed(e) => st == e && s'.objects == s.objects && s'.libs == s.libs
                                  && s'.loader == s.loader.(resident := s.loader.resident + {h})
  {
    CreateModule(s, parent, loc, Script(h, load), logs, reply);
  }

  /** So whatever happens in between, a module made later at a location that leads to a library in use
      lands in that library's adapter, and nothing is loaded. */
  lemma LaterModuleShares(s: Mux, meta: Meta, ops: seq<Op>, h: nat, a: AdapterId, parent: Oid, loc: string,
                          load: LoadReply, logs: LogReplies, reply: CreateReply)
    requires Linked(s) && HonestRun(s, meta, ops) && HandlesApart(s.loader, |s.libs|) && HasAdapter(s.loader, h, a)
    ensures var s1 := Run(s, meta, ops);
            var (st, id, s2) := CreateStep(s1, ModuleType, parent, Some(loc), Script(h, load), logs, reply);
            && (st == Success ==> id in s2.objects && s2.objects[id].adapter == a)
            && |s2.libs| == |s1.libs| && s2.loader.locMap == s1.loader.locMap[loc := Some(a)]
            && forall g: nat, b: nat :: HasAdapter(s2.loader, g, b) <==> HasAdapter(s1.loader, g, b)
  {
    var s1 := Run(s, meta, ops);
    RunLinked(s, meta, ops);
    RunHandles(s, meta, ops, h, a);
    CreateModule(s1, parent, loc, Script(h, load), logs, reply);
  }

  // ---- log settings ------------------------------------------------------------------------------

  /** A setting is recorded exactly if the call succeeds; nothing but the settings in the libraries
      changes otherwise, and nothing at all if the process-wide logger refuses. */
  lemma SetLogOutcome(s: Mux, api: Api, setting: LogSetting, logger: Status, order: seq<Option<AdapterId>>,
                      logs: LogReplies)
    ensures var (st, s') := SetLogStep(s, api, setting, logger, order, logs);
            && (logger != Success ==> st == logger && s' == s)
            && (logger == Success ==>
                  (st == Success <==>
                     forall i :: 0 <= i < |order| ==> order[i].Some? && logs(order[i].value, api) == Success))
            && s'.logSetting == (if st == Success then s.logSetting[api := setting] else s.logSetting)
            && s'.objects == s.objects && s'.pa == s.pa && s'.loader == s.loader
  {
    BroadcastAccepted(s.libs, order, api, setting, logs);
  }

  /** A walk that stops has sent the setting to exactly the adapters before. */
  lemma {:induction false} BroadcastStopsAt(libs: seq<Lib>, order: seq<Option<AdapterId>>, api: Api,
                                            setting: LogSetting, replies: LogReplies, n: nat)
    requires n < |order| && (order[n].Some? ==> replies(order[n].value, api) != Success)
    requires forall i :: 0 <= i < n ==> order[i].Some? && replies(order[i].value, api) == Success
    ensures var (st, libs') := BroadcastLog(libs, order, api, setting, replies);
            && st == (if order[n].None? then NullPointer else replies(order[n].value, api)) && |libs'| == |libs|
            && forall b: AdapterId {:trigger libs'[b]} :: b < |libs| ==>
                 libs'[b] == if Some(b) in order[..n] then libs[b].(logs := libs[b].logs[api := setting]) else libs[b]
    decreases order
  {
    if n > 0 {
      BroadcastStopsAt(LibLog(libs, order[0].value, api, setting), order[1..], api, setting, replies, n - 1);
      assert order[..n] == [order[0]] + order[1..][..n - 1];
    }
  }

  lemma {:induction false} BroadcastAccepted(libs: seq<Lib>, order: seq<Option<AdapterId>>, api: Api,
                                             setting: LogSetting, replies: LogReplies)
    ensures BroadcastLog(libs, order, api, setting, replies).0 == Success
       <==> forall i :: 0 <= i < |order| ==> order[i].Some? && replies(order[i].value, api) == Success
    decreases order
  {
    if order != [] && order[0].Some? && replies(order[0].value, api) == Success {
      BroadcastAccepted(LibLog(libs, order[0].value, api, setting), order[1..], api, setting, replies);
      assert forall i :: 1 <= i < |order| ==> order[1..][i - 1] == order[i];
      assert forall i :: 0 <= i < |order| - 1 ==> order[1..][i] == order[i + 1];
    }
  }
}
