/** `PlatformAdapter` and its notification contexts, proved against the state machine of MuxSpec.
    The part of a call that runs inside a vendor library is a value: its answer is a parameter. */
module PlatformAdapters {
  import opened Options
  import opened MuxTypes
  import opened Translation
  import opened MuxSpec
  import opened MuxNotifications
  import opened OidAllocators
  import opened Buffers

  class PlatformAdapter {
    const meta: Meta
    const allocator: OIDAllocator
    var table: Table
    /** A context lives in its map entry; `addr` is the pointer to it the libraries are given. */
    var notifs: Notifs
    var loader: Loader
    var libs: seq<Lib>

    ghost predicate Valid()
      reads this, allocator, allocator.bits
    {
      allocator.Valid()
    }

    /** The state this object holds; `m_objects` and the log settings are the platform's. */
    ghost function State(): Mux
      reads this, allocator, allocator.bits
    {
      Mux(map[], Adapters(allocator.Used(), table, notifs), loader, libs, map[])
    }

    constructor (meta: Meta)
      ensures Valid() && this.meta == meta && fresh(allocator) && fresh(allocator.bits)
      ensures State() == INITIAL
    {
      this.meta := meta;
      allocator := new OIDAllocator();
      table, notifs, loader, libs := map[], map[], Loader({}, map[], map[]), [];
    }

    // ---- lookups ----------------------------------------------------------------------

    /** `get_mapping`. */
    function GetMapping(id: Oid): Option<Target>
      reads this
    {
      if id in table then Some(table[id]) else None
    }

    /** Walks the map in ascending key order and stops at the first hit. */
    method GetReverseMapping(realId: Oid, adapter: AdapterId) returns (id: Oid)
      ensures id == Reverse(table, Target(realId, adapter))
    {
      var rest := table.Keys;
      while rest != {}
        invariant rest <= table.Keys
        invariant forall k :: k in table && k !in rest ==> table[k] != Target(realId, adapter)
        invariant forall j, k :: j in table && j !in rest && k in rest ==> j < k
      {
        ghost var least := Least(rest);
        var k :| k in rest && forall j :: j in rest ==> k <= j;
        if table[k].realId == realId && table[k].adapter == adapter {
          assert k in Sources(table, Target(realId, adapter));
          return k;
        }
        rest := rest - {k};
      }
      assert Sources(table, Target(realId, adapter)) == {};
      return NULL_OID;
    }

    /** The lambda `convert`. */
    method Convert(s: Oid, adapter: AdapterId, reversed: bool) returns (r: Oid)
      ensures r == Translator(table, adapter, reversed).Apply(s)
    {
      if reversed {
        r := GetReverseMapping(s, adapter);
      } else {
        r := if s in table then table[s].realId else NULL_OID;
      }
    }

    // ---- in-place translation of lists -----------------------------------------------------

    /** Source and destination are the same buffer or two. */
    method ConvertIdList(adapter: AdapterId, reversed: bool, src: array<Oid>, dst: array<Oid>) returns (ok: bool)
      requires src.Length == dst.Length
      modifies dst
      ensures var x := Translator(table, adapter, reversed);
              && ok == ListOk(x, old(src[..]))
              && dst[..] == ConvertList(x, old(src[..]), old(dst[..]))
    {
      ghost var x := Translator(table, adapter, reversed);
      ghost var s, d := src[..], dst[..];
      for i := 0 to src.Length
        invariant forall j :: i <= j < src.Length ==> src[j] == s[j]
        invariant forall j :: 0 <= j < src.Length ==> dst[j] == if j < i then x.Apply(s[j]) else d[j]
        invariant forall j :: 0 <= j < i ==> x.Apply(s[j]) != NULL_OID
      {
        var o := Convert(src[i], adapter, reversed);
        dst[i] := o;
        if o == NULL_OID {
          FirstNullIs(x, s, i);
          return false;
        }
      }
      FirstNullIs(x, s, src.Length);
      return true;
    }

    /** One turn of the outer loop over the entries of an object map list. */
    method ConvertEntryAt(adapter: AdapterId, reversed: bool, src: array<RawEntry>, dst: array<RawEntry>, i: nat)
        returns (ok: bool)
      requires i < src.Length == dst.Length && src[i].list.Length == dst[i].list.Length
      modifies dst, dst[i].list
      ensures var x := Translator(table, adapter, reversed);
              var (s, d) := old((Entry(src[i].key, src[i].list[..]), Entry(dst[i].key, dst[i].list[..])));
              && ok == EntryOk(x, s)
              && Entry(dst[i].key, dst[i].list[..]) == ConvertEntry(x, s, d)
      ensures dst[i].list == old(dst[i].list)
      ensures forall j :: 0 <= j < dst.Length && j != i ==> dst[j] == old(dst[j])
    {
      var o := Convert(src[i].key, adapter, reversed);
      dst[i] := dst[i].(key := o);
      if o == NULL_OID {
        return false;
      }
      ok := ConvertIdList(adapter, reversed, src[i].list, dst[i].list);
    }

    /** The outer loop, against snapshots of the entries and of the list pointers. It stops at the
        first entry that does not translate. */
    method ConvertMapLoop(adapter: AdapterId, reversed: bool, src: array<RawEntry>, dst: array<RawEntry>,
                          ghost s: seq<Entry>, ghost d: seq<Entry>,
                          ghost sl: seq<array<Oid>>, ghost dl: seq<array<Oid>>)
        returns (k: nat)
      requires src.Length == dst.Length == |s| == |d| == |sl| == |dl| && SameShape(s, d)
      requires forall j :: 0 <= j < |s| ==> src[j] == RawEntry(s[j].key, sl[j]) && sl[j][..] == s[j].list
      requires forall j :: 0 <= j < |d| ==> dst[j] == RawEntry(d[j].key, dl[j]) && dl[j][..] == d[j].list
      requires forall i, j :: 0 <= i < j < |dl| ==> dl[i] != dl[j]
      requires src == dst || forall i, j :: 0 <= i < |sl| && 0 <= j < |dl| ==> sl[i] != dl[j]
      modifies dst, dl
      ensures k == FirstBad(Translator(table, adapter, reversed), s)
      ensures forall j :: 0 <= j < |d| ==> dst[j].list == dl[j]
      ensures forall j :: 0 <= j < |d| ==>
                Entry(dst[j].key, dl[j][..])
                == if j <= k then ConvertEntry(Translator(table, adapter, reversed), s[j], d[j]) else d[j]
    {
      ghost var x := Translator(table, adapter, reversed);
      k := 0;
      while k < src.Length
        invariant k <= src.Length
        invariant forall j :: 0 <= j < |d| ==> dst[j].list == dl[j]
        invariant forall j :: k <= j < |s| ==> src[j] == RawEntry(s[j].key, sl[j]) && sl[j][..] == s[j].list
        invariant forall j :: 0 <= j < k ==> EntryOk(x, s[j])
        invariant forall j :: 0 <= j < |d| ==>
                  Entry(dst[j].key, dl[j][..]) == if j < k then ConvertEntry(x, s[j], d[j]) else d[j]
      {
        assert Entry(src[k].key, src[k].list[..]) == s[k] && Entry(dst[k].key, dl[k][..]) == d[k];
        var ok := ConvertEntryAt(adapter, reversed, src, dst, k);
        if !ok {
          FirstBadIs(x, s, k);
          return;
        }
        k := k + 1;
      }
      FirstBadIs(x, s, k);
    }

    /** The doubly nested loop, on one object map list or from one to another. */
    method ConvertMapList(adapter: AdapterId, reversed: bool, src: array<RawEntry>, dst: array<RawEntry>)
        returns (ok: bool)
      requires Separate(dst) && SameShape(Entries(src), Entries(dst))
      requires src == dst || Lists(src) !! Lists(dst)
      modifies dst, Lists(dst)
      ensures forall i :: 0 <= i < dst.Length ==> dst[i].list == old(dst[i].list)
      ensures var x := Translator(table, adapter, reversed);
              && ok == (FirstBad(x, old(Entries(src))) == src.Length)
              && Entries(dst) == ConvertEntries(x, old(Entries(src)), old(Entries(dst)))
    {
      ghost var s, d := Entries(src), Entries(dst);
      var k := ConvertMapLoop(adapter, reversed, src, dst, s, d, Pointers(src), Pointers(dst));
      ok := k == src.Length;
    }

    // ---- one attribute ---------------------------------------------------------------------

    /** The notification case of `convert_oid`. */
    method ConvertNotification(objectType: ObjectType, key: Key, h: Handler, reversed: bool, alloc: Allocate)
        returns (out: Handler)
      modifies this`notifs
      ensures var c := ConvertHandler(old(notifs), alloc, objectType, key, h, reversed);
              c.attr == MuxTypes.Attr(key.attr, NotificationV(out)) && notifs == c.notifs
    {
      if reversed {
        return if key in notifs then notifs[key].host else h;
      }
      if h.notify == NoNotify {
        return h;
      }
      if key !in notifs {
        notifs := notifs[key := Ctx(alloc(Addresses(notifs)), Handler(0, NoNotify), NULL_OID, NullType)];
      }
      notifs := notifs[key := Ctx(notifs[key].addr, h, key.oid, objectType)];
      out := Handler(notifs[key].addr, MuxCallback);
    }

    /** The id cases of `convert_oid`. */
    method ConvertIds(t: ValueType, adapter: AdapterId, src: Attribute, dst: Attribute, reversed: bool)
        returns (ok: bool)
      requires src.Valid() && dst.Valid()
      requires src == dst || src.Repr !! dst.Repr
      requires dst.Attr() == src.Attr() && this !in dst.Repr
      modifies dst.Repr
      ensures dst.Valid() && dst.Repr == old(dst.Repr) && dst.id == old(dst.id)
      ensures var x := Translator(table, adapter, reversed);
              ok == ValueOk(x, t, old(src.Value())) && dst.Value() == ConvertValue(x, t, old(src.Value()))
    {
      match (t, src.value) {
        case (OidType, OidR(o)) =>
          var r := Convert(o, adapter, reversed);
          dst.value := OidR(r);
          return r != NULL_OID;
        case (ObjListType, ObjListR(l)) =>
          assert l[..] == dst.value.list[..] && |l[..]| == |dst.value.list[..]|;
          ok := ConvertIdList(adapter, reversed, l, dst.value.list);
        case (ObjMapListType, ObjMapListR(es)) =>
          ok := ConvertInMap(adapter, reversed, es, dst);
        case _ =>
          return true;
      }
    }

    method ConvertInMap(adapter: AdapterId, reversed: bool, src: array<RawEntry>, dst: Attribute) returns (ok: bool)
      requires dst.Valid() && this !in dst.Repr && dst.value.ObjMapListR? && Entries(dst.value.entries) == Entries(src)
      requires src == dst.value.entries || ({src} + Lists(src)) !! dst.Repr
      modifies dst.Repr
      ensures dst.Valid() && dst.Repr == old(dst.Repr) && dst.id == old(dst.id)
      ensures var x := Translator(table, adapter, reversed);
              var es := old(Entries(src));
              ok == (FirstBad(x, es) == |es|) && dst.Value() == ObjMapListV(ConvertEntries(x, es, es))
    {
      ghost var es := Entries(src);
      forall i | 0 <= i < |es| ensures |Entries(dst.value.entries)[i].list| == |es[i].list| {}
      ok := ConvertMapList(adapter, reversed, src, dst.value.entries);
      assert Lists(dst.value.entries) == old(Lists(dst.value.entries));
    }

    /** `convert_oid`: source and destination are one attribute, or the second is a deep copy. */
    method ConvertOid(objectType: ObjectType, id: Oid, src: Attribute, dst: Attribute, reversed: bool, alloc: Allocate)
        returns (st: Status)
      requires src.Valid() && dst.Valid()
      requires src == dst || src.Repr !! dst.Repr
      requires dst.Attr() == src.Attr() && this !in dst.Repr
      modifies this`notifs, dst.Repr
      ensures dst.Valid() && dst.Repr == old(dst.Repr) && dst.id == old(dst.id)
      ensures var c := ConvertAttr(table, old(notifs), meta, alloc, objectType, id, old(src.Attr()), reversed);
              st == c.status && dst.Attr() == c.attr && notifs == c.notifs
    {
      var t := GetMapping(id);
      if t.None? {
        return Failure;
      }
      var vt := meta(t.value.adapter, t.value.realId, src.id);
      if vt.None? {
        return Failure;
      }
      if vt.value == NotificationType && src.value.NotificationR? {
        var out := ConvertNotification(objectType, Key(id, src.id), src.value.handler, reversed, alloc);
        dst.value := NotificationR(out);
        return Success;
      }
      var ok := ConvertIds(vt.value, t.value.adapter, src, dst, reversed);
      return if ok then Success else Failure;
    }

    // ---- set, get, notify ------------------------------------------------------------------

    /** An attribute of a caller's list: well-formed, apart from this object, and its value. */
    ghost predicate Given(a: Attribute, v: Attr)
      reads a, a.Repr
    {
      a.Valid() && this !in a.Repr && a.Attr() == v
    }

    /** `set`: each attribute is copied and the copy translated; `vals` are the request's values. */
    method Set(objectType: ObjectType, id: Oid, attrs: seq<Attribute>, ghost vals: seq<Attr>, alloc: Allocate,
               reply: SetReply)
        returns (st: Status)
      requires |vals| == |attrs| && forall i :: 0 <= i < |attrs| ==> Given(attrs[i], vals[i])
      modifies this`notifs, this`libs
      ensures (st, State()) == SetStep(old(State()), meta, objectType, id, vals, alloc, reply)
    {
      var t := GetMapping(id);
      if t.None? {
        return Failure;
      }
      ghost var q := ConvertRequest(table, notifs, meta, alloc, objectType, id, vals);
      var inputs, keys;
      st, inputs, keys := ConvertAll(objectType, id, attrs, vals, alloc);
      if st != Success {
        return;
      }
      match reply {
        case Rejected(e, stored) =>
          libs := LibStore(libs, t.value, inputs, stored);
          st := e;
        case Accepted =>
          libs := LibStore(libs, t.value, inputs, UpTo(|inputs|));
          Erase(keys);
          assert (set k | k in keys) == q.nulled;
      }
    }

    /** One turn of the loop of `set`. */
    method ConvertCopy(objectType: ObjectType, id: Oid, a: Attribute, ghost v: Attr, alloc: Allocate)
        returns (st: Status, input: Attr, isNull: bool)
      requires id in table && Given(a, v)
      modifies this`notifs
      ensures var c := ConvertAttr(table, old(notifs), meta, alloc, objectType, id, v, false);
              st == c.status && notifs == c.notifs && (st == Success ==> input == c.attr)
      ensures st == Success ==>
                input.id == v.id && isNull == NullHandler(meta(table[id].adapter, table[id].realId, v.id), v.value)
    {
      var vt := meta(table[id].adapter, table[id].realId, a.id);
      if vt.None? {
        return Failure, Attr(0, PlainV("")), false;
      }
      var copy := NewAttribute(a.id, a.Value());
      isNull := NullHandler(vt, a.Value());
      st := ConvertOid(objectType, id, a, copy, false, alloc);
      input := copy.Attr();
    }

    method ConvertAll(objectType: ObjectType, id: Oid, attrs: seq<Attribute>, ghost vals: seq<Attr>, alloc: Allocate)
        returns (st: Status, inputs: seq<Attr>, keys: seq<Key>)
      requires id in table
      requires |vals| == |attrs| && forall i :: 0 <= i < |attrs| ==> Given(attrs[i], vals[i])
      modifies this`notifs
      ensures var q := ConvertRequest(table, old(notifs), meta, alloc, objectType, id, vals);
              && st == q.status && notifs == q.notifs
              && (st == Success ==> inputs == q.inputs && forall k :: k in keys <==> k in q.nulled)
    {
      inputs, keys := [], [];
      ghost var n := notifs;
      for i := 0 to |attrs|
        invariant forall j :: 0 <= j < |attrs| ==> Given(attrs[j], vals[j])
        invariant ConvertRequest(table, n, meta, alloc, objectType, id, vals[..i]).status == Success
        invariant ConvertRequest(table, n, meta, alloc, objectType, id, vals[..i]).inputs == inputs
        invariant ConvertRequest(table, n, meta, alloc, objectType, id, vals[..i]).notifs == notifs
        invariant forall k :: k in keys <==>
                  k in ConvertRequest(table, n, meta, alloc, objectType, id, vals[..i]).nulled
      {
        assert vals[..i + 1][..i] == vals[..i] && vals[..i + 1][i] == vals[i];
        var input, isNull;
        st, input, isNull := ConvertCopy(objectType, id, attrs[i], vals[i], alloc);
        if st != Success {
          RequestStops(table, n, meta, alloc, objectType, id, vals, i + 1);
          return;
        }
        inputs := inputs + [input];
        if isNull {
          keys := keys + [Key(id, input.id)];
        }
      }
      assert vals[..|attrs|] == vals;
      st := Success;
    }

    method Erase(keys: seq<Key>)
      modifies this`notifs
      ensures notifs == old(notifs) - set k | k in keys
    {
      for i := 0 to |keys|
        invariant notifs == old(notifs) - set k | k in keys[..i]
      {
        notifs := notifs - {keys[i]};
        assert keys[..i + 1] == keys[..i] + [keys[i]];
      }
      assert keys[..|keys|] == keys;
    }

    /** `get`: the library's values are put in the caller's attributes and translated there. */
    method Get(objectType: ObjectType, id: Oid, attrs: seq<Attribute>, ghost ids: seq<AttrId>, reply: GetReply)
        returns (st: Status)
      requires |ids| == |attrs| && forall i :: 0 <= i < |attrs| ==> attrs[i].id == ids[i]
      requires forall i, j :: 0 <= i < j < |attrs| ==> attrs[i] != attrs[j]
      requires reply.Got? ==> |reply.values| == |attrs|
      modifies this`notifs, attrs
      ensures State() == old(State())
      ensures st == GetStep(old(State()), meta, id, ids, reply).0
      ensures reply.Got? && id in old(table) ==>
                && |GetStep(old(State()), meta, id, ids, reply).1| == |attrs|
                && forall i :: 0 <= i < |attrs| ==>
                    attrs[i].Valid() && attrs[i].Attr() == GetStep(old(State()), meta, id, ids, reply).1[i]
    {
      var t := GetMapping(id);
      if t.None? {
        return Failure;
      }
      if reply.GetRefused? {
        return reply.error;
      }
      Fill(attrs, reply.values);
      forall i | 0 <= i < |attrs| ensures Given(attrs[i], Answer(ids, reply.values)[i]) {}
      ghost var reprs := set i, o | 0 <= i < |attrs| && o in attrs[i].Repr :: o;
      st := ConvertFilled(objectType, id, attrs, Answer(ids, reply.values), reprs);
    }

    /** The translation of what the library filled in. */
    method ConvertFilled(objectType: ObjectType, id: Oid, attrs: seq<Attribute>, ghost ans: seq<Attr>,
                         ghost reprs: set<object>)
        returns (st: Status)
      requires |ans| == |attrs| && forall i :: 0 <= i < |attrs| ==> Given(attrs[i], ans[i])
      requires forall i, j :: 0 <= i < j < |attrs| ==> attrs[i].Repr !! attrs[j].Repr
      requires this !in reprs && forall i :: 0 <= i < |attrs| ==> attrs[i].Repr <= reprs
      modifies this`notifs, reprs
      ensures notifs == old(notifs) && |ConvertAnswer(table, notifs, meta, id, ans).1| == |attrs|
      ensures st == ConvertAnswer(table, notifs, meta, id, ans).0
      ensures forall i :: 0 <= i < |attrs| ==> Given(attrs[i], ConvertAnswer(table, notifs, meta, id, ans).1[i])
    {
      ghost var out := seq(|ans|, i requires 0 <= i < |ans| reads this =>
        ConvertAttr(table, notifs, meta, NO_ALLOC, NullType, id, ans[i], true));
      var k;
      st, k := ConvertEach(objectType, id, attrs, ans, out, reprs);
      AnswerStops(table, notifs, meta, id, ans, k);
    }

    /** One turn of the loop of `get`: source and destination are the same attribute. */
    method ConvertInPlace(objectType: ObjectType, id: Oid, a: Attribute, ghost v: Attr) returns (st: Status)
      requires Given(a, v)
      modifies this`notifs, a.Repr
      ensures notifs == old(notifs) && a.Repr == old(a.Repr)
      ensures var c := ConvertAttr(table, notifs, meta, NO_ALLOC, NullType, id, v, true);
              st == c.status && Given(a, c.attr)
    {
      st := ConvertOid(objectType, id, a, a, true, NO_ALLOC);
    }

    /** The loop of `get`. It returns the index at which it stopped. */
    method ConvertEach(objectType: ObjectType, id: Oid, attrs: seq<Attribute>, ghost ans: seq<Attr>,
                       ghost out: seq<Converted>,
                       ghost reprs: set<object>)
        returns (st: Status, k: nat)
      requires |ans| == |out| == |attrs|
      requires forall i :: 0 <= i < |attrs| ==> Given(attrs[i], ans[i])
      requires forall i :: 0 <= i < |attrs| ==>
                out[i] == ConvertAttr(table, notifs, meta, NO_ALLOC, NullType, id, ans[i], true)
      requires forall i, j :: 0 <= i < j < |attrs| ==> attrs[i].Repr !! attrs[j].Repr
      requires this !in reprs && forall i :: 0 <= i < |attrs| ==> attrs[i].Repr <= reprs
      modifies this`notifs, reprs
      ensures notifs == old(notifs) && k <= |attrs|
      ensures st == if k < |attrs| then out[k].status else Success
      ensures k < |attrs| ==> out[k].status != Success
      ensures forall i :: 0 <= i < k ==> out[i].status == Success
      ensures forall i :: 0 <= i < |attrs| ==> Given(attrs[i], if i <= k then out[i].attr else ans[i])
    {
      k := 0;
      while k < |attrs|
        invariant k <= |attrs| && notifs == old(notifs)
        invariant forall i :: 0 <= i < |attrs| ==> attrs[i].Repr == old(attrs[i].Repr)
        invariant forall i :: 0 <= i < k ==> out[i].status == Success
        invariant forall i :: 0 <= i < |attrs| ==> Given(attrs[i], if i < k then out[i].attr else ans[i])
      {
        st := ConvertInPlace(objectType, id, attrs[k], ans[k]);
        if st != Success {
          return;
        }
        k := k + 1;
      }
      st := Success;
    }

    /** `notify`: the attributes are copied and translated in place; those that cannot be are
        skipped. None when the context's id is not mapped, else the call made to the host. */
    method Notify(ctx: Ctx, realOid: Oid, attrs: seq<Attribute>, ghost vals: seq<Attr>) returns (d: Option<Delivery>)
      requires |vals| == |attrs| && forall i :: 0 <= i < |attrs| ==> Given(attrs[i], vals[i])
      modifies this`notifs
      ensures State() == old(State())
      ensures d == NotifyStep(table, notifs, meta, ctx, realOid, vals)
    {
      var t := GetMapping(ctx.muxedOid);
      if t.None? {
        return None;
      }
      var shown: seq<Attr> := [];
      ghost var n := notifs;
      for i := 0 to |attrs|
        invariant notifs == n
        invariant forall j :: 0 <= j < |attrs| ==> Given(attrs[j], vals[j])
        invariant shown == ShownAll(table, n, meta, ctx, realOid, vals[..i])
      {
        assert vals[..i + 1][..i] == vals[..i];
        var one := ShowOne(ctx, t.value.adapter, realOid, attrs[i], vals[i]);
        shown := shown + one;
      }
      assert vals[..|attrs|] == vals;
      return Some(Delivery(ctx.host, ctx.muxedOid, shown));
    }

    /** One turn of its loop. */
    method ShowOne(ctx: Ctx, adapter: AdapterId, realOid: Oid, a: Attribute, ghost v: Attr) returns (one: seq<Attr>)
      requires ctx.muxedOid in table && table[ctx.muxedOid].adapter == adapter && Given(a, v)
      modifies this`notifs
      ensures notifs == old(notifs)
      ensures one == Shown(table, notifs, meta, ctx, realOid, v)
    {
      one := [];
      if meta(adapter, realOid, a.id).Some? {
        var copy := NewAttribute(a.id, a.Value());
        var st := ConvertOid(ctx.objectType, ctx.muxedOid, copy, copy, true, NO_ALLOC);
        if st == Success {
          one := [copy.Attr()];
        }
      }
    }

    // ---- mappings and adapters ---------------------------------------------------------------

    /** None where the allocator throws. */
    method CreateMapping(adapter: AdapterId, realId: Oid) returns (id: Option<Oid>)
      requires Valid()
      modifies this`table, allocator.bits
      ensures Valid()
      ensures var next := NextId(old(allocator.Used()));
              if next == NULL_OID then id.None? && State() == old(State())
              else
                && id == Some(next)
                && State() == old(State()).(pa := Adapters(old(allocator.Used()) + {next},
                                                           old(table)[next := Target(realId, adapter)], notifs))
    {
      id := allocator.Next();
      if id.Some? {
        table := table[id.value := Target(realId, adapter)];
      }
    }

    method RemoveMapping(id: Oid)
      requires Valid() && (id in table ==> id < MAX_OBJECT)
      modifies this`table, allocator.bits
      ensures Valid()
      ensures State() == if id in old(table)
                         then old(State()).(pa := Adapters(old(allocator.Used()) - {id}, old(table) - {id}, notifs))
                         else old(State())
    {
      if id !in table {
        return;
      }
      table := table - {id};
      allocator.Release(id);
    }

    /** `ExecPlatformAdapter::get_module_adapter`, the script's and the loader's answers given. */
    method GetModuleAdapter(location: string, script: ScriptReply) returns (thrown: Status, adapter: Option<AdapterId>)
      modifies this`loader, this`libs
      ensures Lookup(thrown, adapter, loader, libs) == LookupAdapter(old(loader), old(libs), location, script)
    {
      thrown, adapter := Success, None;
      match script {
        case ScriptFailed =>
        case NoLibrary =>
        case Script(h, load) =>
          if h !in loader.resident {
            match load {
              case OpenFailed => return Failure, None;
              case InitFailed(e) =>
                loader := loader.(resident := loader.resident + {h});
                return e, None;
              case LoadOk =>
                adapter := Some(|libs|);
                libs := libs + [Lib(map[], map[])];
                loader := loader.(resident := loader.resident + {h}, libMap := loader.libMap[h := adapter]);
            }
          } else {
            if h !in loader.libMap {
              loader := loader.(libMap := loader.libMap[h := None]);
            }
            adapter := loader.libMap[h];
          }
          loader := loader.(locMap := loader.locMap[location := adapter]);
      }
    }
  }

  method Fill(attrs: seq<Attribute>, values: seq<Value>)
    requires |values| == |attrs| && forall i, j :: 0 <= i < j < |attrs| ==> attrs[i] != attrs[j]
    modifies attrs
    ensures forall i :: 0 <= i < |attrs| ==>
              && attrs[i].Valid() && attrs[i].id == old(attrs[i].id) && attrs[i].Value() == values[i]
              && fresh(attrs[i].Repr - {attrs[i]})
    ensures forall i, j :: 0 <= i < j < |attrs| ==> attrs[i].Repr !! attrs[j].Repr
  {
    for k := 0 to |attrs|
      invariant forall i :: 0 <= i < |attrs| ==> attrs[i].id == old(attrs[i].id)
      invariant forall i :: 0 <= i < k ==>
                attrs[i].Valid() && attrs[i].Value() == values[i] && fresh(attrs[i].Repr - {attrs[i]})
      invariant forall i, j :: 0 <= i < j < k ==> attrs[i].Repr !! attrs[j].Repr
    {
      FillOne(attrs[k], values[k]);
    }
  }

  method FillOne(a: Attribute, v: Value)
    modifies a
    ensures a.Valid() && a.id == old(a.id) && a.Value() == v && fresh(a.Repr - {a})
  {
    var b := NewAttribute(a.id, v);
    a.value := b.value;
    a.Repr := b.Repr - {b} + {a};
  }

  // ---- where the loops stop --------------------------------------------------------------------

  /** Once an attribute fails, the rest of the request changes nothing. */
  lemma {:induction false} RequestStops(table: Table, n: Notifs, meta: Meta, alloc: Allocate, t: ObjectType, id: Oid,
                                        attrs: seq<Attr>, k: nat)
    requires id in table && k <= |attrs|
    requires ConvertRequest(table, n, meta, alloc, t, id, attrs[..k]).status != Success
    ensures ConvertRequest(table, n, meta, alloc, t, id, attrs) ==
              ConvertRequest(table, n, meta, alloc, t, id, attrs[..k])
    decreases attrs
  {
    if k == |attrs| {
      assert attrs[..k] == attrs;
    } else {
      var m := |attrs| - 1;
      assert attrs[..m][..k] == attrs[..k];
      RequestStops(table, n, meta, alloc, t, id, attrs[..m], k);
    }
  }

  lemma {:induction false} AnswerStops(table: Table, n: Notifs, meta: Meta, id: Oid, attrs: seq<Attr>, k: nat)
    requires k <= |attrs|
    requires forall j :: 0 <= j < k ==>
              ConvertAttr(table, n, meta, NO_ALLOC, NullType, id, attrs[j], true).status == Success
    requires k < |attrs| ==> ConvertAttr(table, n, meta, NO_ALLOC, NullType, id, attrs[k], true).status != Success
    ensures var (st, out) := ConvertAnswer(table, n, meta, id, attrs);
            && st == (if k < |attrs| then ConvertAttr(table, n, meta, NO_ALLOC, NullType, id, attrs[k], true).status
                      else Success)
            && |out| == |attrs|
            && forall j :: 0 <= j < |attrs| ==>
                 out[j] == if j <= k then ConvertAttr(table, n, meta, NO_ALLOC, NullType, id, attrs[j], true).attr
                           else attrs[j]
    decreases attrs
  {
    if k > 0 {
      AnswerStops(table, n, meta, id, attrs[1..], k - 1);
    }
  }
}
