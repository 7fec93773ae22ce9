/** Notification contexts over runs: the adapters hold raw pointers to them, so an entry of
    `m_notification_map` may only go once no adapter of a live object holds its address. */
module MuxNotifications {
  import opened Options
  import opened MuxTypes
  import opened Translation
  import opened MuxSpec
  import opened MuxInvariants

  // ---- invariants ------------------------------------------------------------------

  /** Each context carries its key's id and a host callback, and no two share an address. */
  ghost predicate ContextsOk(n: Notifs) {
    && (forall k :: k in n ==> n[k].muxedOid == k.oid && n[k].host.notify.HostNotify?)
    && (forall j, k :: j in n && k in n && n[j].addr == n[k].addr ==> j == k)
  }

  /** What the library has stored for the real object; nothing if it is not live. */
  function StoredAttrs(libs: seq<Lib>, t: Target): map<AttrId, Value> {
    var lib := LibAt(libs, t.adapter);
    if t.realId in lib.live then lib.live[t.realId].attrs else map[]
  }

  /** The library object behind `id` holds the multiplexer's callback with this context address. */
  ghost predicate Holds(s: Mux, id: Oid, x: AttrId, addr: nat) {
    && id in s.pa.table
    && x in StoredAttrs(s.libs, s.pa.table[id])
    && StoredAttrs(s.libs, s.pa.table[id])[x] == NotificationV(Handler(addr, MuxCallback))
  }

  ghost predicate Entered(n: Notifs, k: Key, addr: nat) {
    k in n && n[k].addr == addr
  }

  /** Every context a library can still call back is the entry under its object's key. */
  ghost predicate NoDangling(s: Mux) {
    forall id, x, addr {:trigger Holds(s, id, x, addr)} ::
      Holds(s, id, x, addr) ==> Entered(s.pa.notifs, Key(id, x), addr)
  }

  ghost predicate Safe(s: Mux) {
    Linked(s) && ContextsOk(s.pa.notifs) && NoDangling(s)
  }

  // ---- the loop of `set` -----------------------------------------------------------------

  ghost predicate Mentions(attrs: seq<Attr>, x: AttrId) {
    exists i :: 0 <= i < |attrs| && attrs[i].id == x
  }

  function TypeOf(table: Table, meta: Meta, id: Oid, x: AttrId): Option<ValueType>
    requires id in table
  {
    meta(table[id].adapter, table[id].realId, x)
  }

  /** Some entry of the request gives the attribute a null handler. */
  ghost predicate Nulls(t: Option<ValueType>, attrs: seq<Attr>, x: AttrId) {
    exists i :: 0 <= i < |attrs| && attrs[i].id == x && NullHandler(t, attrs[i].value)
  }

  /** Contexts after the loop: only keys of this object and these attributes were touched, and a
      context once made keeps its address. */
  ghost predicate Extends(n: Notifs, n': Notifs, id: Oid, attrs: seq<Attr>) {
    && (forall k :: k in n ==> k in n' && n'[k].addr == n[k].addr)
    && (forall k :: k in n' && (k.oid != id || !Mentions(attrs, k.attr)) ==> k in n && n'[k] == n[k])
  }

  /** What one input means for the contexts. */
  ghost predicate InputOk(n: Notifs, id: Oid, t: Option<ValueType>, a: Attr, input: Attr) {
    && input.id == a.id
    && (if t == Some(NotificationType) && a.value.NotificationV? && a.value.handler.notify != NoNotify
        then Key(id, a.id) in n && input.value == NotificationV(Handler(n[Key(id, a.id)].addr, MuxCallback))
        else !HoldsMux(input.value))
  }

  ghost predicate RequestOk(q: Request, table: Table, n: Notifs, meta: Meta, id: Oid, attrs: seq<Attr>)
    requires id in table
  {
    && ContextsOk(q.notifs) && Extends(n, q.notifs, id, attrs)
    && (q.status == Success ==>
          && |q.inputs| == |attrs|
          && (forall i {:trigger q.inputs[i]} :: 0 <= i < |attrs| ==>
                InputOk(q.notifs, id, TypeOf(table, meta, id, attrs[i].id), attrs[i], q.inputs[i]))
          && (forall k :: k in q.nulled <==> k.oid == id && Nulls(TypeOf(table, meta, id, k.attr), attrs, k.attr)))
  }

  lemma FreshContext(n: Notifs, k: Key, addr: nat, h: Handler, t: ObjectType)
    requires ContextsOk(n) && h.notify.HostNotify?
    requires if k in n then addr == n[k].addr else addr !in Addresses(n)
    ensures ContextsOk(n[k := Ctx(addr, h, k.oid, t)])
  {
    forall j | j in n && j != k ensures n[j].addr != addr {
      assert n[j].addr in Addresses(n);
    }
  }

  /** One attribute of a request. */
  lemma AttrOk(table: Table, n: Notifs, meta: Meta, alloc: Allocate, t: ObjectType, id: Oid, a: Attr)
    requires ContextsOk(n) && HonestSet([a], alloc) && id in table
    ensures var c := ConvertAttr(table, n, meta, alloc, t, id, a, false);
            && ContextsOk(c.notifs) && Extends(n, c.notifs, id, [a])
            && (c.status == Success ==>
                  InputOk(c.notifs, id, TypeOf(table, meta, id, a.id), a, c.attr))
  {
    assert !HoldsMux([a][0].value);
    var k := Key(id, a.id);
    assert [a][0].id == a.id;
    assert Mentions([a], a.id);
    if TypeOf(table, meta, id, a.id) == Some(NotificationType) && a.value.NotificationV? {
      if a.value.handler.notify.HostNotify? {
        FreshContext(n, k, if k in n then n[k].addr else alloc(Addresses(n)), a.value.handler, t);
      }
    } else if TypeOf(table, meta, id, a.id).Some? {
      var x := Translator(table, table[id].adapter, false);
      ValueKeepsHandler(x, TypeOf(table, meta, id, a.id).value, a.value);
    }
  }

  lemma ValueKeepsHandler(x: Translator, t: ValueType, v: Value)
    ensures HoldsMux(ConvertValue(x, t, v)) <==> HoldsMux(v)
  {
  }

  lemma {:induction false} ConvertRequestOk(table: Table, n: Notifs, meta: Meta, alloc: Allocate,
                                            t: ObjectType, id: Oid, attrs: seq<Attr>)
    requires ContextsOk(n) && HonestSet(attrs, alloc) && id in table
    ensures RequestOk(ConvertRequest(table, n, meta, alloc, t, id, attrs), table, n, meta, id, attrs)
  {
    if attrs != [] {
      var m := |attrs| - 1;
      var q := ConvertRequest(table, n, meta, alloc, t, id, attrs[..m]);
      ConvertRequestOk(table, n, meta, alloc, t, id, attrs[..m]);
      ExtendsMore(n, q.notifs, q.notifs, id, attrs);
      if q.status == Success {
        assert !HoldsMux(attrs[m].value);
        AttrOk(table, q.notifs, meta, alloc, t, id, attrs[m]);
        var c := ConvertAttr(table, q.notifs, meta, alloc, t, id, attrs[m], false);
        ExtendsMore(n, q.notifs, c.notifs, id, attrs);
        if c.status == Success {
          InputsMore(table, meta, id, attrs, q, c, ConvertRequest(table, n, meta, alloc, t, id, attrs));
        }
      }
    }
  }

  /** The loop's bookkeeping when one more attribute has been converted. */
  lemma InputsMore(table: Table, meta: Meta, id: Oid, attrs: seq<Attr>, q: Request, c: Converted, q': Request)
    requires id in table && attrs != [] && |q.inputs| == |attrs| - 1
    requires var m := |attrs| - 1;
             && (forall i {:trigger q.inputs[i]} :: 0 <= i < m ==>
                   InputOk(q.notifs, id, TypeOf(table, meta, id, attrs[..m][i].id), attrs[..m][i], q.inputs[i]))
             && (forall k :: k in q.nulled <==>
                 k.oid == id && Nulls(TypeOf(table, meta, id, k.attr), attrs[..m], k.attr))
             && InputOk(c.notifs, id, TypeOf(table, meta, id, attrs[m].id), attrs[m], c.attr)
             && Extends(q.notifs, c.notifs, id, [attrs[m]])
             && q'.notifs == c.notifs && q'.inputs == q.inputs + [c.attr]
             && q'.nulled == if NullHandler(TypeOf(table, meta, id, attrs[m].id), attrs[m].value)
                             then q.nulled + {Key(id, attrs[m].id)} else q.nulled
    ensures forall i {:trigger q'.inputs[i]} :: 0 <= i < |attrs| ==>
              InputOk(q'.notifs, id, TypeOf(table, meta, id, attrs[i].id), attrs[i], q'.inputs[i])
    ensures forall k :: k in q'.nulled <==> k.oid == id && Nulls(TypeOf(table, meta, id, k.attr), attrs, k.attr)
  {
    var m := |attrs| - 1;
    forall i {:trigger q'.inputs[i]} | 0 <= i < |attrs|
      ensures InputOk(q'.notifs, id, TypeOf(table, meta, id, attrs[i].id), attrs[i], q'.inputs[i])
    {
      if i < m { assert q.inputs[i] == q'.inputs[i] && attrs[..m][i] == attrs[i]; }
    }
    forall k | true ensures k in q'.nulled <==> k.oid == id && Nulls(TypeOf(table, meta, id, k.attr), attrs, k.attr) {
      NullsMore(TypeOf(table, meta, id, k.attr), attrs, k.attr);
    }
  }

  lemma ExtendsMore(n: Notifs, n': Notifs, n'': Notifs, id: Oid, attrs: seq<Attr>)
    requires attrs != [] && Extends(n, n', id, attrs[..|attrs| - 1])
    requires n'' == n' || Extends(n', n'', id, [attrs[|attrs| - 1]])
    ensures Extends(n, n'', id, attrs)
  {
    var m := |attrs| - 1;
    forall x | !Mentions(attrs, x) ensures !Mentions(attrs[..m], x) && !Mentions([attrs[m]], x) {
      forall i | 0 <= i < m ensures attrs[..m][i].id != x { assert attrs[i].id != x; }
      assert attrs[m].id != x;
    }
  }

  lemma NullsMore(t: Option<ValueType>, attrs: seq<Attr>, x: AttrId)
    requires attrs != []
    ensures var (n, a) := (|attrs| - 1, attrs[|attrs| - 1]);
            Nulls(t, attrs, x) <==> Nulls(t, attrs[..n], x) || (a.id == x && NullHandler(t, a.value))
  {
    var n := |attrs| - 1;
    if i :| 0 <= i < |attrs| && attrs[i].id == x && NullHandler(t, attrs[i].value) {
      assert i < n ==> attrs[..n][i] == attrs[i];
    }
    if i :| 0 <= i < n && attrs[..n][i].id == x && NullHandler(t, attrs[..n][i].value) {
      assert attrs[..n][i] == attrs[i];
    }
  }

  // ---- what the library has stored ---------------------------------------------------------

  ghost function LastIndex(attrs: seq<Attr>, x: AttrId): (k: nat)
    requires Mentions(attrs, x)
    ensures k < |attrs| && attrs[k].id == x && forall i :: k < i < |attrs| ==> attrs[i].id != x
  {
    var n := |attrs| - 1;
    if attrs[n].id == x then n
    else
      assert Mentions(attrs[..n], x) by {
        var i :| 0 <= i < |attrs| && attrs[i].id == x;
        assert attrs[..n][i] == attrs[i];
      }
      LastIndex(attrs[..n], x)
  }

  /** The value a request ends up giving an attribute: that of its last entry for it. */
  ghost function LastValue(attrs: seq<Attr>, x: AttrId): Value
    requires Mentions(attrs, x)
  {
    attrs[LastIndex(attrs, x)].value
  }

  lemma {:induction false} StoreAt(had: map<AttrId, Value>, inputs: seq<Attr>, stored: set<nat>, x: AttrId)
    ensures var m := Store(had, inputs, stored);
            x in m ==> (x in had && m[x] == had[x])
                       || (exists i :: 0 <= i < |inputs| && inputs[i] == Attr(x, m[x]))
  {
    if inputs != [] {
      var n := |inputs| - 1;
      StoreAt(had, inputs[..n], stored, x);
      var m, m' := Store(had, inputs[..n], stored), Store(had, inputs, stored);
      if x in m' && !(x in had && m'[x] == had[x]) {
        if n in stored && inputs[n].id == x {
          assert inputs[n] == Attr(x, m'[x]);
        } else {
          var i :| 0 <= i < |inputs[..n]| && inputs[..n][i] == Attr(x, m[x]);
          assert inputs[i] == Attr(x, m'[x]);
        }
      }
    }
  }

  lemma {:induction false} StoreLast(had: map<AttrId, Value>, inputs: seq<Attr>, stored: set<nat>, x: AttrId)
    requires forall i: nat :: i < |inputs| ==> i in stored
    ensures var m := Store(had, inputs, stored);
            if Mentions(inputs, x) then x in m && m[x] == LastValue(inputs, x)
            else (x in m <==> x in had) && (x in m ==> m[x] == had[x])
  {
    if inputs != [] {
      var n := |inputs| - 1;
      StoreLast(had, inputs[..n], stored, x);
      assert n in stored;
      if inputs[n].id == x {
        assert LastIndex(inputs, x) == n;
      } else {
        if i :| 0 <= i < |inputs| && inputs[i].id == x {
          assert inputs[..n][i] == inputs[i];
        }
        if Mentions(inputs[..n], x) {
          var i := LastIndex(inputs[..n], x);
          assert inputs[i].id == x;
          assert inputs[..n][i] == inputs[i];
        }
      }
    }
  }

  lemma SameMentions(attrs: seq<Attr>, inputs: seq<Attr>, x: AttrId)
    requires |inputs| == |attrs| && forall i {:trigger inputs[i]} :: 0 <= i < |attrs| ==> inputs[i].id == attrs[i].id
    ensures Mentions(attrs, x) <==> Mentions(inputs, x)
    ensures Mentions(attrs, x) ==> LastIndex(inputs, x) == LastIndex(attrs, x)
  {
    if i :| 0 <= i < |attrs| && attrs[i].id == x { assert inputs[i].id == x; }
    if Mentions(inputs, x) {
      var i := LastIndex(inputs, x);
      assert attrs[i].id == x;
      var j := LastIndex(attrs, x);
      assert inputs[j].id == x;
    }
  }

  // ---- one attribute call ---------------------------------------------------------------------

  predicate LiveHandler(t: Option<ValueType>, v: Value) {
    t == Some(NotificationType) && v.NotificationV? && v.handler.notify != NoNotify
  }

  /** No attribute that some entry of the request gives a null handler ends up with a handler. */
  ghost predicate Clean(table: Table, meta: Meta, id: Oid, attrs: seq<Attr>)
    requires id in table
  {
    forall x :: Mentions(attrs, x) && Nulls(TypeOf(table, meta, id, x), attrs, x) ==>
      !LiveHandler(TypeOf(table, meta, id, x), LastValue(attrs, x))
  }

  lemma LibStoreAttrs(libs: seq<Lib>, t: Target, inputs: seq<Attr>, stored: set<nat>, u: Target)
    requires t.adapter < |libs| && t.realId in libs[t.adapter].live
    ensures StoredAttrs(LibStore(libs, t, inputs, stored), u)
         == if u == t then Store(StoredAttrs(libs, t), inputs, stored) else StoredAttrs(libs, u)
  {
  }

  /** The contexts and stored attributes of an accepted request. */
  lemma AcceptedHolds(s: Mux, meta: Meta, t: ObjectType, id: Oid, attrs: seq<Attr>, alloc: Allocate, k: Oid,
                      x: AttrId, addr: nat)
    requires Safe(s) && id in s.pa.table && HonestSet(attrs, alloc)
    requires SetStep(s, meta, t, id, attrs, alloc, Accepted).0 == Success
    requires Holds(SetStep(s, meta, t, id, attrs, alloc, Accepted).1, k, x, addr)
    ensures var q := ConvertRequest(s.pa.table, s.pa.notifs, meta, alloc, t, id, attrs);
            && Entered(q.notifs, Key(k, x), addr)
            && (k == id && Mentions(attrs, x) ==> LiveHandler(TypeOf(s.pa.table, meta, id, x), LastValue(attrs, x)))
  {
    var q := ConvertRequest(s.pa.table, s.pa.notifs, meta, alloc, t, id, attrs);
    ConvertRequestOk(s.pa.table, s.pa.notifs, meta, alloc, t, id, attrs);
    assert Filed(s, id) && Placed(s, id);
    LibStoreAttrs(s.libs, s.pa.table[id], q.inputs, UpTo(|q.inputs|), s.pa.table[k]);
    SameMentions(attrs, q.inputs, x);
    if k == id && Mentions(attrs, x) {
      StoreLast(StoredAttrs(s.libs, s.pa.table[id]), q.inputs, UpTo(|q.inputs|), x);
      var i := LastIndex(attrs, x);
      assert InputOk(q.notifs, id, TypeOf(s.pa.table, meta, id, attrs[i].id), attrs[i], q.inputs[i]);
    } else {
      if k == id { StoreLast(StoredAttrs(s.libs, s.pa.table[id]), q.inputs, UpTo(|q.inputs|), x); }
      assert Holds(s, k, x, addr);
      assert Entered(s.pa.notifs, Key(k, x), addr);
    }
  }

  /** An accepted request keeps every held context alive exactly when it is clean: a null entry
      for an attribute whose last entry is a handler makes `set` erase the context just given out. */
  lemma AcceptedSafeIffClean(s: Mux, meta: Meta, t: ObjectType, id: Oid, attrs: seq<Attr>, alloc: Allocate)
    requires Safe(s) && id in s.pa.table && HonestSet(attrs, alloc)
    requires SetStep(s, meta, t, id, attrs, alloc, Accepted).0 == Success
    ensures NoDangling(SetStep(s, meta, t, id, attrs, alloc, Accepted).1) <==> Clean(s.pa.table, meta, id, attrs)
  {
    var s' := SetStep(s, meta, t, id, attrs, alloc, Accepted).1;
    var q := ConvertRequest(s.pa.table, s.pa.notifs, meta, alloc, t, id, attrs);
    ConvertRequestOk(s.pa.table, s.pa.notifs, meta, alloc, t, id, attrs);
    if Clean(s.pa.table, meta, id, attrs) {
      forall k, x, addr | Holds(s', k, x, addr) ensures Entered(s'.pa.notifs, Key(k, x), addr) {
        AcceptedHolds(s, meta, t, id, attrs, alloc, k, x, addr);
        assert Nulls(TypeOf(s.pa.table, meta, id, x), attrs, x) ==> Mentions(attrs, x);
      }
    } else {
      var x :| Mentions(attrs, x) && Nulls(TypeOf(s.pa.table, meta, id, x), attrs, x)
               && LiveHandler(TypeOf(s.pa.table, meta, id, x), LastValue(attrs, x));
      HeldAfter(s, meta, t, id, attrs, alloc, x);
      assert Key(id, x) in q.nulled;
      assert !Entered(s'.pa.notifs, Key(id, x), q.notifs[Key(id, x)].addr);
    }
  }

  /** After an accepted request the library holds the context of each attribute left with a handler. */
  lemma HeldAfter(s: Mux, meta: Meta, t: ObjectType, id: Oid, attrs: seq<Attr>, alloc: Allocate, x: AttrId)
    requires Safe(s) && id in s.pa.table && HonestSet(attrs, alloc)
    requires SetStep(s, meta, t, id, attrs, alloc, Accepted).0 == Success
    requires Mentions(attrs, x) && LiveHandler(TypeOf(s.pa.table, meta, id, x), LastValue(attrs, x))
    ensures var q := ConvertRequest(s.pa.table, s.pa.notifs, meta, alloc, t, id, attrs);
            && Key(id, x) in q.notifs
            && Holds(SetStep(s, meta, t, id, attrs, alloc, Accepted).1, id, x, q.notifs[Key(id, x)].addr)
  {
    var q := ConvertRequest(s.pa.table, s.pa.notifs, meta, alloc, t, id, attrs);
    ConvertRequestOk(s.pa.table, s.pa.notifs, meta, alloc, t, id, attrs);
    assert Filed(s, id) && Placed(s, id);
    SameMentions(attrs, q.inputs, x);
    StoreLast(StoredAttrs(s.libs, s.pa.table[id]), q.inputs, UpTo(|q.inputs|), x);
    var i := LastIndex(attrs, x);
    assert InputOk(q.notifs, id, TypeOf(s.pa.table, meta, id, attrs[i].id), attrs[i], q.inputs[i]);
  }

  /** A request that names no attribute twice is clean. */
  lemma DistinctIsClean(table: Table, meta: Meta, id: Oid, attrs: seq<Attr>)
    requires id in table && forall i, j :: 0 <= i < j < |attrs| ==> attrs[i].id != attrs[j].id
    ensures Clean(table, meta, id, attrs)
  {
    forall x | Mentions(attrs, x) && Nulls(TypeOf(table, meta, id, x), attrs, x)
      ensures !LiveHandler(TypeOf(table, meta, id, x), LastValue(attrs, x))
    {
      var i :| 0 <= i < |attrs| && attrs[i].id == x && NullHandler(TypeOf(table, meta, id, x), attrs[i].value);
      assert i == LastIndex(attrs, x);
    }
  }

  /** One that first clears a handler and then installs one is not. */
  lemma ClearThenInstallIsNotClean(table: Table, meta: Meta, id: Oid, x: AttrId, h: Handler)
    requires id in table && TypeOf(table, meta, id, x) == Some(NotificationType) && h.notify.HostNotify?
    ensures !Clean(table, meta, id, [Attr(x, NotificationV(Handler(0, NoNotify))), Attr(x, NotificationV(h))])
  {
    var attrs := [Attr(x, NotificationV(Handler(0, NoNotify))), Attr(x, NotificationV(h))];
    assert attrs[0].id == x && NullHandler(Some(NotificationType), attrs[0].value);
    assert attrs[1].id == x;
    assert LastIndex(attrs, x) == 1;
  }

  /** In any safe state, that request succeeds when the library accepts it, and leaves the library
      with a context that is gone. */
  lemma ClearThenInstallDangles(s: Mux, meta: Meta, t: ObjectType, id: Oid, x: AttrId, h: Handler, alloc: Allocate)
    requires Safe(s) && id in s.pa.table && TypeOf(s.pa.table, meta, id, x) == Some(NotificationType)
    requires h.notify.HostNotify? && forall used: set<nat> :: alloc(used) !in used
    ensures var attrs := [Attr(x, NotificationV(Handler(0, NoNotify))), Attr(x, NotificationV(h))];
            var (st, s') := SetStep(s, meta, t, id, attrs, alloc, Accepted);
            st == Success && !NoDangling(s')
  {
    var a := Attr(x, NotificationV(Handler(0, NoNotify)));
    var attrs := [a, Attr(x, NotificationV(h))];
    assert attrs[..1] == [a] && [a][..0] == [];
    assert ConvertRequest(s.pa.table, s.pa.notifs, meta, alloc, t, id, [a]).status == Success;
    ClearThenInstallIsNotClean(s.pa.table, meta, id, x, h);
    AcceptedSafeIffClean(s, meta, t, id, attrs, alloc);
  }

  /** A request that fails, in the multiplexer or in the library, is always safe: whatever part of
      it the library stored, no context was erased. */
  lemma FailedSafe(s: Mux, meta: Meta, t: ObjectType, id: Oid, attrs: seq<Attr>, alloc: Allocate, reply: SetReply)
    requires Safe(s) && HonestSet(attrs, alloc)
    requires SetStep(s, meta, t, id, attrs, alloc, reply).0 != Success
    ensures NoDangling(SetStep(s, meta, t, id, attrs, alloc, reply).1)
  {
    var s' := SetStep(s, meta, t, id, attrs, alloc, reply).1;
    if id in s.pa.table {
      var q := ConvertRequest(s.pa.table, s.pa.notifs, meta, alloc, t, id, attrs);
      ConvertRequestOk(s.pa.table, s.pa.notifs, meta, alloc, t, id, attrs);
      assert Filed(s, id) && Placed(s, id);
      forall k, x, addr | Holds(s', k, x, addr) ensures Entered(s'.pa.notifs, Key(k, x), addr) {
        if q.status == Success {
          LibStoreAttrs(s.libs, s.pa.table[id], q.inputs, reply.stored, s.pa.table[k]);
          StoreAt(StoredAttrs(s.libs, s.pa.table[id]), q.inputs, reply.stored, x);
        }
        if !Holds(s, k, x, addr) {
          var v := NotificationV(Handler(addr, MuxCallback));
          var i :| 0 <= i < |q.inputs| && q.inputs[i] == Attr(x, v);
          assert InputOk(q.notifs, id, TypeOf(s.pa.table, meta, id, attrs[i].id), attrs[i], q.inputs[i]);
        } else {
          assert Entered(s.pa.notifs, Key(k, x), addr);
        }
      }
    }
  }

  // ---- every call, every run ---------------------------------------------------------------------

  lemma SetSafe(s: Mux, meta: Meta, t: ObjectType, id: Oid, attrs: seq<Attr>, alloc: Allocate, reply: SetReply)
    requires Safe(s) && id in s.objects && t == s.objects[id].objectType && HonestSet(attrs, alloc)
    requires SetStep(s, meta, t, id, attrs, alloc, reply).0 == Success ==> Clean(s.pa.table, meta, id, attrs)
    ensures Safe(SetStep(s, meta, t, id, attrs, alloc, reply).1)
  {
    ConvertRequestOk(s.pa.table, s.pa.notifs, meta, alloc, t, id, attrs);
    SetLinked(s, meta, id, attrs, alloc, reply);
    if SetStep(s, meta, t, id, attrs, alloc, reply).0 == Success {
      AcceptedSafeIffClean(s, meta, t, id, attrs, alloc);
    } else {
      FailedSafe(s, meta, t, id, attrs, alloc, reply);
    }
  }

  /** Attributes stored in live objects survive a step, except where the step is about them. */
  ghost predicate KeepsAttrs(libs: seq<Lib>, libs': seq<Lib>) {
    && |libs| <= |libs'|
    && forall t: Target {:trigger StoredAttrs(libs', t)} :: t.adapter < |libs| ==>
         StoredAttrs(libs', t) == StoredAttrs(libs, t)
  }

  lemma KeepsNoDangling(s: Mux, s': Mux)
    requires Safe(s) && s'.pa.table == s.pa.table && s'.pa.notifs == s.pa.notifs
    requires KeepsAttrs(s.libs, s'.libs)
    ensures NoDangling(s')
  {
    forall k, x, addr | Holds(s', k, x, addr) ensures Entered(s'.pa.notifs, Key(k, x), addr) {
      assert Filed(s, k) && Placed(s, k);
      assert Holds(s, k, x, addr);
    }
  }

  lemma InstallSafe(s: Mux, a: AdapterId, t: ObjectType, parent: Oid, realParent: Oid, reply: CreateReply)
    requires Safe(s) && a < |s.libs| && HonestCreate(s.libs[a], reply)
    ensures NoDangling(Install(s, a, t, parent, realParent, reply).2)
  {
    var s' := Install(s, a, t, parent, realParent, reply).2;
    if reply.Created? {
      forall k, x, addr | Holds(s', k, x, addr) ensures Entered(s'.pa.notifs, Key(k, x), addr) {
        if k in s.pa.table && s'.pa.table[k] == s.pa.table[k] {
          assert Filed(s, k) && Placed(s, k);
          assert Holds(s, k, x, addr);
        } else {
          assert HoldsMux(reply.attrs[x]);
        }
      }
    }
  }

  lemma LookupSafe(s: Mux, location: string, script: ScriptReply)
    requires Safe(s)
    ensures var lk := LookupAdapter(s.loader, s.libs, location, script);
            Safe(s.(loader := lk.loader, libs := lk.libs)) && (lk.adapter.Some? ==> lk.adapter.value < |lk.libs|)
  {
    var lk := LookupAdapter(s.loader, s.libs, location, script);
    var s1 := s.(loader := lk.loader, libs := lk.libs);
    LookupLinked(s, location, script);
    forall t: Target | t.adapter < |s.libs| ensures StoredAttrs(s1.libs, t) == StoredAttrs(s.libs, t) {
      assert s1.libs[..|s.libs|][t.adapter] == s.libs[t.adapter];
    }
    KeepsNoDangling(s, s1);
  }

  lemma ReplaySafe(s: Mux, a: AdapterId, logs: LogReplies)
    requires Safe(s) && a < |s.libs|
    ensures var libs := ReplayLogs(s.libs, a, s.logSetting, logs).1;
            Safe(s.(libs := libs)) && |libs| == |s.libs| && libs[a].live == s.libs[a].live
  {
    ReplayLinked(s, a, logs);
    var s' := s.(libs := ReplayLogs(s.libs, a, s.logSetting, logs).1);
    KeepsNoDangling(s, s');
  }

  lemma CreateSafe(s: Mux, meta: Meta, op: Op)
    requires Safe(s) && op.Create? && Honest(s, op)
    ensures Safe(Step(s, meta, op))
  {
    CreateLinked(s, meta, op);
    var Create(t, parent, loc, script, logs, reply) := op;
    if t == ModuleType {
      if loc.Some? {
        var lk := LookupAdapter(s.loader, s.libs, loc.value, script);
        LookupSafe(s, loc.value, script);
        if lk.thrown == Success && lk.adapter.Some? {
          var a := lk.adapter.value;
          var s1 := s.(loader := lk.loader, libs := lk.libs);
          ReplaySafe(s1, a, logs);
          var libs := ReplayLogs(lk.libs, a, s.logSetting, logs).1;
          InstallSafe(s1.(libs := libs), a, ModuleType, NULL_OID, NULL_OID, reply);
        }
      }
    } else if t != NullType && parent in s.objects && s.objects[parent].objectType == ModuleType {
      assert Placed(s, parent) && Filed(s, parent);
      InstallSafe(s, s.objects[parent].adapter, t, parent, s.objects[parent].realId, reply);
    }
  }

  lemma RemoveSafe(s: Mux, meta: Meta, id: Oid, reply: RemoveReply)
    requires Safe(s) && Honest(s, Remove(id, reply))
    ensures Safe(RemoveStep(s, id, reply).1)
  {
    RemoveLinked(s, id, reply);
    var s' := RemoveStep(s, id, reply).1;
    forall k, x, addr | Holds(s', k, x, addr) ensures Entered(s'.pa.notifs, Key(k, x), addr) {
      if id in s.objects { assert Filed(s, id) && Placed(s, id); }
      assert Holds(s, k, x, addr);
    }
  }

  /** Accepted requests of the run are clean; see `AcceptedSafeIffClean`. */
  ghost predicate CleanOp(s: Mux, meta: Meta, op: Op) {
    op.SetAttrs? && op.id in s.objects && op.id in s.pa.table
      && SetStep(s, meta, s.objects[op.id].objectType, op.id, op.attrs, op.alloc, op.setReply).0 == Success ==>
      Clean(s.pa.table, meta, op.id, op.attrs)
  }

  ghost predicate CleanRun(s: Mux, meta: Meta, ops: seq<Op>)
    decreases ops
  {
    ops == [] || (CleanOp(s, meta, ops[0]) && CleanRun(Step(s, meta, ops[0]), meta, ops[1..]))
  }

  lemma StepSafe(s: Mux, meta: Meta, op: Op)
    requires Safe(s) && Honest(s, op) && CleanOp(s, meta, op)
    ensures Safe(Step(s, meta, op))
  {
    match op
    case Create(_, _, _, _, _, _) => CreateSafe(s, meta, op);
    case Remove(id, reply) => RemoveSafe(s, meta, id, reply);
    case SetAttrs(id, attrs, alloc, reply) =>
      if id in s.objects { SetSafe(s, meta, s.objects[id].objectType, id, attrs, alloc, reply); }
    case GetAttrs(_) =>
    case SetLog(api, setting, logger, order, logs) =>
      StepLinked(s, meta, op);
      LogSafe(s, api, setting, logger, order, logs);
  }

  lemma LogSafe(s: Mux, api: Api, setting: LogSetting, logger: Status, order: seq<Option<AdapterId>>,
                logs: LogReplies)
    requires Safe(s)
    ensures var s' := SetLogStep(s, api, setting, logger, order, logs).1;
            ContextsOk(s'.pa.notifs) && NoDangling(s')
  {
    BroadcastKeeps(s.libs, order, api, setting, logs);
    KeepsNoDangling(s, SetLogStep(s, api, setting, logger, order, logs).1);
  }

  /** Over every run, id reuse and failed calls included, no library object behind a live id holds
      a context that `m_notification_map` has let go of. */
  lemma {:induction false} RunSafe(s: Mux, meta: Meta, ops: seq<Op>)
    requires Safe(s) && HonestRun(s, meta, ops) && CleanRun(s, meta, ops)
    ensures Safe(Run(s, meta, ops))
    decreases ops
  {
    if ops != [] {
      StepSafe(s, meta, ops[0]);
      RunSafe(Step(s, meta, ops[0]), meta, ops[1..]);
    }
  }

  /** No library holds a dangling context, now or after any call of the run. */
  ghost predicate AlwaysSafe(s: Mux, meta: Meta, ops: seq<Op>)
    decreases ops
  {
    NoDangling(s) && (ops == [] || AlwaysSafe(Step(s, meta, ops[0]), meta, ops[1..]))
  }

  /** And that is so exactly of the runs whose accepted requests are clean. */
  lemma {:induction false} RunSafeIffClean(s: Mux, meta: Meta, ops: seq<Op>)
    requires Safe(s) && HonestRun(s, meta, ops)
    ensures AlwaysSafe(s, meta, ops) <==> CleanRun(s, meta, ops)
    decreases ops
  {
    if ops != [] {
      if CleanOp(s, meta, ops[0]) {
        StepSafe(s, meta, ops[0]);
        RunSafeIffClean(Step(s, meta, ops[0]), meta, ops[1..]);
      } else {
        var SetAttrs(id, attrs, alloc, reply) := ops[0];
        AcceptedSafeIffClean(s, meta, s.objects[id].objectType, id, attrs, alloc);
      }
    }
  }

  lemma InitialSafe()
    ensures Safe(INITIAL)
  {
    forall k, x, addr ensures !Holds(INITIAL, k, x, addr) {}
  }

  // ---- delivery ------------------------------------------------------------------------------------

  /** What `notify` calls the host with. */
  datatype Delivery = Delivery(handler: Handler, oid: Oid, attrs: seq<Attr>)

  /** One notified attribute as the host sees it: none when its metadata is unknown or an id in it
      does not translate. */
  ghost function Shown(table: Table, notifs: Notifs, meta: Meta, ctx: Ctx, realOid: Oid, a: Attr): seq<Attr>
    requires ctx.muxedOid in table
  {
    var c := ConvertAttr(table, notifs, meta, NO_ALLOC, ctx.objectType, ctx.muxedOid, a, true);
    if meta(table[ctx.muxedOid].adapter, realOid, a.id).Some? && c.status == Success then [c.attr] else []
  }

  ghost function ShownAll(table: Table, notifs: Notifs, meta: Meta, ctx: Ctx, realOid: Oid, attrs: seq<Attr>): seq<Attr>
    requires ctx.muxedOid in table
  {
    if attrs == [] then []
    else
      var n := |attrs| - 1;
      ShownAll(table, notifs, meta, ctx, realOid, attrs[..n]) + Shown(table, notifs, meta, ctx, realOid, attrs[n])
  }

  lemma Associative(a: seq<Attr>, b: seq<Attr>, c: seq<Attr>)
    ensures (a + b) + c == a + (b + c)
  {
  }

  lemma LastOf(attrs: seq<Attr>, more: seq<Attr>)
    requires more != []
    ensures var whole := attrs + more;
            whole[..|whole| - 1] == attrs + more[..|more| - 1] && whole[|whole| - 1] == more[|more| - 1]
  {
  }

  lemma ShownLast(table: Table, notifs: Notifs, meta: Meta, ctx: Ctx, realOid: Oid, attrs: seq<Attr>)
    requires ctx.muxedOid in table && attrs != []
    ensures ShownAll(table, notifs, meta, ctx, realOid, attrs)
         == ShownAll(table, notifs, meta, ctx, realOid, attrs[..|attrs| - 1])
            + Shown(table, notifs, meta, ctx, realOid, attrs[|attrs| - 1])
  {
  }

  /** The host is shown the attributes one by one in the order they came, each alone deciding
      whether it is skipped. */
  lemma {:induction false} ShownInOrder(table: Table, notifs: Notifs, meta: Meta, ctx: Ctx, realOid: Oid,
                                        attrs: seq<Attr>, more: seq<Attr>)
    requires ctx.muxedOid in table
    ensures ShownAll(table, notifs, meta, ctx, realOid, attrs + more)
         == ShownAll(table, notifs, meta, ctx, realOid, attrs) + ShownAll(table, notifs, meta, ctx, realOid, more)
    decreases more
  {
    if more == [] {
      assert attrs + more == attrs;
    } else {
      var n := |more| - 1;
      LastOf(attrs, more);
      ShownLast(table, notifs, meta, ctx, realOid, attrs + more);
      ShownLast(table, notifs, meta, ctx, realOid, more);
      ShownInOrder(table, notifs, meta, ctx, realOid, attrs, more[..n]);
      Associative(ShownAll(table, notifs, meta, ctx, realOid, attrs),
                  ShownAll(table, notifs, meta, ctx, realOid, more[..n]),
                  Shown(table, notifs, meta, ctx, realOid, more[n]));
    }
  }

  /** `notify`: nothing for an unmapped id, else one call even if no attribute is left. */
  ghost function NotifyStep(table: Table, notifs: Notifs, meta: Meta, ctx: Ctx, realOid: Oid,
                            attrs: seq<Attr>): Option<Delivery> {
    if ctx.muxedOid !in table then None
    else Some(Delivery(ctx.host, ctx.muxedOid, ShownAll(table, notifs, meta, ctx, realOid, attrs)))
  }

  /** The context at an address. */
  ghost predicate ContextAt(n: Notifs, addr: nat, ctx: Ctx) {
    exists k :: k in n && n[k] == ctx && ctx.addr == addr
  }

  /** In a safe state, when a library calls back for a live object with a context it holds, that
      address is one context, the host handler registered under the object's own muxed id is
      called, and every id it is shown is a muxed id of the same adapter. */
  lemma NotificationReachesHost(s: Mux, meta: Meta, id: Oid, x: AttrId, addr: nat, attrs: seq<Attr>)
    requires Safe(s) && Holds(s, id, x, addr)
    ensures Key(id, x) in s.pa.notifs
    ensures var ctx := s.pa.notifs[Key(id, x)];
            && (forall c :: ContextAt(s.pa.notifs, addr, c) <==> c == ctx)
            && ctx.host.notify.HostNotify?
            && var d := NotifyStep(s.pa.table, s.pa.notifs, meta, ctx, s.pa.table[id].realId, attrs);
               d.Some? && d.value.handler == ctx.host && d.value.oid == id
               && forall a :: a in d.value.attrs ==> Confined(s, meta, id, a)
  {
    assert Entered(s.pa.notifs, Key(id, x), addr);
    var ctx := s.pa.notifs[Key(id, x)];
    assert ContextAt(s.pa.notifs, addr, ctx);
    ShownConfined(s, meta, id, ctx, attrs);
  }

  /** Every id in the attribute is a live muxed id of the object's own adapter. */
  ghost predicate Confined(s: Mux, meta: Meta, id: Oid, a: Attr) {
    && id in s.pa.table
    && TypeOf(s.pa.table, meta, id, a.id).Some?
    && forall o :: o in Ids(TypeOf(s.pa.table, meta, id, a.id).value, a.value) ==>
         o in s.objects && s.objects[o].adapter == s.pa.table[id].adapter
  }

  lemma ConvertedConfined(s: Mux, meta: Meta, alloc: Allocate, t: ObjectType, id: Oid, a: Attr)
    requires TablesAgree(s)
    requires ConvertAttr(s.pa.table, s.pa.notifs, meta, alloc, t, id, a, true).status == Success
    ensures Confined(s, meta, id, ConvertAttr(s.pa.table, s.pa.notifs, meta, alloc, t, id, a, true).attr)
  {
    var vt := TypeOf(s.pa.table, meta, id, a.id).value;
    var ad := s.pa.table[id].adapter;
    assert Filed(s, id);
    if !(vt == NotificationType && a.value.NotificationV?) {
      ReverseConfined(s.pa.table, ad, vt, a.value);
      forall o | o in Ids(vt, ConvertValue(Translator(s.pa.table, ad, true), vt, a.value))
        ensures o in s.objects && s.objects[o].adapter == ad
      {
        assert Filed(s, o);
      }
    }
  }

  lemma {:induction false} ShownConfined(s: Mux, meta: Meta, id: Oid, ctx: Ctx, attrs: seq<Attr>)
    requires TablesAgree(s) && id in s.pa.table && ctx.muxedOid == id
    ensures forall a :: a in ShownAll(s.pa.table, s.pa.notifs, meta, ctx, s.pa.table[id].realId, attrs) ==>
              Confined(s, meta, id, a)
  {
    if attrs != [] {
      var n := |attrs| - 1;
      ShownConfined(s, meta, id, ctx, attrs[..n]);
      if ConvertAttr(s.pa.table, s.pa.notifs, meta, NO_ALLOC, ctx.objectType, id, attrs[n], true).status == Success {
        ConvertedConfined(s, meta, NO_ALLOC, ctx.objectType, id, attrs[n]);
      }
    }
  }
}
