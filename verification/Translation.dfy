/** Rewriting of object ids inside attribute values, in both directions. */
module Translation {
  import opened MuxTypes

  /** The lambda `convert` of `convert_oid`: table, adapter of the object, and direction. */
  datatype Translator = Translator(table: Table, adapter: AdapterId, reversed: bool) {
    ghost function Apply(s: Oid): Oid {
      if reversed then Reverse(table, Target(s, adapter)) else Forward(table, s)
    }
  }

  function Forward(table: Table, s: Oid): Oid {
    if s in table then table[s].realId else NULL_OID
  }

  ghost function Sources(table: Table, t: Target): set<Oid> {
    set k | k in table && table[k] == t
  }

  /** `get_reverse_mapping`: the least muxed id standing for the pair, or the null id. */
  ghost function Reverse(table: Table, t: Target): (r: Oid)
    ensures Sources(table, t) == {} ==> r == NULL_OID
    ensures Sources(table, t) != {} ==>
              r in table && table[r] == t && forall k :: k in table && table[k] == t ==> r <= k
  {
    assert forall k :: k in table && table[k] == t ==> k in Sources(table, t);
    if Sources(table, t) == {} then NULL_OID else Least(Sources(table, t))
  }

  ghost predicate Injective(table: Table) {
    forall i, j :: i in table && j in table && table[i] == table[j] ==> i == j
  }

  /** On an injective table the two lookups undo each other. */
  lemma ReverseOfTarget(table: Table, id: Oid)
    requires Injective(table) && id in table
    ensures Reverse(table, table[id]) == id
  {
    assert id in Sources(table, table[id]);
  }

  lemma TargetOfReverse(table: Table, t: Target)
    requires Reverse(table, t) != NULL_OID
    ensures Reverse(table, t) in table && table[Reverse(table, t)] == t
  {
  }

  // ---- id lists -------------------------------------------------------------

  /** Index of the first id that does not translate; the length if all do. */
  ghost function FirstNull(x: Translator, s: seq<Oid>): (k: nat)
    ensures k <= |s|
    ensures forall j :: 0 <= j < k ==> x.Apply(s[j]) != NULL_OID
    ensures k < |s| ==> x.Apply(s[k]) == NULL_OID
  {
    if s == [] || x.Apply(s[0]) == NULL_OID then 0 else 1 + FirstNull(x, s[1..])
  }

  ghost predicate ListOk(x: Translator, s: seq<Oid>) {
    FirstNull(x, s) == |s|
  }

  /** Destination after translating `src` into `dst`: the ids up to and including the first that
      fails are written (that one with the null id), and the rest of `dst` is left alone. */
  ghost function ConvertList(x: Translator, src: seq<Oid>, dst: seq<Oid>): (r: seq<Oid>)
    requires |src| == |dst|
    ensures |r| == |dst|
  {
    var k := FirstNull(x, src);
    seq(|dst|, i requires 0 <= i < |dst| => if i <= k then x.Apply(src[i]) else dst[i])
  }

  lemma {:induction false} FirstNullIs(x: Translator, s: seq<Oid>, k: nat)
    requires k <= |s|
    requires forall j :: 0 <= j < k ==> x.Apply(s[j]) != NULL_OID
    requires k < |s| ==> x.Apply(s[k]) == NULL_OID
    ensures FirstNull(x, s) == k
  {
    if k > 0 { FirstNullIs(x, s[1..], k - 1); }
  }

  lemma FirstNullConcat(x: Translator, s: seq<Oid>, t: seq<Oid>)
    ensures FirstNull(x, s + t) == if ListOk(x, s) then |s| + FirstNull(x, t) else FirstNull(x, s)
  {
    FirstNullIs(x, s + t, if ListOk(x, s) then |s| + FirstNull(x, t) else FirstNull(x, s));
  }

  // ---- lists of (id, id list) ------------------------------------------------

  ghost predicate EntryOk(x: Translator, e: Entry) {
    x.Apply(e.key) != NULL_OID && ListOk(x, e.list)
  }

  ghost function FirstBad(x: Translator, es: seq<Entry>): (k: nat)
    ensures k <= |es|
    ensures forall j :: 0 <= j < k ==> EntryOk(x, es[j])
    ensures k < |es| ==> !EntryOk(x, es[k])
  {
    if es == [] || !EntryOk(x, es[0]) then 0 else 1 + FirstBad(x, es[1..])
  }

  lemma {:induction false} FirstBadIs(x: Translator, es: seq<Entry>, k: nat)
    requires k <= |es|
    requires forall j :: 0 <= j < k ==> EntryOk(x, es[j])
    requires k < |es| ==> !EntryOk(x, es[k])
    ensures FirstBad(x, es) == k
  {
    if k > 0 { FirstBadIs(x, es[1..], k - 1); }
  }

  ghost function ConvertEntry(x: Translator, src: Entry, dst: Entry): Entry
    requires |src.list| == |dst.list|
  {
    if x.Apply(src.key) == NULL_OID then Entry(NULL_OID, dst.list)
    else Entry(x.Apply(src.key), ConvertList(x, src.list, dst.list))
  }

  ghost predicate SameShape(src: seq<Entry>, dst: seq<Entry>) {
    |src| == |dst| && forall i :: 0 <= i < |src| ==> |src[i].list| == |dst[i].list|
  }

  ghost function ConvertEntries(x: Translator, src: seq<Entry>, dst: seq<Entry>): (r: seq<Entry>)
    requires SameShape(src, dst)
    ensures |r| == |dst|
  {
    var k := FirstBad(x, src);
    seq(|dst|, i requires 0 <= i < |dst| => if i <= k then ConvertEntry(x, src[i], dst[i]) else dst[i])
  }

  /** The id slots of a nested value in the order the doubly nested loop visits them. */
  ghost function Slots(es: seq<Entry>): seq<Oid> {
    if es == [] then [] else [es[0].key] + es[0].list + Slots(es[1..])
  }

  lemma ConvertListConcat(x: Translator, s1: seq<Oid>, d1: seq<Oid>, s2: seq<Oid>, d2: seq<Oid>)
    requires |s1| == |d1| && |s2| == |d2|
    ensures ConvertList(x, s1 + s2, d1 + d2)
         == ConvertList(x, s1, d1) + (if ListOk(x, s1) then ConvertList(x, s2, d2) else d2)
  {
    FirstNullConcat(x, s1, s2);
  }

  lemma {:induction false} SlotsLength(src: seq<Entry>, dst: seq<Entry>)
    requires SameShape(src, dst)
    ensures |Slots(src)| == |Slots(dst)|
  {
    if src != [] { SlotsLength(src[1..], dst[1..]); }
  }

  /** One entry of the nested value behaves like the flat list key, id, id, ... */
  lemma EntryIsFlat(x: Translator, s: Entry, d: Entry)
    requires |s.list| == |d.list|
    ensures EntryOk(x, s) <==> ListOk(x, [s.key] + s.list)
    ensures ConvertList(x, [s.key] + s.list, [d.key] + d.list)
         == [ConvertEntry(x, s, d).key] + ConvertEntry(x, s, d).list
  {
    FirstNullConcat(x, [s.key], s.list);
    ConvertListConcat(x, [s.key], [d.key], s.list, d.list);
    assert FirstNull(x, [s.key][1..]) == 0;
  }

  lemma ConvertEntriesHead(x: Translator, src: seq<Entry>, dst: seq<Entry>)
    requires SameShape(src, dst) && src != []
    ensures ConvertEntries(x, src, dst)
         == [ConvertEntry(x, src[0], dst[0])]
            + (if EntryOk(x, src[0]) then ConvertEntries(x, src[1..], dst[1..]) else dst[1..])
  {
  }

  /** The doubly nested loop over (id, id list) entries is the single loop over their slots in
      order: it stops at the same slot and leaves the same ids everywhere. */
  lemma {:induction false} NestedIsFlat(x: Translator, src: seq<Entry>, dst: seq<Entry>)
    requires SameShape(src, dst)
    ensures |Slots(src)| == |Slots(dst)|
    ensures FirstBad(x, src) == |src| <==> ListOk(x, Slots(src))
    ensures Slots(ConvertEntries(x, src, dst)) == ConvertList(x, Slots(src), Slots(dst))
  {
    SlotsLength(src, dst);
    if src != [] {
      var (s, d) := (src[0], dst[0]);
      NestedIsFlat(x, src[1..], dst[1..]);
      EntryIsFlat(x, s, d);
      FirstNullConcat(x, [s.key] + s.list, Slots(src[1..]));
      ConvertListConcat(x, [s.key] + s.list, [d.key] + d.list, Slots(src[1..]), Slots(dst[1..]));
      ConvertEntriesHead(x, src, dst);
      var r := ConvertEntries(x, src, dst);
      assert r[1..] == if EntryOk(x, s) then ConvertEntries(x, src[1..], dst[1..]) else dst[1..];
    }
  }

  // ---- attribute values --------------------------------------------------------

  /** Translation of the ids in a value whose destination starts as a copy of it (or is it). The
      result is defined by the attribute's metadata type; handlers are dealt with elsewhere. */
  ghost predicate ValueOk(x: Translator, t: ValueType, v: Value) {
    match (t, v)
    case (OidType, OidV(o)) => x.Apply(o) != NULL_OID
    case (ObjListType, ObjListV(l)) => ListOk(x, l)
    case (ObjMapListType, ObjMapListV(es)) => FirstBad(x, es) == |es|
    case _ => true
  }

  ghost function ConvertValue(x: Translator, t: ValueType, v: Value): Value {
    match (t, v)
    case (OidType, OidV(o)) => OidV(x.Apply(o))
    case (ObjListType, ObjListV(l)) => ObjListV(ConvertList(x, l, l))
    case (ObjMapListType, ObjMapListV(es)) => ObjMapListV(ConvertEntries(x, es, es))
    case _ => v
  }

  /** The ids that translation reads in a value of the given type. */
  ghost function Ids(t: ValueType, v: Value): seq<Oid> {
    match (t, v)
    case (OidType, OidV(o)) => [o]
    case (ObjListType, ObjListV(l)) => l
    case (ObjMapListType, ObjMapListV(es)) => Slots(es)
    case _ => []
  }

  /** Every value is translated slot by slot: all its ids, in order, up to the first failure. */
  lemma ValueIsFlat(x: Translator, t: ValueType, v: Value)
    ensures ValueOk(x, t, v) <==> ListOk(x, Ids(t, v))
    ensures Ids(t, ConvertValue(x, t, v)) == ConvertList(x, Ids(t, v), Ids(t, v))
  {
    match (t, v)
    case (OidType, OidV(o)) =>
      assert FirstNull(x, [o][1..]) == 0;
    case (ObjMapListType, ObjMapListV(es)) =>
      NestedIsFlat(x, es, es);
    case _ =>
  }

  /** What in-place translation leaves behind: the ids before the first that has no translation are
      translated, that one is the null id, and those after it are what they were. */
  lemma TranslatedPrefix(x: Translator, t: ValueType, v: Value)
    ensures var (s, r, k) := (Ids(t, v), Ids(t, ConvertValue(x, t, v)), FirstNull(x, Ids(t, v)));
            && |r| == |s| && (ValueOk(x, t, v) <==> k == |s|)
            && (forall j :: 0 <= j < k ==> r[j] == x.Apply(s[j]) && r[j] != NULL_OID)
            && (k < |s| ==> r[k] == NULL_OID)
            && (forall j :: k < j < |s| ==> r[j] == s[j])
  {
    ValueIsFlat(x, t, v);
  }

  /** No private id gets out: after a successful reverse translation every id in the value is a
      mapped id of the adapter asked. */
  lemma ReverseConfined(table: Table, a: AdapterId, t: ValueType, v: Value)
    requires ValueOk(Translator(table, a, true), t, v)
    ensures forall o :: o in Ids(t, ConvertValue(Translator(table, a, true), t, v)) ==>
              o in table && table[o].adapter == a
  {
    var x := Translator(table, a, true);
    ValueIsFlat(x, t, v);
    var s := Ids(t, v);
    forall o | o in ConvertList(x, s, s) ensures o in table && table[o].adapter == a {
      var i :| 0 <= i < |s| && ConvertList(x, s, s)[i] == o;
      assert x.Apply(s[i]) != NULL_OID;
      TargetOfReverse(table, Target(s[i], a));
    }
  }

  /** Two translators that agree on the ids of a value translate it alike. */
  lemma ListCongruence(x: Translator, y: Translator, s: seq<Oid>)
    requires forall o :: o in s ==> x.Apply(o) == y.Apply(o)
    ensures FirstNull(x, s) == FirstNull(y, s)
    ensures ConvertList(x, s, s) == ConvertList(y, s, s)
  {
    FirstNullIs(y, s, FirstNull(x, s));
  }

  lemma {:induction false} SlotsContain(es: seq<Entry>, i: nat)
    requires i < |es|
    ensures es[i].key in Slots(es)
    ensures forall o :: o in es[i].list ==> o in Slots(es)
  {
    if i > 0 {
      SlotsContain(es[1..], i - 1);
      assert es[1..][i - 1] == es[i];
    }
  }

  lemma EntriesCongruence(x: Translator, y: Translator, es: seq<Entry>)
    requires forall o :: o in Slots(es) ==> x.Apply(o) == y.Apply(o)
    ensures FirstBad(x, es) == FirstBad(y, es)
    ensures ConvertEntries(x, es, es) == ConvertEntries(y, es, es)
  {
    forall i | 0 <= i < |es|
      ensures EntryOk(x, es[i]) <==> EntryOk(y, es[i])
      ensures ConvertEntry(x, es[i], es[i]) == ConvertEntry(y, es[i], es[i])
    {
      SlotsContain(es, i);
      ListCongruence(x, y, es[i].list);
    }
    FirstBadIs(y, es, FirstBad(x, es));
  }

  lemma ValueCongruence(x: Translator, y: Translator, t: ValueType, v: Value)
    requires forall o :: o in Ids(t, v) ==> x.Apply(o) == y.Apply(o)
    ensures ValueOk(x, t, v) <==> ValueOk(y, t, v)
    ensures ConvertValue(x, t, v) == ConvertValue(y, t, v)
  {
    match (t, v)
    case (OidType, OidV(o)) => assert o in Ids(t, v);
    case (ObjListType, ObjListV(l)) => ListCongruence(x, y, l);
    case (ObjMapListType, ObjMapListV(es)) => EntriesCongruence(x, y, es);
    case _ =>
  }

  // ---- round trip ------------------------------------------------------------------

  ghost predicate Owned(table: Table, a: AdapterId, s: seq<Oid>) {
    forall o :: o in s ==> o in table && table[o].adapter == a
  }

  lemma ListRoundTrip(table: Table, a: AdapterId, s: seq<Oid>)
    requires Injective(table) && NULL_OID !in table
    requires Owned(table, a, s)
    requires ListOk(Translator(table, a, false), s)
    ensures var r := ConvertList(Translator(table, a, false), s, s);
            ListOk(Translator(table, a, true), r) && ConvertList(Translator(table, a, true), r, r) == s
  {
    var (f, b) := (Translator(table, a, false), Translator(table, a, true));
    var r := ConvertList(f, s, s);
    forall i | 0 <= i < |s| ensures b.Apply(r[i]) == s[i] && s[i] != NULL_OID {
      assert s[i] in s;
      ReverseOfTarget(table, s[i]);
      assert r[i] == table[s[i]].realId;
    }
    assert ListOk(b, r);
  }

  lemma EntriesRoundTrip(table: Table, a: AdapterId, es: seq<Entry>)
    requires Injective(table) && NULL_OID !in table
    requires Owned(table, a, Slots(es))
    requires FirstBad(Translator(table, a, false), es) == |es|
    ensures var r := ConvertEntries(Translator(table, a, false), es, es);
            FirstBad(Translator(table, a, true), r) == |r| && ConvertEntries(Translator(table, a, true), r, r) == es
  {
    var (f, b) := (Translator(table, a, false), Translator(table, a, true));
    var r := ConvertEntries(f, es, es);
    forall i | 0 <= i < |es| ensures EntryOk(b, r[i]) && ConvertEntry(b, r[i], r[i]) == es[i] {
      var e := es[i];
      SlotsContain(es, i);
      assert EntryOk(f, e);
      ListRoundTrip(table, a, e.list);
      ReverseOfTarget(table, e.key);
      assert r[i] == Entry(table[e.key].realId, ConvertList(f, e.list, e.list));
    }
  }

  /** What the multiplexer hands a library comes back as it was: forward translation of a value
      whose ids all belong to the object's adapter is undone by reverse translation. */
  lemma ValueRoundTrip(table: Table, a: AdapterId, t: ValueType, v: Value)
    requires Injective(table) && NULL_OID !in table
    requires Owned(table, a, Ids(t, v))
    requires ValueOk(Translator(table, a, false), t, v)
    ensures var r := ConvertValue(Translator(table, a, false), t, v);
            ValueOk(Translator(table, a, true), t, r) && ConvertValue(Translator(table, a, true), t, r) == v
  {
    match (t, v)
    case (OidType, OidV(o)) =>
      assert o in Ids(t, v);
      ReverseOfTarget(table, o);
    case (ObjListType, ObjListV(l)) => ListRoundTrip(table, a, l);
    case (ObjMapListType, ObjMapListV(es)) => EntriesRoundTrip(table, a, es);
    case _ =>
  }

  /** A value the multiplexer could translate for a library comes back unchanged exactly when all
      its ids belong to the adapter of the object it was set on. */
  lemma RoundTripIffOwned(table: Table, a: AdapterId, t: ValueType, v: Value)
    requires Injective(table) && NULL_OID !in table
    requires ValueOk(Translator(table, a, false), t, v)
    ensures var r := ConvertValue(Translator(table, a, false), t, v);
            var b := Translator(table, a, true);
            (ValueOk(b, t, r) && ConvertValue(b, t, r) == v) <==> Owned(table, a, Ids(t, v))
  {
    var r := ConvertValue(Translator(table, a, false), t, v);
    if ValueOk(Translator(table, a, true), t, r) { ReverseConfined(table, a, t, r); }
    if Owned(table, a, Ids(t, v)) { ValueRoundTrip(table, a, t, v); }
  }

  /** An input where it does not: two libraries use one real id, and an id of the second, set on an
      object of the first, comes back as the id of another object, with no error on the way. */
  lemma ForeignIdComesBackAsAnother()
    ensures var table: Table := map[1 := Target(10, 0), 2 := Target(10, 1)];
            var (f, b) := (Translator(table, 0, false), Translator(table, 0, true));
            && Injective(table) && ValueOk(f, OidType, OidV(2))
            && var r := ConvertValue(f, OidType, OidV(2));
               ValueOk(b, OidType, r) && ConvertValue(b, OidType, r) == OidV(1)
  {
    var table: Table := map[1 := Target(10, 0), 2 := Target(10, 1)];
    assert Sources(table, Target(10, 0)) == {1};
  }
}
