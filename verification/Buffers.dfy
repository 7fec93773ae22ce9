/** Attribute values as the TAI calls pass them: structures whose id lists live in buffers that
    source and destination of a conversion may share. */
module Buffers {
  import opened MuxTypes
  import opened Translation

  /** One element of an object map list: a key, and a pointer to its ids. */
  datatype RawEntry = RawEntry(key: Oid, list: array<Oid>)

  datatype Raw =
    | PlainR(data: string)
    | OidR(oid: Oid)
    | ObjListR(list: array<Oid>)
    | ObjMapListR(entries: array<RawEntry>)
    | NotificationR(handler: Handler)

  ghost function Lists(es: array<RawEntry>): set<object>
    reads es
  {
    set i | 0 <= i < es.Length :: es[i].list as object
  }

  ghost function Pointers(es: array<RawEntry>): (r: seq<array<Oid>>)
    reads es
    ensures |r| == es.Length
    ensures forall i :: 0 <= i < es.Length ==> r[i] == es[i].list && r[i] as object in Lists(es)
  {
    seq(es.Length, i requires 0 <= i < es.Length reads es => es[i].list)
  }

  ghost predicate Separate(es: array<RawEntry>)
    reads es
  {
    forall i, j :: 0 <= i < j < es.Length ==> es[i].list != es[j].list
  }

  function Entries(es: array<RawEntry>): (r: seq<Entry>)
    reads es, Lists(es)
    ensures |r| == es.Length
    ensures forall i :: 0 <= i < es.Length ==> r[i] == Entry(es[i].key, es[i].list[..])
  {
    seq(es.Length, i requires 0 <= i < es.Length reads es, Lists(es) =>
      assert es[i].list as object in Lists(es); Entry(es[i].key, es[i].list[..]))
  }

  /** A `tai_attribute_t` with the buffers it points to. */
  class Attribute {
    var id: AttrId
    var value: Raw
    ghost var Repr: set<object>

    ghost predicate Valid()
      reads this, Repr
    {
      && this in Repr
      && (value.ObjListR? ==> value.list in Repr)
      && (value.ObjMapListR? ==> value.entries in Repr && Lists(value.entries) <= Repr && Separate(value.entries))
    }

    function Value(): Value
      requires Valid()
      reads this, Repr
    {
      match value
      case PlainR(d) => PlainV(d)
      case OidR(o) => OidV(o)
      case ObjListR(l) => ObjListV(l[..])
      case ObjMapListR(es) => ObjMapListV(Entries(es))
      case NotificationR(h) => NotificationV(h)
    }

    function Attr(): Attr
      requires Valid()
      reads this, Repr
    {
      MuxTypes.Attr(id, Value())
    }

    constructor (id: AttrId, value: Raw, ghost buffers: set<object>)
      ensures this.id == id && this.value == value && Repr == buffers + {this}
    {
      this.id, this.value := id, value;
      Repr := buffers + {this};
    }
  }

  method NewList(s: seq<Oid>) returns (dst: array<Oid>)
    ensures fresh(dst) && dst[..] == s
  {
    dst := new Oid[|s|](i requires 0 <= i < |s| => s[i]);
  }

  method NewEntries(es: seq<Entry>) returns (dst: array<RawEntry>)
    ensures fresh(dst) && fresh(Lists(dst)) && Separate(dst) && Entries(dst) == es
  {
    var raw: seq<RawEntry> := [];
    for k := 0 to |es|
      invariant |raw| == k
      invariant forall j :: 0 <= j < k ==>
                fresh(raw[j].list) && raw[j].key == es[j].key && raw[j].list[..] == es[j].list
      invariant forall i, j :: 0 <= i < j < k ==> raw[i].list != raw[j].list
    {
      var l := NewList(es[k].list);
      raw := raw + [RawEntry(es[k].key, l)];
    }
    dst := new RawEntry[|raw|](i requires 0 <= i < |raw| => raw[i]);
  }

  /** An attribute in buffers of its own: what a library fills in, or a deep copy of a request's. */
  method NewAttribute(id: AttrId, v: Value) returns (a: Attribute)
    ensures fresh(a.Repr) && a.Valid() && a.id == id && a.Value() == v
  {
    match v {
      case PlainV(d) => a := new Attribute(id, PlainR(d), {});
      case OidV(o) => a := new Attribute(id, OidR(o), {});
      case ObjListV(l) =>
        var b := NewList(l);
        a := new Attribute(id, ObjListR(b), {b});
      case ObjMapListV(es) =>
        var b := NewEntries(es);
        a := new Attribute(id, ObjMapListR(b), {b} + Lists(b));
      case NotificationV(h) => a := new Attribute(id, NotificationR(h), {});
    }
  }
}
