/** The data the TAI multiplexer moves around: object ids, attribute values,
    notification handlers, and the status codes its calls return. */
module MuxTypes {
  import opened Options

  /** A `tai_object_id_t`. The value 0 is TAI_NULL_OBJECT_ID. */
  type Oid = nat
  const NULL_OID: Oid := 0

  /** TAI_MUX_NUM_MAX_OBJECT: ids 1 .. 255 can be handed out. */
  const MAX_OBJECT: nat := 256

  /** A vendor library adapter, numbered in the order the libraries were loaded. */
  type AdapterId = nat
  type AttrId = nat
  type Api = nat

  datatype Status =
    | Success
    | Failure
    | Uninitialized
    | InvalidObjectId
    | NotSupported
    | ItemNotFound
    | ItemAlreadyExists
    | MandatoryAttributeMissing
    | VendorStatus(code: int)
    /** Not a status of the source: a null adapter is dereferenced, and the call does not return. */
    | NullPointer

  type Error = s: Status | s != Success && s != NullPointer witness Failure

  datatype ObjectType = NullType | ModuleType | NetIfType | HostIfType

  /** `attrvaluetype` of an attribute's metadata; everything that holds no id and no handler is PlainType. */
  datatype ValueType = PlainType | OidType | ObjListType | ObjMapListType | NotificationType

  /** The callback half of a handler: none, the multiplexer's own `notification_callback`, or a host function. */
  datatype Notify = NoNotify | MuxCallback | HostNotify(fn: nat)
  datatype Handler = Handler(context: nat, notify: Notify)

  datatype Entry = Entry(key: Oid, list: seq<Oid>)

  datatype Value =
    | PlainV(data: string)
    | OidV(oid: Oid)
    | ObjListV(list: seq<Oid>)
    | ObjMapListV(entries: seq<Entry>)
    | NotificationV(handler: Handler)

  datatype Attr = Attr(id: AttrId, value: Value)

  /** What a muxed id stands for. */
  datatype Target = Target(realId: Oid, adapter: AdapterId)
  type Table = map<Oid, Target>

  datatype Key = Key(oid: Oid, attr: AttrId)

  /** The contents of one NotificationContext and the address the adapters know it by. */
  datatype Ctx = Ctx(addr: nat, host: Handler, muxedOid: Oid, objectType: ObjectType)
  type Notifs = map<Key, Ctx>

  /** Metadata is a function of the library, the real id and the attribute id. */
  type Meta = (AdapterId, Oid, AttrId) -> Option<ValueType>

  /** Where the memory allocator puts a new context, given the addresses in use. */
  type Allocate = set<nat> -> nat

  /** The least element: what an ascending walk over a std::map meets first. */
  ghost function Least(s: set<nat>): (m: nat)
    requires s != {}
    ensures m in s && forall k :: k in s ==> m <= k
  {
    var x :| x in s;
    if s == {x} then x
    else
      var y := Least(s - {x});
      assert forall k :: k in s ==> k == x || k in s - {x};
      if x < y then x else y
  }
}
