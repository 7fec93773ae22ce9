/** The multiplexer as a state machine: its own tables, the vendor libraries behind it, and one step
    per call. A library's answer to a call is a parameter of the step. */
module MuxSpec {
  import opened Options
  import opened MuxTypes
  import opened Translation

  // ---- state -------------------------------------------------------------------

  /** A `Module`, `NetIf` or `HostIf`: never changed after its constructor. `parent` is the muxed
      id of the module an interface was created on, null for a module. */
  datatype MuxObject = MuxObject(oid: Oid, realId: Oid, adapter: AdapterId, objectType: ObjectType, parent: Oid)

  /** `PlatformAdapter`: set bits of the allocator, `m_map`, `m_notification_map`. */
  datatype Adapters = Adapters(used: set<nat>, table: Table, notifs: Notifs)

  datatype LogSetting = LogSetting(level: nat, fn: nat)

  /** An object inside a vendor library; `parent` is a real id, null for a module. */
  datatype LibObject = LibObject(objectType: ObjectType, parent: Oid, attrs: map<AttrId, Value>)
  datatype Lib = Lib(live: map<Oid, LibObject>, logs: map<Api, LogSetting>)

  /** `ExecPlatformAdapter`: libraries resident in the process, `m_lib_map`, `m_ma_map`. A null
      adapter pointer in the maps is None. */
  datatype Loader = Loader(resident: set<nat>,
                           libMap: map<nat, Option<AdapterId>>,
                           locMap: map<string, Option<AdapterId>>)

  datatype Mux = Mux(objects: map<Oid, MuxObject>, pa: Adapters, loader: Loader,
                     libs: seq<Lib>, logSetting: map<Api, LogSetting>)

  const INITIAL: Mux :=
    Mux(map[], Adapters({}, map[], map[]), Loader({}, map[], map[]), [], map[])

  function LibAt(libs: seq<Lib>, a: AdapterId): Lib {
    if a < |libs| then libs[a] else Lib(map[], map[])
  }

  function PutLib(libs: seq<Lib>, a: AdapterId, lib: Lib): seq<Lib> {
    if a < |libs| then libs[a := lib] else libs
  }

  // ---- answers of the environment ---------------------------------------------------

  datatype CreateReply = Created(realId: Oid, attrs: map<AttrId, Value>) | CreateRefused(error: Error)
  datatype RemoveReply = Removed | RemoveRefused(error: Error)
  /** A library that rejects a request may have stored any of its attributes. */
  datatype SetReply = Accepted | Rejected(error: Error, stored: set<nat>)
  datatype GetReply = Got(values: seq<Value>) | GetRefused(error: Error)
  /** Outcome of loading a library that is not resident: dlopen may fail, or its initialisation. */
  datatype LoadReply = LoadOk | OpenFailed | InitFailed(error: Error)
  datatype ScriptReply = ScriptFailed | NoLibrary | Script(handle: nat, load: LoadReply)
  type LogReplies = (AdapterId, Api) -> Status

  // ---- PlatformAdapter: conversion of one attribute -----------------------------------

  datatype Converted = Converted(status: Status, attr: Attr, notifs: Notifs)

  function Addresses(n: Notifs): set<nat> {
    set k | k in n :: n[k].addr
  }

  predicate NullHandler(t: Option<ValueType>, v: Value) {
    t == Some(NotificationType) && v.NotificationV? && v.handler.notify == NoNotify
  }

  /** `convert_oid` where the destination is, or starts as a copy of, the source. */
  ghost function ConvertAttr(table: Table, notifs: Notifs, meta: Meta, alloc: Allocate,
                             objectType: ObjectType, id: Oid, a: Attr, reversed: bool): Converted
  {
    if id !in table then Converted(Failure, a, notifs)
    else
      var (r, ad) := (table[id].realId, table[id].adapter);
      match meta(ad, r, a.id)
      case None => Converted(Failure, a, notifs)
      case Some(t) =>
        if t == NotificationType && a.value.NotificationV? then
          ConvertHandler(notifs, alloc, objectType, Key(id, a.id), a.value.handler, reversed)
        else
          var x := Translator(table, ad, reversed);
          Converted(if ValueOk(x, t, a.value) then Success else Failure,
                    Attr(a.id, ConvertValue(x, t, a.value)), notifs)
  }

  /** A handler on its way to the library is kept in the context under its key and replaced by
      that context and the multiplexer's callback; on the way back the kept handler is shown. */
  function ConvertHandler(notifs: Notifs, alloc: Allocate, objectType: ObjectType,
                          key: Key, h: Handler, reversed: bool): Converted
  {
    if reversed then
      Converted(Success, Attr(key.attr, NotificationV(if key in notifs then notifs[key].host else h)), notifs)
    else if h.notify == NoNotify then Converted(Success, Attr(key.attr, NotificationV(h)), notifs)
    else
      var addr := if key in notifs then notifs[key].addr else alloc(Addresses(notifs));
      Converted(Success, Attr(key.attr, NotificationV(Handler(addr, MuxCallback))),
                notifs[key := Ctx(addr, h, key.oid, objectType)])
  }

  /** The loop of `set`: inputs for the library, keys whose handler is null, contexts. */
  datatype Request = Request(status: Status, inputs: seq<Attr>, nulled: set<Key>, notifs: Notifs)

  ghost function ConvertRequest(table: Table, notifs: Notifs, meta: Meta, alloc: Allocate,
                                objectType: ObjectType, id: Oid, attrs: seq<Attr>): (q: Request)
    requires id in table
    ensures q.status == Success ==> |q.inputs| == |attrs|
  {
    if attrs == [] then Request(Success, [], {}, notifs)
    else
      var n := |attrs| - 1;
      var q := ConvertRequest(table, notifs, meta, alloc, objectType, id, attrs[..n]);
      if q.status != Success then q
      else
        var c := ConvertAttr(table, q.notifs, meta, alloc, objectType, id, attrs[n], false);
        if c.status != Success then q.(status := c.status, notifs := c.notifs)
        else
          var t := meta(table[id].adapter, table[id].realId, attrs[n].id);
          Request(Success, q.inputs + [c.attr],
                  if NullHandler(t, attrs[n].value) then q.nulled + {Key(id, attrs[n].id)} else q.nulled,
                  c.notifs)
  }

  /** Reverse conversion makes no context. */
  const NO_ALLOC: Allocate := (used: set<nat>) => 0

  /** The loop of `get`, over the values the library put in the caller's buffers. On failure the
      attributes after the failing one are left as the library wrote them. */
  ghost function ConvertAnswer(table: Table, notifs: Notifs, meta: Meta, id: Oid, attrs: seq<Attr>): (Status, seq<Attr>)
  {
    if attrs == [] then (Success, [])
    else
      var c := ConvertAttr(table, notifs, meta, NO_ALLOC, NullType, id, attrs[0], true);
      if c.status != Success then (c.status, [c.attr] + attrs[1..])
      else
        var (st, rest) := ConvertAnswer(table, notifs, meta, id, attrs[1..]);
        (st, [c.attr] + rest)
  }

  // ---- vendor libraries ------------------------------------------------------------------

  /** Attributes after storing, in order, the inputs whose index is in `stored`. */
  function Store(attrs: map<AttrId, Value>, inputs: seq<Attr>, stored: set<nat>): map<AttrId, Value> {
    if inputs == [] then attrs
    else
      var n := |inputs| - 1;
      var m := Store(attrs, inputs[..n], stored);
      if n in stored then m[inputs[n].id := inputs[n].value] else m
  }

  function UpTo(n: nat): (s: set<nat>)
    ensures forall i: nat :: i in s <==> i < n
  {
    if n == 0 then {} else UpTo(n - 1) + {n - 1}
  }

  function LibStore(libs: seq<Lib>, t: Target, inputs: seq<Attr>, stored: set<nat>): seq<Lib> {
    var lib := LibAt(libs, t.adapter);
    if t.realId !in lib.live then libs
    else
      var o := lib.live[t.realId];
      PutLib(libs, t.adapter, lib.(live := lib.live[t.realId := o.(attrs := Store(o.attrs, inputs, stored))]))
  }

  function LibCreate(libs: seq<Lib>, a: AdapterId, r: Oid, o: LibObject): seq<Lib> {
    var lib := LibAt(libs, a);
    PutLib(libs, a, lib.(live := lib.live[r := o]))
  }

  function LibRemove(libs: seq<Lib>, t: Target): seq<Lib> {
    var lib := LibAt(libs, t.adapter);
    PutLib(libs, t.adapter, lib.(live := lib.live - {t.realId}))
  }

  function LibLog(libs: seq<Lib>, a: AdapterId, api: Api, setting: LogSetting): seq<Lib> {
    var lib := LibAt(libs, a);
    PutLib(libs, a, lib.(logs := lib.logs[api := setting]))
  }

  // ---- get and set ---------------------------------------------------------------------------

  ghost function SetStep(s: Mux, meta: Meta, objectType: ObjectType, id: Oid, attrs: seq<Attr>,
                         alloc: Allocate, reply: SetReply): (Status, Mux)
  {
    if id !in s.pa.table then (Failure, s)
    else
      var q := ConvertRequest(s.pa.table, s.pa.notifs, meta, alloc, objectType, id, attrs);
      if q.status != Success then (q.status, s.(pa := s.pa.(notifs := q.notifs)))
      else match reply
        case Rejected(e, stored) =>
          (e, s.(pa := s.pa.(notifs := q.notifs), libs := LibStore(s.libs, s.pa.table[id], q.inputs, stored)))
        case Accepted =>
          (Success, s.(pa := s.pa.(notifs := q.notifs - q.nulled),
                       libs := LibStore(s.libs, s.pa.table[id], q.inputs, UpTo(|q.inputs|))))
  }

  function Answer(ids: seq<AttrId>, values: seq<Value>): seq<Attr>
    requires |ids| == |values|
  {
    seq(|ids|, i requires 0 <= i < |ids| => Attr(ids[i], values[i]))
  }

  /** `get` changes nothing but the caller's buffers, whose contents are the second component;
      with a refusal they are whatever the caller had there. */
  ghost function GetStep(s: Mux, meta: Meta, id: Oid, ids: seq<AttrId>, reply: GetReply): (Status, seq<Attr>)
    requires reply.Got? ==> |reply.values| == |ids|
  {
    if id !in s.pa.table then (Failure, [])
    else match reply
      case GetRefused(e) => (e, [])
      case Got(values) => ConvertAnswer(s.pa.table, s.pa.notifs, meta, id, Answer(ids, values))
  }

  // ---- the id allocator ------------------------------------------------------------------------

  predicate IsId(i: nat) {
    1 <= i < MAX_OBJECT
  }

  ghost function Free(used: set<nat>): set<nat> {
    set i: nat | i < MAX_OBJECT && IsId(i) && i !in used
  }

  /** The id `next` gives out: the least free one, or the null id when it throws. */
  ghost function NextId(used: set<nat>): nat {
    if Free(used) == {} then NULL_OID else Least(Free(used))
  }

  // ---- library lookup and log settings ----------------------------------------------------------

  /** Result of `get_module_adapter`: `thrown` is Success unless an exception left it. */
  datatype Lookup = Lookup(thrown: Status, adapter: Option<AdapterId>, loader: Loader, libs: seq<Lib>)

  function LookupAdapter(l: Loader, libs: seq<Lib>, location: string, script: ScriptReply): Lookup {
    match script
    case ScriptFailed => Lookup(Success, None, l, libs)
    case NoLibrary => Lookup(Success, None, l, libs)
    case Script(h, load) =>
      if h in l.resident then
        // m_lib_map[dl] inserts a null pointer for a key it does not have
        var ma := if h in l.libMap then l.libMap[h] else None;
        Lookup(Success, ma, Loader(l.resident, l.libMap[h := ma], l.locMap[location := ma]), libs)
      else match load
        case OpenFailed => Lookup(Failure, None, l, libs)
        case InitFailed(e) => Lookup(e, None, l.(resident := l.resident + {h}), libs)
        case LoadOk =>
          var ma := Some(|libs|);
          Lookup(Success, ma, Loader(l.resident + {h}, l.libMap[h := ma], l.locMap[location := ma]),
                 libs + [Lib(map[], map[])])
  }

  /** The recorded settings replayed to one adapter in ascending API order, up to a refusal. */
  ghost function ReplayLogs(libs: seq<Lib>, a: AdapterId, settings: map<Api, LogSetting>,
                            replies: LogReplies): (Status, seq<Lib>)
    decreases settings.Keys
  {
    if settings == map[] then (Success, libs)
    else
      assert settings.Keys != {};
      var k := Least(settings.Keys);
      if replies(a, k) != Success then (replies(a, k), libs)
      else ReplayLogs(LibLog(libs, a, k, settings[k]), a, settings - {k}, replies)
  }

  /** One setting sent to a list of adapters, up to a refusal or a null adapter. */
  function BroadcastLog(libs: seq<Lib>, order: seq<Option<AdapterId>>, api: Api, setting: LogSetting,
                        replies: LogReplies): (Status, seq<Lib>)
    decreases order
  {
    if order == [] then (Success, libs)
    else match order[0]
      case None => (NullPointer, libs)
      case Some(a) =>
        if replies(a, api) != Success then (replies(a, api), libs)
        else BroadcastLog(LibLog(libs, a, api, setting), order[1..], api, setting, replies)
  }

  /** `list_module_adapters`: what the locations map to, a null adapter included. */
  ghost predicate Listed(l: Loader, a: Option<AdapterId>) {
    exists loc :: loc in l.locMap && l.locMap[loc] == a
  }

  // ---- create, remove, set_log ---------------------------------------------------------------------

  /** From the library call in a constructor to the insertion into `m_objects`. */
  ghost function Install(s: Mux, a: AdapterId, objectType: ObjectType, parent: Oid, realParent: Oid,
                   reply: CreateReply): (Status, Oid, Mux)
  {
    match reply
    case CreateRefused(e) => (e, NULL_OID, s)
    case Created(r, attrs) =>
      var s1 := s.(libs := LibCreate(s.libs, a, r, LibObject(objectType, realParent, attrs)));
      var id := NextId(s.pa.used);
      if id == NULL_OID then (Failure, NULL_OID, s1)
      else
        var s2 := s1.(pa := Adapters(s.pa.used + {id}, s.pa.table[id := Target(r, a)], s.pa.notifs));
        if id in s.objects then (ItemAlreadyExists, NULL_OID, s2)
        else (Success, id, s2.(objects := s.objects[id := MuxObject(id, r, a, objectType, parent)]))
  }

  /** `Platform::create`. `location` is the location attribute of the request, if it has one. */
  ghost function CreateStep(s: Mux, objectType: ObjectType, parent: Oid, location: Option<string>,
                            script: ScriptReply, logReplies: LogReplies, reply: CreateReply): (Status, Oid, Mux)
  {
    match objectType
    case NullType => (NotSupported, NULL_OID, s)
    case ModuleType =>
      if location.None? then (MandatoryAttributeMissing, NULL_OID, s)
      else
        var lk := LookupAdapter(s.loader, s.libs, location.value, script);
        var s1 := s.(loader := lk.loader, libs := lk.libs);
        if lk.thrown != Success then (lk.thrown, NULL_OID, s1)
        else if lk.adapter.None? then (Failure, NULL_OID, s1)
        else
          var (st, libs) := ReplayLogs(s1.libs, lk.adapter.value, s.logSetting, logReplies);
          if st != Success then (st, NULL_OID, s1.(libs := libs))
          else Install(s1.(libs := libs), lk.adapter.value, ModuleType, NULL_OID, NULL_OID, reply)
    case _ =>
      if parent !in s.objects then (Uninitialized, NULL_OID, s)
      else if s.objects[parent].objectType != ModuleType then (InvalidObjectId, NULL_OID, s)
      else Install(s, s.objects[parent].adapter, objectType, parent, s.objects[parent].realId, reply)
  }

  /** `Platform::remove` with `remove_mapping`. */
  function RemoveStep(s: Mux, id: Oid, reply: RemoveReply): (Status, Mux) {
    if id !in s.objects then (ItemNotFound, s)
    else if s.objects[id].objectType == NullType then (InvalidObjectId, s)
    else match reply
      case RemoveRefused(e) => (e, s)
      case Removed =>
        var o := s.objects[id];
        var pa := if id in s.pa.table then Adapters(s.pa.used - {id}, s.pa.table - {id}, s.pa.notifs) else s.pa;
        (Success, s.(objects := s.objects - {id}, pa := pa, libs := LibRemove(s.libs, Target(o.realId, o.adapter))))
  }

  /** `Platform::set_log`. `logger` is the answer of the process-wide logger, `order` the order in
      which the unordered set of adapters is walked. */
  function SetLogStep(s: Mux, api: Api, setting: LogSetting, logger: Status, order: seq<Option<AdapterId>>,
                      replies: LogReplies): (Status, Mux)
  {
    if logger != Success then (logger, s)
    else
      var (st, libs) := BroadcastLog(s.libs, order, api, setting, replies);
      if st != Success then (st, s.(libs := libs))
      else (Success, s.(libs := libs, logSetting := s.logSetting[api := setting]))
  }

  function ObjectTypeOf(s: Mux, id: Oid): ObjectType {
    if id in s.objects then s.objects[id].objectType else NullType
  }

  /** `Platform::get_module_id`. */
  function ModuleIdOf(s: Mux, id: Oid): Oid {
    if id !in s.objects then NULL_OID
    else match s.objects[id].objectType
      case ModuleType => s.objects[id].oid
      case NullType => NULL_OID
      case _ => s.objects[id].parent
  }

  // ---- runs -------------------------------------------------------------------------------------------

  datatype Op =
    | Create(objectType: ObjectType, parent: Oid, location: Option<string>, script: ScriptReply,
             logReplies: LogReplies, createReply: CreateReply)
    | Remove(id: Oid, removeReply: RemoveReply)
    | SetAttrs(id: Oid, attrs: seq<Attr>, alloc: Allocate, setReply: SetReply)
    | GetAttrs(id: Oid)
    | SetLog(api: Api, setting: LogSetting, logger: Status, order: seq<Option<AdapterId>>, logReplies: LogReplies)

  /** One call of the host. An attribute call reaches `set` only through a live object, with the
      object's own type. */
  ghost function Step(s: Mux, meta: Meta, op: Op): Mux {
    match op
    case Create(t, m, loc, script, logs, reply) => CreateStep(s, t, m, loc, script, logs, reply).2
    case Remove(id, reply) => RemoveStep(s, id, reply).1
    case SetAttrs(id, attrs, alloc, reply) =>
      if id in s.objects then SetStep(s, meta, s.objects[id].objectType, id, attrs, alloc, reply).1 else s
    case GetAttrs(_) => s
    case SetLog(api, setting, logger, order, logs) => SetLogStep(s, api, setting, logger, order, logs).1
  }

  ghost function Run(s: Mux, meta: Meta, ops: seq<Op>): Mux
    decreases ops
  {
    if ops == [] then s else Run(Step(s, meta, ops[0]), meta, ops[1..])
  }
}
