/** `Platform`: the host-facing calls over the object table, the id tables and the libraries,
    proved against the state machine of MuxSpec. */
module Platforms {
  import opened Options
  import opened MuxTypes
  import opened MuxSpec
  import opened MuxInvariants
  import opened PlatformAdapters

  class Platform {
    const pa: PlatformAdapter
    var objects: map<Oid, MuxObject>
    var logSetting: map<Api, LogSetting>

    ghost function State(): Mux
      reads this, pa, pa.allocator, pa.allocator.bits
    {
      pa.State().(objects := objects, logSetting := logSetting)
    }

    ghost predicate Valid()
      reads this, pa, pa.allocator, pa.allocator.bits
    {
      pa.Valid() && TablesAgree(State())
    }

    constructor (meta: Meta)
      ensures Valid() && State() == INITIAL && pa.meta == meta
    {
      pa := new PlatformAdapter(meta);
      objects, logSetting := map[], map[];
    }

    /** The library call in a constructor, the mapping, and the insertion into `m_objects`. */
    method InstallObject(a: AdapterId, objectType: ObjectType, parent: Oid, realParent: Oid, reply: CreateReply)
        returns (st: Status, id: Oid)
      requires Valid() && objectType != NullType
      modifies this`objects, pa`table, pa`libs, pa.allocator.bits
      ensures Valid()
      ensures (st, id, State()) == Install(old(State()), a, objectType, parent, realParent, reply)
    {
      InstallTablesAgree(State(), a, objectType, parent, realParent, reply);
      if reply.CreateRefused? {
        return reply.error, NULL_OID;
      }
      pa.libs := LibCreate(pa.libs, a, reply.realId, LibObject(objectType, realParent, reply.attrs));
      var next := pa.CreateMapping(a, reply.realId);
      if next.None? {
        return Failure, NULL_OID;
      }
      if next.value in objects {
        return ItemAlreadyExists, NULL_OID;
      }
      objects := objects[next.value := MuxObject(next.value, reply.realId, a, objectType, parent)];
      return Success, next.value;
    }

    /** The recorded settings sent to one adapter, in ascending API order. */
    method ReplaySettings(a: AdapterId, replies: LogReplies) returns (st: Status)
      modifies pa`libs
      ensures (st, pa.libs) == ReplayLogs(old(pa.libs), a, logSetting, replies)
    {
      var rest := logSetting;
      while rest != map[]
        invariant ReplayLogs(pa.libs, a, rest, replies) == ReplayLogs(old(pa.libs), a, logSetting, replies)
        decreases rest.Keys
      {
        assert rest.Keys != {};
        ghost var least := Least(rest.Keys);
        var k :| k in rest.Keys && forall j :: j in rest.Keys ==> k <= j;
        if replies(a, k) != Success {
          return replies(a, k);
        }
        pa.libs := LibLog(pa.libs, a, k, rest[k]);
        rest := rest - {k};
      }
      st := Success;
    }

    method Create(objectType: ObjectType, parent: Oid, location: Option<string>, script: ScriptReply,
                  logReplies: LogReplies, reply: CreateReply) returns (st: Status, id: Oid)
      requires Valid()
      modifies this`objects, pa`table, pa`libs, pa`loader, pa.allocator.bits
      ensures Valid()
      ensures (st, id, State()) == CreateStep(old(State()), objectType, parent, location, script, logReplies, reply)
    {
      match objectType {
        case NullType => return NotSupported, NULL_OID;
        case ModuleType =>
          if location.None? {
            return MandatoryAttributeMissing, NULL_OID;
          }
          var thrown, adapter := pa.GetModuleAdapter(location.value, script);
          FiledFrame(old(State()), State());
          if thrown != Success {
            return thrown, NULL_OID;
          }
          if adapter.None? {
            return Failure, NULL_OID;
          }
          st := ReplaySettings(adapter.value, logReplies);
          FiledFrame(old(State()), State());
          if st != Success {
            return st, NULL_OID;
          }
          st, id := InstallObject(adapter.value, ModuleType, NULL_OID, NULL_OID, reply);
        case _ =>
          if parent !in objects {
            return Uninitialized, NULL_OID;
          }
          if objects[parent].objectType != ModuleType {
            return InvalidObjectId, NULL_OID;
          }
          st, id := InstallObject(objects[parent].adapter, objectType, parent, objects[parent].realId, reply);
      }
    }

    method Remove(id: Oid, reply: RemoveReply) returns (st: Status)
      requires Valid()
      modifies this`objects, pa`table, pa`libs, pa.allocator.bits
      ensures Valid()
      ensures (st, State()) == RemoveStep(old(State()), id, reply)
    {
      StepTablesAgree(State(), pa.meta, MuxSpec.Remove(id, reply));
      if id !in objects {
        return ItemNotFound;
      }
      var o := objects[id];
      if o.objectType == NullType {
        return InvalidObjectId;
      }
      if reply.RemoveRefused? {
        return reply.error;
      }
      pa.libs := LibRemove(pa.libs, Target(o.realId, o.adapter));
      objects := objects - {id};
      pa.RemoveMapping(id);
      st := Success;
    }

    method GetObjectType(id: Oid) returns (t: ObjectType)
      ensures t == ObjectTypeOf(State(), id)
    {
      t := if id in objects then objects[id].objectType else NullType;
    }

    method GetModuleId(id: Oid) returns (m: Oid)
      ensures m == ModuleIdOf(State(), id)
    {
      if id !in objects {
        return NULL_OID;
      }
      match objects[id].objectType {
        case ModuleType => m := objects[id].oid;
        case NullType => m := NULL_OID;
        case _ => m := objects[id].parent;
      }
    }

    /** `order` lists the adapters as the unordered set is walked. */
    method SetLog(api: Api, setting: LogSetting, logger: Status, order: seq<Option<AdapterId>>, replies: LogReplies)
        returns (st: Status)
      requires Valid()
      requires forall a :: a in order <==> Listed(pa.loader, a)
      modifies this`logSetting, pa`libs
      ensures Valid()
      ensures (st, State()) == SetLogStep(old(State()), api, setting, logger, order, replies)
    {
      if logger != Success {
        return logger;
      }
      ghost var libs := pa.libs;
      for i := 0 to |order|
        invariant State() == old(State()).(libs := pa.libs) && pa.Valid()
        invariant BroadcastLog(pa.libs, order[i..], api, setting, replies)
               == BroadcastLog(libs, order, api, setting, replies)
      {
        if order[i].None? {
          FiledFrame(old(State()), State());
          return NullPointer;
        }
        if replies(order[i].value, api) != Success {
          FiledFrame(old(State()), State());
          return replies(order[i].value, api);
        }
        pa.libs := LibLog(pa.libs, order[i].value, api, setting);
      }
      logSetting := logSetting[api := setting];
      FiledFrame(old(State()), State());
      st := Success;
    }
  }
}
