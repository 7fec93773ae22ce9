/** `OIDAllocator`: a bitset of the muxed ids in use. */
module OidAllocators {
  import opened Options
  import opened MuxTypes
  import opened MuxSpec

  class OIDAllocator {
    const bits: array<bool>

    ghost predicate Valid()
      reads this, bits
    {
      bits.Length == MAX_OBJECT && !bits[NULL_OID]
    }

    ghost function Used(): set<nat>
      reads this, bits
    {
      set i: nat | i < bits.Length && bits[i]
    }

    constructor ()
      ensures Valid() && fresh(bits) && Used() == {}
    {
      bits := new bool[MAX_OBJECT](i => false);
    }

    /** None where the source throws: every id is taken. */
    method Next() returns (id: Option<Oid>)
      requires Valid()
      modifies bits
      ensures Valid()
      ensures id == if NextId(old(Used())) == NULL_OID then None else Some(NextId(old(Used())))
      ensures Used() == if id.Some? then old(Used()) + {id.value} else old(Used())
    {
      for i := 1 to bits.Length
        invariant Valid() && Used() == old(Used())
        invariant forall j :: 1 <= j < i ==> bits[j]
      {
        if !bits[i] {
          FirstFree(Used(), i);
          bits[i] := true;
          return Some(i);
        }
      }
      assert forall j: nat :: IsId(j) ==> bits[j];
      assert Free(Used()) == {};
      return None;
    }

    method Release(id: Oid)
      requires Valid() && id < MAX_OBJECT
      modifies bits
      ensures Valid() && Used() == old(Used()) - {id}
    {
      bits[id] := false;
    }
  }

  lemma FirstFree(used: set<nat>, i: nat)
    requires IsId(i) && i !in used && forall j: nat :: IsId(j) && j < i ==> j in used
    ensures NextId(used) == i
  {
    assert i in Free(used);
  }
}
