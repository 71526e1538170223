/**
 * The process-wide type registry (elemental/src/type.c): a list of
 * registered type descriptors, newest first, and the counter that hands
 * out type ids.
 */
module TypeRegistry {
  import opened Seqs

  /** NT_TYPE_NONE: the id of no type. */
  const TypeNone: nat := 0

  /** The largest value of the 32-bit NtType. */
  const MaxTypeId: nat := 0xFFFF_FFFF

  /**
   * NtTypeInfo: a caller-owned descriptor.  The registry keeps a pointer
   * to it and writes its `id`; `parents` (the C field `extends`) is the NT_TYPE_NONE-terminated
   * array of parent ids.
   */
  class TypeInfo {
    var id: nat
    var flags: nat
    var parents: seq<nat>
    var size: nat

    /** A zero-initialised descriptor (`NtTypeInfo info = {}`) filled in by its owner. */
    constructor (flags: nat, parents: seq<nat>, size: nat)
      ensures this.id == TypeNone
      ensures this.flags == flags && this.parents == parents && this.size == size
    {
      this.id := TypeNone;
      this.flags := flags;
      this.parents := parents;
      this.size := size;
    }
  }

  class Registry {
    /** nt_type_registry, head first: the most recently registered type comes first. */
    var entries: seq<TypeInfo>
    /** nt_type_next_id: the id the next registration receives. */
    var nextId: nat

    /**
     * Every registered descriptor carries an id the counter has already
     * handed out, and no two carry the same id.
     */
    ghost predicate Valid()
      reads this, entries
    {
      && 1 <= nextId <= MaxTypeId + 1
      && (forall i :: 0 <= i < |entries| ==> 1 <= entries[i].id < nextId)
      && (forall i, j :: 0 <= i < j < |entries| ==> entries[i].id != entries[j].id)
    }

    /** The ids of the registered types, in registry order. */
    ghost function Ids(): (ids: seq<nat>)
      reads this, entries
      ensures |ids| == |entries|
      ensures forall i :: 0 <= i < |entries| ==> ids[i] == entries[i].id
    {
      seq(|entries|, i reads this, entries requires 0 <= i < |entries| => entries[i].id)
    }

    /** Program start: an empty registry whose counter starts at 1. */
    constructor ()
      ensures Valid() && entries == [] && nextId == 1
    {
      entries := [];
      nextId := 1;
    }

    /**
     * nt_type_register: stamps the next id into `info`, makes `info` the
     * registry head and returns the id.  There is no duplicate check and no
     * check of `extends`.
     */
    method Register(info: TypeInfo) returns (id: nat)
      requires Valid()
      requires info.id == TypeNone
      requires nextId <= MaxTypeId
      modifies this, info
      ensures Valid()
      ensures id == old(nextId) && nextId == old(nextId) + 1
      ensures 1 <= id && info.id == id
      ensures id !in old(Ids())
      ensures entries == [info] + old(entries)
      ensures forall e :: e in old(entries) ==> e.id == old(e.id)
      ensures info.flags == old(info.flags) && info.parents == old(info.parents) && info.size == old(info.size)
    {
      assert info !in entries;
      id := nextId;
      info.id := id;
      nextId := nextId + 1;
      entries := [info] + entries;
      assert forall i :: 1 <= i < |entries| ==> entries[i] == old(entries)[i - 1];
    }

    /**
     * nt_type_info_from_type: walks the registry from the head and returns
     * the first descriptor whose id equals `t`, or null.
     */
    method InfoFromType(t: nat) returns (r: TypeInfo?)
      requires Valid()
      ensures r != null ==> r in entries && r.id == t
      ensures r == null <==> t !in Ids()
    {
      var i := 0;
      while i < |entries|
        invariant 0 <= i <= |entries|
        invariant forall j :: 0 <= j < i ==> entries[j].id != t
      {
        if entries[i].id == t {
          return entries[i];
        }
        i := i + 1;
      }
      return null;
    }

    /**
     * nt_type_unregister, as intended (see the findings): removes the entry
     * whose id equals `info`'s and resets `info`'s id to NT_TYPE_NONE; with
     * no such entry it changes nothing.  The ghost result `k` names the
     * removed position.
     */
    method Unregister(info: TypeInfo) returns (ghost k: nat)
      requires Valid()
      modifies this, info
      ensures Valid()
      ensures nextId == old(nextId)
      ensures old(info.id) !in old(Ids()) ==>
        entries == old(entries) && info.id == old(info.id)
      ensures old(info.id) in old(Ids()) ==>
        && k < |old(entries)| && old(entries[k].id) == old(info.id)
        && entries == RemoveAt(old(entries), k)
        && info.id == TypeNone
        && old(info.id) !in Ids()
      ensures forall e :: e in entries ==> e.id == old(e.id)
      ensures info.flags == old(info.flags) && info.parents == old(info.parents) && info.size == old(info.size)
    {
      var i := 0;
      while i < |entries| && entries[i].id != info.id
        invariant 0 <= i <= |entries|
        invariant forall j :: 0 <= j < i ==> entries[j].id != info.id
      {
        i := i + 1;
      }
      k := i;
      if i == |entries| {
        assert info.id !in Ids();
        return;
      }
      RemovedIdGone(i);
      var rest := RemoveAt(entries, i);
      assert forall j :: 0 <= j < |rest| ==> rest[j] != info;
      entries := rest;
      info.id := TypeNone;
    }

    /**
     * Removing entry `k` from a valid registry leaves no entry with its id
     * and no two entries sharing an id.
     */
    lemma RemovedIdGone(k: nat)
      requires Valid() && k < |entries|
      ensures var rest := RemoveAt(entries, k);
        && (forall j :: 0 <= j < |rest| ==> rest[j].id != entries[k].id && rest[j] != entries[k])
        && (forall i, j :: 0 <= i < j < |rest| ==> rest[i].id != rest[j].id)
    {
    }

    /** Within a valid registry an id identifies its descriptor. */
    lemma SameIdSameInfo(a: TypeInfo, b: TypeInfo)
      requires Valid() && a in entries && b in entries && a.id == b.id
      ensures a == b
    {
    }
  }

  /** Registering into a valid registry and then looking the id up finds the new descriptor. */
  method RegisterThenLookup(reg: Registry, info: TypeInfo) returns (id: nat, found: TypeInfo?)
    requires reg.Valid() && info.id == TypeNone && reg.nextId <= MaxTypeId
    modifies reg, info
    ensures found == info && id >= 1
  {
    id := reg.Register(info);
    assert reg.Ids()[0] == id;
    found := reg.InfoFromType(id);
    reg.SameIdSameInfo(found, info);
  }

  /**
   * The sequence of elemental/tests/test-type.c's basic test against the
   * intended registry: a positive id, lookup finds it, unregister resets
   * the id and the lookup then fails.
   */
  method BasicRegistryScenario(reg: Registry, info: TypeInfo) returns (found: TypeInfo?)
    requires reg.Valid() && info.id == TypeNone && reg.nextId <= MaxTypeId
    modifies reg, info
    ensures info.id == TypeNone && found == null
  {
    var id := reg.Register(info);
    assert reg.Ids()[0] == id;
    var from := reg.InfoFromType(id);
    reg.SameIdSameInfo(from, info);
    ghost var k := reg.Unregister(info);
    found := reg.InfoFromType(id);
  }

  /**
   * What nt_type_unregister does to a registry as written, over the ids in
   * registry order (head first).  Register never initialises the new
   * head's `prev`, so unlinking the head writes through an uninitialised
   * pointer; the oldest entry's `next` is NULL, so unlinking it
   * dereferences NULL.  Neither the registry head nor the descriptor's id
   * is ever updated.
   */
  datatype UnlinkOutcome =
    | NotFound
    | Fault
    | Unlinked(remaining: seq<nat>, descriptorId: nat)

  function UnregisterAsWritten(ids: seq<nat>, id: nat): (r: UnlinkOutcome)
    ensures id !in ids <==> r.NotFound?
    ensures r.Fault? <==> id in ids && (IndexOf(ids, id) == 0 || IndexOf(ids, id) == |ids| - 1)
    ensures r.Unlinked? ==> r.descriptorId == id && r.remaining == RemoveAt(ids, IndexOf(ids, id))
  {
    var k := IndexOf(ids, id);
    if k == |ids| then NotFound
    else if k == 0 || k == |ids| - 1 then Fault
    else Unlinked(RemoveAt(ids, k), id)
  }

  /**
   * elemental/tests/test-type.c registers one type and unregisters it; as
   * written that faults, and even where the unlink succeeds the id is not
   * reset to NT_TYPE_NONE as the test expects.
   */
  lemma UnregisterAsWrittenFailsTest(id: nat, a: nat, b: nat)
    requires id != TypeNone && a != id && b != id
    ensures UnregisterAsWritten([id], id) == Fault
    ensures UnregisterAsWritten([a, id, b], id) == Unlinked([a, b], id)
  {
    assert IndexOf([a, id, b], id) == 1 by {
      assert [a, id, b][1..] == [id, b];
    }
  }
}
