/**
 * The type-declaration surface of elemental/include/neutron/elemental/type.h:
 * the flag encoding, the memoised `<func>_get_type()` accessor that
 * NT_DEFINE_TYPE_WITH_CODE generates, the ancestry query `nt_type_isof`,
 * the `NT_IS_<NAME>` check, and the reference count of an instance.
 */
module TypeDefs {
  import opened TypeRegistry

  // ---------------------------------------------------------------------
  // NtTypeFlags
  // ---------------------------------------------------------------------

  /** NT_TYPE_FLAG_STATIC is bit 0. */
  const FlagStatic: nat := 1
  /** NT_TYPE_FLAG_DYNAMIC is the absence of the static bit. */
  const FlagDynamic: nat := 0
  /** NT_TYPE_FLAG_NOREF is bit 1. */
  const FlagNoRef: nat := 2

  /** The two independent properties the flag word encodes. */
  datatype TypeFlags = TypeFlags(isStatic: bool, noRef: bool)

  /** The flag word for a combination, as the enum's bits OR together. */
  function EncodeFlags(f: TypeFlags): (n: nat)
  {
    (if f.isStatic then FlagStatic else FlagDynamic) + (if f.noRef then FlagNoRef else 0)
  }

  /** Reads bit 0 and bit 1 of a flag word. */
  function DecodeFlags(n: nat): (f: TypeFlags)
  {
    TypeFlags(n % 2 == 1, (n / 2) % 2 == 1)
  }

  /** A type may be extended exactly when its STATIC bit is clear. */
  predicate IsDynamic(n: nat) {
    n % 2 == 0
  }

  /** Every combination of flags survives encoding; words of two bits survive decoding. */
  lemma FlagsRoundTrip(f: TypeFlags, n: nat)
    ensures DecodeFlags(EncodeFlags(f)) == f
    ensures n < 4 ==> EncodeFlags(DecodeFlags(n)) == n
    ensures IsDynamic(EncodeFlags(f)) <==> !f.isStatic
    ensures EncodeFlags(f) < 4
  {
    if n < 4 {
      assert n == 0 || n == 1 || n == 2 || n == 3;
    }
  }

  // ---------------------------------------------------------------------
  // Ancestry and nt_type_isof
  // ---------------------------------------------------------------------

  /**
   * The ids listed in an `extends` array before its NT_TYPE_NONE
   * terminator (the whole array when it has none).
   */
  function ParentsOf(extendsArray: seq<nat>): (ps: seq<nat>)
    ensures |ps| <= |extendsArray|
    ensures ps == extendsArray[..|ps|]
    ensures forall i :: 0 <= i < |ps| ==> ps[i] != TypeNone
    ensures |ps| < |extendsArray| ==> extendsArray[|ps|] == TypeNone
  {
    if extendsArray == [] || extendsArray[0] == TypeNone then []
    else [extendsArray[0]] + ParentsOf(extendsArray[1..])
  }

  /** The direct parents of each registered type id. */
  type Hierarchy = map<nat, seq<nat>>

  function Parents(h: Hierarchy, t: nat): seq<nat> {
    if t in h then h[t] else []
  }

  /**
   * A parent is a real type (never NT_TYPE_NONE, which terminates the
   * `extends` array) registered before its children, so it carries a
   * smaller id: ancestry has no cycles.
   */
  predicate Ordered(h: Hierarchy) {
    forall t, i :: t in h && 0 <= i < |h[t]| ==> TypeNone < h[t][i] < t
  }

  /**
   * The hierarchy nt_type_isof reads from a registry: each registered id
   * mapped to the parents listed before its descriptor's terminator.  The
   * entry nearest the head wins, as every registry walk starts there.
   */
  ghost function HierarchyOf(entries: seq<TypeInfo>): (h: Hierarchy)
    reads entries
    ensures forall t :: t in h <==> exists i :: 0 <= i < |entries| && entries[i].id == t
  {
    if entries == [] then map[]
    else
      var rest := HierarchyOf(entries[1..]);
      assert forall i :: 1 <= i < |entries| ==> entries[i] == entries[1..][i - 1];
      rest[entries[0].id := ParentsOf(entries[0].parents)]
  }

  /** Every registered type's parents are ids below its own: they were registered first. */
  ghost predicate ParentsRegisteredFirst(entries: seq<TypeInfo>)
    reads entries
  {
    forall i, j :: 0 <= i < |entries| && 0 <= j < |ParentsOf(entries[i].parents)| ==>
      ParentsOf(entries[i].parents)[j] < entries[i].id
  }

  /** A registry whose parents were registered first yields an acyclic hierarchy without NT_TYPE_NONE. */
  lemma {:induction false} HierarchyOrdered(entries: seq<TypeInfo>)
    requires ParentsRegisteredFirst(entries)
    ensures Ordered(HierarchyOf(entries))
    decreases |entries|
  {
    if entries != [] {
      var rest := entries[1..];
      assert ParentsRegisteredFirst(rest) by {
        forall i, j | 0 <= i < |rest| && 0 <= j < |ParentsOf(rest[i].parents)|
          ensures ParentsOf(rest[i].parents)[j] < rest[i].id
        {
          assert rest[i] == entries[i + 1];
        }
      }
      HierarchyOrdered(rest);
      var ps := ParentsOf(entries[0].parents);
      assert forall j :: 0 <= j < |ps| ==> ps[j] < entries[0].id;
    }
  }

  /**
   * nt_type_isof(type, base): `type` extends `base`, directly or through
   * its parents' own ancestry.
   */
  function IsOf(h: Hierarchy, t: nat, base: nat): (r: bool)
    requires Ordered(h)
    ensures r ==> TypeNone < base < t
    decreases t, 1
  {
    ExtendsAny(h, Parents(h, t), base, t)
  }

  /** Some parent in `ps` is `base` or extends it. */
  function ExtendsAny(h: Hierarchy, ps: seq<nat>, base: nat, bound: nat): (r: bool)
    requires Ordered(h)
    requires forall i :: 0 <= i < |ps| ==> TypeNone < ps[i] < bound
    ensures r ==> TypeNone < base < bound
    decreases bound, 0, |ps|
  {
    if ps == [] then false
    else ps[0] == base || IsOf(h, ps[0], base) || ExtendsAny(h, ps[1..], base, bound)
  }

  /** An ancestry path: each id is a direct parent of the one before it. */
  ghost predicate IsPath(h: Hierarchy, path: seq<nat>) {
    |path| >= 2 && forall i :: 0 <= i < |path| - 1 ==> path[i + 1] in Parents(h, path[i])
  }

  ghost predicate Reaches(h: Hierarchy, t: nat, base: nat) {
    exists path :: IsPath(h, path) && path[0] == t && path[|path| - 1] == base
  }

  /** Some parent in `ps` is `base` or extends it, exactly when one of them reaches it. */
  lemma {:induction false} ExtendsAnyFinds(h: Hierarchy, ps: seq<nat>, base: nat, bound: nat)
    requires Ordered(h)
    requires forall i :: 0 <= i < |ps| ==> TypeNone < ps[i] < bound
    ensures ExtendsAny(h, ps, base, bound) <==>
      exists i :: 0 <= i < |ps| && (ps[i] == base || IsOf(h, ps[i], base))
    decreases |ps|
  {
    if ps != [] {
      ExtendsAnyFinds(h, ps[1..], base, bound);
      if ExtendsAny(h, ps[1..], base, bound) {
        var i :| 0 <= i < |ps[1..]| && (ps[1..][i] == base || IsOf(h, ps[1..][i], base));
        assert ps[i + 1] == ps[1..][i];
      }
      forall i | 1 <= i < |ps| && (ps[i] == base || IsOf(h, ps[i], base))
        ensures ExtendsAny(h, ps[1..], base, bound)
      {
        assert ps[1..][i - 1] == ps[i];
      }
    }
  }

  /** isof follows every ancestry path: a path from `t` to `base` makes `IsOf(h, t, base)` true. */
  lemma {:induction false} PathImpliesIsOf(h: Hierarchy, path: seq<nat>)
    requires Ordered(h) && IsPath(h, path)
    ensures IsOf(h, path[0], path[|path| - 1])
    decreases |path|
  {
    var t, p := path[0], path[1];
    var ps := Parents(h, t);
    assert p in ps;
    var i :| 0 <= i < |ps| && ps[i] == p;
    ExtendsAnyFinds(h, ps, path[|path| - 1], t);
    if |path| > 2 {
      var rest := path[1..];
      assert IsPath(h, rest) by {
        forall j | 0 <= j < |rest| - 1 ensures rest[j + 1] in Parents(h, rest[j]) {
          assert rest[j] == path[j + 1] && rest[j + 1] == path[j + 2];
        }
      }
      PathImpliesIsOf(h, rest);
    }
  }

  /** Every answer of isof has a path behind it. */
  lemma {:induction false} IsOfImpliesPath(h: Hierarchy, t: nat, base: nat)
    requires Ordered(h) && IsOf(h, t, base)
    ensures Reaches(h, t, base)
    decreases t
  {
    var ps := Parents(h, t);
    ExtendsAnyFinds(h, ps, base, t);
    var i :| 0 <= i < |ps| && (ps[i] == base || IsOf(h, ps[i], base));
    if ps[i] == base {
      assert IsPath(h, [t, base]);
    } else {
      IsOfImpliesPath(h, ps[i], base);
      var path :| IsPath(h, path) && path[0] == ps[i] && path[|path| - 1] == base;
      PathCons(h, t, path);
      var full := [t] + path;
      assert full[0] == t && full[|full| - 1] == base;
    }
  }

  /** A path that starts at one of `t`'s parents extends to a path from `t`. */
  lemma PathCons(h: Hierarchy, t: nat, path: seq<nat>)
    requires IsPath(h, path) && path[0] in Parents(h, t)
    ensures IsPath(h, [t] + path)
  {
    var full := [t] + path;
    forall j | 0 <= j < |full| - 1 ensures full[j + 1] in Parents(h, full[j]) {
      if j > 0 { assert full[j] == path[j - 1] && full[j + 1] == path[j]; }
    }
  }

  /** isof(type, base) holds exactly when an ancestry path leads from `type` to `base`. */
  lemma IsOfIffReaches(h: Hierarchy, t: nat, base: nat)
    requires Ordered(h)
    ensures IsOf(h, t, base) <==> Reaches(h, t, base)
  {
    if IsOf(h, t, base) {
      IsOfImpliesPath(h, t, base);
    }
    if Reaches(h, t, base) {
      var path :| IsPath(h, path) && path[0] == t && path[|path| - 1] == base;
      PathImpliesIsOf(h, path);
    }
  }

  /** Ancestry is transitive: a type extends its parents' ancestors. */
  lemma IsOfTransitive(h: Hierarchy, t: nat, mid: nat, base: nat)
    requires Ordered(h) && IsOf(h, t, mid) && IsOf(h, mid, base)
    ensures IsOf(h, t, base)
  {
    IsOfImpliesPath(h, t, mid);
    IsOfImpliesPath(h, mid, base);
    var p1 :| IsPath(h, p1) && p1[0] == t && p1[|p1| - 1] == mid;
    var p2 :| IsPath(h, p2) && p2[0] == mid && p2[|p2| - 1] == base;
    var full := p1 + p2[1..];
    assert IsPath(h, full) by {
      forall j | 0 <= j < |full| - 1 ensures full[j + 1] in Parents(h, full[j]) {
        if j < |p1| - 1 {
          assert full[j] == p1[j] && full[j + 1] == p1[j + 1];
        } else {
          assert full[j] == p2[j - |p1| + 1] && full[j + 1] == p2[j - |p1| + 2];
        }
      }
    }
    PathImpliesIsOf(h, full);
  }

  /** Along a path the ids strictly decrease. */
  lemma {:induction false} PathDescends(h: Hierarchy, path: seq<nat>)
    requires Ordered(h) && IsPath(h, path)
    ensures path[|path| - 1] < path[0]
    decreases |path|
  {
    var ps := Parents(h, path[0]);
    assert path[1] in ps;
    var i :| 0 <= i < |ps| && ps[i] == path[1];
    if |path| > 2 {
      var rest := path[1..];
      assert IsPath(h, rest) by {
        forall j | 0 <= j < |rest| - 1 ensures rest[j + 1] in Parents(h, rest[j]) {
          assert rest[j] == path[j + 1] && rest[j + 1] == path[j + 2];
        }
      }
      PathDescends(h, rest);
    }
  }

  // ---------------------------------------------------------------------
  // NT_IS_<NAME>
  // ---------------------------------------------------------------------

  /**
   * NT_IS_<NAME>(self) as the macro is written: with `base` the macro's own
   * type and `child` the instance's type it asks `nt_type_isof(base, child)`,
   * that is, whether the macro's type extends the instance's type.
   */
  function IsInstanceAsWritten(h: Hierarchy, instanceType: nat, macroType: nat): (r: bool)
    requires Ordered(h)
    ensures r <==> macroType == instanceType || Reaches(h, macroType, instanceType)
  {
    IsOfIffReaches(h, macroType, instanceType);
    IsOf(h, macroType, instanceType) || macroType == instanceType
  }

  /**
   * NT_IS_<NAME>(self) as intended: the instance's type is the macro's type
   * or extends it.
   */
  function IsInstance(h: Hierarchy, instanceType: nat, macroType: nat): (r: bool)
    requires Ordered(h)
    ensures r <==> instanceType == macroType || Reaches(h, instanceType, macroType)
  {
    IsOfIffReaches(h, instanceType, macroType);
    IsOf(h, instanceType, macroType) || instanceType == macroType
  }

  /**
   * With B extending A, the written check rejects a B instance as an A and
   * accepts an A instance as a B; the intended check does the opposite.
   */
  lemma IsInstanceAsWrittenReversed(a: nat, b: nat)
    requires 0 < a < b
    ensures var h: Hierarchy := map[a := [], b := [a]];
      Ordered(h) &&
      !IsInstanceAsWritten(h, b, a) && IsInstance(h, b, a) &&
      IsInstanceAsWritten(h, a, b) && !IsInstance(h, a, b)
  {
    var h: Hierarchy := map[a := [], b := [a]];
    assert IsOf(h, b, a);
  }

  // ---------------------------------------------------------------------
  // NT_DEFINE_TYPE_WITH_CODE's accessor and payload size
  // ---------------------------------------------------------------------

  /**
   * The statics one NT_DEFINE_TYPE_WITH_CODE expansion owns: the memoised
   * `id` and the `info` it registers, with the flags, parent array and
   * payload size the expansion fills in.  `structSize` and `headerSize`
   * are sizeof the type's struct and sizeof NtTypeInstance.
   */
  class TypeDefinition {
    var id: nat
    const info: TypeInfo
    const flags: nat
    const parents: seq<nat>
    const structSize: nat
    const headerSize: nat

    constructor (info: TypeInfo, flags: nat, parents: seq<nat>, structSize: nat, headerSize: nat)
      requires headerSize <= structSize
      ensures this.id == TypeNone && this.info == info && this.flags == flags
      ensures this.parents == parents && this.structSize == structSize && this.headerSize == headerSize
    {
      this.id := TypeNone;
      this.info := info;
      this.flags := flags;
      this.parents := parents;
      this.structSize := structSize;
      this.headerSize := headerSize;
    }

    /** <NS>_<NAME>_SIZE: the bytes of the struct that follow its NtTypeInstance header. */
    function PayloadSize(): (n: nat)
      requires headerSize <= structSize
      ensures n + headerSize == structSize
    {
      structSize - headerSize
    }

    /**
     * `<func>_get_type()`: the first call fills `info` and registers it;
     * every call returns the id of that one registration.
     */
    method GetType(reg: Registry) returns (t: nat)
      requires reg.Valid() && headerSize <= structSize
      requires id == TypeNone ==> info.id == TypeNone && reg.nextId <= MaxTypeId
      modifies this, info, reg
      ensures reg.Valid()
      ensures t != TypeNone && t == id
      ensures old(id) != TypeNone ==>
        t == old(id) && unchanged(reg) && unchanged(info)
      ensures old(id) == TypeNone ==>
        && t == old(reg.nextId) && info.id == t
        && reg.entries == [info] + old(reg.entries)
        && info.flags == flags && info.parents == parents
        && info.size + headerSize == structSize
        && Parents(HierarchyOf(reg.entries), t) == ParentsOf(parents)
      ensures (&& old(id) == TypeNone
               && ParentsRegisteredFirst(old(reg.entries))
               && forall j :: 0 <= j < |ParentsOf(parents)| ==> ParentsOf(parents)[j] < old(reg.nextId))
        ==> ParentsRegisteredFirst(reg.entries)
    {
      if id == TypeNone {
        info.flags := flags;
        info.size := PayloadSize();
        info.parents := parents;
        id := reg.Register(info);
      }
      t := id;
    }
  }

  /** Two calls of the accessor give the same id and register the type once. */
  method GetTypeTwice(def: TypeDefinition, reg: Registry) returns (first: nat, second: nat)
    requires reg.Valid() && def.headerSize <= def.structSize
    requires def.id == TypeNone && def.info.id == TypeNone && reg.nextId <= MaxTypeId
    modifies def, def.info, reg
    ensures first == second != TypeNone
    ensures reg.entries == [def.info] + old(reg.entries)
  {
    first := def.GetType(reg);
    second := def.GetType(reg);
  }

  // ---------------------------------------------------------------------
  // nt_type_instance_ref / nt_type_instance_unref
  // ---------------------------------------------------------------------

  /**
   * The lifetime part of an instance: its reference count and whether it
   * is still allocated.  A new instance starts with no extra references.
   */
  class Instance {
    const typeId: nat
    const noRef: bool
    var refCount: nat
    var alive: bool

    constructor (typeId: nat, flags: nat)
      ensures this.typeId == typeId && noRef == DecodeFlags(flags).noRef
      ensures refCount == 0 && alive
    {
      this.typeId := typeId;
      noRef := DecodeFlags(flags).noRef;
      refCount := 0;
      alive := true;
    }

    /** nt_type_instance_ref: one more reference, unless the type is flagged NOREF. */
    method Ref() returns (same: Instance)
      requires alive
      modifies this
      ensures same == this && alive
      ensures refCount == old(refCount) + (if noRef then 0 else 1)
    {
      if !noRef {
        refCount := refCount + 1;
      }
      same := this;
    }

    /**
     * nt_type_instance_unref: drops one extra reference; when there are
     * none left the instance is destroyed.
     */
    method Unref() returns (destroyed: bool)
      requires alive
      modifies this
      ensures destroyed <==> old(refCount) == 0
      ensures alive == !destroyed
      ensures refCount == if destroyed then 0 else old(refCount) - 1
    {
      destroyed := refCount == 0;
      if destroyed {
        alive := false;
      } else {
        refCount := refCount - 1;
      }
    }
  }

  /**
   * elemental/tests/test-type.c's instance test: one ref on a new instance
   * gives a count of 1, the first release only drops it back to 0, the
   * second destroys.
   */
  method RefUnrefScenario(typeId: nat) returns (inst: Instance)
    ensures !inst.alive
  {
    inst := new Instance(typeId, FlagStatic);
    var same := inst.Ref();
    assert same == inst && inst.refCount == 1;
    var destroyed := inst.Unref();
    assert !destroyed && inst.alive && inst.refCount == 0;
    destroyed := inst.Unref();
    assert destroyed;
  }
}
