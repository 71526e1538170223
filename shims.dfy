/**
 * The shim registry (shimmy/src/registry.c; shimmy/src/shimmy.c carries an
 * identical copy of the same functions): a process-wide list of bindings
 * from a (library, method) pair to a handler, newest first.  A shim id is
 * the address of its binding, so the model uses the binding object itself
 * as the id and null as NT_SHIM_NONE.
 */
module Shims {
  import opened Values
  import opened Seqs

  /** An NtShimMethod function pointer; 0 is NULL. */
  type ShimMethod = Addr

  /** NtShimBinding: the names it answers to and its handler; its id is its own address. */
  class Binding {
    const lib: CString
    const methodName: CString
    const handler: ShimMethod

    constructor (lib: CString, methodName: CString, handler: ShimMethod)
      ensures this.lib == lib && this.methodName == methodName && this.handler == handler
    {
      this.lib := lib;
      this.methodName := methodName;
      this.handler := handler;
    }
  }

  /** `b` answers to `lib` and `methodName` (both strcmp calls return 0). */
  predicate Matches(b: Binding, lib: CString, methodName: CString) {
    b.lib == lib && b.methodName == methodName
  }

  class Registry {
    /** nt_shim_registry, head first. */
    var bindings: seq<Binding>

    /** Every binding is a separate allocation, so ids are distinct; every handler is non-NULL. */
    ghost predicate Valid()
      reads this
    {
      && (forall i, j :: 0 <= i < j < |bindings| ==> bindings[i] != bindings[j])
      && (forall i :: 0 <= i < |bindings| ==> bindings[i].handler != Null)
    }

    /** `id` names a live binding. */
    ghost predicate Bound(id: Binding?)
      reads this
    {
      exists i :: 0 <= i < |bindings| && bindings[i] == id
    }

    /** Program start: no bindings. */
    constructor ()
      ensures Valid() && bindings == []
    {
      bindings := [];
    }

    /**
     * nt_shimmy_bind, as intended (see the findings): a new binding for
     * (lib, method) becomes the registry head and its id, never
     * NT_SHIM_NONE, is returned.  Existing bindings for the same names
     * stay.
     */
    method Bind(lib: CString, methodName: CString, handler: ShimMethod) returns (id: Binding)
      requires Valid() && handler != Null
      modifies this
      ensures Valid() && fresh(id)
      ensures id.lib == lib && id.methodName == methodName && id.handler == handler
      ensures bindings == [id] + old(bindings)
    {
      id := new Binding(lib, methodName, handler);
      bindings := [id] + bindings;
    }

    /** nt_shimmy_get_shim: the binding whose id is `id`, or NULL. */
    method GetShim(id: Binding?) returns (b: Binding?)
      requires Valid()
      ensures b != null ==> b == id
      ensures b == null <==> !Bound(id)
    {
      var i := 0;
      while i < |bindings|
        invariant 0 <= i <= |bindings|
        invariant forall j :: 0 <= j < i ==> bindings[j] != id
      {
        if bindings[i] == id {
          return bindings[i];
        }
        i := i + 1;
      }
      return null;
    }

    /**
     * nt_shimmy_find: the id of the first binding, from the head, whose
     * library and method both equal the arguments; NT_SHIM_NONE if none does.
     */
    method Find(lib: CString, methodName: CString) returns (id: Binding?)
      requires Valid()
      ensures id == null <==> forall i :: 0 <= i < |bindings| ==> !Matches(bindings[i], lib, methodName)
      ensures id != null ==>
        exists k :: 0 <= k < |bindings| && bindings[k] == id && Matches(id, lib, methodName) &&
          forall j :: 0 <= j < k ==> !Matches(bindings[j], lib, methodName)
    {
      var i := 0;
      while i < |bindings|
        invariant 0 <= i <= |bindings|
        invariant forall j :: 0 <= j < i ==> !Matches(bindings[j], lib, methodName)
      {
        if bindings[i].lib == lib && bindings[i].methodName == methodName {
          return bindings[i];
        }
        i := i + 1;
      }
      return null;
    }

    /**
     * nt_shimmy_unbind, as intended (see the findings): removes the binding
     * whose id is `id`, keeping the others in order; an unknown id changes
     * nothing.  The ghost result `k` names the removed position.
     */
    method Unbind(id: Binding?) returns (ghost k: nat)
      requires Valid()
      modifies this
      ensures Valid()
      ensures !old(Bound(id)) ==> bindings == old(bindings)
      ensures old(Bound(id)) ==> k < |old(bindings)| && old(bindings)[k] == id && bindings == RemoveAt(old(bindings), k)
      ensures !Bound(id)
    {
      var i := 0;
      while i < |bindings| && bindings[i] != id
        invariant 0 <= i <= |bindings|
        invariant forall j :: 0 <= j < i ==> bindings[j] != id
      {
        i := i + 1;
      }
      k := i;
      if i < |bindings| {
        bindings := RemoveAt(bindings, i);
      }
    }

    /** nt_shimmy_get_reg: the registry head, NULL when empty. */
    method GetReg() returns (head: Binding?)
      ensures bindings == [] ==> head == null
      ensures bindings != [] ==> head == bindings[0]
    {
      head := if bindings == [] then null else bindings[0];
    }
  }

  /**
   * shimmy/tests/test-shimmy.c: bind ("test", "test") into an empty
   * registry, unbind it, and both get_shim and find come back empty.
   */
  method BindUnbindScenario(handler: ShimMethod) returns (id: Binding, b: Binding?, found: Binding?)
    requires handler != Null
    ensures b == null && found == null
  {
    var reg := new Registry();
    id := reg.Bind("test", "test", handler);
    ghost var k := reg.Unbind(id);
    b := reg.GetShim(id);
    found := reg.Find("test", "test");
  }

  /** With the intended bind, the older of two bindings stays reachable. */
  method BindTwiceScenario(reg: Registry, h1: ShimMethod, h2: ShimMethod) returns (a: Binding, b: Binding, found: Binding?)
    requires reg.Valid() && reg.bindings == [] && h1 != Null && h2 != Null
    modifies reg
    ensures found == a
  {
    a := reg.Bind("libA", "open", h1);
    b := reg.Bind("libB", "close", h2);
    assert reg.bindings == [b, a];
    assert !Matches(reg.bindings[0], "libA", "open") && Matches(reg.bindings[1], "libA", "open");
    found := reg.Find("libA", "open");
  }

  /**
   * The link fields nt_shimmy_bind writes as written, with entries
   * numbered 1, 2, … in bind order and 0 for NULL.  The new entry's `prev`
   * is the old head, the old head's `prev` is the new entry, and `next` is
   * always NULL.
   */
  datatype Links = Links(head: nat, prev: map<nat, nat>, next: map<nat, nat>, count: nat)

  function BindAsWritten(l: Links): (r: Links)
    ensures r.head == l.count + 1 && r.count == l.count + 1
    ensures r.next == l.next[l.count + 1 := 0]
  {
    var e := l.count + 1;
    var prev := if l.head != 0 then l.prev[l.head := e] else l.prev;
    Links(e, prev[e := l.head], l.next[e := 0], e)
  }

  /** The links after `n` binds into an empty registry. */
  function BindsAsWritten(n: nat): (l: Links)
    ensures l.head == n && l.count == n
  {
    if n == 0 then Links(0, map[], map[], 0) else BindAsWritten(BindsAsWritten(n - 1))
  }

  /** The entries get_shim and find visit: from `e` on, following `next`, for at most `fuel` steps. */
  function Walk(l: Links, e: nat, fuel: nat): (r: seq<nat>)
    ensures |r| <= fuel
    ensures e == 0 ==> r == []
    ensures forall i :: 0 <= i < |r| ==> r[i] != 0 && r[i] in l.next
    ensures r != [] ==> r[0] == e
    decreases fuel
  {
    if e == 0 || fuel == 0 || e !in l.next then [] else [e] + Walk(l, l.next[e], fuel - 1)
  }

  /** As written, every entry's `next` is NULL and the head is the newest entry. */
  lemma {:induction false} BindsAsWrittenLinks(n: nat)
    ensures BindsAsWritten(n).head == n && BindsAsWritten(n).count == n
    ensures forall e :: e in BindsAsWritten(n).next ==> BindsAsWritten(n).next[e] == 0
    ensures n > 0 ==> n in BindsAsWritten(n).next
  {
    if n > 0 {
      BindsAsWrittenLinks(n - 1);
    }
  }

  /**
   * As written, after `n` binds the lookup walk sees only the newest
   * binding: every older binding is unreachable by get_shim and find.
   */
  lemma OnlyNewestReachableAsWritten(n: nat, fuel: nat)
    requires n > 0 && fuel > 0
    ensures Walk(BindsAsWritten(n), BindsAsWritten(n).head, fuel) == [n]
  {
    BindsAsWrittenLinks(n);
    var l := BindsAsWritten(n);
    assert l.next[n] == 0;
  }

  /**
   * What nt_shimmy_unbind does to the reachable bindings as written: when
   * the binding is the head it sets the registry to NULL, dropping every
   * other binding with it.
   */
  function UnbindAsWritten(visible: seq<nat>, id: nat): (r: seq<nat>)
    ensures id !in visible ==> r == visible
    ensures |visible| > 0 && visible[0] == id ==> r == []
    ensures id in visible && visible[0] != id ==> r == RemoveAt(visible, IndexOf(visible, id))
  {
    var k := IndexOf(visible, id);
    if k == |visible| then visible else if k == 0 then [] else RemoveAt(visible, k)
  }
}
