/**
 * The doubly linked value list (elemental/src/list.c).  A list is reached
 * through any of its nodes; every operation takes one node and walks its
 * `prev` or `next` links.  The ghost sequence `ns` passed alongside a node
 * names the whole chain the node belongs to, head first, and `k` is the
 * node's position in it.
 */
module Lists {
  import opened Wrappers
  import opened Values
  import Argument

  /** NtList: one node of a list. */
  class ListNode {
    var prev: ListNode?
    var next: ListNode?
    var value: Value

    /** A node on its own, holding `value`. */
    constructor (value: Value)
      ensures this.prev == null && this.next == null && this.value == value
    {
      this.prev := null;
      this.next := null;
      this.value := value;
    }
  }

  /**
   * `ns` is a well-linked list, head first: distinct nodes, the head has
   * no predecessor, the tail no successor, and neighbours point at each
   * other both ways.
   */
  ghost predicate Chain(ns: seq<ListNode>)
    reads ns
  {
    && (forall i, j :: 0 <= i < j < |ns| ==> ns[i] != ns[j])
    && (|ns| > 0 ==> ns[0].prev == null && ns[|ns| - 1].next == null)
    && (forall i :: 0 <= i < |ns| - 1 ==> ns[i].next == ns[i + 1] && ns[i + 1].prev == ns[i])
  }

  /** `self` is NULL, or it is node `k` of the chain `ns`. */
  ghost predicate At(self: ListNode?, ns: seq<ListNode>, k: nat)
    reads ns
  {
    self == null || (Chain(ns) && k < |ns| && ns[k] == self)
  }

  /** The argument names nt_list_construct reads. */
  const PrevKey: CString := "NtList::prev"
  const NextKey: CString := "NtList::next"
  const ValueKey: CString := "NtList::value"

  /** The links and value a constructed node starts with; links are addresses, 0 is NULL. */
  datatype Fields = Fields(prev: Addr, next: Addr, value: Value)

  /**
   * The argument reading of nt_list_construct as intended: the `prev` and
   * `next` instance arguments (NULL when absent) and the `value` argument
   * (a NULL pointer when absent).  A `prev` or `next` argument that is not
   * an instance is a fatal assertion.  The link writes that follow are
   * ConstructNode.
   */
  function Construct(arguments: Argument.Arguments): (r: Fields)
    requires Argument.WellFormed(arguments)
    requires Argument.Get(arguments, PrevKey, Instance(Null)).Instance?
    requires Argument.Get(arguments, NextKey, Instance(Null)).Instance?
    ensures r.prev == Argument.Get(arguments, PrevKey, Instance(Null)).instance
    ensures r.next == Argument.Get(arguments, NextKey, Instance(Null)).instance
    ensures r.value == Argument.Get(arguments, ValueKey, Pointer(Null))
    ensures arguments.None? ==> r == Fields(Null, Null, Pointer(Null))
  {
    Fields(
      Argument.Get(arguments, PrevKey, Instance(Null)).instance,
      Argument.Get(arguments, NextKey, Instance(Null)).instance,
      Argument.Get(arguments, ValueKey, Pointer(Null)))
  }

  /** The argument list nt_list_alloc builds: only the value. */
  function AllocArguments(v: Value): (args: Argument.Arguments)
    ensures Argument.WellFormed(args)
  {
    var a := [Argument.Arg(Some(ValueKey), v), Argument.Arg(None, Pointer(Null))];
    assert a[1].name.None?;
    Some(a)
  }

  /** Constructing from alloc's arguments gives an unlinked node holding exactly `v`. */
  lemma AllocArgumentsRead(v: Value)
    ensures Argument.Get(AllocArguments(v), PrevKey, Instance(Null)) == Instance(Null)
    ensures Argument.Get(AllocArguments(v), NextKey, Instance(Null)) == Instance(Null)
    ensures Construct(AllocArguments(v)) == Fields(Null, Null, v)
  {
    var a := AllocArguments(v).value;
    Argument.NoMatchGivesDefault(a, PrevKey, Instance(Null));
    Argument.NoMatchGivesDefault(a, NextKey, Instance(Null));
    Argument.FirstMatchWins(a, 0, ValueKey, Pointer(Null));
  }

  /**
   * The writes nt_list_construct makes once its arguments are read, with
   * the `prev` and `next` instances resolved to nodes (a node argument is
   * an NtList, which is what the NT_IS_LIST assertions check): the new
   * node points at its neighbours and each non-NULL neighbour points back
   * at it.  Nothing else changes.
   */
  method ConstructNode(prev: ListNode?, next: ListNode?, v: Value) returns (n: ListNode)
    modifies prev, next
    ensures fresh(n) && n.value == v && n.prev == prev && n.next == next
    ensures prev != null ==> prev.next == n
    ensures next != null ==> next.prev == n
    ensures prev != null && prev != next ==> prev.prev == old(prev.prev)
    ensures next != null && next != prev ==> next.next == old(next.next)
    ensures prev != null ==> prev.value == old(prev.value)
    ensures next != null ==> next.value == old(next.value)
  {
    n := new ListNode(v);
    if prev != null {
      n.prev := prev;
      prev.next := n;
    }
    if next != null {
      n.next := next;
      next.prev := n;
    }
  }

  /**
   * Constructing a node with `prev` a node of a chain and `next` its
   * successor (NULL at the tail) splices the new node into the chain right
   * after `prev`.
   */
  method ConstructAfter(prev: ListNode, next: ListNode?, ghost ns: seq<ListNode>, ghost i: nat, v: Value)
      returns (n: ListNode, ghost r: seq<ListNode>)
    requires Chain(ns) && i < |ns| && ns[i] == prev
    requires next == if i + 1 < |ns| then ns[i + 1] else null
    modifies prev, next
    ensures fresh(n) && n.value == v
    ensures r == ns[..i + 1] + [n] + ns[i + 1..]
    ensures Chain(r)
    ensures forall j :: 0 <= j < |ns| ==> ns[j].value == old(ns[j].value)
  {
    n := ConstructNode(prev, next, v);
    r := ns[..i + 1] + [n] + ns[i + 1..];
    assert forall j :: 0 <= j <= i ==> r[j] == ns[j];
    assert r[i + 1] == n;
    assert forall j :: i + 2 <= j < |r| ==> r[j] == ns[j - 1];
    assert forall j :: 0 <= j < |ns| && j != i && j != i + 1 ==> ns[j].prev == old(ns[j].prev) && ns[j].next == old(ns[j].next);
  }

  /** nt_list_alloc: a new node, unlinked, holding `v` unchanged. */
  method Alloc(v: Value) returns (n: ListNode)
    ensures fresh(n)
    ensures n.prev == null && n.next == null && n.value == v
  {
    AllocArgumentsRead(v);
    var fields := Construct(AllocArguments(v));
    n := ConstructNode(null, null, fields.value);
  }

  /** nt_list_get_head: NULL for NULL, otherwise follows `prev` links to the node with no predecessor. */
  method GetHead(self: ListNode?, ghost ns: seq<ListNode>, ghost k: nat) returns (h: ListNode?)
    requires At(self, ns, k)
    ensures self == null ==> h == null
    ensures self != null ==> h == ns[0] && h.prev == null
  {
    if self == null {
      return null;
    }
    var cur: ListNode := self;
    ghost var i := k;
    while cur.prev != null
      invariant 0 <= i < |ns|
      invariant cur == ns[i]
      invariant i > 0 ==> cur.prev == ns[i - 1]
      decreases i
    {
      assert i > 0;
      cur := cur.prev;
      i := i - 1;
    }
    h := cur;
  }

  /** nt_list_get_tail: NULL for NULL, otherwise follows `next` links to the node with no successor. */
  method GetTail(self: ListNode?, ghost ns: seq<ListNode>, ghost k: nat) returns (t: ListNode?)
    requires At(self, ns, k)
    ensures self == null ==> t == null
    ensures self != null ==> t == ns[|ns| - 1] && t.next == null
  {
    if self == null {
      return null;
    }
    t := self;
    ghost var i := k;
    while t.next != null
      invariant 0 <= i < |ns|
      invariant t == ns[i]
      invariant i < |ns| - 1 ==> t.next == ns[i + 1]
      decreases |ns| - i
    {
      assert i < |ns| - 1;
      t := t.next;
      i := i + 1;
    }
  }

  /**
   * nt_list_length: 0 for NULL, otherwise `self` and every node after it;
   * nodes before `self` are not counted.
   */
  method Length(self: ListNode?, ghost ns: seq<ListNode>, ghost k: nat) returns (n: nat)
    requires At(self, ns, k)
    ensures self == null ==> n == 0
    ensures self != null ==> n == |ns| - k
  {
    if self == null {
      return 0;
    }
    n := 1;
    var cur := self;
    ghost var i := k;
    while cur.next != null
      invariant 0 <= i < |ns|
      invariant cur == ns[i]
      invariant i < |ns| - 1 ==> cur.next == ns[i + 1]
      invariant n == i - k + 1
      decreases |ns| - i
    {
      assert i < |ns| - 1;
      n := n + 1;
      cur := cur.next;
      i := i + 1;
    }
  }

  /**
   * nt_list_prepend: a new node holding `v` becomes the head; its `next`
   * is the old head, whose `prev` is now the new node.  Returns the new head.
   */
  method Prepend(self: ListNode?, ghost ns: seq<ListNode>, ghost k: nat, v: Value) returns (item: ListNode)
    requires At(self, ns, k)
    modifies if self == null then {} else {ns[0]}
    ensures fresh(item) && item.value == v && item.prev == null
    ensures Chain([item] + (if self == null then [] else ns))
    ensures self != null ==> item.next == ns[0] && ns[0].prev == item
    ensures self != null ==> ns[0].value == old(ns[0].value)
  {
    var head := GetHead(self, ns, k);
    item := Alloc(v);
    item.next := head;
    if head != null {
      head.prev := item;
    }
    ghost var r := [item] + (if self == null then [] else ns);
    assert forall i :: 1 <= i < |r| ==> r[i] == ns[i - 1];
  }

  /**
   * nt_list_append as written: a new node holding `v` is linked after the
   * tail.  On an empty list the new node is returned, otherwise the OLD
   * TAIL is returned (see the findings).  The ghost result `item` is the
   * new node.
   */
  method Append(self: ListNode?, ghost ns: seq<ListNode>, ghost k: nat, v: Value) returns (r: ListNode, ghost item: ListNode)
    requires At(self, ns, k)
    modifies if self == null then {} else {ns[|ns| - 1]}
    ensures fresh(item) && item.value == v && item.next == null
    ensures Chain((if self == null then [] else ns) + [item])
    ensures self == null ==> r == item
    ensures self != null ==> r == ns[|ns| - 1]
    ensures self != null ==> ns[|ns| - 1].value == old(ns[|ns| - 1].value)
  {
    var tail := GetTail(self, ns, k);
    var n := Alloc(v);
    item := n;
    n.prev := tail;
    if tail != null {
      tail.next := n;
      ghost var c := ns + [n];
      assert forall i :: 0 <= i < |ns| ==> c[i] == ns[i];
      return tail, n;
    }
    return n, n;
  }

  /**
   * nt_list_append as its documentation promises: the value goes to the
   * end and the head of the list comes back.
   */
  method AppendReturningHead(self: ListNode?, ghost ns: seq<ListNode>, ghost k: nat, v: Value)
      returns (head: ListNode, ghost item: ListNode)
    requires At(self, ns, k)
    modifies if self == null then {} else {ns[|ns| - 1]}
    ensures fresh(item) && item.value == v && item.next == null
    ensures Chain((if self == null then [] else ns) + [item])
    ensures head == ((if self == null then [] else ns) + [item])[0]
    ensures head.prev == null
    ensures self != null ==> ns[|ns| - 1].value == old(ns[|ns| - 1].value)
  {
    var r;
    r, item := Append(self, ns, k, v);
    ghost var c := (if self == null then [] else ns) + [item];
    ghost var j := if self == null then 0 else |ns| - 1;
    assert c[j] == r;
    var h := GetHead(r, c, j);
    head := h;
  }

  /** The chain with node `k` removed. */
  ghost function Without(ns: seq<ListNode>, k: nat): (r: seq<ListNode>)
    requires k < |ns|
    ensures |r| == |ns| - 1
  {
    ns[..k] + ns[k + 1..]
  }

  /**
   * nt_list_destroy: splices the node out of its chain, so its neighbours
   * now point at each other; the node's own links are left as they were.
   */
  method Unlink(self: ListNode, ghost ns: seq<ListNode>, ghost k: nat)
    requires Chain(ns) && k < |ns| && ns[k] == self
    modifies self.prev, self.next
    ensures self.prev == old(self.prev) && self.next == old(self.next)
    ensures Chain(Without(ns, k))
    ensures k > 0 ==> ns[k - 1].next == old(self.next)
    ensures k < |ns| - 1 ==> ns[k + 1].prev == old(self.prev)
    ensures forall i :: 0 <= i < |ns| ==> ns[i].value == old(ns[i].value)
  {
    ghost var r := Without(ns, k);
    assert forall i :: 0 <= i < k ==> r[i] == ns[i];
    assert forall i :: k <= i < |r| ==> r[i] == ns[i + 1];
    if k > 0 {
      assert self.prev == ns[k - 1];
    }
    if k < |ns| - 1 {
      assert self.next == ns[k + 1];
    }
    if self.prev != null {
      self.prev.next := self.next;
    }
    if self.next != null {
      self.next.prev := self.prev;
    }
  }

  /**
   * platform/targets/linux/src/systemd/device-enum.c keeps `list =
   * nt_list_append(list, ...)`: from the second append on, the variable
   * no longer holds the head.  Three appends onto an empty list: the last
   * call hands back the middle node.
   */
  method AppendThreeTimes(a: Value, b: Value, c: Value) returns (list: ListNode, ghost ns: seq<ListNode>)
    ensures Chain(ns) && |ns| == 3
    ensures ns[0].value == a && ns[1].value == b && ns[2].value == c
    ensures list == ns[1] && list.prev != null
  {
    ghost var n0, n1, n2;
    list, n0 := Append(null, [], 0, a);
    list, n1 := Append(list, [n0], 0, b);
    assert list == n0;
    assert [n0] + [n1] == [n0, n1];
    list, n2 := Append(list, [n0, n1], 0, c);
    ns := [n0, n1, n2];
    assert [n0, n1] + [n2] == ns;
  }

  /**
   * What nt_list_construct does as written, with assertions enabled: it
   * applies NT_IS_LIST to the `next` argument before testing it for NULL,
   * and NT_IS_LIST reads the instance's type through the pointer, so a
   * NULL `next` (the default, and what nt_list_alloc always passes) is
   * dereferenced.  Built with NDEBUG the assertion is not evaluated.
   */
  datatype ConstructOutcome = NullDereference | Constructed(fields: Fields)

  function ConstructAsWritten(arguments: Argument.Arguments): (r: ConstructOutcome)
    requires Argument.WellFormed(arguments)
    requires Argument.Get(arguments, PrevKey, Instance(Null)).Instance?
    requires Argument.Get(arguments, NextKey, Instance(Null)).Instance?
    ensures r.NullDereference? <==> Argument.Get(arguments, NextKey, Instance(Null)).instance == Null
    ensures r.Constructed? ==> r.fields == Construct(arguments)
  {
    var next := Argument.Get(arguments, NextKey, Instance(Null));
    if next.instance == Null then NullDereference else Constructed(Construct(arguments))
  }

  /** As written, every nt_list_alloc faults; the intended construction gives an unlinked node. */
  lemma AllocAsWrittenDereferencesNull(v: Value)
    ensures ConstructAsWritten(AllocArguments(v)) == NullDereference
    ensures Construct(AllocArguments(v)) == Fields(Null, Null, v)
  {
    AllocArgumentsRead(v);
  }
}
