/**
 * Synchronous event dispatch (elemental/src/signal.c): a signal holds an
 * ordered list of (handler, user data) entries, most recently attached
 * first, and emitting it calls every entry in that order.
 */
module Signals {
  import opened Wrappers
  import opened Values
  import opened Seqs
  import Argument

  /** A handler function pointer; 0 is NULL. */
  type Handler = Addr

  /** NtSignalEntry without its links: the handler and the data passed to it. */
  datatype Entry = Entry(handler: Handler, userData: Addr)

  /** One handler invocation made by emit: `handler(self, arguments, userData)`. */
  datatype Call = Call(handler: Handler, arguments: Argument.Arguments, userData: Addr)

  /** The argument name the constructor reads the locking flag from. */
  const LockingKey: CString := "NtSignal::locking"

  /** The argument list nt_signal_new and nt_signal_new_locking pass to the constructor. */
  function LockingArguments(locking: bool): (args: Argument.Arguments)
    ensures Argument.WellFormed(args)
  {
    var a := [Argument.Arg(Some(LockingKey), Boolean(locking)), Argument.Arg(None, Pointer(Null))];
    assert a[1].name.None?;
    Some(a)
  }

  /** The handler list after detaching `h` from `entries`: its first match is gone. */
  function Detached(entries: seq<Entry>, h: Handler): (r: seq<Entry>)
    ensures (forall i :: 0 <= i < |entries| ==> entries[i].handler != h) ==> r == entries
    ensures (exists i :: 0 <= i < |entries| && entries[i].handler == h) ==>
      exists k :: 0 <= k < |entries| && entries[k].handler == h &&
        (forall j :: 0 <= j < k ==> entries[j].handler != h) &&
        r == RemoveAt(entries, k)
  {
    var k := IndexOf(Handlers(entries), h);
    if k == |entries| then entries else RemoveAt(entries, k)
  }

  /** The handlers of the entries, in list order. */
  function Handlers(entries: seq<Entry>): (hs: seq<Handler>)
    ensures |hs| == |entries|
    ensures forall i :: 0 <= i < |entries| ==> hs[i] == entries[i].handler
  {
    if entries == [] then [] else [entries[0].handler] + Handlers(entries[1..])
  }

  class Signal {
    /** priv->is_locking: fixed when the signal is constructed. */
    const isLocking: bool
    /** priv->entries, head first. */
    var entries: seq<Entry>

    /** Every attached entry has a handler: attach refuses NULL. */
    ghost predicate Valid()
      reads this
    {
      forall i :: 0 <= i < |entries| ==> entries[i].handler != Null
    }

    /**
     * nt_signal_construct: an empty entry list; the locking flag is the
     * boolean argument `NtSignal::locking`, false when it is absent.  A
     * non-boolean value for it is a fatal assertion.
     */
    constructor (arguments: Argument.Arguments)
      requires Argument.WellFormed(arguments)
      requires Argument.Get(arguments, LockingKey, Boolean(false)).Boolean?
      ensures Valid() && entries == []
      ensures isLocking == Argument.Get(arguments, LockingKey, Boolean(false)).boolean
    {
      var locking := Argument.Get(arguments, LockingKey, Boolean(false));
      isLocking := locking.boolean;
      entries := [];
    }

    /** nt_signal_attach: a new (handler, data) entry at the front; duplicates are kept. */
    method Attach(handler: Handler, data: Addr)
      requires Valid() && handler != Null
      modifies this
      ensures Valid()
      ensures entries == [Entry(handler, data)] + old(entries)
    {
      entries := [Entry(handler, data)] + entries;
    }

    /**
     * nt_signal_detach, as intended (see the findings): removes the first
     * entry whose handler is `handler`; the others keep their order.
     */
    method Detach(handler: Handler)
      requires Valid() && handler != Null
      modifies this
      ensures Valid()
      ensures entries == Detached(old(entries), handler)
    {
      var i := 0;
      while i < |entries| && entries[i].handler != handler
        invariant 0 <= i <= |entries|
        invariant forall j :: 0 <= j < i ==> entries[j].handler != handler
      {
        i := i + 1;
      }
      assert i == IndexOf(Handlers(entries), handler) by {
        IndexOfIsFirst(Handlers(entries), handler, i);
      }
      if i < |entries| {
        entries := RemoveAt(entries, i);
      }
    }

    /**
     * nt_signal_emit: calls every entry once, in list order (most recently
     * attached first), each with the same arguments and its own data.
     */
    method Emit(arguments: Argument.Arguments) returns (calls: seq<Call>)
      requires Valid()
      ensures |calls| == |entries|
      ensures forall i :: 0 <= i < |entries| ==>
        calls[i] == Call(entries[i].handler, arguments, entries[i].userData)
    {
      calls := [];
      var i := 0;
      while i < |entries|
        invariant 0 <= i <= |entries|
        invariant |calls| == i
        invariant forall j :: 0 <= j < i ==> calls[j] == Call(entries[j].handler, arguments, entries[j].userData)
      {
        calls := calls + [Call(entries[i].handler, arguments, entries[i].userData)];
        i := i + 1;
      }
    }

    /** nt_signal_destroy: frees every entry, calling none of them; returns the freed entries. */
    method Destroy() returns (freed: seq<Entry>)
      modifies this
      ensures freed == old(entries) && entries == []
    {
      freed := [];
      while entries != []
        invariant freed + entries == old(entries)
      {
        freed := freed + [entries[0]];
        entries := entries[1..];
      }
    }
  }

  /** nt_signal_new: a signal built from `NtSignal::locking = false`. */
  method New() returns (s: Signal)
    ensures fresh(s) && s.Valid() && s.entries == [] && !s.isLocking
  {
    LockingArgumentRead(false);
    s := new Signal(LockingArguments(false));
  }

  /** nt_signal_new_locking: a signal built from `NtSignal::locking = true`. */
  method NewLocking() returns (s: Signal)
    ensures fresh(s) && s.Valid() && s.entries == [] && s.isLocking
  {
    LockingArgumentRead(true);
    s := new Signal(LockingArguments(true));
  }

  /** The constructor reads back exactly the flag the two factories pass. */
  lemma LockingArgumentRead(locking: bool)
    ensures Argument.Get(LockingArguments(locking), LockingKey, Boolean(false)) == Boolean(locking)
  {
    var a := LockingArguments(locking).value;
    Argument.FirstMatchWins(a, 0, LockingKey, Boolean(false));
  }

  /** Without the locking argument a signal does not lock. */
  lemma LockingDefaultsToFalse(arguments: Argument.Arguments)
    requires Argument.WellFormed(arguments)
    requires arguments.Some? ==>
      forall j :: 0 <= j < Argument.Terminator(arguments.value) ==> arguments.value[j].name != Some(LockingKey)
    ensures Argument.Get(arguments, LockingKey, Boolean(false)) == Boolean(false)
  {
    if arguments.Some? {
      Argument.NoMatchGivesDefault(arguments.value, LockingKey, Boolean(false));
    }
  }

  /** The index the detach loop stops at is the first occurrence. */
  lemma IndexOfIsFirst(hs: seq<Handler>, h: Handler, i: nat)
    requires i <= |hs| && (forall j :: 0 <= j < i ==> hs[j] != h) && (i < |hs| ==> hs[i] == h)
    ensures IndexOf(hs, h) == i
  {
  }

  /** Detaching a handler that was just attached restores the previous list. */
  lemma {:induction false} DetachUndoesAttach(entries: seq<Entry>, h: Handler, data: Addr)
    ensures Detached([Entry(h, data)] + entries, h) == entries
  {
    var l := [Entry(h, data)] + entries;
    assert Handlers(l)[0] == h;
    assert IndexOf(Handlers(l), h) == 0;
    assert RemoveAt(l, 0) == entries;
  }

  /**
   * elemental/tests/test-signal.c "multiple": the same handler attached
   * twice with two data pointers runs twice on emit, newest first; one
   * detach then leaves exactly the older attachment.
   */
  method MultipleScenario(h: Handler, d1: Addr, d2: Addr) returns (calls: seq<Call>, s: Signal)
    requires h != Null
    ensures calls == [Call(h, None, d2), Call(h, None, d1)]
    ensures s.entries == [Entry(h, d1)]
  {
    s := New();
    s.Attach(h, d1);
    s.Attach(h, d2);
    assert s.entries == [Entry(h, d2), Entry(h, d1)];
    calls := s.Emit(None);
    assert calls[0] == Call(h, None, d2) && calls[1] == Call(h, None, d1);
    DetachUndoesAttach([Entry(h, d1)], h, d2);
    s.Detach(h);
  }

  /**
   * What nt_signal_detach does as written.  Attach never sets the new
   * entry's `prev`, so the head entry's `prev` is uninitialised; and detach
   * never moves `priv->entries` off an entry it frees.  Detaching the
   * head therefore writes through an uninitialised pointer and leaves the
   * list head dangling.
   */
  datatype DetachOutcome = Unchanged | Fault | Removed(remaining: seq<Entry>)

  function DetachAsWritten(entries: seq<Entry>, h: Handler): (r: DetachOutcome)
    ensures r.Unchanged? <==> h !in Handlers(entries)
    ensures r.Fault? <==> |entries| > 0 && entries[0].handler == h
    ensures r.Removed? ==> r.remaining == Detached(entries, h)
  {
    var k := IndexOf(Handlers(entries), h);
    if k == |entries| then Unchanged
    else if k == 0 then Fault
    else Removed(RemoveAt(entries, k))
  }

  /** test-signal.c's "multiple" test ends by detaching its head entry: as written that faults. */
  lemma DetachAsWrittenFaultsAfterAttach(entries: seq<Entry>, h: Handler, data: Addr)
    ensures DetachAsWritten([Entry(h, data)] + entries, h) == Fault
    ensures Detached([Entry(h, data)] + entries, h) == entries
  {
    DetachUndoesAttach(entries, h, data);
  }
}
