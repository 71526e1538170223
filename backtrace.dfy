/**
 * Call-site tracing (elemental/src/backtrace.c): a stack of entries whose
 * top is the most recently pushed one; each entry links to the entry
 * below it through `prev`.
 */
module Backtraces {
  import opened Wrappers
  import opened Values

  /** NtBacktraceEntry without its link; file and method are owned copies. */
  datatype Entry = Entry(file: Option<CString>, methodName: Option<CString>, line: int, address: Addr)

  /** `s` in the opposite order: the last entry first. */
  function Reverse<T>(s: seq<T>): (r: seq<T>)
    ensures |r| == |s|
    ensures s != [] ==> r[0] == s[|s| - 1] && r[|r| - 1] == s[0]
  {
    if s == [] then [] else [s[|s| - 1]] + Reverse(s[..|s| - 1])
  }

  /** Reversal keeps every entry, mirrored. */
  lemma {:induction false} ReverseAt<T>(s: seq<T>)
    ensures |Reverse(s)| == |s|
    ensures forall i :: 0 <= i < |s| ==> Reverse(s)[i] == s[|s| - 1 - i]
    decreases |s|
  {
    if s != [] {
      ReverseAt(s[..|s| - 1]);
    }
  }

  /** Reversing twice restores the original order: copying a copy gives back the original stack. */
  lemma ReverseReverse<T>(s: seq<T>)
    ensures Reverse(Reverse(s)) == s
  {
    ReverseAt(s);
    ReverseAt(Reverse(s));
  }

  class Backtrace {
    /** self->entries: the top of the stack comes first. */
    var entries: seq<Entry>

    /** nt_backtrace_new / nt_backtrace_construct: no entries. */
    constructor ()
      ensures entries == []
    {
      entries := [];
    }

    /**
     * nt_backtrace_push_full: a new top entry holding copies of `file` and
     * `methodName` and the given line and address; the old top lies below it.
     */
    method PushFull(file: Option<CString>, methodName: Option<CString>, line: int, address: Addr)
      modifies this
      ensures entries == [Entry(file, methodName, line, address)] + old(entries)
    {
      entries := [Entry(file, methodName, line, address)] + entries;
    }

    /** nt_backtrace_sync_full: only the top entry's line changes. */
    method SyncFull(line: int)
      requires entries != []
      modifies this
      ensures |entries| == |old(entries)|
      ensures entries[0] == old(entries[0]).(line := line)
      ensures entries[1..] == old(entries[1..])
    {
      entries := [entries[0].(line := line)] + entries[1..];
    }

    /** nt_backtrace_pop: drops the top entry; on an empty backtrace nothing happens. */
    method Pop()
      modifies this
      ensures entries == if old(entries) == [] then [] else old(entries[1..])
    {
      if entries != [] {
        entries := entries[1..];
      }
    }

    /**
     * nt_backtrace_copy: walks this stack from the top down, pushing each
     * entry onto a new backtrace, so the copy holds the same entries in
     * reversed order; this backtrace is left untouched.
     */
    method Copy() returns (child: Backtrace)
      ensures fresh(child)
      ensures child.entries == Reverse(entries)
    {
      child := new Backtrace();
      var i := 0;
      while i < |entries|
        invariant 0 <= i <= |entries|
        invariant child.entries == Reverse(entries[..i])
      {
        var e := entries[i];
        child.PushFull(e.file, e.methodName, e.line, e.address);
        assert entries[..i + 1][..i] == entries[..i];
        i := i + 1;
      }
      assert entries[..i] == entries;
    }

    /** nt_backtrace_destroy: frees every entry, from the top down; returns the freed entries. */
    method Destroy() returns (freed: seq<Entry>)
      modifies this
      ensures freed == old(entries) && entries == []
    {
      freed := [];
      while entries != []
        invariant freed + entries == old(entries)
      {
        freed := freed + [entries[0]];
        entries := entries[1..];
      }
    }
  }

  /** A push followed by a pop restores the previous entries. */
  method PushThenPop(b: Backtrace, file: Option<CString>, methodName: Option<CString>, line: int, address: Addr)
    modifies b
    ensures b.entries == old(b.entries)
  {
    b.PushFull(file, methodName, line, address);
    b.Pop();
  }

  /** A copy has as many entries as the original, top and bottom swapped. */
  method CopyScenario(b: Backtrace) returns (c: Backtrace)
    requires b.entries != []
    ensures |c.entries| == |b.entries|
    ensures c.entries[0] == b.entries[|b.entries| - 1]
    ensures c.entries[|c.entries| - 1] == b.entries[0]
  {
    c := b.Copy();
    ReverseAt(b.entries);
  }
}
