/**
 * Named-argument lookup (elemental/src/argument.c).
 *
 * An argument list is a C array of (name, value) pairs whose end is marked
 * by an entry with a NULL name; the array pointer itself may be NULL.
 */
module Argument {
  import opened Wrappers
  import opened Values

  /** NtTypeArgument: a NULL name marks the end of the array. */
  datatype Arg = Arg(name: Option<CString>, value: Value)

  /** The array passed to constructors and signal handlers; None is NULL. */
  type Arguments = Option<seq<Arg>>

  /** The array holds its NULL-name terminator. */
  predicate Terminated(a: seq<Arg>) {
    exists i :: 0 <= i < |a| && a[i].name.None?
  }

  /** The caller's side of the convention: NULL, or a terminated array. */
  predicate WellFormed(arguments: Arguments) {
    arguments.Some? ==> Terminated(arguments.value)
  }

  /** Index of the first NULL-name entry at or after `i`. */
  function TerminatorFrom(a: seq<Arg>, i: nat): (t: nat)
    requires i <= |a|
    requires exists j :: i <= j < |a| && a[j].name.None?
    ensures i <= t < |a| && a[t].name.None?
    ensures forall j :: i <= j < t ==> a[j].name.Some?
    decreases |a| - i
  {
    if a[i].name.None? then i else TerminatorFrom(a, i + 1)
  }

  /** Index of the terminator: the entries that are ever consulted lie before it. */
  function Terminator(a: seq<Arg>): (t: nat)
    requires Terminated(a)
    ensures t < |a| && a[t].name.None?
    ensures forall j :: 0 <= j < t ==> a[j].name.Some?
  {
    TerminatorFrom(a, 0)
  }

  /**
   * The loop of nt_type_argument_get from index `i` on: stop at the first
   * NULL name, return the value of the first entry whose name equals `name`.
   */
  function Scan(a: seq<Arg>, i: nat, name: CString, default: Value): (r: Value)
    requires i <= |a|
    ensures r == default || exists j :: i <= j < |a| && a[j].name == Some(name) && r == a[j].value
    decreases |a| - i
  {
    if i == |a| || a[i].name.None? then default
    else if a[i].name.value == name then a[i].value
    else Scan(a, i + 1, name, default)
  }

  /**
   * nt_type_argument_get: the value of the first entry named `name` before
   * the terminator, or `default` when the array is NULL or has no such entry.
   */
  function Get(arguments: Arguments, name: CString, default: Value): (r: Value)
    requires WellFormed(arguments)
    ensures arguments.None? ==> r == default
    ensures arguments.Some? ==>
      r == default ||
      exists j :: 0 <= j < Terminator(arguments.value) &&
        arguments.value[j].name == Some(name) && r == arguments.value[j].value
  {
    if arguments.None? then default
    else
      var a := arguments.value;
      ScanStopsAtTerminator(a, 0, name, default);
      Scan(a, 0, name, default)
  }

  /** From `i` on, the scan only ever returns an entry that lies before the terminator. */
  lemma {:induction false} ScanStopsAtTerminator(a: seq<Arg>, i: nat, name: CString, default: Value)
    requires Terminated(a) && i <= Terminator(a)
    ensures var r := Scan(a, i, name, default);
      r == default || exists j :: i <= j < Terminator(a) && a[j].name == Some(name) && r == a[j].value
    decreases |a| - i
  {
    var t := Terminator(a);
    if i < t && a[i].name.value != name {
      ScanStopsAtTerminator(a, i + 1, name, default);
    }
  }

  /** Scanning from `i` finds the first entry at or after `i` that carries `name`. */
  lemma {:induction false} ScanFindsFirst(a: seq<Arg>, i: nat, k: nat, name: CString, default: Value)
    requires i <= k < |a| && a[k].name == Some(name)
    requires forall j :: i <= j < k ==> a[j].name.Some? && a[j].name != Some(name)
    ensures Scan(a, i, name, default) == a[k].value
    decreases k - i
  {
    if i < k {
      ScanFindsFirst(a, i + 1, k, name, default);
    }
  }

  /** Scanning from `i` with no matching name before index `t`, a terminator, gives the default. */
  lemma {:induction false} ScanMissesAll(a: seq<Arg>, i: nat, t: nat, name: CString, default: Value)
    requires i <= t < |a| && a[t].name.None?
    requires forall j :: i <= j < t ==> a[j].name != Some(name)
    ensures Scan(a, i, name, default) == default
    decreases t - i
  {
    if i < t && a[i].name.Some? {
      ScanMissesAll(a, i + 1, t, name, default);
    }
  }

  /** The scan depends only on the entries up to and including the terminator. */
  lemma {:induction false} ScanIgnoresTail(a: seq<Arg>, b: seq<Arg>, i: nat, t: nat, name: CString, default: Value)
    requires i <= t < |a| && t < |b| && a[t].name.None?
    requires a[..t + 1] == b[..t + 1]
    ensures Scan(a, i, name, default) == Scan(b, i, name, default)
    decreases t - i
  {
    assert a[i] == a[..t + 1][i] == b[..t + 1][i] == b[i];
    if i < t && a[i].name.Some? && a[i].name.value != name {
      ScanIgnoresTail(a, b, i + 1, t, name, default);
    }
  }

  /** If entry `k` is the first one named `name`, its value is returned unchanged, tag included. */
  lemma FirstMatchWins(a: seq<Arg>, k: nat, name: CString, default: Value)
    requires Terminated(a) && k < Terminator(a) && a[k].name == Some(name)
    requires forall j :: 0 <= j < k ==> a[j].name != Some(name)
    ensures Get(Some(a), name, default) == a[k].value
  {
    ScanFindsFirst(a, 0, k, name, default);
  }

  /** If no entry before the terminator is named `name`, the default comes back. */
  lemma NoMatchGivesDefault(a: seq<Arg>, name: CString, default: Value)
    requires Terminated(a)
    requires forall j :: 0 <= j < Terminator(a) ==> a[j].name != Some(name)
    ensures Get(Some(a), name, default) == default
  {
    ScanMissesAll(a, 0, Terminator(a), name, default);
  }

  /** Entries after the terminator are never consulted: replacing them changes nothing. */
  lemma TailAfterTerminatorIgnored(a: seq<Arg>, rest: seq<Arg>, name: CString, default: Value)
    requires Terminated(a)
    ensures Terminated(a[..Terminator(a) + 1] + rest)
    ensures Get(Some(a), name, default) == Get(Some(a[..Terminator(a) + 1] + rest), name, default)
  {
    var t := Terminator(a);
    var b := a[..t + 1] + rest;
    assert b[t] == a[t];
    assert b[..t + 1] == a[..t + 1];
    ScanIgnoresTail(a, b, 0, t, name, default);
  }
}
