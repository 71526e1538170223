/**
 * The string buffer (elemental/src/string.c).  An NtString holds a heap
 * buffer (or none) and a length; the model keeps the first `length`
 * characters of the buffer, which may contain NUL characters after a
 * fixed-size set.  C strings passed in are NUL-free sequences.
 */
module Strings {
  import opened Wrappers
  import opened Values
  import Argument

  /** The C string terminator. */
  const Nul: char := '\0'

  /** One more than the largest size_t on a 64-bit target. */
  const SizeModulus: nat := 0x1_0000_0000_0000_0000

  /** A C string: no character is the terminator. */
  predicate NoNul(s: seq<char>) {
    forall i :: 0 <= i < |s| ==> s[i] != Nul
  }

  /** What strlen and strdup see in a buffer: the characters before its first NUL. */
  function UpToNul(s: seq<char>): (r: seq<char>)
    ensures |r| <= |s| && r == s[..|r|]
    ensures NoNul(r)
    ensures |r| < |s| ==> s[|r|] == Nul
  {
    if s == [] || s[0] == Nul then [] else [s[0]] + UpToNul(s[1..])
  }

  /** Any NUL-free prefix ending at a NUL (or at the end) is the C string of the buffer. */
  lemma UpToNulUnique(s: seq<char>, t: seq<char>)
    requires |t| <= |s| && t == s[..|t|] && NoNul(t)
    requires |t| < |s| ==> s[|t|] == Nul
    ensures UpToNul(s) == t
  {
    var r := UpToNul(s);
    assert |r| == |t|;
  }

  /** The character strncmp and strncpy read at `i`: past the end lies the terminator. */
  function CharAt(s: seq<char>, i: nat): char {
    if i < |s| then s[i] else Nul
  }

  function Rest(s: seq<char>): seq<char> {
    if s == [] then [] else s[1..]
  }

  /**
   * `strncmp(a, b, n) == 0`: the first `n` characters agree, where the
   * comparison stops early at a terminator both strings share.
   */
  function StrNEqual(a: seq<char>, b: seq<char>, n: nat): (r: bool)
    ensures n <= |a| && n <= |b| && a[..n] == b[..n] ==> r
    decreases n
  {
    n == 0 ||
    (CharAt(a, 0) == CharAt(b, 0) && (CharAt(a, 0) == Nul || StrNEqual(Rest(a), Rest(b), n - 1)))
  }

  /** Against a C string of length `n`, strncmp over `n` characters is plain equality of the first `n`. */
  lemma {:induction false} StrNEqualIsSliceEquality(a: seq<char>, b: seq<char>, n: nat)
    requires NoNul(b) && |b| == n && n <= |a|
    ensures StrNEqual(a, b, n) <==> a[..n] == b
    decreases n
  {
    if n > 0 {
      assert b[0] != Nul;
      StrNEqualIsSliceEquality(a[1..], b[1..], n - 1);
      assert a[..n] == [a[0]] + a[1..][..n - 1];
      assert b == [b[0]] + b[1..];
      if a[..n] == b {
        assert a[0] == b[0];
      }
    }
  }

  /**
   * `strncpy(dst, src, n)` into a buffer: the first `n` characters become
   * `src`'s, padded with NULs past its end; the rest of the buffer is kept.
   */
  function StrNCpy(dst: seq<char>, src: seq<char>, n: nat): (r: seq<char>)
    requires n <= |dst|
    ensures |r| == |dst|
    ensures forall i :: 0 <= i < n ==> r[i] == CharAt(src, i)
    ensures forall i :: n <= i < |dst| ==> r[i] == dst[i]
  {
    seq(|dst|, i requires 0 <= i < |dst| => if i < n then CharAt(src, i) else dst[i])
  }

  /** `v` cut off at, or NUL-padded to, exactly `n` characters. */
  function Fit(v: seq<char>, n: nat): (r: seq<char>)
    ensures |r| == n
    ensures forall i :: 0 <= i < n ==> r[i] == CharAt(v, i)
  {
    seq(n, i requires 0 <= i < n => CharAt(v, i))
  }

  /** After a fixed-size set the C string is `v`, cut off at the old length. */
  lemma FitText(v: seq<char>, n: nat)
    requires NoNul(v)
    ensures UpToNul(Fit(v, n)) == if |v| <= n then v else v[..n]
  {
    var f := Fit(v, n);
    var t := if |v| <= n then v else v[..n];
    assert t == f[..|t|];
    UpToNulUnique(f, t);
  }

  /** nt_string_has_prefix over the buffer and length: strncmp on the first |p| characters. */
  function HasPrefixOf(buffer: seq<char>, length: nat, p: CString): (r: bool)
    requires |buffer| == length && NoNul(p)
    ensures r <==> |p| <= length && buffer[..|p|] == p
  {
    if |p| > length then false
    else
      StrNEqualIsSliceEquality(buffer, p, |p|);
      StrNEqual(buffer, p, |p|)
  }

  /** nt_string_has_suffix over the buffer and length: strncmp from `length - |x|` on. */
  function HasSuffixOf(buffer: seq<char>, length: nat, x: CString): (r: bool)
    requires length <= |buffer| && NoNul(x)
    ensures r <==> |x| <= length && buffer[length - |x|..length] == x
  {
    if |x| > length then false
    else
      var tail := buffer[length - |x|..];
      StrNEqualIsSliceEquality(tail, x, |x|);
      assert tail[..|x|] == buffer[length - |x|..length];
      StrNEqual(tail, x, |x|)
  }

  /** The argument names nt_string_construct reads. */
  const LengthKey: CString := "NtString::length"
  const ValueKey: CString := "NtString::value"

  /** The argument list nt_string_new passes through nt_string_new_full. */
  function NewArguments(v: Option<CString>): (args: Argument.Arguments)
    ensures Argument.WellFormed(args)
  {
    var a := [
      Argument.Arg(Some(LengthKey), Number(if v.None? then 0 else |v.value|)),
      Argument.Arg(Some(ValueKey), String(v)),
      Argument.Arg(None, Pointer(Null))];
    assert a[2].name.None?;
    Some(a)
  }

  /** The constructor reads back the length and the string nt_string_new passes. */
  lemma NewArgumentsRead(v: Option<CString>)
    ensures Argument.Get(NewArguments(v), LengthKey, Number(0)) == Number(if v.None? then 0 else |v.value|)
    ensures Argument.Get(NewArguments(v), ValueKey, String(None)) == String(v)
  {
    var a := NewArguments(v).value;
    Argument.FirstMatchWins(a, 0, LengthKey, Number(0));
    assert LengthKey[10] != ValueKey[10];
    Argument.FirstMatchWins(a, 1, ValueKey, String(None));
  }

  class NtString {
    /** priv->value: the first `length` characters of the buffer, or None when unset. */
    var value: Option<seq<char>>
    /** priv->length */
    var length: nat

    /** The buffer holds exactly `length` characters; an unset string has length 0. */
    ghost predicate Valid()
      reads this
    {
      && (value.Some? ==> |value.value| == length)
      && (value.None? ==> length == 0)
    }

    /** The buffer's characters; none when unset. */
    function Buffer(): seq<char>
      reads this
    {
      if value.None? then [] else value.value
    }

    /** The C string the buffer holds, "" when unset: what append and prepend start from. */
    ghost function Text(): (t: seq<char>)
      reads this
      ensures NoNul(t)
    {
      UpToNul(Buffer())
    }

    /**
     * nt_string_new: the constructor stores a copy of `v` and its length,
     * or no buffer and length 0 when `v` is NULL.
     */
    constructor (v: Option<CString>)
      requires v.Some? ==> NoNul(v.value)
      ensures Valid()
      ensures value == v && length == (if v.None? then 0 else |v.value|)
    {
      var arguments := NewArguments(v);
      NewArgumentsRead(v);
      var len := Argument.Get(arguments, LengthKey, Number(0));
      var str := Argument.Get(arguments, ValueKey, String(None));
      length := len.number;
      value := str.str;
    }

    /**
     * nt_string_set_dynamic as intended (see the findings): the contents
     * become a copy of `v` with its length; NULL clears the string.
     */
    method SetDynamic(v: Option<CString>)
      requires v.Some? ==> NoNul(v.value)
      modifies this
      ensures Valid()
      ensures value == v && length == (if v.None? then 0 else |v.value|)
      ensures v.Some? ==> Text() == v.value
    {
      if value.Some? {
        length := 0;
      }
      length := if v.None? then 0 else |v.value|;
      value := v;
      if v.Some? {
        UpToNulUnique(v.value, v.value);
      }
    }

    /**
     * nt_string_set_fixed: the length does not change; the first `length`
     * characters become `v`'s, cut off or NUL-padded.  The copy count is
     * computed with size_t arithmetic, so `value_length - length` is
     * non-zero (and the count is `length`) whenever the two differ.
     */
    method SetFixed(v: CString)
      requires Valid() && value.Some? && NoNul(v)
      requires |v| < SizeModulus && length < SizeModulus
      modifies this
      ensures Valid()
      ensures length == old(length)
      ensures value == Some(Fit(v, length))
      ensures Text() == if |v| <= length then v else v[..length]
    {
      var valueLength := |v|;
      var nOver := (valueLength - length) % SizeModulus;
      var count := if nOver > 0 then length else valueLength;
      assert count == length;
      value := Some(StrNCpy(value.value, v, count));
      assert value.value == Fit(v, length);
      FitText(v, length);
    }

    /**
     * nt_string_dynamic_vprintf as intended, with the formatting done by
     * the caller: the contents become the formatted text and its length.
     */
    method DynamicPrintf(formatted: CString)
      requires NoNul(formatted)
      modifies this
      ensures Valid()
      ensures value == Some(formatted) && length == |formatted|
      ensures Text() == formatted
    {
      if value.Some? {
        length := 0;
      }
      value := Some(formatted);
      length := |formatted|;
      UpToNulUnique(formatted, formatted);
    }

    /**
     * nt_string_dynamic_vprintf as written: the buffer holds the formatted
     * text and its terminator, and the stored length counts the
     * terminator too.
     */
    method DynamicPrintfAsWritten(formatted: CString)
      requires NoNul(formatted)
      modifies this
      ensures Valid()
      ensures value == Some(formatted + [Nul]) && length == |formatted| + 1
      ensures Text() == formatted
    {
      if value.Some? {
        length := 0;
      }
      value := Some(formatted + [Nul]);
      length := |formatted| + 1;
      UpToNulUnique(formatted + [Nul], formatted);
    }

    /**
     * nt_string_get_value: a copy of the C string in the buffer (NULL when
     * unset) and the stored length.
     */
    method GetValue() returns (r: Option<CString>, len: nat)
      requires Valid()
      ensures len == length
      ensures r.None? <==> value.None?
      ensures r.Some? ==> r.value == Text()
      ensures r.Some? ==> NoNul(r.value) && |r.value| <= length && r.value == value.value[..|r.value|]
    {
      len := length;
      if value.Some? {
        return Some(UpToNul(value.value)), len;
      }
      return None, len;
    }

    /** nt_string_get_length: the stored length, which is the buffer's size. */
    function GetLength(): (n: nat)
      reads this
      requires Valid()
      ensures value.Some? ==> n == |value.value|
      ensures value.None? ==> n == 0
    {
      length
    }

    /** nt_string_dynamic_append: the C string followed by `s`, an unset string counting as "". */
    method DynamicAppend(s: CString)
      requires Valid() && NoNul(s)
      modifies this
      ensures Valid()
      ensures value == Some(old(Text()) + s) && length == |old(Text())| + |s|
    {
      var val, _ := GetValue();
      var current := if val.None? then "" else val.value;
      DynamicPrintf(current + s);
    }

    /** nt_string_dynamic_prepend: `s` followed by the C string, an unset string counting as "". */
    method DynamicPrepend(s: CString)
      requires Valid() && NoNul(s)
      modifies this
      ensures Valid()
      ensures value == Some(s + old(Text())) && length == |s| + |old(Text())|
    {
      var val, _ := GetValue();
      var current := if val.None? then "" else val.value;
      DynamicPrintf(s + current);
    }

    /** nt_string_has_prefix: the buffer starts with `p` within its stored length. */
    function HasPrefix(p: CString): (r: bool)
      reads this
      requires Valid() && NoNul(p)
      ensures r <==> |p| <= length && Buffer()[..|p|] == p
    {
      HasPrefixOf(Buffer(), length, p)
    }

    /** nt_string_has_suffix: the stored length ends on `x`. */
    function HasSuffix(x: CString): (r: bool)
      reads this
      requires Valid() && NoNul(x)
      ensures r <==> |x| <= length && Buffer()[length - |x|..] == x
    {
      HasSuffixOf(Buffer(), length, x)
    }
  }

  /** After appending `s` the string ends with `s`; after prepending it starts with `s`. */
  method AppendPrependScenario(start: Option<CString>, s: CString) returns (suffix: bool, prefix: bool)
    requires start.Some? ==> NoNul(start.value)
    requires NoNul(s)
    ensures suffix && prefix
  {
    var str := new NtString(start);
    str.DynamicAppend(s);
    suffix := str.HasSuffix(s);
    str.DynamicPrepend(s);
    prefix := str.HasPrefix(s);
  }

  /**
   * With dynamic_vprintf as written, the stored length counts the
   * terminator, so has_suffix compares against a window that ends on the
   * NUL: the text "…c" does not end with "c".  With the intended length it
   * does.
   */
  lemma DynamicPrintfAsWrittenBreaksSuffix(s: CString, c: char)
    requires NoNul(s) && c != Nul
    ensures !HasSuffixOf(s + [c] + [Nul], |s| + 2, [c])
    ensures HasSuffixOf(s + [c], |s| + 1, [c])
  {
    var b := s + [c] + [Nul];
    assert b[|s| + 1..|s| + 2] == [Nul];
    assert (s + [c])[|s|..|s| + 1] == [c];
  }

  /**
   * What nt_string_set_dynamic does as written: it always writes the
   * terminator through the new value pointer, which is NULL when the
   * argument is NULL.
   */
  datatype SetOutcome = NullWrite | Stored(value: seq<char>, length: nat)

  function SetDynamicAsWritten(v: Option<CString>): (r: SetOutcome)
    ensures r.NullWrite? <==> v.None?
    ensures r.Stored? ==> r.value == v.value && r.length == |v.value|
  {
    if v.None? then NullWrite else Stored(v.value, |v.value|)
  }
}
