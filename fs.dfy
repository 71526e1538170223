/**
 * Path joining (elemental/src/fs.c, nt_join_path / nt_join_pathv): every
 * segment is appended to a string buffer after a path separator.
 */
module Fs {
  import opened Wrappers
  import opened Values
  import opened Seqs
  import opened Strings

  /** The separator: a backslash on WINDOWS and CYGWIN builds, a slash otherwise. */
  function Separator(windows: bool): (d: char)
    ensures d != Nul
  {
    if windows then '\\' else '/'
  }

  /** The segments of a NULL-terminated argument list: everything before the first NULL. */
  function Segments(args: seq<Option<CString>>): (segs: seq<CString>)
    requires None in args
    ensures |segs| == IndexOf(args, None)
    ensures forall j :: 0 <= j < |segs| ==> args[j] == Some(segs[j])
  {
    if args[0].None? then [] else [args[0].value] + Segments(args[1..])
  }

  /** The sum of the segments' lengths. */
  function TotalLength(segs: seq<CString>): nat {
    if segs == [] then 0 else |segs[0]| + TotalLength(segs[1..])
  }

  /** The joined path: each segment preceded by the separator. */
  function Joined(segs: seq<CString>, d: char): (p: seq<char>)
    requires d != Nul && forall j :: 0 <= j < |segs| ==> NoNul(segs[j])
    ensures NoNul(p)
  {
    if segs == [] then []
    else
      var rest := Joined(segs[1..], d);
      var p := [d] + segs[0] + rest;
      assert forall i :: 0 <= i < |p| ==> p[i] != Nul by {
        forall i | 0 <= i < |p|
          ensures p[i] != Nul
        {
          if i == 0 {
            assert p[i] == d;
          } else if i < 1 + |segs[0]| {
            assert p[i] == segs[0][i - 1];
            assert NoNul(segs[0]);
          } else {
            assert p[i] == rest[i - 1 - |segs[0]|];
            assert NoNul(rest);
          }
        }
      }
      p
  }

  /** Joining one more segment extends the path by the separator and that segment. */
  lemma {:induction false} JoinedSnoc(segs: seq<CString>, x: CString, d: char)
    requires d != Nul && NoNul(x) && forall j :: 0 <= j < |segs| ==> NoNul(segs[j])
    ensures Joined(segs + [x], d) == Joined(segs, d) + [d] + x
    decreases |segs|
  {
    if segs != [] {
      assert (segs + [x])[1..] == segs[1..] + [x];
      JoinedSnoc(segs[1..], x, d);
    }
  }

  /** A joined path is one separator per segment plus the segments themselves. */
  lemma {:induction false} JoinedLength(segs: seq<CString>, d: char)
    requires d != Nul && forall j :: 0 <= j < |segs| ==> NoNul(segs[j])
    ensures |Joined(segs, d)| == |segs| + TotalLength(segs)
    decreases |segs|
  {
    if segs != [] {
      JoinedLength(segs[1..], d);
    }
  }

  /**
   * nt_join_pathv: appends the separator and then each segment, in
   * argument order, up to the first NULL; with no segment at all the
   * buffer was never set and NULL comes back.
   */
  method JoinPath(args: seq<Option<CString>>, windows: bool) returns (r: Option<CString>)
    requires None in args
    requires forall i :: 0 <= i < |args| && args[i].Some? ==> NoNul(args[i].value)
    ensures Segments(args) == [] ==> r == None
    ensures Segments(args) != [] ==> r == Some(Joined(Segments(args), Separator(windows)))
  {
    var str := new NtString(None);
    var d := Separator(windows);
    ghost var segs := Segments(args);
    var i := 0;
    while args[i].Some?
      invariant 0 <= i <= |segs| && i < |args|
      invariant str.Valid()
      invariant str.value == if i == 0 then None else Some(Joined(segs[..i], d))
      decreases |args| - i
    {
      var segment := args[i].value;
      assert segs[..i + 1] == segs[..i] + [segment];
      JoinedSnoc(segs[..i], segment, d);
      if i > 0 {
        UpToNulUnique(Joined(segs[..i], d), Joined(segs[..i], d));
      }
      str.DynamicAppend([d]);
      UpToNulUnique(str.value.value, str.value.value);
      str.DynamicAppend(segment);
      i := i + 1;
    }
    assert segs[..i] == segs;
    if i > 0 {
      UpToNulUnique(Joined(segs, d), Joined(segs, d));
    }
    var length;
    r, length := str.GetValue();
  }

  /** nt_join_path("a", "b", NULL) gives "/a/b" on a non-Windows build and "\a\b" on Windows. */
  lemma JoinTwoSegments()
    ensures Joined(["a", "b"], Separator(false)) == "/a/b"
    ensures Joined(["a", "b"], Separator(true)) == "\\a\\b"
  {
    assert ["a", "b"][1..] == ["b"];
  }
}
