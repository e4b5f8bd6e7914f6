/** vfs.c: the buffer that holds the root directory followed by the virtual path, and the
    in-place canonicaliser that every file operation goes through. */
module Vfs {
  import opened CStrings
  import opened Paths

  /** The storage behind real_path and virt_path = real_path + strlen(root). */
  class Pool {
    const root: CString
    const buf: array<char>

    ghost predicate Valid()
      reads this, buf
    {
      buf.Length == |root| + FTP_MAX_PATH && IsC(root) && buf[..|root|] == root
    }

    /** The first n bytes virt_path points at. */
    ghost function Virt(n: nat): (v: seq<char>)
      requires Valid() && n <= FTP_MAX_PATH
      reads this, buf
      ensures |v| == n
    {
      buf[|root|..|root| + n]
    }

    /** The C string virt_path points at. */
    ghost function VirtPath(): CString
      requires Valid()
      reads this, buf
    {
      Terminated(buf[|root|..])
    }

    /** The C string real_path points at: what the operating system is handed. */
    ghost function RealPath(): CString
      requires Valid()
      reads this, buf
    {
      Terminated(buf[..])
    }

    /** init_vfs_pool */
    constructor (root_dir: CString)
      requires IsC(root_dir)
      ensures Valid() && fresh(buf) && root == root_dir
      ensures VirtPath() == "/" && RealPath() == root_dir + "/"
    {
      root := root_dir;
      buf := new char[|root_dir| + FTP_MAX_PATH](_ => NUL);
      new;
      var rootlen := Strlcpy(buf, 0, root_dir, |root_dir| + 1);
      forall k | |root| <= k < buf.Length {
        buf[k] := NUL;
      }
      buf[|root|] := '/';
      assert buf[..|root|] == root by {
        assert buf[0..|root| + 1][..|root|] == buf[..|root|];
      }
      RealIsRootThenVirt("/");
    }

    /** Virtual contents decide both strings. */
    lemma {:induction false} RealIsRootThenVirt(p: CString)
      requires Valid() && IsC(p) && |p| < FTP_MAX_PATH
      requires Virt(|p|) == p && buf[|root| + |p|] == NUL
      ensures VirtPath() == p && RealPath() == root + p
    {
      assert buf[|root|..][..|p|] == p;
      TerminatedAt(buf[|root|..], |p|);
      assert buf[..][..|root| + |p|] == root + p;
      TerminatedAt(buf[..], |root| + |p|);
    }

    /** Between two components the buffer shows a stack, with or without a final slash. */
    ghost predicate Shows(st: seq<CString>, dst: nat)
      requires Valid()
      reads this, buf
    {
      IsStack(st) && |Render(st)| < FTP_MAX_PATH && 1 <= dst < FTP_MAX_PATH && Written(st, Virt(dst))
    }

    /** vfs_realpath: canonicalise `path` against `cwd` in place. */
    method Realpath(cwd: CString, path: CString) returns (ok: bool)
      requires Valid() && IsC(path) && IsC(cwd) && (|cwd| < FTP_MAX_PATH ==> Canonical(cwd))
      modifies buf
      ensures Valid()
      ensures ok <==> (Absolute(path) || |cwd| < FTP_MAX_PATH) && Resolve(cwd, path).Some?
      ensures ok ==> VirtPath() == Resolve(cwd, path).value
      ensures ok ==> RealPath() == root + Resolve(cwd, path).value
    {
      var dst: nat;
      ok, dst := Begin(cwd, path);
      if !ok {
        return;
      }
      ghost var st := Base(cwd, path);
      ghost var goal := WalkAll(st, Components(path));
      var start, end := 0, 0;
      assert path[0..] == path;
      while start < |path|
        invariant 0 <= start <= |path|
        invariant Valid() && Shows(st, dst)
        invariant goal == WalkAll(st, Components(path[start..]))
      {
        start := SkipSlashes(path, start);
        end := FindEnd(path, start);
        NextPiece(path, start, end);
        if end == start {
          break;
        }
        WalkFirst(st, path[start..end], Components(path[end..]));
        ok, dst := Step(dst, path, start, end, st);
        if !ok {
          return;
        }
        st := Walk(st, path[start..end]);
        start := end;
      }
      assert Components(path[start..]) == [];
      EndsIn(st, Virt(dst));
      RenderIsC(st);
      Finish(dst);
      ok := true;
    }

    /** From the root for an absolute path, from a copy of the current directory otherwise. */
    method Begin(cwd: CString, path: CString) returns (ok: bool, dst: nat)
      requires Valid() && IsC(path) && (|cwd| < FTP_MAX_PATH ==> Canonical(cwd)) && IsC(cwd) && cwd != []
      modifies buf
      ensures Valid() && (ok <==> Absolute(path) || |cwd| < FTP_MAX_PATH)
      ensures ok ==> Shows(Base(cwd, path), dst)
    {
      if path != [] && path[0] == '/' {
        Write(0, "/");
        dst := 1;
      } else {
        var len := CopyCwd(cwd);
        if len >= FTP_MAX_PATH {
          Terminate(0);
          return false, 0;
        }
        CanonicalIsRender(cwd);
        WrittenForms(Components(cwd));
        dst := len;
      }
      ok := true;
    }

    /** strlcpy of the current directory to the start of the virtual path. */
    method CopyCwd(cwd: CString) returns (len: nat)
      requires Valid() && IsC(cwd) && cwd != []
      modifies buf
      ensures Valid() && len == |cwd| && (len < FTP_MAX_PATH ==> Virt(len) == cwd)
    {
      ghost var b := buf[..];
      len := Strlcpy(buf, |root|, cwd, FTP_MAX_PATH);
      if len < FTP_MAX_PATH {
        assert buf[|root|..|root| + FTP_MAX_PATH][..len] == cwd;
        SliceIs(buf[..], |root|, len, cwd);
      }
    }

    lemma {:induction false} SliceIs(b: seq<char>, at: nat, n: nat, s: seq<char>)
      requires at + FTP_MAX_PATH <= |b| && n <= FTP_MAX_PATH && b[at..at + FTP_MAX_PATH][..n] == s
      ensures b[at..at + n] == s
    {}

    /** After the last component: drop a final slash, unless it is the root, and terminate. */
    method Finish(from: nat)
      requires Valid() && 1 <= from < FTP_MAX_PATH && IsC(Virt(from))
      modifies buf
      ensures Valid()
      ensures VirtPath() == old(Unslashed(Virt(from))) && RealPath() == root + old(Unslashed(Virt(from)))
    {
      var dst := from;
      ghost var v := Virt(from);
      assert buf[|root| + dst - 1] == Last(v);
      if dst > 1 && buf[|root| + dst - 1] == '/' {
        dst := dst - 1;
      }
      assert Virt(dst) == Unslashed(v);
      Terminate(dst);
      RealIsRootThenVirt(Unslashed(v));
    }

    /** What one component does to the buffer. */
    method Step(from: nat, path: CString, start: nat, end: nat, ghost st: seq<CString>)
      returns (ok: bool, dst: nat)
      requires Valid() && Shows(st, from)
      requires start < end <= |path| && IsPiece(path[start..end]) && IsC(path[start..end])
      modifies buf
      ensures Valid()
      ensures ok <==> Fits(st, path[start..end])
      ensures ok ==> Shows(Walk(st, path[start..end]), dst)
    {
      ghost var c := path[start..end];
      var dirlen := end - start;
      if dirlen == 1 && path[start] == '.' {
        assert c == ".";
        ok, dst := true, from;
      } else if dirlen == 2 && path[start] == '.' && path[start + 1] == '.' {
        assert c == "..";
        ok := true;
        ghost var low := LastSlash(st, Virt(from));
        dst := Drop(from, low);
      } else {
        assert c[0] == path[start] && (dirlen == 2 ==> c[1] == path[start + 1]);
        PushName(st, c, Virt(from));
        ok, dst := Push(from, path[start..end]);
        if ok { WrittenForms(st + [c]); }
      }
    }

    /** The ".." branch: up one directory unless at the root. */
    method Drop(from: nat, ghost low: nat) returns (dst: nat)
      requires Valid() && 1 <= from < FTP_MAX_PATH
      requires from > 1 ==> LastSlashAt(Virt(from), low)
      ensures dst == if from > 1 then low else from
      ensures Virt(dst) == Virt(from)[..dst]
    {
      dst := from;
      if dst > 1 {
        dst := Up(dst, low);
      }
    }

    /** Back to the slash before the last name. */
    method Up(from: nat, ghost low: nat) returns (dst: nat)
      requires Valid() && from < FTP_MAX_PATH && LastSlashAt(Virt(from), low)
      ensures dst == low
    {
      dst := from - 1;
      while buf[|root| + dst - 1] != '/'
        invariant low <= dst < from
        decreases dst
      {
        assert Virt(from)[dst - 1] == buf[|root| + dst - 1];
        dst := dst - 1;
      }
      assert Virt(from)[dst - 1] == buf[|root| + dst - 1];
    }

    /** The branch of an ordinary name: a slash if there is none, then the name if it fits. */
    method Push(from: nat, name: CString) returns (ok: bool, dst: nat)
      requires Valid() && 1 <= from < FTP_MAX_PATH
      modifies buf
      ensures Valid()
      ensures ok <==> |WithSlash(old(Virt(from)))| + |name| < FTP_MAX_PATH
      ensures ok ==> dst == |WithSlash(old(Virt(from)))| + |name|
      ensures ok ==> Virt(dst) == WithSlash(old(Virt(from))) + name
    {
      dst := from;
      if buf[|root| + dst - 1] != '/' {
        Write(dst, "/");
        dst := dst + 1;
      }
      if dst + |name| >= FTP_MAX_PATH {
        return false, dst;
      }
      Write(dst, name);
      dst := dst + |name|;
      Terminate(dst);
      ok := true;
    }

    /** Bytes appended to the first `at` bytes of the virtual path. */
    method Write(at: nat, s: seq<char>)
      requires Valid() && at + |s| <= FTP_MAX_PATH
      modifies buf
      ensures Valid() && Virt(at + |s|) == old(Virt(at)) + s
    {
      Memcpy(buf, |root| + at, s);
      assert buf[..|root|] == buf[..][..|root|] == old(buf[..|root|]);
      assert Virt(at + |s|) == buf[..][|root|..|root| + at + |s|];
    }

    method Terminate(at: nat)
      requires Valid() && at < FTP_MAX_PATH
      modifies buf
      ensures Valid() && Virt(at) == old(Virt(at)) && buf[|root| + at] == NUL
    {
      buf[|root| + at] := NUL;
    }

    /** vfs_chdir: the caller's directory buffer becomes the canonical string, or stays. */
    method Chdir(cwd: array<char>, path: CString) returns (ok: bool)
      requires Valid() && cwd != buf && cwd.Length == FTP_MAX_PATH
      requires Canonical(Terminated(cwd[..])) && IsC(path)
      modifies buf, cwd
      ensures Valid() && Canonical(Terminated(cwd[..]))
      ensures ok <==> Resolve(old(Terminated(cwd[..])), path).Some?
      ensures ok ==> Some(Terminated(cwd[..])) == Resolve(old(Terminated(cwd[..])), path)
      ensures !ok ==> cwd[..] == old(cwd[..])
    {
      ghost var from := Terminated(cwd[..]);
      ResolveIsCanonical(from, path);
      ok := Realpath(Terminated(cwd[..]), path);
      if ok {
        var virt := Terminated(buf[|root|..]);
        var len := Strlcpy(cwd, 0, virt, FTP_MAX_PATH);
        CopiedSays(old(cwd[..]), virt, FTP_MAX_PATH);
        assert cwd[0..FTP_MAX_PATH] == cwd[..] && old(cwd[0..FTP_MAX_PATH]) == old(cwd[..]);
      }
    }
  }

  function WithSlash(v: seq<char>): seq<char> requires v != [] { if Last(v) == '/' then v else v + "/" }

  /** The two forms the buffer takes between two components: with and without a final slash. */
  ghost predicate Written(st: seq<CString>, v: seq<char>) { v != [] && WithSlash(v) == Slashed(st) }

  ghost predicate Fits(st: seq<CString>, c: CString)
  {
    !(|Walk(st, c)| > |st| && |Render(Walk(st, c))| >= FTP_MAX_PATH)
  }

  lemma {:induction false} PushName(st: seq<CString>, c: CString, v: seq<char>)
    requires IsStack(st) && IsName(c) && Written(st, v)
    ensures v != [] && WithSlash(v) + c == Render(st + [c]) && Walk(st, c) == st + [c]
    ensures IsStack(st + [c]) && (Fits(st, c) <==> |WithSlash(v)| + |c| < FTP_MAX_PATH)
  {
    SlashedPush(st, c);
  }

  function Unslashed(v: seq<char>): seq<char> requires v != [] { if |v| > 1 && Last(v) == '/' then Front(v) else v }

  /** Where the two forms of a rendering end. */
  lemma {:induction false} EndsIn(st: seq<CString>, v: seq<char>)
    requires IsStack(st) && Written(st, v)
    ensures Unslashed(v) == Render(st) && IsC(v)
    ensures |v| == 1 <==> st == []
  {
    RenderIsC(st);
    if st != [] {
      EndsInName(Slashed(Front(st)), Last(st), v);
    }
  }

  lemma {:induction false} EndsInName(f: seq<char>, l: CString, v: seq<char>)
    requires IsPiece(l) && f != [] && v != [] && WithSlash(v) == f + l + "/"
    ensures Unslashed(v) == f + l && |v| > 1
  {
    assert Last(f + l) == Last(l) && Last(l) in l;
    if Last(v) != '/' { assert v == Front(v + "/"); }
  }

  lemma {:induction false} WrittenForms(st: seq<CString>)
    requires IsStack(st)
    ensures Written(st, Render(st)) && Written(st, Slashed(st))
  {
    if st != [] {
      assert IsName(Last(st));
      assert Last(Render(st)) == Last(Last(st)) && Last(Last(st)) in Last(st);
    }
  }

  ghost predicate LastSlashAt(v: seq<char>, low: nat)
  {
    1 <= low < |v| && v[low - 1] == '/' && forall k | low <= k < |v| - 1 :: v[k] != '/'
  }

  /** The slash that ".." goes back to. */
  lemma {:induction false} LastSlash(st: seq<CString>, v: seq<char>) returns (low: nat)
    requires IsStack(st) && Written(st, v)
    ensures |v| == 1 <==> st == []
    ensures st != [] ==> LastSlashAt(v, low) && Written(Front(st), v[..low])
    ensures st != [] ==> IsStack(Front(st)) && |Render(Front(st))| <= |Render(st)|
  {
    EndsIn(st, v);
    low := 0;
    if st != [] {
      var f, l := Slashed(Front(st)), Last(st);
      assert IsName(l);
      low := |f|;
      assert v == Render(st) || v == Render(st) + "/";
      assert forall k | |f| <= k < |v| - 1 :: v[k] == l[k - |f|];
      assert v[..low] == f;
      ShorterRender(st);
    }
  }

  /** The part of a turn that finds the component. */
  method SkipSlashes(path: CString, from: nat) returns (start: nat)
    requires from <= |path|
    ensures from <= start <= |path| && (start < |path| ==> path[start] != '/')
    ensures Components(path[start..]) == Components(path[from..])
  {
    start := from;
    while start < |path| && path[start] == '/'
      invariant from <= start <= |path|
      invariant Components(path[start..]) == Components(path[from..])
    {
      assert path[start..][1..] == path[start + 1..];
      start := start + 1;
    }
  }

  method FindEnd(path: CString, start: nat) returns (end: nat)
    requires start <= |path|
    ensures start <= end <= |path| && '/' !in path[start..end]
    ensures end < |path| ==> path[end] == '/'
  {
    end := start;
    while end < |path| && path[end] != '/'
      invariant start <= end <= |path|
      invariant '/' !in path[start..end]
    {
      assert path[start..end + 1] == path[start..end] + [path[end]];
      end := end + 1;
    }
  }

  /** One turn of the outer loop cuts off exactly one component. */
  lemma {:induction false} NextPiece(path: CString, start: nat, end: nat)
    requires start <= end <= |path| && '/' !in path[start..end]
    requires start < |path| ==> path[start] != '/'
    requires end < |path| ==> path[end] == '/'
    ensures start == end ==> start == |path| && Components(path[start..]) == []
    ensures start < end ==> IsPiece(path[start..end]) && (IsC(path) ==> IsC(path[start..end]))
    ensures start < end ==> Components(path[start..]) == [path[start..end]] + Components(path[end..])
  {
    var s := path[start..];
    if start < end {
      assert s[..end - start] == path[start..end] && s[end - start..] == path[end..];
      NameEndIs(s, end - start);
    }
  }

  lemma {:induction false} WalkFirst(st: seq<CString>, c: CString, cs: seq<CString>)
    ensures WalkAll(st, [c] + cs) ==
            if Fits(st, c) then WalkAll(Walk(st, c), cs) else None
  {
    assert ([c] + cs)[1..] == cs;
  }
}
