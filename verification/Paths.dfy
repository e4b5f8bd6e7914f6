/** What vfs_realpath computes, on values: a path is a stack of names, "." does nothing,
    ".." drops the last name, a name is pushed. */
module Paths {
  import opened CStrings

  /** Length of the leading run of characters other than '/'. */
  function NameEnd(s: seq<char>): (n: nat)
    ensures n <= |s| && '/' !in s[..n] && (n < |s| ==> s[n] == '/')
  {
    if s == [] || s[0] == '/' then 0
    else
      var n := 1 + NameEnd(s[1..]);
      assert s[..n] == [s[0]] + s[1..][..n - 1];
      n
  }

  lemma {:induction false} NameEndIs(s: seq<char>, n: nat)
    requires n <= |s| && '/' !in s[..n] && (n < |s| ==> s[n] == '/')
    ensures NameEnd(s) == n
  {
    var m := NameEnd(s);
    assert m < |s| ==> s[m] == '/';
  }

  predicate IsPiece(c: CString) { c != [] && '/' !in c }

  predicate AllC(cs: seq<CString>) { forall i | 0 <= i < |cs| :: IsC(cs[i]) }

  predicate Pieces(cs: seq<CString>) { forall i | 0 <= i < |cs| :: IsPiece(cs[i]) }

  /** The non-empty pieces between slashes. */
  function Components(s: CString): (cs: seq<CString>)
    ensures Pieces(cs)
    decreases |s|
  {
    if s == [] then []
    else if s[0] == '/' then Components(s[1..])
    else var n := NameEnd(s); [s[..n]] + Components(s[n..])
  }

  predicate IsName(c: CString) { IsPiece(c) && IsC(c) && c != "." && c != ".." }

  predicate IsStack(st: seq<CString>) { forall i | 0 <= i < |st| :: IsName(st[i]) }

  function Front<T>(st: seq<T>): seq<T> requires st != [] { st[..|st| - 1] }

  function Last<T>(st: seq<T>): T requires st != [] { st[|st| - 1] }

  /** "/" + every name followed by "/". */
  function Slashed(st: seq<CString>): (r: CString)
    ensures r != [] && r[0] == '/' && Last(r) == '/'
    decreases |st|
  {
    if st == [] then "/" else Slashed(Front(st)) + Last(st) + "/"
  }

  /** The directory string of a stack. */
  function Render(st: seq<CString>): (r: CString)
    ensures r != [] && r[0] == '/'
  {
    if st == [] then "/" else Slashed(Front(st)) + Last(st)
  }

  /** One path component applied to a stack. */
  function Walk(st: seq<CString>, c: CString): seq<CString>
  {
    if c == "." then st
    else if c == ".." then (if st == [] then [] else Front(st))
    else st + [c]
  }

  /** All components in order; None as soon as a pushed name no longer fits. */
  function WalkAll(st: seq<CString>, cs: seq<CString>): Option<seq<CString>>
    decreases |cs|
  {
    if cs == [] then Some(st)
    else
      var next := Walk(st, cs[0]);
      if |next| > |st| && |Render(next)| >= FTP_MAX_PATH then None
      else WalkAll(next, cs[1..])
  }

  predicate Absolute(path: CString) { path != [] && path[0] == '/' }

  function Base(cwd: CString, path: CString): seq<CString>
  {
    if Absolute(path) then [] else Components(cwd)
  }

  /** The canonical directory string `path` denotes from `cwd`; None is ENAMETOOLONG. */
  function Resolve(cwd: CString, path: CString): Option<CString>
  {
    match WalkAll(Base(cwd, path), Components(path))
    case None => None
    case Some(st) => Some(Render(st))
  }

  predicate DoubleSlashAt(p: seq<char>, i: nat) { i + 1 < |p| && p[i] == '/' && p[i + 1] == '/' }

  predicate NoDoubleSlash(p: seq<char>) { forall i | 0 <= i < |p| :: !DoubleSlashAt(p, i) }

  /** A leading slash, no empty piece, no trailing slash except at the root. */
  predicate Tidy(p: CString)
  {
    p != [] && p[0] == '/' && (p == "/" || Last(p) != '/') && NoDoubleSlash(p)
  }

  /** Canonical form, read off the characters and the pieces between slashes. */
  predicate Canonical(p: CString)
  {
    && |p| < FTP_MAX_PATH
    && IsC(p)
    && Tidy(p)
    && "." !in Components(p) && ".." !in Components(p)
  }

  lemma {:induction false} ComponentsAreC(s: CString)
    requires IsC(s)
    ensures AllC(Components(s))
    decreases |s|
  {
    if s != [] {
      if s[0] == '/' { ComponentsAreC(s[1..]); } else { ComponentsAreC(s[NameEnd(s)..]); }
    }
  }

  lemma {:induction false} RenderIsC(st: seq<CString>)
    requires AllC(st)
    ensures IsC(Slashed(st)) && IsC(Render(st))
    decreases |st|
  {
    if st != [] { RenderIsC(Front(st)); }
  }

  // ---- Components against Render --------------------------------------------------

  lemma {:induction false} ComponentsAppend(a: CString, b: CString)
    requires a == [] || b == [] || Last(a) == '/' || b[0] == '/'
    ensures Components(a + b) == Components(a) + Components(b)
    decreases |a|
  {
    if a == [] {
      assert a + b == b;
    } else if b == [] {
      assert a + b == a;
    } else if a[0] == '/' {
      assert (a + b)[1..] == a[1..] + b;
      ComponentsAppend(a[1..], b);
    } else {
      var n := NameEnd(a);
      assert (a + b)[..n] == a[..n];
      assert n == |a| ==> a[..n] == a && Last(a) in a;
      NameEndIs(a + b, n);
      assert (a + b)[n..] == a[n..] + b;
      ComponentsAppend(a[n..], b);
    }
  }

  lemma {:induction false} ComponentsOfName(c: CString)
    requires IsPiece(c)
    ensures Components(c) == [c]
  {
    NameEndIs(c, |c|);
    assert c[..|c|] == c && c[|c|..] == [];
  }

  lemma {:induction false} ComponentsOfSlashed(st: seq<CString>)
    requires Pieces(st)
    ensures Components(Slashed(st)) == st
    decreases |st|
  {
    if st == [] {
      assert "/"[1..] == [];
    } else {
      var f, l := Front(st), Last(st);
      ComponentsOfSlashed(f);
      ComponentsOfName(l);
      ComponentsAppend(Slashed(f), l);
      assert "/"[1..] == [];
      assert Components("/") == [];
      ComponentsAppend(Slashed(f) + l, "/");
      assert st == f + [l];
    }
  }

  lemma {:induction false} ComponentsOfRender(st: seq<CString>)
    requires Pieces(st)
    ensures Components(Render(st)) == st
  {
    if st == [] {
      assert "/"[1..] == [];
    } else {
      ComponentsOfSlashed(Front(st));
      ComponentsOfName(Last(st));
      ComponentsAppend(Slashed(Front(st)), Last(st));
      assert st == Front(st) + [Last(st)];
    }
  }

  lemma {:induction false} SlashedHasNoEmptyPiece(st: seq<CString>)
    requires Pieces(st)
    ensures NoDoubleSlash(Slashed(st))
    decreases |st|
  {
    if st != [] {
      var f, l := Slashed(Front(st)), Last(st);
      SlashedHasNoEmptyPiece(Front(st));
      var r := f + l + "/";
      forall i | 0 <= i < |r|
        ensures !DoubleSlashAt(r, i)
      {
        assert i < |f| - 1 ==> !DoubleSlashAt(f, i);
        assert l[0] in l;
        assert |f| <= i < |f| + |l| ==> l[i - |f|] in l;
      }
    }
  }

  lemma {:induction false} RenderIsCanonical(st: seq<CString>)
    requires IsStack(st) && |Render(st)| < FTP_MAX_PATH
    ensures Canonical(Render(st))
  {
    ComponentsOfRender(st);
    RenderIsC(st);
    SlashedHasNoEmptyPiece(st);
    if st != [] {
      assert Slashed(st) == Render(st) + "/";
      assert Last(Render(st)) == Last(Last(st)) && Last(Last(st)) in Last(st);
      assert forall i | 0 <= i < |Render(st)| :: DoubleSlashAt(Render(st), i) ==> DoubleSlashAt(Slashed(st), i);
    }
  }

  /** A canonical string is the rendering of its own components. */
  lemma {:induction false} CanonicalIsRender(p: CString)
    requires Canonical(p)
    ensures IsStack(Components(p)) && Render(Components(p)) == p
  {
    ComponentsAreC(p);
    if p == "/" {
      assert p[1..] == [];
    } else {
      RenderOfPieces(p, [], Components(p));
      assert Slashed([]) + p[1..] == p;
    }
  }

  /** Rebuilding a string without empty pieces, name by name. */
  lemma {:induction false} RenderOfPieces(p: CString, st: seq<CString>, all: seq<CString>)
    requires Tidy(p) && p != "/" && all == st + Components(p)
    ensures Render(all) == Slashed(st) + p[1..]
    decreases |p|
  {
    var name, rest := FirstPiece(p);
    var more := st + [name];
    assert Slashed(more) == Slashed(st) + name + "/" && Render(more) == Slashed(st) + name by { SlashedPush(st, name); }
    assert all == more + Components(rest) by { Pushed(st, name, Components(rest)); }
    if rest == [] {
      assert all == more;
    } else {
      RenderOfPieces(rest, more, all);
      RegroupNames(Slashed(st), name, rest);
    }
  }

  lemma {:induction false} Pushed(st: seq<CString>, name: CString, cs: seq<CString>)
    ensures st + ([name] + cs) == st + [name] + cs
  {}

  lemma {:induction false} RegroupNames(a: seq<char>, name: seq<char>, rest: seq<char>)
    requires rest != [] && rest[0] == '/'
    ensures a + name + "/" + rest[1..] == a + (name + rest)
  {}

  /** "/name..." split after the name. */
  lemma {:induction false} FirstPiece(p: CString) returns (name: CString, rest: CString)
    requires Tidy(p) && p != "/"
    ensures |rest| < |p| && p[1..] == name + rest && Components(p) == [name] + Components(rest)
    ensures rest != [] ==> Tidy(rest) && rest != "/"
  {
    assert !DoubleSlashAt(p, 0);
    var n := NameEnd(p[1..]);
    name, rest := p[1..][..n], p[1..][n..];
    assert forall i | 0 <= i < |rest| :: DoubleSlashAt(rest, i) ==> DoubleSlashAt(p, 1 + n + i);
  }

  lemma {:induction false} SlashedPush(st: seq<CString>, c: CString)
    ensures Slashed(st + [c]) == Slashed(st) + c + "/" && Render(st + [c]) == Slashed(st) + c
  {
    assert Front(st + [c]) == st;
  }

  // ---- What Resolve keeps ---------------------------------------------------------

  lemma {:induction false} WalkAllKeeps(st: seq<CString>, cs: seq<CString>)
    requires IsStack(st) && |Render(st)| < FTP_MAX_PATH
    requires Pieces(cs) && AllC(cs)
    ensures var r := WalkAll(st, cs); r.Some? ==> IsStack(r.value) && |Render(r.value)| < FTP_MAX_PATH
    decreases |cs|
  {
    if cs != [] {
      var next := Walk(st, cs[0]);
      if |next| < |st| { ShorterRender(st); }
      if !(|next| > |st| && |Render(next)| >= FTP_MAX_PATH) {
        WalkAllKeeps(next, cs[1..]);
      }
    }
  }

  /** The reference semantics: the same walk on a stack of any size. */
  function Destination(st: seq<CString>, cs: seq<CString>): seq<CString>
    decreases |cs|
  {
    if cs == [] then st else Destination(Walk(st, cs[0]), cs[1..])
  }

  ghost predicate FitsAfter(st: seq<CString>, cs: seq<CString>, k: nat)
    requires k <= |cs|
  {
    |Render(Destination(st, cs[..k]))| < FTP_MAX_PATH
  }

  /** The directory after every component fits. */
  ghost predicate AllFit(st: seq<CString>, cs: seq<CString>)
    decreases |cs|
  {
    |Render(st)| < FTP_MAX_PATH && (cs == [] || AllFit(Walk(st, cs[0]), cs[1..]))
  }

  lemma {:induction false} WalkSucceedsIff(st: seq<CString>, cs: seq<CString>)
    requires |Render(st)| < FTP_MAX_PATH
    ensures WalkAll(st, cs) == if AllFit(st, cs) then Some(Destination(st, cs)) else None
    decreases |cs|
  {
    if cs != [] {
      var next := Walk(st, cs[0]);
      if |next| < |st| { ShorterRender(st); }
      if |Render(next)| < FTP_MAX_PATH { WalkSucceedsIff(next, cs[1..]); }
    }
  }

  lemma {:induction false} AllFitIff(st: seq<CString>, cs: seq<CString>)
    ensures AllFit(st, cs) <==> forall k | 0 <= k <= |cs| :: FitsAfter(st, cs, k)
    decreases |cs|
  {
    assert cs[..0] == [];
    if cs == [] {
      assert FitsAfter(st, cs, 0) <==> |Render(st)| < FTP_MAX_PATH;
    } else {
      var next, rest := Walk(st, cs[0]), cs[1..];
      AllFitIff(next, rest);
      forall k | 0 <= k <= |rest| ensures FitsAfter(st, cs, k + 1) == FitsAfter(next, rest, k) {
        assert cs[..k + 1][0] == cs[0] && cs[..k + 1][1..] == rest[..k];
      }
      assert FitsAfter(st, cs, 0) <==> |Render(st)| < FTP_MAX_PATH;
      assert forall k | 1 <= k <= |cs| :: FitsAfter(st, cs, k) == FitsAfter(next, rest, k - 1);
    }
  }

  /** The walk in the fixed buffer succeeds exactly when every intermediate directory of the
      unbounded walk fits, and then it ends where the unbounded walk ends. */
  lemma {:induction false} FailsExactlyOnOverflow(st: seq<CString>, cs: seq<CString>)
    requires |Render(st)| < FTP_MAX_PATH
    ensures WalkAll(st, cs).Some? <==> forall k | 0 <= k <= |cs| :: FitsAfter(st, cs, k)
    ensures WalkAll(st, cs).Some? ==> WalkAll(st, cs).value == Destination(st, cs)
  {
    WalkSucceedsIff(st, cs);
    AllFitIff(st, cs);
  }

  lemma {:induction false} ShorterRender(st: seq<CString>)
    requires st != []
    ensures |Render(Front(st))| <= |Render(st)|
  {}

  /** The outcome of a resolution is canonical again, so a session can feed it back. */
  lemma {:induction false} ResolveIsCanonical(cwd: CString, path: CString)
    requires Canonical(cwd) && IsC(path)
    ensures Resolve(cwd, path).Some? ==> Canonical(Resolve(cwd, path).value)
  {
    CanonicalIsRender(cwd);
    var base := Base(cwd, path);
    ComponentsAreC(path);
    WalkAllKeeps(base, Components(path));
    var r := WalkAll(base, Components(path));
    if r.Some? { RenderIsCanonical(r.value); }
  }

  // ---- Laws -----------------------------------------------------------------------

  lemma {:induction false} WalkAllAppend(st: seq<CString>, a: seq<CString>, b: seq<CString>)
    ensures WalkAll(st, a + b) ==
            match WalkAll(st, a) { case None => None case Some(m) => WalkAll(m, b) }
    decreases |a|
  {
    if a == [] {
      assert a + b == b;
    } else {
      assert (a + b)[0] == a[0] && (a + b)[1..] == a[1..] + b;
      WalkAllAppend(Walk(st, a[0]), a[1..], b);
    }
  }

  lemma {:induction false} ComponentsJoin(p: CString, q: CString)
    ensures Components(p + "/" + q) == Components(p) + Components(q)
  {
    ComponentsBehindSlash(q);
    ComponentsAppend(p, "/" + q);
    assert p + "/" + q == p + ("/" + q);
  }

  lemma {:induction false} ComponentsBehindSlash(q: CString)
    ensures Components("/" + q) == Components(q)
  {
    assert ("/" + q)[1..] == q;
  }

  /** Resolving p and then a relative q is resolving p/q, overflow included. */
  lemma {:induction false} ResolveInTwoSteps(cwd: CString, p: CString, q: CString)
    requires Canonical(cwd) && IsC(p) && p != [] && !Absolute(q)
    ensures Resolve(cwd, p + "/" + q) ==
            match Resolve(cwd, p) { case None => None case Some(m) => Resolve(m, q) }
  {
    var pq := p + "/" + q;
    ComponentsJoin(p, q);
    var base := Base(cwd, p);
    assert Base(cwd, pq) == base;
    WalkAllAppend(base, Components(p), Components(q));
    CanonicalIsRender(cwd);
    ComponentsAreC(p);
    WalkAllKeeps(base, Components(p));
    var mid := WalkAll(base, Components(p));
    if mid.Some? { ComponentsOfRender(mid.value); }
  }

  lemma {:induction false} SlashedMonotone(a: seq<CString>, b: seq<CString>)
    ensures |Slashed(a)| <= |Slashed(a + b)|
    decreases |b|
  {
    if b == [] {
      assert a + b == a;
    } else {
      assert Front(a + b) == a + Front(b);
      SlashedMonotone(a, Front(b));
    }
  }

  lemma {:induction false} PushesFit(st: seq<CString>, cs: seq<CString>)
    requires IsStack(cs) && |Render(st + cs)| < FTP_MAX_PATH
    ensures WalkAll(st, cs) == Some(st + cs)
    decreases |cs|
  {
    if cs == [] {
      assert st + cs == st;
    } else {
      var next := st + [cs[0]];
      assert next + cs[1..] == st + cs;
      if |cs| > 1 {
        assert Front(st + cs) == next + cs[1..|cs| - 1];
        SlashedMonotone(next, cs[1..|cs| - 1]);
      } else {
        assert next == st + cs;
      }
      PushesFit(next, cs[1..]);
    }
  }

  /** A canonical string resolves to itself, whatever the current directory. */
  lemma {:induction false} CanonicalResolvesToItself(cwd: CString, p: CString)
    requires Canonical(p)
    ensures Resolve(cwd, p) == Some(p)
  {
    CanonicalIsRender(p);
    assert [] + Components(p) == Components(p);
    PushesFit([], Components(p));
  }

  /** Resolution stays put on "." and on the empty path. */
  lemma {:induction false} DotStays(cwd: CString)
    requires Canonical(cwd)
    ensures Resolve(cwd, ".") == Some(cwd) && Resolve(cwd, []) == Some(cwd)
  {
    ComponentsOfName(".");
    CanonicalIsRender(cwd);
    WalkOne(Components(cwd), ".");
  }

  lemma {:induction false} WalkOne(st: seq<CString>, c: CString)
    ensures WalkAll(st, [c]) ==
            var next := Walk(st, c);
            if |next| > |st| && |Render(next)| >= FTP_MAX_PATH then None else Some(next)
  {
    assert [c][1..] == [];
  }

  lemma {:induction false} ResolveOne(cwd: CString, c: CString)
    requires Canonical(cwd) && IsPiece(c)
    ensures Resolve(cwd, c) ==
            var next := Walk(Components(cwd), c);
            if |next| > |Components(cwd)| && |Render(next)| >= FTP_MAX_PATH then None else Some(Render(next))
  {
    ComponentsOfName(c);
    WalkOne(Components(cwd), c);
  }

  lemma {:induction false} ResolveDown(cwd: CString, name: CString)
    requires Canonical(cwd) && IsName(name) && Resolve(cwd, name).Some?
    ensures Canonical(Resolve(cwd, name).value)
    ensures Components(Resolve(cwd, name).value) == Components(cwd) + [name]
  {
    ResolveIsCanonical(cwd, name);
    assert Resolve(cwd, name) == Some(Render(Components(cwd) + [name])) by { ResolveOne(cwd, name); }
    assert Pieces(Components(cwd) + [name]);
    ComponentsOfRender(Components(cwd) + [name]);
  }

  /** A name that fits is appended behind a slash. */
  lemma {:induction false} NameIsAppended(cwd: CString, name: CString)
    requires Canonical(cwd) && IsName(name)
    ensures var p := if cwd == "/" then "/" + name else cwd + "/" + name;
            Resolve(cwd, name) == if |p| < 1024 then Some(p) else None
  {
    var st := Components(cwd);
    CanonicalIsRender(cwd);
    ResolveOne(cwd, name);
    SlashedPush(st, name);
    if st != [] {
      assert Slashed(st) == Render(st) + "/";
      assert |Last(st)| > 0;
    }
  }

  lemma {:induction false} ResolveUp(p: CString)
    requires Canonical(p)
    ensures Resolve(p, "..") == Some(Render(if Components(p) == [] then [] else Front(Components(p))))
  {
    ResolveOne(p, "..");
  }

  /** CDUP undoes CWD into one ordinary name, whenever that CWD succeeds. */
  lemma {:induction false} UpUndoesDown(cwd: CString, name: CString)
    requires Canonical(cwd) && IsName(name) && Resolve(cwd, name).Some?
    ensures Resolve(Resolve(cwd, name).value, "..") == Some(cwd)
  {
    ResolveDown(cwd, name);
    ResolveUp(Resolve(cwd, name).value);
    CanonicalIsRender(cwd);
    assert Front(Components(cwd) + [name]) == Components(cwd);
  }

  /** However many ".." a path has, with slashes and dots between them, from the root it stays there. */
  lemma {:induction false} UpFromRoot(cs: seq<CString>)
    requires forall i | 0 <= i < |cs| :: cs[i] == ".." || cs[i] == "."
    ensures WalkAll([], cs) == Some([])
    decreases |cs|
  {
    if cs != [] { UpFromRoot(cs[1..]); }
  }

  lemma {:induction false} NothingAboveRoot(path: CString)
    requires forall i | 0 <= i < |Components(path)| :: Components(path)[i] == ".." || Components(path)[i] == "."
    ensures Resolve("/", path) == Some("/")
  {
    assert "/"[1..] == [];
    assert Components("/") == [];
    UpFromRoot(Components(path));
  }
}
