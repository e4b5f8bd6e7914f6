/** C strings: what a `char *` denotes, and the bounded copy of util.c.
    One `char` stands for one byte. */
module CStrings {
  const NUL: char := '\0'

  /** Sizes of the buffers that paths and file names go through. */
  const FTP_MAX_PATH := 1024
  const FTP_MAX_NAME := 256

  /** The characters before the terminator of a C string. */
  type CString = seq<char>

  /** A C string holds no NUL itself. */
  predicate IsC(s: CString) { NUL !in s }

  datatype Option<+T> = None | Some(value: T)

  /** The C string that starts a buffer: everything before the first NUL. */
  function Terminated(b: seq<char>): (s: CString)
    ensures IsC(s) && |s| <= |b| && s == b[..|s|] && (|s| < |b| ==> b[|s|] == NUL)
  {
    if b == [] || b[0] == NUL then [] else [b[0]] + Terminated(b[1..])
  }

  /** The first NUL decides what a buffer says; the bytes behind it do not matter. */
  lemma {:induction false} TerminatedAt(b: seq<char>, n: nat)
    requires n <= |b| && IsC(b[..n]) && (n < |b| ==> b[n] == NUL)
    ensures Terminated(b) == b[..n]
  {
    if n > 0 {
      assert b[0] == b[..n][0] && b[1..][..n - 1] == b[..n][1..];
      TerminatedAt(b[1..], n - 1);
      assert b[..n] == [b[0]] + b[1..][..n - 1];
    }
  }

  /** Position of the first c, or the length. */
  function IndexOf(s: seq<char>, c: char): (i: nat)
    ensures i <= |s| && c !in s[..i] && (i < |s| ==> s[i] == c)
  {
    if s == [] || s[0] == c then 0
    else
      var i := 1 + IndexOf(s[1..], c);
      assert s[..i] == [s[0]] + s[1..][..i - 1];
      i
  }

  lemma {:induction false} IndexIs(s: seq<char>, c: char, i: nat)
    requires i <= |s| && c !in s[..i] && (i < |s| ==> s[i] == c)
    ensures IndexOf(s, c) == i
  {
    var k := IndexOf(s, c);
    assert k < |s| ==> s[k] == c;
  }

  function Min(a: int, b: int): int { if a < b then a else b }

  /** The bytes of `dst` after strlcpy(dst, src, size): an empty source writes nothing at all. */
  function Copied(dst: seq<char>, src: CString, size: nat): (r: seq<char>)
    requires 0 < size <= |dst|
    ensures |r| == |dst|
  {
    if src == [] then dst
    else var n := Min(|src|, size - 1); src[..n] + [NUL] + dst[n + 1..]
  }

  /** strlcpy leaves the source, cut to the buffer, as the C string of the destination
      exactly when there was something to copy, or the destination already said so. */
  lemma {:induction false} CopiedSays(dst: seq<char>, src: CString, size: nat)
    requires 0 < size <= |dst| && IsC(src)
    ensures src != [] ==> Terminated(Copied(dst, src, size)) == src[..Min(|src|, size - 1)]
    ensures src == [] ==> Terminated(Copied(dst, src, size)) == Terminated(dst)
    ensures Terminated(Copied(dst, src, size)) == src <==>
            if src == [] then Terminated(dst) == [] else |src| < size
  {
    if src != [] {
      var n := Min(|src|, size - 1);
      var r := Copied(dst, src, size);
      assert r[..n] == src[..n];
      TerminatedAt(r, n);
    }
  }

  /** util.c strlcpy: bounded copy into the part of `dst` that starts at `at`. */
  method Strlcpy(dst: array<char>, at: nat, src: CString, size: nat) returns (len: nat)
    requires 0 < size && at + size <= dst.Length
    modifies dst
    ensures len == |src|
    ensures dst[at..at + size] == Copied(old(dst[at..at + size]), src, size)
    ensures dst[..at] == old(dst[..at]) && dst[at + size..] == old(dst[at + size..])
  {
    len := |src|;
    if len != 0 {
      var tlen := if len > size - 1 then size - 1 else len;
      ghost var b := dst[..];
      Memcpy(dst, at, src[..tlen]);
      Memcpy(dst, at + tlen, [NUL]);
      CopiedInPlace(b, dst[..], at, src, size, tlen);
    }
  }

  lemma {:induction false} CopiedInPlace(b: seq<char>, c: seq<char>, at: nat, src: CString, size: nat, n: nat)
    requires 0 < size && at + size <= |b| && src != [] && n == Min(|src|, size - 1)
    requires c == (b[..at] + src[..n] + b[at + n..])[..at + n] + [NUL] + (b[..at] + src[..n] + b[at + n..])[at + n + 1..]
    ensures |c| == |b| && c[at..at + size] == Copied(b[at..at + size], src, size)
    ensures c[..at] == b[..at] && c[at + size..] == b[at + size..]
  {
    var r := src[..n] + [NUL];
    assert c == b[..at] + r + b[at + n + 1..] by {
      var d := b[..at] + src[..n] + b[at + n..];
      assert d[..at + n] == b[..at] + src[..n] && d[at + n + 1..] == b[at + n + 1..];
    }
    Spliced(b, r, at, size);
  }

  /** Part of a sequence replaced. */
  lemma {:induction false} Spliced(b: seq<char>, r: seq<char>, at: nat, size: nat)
    requires |r| <= size && at + size <= |b|
    ensures var c := b[..at] + r + b[at + |r|..];
            && |c| == |b| && c[..at] == b[..at] && c[at + size..] == b[at + size..]
            && c[at..at + size] == r + b[at..at + size][|r|..]
  {
  }

  /** memcpy into the part of `dst` that starts at `at`. */
  method Memcpy(dst: array<char>, at: nat, src: seq<char>)
    requires at + |src| <= dst.Length
    modifies dst
    ensures dst[..] == old(dst[..at]) + src + old(dst[at + |src|..])
  {
    forall k | 0 <= k < |src| {
      dst[at + k] := src[k];
    }
  }

  // ---- util.c trim_whitespace -----------------------------------------------------

  /** isspace and isblank of the C locale. */
  predicate IsSpace(c: char) { c == ' ' || '\t' <= c <= '\r' }

  predicate IsBlank(c: char) { c == ' ' || c == '\t' }

  function SkipBlanks(s: CString): (t: CString)
    ensures |t| <= |s| && t == s[|s| - |t|..] && (t != [] ==> !IsBlank(t[0]))
  {
    if s != [] && IsBlank(s[0]) then SkipBlanks(s[1..]) else s
  }

  predicate Blanks(w: CString) { forall i | 0 <= i < |w| :: w[i] == ' ' || w[i] == '\t' }

  /** All the blanks in front of a string are skipped, and nothing else. */
  lemma {:induction false} SkipBlanksIs(w: CString, t: CString)
    requires Blanks(w) && (t != [] ==> t[0] != ' ' && t[0] != '\t')
    ensures SkipBlanks(w + t) == t
  {
    if w == [] {
      assert w + t == t;
    } else {
      assert (w + t)[0] == w[0] && (w + t)[1..] == w[1..] + t;
      assert forall i | 0 <= i < |w| - 1 :: w[1..][i] == w[i + 1];
      SkipBlanksIs(w[1..], t);
    }
  }

  function RightTrim(s: CString): (t: CString)
    ensures |t| <= |s| && t == s[..|t|] && (t != [] ==> !IsSpace(t[|t| - 1]))
    ensures forall i | |t| <= i < |s| :: IsSpace(s[i])
  {
    if s != [] && IsSpace(s[|s| - 1]) then RightTrim(s[..|s| - 1]) else s
  }

  /** A character that is not white space is not trimmed away. */
  lemma {:induction false} RightTrimKeeps(s: CString, k: nat)
    requires k < |s| && !IsSpace(s[k])
    ensures k < |RightTrim(s)|
  {}

  lemma {:induction false} RightTrimIs(s: CString, n: nat)
    requires n <= |s| && (n > 0 ==> !IsSpace(s[n - 1])) && forall i | n <= i < |s| :: IsSpace(s[i])
    ensures RightTrim(s) == s[..n]
  {
    var m := |RightTrim(s)|;
    assert m > 0 ==> !IsSpace(s[m - 1]);
  }

  /** A character in front of the end of the string at `at` that stops the walk back. */
  ghost predicate HasStop(b: seq<char>, at: nat, low: nat)
    requires at <= |b|
  {
    SkipBlanks(Terminated(b[at..])) != [] ==> low < at + |Terminated(b[at..])| <= |b| && !IsSpace(b[low])
  }

  /** trim_whitespace on the string at `at` of a buffer whose bytes are `b`. The walk back from its
      end has no test for the start of the string: it relies on some character in front of the end,
      at `low`, that is not white space. It writes one NUL, behind `low`, unless nothing is left. */
  method TrimWhitespace(a: array<char>, at: nat, ghost b: seq<char>, ghost limit: nat, ghost low: nat)
    returns (start: nat, ghost cut: Option<nat>)
    requires b == a[..] && at <= limit < |b| && b[limit] == NUL
    requires HasStop(b, at, low)
    modifies a
    ensures at <= start <= limit && Terminated(b[start..]) == SkipBlanks(Terminated(b[at..]))
    ensures start + |Terminated(b[start..])| == at + |Terminated(b[at..])|
    ensures match cut
            case None => a[..] == b && SkipBlanks(Terminated(b[at..])) == []
            case Some(c) =>
              && low < c <= limit && c <= start + |Terminated(b[start..])|
              && a[..] == b[c := NUL] && CutsAfter(b, start, c)
  {
    start := AfterBlanks(a, at, b, limit);
    cut := None;
    var len := Strlen(a, start, b);
    if len != 0 {
      ghost var c := TrimEnd(a, start, len, b, low);
      cut := Some(c);
    }
  }

  /** The cut leaves the trimmed string, when there is anything but white space in it; it is always
      made behind the last character that is not white space, inside the string or in front of it. */
  ghost predicate CutsAfter(b: seq<char>, start: nat, c: nat)
    requires start <= |b|
  {
    var t := Terminated(b[start..]);
    && t != [] && (RightTrim(t) != [] ==> c == start + |RightTrim(t)|)
    && 0 < c <= |b| && !IsSpace(b[c - 1])
  }

  lemma {:induction false} TrimSays(b: seq<char>, start: nat, c: nat)
    requires start <= |b| && c < |b| && CutsAfter(b, start, c)
    ensures var t := Terminated(b[start..]);
            RightTrim(t) != [] ==> Terminated(b[c := NUL][start..]) == RightTrim(t)
  {
    if RightTrim(Terminated(b[start..])) != [] { CutSays(b, start, c); }
  }

  /** A string of white space, with white space in front of it, is left as it is. */
  lemma {:induction false} TrimSpares(b: seq<char>, start: nat, c: nat)
    requires 0 < start <= |b| && c < |b| && CutsAfter(b, start, c) && c <= start + |Terminated(b[start..])|
    requires RightTrim(Terminated(b[start..])) == [] && IsSpace(b[start - 1])
    ensures Terminated(b[c := NUL][start..]) == Terminated(b[start..])
  {
    var t := Terminated(b[start..]);
    assert forall k | start <= k < start + |t| :: b[k] == t[k - start];
    assert b[c := NUL][start..] == b[start..];
  }

  method Strlen(a: array<char>, start: nat, ghost b: seq<char>) returns (len: nat)
    requires b == a[..] && start <= |b|
    ensures len == |Terminated(b[start..])|
  {
    assert a[start..] == b[start..];
    len := |Terminated(a[start..])|;
  }

  lemma {:induction false} CutSays(b: seq<char>, start: nat, cut: nat)
    requires start <= cut < |b| && cut <= start + |Terminated(b[start..])|
    ensures Terminated(b[cut := NUL][start..]) == Terminated(b[start..])[..cut - start]
  {
    var c := b[cut := NUL][start..];
    assert c[..cut - start] == Terminated(b[start..])[..cut - start];
    TerminatedAt(c, cut - start);
  }

  method AfterBlanks(a: array<char>, at: nat, ghost b: seq<char>, ghost limit: nat) returns (start: nat)
    requires b == a[..] && at <= limit < |b| && b[limit] == NUL
    ensures at <= start <= limit && Terminated(b[start..]) == SkipBlanks(Terminated(b[at..]))
    ensures start + |Terminated(b[start..])| == at + |Terminated(b[at..])| <= limit
  {
    start := at;
    while IsBlank(a[start])
      invariant at <= start <= limit && forall k | at <= k < start :: IsBlank(b[k])
      decreases limit - start
    {
      start := start + 1;
    }
    StopsAt(b[at..], limit - at);
    BlanksSkipped(b, at, start);
  }

  lemma {:induction false} BlanksSkipped(b: seq<char>, at: nat, start: nat)
    requires at <= start < |b| && !IsBlank(b[start]) && forall k | at <= k < start :: IsBlank(b[k])
    ensures Terminated(b[start..]) == SkipBlanks(Terminated(b[at..]))
    ensures start + |Terminated(b[start..])| == at + |Terminated(b[at..])|
    decreases start - at
  {
    if at == start {
      NoBlank(b[at..]);
    } else {
      BlanksSkipped(b, at + 1, start);
      assert b[at..][1..] == b[at + 1..];
      BlankStep(b[at..]);
    }
  }

  lemma {:induction false} NoBlank(b: seq<char>)
    requires b != [] && !IsBlank(b[0])
    ensures SkipBlanks(Terminated(b)) == Terminated(b)
  {}

  lemma {:induction false} BlankStep(b: seq<char>)
    requires b != [] && IsBlank(b[0])
    ensures |Terminated(b)| == 1 + |Terminated(b[1..])| && SkipBlanks(Terminated(b)) == SkipBlanks(Terminated(b[1..]))
  {
    assert Terminated(b)[1..] == Terminated(b[1..]);
  }

  lemma {:induction false} StopsAt(b: seq<char>, n: nat)
    requires n < |b| && b[n] == NUL
    ensures |Terminated(b)| <= n
  {
    var t := Terminated(b);
    assert forall i | 0 <= i < |t| :: t[i] != NUL;
  }

  /** The walk back from the end of a non-empty string, and the NUL it leaves. */
  method TrimEnd(a: array<char>, start: nat, len: nat, ghost b: seq<char>, ghost low: nat) returns (ghost cut: nat)
    requires b == a[..] && start <= |b| && 0 < len == |Terminated(b[start..])| && start + len < |b|
    requires low < start + len && !IsSpace(b[low])
    modifies a
    ensures low < cut <= start + len && a[..] == b[cut := NUL] && !IsSpace(b[cut - 1])
    ensures var t := Terminated(b[start..]); RightTrim(t) != [] ==> cut == start + |RightTrim(t)|
  {
    ghost var t := Terminated(b[start..]);
    var end := LastNonSpace(a, start, len, low);
    cut := end + 1;
    assert forall k | 0 <= k < len :: t[k] == b[start + k];
    RightTrimIs(t, if end < start then 0 else cut - start);
    a[end + 1] := NUL;
  }

  method LastNonSpace(a: array<char>, start: nat, len: nat, ghost low: nat) returns (end: nat)
    requires 0 < len && start + len < a.Length && low < start + len && !IsSpace(a[low])
    ensures low <= end < start + len && !IsSpace(a[end])
    ensures forall i | end < i < start + len :: IsSpace(a[i])
  {
    end := start + len - 1;
    while IsSpace(a[end])
      invariant low <= end < start + len
      invariant forall i | end < i < start + len :: IsSpace(a[i])
      decreases end
    {
      end := end - 1;
    }
  }
}
