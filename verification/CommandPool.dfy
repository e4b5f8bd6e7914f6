/** command.c: the table of commands, kept sorted for a binary search that ignores case. */
module CommandPool {
  import opened CStrings

  datatype Handler =
    | Abor | Acct | Allo | Cdup | Clnt | Cwd | Feat | List | Mdtm | Mkd | Noop | Opts | Pass | Pasv | Pwd
    | Quit | Rest | Dele | Retr | Rmd | Size | Syst | Type | User | Stor

  /** cmd_handler_t */
  datatype Entry = Entry(name: CString, handler: Handler, needs_login: bool, needs_data: bool, needs_arg: bool)

  // ---- strcasecmp -----------------------------------------------------------------

  function Lower(c: char): char { if 'A' <= c <= 'Z' then (c as int + 32) as char else c }

  /** The sign of strcasecmp. */
  function Compare(a: CString, b: CString): (sign: int)
    ensures -1 <= sign <= 1
  {
    if a == [] && b == [] then 0
    else if a == [] then -1
    else if b == [] then 1
    else if Lower(a[0]) < Lower(b[0]) then -1
    else if Lower(a[0]) > Lower(b[0]) then 1
    else Compare(a[1..], b[1..])
  }

  /** The order is total: swapping the strings swaps the sign, and it is transitive. */
  lemma {:induction false} CompareSwaps(a: CString, b: CString)
    ensures Compare(a, b) == -Compare(b, a)
  {
    if a != [] && b != [] { CompareSwaps(a[1..], b[1..]); }
  }

  lemma {:induction false} CompareChains(a: CString, b: CString, c: CString)
    requires Compare(a, b) <= 0 && Compare(b, c) <= 0
    ensures Compare(a, c) <= 0
    ensures Compare(a, c) == 0 ==> Compare(a, b) == 0 && Compare(b, c) == 0
    ensures Compare(a, b) == 0 && Compare(b, c) == 0 ==> Compare(a, c) == 0
  {
    if a != [] && b != [] && c != [] && Lower(a[0]) == Lower(b[0]) == Lower(c[0]) {
      CompareChains(a[1..], b[1..], c[1..]);
    }
  }

  /** Strings equal up to case have the same length and the same letters, up to case. */
  lemma {:induction false} SameLetters(a: CString, b: CString, i: nat)
    requires Compare(a, b) == 0
    ensures |a| == |b| && (i < |a| ==> Lower(a[i]) == Lower(b[i]))
  {
    if a != [] && b != [] { SameLetters(a[1..], b[1..], if i > 0 then i - 1 else 0); }
  }

  function Letter(s: CString, i: nat): int { if i < |s| then Lower(s[i]) as int else 0 }

  /** Two strings are equal to strcasecmp exactly when they are letter for letter the same once every
      upper-case letter of the alphabet is replaced by its lower-case one. */
  lemma {:induction false} EqualIff(a: CString, b: CString)
    ensures Compare(a, b) == 0 <==> |a| == |b| && forall i | 0 <= i < |a| :: SameLetter(a[i], b[i])
  {
    if a != [] && b != [] {
      EqualIff(a[1..], b[1..]);
      LowerIs(a[0], b[0]);
      if SameLetter(a[0], b[0]) {
        assert forall i | 1 <= i < |a| :: a[i] == a[1..][i - 1];
        assert forall i | 1 <= i < |b| :: b[i] == b[1..][i - 1];
      }
      assert forall i | 0 <= i < |a| - 1 :: a[1..][i] == a[i + 1];
      assert forall i | 0 <= i < |b| - 1 :: b[1..][i] == b[i + 1];
    }
  }

  const UPPER := "ABCDEFGHIJKLMNOPQRSTUVWXYZ"
  const LOWER := "abcdefghijklmnopqrstuvwxyz"

  /** The same character, or the two cases of one letter. */
  ghost predicate SameLetter(c: char, d: char)
  {
    c == d || exists k | 0 <= k < 26 :: (c == UPPER[k] && d == LOWER[k]) || (c == LOWER[k] && d == UPPER[k])
  }

  lemma {:induction false} LowerIs(c: char, d: char)
    ensures Lower(c) == Lower(d) <==> SameLetter(c, d)
  {
    Alphabet();
    if Lower(c) == Lower(d) && c != d {
      var k := if 'A' <= c <= 'Z' then c as int - 65 else d as int - 65;
      assert 0 <= k < 26;
      assert UPPER[k] as int == 65 + k && LOWER[k] as int == 97 + k;
    }
  }

  lemma {:induction false} Alphabet()
    ensures |UPPER| == |LOWER| == 26
    ensures forall k | 0 <= k < 26 :: UPPER[k] as int == 65 + k && LOWER[k] as int == 97 + k
  {}

  // ---- Lookup ---------------------------------------------------------------------

  predicate Matches(e: Entry, key: CString) { Compare(key, e.name) == 0 }

  /** A linear scan for the first entry with this name, ignoring case. */
  function Lookup(table: seq<Entry>, key: CString): (r: Option<Entry>)
    ensures r.Some? ==> r.value in table && Matches(r.value, key)
    ensures r == None ==> forall e | e in table :: !Matches(e, key)
  {
    if table == [] then None else if Matches(table[0], key) then Some(table[0]) else Lookup(table[1..], key)
  }

  ghost predicate Sorted(s: seq<Entry>)
  {
    forall i, j | 0 <= i < j < |s| :: Compare(s[i].name, s[j].name) <= 0
  }

  /** No name appears twice. */
  ghost predicate Unambiguous(s: seq<Entry>)
  {
    forall d, e | d in s && e in s && Compare(d.name, e.name) == 0 :: d == e
  }

  /** Which of two orders of an unambiguous table is scanned makes no difference. */
  lemma {:induction false} LookupIgnoresOrder(s: seq<Entry>, t: seq<Entry>, key: CString)
    requires multiset(s) == multiset(t) && Unambiguous(s)
    ensures Lookup(s, key) == Lookup(t, key)
  {
    var a, b := Lookup(s, key), Lookup(t, key);
    assert forall e :: e in s <==> e in multiset(s);
    assert forall e :: e in t <==> e in multiset(t);
    if a.Some? && b.Some? {
      SameName(a.value, b.value, key);
    }
  }

  lemma {:induction false} SameName(d: Entry, e: Entry, key: CString)
    requires Matches(d, key) && Matches(e, key)
    ensures Compare(d.name, e.name) == 0
  {
    CompareSwaps(key, d.name);
    CompareChains(d.name, key, e.name);
  }

  // ---- qsort ----------------------------------------------------------------------

  /** Where a sorted table takes a new entry. */
  function Insert(s: seq<Entry>, e: Entry): (r: seq<Entry>)
    ensures multiset(r) == multiset(s) + multiset{e}
    decreases |s|
  {
    if s == [] || Compare(s[|s| - 1].name, e.name) <= 0 then s + [e]
    else
      var front, last := s[..|s| - 1], s[|s| - 1];
      assert s == front + [last];
      Insert(front, e) + [last]
  }

  lemma {:induction false} InsertKeepsSorted(s: seq<Entry>, e: Entry)
    requires Sorted(s)
    ensures Sorted(Insert(s, e))
    decreases |s|
  {
    if s == [] {
    } else if Compare(s[|s| - 1].name, e.name) <= 0 {
      forall i | 0 <= i < |s| ensures Compare(s[i].name, e.name) <= 0 {
        if i < |s| - 1 { CompareChains(s[i].name, s[|s| - 1].name, e.name); }
      }
    } else {
      var front, last := s[..|s| - 1], s[|s| - 1];
      InsertKeepsSorted(front, e);
      CompareSwaps(last.name, e.name);
      var r := Insert(front, e);
      forall i | 0 <= i < |r| ensures Compare(r[i].name, last.name) <= 0 {
        assert r[i] in multiset(r);
        assert r[i] in front || r[i] == e;
      }
    }
  }

  /** qsort, as far as its callers can tell: some sorted permutation. */
  method Qsort(s: seq<Entry>) returns (r: seq<Entry>)
    ensures Sorted(r) && multiset(r) == multiset(s)
  {
    r := [];
    for k := 0 to |s|
      invariant Sorted(r) && multiset(r) == multiset(s[..k])
    {
      InsertKeepsSorted(r, s[k]);
      assert s[..k + 1] == s[..k] + [s[k]];
      r := Insert(r, s[k]);
    }
    assert s[..|s|] == s;
  }

  // ---- The pool -------------------------------------------------------------------

  const DEFAULT_CMD_SIZE := 16

  class Pool {
    var pool: array<Entry>
    var num_commands: nat
    ghost var added: seq<Entry>   // everything add_command_list was ever given

    ghost predicate Valid()
      reads this, pool
    {
      && 0 < pool.Length && num_commands <= pool.Length
      && multiset(pool[..num_commands]) == multiset(added)
    }

    /** Entries in force, in order. */
    ghost function Contents(): seq<Entry>
      requires Valid()
      reads this, pool
    {
      pool[..num_commands]
    }

    /** init_command_pool */
    constructor (filler: Entry)
      ensures Valid() && fresh(pool) && added == [] && pool.Length == DEFAULT_CMD_SIZE
    {
      pool := new Entry[DEFAULT_CMD_SIZE](_ => filler);
      num_commands, added := 0, [];
    }

    /** realloc to twice the size. */
    method Grow(filler: Entry)
      requires Valid()
      modifies `pool
      ensures fresh(pool) && pool.Length == 2 * old(pool.Length) && pool[..num_commands] == old(pool[..num_commands])
    {
      var bigger := new Entry[2 * pool.Length](_ => filler);
      forall i | 0 <= i < num_commands {
        bigger[i] := pool[i];
      }
      pool := bigger;
    }

    /** add_command: doubles the pool when it is full. */
    method AddCommand(e: Entry)
      requires Valid()
      modifies this, pool
      ensures Valid() && added == old(added) + [e] && Contents() == old(Contents()) + [e]
      ensures pool == old(pool) || fresh(pool)
      ensures pool.Length == old(pool.Length) * if old(num_commands) < old(pool.Length) then 1 else 2
    {
      ghost var was := Contents();
      if num_commands >= pool.Length {
        Grow(e);
      }
      pool[num_commands] := e;
      num_commands := num_commands + 1;
      added := added + [e];
      assert pool[..num_commands] == was + [e];
    }

    /** add_command_list */
    method AddCommandList(list: seq<Entry>)
      requires Valid()
      modifies this, pool
      ensures Valid() && added == old(added) + list && Sorted(Contents())
      ensures pool == old(pool) || fresh(pool)
    {
      AddAll(list);
      SortPool();
    }

    method AddAll(list: seq<Entry>)
      requires Valid()
      modifies this, pool
      ensures Valid() && added == old(added) + list
      ensures pool == old(pool) || fresh(pool)
    {
      var k := 0;
      while k < |list|
        invariant 0 <= k <= |list| && Valid() && added == old(added) + list[..k]
        invariant pool == old(pool) || fresh(pool)
      {
        AddCommand(list[k]);
        OneMore(old(added), list, k);
        k := k + 1;
      }
      assert list[..k] == list;
    }

    lemma {:induction false} OneMore(before: seq<Entry>, list: seq<Entry>, k: nat)
      requires k < |list|
      ensures before + list[..k] + [list[k]] == before + list[..k + 1]
    {}

    method SortPool()
      requires Valid()
      modifies pool
      ensures Valid() && Sorted(Contents())
    {
      var sorted := Qsort(pool[..num_commands]);
      assert |sorted| == num_commands by { assert |multiset(sorted)| == |multiset(pool[..num_commands])|; }
      forall i | 0 <= i < num_commands {
        pool[i] := sorted[i];
      }
      assert pool[..num_commands] == sorted;
    }

    /** bsearch: finds an entry exactly when a linear scan of everything ever added would, and the
        same one when no name was added twice. */
    method Bsearch(key: CString) returns (r: Option<Entry>)
      requires Valid() && Sorted(Contents())
      ensures r.Some? <==> Lookup(added, key).Some?
      ensures r.Some? ==> r.value in added && Matches(r.value, key)
      ensures Unambiguous(added) ==> r == Lookup(added, key)
    {
      ghost var s := Contents();
      assert forall e :: e in s <==> e in multiset(s);
      assert forall e :: e in added <==> e in multiset(added);
      var lo, hi := 0, num_commands;
      while lo < hi
        invariant 0 <= lo <= hi <= num_commands
        invariant forall i | 0 <= i < lo :: Compare(key, s[i].name) > 0
        invariant forall i | hi <= i < |s| :: Compare(key, s[i].name) < 0
      {
        var mid := (lo + hi) / 2;
        var sign := Compare(key, pool[mid].name);
        if sign == 0 {
          assert s[mid] in s;
          if Unambiguous(added) && Lookup(added, key).Some? {
            SameName(pool[mid], Lookup(added, key).value, key);
          }
          return Some(pool[mid]);
        } else if sign < 0 {
          BelowAll(s, mid, key);
          hi := mid;
        } else {
          AboveAll(s, mid, key);
          lo := mid + 1;
        }
      }
      assert forall e | e in s :: !Matches(e, key);
      return None;
    }
  }

  lemma {:induction false} BelowAll(s: seq<Entry>, mid: nat, key: CString)
    requires Sorted(s) && mid < |s| && Compare(key, s[mid].name) < 0
    ensures forall i | mid <= i < |s| :: Compare(key, s[i].name) < 0
  {
    forall i | mid < i < |s| ensures Compare(key, s[i].name) < 0 {
      CompareChains(key, s[mid].name, s[i].name);
    }
  }

  lemma {:induction false} AboveAll(s: seq<Entry>, mid: nat, key: CString)
    requires Sorted(s) && mid < |s| && Compare(key, s[mid].name) > 0
    ensures forall i | 0 <= i <= mid :: Compare(key, s[i].name) > 0
  {
    CompareSwaps(key, s[mid].name);
    forall i | 0 <= i < mid ensures Compare(key, s[i].name) > 0 {
      CompareChains(s[i].name, s[mid].name, key);
      CompareSwaps(key, s[i].name);
    }
  }
}
