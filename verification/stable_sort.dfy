/**
 Python's `sorted` and `min` with a `key` function, on sequences of (key, item)
 pairs: a stable ascending sort, and the first minimal element. Keys are the
 two-component tuples that the cohort manager's `score` functions return.
 */
module StableSort {
  import opened Sequences

  datatype Key = Key(major: int, minor: int) {
    /** Lexicographic order on tuples. */
    predicate Below(other: Key) {
      major < other.major || (major == other.major && minor < other.minor)
    }

    predicate AtMost(other: Key) {
      this == other || Below(other)
    }
  }

  predicate Ascending<T(==)>(s: seq<(Key, T)>) {
    forall i, j :: 0 <= i < j < |s| ==> s[i].0.AtMost(s[j].0)
  }

  /** No two different entries tie. */
  ghost predicate KeysIdentify<T(!new)>(s: seq<(Key, T)>) {
    forall e, f :: e in s && f in s && e.0 == f.0 ==> e == f
  }

  /** Puts `e` in front of the first entry whose key is not below its own. */
  function Insert<T>(e: (Key, T), s: seq<(Key, T)>): (r: seq<(Key, T)>)
    ensures multiset(r) == multiset([e]) + multiset(s)
    ensures |r| == |s| + 1
  {
    if s == [] then [e]
    else if s[0].0.Below(e.0) then
      assert s == [s[0]] + s[1..];
      [s[0]] + Insert(e, s[1..])
    else [e] + s
  }

  function Sort<T>(s: seq<(Key, T)>): (r: seq<(Key, T)>)
    ensures multiset(r) == multiset(s)
    ensures |r| == |s|
  {
    if s == [] then []
    else
      assert s == [s[0]] + s[1..];
      Insert(s[0], Sort(s[1..]))
  }

  lemma {:induction false} InsertAscends<T>(e: (Key, T), s: seq<(Key, T)>)
    requires Ascending(s)
    ensures Ascending(Insert(e, s))
  {
    if s != [] && s[0].0.Below(e.0) {
      var r := Insert(e, s[1..]);
      InsertAscends(e, s[1..]);
      assert s == [s[0]] + s[1..];
      forall j | 0 <= j < |r| ensures s[0].0.AtMost(r[j].0) {
        assert r[j] in multiset(r);
        assert r[j] in multiset([e]) + multiset(s[1..]);
        if r[j] != e {
          assert r[j] in s[1..];
        }
      }
    }
  }

  lemma {:induction false} SortAscends<T>(s: seq<(Key, T)>)
    ensures Ascending(Sort(s))
  {
    if s != [] {
      SortAscends(s[1..]);
      InsertAscends(s[0], Sort(s[1..]));
    }
  }

  /** The entries with the given key, in order. */
  function WithKey<T>(s: seq<(Key, T)>, k: Key): seq<(Key, T)> {
    if s == [] then [] else (if s[0].0 == k then [s[0]] else []) + WithKey(s[1..], k)
  }

  lemma {:induction false} InsertIsStable<T>(e: (Key, T), s: seq<(Key, T)>, k: Key)
    ensures WithKey(Insert(e, s), k) == (if e.0 == k then [e] else []) + WithKey(s, k)
  {
    if s != [] && s[0].0.Below(e.0) {
      InsertIsStable(e, s[1..], k);
      assert ([s[0]] + Insert(e, s[1..]))[1..] == Insert(e, s[1..]);
    } else {
      assert ([e] + s)[1..] == s;
    }
  }

  /** Entries that tie stay in the order in which they came. */
  lemma {:induction false} SortIsStable<T>(s: seq<(Key, T)>, k: Key)
    ensures WithKey(Sort(s), k) == WithKey(s, k)
  {
    if s != [] {
      SortIsStable(s[1..], k);
      InsertIsStable(s[0], Sort(s[1..]), k);
    }
  }

  /** Two ascending arrangements of the same entries coincide when no two of them tie. */
  lemma {:induction false} AscendingIsUnique<T(!new)>(s: seq<(Key, T)>, r: seq<(Key, T)>)
    requires multiset(s) == multiset(r) && KeysIdentify(s)
    requires Ascending(s) && Ascending(r)
    ensures s == r
  {
    PermutedMembers(s, r);
    if s != [] {
      assert s[0] in r && r[0] in s;
      assert s[0].0.AtMost(r[0].0) && r[0].0.AtMost(s[0].0);
      assert s[0] == r[0];
      WithoutFirst(s);
      WithoutFirst(r);
      AscendingIsUnique(s[1..], r[1..]);
    }
  }

  /** Sorting forgets the input order when no two entries tie. */
  lemma SortIgnoresOrder<T(!new)>(s: seq<(Key, T)>, r: seq<(Key, T)>)
    requires multiset(s) == multiset(r) && KeysIdentify(s)
    ensures Sort(s) == Sort(r)
  {
    SortAscends(s);
    SortAscends(r);
    PermutedMembers(s, Sort(s));
    AscendingIsUnique(Sort(s), Sort(r));
  }

  /** Python's `min`: the first entry that no other entry is below. */
  method Minimum<T>(s: seq<(Key, T)>) returns (m: (Key, T))
    requires s != []
    ensures m == Sort(s)[0]
  {
    var i := |s| - 1;
    m := s[i];
    assert s[i..] == [s[i]];
    assert Sort(s[i..]) == [m];
    while i > 0
      invariant 0 <= i < |s|
      invariant m == Sort(s[i..])[0]
    {
      i := i - 1;
      assert s[i..][0] == s[i] && s[i..][1..] == s[i+1..];
      if !m.0.Below(s[i].0) {
        m := s[i];
      }
    }
    assert s[0..] == s;
  }
}
