/**
 Dictionaries that stand at several paths of a configuration. A write into one shows at all
 of them; it is the write of `ConfigPaths` exactly when it shows at one path only, or
 changes nothing.
 */
module ConfigSharing {
  import opened SharedTypes
  import opened ConfigMerge
  import opened ConfigPaths
  import opened ConfigShapes

  // ----- one object, one picture -----

  lemma {:induction false} OnePicture(s: Shape, t: Shape)
    requires Shows(s) && Shows(t) && ItemOf(s) == ItemOf(t)
    ensures s == t
  {
    if s.Node? {
      assert ItemsOf(s.entries).Keys == s.entries.Keys && ItemsOf(t.entries).Keys == t.entries.Keys;
      forall k | k in s.entries ensures s.entries[k] == t.entries[k] {
        assert ItemsOf(s.entries)[k] == ItemsOf(t.entries)[k];
        OnePicture(s.entries[k], t.entries[k]);
      }
    }
  }

  /** The picture of an object inside a picture. */
  lemma {:induction false} Inside(s: Shape, d: Mapping) returns (u: Shape)
    requires Shows(s) && d in Objects(s)
    ensures u.Node? && u.mapping == d && Shows(u) && Objects(u) <= Objects(s)
    ensures u == s || u < s
  {
    if s.mapping == d {
      u := s;
    } else {
      var k :| k in s.entries && d in Objects(s.entries[k]);
      u := Inside(s.entries[k], d);
      assert s.entries[k] < s;
    }
  }

  /** No dictionary contains itself. */
  lemma NotInItself(s: Shape, k: string)
    requires Shows(s) && s.Node? && k in s.entries
    ensures s.mapping !in Objects(s.entries[k])
  {
    if s.mapping in Objects(s.entries[k]) {
      var u := Inside(s.entries[k], s.mapping);
      OnePicture(u, s);
    }
  }

  // ----- a write and where it shows -----

  /** The picture after an entry of the dictionary `d` is set, wherever `d` stands. */
  function Written(s: Shape, d: Mapping, key: string, x: Shape): Shape {
    match s
    case Text(_) => s
    case Node(m, entries) =>
      var below := map k | k in entries :: Written(entries[k], d, key, x);
      Node(m, if m == d then below[key := x] else below)
  }

  lemma {:induction false} WrittenElsewhere(s: Shape, d: Mapping, key: string, x: Shape)
    requires d !in Objects(s)
    ensures Written(s, d, key, x) == s
  {
    if s.Node? {
      forall k | k in s.entries ensures Written(s.entries[k], d, key, x) == s.entries[k] {
        WrittenElsewhere(s.entries[k], d, key, x);
      }
      assert Written(s, d, key, x).entries == s.entries;
    }
  }

  /** At the dictionary itself only the one entry changes. */
  lemma WrittenHere(u: Shape, key: string, x: Shape)
    requires Shows(u) && u.Node?
    ensures Written(u, u.mapping, key, x) == Node(u.mapping, u.entries[key := x])
  {
    forall k | k in u.entries ensures Written(u.entries[k], u.mapping, key, x) == u.entries[k] {
      NotInItself(u, k);
      WrittenElsewhere(u.entries[k], u.mapping, key, x);
    }
    assert (map k | k in u.entries :: Written(u.entries[k], u.mapping, key, x)) == u.entries;
  }

  lemma WrittenItem(s: Shape, d: Mapping, key: string, x: Shape)
    ensures ItemOf(Written(s, d, key, x)) == ItemOf(s)
  {
  }

  lemma {:induction false} WrittenWithin(s: Shape, d: Mapping, key: string, x: Shape)
    ensures Objects(Written(s, d, key, x)) <= Objects(s) + Objects(x)
  {
    if s.Node? {
      var w := Written(s, d, key, x);
      forall o | o in Objects(w) ensures o in Objects(s) + Objects(x) {
        if o != s.mapping {
          var k :| k in w.entries && o in Objects(w.entries[k]);
          if !(s.mapping == d && k == key) {
            WrittenWithin(s.entries[k], d, key, x);
          }
        }
      }
    }
  }

  /** Wherever `d` stands in the picture, `u` is what it shows there. */
  ghost predicate Only(s: Shape, d: Mapping, u: Shape) {
    s.Node? ==>
      && (s.mapping == d ==> s == u)
      && forall k :: k in s.entries ==> Only(s.entries[k], d, u)
  }

  lemma {:induction false} OnlyOne(s: Shape, u: Shape)
    requires Shows(s) && Shows(u) && u.Node?
    ensures Only(s, u.mapping, u)
  {
    if s.Node? {
      if s.mapping == u.mapping {
        OnePicture(s, u);
      }
      forall k | k in s.entries ensures Only(s.entries[k], u.mapping, u) {
        OnlyOne(s.entries[k], u);
      }
    }
  }

  /** After the write the objects hold what `Written` shows. */
  lemma {:induction false} WrittenShows(s: Shape, u: Shape, key: string, x: Shape)
    requires u.Node? && ShowsBut(s, u.mapping) && Only(s, u.mapping, u) && Shows(x)
    requires u.mapping.items == ItemsOf(u.entries)[key := ItemOf(x)]
    requires forall k :: k in u.entries ==> u.mapping !in Objects(u.entries[k])
    ensures Shows(Written(s, u.mapping, key, x))
  {
    var d := u.mapping;
    if s.Node? {
      var w := Written(s, d, key, x);
      forall k | k in s.entries
        ensures Shows(Written(s.entries[k], d, key, x))
        ensures ItemOf(Written(s.entries[k], d, key, x)) == ItemOf(s.entries[k])
      {
        WrittenShows(s.entries[k], u, key, x);
        WrittenItem(s.entries[k], d, key, x);
      }
      assert w.mapping.items == ItemsOf(w.entries);
    }
  }

  /** Setting an entry of the dictionary `d` that stands in a picture. */
  method StoreShared(d: Mapping, key: string, item: Item, ghost s: Shape, ghost x: Shape) returns (ghost s': Shape)
    requires Shows(s) && d in Objects(s)
    requires Shows(x) && ItemOf(x) == item && d !in Objects(x)
    modifies d
    ensures Shows(s') && s' == Written(s, d, key, x)
    ensures d.items == old(d.items)[key := item]
  {
    ghost var u := Inside(s, d);
    OnlyOne(s, u);
    ShowsApart(s, d);
    forall k | k in u.entries ensures d !in Objects(u.entries[k]) {
      NotInItself(u, k);
    }
    d.items := d.items[key := item];
    WrittenShows(s, u, key, x);
    s' := Written(s, d, key, x);
  }

  // ----- when a write is the write at one path -----

  /** It stands at no other path. */
  ghost predicate Alone(s: Shape, d: Mapping, path: Path) {
    forall q :: Stands(s, d, q) ==> q == path
  }

  lemma {:induction false} StandsSomewhere(s: Shape, d: Mapping) returns (q: Path)
    requires d in Objects(s)
    ensures Stands(s, d, q)
  {
    if s.mapping == d {
      q := [];
    } else {
      var k :| k in s.entries && d in Objects(s.entries[k]);
      q := StandsSomewhere(s.entries[k], d);
      assert ([k] + q)[1..] == q;
      q := [k] + q;
    }
  }

  lemma AloneBelow(s: Shape, d: Mapping, path: Path, k: string)
    requires s.Node? && k in s.entries && Alone(s, d, path)
    ensures path != [] && path[0] == k ==> Alone(s.entries[k], d, path[1..])
    ensures path != [] && path[0] != k ==> d !in Objects(s.entries[k])
    ensures path == [] ==> d !in Objects(s.entries[k])
  {
    forall q | Stands(s.entries[k], d, q) ensures path != [] && path[0] == k && q == path[1..] {
      assert ([k] + q)[1..] == q;
      assert Stands(s, d, [k] + q);
    }
    if d in Objects(s.entries[k]) {
      var q := StandsSomewhere(s.entries[k], d);
    }
  }

  lemma {:induction false} AloneIsPut(s: Shape, d: Mapping, path: Path, key: string, x: Shape)
    requires Stands(s, d, path) && Alone(s, d, path)
    ensures Written(s, d, key, x) == Put(s, path, key, x)
  {
    forall k | k in s.entries
      ensures Written(s.entries[k], d, key, x)
              == if path != [] && path[0] == k then Put(s.entries[k], path[1..], key, x) else s.entries[k]
    {
      AloneBelow(s, d, path, k);
      if path != [] && path[0] == k {
        AloneIsPut(s.entries[k], d, path[1..], key, x);
      } else {
        WrittenElsewhere(s.entries[k], d, key, x);
      }
    }
    assert path != [] ==> s.mapping != d by {
      assert Stands(s, d, []) <==> s.mapping == d;
    }
    assert Written(s, d, key, x).entries == Put(s, path, key, x).entries;
  }

  /** Two paths to one dictionary part before they reach it. */
  lemma {:induction false} StandsApart(s: Shape, d: Mapping, p: Path, q: Path)
    requires Shows(s) && Stands(s, d, p) && Stands(s, d, q) && p != q
    ensures Apart(p, q)
  {
    if p == [] {
      NotInItself(s, q[0]);
      UnderWithin(s.entries[q[0]], q[1..]);
    } else if q == [] {
      NotInItself(s, p[0]);
      UnderWithin(s.entries[p[0]], p[1..]);
    } else if p[0] == q[0] {
      assert p == [p[0]] + p[1..] && q == [q[0]] + q[1..];
      StandsApart(s.entries[p[0]], d, p[1..], q[1..]);
    }
  }

  lemma {:induction false} ApartLonger(p: Path, q: Path, key: string)
    requires Apart(p, q)
    ensures Apart(p + [key], q + [key])
  {
    if p[0] == q[0] {
      ApartLonger(p[1..], q[1..], key);
    }
    assert (p + [key])[1..] == p[1..] + [key] && (q + [key])[1..] == q[1..] + [key];
  }

  /** The write shows at every path where the dictionary stands. */
  lemma {:induction false} WrittenAt(s: Shape, d: Mapping, q: Path, key: string, x: Shape)
    requires Shows(s) && Stands(s, d, q)
    ensures At(ValueOf(Written(s, d, key, x)), q + [key]) == Some(ValueOf(x))
  {
    if q == [] {
      WrittenHere(s, key, x);
      assert [key][1..] == [];
    } else {
      var c := s.entries[q[0]];
      NotInItself(s, q[0]);
      UnderWithin(c, q[1..]);
      assert s.mapping != d;
      WrittenAt(c, d, q[1..], key, x);
      assert (q + [key])[1..] == q[1..] + [key];
      assert Written(s, d, key, x).entries[q[0]] == Written(c, d, key, x);
    }
  }

  /** Writing what is there already changes no value. */
  lemma {:induction false} WrittenSame(s: Shape, d: Mapping, u: Shape, key: string, x: Shape)
    requires Only(s, d, u) && u.Node? && key in u.entries && ValueOf(u.entries[key]) == ValueOf(x)
    ensures ValueOf(Written(s, d, key, x)) == ValueOf(s)
  {
    if s.Node? {
      forall k | k in s.entries ensures ValueOf(Written(s.entries[k], d, key, x)) == ValueOf(s.entries[k]) {
        WrittenSame(s.entries[k], d, u, key, x);
      }
      assert ValueOf(Written(s, d, key, x)).entries == ValueOf(s).entries;
    }
  }

  lemma {:induction false} WithPathSame(d: Entries, path: Path, v: Value)
    requires path != [] && At(Dict(d), path) == Some(v)
    ensures WithPath(d, path, v) == d
    decreases |path|
  {
    if |path| > 1 {
      WithPathSame(Entered(d, path[0]), path[1..], v);
    } else {
      assert path[1..] == [];
    }
  }

  /** A write is the write at one path exactly when the dictionary stands at no other path, or
      nothing changes. */
  lemma WriteIsPathIff(s: Shape, d: Mapping, path: Path, key: string, x: Shape)
    requires Shows(s) && Stands(s, d, path)
    ensures s.Node?
    ensures ValueOf(Written(s, d, key, x)) == Dict(WithPath(ValueOf(s).entries, path + [key], ValueOf(x)))
      <==> Alone(s, d, path) || At(ValueOf(s), path + [key]) == Some(ValueOf(x))
  {
    var u := Under(s, path);
    UnderShows(s, path);
    OnlyOne(s, u);
    AtIsUnder(s, path);
    AtDeeper(ValueOf(s), path, key);
    if Alone(s, d, path) {
      AloneIsPut(s, d, path, key, x);
      PutValue(s, path, key, x);
    } else if At(ValueOf(s), path + [key]) == Some(ValueOf(x)) {
      WrittenSame(s, d, u, key, x);
      WithPathSame(ValueOf(s).entries, path + [key], ValueOf(x));
    } else {
      var q :| Stands(s, d, q) && q != path;
      ShowsElsewhere(s, d, path, q, key, x);
    }
  }

  lemma ShowsElsewhere(s: Shape, d: Mapping, path: Path, q: Path, key: string, x: Shape)
    requires Shows(s) && s.Node? && Stands(s, d, path) && Stands(s, d, q) && q != path
    requires At(ValueOf(s), path + [key]) != Some(ValueOf(x))
    ensures ValueOf(Written(s, d, key, x)) != Dict(WithPath(ValueOf(s).entries, path + [key], ValueOf(x)))
  {
    StandsApart(s, d, path, q);
    ApartLonger(path, q, key);
    WrittenAt(s, d, q, key, x);
    ApartKeeps(ValueOf(s).entries, path + [key], ValueOf(x), q + [key]);
    UnderShows(s, path);
    UnderShows(s, q);
    OnePicture(Under(s, path), Under(s, q));
    AtIsUnder(s, path);
    AtIsUnder(s, q);
    AtDeeper(ValueOf(s), path, key);
    AtDeeper(ValueOf(s), q, key);
  }

  /** In a tree every dictionary stands at one path. */
  lemma TreeIsAlone(s: Shape, d: Mapping, path: Path)
    requires Tree(s) && Stands(s, d, path)
    ensures Alone(s, d, path)
  {
    forall q | Stands(s, d, q) ensures q == path {
      SamePath(s, d, path, q);
    }
  }

  lemma {:induction false} SamePath(s: Shape, d: Mapping, p: Path, q: Path)
    requires Tree(s) && Stands(s, d, p) && Stands(s, d, q)
    ensures p == q
  {
    if p != [] {
      UnderWithin(s.entries[p[0]], p[1..]);
    }
    if q != [] {
      UnderWithin(s.entries[q[0]], q[1..]);
    }
    if p != [] && q != [] {
      assert p[0] == q[0];
      SamePath(s.entries[p[0]], d, p[1..], q[1..]);
      assert p == [p[0]] + p[1..] && q == [q[0]] + q[1..];
    }
  }
}
