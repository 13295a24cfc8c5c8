/**
 Configuration dictionaries as objects. A shape is a picture of nested dictionaries: which
 object stands at which path, and what it holds.
 */
module ConfigShapes {
  import opened SharedTypes
  import opened ConfigMerge
  import opened ConfigPaths

  datatype Item = Plain(scalar: Scalar) | Nested(mapping: Mapping)

  class Mapping {
    var items: map<string, Item>

    constructor (items: map<string, Item>)
      ensures this.items == items
    {
      this.items := items;
    }
  }

  datatype Shape = Text(scalar: Scalar) | Node(mapping: Mapping, entries: map<string, Shape>)

  function ValueOf(s: Shape): Value {
    match s
    case Text(t) => Leaf(t)
    case Node(_, entries) => Dict(map k | k in entries :: ValueOf(entries[k]))
  }

  function ItemOf(s: Shape): Item {
    match s
    case Text(t) => Plain(t)
    case Node(m, _) => Nested(m)
  }

  function ItemsOf(entries: map<string, Shape>): map<string, Item> {
    map k | k in entries :: ItemOf(entries[k])
  }

  ghost function Objects(s: Shape): set<Mapping> {
    match s
    case Text(_) => {}
    case Node(m, entries) => {m} + set k, o | k in entries && o in Objects(entries[k]) :: o
  }

  ghost function ObjectsAt(s: Shape, key: string): set<Mapping> {
    if s.Node? && key in s.entries then Objects(s.entries[key]) else {}
  }

  /** No object stands at two paths. */
  ghost predicate Tree(s: Shape) {
    s.Node? ==>
      && (forall k :: k in s.entries ==> Tree(s.entries[k]) && s.mapping !in Objects(s.entries[k]))
      && (forall j, k :: j in s.entries && k in s.entries && j != k ==> Objects(s.entries[j]) !! Objects(s.entries[k]))
  }

  /** The objects hold what the picture shows. */
  ghost predicate Shows(s: Shape)
    reads Objects(s)
  {
    s.Node? ==>
      && s.mapping.items == ItemsOf(s.entries)
      && forall k :: k in s.entries ==> Shows(s.entries[k])
  }

  /** The path leads through dictionaries of the picture. */
  predicate Leads(s: Shape, path: Path) {
    path == [] || (s.Node? && path[0] in s.entries && Leads(s.entries[path[0]], path[1..]))
  }

  function Under(s: Shape, path: Path): Shape
    requires Leads(s, path)
  {
    if path == [] then s else Under(s.entries[path[0]], path[1..])
  }

  /** The picture with another one at the key of the dictionary at the path. */
  function Put(s: Shape, path: Path, key: string, x: Shape): Shape
    requires Leads(s, path) && Under(s, path).Node?
  {
    if path == [] then Node(s.mapping, s.entries[key := x])
    else Node(s.mapping, s.entries[path[0] := Put(s.entries[path[0]], path[1..], key, x)])
  }

  lemma {:induction false} UnderWithin(s: Shape, path: Path)
    requires Leads(s, path)
    ensures Objects(Under(s, path)) <= Objects(s)
    ensures Tree(s) ==> Tree(Under(s, path))
  {
    if path != [] {
      UnderWithin(s.entries[path[0]], path[1..]);
    }
  }

  lemma {:induction false} UnderShows(s: Shape, path: Path)
    requires Leads(s, path) && Shows(s)
    ensures Shows(Under(s, path))
  {
    if path != [] {
      UnderShows(s.entries[path[0]], path[1..]);
    }
  }

  lemma {:induction false} UnderDeeper(s: Shape, path: Path, key: string)
    requires Leads(s, path)
    ensures Leads(s, path + [key]) <==> Under(s, path).Node? && key in Under(s, path).entries
    ensures Leads(s, path + [key]) ==> Under(s, path + [key]) == Under(s, path).entries[key]
  {
    if path != [] {
      UnderDeeper(s.entries[path[0]], path[1..], key);
      assert (path + [key])[1..] == path[1..] + [key];
    } else {
      assert [key][1..] == [];
    }
  }

  lemma {:induction false} UnderPut(s: Shape, path: Path, key: string, x: Shape)
    requires Leads(s, path) && Under(s, path).Node?
    ensures Leads(Put(s, path, key, x), path)
    ensures var u := Under(s, path); Under(Put(s, path, key, x), path) == Node(u.mapping, u.entries[key := x])
  {
    if path != [] {
      UnderPut(s.entries[path[0]], path[1..], key, x);
    }
  }

  lemma {:induction false} PutWithin(s: Shape, path: Path, key: string, x: Shape)
    requires Leads(s, path) && Under(s, path).Node?
    ensures Objects(Put(s, path, key, x)) <= Objects(s) + Objects(x)
  {
    if path != [] {
      PutWithin(s.entries[path[0]], path[1..], key, x);
    }
  }

  /** What replaces an entry may stand on objects of that entry, but of no other. */
  lemma {:induction false} PutIsTree(s: Shape, path: Path, key: string, x: Shape)
    requires Leads(s, path) && Under(s, path).Node?
    requires Tree(s) && Tree(x) && Objects(x) !! Objects(s) - ObjectsAt(Under(s, path), key)
    ensures Tree(Put(s, path, key, x))
  {
    if path != [] {
      var c := s.entries[path[0]];
      UnderWithin(c, path[1..]);
      assert ObjectsAt(Under(c, path[1..]), key) <= Objects(Under(c, path[1..]));
      PutIsTree(c, path[1..], key, x);
      PutWithin(c, path[1..], key, x);
      var put := Put(s, path, key, x);
      forall k | k in s.entries && k != path[0] ensures Objects(put.entries[k]) !! Objects(put.entries[path[0]]) {
        assert Objects(s.entries[k]) <= Objects(s) && Objects(s.entries[k]) !! Objects(c);
      }
    }
  }

  /** The picture as far as it does not depend on what `d` holds. */
  ghost predicate ShowsBut(s: Shape, d: Mapping)
    reads Objects(s) - {d}
  {
    s.Node? ==>
      && (s.mapping == d || s.mapping.items == ItemsOf(s.entries))
      && forall k :: k in s.entries ==> ShowsBut(s.entries[k], d)
  }

  lemma {:induction false} ShowsApart(s: Shape, d: Mapping)
    ensures Shows(s) ==> ShowsBut(s, d)
    ensures d !in Objects(s) && ShowsBut(s, d) ==> Shows(s)
  {
    if s.Node? {
      forall k | k in s.entries
        ensures Shows(s.entries[k]) ==> ShowsBut(s.entries[k], d)
        ensures d !in Objects(s.entries[k]) && ShowsBut(s.entries[k], d) ==> Shows(s.entries[k])
      {
        ShowsApart(s.entries[k], d);
      }
    }
  }

  /** Storing one item in one dictionary changes the picture at that place alone. */
  lemma {:induction false} PutShows(s: Shape, path: Path, d: Mapping, key: string, x: Shape)
    requires Leads(s, path) && Under(s, path).Node? && Under(s, path).mapping == d
    requires Tree(s) && ShowsBut(s, d) && Shows(x)
    requires var u := Under(s, path);
      d.items == ItemsOf(u.entries)[key := ItemOf(x)]
    ensures Shows(Put(s, path, key, x))
  {
    forall k | k in s.entries && d !in Objects(s.entries[k]) ensures Shows(s.entries[k]) {
      ShowsApart(s.entries[k], d);
    }
    if path != [] {
      var c := s.entries[path[0]];
      UnderWithin(c, path[1..]);
      PutShows(c, path[1..], d, key, x);
      assert ItemOf(Put(c, path[1..], key, x)) == ItemOf(c);
    }
  }

  lemma {:induction false} PutValue(s: Shape, path: Path, key: string, x: Shape)
    requires Leads(s, path) && Under(s, path).Node?
    ensures s.Node? && ValueOf(Put(s, path, key, x)) == Dict(WithPath(ValueOf(s).entries, path + [key], ValueOf(x)))
  {
    if path != [] {
      var c := s.entries[path[0]];
      PutValue(c, path[1..], key, x);
      assert (path + [key])[1..] == path[1..] + [key];
      assert Entered(ValueOf(s).entries, path[0]) == ValueOf(c).entries;
    }
  }

  /** Writing an empty dictionary on the way changes nothing about what the write leaves. */
  lemma {:induction false} OpeningIsFree(d: Entries, path: Path, keys: Path, v: Value)
    requires path != [] && path < keys
    requires var x := At(Dict(d), path); x.Some? ==> x.value.Leaf?
    ensures WithPath(WithPath(d, path, Dict(map[])), keys, v) == WithPath(d, keys, v)
    decreases |path|
  {
    var key, empty := path[0], WithPath(d, path, Dict(map[]));
    assert key == keys[0];
    if |path| > 1 {
      assert path[1..] < keys[1..];
      OpeningIsFree(Entered(d, key), path[1..], keys[1..], v);
    } else {
      assert path[1..] == [];
      assert Entered(empty, key) == Entered(d, key);
    }
    assert empty[key := Dict(map[])] == d[key := Dict(map[])];
  }

  lemma {:induction false} AtIsUnder(s: Shape, path: Path)
    requires Leads(s, path)
    ensures At(ValueOf(s), path) == Some(ValueOf(Under(s, path)))
  {
    if path != [] {
      AtIsUnder(s.entries[path[0]], path[1..]);
    }
  }

  lemma {:induction false} AtDeeper(v: Value, path: Path, key: string)
    ensures At(v, path + [key]) == match At(v, path)
            case Some(Dict(entries)) => if key in entries then Some(entries[key]) else None
            case _ => None
  {
    if path == [] {
      assert [key][1..] == [];
    } else {
      assert (path + [key])[1..] == path[1..] + [key];
      if v.Dict? && path[0] in v.entries {
        AtDeeper(v.entries[path[0]], path[1..], key);
      }
    }
  }

  /** The dictionary stands at the path. */
  predicate Stands(s: Shape, d: Mapping, path: Path) {
    Leads(s, path) && Under(s, path).Node? && Under(s, path).mapping == d
  }

  /** What a walk finds at a key of the dictionary it has reached. */
  lemma Here(s: Shape, path: Path, current: Mapping, key: string)
    requires Shows(s) && Stands(s, current, path)
    ensures current in Objects(s) && (key in current.items <==> key in Under(s, path).entries)
    ensures var u := Under(s, path);
      if key in current.items
      then key in u.entries && current.items[key] == ItemOf(u.entries[key])
           && At(ValueOf(s), path + [key]) == Some(ValueOf(u.entries[key]))
      else At(ValueOf(s), path + [key]) == None
    ensures key in current.items && current.items[key].Nested? ==>
              Stands(s, current.items[key].mapping, path + [key])
  {
    UnderShows(s, path);
    UnderWithin(s, path);
    AtIsUnder(s, path);
    AtDeeper(ValueOf(s), path, key);
    UnderDeeper(s, path, key);
  }

  /** The objects of a picture exist already, so a new one is none of them. */
  lemma Existing(s: Shape) returns (objects: set<Mapping>)
    ensures objects == Objects(s)
  {
    objects := Objects(s);
  }

  lemma EmptyShows(m: Mapping)
    requires m.items == map[]
    ensures var s := Node(m, map[]); Shows(s) && Tree(s) && Objects(s) == {m} && ValueOf(s) == Dict(map[])
  {
    assert ItemsOf(map[]) == map[];
  }

  lemma NextKey(path: Path, i: nat)
    requires i < |path|
    ensures path[..i + 1] == path[..i] + [path[i]] && path[..|path|] == path
  {
  }
}
