/**
 The loader's work on dictionaries that are changed in place, proved against the functions on
 values of `ConfigMerge` and `ConfigPaths`.
 */
module ConfigObjects {
  import opened ConfigMerge
  import opened ConfigPaths
  import opened ConfigShapes

  datatype Outcome = Done | ValueError | AttributeError

  /** A picture of a whole configuration. */
  ghost predicate Pictures(s: Shape, config: Mapping)
    reads Objects(s)
  {
    s.Node? && s.mapping == config && Tree(s) && Shows(s)
  }

  /** The walk has reached this dictionary of the configuration by this path. */
  ghost predicate Reached(s: Shape, config: Mapping, path: Path, current: Mapping)
    reads Objects(s)
  {
    Pictures(s, config) && Stands(s, current, path)
  }

  /** Stores an item in the dictionary that the walk has reached. */
  method Store(current: Mapping, key: string, item: Item, ghost config: Mapping, ghost s: Shape, ghost path: Path,
               ghost x: Shape)
    returns (ghost s': Shape)
    requires Reached(s, config, path, current)
    requires Tree(x) && Shows(x) && ItemOf(x) == item
    requires Objects(x) !! Objects(s) - ObjectsAt(Under(s, path), key)
    modifies current
    ensures Pictures(s', config)
    ensures Objects(s') <= Objects(s) + Objects(x)
    ensures ValueOf(s').entries == WithPath(ValueOf(s).entries, path + [key], ValueOf(x))
    ensures Leads(s', path + [key]) && Under(s', path + [key]) == x
    ensures current.items == old(current.items)[key := item]
  {
    UnderShows(s, path);
    UnderWithin(s, path);
    ShowsApart(s, current);
    current.items := current.items[key := item];
    PutShows(s, path, current, key, x);
    PutWithin(s, path, key, x);
    PutIsTree(s, path, key, x);
    PutValue(s, path, key, x);
    UnderPut(s, path, key, x);
    s' := Put(s, path, key, x);
    UnderDeeper(s', path, key);
  }

  /** Stores a new, empty dictionary there. */
  method StoreEmpty(current: Mapping, key: string, ghost config: Mapping, ghost s: Shape, ghost path: Path)
    returns (mapping: Mapping, ghost s': Shape)
    requires Reached(s, config, path, current)
    modifies current
    ensures fresh(mapping) && Objects(s') <= Objects(s) + {mapping}
    ensures Reached(s', config, path + [key], mapping) && Under(s', path + [key]) == Node(mapping, map[])
    ensures ValueOf(s').entries == WithPath(ValueOf(s).entries, path + [key], Dict(map[]))
    ensures current.items == old(current.items)[key := Nested(mapping)]
  {
    ghost var objects := Existing(s);
    mapping := new Mapping(map[]);
    EmptyShows(mapping);
    s' := Store(current, key, Nested(mapping), config, s, path, Node(mapping, map[]));
  }

  lemma Onward(s: Shape, config: Mapping, path: Path, current: Mapping, key: string)
    requires Reached(s, config, path, current)
    ensures current in Objects(s)
    ensures key in current.items && current.items[key].Nested? ==>
              Reached(s, config, path + [key], current.items[key].mapping)
    ensures !(key in current.items && current.items[key].Nested?) ==>
              var x := At(ValueOf(s), path + [key]); x.Some? ==> x.value.Leaf?
  {
    Here(s, path, current, key);
  }

  method SetNested(config: Mapping, keys: Path, value: Scalar, ghost s: Shape)
    returns (ghost s': Shape, ghost made: set<Mapping>)
    requires Pictures(s, config) && keys != []
    modifies Objects(s)
    ensures Pictures(s', config) && fresh(made) && Objects(s') <= Objects(s) + made
    ensures ValueOf(s').entries == WithPath(ValueOf(s).entries, keys, Leaf(value))
  {
    s', made := s, {};
    ghost var wanted := WithPath(ValueOf(s).entries, keys, Leaf(value));
    var current := config;
    for i := 0 to |keys| - 1
      invariant Reached(s', config, keys[..i], current) && fresh(made) && Objects(s') <= Objects(s) + made
      invariant WithPath(ValueOf(s').entries, keys, Leaf(value)) == wanted
    {
      var key := keys[i];
      NextKey(keys, i);
      Onward(s', config, keys[..i], current, key);
      if key !in current.items || !current.items[key].Nested? {
        OpeningIsFree(ValueOf(s').entries, keys[..i + 1], keys, Leaf(value));
        var mapping;
        mapping, s' := StoreEmpty(current, key, config, s', keys[..i]);
        assert fresh(made + {mapping});
        made := made + {mapping};
      }
      current := current.items[key].mapping;
    }
    var last := keys[|keys| - 1];
    NextKey(keys, |keys| - 1);
    Here(s', keys[..|keys| - 1], current, last);
    s' := Store(current, last, Plain(value), config, s', keys[..|keys| - 1], Text(value));
  }

  lemma AppliedStep(config: Entries, environ: seq<Override>, i: nat)
    requires i < |environ| && Proper(environ)
    ensures Applied(config, environ[i..])
            == Applied(WithPath(config, environ[i].path, Leaf(environ[i].value)), environ[i + 1..])
  {
    assert environ[i..][0] == environ[i] && environ[i..][1..] == environ[i + 1..];
  }

  method ApplyEnvOverrides(config: Mapping, environ: seq<Override>, ghost s: Shape)
    returns (ghost s': Shape, ghost made: set<Mapping>)
    requires Pictures(s, config) && Proper(environ)
    modifies Objects(s)
    ensures Pictures(s', config) && fresh(made) && Objects(s') <= Objects(s) + made
    ensures ValueOf(s').entries == Applied(ValueOf(s).entries, environ)
  {
    s', made := s, {};
    assert environ[0..] == environ && environ[|environ|..] == [];
    for i := 0 to |environ|
      invariant Pictures(s', config) && fresh(made) && Objects(s') <= Objects(s) + made
      invariant Applied(ValueOf(s').entries, environ[i..]) == Applied(ValueOf(s).entries, environ)
    {
      AppliedStep(ValueOf(s').entries, environ, i);
      ghost var more;
      s', more := SetNested(config, environ[i].path, environ[i].value, s');
      made := made + more;
    }
  }

  /** Fills in one default, opening its section first if that is missing. */
  method SetDefault(config: Mapping, x: Default, ghost s: Shape)
    returns (ok: bool, ghost s': Shape, ghost made: set<Mapping>)
    requires Pictures(s, config)
    modifies Objects(s)
    ensures Pictures(s', config) && fresh(made) && Objects(s') <= Objects(s) + made
    ensures ok == !Refuses(ValueOf(s).entries, x.section)
    ensures ValueOf(s').entries == if ok then WithDefault(ValueOf(s).entries, x) else ValueOf(s).entries
  {
    s', made := s, {};
    Here(s, [], config, x.section);
    assert [] + [x.section] == [x.section];
    var section;
    if x.section !in config.items {
      section, s' := StoreEmpty(config, x.section, config, s, []);
      made := {section};
    } else if config.items[x.section].Plain? {
      return false, s, {};
    } else {
      section := config.items[x.section].mapping;
    }
    DefaultIsWriting(ValueOf(s).entries, x);
    Here(s', [x.section], section, x.key);
    if x.key !in section.items {
      s' := Store(section, x.key, Plain(x.value), config, s', [x.section], Text(x.value));
    }
    ok := true;
  }

  method ApplyUserDataDefaults(config: Mapping, defaults: seq<Default>, ghost s: Shape)
    returns (outcome: Outcome, ghost s': Shape, ghost made: set<Mapping>)
    requires Pictures(s, config)
    modifies Objects(s)
    ensures Pictures(s', config) && fresh(made) && Objects(s') <= Objects(s) + made
    ensures outcome == if NoneRefused(ValueOf(s).entries, defaults) then Done else AttributeError
    ensures ValueOf(s').entries
            == WithDefaults(ValueOf(s).entries, defaults[..Accepted(ValueOf(s).entries, defaults)])
  {
    ghost var before := ValueOf(s).entries;
    s', made := s, {};
    for i := 0 to |defaults|
      invariant Pictures(s', config) && fresh(made) && Objects(s') <= Objects(s) + made
      invariant NoneRefused(before, defaults[..i])
      invariant ValueOf(s').entries == WithDefaults(before, defaults[..i])
    {
      var ok; ghost var more;
      NextDefault(before, defaults, i);
      ok, s', more := SetDefault(config, defaults[i], s');
      made := made + more;
      if !ok {
        return AttributeError, s', made;
      }
    }
    assert defaults[..|defaults|] == defaults;
    outcome := Done;
  }

  // ----- merging -----

  ghost predicate Separate(b: Shape, o: Shape) {
    Tree(b) && Tree(o) && Objects(b) !! Objects(o)
  }

  /** Entries that share no object. */
  ghost predicate Disjoint(entries: map<string, Shape>) {
    && (forall k :: k in entries ==> Tree(entries[k]))
    && (forall j, k :: j in entries && k in entries && j != k ==> Objects(entries[j]) !! Objects(entries[k]))
  }

  /** The part of a merge below the top: each entry stands on objects that were below its key
      before, or on new ones, and on nobody else's. */
  ghost predicate Forest(b: Shape, o: Shape, entries: map<string, Shape>, made: set<Mapping>) {
    && made !! Objects(b) && made !! Objects(o)
    && (forall k :: k in entries ==> Objects(entries[k]) <= ObjectsAt(b, k) + ObjectsAt(o, k) + made)
    && (Separate(b, o) ==> Disjoint(entries))
  }

  lemma AtWithin(s: Shape)
    ensures forall k :: ObjectsAt(s, k) <= Objects(s)
    ensures Tree(s) ==> forall j, k :: j != k ==> ObjectsAt(s, j) !! ObjectsAt(s, k)
  {
  }

  lemma SeparateBelow(b: Shape, o: Shape, key: string)
    requires b.Node? && o.Node? && key in b.entries && key in o.entries
    ensures Separate(b, o) ==> Separate(b.entries[key], o.entries[key])
  {
    AtWithin(b);
    AtWithin(o);
    assert ObjectsAt(b, key) <= Objects(b) && ObjectsAt(o, key) <= Objects(o);
  }

  lemma ForestStarts(b: Shape, o: Shape)
    requires b.Node?
    ensures Forest(b, o, b.entries, {})
  {
  }

  /** Other entries keep away from what was below the key. */
  lemma OthersKeepAway(b: Shape, o: Shape, entries: map<string, Shape>, made: set<Mapping>, key: string, k: string)
    requires Forest(b, o, entries, made) && Separate(b, o) && k in entries && k != key
    ensures Objects(entries[k]) !! ObjectsAt(b, key) + ObjectsAt(o, key)
    ensures Objects(entries[k]) <= Objects(b) + Objects(o) + made
  {
    AtWithin(b);
    AtWithin(o);
    assert ObjectsAt(b, k) !! ObjectsAt(b, key) && ObjectsAt(o, k) !! ObjectsAt(o, key);
  }

  lemma ReplacedDisjoint(entries: map<string, Shape>, key: string, t: Shape)
    requires Disjoint(entries) && Tree(t)
    requires forall k :: k in entries && k != key ==> Objects(entries[k]) !! Objects(t)
    ensures Disjoint(entries[key := t])
  {
  }

  lemma ForestGrows(b: Shape, o: Shape, entries: map<string, Shape>, made: set<Mapping>,
                    key: string, t: Shape, more: set<Mapping>)
    requires Forest(b, o, entries, made)
    requires Objects(t) <= ObjectsAt(b, key) + ObjectsAt(o, key) + more
    requires more !! Objects(b) && more !! Objects(o) && more !! made
    requires Separate(b, o) ==> Tree(t)
    ensures Forest(b, o, entries[key := t], made + more)
  {
    if Separate(b, o) {
      forall k | k in entries && k != key ensures Objects(entries[k]) !! Objects(t) {
        OthersKeepAway(b, o, entries, made, key, k);
      }
      ReplacedDisjoint(entries, key, t);
    }
  }

  lemma ForestUnderNew(b: Shape, o: Shape, entries: map<string, Shape>, made: set<Mapping>, top: Mapping)
    requires Forest(b, o, entries, made) && top !in Objects(b) && top !in Objects(o) && top !in made
    ensures Objects(Node(top, entries)) <= Objects(b) + Objects(o) + made + {top}
    ensures Separate(b, o) ==> Tree(Node(top, entries))
  {
    AtWithin(b);
    AtWithin(o);
  }

  /** Which object stands where after a merge: a dictionary is rebuilt where both layers have
      one; everything else in the result is the very object of one layer. */
  ghost predicate MergeOf(m: Shape, b: Shape, o: Shape) {
    if b.Node? && o.Node? then
      && m.Node? && m.entries.Keys == b.entries.Keys + o.entries.Keys
      && forall k :: k in m.entries ==>
           if k !in o.entries then m.entries[k] == b.entries[k]
           else if k !in b.entries then m.entries[k] == o.entries[k]
           else MergeOf(m.entries[k], b.entries[k], o.entries[k])
    else m == o
  }

  lemma {:induction false} MergeOfValue(m: Shape, b: Shape, o: Shape)
    requires MergeOf(m, b, o)
    ensures ValueOf(m) == Over(ValueOf(b), ValueOf(o))
  {
    if b.Node? && o.Node? {
      var left, right := ValueOf(m).entries, Over(ValueOf(b), ValueOf(o)).entries;
      assert left.Keys == right.Keys;
      forall k | k in left ensures left[k] == right[k] {
        if k in b.entries && k in o.entries {
          MergeOfValue(m.entries[k], b.entries[k], o.entries[k]);
        }
      }
    }
  }

  /** The entries are merged, but for the keys still to do. */
  ghost predicate MergedBut(b: Shape, o: Shape, entries: map<string, Shape>, todo: set<string>)
    requires b.Node? && o.Node?
  {
    && todo <= o.entries.Keys && entries.Keys == b.entries.Keys + (o.entries.Keys - todo)
    && forall k :: k in entries ==>
         if k in todo || k !in o.entries then k in b.entries && entries[k] == b.entries[k]
         else if k in b.entries then MergeOf(entries[k], b.entries[k], o.entries[k])
         else entries[k] == o.entries[k]
  }

  lemma AllMerged(b: Shape, o: Shape, entries: map<string, Shape>, top: Mapping)
    requires b.Node? && o.Node? && MergedBut(b, o, entries, {})
    ensures MergeOf(Node(top, entries), b, o)
  {
  }

  ghost function Below(entries: map<string, Shape>): set<Mapping> {
    set k, o | k in entries && o in Objects(entries[k]) :: o
  }

  ghost predicate AllShow(entries: map<string, Shape>)
    reads Below(entries)
  {
    forall k :: k in entries ==> Shows(entries[k])
  }

  lemma EntryShows(entries: map<string, Shape>, key: string, t: Shape)
    requires AllShow(entries) && Shows(t)
    ensures AllShow(entries[key := t]) && ItemsOf(entries[key := t]) == ItemsOf(entries)[key := ItemOf(t)]
  {
  }

  lemma NodeShows(top: Mapping, entries: map<string, Shape>)
    requires AllShow(entries) && top.items == ItemsOf(entries)
    ensures Shows(Node(top, entries))
  {
  }

  lemma OneMoreMerged(b: Shape, o: Shape, entries: map<string, Shape>, todo: set<string>, key: string, t: Shape)
    requires b.Node? && o.Node? && MergedBut(b, o, entries, todo) && key in todo
    requires if key in b.entries then MergeOf(t, b.entries[key], o.entries[key])
             else t == o.entries[key]
    ensures MergedBut(b, o, entries[key := t], todo - {key})
  {
  }

  lemma ExistingBelow(entries: map<string, Shape>) returns (objects: set<Mapping>)
    ensures objects == Below(entries)
  {
    objects := Below(entries);
  }

  /** A new dictionary; the arguments are left alone, but parts of them may stand in the result. */
  method DeepMerge(base: Mapping, override: Mapping, ghost b: Shape, ghost o: Shape)
    returns (merged: Mapping, ghost m: Shape, ghost made: set<Mapping>)
    requires b.Node? && b.mapping == base && Shows(b)
    requires o.Node? && o.mapping == override && Shows(o)
    ensures m.Node? && m.mapping == merged && Shows(m)
    ensures MergeOf(m, b, o) && ValueOf(m) == Over(ValueOf(b), ValueOf(o))
    ensures fresh(made) && merged in made && Objects(m) <= Objects(b) + Objects(o) + made
    ensures Separate(b, o) ==> Tree(m)
    decreases o
  {
    ghost var mine := Existing(b);
    ghost var theirs := Existing(o);
    var items := base.items;
    var todo := override.items.Keys;
    ghost var es := b.entries;
    made := {};
    ForestStarts(b, o);
    while todo != {}
      invariant Shows(o) && fresh(made)
      invariant MergedBut(b, o, es, todo)
      invariant Forest(b, o, es, made)
      invariant items == ItemsOf(es) && AllShow(es)
      decreases todo
    {
      var key :| key in todo;
      var value := override.items[key];
      ghost var standing := ExistingBelow(es);
      if key in items && items[key].Nested? && value.Nested? {
        var sub; ghost var t, extra;
        sub, t, extra := DeepMerge(items[key].mapping, value.mapping, es[key], o.entries[key]);
        assert fresh(made + extra);
        SeparateBelow(b, o, key);
        ForestGrows(b, o, es, made, key, t, extra);
        OneMoreMerged(b, o, es, todo, key, t);
        EntryShows(es, key, t);
        items := items[key := Nested(sub)];
        es := es[key := t];
        made := made + extra;
      } else {
        ForestGrows(b, o, es, made, key, o.entries[key], {});
        OneMoreMerged(b, o, es, todo, key, o.entries[key]);
        EntryShows(es, key, o.entries[key]);
        items := items[key := value];
        es := es[key := o.entries[key]];
      }
      todo := todo - {key};
    }
    ghost var standing := ExistingBelow(es);
    merged := new Mapping(items);
    ForestUnderNew(b, o, es, made, merged);
    AllMerged(b, o, es, merged);
    NodeShows(merged, es);
    m := Node(merged, es);
    MergeOfValue(m, b, o);
    made := made + {merged};
  }
}
