/**
 Copies of nested dictionaries that share nothing with the original, and among themselves
 exactly what the original shares.
 */
module ConfigCopying {
  import opened ConfigShapes
  import opened ConfigSharing

  type Renaming = map<Mapping, Mapping>

  ghost predicate OneToOne(r: Renaming) {
    forall d, e :: d in r && e in r && d != e ==> r[d] != r[e]
  }

  /** The picture with every dictionary replaced by its copy. */
  ghost function Renamed(s: Shape, r: Renaming): Shape
    requires Objects(s) <= r.Keys
  {
    match s
    case Text(_) => s
    case Node(m, entries) => Node(r[m], map k | k in entries :: Renamed(entries[k], r))
  }

  function RenamedItem(item: Item, r: Renaming): Item
    requires item.Nested? ==> item.mapping in r
  {
    match item case Plain(_) => item case Nested(m) => Nested(r[m])
  }

  /** Every dictionary copied so far has its items copied. */
  ghost predicate Mirrors(r: Renaming)
    reads r.Keys, r.Values
  {
    forall d :: d in r ==>
      && (forall k :: k in d.items && d.items[k].Nested? ==> d.items[k].mapping in r)
      && r[d].items == map k | k in d.items :: RenamedItem(d.items[k], r)
  }

  lemma {:induction false} MirrorsAll(s: Shape, r: Renaming)
    requires Shows(s) && Mirrors(r) && s.Node? && s.mapping in r
    ensures Objects(s) <= r.Keys
  {
    forall k | k in s.entries ensures Objects(s.entries[k]) <= r.Keys {
      assert s.mapping.items[k] == ItemOf(s.entries[k]);
      if s.entries[k].Node? {
        MirrorsAll(s.entries[k], r);
      }
    }
  }

  lemma {:induction false} MirrorShows(s: Shape, r: Renaming)
    requires Shows(s) && Mirrors(r) && Objects(s) <= r.Keys
    ensures Objects(Renamed(s, r)) <= r.Values
    ensures Shows(Renamed(s, r))
  {
    if s.Node? {
      var c := Renamed(s, r);
      forall k | k in s.entries
        ensures Objects(c.entries[k]) <= r.Values && Shows(c.entries[k])
        ensures ItemOf(c.entries[k]) == RenamedItem(ItemOf(s.entries[k]), r)
      {
        MirrorShows(s.entries[k], r);
      }
      assert c.mapping.items == ItemsOf(c.entries);
    }
  }

  lemma {:induction false} RenamedValue(s: Shape, r: Renaming)
    requires Objects(s) <= r.Keys
    ensures ValueOf(Renamed(s, r)) == ValueOf(s)
  {
    if s.Node? {
      forall k | k in s.entries ensures ValueOf(Renamed(s.entries[k], r)) == ValueOf(s.entries[k]) {
        RenamedValue(s.entries[k], r);
      }
      assert ValueOf(Renamed(s, r)).entries == ValueOf(s).entries;
    }
  }

  lemma {:induction false} RenamedObjects(s: Shape, r: Renaming, d: Mapping)
    requires Objects(s) <= r.Keys && OneToOne(r) && d in r
    ensures r[d] in Objects(Renamed(s, r)) <==> d in Objects(s)
  {
    if s.Node? {
      forall k | k in s.entries
        ensures r[d] in Objects(Renamed(s.entries[k], r)) <==> d in Objects(s.entries[k])
      {
        RenamedObjects(s.entries[k], r, d);
      }
      var c := Renamed(s, r);
      assert forall k :: k in s.entries ==> c.entries[k] == Renamed(s.entries[k], r);
      assert c.entries.Keys == s.entries.Keys;
    }
  }

  /** The items of a dictionary are copied, but for the keys still to do. */
  ghost predicate CopiedBut(original: map<string, Item>, items: map<string, Item>, todo: set<string>, r: Renaming) {
    && items.Keys !! todo && items.Keys + todo == original.Keys
    && forall k :: k in items ==>
         && (original[k].Nested? ==> original[k].mapping in r)
         && items[k] == RenamedItem(original[k], r)
  }

  ghost predicate Extends(r: Renaming, r': Renaming) {
    forall d :: d in r ==> d in r' && r'[d] == r[d]
  }

  lemma MirrorsMore(r: Renaming, d: Mapping, c: Mapping)
    requires Mirrors(r) && d !in r && CopiedBut(d.items, c.items, {}, r)
    ensures Mirrors(r[d := c])
  {
    var r' := r[d := c];
    forall e | e in r'
      ensures (forall k :: k in e.items && e.items[k].Nested? ==> e.items[k].mapping in r')
      ensures r'[e].items == map k | k in e.items :: RenamedItem(e.items[k], r')
    {
      if e == d {
        assert c.items.Keys == d.items.Keys;
      }
    }
  }

  ghost function Below(entries: map<string, Shape>, keys: set<string>): set<Mapping>
    requires keys <= entries.Keys
  {
    set k, o | k in keys && o in Objects(entries[k]) :: o
  }

  lemma BelowMore(entries: map<string, Shape>, keys: set<string>, key: string)
    requires keys <= entries.Keys && key in entries
    ensures Below(entries, keys + {key}) == Below(entries, keys) + Objects(entries[key])
  {
  }

  /** The memo has grown by the dictionaries below these keys. */
  ghost predicate Grown(memo: Renaming, memo': Renaming, entries: map<string, Shape>, keys: set<string>) {
    keys <= entries.Keys && Extends(memo, memo') && memo'.Keys == memo.Keys + Below(entries, keys)
  }

  lemma GrownMore(memo: Renaming, memo': Renaming, more: Renaming, entries: map<string, Shape>,
                  todo: set<string>, key: string)
    requires Grown(memo, memo', entries, entries.Keys - todo) && key in entries && key in todo
    requires Extends(memo', more) && more.Keys == memo'.Keys + Objects(entries[key])
    ensures Grown(memo, more, entries, entries.Keys - (todo - {key}))
  {
    BelowMore(entries, entries.Keys - todo, key);
    assert entries.Keys - (todo - {key}) == (entries.Keys - todo) + {key};
  }

  lemma GrownAll(memo: Renaming, memo': Renaming, s: Shape, c: Mapping)
    requires Shows(s) && s.Node? && s.mapping !in memo && Grown(memo, memo', s.entries, s.entries.Keys - {})
    ensures s.mapping !in memo'
    ensures Extends(memo, memo'[s.mapping := c]) && memo'[s.mapping := c].Keys == memo.Keys + Objects(s)
  {
    assert s.entries.Keys - {} == s.entries.Keys;
    BelowIsRest(s);
  }

  lemma BelowIsRest(s: Shape)
    requires Shows(s) && s.Node?
    ensures s.mapping !in Below(s.entries, s.entries.Keys)
    ensures Objects(s) == {s.mapping} + Below(s.entries, s.entries.Keys)
  {
    forall k | k in s.entries ensures s.mapping !in Objects(s.entries[k]) {
      NotInItself(s, k);
    }
  }

  lemma OneMoreCopied(original: map<string, Item>, items: map<string, Item>, todo: set<string>,
                      r: Renaming, r': Renaming, key: string, copy: Item)
    requires CopiedBut(original, items, todo, r) && Extends(r, r') && key in todo
    requires (original[key].Nested? ==> original[key].mapping in r') && copy == RenamedItem(original[key], r')
    ensures CopiedBut(original, items[key := copy], todo - {key}, r')
  {
  }

  lemma OneToOneMore(r: Renaming, d: Mapping, c: Mapping)
    requires OneToOne(r) && c !in r.Values
    ensures OneToOne(r[d := c])
  {
  }

  /** One value; `memo` holds the copies made so far. */
  method CopyItem(item: Item, memo: Renaming, ghost s: Shape) returns (copy: Item, memo': Renaming)
    requires Shows(s) && ItemOf(s) == item && Mirrors(memo) && OneToOne(memo)
    ensures Extends(memo, memo') && memo'.Keys == memo.Keys + Objects(s)
    ensures Mirrors(memo') && OneToOne(memo') && fresh(memo'.Values - memo.Values)
    ensures copy == RenamedItem(item, memo')
    decreases s, 1
  {
    if item.Plain? {
      return item, memo;
    }
    var d := item.mapping;
    if d in memo {
      MirrorsAll(s, memo);
      return Nested(memo[d]), memo;
    }
    memo' := CopyMapping(d, memo, s);
    copy := Nested(memo'[d]);
  }

  /** A dictionary that has no copy yet. */
  method CopyMapping(d: Mapping, memo: Renaming, ghost s: Shape) returns (memo': Renaming)
    requires Shows(s) && s.Node? && s.mapping == d && d !in memo && Mirrors(memo) && OneToOne(memo)
    ensures Extends(memo, memo') && memo'.Keys == memo.Keys + Objects(s)
    ensures Mirrors(memo') && OneToOne(memo') && fresh(memo'.Values - memo.Values)
    decreases s, 0
  {
    ghost var originals := Existing(s);
    memo' := memo;
    var items: map<string, Item> := map[];
    var todo := d.items.Keys;
    while todo != {}
      invariant Shows(s) && CopiedBut(d.items, items, todo, memo')
      invariant Grown(memo, memo', s.entries, s.entries.Keys - todo)
      invariant Mirrors(memo') && OneToOne(memo') && fresh(memo'.Values - memo.Values)
      decreases todo
    {
      var key :| key in todo;
      var below, more := CopyItem(d.items[key], memo', s.entries[key]);
      OneMoreCopied(d.items, items, todo, memo', more, key, below);
      GrownMore(memo, memo', more, s.entries, todo, key);
      assert fresh(more.Values - memo.Values);
      items := items[key := below];
      memo' := more;
      todo := todo - {key};
    }
    var c := new Mapping(items);
    GrownAll(memo, memo', s, c);
    OneToOneMore(memo', d, c);
    MirrorsMore(memo', d, c);
    memo' := memo'[d := c];
  }

  /** A copy of nested dictionaries: new objects only, sharing as in the original. */
  method DeepCopy(source: Mapping, ghost s: Shape) returns (copy: Mapping, ghost r: Renaming)
    requires Shows(s) && s.Node? && s.mapping == source
    ensures r.Keys == Objects(s) && OneToOne(r) && fresh(r.Values)
    ensures var c := Renamed(s, r);
      Shows(c) && c.mapping == copy && Objects(c) <= r.Values && ValueOf(c) == ValueOf(s)
  {
    ghost var originals := Existing(s);
    var none: Renaming := map[];
    assert none.Keys == {} && none.Values == {};
    var item, memo := CopyItem(Nested(source), none, s);
    assert memo.Keys == Objects(s) && fresh(memo.Values);
    assert Shows(s);
    MirrorShows(s, memo);
    RenamedValue(s, memo);
    copy, r := item.mapping, memo;
  }

  /** A dictionary stands at two paths of the copy exactly when its original does. */
  lemma {:induction false} RenamedTree(s: Shape, r: Renaming)
    requires Objects(s) <= r.Keys && OneToOne(r)
    ensures Tree(Renamed(s, r)) <==> Tree(s)
  {
    if s.Node? {
      var c := Renamed(s, r);
      forall k | k in s.entries
        ensures c.entries[k] == Renamed(s.entries[k], r) && (Tree(c.entries[k]) <==> Tree(s.entries[k]))
        ensures c.mapping in Objects(c.entries[k]) <==> s.mapping in Objects(s.entries[k])
      {
        RenamedTree(s.entries[k], r);
        RenamedObjects(s.entries[k], r, s.mapping);
      }
      forall j, k | j in s.entries && k in s.entries
        ensures Objects(c.entries[j]) !! Objects(c.entries[k]) <==> Objects(s.entries[j]) !! Objects(s.entries[k])
      {
        RenamedDisjoint(s.entries[j], s.entries[k], r);
      }
      assert c.entries.Keys == s.entries.Keys;
    }
  }

  lemma RenamedDisjoint(s: Shape, t: Shape, r: Renaming)
    requires Objects(s) <= r.Keys && Objects(t) <= r.Keys && OneToOne(r)
    ensures Objects(Renamed(s, r)) !! Objects(Renamed(t, r)) <==> Objects(s) !! Objects(t)
  {
    forall d | d in r
      ensures r[d] in Objects(Renamed(s, r)) <==> d in Objects(s)
      ensures r[d] in Objects(Renamed(t, r)) <==> d in Objects(t)
    {
      RenamedObjects(s, r, d);
      RenamedObjects(t, r, d);
    }
    RenamedImage(s, r);
    RenamedImage(t, r);
    if Objects(s) !! Objects(t) {
      forall o | o in Objects(Renamed(s, r)) ensures o !in Objects(Renamed(t, r)) {
        var d :| d in r && r[d] == o;
        assert d in Objects(s) && d !in Objects(t);
      }
    } else {
      var d :| d in Objects(s) && d in Objects(t);
      assert r[d] in Objects(Renamed(s, r)) && r[d] in Objects(Renamed(t, r));
    }
  }

  lemma {:induction false} RenamedImage(s: Shape, r: Renaming)
    requires Objects(s) <= r.Keys
    ensures Objects(Renamed(s, r)) <= r.Values
  {
    if s.Node? {
      forall k | k in s.entries ensures Objects(Renamed(s.entries[k], r)) <= r.Values {
        RenamedImage(s.entries[k], r);
      }
    }
  }
}
