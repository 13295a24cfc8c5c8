/**
 The configuration builder, over dictionaries that may stand at several paths: its escape
 hatch, its section setters and the copies it takes and hands out.
 */
module ConfigBuilding {
  import opened SharedTypes
  import opened ConfigMerge
  import opened ConfigPaths
  import opened ConfigShapes
  import opened ConfigSharing
  import opened ConfigObjects
  import opened ConfigCopying

  // ----- where the escape hatch writes -----

  /** How many keys the walk follows through dictionaries that are there. */
  function Walked(s: Shape, parts: Path): (j: nat)
    requires s.Node? && parts != []
    ensures j < |parts|
  {
    if |parts| > 1 && parts[0] in s.entries && s.entries[parts[0]].Node?
    then 1 + Walked(s.entries[parts[0]], parts[1..])
    else 0
  }

  /** The only dictionary of the configuration that is written: the last one that is there. */
  function FirstWritten(s: Shape, parts: Path): Mapping
    requires s.Node? && parts != []
  {
    if |parts| > 1 && parts[0] in s.entries && s.entries[parts[0]].Node?
    then FirstWritten(s.entries[parts[0]], parts[1..])
    else s.mapping
  }

  lemma {:induction false} WalkedThere(s: Shape, parts: Path, i: nat)
    requires s.Node? && parts != [] && i <= Walked(s, parts)
    ensures Leads(s, parts[..i]) && Under(s, parts[..i]).Node?
    ensures i == Walked(s, parts) ==> Stands(s, FirstWritten(s, parts), parts[..i])
    ensures FirstWritten(s, parts) in Objects(s)
  {
    if |parts| > 1 && parts[0] in s.entries && s.entries[parts[0]].Node? {
      var c := s.entries[parts[0]];
      WalkedThere(c, parts[1..], if i == 0 then 0 else i - 1);
      if i > 0 {
        assert parts[..i][1..] == parts[1..][..i - 1];
      }
    }
  }

  /** The walk stops before the last key at something that is no dictionary. */
  lemma {:induction false} WalkedAll(s: Shape, parts: Path)
    requires s.Node? && parts != []
    ensures var j := Walked(s, parts);
      j < |parts| - 1 ==> var x := At(ValueOf(s), parts[..j + 1]); x.Some? ==> x.value.Leaf?
  {
    if |parts| > 1 {
      if parts[0] in s.entries && s.entries[parts[0]].Node? {
        var c, j := s.entries[parts[0]], Walked(s, parts);
        WalkedAll(c, parts[1..]);
        assert parts[..j + 1][1..] == parts[1..][..j] && parts[..j + 1][0] == parts[0];
      } else {
        assert parts[..1][1..] == [] && parts[..1][0] == parts[0];
      }
    }
  }

  lemma {:induction false} WalkedFrom(s: Shape, parts: Path, i: nat)
    requires s.Node? && i < |parts| && Leads(s, parts[..i]) && Under(s, parts[..i]).Node?
    ensures Walked(s, parts) == i + Walked(Under(s, parts[..i]), parts[i..])
  {
    if i == 0 {
      assert parts[0..] == parts;
    } else {
      assert parts[..i][1..] == parts[1..][..i - 1] && parts[i..] == parts[1..][i - 1..];
      WalkedFrom(s.entries[parts[0]], parts[1..], i - 1);
    }
  }

  /** New dictionaries one below the other, with a value at the end. */
  function Chain(nodes: seq<Mapping>, keys: Path, x: Shape): Shape
    requires |nodes| == |keys|
  {
    if nodes == [] then x else Node(nodes[0], map[keys[0] := Chain(nodes[1..], keys[1..], x)])
  }

  lemma {:induction false} ChainValue(nodes: seq<Mapping>, keys: Path, x: Shape)
    requires |nodes| == |keys|
    ensures ValueOf(Chain(nodes, keys, x)) == OnePath(keys, ValueOf(x))
  {
    if nodes != [] {
      ChainValue(nodes[1..], keys[1..], x);
      assert Chain(nodes, keys, x).entries.Keys == {keys[0]};
      assert ValueOf(Chain(nodes, keys, x)).entries == OnePath(keys, ValueOf(x)).entries;
    }
  }

  lemma {:induction false} WithPathSplits(d: Entries, parts: Path, n: nat, v: Value)
    requires 0 < n <= |parts|
    requires n < |parts| ==> var x := At(Dict(d), parts[..n]); x.Some? ==> x.value.Leaf?
    ensures WithPath(d, parts, v) == WithPath(d, parts[..n], OnePath(parts[n..], v))
    decreases n
  {
    assert parts[..n][1..] == parts[1..][..n - 1] && parts[1..][n - 1..] == parts[n..];
    if n == 1 && |parts| > 1 {
      assert parts[..1] == [parts[0]];
      PathIntoNothing(parts[1..], v);
    } else if n > 1 {
      WithPathSplits(Entered(d, parts[0]), parts[1..], n - 1, v);
    } else {
      assert parts[1..] == [];
    }
  }

  lemma {:induction false} PathIntoNothing(path: Path, v: Value)
    requires path != []
    ensures Dict(WithPath(map[], path, v)) == OnePath(path, v)
  {
    if |path| > 1 {
      PathIntoNothing(path[1..], v);
    } else {
      assert path[1..] == [];
    }
  }

  // ----- what is in the way -----

  lemma NothingBlocks(path: Path)
    ensures !Blocked(map[], path)
  {
    forall n | 0 < n < |path| ensures !BlockedAt(map[], path, n) {
      assert path[..n] != [];
    }
  }

  /** The walk comes to something that is neither a dictionary nor `None`. */
  predicate Obstructed(s: Shape, parts: Path)
    requires s.Node? && parts != []
  {
    && |parts| > 1 && parts[0] in s.entries
    && match s.entries[parts[0]]
       case Text(t) => t != Nil
       case Node(_, _) => Obstructed(s.entries[parts[0]], parts[1..])
  }

  lemma {:induction false} ObstructedIffBlocked(s: Shape, parts: Path)
    requires s.Node? && parts != []
    ensures Obstructed(s, parts) <==> Blocked(ValueOf(s).entries, parts)
  {
    if |parts| > 1 {
      BlockedStep(ValueOf(s).entries, parts);
      if parts[0] in s.entries && s.entries[parts[0]].Node? {
        ObstructedIffBlocked(s.entries[parts[0]], parts[1..]);
      } else {
        NothingBlocks(parts[1..]);
      }
    }
  }

  lemma {:induction false} ObstructedFrom(s: Shape, parts: Path, i: nat)
    requires s.Node? && i < |parts| && Leads(s, parts[..i]) && Under(s, parts[..i]).Node?
    ensures Obstructed(s, parts) <==> Obstructed(Under(s, parts[..i]), parts[i..])
  {
    if i == 0 {
      assert parts[0..] == parts;
    } else {
      assert parts[..i][1..] == parts[1..][..i - 1] && parts[i..] == parts[1..][i - 1..];
      ObstructedFrom(s.entries[parts[0]], parts[1..], i - 1);
    }
  }

  lemma {:induction false} ObstructedEarly(s: Shape, parts: Path)
    requires s.Node? && parts != []
    ensures Obstructed(s, parts) ==> Walked(s, parts) < |parts| - 1
  {
    if |parts| > 1 && parts[0] in s.entries && s.entries[parts[0]].Node? {
      ObstructedEarly(s.entries[parts[0]], parts[1..]);
    }
  }

  /** What the walk meets at the next key decides whether it goes on, leaves what is there or is
      refused. */
  lemma Meets(s: Shape, parts: Path, i: nat, cursor: Mapping)
    requires Shows(s) && i < |parts| - 1 && Stands(s, cursor, parts[..i])
    ensures s.Node? && (i == Walked(s, parts) ==> cursor == FirstWritten(s, parts))
    ensures var part := parts[i];
      if part !in cursor.items || cursor.items[part] == Plain(Nil) then i == Walked(s, parts) && !Obstructed(s, parts)
      else if cursor.items[part].Nested?
      then i < Walked(s, parts) && Stands(s, cursor.items[part].mapping, parts[..i + 1])
      else i == Walked(s, parts) && Obstructed(s, parts)
  {
    NextKey(parts, i);
    assert parts[i..][0] == parts[i] && parts[i..][1..] == parts[i + 1..];
    Here(s, parts[..i], cursor, parts[i]);
    UnderDeeper(s, parts[..i], parts[i]);
    WalkedFrom(s, parts, i);
    ObstructedFrom(s, parts, i);
    if i == Walked(s, parts) {
      WalkedThere(s, parts, i);
    }
  }

  // ----- the walk -----

  /** The picture that `raw` leaves. */
  function Opened(s: Shape, parts: Path, made: seq<Mapping>, x: Shape): Shape
    requires s.Node? && parts != [] && |made| == |parts| - 1 - Walked(s, parts)
  {
    OpenedAt(s, FirstWritten(s, parts), parts, Walked(s, parts), made, x)
  }

  function OpenedAt(s: Shape, d: Mapping, parts: Path, j: nat, made: seq<Mapping>, x: Shape): Shape
    requires j < |parts| && |made| == |parts| - 1 - j
  {
    Written(s, d, parts[j], Chain(made, parts[j + 1..], x))
  }

  predicate NoRepeats(nodes: seq<Mapping>) {
    forall a, b :: 0 <= a < b < |nodes| ==> nodes[a] != nodes[b]
  }

  /** Each of the new dictionaries holds the next one, and the last one these items. */
  ghost predicate Linked(made: seq<Mapping>, keys: Path, last: map<string, Item>)
    reads made
    requires |made| == |keys| + 1
  {
    && (forall k :: 0 <= k < |keys| ==> made[k].items == map[keys[k] := Nested(made[k + 1])])
    && made[|keys|].items == last
  }

  lemma {:induction false} LinkedShows(made: seq<Mapping>, keys: Path, x: Shape)
    requires |made| == |keys| && Shows(x)
    requires made != [] ==> Linked(made, keys[..|keys| - 1], map[keys[|keys| - 1] := ItemOf(x)])
    ensures Shows(Chain(made, keys, x))
  {
    if made != [] {
      var rest := Chain(made[1..], keys[1..], x);
      if |made| > 1 {
        assert forall k :: 0 <= k < |keys| - 1 ==> made[1..][k] == made[k + 1] && keys[1..][k] == keys[k + 1];
        assert made[0].items == map[keys[0] := Nested(made[1])];
      }
      LinkedShows(made[1..], keys[1..], x);
      assert ItemsOf(map[keys[0] := rest]) == map[keys[0] := ItemOf(rest)];
    }
  }

  /** What the walk left behind is what `Opened` shows. */
  lemma RawShows(s: Shape, parts: Path, j: nat, u: Shape, was: map<string, Item>, made: seq<Mapping>, x: Shape)
    requires j < |parts| && |made| == |parts| - 1 - j
    requires u.Node? && was == ItemsOf(u.entries)
    requires ShowsBut(s, u.mapping) && Only(s, u.mapping, u) && Shows(x)
    requires forall k :: k in u.entries ==> u.mapping !in Objects(u.entries[k])
    requires
      if made == [] then u.mapping.items == was[parts[j] := ItemOf(x)]
      else u.mapping.items == was[parts[j] := Nested(made[0])]
           && Linked(made, parts[j + 1..|parts| - 1], map[parts[|parts| - 1] := ItemOf(x)])
    ensures Shows(OpenedAt(s, u.mapping, parts, j, made, x))
  {
    var keys := parts[j + 1..];
    if made != [] {
      assert keys[..|keys| - 1] == parts[j + 1..|parts| - 1];
    }
    LinkedShows(made, keys, x);
    WrittenShows(s, u, parts[j], Chain(made, keys, x));
  }

  /** The dictionary that is written, as it is before. */
  lemma BeforeRaw(s: Shape, parts: Path) returns (u: Shape)
    requires Shows(s) && s.Node? && parts != []
    ensures u.Node? && u.mapping == FirstWritten(s, parts) && u.mapping.items == ItemsOf(u.entries)
    ensures ShowsBut(s, u.mapping) && Only(s, u.mapping, u)
    ensures forall k :: k in u.entries ==> u.mapping !in Objects(u.entries[k])
  {
    WalkedThere(s, parts, Walked(s, parts));
    u := Under(s, parts[..Walked(s, parts)]);
    UnderShows(s, parts[..Walked(s, parts)]);
    OnlyOne(s, u);
    ShowsApart(s, u.mapping);
    forall k | k in u.entries ensures u.mapping !in Objects(u.entries[k]) {
      NotInItself(u, k);
    }
  }

  // ----- when the escape hatch is a merge -----

  /** The dictionary that is written stands at no other path, or holds the value already. */
  ghost predicate WritesOnePath(s: Shape, parts: Path, x: Shape)
    requires s.Node? && parts != []
  {
    Alone(s, FirstWritten(s, parts), parts[..Walked(s, parts)]) || At(ValueOf(s), parts) == Some(ValueOf(x))
  }

  lemma WritesOnePathIff(s: Shape, parts: Path, made: seq<Mapping>, x: Shape)
    requires Shows(s) && s.Node? && parts != [] && |made| == |parts| - 1 - Walked(s, parts)
    ensures ValueOf(Opened(s, parts, made, x)) == Dict(WithPath(ValueOf(s).entries, parts, ValueOf(x)))
      <==> WritesOnePath(s, parts, x)
  {
    var j := Walked(s, parts);
    var chain := Chain(made, parts[j + 1..], x);
    ChainValue(made, parts[j + 1..], x);
    NextKey(parts, j);
    WalkedAll(s, parts);
    WithPathSplits(ValueOf(s).entries, parts, j + 1, ValueOf(x));
    WalkedThere(s, parts, j);
    WriteIsPathIff(s, FirstWritten(s, parts), parts[..j], parts[j], chain);
    if j < |parts| - 1 {
      NothingUnderLeaf(ValueOf(s), parts, j + 1);
    }
  }

  lemma {:induction false} NothingUnderLeaf(v: Value, path: Path, n: nat)
    requires n < |path|
    requires var x := At(v, path[..n]); x.Some? ==> x.value.Leaf?
    ensures At(v, path) == None
  {
    if n > 0 && v.Dict? && path[0] in v.entries {
      assert path[..n][1..] == path[1..][..n - 1];
      NothingUnderLeaf(v.entries[path[0]], path[1..], n - 1);
    }
  }

  lemma {:induction false} ChainIsTree(nodes: seq<Mapping>, keys: Path, x: Shape)
    requires |nodes| == |keys| && NoRepeats(nodes) && Tree(x) && forall n :: n in nodes ==> n !in Objects(x)
    ensures Tree(Chain(nodes, keys, x))
    ensures forall o :: o in Objects(Chain(nodes, keys, x)) ==> o in nodes || o in Objects(x)
  {
    if nodes != [] {
      ChainIsTree(nodes[1..], keys[1..], x);
      assert forall n :: n in nodes[1..] ==> n in nodes;
      assert nodes[0] !in nodes[1..];
    }
  }

  lemma OpenedIsTree(s: Shape, parts: Path, made: seq<Mapping>, x: Shape)
    requires Tree(s) && s.Node? && parts != [] && |made| == |parts| - 1 - Walked(s, parts)
    requires Tree(x) && Objects(x) !! Objects(s) && NoRepeats(made)
    requires forall n :: n in made ==> n !in Objects(s) && n !in Objects(x)
    ensures Tree(Opened(s, parts, made, x))
  {
    var j := Walked(s, parts);
    var chain := Chain(made, parts[j + 1..], x);
    ChainIsTree(made, parts[j + 1..], x);
    forall o | o in Objects(chain) ensures o !in Objects(s) {
      assert o in made || o in Objects(x);
    }
    WalkedThere(s, parts, j);
    WrittenIsTree(s, FirstWritten(s, parts), parts[..j], parts[j], chain);
  }

  lemma WrittenIsTree(s: Shape, d: Mapping, path: Path, key: string, x: Shape)
    requires Tree(s) && Stands(s, d, path) && Tree(x) && Objects(x) !! Objects(s)
    ensures Tree(Written(s, d, key, x))
  {
    TreeIsAlone(s, d, path);
    AloneIsPut(s, d, path, key, x);
    PutIsTree(s, path, key, x);
  }

  /** The value that is left does not depend on which objects are new. */
  lemma OpenedValueSame(s: Shape, parts: Path, made: seq<Mapping>, made': seq<Mapping>, x: Shape)
    requires s.Node? && parts != [] && |made| == |made'| == |parts| - 1 - Walked(s, parts)
    ensures ValueOf(Opened(s, parts, made, x)) == ValueOf(Opened(s, parts, made', x))
  {
    var j, d := Walked(s, parts), FirstWritten(s, parts);
    var chain, chain' := Chain(made, parts[j + 1..], x), Chain(made', parts[j + 1..], x);
    ChainValue(made, parts[j + 1..], x);
    ChainValue(made', parts[j + 1..], x);
    WrittenValueSame(s, d, parts[j], chain, chain');
    assert Opened(s, parts, made, x) == Written(s, d, parts[j], chain);
    assert Opened(s, parts, made', x) == Written(s, d, parts[j], chain');
  }

  lemma {:induction false} WrittenValueSame(s: Shape, d: Mapping, key: string, x: Shape, x': Shape)
    requires ValueOf(x) == ValueOf(x')
    ensures ValueOf(Written(s, d, key, x)) == ValueOf(Written(s, d, key, x'))
  {
    if s.Node? {
      forall k | k in s.entries
        ensures ValueOf(Written(s.entries[k], d, key, x)) == ValueOf(Written(s.entries[k], d, key, x'))
      {
        WrittenValueSame(s.entries[k], d, key, x, x');
      }
      assert ValueOf(Written(s, d, key, x)).entries == ValueOf(Written(s, d, key, x')).entries;
    }
  }

  /** What `raw` leaves, given that the objects it opened are new. */
  lemma AfterRaw(s: Shape, parts: Path, any: seq<Mapping>, made: seq<Mapping>, x: Shape)
    requires s.Node? && parts != [] && |made| == |any| == |parts| - 1 - Walked(s, parts)
    requires ValueOf(Opened(s, parts, any, x)) == Dict(WithPath(ValueOf(s).entries, parts, ValueOf(x)))
             <==> WritesOnePath(s, parts, x)
    ensures var after := ValueOf(Opened(s, parts, made, x));
      && after.Dict?
      && (after.entries == WithPath(ValueOf(s).entries, parts, ValueOf(x)) <==> WritesOnePath(s, parts, x))
      && (x.Text? ==> (after.entries == Merged(ValueOf(s).entries, OnePath(parts, ValueOf(x)).entries)
                       <==> WritesOnePath(s, parts, x)))
    ensures Tree(s) && Tree(x) && Objects(x) !! Objects(s) && NoRepeats(made)
            && (forall n :: n in made ==> n !in Objects(s) && n !in Objects(x)) ==>
              Tree(Opened(s, parts, made, x))
  {
    OpenedValueSame(s, parts, made, any, x);
    if x.Text? {
      SettingIsMerging(ValueOf(s).entries, parts, x.scalar);
    }
    if Tree(s) && Tree(x) && Objects(x) !! Objects(s) && NoRepeats(made)
       && forall n :: n in made ==> n !in Objects(s) && n !in Objects(x) {
      OpenedIsTree(s, parts, made, x);
    }
  }

  /** The last write of the walk. */
  method StoreLast(cursor: Mapping, key: string, item: Item, ghost made: seq<Mapping>, ghost keys: Path)
    requires NoRepeats(made)
    requires made != [] ==> |made| == |keys| + 1 && made[|keys|] == cursor && Linked(made, keys, map[])
    modifies cursor
    ensures cursor.items == old(cursor.items)[key := item]
    ensures made != [] ==> Linked(made, keys, map[key := item])
  {
    cursor.items := cursor.items[key := item];
  }

  lemma NextLink(parts: Path, j: nat, i: nat)
    requires j <= i < |parts|
    ensures parts[j + 1..i + 1] == if i > j then parts[j + 1..i] + [parts[i]] else []
  {
  }

  /** Opens a new dictionary in the one the walk has reached, which is the last of those made
      if there are any. */
  method Open(cursor: Mapping, key: string, ghost made: seq<Mapping>, ghost keys: Path)
    returns (n: Mapping, ghost more: seq<Mapping>)
    requires NoRepeats(made)
    requires made != [] ==> |made| == |keys| + 1 && made[|keys|] == cursor && Linked(made, keys, map[])
    modifies cursor
    ensures fresh(n) && n.items == map[] && more == made + [n] && NoRepeats(more)
    ensures cursor.items == old(cursor.items)[key := Nested(n)]
    ensures made != [] ==> Linked(more, keys + [key], map[])
  {
    n := new Mapping(map[]);
    more := made + [n];
    cursor.items := cursor.items[key := Nested(n)];
  }

  /** Where the walk is after `i` keys: in what was there, which is unchanged, or in the last of
      the new dictionaries, which hang below the only one that changed. */
  ghost predicate Walking(s: Shape, u: Shape, was: map<string, Item>, parts: Path, i: nat, cursor: Mapping,
                          made: seq<Mapping>)
    requires s.Node? && parts != [] && u.Node?
    reads Objects(s), u.mapping, made
  {
    var j := Walked(s, parts);
    && i < |parts| && NoRepeats(made) && (forall k :: 0 <= k < |made| ==> made[k] !in Objects(s))
    && if i <= j then made == [] && u.mapping.items == was && Shows(s) && Stands(s, cursor, parts[..i])
       else
         && |made| == i - j && cursor == made[i - j - 1] && !Obstructed(s, parts)
         && u.mapping.items == was[parts[j] := Nested(made[0])]
         && Linked(made, parts[j + 1..i], map[])
  }

  lemma WritesHere(s: Shape, u: Shape, was: map<string, Item>, parts: Path, i: nat, cursor: Mapping, made: seq<Mapping>)
    requires s.Node? && parts != [] && u.Node? && u.mapping == FirstWritten(s, parts)
    requires Walking(s, u, was, parts, i, cursor, made)
    ensures i == Walked(s, parts) ==> cursor == u.mapping
    ensures i > Walked(s, parts) ==> made != [] && cursor == made[|made| - 1]
  {
    if i == Walked(s, parts) {
      WalkedThere(s, parts, i);
    }
  }

  /** One key of the walk: the dictionary that is there, or a new one, unless something that is
      neither a dictionary nor `None` is in the way. */
  method EnterKey(cursor: Mapping, parts: Path, i: nat, ghost s: Shape, ghost u: Shape, ghost was: map<string, Item>,
                  ghost made: seq<Mapping>)
    returns (next: Option<Mapping>, ghost more: seq<Mapping>)
    requires s.Node? && i < |parts| - 1 && u.Node? && u.mapping == FirstWritten(s, parts)
    requires Walking(s, u, was, parts, i, cursor, made)
    modifies if i < Walked(s, parts) then {} else {cursor}
    ensures next == None <==> i == Walked(s, parts) && Obstructed(s, parts)
    ensures next == None ==> Shows(s) && more == []
    ensures next.Some? ==> Walking(s, u, was, parts, i + 1, next.value, more)
    ensures more == made || (next.Some? && fresh(next.value) && more == made + [next.value])
  {
    ghost var originals := Existing(s);
    ghost var j := Walked(s, parts);
    WalkedThere(s, parts, 0);
    var part := parts[i];
    if i <= j {
      Meets(s, parts, i, cursor);
    }
    if part !in cursor.items || cursor.items[part] == Plain(Nil) {
      NextLink(parts, j, i);
      var n;
      n, more := Open(cursor, part, made, if i > j then parts[j + 1..i] else []);
      next := Some(n);
    } else if cursor.items[part].Nested? {
      next, more := Some(cursor.items[part].mapping), made;
    } else {
      next, more := None, made;
    }
  }

  /** One turn of the loop: it writes only where writing is due, or in what was made. */
  method Step(cursor: Mapping, parts: Path, i: nat, ghost s: Shape, ghost u: Shape, ghost was: map<string, Item>,
              ghost made: seq<Mapping>)
    returns (next: Option<Mapping>, ghost more: seq<Mapping>)
    requires s.Node? && i < |parts| - 1 && u.Node? && u.mapping == FirstWritten(s, parts)
    requires Walking(s, u, was, parts, i, cursor, made)
    modifies u.mapping, made
    ensures next == None <==> i == Walked(s, parts) && Obstructed(s, parts)
    ensures next == None ==> Shows(s) && more == []
    ensures next.Some? ==> Walking(s, u, was, parts, i + 1, next.value, more)
    ensures more == made || (next.Some? && fresh(next.value) && more == made + [next.value])
  {
    WritesHere(s, u, was, parts, i, cursor, made);
    next, more := EnterKey(cursor, parts, i, s, u, was, made);
  }

  lemma WalkStarts(s: Shape, u: Shape, parts: Path)
    requires Shows(s) && s.Node? && u.Node? && parts != []
    ensures Walking(s, u, u.mapping.items, parts, 0, s.mapping, [])
  {
  }

  lemma WalkEnds(s: Shape, u: Shape, was: map<string, Item>, parts: Path, cursor: Mapping, made: seq<Mapping>)
    requires s.Node? && u.Node? && parts != [] && Walking(s, u, was, parts, |parts| - 1, cursor, made)
    ensures !Obstructed(s, parts)
  {
    ObstructedEarly(s, parts);
  }

  /** The walk of `raw` to the dictionary that holds the last key, if nothing is in the way. */
  method WalkInto(config: Mapping, parts: Path, ghost s: Shape, ghost u: Shape)
    returns (entered: Option<Mapping>, ghost made: seq<Mapping>)
    requires Shows(s) && s.Node? && s.mapping == config && parts != []
    requires u.Node? && u.mapping == FirstWritten(s, parts)
    modifies u.mapping
    ensures entered == None <==> Obstructed(s, parts)
    ensures entered == None ==> Shows(s) && made == []
    ensures entered.Some? ==> Walking(s, u, old(u.mapping.items), parts, |parts| - 1, entered.value, made)
    ensures forall k :: 0 <= k < |made| ==> fresh(made[k])
  {
    ghost var was := u.mapping.items;
    made := [];
    WalkStarts(s, u, parts);
    var cursor := config;
    for i := 0 to |parts| - 1
      invariant Walking(s, u, was, parts, i, cursor, made)
      invariant forall k :: 0 <= k < |made| ==> fresh(made[k])
    {
      var next;
      next, made := Step(cursor, parts, i, s, u, was, made);
      if next == None {
        return None, made;
      }
      cursor := next.value;
    }
    WalkEnds(s, u, was, parts, cursor, made);
    entered := Some(cursor);
  }

  /** The escape hatch on nested dictionaries. */
  method SetRaw(config: Mapping, parts: Path, value: Item, ghost s: Shape, ghost x: Shape)
    returns (outcome: Outcome, ghost s': Shape, ghost made: seq<Mapping>)
    requires Shows(s) && s.Node? && s.mapping == config && parts != []
    requires Shows(x) && ItemOf(x) == value && FirstWritten(s, parts) !in Objects(x)
    modifies FirstWritten(s, parts)
    ensures Shows(s') && NoRepeats(made) && forall k :: 0 <= k < |made| ==> fresh(made[k])
    ensures outcome == if parts == [""] || Blocked(ValueOf(s).entries, parts) then ValueError else Done
    ensures outcome == ValueError ==> s' == s
    ensures outcome == Done ==>
              |made| == |parts| - 1 - Walked(s, parts) && s' == Opened(s, parts, made, x)
  {
    if parts == [""] {
      return ValueError, s, [];
    }
    ghost var theirs := Existing(x);
    ghost var originals := Existing(s);
    ghost var u := BeforeRaw(s, parts);
    ghost var was := u.mapping.items;
    ObstructedIffBlocked(s, parts);
    var entered;
    entered, made := WalkInto(config, parts, s, u);
    if entered == None {
      return ValueError, s, made;
    }
    var last := |parts| - 1;
    WritesHere(s, u, was, parts, last, entered.value, made);
    ghost var j := Walked(s, parts);
    StoreLast(entered.value, parts[last], value, made, if j < last then parts[j + 1..last] else []);
    assert ShowsBut(s, u.mapping) && Shows(x);
    RawShows(s, parts, j, u, was, made, x);
    s' := Opened(s, parts, made, x);
    outcome := Done;
  }

  lemma MergedSection(config: Entries, section: string, kwargs: Value)
    requires kwargs.Dict? && (section in config ==> config[section].Dict?)
    ensures WithPath(config, [section], Over(Dict(Entered(config, section)), kwargs))
            == Merged(config, map[section := kwargs])
  {
    OverEmpty(kwargs);
    MergedAt(config, map[section := kwargs], section);
  }

  /** A write at the top, which stands at no other path. */
  lemma WrittenAtTop(s: Shape, section: string, m: Shape)
    requires Shows(s) && s.Node?
    ensures var w := Written(s, s.mapping, section, m);
      && w.Node? && w.mapping == s.mapping
      && ValueOf(w) == Dict(WithPath(ValueOf(s).entries, [section], ValueOf(m)))
    ensures Tree(s) && Tree(m) && Objects(m) !! Objects(s) - ObjectsAt(s, section) ==>
              Tree(Written(s, s.mapping, section, m))
  {
    WrittenHere(s, section, m);
    assert Put(s, [], section, m) == Node(s.mapping, s.entries[section := m]);
    PutValue(s, [], section, m);
    assert [] + [section] == [section];
    if Tree(s) && Tree(m) && Objects(m) !! Objects(s) - ObjectsAt(s, section) {
      PutIsTree(s, [], section, m);
    }
  }

  /** Merges into the dictionary of a section and stores the result at the top. */
  method StoreMerged(config: Mapping, section: string, existing: Mapping, kwargs: Mapping,
                     ghost s: Shape, ghost e: Shape, ghost x: Shape)
    returns (ghost s': Shape, ghost made: set<Mapping>)
    requires Shows(s) && s.Node? && s.mapping == config
    requires section in s.entries ==> s.entries[section].Node?
    requires Shows(e) && e.Node? && e.mapping == existing && ValueOf(e) == Dict(Entered(ValueOf(s).entries, section))
    requires Shows(x) && x.Node? && x.mapping == kwargs
    requires config !in Objects(e) && config !in Objects(x)
    modifies config
    ensures Shows(s') && s'.Node? && s'.mapping == config && fresh(made)
    ensures Objects(s') <= Objects(s) + Objects(e) + Objects(x) + made
    ensures ValueOf(s').entries == Merged(ValueOf(s).entries, map[section := ValueOf(x)])
    ensures Tree(s) && Separate(e, x) && Objects(e) + Objects(x) !! Objects(s) - ObjectsAt(s, section) ==> Tree(s')
  {
    ghost var mine := Existing(s);
    ghost var es := Existing(e);
    ghost var theirs := Existing(x);
    var merged; ghost var m;
    merged, m, made := DeepMerge(existing, kwargs, e, x);
    WrittenWithin(s, config, section, m);
    WrittenAtTop(s, section, m);
    MergedSection(ValueOf(s).entries, section, ValueOf(x));
    s' := StoreShared(config, section, Nested(merged), s, m);
  }

  class ConfigBuilder {
    var overrides: Mapping
    ghost var shape: Shape

    ghost predicate Valid()
      reads this, Objects(shape)
    {
      shape.Node? && shape.mapping == overrides && Shows(shape)
    }

    ghost function Contents(): Entries
      reads this
      requires shape.Node?
    {
      ValueOf(shape).entries
    }

    constructor (base: Mapping, ghost s: Shape)
      requires Shows(s) && s.Node? && s.mapping == base
      ensures Valid() && fresh(Objects(shape)) && Contents() == ValueOf(s).entries
      ensures Tree(shape) <==> Tree(s)
    {
      var copy; ghost var r;
      copy, r := DeepCopy(base, s);
      RenamedTree(s, r);
      overrides, shape := copy, Renamed(s, r);
    }

    /** `parts` is the dotted path split at the dots; the empty path splits into one empty
        segment. A refused call leaves the configuration as it was; otherwise one dictionary
        that was there is written, and the result is the merge of the one-path layer exactly
        when that dictionary stands at no other path, or nothing changes. */
    method Raw(parts: Path, value: Item, ghost x: Shape) returns (outcome: Outcome, ghost made: seq<Mapping>)
      requires Valid() && parts != []
      requires Shows(x) && ItemOf(x) == value && FirstWritten(shape, parts) !in Objects(x)
      modifies this`shape, FirstWritten(shape, parts)
      ensures Valid() && forall n :: n in made ==> fresh(n)
      ensures outcome == if parts == [""] || Blocked(old(Contents()), parts) then ValueError else Done
      ensures outcome == ValueError ==> shape == old(shape)
      ensures outcome == Done ==>
                && |made| == |parts| - 1 - Walked(old(shape), parts)
                && shape == Opened(old(shape), parts, made, x)
                && (Contents() == WithPath(old(Contents()), parts, ValueOf(x)) <==> WritesOnePath(old(shape), parts, x))
      ensures outcome == Done && value.Plain? ==>
                (Contents() == Merged(old(Contents()), OnePath(parts, ValueOf(x)).entries)
                 <==> WritesOnePath(old(shape), parts, x))
      ensures Tree(old(shape)) && Tree(x) && Objects(x) !! Objects(old(shape)) ==> Tree(shape)
    {
      ghost var was := shape;
      ghost var theirs := Existing(x);
      ghost var originals := Existing(shape);
      var root := overrides;
      ghost var any := seq(|parts| - 1 - Walked(was, parts), _ => root);
      WritesOnePathIff(was, parts, any, x);
      ghost var s;
      outcome, s, made := SetRaw(root, parts, value, was, x);
      ghost var all := Existing(s);
      assert Shows(s);
      shape := s;
      if outcome == Done {
        AfterRaw(was, parts, any, made, x);
      }
    }

    /** The dictionary of a section, a new one if it is missing, or none if it holds something else. */
    method GetSection(section: string) returns (existing: Option<Mapping>, ghost e: Shape)
      requires Valid()
      ensures existing == None <==> section in Contents() && Contents()[section].Leaf?
      ensures existing.Some? ==>
                && Shows(e) && e.Node? && e.mapping == existing.value && overrides !in Objects(e)
                && ValueOf(e) == Dict(Entered(Contents(), section))
                && fresh(Objects(e) - ObjectsAt(shape, section)) && (Tree(shape) ==> Tree(e))
                && (section in shape.entries ==> shape.entries[section].Node?)
    {
      Here(shape, [], overrides, section);
      if section in overrides.items {
        e := shape.entries[section];
        NotInItself(shape, section);
        return if overrides.items[section].Nested? then Some(overrides.items[section].mapping) else None, e;
      }
      ghost var all := Existing(shape);
      var empty := new Mapping(map[]);
      EmptyShows(empty);
      existing, e := Some(empty), Node(empty, map[]);
    }

    /** The section setters merge their arguments into the section; dictionaries in the
        arguments become part of the configuration, wherever else they stand. */
    method MergeSection(section: string, kwargs: Mapping, ghost x: Shape) returns (outcome: Outcome)
      requires Valid() && Shows(x) && x.Node? && x.mapping == kwargs && overrides !in Objects(x)
      modifies this`shape, overrides
      ensures Valid() && fresh(Objects(shape) - Objects(old(shape)) - Objects(x))
      ensures outcome == if section in old(Contents()) && old(Contents())[section].Leaf? then ValueError else Done
      ensures outcome == ValueError ==> shape == old(shape)
      ensures outcome == Done ==> Contents() == Merged(old(Contents()), map[section := ValueOf(x)])
      ensures Separate(old(shape), x) ==> Tree(shape)
    {
      ghost var was := shape;
      ghost var mine := Existing(was);
      ghost var theirs := Existing(x);
      var existing; ghost var e;
      existing, e := GetSection(section);
      if existing == None {
        return ValueError;
      }
      ghost var s, made;
      s, made := StoreMerged(overrides, section, existing.value, kwargs, was, e, x);
      ghost var all := Existing(s);
      assert Shows(s) && all <= Objects(was) + Objects(x) + (Objects(e) - ObjectsAt(was, section)) + made;
      shape := s;
      outcome := Done;
    }

    /** Every build hands out a copy of its own. */
    method Build() returns (config: Mapping, ghost c: Shape)
      requires Valid()
      ensures Shows(c) && c.Node? && c.mapping == config
      ensures fresh(Objects(c)) && ValueOf(c).entries == Contents() && (Tree(c) <==> Tree(shape))
    {
      var copy; ghost var r;
      copy, r := DeepCopy(overrides, shape);
      RenamedTree(shape, r);
      config, c := copy, Renamed(shape, r);
    }
  }
}
