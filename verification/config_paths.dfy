/**
 Setting one value at a key path: environment overrides and the builder's escape hatch.
 Both walk down nested dictionaries; both amount to merging a layer with a single path.
 */
module ConfigPaths {
  import opened SharedTypes
  import opened ConfigMerge
  import opened Sequences

  type Path = seq<string>

  /** The dictionary a walk enters at a key: the one that is there, or a new empty one. */
  function Entered(d: Entries, key: string): Entries {
    if key in d && d[key].Dict? then d[key].entries else map[]
  }

  function WithPath(d: Entries, path: Path, value: Value): Entries
    requires path != []
    decreases |path|
  {
    if |path| == 1 then d[path[0] := value]
    else d[path[0] := Dict(WithPath(Entered(d, path[0]), path[1..], value))]
  }

  /** The layer that holds one value at one path. */
  function OnePath(path: Path, value: Value): Value {
    if path == [] then value else Dict(map[path[0] := OnePath(path[1..], value)])
  }

  /** Setting a scalar at a path is merging the one-path layer. */
  lemma {:induction false} SettingIsMerging(d: Entries, path: Path, s: Scalar)
    requires path != []
    ensures Dict(WithPath(d, path, Leaf(s))) == Over(Dict(d), OnePath(path, Leaf(s)))
    decreases |path|
  {
    if |path| > 1 {
      SettingIsMerging(Entered(d, path[0]), path[1..], s);
      OverEmpty(OnePath(path[1..], Leaf(s)));
      assert OnePath(path, Leaf(s)).entries.Keys == {path[0]};
      assert WithPath(d, path, Leaf(s)).Keys == d.Keys + {path[0]};
    } else {
      assert path[1..] == [];
    }
  }

  lemma OverEmpty(v: Value)
    ensures Over(Dict(map[]), v) == v
  {
    if v.Dict? {
      assert Over(Dict(map[]), v).entries == v.entries;
    }
  }

  // ----- environment overrides -----

  datatype Override = Override(path: Path, value: Scalar)

  predicate Proper(overrides: seq<Override>) {
    forall i :: 0 <= i < |overrides| ==> overrides[i].path != []
  }

  function Applied(config: Entries, overrides: seq<Override>): Entries
    requires Proper(overrides)
    decreases |overrides|
  {
    if overrides == [] then config
    else Applied(WithPath(config, overrides[0].path, Leaf(overrides[0].value)), overrides[1..])
  }

  /** Neither path leads through the other. */
  predicate Apart(p: Path, q: Path) {
    if p == [] || q == [] then false
    else p[0] != q[0] || Apart(p[1..], q[1..])
  }

  lemma {:induction false} ApartIsNoPrefix(p: Path, q: Path)
    ensures Apart(p, q) <==> !(p <= q) && !(q <= p)
  {
    if p != [] && q != [] {
      ApartIsNoPrefix(p[1..], q[1..]);
      assert p == [p[0]] + p[1..] && q == [q[0]] + q[1..];
      assert p[0] == q[0] ==> (p <= q <==> p[1..] <= q[1..]) && (q <= p <==> q[1..] <= p[1..]);
    }
  }

  function Both(d: Entries, first: Override, second: Override): Entries
    requires first.path != [] && second.path != []
  {
    WithPath(WithPath(d, first.path, Leaf(first.value)), second.path, Leaf(second.value))
  }

  lemma {:induction false} ApartCommutes(d: Entries, o: Override, p: Override)
    requires Apart(o.path, p.path)
    ensures Both(d, o, p) == Both(d, p, o)
    decreases |o.path|
  {
    var k := o.path[0];
    if k == p.path[0] {
      var o', p' := Override(o.path[1..], o.value), Override(p.path[1..], p.value);
      ApartCommutes(Entered(d, k), o', p');
      assert Both(d, o, p) == d[k := Dict(Both(Entered(d, k), o', p'))];
      assert Both(d, p, o) == d[k := Dict(Both(Entered(d, k), p', o'))];
    }
  }

  lemma {:induction false} ReadsBack(d: Entries, path: Path, v: Value)
    requires path != []
    ensures At(Dict(WithPath(d, path, v)), path) == Some(v)
    decreases |path|
  {
    if |path| > 1 {
      ReadsBack(Entered(d, path[0]), path[1..], v);
    } else {
      assert path[1..] == [];
    }
  }

  /** Below a path that was just set through, the prefix holds a dictionary. */
  lemma {:induction false} PrefixIsDict(d: Entries, path: Path, prefix: Path, v: Value)
    requires prefix < path
    ensures var x := At(Dict(WithPath(d, path, v)), prefix); x.Some? && x.value.Dict?
    decreases |path|
  {
    if prefix != [] {
      assert path[0] == prefix[0] && prefix[1..] < path[1..];
      PrefixIsDict(Entered(d, path[0]), path[1..], prefix[1..], v);
    }
  }

  /** Two overrides commute exactly when neither path leads through the other, or they set
      the same path to the same value. */
  lemma OverridesCommuteIff(d: Entries, o: Override, p: Override)
    requires o.path != [] && p.path != []
    ensures Both(d, o, p) == Both(d, p, o) <==>
            (!(o.path <= p.path) && !(p.path <= o.path)) || o == p
  {
    ApartIsNoPrefix(o.path, p.path);
    if Apart(o.path, p.path) {
      ApartCommutes(d, o, p);
    } else {
      var afterO, afterP := WithPath(d, o.path, Leaf(o.value)), WithPath(d, p.path, Leaf(p.value));
      ReadsBack(afterO, p.path, Leaf(p.value));
      ReadsBack(afterP, o.path, Leaf(o.value));
      if o.path < p.path {
        PrefixIsDict(afterO, p.path, o.path, Leaf(p.value));
      } else if p.path < o.path {
        PrefixIsDict(afterP, o.path, p.path, Leaf(o.value));
      } else {
        assert o.path == p.path;
      }
    }
  }

  /** The order of two overrides does not matter. */
  ghost predicate Harmless(o: Override, p: Override) {
    Apart(o.path, p.path) || o == p
  }

  ghost predicate PairwiseHarmless(overrides: seq<Override>) {
    forall i, j :: 0 <= i < j < |overrides| ==> Harmless(overrides[i], overrides[j])
  }

  lemma {:induction false} ApartIsSymmetric(p: Path, q: Path)
    ensures Apart(p, q) == Apart(q, p)
  {
    if p != [] && q != [] {
      ApartIsSymmetric(p[1..], q[1..]);
    }
  }

  lemma HarmlessCommutes(d: Entries, o: Override, p: Override)
    requires o.path != [] && p.path != []
    ensures Harmless(o, p) <==> Both(d, o, p) == Both(d, p, o)
  {
    ApartIsNoPrefix(o.path, p.path);
    OverridesCommuteIff(d, o, p);
  }

  /** An override can be moved in front of those it is harmless with. */
  lemma {:induction false} MoveToFront(config: Entries, overrides: seq<Override>, k: nat)
    requires k < |overrides| && Proper(overrides) && PairwiseHarmless(overrides)
    ensures Proper([overrides[k]] + overrides[..k] + overrides[k + 1..])
    ensures Applied(config, overrides) == Applied(config, [overrides[k]] + overrides[..k] + overrides[k + 1..])
    decreases k
  {
    var moved := [overrides[k]] + overrides[..k] + overrides[k + 1..];
    if k == 0 {
      assert moved == overrides;
    } else {
      var head, tail := overrides[0], overrides[1..];
      var next := WithPath(config, head.path, Leaf(head.value));
      MoveToFront(next, tail, k - 1);
      var moved' := [tail[k - 1]] + tail[..k - 1] + tail[k..];
      assert Harmless(head, overrides[k]);
      HarmlessCommutes(config, head, overrides[k]);
      MovedTail(overrides, k);
      AppliedTwo(config, moved);
      assert Applied(next, moved') == Applied(Both(config, head, overrides[k]), moved'[1..]);
    }
  }

  /** Past the two first entries, moving an entry to the front of a list is moving it to the
      front of its tail. */
  lemma MovedTail(overrides: seq<Override>, k: nat)
    requires 0 < k < |overrides|
    ensures var tail, moved := overrides[1..], [overrides[k]] + overrides[..k] + overrides[k + 1..];
      var moved' := [tail[k - 1]] + tail[..k - 1] + tail[k..];
      moved[1] == overrides[0] && moved'[0] == overrides[k] && moved[1..][1..] == moved'[1..]
  {
    var tail, moved := overrides[1..], [overrides[k]] + overrides[..k] + overrides[k + 1..];
    assert moved[1..] == overrides[..k] + overrides[k + 1..];
    assert overrides[..k][1..] == tail[..k - 1] && overrides[k + 1..] == tail[k..];
  }

  lemma AppliedTwo(config: Entries, overrides: seq<Override>)
    requires |overrides| >= 2 && Proper(overrides)
    ensures Applied(config, overrides) == Applied(Both(config, overrides[0], overrides[1]), overrides[1..][1..])
  {
  }

  lemma AppliedFront(config: Entries, overrides: seq<Override>, k: nat)
    requires k < |overrides| && Proper(overrides) && Proper([overrides[k]] + overrides[..k] + overrides[k + 1..])
    ensures Proper(overrides[..k] + overrides[k + 1..])
    ensures Applied(config, [overrides[k]] + overrides[..k] + overrides[k + 1..])
            == Applied(WithPath(config, overrides[k].path, Leaf(overrides[k].value)),
                       overrides[..k] + overrides[k + 1..])
  {
    var moved := [overrides[k]] + overrides[..k] + overrides[k + 1..];
    assert moved[1..] == overrides[..k] + overrides[k + 1..];
  }

  lemma HarmlessAfterMove(overrides: seq<Override>, k: nat)
    requires k < |overrides| && PairwiseHarmless(overrides)
    ensures PairwiseHarmless(overrides[..k] + overrides[k + 1..])
  {
  }

  lemma {:induction false} HarmlessInAnyOrder(config: Entries, o: seq<Override>, p: seq<Override>)
    requires Proper(o) && Proper(p) && multiset(o) == multiset(p) && PairwiseHarmless(p)
    ensures Applied(config, o) == Applied(config, p)
    decreases |o|
  {
    if o == [] {
      PermutedMembers(o, p);
    } else {
      var k := FindIn(o[0], o, p);
      WithoutOne(p, k);
      WithoutFirst(o);
      var rest := p[..k] + p[k + 1..];
      MoveToFront(config, p, k);
      AppliedFront(config, p, k);
      HarmlessAfterMove(p, k);
      HarmlessInAnyOrder(WithPath(config, o[0].path, Leaf(o[0].value)), o[1..], rest);
    }
  }

  /** Every order in which the environment can list the overrides gives the same result. */
  ghost predicate OrderIrrelevant(config: Entries, overrides: seq<Override>)
    requires Proper(overrides)
  {
    forall o :: Proper(o) && multiset(o) == multiset(overrides) ==> Applied(config, o) == Applied(config, overrides)
  }

  /** The overrides without those at `i` and `j`. */
  function Rest(overrides: seq<Override>, i: nat, j: nat): seq<Override>
    requires i < j < |overrides|
  {
    overrides[..i] + overrides[i + 1..j] + overrides[j + 1..]
  }

  lemma PairLastPermutes(overrides: seq<Override>, i: nat, j: nat)
    requires i < j < |overrides| && Proper(overrides)
    ensures var rest, o, p := Rest(overrides, i, j), overrides[i], overrides[j];
      && Proper(rest)
      && multiset(rest + [o, p]) == multiset(overrides) && multiset(rest + [p, o]) == multiset(overrides)
  {
    var rest, o, p := Rest(overrides, i, j), overrides[i], overrides[j];
    assert overrides == overrides[..i] + [o] + overrides[i + 1..j] + [p] + overrides[j + 1..];
    forall x | x in rest ensures x in overrides {
    }
    forall k | 0 <= k < |rest| ensures rest[k].path != [] {
      assert rest[k] in rest;
    }
  }

  lemma {:induction false} AppliedConcat(config: Entries, first: seq<Override>, second: seq<Override>)
    requires Proper(first) && Proper(second)
    ensures Proper(first + second)
    ensures Applied(config, first + second) == Applied(Applied(config, first), second)
    decreases |first|
  {
    if first == [] {
      assert first + second == second;
    } else {
      AppliedConcat(WithPath(config, first[0].path, Leaf(first[0].value)), first[1..], second);
      assert (first + second)[1..] == first[1..] + second;
    }
  }

  lemma LastTwo(config: Entries, rest: seq<Override>, o: Override, p: Override)
    requires Proper(rest) && o.path != [] && p.path != []
    ensures Proper(rest + [o, p]) && Applied(config, rest + [o, p]) == Both(Applied(config, rest), o, p)
  {
    var two := [o, p];
    assert two[1..] == [p] && two[1..][1..] == [];
    AppliedConcat(config, rest, two);
    AppliedTwo(Applied(config, rest), two);
  }

  /** If two overrides do not commute, the order of the last two matters. */
  lemma HarmfulPairShows(config: Entries, overrides: seq<Override>, i: nat, j: nat)
    requires Proper(overrides) && i < j < |overrides| && !Harmless(overrides[i], overrides[j])
    ensures !OrderIrrelevant(config, overrides)
  {
    var rest, o, p := Rest(overrides, i, j), overrides[i], overrides[j];
    PairLastPermutes(overrides, i, j);
    LastTwo(config, rest, o, p);
    LastTwo(config, rest, p, o);
    HarmlessCommutes(Applied(config, rest), o, p);
  }

  /** The result of a set of overrides does not depend on the order in which the environment
      lists them exactly when every two of them are apart or equal. */
  lemma EnvironmentOrderIrrelevantIff(config: Entries, overrides: seq<Override>)
    requires Proper(overrides)
    ensures OrderIrrelevant(config, overrides) <==> PairwiseHarmless(overrides)
  {
    if PairwiseHarmless(overrides) {
      forall o | Proper(o) && multiset(o) == multiset(overrides)
        ensures Applied(config, o) == Applied(config, overrides)
      {
        HarmlessInAnyOrder(config, o, overrides);
      }
    } else {
      var i, j :| 0 <= i < j < |overrides| && !Harmless(overrides[i], overrides[j]);
      HarmfulPairShows(config, overrides, i, j);
    }
  }

  lemma {:induction false} ApartKeeps(d: Entries, path: Path, v: Value, other: Path)
    requires Apart(path, other)
    ensures At(Dict(WithPath(d, path, v)), other) == At(Dict(d), other)
    decreases |path|
  {
    if path[0] == other[0] {
      ApartKeeps(Entered(d, path[0]), path[1..], v, other[1..]);
    }
  }

  /** Every override is read back from the configuration they are all applied to. */
  lemma {:induction false} AllReadBack(config: Entries, overrides: seq<Override>, i: nat)
    requires i < |overrides| && Proper(overrides) && PairwiseHarmless(overrides)
    ensures At(Dict(Applied(config, overrides)), overrides[i].path) == Some(Leaf(overrides[i].value))
    decreases |overrides|
  {
    var next := WithPath(config, overrides[0].path, Leaf(overrides[0].value));
    if i > 0 {
      AllReadBack(next, overrides[1..], i - 1);
    } else {
      ReadsBack(config, overrides[0].path, Leaf(overrides[0].value));
      forall j | 0 < j < |overrides| ensures Harmless(overrides[j], overrides[0]) {
        assert Harmless(overrides[0], overrides[j]);
        ApartIsSymmetric(overrides[0].path, overrides[j].path);
      }
      LaterKeep(next, overrides[1..], overrides[0]);
    }
  }

  /** A path that is apart from all of them reads as before. */
  lemma {:induction false} OthersReadAsBefore(config: Entries, overrides: seq<Override>, path: Path)
    requires Proper(overrides) && forall i :: 0 <= i < |overrides| ==> Apart(overrides[i].path, path)
    ensures At(Dict(Applied(config, overrides)), path) == At(Dict(config), path)
    decreases |overrides|
  {
    if overrides != [] {
      ApartKeeps(config, overrides[0].path, Leaf(overrides[0].value), path);
      OthersReadAsBefore(WithPath(config, overrides[0].path, Leaf(overrides[0].value)), overrides[1..], path);
    }
  }

  lemma {:induction false} LaterKeep(config: Entries, overrides: seq<Override>, o: Override)
    requires o.path != [] && Proper(overrides)
    requires forall i :: 0 <= i < |overrides| ==> Harmless(overrides[i], o)
    requires At(Dict(config), o.path) == Some(Leaf(o.value))
    ensures At(Dict(Applied(config, overrides)), o.path) == Some(Leaf(o.value))
    decreases |overrides|
  {
    if overrides != [] {
      if overrides[0] == o {
        ReadsBack(config, o.path, Leaf(o.value));
      } else {
        ApartKeeps(config, overrides[0].path, Leaf(overrides[0].value), o.path);
      }
      LaterKeep(WithPath(config, overrides[0].path, Leaf(overrides[0].value)), overrides[1..], o);
    }
  }

  // ----- defaults for data paths -----

  datatype Default = Default(section: string, key: string, value: Scalar)

  /** The section is there but is no dictionary, so it has no `setdefault`. */
  predicate Refuses(config: Entries, section: string) {
    section in config && config[section].Leaf?
  }

  predicate NoneRefused(config: Entries, defaults: seq<Default>) {
    forall i :: 0 <= i < |defaults| ==> !Refuses(config, defaults[i].section)
  }

  function WithDefault(config: Entries, x: Default): Entries {
    var section := Entered(config, x.section);
    config[x.section := Dict(if x.key in section then section else section[x.key := Leaf(x.value)])]
  }

  function WithDefaults(config: Entries, defaults: seq<Default>): Entries {
    if defaults == [] then config
    else WithDefault(WithDefaults(config, defaults[..|defaults| - 1]), defaults[|defaults| - 1])
  }

  lemma {:induction false} DefaultsKeepSections(config: Entries, defaults: seq<Default>, section: string)
    requires NoneRefused(config, defaults)
    ensures Refuses(WithDefaults(config, defaults), section) <==> Refuses(config, section)
  {
    if defaults != [] {
      var n := |defaults| - 1;
      DefaultsKeepSections(config, defaults[..n], section);
      DefaultsKeepSections(config, defaults[..n], defaults[n].section);
      assert !Refuses(config, defaults[n].section);
    }
  }

  predicate NotAmong(defaults: seq<Default>, section: string, key: string) {
    forall i :: 0 <= i < |defaults| ==> defaults[i].section != section || defaults[i].key != key
  }

  /** Every default whose key is missing is filled in, the first one if there are several; no
      key that is there changes, and no other section does. */
  lemma {:induction false} DefaultsFillIn(config: Entries, defaults: seq<Default>, section: string, key: string)
    requires NoneRefused(config, defaults)
    ensures var path := [section, key];
      var before, after := At(Dict(config), path), At(Dict(WithDefaults(config, defaults)), path);
      && (before.Some? ==> after == before)
      && (before.None? && NotAmong(defaults, section, key) ==> after == None)
      && (forall i :: 0 <= i < |defaults| && before.None? && NotAmong(defaults[..i], section, key) ==>
            (defaults[i].section == section && defaults[i].key == key ==> after == Some(Leaf(defaults[i].value))))
    ensures (forall i :: 0 <= i < |defaults| ==> defaults[i].section != section) ==>
              At(Dict(WithDefaults(config, defaults)), [section]) == At(Dict(config), [section])
    decreases |defaults|
  {
    AtTwo(config, section, key);
    AtTwo(WithDefaults(config, defaults), section, key);
    if defaults != [] {
      var n := |defaults| - 1;
      assert forall i :: 0 <= i < n ==> defaults[..n][i] == defaults[i] && defaults[..n][..i] == defaults[..i];
      DefaultsFillIn(config, defaults[..n], section, key);
      DefaultsKeepSections(config, defaults[..n], defaults[n].section);
      assert !Refuses(config, defaults[n].section);
      AtTwo(WithDefaults(config, defaults[..n]), section, key);
    }
  }

  lemma AtTwo(d: Entries, section: string, key: string)
    ensures At(Dict(d), [section]) == if section in d then Some(d[section]) else None
    ensures At(Dict(d), [section, key]) ==
            if section in d && d[section].Dict? && key in d[section].entries then Some(d[section].entries[key])
            else None
  {
    assert [section][1..] == [] && [section, key][1..] == [key] && [key][1..] == [];
    if section in d {
      assert At(d[section], [key]) == if d[section].Dict? && key in d[section].entries
                                      then At(d[section].entries[key], []) else None;
    }
  }

  function DefaultLayer(defaults: seq<Default>): Entries {
    if defaults == [] then map[]
    else
      var x := defaults[|defaults| - 1];
      Merged(OnePath([x.section, x.key], Leaf(x.value)).entries, DefaultLayer(defaults[..|defaults| - 1]))
  }

  /** A layer of sections that hold scalars only. */
  predicate Flat(layer: Entries) {
    forall s :: s in layer ==> layer[s].Dict? && forall k :: k in layer[s].entries ==> layer[s].entries[k].Leaf?
  }

  lemma OneDefault(x: Default)
    ensures OnePath([x.section, x.key], Leaf(x.value)) == Dict(map[x.section := Dict(map[x.key := Leaf(x.value)])])
  {
    assert [x.section, x.key][1..] == [x.key] && [x.key][1..] == [];
    assert OnePath([x.key], Leaf(x.value)) == Dict(map[x.key := OnePath([], Leaf(x.value))]);
  }

  lemma {:induction false} LayerIsFlat(defaults: seq<Default>)
    ensures Flat(DefaultLayer(defaults))
  {
    if defaults != [] {
      var x := defaults[|defaults| - 1];
      LayerIsFlat(defaults[..|defaults| - 1]);
      OneDefault(x);
      MergedIsFlat(map[x.section := Dict(map[x.key := Leaf(x.value)])], DefaultLayer(defaults[..|defaults| - 1]));
    }
  }

  lemma MergedIsFlat(upper: Entries, layer: Entries)
    requires Flat(upper) && Flat(layer)
    ensures Flat(Merged(upper, layer))
  {
    var merged := Merged(upper, layer);
    forall s | s in merged
      ensures merged[s].Dict? && forall k :: k in merged[s].entries ==> merged[s].entries[k].Leaf?
    {
      if s in layer {
        MergedAt(upper, layer, s);
      }
    }
  }

  lemma DefaultRegroups(x: Default, layer: Entries, config: Entries)
    requires Flat(layer) && !Refuses(config, x.section)
    ensures Regroupable(Dict(map[x.section := Dict(map[x.key := Leaf(x.value)])]), Dict(layer), Dict(config))
  {
    if x.section in layer && x.section in config {
      assert Regroupable(Dict(map[x.key := Leaf(x.value)]), layer[x.section], config[x.section]);
    }
  }

  lemma DefaultIsMerging(config: Entries, x: Default)
    requires !Refuses(config, x.section)
    ensures WithDefault(config, x) == Merged(OnePath([x.section, x.key], Leaf(x.value)).entries, config)
  {
    OneDefault(x);
    var one := map[x.key := Leaf(x.value)];
    var left, right := WithDefault(config, x), Merged(map[x.section := Dict(one)], config);
    assert left.Keys == right.Keys;
    if x.section in config {
      var section := config[x.section].entries;
      assert Over(Dict(one), Dict(section)).entries
             == if x.key in section then section else section[x.key := Leaf(x.value)];
    }
  }

  /** Filling in the defaults is putting them under the configuration as its lowest layer. */
  lemma {:induction false} DefaultsAreLowestLayer(config: Entries, defaults: seq<Default>)
    requires NoneRefused(config, defaults)
    ensures WithDefaults(config, defaults) == Merged(DefaultLayer(defaults), config)
  {
    if defaults == [] {
      MergeLaws(config, map[]);
    } else {
      var n := |defaults| - 1;
      var x, rest := defaults[n], DefaultLayer(defaults[..n]);
      DefaultsAreLowestLayer(config, defaults[..n]);
      DefaultsKeepSections(config, defaults[..n], x.section);
      DefaultIsMerging(WithDefaults(config, defaults[..n]), x);
      LayerIsFlat(defaults[..n]);
      OneDefault(x);
      assert !Refuses(config, x.section);
      DefaultRegroups(x, rest, config);
      OverAssociativeIff(OnePath([x.section, x.key], Leaf(x.value)), Dict(rest), Dict(config));
    }
  }

  /** A configured scalar is never replaced; a default is read where the configuration is silent. */
  lemma DefaultsNeverOverride(config: Entries, defaults: seq<Default>, path: Path, s: Scalar)
    requires NoneRefused(config, defaults)
    ensures At(Dict(WithDefaults(config, defaults)), path) == Some(Leaf(s)) <==>
      At(Dict(config), path) == Some(Leaf(s))
      || (At(Dict(DefaultLayer(defaults)), path) == Some(Leaf(s)) && Silent(Dict(config), path))
  {
    DefaultsAreLowestLayer(config, defaults);
    MergeReads(Dict(DefaultLayer(defaults)), Dict(config), path, s);
  }

  /** How many defaults are filled in before a section refuses. */
  function Accepted(config: Entries, defaults: seq<Default>): (n: nat)
    ensures n <= |defaults|
    ensures NoneRefused(config, defaults[..n])
    ensures n < |defaults| ==> Refuses(config, defaults[n].section)
  {
    if defaults == [] then 0
    else
      var n := |defaults| - 1;
      var before := Accepted(config, defaults[..n]);
      if before < n || Refuses(config, defaults[n].section) then before
      else n + 1
  }

  lemma NextDefault(config: Entries, defaults: seq<Default>, i: nat)
    requires i < |defaults| && NoneRefused(config, defaults[..i])
    ensures WithDefaults(config, defaults[..i + 1]) == WithDefault(WithDefaults(config, defaults[..i]), defaults[i])
    ensures var refused := Refuses(config, defaults[i].section);
      && (Refuses(WithDefaults(config, defaults[..i]), defaults[i].section) <==> refused)
      && (refused ==> !NoneRefused(config, defaults) && Accepted(config, defaults) == i)
      && (!refused ==> NoneRefused(config, defaults[..i + 1]))
  {
    assert defaults[..i + 1][..i] == defaults[..i];
    DefaultsKeepSections(config, defaults[..i], defaults[i].section);
    var n := Accepted(config, defaults);
    if i < n {
      assert defaults[..n][i] == defaults[i];
    }
  }

  /** In terms of single writes. */
  lemma DefaultIsWriting(config: Entries, x: Default)
    requires !Refuses(config, x.section)
    ensures var open := if x.section in config then config else WithPath(config, [x.section], Dict(map[]));
      WithDefault(config, x)
      == if x.key in Entered(config, x.section) then open else WithPath(open, [x.section] + [x.key], Leaf(x.value))
  {
    var path := [x.section] + [x.key];
    assert path[1..] == [x.key];
    assert x.section in config && x.key in Entered(config, x.section) ==> WithDefault(config, x) == config;
  }

  // ----- the builder -----

  /** A proper prefix of the path holds something that is neither missing, nor `None`, nor
      a dictionary. */
  ghost predicate Blocked(d: Entries, path: Path) {
    exists n :: 0 < n < |path| && BlockedAt(d, path, n)
  }

  predicate BlockedAt(d: Entries, path: Path, n: nat)
    requires n <= |path|
  {
    var x := At(Dict(d), path[..n]);
    x.Some? && x.value.Leaf? && x.value.scalar != Nil
  }

  /** The shortest path that can be blocked: by a scalar other than `None`, and by nothing else. */
  lemma BlockedAtOnce(d: Entries, first: string, second: string)
    ensures Blocked(d, [first, second]) <==> first in d && d[first].Leaf? && d[first].scalar != Nil
  {
    BlockedStep(d, [first, second]);
    assert [first, second][1..] == [second];
    assert !Blocked(Entered(d, first), [second]);
  }

  lemma {:induction false} BlockedStep(d: Entries, path: Path)
    requires |path| > 1
    ensures Blocked(d, path) <==>
      (path[0] in d && d[path[0]].Leaf? && d[path[0]].scalar != Nil) || Blocked(Entered(d, path[0]), path[1..])
  {
    var sub := Entered(d, path[0]);
    forall n | 0 < n < |path| - 1
      ensures BlockedAt(d, path, n + 1) <==> BlockedAt(sub, path[1..], n)
    {
      assert path[..n + 1][1..] == path[1..][..n];
      assert path[..n + 1][0] == path[0];
      assert At(Dict(d), path[..n + 1]) == if path[0] in d then At(d[path[0]], path[1..][..n]) else None;
      if path[0] in d && d[path[0]].Dict? {
        assert Dict(sub) == d[path[0]];
      }
    }
    assert path[..1] == [path[0]] && path[..1][1..] == [];
    assert At(Dict(d), path[..1]) == if path[0] in d then At(d[path[0]], []) else None;
    assert BlockedAt(d, path, 1) <==> path[0] in d && d[path[0]].Leaf? && d[path[0]].scalar != Nil;
    if Blocked(d, path) {
      var n :| 0 < n < |path| && BlockedAt(d, path, n);
      if n > 1 {
        assert BlockedAt(sub, path[1..], n - 1);
      }
    }
    if Blocked(sub, path[1..]) {
      var n :| 0 < n < |path[1..]| && BlockedAt(sub, path[1..], n);
      assert BlockedAt(d, path, n + 1);
    }
  }
}
