/**
 Layered configuration: recursive merging of nested dictionaries and its algebra.
 */
module ConfigMerge {
  import opened SharedTypes

  /** Everything that is not a dictionary, lists included. */
  datatype Scalar = Nil | Datum(text: string)

  datatype Value = Leaf(scalar: Scalar) | Dict(entries: map<string, Value>)

  type Entries = map<string, Value>

  /** The merge seen from values: two dictionaries merge, anything else is replaced. */
  function Over(base: Value, override: Value): Value
    decreases override
  {
    if base.Dict? && override.Dict? then
      Dict(map k | k in base.entries.Keys + override.entries.Keys ::
        if k !in override.entries then base.entries[k]
        else if k !in base.entries then override.entries[k]
        else Over(base.entries[k], override.entries[k]))
    else override
  }

  function Merged(base: Entries, override: Entries): Entries {
    Over(Dict(base), Dict(override)).entries
  }

  lemma MergedAt(base: Entries, override: Entries, key: string)
    requires key in override
    ensures key in Merged(base, override)
    ensures Merged(base, override)[key] == if key in base then Over(base[key], override[key]) else override[key]
  {
  }

  // ----- identity and absorption -----

  lemma {:induction false} OverSelf(a: Value)
    ensures Over(a, a) == a
  {
    if a.Dict? {
      forall k | k in a.entries ensures Over(a.entries[k], a.entries[k]) == a.entries[k] {
        OverSelf(a.entries[k]);
      }
    }
  }

  /** Every key path of `lower` is already in `upper`, as far down as both are dictionaries. */
  ghost predicate Covered(lower: Value, upper: Value)
    decreases upper
  {
    lower.Dict? && upper.Dict? ==>
      forall k :: k in lower.entries ==>
        k in upper.entries && Covered(lower.entries[k], upper.entries[k])
  }

  /** Merging changes nothing exactly when the base adds no key path. */
  lemma {:induction false} AbsorbsIffCovered(lower: Value, upper: Value)
    ensures Over(lower, upper) == upper <==> Covered(lower, upper)
    decreases upper
  {
    if lower.Dict? && upper.Dict? {
      var merged := Over(lower, upper);
      forall k | k in lower.entries && k in upper.entries
        ensures Over(lower.entries[k], upper.entries[k]) == upper.entries[k]
                <==> Covered(lower.entries[k], upper.entries[k])
      {
        AbsorbsIffCovered(lower.entries[k], upper.entries[k]);
      }
      if merged == upper {
        forall k | k in lower.entries ensures k in upper.entries {
          assert k in merged.entries;
        }
      }
      if Covered(lower, upper) {
        assert merged.entries.Keys == upper.entries.Keys;
      }
    }
  }

  lemma {:induction false} OverTwice(a: Value, b: Value)
    ensures Over(Over(a, b), b) == Over(a, b)
    decreases b
  {
    if a.Dict? && b.Dict? {
      forall k | k in b.entries ensures Over(Over(a, b).entries[k], b.entries[k]) == Over(a, b).entries[k] {
        if k in a.entries {
          OverTwice(a.entries[k], b.entries[k]);
        } else {
          OverSelf(b.entries[k]);
        }
      }
    } else {
      OverSelf(b);
    }
  }

  /** The empty dictionary is neutral on both sides, a layer merges with itself to itself,
      and merging the same override again changes nothing. */
  lemma MergeLaws(a: Entries, b: Entries)
    ensures Merged(a, map[]) == a && Merged(map[], a) == a
    ensures Merged(a, a) == a
    ensures Merged(Merged(a, b), b) == Merged(a, b)
  {
    OverSelf(Dict(a));
    OverTwice(Dict(a), Dict(b));
  }

  // ----- associativity -----

  /** Grouping of three layers does not matter here: a middle scalar that separates two
      dictionaries hides the lower one only if the upper one covers it. */
  ghost predicate Regroupable(a: Value, b: Value, c: Value)
    decreases c
  {
    if c.Leaf? || (a.Leaf? && b.Leaf?) then true
    else if b.Leaf? then Covered(a, c)
    else a.Dict? ==>
      forall k :: k in a.entries && k in b.entries && k in c.entries ==>
        Regroupable(a.entries[k], b.entries[k], c.entries[k])
  }

  lemma {:induction false} OverAssociativeIff(a: Value, b: Value, c: Value)
    ensures Over(Over(a, b), c) == Over(a, Over(b, c)) <==> Regroupable(a, b, c)
    decreases c
  {
    if c.Dict? && b.Leaf? && a.Dict? {
      AbsorbsIffCovered(a, c);
    } else if a.Dict? && b.Dict? && c.Dict? {
      var left, right := Over(Over(a, b), c), Over(a, Over(b, c));
      assert left.entries.Keys == right.entries.Keys;
      forall k | k in left.entries
        ensures left.entries[k] == right.entries[k] <==>
          (k in a.entries && k in b.entries && k in c.entries ==>
             Regroupable(a.entries[k], b.entries[k], c.entries[k]))
      {
        if k in a.entries && k in b.entries && k in c.entries {
          OverAssociativeIff(a.entries[k], b.entries[k], c.entries[k]);
        }
      }
    }
  }

  /** The value at a key path. */
  function At(v: Value, path: seq<string>): Option<Value> {
    if path == [] then Some(v)
    else if v.Dict? && path[0] in v.entries then At(v.entries[path[0]], path[1..])
    else None
  }

  /** A dictionary, a scalar and a dictionary meet at the path. */
  ghost predicate Clash(a: Value, b: Value, c: Value, path: seq<string>) {
    var x, y, z := At(a, path), At(b, path), At(c, path);
    x.Some? && y.Some? && z.Some? && x.value.Dict? && y.value.Leaf? && z.value.Dict?
  }

  lemma {:induction false} HarmlessClashes(a: Value, b: Value, c: Value)
    ensures Regroupable(a, b, c) <==>
      forall path :: Clash(a, b, c, path) ==> Covered(At(a, path).value, At(c, path).value)
    decreases c
  {
    if a.Dict? && b.Dict? && c.Dict? {
      forall k | k in a.entries && k in b.entries && k in c.entries
        ensures Regroupable(a.entries[k], b.entries[k], c.entries[k]) <==> ClashesBelowHarmless(a, b, c, k)
      {
        HarmlessClashes(a.entries[k], b.entries[k], c.entries[k]);
        ClashesUnder(a, b, c, k);
      }
      if Regroupable(a, b, c) {
        forall path | Clash(a, b, c, path) ensures Covered(At(a, path).value, At(c, path).value) {
          assert ClashesBelowHarmless(a, b, c, path[0]);
          assert path == [path[0]] + path[1..];
        }
      }
    } else {
      assert At(a, []) == Some(a) && At(b, []) == Some(b) && At(c, []) == Some(c);
      assert Clash(a, b, c, []) <==> a.Dict? && b.Leaf? && c.Dict?;
      forall path | Clash(a, b, c, path) ensures path == [] {
      }
    }
  }

  ghost predicate ClashesBelowHarmless(a: Value, b: Value, c: Value, k: string) {
    forall path :: Clash(a, b, c, [k] + path) ==> Covered(At(a, [k] + path).value, At(c, [k] + path).value)
  }

  lemma ClashesUnder(a: Value, b: Value, c: Value, k: string)
    requires a.Dict? && b.Dict? && c.Dict? && k in a.entries && k in b.entries && k in c.entries
    ensures ClashesBelowHarmless(a, b, c, k) <==>
      forall path :: Clash(a.entries[k], b.entries[k], c.entries[k], path) ==>
        Covered(At(a.entries[k], path).value, At(c.entries[k], path).value)
  {
    forall path
      ensures At(a, [k] + path) == At(a.entries[k], path)
      ensures At(b, [k] + path) == At(b.entries[k], path)
      ensures At(c, [k] + path) == At(c.entries[k], path)
    {
      assert ([k] + path)[1..] == path;
    }
    if ClashesBelowHarmless(a, b, c, k) {
      forall path | Clash(a.entries[k], b.entries[k], c.entries[k], path)
        ensures Covered(At(a.entries[k], path).value, At(c.entries[k], path).value)
      {
        assert Clash(a, b, c, [k] + path);
      }
    } else {
      var path :| Clash(a, b, c, [k] + path) && !Covered(At(a, [k] + path).value, At(c, [k] + path).value);
      assert Clash(a.entries[k], b.entries[k], c.entries[k], path);
    }
  }

  /** Three layers group either way exactly when, wherever a scalar of the middle layer
      sits between two dictionaries, the upper one has every key path of the lower one.
      In particular merging is associative when there is no such place. */
  lemma MergeAssociativeIff(a: Entries, b: Entries, c: Entries)
    ensures Merged(Merged(a, b), c) == Merged(a, Merged(b, c)) <==>
      forall path :: Clash(Dict(a), Dict(b), Dict(c), path) ==>
        Covered(At(Dict(a), path).value, At(Dict(c), path).value)
  {
    OverAssociativeIff(Dict(a), Dict(b), Dict(c));
    HarmlessClashes(Dict(a), Dict(b), Dict(c));
  }

  /** The smallest layers that do not regroup. */
  lemma MergeNotAssociative()
    ensures var a: Entries := map["k" := Dict(map["x" := Leaf(Nil)])];
      var b: Entries := map["k" := Leaf(Nil)];
      var c: Entries := map["k" := Dict(map[])];
      Merged(Merged(a, b), c) != Merged(a, Merged(b, c))
  {
    var a: Entries := map["k" := Dict(map["x" := Leaf(Nil)])];
    var b: Entries := map["k" := Leaf(Nil)];
    var c: Entries := map["k" := Dict(map[])];
    OverAssociativeIff(Dict(a), Dict(b), Dict(c));
    assert !Covered(a["k"], c["k"]) by {
      assert "x" in a["k"].entries;
    }
    assert !Regroupable(a["k"], b["k"], c["k"]);
  }

  // ----- what a merged configuration reads back -----

  /** The override says nothing about the path: some step of it is missing there. */
  predicate Silent(override: Value, path: seq<string>) {
    if path == [] || override.Leaf? then false
    else path[0] !in override.entries || Silent(override.entries[path[0]], path[1..])
  }

  /** A scalar is read at a path of a merge exactly when the override has it there, or the
      base has it and the override is silent about the path. */
  lemma {:induction false} MergeReads(base: Value, override: Value, path: seq<string>, s: Scalar)
    ensures At(Over(base, override), path) == Some(Leaf(s)) <==>
      At(override, path) == Some(Leaf(s)) || (At(base, path) == Some(Leaf(s)) && Silent(override, path))
    decreases path
  {
    if path != [] && base.Dict? && override.Dict? && path[0] in base.entries && path[0] in override.entries {
      MergeReads(base.entries[path[0]], override.entries[path[0]], path[1..], s);
    }
    if path != [] && override.Dict? && path[0] in override.entries {
      SilentIsAbsent(override.entries[path[0]], path[1..]);
    }
  }

  /** Something is found at a path of a merge exactly when the override has something there, or
      the base has and the override is silent about the path. */
  lemma {:induction false} MergeFinds(base: Value, override: Value, path: seq<string>)
    ensures At(Over(base, override), path).Some? <==>
      At(override, path).Some? || (At(base, path).Some? && Silent(override, path))
    decreases path
  {
    if path != [] && base.Dict? && override.Dict? && path[0] in base.entries && path[0] in override.entries {
      MergeFinds(base.entries[path[0]], override.entries[path[0]], path[1..]);
    }
    if path != [] && override.Dict? && path[0] in override.entries {
      SilentIsAbsent(override.entries[path[0]], path[1..]);
    }
  }

  lemma {:induction false} SilentIsAbsent(v: Value, path: seq<string>)
    ensures Silent(v, path) ==> At(v, path) == None
  {
    if path != [] && v.Dict? && path[0] in v.entries {
      SilentIsAbsent(v.entries[path[0]], path[1..]);
    }
  }
}
