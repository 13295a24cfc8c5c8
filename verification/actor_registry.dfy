/**
 The actor registry: registrations with three secondary indexes, and the query that
 intersects them, against a plain scan of all actors.
 */
module ActorRegistration {
  import opened SharedTypes

  type Record = map<string, string>

  /** `friction` is the category of the friction profile, if there is one; `permissions` is
      empty unless it is a mapping, and so is `budget` absent. */
  datatype Actor = Actor(
    id: ActorId, actorType: string, role: string, team: Option<string>, friction: Option<string>,
    permissions: Record, budget: Option<Record>)

  predicate DistinctIds(actors: seq<Actor>) {
    forall i, j :: 0 <= i < j < |actors| ==> actors[i].id != actors[j].id
  }

  /** Ids of the actors with the given index key, in registration order. */
  function IdsBy(actors: seq<Actor>, key: Actor -> Option<string>, k: string): (ids: seq<ActorId>) {
    if actors == [] then []
    else
      var last := actors[|actors| - 1];
      IdsBy(actors[..|actors| - 1], key, k) + (if key(last) == Some(k) then [last.id] else [])
  }

  lemma {:induction false} IdsByMembers(actors: seq<Actor>, key: Actor -> Option<string>, k: string)
    ensures forall id :: id in IdsBy(actors, key, k) <==> exists a :: a in actors && a.id == id && key(a) == Some(k)
  {
    if actors != [] {
      var n := |actors| - 1;
      IdsByMembers(actors[..n], key, k);
      assert actors == actors[..n] + [actors[n]];
    }
  }

  predicate Once(ids: seq<ActorId>) {
    forall i, j :: 0 <= i < j < |ids| ==> ids[i] != ids[j]
  }

  /** Each id is in its bucket once. */
  lemma {:induction false} IdsByOnce(actors: seq<Actor>, key: Actor -> Option<string>, k: string)
    requires DistinctIds(actors)
    ensures Once(IdsBy(actors, key, k))
  {
    if actors != [] {
      var n := |actors| - 1;
      IdsByOnce(actors[..n], key, k);
      IdsByMembers(actors[..n], key, k);
      LastIsNew(actors);
      OnceMore(IdsBy(actors[..n], key, k), actors[n].id);
    }
  }

  lemma OnceMore(ids: seq<ActorId>, id: ActorId)
    requires id !in ids && Once(ids)
    ensures Once(ids + [id])
  {
    assert forall i :: 0 <= i < |ids| ==> ids[i] in ids;
  }

  lemma LastIsNew(actors: seq<Actor>)
    requires actors != [] && DistinctIds(actors)
    ensures var n := |actors| - 1; forall a :: a in actors[..n] ==> a.id != actors[n].id
  {
  }

  function Bucket(index: map<string, seq<ActorId>>, k: string): seq<ActorId> {
    if k in index then index[k] else []
  }

  ghost predicate Indexes(index: map<string, seq<ActorId>>, actors: seq<Actor>, key: Actor -> Option<string>) {
    forall k :: Bucket(index, k) == IdsBy(actors, key, k)
  }

  lemma IndexGrows(index: map<string, seq<ActorId>>, actors: seq<Actor>, key: Actor -> Option<string>, a: Actor)
    requires Indexes(index, actors, key)
    ensures key(a).Some? ==>
              Indexes(index[key(a).value := Bucket(index, key(a).value) + [a.id]], actors + [a], key)
    ensures key(a).None? ==> Indexes(index, actors + [a], key)
  {
    assert (actors + [a])[..|actors|] == actors;
    forall k ensures IdsBy(actors + [a], key, k) ==
                     if key(a) == Some(k) then IdsBy(actors, key, k) + [a.id] else IdsBy(actors, key, k)
    {
    }
  }

  ghost predicate ById(byId: map<ActorId, Actor>, actors: seq<Actor>) {
    && (forall a :: a in actors ==> a.id in byId && byId[a.id] == a)
    && (forall id :: id in byId ==> byId[id] in actors && byId[id].id == id)
  }

  lemma ByIdGrows(byId: map<ActorId, Actor>, actors: seq<Actor>, a: Actor)
    requires ById(byId, actors) && DistinctIds(actors) && a.id !in byId
    ensures ById(byId[a.id := a], actors + [a]) && DistinctIds(actors + [a])
  {
    assert forall b :: b in actors + [a] <==> b in actors || b == a;
    assert forall i :: 0 <= i < |actors| ==> actors[i] in actors;
  }

  /** Query filters; `team` can be asked to be `None`. */
  datatype Filters = Filters(
    role: Option<string>, actorType: Option<string>, team: Option<Option<string>>,
    hasFriction: Option<bool>, category: Option<string>)

  predicate MatchesFriction(a: Actor, f: Filters) {
    && (f.hasFriction.Some? ==> a.friction.Some? == f.hasFriction.value)
    && (f.category.Some? ==> a.friction == Some(f.category.value))
  }

  predicate MatchesBesidesTeam(a: Actor, f: Filters) {
    && (f.role.Some? ==> a.role == f.role.value)
    && (f.actorType.Some? ==> a.actorType == f.actorType.value)
    && MatchesFriction(a, f)
  }

  /** The plain meaning of the filters: all of them hold of the actor. */
  predicate Matches(a: Actor, f: Filters) {
    MatchesBesidesTeam(a, f) && (f.team.Some? ==> a.team == f.team.value)
  }

  /** The results are, as a set without repetitions, what a scan of all actors selects. */
  ghost predicate IsScan(results: seq<Actor>, actors: seq<Actor>, f: Filters) {
    DistinctIds(results) && forall a :: a in results <==> a in actors && Matches(a, f)
  }

  function Kept(s: seq<Actor>, p: Actor -> bool): (r: seq<Actor>)
    ensures forall a :: a in r <==> a in s && p(a)
  {
    if s == [] then []
    else if p(s[0]) then [s[0]] + Kept(s[1..], p) else Kept(s[1..], p)
  }

  lemma {:induction false} KeptDistinct(s: seq<Actor>, p: Actor -> bool)
    requires DistinctIds(s)
    ensures DistinctIds(Kept(s, p))
  {
    if s != [] {
      KeptDistinct(s[1..], p);
      assert forall a :: a in s[1..] ==> a.id != s[0].id;
      var tail := Kept(s[1..], p);
      assert forall i :: 0 <= i < |tail| ==> tail[i] in tail && tail[i] in s[1..];
    }
  }

  function RoleOf(): Actor -> Option<string> { (a: Actor) => Some(a.role) }
  function TypeOf(): Actor -> Option<string> { (a: Actor) => Some(a.actorType) }
  function TeamOf(): Actor -> Option<string> { (a: Actor) => a.team }

  class ActorRegistry {
    /** The dictionary's entries in insertion order, and the dictionary itself. */
    var actors: seq<Actor>
    var byId: map<ActorId, Actor>
    var roleIndex: map<string, seq<ActorId>>
    var typeIndex: map<string, seq<ActorId>>
    var teamIndex: map<string, seq<ActorId>>

    ghost predicate Valid()
      reads this
    {
      && DistinctIds(actors)
      && ById(byId, actors)
      && Indexes(roleIndex, actors, RoleOf())
      && Indexes(typeIndex, actors, TypeOf())
      && Indexes(teamIndex, actors, TeamOf())
    }

    constructor ()
      ensures Valid() && actors == []
    {
      actors, byId, roleIndex, typeIndex, teamIndex := [], map[], map[], map[], map[];
    }

    /** False where the program raises: the id is taken, and nothing changes. */
    method Register(actor: Actor) returns (ok: bool)
      requires Valid()
      modifies this
      ensures Valid()
      ensures ok <==> forall a :: a in old(actors) ==> a.id != actor.id
      ensures actors == if ok then old(actors) + [actor] else old(actors)
    {
      if actor.id in byId {
        return false;
      }
      ByIdGrows(byId, actors, actor);
      IndexGrows(roleIndex, actors, RoleOf(), actor);
      IndexGrows(typeIndex, actors, TypeOf(), actor);
      IndexGrows(teamIndex, actors, TeamOf(), actor);
      actors := actors + [actor];
      byId := byId[actor.id := actor];
      roleIndex := roleIndex[actor.role := Bucket(roleIndex, actor.role) + [actor.id]];
      typeIndex := typeIndex[actor.actorType := Bucket(typeIndex, actor.actorType) + [actor.id]];
      if actor.team.Some? {
        teamIndex := teamIndex[actor.team.value := Bucket(teamIndex, actor.team.value) + [actor.id]];
      }
      ok := true;
    }

    /** A batch stops at its first duplicate; what came before it stays registered. */
    method RegisterBatch(batch: seq<Actor>) returns (count: nat)
      requires Valid()
      modifies this
      ensures Valid() && count <= |batch| && actors == old(actors) + batch[..count]
      ensures count < |batch| ==> exists a :: a in actors && a.id == batch[count].id
    {
      count := 0;
      while count < |batch|
        invariant Valid() && count <= |batch| && actors == old(actors) + batch[..count]
      {
        var ok := Register(batch[count]);
        if !ok {
          return;
        }
        BatchGrows(old(actors), batch, count);
        count := count + 1;
      }
    }

    /** Asking for actors without a team finds nobody, because such actors are not in the team
        index. So a query is a scan exactly when it does not ask that, or no actor without a
        team meets the other filters. */
    method Query(f: Filters) returns (results: seq<Actor>)
      requires Valid()
      ensures f.team == Some(None) ==> results == []
      ensures f.team != Some(None) ==> IsScan(results, actors, f)
      ensures f.team != Some(None) ==> forall a :: a in results <==>
                && a in actors
                && (f.role.Some? ==> a.role == f.role.value)
                && (f.actorType.Some? ==> a.actorType == f.actorType.value)
                && (f.team.Some? ==> a.team == f.team.value)
                && (f.hasFriction == Some(true) ==> a.friction.Some?)
                && (f.hasFriction == Some(false) ==> a.friction.None?)
                && (f.category.Some? ==> a.friction == Some(f.category.value))
      ensures IsScan(results, actors, f) <==>
        (f.team == Some(None) ==> forall a :: a in actors && a.team == None ==> !MatchesBesidesTeam(a, f))
    {
      var ids := CandidateIds(f);
      var candidates := actors;
      if ids.Some? {
        candidates := Gather(ids.value);
      }
      results := FilterFriction(candidates, f);
      if f.team != Some(None) {
        CandidatesScan(results, candidates, ids, actors, f);
      } else {
        EmptyIsScanIff(actors, f);
      }
    }

    /** Intersection of the index buckets that the filters name. */
    method CandidateIds(f: Filters) returns (ids: Option<set<ActorId>>)
      requires Valid()
      ensures f.team == Some(None) ==> ids == Some({})
      ensures f.team != Some(None) ==> Selects(ids, actors, f.(hasFriction := None, category := None))
    {
      ids := None;
      if f.role.Some? {
        IdsByMembers(actors, RoleOf(), f.role.value);
        ids := Some(Narrowed(ids, Bucket(roleIndex, f.role.value)));
      }
      assert Selects(ids, actors, Filters(f.role, None, None, None, None));
      if f.actorType.Some? {
        IdsByMembers(actors, TypeOf(), f.actorType.value);
        ids := Some(Narrowed(ids, Bucket(typeIndex, f.actorType.value)));
      }
      assert Selects(ids, actors, Filters(f.role, f.actorType, None, None, None));
      if f.team.Some? {
        match f.team.value {
          case None =>
            ids := Some(Narrowed(ids, []));
            assert ids.value == {};
          case Some(t) =>
            IdsByMembers(actors, TeamOf(), t);
            ids := Some(Narrowed(ids, Bucket(teamIndex, t)));
        }
      }
    }

    /** The object-level filters, a linear scan of the candidates. */
    method FilterFriction(candidates: seq<Actor>, f: Filters) returns (results: seq<Actor>)
      requires DistinctIds(candidates)
      ensures DistinctIds(results)
      ensures forall a :: a in results <==> a in candidates && MatchesFriction(a, f)
      ensures candidates == [] ==> results == []
    {
      results := candidates;
      if f.hasFriction.Some? {
        KeptDistinct(results, (a: Actor) => a.friction.Some? == f.hasFriction.value);
        results := Kept(results, (a: Actor) => a.friction.Some? == f.hasFriction.value);
      }
      if f.category.Some? {
        KeptDistinct(results, (a: Actor) => a.friction == Some(f.category.value));
        results := Kept(results, (a: Actor) => a.friction == Some(f.category.value));
      }
    }

    /** The actors with the given ids, in whatever order the set is iterated. */
    method Gather(ids: set<ActorId>) returns (found: seq<Actor>)
      requires Valid()
      ensures DistinctIds(found)
      ensures forall a :: a in found <==> a in actors && a.id in ids
      ensures ids == {} ==> found == []
    {
      found := [];
      var rest := ids;
      while rest != {}
        invariant rest <= ids && DistinctIds(found)
        invariant forall a :: a in found <==> a in actors && a.id in ids && a.id !in rest
        invariant rest == ids ==> found == []
        decreases rest
      {
        var id :| id in rest;
        if id in byId {
          found := found + [byId[id]];
        }
        rest := rest - {id};
      }
    }
  }

  lemma BatchGrows(before: seq<Actor>, batch: seq<Actor>, count: nat)
    requires count < |batch|
    ensures before + batch[..count] + [batch[count]] == before + batch[..count + 1]
  {
  }

  /** The candidate ids so far stand for the actors that meet the filters applied so far. */
  ghost predicate Selects(ids: Option<set<ActorId>>, actors: seq<Actor>, g: Filters) {
    forall a :: a in actors ==> (Matches(a, g) <==> ids.None? || a.id in ids.value)
  }

  lemma CandidatesScan(results: seq<Actor>, candidates: seq<Actor>, ids: Option<set<ActorId>>, actors: seq<Actor>,
                       f: Filters)
    requires Selects(ids, actors, f.(hasFriction := None, category := None))
    requires forall a :: a in candidates <==> a in actors && (ids.None? || a.id in ids.value)
    requires DistinctIds(results)
    requires forall a :: a in results <==> a in candidates && MatchesFriction(a, f)
    ensures IsScan(results, actors, f)
  {
  }

  /** Intersection with a bucket; no filter so far means no restriction. */
  function Narrowed(ids: Option<set<ActorId>>, bucket: seq<ActorId>): (r: set<ActorId>)
    ensures forall id :: id in r <==> id in bucket && (ids.None? || id in ids.value)
  {
    var here := set id | id in bucket;
    match ids case None => here case Some(s) => s * here
  }

  lemma EmptyIsScanIff(actors: seq<Actor>, f: Filters)
    requires f.team == Some(None)
    ensures IsScan([], actors, f) <==> forall a :: a in actors && a.team == None ==> !MatchesBesidesTeam(a, f)
  {
    if IsScan([], actors, f) {
      forall a | a in actors && a.team == None ensures !MatchesBesidesTeam(a, f) {
        assert a !in [];
      }
    }
  }

  /** The smallest registry on which a query is no scan. */
  method TeamlessIsMissed(a: Actor) returns (registry: ActorRegistry, results: seq<Actor>)
    requires a.team == None
    ensures registry.Valid() && registry.actors == [a]
    ensures results == [] && !IsScan(results, [a], Filters(None, None, Some(None), None, None))
  {
    registry := new ActorRegistry();
    var ok := registry.Register(a);
    results := registry.Query(Filters(None, None, Some(None), None, None));
    assert a in registry.actors && MatchesBesidesTeam(a, Filters(None, None, Some(None), None, None));
  }
}
