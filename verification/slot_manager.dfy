/**
 The slot manager and the slot binding it owns, as objects; every method does what
 `SlotState` says to the four maps.
 */
module SlotManagement {
  import opened SharedTypes
  import opened ActorRegistration
  import opened SlotState

  class SlotBinding {
    const maxAgents: int
    var bindings: map<ActorId, Token>
    var sessions: map<Token, ActorId>

    constructor (maxAgents: int)
      ensures bindings == map[] && sessions == map[] && this.maxAgents == maxAgents
    {
      this.maxAgents := maxAgents;
      bindings, sessions := map[], map[];
    }

    method ClaimSlot(actor: ActorId, session: Token) returns (success: bool)
      modifies this
      ensures success <==> if actor in old(bindings) then old(bindings)[actor] == session
                           else |old(bindings)| < maxAgents
      ensures if success && actor !in old(bindings)
              then bindings == old(bindings)[actor := session] && sessions == old(sessions)[session := actor]
              else bindings == old(bindings) && sessions == old(sessions)
    {
      if actor in bindings {
        var existingSession := bindings[actor];
        if existingSession == session {
          return true;
        }
        return false;
      }
      if |bindings| >= maxAgents {
        return false;
      }
      bindings := bindings[actor := session];
      sessions := sessions[session := actor];
      success := true;
    }

    method ReleaseSlot(session: Token) returns (released: Option<ActorId>)
      modifies this
      ensures released == if session in old(sessions) then Some(old(sessions)[session]) else None
      ensures sessions == if released.Some? then old(sessions) - {session} else old(sessions)
      ensures bindings == if released.Some? then old(bindings) - {released.value} else old(bindings)
    {
      if session !in sessions {
        return None;
      }
      var actor := sessions[session];
      sessions := sessions - {session};
      bindings := bindings - {actor};
      released := Some(actor);
    }
  }

  datatype SlotInfo = SlotInfo(
    actorId: ActorId, role: string, permissions: Record, budget: Option<Record>, claimed: bool)

  function InfoOf(a: Actor, claimed: set<ActorId>): SlotInfo {
    SlotInfo(a.id, a.role, a.permissions, a.budget, a.id in claimed)
  }

  datatype RegistrationResult = RegistrationResult(
    agentToken: Token, actorId: ActorId, role: string, permissions: Record, budget: Option<Record>)

  const GATEWAY_ACTORS: set<ActorId> := {"http-agent", "mcp-agent"}

  predicate IsSlot(a: Actor) {
    a.actorType == "agent" && a.id !in GATEWAY_ACTORS
  }

  /** The slots of the registry, in registration order. */
  function SlotsOf(actors: seq<Actor>, claimed: set<ActorId>): seq<SlotInfo> {
    if actors == [] then []
    else
      var last := actors[|actors| - 1];
      SlotsOf(actors[..|actors| - 1], claimed)
      + (if IsSlot(last) then [InfoOf(last, claimed)] else [])
  }

  lemma {:induction false} SlotsAreAgents(actors: seq<Actor>, claimed: set<ActorId>)
    ensures forall s :: s in SlotsOf(actors, claimed) <==>
              exists a :: a in actors && IsSlot(a) && s == InfoOf(a, claimed)
  {
    if actors != [] {
      var n := |actors| - 1;
      SlotsAreAgents(actors[..n], claimed);
      assert actors == actors[..n] + [actors[n]];
    }
  }

  /** Slots are listed in registration order: the slot at `i` is that of some actor, and the slots
      of earlier actors come before it. */
  lemma {:induction false} SlotAt(actors: seq<Actor>, claimed: set<ActorId>, i: nat) returns (p: nat)
    requires i < |SlotsOf(actors, claimed)|
    ensures p < |actors| && actors[p].actorType == "agent"
    ensures actors[p].id != "http-agent" && actors[p].id != "mcp-agent"
    ensures var a, slot := actors[p], SlotsOf(actors, claimed)[i];
      && slot.actorId == a.id && slot.role == a.role && slot.permissions == a.permissions && slot.budget == a.budget
      && (slot.claimed <==> a.id in claimed)
    ensures i == |SlotsOf(actors[..p], claimed)|
  {
    var n := |actors| - 1;
    if i < |SlotsOf(actors[..n], claimed)| {
      p := SlotAt(actors[..n], claimed, i);
      assert actors[..n][..p] == actors[..p];
    } else {
      p := n;
    }
  }

  lemma {:induction false} SlotsGrow(actors: seq<Actor>, claimed: set<ActorId>, q: nat)
    requires q < |actors| && IsSlot(actors[q])
    ensures var i := |SlotsOf(actors[..q], claimed)|;
      i < |SlotsOf(actors, claimed)| && SlotsOf(actors, claimed)[i] == InfoOf(actors[q], claimed)
    decreases |actors|
  {
    var n := |actors| - 1;
    if q < n {
      SlotsGrow(actors[..n], claimed, q);
      assert actors[..n][..q] == actors[..q];
    }
  }

  /** Position of the first slot that satisfies `p`, or the length. */
  function FirstSlot(slots: seq<SlotInfo>, p: SlotInfo -> bool): (i: nat)
    ensures i <= |slots|
    ensures i < |slots| ==> p(slots[i])
    ensures forall j :: 0 <= j < i ==> !p(slots[j])
  {
    if slots == [] || p(slots[0]) then 0 else 1 + FirstSlot(slots[1..], p)
  }

  /** The slot to assign: the first free one whose role matches, else the first free one. */
  function Target(slots: seq<SlotInfo>, roleMatches: Option<string -> bool>): Option<SlotInfo> {
    var free := FirstSlot(slots, (s: SlotInfo) => !s.claimed);
    var preferred := match roleMatches
      case None => |slots|
      case Some(m) => FirstSlot(slots, (s: SlotInfo) => !s.claimed && m(s.role));
    if preferred < |slots| then Some(slots[preferred])
    else if free < |slots| then Some(slots[free])
    else None
  }

  class SlotManager {
    const registry: ActorRegistry
    const binding: SlotBinding
    const autoAssignEnabled: bool
    var tokens: map<Token, Pinning>
    var actorTokens: map<ActorId, Token>

    function State(): Slots
      reads this, binding
    {
      Slots(binding.maxAgents, tokens, actorTokens, binding.bindings, binding.sessions)
    }

    constructor (registry: ActorRegistry, maxAgents: int, autoAssignEnabled: bool)
      ensures State() == Empty(maxAgents) && this.registry == registry
      ensures fresh(binding) && this.autoAssignEnabled == autoAssignEnabled
    {
      this.registry := registry;
      this.autoAssignEnabled := autoAssignEnabled;
      binding := new SlotBinding(maxAgents);
      tokens, actorTokens := map[], map[];
    }

    method DiscoverSlots() returns (slots: seq<SlotInfo>)
      ensures slots == SlotsOf(registry.actors, binding.bindings.Keys)
    {
      slots := [];
      var actors := registry.actors;
      for i := 0 to |actors|
        invariant slots == SlotsOf(actors[..i], binding.bindings.Keys)
      {
        assert actors[..i + 1][..i] == actors[..i];
        var actor := actors[i];
        if actor.actorType == "agent" && actor.id !in GATEWAY_ACTORS {
          slots := slots + [SlotInfo(actor.id, actor.role, actor.permissions, actor.budget,
                                   actor.id in binding.bindings)];
        }
      }
      assert actors[..|actors|] == actors;
    }

    /** `token` is the newly generated one. */
    method Register(actor: ActorId, agentName: string, token: Token) returns (result: Option<RegistrationResult>)
      requires registry.Valid()
      modifies this, binding
      ensures (State(), result.Some?) == Registered(old(State()), actor in registry.byId, actor, agentName, token)
      ensures result.Some? ==>
                exists a :: a in registry.actors && a.id == actor &&
                  result.value == RegistrationResult(token, actor, a.role, a.permissions, a.budget)
    {
      if actor !in registry.byId {
        return None;
      }
      var ok := binding.ClaimSlot(actor, token);
      if !ok {
        return None;
      }
      tokens := tokens[token := Pinning(actor, agentName)];
      actorTokens := actorTokens[actor := token];
      var a := registry.byId[actor];
      result := Some(RegistrationResult(token, actor, a.role, a.permissions, a.budget));
    }

    method RestoreAssignment(actor: ActorId, agentName: string, token: Token)
      modifies this, binding
      ensures State() == Restored(old(State()), actor, agentName, token)
    {
      tokens := tokens[token := Pinning(actor, agentName)];
      actorTokens := actorTokens[actor := token];
      if actor in binding.bindings {
        var existingSession := binding.bindings[actor];
        if existingSession != token {
          var released := binding.ReleaseSlot(existingSession);
        }
      }
      var ok := binding.ClaimSlot(actor, token);
    }

    method Release(token: Token) returns (actor: Option<ActorId>)
      modifies this, binding
      ensures (State(), actor) == Released(old(State()), token)
    {
      if token !in tokens {
        return None;
      }
      var entry := tokens[token];
      tokens := tokens - {token};
      actorTokens := actorTokens - {entry.actor};
      var released := binding.ReleaseSlot(token);
      actor := Some(entry.actor);
    }

    /** Registers the agent for the preferred free slot; it fails exactly when assignment is
        disabled, no slot is free, or the limit is reached. */
    method AutoAssign(agentName: string, roleMatches: Option<string -> bool>, token: Token)
      returns (result: Option<RegistrationResult>)
      requires registry.Valid()
      modifies this, binding
      ensures old(State().Agree()) && token !in old(tokens) ==> State().Agree()
      ensures var target := Target(SlotsOf(registry.actors, old(binding.bindings.Keys)), roleMatches);
        if autoAssignEnabled && target.Some? && |old(binding.bindings)| < binding.maxAgents
        then var t := target.value;
          && result == Some(RegistrationResult(token, t.actorId, t.role, t.permissions, t.budget))
          && State() == Bound(old(State()), t.actorId, agentName, token)
        else result == None && State() == old(State())
    {
      if !autoAssignEnabled {
        return None;
      }
      var slots := DiscoverSlots();
      var target := Target(slots, roleMatches);
      if target.None? {
        return None;
      }
      var t := target.value;
      TargetIsFree(registry.actors, binding.bindings.Keys, roleMatches);
      if State().Agree() && token !in tokens {
        RegisteredAgrees(State(), t.actorId in registry.byId, t.actorId, agentName, token);
      }
      result := Register(t.actorId, agentName, token);
    }
  }

  /** The target is a registered agent whose slot is free, and its role matches whenever
      some free slot's role does. */
  lemma TargetIsFree(actors: seq<Actor>, claimed: set<ActorId>, roleMatches: Option<string -> bool>)
    ensures var slots := SlotsOf(actors, claimed);
      match Target(slots, roleMatches)
      case None => forall a :: a in actors && IsSlot(a) ==> a.id in claimed
      case Some(s) =>
        && s.actorId !in claimed
        && (exists a :: a in actors && IsSlot(a) && s == InfoOf(a, claimed))
        && (roleMatches.Some? && (exists r :: r in slots && !r.claimed && roleMatches.value(r.role)) ==>
              roleMatches.value(s.role))
  {
    SlotsAreAgents(actors, claimed);
    var slots := SlotsOf(actors, claimed);
    var free := FirstSlot(slots, (s: SlotInfo) => !s.claimed);
    if free == |slots| {
      forall a | a in actors && IsSlot(a) ensures a.id in claimed {
        assert InfoOf(a, claimed) in slots;
      }
    } else {
      assert slots[free] in slots;
    }
    if roleMatches.Some? {
      var i := FirstSlot(slots, (s: SlotInfo) => !s.claimed && roleMatches.value(s.role));
      if i < |slots| {
        assert slots[i] in slots;
      }
    }
  }

  /** The target is the slot of the first actor, in registration order, that is a free agent and,
      if the hint matches any free one, matches it. */
  lemma TargetIsFirst(actors: seq<Actor>, claimed: set<ActorId>, roleMatches: Option<string -> bool>) returns (p: nat)
    requires Target(SlotsOf(actors, claimed), roleMatches).Some?
    ensures p < |actors| && Target(SlotsOf(actors, claimed), roleMatches).value.actorId == actors[p].id
    ensures actors[p].actorType == "agent" && actors[p].id != "http-agent" && actors[p].id != "mcp-agent"
    ensures actors[p].id !in claimed
    ensures forall q :: 0 <= q < p && actors[q].actorType == "agent" && actors[q].id !in claimed ==>
              || actors[q].id == "http-agent" || actors[q].id == "mcp-agent"
              || (roleMatches.Some? && !roleMatches.value(actors[q].role) && roleMatches.value(actors[p].role))
  {
    var slots := SlotsOf(actors, claimed);
    var matching := if roleMatches.Some? then FirstSlot(slots, (s: SlotInfo) => !s.claimed && roleMatches.value(s.role))
                    else |slots|;
    var i := if matching < |slots| then matching else FirstSlot(slots, (s: SlotInfo) => !s.claimed);
    p := SlotAt(actors, claimed, i);
    forall q | 0 <= q < p && IsSlot(actors[q]) && actors[q].id !in claimed
      ensures roleMatches.Some? && !roleMatches.value(actors[q].role) && roleMatches.value(actors[p].role)
    {
      SlotsGrow(actors[..p], claimed, q);
      assert actors[..p][..q] == actors[..q];
      SlotsGrow(actors, claimed, q);
      assert !slots[|SlotsOf(actors[..q], claimed)|].claimed;
    }
  }
}
