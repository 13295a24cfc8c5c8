/**
 The four maps that tie agent tokens to actor slots, as a value, and when they agree.
 */
module SlotState {
  import opened SharedTypes

  type Token = string

  datatype Pinning = Pinning(actor: ActorId, agentName: string)

  /** `tokens` and `actorTokens` belong to the slot manager, `bindings` and `sessions` to
      the slot binding it owns. */
  datatype Slots = Slots(
    maxAgents: int,
    tokens: map<Token, Pinning>,
    actorTokens: map<ActorId, Token>,
    bindings: map<ActorId, Token>,
    sessions: map<Token, ActorId>)
  {
    function Resolve(t: Token): Option<ActorId> {
      if t in tokens then Some(tokens[t].actor) else None
    }

    /** The four maps describe one bijection between live tokens and claimed actors. */
    ghost predicate Agree() {
      && tokens.Keys == sessions.Keys
      && actorTokens == bindings
      && Mirror(bindings, sessions)
      && (forall t :: t in sessions ==> t in tokens && tokens[t].actor == sessions[t])
      && |tokens| == |bindings|
      && (|bindings| == 0 || |bindings| <= maxAgents)
    }

    /** What survives when a claimed actor is restored under a new token. */
    ghost predicate Inverse() {
      && Mirror(bindings, sessions)
      && (forall a :: a in bindings ==> bindings[a] in tokens && tokens[bindings[a]].actor == a)
    }
  }

  /** Each map inverts the other. */
  ghost predicate Mirror(bindings: map<ActorId, Token>, sessions: map<Token, ActorId>) {
    && (forall a :: a in bindings ==> bindings[a] in sessions && sessions[bindings[a]] == a)
    && (forall t :: t in sessions ==> sessions[t] in bindings && bindings[sessions[t]] == t)
  }

  lemma MirrorGrows(bindings: map<ActorId, Token>, sessions: map<Token, ActorId>, a: ActorId, t: Token)
    requires Mirror(bindings, sessions) && a !in bindings && t !in sessions
    ensures Mirror(bindings[a := t], sessions[t := a])
  {
  }

  function Empty(maxAgents: int): Slots {
    Slots(maxAgents, map[], map[], map[], map[])
  }

  // ----- operations -----

  function Claimed(s: Slots, a: ActorId, t: Token): (Slots, bool) {
    if a in s.bindings then (s, s.bindings[a] == t)
    else if |s.bindings| >= s.maxAgents then (s, false)
    else (s.(bindings := s.bindings[a := t], sessions := s.sessions[t := a]), true)
  }

  function SlotReleased(s: Slots, t: Token): Slots {
    if t in s.sessions then
      s.(sessions := s.sessions - {t}, bindings := s.bindings - {s.sessions[t]})
    else s
  }

  /** Registration with a newly generated token; `known` says the registry has the actor. */
  function Registered(s: Slots, known: bool, a: ActorId, name: string, t: Token): (Slots, bool) {
    if !known then (s, false)
    else
      var (claimed, success) := Claimed(s, a, t);
      if success then
        (claimed.(tokens := claimed.tokens[t := Pinning(a, name)], actorTokens := claimed.actorTokens[a := t]), true)
      else (claimed, false)
  }

  function Restored(s: Slots, a: ActorId, name: string, t: Token): Slots {
    var pinned := s.(tokens := s.tokens[t := Pinning(a, name)], actorTokens := s.actorTokens[a := t]);
    var cleared := if a in pinned.bindings && pinned.bindings[a] != t then SlotReleased(pinned, pinned.bindings[a])
                   else pinned;
    Claimed(cleared, a, t).0
  }

  function Released(s: Slots, t: Token): (Slots, Option<ActorId>) {
    if t !in s.tokens then (s, None)
    else
      var a := s.tokens[t].actor;
      (SlotReleased(s.(tokens := s.tokens - {t}, actorTokens := s.actorTokens - {a}), t), Some(a))
  }

  // ----- one step -----

  /** All four maps gain the same pair. */
  function Bound(s: Slots, a: ActorId, name: string, t: Token): Slots {
    Slots(s.maxAgents, s.tokens[t := Pinning(a, name)], s.actorTokens[a := t], s.bindings[a := t], s.sessions[t := a])
  }

  lemma BoundAgrees(s: Slots, a: ActorId, name: string, t: Token)
    requires s.Agree() && a !in s.bindings && t !in s.tokens && |s.bindings| < s.maxAgents
    ensures Bound(s, a, name, t).Agree()
  {
    var after := Bound(s, a, name, t);
    MirrorGrows(s.bindings, s.sessions, a, t);
    EntryAdded(s.tokens, t, Pinning(a, name));
    EntryAdded(s.sessions, t, a);
    EntryAdded(s.bindings, a, t);
  }

  lemma EntryAdded<K, V>(m: map<K, V>, k: K, v: V)
    requires k !in m
    ensures m[k := v].Keys == m.Keys + {k} && |m[k := v]| == |m| + 1
  {
    assert m[k := v].Keys == m.Keys + {k};
    assert |m[k := v].Keys| == |m.Keys| + 1;
  }

  lemma RegisteredAgrees(s: Slots, known: bool, a: ActorId, name: string, t: Token)
    requires s.Agree() && t !in s.tokens
    ensures var (after, ok) := Registered(s, known, a, name, t);
      && after.Agree()
      && (ok <==> known && a !in s.bindings && |s.bindings| < s.maxAgents)
      && (ok ==> after.Resolve(t) == Some(a))
      && (forall u :: u != t ==> after.Resolve(u) == s.Resolve(u))
  {
    if known && a !in s.bindings && |s.bindings| < s.maxAgents {
      BoundAgrees(s, a, name, t);
      assert Registered(s, known, a, name, t).0 == Bound(s, a, name, t);
    }
  }

  /** What a registration does to the four maps, in any state: everything or nothing; an actor
      that already holds its slot under the token is pinned again. */
  lemma RegisterEffect(s: Slots, known: bool, a: ActorId, name: string, t: Token)
    ensures var (after, ok) := Registered(s, known, a, name, t);
      && (ok <==> known && if a in s.bindings then s.bindings[a] == t else |s.bindings| < s.maxAgents)
      && (!ok ==> after == s)
      && (ok && a !in s.bindings ==>
            after == Slots(s.maxAgents, s.tokens[t := Pinning(a, name)], s.actorTokens[a := t],
                           s.bindings[a := t], s.sessions[t := a]))
      && (ok && a in s.bindings ==>
            after == Slots(s.maxAgents, s.tokens[t := Pinning(a, name)], s.actorTokens[a := t],
                           s.bindings, s.sessions))
  {
  }

  /** What a release does to the four maps, in any state. */
  lemma ReleaseEffect(s: Slots, t: Token)
    ensures t !in s.tokens ==> Released(s, t) == (s, None)
    ensures t in s.tokens ==>
              && Released(s, t).1 == Some(s.tokens[t].actor)
              && Released(s, t).0 == Slots(s.maxAgents, s.tokens - {t}, s.actorTokens - {s.tokens[t].actor},
                                           if t in s.sessions then s.bindings - {s.sessions[t]} else s.bindings,
                                           s.sessions - {t})
  {
  }

  lemma ReleasedAgrees(s: Slots, t: Token)
    requires s.Agree()
    ensures var (after, a) := Released(s, t);
      && after.Agree()
      && a == s.Resolve(t)
      && after.Resolve(t) == None
      && (a.Some? ==> a.value !in after.bindings)
      && (forall u :: u != t ==> after.Resolve(u) == s.Resolve(u))
  {
    var (after, a) := Released(s, t);
    if t in s.tokens {
      assert after.tokens.Keys == s.tokens.Keys - {t};
      assert after.bindings.Keys == s.bindings.Keys - {a.value};
    }
  }

  /** Releasing a token undoes the registration that issued it. */
  lemma ReleaseUndoesRegister(s: Slots, known: bool, a: ActorId, name: string, t: Token)
    requires s.Agree() && t !in s.tokens && Registered(s, known, a, name, t).1
    ensures Released(Registered(s, known, a, name, t).0, t) == (s, Some(a))
  {
    EntryUndone(s.tokens, t, Pinning(a, name));
    EntryUndone(s.sessions, t, a);
    if a !in s.bindings {
      EntryUndone(s.bindings, a, t);
      EntryUndone(s.actorTokens, a, t);
      assert Registered(s, known, a, name, t).0 == Bound(s, a, name, t);
    }
  }

  lemma EntryUndone<K, V>(m: map<K, V>, k: K, v: V)
    requires k !in m
    ensures m[k := v] - {k} == m
  {
  }

  /** No two live tokens resolve to the same actor. */
  lemma TokensResolveApart(s: Slots, t: Token, u: Token)
    requires s.Agree() && s.Resolve(t).Some? && s.Resolve(t) == s.Resolve(u)
    ensures t == u
  {
    assert s.bindings[s.sessions[t]] == t && s.bindings[s.sessions[u]] == u;
  }

  /** Restoring is harmless for a pinning that is already there, or for a free actor, an
      unused token and a slot left. */
  predicate SafeRestore(s: Slots, a: ActorId, t: Token) {
    if a in s.bindings then s.bindings[a] == t else t !in s.tokens && |s.bindings| < s.maxAgents
  }

  lemma SafeRestoreAgrees(s: Slots, a: ActorId, name: string, t: Token)
    requires s.Agree() && SafeRestore(s, a, t)
    ensures Restored(s, a, name, t).Agree()
  {
    if a in s.bindings {
      SamePinAgrees(s, a, name, t);
    } else {
      BoundAgrees(s, a, name, t);
      assert Restored(s, a, name, t) == Bound(s, a, name, t);
    }
  }

  lemma SamePinAgrees(s: Slots, a: ActorId, name: string, t: Token)
    requires s.Agree() && a in s.bindings && s.bindings[a] == t
    ensures Restored(s, a, name, t).Agree()
  {
    var after := Restored(s, a, name, t);
    assert after.tokens.Keys == s.tokens.Keys;
    assert after == s.(tokens := after.tokens, actorTokens := s.actorTokens[a := t]);
    assert after.actorTokens == s.bindings;
  }

  /** A safe restore leaves the actor pinned to the token in all four maps, under the given name,
      and every other token as it was. */
  lemma SafeRestorePins(s: Slots, a: ActorId, name: string, t: Token)
    requires s.Agree() && SafeRestore(s, a, t)
    ensures var after := Restored(s, a, name, t);
      && after.Resolve(t) == Some(a) && after.tokens[t].agentName == name
      && a in after.bindings && after.bindings[a] == t && a in after.actorTokens && after.actorTokens[a] == t
      && t in after.sessions && after.sessions[t] == a
      && (forall u :: u != t ==> after.Resolve(u) == s.Resolve(u))
      && (forall b :: b != a ==>
            (b in after.bindings <==> b in s.bindings)
            && (b in s.bindings ==> after.bindings[b] == s.bindings[b]))
  {
  }

  /** What a restore does to the four maps in any state in which bindings and sessions are
      inverse: the token maps record it in any case; the slot is claimed when the actor had
      none and one is left, and moved when the actor held it under another token, unless the
      limit is exceeded even without it. */
  lemma RestoreEffect(s: Slots, a: ActorId, name: string, t: Token)
    requires s.Inverse()
    ensures var after := Restored(s, a, name, t);
      && after.maxAgents == s.maxAgents
      && after.tokens == s.tokens[t := Pinning(a, name)] && after.actorTokens == s.actorTokens[a := t]
      && (a !in s.bindings && |s.bindings| < s.maxAgents ==>
            after.bindings == s.bindings[a := t] && after.sessions == s.sessions[t := a])
      && (a !in s.bindings && |s.bindings| >= s.maxAgents ==>
            after.bindings == s.bindings && after.sessions == s.sessions)
      && (a in s.bindings && s.bindings[a] == t ==>
            after.bindings == s.bindings && after.sessions == s.sessions)
      && (a in s.bindings && s.bindings[a] != t && |s.bindings| <= s.maxAgents ==>
            after.bindings == s.bindings[a := t] && after.sessions == (s.sessions - {s.bindings[a]})[t := a])
      && (a in s.bindings && s.bindings[a] != t && |s.bindings| > s.maxAgents ==>
            after.bindings == s.bindings - {a} && after.sessions == s.sessions - {s.bindings[a]})
  {
    if a in s.bindings {
      assert (s.bindings - {a}).Keys == s.bindings.Keys - {a};
      assert |s.bindings - {a}| == |s.bindings| - 1;
      assert (s.bindings - {a})[a := t] == s.bindings[a := t];
    }
  }

  lemma UnsafeRestoreDisagrees(s: Slots, a: ActorId, name: string, t: Token)
    requires s.Agree() && !SafeRestore(s, a, t)
    ensures !Restored(s, a, name, t).Agree()
  {
    var after := Restored(s, a, name, t);
    if a in s.bindings {
      // The token displaced from `a` is still live.
      var stale := s.bindings[a];
      assert stale in after.tokens;
      assert stale !in after.sessions;
    } else if t in s.tokens {
      // `t` is live for another actor, which keeps its binding.
      var other := s.sessions[t];
      assert other in after.bindings && after.bindings[other] == t;
      assert after.tokens[t].actor == a != other;
    } else {
      // No slot was left, so the token is live but bound to nothing.
      assert t in after.tokens && t !in after.sessions;
    }
  }

  /** A restore keeps the four maps in agreement exactly when it is safe. */
  lemma RestoreAgreesIff(s: Slots, a: ActorId, name: string, t: Token)
    requires s.Agree()
    ensures Restored(s, a, name, t).Agree() <==> SafeRestore(s, a, t)
  {
    if SafeRestore(s, a, t) {
      SafeRestoreAgrees(s, a, name, t);
    } else {
      UnsafeRestoreDisagrees(s, a, name, t);
    }
  }

  /** Restoring a claimed actor under a new token moves the slot, but the old token goes on
      resolving to the actor; releasing the old token then drops the new reverse entry. */
  lemma StaleTokenSurvives(s: Slots, a: ActorId, name: string, t: Token)
    requires s.Agree() && a in s.bindings && t !in s.tokens
    ensures var stale, after := s.bindings[a], Restored(s, a, name, t);
      && after.bindings[a] == t && after.Inverse()
      && after.Resolve(stale) == after.Resolve(t) == Some(a)
      && (var later := Released(after, stale).0;
          later.Inverse() && later.Resolve(t) == Some(a) && a in later.bindings && a !in later.actorTokens)
  {
    var after := Restored(s, a, name, t);
    assert |s.bindings - {a}| == |s.bindings| - 1 by {
      assert (s.bindings - {a}).Keys == s.bindings.Keys - {a};
    }
    assert after.bindings == (s.bindings - {a})[a := t];
    assert after.sessions == (s.sessions - {s.bindings[a]})[t := a];
  }

  // ----- runs -----

  datatype Op =
    | Register(known: bool, actor: ActorId, name: string, token: Token)
    | Release(token: Token)
    | Restore(actor: ActorId, name: string, token: Token)

  function Next(s: Slots, op: Op): Slots {
    match op
    case Register(known, a, name, t) => Registered(s, known, a, name, t).0
    case Release(t) => Released(s, t).0
    case Restore(a, name, t) => Restored(s, a, name, t)
  }

  function Run(s: Slots, ops: seq<Op>): Slots
    decreases |ops|
  {
    if ops == [] then s else Run(Next(s, ops[0]), ops[1..])
  }

  /** Tokens are fresh when issued, and restores are safe. */
  ghost predicate SafeRun(s: Slots, ops: seq<Op>)
    decreases |ops|
  {
    ops == [] ||
    (match ops[0] {
       case Register(_, _, _, t) => t !in s.tokens
       case Release(_) => true
       case Restore(a, _, t) => SafeRestore(s, a, t)
     } && SafeRun(Next(s, ops[0]), ops[1..]))
  }

  lemma {:induction false} SafeRunAgrees(s: Slots, ops: seq<Op>)
    requires s.Agree() && SafeRun(s, ops)
    ensures Run(s, ops).Agree()
    decreases |ops|
  {
    if ops != [] {
      match ops[0] {
        case Register(known, a, name, t) => RegisteredAgrees(s, known, a, name, t);
        case Release(t) => ReleasedAgrees(s, t);
        case Restore(a, name, t) => SafeRestoreAgrees(s, a, name, t);
      }
      SafeRunAgrees(Next(s, ops[0]), ops[1..]);
    }
  }

  /** A call that does not take a bound token away from another actor. Newly generated tokens
      are not bound, and a restore may displace a token of its own actor, find the slots used
      up, or reuse a stale token. */
  predicate Gentle(s: Slots, op: Op) {
    match op
    case Register(known, a, name, t) => Registered(s, known, a, name, t).1 && t in s.sessions ==> s.sessions[t] == a
    case Release(_) => true
    case Restore(a, _, t) => t in s.sessions ==> s.sessions[t] == a
  }

  predicate GentleRun(s: Slots, ops: seq<Op>)
    decreases |ops|
  {
    ops == [] || (Gentle(s, ops[0]) && GentleRun(Next(s, ops[0]), ops[1..]))
  }

  /** The inverse holds after every call of the run. */
  ghost predicate InverseThroughout(s: Slots, ops: seq<Op>)
    decreases |ops|
  {
    ops == [] || (Next(s, ops[0]).Inverse() && InverseThroughout(Next(s, ops[0]), ops[1..]))
  }

  lemma ReleaseKeepsInverse(s: Slots, t: Token)
    requires s.Inverse()
    ensures SlotReleased(s, t).Inverse()
  {
  }

  lemma ClaimKeepsInverse(s: Slots, a: ActorId, t: Token)
    requires s.Inverse() && t in s.tokens && s.tokens[t].actor == a
    ensures Claimed(s, a, t).0.Inverse()
  {
    if a !in s.bindings {
      assert t !in s.sessions;
    }
  }

  lemma RestoreKeepsInverse(s: Slots, a: ActorId, name: string, t: Token)
    requires s.Inverse() && (t in s.sessions ==> s.sessions[t] == a)
    ensures Restored(s, a, name, t).Inverse()
  {
    var pinned := s.(tokens := s.tokens[t := Pinning(a, name)], actorTokens := s.actorTokens[a := t]);
    forall b | b in s.bindings && s.bindings[b] == t ensures b == a {
      assert s.sessions[t] == b;
    }
    assert pinned.Inverse();
    if a in s.bindings && s.bindings[a] != t {
      ReleaseKeepsInverse(pinned, s.bindings[a]);
      ClaimKeepsInverse(SlotReleased(pinned, s.bindings[a]), a, t);
    } else {
      ClaimKeepsInverse(pinned, a, t);
    }
  }

  /** Another actor stays bound to the token, which now pins this one. */
  lemma RestoreBreaksInverse(s: Slots, a: ActorId, name: string, t: Token)
    requires s.Inverse() && t in s.sessions && s.sessions[t] != a
    ensures !Restored(s, a, name, t).Inverse()
  {
    var b, after := s.sessions[t], Restored(s, a, name, t);
    assert s.bindings[b] == t;
    assert b in after.bindings && after.bindings[b] == t && after.tokens[t].actor == a;
  }

  lemma RegisterInverseIff(s: Slots, known: bool, a: ActorId, name: string, t: Token)
    requires s.Inverse()
    ensures Registered(s, known, a, name, t).0.Inverse() <==> Gentle(s, Op.Register(known, a, name, t))
  {
    var (after, ok) := Registered(s, known, a, name, t);
    if ok && t in s.sessions && s.sessions[t] != a {
      var b := s.sessions[t];
      assert b in after.bindings && after.bindings[b] == t && after.tokens[t].actor == a;
    } else if ok {
      RegisterKeepsInverse(s, known, a, name, t);
    }
  }

  lemma RegisterKeepsInverse(s: Slots, known: bool, a: ActorId, name: string, t: Token)
    requires s.Inverse() && Registered(s, known, a, name, t).1 && (t in s.sessions ==> s.sessions[t] == a)
    ensures Registered(s, known, a, name, t).0.Inverse()
  {
    if a !in s.bindings {
      assert t !in s.sessions;
      MirrorGrows(s.bindings, s.sessions, a, t);
    }
  }

  lemma ReleaseTokenKeepsInverse(s: Slots, t: Token)
    requires s.Inverse()
    ensures Released(s, t).0.Inverse()
  {
    if t in s.sessions {
      assert s.sessions[t] in s.bindings;
    }
  }

  /** One call keeps the inverse exactly when it is gentle. */
  lemma StepInverseIff(s: Slots, op: Op)
    requires s.Inverse()
    ensures Next(s, op).Inverse() <==> Gentle(s, op)
  {
    match op
    case Register(known, a, name, t) => RegisterInverseIff(s, known, a, name, t);
    case Release(t) => ReleaseTokenKeepsInverse(s, t);
    case Restore(a, name, t) =>
      if Gentle(s, op) {
        RestoreKeepsInverse(s, a, name, t);
      } else {
        RestoreBreaksInverse(s, a, name, t);
      }
  }

  /** Bindings and sessions stay inverse, and bindings within tokens, throughout a run exactly
      when all of its calls are gentle. */
  lemma {:induction false} InverseKeptIff(s: Slots, ops: seq<Op>)
    requires s.Inverse()
    ensures InverseThroughout(s, ops) <==> GentleRun(s, ops)
    decreases |ops|
  {
    if ops != [] {
      StepInverseIff(s, ops[0]);
      if Gentle(s, ops[0]) {
        InverseKeptIff(Next(s, ops[0]), ops[1..]);
      }
    }
  }

  /** From a new manager: the maps agree after every run of fresh tokens and safe restores,
      so live tokens are one-to-one with claimed actors and within the limit. */
  lemma SlotsAgree(maxAgents: int, ops: seq<Op>)
    requires SafeRun(Empty(maxAgents), ops)
    ensures var s := Run(Empty(maxAgents), ops);
      && s.Agree()
      && (forall t, u :: s.Resolve(t).Some? && s.Resolve(t) == s.Resolve(u) ==> t == u)
      && (|s.tokens| == 0 || |s.tokens| <= maxAgents)
  {
    SafeRunAgrees(Empty(maxAgents), ops);
    var s := Run(Empty(maxAgents), ops);
    forall t, u | s.Resolve(t).Some? && s.Resolve(t) == s.Resolve(u) ensures t == u {
      TokensResolveApart(s, t, u);
    }
    KeepsLimit(Empty(maxAgents), ops);
  }

  lemma {:induction false} KeepsLimit(s: Slots, ops: seq<Op>)
    ensures Run(s, ops).maxAgents == s.maxAgents
    decreases |ops|
  {
    if ops != [] {
      KeepsLimit(Next(s, ops[0]), ops[1..]);
    }
  }
}
