/** Profile registration (pkg/wmp/registry.go). */
module Registry {

  datatype Kind = FlowType | Method | ResolveType

  datatype Claim = Claim(kind: Kind, key: string)

  /** A profile and what it asks for; an interface it does not implement contributes nothing. */
  datatype Profile = Profile(
    name: string,
    flowTypes: seq<string>,
    methods: seq<string>,
    resolveTypes: seq<string>,
    sessionHook: bool,
    identifierResolver: bool)

  function Tagged(kind: Kind, keys: seq<string>): (cs: seq<Claim>)
    ensures |cs| == |keys|
    ensures forall i :: 0 <= i < |cs| ==> cs[i] == Claim(kind, keys[i])
  {
    seq(|keys|, i requires 0 <= i < |keys| => Claim(kind, keys[i]))
  }

  /** Everything a profile claims, in the order `register` looks at it. */
  function Claims(p: Profile): seq<Claim> {
    Tagged(FlowType, p.flowTypes) + Tagged(Method, p.methods) + Tagged(ResolveType, p.resolveTypes)
  }

  datatype State = State(
    profiles: seq<Profile>,
    bound: map<Claim, Profile>,
    sessionHooks: seq<Profile>,
    idResolvers: seq<Profile>)

  const EMPTY := State([], map[], [], [])

  /** Bind claims one by one, stopping at the first that is already bound. */
  function Bind(bound: map<Claim, Profile>, claims: seq<Claim>, p: Profile): (map<Claim, Profile>, bool)
    decreases claims
  {
    if claims == [] then (bound, true)
    else if claims[0] in bound then (bound, false)
    else Bind(bound[claims[0] := p], claims[1..], p)
  }

  /** `register`: a failing registration keeps its profile listed and what it had bound so far. */
  function RegisterStep(s: State, p: Profile): (State, bool) {
    var (bound, ok) := Bind(s.bound, Claims(p), p);
    (State(s.profiles + [p], bound,
           if ok && p.sessionHook then s.sessionHooks + [p] else s.sessionHooks,
           if ok && p.identifierResolver then s.idResolvers + [p] else s.idResolvers), ok)
  }

  function Run(ps: seq<Profile>): State {
    if ps == [] then EMPTY else RegisterStep(Run(ps[..|ps| - 1]), ps[|ps| - 1]).0
  }

  // ---- What registration binds ----

  /** The claim is taken before position `i` is reached: by an earlier profile, or earlier in the same list. */
  predicate Conflicts(bound: map<Claim, Profile>, claims: seq<Claim>, i: nat)
    requires i < |claims|
  {
    claims[i] in bound || claims[i] in claims[..i]
  }

  /** `k` is the position of the first conflict, or the number of claims if there is none. */
  ghost predicate FirstConflict(bound: map<Claim, Profile>, claims: seq<Claim>, k: nat) {
    && k <= |claims|
    && (forall i :: 0 <= i < k ==> !Conflicts(bound, claims, i))
    && (k < |claims| ==> Conflicts(bound, claims, k))
  }

  lemma {:induction false} BindExact(bound: map<Claim, Profile>, claims: seq<Claim>, p: Profile) returns (k: nat)
    ensures FirstConflict(bound, claims, k)
    ensures var (bound', ok) := Bind(bound, claims, p);
            && (ok <==> k == |claims|)
            && (forall c :: c in bound' <==> c in bound || c in claims[..k])
            && (forall c :: c in bound' ==> bound'[c] == if c in bound then bound[c] else p)
    decreases claims
  {
    if claims == [] || claims[0] in bound {
      k := 0;
      return;
    }
    var head, tail := claims[0], claims[1..];
    var k' := BindExact(bound[head := p], tail, p);
    k := k' + 1;
    assert claims[..k] == [head] + tail[..k'];
    forall i | 0 < i < |claims|
      ensures Conflicts(bound, claims, i) == Conflicts(bound[head := p], tail, i - 1)
    {
      assert claims[..i] == [head] + tail[..i - 1];
    }
  }

  /**
   * A registration binds exactly the claims that precede its first conflict, to its own profile, and
   * rebinds nothing; it succeeds if and only if there is no conflict.
   */
  lemma RegistrationExact(s: State, p: Profile) returns (k: nat)
    ensures FirstConflict(s.bound, Claims(p), k)
    ensures var (s', ok) := RegisterStep(s, p);
            && (ok <==> k == |Claims(p)|)
            && (forall c :: c in s'.bound <==> c in s.bound || c in Claims(p)[..k])
            && (forall c :: c in s'.bound ==> s'.bound[c] == if c in s.bound then s.bound[c] else p)
  {
    k := BindExact(s.bound, Claims(p), p);
  }

  lemma StepBinds(s: State, p: Profile, c: Claim)
    ensures var s' := RegisterStep(s, p).0;
            && (c in s.bound ==> c in s'.bound && s'.bound[c] == s.bound[c])
            && (c !in s.bound && c in s'.bound ==> c in Claims(p) && s'.bound[c] == p)
  {
    var k := RegistrationExact(s, p);
  }

  /** Over any sequence of registrations, failing ones included, a claim once bound is never rebound. */
  lemma {:induction false} NeverRebound(ps: seq<Profile>, n: nat, c: Claim)
    requires n <= |ps| && c in Run(ps[..n]).bound
    ensures c in Run(ps).bound && Run(ps).bound[c] == Run(ps[..n]).bound[c]
  {
    if n == |ps| {
      assert ps[..n] == ps;
    } else {
      var init := ps[..|ps| - 1];
      assert init[..n] == ps[..n];
      NeverRebound(init, n, c);
      StepBinds(Run(init), ps[|ps| - 1], c);
    }
  }

  /** The handler of a bound claim is the profile whose registration first bound it. */
  lemma {:induction false} BoundToFirstClaimant(ps: seq<Profile>, c: Claim) returns (i: nat)
    requires c in Run(ps).bound
    ensures i < |ps| && c !in Run(ps[..i]).bound && c in Run(ps[..i + 1]).bound
    ensures c in Claims(ps[i]) && Run(ps).bound[c] == ps[i]
    decreases |ps|
  {
    var n := |ps| - 1;
    var init := ps[..n];
    LastBinds(ps, c);
    if c in Run(init).bound {
      i := BoundToFirstClaimant(init, c);
      assert init[..i] == ps[..i] && init[..i + 1] == ps[..i + 1];
    } else {
      i := n;
      assert ps[..n + 1] == ps;
    }
  }

  lemma LastBinds(ps: seq<Profile>, c: Claim)
    requires ps != [] && c in Run(ps).bound
    ensures var n := |ps| - 1;
            var before := Run(ps[..n]).bound;
            if c in before then Run(ps).bound[c] == before[c] else c in Claims(ps[n]) && Run(ps).bound[c] == ps[n]
  {
    StepBinds(Run(ps[..|ps| - 1]), ps[|ps| - 1], c);
  }

  /** Flow types are claimed first, then methods, then resolve types, each list in its own order. */
  lemma ClaimsInOrder(p: Profile, i: nat)
    requires i < |Claims(p)|
    ensures |Claims(p)| == |p.flowTypes| + |p.methods| + |p.resolveTypes|
    ensures var f, m := |p.flowTypes|, |p.methods|;
            Claims(p)[i] == if i < f then Claim(FlowType, p.flowTypes[i])
                            else if i < f + m then Claim(Method, p.methods[i - f])
                            else Claim(ResolveType, p.resolveTypes[i - f - m])
  {
  }

  /** The profile at position `i` of the sequence met no conflict when it was registered. */
  ghost predicate Succeeded(ps: seq<Profile>, i: nat)
    requires i < |ps|
  {
    NoConflict(Run(ps[..i]).bound, ps[i])
  }

  predicate HasSessionHook(p: Profile) {
    p.sessionHook
  }

  predicate ResolvesIdentifiers(p: Profile) {
    p.identifierResolver
  }

  /** The profiles that satisfy `wanted` and whose registration succeeded, in order. */
  ghost function Successful(ps: seq<Profile>, wanted: Profile -> bool): seq<Profile> {
    if ps == [] then []
    else
      var n := |ps| - 1;
      Successful(ps[..n], wanted) + if wanted(ps[n]) && Succeeded(ps, n) then [ps[n]] else []
  }

  lemma StepSucceeds(s: State, p: Profile)
    ensures RegisterStep(s, p).1 <==> NoConflict(s.bound, p)
  {
    var k := RegistrationExact(s, p);
  }

  /**
   * Over any sequence of registrations: every profile is listed, failed or not, in order; and the session
   * hooks and the identifier resolvers are exactly those of the profiles whose registration succeeded, in
   * registration order.
   */
  lemma {:induction false} ListsExact(ps: seq<Profile>)
    ensures Run(ps).profiles == ps
    ensures Run(ps).sessionHooks == Successful(ps, HasSessionHook)
    ensures Run(ps).idResolvers == Successful(ps, ResolvesIdentifiers)
  {
    if ps != [] {
      var n := |ps| - 1;
      ListsExact(ps[..n]);
      StepLists(Run(ps[..n]), ps[n]);
      assert ps == ps[..n] + [ps[n]];
    }
  }

  ghost predicate NoConflict(bound: map<Claim, Profile>, p: Profile) {
    FirstConflict(bound, Claims(p), |Claims(p)|)
  }

  lemma StepLists(s: State, p: Profile)
    ensures var s' := RegisterStep(s, p).0;
            && s'.profiles == s.profiles + [p]
            && s'.sessionHooks == s.sessionHooks + (if p.sessionHook && NoConflict(s.bound, p) then [p] else [])
            && s'.idResolvers == s.idResolvers + (if p.identifierResolver && NoConflict(s.bound, p) then [p] else [])
  {
    StepSucceeds(s, p);
    assert s.sessionHooks + [] == s.sessionHooks && s.idResolvers + [] == s.idResolvers;
  }

  lemma {:induction false} BindConcat(bound: map<Claim, Profile>, xs: seq<Claim>, ys: seq<Claim>, p: Profile)
    ensures Bind(bound, xs + ys, p) == var (b, ok) := Bind(bound, xs, p); if ok then Bind(b, ys, p) else (b, false)
    decreases xs
  {
    if xs == [] {
      assert xs + ys == ys;
    } else {
      assert (xs + ys)[1..] == xs[1..] + ys;
      if xs[0] !in bound {
        BindConcat(bound[xs[0] := p], xs[1..], ys, p);
      }
    }
  }

  /** A handler map holds exactly the bindings of its kind. */
  ghost predicate Holds(handlers: map<string, Profile>, kind: Kind, bound: map<Claim, Profile>) {
    && (forall key :: Claim(kind, key) in bound <==> key in handlers)
    && (forall key :: key in handlers ==> bound[Claim(kind, key)] == handlers[key])
  }

  lemma BindNext(bound: map<Claim, Profile>, kind: Kind, keys: seq<string>, p: Profile)
    requires keys != []
    ensures Bind(bound, Tagged(kind, keys), p)
            == if Claim(kind, keys[0]) in bound then (bound, false)
               else Bind(bound[Claim(kind, keys[0]) := p], Tagged(kind, keys[1..]), p)
  {
    assert Tagged(kind, keys)[1..] == Tagged(kind, keys[1..]);
  }

  /** One of `register`'s three loops: bind keys to the profile until one is taken. */
  method ClaimAll(handlers: map<string, Profile>, keys: seq<string>, p: Profile,
                  ghost kind: Kind, ghost before: map<Claim, Profile>)
    returns (handlers': map<string, Profile>, ok: bool)
    requires Holds(handlers, kind, before)
    ensures ok == Bind(before, Tagged(kind, keys), p).1
    ensures Holds(handlers', kind, Bind(before, Tagged(kind, keys), p).0)
    ensures forall other, m :: other != kind && Holds(m, other, before) ==>
              Holds(m, other, Bind(before, Tagged(kind, keys), p).0)
  {
    handlers' := handlers;
    ghost var after := before;
    for i := 0 to |keys|
      invariant Holds(handlers', kind, after)
      invariant forall other, m :: other != kind && Holds(m, other, before) ==> Holds(m, other, after)
      invariant Bind(after, Tagged(kind, keys[i..]), p) == Bind(before, Tagged(kind, keys), p)
    {
      var key := keys[i];
      BindNext(after, kind, keys[i..], p);
      assert keys[i..][1..] == keys[i + 1..];
      if key in handlers' {
        return handlers', false;
      }
      handlers' := handlers'[key := p];
      after := after[Claim(kind, key) := p];
    }
    ok := true;
  }

  /** The registry's real maps. */
  class ProfileRegistry {
    var profiles: seq<Profile>
    var flowHandlers: map<string, Profile>
    var methods: map<string, Profile>
    var resolvers: map<string, Profile>
    var sessionHooks: seq<Profile>
    var idResolvers: seq<Profile>
    ghost var bound: map<Claim, Profile>

    ghost predicate Valid()
      reads this
    {
      && Holds(flowHandlers, FlowType, bound)
      && Holds(methods, Method, bound)
      && Holds(resolvers, ResolveType, bound)
    }

    ghost function Current(): State
      reads this
    {
      State(profiles, bound, sessionHooks, idResolvers)
    }

    constructor ()
      ensures Valid() && Current() == EMPTY
    {
      profiles, sessionHooks, idResolvers := [], [], [];
      flowHandlers, methods, resolvers := map[], map[], map[];
      bound := map[];
    }

    method Register(p: Profile) returns (ok: bool)
      requires Valid()
      modifies this
      ensures Valid() && (Current(), ok) == RegisterStep(old(Current()), p)
    {
      profiles := profiles + [p];
      ok := ClaimEverything(p);
      if !ok {
        return;
      }
      if p.sessionHook {
        sessionHooks := sessionHooks + [p];
      }
      if p.identifierResolver {
        idResolvers := idResolvers + [p];
      }
    }

    method ClaimEverything(p: Profile) returns (ok: bool)
      requires Valid()
      modifies this`flowHandlers, this`methods, this`resolvers, this`bound
      ensures Valid() && (bound, ok) == Bind(old(bound), Claims(p), p)
    {
      ghost var fs, ms := Tagged(FlowType, p.flowTypes), Tagged(Method, p.methods);
      ghost var rs := Tagged(ResolveType, p.resolveTypes);
      BindConcat(bound, fs + ms, rs, p);
      BindConcat(bound, fs, ms, p);
      ghost var before := bound;
      flowHandlers, ok := ClaimAll(flowHandlers, p.flowTypes, p, FlowType, before);
      bound := Bind(before, fs, p).0;
      if !ok {
        return;
      }
      before := bound;
      methods, ok := ClaimAll(methods, p.methods, p, Method, before);
      bound := Bind(before, ms, p).0;
      if !ok {
        return;
      }
      before := bound;
      resolvers, ok := ClaimAll(resolvers, p.resolveTypes, p, ResolveType, before);
      bound := Bind(before, rs, p).0;
    }
  }
}
