/** The single-use invitation store and nonce validation (pkg/wmp/invitation.go). */
module Invitations {
  import opened Options

  type Time = int

  /** An invitation with no expiry (the zero time) never expires. */
  datatype Invitation = Invitation(content: string, expiresAt: Option<Time>)

  predicate IsExpired(inv: Invitation, now: Time) {
    inv.expiresAt.Some? && now > inv.expiresAt.value
  }

  type Nonces = map<string, Invitation>

  datatype Refusal = MissingNonce | InvalidNonce | Expired | BadSignature

  /**
   * Operations on the store with the clock readings they make. `Validate` reads the clock once in
   * `Consume` and once more itself; `verified` is what the verifier says, if there is one.
   */
  datatype Op =
    | Put(nonce: string, inv: Invitation)
    | Consume(nonce: string, now: Time)
    | Cleanup(now: Time)
    | Validate(nonce: string, now: Time, later: Time, verified: bool)

  datatype Outcome =
    | Stored
    | AlreadyExists
    | Taken(inv: Invitation)
    | NotFound
    | Removed(count: nat)
    | Accepted(inv: Invitation)
    | Refused(why: Refusal)

  /** Expired nonces gone. */
  function Fresh(s: Nonces, now: Time): Nonces {
    map n | n in s && !IsExpired(s[n], now) :: s[n]
  }

  function ConsumeStep(s: Nonces, n: string, now: Time): (Nonces, Option<Invitation>) {
    if n !in s then (s, None)
    else (s - {n}, if IsExpired(s[n], now) then None else Some(s[n]))
  }

  function Step(s: Nonces, op: Op): (Nonces, Outcome) {
    match op
    case Put(n, inv) => if n in s then (s, AlreadyExists) else (s[n := inv], Stored)
    case Consume(n, now) =>
      var (s', inv) := ConsumeStep(s, n, now);
      (s', if inv.Some? then Taken(inv.value) else NotFound)
    case Cleanup(now) => (Fresh(s, now), Removed(|s.Keys - Fresh(s, now).Keys|))
    case Validate(n, now, later, verified) =>
      if n == "" then (s, Refused(MissingNonce))
      else
        var (s', inv) := ConsumeStep(s, n, now);
        (s',
         if inv.None? then Refused(InvalidNonce)
         else if IsExpired(inv.value, later) then Refused(Expired)
         else if !verified then Refused(BadSignature)
         else Accepted(inv.value))
  }

  function Run(ops: seq<Op>): Nonces {
    if ops == [] then map[] else Step(Run(ops[..|ops| - 1]), ops[|ops| - 1]).0
  }

  // ---- What happens to one nonce ----

  datatype Event = Added(inv: Invitation) | Used | Dropped | Untouched

  /** What an operation does to nonce `n`, told from its outcome. */
  function EventOf(s: Nonces, op: Op, n: string): Event {
    var o := Step(s, op).1;
    match op
    case Put(n', inv) => if n' == n && o.Stored? then Added(inv) else Untouched
    case Consume(n', _) =>
      if n' != n then Untouched else if o.Taken? then Used else if n in s then Dropped else Untouched
    case Cleanup(now) => if n in s && IsExpired(s[n], now) then Dropped else Untouched
    case Validate(n', _, _, _) =>
      if n' != n || o == Refused(MissingNonce) then Untouched
      else if o != Refused(InvalidNonce) then Used
      else if n in s then Dropped else Untouched
  }

  function EventAt(ops: seq<Op>, i: nat, n: string): Event
    requires i < |ops|
  {
    EventOf(Run(ops[..i]), ops[i], n)
  }

  /** How an event shows in the store. */
  ghost predicate Moves(s: Nonces, s': Nonces, n: string, e: Event) {
    match e
    case Added(inv) => n !in s && n in s' && s'[n] == inv
    case Used => n in s && n !in s'
    case Dropped => n in s && n !in s'
    case Untouched => (n in s <==> n in s') && (n in s ==> s'[n] == s[n])
  }

  lemma ValidateMoves(s: Nonces, nonce: string, now: Time, later: Time, verified: bool, n: string)
    ensures var op := Validate(nonce, now, later, verified); Moves(s, Step(s, op).0, n, EventOf(s, op, n))
  {
    var op := Validate(nonce, now, later, verified);
    var (s', inv) := ConsumeStep(s, nonce, now);
    if nonce != "" && nonce == n {
      assert inv.Some? ==> EventOf(s, op, n) == Used;
    }
  }

  lemma ConsumeMoves(s: Nonces, nonce: string, now: Time, n: string)
    ensures var op := Consume(nonce, now); Moves(s, Step(s, op).0, n, EventOf(s, op, n))
  {
  }

  /** An event and the store move together. */
  lemma EventMovesStore(s: Nonces, op: Op, n: string)
    ensures Moves(s, Step(s, op).0, n, EventOf(s, op, n))
  {
    match op
    case Put(_, _) =>
    case Consume(nonce, now) => ConsumeMoves(s, nonce, now, n);
    case Cleanup(now) => assert n in Fresh(s, now) <==> n in s && !IsExpired(s[n], now);
    case Validate(nonce, now, later, verified) => ValidateMoves(s, nonce, now, later, verified, n);
  }

  function Weight(e: Event): int {
    match e
    case Added(_) => 1
    case Used => -1
    case Dropped => -1
    case Untouched => 0
  }

  /** Successful puts of `n` minus its consumptions and expiry drops. */
  function Balance(ops: seq<Op>, n: string): int {
    if ops == [] then 0
    else
      var init := ops[..|ops| - 1];
      Balance(init, n) + Weight(EventOf(Run(init), ops[|ops| - 1], n))
  }

  /** The balance of a nonce is always 1 while it is stored and 0 otherwise. */
  lemma {:induction false} BalanceIsStored(ops: seq<Op>, n: string)
    ensures Balance(ops, n) == if n in Run(ops) then 1 else 0
  {
    if ops != [] {
      var init := ops[..|ops| - 1];
      BalanceIsStored(init, n);
      EventMovesStore(Run(init), ops[|ops| - 1], n);
    }
  }

  /** Operation `j` stored `inv` under `n`, and nothing has touched `n` since. */
  ghost predicate IssuedAt(ops: seq<Op>, n: string, inv: Invitation, j: nat) {
    && j < |ops| && EventAt(ops, j, n) == Added(inv)
    && forall i :: j < i < |ops| ==> EventAt(ops, i, n) == Untouched
  }

  lemma EventAtPrefix(ops: seq<Op>, i: nat, n: string)
    requires i < |ops| - 1
    ensures EventAt(ops, i, n) == EventAt(ops[..|ops| - 1], i, n)
  {
    assert ops[..|ops| - 1][..i] == ops[..i];
  }

  lemma IssuedStill(ops: seq<Op>, n: string, inv: Invitation, j: nat)
    requires ops != [] && IssuedAt(ops[..|ops| - 1], n, inv, j)
    requires EventAt(ops, |ops| - 1, n) == Untouched
    ensures IssuedAt(ops, n, inv, j)
  {
    var init := ops[..|ops| - 1];
    EventAtPrefix(ops, j, n);
    forall i | j < i < |ops| ensures EventAt(ops, i, n) == Untouched {
      if i < |init| {
        EventAtPrefix(ops, i, n);
        assert EventAt(init, i, n) == Untouched;
      }
    }
  }

  lemma {:induction false} StoredWasIssued(ops: seq<Op>, n: string) returns (j: nat)
    requires n in Run(ops)
    ensures IssuedAt(ops, n, Run(ops)[n], j)
  {
    var init, op := ops[..|ops| - 1], ops[|ops| - 1];
    EventMovesStore(Run(init), op, n);
    if EventOf(Run(init), op, n).Added? {
      j := |init|;
    } else {
      j := StoredWasIssued(init, n);
      IssuedStill(ops, n, Run(init)[n], j);
    }
  }

  /**
   * An accepted invitation was stored under that nonce by an earlier put, has been neither consumed
   * nor dropped since, is not expired at either clock reading, and passed the verifier; accepting it
   * uses it up.
   */
  lemma AcceptedWasIssued(ops: seq<Op>, op: Op) returns (j: nat)
    requires op.Validate? && Step(Run(ops), op).1.Accepted?
    ensures var inv := Step(Run(ops), op).1.inv;
            && op.nonce != "" && IssuedAt(ops, op.nonce, inv, j)
            && InTime(inv, op.now) && InTime(inv, op.later) && op.verified
    ensures op.nonce !in Step(Run(ops), op).0
  {
    j := StoredWasIssued(ops, op.nonce);
  }

  lemma RunSnoc(ops: seq<Op>, op: Op)
    ensures Run(ops + [op]) == Step(Run(ops), op).0
  {
    assert (ops + [op])[..|ops|] == ops;
  }

  lemma StaysGone(s: Nonces, op: Op, n: string)
    requires n !in s && !(op.Put? && op.nonce == n)
    ensures n !in Step(s, op).0
  {
  }

  /** A nonce that was burned stays refused until it is put again. */
  lemma {:induction false} GoneUntilPut(ops: seq<Op>, later: seq<Op>, n: string)
    requires n !in Run(ops)
    requires forall op :: op in later ==> !(op.Put? && op.nonce == n)
    ensures n !in Run(ops + later)
  {
    if later == [] {
      assert ops + later == ops;
    } else {
      var all := ops + later;
      var init, op := ops + later[..|later| - 1], later[|later| - 1];
      assert all == init + [op] && op in later;
      GoneUntilPut(ops, later[..|later| - 1], n);
      RunSnoc(init, op);
      StaysGone(Run(init), op, n);
    }
  }

  /** A failed signature check burns the nonce: no later validation accepts it without a new put. */
  lemma FailedSignatureBurns(ops: seq<Op>, failed: Op, later: seq<Op>, retry: Op)
    requires failed.Validate? && Step(Run(ops), failed).1 == Refused(BadSignature)
    requires retry.Validate? && retry.nonce == failed.nonce
    requires forall op :: op in later ==> !(op.Put? && op.nonce == failed.nonce)
    ensures Step(Run(ops + [failed] + later), retry).1 == Refused(InvalidNonce)
  {
    RunSnoc(ops, failed);
    GoneUntilPut(ops + [failed], later, failed.nonce);
  }

  lemma AppearsByPut(s: Nonces, op: Op, n: string)
    requires n !in s && n in Step(s, op).0
    ensures op.Put? && op.nonce == n && Step(s, op).1.Stored?
  {
    EventMovesStore(s, op, n);
  }

  /** A nonce that appears was put successfully on the way. */
  lemma {:induction false} AppearedByPut(ops: seq<Op>, later: seq<Op>, n: string) returns (k: nat)
    requires n !in Run(ops) && n in Run(ops + later)
    ensures k < |later| && later[k].Put? && later[k].nonce == n && Step(Run(ops + later[..k]), later[k]).1.Stored?
    decreases |later|
  {
    assert ops + [] == ops;
    var init, op := later[..|later| - 1], later[|later| - 1];
    var all := ops + init;
    assert ops + later == all + [op];
    RunSnoc(all, op);
    if n in Run(all) {
      k := AppearedByPut(ops, init, n);
      assert init[..k] == later[..k];
    } else {
      k := |init|;
      AppearsByPut(Run(all), op, n);
    }
  }

  /** Two acceptances of one nonce have a successful put of it in between. */
  lemma AcceptedOncePerPut(ops: seq<Op>, first: Op, between: seq<Op>, second: Op) returns (k: nat)
    requires first.Validate? && second.Validate? && first.nonce == second.nonce
    requires Step(Run(ops), first).1.Accepted? && Step(Run(ops + [first] + between), second).1.Accepted?
    ensures k < |between| && between[k].Put? && between[k].nonce == first.nonce
    ensures Step(Run(ops + [first] + between[..k]), between[k]).1.Stored?
  {
    RunSnoc(ops, first);
    k := AppearedByPut(ops + [first], between, first.nonce);
  }

  // ---- Expiry, in times ----

  /** At time `now` the invitation has no expiry, or one that has not passed; at its expiry time it still counts. */
  predicate InTime(inv: Invitation, now: Time) {
    match inv.expiresAt
    case None => true
    case Some(t) => now <= t
  }

  /**
   * Every outcome of a validation, from the stored invitation, the two clock readings and the verdict.
   * In particular a stored invitation is accepted if and only if the nonce is not empty, it is in time at
   * both readings, and it is verified; and in every case but the empty nonce the nonce is gone afterwards.
   */
  lemma ValidateOutcome(s: Nonces, n: string, now: Time, later: Time, verified: bool)
    ensures var (s', o) := Step(s, Validate(n, now, later, verified));
            && (o == Refused(MissingNonce) <==> n == "")
            && (o == Refused(InvalidNonce) <==> n != "" && (n in s ==> !InTime(s[n], now)))
            && (o == Refused(Expired) <==> n != "" && n in s && InTime(s[n], now) && !InTime(s[n], later))
            && (o == Refused(BadSignature) <==>
                  n != "" && n in s && InTime(s[n], now) && InTime(s[n], later) && !verified)
            && (forall inv :: o == Accepted(inv) <==>
                  n != "" && n in s && inv == s[n] && InTime(inv, now) && InTime(inv, later) && verified)
            && s' == if n == "" then s else s - {n}
  {
  }

  /** A consume takes the invitation exactly if it is stored and in time, and the nonce is gone either way. */
  lemma ConsumeOutcome(s: Nonces, n: string, now: Time)
    ensures var (s', o) := Step(s, Consume(n, now));
            && (forall inv :: o == Taken(inv) <==> n in s && inv == s[n] && InTime(inv, now))
            && (o == NotFound <==> n in s ==> !InTime(s[n], now))
            && s' == s - {n}
  {
  }

  /** A cleanup keeps exactly the invitations in time, as they are, and counts the others. */
  lemma CleanupOutcome(s: Nonces, now: Time)
    ensures var (s', o) := Step(s, Cleanup(now));
            && (forall n :: n in s' <==> n in s && InTime(s[n], now))
            && (forall n :: n in s' ==> s'[n] == s[n])
            && o == Removed(|set n | n in s && !InTime(s[n], now)|)
  {
    var s' := Step(s, Cleanup(now)).0;
    assert s.Keys - s'.Keys == set n | n in s && !InTime(s[n], now);
  }

  /** A put stores the invitation exactly if the nonce is free, and otherwise changes nothing. */
  lemma PutOutcome(s: Nonces, n: string, inv: Invitation)
    ensures var (s', o) := Step(s, Put(n, inv));
            if n in s then o == AlreadyExists && s' == s
            else o == Stored && n in s' && s'[n] == inv && s' - {n} == s
  {
    if n !in s {
      assert s[n := inv] - {n} == s;
    }
  }

  class MemoryInvitationStore {
    var nonces: Nonces

    constructor ()
      ensures nonces == Run([])
    {
      nonces := map[];
    }

    method Put(nonce: string, inv: Invitation) returns (o: Outcome)
      modifies this
      ensures (nonces, o) == Step(old(nonces), Op.Put(nonce, inv))
    {
      if nonce in nonces {
        return AlreadyExists;
      }
      nonces := nonces[nonce := inv];
      o := Stored;
    }

    method Consume(nonce: string, now: Time) returns (inv: Option<Invitation>)
      modifies this
      ensures (nonces, inv) == ConsumeStep(old(nonces), nonce, now)
      ensures nonces == old(nonces) - {nonce}
      ensures inv.Some? <==> nonce in old(nonces) && InTime(old(nonces)[nonce], now)
      ensures inv.Some? ==> inv.value == old(nonces)[nonce]
    {
      if nonce !in nonces {
        return None;
      }
      var found := nonces[nonce];
      nonces := nonces - {nonce};
      inv := if IsExpired(found, now) then None else Some(found);
    }

    method Cleanup(now: Time) returns (count: nat)
      modifies this
      ensures (nonces, Removed(count)) == Step(old(nonces), Op.Cleanup(now))
      ensures nonces == map n | n in old(nonces) && InTime(old(nonces)[n], now) :: old(nonces)[n]
      ensures count == |set n | n in old(nonces) && !InTime(old(nonces)[n], now)|
    {
      count := 0;
      var todo := nonces.Keys;
      ghost var gone: set<string> := {};
      while todo != {}
        invariant Cleaned(old(nonces), nonces, gone, todo, now) && |gone| == count
      {
        var n :| n in todo;
        CleanedOneMore(old(nonces), nonces, gone, todo, n, now);
        if IsExpired(nonces[n], now) {
          nonces := nonces - {n};
          gone := gone + {n};
          count := count + 1;
        }
        todo := todo - {n};
      }
      CleanupDone(old(nonces), nonces, gone, now);
    }

    /** Halfway through the sweep: `gone` has been removed and `todo` is still to be looked at. */
    ghost static predicate Cleaned(before: Nonces, after: Nonces, gone: set<string>, todo: set<string>, now: Time) {
      && todo <= after.Keys && gone <= before.Keys && after.Keys == before.Keys - gone
      && (forall n :: n in after ==> n in before && after[n] == before[n])
      && (forall n :: n in before && n !in todo ==> (n in gone <==> IsExpired(before[n], now)))
    }

    static lemma CleanedOneMore(before: Nonces, after: Nonces, gone: set<string>, todo: set<string>,
                                n: string, now: Time)
      requires Cleaned(before, after, gone, todo, now) && n in todo
      ensures n !in gone
      ensures if IsExpired(after[n], now) then Cleaned(before, after - {n}, gone + {n}, todo - {n}, now)
              else Cleaned(before, after, gone, todo - {n}, now)
    {
    }

    static lemma CleanupDone(before: Nonces, after: Nonces, gone: set<string>, now: Time)
      requires Cleaned(before, after, gone, {}, now)
      ensures after == Fresh(before, now) && before.Keys - after.Keys == gone
      ensures after == map n | n in before && InTime(before[n], now) :: before[n]
      ensures gone == set n | n in before && !InTime(before[n], now)
    {
      assert after.Keys == Fresh(before, now).Keys;
    }
  }

  /** What the verifier says about the invitation stored under the nonce; yes if there is no verifier. */
  function Verdict(s: Nonces, nonce: string, verifier: Option<Invitation -> bool>): bool {
    verifier.Some? && nonce in s ==> verifier.value(s[nonce])
  }

  /** `ValidateInvitationNonce`, with the two clock readings it makes. */
  method ValidateNonce(store: MemoryInvitationStore, nonce: string, now: Time, later: Time,
                       verifier: Option<Invitation -> bool>)
    returns (o: Outcome)
    modifies store
    ensures (store.nonces, o)
            == Step(old(store.nonces), Validate(nonce, now, later, Verdict(old(store.nonces), nonce, verifier)))
    ensures var s := old(store.nonces);
            o.Accepted? <==>
            && nonce != "" && nonce in s && InTime(s[nonce], now) && InTime(s[nonce], later)
            && (verifier.Some? ==> verifier.value(s[nonce]))
    ensures o.Accepted? ==> o.inv == old(store.nonces)[nonce]
    ensures nonce != "" ==> store.nonces == old(store.nonces) - {nonce}
  {
    if nonce == "" {
      return Refused(MissingNonce);
    }
    var inv := store.Consume(nonce, now);
    if inv.None? {
      return Refused(InvalidNonce);
    }
    if IsExpired(inv.value, later) {
      return Refused(Expired);
    }
    if verifier.Some? && !verifier.value(inv.value) {
      return Refused(BadSignature);
    }
    o := Accepted(inv.value);
  }
}
