/**
 * The relay's offline queues (pkg/wmp/relay/relay.go) as a machine over timed operations, and the
 * same behaviour told by the history of operations alone, with no queue and no purging in it.
 */
module RelayHistory {
  import opened Options
  import opened Folds

  type Time = int

  datatype Config = Config(maxQueueSize: int, messageTtl: int, registrationTtl: int)

  const HOUR := 3_600_000_000_000

  /** `Config.defaults`, in nanoseconds. */
  function Defaults(c: Config): (r: Config)
    ensures Sane(r)
    ensures Fills(c.maxQueueSize, r.maxQueueSize, 1000)
    ensures Fills(c.messageTtl, r.messageTtl, 86_400_000_000_000)
    ensures Fills(c.registrationTtl, r.registrationTtl, 3_600_000_000_000)
  {
    Config(
      if c.maxQueueSize <= 0 then 1000 else c.maxQueueSize,
      if c.messageTtl <= 0 then 24 * HOUR else c.messageTtl,
      if c.registrationTtl <= 0 then HOUR else c.registrationTtl)
  }

  /** A positive setting stays, any other becomes the default. */
  predicate Fills(given: int, used: int, default: int) {
    if given > 0 then used == given else used == default
  }

  predicate Sane(c: Config) {
    1 <= c.maxQueueSize && 1 <= c.messageTtl && 1 <= c.registrationTtl
  }

  datatype Message = Message(data: string, queuedAt: Time, expiresAt: Time)

  datatype Registration = Registration(participant: string, registeredAt: Time, expiresAt: Time)

  datatype RelayState = RelayState(registrations: map<string, Registration>, queues: map<string, seq<Message>>)

  datatype Action =
    | Register(sender: string)
    | Unregister(participant: string)
    | IsRegistered(participant: string)
    | Enqueue(participant: string, data: string)
    | Drain(participant: string)
    | PurgeExpired

  datatype Op = Op(now: Time, action: Action)

  /** What a caller of an operation sees. */
  datatype Outcome =
    | Done
    | Rejected
    | Answer(registered: bool)
    | Verdict(accepted: bool)
    | Messages(messages: seq<Message>)

  // ---- The machine ----

  /** The unexpired messages of a queue, in order. */
  function Unexpired(q: seq<Message>, now: Time): (r: seq<Message>)
    ensures |r| <= |q|
  {
    if q == [] then []
    else
      var m := q[|q| - 1];
      Unexpired(q[..|q| - 1], now) + (if now < m.expiresAt then [m] else [])
  }

  function QueueOf(s: RelayState, p: string): seq<Message> {
    if p in s.queues then s.queues[p] else []
  }

  function NewMessage(c: Config, data: string, now: Time): Message {
    Message(data, now, now + c.messageTtl)
  }

  function EnqueueStep(c: Config, s: RelayState, p: string, data: string, now: Time): (RelayState, Outcome) {
    var q := Unexpired(QueueOf(s, p), now);
    if |q| >= c.maxQueueSize then (s.(queues := s.queues[p := q]), Verdict(false))
    else (s.(queues := s.queues[p := q + [NewMessage(c, data, now)]]), Verdict(true))
  }

  function PurgeStep(s: RelayState, now: Time): RelayState {
    RelayState(
      map p | p in s.registrations && now <= s.registrations[p].expiresAt :: s.registrations[p],
      map p | p in s.queues && Unexpired(s.queues[p], now) != [] :: Unexpired(s.queues[p], now))
  }

  function Step(c: Config, s: RelayState, op: Op): (RelayState, Outcome) {
    match op.action
    case Register(p) =>
      if p == "" then (s, Rejected)
      else (s.(registrations := s.registrations[p := Registration(p, op.now, op.now + c.registrationTtl)]), Done)
    case Unregister(p) => (s.(registrations := s.registrations - {p}), Done)
    case IsRegistered(p) => (s, Answer(p in s.registrations && op.now < s.registrations[p].expiresAt))
    case Enqueue(p, data) => EnqueueStep(c, s, p, data, op.now)
    case Drain(p) =>
      (if QueueOf(s, p) == [] then s else s.(queues := s.queues - {p}), Messages(Unexpired(QueueOf(s, p), op.now)))
    case PurgeExpired => (PurgeStep(s, op.now), Done)
  }

  function Run(c: Config, ops: seq<Op>): RelayState {
    if ops == [] then RelayState(map[], map[])
    else Step(c, Run(c, ops[..|ops| - 1]), ops[|ops| - 1]).0
  }

  /** The outcomes of the operations other than `PurgeExpired`, in order. */
  function Outcomes(c: Config, ops: seq<Op>): seq<Outcome> {
    if ops == [] then []
    else
      var init, op := ops[..|ops| - 1], ops[|ops| - 1];
      Outcomes(c, init) + (if op.action.PurgeExpired? then [] else [Step(c, Run(c, init), op).1])
  }

  /** The clock never goes back. */
  ghost predicate Clocked(ops: seq<Op>) {
    forall i, j :: 0 <= i < j < |ops| ==> ops[i].now <= ops[j].now
  }

  ghost predicate NotBefore(ops: seq<Op>, now: Time) {
    forall op :: op in ops ==> op.now <= now
  }

  // ---- The history ----

  function UndrainedAfter(c: Config, prior: seq<Message>, op: Op, p: string): seq<Message> {
    match op.action
    case Drain(p') => if p' == p then [] else prior
    case Enqueue(p', data) =>
      if p' == p && |Unexpired(prior, op.now)| < c.maxQueueSize then prior + [NewMessage(c, data, op.now)] else prior
    case _ => prior
  }

  /** Messages accepted for `p` since its last drain, whether or not they have expired since. */
  function Undrained(c: Config, ops: seq<Op>, p: string): seq<Message> {
    if ops == [] then [] else UndrainedAfter(c, Undrained(c, ops[..|ops| - 1], p), ops[|ops| - 1], p)
  }

  function LeaseAfter(c: Config, prior: Option<Time>, op: Op, p: string): Option<Time> {
    match op.action
    case Register(p') => if p' == p && p != "" then Some(op.now + c.registrationTtl) else prior
    case Unregister(p') => if p' == p then None else prior
    case _ => prior
  }

  /** When `p`'s latest registration runs out, if it has one and has not been unregistered since. */
  function Lease(c: Config, ops: seq<Op>, p: string): Option<Time> {
    if ops == [] then None else LeaseAfter(c, Lease(c, ops[..|ops| - 1], p), ops[|ops| - 1], p)
  }

  /** What the history says the outcome of an operation must be. */
  function Expected(c: Config, ops: seq<Op>, op: Op): Outcome {
    match op.action
    case Register(p) => if p == "" then Rejected else Done
    case IsRegistered(p) => Answer(Lease(c, ops, p).Some? && op.now < Lease(c, ops, p).value)
    case Enqueue(p, _) => Verdict(|Unexpired(Undrained(c, ops, p), op.now)| < c.maxQueueSize)
    case Drain(p) => Messages(Unexpired(Undrained(c, ops, p), op.now))
    case Unregister(_) => Done
    case PurgeExpired => Done
  }

  function ExpectedOutcomes(c: Config, ops: seq<Op>): seq<Outcome> {
    if ops == [] then []
    else
      var init, op := ops[..|ops| - 1], ops[|ops| - 1];
      ExpectedOutcomes(c, init) + (if op.action.PurgeExpired? then [] else [Expected(c, init, op)])
  }

  // ---- Refinement ----

  lemma {:induction false} UnexpiredLater(q: seq<Message>, t1: Time, t2: Time)
    requires t1 <= t2
    ensures Unexpired(Unexpired(q, t1), t2) == Unexpired(q, t2)
  {
    if q != [] {
      var init, m := q[..|q| - 1], q[|q| - 1];
      UnexpiredLater(init, t1, t2);
      if t1 < m.expiresAt {
        assert (Unexpired(init, t1) + [m])[..|Unexpired(init, t1)|] == Unexpired(init, t1);
      } else {
        assert Unexpired(q, t1) == Unexpired(init, t1);
        assert Unexpired(q, t2) == Unexpired(init, t2);
      }
    }
  }

  lemma UnexpiredSnoc(q: seq<Message>, m: Message, now: Time)
    ensures Unexpired(q + [m], now) == Unexpired(q, now) + (if now < m.expiresAt then [m] else [])
  {
    assert (q + [m])[..|q|] == q;
  }

  /** The effect of an operation on one participant's queue. */
  function QueueAfter(c: Config, q: seq<Message>, op: Op, p: string): seq<Message> {
    var live := Unexpired(q, op.now);
    match op.action
    case Enqueue(p', data) =>
      if p' != p then q else if |live| >= c.maxQueueSize then live else live + [NewMessage(c, data, op.now)]
    case Drain(p') => if p' == p then [] else q
    case PurgeExpired => live
    case _ => q
  }

  lemma StepQueue(c: Config, s: RelayState, op: Op, p: string)
    ensures QueueOf(Step(c, s, op).0, p) == QueueAfter(c, QueueOf(s, p), op, p)
  {
  }

  /** Past the expired registrations, machine and history know the same lease. */
  ghost predicate LeaseAgrees(rs: map<string, Registration>, lease: Option<Time>, p: string, now: Time) {
    && (p in rs && now < rs[p].expiresAt <==> lease.Some? && now < lease.value)
    && (lease.Some? && now < lease.value ==> rs[p].expiresAt == lease.value)
  }

  /** From time `now` on, machine and history cannot be told apart for participant `p`. */
  ghost predicate Agree(s: RelayState, undrained: seq<Message>, lease: Option<Time>, p: string, now: Time) {
    && Unexpired(QueueOf(s, p), now) == Unexpired(undrained, now)
    && LeaseAgrees(s.registrations, lease, p, now)
  }

  lemma AgreeLater(s: RelayState, undrained: seq<Message>, lease: Option<Time>, p: string, t1: Time, t2: Time)
    requires t1 <= t2 && Agree(s, undrained, lease, p, t1)
    ensures Agree(s, undrained, lease, p, t2)
  {
    UnexpiredLater(QueueOf(s, p), t1, t2);
    UnexpiredLater(undrained, t1, t2);
  }

  lemma AppendAgrees(q: seq<Message>, u: seq<Message>, m: Message, now: Time)
    requires Unexpired(q, now) == Unexpired(u, now)
    ensures Unexpired(Unexpired(q, now) + [m], now) == Unexpired(u + [m], now)
  {
    UnexpiredLater(q, now, now);
    UnexpiredSnoc(Unexpired(q, now), m, now);
    UnexpiredSnoc(u, m, now);
  }

  lemma EnqueueAgrees(q: seq<Message>, u: seq<Message>, m: Message, max: int, now: Time)
    requires Unexpired(q, now) == Unexpired(u, now)
    ensures var live := Unexpired(q, now);
            Unexpired(if |live| >= max then live else live + [m], now)
            == Unexpired(if |live| < max then u + [m] else u, now)
  {
    UnexpiredLater(q, now, now);
    AppendAgrees(q, u, m, now);
  }

  lemma QueueAgrees(c: Config, q: seq<Message>, u: seq<Message>, op: Op, p: string)
    requires Unexpired(q, op.now) == Unexpired(u, op.now)
    ensures Unexpired(QueueAfter(c, q, op, p), op.now) == Unexpired(UndrainedAfter(c, u, op, p), op.now)
  {
    if op.action.Enqueue? && op.action.participant == p {
      EnqueueAgrees(q, u, NewMessage(c, op.action.data, op.now), c.maxQueueSize, op.now);
    } else if op.action.PurgeExpired? {
      UnexpiredLater(q, op.now, op.now);
    }
  }

  lemma LeaseStepAgrees(c: Config, s: RelayState, lease: Option<Time>, op: Op, p: string)
    requires Sane(c) && LeaseAgrees(s.registrations, lease, p, op.now)
    ensures LeaseAgrees(Step(c, s, op).0.registrations, LeaseAfter(c, lease, op, p), p, op.now)
  {
  }

  /** One operation at time `op.now` keeps the agreement. */
  lemma StepAgrees(c: Config, s: RelayState, u: seq<Message>, lease: Option<Time>, op: Op, p: string)
    requires Sane(c) && Agree(s, u, lease, p, op.now)
    ensures Agree(Step(c, s, op).0, UndrainedAfter(c, u, op, p), LeaseAfter(c, lease, op, p), p, op.now)
  {
    StepQueue(c, s, op, p);
    QueueAgrees(c, QueueOf(s, p), u, op, p);
    LeaseStepAgrees(c, s, lease, op, p);
  }

  lemma {:induction false} RunAgrees(c: Config, ops: seq<Op>, p: string, now: Time)
    requires Sane(c) && Clocked(ops) && NotBefore(ops, now)
    ensures Agree(Run(c, ops), Undrained(c, ops, p), Lease(c, ops, p), p, now)
  {
    if ops != [] {
      var init, op := ops[..|ops| - 1], ops[|ops| - 1];
      assert ops == init + [op] && op in ops;
      RunAgrees(c, init, p, op.now);
      StepAgrees(c, Run(c, init), Undrained(c, init, p), Lease(c, init, p), op, p);
      AgreeLater(Run(c, ops), Undrained(c, ops, p), Lease(c, ops, p), p, op.now, now);
    }
  }

  /** Every outcome of every run is the one the history dictates. */
  lemma OutcomeExpected(c: Config, ops: seq<Op>, op: Op)
    requires Sane(c) && Clocked(ops) && NotBefore(ops, op.now)
    ensures Step(c, Run(c, ops), op).1 == Expected(c, ops, op)
  {
    match op.action
    case IsRegistered(p) => RunAgrees(c, ops, p, op.now);
    case Enqueue(p, _) => RunAgrees(c, ops, p, op.now);
    case Drain(p) => RunAgrees(c, ops, p, op.now);
    case _ =>
  }

  lemma {:induction false} RelayRefinesHistory(c: Config, ops: seq<Op>)
    requires Sane(c) && Clocked(ops)
    ensures Outcomes(c, ops) == ExpectedOutcomes(c, ops)
  {
    if ops != [] {
      var init, op := ops[..|ops| - 1], ops[|ops| - 1];
      RelayRefinesHistory(c, init);
      OutcomeExpected(c, init, op);
    }
  }

  // ---- Purging is unobservable ----

  function WithoutPurges(ops: seq<Op>): seq<Op> {
    if ops == [] then []
    else
      var init, op := ops[..|ops| - 1], ops[|ops| - 1];
      WithoutPurges(init) + (if op.action.PurgeExpired? then [] else [op])
  }

  lemma {:induction false} WithoutPurgesKeeps(ops: seq<Op>)
    ensures forall op :: op in WithoutPurges(ops) ==> op in ops
    ensures Clocked(ops) ==> Clocked(WithoutPurges(ops))
  {
    if ops != [] {
      var init, op := ops[..|ops| - 1], ops[|ops| - 1];
      WithoutPurgesKeeps(init);
      if Clocked(ops) {
        forall o | o in WithoutPurges(init) ensures o.now <= op.now {
          var i :| 0 <= i < |init| && init[i] == o;
        }
      }
    }
  }

  lemma {:induction false} HistoryIgnoresPurges(c: Config, ops: seq<Op>, p: string)
    ensures Undrained(c, WithoutPurges(ops), p) == Undrained(c, ops, p)
    ensures Lease(c, WithoutPurges(ops), p) == Lease(c, ops, p)
  {
    if ops != [] {
      var init, op := ops[..|ops| - 1], ops[|ops| - 1];
      HistoryIgnoresPurges(c, init, p);
      if !op.action.PurgeExpired? {
        assert (WithoutPurges(init) + [op])[..|WithoutPurges(init)|] == WithoutPurges(init);
      } else {
        assert WithoutPurges(ops) == WithoutPurges(init);
      }
    }
  }

  lemma ExpectedSame(c: Config, ops: seq<Op>, ops': seq<Op>, op: Op)
    requires forall p :: Undrained(c, ops', p) == Undrained(c, ops, p) && Lease(c, ops', p) == Lease(c, ops, p)
    ensures Expected(c, ops', op) == Expected(c, ops, op)
  {
  }

  lemma ExpectedSnoc(c: Config, ops: seq<Op>, op: Op)
    requires !op.action.PurgeExpired?
    ensures ExpectedOutcomes(c, ops + [op]) == ExpectedOutcomes(c, ops) + [Expected(c, ops, op)]
  {
    assert (ops + [op])[..|ops|] == ops;
  }

  lemma {:induction false} ExpectedIgnoresPurges(c: Config, ops: seq<Op>)
    ensures ExpectedOutcomes(c, WithoutPurges(ops)) == ExpectedOutcomes(c, ops)
  {
    if ops != [] {
      var init, op := ops[..|ops| - 1], ops[|ops| - 1];
      ExpectedIgnoresPurges(c, init);
      if op.action.PurgeExpired? {
        assert WithoutPurges(ops) == WithoutPurges(init);
      } else {
        forall p
          ensures Undrained(c, WithoutPurges(init), p) == Undrained(c, init, p)
          ensures Lease(c, WithoutPurges(init), p) == Lease(c, init, p)
        {
          HistoryIgnoresPurges(c, init, p);
        }
        ExpectedSame(c, init, WithoutPurges(init), op);
        ExpectedSnoc(c, WithoutPurges(init), op);
      }
    }
  }

  /** Two runs that differ only in where and how often they purge have the same outcomes. */
  lemma PurgeUnobservable(c: Config, ops: seq<Op>, ops': seq<Op>)
    requires Sane(c) && Clocked(ops) && Clocked(ops') && WithoutPurges(ops) == WithoutPurges(ops')
    ensures Outcomes(c, ops) == Outcomes(c, ops')
  {
    RelayRefinesHistory(c, ops);
    RelayRefinesHistory(c, ops');
    ExpectedIgnoresPurges(c, ops);
    ExpectedIgnoresPurges(c, ops');
  }

  lemma {:induction false} WithoutPurgesConcat(xs: seq<Op>, ys: seq<Op>)
    ensures WithoutPurges(xs + ys) == WithoutPurges(xs) + WithoutPurges(ys)
  {
    if ys == [] {
      assert xs + ys == xs;
    } else {
      var all := xs + ys;
      assert all[..|all| - 1] == xs + ys[..|ys| - 1];
      WithoutPurgesConcat(xs, ys[..|ys| - 1]);
    }
  }

  lemma ClockedWithout(before: seq<Op>, op: Op, after: seq<Op>)
    requires Clocked(before + [op] + after)
    ensures Clocked(before + after)
  {
    var all, rest := before + [op] + after, before + after;
    forall i, j | 0 <= i < j < |rest| ensures rest[i].now <= rest[j].now {
      var i' := if i < |before| then i else i + 1;
      var j' := if j < |before| then j else j + 1;
      assert all[i'] == rest[i] && all[j'] == rest[j];
    }
  }

  lemma WithoutPurgesInserted(before: seq<Op>, purge: Op, after: seq<Op>)
    requires purge.action.PurgeExpired?
    ensures WithoutPurges(before + [purge] + after) == WithoutPurges(before + after)
  {
    WithoutPurgesConcat(before + [purge], after);
    assert (before + [purge])[..|before|] == before;
    WithoutPurgesConcat(before, after);
  }

  /** In particular, one purge inserted anywhere changes nothing. */
  lemma InsertedPurgeUnobservable(c: Config, before: seq<Op>, now: Time, after: seq<Op>)
    requires Sane(c) && Clocked(before + [Op(now, PurgeExpired)] + after)
    ensures Outcomes(c, before + [Op(now, PurgeExpired)] + after) == Outcomes(c, before + after)
  {
    ClockedWithout(before, Op(now, PurgeExpired), after);
    WithoutPurgesInserted(before, Op(now, PurgeExpired), after);
    PurgeUnobservable(c, before + [Op(now, PurgeExpired)] + after, before + after);
  }

  lemma {:induction false} UnexpiredAll(q: seq<Message>, now: Time)
    ensures |Unexpired(q, now)| == |q| <==> forall m :: m in q ==> now < m.expiresAt
  {
    if q != [] {
      var init, m := q[..|q| - 1], q[|q| - 1];
      assert q == init + [m];
      UnexpiredAll(init, now);
    }
  }

  /**
   * `QueueLength` counts expired messages until something drops them. A purge leaves it alone if and
   * only if nothing queued for that participant has expired.
   */
  lemma PurgeKeepsQueueLengthIff(c: Config, ops: seq<Op>, now: Time, p: string)
    ensures |QueueOf(Run(c, ops + [Op(now, PurgeExpired)]), p)| == |QueueOf(Run(c, ops), p)| <==>
            forall m :: m in QueueOf(Run(c, ops), p) ==> now < m.expiresAt
  {
    var purge := Op(now, PurgeExpired);
    assert (ops + [purge])[..|ops|] == ops;
    StepQueue(c, Run(c, ops), purge, p);
    UnexpiredAll(QueueOf(Run(c, ops), p), now);
  }

  lemma {:induction false} UnexpiredSome(q: seq<Message>, now: Time)
    ensures Unexpired(q, now) != [] <==> exists m :: m in q && now < m.expiresAt
  {
    if q != [] {
      var init, m := q[..|q| - 1], q[|q| - 1];
      assert q == init + [m];
      UnexpiredSome(init, now);
    }
  }

  /**
   * `Drain` returns nil for an empty queue and an empty list for one whose messages have all expired.
   * A purge leaves that difference alone too if and only if the queue is empty or has a live message.
   */
  lemma PurgeKeepsNilIff(c: Config, ops: seq<Op>, now: Time, p: string)
    ensures var q := QueueOf(Run(c, ops), p);
            (QueueOf(Run(c, ops + [Op(now, PurgeExpired)]), p) == [] <==> q == []) <==>
            (q == [] || exists m :: m in q && now < m.expiresAt)
  {
    var purge := Op(now, PurgeExpired);
    assert (ops + [purge])[..|ops|] == ops;
    StepQueue(c, Run(c, ops), purge, p);
    UnexpiredSome(QueueOf(Run(c, ops), p), now);
  }

  /** A run in which a purge changes both. */
  lemma PurgeVisibleToQueueLength()
    ensures var c := Defaults(Config(0, 5, 0));
            var ops := [Op(0, Enqueue("alice", "hello"))];
            && |QueueOf(Run(c, ops), "alice")| == 1
            && |QueueOf(Run(c, ops + [Op(9, PurgeExpired)]), "alice")| == 0
  {
    var c := Defaults(Config(0, 5, 0));
    var op, purge := Op(0, Enqueue("alice", "hello")), Op(9, PurgeExpired);
    var m := NewMessage(c, "hello", 0);
    assert [op][..0] == [];
    assert Unexpired(QueueOf(Run(c, []), "alice"), 0) == [];
    assert QueueOf(Run(c, [op]), "alice") == [m];
    assert ([op] + [purge])[..1] == [op];
    UnexpiredSnoc([], m, 9);
    assert [] + [m] == [m];
  }

  // ---- Conservation ----

  /** All messages ever accepted for `p`. */
  function Accepted(c: Config, ops: seq<Op>, p: string): seq<Message> {
    if ops == [] then []
    else
      var init, op := ops[..|ops| - 1], ops[|ops| - 1];
      Accepted(c, init, p) +
      (if op.action.Enqueue? && op.action.participant == p && Step(c, Run(c, init), op).1 == Verdict(true)
       then [NewMessage(c, op.action.data, op.now)] else [])
  }

  /** The enqueue operations for `p` that the machine accepted, in order. */
  function AcceptedEnqueues(c: Config, ops: seq<Op>, p: string): (es: seq<Op>)
    ensures forall op :: op in es ==> op.action.Enqueue? && op.action.participant == p
  {
    if ops == [] then []
    else
      var init, op := ops[..|ops| - 1], ops[|ops| - 1];
      AcceptedEnqueues(c, init, p) +
      (if op.action.Enqueue? && op.action.participant == p && Step(c, Run(c, init), op).1 == Verdict(true)
       then [op] else [])
  }

  /** The message carries the data it was enqueued with, the time it was, and the end of its time to live. */
  predicate Carries(m: Message, data: string, at: Time, ttl: int) {
    m.data == data && m.queuedAt == at && m.expiresAt == at + ttl
  }

  /** The accepted messages are the accepted enqueues, one for one and in order. */
  lemma {:induction false} AcceptedExact(c: Config, ops: seq<Op>, p: string)
    ensures |Accepted(c, ops, p)| == |AcceptedEnqueues(c, ops, p)|
    ensures forall i :: 0 <= i < |Accepted(c, ops, p)| ==>
              var op := AcceptedEnqueues(c, ops, p)[i];
              op in ops && Carries(Accepted(c, ops, p)[i], op.action.data, op.now, c.messageTtl)
  {
    if ops != [] {
      AcceptedExact(c, ops[..|ops| - 1], p);
    }
  }

  /** One drain of `p`: what it found expired and what it returned. */
  datatype Batch = Batch(at: Time, expired: seq<Message>, returned: seq<Message>)

  function Batches(c: Config, ops: seq<Op>, p: string): seq<Batch> {
    if ops == [] then []
    else
      var init, op := ops[..|ops| - 1], ops[|ops| - 1];
      Batches(c, init, p) +
      (if op.action == Drain(p) then
         var u := Undrained(c, init, p);
         var live := Unexpired(u, op.now);
         [Batch(op.now, u[..|u| - |live|], live)]
       else [])
  }

  function Flatten(bs: seq<Batch>): seq<Message> {
    if bs == [] then [] else Flatten(bs[..|bs| - 1]) + (bs[|bs| - 1].expired + bs[|bs| - 1].returned)
  }

  /** What the drains of `p` actually returned, in order. */
  function Drained(c: Config, ops: seq<Op>, p: string): seq<seq<Message>> {
    if ops == [] then []
    else
      var init, op := ops[..|ops| - 1], ops[|ops| - 1];
      Drained(c, init, p) + (if op.action == Drain(p) then [Step(c, Run(c, init), op).1.messages] else [])
  }

  ghost predicate ByExpiry(q: seq<Message>) {
    forall i, j :: 0 <= i < j < |q| ==> q[i].expiresAt <= q[j].expiresAt
  }

  /** `q` splits at `k` into expired and unexpired messages. */
  ghost predicate SplitsAt(q: seq<Message>, now: Time, k: nat) {
    && k <= |q|
    && (forall i :: 0 <= i < k ==> q[i].expiresAt <= now)
    && (forall i :: k <= i < |q| ==> now < q[i].expiresAt)
  }

  lemma SplitSnoc(q: seq<Message>, m: Message, now: Time, k: nat)
    requires SplitsAt(q, now, k) && ByExpiry(q + [m])
    ensures if now < m.expiresAt then SplitsAt(q + [m], now, k) else k == |q| && SplitsAt(q + [m], now, k + 1)
  {
    var all := q + [m];
    assert k < |q| ==> now < q[k].expiresAt && all[k].expiresAt <= all[|q|].expiresAt;
  }

  lemma SuffixSnoc(q: seq<Message>, m: Message, k: nat, live: bool)
    requires k <= |q| && (!live ==> k == |q|)
    ensures q[k..] + (if live then [m] else []) == (q + [m])[if live then k else k + 1..]
  {
  }

  /** With messages in expiry order, dropping the expired ones removes a prefix and nothing else. */
  lemma {:induction false} UnexpiredIsSuffix(q: seq<Message>, now: Time)
    requires ByExpiry(q)
    ensures var k := |q| - |Unexpired(q, now)|; SplitsAt(q, now, k) && Unexpired(q, now) == q[k..]
  {
    if q != [] {
      var init, m := q[..|q| - 1], q[|q| - 1];
      var k := |init| - |Unexpired(init, now)|;
      assert q == init + [m];
      UnexpiredIsSuffix(init, now);
      UnexpiredSnoc(init, m, now);
      SplitSnoc(init, m, now, k);
      SuffixSnoc(init, m, k, now < m.expiresAt);
    }
  }

  lemma {:induction false} UndrainedInOrder(c: Config, ops: seq<Op>, p: string, now: Time)
    requires Clocked(ops) && NotBefore(ops, now)
    ensures ByExpiry(Undrained(c, ops, p))
    ensures forall m :: m in Undrained(c, ops, p) ==> m.expiresAt <= now + c.messageTtl
  {
    if ops != [] {
      var init, op := ops[..|ops| - 1], ops[|ops| - 1];
      assert op in ops;
      UndrainedInOrder(c, init, p, op.now);
    }
  }

  ghost predicate BatchOk(b: Batch) {
    && (forall m :: m in b.expired ==> m.expiresAt <= b.at)
    && (forall m :: m in b.returned ==> b.at < m.expiresAt)
  }

  lemma FlattenSnoc(bs: seq<Batch>, b: Batch)
    ensures Flatten(bs + [b]) == Flatten(bs) + (b.expired + b.returned)
  {
    assert (bs + [b])[..|bs|] == bs;
  }

  lemma DrainSettles(u: seq<Message>, now: Time) returns (b: Batch)
    requires ByExpiry(u)
    ensures b == Batch(now, u[..|u| - |Unexpired(u, now)|], Unexpired(u, now))
    ensures BatchOk(b) && u == b.expired + b.returned
  {
    UnexpiredIsSuffix(u, now);
    b := Batch(now, u[..|u| - |Unexpired(u, now)|], Unexpired(u, now));
  }

  /** The messages an operation gets accepted for `p`. */
  function AcceptedBy(c: Config, undrained: seq<Message>, op: Op, p: string): seq<Message> {
    if op.action.Enqueue? && op.action.participant == p && |Unexpired(undrained, op.now)| < c.maxQueueSize
    then [NewMessage(c, op.action.data, op.now)] else []
  }

  /** The batch an operation makes of `p`'s undrained messages. */
  function BatchedBy(undrained: seq<Message>, op: Op, p: string): seq<Batch> {
    if op.action != Drain(p) then []
    else
      var live := Unexpired(undrained, op.now);
      [Batch(op.now, undrained[..|undrained| - |live|], live)]
  }

  lemma AcceptedSnoc(c: Config, ops: seq<Op>, op: Op, p: string)
    requires Sane(c) && Clocked(ops) && NotBefore(ops, op.now)
    ensures Accepted(c, ops + [op], p) == Accepted(c, ops, p) + AcceptedBy(c, Undrained(c, ops, p), op, p)
  {
    assert (ops + [op])[..|ops|] == ops;
    OutcomeExpected(c, ops, op);
  }

  lemma BatchesSnoc(c: Config, ops: seq<Op>, op: Op, p: string)
    ensures Batches(c, ops + [op], p) == Batches(c, ops, p) + BatchedBy(Undrained(c, ops, p), op, p)
    ensures Undrained(c, ops + [op], p) == UndrainedAfter(c, Undrained(c, ops, p), op, p)
  {
    assert (ops + [op])[..|ops|] == ops;
  }

  /** One operation moves messages from undrained to settled, or adds one. */
  lemma StepConserves(c: Config, accepted: seq<Message>, bs: seq<Batch>, u: seq<Message>, op: Op, p: string)
    requires ByExpiry(u) && accepted == Flatten(bs) + u && forall b :: b in bs ==> BatchOk(b)
    ensures var bs' := bs + BatchedBy(u, op, p);
            && accepted + AcceptedBy(c, u, op, p) == Flatten(bs') + UndrainedAfter(c, u, op, p)
            && forall b :: b in bs' ==> BatchOk(b)
  {
    if op.action == Drain(p) {
      var b := DrainSettles(u, op.now);
      assert BatchedBy(u, op, p) == [b];
      FlattenSnoc(bs, b);
      assert accepted + [] == accepted;
      assert Flatten(bs + [b]) + [] == Flatten(bs + [b]);
    } else {
      assert bs + BatchedBy(u, op, p) == bs;
      UndrainedGrows(c, u, op, p);
      Assoc(Flatten(bs), u, AcceptedBy(c, u, op, p));
    }
  }

  lemma UndrainedGrows(c: Config, u: seq<Message>, op: Op, p: string)
    requires op.action != Drain(p)
    ensures UndrainedAfter(c, u, op, p) == u + AcceptedBy(c, u, op, p)
  {
  }

  /** Accepted messages are, in order, those settled by some drain and those not yet drained. */
  lemma {:induction false} HistoryConserves(c: Config, ops: seq<Op>, p: string)
    requires Sane(c) && Clocked(ops)
    ensures Accepted(c, ops, p) == Flatten(Batches(c, ops, p)) + Undrained(c, ops, p)
    ensures forall b :: b in Batches(c, ops, p) ==> BatchOk(b)
  {
    if ops != [] {
      var init, op := ops[..|ops| - 1], ops[|ops| - 1];
      assert ops == init + [op];
      HistoryConserves(c, init, p);
      UndrainedInOrder(c, init, p, op.now);
      AcceptedSnoc(c, init, op, p);
      BatchesSnoc(c, init, op, p);
      StepConserves(c, Accepted(c, init, p), Batches(c, init, p), Undrained(c, init, p), op, p);
    }
  }

  lemma {:induction false} DrainedAreBatches(c: Config, ops: seq<Op>, p: string)
    requires Sane(c) && Clocked(ops)
    ensures |Drained(c, ops, p)| == |Batches(c, ops, p)|
    ensures forall i :: 0 <= i < |Drained(c, ops, p)| ==> Drained(c, ops, p)[i] == Batches(c, ops, p)[i].returned
  {
    if ops != [] {
      var init, op := ops[..|ops| - 1], ops[|ops| - 1];
      DrainedAreBatches(c, init, p);
      OutcomeExpected(c, init, op);
    }
  }

  /** The queue itself is the undrained history minus an expired prefix, and never exceeds its capacity. */
  ghost predicate QueueOk(c: Config, q: seq<Message>, undrained: seq<Message>, now: Time) {
    && |q| <= c.maxQueueSize
    && |q| <= |undrained|
    && q == undrained[|undrained| - |q|..]
    && forall i :: 0 <= i < |undrained| - |q| ==> undrained[i].expiresAt <= now
  }

  lemma {:induction false} ExpiredPrefixUnseen(gone: seq<Message>, q: seq<Message>, now: Time)
    requires forall m :: m in gone ==> m.expiresAt <= now
    ensures Unexpired(gone + q, now) == Unexpired(q, now)
  {
    var all := gone + q;
    if q == [] {
      assert all == gone;
      if gone != [] {
        assert gone == gone[..|gone| - 1] + [gone[|gone| - 1]] && gone[|gone| - 1] in gone;
        ExpiredPrefixUnseen(gone[..|gone| - 1], [], now);
        assert gone[..|gone| - 1] + [] == gone[..|gone| - 1];
      }
    } else {
      assert all[..|all| - 1] == gone + q[..|q| - 1];
      ExpiredPrefixUnseen(gone, q[..|q| - 1], now);
    }
  }

  lemma QueueOkCompacts(c: Config, q: seq<Message>, undrained: seq<Message>, now: Time)
    requires QueueOk(c, q, undrained, now) && ByExpiry(undrained)
    ensures QueueOk(c, Unexpired(q, now), undrained, now)
    ensures Unexpired(q, now) == Unexpired(undrained, now)
  {
    var gone := undrained[..|undrained| - |q|];
    assert undrained == gone + q;
    ExpiredPrefixUnseen(gone, q, now);
    UnexpiredIsSuffix(undrained, now);
  }

  lemma QueueOkAppend(c: Config, q: seq<Message>, u: seq<Message>, m: Message, now: Time)
    requires QueueOk(c, q, u, now)
    ensures |q| < c.maxQueueSize ==> QueueOk(c, q + [m], u + [m], now)
  {
  }

  lemma QueueOkStep(c: Config, q: seq<Message>, u: seq<Message>, op: Op, p: string)
    requires Sane(c) && ByExpiry(u) && QueueOk(c, q, u, op.now)
    ensures QueueOk(c, QueueAfter(c, q, op, p), UndrainedAfter(c, u, op, p), op.now)
  {
    QueueOkCompacts(c, q, u, op.now);
    if op.action.Enqueue? && op.action.participant == p {
      QueueOkAppend(c, Unexpired(q, op.now), u, NewMessage(c, op.action.data, op.now), op.now);
    }
  }

  lemma {:induction false} QueueIsRecentHistory(c: Config, ops: seq<Op>, p: string, now: Time)
    requires Sane(c) && Clocked(ops) && NotBefore(ops, now)
    ensures QueueOk(c, QueueOf(Run(c, ops), p), Undrained(c, ops, p), now)
  {
    if ops != [] {
      var init, op := ops[..|ops| - 1], ops[|ops| - 1];
      assert op in ops;
      QueueIsRecentHistory(c, init, p, op.now);
      UndrainedInOrder(c, init, p, op.now);
      StepQueue(c, Run(c, init), op, p);
      QueueOkStep(c, QueueOf(Run(c, init), p), Undrained(c, init, p), op, p);
    }
  }

  /**
   * Conservation: every message accepted for `p` is in exactly one place. In acceptance order they
   * are: what each drain found expired followed by what it returned, then an expired prefix that has
   * already been dropped, then the queue.
   */
  lemma MessagesConserved(c: Config, ops: seq<Op>, p: string, now: Time) returns (dropped: seq<Message>)
    requires Sane(c) && Clocked(ops) && NotBefore(ops, now)
    ensures Accepted(c, ops, p) == Flatten(Batches(c, ops, p)) + dropped + QueueOf(Run(c, ops), p)
    ensures forall b :: b in Batches(c, ops, p) ==> BatchOk(b)
    ensures forall m :: m in dropped ==> m.expiresAt <= now
    ensures |Drained(c, ops, p)| == |Batches(c, ops, p)|
    ensures forall i :: 0 <= i < |Drained(c, ops, p)| ==> Drained(c, ops, p)[i] == Batches(c, ops, p)[i].returned
    ensures |QueueOf(Run(c, ops), p)| <= c.maxQueueSize
  {
    HistoryConserves(c, ops, p);
    DrainedAreBatches(c, ops, p);
    QueueIsRecentHistory(c, ops, p, now);
    var u, q := Undrained(c, ops, p), QueueOf(Run(c, ops), p);
    dropped := u[..|u| - |q|];
    assert u == dropped + q;
    assert Flatten(Batches(c, ops, p)) + u == Flatten(Batches(c, ops, p)) + dropped + q;
  }

  lemma {:induction false} StaysUndrained(c: Config, ops: seq<Op>, later: seq<Op>, p: string, m: Message)
    requires m in Undrained(c, ops, p)
    requires forall op :: op in later ==> op.action != Drain(p)
    ensures m in Undrained(c, ops + later, p)
  {
    if later == [] {
      assert ops + later == ops;
    } else {
      var all := ops + later;
      assert all[..|all| - 1] == ops + later[..|later| - 1];
      assert later[|later| - 1] in later;
      StaysUndrained(c, ops, later[..|later| - 1], p, m);
    }
  }

  lemma {:induction false} UnexpiredKeeps(q: seq<Message>, m: Message, now: Time)
    requires m in q && now < m.expiresAt
    ensures m in Unexpired(q, now)
  {
    if m in q[..|q| - 1] {
      UnexpiredKeeps(q[..|q| - 1], m, now);
    } else {
      assert q[|q| - 1] == m;
    }
  }

  /** A message whose first drain comes before its time to live ends is returned by that drain. */
  lemma FirstDrainReturns(c: Config, before: seq<Op>, enqueue: Op, between: seq<Op>, drain: Op, p: string)
    requires Sane(c) && enqueue.action.Enqueue? && enqueue.action.participant == p && drain.action == Drain(p)
    requires Clocked(before + [enqueue] + between) && NotBefore(before + [enqueue] + between, drain.now)
    requires Step(c, Run(c, before), enqueue).1 == Verdict(true)
    requires forall op :: op in between ==> op.action != Drain(p)
    requires drain.now < enqueue.now + c.messageTtl
    ensures exists m :: && m in Step(c, Run(c, before + [enqueue] + between), drain).1.messages
                        && m.data == enqueue.action.data && m.queuedAt == enqueue.now
                        && m.expiresAt == enqueue.now + c.messageTtl
  {
    var m := NewMessage(c, enqueue.action.data, enqueue.now);
    var all := before + [enqueue] + between;
    forall op | op in before ensures op.now <= enqueue.now {
      var i :| 0 <= i < |before| && before[i] == op;
      assert all[i] == op && all[|before|] == enqueue;
    }
    assert Clocked(before) by {
      assert forall i :: 0 <= i < |before| ==> all[i] == before[i];
    }
    OutcomeExpected(c, before, enqueue);
    assert (before + [enqueue])[..|before|] == before;
    assert m in Undrained(c, before + [enqueue], p);
    StaysUndrained(c, before + [enqueue], between, p, m);
    OutcomeExpected(c, all, drain);
    UnexpiredKeeps(Undrained(c, all, p), m, drain.now);
  }

  // ---- Registrations, in times ----

  lemma {:induction false} LeaseStays(c: Config, ops: seq<Op>, later: seq<Op>, p: string)
    requires forall op :: op in later ==> op.action != Register(p) && op.action != Unregister(p)
    ensures Lease(c, ops + later, p) == Lease(c, ops, p)
  {
    if later == [] {
      assert ops + later == ops;
    } else {
      var all := ops + later;
      assert all[..|all| - 1] == ops + later[..|later| - 1];
      assert later[|later| - 1] in later;
      LeaseStays(c, ops, later[..|later| - 1], p);
    }
  }

  lemma LeaseSnoc(c: Config, ops: seq<Op>, op: Op, p: string)
    ensures Lease(c, ops + [op], p) == LeaseAfter(c, Lease(c, ops, p), op, p)
  {
    assert (ops + [op])[..|ops|] == ops;
  }

  /**
   * A registration holds from its time until exactly its time to live later, whatever else happens, purges
   * included, unless the participant registers again or is unregistered.
   */
  lemma RegistrationLasts(c: Config, before: seq<Op>, at: Time, p: string, between: seq<Op>, now: Time)
    requires Sane(c) && p != ""
    requires Clocked(before + [Op(at, Register(p))] + between)
    requires NotBefore(before + [Op(at, Register(p))] + between, now)
    requires forall op :: op in between ==> op.action != Register(p) && op.action != Unregister(p)
    ensures var all := before + [Op(at, Register(p))] + between;
            Step(c, Run(c, all), Op(now, IsRegistered(p))).1 == Answer(now < at + c.registrationTtl)
  {
    LeaseSnoc(c, before, Op(at, Register(p)), p);
    LeaseStays(c, before + [Op(at, Register(p))], between, p);
    OutcomeExpected(c, before + [Op(at, Register(p))] + between, Op(now, IsRegistered(p)));
  }

  /** After an unregistration, or without any registration, the participant is not registered. */
  lemma UnregisteredUntilRegistered(c: Config, before: seq<Op>, later: seq<Op>, p: string, now: Time)
    requires Sane(c) && Clocked(before + later) && NotBefore(before + later, now)
    requires before != [] ==> before[|before| - 1].action == Unregister(p)
    requires forall op :: op in later ==> op.action != Register(p)
    ensures Step(c, Run(c, before + later), Op(now, IsRegistered(p))).1 == Answer(false)
  {
    NoLease(c, before, later, p);
    OutcomeExpected(c, before + later, Op(now, IsRegistered(p)));
  }

  lemma {:induction false} NoLease(c: Config, before: seq<Op>, later: seq<Op>, p: string)
    requires before != [] ==> before[|before| - 1].action == Unregister(p)
    requires forall op :: op in later ==> op.action != Register(p)
    ensures Lease(c, before + later, p) == None
  {
    if later == [] {
      assert before + later == before;
    } else {
      var all := before + later;
      assert all[..|all| - 1] == before + later[..|later| - 1];
      assert later[|later| - 1] in later;
      NoLease(c, before, later[..|later| - 1], p);
    }
  }

  /** What a registration stores, and that one without a sender stores nothing. */
  lemma RegisterStores(c: Config, s: RelayState, p: string, now: Time)
    ensures var (s', o) := Step(c, s, Op(now, Register(p)));
            if p == "" then s' == s && o == Rejected
            else
              && o == Done && s'.queues == s.queues && s'.registrations.Keys == s.registrations.Keys + {p}
              && s'.registrations[p].participant == p && s'.registrations[p].registeredAt == now
              && s'.registrations[p].expiresAt == now + c.registrationTtl
              && forall q :: q in s.registrations && q != p ==> s'.registrations[q] == s.registrations[q]
  {
  }

  /** A purge keeps exactly the registrations that are not past their end, and exactly the live messages. */
  lemma PurgeExact(c: Config, s: RelayState, now: Time)
    ensures var s' := Step(c, s, Op(now, PurgeExpired)).0;
            && (forall p :: p in s'.registrations <==> p in s.registrations && now <= s.registrations[p].expiresAt)
            && (forall p :: p in s'.registrations ==> s'.registrations[p] == s.registrations[p])
            && (forall p :: p in s'.queues <==> p in s.queues && exists m :: m in s.queues[p] && now < m.expiresAt)
            && (forall p, m :: p in s'.queues ==> (m in s'.queues[p] <==> m in s.queues[p] && now < m.expiresAt))
  {
    forall p | p in s.queues
      ensures Unexpired(s.queues[p], now) != [] <==> exists m :: m in s.queues[p] && now < m.expiresAt
      ensures forall m :: m in Unexpired(s.queues[p], now) <==> m in s.queues[p] && now < m.expiresAt
    {
      UnexpiredSome(s.queues[p], now);
      forall m ensures m in Unexpired(s.queues[p], now) <==> m in s.queues[p] && now < m.expiresAt {
        UnexpiredMembers(s.queues[p], m, now);
      }
    }
  }

  lemma {:induction false} UnexpiredMembers(q: seq<Message>, m: Message, now: Time)
    ensures m in Unexpired(q, now) <==> m in q && now < m.expiresAt
  {
    if q != [] {
      UnexpiredMembers(q[..|q| - 1], m, now);
      assert q == q[..|q| - 1] + [q[|q| - 1]];
    }
  }
}
