/**
 What the indexer service does with a schedule, as a function: src/aether/stream/indexer.py.
 Every call of it is a run of `Protocol`.
 */
module Serving {
  import opened Prelude
  import opened Keys
  import opened Manifests
  import opened Protocol
  import opened ProtocolSafety
  import opened PartitionIndexing

  /** What the broker chooses to do at one poll. Choices it cannot make are quiet polls. */
  datatype Choice = Nothing | DeliverNext(p: nat) | Rebalance(revoked: seq<nat>, assigning: seq<nat>)

  datatype Event<D> = Quiet | Message(p: nat, offset: nat, doc: D) | Rebalanced(revoked: seq<nat>, assigning: seq<nat>)

  /** The offset a group resumes at; one without an offset starts at the beginning. */
  function CommittedAt(committed: map<nat, nat>, p: nat): nat {
    if p in committed then committed[p] else 0
  }

  /** What one poll returns, given where the consumer reads. */
  function Polled<D>(logs: map<nat, seq<D>>, positions: map<nat, nat>, choice: Choice): Event<D> {
    match choice
    case Nothing => Quiet
    case DeliverNext(p) =>
      if p in positions && p in logs && positions[p] < |logs[p]| then Message(p, positions[p], logs[p][positions[p]])
      else Quiet
    case Rebalance(revoked, assigning) =>
      if forall p :: p in assigning ==> p in logs then Rebalanced(revoked, assigning) else Quiet
  }

  // ---- the service's state ---------------------------------------------

  /** The store, the broker's committed offsets, the partitions held, and the messages consumed. */
  datatype Service<D> = Service(
    objects: Store<D>, committed: map<nat, nat>, workers: map<nat, Worker<D>>, flushedAt: map<nat, real>, consumed: nat)

  function Positions<D>(workers: map<nat, Worker<D>>): map<nat, nat> {
    map p | p in workers :: workers[p].position
  }

  /** The protocol state of a service: nothing is being merged while it holds its partitions. */
  function SystemOf<D>(logs: map<nat, seq<D>>, s: Service<D>): System<D> {
    System(s.objects, map p | p in logs ::
      Partition(logs[p], CommittedAt(s.committed, p), if p in s.workers then Some(s.workers[p]) else None, None))
  }

  // ---- what the service does -------------------------------------------

  function Assigned<D>(s: Service<D>, assigning: set<nat>, now: real): Service<D> {
    s.(workers := s.workers + Beginners(s, assigning), flushedAt := s.flushedAt + Times(assigning, now))
  }

  function Beginners<D>(s: Service<D>, assigning: set<nat>): map<nat, Worker<D>> {
    map p | p in assigning :: FreshWorker(s.objects, p, CommittedAt(s.committed, p))
  }

  function Revoked<D>(s: Service<D>, revoked: set<nat>): Service<D> {
    s.(workers := s.workers - revoked, flushedAt := s.flushedAt - revoked)
  }

  function AssignedTo<D>(s: Service<D>, p: nat, now: real): Service<D> {
    s.(workers := s.workers[p := FreshWorker(s.objects, p, CommittedAt(s.committed, p))], flushedAt := s.flushedAt[p := now])
  }

  function RevokedFrom<D>(s: Service<D>, p: nat): Service<D> {
    s.(workers := s.workers - {p}, flushedAt := s.flushedAt - {p})
  }

  function Buffered<D>(s: Service<D>, p: nat, doc: D, offset: nat): Service<D>
    requires p in s.workers
  {
    s.(workers := s.workers[p := Buffer(s.workers[p], doc, offset)], consumed := s.consumed + 1)
  }

  /** The partitions among `ps` with something to seal. */
  function Sealable<D>(s: Service<D>, ps: set<nat>): set<nat> {
    set p | p in ps && p in s.workers && Bounded(s.workers[p])
  }

  /** One partition sealed, published and committed. */
  function FlushedOne<D>(sealer: Sealer<D>, s: Service<D>, p: nat, now: real): Service<D>
    requires p in s.workers && Bounded(s.workers[p])
  {
    var w := s.workers[p];
    Service(FlushedStore(sealer, s.objects, p, w), s.committed[p := w.last.value + 1],
            s.workers[p := Published(sealer, p, w)], s.flushedAt[p := now], s.consumed)
  }

  /** What sealing one partition puts: its segment and its manifest. */
  function Writes<D>(sealer: Sealer<D>, s: Service<D>, p: nat): Store<D> {
    if p in s.workers && Bounded(s.workers[p]) then FlushedStore(sealer, map[], p, s.workers[p]) else map[]
  }

  function Written<D>(sealer: Sealer<D>, s: Service<D>, ps: set<nat>): set<Key> {
    set p, k | p in ps && k in Writes(sealer, s, p) :: k
  }

  /** Several at once: they touch different names, so their order does not show. */
  function FlushedObjects<D>(sealer: Sealer<D>, s: Service<D>, ps: set<nat>): Store<D> {
    map k | k in s.objects.Keys + Written(sealer, s, ps) ::
      if k.partition in ps && k in Writes(sealer, s, k.partition) then Writes(sealer, s, k.partition)[k]
      else if k in s.objects then s.objects[k]
      else ManifestObject(Manifest([], 0))
  }

  function Ends<D>(s: Service<D>, m: set<nat>): map<nat, nat> {
    map p | p in m && p in s.workers && Bounded(s.workers[p]) :: s.workers[p].last.value + 1
  }

  function Outcomes<D>(sealer: Sealer<D>, s: Service<D>, m: set<nat>): map<nat, Worker<D>> {
    map p | p in m && p in s.workers && Bounded(s.workers[p]) :: Published(sealer, p, s.workers[p])
  }

  function Times(m: set<nat>, now: real): map<nat, real> {
    map p | p in m :: now
  }

  function Flushed<D>(sealer: Sealer<D>, s: Service<D>, ps: set<nat>, now: real): Service<D> {
    Service(FlushedObjects(sealer, s, ps), s.committed + Ends(s, ps), s.workers + Outcomes(sealer, s, ps),
            s.flushedAt + Times(Sealable(s, ps), now), s.consumed)
  }

  function DueSet<D>(policy: FlushPolicy, s: Service<D>, now: real): set<nat> {
    set p | p in s.workers && p in s.flushedAt && Due(policy, |s.workers[p].docs|, s.flushedAt[p], now)
  }

  /** The service after one poll. */
  function Served<D>(policy: FlushPolicy, sealer: Sealer<D>, logs: map<nat, seq<D>>, s: Service<D>, choice: Choice,
                     now: real): Service<D>
  {
    match Polled(logs, Positions(s.workers), choice)
    case Quiet => Flushed(sealer, s, DueSet(policy, s, now), now)
    case Rebalanced(revoked, assigning) => Assigned(Revoked(s, Elements(revoked)), Elements(assigning), now)
    case Message(p, offset, doc) =>
      var b := Buffered(s, p, doc, offset);
      Flushed(sealer, b, DueSet(policy, b, now) * {p}, now)
  }

  predicate Enough(maxEvents: Option<nat>, event: Event, consumed: nat) {
    event.Message? && maxEvents.Some? && maxEvents.value > 0 && consumed >= maxEvents.value
  }

  /** The service after the polls of a schedule, or after the message that was one too many. */
  function Looped<D>(policy: FlushPolicy, sealer: Sealer<D>, logs: map<nat, seq<D>>, s: Service<D>,
                     script: seq<(Choice, real)>, maxEvents: Option<nat>): Service<D>
    decreases |script|
  {
    if script == [] then s
    else
      var next := Served(policy, sealer, logs, s, script[0].0, script[0].1);
      if Enough(maxEvents, Polled(logs, Positions(s.workers), script[0].0), next.consumed) then next
      else Looped(policy, sealer, logs, next, script[1..], maxEvents)
  }

  function BufferedSet<D>(s: Service<D>): set<nat> {
    set p | p in s.workers && s.workers[p].docs != []
  }

  /** A clean stop seals whatever is left. */
  function Stopped<D>(sealer: Sealer<D>, s: Service<D>, now: real): Service<D> {
    Flushed(sealer, s, BufferedSet(s), now)
  }

  // ---- every step is a run of the protocol -----------------------------

  /** Everything read is either committed or still buffered: nothing is lost in between. */
  predicate Settled<D>(s: Service<D>) {
    forall p :: p in s.workers ==> CommittedAt(s.committed, p) + |s.workers[p].docs| == s.workers[p].position
  }

  /** The protocol reaches this state, between two calls of the service. */
  ghost predicate Sound<D(!new)>(sealer: Sealer<D>, logs: map<nat, seq<D>>, s: Service<D>) {
    && Reachable(sealer, SystemOf(logs, s)) && Settled(s)
    && s.workers.Keys == s.flushedAt.Keys <= logs.Keys
    && forall p :: p in s.workers ==> !s.workers[p].segmentPut
  }

  /** What the protocol's invariant says of a held partition. */
  lemma WorkerFacts<D(!new)>(sealer: Sealer<D>, logs: map<nat, seq<D>>, s: Service<D>, p: nat)
    requires Sound(sealer, logs, s) && p in s.workers
    ensures var w := s.workers[p];
      && (Bounded(w) <==> w.docs != []) && (w.docs != [] <==> w.first.Some?) && (w.docs != [] <==> w.last.Some?)
      && (w.docs != [] ==> w.last == Some(w.position - 1))
      && |w.docs| <= w.position <= |logs[p]| && w.manifest == Live(s.objects, p)
  {
    hide Reachable;
    var system := SystemOf(logs, s);
    ReachableInv(sealer, system);
    assert PartitionOk(sealer, s.objects, p, system.partitions[p]);
  }

  /** A protocol step that only moves one partition, read as services. */
  lemma StepTo<D(!new)>(sealer: Sealer<D>, logs: map<nat, seq<D>>, step: Step<D>, s: Service<D>, s': Service<D>)
    requires Reachable(sealer, SystemOf(logs, s)) && step.p in logs
    requires forall q :: q in logs && q != step.p ==>
      && (q in s.workers <==> q in s'.workers) && (q in s.workers ==> s.workers[q] == s'.workers[q])
      && CommittedAt(s.committed, q) == CommittedAt(s'.committed, q)
    requires Ready(s.objects, SystemOf(logs, s).partitions[step.p], step)
    requires Act(sealer, s.objects, SystemOf(logs, s).partitions[step.p], step)
          == (s'.objects, SystemOf(logs, s').partitions[step.p])
    ensures Reachable(sealer, SystemOf(logs, s'))
  {
    hide Reachable, Ready, Act, CommittedAt;
    var (a, b) := (SystemOf(logs, s), SystemOf(logs, s'));
    assert a.partitions[step.p := b.partitions[step.p]] == b.partitions;
    assert Enabled(a, step) && b == Apply(sealer, a, step);
    ReachableNext(sealer, a, step);
  }

  lemma RevokedOne<D(!new)>(sealer: Sealer<D>, logs: map<nat, seq<D>>, s: Service<D>, p: nat)
    requires Sound(sealer, logs, s)
    ensures Sound(sealer, logs, RevokedFrom(s, p))
  {
    hide Reachable, CommittedAt;
    if p in s.workers {
      RevokedParts(logs, s, p);
      hide SystemOf;
      StepTo(sealer, logs, Lose(p), s, RevokedFrom(s, p));
    } else {
      assert RevokedFrom(s, p) == s;
    }
  }

  lemma RevokedParts<D>(logs: map<nat, seq<D>>, s: Service<D>, p: nat)
    requires p in logs && p in s.workers
    ensures var (held, free) := (SystemOf(logs, s), SystemOf(logs, RevokedFrom(s, p)));
      && held.partitions[p].owner.Some? && free.partitions[p] == held.partitions[p].(owner := None)
  {
  }

  lemma AssignedOne<D(!new)>(sealer: Sealer<D>, logs: map<nat, seq<D>>, s: Service<D>, p: nat, now: real)
    requires Sound(sealer, logs, s) && p in logs
    ensures Sound(sealer, logs, AssignedTo(s, p, now))
  {
    hide Reachable, Settled, SystemOf;
    var (free, s') := (RevokedFrom(s, p), AssignedTo(s, p, now));
    RevokedOne(sealer, logs, s, p);
    AssignedParts(logs, s, p, now);
    StepTo(sealer, logs, Assign(p), free, s');
    AssignedSettled(s, p, now);
  }

  lemma AssignedParts<D>(logs: map<nat, seq<D>>, s: Service<D>, p: nat, now: real)
    requires p in logs
    ensures var (free, s') := (SystemOf(logs, RevokedFrom(s, p)), SystemOf(logs, AssignedTo(s, p, now)));
      && free.partitions[p].owner.None? && free.partitions[p].committed == CommittedAt(s.committed, p)
      && s'.partitions[p] == free.partitions[p].(owner := Some(FreshWorker(s.objects, p, CommittedAt(s.committed, p))))
  {
  }

  lemma AssignedSettled<D>(s: Service<D>, p: nat, now: real)
    requires Settled(s)
    ensures Settled(AssignedTo(s, p, now))
  {
  }

  lemma BufferedOne<D(!new)>(sealer: Sealer<D>, logs: map<nat, seq<D>>, s: Service<D>, p: nat)
    requires Sound(sealer, logs, s) && p in s.workers && s.workers[p].position < |logs[p]|
    ensures var o := s.workers[p].position; Sound(sealer, logs, Buffered(s, p, logs[p][o], o))
  {
    hide Reachable;
    var o := s.workers[p].position;
    StepTo(sealer, logs, Deliver(p), s, Buffered(s, p, logs[p][o], o));
  }

  /** A flush is the segment put, the manifest put and the commit, in that order. */
  lemma FlushedSound<D(!new)>(sealer: Sealer<D>, logs: map<nat, seq<D>>, s: Service<D>, p: nat, now: real)
    requires Sound(sealer, logs, s) && p in s.workers && Bounded(s.workers[p])
    ensures Sound(sealer, logs, FlushedOne(sealer, s, p, now))
  {
    hide Reachable, Publish, Settled, FlushedStore, Sealed, SystemOf, FlushedOne, Published;
    WorkerFacts(sealer, logs, s, p);
    var (w, after) := (s.workers[p], FlushedOne(sealer, s, p, now));
    var put := s.(objects := StoreWithSegment(s.objects, p, w), workers := s.workers[p := w.(segmentPut := true)]);
    FlushSteps(sealer, logs, s, p, now);
    PutSegmentStep(sealer, logs, s, p);
    PutManifestStep(sealer, logs, put, p);
    var done := put.(objects := FlushedStore(sealer, s.objects, p, w), workers := s.workers[p := Published(sealer, p, w)]);
    assert put.workers[p := Published(sealer, p, w)] == done.workers;
    CommitStep(sealer, logs, done, p);
    FlushedParts(sealer, logs, s, p, now);
    FlushedSettled(sealer, logs, s, p, now);
  }

  lemma PutSegmentStep<D(!new)>(sealer: Sealer<D>, logs: map<nat, seq<D>>, s: Service<D>, p: nat)
    requires Reachable(sealer, SystemOf(logs, s)) && p in logs && p in s.workers
    requires Bounded(s.workers[p]) && !s.workers[p].segmentPut
    ensures var w := s.workers[p];
      Reachable(sealer, SystemOf(logs,
        s.(objects := StoreWithSegment(s.objects, p, w), workers := s.workers[p := w.(segmentPut := true)])))
  {
    hide Reachable;
    var w := s.workers[p];
    StepTo(sealer, logs, PutSegment(p), s,
           s.(objects := StoreWithSegment(s.objects, p, w), workers := s.workers[p := w.(segmentPut := true)]));
  }

  lemma PutManifestStep<D(!new)>(sealer: Sealer<D>, logs: map<nat, seq<D>>, s: Service<D>, p: nat)
    requires Reachable(sealer, SystemOf(logs, s)) && p in logs && p in s.workers
    requires Bounded(s.workers[p]) && s.workers[p].segmentPut
    ensures var w := Published(sealer, p, s.workers[p]);
      Reachable(sealer, SystemOf(logs,
        s.(objects := StoreWithManifest(s.objects, p, w.manifest), workers := s.workers[p := w])))
  {
    hide Reachable, Published;
    var w := Published(sealer, p, s.workers[p]);
    StepTo(sealer, logs, PutManifest(p), s,
           s.(objects := StoreWithManifest(s.objects, p, w.manifest), workers := s.workers[p := w]));
  }

  lemma CommitStep<D(!new)>(sealer: Sealer<D>, logs: map<nat, seq<D>>, s: Service<D>, p: nat)
    requires Reachable(sealer, SystemOf(logs, s)) && p in logs && p in s.workers && s.workers[p].through.Some?
    ensures Reachable(sealer, SystemOf(logs, s.(committed := s.committed[p := s.workers[p].through.value + 1])))
  {
    hide Reachable;
    StepTo(sealer, logs, Commit(p), s, s.(committed := s.committed[p := s.workers[p].through.value + 1]));
  }

  lemma FlushedParts<D>(sealer: Sealer<D>, logs: map<nat, seq<D>>, s: Service<D>, p: nat, now: real)
    requires p in s.workers && Bounded(s.workers[p])
    ensures var (w, after) := (s.workers[p], FlushedOne(sealer, s, p, now));
      && after.workers.Keys == s.workers.Keys && after.flushedAt.Keys == s.flushedAt.Keys + {p}
      && (forall q :: q in s.workers && q != p ==> after.workers[q] == s.workers[q]) && !after.workers[p].segmentPut
      && SystemOf(logs, after) == SystemOf(logs, Service(FlushedStore(sealer, s.objects, p, w),
           s.committed[p := w.last.value + 1], s.workers[p := Published(sealer, p, w)], s.flushedAt, s.consumed))
  {
    hide FlushedStore, Publish, Sealed;
  }

  lemma FlushSteps<D>(sealer: Sealer<D>, logs: map<nat, seq<D>>, s: Service<D>, p: nat, now: real)
    requires p in logs && p in s.workers && Bounded(s.workers[p])
    ensures var w := s.workers[p];
      && Published(sealer, p, w.(segmentPut := true)) == Published(sealer, p, w)
      && Published(sealer, p, w).through == w.last
      && FlushedStore(sealer, s.objects, p, w)
         == StoreWithManifest(StoreWithSegment(s.objects, p, w), p, Published(sealer, p, w).manifest)
  {
    hide Publish;
  }

  lemma FlushedSettled<D(!new)>(sealer: Sealer<D>, logs: map<nat, seq<D>>, s: Service<D>, p: nat, now: real)
    requires Sound(sealer, logs, s) && p in s.workers && Bounded(s.workers[p])
    ensures Settled(FlushedOne(sealer, s, p, now))
  {
    hide Reachable, Publish, FlushedStore, SystemOf;
    WorkerFacts(sealer, logs, s, p);
  }

  // ---- several partitions at once --------------------------------------

  lemma AssignedMore<D>(s: Service<D>, done: set<nat>, p: nat, now: real)
    ensures Assigned(s, {}, now) == s
    ensures Assigned(s, done + {p}, now) == AssignedTo(Assigned(s, done, now), p, now)
  {
    var w := FreshWorker(s.objects, p, CommittedAt(s.committed, p));
    BeginnersMore(s, done, p, now);
    hide FreshWorker, Beginners, Times;
    Overlay(s.workers, Beginners(s, done), p, w);
    Overlay(s.flushedAt, Times(done, now), p, now);
  }

  lemma BeginnersMore<D>(s: Service<D>, done: set<nat>, p: nat, now: real)
    ensures Beginners(s, {}) == map[] && Times({}, now) == map[]
    ensures Beginners(s, done + {p}) == Beginners(s, done)[p := FreshWorker(s.objects, p, CommittedAt(s.committed, p))]
    ensures Times(done + {p}, now) == Times(done, now)[p := now]
  {
    hide FreshWorker;
  }

  lemma RevokedMore<D>(s: Service<D>, done: set<nat>, p: nat)
    ensures Revoked(s, {}) == s
    ensures Revoked(s, done + {p}) == RevokedFrom(Revoked(s, done), p)
  {
    var (a, b) := (Revoked(s, done + {p}), RevokedFrom(Revoked(s, done), p));
    assert a.workers == b.workers;
    assert a.flushedAt == b.flushedAt;
  }

  lemma WritesOwn<D>(sealer: Sealer<D>, s: Service<D>)
    ensures forall q, k :: k in Writes(sealer, s, q) ==> k.partition == q
  {
    hide Published;
  }

  lemma FlushedNone<D>(sealer: Sealer<D>, s: Service<D>, now: real)
    ensures Flushed(sealer, s, {}, now) == s
  {
    hide FlushedObjects, Ends, Outcomes, Times, Sealable;
    NothingFlushed(sealer, s, now);
    PlusNone(s.committed);
    PlusNone(s.workers);
    PlusNone(s.flushedAt);
  }

  lemma PlusNone<V>(m: map<nat, V>)
    ensures m + map[] == m
  {
  }

  lemma NothingFlushed<D>(sealer: Sealer<D>, s: Service<D>, now: real)
    ensures FlushedObjects(sealer, s, {}) == s.objects && Sealable(s, {}) == {}
    ensures Ends(s, {}) == map[] && Outcomes(sealer, s, {}) == map[] && Times({}, now) == map[]
  {
    hide Writes;
    NothingWritten(sealer, s);
  }

  lemma NothingWritten<D>(sealer: Sealer<D>, s: Service<D>)
    ensures Written(sealer, s, {}) == {}
  {
    hide Writes;
  }

  /** Flushing one partition overlays what it writes. */
  lemma FlushedStoreWrites<D>(sealer: Sealer<D>, s: Service<D>, objects: Store<D>, p: nat)
    requires p in s.workers && Bounded(s.workers[p])
    ensures FlushedStore(sealer, objects, p, s.workers[p]) == objects + Writes(sealer, s, p)
  {
    hide Published;
  }

  lemma MoreObjects<D>(sealer: Sealer<D>, s: Service<D>, done: set<nat>, p: nat)
    requires p !in done
    ensures FlushedObjects(sealer, s, done + {p}) == FlushedObjects(sealer, s, done) + Writes(sealer, s, p)
  {
    hide Writes;
    WritesOwn(sealer, s);
    MoreWritten(sealer, s, done, p);
    hide Written;
    var (a, b) := (FlushedObjects(sealer, s, done + {p}), FlushedObjects(sealer, s, done) + Writes(sealer, s, p));
    assert a.Keys == b.Keys;
    forall k | k in a
      ensures a[k] == b[k]
    {
    }
  }

  lemma MoreWritten<D>(sealer: Sealer<D>, s: Service<D>, done: set<nat>, p: nat)
    ensures Written(sealer, s, done + {p}) == Written(sealer, s, done) + Writes(sealer, s, p).Keys
  {
    hide Writes;
  }

  lemma Overlay<V>(base: map<nat, V>, over: map<nat, V>, p: nat, v: V)
    ensures base + over[p := v] == (base + over)[p := v]
  {
  }

  lemma MapsMore<D>(sealer: Sealer<D>, s: Service<D>, done: set<nat>, p: nat, now: real)
    requires p in s.workers && Bounded(s.workers[p])
    ensures Ends(s, done + {p}) == Ends(s, done)[p := s.workers[p].last.value + 1]
    ensures Outcomes(sealer, s, done + {p}) == Outcomes(sealer, s, done)[p := Published(sealer, p, s.workers[p])]
    ensures Times(Sealable(s, done + {p}), now) == Times(Sealable(s, done), now)[p := now]
  {
    hide Published;
  }

  lemma CommittedMore<D>(sealer: Sealer<D>, s: Service<D>, done: set<nat>, p: nat, now: real)
    requires p in s.workers && Bounded(s.workers[p])
    ensures Flushed(sealer, s, done + {p}, now).committed
         == Flushed(sealer, s, done, now).committed[p := s.workers[p].last.value + 1]
  {
    MapsMore(sealer, s, done, p, now);
    hide Ends, FlushedObjects, Outcomes, Times, Sealable;
    Overlay(s.committed, Ends(s, done), p, s.workers[p].last.value + 1);
  }

  lemma WorkersMore<D>(sealer: Sealer<D>, s: Service<D>, done: set<nat>, p: nat, now: real)
    requires p in s.workers && Bounded(s.workers[p])
    ensures Flushed(sealer, s, done + {p}, now).workers
         == Flushed(sealer, s, done, now).workers[p := Published(sealer, p, s.workers[p])]
  {
    MapsMore(sealer, s, done, p, now);
    hide Ends, FlushedObjects, Outcomes, Times, Sealable, Published;
    Overlay(s.workers, Outcomes(sealer, s, done), p, Published(sealer, p, s.workers[p]));
  }

  lemma TimesMore<D>(sealer: Sealer<D>, s: Service<D>, done: set<nat>, p: nat, now: real)
    requires p in s.workers && Bounded(s.workers[p])
    ensures Flushed(sealer, s, done + {p}, now).flushedAt == Flushed(sealer, s, done, now).flushedAt[p := now]
  {
    MapsMore(sealer, s, done, p, now);
    hide Ends, FlushedObjects, Outcomes, Times, Sealable, Published;
    Overlay(s.flushedAt, Times(Sealable(s, done), now), p, now);
  }

  /** A partition not flushed is as it was. */
  lemma Unflushed<D>(sealer: Sealer<D>, s: Service<D>, done: set<nat>, p: nat, now: real)
    requires p in s.workers && p !in done
    ensures var before := Flushed(sealer, s, done, now);
      && p in before.workers && before.workers[p] == s.workers[p]
      && (p in s.flushedAt ==> p in before.flushedAt && before.flushedAt[p] == s.flushedAt[p])
  {
    hide Published, FlushedObjects, Ends;
  }

  /** One more partition: the flushes of the others are not in its way. */
  lemma FlushedMore<D>(sealer: Sealer<D>, s: Service<D>, done: set<nat>, p: nat, now: real)
    requires p in s.workers && p !in done && Bounded(s.workers[p])
    ensures var before := Flushed(sealer, s, done, now);
      && p in before.workers && before.workers[p] == s.workers[p]
      && Flushed(sealer, s, done + {p}, now) == FlushedOne(sealer, before, p, now)
  {
    hide Flushed, FlushedObjects, FlushedStore, Published, Sealed;
    Unflushed(sealer, s, done, p, now);
    CommittedMore(sealer, s, done, p, now);
    WorkersMore(sealer, s, done, p, now);
    TimesMore(sealer, s, done, p, now);
    ObjectsMore(sealer, s, done, p, now);
    ConsumedSame(sealer, s, done, now);
    ConsumedSame(sealer, s, done + {p}, now);
  }

  lemma ObjectsMore<D>(sealer: Sealer<D>, s: Service<D>, done: set<nat>, p: nat, now: real)
    requires p in s.workers && p !in done && Bounded(s.workers[p])
    ensures Flushed(sealer, s, done + {p}, now).objects
         == FlushedStore(sealer, Flushed(sealer, s, done, now).objects, p, s.workers[p])
  {
    hide Ends, Outcomes, Times, Sealable, Published;
    MoreObjects(sealer, s, done, p);
    FlushedStoreWrites(sealer, s, FlushedObjects(sealer, s, done), p);
  }

  lemma ConsumedSame<D>(sealer: Sealer<D>, s: Service<D>, ps: set<nat>, now: real)
    ensures Flushed(sealer, s, ps, now).consumed == s.consumed
  {
  }

  // ---- flushing those that need it, one after the other ----------------

  function FlushedIf<D>(due: bool, sealer: Sealer<D>, s: Service<D>, p: nat, now: real): Service<D> {
    if due && p in s.workers && Bounded(s.workers[p]) then FlushedOne(sealer, s, p, now) else s
  }

  lemma IfSound<D(!new)>(sealer: Sealer<D>, logs: map<nat, seq<D>>, s: Service<D>, p: nat, now: real)
    requires Sound(sealer, logs, s) && p in s.workers
    ensures Bounded(s.workers[p]) <==> s.workers[p].docs != []
    ensures Bounded(s.workers[p]) ==> Sound(sealer, logs, FlushedOne(sealer, s, p, now))
  {
    hide Sound, FlushedOne;
    WorkerFacts(sealer, logs, s, p);
    if Bounded(s.workers[p]) {
      FlushedSound(sealer, logs, s, p, now);
    }
  }

  /** `p` is next of those still to be looked at. */
  lemma FlushNext<D>(sealer: Sealer<D>, s: Service<D>, ps: set<nat>, todo: set<nat>, p: nat, now: real)
    requires p in s.workers && p in s.flushedAt && p in todo
    requires p in ps ==> Bounded(s.workers[p])
    ensures var before := Flushed(sealer, s, ps - todo, now);
      && p in before.workers && before.workers[p] == s.workers[p]
      && p in before.flushedAt && before.flushedAt[p] == s.flushedAt[p]
      && Flushed(sealer, s, ps - (todo - {p}), now) == FlushedIf(p in ps, sealer, before, p, now)
  {
    hide Flushed, FlushedOne;
    Unflushed(sealer, s, ps - todo, p, now);
    if p in ps {
      assert ps - (todo - {p}) == (ps - todo) + {p};
      FlushedMore(sealer, s, ps - todo, p, now);
    } else {
      assert ps - (todo - {p}) == ps - todo;
    }
  }

  lemma BufferedFacts<D(!new)>(sealer: Sealer<D>, logs: map<nat, seq<D>>, s: Service<D>)
    requires Sound(sealer, logs, s)
    ensures forall p :: p in s.workers ==> (p in BufferedSet(s) <==> Bounded(s.workers[p]))
    ensures BufferedSet(s) <= s.workers.Keys == s.flushedAt.Keys
  {
    forall p | p in s.workers
      ensures s.workers[p].docs != [] <==> Bounded(s.workers[p])
    {
      WorkerFacts(sealer, logs, s, p);
    }
  }

  /** A partition that is due has something to seal, and is no longer due once it is flushed. */
  lemma DueFacts<D(!new)>(policy: FlushPolicy, sealer: Sealer<D>, logs: map<nat, seq<D>>, s: Service<D>, now: real)
    requires Sound(sealer, logs, s)
    ensures var due := DueSet(policy, s, now);
      && due <= s.workers.Keys == s.flushedAt.Keys
      && (forall p :: p in s.workers ==> (p in due <==> Due(policy, |s.workers[p].docs|, s.flushedAt[p], now)))
      && (forall p :: p in due ==> Bounded(s.workers[p]))
      && DueSet(policy, Flushed(sealer, s, due, now), now) == {}
  {
    hide Sound, FlushedObjects, Ends, Publish;
    SoundKeys(sealer, logs, s);
    BufferedFacts(sealer, logs, s);
  }

  lemma SoundKeys<D(!new)>(sealer: Sealer<D>, logs: map<nat, seq<D>>, s: Service<D>)
    requires Sound(sealer, logs, s)
    ensures s.workers.Keys == s.flushedAt.Keys && Settled(s)
  {
    hide Settled, Reachable, SystemOf;
  }

  lemma FlushTouched<D(!new)>(policy: FlushPolicy, sealer: Sealer<D>, logs: map<nat, seq<D>>, s: Service<D>, p: nat,
                              now: real)
    requires Sound(sealer, logs, s) && p in s.workers
    ensures p in s.flushedAt
    ensures var due := Due(policy, |s.workers[p].docs|, s.flushedAt[p], now);
      Flushed(sealer, s, DueSet(policy, s, now) * {p}, now) == FlushedIf(due, sealer, s, p, now)
  {
    hide Sound, FlushedIf, Flushed, DueSet;
    DueFacts(policy, sealer, logs, s, now);
    FlushedNone(sealer, s, now);
    var touched := DueSet(policy, s, now) * {p};
    assert touched - {p} == {} && touched - ({p} - {p}) == touched;
    FlushNext(sealer, s, touched, {p}, p, now);
  }

  // ---- what a schedule leaves ------------------------------------------

  /** The partitions held after the rebalances of a schedule. */
  function HeldAfter<D>(logs: map<nat, seq<D>>, held: set<nat>, script: seq<(Choice, real)>): set<nat>
    decreases |script|
  {
    if script == [] then held
    else
      match script[0].0
      case Rebalance(revoked, assigning) =>
        if forall p :: p in assigning ==> p in logs then
          HeldAfter(logs, held - Elements(revoked) + Elements(assigning), script[1..])
        else HeldAfter(logs, held, script[1..])
      case _ => HeldAfter(logs, held, script[1..])
  }

  lemma ServedHeld<D>(policy: FlushPolicy, sealer: Sealer<D>, logs: map<nat, seq<D>>, s: Service<D>, choice: Choice,
                      now: real)
    ensures var s' := Served(policy, sealer, logs, s, choice, now);
      && s'.workers.Keys == HeldAfter(logs, s.workers.Keys, [(choice, now)])
      && s'.consumed == s.consumed + if Polled(logs, Positions(s.workers), choice).Message? then 1 else 0
  {
    hide FlushedObjects, DueSet, Published, Elements;
  }

  lemma {:induction false} LoopedHeld<D>(policy: FlushPolicy, sealer: Sealer<D>, logs: map<nat, seq<D>>, s: Service<D>,
                                         script: seq<(Choice, real)>, maxEvents: Option<nat>)
    requires maxEvents.None?
    ensures Looped(policy, sealer, logs, s, script, maxEvents).workers.Keys == HeldAfter(logs, s.workers.Keys, script)
    decreases |script|
  {
    hide Served, Polled, Elements;
    if script != [] {
      ServedHeld(policy, sealer, logs, s, script[0].0, script[0].1);
      LoopedHeld(policy, sealer, logs, Served(policy, sealer, logs, s, script[0].0, script[0].1), script[1..], maxEvents);
    }
  }

  lemma {:induction false} LoopedWithin<D>(policy: FlushPolicy, sealer: Sealer<D>, logs: map<nat, seq<D>>,
                                           s: Service<D>, script: seq<(Choice, real)>, maxEvents: Option<nat>)
    requires maxEvents.Some? && s.consumed < maxEvents.value
    ensures Looped(policy, sealer, logs, s, script, maxEvents).consumed <= maxEvents.value
    decreases |script|
  {
    hide Served, Polled, HeldAfter;
    if script != [] {
      var (choice, now) := script[0];
      ServedHeld(policy, sealer, logs, s, choice, now);
      var next := Served(policy, sealer, logs, s, choice, now);
      if next.consumed < maxEvents.value {
        LoopedWithin(policy, sealer, logs, next, script[1..], maxEvents);
      }
    }
  }

  /** A clean stop leaves nothing buffered, and commits every message read. */
  lemma StoppedClean<D(!new)>(sealer: Sealer<D>, logs: map<nat, seq<D>>, s: Service<D>, now: real)
    requires Sound(sealer, logs, s) && Sound(sealer, logs, Stopped(sealer, s, now))
    ensures var s' := Stopped(sealer, s, now);
      && s'.workers.Keys == s.workers.Keys && s'.consumed == s.consumed
      && forall p :: p in s'.workers ==>
           && s'.workers[p].docs == []
           && CommittedAt(s'.committed, p) == s'.workers[p].position == s.workers[p].position
  {
    hide Sound, Flushed, FlushedObjects, BufferedSet, Settled;
    BufferedFacts(sealer, logs, s);
    SoundKeys(sealer, logs, Stopped(sealer, s, now));
    FlushedKeys(sealer, s, BufferedSet(s), now);
    ConsumedSame(sealer, s, BufferedSet(s), now);
    forall p | p in s.workers
      ensures var s' := Stopped(sealer, s, now);
        && s'.workers[p].docs == []
        && CommittedAt(s'.committed, p) == s'.workers[p].position == s.workers[p].position
    {
      StoppedOne(sealer, s, p, now);
    }
  }

  lemma FlushedKeys<D>(sealer: Sealer<D>, s: Service<D>, ps: set<nat>, now: real)
    ensures Flushed(sealer, s, ps, now).workers.Keys == s.workers.Keys
  {
    hide FlushedObjects, Ends, Times, Sealable, Published;
  }

  lemma StoppedOne<D>(sealer: Sealer<D>, s: Service<D>, p: nat, now: real)
    requires p in s.workers && (p in BufferedSet(s) <==> Bounded(s.workers[p]))
    requires Settled(Stopped(sealer, s, now)) && p in Stopped(sealer, s, now).workers
    ensures var s' := Stopped(sealer, s, now);
      && s'.workers[p].docs == []
      && CommittedAt(s'.committed, p) == s'.workers[p].position == s.workers[p].position
  {
    hide FlushedObjects, Ends, Times, Sealable, Publish, Sealed, CommittedAt;
    if p !in BufferedSet(s) {
      Unflushed(sealer, s, BufferedSet(s), p, now);
    }
  }

  lemma SoundExact<D(!new)>(sealer: Sealer<D>, logs: map<nat, seq<D>>, s: Service<D>, p: nat)
    requires Sound(sealer, logs, s) && p in logs
    ensures IndexExact(sealer, s.objects, p, logs[p], CommittedAt(s.committed, p))
  {
    hide Reachable, IndexExact;
    var system := SystemOf(logs, s);
    ReachableInv(sealer, system);
    InvIsExact(sealer, system, p);
  }

  // ---- when a partition is sealed --------------------------------------

  /** What flushing several partitions does to one of them. */
  lemma FlushedFor<D>(sealer: Sealer<D>, s: Service<D>, ps: set<nat>, p: nat, now: real)
    requires p in s.workers && p in s.flushedAt
    ensures var s' := Flushed(sealer, s, ps, now);
      && p in s'.workers && p in s'.flushedAt
      && (p in ps && Bounded(s.workers[p]) ==>
            && s'.workers[p].docs == [] && s'.workers[p].position == s.workers[p].position && s'.flushedAt[p] == now
            && CommittedAt(s'.committed, p) == s.workers[p].last.value + 1)
      && (p !in ps ==>
            s'.workers[p] == s.workers[p] && s'.flushedAt[p] == s.flushedAt[p]
            && CommittedAt(s'.committed, p) == CommittedAt(s.committed, p))
  {
    hide FlushedObjects, Publish, Sealed;
  }

  /**
   On a quiet poll, a partition whose buffer has lain for the idle limit is sealed and committed, and one
   that is short of full and has not is left as it is.
   */
  lemma QuietSeals<D(!new)>(policy: FlushPolicy, sealer: Sealer<D>, logs: map<nat, seq<D>>, s: Service<D>, p: nat,
                            now: real)
    requires Sound(sealer, logs, s) && p in s.workers
    ensures p in s.flushedAt && p in Served(policy, sealer, logs, s, Nothing, now).workers
    ensures var (w, s') := (s.workers[p], Served(policy, sealer, logs, s, Nothing, now));
      && (w.docs != [] && policy.maxIdleSeconds.Some? && now - s.flushedAt[p] >= policy.maxIdleSeconds.value ==>
            s'.workers[p].docs == [] && CommittedAt(s'.committed, p) == w.position)
      && (|w.docs| < policy.maxDocs
          && (policy.maxIdleSeconds.None? || now - s.flushedAt[p] < policy.maxIdleSeconds.value) ==>
            s'.workers[p] == w && CommittedAt(s'.committed, p) == CommittedAt(s.committed, p))
  {
    hide Sound, Flushed, DueSet;
    WorkerFacts(sealer, logs, s, p);
    DueFacts(policy, sealer, logs, s, now);
    FlushedFor(sealer, s, DueSet(policy, s, now), p, now);
  }

  /** A message that fills the batch has it sealed and committed at once; one that does not is only buffered. */
  lemma FullSeals<D(!new)>(policy: FlushPolicy, sealer: Sealer<D>, logs: map<nat, seq<D>>, s: Service<D>, p: nat,
                           now: real)
    requires Sound(sealer, logs, s) && p in s.workers && p in logs && s.workers[p].position < |logs[p]|
    ensures p in s.flushedAt && p in Served(policy, sealer, logs, s, DeliverNext(p), now).workers
    ensures var (w, s') := (s.workers[p], Served(policy, sealer, logs, s, DeliverNext(p), now));
      && s'.workers[p].position == w.position + 1
      && (|w.docs| + 1 >= policy.maxDocs ==>
            s'.workers[p].docs == [] && CommittedAt(s'.committed, p) == w.position + 1)
      && (|w.docs| + 1 < policy.maxDocs
          && (policy.maxIdleSeconds.None? || now - s.flushedAt[p] < policy.maxIdleSeconds.value) ==>
            s'.workers[p].docs == w.docs + [logs[p][w.position]]
            && CommittedAt(s'.committed, p) == CommittedAt(s.committed, p))
  {
    hide Sound, Flushed, DueSet;
    SoundKeys(sealer, logs, s);
    var doc := logs[p][s.workers[p].position];
    var b := Buffered(s, p, doc, s.workers[p].position);
    BufferedOne(sealer, logs, s, p);
    WorkerFacts(sealer, logs, b, p);
    DueFacts(policy, sealer, logs, b, now);
    FlushedFor(sealer, b, DueSet(policy, b, now) * {p}, p, now);
    PolledHere(logs, s.workers, p);
  }

  /**
   A rebalance writes nothing. What it assigns starts afresh at the committed offset, even where it revokes it
   as well; what it revokes only is let go with its buffer; and the rest is as it was.
   */
  lemma RebalanceExactly<D>(policy: FlushPolicy, sealer: Sealer<D>, logs: map<nat, seq<D>>, s: Service<D>,
                            revoked: seq<nat>, assigning: seq<nat>, now: real)
    requires s.workers.Keys == s.flushedAt.Keys && forall p :: p in assigning ==> p in logs
    ensures var s' := Served(policy, sealer, logs, s, Rebalance(revoked, assigning), now);
      && s'.objects == s.objects && s'.committed == s.committed && s'.consumed == s.consumed
      && s'.workers.Keys == s'.flushedAt.Keys
      && (forall p :: p in s'.workers <==> p in assigning || (p in s.workers && p !in revoked))
      && (forall p :: p in assigning ==>
            s'.workers[p] == Worker(Live(s.objects, p), [], None, None, None, CommittedAt(s.committed, p), false)
            && s'.flushedAt[p] == now)
      && (forall p :: p in s.workers && p !in revoked && p !in assigning ==>
            s'.workers[p] == s.workers[p] && s'.flushedAt[p] == s.flushedAt[p])
  {
    hide Live, Served, Polled, Elements;
    RebalanceServed(policy, sealer, logs, s, revoked, assigning, now);
    InElements(revoked);
    InElements(assigning);
  }

  lemma InElements(ps: seq<nat>)
    ensures forall p :: p in ps <==> p in Elements(ps)
  {
  }

  lemma RebalanceServed<D>(policy: FlushPolicy, sealer: Sealer<D>, logs: map<nat, seq<D>>, s: Service<D>,
                           revoked: seq<nat>, assigning: seq<nat>, now: real)
    requires forall p :: p in assigning ==> p in logs
    ensures Served(policy, sealer, logs, s, Rebalance(revoked, assigning), now)
         == Assigned(Revoked(s, Elements(revoked)), Elements(assigning), now)
  {
    hide Elements, Flushed, DueSet, Assigned, Revoked;
  }

  lemma PolledHere<D>(logs: map<nat, seq<D>>, workers: map<nat, Worker<D>>, p: nat)
    requires p in workers && p in logs && workers[p].position < |logs[p]|
    ensures Polled(logs, Positions(workers), DeliverNext(p)) == Message(p, workers[p].position, logs[p][workers[p].position])
  {
  }

  /** Reading stops early only once the messages asked for have been taken. */
  lemma {:induction false} StopsOnlyWithEnough<D>(policy: FlushPolicy, sealer: Sealer<D>, logs: map<nat, seq<D>>,
                                                  s: Service<D>, script: seq<(Choice, real)>, wanted: nat)
    ensures var (some, all) := (Looped(policy, sealer, logs, s, script, Some(wanted)),
                                Looped(policy, sealer, logs, s, script, None));
      some == all || (wanted > 0 && some.consumed >= wanted)
    decreases |script|
  {
    hide Served, Polled;
    if script != [] {
      StopsOnlyWithEnough(policy, sealer, logs, Served(policy, sealer, logs, s, script[0].0, script[0].1), script[1..],
                          wanted);
    }
  }

  /** Without a limit, a schedule is served poll after poll, to its end. */
  lemma {:induction false} PollAfterPoll<D>(policy: FlushPolicy, sealer: Sealer<D>, logs: map<nat, seq<D>>, s: Service<D>,
                                            script: seq<(Choice, real)>, choice: Choice, now: real)
    ensures Looped(policy, sealer, logs, s, [], None) == s
    ensures Looped(policy, sealer, logs, s, script + [(choice, now)], None)
         == Served(policy, sealer, logs, Looped(policy, sealer, logs, s, script, None), choice, now)
    decreases |script|
  {
    hide Served, Polled;
    var more := script + [(choice, now)];
    if script == [] {
      assert more[1..] == [];
    } else {
      assert more[1..] == script[1..] + [(choice, now)];
      PollAfterPoll(policy, sealer, logs, Served(policy, sealer, logs, s, script[0].0, script[0].1), script[1..], choice, now);
    }
  }

  // ---- where segments are cut ------------------------------------------

  /** The `n`-th boundary of stretches of `size` offsets counted from `base`. */
  function Boundary(base: nat, size: nat, n: nat): nat {
    base + n * size
  }

  ghost predicate Behind(size: nat, base: nat, committed: nat) {
    size > 0 && exists n: nat :: committed == Boundary(base, size, n)
  }

  /** One of those stretches. */
  ghost predicate OnGrid(base: nat, size: nat, first: nat, last: nat) {
    Behind(size, base, first) && last + 1 == first + size
  }

  /** Since `start`, segments were cut only where counting from its committed offsets puts the boundaries. */
  ghost predicate Gridded<D>(size: nat, start: Service<D>, s: Service<D>) {
    && (forall k :: k in s.objects && k.SegmentKey? && k !in start.objects ==>
          OnGrid(CommittedAt(start.committed, k.partition), size, k.first, k.last))
    && (forall p :: Behind(size, CommittedAt(start.committed, p), CommittedAt(s.committed, p)))
    && (forall p :: p in s.workers ==> Filling(size, CommittedAt(s.committed, p), s.workers[p]))
  }

  /** A buffer short of a full segment, begun at the committed offset. */
  predicate Filling<D>(size: nat, committed: nat, w: Worker<D>) {
    && w.position == committed + |w.docs| && |w.docs| < size
    && w.first == (if w.docs == [] then None else Some(committed))
  }

  lemma OneGridCell(size: nat, base: nat, committed: nat)
    requires Behind(size, base, committed)
    ensures Behind(size, base, committed + size) && OnGrid(base, size, committed, committed + size - 1)
  {
    var n: nat :| committed == Boundary(base, size, n);
    assert (n + 1) * size == n * size + size;
    assert committed + size == Boundary(base, size, n + 1);
  }

  lemma QuietGridded<D>(policy: FlushPolicy, sealer: Sealer<D>, start: Service<D>, s: Service<D>, now: real)
    requires policy.maxIdleSeconds.None? && Gridded(policy.maxDocs, start, s)
    ensures Flushed(sealer, s, DueSet(policy, s, now), now) == s
  {
    hide Flushed;
    assert DueSet(policy, s, now) == {};
    FlushedNone(sealer, s, now);
  }

  lemma RebalanceGridded<D>(size: nat, start: Service<D>, s: Service<D>, revoked: set<nat>, assigning: set<nat>, now: real)
    requires Gridded(size, start, s) && size > 0
    ensures Gridded(size, start, Assigned(Revoked(s, revoked), assigning, now))
  {
    hide OnGrid, Behind, Live, CommittedAt;
  }

  /** A message either leaves the buffer short of full, or fills it and has exactly it sealed. */
  lemma MessageGridded<D>(policy: FlushPolicy, sealer: Sealer<D>, start: Service<D>, s: Service<D>, p: nat, doc: D,
                          now: real)
    requires policy.maxIdleSeconds.None? && Gridded(policy.maxDocs, start, s)
    requires p in s.workers && s.workers.Keys == s.flushedAt.Keys
    ensures var b := Buffered(s, p, doc, s.workers[p].position);
      Gridded(policy.maxDocs, start, Flushed(sealer, b, DueSet(policy, b, now) * {p}, now))
  {
    hide Flushed, FlushedOne, OnGrid, Behind;
    var size := policy.maxDocs;
    var b := Buffered(s, p, doc, s.workers[p].position);
    if |b.workers[p].docs| == size {
      assert DueSet(policy, b, now) * {p} == {p};
      JustOne(sealer, b, p, now);
      FilledGridded(size, sealer, start, s, b, p, now);
    } else {
      assert DueSet(policy, b, now) * {p} == {};
      FlushedNone(sealer, b, now);
    }
  }

  lemma JustOne<D>(sealer: Sealer<D>, s: Service<D>, p: nat, now: real)
    requires p in s.workers && p in s.flushedAt && Bounded(s.workers[p])
    ensures Flushed(sealer, s, {p}, now) == FlushedOne(sealer, s, p, now)
  {
    hide Flushed, FlushedOne, Bounded;
    FlushedNone(sealer, s, now);
    assert {p} - {p} == {} && {p} - ({p} - {p}) == {p};
    FlushNext(sealer, s, {p}, {p}, p, now);
  }

  lemma FilledGridded<D>(size: nat, sealer: Sealer<D>, start: Service<D>, s: Service<D>, b: Service<D>, p: nat, now: real)
    requires Gridded(size, start, s) && p in s.workers && p in b.workers
    requires b.objects == s.objects && b.committed == s.committed && b.workers == s.workers[p := b.workers[p]]
    requires |b.workers[p].docs| == size && Bounded(b.workers[p])
    requires var (w, committed) := (b.workers[p], CommittedAt(s.committed, p));
      w.position == committed + size && w.first == Some(committed) && w.last == Some(w.position - 1)
    ensures Gridded(size, start, FlushedOne(sealer, b, p, now))
  {
    hide OnGrid, Behind, Publish, Sealed;
    var committed := CommittedAt(s.committed, p);
    OneGridCell(size, CommittedAt(start.committed, p), committed);
  }

  /**
   Without an idle limit, whatever the schedule, every segment written is one of the stretches of
   `maxDocs` offsets counted from where the group's offsets stood: a replay cuts where the first
   attempt did, and writes the same keys.
   */
  lemma {:induction false} BoundariesAreFixed<D>(policy: FlushPolicy, sealer: Sealer<D>, logs: map<nat, seq<D>>,
                                                 start: Service<D>, s: Service<D>, script: seq<(Choice, real)>,
                                                 maxEvents: Option<nat>)
    requires policy.maxIdleSeconds.None? && Gridded(policy.maxDocs, start, s) && s.workers.Keys == s.flushedAt.Keys
    ensures Gridded(policy.maxDocs, start, Looped(policy, sealer, logs, s, script, maxEvents))
    decreases |script|
  {
    hide Served, Polled, Gridded;
    if script != [] {
      ServedGridded(policy, sealer, logs, start, s, script[0].0, script[0].1);
      BoundariesAreFixed(policy, sealer, logs, start, Served(policy, sealer, logs, s, script[0].0, script[0].1),
                         script[1..], maxEvents);
    }
  }

  lemma ServedGridded<D>(policy: FlushPolicy, sealer: Sealer<D>, logs: map<nat, seq<D>>, start: Service<D>,
                         s: Service<D>, choice: Choice, now: real)
    requires policy.maxIdleSeconds.None? && Gridded(policy.maxDocs, start, s) && s.workers.Keys == s.flushedAt.Keys
    ensures var s' := Served(policy, sealer, logs, s, choice, now);
      Gridded(policy.maxDocs, start, s') && s'.workers.Keys == s'.flushedAt.Keys
  {
    hide Flushed, DueSet, Gridded, Elements;
    PolledNext(logs, s.workers, choice);
    match Polled(logs, Positions(s.workers), choice)
    case Quiet => QuietGridded(policy, sealer, start, s, now);
    case Rebalanced(revoked, assigning) =>
      SizeIsPositive(policy.maxDocs, start, s);
      RebalanceGridded(policy.maxDocs, start, s, Elements(revoked), Elements(assigning), now);
    case Message(p, offset, doc) =>
      MessageGridded(policy, sealer, start, s, p, doc, now);
      var b := Buffered(s, p, doc, offset);
      FlushedKeys(sealer, b, DueSet(policy, b, now) * {p}, now);
      FlushedTimes(sealer, b, DueSet(policy, b, now) * {p}, now);
  }

  lemma SizeIsPositive<D>(size: nat, start: Service<D>, s: Service<D>)
    requires Gridded(size, start, s)
    ensures size > 0
  {
    assert Behind(size, CommittedAt(start.committed, 0), CommittedAt(s.committed, 0));
  }

  lemma FlushedTimes<D>(sealer: Sealer<D>, s: Service<D>, ps: set<nat>, now: real)
    requires s.workers.Keys == s.flushedAt.Keys
    ensures Flushed(sealer, s, ps, now).flushedAt.Keys == s.workers.Keys
  {
    hide FlushedObjects, Ends, Outcomes;
  }

  /** A message delivered is the next of a partition held. */
  lemma PolledNext<D>(logs: map<nat, seq<D>>, workers: map<nat, Worker<D>>, choice: Choice)
    ensures var e := Polled(logs, Positions(workers), choice);
      e.Message? ==>
        && e.p in workers && e.p in logs && workers[e.p].position == e.offset < |logs[e.p]|
        && e.doc == logs[e.p][e.offset] && Buffer(workers[e.p], e.doc, e.offset).position == e.offset + 1
  {
  }

  /** A service that holds nothing yet is where the boundaries are counted from. */
  lemma StartsGridded<D>(size: nat, start: Service<D>)
    requires size > 0 && start.workers == map[]
    ensures Gridded(size, start, start)
  {
    forall p
      ensures Behind(size, CommittedAt(start.committed, p), CommittedAt(start.committed, p))
    {
      assert CommittedAt(start.committed, p) == Boundary(CommittedAt(start.committed, p), size, 0);
    }
  }
}
