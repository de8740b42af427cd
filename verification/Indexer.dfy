/** The indexer service over real partition indexers: src/aether/stream/indexer.py. */
module Indexing {
  import opened Prelude
  import opened Keys
  import opened Manifests
  import opened Protocol
  import opened ProtocolSafety
  import opened PartitionIndexing
  import opened Serving

  /** The group's only consumer: ordered logs, read positions and committed offsets. */
  class Consumer<D> {
    const logs: map<nat, seq<D>>
    var positions: map<nat, nat>
    var committed: map<nat, nat>

    constructor (logs: map<nat, seq<D>>)
      ensures this.logs == logs && positions == map[] && committed == map[]
    {
      this.logs, positions, committed := logs, map[], map[];
    }

    method Poll(choice: Choice) returns (e: Event<D>)
      modifies this`positions
      ensures e == Polled(logs, old(positions), choice)
      ensures positions == if e.Message? then old(positions)[e.p := e.offset + 1] else old(positions)
    {
      e := Polled(logs, positions, choice);
      if e.Message? {
        positions := positions[e.p := e.offset + 1];
      }
    }

    /** Reading resumes at the committed offset when a partition is assigned. */
    method Seek(p: nat)
      modifies this`positions
      ensures positions == old(positions)[p := CommittedAt(committed, p)]
    {
      positions := positions[p := CommittedAt(committed, p)];
    }

    method Release(p: nat)
      modifies this`positions
      ensures positions == old(positions) - {p}
    {
      positions := positions - {p};
    }

    method Commit(p: nat, offset: nat)
      modifies this`committed
      ensures committed == old(committed)[p := offset]
    {
      committed := committed[p := offset];
    }
  }

  datatype Stats = Stats(consumed: nat, segments: nat, documents: nat)

  /** No indexer serves two partitions. */
  ghost predicate Separate<D>(partitions: map<nat, PartitionIndexer<D>>) {
    forall p, q :: p in partitions && q in partitions && p != q ==> partitions[p] != partitions[q]
  }

  lemma SeparateMore<D>(partitions: map<nat, PartitionIndexer<D>>, p: nat, indexer: PartitionIndexer<D>)
    requires Separate(partitions) && indexer !in partitions.Values
    ensures Separate(partitions[p := indexer])
  {
  }

  class Indexer<D(!new)> {
    const store: ObjectStore<D>
    const consumer: Consumer<D>
    const policy: FlushPolicy
    const sealer: Sealer<D>
    var stats: Stats
    var partitions: map<nat, PartitionIndexer<D>>
    /** What the indexers hold, as values. */
    ghost var workers: map<nat, Worker<D>>
    ghost var flushedAt: map<nat, real>

    /** Every partition held has an indexer of its own over this store, and reads where the consumer does. */
    ghost predicate Owns()
      reads this, consumer`positions, partitions.Values
    {
      consumer.positions == Positions(workers) && Holds()
    }

    ghost predicate Holds()
      reads this, partitions.Values
    {
      && partitions.Keys == workers.Keys == flushedAt.Keys && Separate(partitions)
      && forall p :: p in partitions ==> Wired(p, partitions[p], workers[p], flushedAt[p])
    }

    ghost predicate Wired(p: nat, indexer: PartitionIndexer<D>, w: Worker<D>, at: real)
      reads indexer
    {
      && indexer.store == store && indexer.partition == p && indexer.policy == policy && indexer.sealer == sealer
      && indexer.Valid() && indexer.AsWorker(w.position) == w && indexer.lastFlushAt == at
    }

    /** The service as a value. */
    ghost function Now(): Service<D>
      reads this, consumer, store`objects
    {
      Service(store.objects, consumer.committed, workers, flushedAt, stats.consumed)
    }

    /** The present state is one that the protocol reaches, with nothing read and forgotten. */
    ghost predicate Valid()
      reads this, consumer, store`objects, partitions.Values
    {
      Owns() && Sound(sealer, consumer.logs, Now())
    }

    constructor (store: ObjectStore<D>, consumer: Consumer<D>, policy: FlushPolicy, sealer: Sealer<D>)
      requires store.objects == map[] && consumer.positions == map[] && consumer.committed == map[]
      ensures Valid() && partitions == map[] && this.store == store && this.consumer == consumer
      ensures this.policy == policy && this.sealer == sealer && stats == Stats(0, 0, 0)
    {
      this.store, this.consumer, this.policy, this.sealer := store, consumer, policy, sealer;
      stats, partitions, workers, flushedAt := Stats(0, 0, 0), map[], map[], map[];
      new;
      Empty(sealer, consumer.logs, Now());
    }

    // -- rebalancing -------------------------------------------------------

    method AssignOne(p: nat, now: real)
      requires Owns()
      modifies this, consumer`positions
      ensures Owns() && fresh(partitions.Values - old(partitions.Values)) && stats == old(stats)
      ensures Now() == AssignedTo(old(Now()), p, now)
    {
      hide Owns, PartitionIndexer.AsWorker, PartitionIndexer.Valid, Live;
      // The manifest is read here, once, by what is now its only writer.
      var indexer := new PartitionIndexer(store, p, policy, sealer, now);
      Hold(p, indexer, FreshWorker(store.objects, p, CommittedAt(consumer.committed, p)), now);
    }

    method Hold(p: nat, indexer: PartitionIndexer<D>, ghost w: Worker<D>, ghost at: real)
      requires Owns() && indexer !in partitions.Values
      requires Wired(p, indexer, w, at) && w.position == CommittedAt(consumer.committed, p)
      modifies `partitions, `workers, `flushedAt, consumer`positions
      ensures Owns() && partitions == old(partitions)[p := indexer]
      ensures workers == old(workers)[p := w] && flushedAt == old(flushedAt)[p := at]
    {
      hide Wired, Separate, Positions, CommittedAt;
      SeparateMore(partitions, p, indexer);
      PositionsMore(workers, p, w);
      consumer.Seek(p);
      partitions, workers, flushedAt := partitions[p := indexer], workers[p := w], flushedAt[p := at];
    }

    method OnAssign(assigning: seq<nat>, now: real)
      requires Valid() && forall p :: p in assigning ==> p in consumer.logs
      modifies this, consumer`positions
      ensures Valid() && fresh(partitions.Values - old(partitions.Values)) && stats == old(stats)
      ensures Now() == Assigned(old(Now()), Elements(assigning), now)
    {
      hide Owns, Sound, Assigned, AssignedTo, Elements;
      ghost var (s, held) := (Now(), partitions.Values);
      AssignedMore(s, {}, 0, now);
      NoElements(assigning[..0]);
      for i := 0 to |assigning|
        invariant Valid() && fresh(partitions.Values - held) && stats == old(stats)
        invariant Now() == Assigned(s, Elements(assigning[..i]), now)
      {
        assert assigning[i] in consumer.logs;
        AssignedOne(sealer, consumer.logs, Now(), assigning[i], now);
        AssignedMore(s, Elements(assigning[..i]), assigning[i], now);
        assert assigning[..i + 1] == assigning[..i] + [assigning[i]];
        ElementsSnoc(assigning[..i], assigning[i]);
        AssignOne(assigning[i], now);
      }
      assert assigning[..|assigning|] == assigning;
    }

    /** Revoked buffers are thrown away, never flushed. */
    method OnRevoke(revoked: seq<nat>)
      requires Valid()
      modifies this, consumer`positions, partitions.Values
      ensures Valid() && partitions.Values <= old(partitions.Values) && stats == old(stats)
      ensures Now() == Revoked(old(Now()), Elements(revoked))
    {
      hide Owns, Sound, Revoked, RevokedFrom, Elements;
      ghost var (s, held) := (Now(), partitions.Values);
      RevokedMore(s, {}, 0);
      NoElements(revoked[..0]);
      for i := 0 to |revoked|
        invariant Valid() && partitions.Values <= held && stats == old(stats)
        invariant Now() == Revoked(s, Elements(revoked[..i]))
      {
        RevokedOne(sealer, consumer.logs, Now(), revoked[i]);
        RevokedMore(s, Elements(revoked[..i]), revoked[i]);
        assert revoked[..i + 1] == revoked[..i] + [revoked[i]];
        ElementsSnoc(revoked[..i], revoked[i]);
        Drop(revoked[i]);
      }
      assert revoked[..|revoked|] == revoked;
    }

    method Drop(p: nat)
      requires Owns()
      modifies this, consumer`positions, partitions.Values
      ensures Owns() && partitions == old(partitions) - {p} && stats == old(stats)
      ensures Now() == RevokedFrom(old(Now()), p)
    {
      hide Holds, Positions;
      SameKeys();
      PositionsLess(workers, p);
      if p in partitions {
        Pop(p);
      } else {
        assert partitions - {p} == partitions && workers - {p} == workers && flushedAt - {p} == flushedAt;
      }
      consumer.Release(p);
    }

    method Pop(p: nat)
      requires Holds() && p in partitions
      modifies `partitions, `workers, `flushedAt, partitions[p]
      ensures Holds() && partitions == old(partitions) - {p}
      ensures workers == old(workers) - {p} && flushedAt == old(flushedAt) - {p}
    {
      hide Wired, Separate;
      SeparateLess(partitions, p);
      var indexer := partitions[p];
      partitions, workers, flushedAt := partitions - {p}, workers - {p}, flushedAt - {p};
      indexer.Discard();
    }

    // -- the loop ----------------------------------------------------------

    /** Seal, publish, and only then commit the offset the indexer reports. */
    method FlushAndCommit(p: nat, now: real)
      requires Owns() && p in partitions && Bounded(workers[p])
      modifies this, partitions[p], store, consumer`committed
      ensures Owns() && partitions == old(partitions)
      ensures Now() == FlushedOne(sealer, old(Now()), p, now)
      ensures store.history == old(store.history) +
                [StoreWithSegment(old(store.objects), p, old(workers[p])), store.objects]
      ensures stats == Stats(old(stats.consumed), old(stats.segments) + 1, old(stats.documents) + |old(workers[p].docs)|)
    {
      hide Owns, FlushedStore, StoreWithSegment;
      FlushOne(p, now);
      CommitOne(p);
    }

    method FlushOne(p: nat, now: real)
      requires Owns() && p in partitions && Bounded(workers[p])
      modifies `stats, `workers, `flushedAt, partitions[p], store
      ensures Owns()
      ensures workers == old(workers)[p := Published(sealer, p, old(workers[p]))]
      ensures flushedAt == old(flushedAt)[p := now]
      ensures store.objects == FlushedStore(sealer, old(store.objects), p, old(workers[p]))
      ensures store.history == old(store.history) +
                [StoreWithSegment(old(store.objects), p, old(workers[p])), store.objects]
      ensures stats == Stats(old(stats.consumed), old(stats.segments) + 1, old(stats.documents) + |old(workers[p].docs)|)
    {
      hide Wired, FlushedStore, StoreWithSegment, Published, Positions;
      PositionsMore(workers, p, Published(sealer, p, workers[p]));
      SamePosition(sealer, p, workers);
      Seal(partitions[p], p, workers[p], flushedAt[p], now);
      workers, flushedAt := workers[p := Published(sealer, p, workers[p])], flushedAt[p := now];
    }

    method Seal(indexer: PartitionIndexer<D>, ghost p: nat, ghost w: Worker<D>, ghost at: real, now: real)
      requires Wired(p, indexer, w, at) && Bounded(w)
      modifies `stats, indexer, store
      ensures Wired(p, indexer, Published(sealer, p, w), now)
      ensures store.objects == FlushedStore(sealer, old(store.objects), p, w)
      ensures store.history == old(store.history) + [StoreWithSegment(old(store.objects), p, w), store.objects]
      ensures stats == Stats(old(stats.consumed), old(stats.segments) + 1, old(stats.documents) + |w.docs|)
    {
      hide FlushedStore, StoreWithSegment, Publish;
      var meta := indexer.Flush(now, w.position);
      if meta.Some? {
        stats := Stats(stats.consumed, stats.segments + 1, stats.documents + meta.value.docs);
      }
    }

    method CommitOne(p: nat)
      requires Owns() && p in partitions
      modifies consumer`committed
      ensures consumer.committed == if workers[p].through.None? then old(consumer.committed)
                                    else old(consumer.committed)[p := workers[p].through.value + 1]
    {
      hide Separate;
      var next := partitions[p].NextOffset();
      if next.Some? {
        consumer.Commit(p, next.value);
      }
    }

    /** One poll; a delivered message is buffered at once. */
    method Receive(choice: Choice) returns (e: Event<D>)
      requires Valid()
      modifies this, consumer`positions, partitions.Values
      ensures Valid() && partitions == old(partitions)
      ensures e == Polled(consumer.logs, Positions(old(workers)), choice)
      ensures e.Message? ==> e.p in old(workers) && Now() == Buffered(old(Now()), e.p, e.doc, e.offset)
      ensures !e.Message? ==> Now() == old(Now()) && stats == old(stats)
    {
      hide Holds, Sound, Buffer, Positions;
      SameKeys();
      PolledNext(consumer.logs, workers, choice);
      e := consumer.Poll(choice);
      if e.Message? {
        BufferedOne(sealer, consumer.logs, old(Now()), e.p);
        PositionsMore(workers, e.p, Buffer(workers[e.p], e.doc, e.offset));
        Take(e.p, e.doc, e.offset);
      }
    }

    method Take(p: nat, doc: D, offset: nat)
      requires Holds() && p in partitions && workers[p].position == offset
      modifies this, partitions[p]
      ensures Holds() && partitions == old(partitions) && flushedAt == old(flushedAt)
      ensures workers == old(workers)[p := Buffer(old(workers[p]), doc, offset)]
      ensures stats == old(stats).(consumed := old(stats.consumed) + 1)
    {
      hide Wired, Buffer;
      AddTo(partitions[p], p, workers[p], flushedAt[p], doc, offset);
      workers := workers[p := Buffer(workers[p], doc, offset)];
      stats := stats.(consumed := stats.consumed + 1);
    }

    method AddTo(indexer: PartitionIndexer<D>, ghost p: nat, ghost w: Worker<D>, ghost at: real, doc: D, offset: nat)
      requires Wired(p, indexer, w, at) && w.position == offset
      modifies indexer
      ensures Wired(p, indexer, Buffer(w, doc, offset), at)
    {
      indexer.Add(doc, offset);
    }

    lemma SameKeys()
      requires Owns()
      ensures consumer.positions == Positions(workers) && partitions.Keys == workers.Keys == flushedAt.Keys
    {
    }

    lemma Reads(p: nat)
      requires Owns() && p in partitions
      ensures p in workers && p in flushedAt
      ensures partitions[p].documents == workers[p].docs && partitions[p].lastFlushAt == flushedAt[p]
      ensures partitions[p].policy == policy
    {
    }

    method FlushIfDue(p: nat, now: real)
      requires Valid() && p in partitions
      modifies this, store, consumer`committed, partitions[p]
      ensures Valid() && partitions == old(partitions)
      ensures Now() == FlushedIf(Due(policy, |old(workers[p].docs)|, old(flushedAt[p]), now), sealer, old(Now()), p, now)
    {
      hide Owns, Sound, FlushedOne;
      Reads(p);
      IfSound(sealer, consumer.logs, Now(), p, now);
      var due := partitions[p].ShouldFlush(now);
      if due {
        FlushAndCommit(p, now);
      }
    }

    method FlushIfBuffered(p: nat, now: real)
      requires Valid() && p in partitions
      modifies this, store, consumer`committed, partitions[p]
      ensures Valid() && partitions == old(partitions)
      ensures Now() == FlushedIf(old(workers[p].docs) != [], sealer, old(Now()), p, now)
    {
      hide Owns, Sound, FlushedOne;
      Reads(p);
      IfSound(sealer, consumer.logs, Now(), p, now);
      if partitions[p].documents != [] {
        FlushAndCommit(p, now);
      }
    }

    /** Flush the partitions the policy says are overdue: none is left. */
    method FlushDue(now: real)
      requires Valid()
      modifies this, store, consumer`committed, partitions.Values
      ensures Valid() && partitions == old(partitions)
      ensures Now() == Flushed(sealer, old(Now()), DueSet(policy, old(Now()), now), now)
      ensures DueSet(policy, Now(), now) == {}
    {
      hide Owns, Sound, Flushed, FlushedIf, DueSet;
      ghost var s := Now();
      ghost var due := DueSet(policy, s, now);
      var todo := partitions.Keys;
      SameKeys();
      DueFacts(policy, sealer, consumer.logs, s, now);
      FlushedNone(sealer, s, now);
      assert due - todo == {};
      while todo != {}
        invariant Valid() && partitions == old(partitions) && todo <= partitions.Keys
        invariant Now() == Flushed(sealer, s, due - todo, now)
        decreases todo
      {
        var p :| p in todo;
        FlushNext(sealer, s, due, todo, p, now);
        FlushIfDue(p, now);
        todo := todo - {p};
      }
      assert due - todo == due;
    }

    /** Seal whatever is left, so that a clean stop strands nothing. */
    method SealAll(now: real)
      requires Valid()
      modifies this, store, consumer`committed, partitions.Values
      ensures Valid() && partitions == old(partitions)
      ensures Now() == Stopped(sealer, old(Now()), now)
    {
      hide Owns, Sound, Flushed, FlushedIf;
      ghost var s := Now();
      ghost var left := BufferedSet(s);
      var todo := partitions.Keys;
      SameKeys();
      BufferedFacts(sealer, consumer.logs, s);
      FlushedNone(sealer, s, now);
      assert left - todo == {};
      while todo != {}
        invariant Valid() && partitions == old(partitions) && todo <= partitions.Keys
        invariant Now() == Flushed(sealer, s, left - todo, now)
        decreases todo
      {
        var p :| p in todo;
        FlushNext(sealer, s, left, todo, p, now);
        FlushIfBuffered(p, now);
        todo := todo - {p};
      }
      assert left - todo == left;
    }

    /** One poll and what it calls for. */
    method Serve(choice: Choice, now: real) returns (e: Event<D>)
      requires Valid()
      modifies this, store, consumer, partitions.Values
      ensures Valid() && fresh(partitions.Values - old(partitions.Values))
      ensures e == Polled(consumer.logs, Positions(old(workers)), choice)
      ensures Now() == Served(policy, sealer, consumer.logs, old(Now()), choice, now)
    {
      hide Owns, Sound, Flushed, FlushedIf, DueSet, Revoked, Assigned, Elements, Buffer;
      e := Receive(choice);
      match e
      case Quiet => FlushDue(now);
      case Rebalanced(revoked, assigning) =>
        OnRevoke(revoked);
        OnAssign(assigning, now);
      case Message(p, _, _) =>
        SameKeys();
        FlushTouched(policy, sealer, consumer.logs, Now(), p, now);
        FlushIfDue(p, now);
    }

    /** The polls of a schedule, to its end or to the last message asked for. */
    method Loop(script: seq<(Choice, real)>, maxEvents: Option<nat>)
      requires Valid()
      modifies this, store, consumer, partitions.Values
      ensures Valid() && fresh(partitions.Values - old(partitions.Values))
      ensures Now() == Looped(policy, sealer, consumer.logs, old(Now()), script, maxEvents)
    {
      hide Owns, Sound, Served, Polled;
      assert script[0..] == script;
      for i := 0 to |script|
        invariant Valid() && fresh(partitions.Values - old(partitions.Values))
        invariant Looped(policy, sealer, consumer.logs, old(Now()), script, maxEvents)
               == Looped(policy, sealer, consumer.logs, Now(), script[i..], maxEvents)
      {
        assert script[i..][0] == script[i] && script[i..][1..] == script[i + 1..];
        var e := Serve(script[i].0, script[i].1);
        if e.Message? && maxEvents.Some? && maxEvents.value > 0 && stats.consumed >= maxEvents.value {
          return;
        }
      }
    }

    /**
     The service over any schedule: `script` is what the broker and the clock do at each poll. Whatever
     is still held when it ends has been sealed, published and committed, to the last message read.
     */
    method Run(script: seq<(Choice, real)>, maxEvents: Option<nat>, closing: real)
      requires Valid()
      modifies this, store, consumer, partitions.Values
      ensures Valid() && fresh(partitions.Values - old(partitions.Values))
      ensures Now() == Stopped(sealer, Looped(policy, sealer, consumer.logs, old(Now()), script, maxEvents), closing)
      ensures forall p :: p in partitions ==> partitions[p].documents == []
      ensures forall p :: p in partitions ==>
                p in consumer.positions && CommittedAt(consumer.committed, p) == consumer.positions[p]
      ensures forall p :: p in consumer.logs ==>
                IndexExact(sealer, store.objects, p, consumer.logs[p], CommittedAt(consumer.committed, p))
      ensures maxEvents.None? ==> partitions.Keys == HeldAfter(consumer.logs, old(partitions.Keys), script)
      ensures maxEvents.Some? && maxEvents.value > old(stats.consumed) ==> stats.consumed <= maxEvents.value
    {
      hide Owns, Sound, Looped, Flushed, IndexExact, HeldAfter;
      ghost var (s, held) := (Now(), partitions.Keys);
      SameKeys();
      Loop(script, maxEvents);
      ghost var looped := Now();
      SealAll(closing);
      if maxEvents.None? {
        LoopedHeld(policy, sealer, consumer.logs, s, script, maxEvents);
      } else if s.consumed < maxEvents.value {
        LoopedWithin(policy, sealer, consumer.logs, s, script, maxEvents);
      }
      StoppedClean(sealer, consumer.logs, looped, closing);
      SameKeys();
      forall p | p in partitions
        ensures partitions[p].documents == [] && p in consumer.positions
        ensures CommittedAt(consumer.committed, p) == consumer.positions[p]
      {
        Reads(p);
        assert p in Now().workers;
      }
      forall p | p in consumer.logs
        ensures IndexExact(sealer, store.objects, p, consumer.logs[p], CommittedAt(consumer.committed, p))
      {
        SoundExact(sealer, consumer.logs, Now(), p);
      }
    }
  }

  lemma PositionsMore<D>(workers: map<nat, Worker<D>>, p: nat, w: Worker<D>)
    ensures Positions(workers[p := w]) == Positions(workers)[p := w.position]
  {
  }

  lemma PositionsLess<D>(workers: map<nat, Worker<D>>, p: nat)
    ensures Positions(workers - {p}) == Positions(workers) - {p}
  {
  }

  lemma SamePosition<D>(sealer: Sealer<D>, p: nat, workers: map<nat, Worker<D>>)
    requires p in workers && Bounded(workers[p])
    ensures Positions(workers)[p := Published(sealer, p, workers[p]).position] == Positions(workers)
  {
    hide Publish;
  }

  lemma SeparateLess<D>(partitions: map<nat, PartitionIndexer<D>>, p: nat)
    requires Separate(partitions)
    ensures Separate(partitions - {p}) && (p in partitions ==> partitions[p] !in (partitions - {p}).Values)
  {
  }

  lemma Empty<D(!new)>(sealer: Sealer<D>, logs: map<nat, seq<D>>, s: Service<D>)
    requires s.objects == map[] && s.committed == map[] && s.workers == map[] && s.flushedAt == map[]
    ensures Sound(sealer, logs, s)
  {
    var system := SystemOf(logs, s);
    assert IsRun(sealer, [system]) && [system][|[system]| - 1] == system;
  }
}
