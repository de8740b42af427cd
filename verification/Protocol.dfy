/**
 The publication protocol as a state machine over a store of whole objects:
 partition indexers (src/aether/stream/partition.py, src/aether/stream/indexer.py)
 and the compactor (src/aether/index/compactor.py), one atomic put or commit a step,
 with a loss of the process allowed between any two steps.
 */
module Protocol {
  import opened Prelude
  import opened Keys
  import opened Manifests

  /** A segment object is represented by the documents it decodes to, in order. */
  datatype Object<D> = SegmentObject(docs: seq<D>) | ManifestObject(manifest: Manifest<Key>)

  type Store<D> = map<Key, Object<D>>

  /** What the segment writer records in a footer, as functions of the documents. */
  datatype Sealer<!D> = Sealer(size: seq<D> -> nat, minTs: seq<D> -> int, maxTs: seq<D> -> int)

  /** A partition indexer in memory. `position` is the consumer's next offset. */
  datatype Worker<D> = Worker(
    manifest: Manifest<Key>, docs: seq<D>, first: Option<nat>, last: Option<nat>,
    through: Option<nat>, position: nat, segmentPut: bool)

  /** `committed` is the broker's offset; `merging` is a merge whose object is put. */
  datatype Partition<D> = Partition(
    log: seq<D>, committed: nat, owner: Option<Worker<D>>, merging: Option<seq<SegmentMeta<Key>>>)

  datatype System<D> = System(store: Store<D>, partitions: map<nat, Partition<D>>)

  datatype Step<D> =
    | Produce(p: nat, doc: D)
    | Assign(p: nat)
    | Deliver(p: nat)
    | PutSegment(p: nat)
    | PutManifest(p: nat)
    | Commit(p: nat)
    | Lose(p: nat)  // a crash, or a revoked partition whose buffer is discarded
    | PutMerged(p: nat, group: seq<SegmentMeta<Key>>)
    | CommitMerge(p: nat)
    | AbandonMerge(p: nat)

  // ---- the actors' own computations ------------------------------------

  function Live<D>(store: Store<D>, p: nat): Manifest<Key> {
    var k := ManifestKey(p);
    if k in store && store[k].ManifestObject? then store[k].manifest else Manifest([], 0)
  }

  function FreshWorker<D>(store: Store<D>, p: nat, committed: nat): Worker<D> {
    Worker(Live(store, p), [], None, None, None, committed, false)
  }

  function Buffer<D>(w: Worker<D>, doc: D, offset: nat): Worker<D> {
    w.(docs := w.docs + [doc],
       first := if w.first.None? then Some(offset) else w.first,
       last := Some(offset),
       position := offset + 1)
  }

  function Sealed<D>(sealer: Sealer<D>, p: nat, first: nat, last: nat, docs: seq<D>): SegmentMeta<Key> {
    SegmentMeta(SegmentKey(p, first, last), |docs|, sealer.size(docs),
                sealer.minTs(docs), sealer.maxTs(docs), Some(Range(first, last)))
  }

  predicate Bounded<D>(w: Worker<D>) {
    w.docs != [] && w.first.Some? && w.last.Some?
  }

  function StoreWithSegment<D>(store: Store<D>, p: nat, w: Worker<D>): Store<D>
    requires Bounded(w)
  {
    store[SegmentKey(p, w.first.value, w.last.value) := SegmentObject(w.docs)]
  }

  function Published<D>(sealer: Sealer<D>, p: nat, w: Worker<D>): Worker<D>
    requires Bounded(w)
  {
    w.(manifest := Publish(w.manifest, Sealed(sealer, p, w.first.value, w.last.value, w.docs)),
       docs := [], first := None, last := None, through := w.last, segmentPut := false)
  }

  function StoreWithManifest<D>(store: Store<D>, p: nat, m: Manifest<Key>): Store<D> {
    store[ManifestKey(p) := ManifestObject(m)]
  }

  /** The store after a worker's flush: its segment, then the manifest naming it. */
  function FlushedStore<D>(sealer: Sealer<D>, objects: Store<D>, p: nat, w: Worker<D>): Store<D> {
    if Bounded(w) then StoreWithManifest(StoreWithSegment(objects, p, w), p, Published(sealer, p, w).manifest)
    else objects
  }

  function FlushedWorker<D>(sealer: Sealer<D>, p: nat, w: Worker<D>): Worker<D> {
    if Bounded(w) then Published(sealer, p, w) else w
  }

  // ---- merging ---------------------------------------------------------

  predicate Readable<D>(store: Store<D>, group: seq<SegmentMeta<Key>>) {
    forall i :: 0 <= i < |group| ==> group[i].key in store && store[group[i].key].SegmentObject?
  }

  function MergedDocs<D>(store: Store<D>, group: seq<SegmentMeta<Key>>): seq<D>
    requires Readable(store, group)
  {
    if group == [] then [] else store[group[0].key].docs + MergedDocs(store, group[1..])
  }

  function MergedKey(p: nat, group: seq<SegmentMeta<Key>>): Key
    requires group != [] && group[0].range.Some? && group[|group| - 1].range.Some?
  {
    SegmentKey(p, Hull(group).first, Hull(group).last)
  }

  // ---- steps -----------------------------------------------------------

  /** What a step needs of the store and of the one partition it acts on. */
  predicate Ready<D>(store: Store<D>, part: Partition<D>, step: Step<D>) {
    match step
    case Produce(_, _) => true
    case Assign(_) => part.owner.None?
    case Deliver(_) => part.owner.Some? && !part.owner.value.segmentPut && part.owner.value.position < |part.log|
    case PutSegment(_) => part.owner.Some? && !part.owner.value.segmentPut && Bounded(part.owner.value)
    case PutManifest(_) => part.owner.Some? && part.owner.value.segmentPut && Bounded(part.owner.value)
    case Commit(_) => part.owner.Some? && part.owner.value.through.Some?
    case Lose(_) => part.owner.Some?
    case PutMerged(p, group) =>
      // Only committed segments, one merge at a time.
      && part.merging.None? && Consecutive(Live(store, p), group)
      && AllBelow(group, part.committed) && Readable(store, group)
    case CommitMerge(p) =>
      // No live indexer holds the manifest this rewrites.
      && part.merging.Some? && part.owner.None?
      && var group := part.merging.value;
         && group != [] && group[0].range.Some? && group[|group| - 1].range.Some?
         && MergedKey(p, group) in store && store[MergedKey(p, group)].SegmentObject?
    case AbandonMerge(_) => part.merging.Some?
  }

  function Act<D>(sealer: Sealer<D>, store: Store<D>, part: Partition<D>, step: Step<D>): (Store<D>, Partition<D>)
    requires Ready(store, part, step)
  {
    match step
    case Produce(_, doc) => (store, part.(log := part.log + [doc]))
    case Assign(p) => (store, part.(owner := Some(FreshWorker(store, p, part.committed))))
    case Deliver(_) =>
      var w := part.owner.value;
      (store, part.(owner := Some(Buffer(w, part.log[w.position], w.position))))
    case PutSegment(p) =>
      var w := part.owner.value;
      (StoreWithSegment(store, p, w), part.(owner := Some(w.(segmentPut := true))))
    case PutManifest(p) =>
      var w := Published(sealer, p, part.owner.value);
      (StoreWithManifest(store, p, w.manifest), part.(owner := Some(w)))
    case Commit(_) => (store, part.(committed := part.owner.value.through.value + 1))
    case Lose(_) => (store, part.(owner := None))
    case PutMerged(p, group) =>
      (store[MergedKey(p, group) := SegmentObject(MergedDocs(store, group))], part.(merging := Some(group)))
    case CommitMerge(p) =>
      var group := part.merging.value;
      var docs := store[MergedKey(p, group)].docs;
      var merged := Sealed(sealer, p, Hull(group).first, Hull(group).last, docs);
      (StoreWithManifest(store, p, MergedManifest(Live(store, p), group, merged)), part.(merging := None))
    case AbandonMerge(_) => (store, part.(merging := None))
  }

  predicate Enabled<D>(s: System<D>, step: Step<D>) {
    step.p in s.partitions && Ready(s.store, s.partitions[step.p], step)
  }

  function Apply<D>(sealer: Sealer<D>, s: System<D>, step: Step<D>): System<D>
    requires Enabled(s, step)
  {
    var (store', part') := Act(sealer, s.store, s.partitions[step.p], step);
    System(store', s.partitions[step.p := part'])
  }

  predicate Init<D>(s: System<D>) {
    && s.store == map[]
    && forall p :: p in s.partitions ==>
         s.partitions[p].committed == 0 && s.partitions[p].owner.None? && s.partitions[p].merging.None?
  }

  ghost predicate Next<D(!new)>(sealer: Sealer<D>, s: System<D>, s': System<D>) {
    exists step: Step<D> :: Enabled(s, step) && s' == Apply(sealer, s, step)
  }

  ghost predicate IsRun<D(!new)>(sealer: Sealer<D>, run: seq<System<D>>) {
    && run != [] && Init(run[0])
    && forall i :: 0 <= i < |run| - 1 ==> Next(sealer, run[i], run[i + 1])
  }

  /** Some run of the protocol ends in this state. */
  ghost predicate Reachable<D(!new)>(sealer: Sealer<D>, s: System<D>) {
    exists run: seq<System<D>> :: IsRun(sealer, run) && run[|run| - 1] == s
  }

  lemma ReachableNext<D(!new)>(sealer: Sealer<D>, s: System<D>, step: Step<D>)
    requires Reachable(sealer, s) && Enabled(s, step)
    ensures Reachable(sealer, Apply(sealer, s, step))
  {
    var run: seq<System<D>> :| IsRun(sealer, run) && run[|run| - 1] == s;
    var longer := run + [Apply(sealer, s, step)];
    assert Next(sealer, s, Apply(sealer, s, step));
    assert IsRun(sealer, longer) && longer[|longer| - 1] == Apply(sealer, s, step);
  }
}
