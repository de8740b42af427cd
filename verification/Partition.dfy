/**
 One partition being indexed, as the code has it: src/aether/stream/partition.py over the
 puts of src/aether/storage/base.py. Every method is tied to the steps of `Protocol`.
 */
module PartitionIndexing {
  import opened Prelude
  import opened Keys
  import opened Manifests
  import opened Protocol

  /** Whole-object puts. `history` is what the store held after each put, oldest first. */
  class ObjectStore<D> {
    var objects: Store<D>
    ghost var history: seq<Store<D>>

    constructor ()
      ensures objects == map[] && history == []
    {
      objects, history := map[], [];
    }

    method Put(key: Key, item: Object<D>)
      modifies this
      ensures objects == old(objects)[key := item]
      ensures history == old(history) + [objects]
    {
      objects := objects[key := item];
      history := history + [objects];
    }

    /** What is not there reads as a manifest that lists nothing. */
    method ReadManifest(partition: nat) returns (m: Manifest<Key>)
      ensures m == Live(objects, partition)
    {
      var key := ManifestKey(partition);
      m := Manifest([], 0);
      if key in objects && objects[key].ManifestObject? {
        m := objects[key].manifest;
      }
    }

    method WriteManifest(m: Manifest<Key>, partition: nat)
      modifies this
      ensures objects == StoreWithManifest(old(objects), partition, m)
      ensures history == old(history) + [objects]
    {
      Put(ManifestKey(partition), ManifestObject(m));
    }
  }

  /** Any policy at all: what is proved below does not need the bounds the code puts on one. */
  datatype FlushPolicy = FlushPolicy(maxDocs: nat, maxIdleSeconds: Option<real>)

  /** A partition with `buffered` documents, last flushed at `at`, is to be flushed. */
  predicate Due(policy: FlushPolicy, buffered: nat, at: real, now: real) {
    buffered > 0 && (buffered >= policy.maxDocs || (policy.maxIdleSeconds.Some? && now - at >= policy.maxIdleSeconds.value))
  }

  class PartitionIndexer<D> {
    const store: ObjectStore<D>
    const partition: nat
    const policy: FlushPolicy
    const sealer: Sealer<D>
    var documents: seq<D>
    var firstOffset: Option<nat>
    var lastOffset: Option<nat>
    var lastFlushAt: real
    var committedThrough: Option<nat>
    var manifest: Manifest<Key>

    /** This object as the protocol sees it, between two calls. */
    function AsWorker(position: nat): Worker<D>
      reads this
    {
      Worker(manifest, documents, firstOffset, lastOffset, committedThrough, position, false)
    }

    /** The offsets are recorded exactly while something is buffered. */
    predicate Valid()
      reads this
    {
      (documents != [] <==> firstOffset.Some?) && (documents != [] <==> lastOffset.Some?)
    }

    constructor (store: ObjectStore<D>, partition: nat, policy: FlushPolicy, sealer: Sealer<D>, now: real)
      ensures Valid() && this.store == store && this.partition == partition
      ensures this.policy == policy && this.sealer == sealer && lastFlushAt == now
      ensures forall position: nat :: AsWorker(position) == FreshWorker(store.objects, partition, position)
    {
      this.store, this.partition, this.policy, this.sealer := store, partition, policy, sealer;
      documents, firstOffset, lastOffset := [], None, None;
      lastFlushAt, committedThrough := now, None;
      manifest := Manifest([], 0);
      new;
      manifest := store.ReadManifest(partition);
    }

    /** The offset to commit, or nothing before the first flush. */
    function NextOffset(): (r: Option<nat>)
      reads this
      ensures r.Some? <==> committedThrough.Some?
      ensures r.Some? ==> r.value == committedThrough.value + 1
    {
      if committedThrough.None? then None else Some(committedThrough.value + 1)
    }

    /** Buffering is the protocol's delivery step. */
    method Add(doc: D, offset: nat)
      requires Valid()
      modifies this
      ensures Valid() && AsWorker(offset + 1) == Buffer(old(AsWorker(offset)), doc, offset)
      ensures lastFlushAt == old(lastFlushAt)
    {
      if firstOffset.None? {
        firstOffset := Some(offset);
      }
      lastOffset := Some(offset);
      documents := documents + [doc];
    }

    method ShouldFlush(now: real) returns (r: bool)
      ensures r <==> Due(policy, |documents|, lastFlushAt, now)
    {
      if |documents| == 0 {
        return false;
      }
      if |documents| >= policy.maxDocs {
        return true;
      }
      if policy.maxIdleSeconds.None? {
        return false;
      }
      r := now - lastFlushAt >= policy.maxIdleSeconds.value;
    }

    method Discard()
      modifies this
      ensures Valid() && documents == []
      ensures manifest == old(manifest) && committedThrough == old(committedThrough)
      ensures lastFlushAt == old(lastFlushAt)
    {
      documents := [];
      firstOffset := None;
      lastOffset := None;
    }

    /**
     Seal and publish. A nonempty buffer shows the store in exactly two new states, the segment
     alone and then the segment with its manifest; an empty one touches nothing.
     */
    method Flush(now: real, ghost position: nat) returns (meta: Option<SegmentMeta<Key>>)
      requires Valid()
      modifies this, store
      ensures Valid() && AsWorker(position) == FlushedWorker(sealer, partition, old(AsWorker(position)))
      ensures lastFlushAt == if old(documents) == [] then old(lastFlushAt) else now
      ensures store.objects == FlushedStore(sealer, old(store.objects), partition, old(AsWorker(position)))
      ensures store.history == old(store.history) +
                (if old(documents) == [] then []
                 else [StoreWithSegment(old(store.objects), partition, old(AsWorker(position))), store.objects])
      ensures old(documents) == [] ==> meta == None
      ensures old(documents) != [] ==>
                meta == Some(Sealed(sealer, partition, old(firstOffset).value, old(lastOffset).value, old(documents)))
    {
      if |documents| == 0 {
        return None;
      }
      var key := SegmentKey(partition, firstOffset.value, lastOffset.value);
      store.Put(key, SegmentObject(documents));

      // The footer is read back from the object just put.
      var stored := store.objects[key].docs;
      var sealed := SegmentMeta(key, |stored|, sealer.size(stored), sealer.minTs(stored), sealer.maxTs(stored),
                                Some(Range(firstOffset.value, lastOffset.value)));

      manifest := Publish(manifest, sealed);
      store.WriteManifest(manifest, partition);

      committedThrough := lastOffset;
      documents := [];
      firstOffset := None;
      lastOffset := None;
      lastFlushAt := now;
      meta := Some(sealed);
    }
  }
}
