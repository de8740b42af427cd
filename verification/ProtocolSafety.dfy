/** What every reachable state of the publication protocol keeps. */
module ProtocolSafety {
  import opened Prelude
  import opened Keys
  import opened Manifests
  import opened Protocol

  // ---- the invariant ---------------------------------------------------

  predicate Describes(p: nat, end: nat, seg: SegmentMeta<Key>) {
    && seg.range.Some?
    && var r := seg.range.value;
       r.first <= r.last < end && seg.key == SegmentKey(p, r.first, r.last) && seg.docs == r.last - r.first + 1
  }

  /** Every object of a partition, listed or not, is what its name says. */
  ghost predicate Faithful<D>(store: Store<D>, p: nat, log: seq<D>) {
    forall k :: k in store && k.partition == p ==>
      match k
      case SegmentKey(_, f, l) => f <= l < |log| && store[k] == SegmentObject(log[f..l + 1])
      case ManifestKey(_) => store[k].ManifestObject?
  }

  /** The entry is what sealing the log documents of its range records. */
  ghost predicate Recorded<D>(sealer: Sealer<D>, p: nat, log: seq<D>, seg: SegmentMeta<Key>) {
    && Describes(p, |log|, seg)
    && var r := seg.range.value;
       seg == Sealed(sealer, p, r.first, r.last, log[r.first..r.last + 1])
  }

  ghost predicate Listed<D>(sealer: Sealer<D>, store: Store<D>, p: nat, log: seq<D>, m: Manifest<Key>) {
    && (forall seg :: seg in m.segments ==> Recorded(sealer, p, log, seg) && seg.key in store)
    && Disjoint(m.segments)
  }

  predicate Straddles(seg: SegmentMeta<Key>, n: nat) {
    seg.range.Some? && seg.range.value.first < n <= seg.range.value.last
  }

  ghost predicate Holder(m: Manifest<Key>, o: nat) {
    exists seg :: seg in m.segments && seg.Holds(o)
  }

  /** The manifest lists every offset below `n`, and `n` splits no listed segment. */
  ghost predicate CoveredTo(m: Manifest<Key>, n: nat) {
    && (forall o: nat :: o < n ==> Holder(m, o))
    && (forall seg :: seg in m.segments ==> !Straddles(seg, n))
  }

  ghost predicate WorkerOk<D>(store: Store<D>, p: nat, part: Partition<D>, w: Worker<D>) {
    && w.manifest == Live(store, p)
    && |w.docs| <= w.position <= |part.log|
    && var start := w.position - |w.docs|;
    && part.committed <= start
    && w.docs == part.log[start..w.position]
    && w.first == (if w.docs == [] then None else Some(start))
    && w.last == (if w.docs == [] then None else Some(w.position - 1))
    && (w.through.Some? ==> w.through.value + 1 == start)
    && CoveredTo(w.manifest, start)
    && (w.segmentPut ==> w.docs != [] && SegmentKey(p, start, w.position - 1) in store)
  }

  /** Consecutive committed segments leave no gap between them. */
  predicate Chained(group: seq<SegmentMeta<Key>>) {
    && group != []
    && (forall i :: 0 <= i < |group| ==>
         group[i].range.Some? && group[i].range.value.first <= group[i].range.value.last)
    && (forall i :: 0 <= i < |group| - 1 ==> group[i].range.value.last + 1 == group[i + 1].range.value.first)
  }

  ghost predicate MergeOk<D>(store: Store<D>, p: nat, part: Partition<D>, group: seq<SegmentMeta<Key>>) {
    && Chained(group)
    && AllBelow(group, part.committed)
    && (forall i :: 0 <= i < |group| ==> group[i] in Live(store, p).segments)
    && MergedKey(p, group) in store
  }

  ghost predicate PartitionOk<D>(sealer: Sealer<D>, store: Store<D>, p: nat, part: Partition<D>) {
    && part.committed <= |part.log|
    && Faithful(store, p, part.log)
    && Listed(sealer, store, p, part.log, Live(store, p))
    && CoveredTo(Live(store, p), part.committed)
    && (part.owner.Some? ==> WorkerOk(store, p, part, part.owner.value))
    && (part.merging.Some? ==> MergeOk(store, p, part, part.merging.value))
  }

  ghost predicate Inv<D>(sealer: Sealer<D>, s: System<D>) {
    forall p :: p in s.partitions ==> PartitionOk(sealer, s.store, p, s.partitions[p])
  }

  // ---- facts about manifests -------------------------------------------

  lemma DisjointMembers<K>(segments: seq<SegmentMeta<K>>, a: SegmentMeta<K>, b: SegmentMeta<K>, o: nat)
    requires Disjoint(segments) && a in segments && b in segments && a.Holds(o) && b.Holds(o)
    ensures a == b
  {
    var i :| 0 <= i < |segments| && segments[i] == a;
    var j :| 0 <= j < |segments| && segments[j] == b;
  }

  /** Publishing at or after `n` changes nothing below `n`; publishing at `n` extends it. */
  lemma PublishCovers(p: nat, end: nat, m: Manifest<Key>, meta: SegmentMeta<Key>, n: nat)
    requires forall seg :: seg in m.segments ==> Describes(p, end, seg)
    requires CoveredTo(m, n) && Describes(p, end, meta)
    requires n <= meta.range.value.first
    ensures CoveredTo(Publish(m, meta), n)
    ensures n == meta.range.value.first ==> CoveredTo(Publish(m, meta), meta.range.value.last + 1)
    ensures forall seg :: seg in m.segments && seg.range.Some? && seg.range.value.last < n ==>
              seg in Publish(m, meta).segments
  {
    var r := Publish(m, meta);
    var (first, last) := (meta.range.value.first, meta.range.value.last);
    Evicts(m, meta);
    forall o: nat | o < n
      ensures Holder(r, o)
    {
      assert Holder(m, o);
      var seg :| seg in m.segments && seg.Holds(o);
      assert !Straddles(seg, n);
      assert seg in r.segments;
    }
    forall o: nat | first <= o <= last
      ensures Holder(r, o)
    {
      assert meta in r.segments && meta.Holds(o);
    }
  }

  lemma FrameOk<D>(sealer: Sealer<D>, store: Store<D>, store': Store<D>, q: nat, part: Partition<D>)
    requires PartitionOk(sealer, store, q, part)
    requires forall k: Key :: k.partition == q ==> (k in store <==> k in store')
    requires forall k: Key :: k.partition == q && k in store ==> store[k] == store'[k]
    ensures PartitionOk(sealer, store', q, part)
  {
    assert Live(store', q) == Live(store, q);
  }

  // ---- one lemma per step ----------------------------------------------

  lemma ProduceOk<D>(sealer: Sealer<D>, store: Store<D>, p: nat, part: Partition<D>, doc: D)
    requires PartitionOk(sealer, store, p, part)
    ensures PartitionOk(sealer, store, p, part.(log := part.log + [doc]))
  {
    var log' := part.log + [doc];
    forall k | k in store && k.partition == p && k.SegmentKey?
      ensures k.first <= k.last < |log'| && store[k] == SegmentObject(log'[k.first..k.last + 1])
    {
      assert log'[k.first..k.last + 1] == part.log[k.first..k.last + 1];
    }
    forall seg | seg in Live(store, p).segments
      ensures Recorded(sealer, p, log', seg)
    {
      var r := seg.range.value;
      assert log'[r.first..r.last + 1] == part.log[r.first..r.last + 1];
    }
    if part.owner.Some? {
      var w := part.owner.value;
      assert log'[w.position - |w.docs|..w.position] == part.log[w.position - |w.docs|..w.position];
    }
  }

  lemma AssignOk<D>(sealer: Sealer<D>, store: Store<D>, p: nat, part: Partition<D>)
    requires PartitionOk(sealer, store, p, part)
    ensures PartitionOk(sealer, store, p, part.(owner := Some(FreshWorker(store, p, part.committed))))
  {
  }

  lemma DeliverOk<D>(sealer: Sealer<D>, store: Store<D>, p: nat, part: Partition<D>)
    requires PartitionOk(sealer, store, p, part)
    requires part.owner.Some? && !part.owner.value.segmentPut && part.owner.value.position < |part.log|
    ensures var w := part.owner.value;
      PartitionOk(sealer, store, p, part.(owner := Some(Buffer(w, part.log[w.position], w.position))))
  {
    var w := part.owner.value;
    var start := w.position - |w.docs|;
    assert part.log[start..w.position + 1] == part.log[start..w.position] + [part.log[w.position]];
  }

  /** Putting a segment object touches nothing a manifest names, even by rewriting it. */
  lemma SegmentPutOk<D>(sealer: Sealer<D>, store: Store<D>, p: nat, part: Partition<D>, key: Key, docs: seq<D>)
    requires PartitionOk(sealer, store, p, part) && key.SegmentKey? && key.partition == p
    requires key.first <= key.last < |part.log| && docs == part.log[key.first..key.last + 1]
    ensures PartitionOk(sealer, store[key := SegmentObject(docs)], p, part)
    ensures Live(store[key := SegmentObject(docs)], p) == Live(store, p)
    ensures key in store ==> store[key := SegmentObject(docs)] == store
  {
    var store' := store[key := SegmentObject(docs)];
    assert Live(store', p) == Live(store, p);
  }

  lemma ManifestPutListed<D>(sealer: Sealer<D>, store: Store<D>, p: nat, log: seq<D>, m: Manifest<Key>)
    requires Faithful(store, p, log) && Listed(sealer, store, p, log, m)
    ensures var store' := StoreWithManifest(store, p, m);
      Live(store', p) == m && Faithful(store', p, log) && Listed(sealer, store', p, log, m)
  {
  }

  lemma PutManifestOk<D>(sealer: Sealer<D>, store: Store<D>, p: nat, part: Partition<D>)
    requires PartitionOk(sealer, store, p, part)
    requires part.owner.Some? && part.owner.value.segmentPut && Bounded(part.owner.value)
    ensures var w' := Published(sealer, p, part.owner.value);
      PartitionOk(sealer, StoreWithManifest(store, p, w'.manifest), p, part.(owner := Some(w')))
  {
    var w := part.owner.value;
    var start := w.position - |w.docs|;
    var meta := Sealed(sealer, p, start, w.position - 1, w.docs);
    var w' := Published(sealer, p, w);
    assert w'.manifest == Publish(w.manifest, meta);
    var m := w.manifest;
    assert w.position - 1 + 1 == w.position;
    assert Recorded(sealer, p, part.log, meta);
    Evicts(m, meta);
    PublishCovers(p, |part.log|, m, meta, start);
    PublishCovers(p, |part.log|, m, meta, part.committed);
    ManifestPutListed(sealer, store, p, part.log, w'.manifest);
  }

  lemma CommitOk<D>(sealer: Sealer<D>, store: Store<D>, p: nat, part: Partition<D>)
    requires PartitionOk(sealer, store, p, part)
    requires part.owner.Some? && part.owner.value.through.Some?
    ensures PartitionOk(sealer, store, p, part.(committed := part.owner.value.through.value + 1))
  {
  }

  // ---- merges ----------------------------------------------------------

  lemma ConsecutiveChained(p: nat, end: nat, m: Manifest<Key>, group: seq<SegmentMeta<Key>>, committed: nat)
    requires forall seg :: seg in m.segments ==> Describes(p, end, seg)
    requires Disjoint(m.segments) && CoveredTo(m, committed)
    requires Consecutive(m, group) && AllBelow(group, committed)
    ensures Chained(group)
  {
    forall i | 0 <= i < |group| - 1
      ensures group[i].range.value.last + 1 == group[i + 1].range.value.first
    {
      var (a, b) := (group[i], group[i + 1]);
      var o := a.range.value.last + 1;
      if b.range.value.first <= a.range.value.last {
        DisjointMembers(m.segments, a, b, b.range.value.first);
      }
      assert o <= b.range.value.first;
      assert Holder(m, o);
      var seg :| seg in m.segments && seg.Holds(o);
      if seg.range.value.first <= a.range.value.last {
        DisjointMembers(m.segments, a, seg, a.range.value.last);
      }
    }
  }

  lemma {:induction false} ChainBounds(group: seq<SegmentMeta<Key>>, o: nat)
    requires Chained(group) && Hull(group).first <= o <= Hull(group).last
    ensures exists i :: 0 <= i < |group| && group[i].Holds(o)
    decreases |group|
  {
    if o <= group[0].range.value.last {
      assert group[0].Holds(o);
    } else {
      var rest := group[1..];
      assert Hull(rest).last == Hull(group).last;
      ChainBounds(rest, o);
      var i :| 0 <= i < |rest| && rest[i].Holds(o);
      assert group[i + 1].Holds(o);
    }
  }

  lemma {:induction false} ChainWithin(group: seq<SegmentMeta<Key>>, i: nat)
    requires Chained(group) && i < |group|
    ensures Hull(group).first <= group[i].range.value.first
    ensures group[i].range.value.last <= Hull(group).last
    decreases |group|
  {
    if |group| > 1 {
      var rest := group[1..];
      assert Chained(rest) && Hull(rest).last == Hull(group).last;
      ChainWithin(rest, if i == 0 then 0 else i - 1);
    }
  }

  /** Merging consecutive committed segments concatenates exactly the log of their hull. */
  lemma {:induction false} MergedDocsAreLog<D>(store: Store<D>, p: nat, log: seq<D>, group: seq<SegmentMeta<Key>>)
    requires Faithful(store, p, log) && Chained(group) && Readable(store, group)
    requires forall i :: 0 <= i < |group| ==> Describes(p, |log|, group[i])
    ensures Hull(group).first <= Hull(group).last < |log|
    ensures MergedDocs(store, group) == log[Hull(group).first..Hull(group).last + 1]
    decreases |group|
  {
    var rest := group[1..];
    FirstOfChain(store, p, log, group);
    if |group| > 1 {
      hide Faithful, Chained, Describes, MergedDocs, Readable;
      assert forall i :: 0 <= i < |rest| ==> rest[i] == group[i + 1];
      MergedDocsAreLog(store, p, log, rest);
      Meet(log, Hull(group).first, Hull(rest).first, Hull(group).last + 1);
    }
  }

  /** A chain's first segment holds the log up to where the rest begins. */
  lemma FirstOfChain<D>(store: Store<D>, p: nat, log: seq<D>, group: seq<SegmentMeta<Key>>)
    requires Faithful(store, p, log) && Chained(group) && Readable(store, group) && Describes(p, |log|, group[0])
    ensures var (r, rest) := (group[0].range.value, group[1..]);
      && store[group[0].key].docs == log[r.first..r.last + 1] && r.last < |log|
      && (|group| == 1 ==> MergedDocs(store, group) == store[group[0].key].docs)
      && (|group| > 1 ==> Chained(rest) && Hull(rest).last == Hull(group).last && Hull(rest).first == r.last + 1)
      && Readable(store, rest)
      && (|group| > 1 ==> MergedDocs(store, group) == store[group[0].key].docs + MergedDocs(store, rest))
  {
    assert group[1..] == [] ==> MergedDocs(store, group) == store[group[0].key].docs + [];
  }

  lemma Meet<T>(s: seq<T>, a: nat, b: nat, c: nat)
    requires a <= b <= c <= |s|
    ensures s[a..b] + s[b..c] == s[a..c]
  {
  }

  lemma PutMergedOk<D>(sealer: Sealer<D>, store: Store<D>, p: nat, part: Partition<D>, group: seq<SegmentMeta<Key>>)
    requires PartitionOk(sealer, store, p, part)
    requires Consecutive(Live(store, p), group) && AllBelow(group, part.committed) && Readable(store, group)
    ensures PartitionOk(sealer, store[MergedKey(p, group) := SegmentObject(MergedDocs(store, group))], p,
                        part.(merging := Some(group)))
    ensures MergedKey(p, group) in store ==>
              store[MergedKey(p, group) := SegmentObject(MergedDocs(store, group))] == store
  {
    var m := Live(store, p);
    ConsecutiveChained(p, |part.log|, m, group, part.committed);
    MergedDocsAreLog(store, p, part.log, group);
    SegmentPutOk(sealer, store, p, part.(merging := None), MergedKey(p, group), MergedDocs(store, group));
  }

  /** Replacing a chain of listed segments by its hull keeps a manifest sound. */
  lemma MergedManifestOk(p: nat, end: nat, m: Manifest<Key>, group: seq<SegmentMeta<Key>>,
                         merged: SegmentMeta<Key>, n: nat)
    requires forall seg :: seg in m.segments ==> Describes(p, end, seg)
    requires Disjoint(m.segments) && CoveredTo(m, n)
    requires Chained(group) && AllBelow(group, n) && forall i :: 0 <= i < |group| ==> group[i] in m.segments
    requires Describes(p, end, merged) && merged.range == Some(Hull(group))
    ensures var m' := MergedManifest(m, group, merged);
      && Disjoint(m'.segments) && CoveredTo(m', n)
      && forall e :: e in m'.segments ==> e == merged || e in m.segments
  {
    hide Chained;
    var retired := KeysOf(group) + {merged.key};
    var kept := Unretired(m.segments, retired);
    var m' := MergedManifest(m, group, merged);
    forall e | e in kept
      ensures e in m.segments && Apart(e, merged)
    {
      UnretiredExactly(m.segments, retired, e);
      KeptApart(m, group, merged, e);
    }
    UnretiredPairwise(m.segments, retired);
    assert forall i | 0 <= i < |kept| :: kept[i] in kept;
    forall o: nat | o < n
      ensures Holder(m', o)
    {
      StillHeld(p, end, m, group, merged, o);
    }
    MergedSplitsNone(p, end, group, merged, n);
  }

  lemma KeptApart(m: Manifest<Key>, group: seq<SegmentMeta<Key>>, merged: SegmentMeta<Key>, e: SegmentMeta<Key>)
    requires Disjoint(m.segments) && Chained(group) && forall i :: 0 <= i < |group| ==> group[i] in m.segments
    requires merged.range == Some(Hull(group)) && Hull(group).first <= Hull(group).last
    requires e in m.segments && e.key !in KeysOf(group)
    requires e.range.Some? ==> e.range.value.first <= e.range.value.last
    ensures Apart(e, merged)
  {
    if !Apart(e, merged) {
      var o := Max(e.range.value.first, merged.range.value.first);
      ChainBounds(group, o);
      var i :| 0 <= i < |group| && group[i].Holds(o);
      DisjointMembers(m.segments, e, group[i], o);
    }
  }

  lemma StillHeld(p: nat, end: nat, m: Manifest<Key>, group: seq<SegmentMeta<Key>>, merged: SegmentMeta<Key>, o: nat)
    requires forall seg :: seg in m.segments ==> Describes(p, end, seg)
    requires Chained(group) && forall i :: 0 <= i < |group| ==> group[i] in m.segments
    requires Describes(p, end, merged) && merged.range == Some(Hull(group)) && Holder(m, o)
    ensures Holder(MergedManifest(m, group, merged), o)
  {
    hide Chained;
    var m' := MergedManifest(m, group, merged);
    var seg :| seg in m.segments && seg.Holds(o);
    UnretiredExactly(m.segments, KeysOf(group) + {merged.key}, seg);
    if seg in Unretired(m.segments, KeysOf(group) + {merged.key}) {
      assert seg in m'.segments;
    } else {
      if seg.key in KeysOf(group) {
        var g :| g in group && g.key == seg.key;
        var i :| 0 <= i < |group| && group[i] == g;
        assert Describes(p, end, group[i]);
        ChainWithin(group, i);
      }
      assert merged in m'.segments && merged.Holds(o);
    }
  }

  lemma MergedSplitsNone(p: nat, end: nat, group: seq<SegmentMeta<Key>>, merged: SegmentMeta<Key>, n: nat)
    requires Chained(group) && AllBelow(group, n) && merged.range == Some(Hull(group))
    ensures !Straddles(merged, n)
  {
    assert group[|group| - 1].range.value.last < n;
  }

  lemma CommitMergeOk<D>(sealer: Sealer<D>, store: Store<D>, p: nat, part: Partition<D>)
    requires PartitionOk(sealer, store, p, part) && part.merging.Some? && part.owner.None?
    requires store[MergedKey(p, part.merging.value)].SegmentObject?
    ensures var group := part.merging.value;
      var docs := store[MergedKey(p, group)].docs;
      var merged := Sealed(sealer, p, Hull(group).first, Hull(group).last, docs);
      PartitionOk(sealer, StoreWithManifest(store, p, MergedManifest(Live(store, p), group, merged)), p,
                  part.(merging := None))
  {
    var group := part.merging.value;
    var docs := store[MergedKey(p, group)].docs;
    var merged := Sealed(sealer, p, Hull(group).first, Hull(group).last, docs);
    assert docs == part.log[Hull(group).first..Hull(group).last + 1];
    var m := Live(store, p);
    MergedManifestOk(p, |part.log|, m, group, merged, part.committed);
    ManifestPutListed(sealer, store, p, part.log, MergedManifest(m, group, merged));
  }

  // ---- every run -------------------------------------------------------

  lemma ActOk<D>(sealer: Sealer<D>, store: Store<D>, part: Partition<D>, step: Step<D>)
    requires PartitionOk(sealer, store, step.p, part) && Ready(store, part, step)
    ensures PartitionOk(sealer, Act(sealer, store, part, step).0, step.p, Act(sealer, store, part, step).1)
  {
    hide Live, Describes, AllBelow, Consecutive, MergedDocs, Publish, Hull;
    var p := step.p;
    match step
    case Produce(_, doc) => ProduceOk(sealer, store, p, part, doc);
    case Assign(_) => AssignOk(sealer, store, p, part);
    case Deliver(_) => DeliverOk(sealer, store, p, part);
    case PutSegment(_) =>
      var w := part.owner.value;
      SegmentPutOk(sealer, store, p, part, SegmentKey(p, w.first.value, w.last.value), w.docs);
    case PutManifest(_) => PutManifestOk(sealer, store, p, part);
    case Commit(_) => CommitOk(sealer, store, p, part);
    case Lose(_) =>
    case PutMerged(_, group) => PutMergedOk(sealer, store, p, part, group);
    case CommitMerge(_) => CommitMergeOk(sealer, store, p, part);
    case AbandonMerge(_) =>
  }

  lemma ActFrame<D>(sealer: Sealer<D>, store: Store<D>, part: Partition<D>, step: Step<D>, k: Key)
    requires Ready(store, part, step) && k.partition != step.p
    ensures var store' := Act(sealer, store, part, step).0;
      (k in store <==> k in store') && (k in store ==> store[k] == store'[k])
  {
  }

  lemma StepKeepsInv<D>(sealer: Sealer<D>, s: System<D>, step: Step<D>)
    requires Inv(sealer, s) && Enabled(s, step)
    ensures Inv(sealer, Apply(sealer, s, step))
  {
    hide PartitionOk, Ready, Act;
    var part := s.partitions[step.p];
    var store' := Act(sealer, s.store, part, step).0;
    ActOk(sealer, s.store, part, step);
    forall q | q in s.partitions && q != step.p
      ensures PartitionOk(sealer, store', q, s.partitions[q])
    {
      forall k: Key | k.partition == q
        ensures (k in s.store <==> k in store') && (k in s.store ==> s.store[k] == store'[k])
      {
        ActFrame(sealer, s.store, part, step, k);
      }
      FrameOk(sealer, s.store, store', q, s.partitions[q]);
    }
  }

  lemma {:induction false} RunsKeepInv<D(!new)>(sealer: Sealer<D>, run: seq<System<D>>, i: nat)
    requires IsRun(sealer, run) && i < |run|
    ensures Inv(sealer, run[i])
  {
    if i != 0 {
      RunsKeepInv(sealer, run, i - 1);
      assert Next(sealer, run[i - 1], run[i]);
      var step :| Enabled(run[i - 1], step) && run[i] == Apply(sealer, run[i - 1], step);
      StepKeepsInv(sealer, run[i - 1], step);
    }
  }

  // ---- what the invariant means ----------------------------------------

  /** Position `j` is the one entry of the manifest that holds offset `o`. */
  predicate HeldOnlyBy(m: Manifest<Key>, o: nat, j: nat) {
    && j < |m.segments| && m.segments[j].Holds(o)
    && forall i :: 0 <= i < |m.segments| && m.segments[i].Holds(o) ==> i == j
  }

  /** The object of entry `j` exists and keeps log document `o` where its range says. */
  ghost predicate Serves<D>(store: Store<D>, log: seq<D>, m: Manifest<Key>, o: nat, j: nat) {
    && o < |log| && j < |m.segments|
    && var seg := m.segments[j];
    && seg.range.Some? && seg.key in store && store[seg.key].SegmentObject?
    && seg.range.value.first <= o
    && var docs := store[seg.key].docs;
    && |docs| == seg.docs && o - seg.range.value.first < |docs|
    && docs[o - seg.range.value.first] == log[o]
  }

  ghost predicate ServedOnce<D>(store: Store<D>, log: seq<D>, m: Manifest<Key>, o: nat) {
    exists j: nat :: HeldOnlyBy(m, o, j) && Serves(store, log, m, o, j)
  }

  /**
   The index of one partition is exact: listed ranges are disjoint and none crosses the
   committed offset, every listed object is exactly the log of its range, recorded as sealed,
   and each committed offset is held by exactly one entry, which serves its document.
   */
  ghost predicate IndexExact<D>(sealer: Sealer<D>, store: Store<D>, p: nat, log: seq<D>, committed: nat) {
    var m := Live(store, p);
    && committed <= |log|
    && Disjoint(m.segments)
    && (forall seg :: seg in m.segments ==>
          && Recorded(sealer, p, log, seg) && !Straddles(seg, committed)
          && seg.key in store
          && store[seg.key] == SegmentObject(log[seg.range.value.first..seg.range.value.last + 1]))
    && (forall o: nat :: o < committed ==> ServedOnce(store, log, m, o))
  }

  lemma OneHolds(m: Manifest<Key>, o: nat, j: nat)
    requires Disjoint(m.segments) && j < |m.segments| && m.segments[j].Holds(o)
    ensures HeldOnlyBy(m, o, j)
  {
  }

  lemma HolderServes<D>(sealer: Sealer<D>, store: Store<D>, p: nat, log: seq<D>, m: Manifest<Key>, o: nat)
    requires Faithful(store, p, log) && Listed(sealer, store, p, log, m) && Holder(m, o)
    ensures ServedOnce(store, log, m, o)
  {
    hide Sealed, HeldOnlyBy, Disjoint;
    var seg :| seg in m.segments && seg.Holds(o);
    var j: nat :| j < |m.segments| && m.segments[j] == seg;
    OneHolds(m, o, j);
    assert Recorded(sealer, p, log, seg);
    assert Serves(store, log, m, o, j);
  }

  lemma InvIsExact<D>(sealer: Sealer<D>, s: System<D>, p: nat)
    requires Inv(sealer, s) && p in s.partitions
    ensures IndexExact(sealer, s.store, p, s.partitions[p].log, s.partitions[p].committed)
  {
    var (store, part) := (s.store, s.partitions[p]);
    var m := Live(store, p);
    assert PartitionOk(sealer, store, p, part);
    forall o: nat | o < part.committed
      ensures ServedOnce(store, part.log, m, o)
    {
      assert Holder(m, o);
      HolderServes(sealer, store, p, part.log, m, o);
    }
  }

  /**
   At-least-once delivery with crashes, replays, rebalances and merges still indexes every
   committed offset exactly once, in every state of every run.
   */
  lemma ExactlyOnceInTheIndex<D(!new)>(sealer: Sealer<D>, run: seq<System<D>>, i: nat, p: nat)
    requires IsRun(sealer, run) && i < |run| && p in run[i].partitions
    ensures IndexExact(sealer, run[i].store, p, run[i].partitions[p].log, run[i].partitions[p].committed)
  {
    RunsKeepInv(sealer, run, i);
    InvIsExact(sealer, run[i], p);
  }

  lemma ReachableInv<D(!new)>(sealer: Sealer<D>, s: System<D>)
    requires Reachable(sealer, s)
    ensures Inv(sealer, s)
  {
    var run: seq<System<D>> :| IsRun(sealer, run) && run[|run| - 1] == s;
    RunsKeepInv(sealer, run, |run| - 1);
  }

  /** What a reader of any manifest can see: the manifests, and the objects they name. */
  ghost predicate SameView<D>(store: Store<D>, store': Store<D>) {
    && (forall p :: Live(store', p) == Live(store, p))
    && (forall p, seg :: seg in Live(store, p).segments && seg.key in store ==>
          seg.key in store' && store'[seg.key] == store[seg.key])
  }

  /**
   An object put before its manifest is invisible: a crash right after it changes no
   manifest and no listed object, and putting it again on replay changes nothing at all.
   */
  lemma PutBeforeManifestIsInvisible<D>(sealer: Sealer<D>, s: System<D>, step: Step<D>)
    requires Inv(sealer, s) && Enabled(s, step) && (step.PutSegment? || step.PutMerged?)
    ensures var s' := Apply(sealer, s, step);
      && SameView(s.store, s'.store)
      && s'.store.Keys - s.store.Keys <= {PutKey(s, step)}
      && (PutKey(s, step) in s.store ==> s'.store == s.store)
  {
    hide SameView, Faithful, Listed, CoveredTo, MergeOk, Live;
    var part := s.partitions[step.p];
    assert PartitionOk(sealer, s.store, step.p, part);
    var docs;
    if step.PutSegment? {
      docs := part.owner.value.docs;
      SegmentPutOk(sealer, s.store, step.p, part, PutKey(s, step), docs);
    } else {
      docs := MergedDocs(s.store, step.group);
      PutMergedOk(sealer, s.store, step.p, part, step.group);
    }
    PutUnseen(s.store, PutKey(s, step), docs);
    assert Apply(sealer, s, step).store == s.store[PutKey(s, step) := SegmentObject(docs)];
  }

  lemma PutUnseen<D>(store: Store<D>, key: Key, docs: seq<D>)
    requires key.SegmentKey? && (key in store ==> store[key := SegmentObject(docs)] == store)
    ensures var store' := store[key := SegmentObject(docs)];
      SameView(store, store') && store'.Keys - store.Keys <= {key}
  {
    var store' := store[key := SegmentObject(docs)];
    assert forall q :: Live(store', q) == Live(store, q);
  }

  /** The object a step puts: the segment being sealed or merged, or the manifest naming it. */
  function PutKey<D>(s: System<D>, step: Step<D>): Key
    requires Enabled(s, step)
    requires step.PutSegment? || step.PutMerged? || step.PutManifest? || step.CommitMerge?
  {
    match step
    case PutMerged(p, group) => MergedKey(p, group)
    case CommitMerge(p) => MergedKey(p, s.partitions[p].merging.value)
    case PutSegment(p) =>
      var w := s.partitions[p].owner.value; SegmentKey(p, w.first.value, w.last.value)
    case PutManifest(p) =>
      var w := s.partitions[p].owner.value; SegmentKey(p, w.first.value, w.last.value)
  }

  /** A manifest write adds no name but that of the object put just before it. */
  lemma ManifestWriteAddsOnlyFreshKey<D>(sealer: Sealer<D>, s: System<D>, step: Step<D>)
    requires Inv(sealer, s) && Enabled(s, step) && (step.PutManifest? || step.CommitMerge?)
    ensures var s' := Apply(sealer, s, step);
      && s'.store.Keys == s.store.Keys + {ManifestKey(step.p)}
      && KeysOf(Live(s'.store, step.p).segments) <= KeysOf(Live(s.store, step.p).segments) + {PutKey(s, step)}
      && PutKey(s, step) in KeysOf(Live(s'.store, step.p).segments)
      && forall q :: q != step.p ==> Live(s'.store, q) == Live(s.store, q)
  {
    hide Publish, MergedManifest, Faithful, Listed, CoveredTo, MergeOk;
    var part := s.partitions[step.p];
    assert PartitionOk(sealer, s.store, step.p, part);
    var m := Live(s.store, step.p);
    var s' := Apply(sealer, s, step);
    var m' := Live(s'.store, step.p);
    var key := PutKey(s, step);
    if step.PutManifest? {
      var w := part.owner.value;
      var meta := Sealed(sealer, step.p, w.first.value, w.last.value, w.docs);
      assert m' == Publish(m, meta);
      PublishAdds(m, meta);
    } else {
      var group := part.merging.value;
      var merged := Sealed(sealer, step.p, Hull(group).first, Hull(group).last, s.store[key].docs);
      assert m' == MergedManifest(m, group, merged);
      MergeAdds(m, group, merged);
    }
  }

  lemma PublishAdds(m: Manifest<Key>, meta: SegmentMeta<Key>)
    ensures var keys := KeysOf(Publish(m, meta).segments);
      keys <= KeysOf(m.segments) + {meta.key} && meta.key in keys
  {
    var segments := Publish(m, meta).segments;
    Evicts(m, meta);
    assert meta in segments;
    forall k | k in KeysOf(segments)
      ensures k in KeysOf(m.segments) + {meta.key}
    {
      var e :| e in segments && e.key == k;
      assert e == meta || e in m.segments;
    }
  }

  lemma MergeAdds(m: Manifest<Key>, group: seq<SegmentMeta<Key>>, merged: SegmentMeta<Key>)
    ensures var keys := KeysOf(MergedManifest(m, group, merged).segments);
      keys <= KeysOf(m.segments) + {merged.key} && merged.key in keys
  {
    var m' := MergedManifest(m, group, merged);
    assert merged in m'.segments;
    forall e | e in m'.segments
      ensures e == merged || e in m.segments
    {
      UnretiredExactly(m.segments, KeysOf(group) + {merged.key}, e);
    }
  }

  /** In a reachable state every listed entry says, figure by figure, what the log holds over its range. */
  lemma ListedSaysItsLog<D(!new)>(sealer: Sealer<D>, s: System<D>, p: nat, seg: SegmentMeta<Key>)
    requires Reachable(sealer, s) && p in s.partitions && seg in Live(s.store, p).segments
    ensures seg.range.Some? && seg.range.value.first <= seg.range.value.last < |s.partitions[p].log|
    ensures var (first, last) := (seg.range.value.first, seg.range.value.last);
      var docs := s.partitions[p].log[first..last + 1];
      && seg.key == SegmentKey(p, first, last) && seg.docs == last - first + 1
      && seg.bytes == sealer.size(docs) && seg.minTs == sealer.minTs(docs) && seg.maxTs == sealer.maxTs(docs)
  {
    hide Reachable;
    ReachableInv(sealer, s);
    assert PartitionOk(sealer, s.store, p, s.partitions[p]);
    assert Recorded(sealer, p, s.partitions[p].log, seg);
  }

  /** The times a sealer records enclose the documents' own. */
  ghost predicate Encloses<D(!new)>(sealer: Sealer<D>, time: D -> Option<int>) {
    forall docs: seq<D>, i :: 0 <= i < |docs| && time(docs[i]).Some? ==>
      sealer.minTs(docs) <= time(docs[i]).value <= sealer.maxTs(docs)
  }

  /** A segment that a time window leaves out holds no document of the log inside the window. */
  lemma WindowLosesNothing<D(!new)>(sealer: Sealer<D>, time: D -> Option<int>, s: System<D>, p: nat,
                                    seg: SegmentMeta<Key>, start: Option<int>, end: Option<int>, o: nat)
    requires Reachable(sealer, s) && p in s.partitions && seg in Live(s.store, p).segments
    requires Encloses(sealer, time) && !seg.Overlaps(start, end) && seg.Holds(o)
    ensures o < |s.partitions[p].log|
    ensures var ts := time(s.partitions[p].log[o]);
      ts.Some? ==> (start.Some? && ts.value < start.value) || (end.Some? && ts.value > end.value)
  {
    hide Reachable;
    ListedSaysItsLog(sealer, s, p, seg);
    var (log, r) := (s.partitions[p].log, seg.range.value);
    var docs := log[r.first..r.last + 1];
    assert docs[o - r.first] == log[o];
  }

  /**
   The offset an indexer reports is one that may be committed: in a reachable state every document
   below it is served exactly once already, and committing records it.
   */
  lemma CommittableIsServed<D(!new)>(sealer: Sealer<D>, s: System<D>, p: nat)
    requires Reachable(sealer, s) && p in s.partitions
    requires s.partitions[p].owner.Some? && s.partitions[p].owner.value.through.Some?
    ensures var (part, next) := (s.partitions[p], s.partitions[p].owner.value.through.value + 1);
      && part.committed <= next <= |part.log|
      && (forall o: nat :: o < next ==> ServedOnce(s.store, part.log, Live(s.store, p), o))
      && Enabled(s, Commit(p)) && Apply(sealer, s, Commit(p)).partitions[p].committed == next
  {
    hide Reachable, ServedOnce;
    ReachableInv(sealer, s);
    var s' := Apply(sealer, s, Commit(p));
    StepKeepsInv(sealer, s, Commit(p));
    StepGrows(sealer, s, Commit(p), p);
    InvIsExact(sealer, s', p);
  }

  // ---- committed offsets stay, uncommitted ones may go ------------------

  lemma {:induction false} CommittedGrows<D(!new)>(sealer: Sealer<D>, run: seq<System<D>>, i: nat, j: nat, p: nat)
    requires IsRun(sealer, run) && i <= j < |run| && p in run[i].partitions
    ensures p in run[j].partitions
    ensures run[i].partitions[p].committed <= run[j].partitions[p].committed
    ensures run[i].partitions[p].log <= run[j].partitions[p].log
    decreases j
  {
    hide Enabled, Apply, Inv;
    if i < j {
      CommittedGrows(sealer, run, i, j - 1, p);
      RunsKeepInv(sealer, run, j - 1);
      assert Next(sealer, run[j - 1], run[j]);
      var step :| Enabled(run[j - 1], step) && run[j] == Apply(sealer, run[j - 1], step);
      StepGrows(sealer, run[j - 1], step, p);
    }
  }

  lemma StepGrows<D>(sealer: Sealer<D>, s: System<D>, step: Step<D>, p: nat)
    requires Inv(sealer, s) && Enabled(s, step) && p in s.partitions
    ensures var s' := Apply(sealer, s, step);
      && p in s'.partitions && s.partitions[p].committed <= s'.partitions[p].committed
      && s.partitions[p].log <= s'.partitions[p].log
  {
    assert PartitionOk(sealer, s.store, p, s.partitions[p]);
  }

  /** Once committed, an offset is served by the index in every later state. */
  lemma CommittedStaySearchable<D(!new)>(sealer: Sealer<D>, run: seq<System<D>>, i: nat, j: nat, p: nat, o: nat)
    requires IsRun(sealer, run) && i <= j < |run| && p in run[i].partitions
    requires o < run[i].partitions[p].committed
    ensures p in run[j].partitions && o < |run[i].partitions[p].log|
    ensures ServedOnce(run[j].store, run[i].partitions[p].log, Live(run[j].store, p), o)
  {
    CommittedGrows(sealer, run, i, j, p);
    ExactlyOnceInTheIndex(sealer, run, i, p);
    ExactlyOnceInTheIndex(sealer, run, j, p);
    var m := Live(run[j].store, p);
    assert ServedOnce(run[j].store, run[j].partitions[p].log, m, o);
    var n: nat :| HeldOnlyBy(m, o, n) && Serves(run[j].store, run[j].partitions[p].log, m, o, n);
    assert Serves(run[j].store, run[i].partitions[p].log, m, o, n);
  }

  ghost predicate SearchableKept(m: Manifest<Key>, m': Manifest<Key>) {
    forall o: nat :: Holder(m, o) ==> Holder(m', o)
  }

  /**
   Publishing unlists nothing that was searchable exactly when no listed segment reaches
   across either end of the published range.
   */
  lemma PublishKeepsSearchableIff(p: nat, end: nat, m: Manifest<Key>, meta: SegmentMeta<Key>)
    requires forall seg :: seg in m.segments ==> Describes(p, end, seg)
    requires Disjoint(m.segments) && Describes(p, end, meta)
    ensures var r := meta.range.value;
      SearchableKept(m, Publish(m, meta)) <==>
        forall seg :: seg in m.segments ==> !Straddles(seg, r.first) && !Straddles(seg, r.last + 1)
  {
    var (r, m') := (meta.range.value, Publish(m, meta));
    Evicts(m, meta);
    if forall seg :: seg in m.segments ==> !Straddles(seg, r.first) && !Straddles(seg, r.last + 1) {
      forall o: nat | Holder(m, o)
        ensures Holder(m', o)
      {
        var seg :| seg in m.segments && seg.Holds(o);
        assert meta in m'.segments;
        if r.first <= o <= r.last {
          assert meta.Holds(o);
        } else {
          assert seg in m'.segments;
        }
      }
    } else {
      var seg :| seg in m.segments && (Straddles(seg, r.first) || Straddles(seg, r.last + 1));
      var o := if Straddles(seg, r.first) then seg.range.value.first else seg.range.value.last;
      assert seg.Holds(o) && Holder(m, o);
      forall e | e in m'.segments
        ensures !e.Holds(o)
      {
        if e != meta && e.Holds(o) { DisjointMembers(m.segments, seg, e, o); }
      }
      assert !Holder(m', o);
    }
  }

  function TwoDocLog<D>(d: D, owner: Option<Worker<D>>): Partition<D> {
    Partition([d, d], 0, owner, None)
  }

  function TwoDocs<D>(d: D, store: Store<D>, owner: Option<Worker<D>>): System<D> {
    System(store, map[0 := TwoDocLog(d, owner)])
  }

  /** A worker that has buffered the one or two first documents, or none. */
  function Buffering<D>(m: Manifest<Key>, docs: seq<D>, segmentPut: bool): Worker<D> {
    if docs == [] then Worker(m, [], None, None, None, 0, segmentPut)
    else Worker(m, docs, Some(0), Some(|docs| - 1), None, |docs|, segmentPut)
  }

  lemma TwoDocsStep<D(!new)>(sealer: Sealer<D>, d: D, store: Store<D>, owner: Option<Worker<D>>, step: Step<D>,
                             store': Store<D>, owner': Option<Worker<D>>)
    requires step.p == 0 && Ready(store, TwoDocLog(d, owner), step)
    requires Act(sealer, store, TwoDocLog(d, owner), step) == (store', TwoDocLog(d, owner'))
    ensures Next(sealer, TwoDocs(d, store, owner), TwoDocs(d, store', owner'))
  {
    var (s, s') := (TwoDocs(d, store, owner), TwoDocs(d, store', owner'));
    assert Enabled(s, step);
    assert s.partitions[0 := TwoDocLog(d, owner')] == s'.partitions;
    assert s' == Apply(sealer, s, step);
  }

  /** Assign the partition and deliver its first document, or both. */
  lemma Delivering<D(!new)>(sealer: Sealer<D>, d: D, store: Store<D>)
    ensures var m := Live(store, 0);
      && Next(sealer, TwoDocs(d, store, None), TwoDocs(d, store, Some(Buffering(m, [], false))))
      && Next(sealer, TwoDocs(d, store, Some(Buffering(m, [], false))), TwoDocs(d, store, Some(Buffering(m, [d], false))))
      && Next(sealer, TwoDocs(d, store, Some(Buffering(m, [d], false))),
              TwoDocs(d, store, Some(Buffering(m, [d, d], false))))
  {
    var m := Live(store, 0);
    var none, one, two := Buffering<D>(m, [], false), Buffering(m, [d], false), Buffering(m, [d, d], false);
    TwoDocsStep(sealer, d, store, None, Assign(0), store, Some(none));
    assert Buffer(none, d, 0) == one;
    TwoDocsStep(sealer, d, store, Some(none), Deliver(0), store, Some(one));
    assert Buffer(one, d, 1) == two;
    TwoDocsStep(sealer, d, store, Some(one), Deliver(0), store, Some(two));
  }

  /** Seal `docs`, publish, and lose the process before it commits. */
  lemma Sealing<D(!new)>(sealer: Sealer<D>, d: D, store: Store<D>, docs: seq<D>, store1: Store<D>, w: Worker<D>)
    requires docs != []
    requires store1 == StoreWithSegment(store, 0, Buffering(Live(store, 0), docs, false))
    requires w == Published(sealer, 0, Buffering(Live(store, 0), docs, true))
    ensures var (m, store2) := (Live(store, 0), StoreWithManifest(store1, 0, w.manifest));
      && Next(sealer, TwoDocs(d, store, Some(Buffering(m, docs, false))), TwoDocs(d, store1, Some(Buffering(m, docs, true))))
      && Next(sealer, TwoDocs(d, store1, Some(Buffering(m, docs, true))), TwoDocs(d, store2, Some(w)))
      && Next(sealer, TwoDocs(d, store2, Some(w)), TwoDocs(d, store2, None))
      && w.manifest == Publish(m, Sealed(sealer, 0, 0, |docs| - 1, docs)) && Live(store2, 0) == w.manifest
      && Live(store1, 0) == m
  {
    var (m, store2) := (Live(store, 0), StoreWithManifest(store1, 0, w.manifest));
    var full, put := Buffering(m, docs, false), Buffering(m, docs, true);
    assert full.(segmentPut := true) == put;
    TwoDocsStep(sealer, d, store, Some(full), PutSegment(0), store1, Some(put));
    TwoDocsStep(sealer, d, store1, Some(put), PutManifest(0), store2, Some(w));
    TwoDocsStep(sealer, d, store2, Some(w), Lose(0), store2, None);
  }

  /** Two documents published in one segment, and the process lost before the commit. */
  lemma WideAttempt<D(!new)>(sealer: Sealer<D>, d: D) returns (run: seq<System<D>>, store: Store<D>)
    ensures IsRun(sealer, run) && run[|run| - 1] == TwoDocs(d, store, None)
    ensures Live(store, 0) == Manifest([Sealed(sealer, 0, 0, 1, [d, d])], 1)
  {
    hide IsRun, Next;
    var m: Manifest<Key> := Manifest([], 0);
    var put := StoreWithSegment(map[], 0, Buffering(m, [d, d], false));
    var w := Published(sealer, 0, Buffering(m, [d, d], true));
    store := StoreWithManifest(put, 0, w.manifest);
    Delivering(sealer, d, map[]);
    Sealing(sealer, d, map[], [d, d], put, w);
    run := [TwoDocs(d, map[], None)];
    run := Continue(sealer, run, TwoDocs(d, map[], Some(Buffering(m, [], false))));
    run := Continue(sealer, run, TwoDocs(d, map[], Some(Buffering(m, [d], false))));
    run := Continue(sealer, run, TwoDocs(d, map[], Some(Buffering(m, [d, d], false))));
    run := Continue(sealer, run, TwoDocs(d, put, Some(Buffering(m, [d, d], true))));
    run := Continue(sealer, run, TwoDocs(d, store, Some(w)));
    run := Continue(sealer, run, TwoDocs(d, store, None));
  }

  lemma NarrowReplayEvicts<D>(sealer: Sealer<D>, d: D)
    ensures var m := Manifest([Sealed(sealer, 0, 0, 1, [d, d])], 1);
      Holder(m, 1) && !Holder(Publish(m, Sealed(sealer, 0, 0, 0, [d])), 1)
  {
    var wide, narrow := Sealed(sealer, 0, 0, 1, [d, d]), Sealed(sealer, 0, 0, 0, [d]);
    assert wide in Manifest([wide], 1).segments && wide.Holds(1);
    assert wide.SupersededBy(narrow) && Kept([wide], narrow) == [];
  }

  lemma Continue<D(!new)>(sealer: Sealer<D>, run: seq<System<D>>, s': System<D>) returns (longer: seq<System<D>>)
    requires IsRun(sealer, run) && Next(sealer, run[|run| - 1], s')
    ensures IsRun(sealer, longer) && longer == run + [s'] && longer[|longer| - 1] == s'
  {
    longer := run + [s'];
  }

  /**
   A run in which a flush unlists what an earlier, uncommitted flush made searchable: two
   documents are sealed and published, the process is lost before the commit, and the replay
   seals the first document alone. Offset 1 is then listed by nothing.
   */
  lemma SearchableSetCanShrink<D(!new)>(sealer: Sealer<D>, d: D) returns (run: seq<System<D>>, i: nat)
    ensures IsRun(sealer, run) && i < |run| - 1
    ensures Holder(Live(run[i].store, 0), 1) && !Holder(Live(run[i + 1].store, 0), 1)
  {
    var store;
    run, store := WideAttempt(sealer, d);
    var m := Live(store, 0);
    var put := StoreWithSegment(store, 0, Buffering(m, [d], false));
    var w := Published(sealer, 0, Buffering(m, [d], true));
    Delivering(sealer, d, store);
    Sealing(sealer, d, store, [d], put, w);
    run := Continue(sealer, run, TwoDocs(d, store, Some(Buffering(m, [], false))));
    run := Continue(sealer, run, TwoDocs(d, store, Some(Buffering(m, [d], false))));
    run := Continue(sealer, run, TwoDocs(d, put, Some(Buffering(m, [d], true))));
    run := Continue(sealer, run, TwoDocs(d, StoreWithManifest(put, 0, w.manifest), Some(w)));
    i := |run| - 2;
    NarrowReplayEvicts(sealer, d);
    assert Live(run[i].store, 0) == m;
  }

  // ---- the union across partitions -------------------------------------

  lemma {:induction false} SegmentsFrom(manifests: seq<Manifest<Key>>, seg: SegmentMeta<Key>)
    requires seg in Segments(manifests)
    ensures exists n :: 0 <= n < |manifests| && seg in manifests[n].segments
  {
    var last := |manifests| - 1;
    if seg !in manifests[last].segments {
      SegmentsFrom(manifests[..last], seg);
    }
  }

  lemma {:induction false} SegmentsUnique(manifests: seq<Manifest<Key>>, ps: seq<nat>)
    requires |ps| == |manifests|
    requires forall i, j :: 0 <= i < j < |ps| ==> ps[i] != ps[j]
    requires forall i :: 0 <= i < |ps| ==> UniqueKeys(manifests[i].segments)
    requires forall i, seg :: 0 <= i < |ps| && seg in manifests[i].segments ==> seg.key.partition == ps[i]
    ensures UniqueKeys(Segments(manifests))
  {
    if manifests != [] {
      var last := |manifests| - 1;
      var init := manifests[..last];
      SegmentsUnique(init, ps[..last]);
      var front := Segments(init);
      forall i | 0 <= i < |front|
        ensures front[i].key.partition != ps[last]
      {
        SegmentsFrom(init, front[i]);
      }
      assert forall i | 0 <= i < |manifests[last].segments| ::
          manifests[last].segments[i] in manifests[last].segments;
    }
  }

  /** Across partitions the live set is every partition's entries, none lost and none twice. */
  lemma UnionSpansPartitions<D(!new)>(sealer: Sealer<D>, run: seq<System<D>>, i: nat, ps: seq<nat>,
                                      manifests: seq<Manifest<Key>>)
    requires IsRun(sealer, run) && i < |run|
    requires |manifests| == |ps| && forall n :: 0 <= n < |ps| ==>
               ps[n] in run[i].partitions && manifests[n] == Live(run[i].store, ps[n])
    requires forall n, m :: 0 <= n < m < |ps| ==> ps[n] != ps[m]
    ensures FirstOfEachKey(Segments(manifests)) == Segments(manifests)
  {
    RunsKeepInv(sealer, run, i);
    forall n | 0 <= n < |ps|
      ensures UniqueKeys(manifests[n].segments)
      ensures forall seg :: seg in manifests[n].segments ==> seg.key.partition == ps[n]
    {
      var (p, m) := (ps[n], manifests[n]);
      assert PartitionOk(sealer, run[i].store, p, run[i].partitions[p]);
      forall a, b | 0 <= a < b < |m.segments|
        ensures m.segments[a].key != m.segments[b].key
      {
        assert m.segments[a] in m.segments && m.segments[b] in m.segments;
        assert Apart(m.segments[a], m.segments[b]);
      }
    }
    SegmentsUnique(manifests, ps);
    UnionListsEachKeyOnce(Segments(manifests));
  }
}
