/**
 Performing merges: src/aether/index/compactor.py, `merged_key`, `merge_group` and `compact`,
 against a partition that no indexer holds and whose listed offsets are all committed.
 */
module CompactionRun {
  import opened Prelude
  import opened Sorting
  import opened Keys
  import opened Manifests
  import opened Protocol
  import opened ProtocolSafety
  import opened PartitionIndexing
  import opened Compaction
  import opened CompactionPlan

  // ---- naming the merged object ----------------------------------------

  function LastSlash(s: string): (r: Option<nat>)
    ensures r.Some? ==> r.value < |s|
  {
    if s == "" then None
    else if s[|s| - 1] == '/' then Some(|s| - 1)
    else LastSlash(s[..|s| - 1])
  }

  /** `merged_key`: the directory of the first source and the hull of the offsets. */
  function MergedName(group: seq<SegmentMeta<string>>): string
    requires group != []
  {
    var key := group[0].key;
    var slash := LastSlash(key);
    var directory := if slash.Some? then key[..slash.value + 1] else "";
    var base := if slash.Some? then key[slash.value + 1..] else key;
    if group[0].range.None? || group[|group| - 1].range.None? then directory + "merged-" + base
    else directory + Padded(group[0].range.value.first) + "-" + Padded(group[|group| - 1].range.value.last) + ".seg"
  }

  function Named(seg: SegmentMeta<Key>): SegmentMeta<string> {
    SegmentMeta(Render(seg.key), seg.docs, seg.bytes, seg.minTs, seg.maxTs, seg.range)
  }

  lemma {:induction false} LastSlashAt(a: string, b: string)
    requires '/' !in b
    ensures LastSlash(a + "/" + b) == Some(|a|)
  {
    var s := a + "/" + b;
    if b == "" {
      assert s[|s| - 1] == '/';
    } else {
      assert s[|s| - 1] == b[|b| - 1] && b[|b| - 1] in b;
      assert s[..|s| - 1] == a + "/" + b[..|b| - 1];
      LastSlashAt(a, b[..|b| - 1]);
    }
  }

  lemma {:induction false} NoLastSlash(s: string)
    requires '/' !in s
    ensures LastSlash(s).None?
  {
    if s != "" {
      assert s[|s| - 1] in s;
      NoLastSlash(s[..|s| - 1]);
    }
  }

  /** Without offsets at either end, the name is the first source's with "merged-" before its last component. */
  lemma UnrangedName(group: seq<SegmentMeta<string>>, dir: string, base: string)
    requires group != [] && (group[0].range.None? || group[|group| - 1].range.None?) && '/' !in base
    ensures group[0].key == dir + "/" + base ==> MergedName(group) == dir + "/merged-" + base
    ensures group[0].key == base ==> MergedName(group) == "merged-" + base
  {
    LastSlashAt(dir, base);
    NoLastSlash(base);
    var key := dir + "/" + base;
    assert key[..|dir| + 1] == dir + "/" && key[|dir| + 1..] == base;
    assert dir + "/" + "merged-" == dir + "/merged-";
    assert "" + "merged-" + base == "merged-" + base;
  }

  lemma MergedNameIn(group: seq<SegmentMeta<string>>, dir: string, base: string, lo: string, hi: string)
    requires group != [] && group[0].range.Some? && group[|group| - 1].range.Some?
    requires group[0].key == dir + "/" + base && '/' !in base
    requires lo == Padded(group[0].range.value.first) && hi == Padded(group[|group| - 1].range.value.last)
    ensures MergedName(group) == dir + "/" + lo + "-" + hi + ".seg"
  {
    LastSlashAt(dir, base);
    assert (dir + "/" + base)[..|dir| + 1] == dir + "/";
  }

  lemma NoSlash(a: string, b: string)
    requires Digits(a) && Digits(b)
    ensures '/' !in a + "-" + b + ".seg"
  {
  }

  lemma RenderParts(p: nat, lo: nat, hi: nat)
    ensures Render(SegmentKey(p, lo, hi)) == Directory(p) + "/" + Padded(lo) + "-" + Padded(hi) + ".seg"
    ensures Render(SegmentKey(p, lo, hi)) == Directory(p) + "/" + (Padded(lo) + "-" + Padded(hi) + ".seg")
    ensures '/' !in Padded(lo) + "-" + Padded(hi) + ".seg"
  {
    ParsePadded(lo);
    ParsePadded(hi);
    NoSlash(Padded(lo), Padded(hi));
  }

  /** A merge of a partition's segments is named exactly as an indexer would name its range. */
  lemma MergedNameIsSegmentName(p: nat, group: seq<SegmentMeta<Key>>)
    requires group != [] && group[0].range.Some? && group[|group| - 1].range.Some?
    requires group[0].key.SegmentKey? && group[0].key.partition == p
    ensures MergedName(seq(|group|, i requires 0 <= i < |group| => Named(group[i]))) == Render(MergedKey(p, group))
  {
    var k, hull := group[0].key, Hull(group);
    RenderParts(p, k.first, k.last);
    RenderParts(p, hull.first, hull.last);
    MergedNameIn(seq(|group|, i requires 0 <= i < |group| => Named(group[i])), Directory(p),
                 Padded(k.first) + "-" + Padded(k.last) + ".seg", Padded(hull.first), Padded(hull.last));
  }

  // ---- counting --------------------------------------------------------

  lemma {:induction false} KeysOfCount<K>(segments: seq<SegmentMeta<K>>)
    requires UniqueKeys(segments)
    ensures |KeysOf(segments)| == |segments|
  {
    if segments == [] {
      assert KeysOf(segments) == {};
    } else {
      KeysOfCount(segments[1..]);
      assert segments == [segments[0]] + segments[1..];
      assert segments[0].key !in KeysOf(segments[1..]);
      assert KeysOf(segments) == KeysOf(segments[1..]) + {segments[0].key};
    }
  }

  lemma UnretiredKeys<K>(segments: seq<SegmentMeta<K>>, retired: set<K>)
    ensures KeysOf(Unretired(segments, retired)) == KeysOf(segments) - retired
  {
    var kept := Unretired(segments, retired);
    forall k | k in KeysOf(kept)
      ensures k in KeysOf(segments) && k !in retired
    {
      var e :| e in kept && e.key == k;
      UnretiredExactly(segments, retired, e);
    }
    forall k | k in KeysOf(segments) && k !in retired
      ensures k in KeysOf(kept)
    {
      var e :| e in segments && e.key == k;
      UnretiredExactly(segments, retired, e);
    }
  }

  lemma UnretiredCount<K>(segments: seq<SegmentMeta<K>>, retired: set<K>)
    requires UniqueKeys(segments)
    ensures |Unretired(segments, retired)| == |segments| - |KeysOf(segments) * retired|
  {
    var kept := Unretired(segments, retired);
    UnretiredKeys(segments, retired);
    UnretiredPairwise(segments, retired);
    KeysOfCount(segments);
    KeysOfCount(kept);
    assert KeysOf(segments) == KeysOf(kept) + KeysOf(segments) * retired;
  }

  /** A merge replaces its sources by one entry and keeps names unique. */
  lemma MergeShrinks<K>(m: Manifest<K>, group: seq<SegmentMeta<K>>, merged: SegmentMeta<K>)
    requires UniqueKeys(m.segments) && UniqueKeys(group) && forall g :: g in group ==> g in m.segments
    requires merged.key in KeysOf(m.segments) ==> merged.key in KeysOf(group)
    ensures |MergedManifest(m, group, merged).segments| == |m.segments| - |group| + 1
  {
    var retired := KeysOf(group) + {merged.key};
    UnretiredCount(m.segments, retired);
    KeysOfCount(group);
    assert KeysOf(m.segments) * retired == KeysOf(group);
  }

  // ---- one merge -------------------------------------------------------

  function AfterPut<D>(store: Store<D>, p: nat, group: seq<SegmentMeta<Key>>): Store<D>
    requires Readable(store, group) && group != [] && group[0].range.Some? && group[|group| - 1].range.Some?
  {
    store[MergedKey(p, group) := SegmentObject(MergedDocs(store, group))]
  }

  function MergedMeta<D>(sealer: Sealer<D>, store: Store<D>, p: nat, group: seq<SegmentMeta<Key>>): SegmentMeta<Key>
    requires Readable(store, group) && group != [] && group[0].range.Some? && group[|group| - 1].range.Some?
  {
    Sealed(sealer, p, Hull(group).first, Hull(group).last, MergedDocs(store, group))
  }

  function AfterMerge<D>(sealer: Sealer<D>, store: Store<D>, p: nat, group: seq<SegmentMeta<Key>>): Store<D>
    requires Readable(store, group) && group != [] && group[0].range.Some? && group[|group| - 1].range.Some?
  {
    StoreWithManifest(AfterPut(store, p, group), p,
                      MergedManifest(Live(store, p), group, MergedMeta(sealer, store, p, group)))
  }

  lemma {:induction false} MergedDocsAppend<D>(store: Store<D>, group: seq<SegmentMeta<Key>>, next: SegmentMeta<Key>)
    requires Readable(store, group + [next])
    ensures Readable(store, group)
    ensures next.key in store && store[next.key].SegmentObject?
    ensures MergedDocs(store, group + [next]) == MergedDocs(store, group) + store[next.key].docs
  {
    var whole := group + [next];
    assert whole[|group|] == next;
    assert forall i | 0 <= i < |group| :: whole[i] == group[i];
    if group == [] {
      assert MergedDocs(store, whole[1..]) == [];
    } else {
      assert whole[1..] == group[1..] + [next];
      MergedDocsAppend(store, group[1..], next);
    }
  }

  /** `merge_group`: read the sources, put the merged object, then the manifest read afresh. */
  method MergeGroup<D>(store: ObjectStore<D>, sealer: Sealer<D>, p: nat, group: seq<SegmentMeta<Key>>)
    returns (merged: SegmentMeta<Key>)
    requires Readable(store.objects, group)
    requires group != [] && group[0].range.Some? && group[|group| - 1].range.Some?
    modifies store
    ensures merged == MergedMeta(sealer, old(store.objects), p, group)
    ensures store.objects == AfterMerge(sealer, old(store.objects), p, group)
    ensures store.history == old(store.history) + [AfterPut(old(store.objects), p, group), store.objects]
  {
    var docs: seq<D> := [];
    for i := 0 to |group|
      invariant store.objects == old(store.objects) && store.history == old(store.history)
      invariant Readable(store.objects, group[..i]) && docs == MergedDocs(store.objects, group[..i])
    {
      assert group[..i + 1] == group[..i] + [group[i]];
      MergedDocsAppend(store.objects, group[..i], group[i]);
      docs := docs + store.objects[group[i].key].docs;
    }
    assert group[..|group|] == group;
    var key := MergedKey(p, group);
    store.Put(key, SegmentObject(docs));

    merged := SegmentMeta(key, |docs|, sealer.size(docs), sealer.minTs(docs), sealer.maxTs(docs), Some(Hull(group)));

    // The commit. Sources stay in the store; only the manifest stops naming them.
    var live := store.ReadManifest(p);
    var kept := Unretired(live.segments, KeysOf(group) + {key});
    store.WriteManifest(live.WithSegments(kept + [merged]), p);
  }

  // ---- a partition at rest ---------------------------------------------

  /** No indexer and no merge is at work, and every listed offset is committed. */
  ghost predicate Quiet<D>(sealer: Sealer<D>, store: Store<D>, p: nat, part: Partition<D>) {
    && PartitionOk(sealer, store, p, part) && part.owner.None? && part.merging.None?
    && forall seg :: seg in Live(store, p).segments ==> seg.range.Some? && seg.range.value.last < part.committed
  }

  lemma QuietManifest<D>(sealer: Sealer<D>, store: Store<D>, p: nat, part: Partition<D>)
    requires Quiet(sealer, store, p, part)
    ensures UniqueKeys(Live(store, p).segments) && DistinctFirsts(Live(store, p))
  {
    var m := Live(store, p);
    forall i, j | 0 <= i < j < |m.segments|
      ensures m.segments[i].key != m.segments[j].key
      ensures FirstOrZero(m.segments[i]) != FirstOrZero(m.segments[j])
    {
      assert m.segments[i] in m.segments && m.segments[j] in m.segments;
      assert Apart(m.segments[i], m.segments[j]);
    }
  }

  lemma QuietReadable<D>(sealer: Sealer<D>, store: Store<D>, p: nat, part: Partition<D>, group: seq<SegmentMeta<Key>>)
    requires Quiet(sealer, store, p, part) && forall i :: 0 <= i < |group| ==> group[i] in Live(store, p).segments
    ensures Readable(store, group) && AllBelow(group, part.committed)
    ensures forall i :: 0 <= i < |group| ==> Describes(p, |part.log|, group[i])
  {
    forall i | 0 <= i < |group|
      ensures group[i].key in store && store[group[i].key].SegmentObject?
    {
      assert Recorded(sealer, p, part.log, group[i]);
    }
  }

  /** A merge leaves the partition at rest, with the manifest the merge intends. */
  lemma MergeKeepsQuiet<D>(sealer: Sealer<D>, store: Store<D>, p: nat, part: Partition<D>, group: seq<SegmentMeta<Key>>)
    requires Quiet(sealer, store, p, part) && Consecutive(Live(store, p), group)
    ensures Readable(store, group)
    ensures Quiet(sealer, AfterMerge(sealer, store, p, group), p, part)
    ensures Live(AfterMerge(sealer, store, p, group), p)
         == MergedManifest(Live(store, p), group, MergedMeta(sealer, store, p, group))
  {
    QuietReadable(sealer, store, p, part, group);
    PutMergedOk(sealer, store, p, part, group);
    var put := AfterPut(store, p, group);
    CommitMergeOk(sealer, put, p, part.(merging := Some(group)));
    assert Live(put, p) == Live(store, p);
    var (m, merged) := (Live(store, p), MergedMeta(sealer, store, p, group));
    var m' := MergedManifest(m, group, merged);
    assert Live(AfterMerge(sealer, store, p, group), p) == m';
    forall seg | seg in m'.segments
      ensures seg.range.Some? && seg.range.value.last < part.committed
    {
      UnretiredExactly(m.segments, KeysOf(group) + {merged.key}, seg);
    }
  }

  /** A merge lists no first offset that was not listed before. */
  lemma MergeKeepsFirsts(m: Manifest<Key>, group: seq<SegmentMeta<Key>>, merged: SegmentMeta<Key>)
    requires group != [] && group[0] in m.segments && group[0].range.Some?
    requires merged.range.Some? && merged.range.value.first == group[0].range.value.first
    ensures forall seg :: seg in MergedManifest(m, group, merged).segments && seg.range.Some? ==>
              exists e :: e in m.segments && e.range.Some? && FirstOrZero(e) == FirstOrZero(seg)
  {
    var m' := MergedManifest(m, group, merged);
    forall seg | seg in m'.segments && seg.range.Some?
      ensures exists e :: e in m.segments && e.range.Some? && FirstOrZero(e) == FirstOrZero(seg)
    {
      UnretiredExactly(m.segments, KeysOf(group) + {merged.key}, seg);
      var e := if seg == merged then group[0] else seg;
      assert e in m.segments && FirstOrZero(e) == FirstOrZero(seg);
    }
  }

  lemma ConsecutiveIn(m: Manifest<Key>, m': Manifest<Key>, group: seq<SegmentMeta<Key>>)
    requires Consecutive(m, group)
    requires forall i :: 0 <= i < |group| ==> group[i] in m'.segments
    requires forall seg :: seg in m'.segments && seg.range.Some? ==>
               exists e :: e in m.segments && e.range.Some? && FirstOrZero(e) == FirstOrZero(seg)
    ensures Consecutive(m', group)
  {
    forall seg, i | seg in m'.segments && seg.range.Some? && 0 <= i < |group| - 1
      ensures !(group[i].range.value.first < seg.range.value.first < group[i + 1].range.value.first)
    {
      var e :| e in m.segments && e.range.Some? && FirstOrZero(e) == FirstOrZero(seg);
    }
  }

  /** A run none of whose members is retired is still a consecutive run after a merge. */
  lemma ConsecutiveSurvives(m: Manifest<Key>, group: seq<SegmentMeta<Key>>, merged: SegmentMeta<Key>,
                            other: seq<SegmentMeta<Key>>)
    requires Consecutive(m, group) && Consecutive(m, other)
    requires merged.range == Some(Hull(group))
    requires forall e :: e in other ==> e in Unretired(m.segments, KeysOf(group) + {merged.key})
    ensures Consecutive(MergedManifest(m, group, merged), other)
  {
    var m' := MergedManifest(m, group, merged);
    assert forall i | 0 <= i < |other| :: other[i] in other;
    MergeKeepsFirsts(m, group, merged);
    ConsecutiveIn(m, m', other);
  }

  lemma OtherUnretired<D>(sealer: Sealer<D>, store: Store<D>, p: nat, part: Partition<D>,
                          group: seq<SegmentMeta<Key>>, e: SegmentMeta<Key>)
    requires Quiet(sealer, store, p, part) && Consecutive(Live(store, p), group) && Readable(store, group)
    requires e in Live(store, p).segments && e !in group
    ensures e in Unretired(Live(store, p).segments, KeysOf(group) + {MergedMeta(sealer, store, p, group).key})
  {
    var m := Live(store, p);
    UnretiredExactly(m.segments, KeysOf(group) + {MergedMeta(sealer, store, p, group).key}, e);
    assert Recorded(sealer, p, part.log, e);
    forall i | 0 <= i < |group|
      ensures group[i].key != e.key
    {
      assert Recorded(sealer, p, part.log, group[i]);
      if group[i].key == e.key { DisjointMembers(m.segments, group[i], e, e.range.value.first); }
    }
    if e.key == MergedKey(p, group) {
      DisjointMembers(m.segments, group[0], e, e.range.value.first);
    }
  }

  // ---- documents in offset order ---------------------------------------

  /** At rest, the listed documents in offset order are exactly the committed log. */
  lemma QuietDocsAreLog<D(!new)>(sealer: Sealer<D>, store: Store<D>, p: nat, part: Partition<D>)
    requires Quiet(sealer, store, p, part)
    ensures var s := Ordered(Live(store, p), Render);
      Readable(store, s) && MergedDocs(store, s) == part.log[..part.committed]
  {
    var m, s := Live(store, p), Ordered(Live(store, p), Render);
    QuietManifest(sealer, store, p, part);
    OrderedIsWalk(m, Render);
    QuietReadable(sealer, store, p, part, s);
    assert forall i | 0 <= i < |s| :: s[i] in m.segments;
    if part.committed > 0 {
      assert Holder(m, 0) && Holder(m, part.committed - 1);
      var first :| first in m.segments && first.Holds(0);
      var last :| last in m.segments && last.Holds(part.committed - 1);
      WalkIsLog(sealer, store, p, part, s, first, last);
    }
  }

  lemma WalkChained(p: nat, end: nat, m: Manifest<Key>, s: seq<SegmentMeta<Key>>, committed: nat)
    requires forall seg :: seg in m.segments ==> Describes(p, end, seg)
    requires Disjoint(m.segments) && CoveredTo(m, committed)
    requires WalkOf(m, s) && AllBelow(s, committed) && s != []
    ensures Chained(s)
  {
    StretchConsecutive(m, s, 0, |s|);
    assert s[0..|s|] == s;
    ConsecutiveChained(p, end, m, s, committed);
  }

  lemma WalkHull(p: nat, end: nat, m: Manifest<Key>, s: seq<SegmentMeta<Key>>, committed: nat,
                 first: SegmentMeta<Key>, last: SegmentMeta<Key>)
    requires forall seg :: seg in m.segments ==> Describes(p, end, seg)
    requires Disjoint(m.segments) && CoveredTo(m, committed) && committed > 0
    requires WalkOf(m, s) && AllBelow(s, committed)
    requires first in m.segments && first.Holds(0) && last in m.segments && last.Holds(committed - 1)
    ensures Chained(s) && Hull(s) == Range(0, committed - 1)
  {
    var i :| 0 <= i < |s| && s[i] == first;
    var j :| 0 <= j < |s| && s[j] == last;
    WalkChained(p, end, m, s, committed);
    ChainWithin(s, i);
    ChainWithin(s, j);
  }

  lemma WalkIsLog<D>(sealer: Sealer<D>, store: Store<D>, p: nat, part: Partition<D>, s: seq<SegmentMeta<Key>>,
                     first: SegmentMeta<Key>, last: SegmentMeta<Key>)
    requires Quiet(sealer, store, p, part) && part.committed > 0
    requires WalkOf(Live(store, p), s) && Readable(store, s) && AllBelow(s, part.committed)
    requires first in Live(store, p).segments && first.Holds(0)
    requires last in Live(store, p).segments && last.Holds(part.committed - 1)
    ensures MergedDocs(store, s) == part.log[..part.committed]
  {
    WalkHull(p, |part.log|, Live(store, p), s, part.committed, first, last);
    MergedDocsAreLog(store, p, part.log, s);
    assert part.log[0..part.committed - 1 + 1] == part.log[..part.committed];
  }

  // ---- a whole pass ----------------------------------------------------

  /** The groups still to be merged: each a run of the present manifest, no two with a common member. */
  ghost predicate Pending(m: Manifest<Key>, groups: seq<seq<SegmentMeta<Key>>>, factor: nat) {
    && (forall j :: 0 <= j < |groups| ==> |groups[j]| == factor && Consecutive(m, groups[j]))
    && (forall i, j, a, b :: 0 <= i < j < |groups| && a in groups[i] && b in groups[j] ==> a != b)
  }

  lemma PlanPending(m: Manifest<Key>, factor: nat, maxBytes: nat)
    requires factor >= 2 && DistinctFirsts(m)
    ensures Pending(m, Plan(m, Render, factor, maxBytes), factor)
  {
    var s := Ordered(m, Render);
    OrderedIsWalk(m, Render);
    WalkPlanPending(m, s, factor, maxBytes);
  }

  lemma WalkPlanPending(m: Manifest<Key>, s: seq<SegmentMeta<Key>>, factor: nat, maxBytes: nat)
    requires factor >= 2 && WalkOf(m, s)
    ensures Pending(m, PlanFrom(s, 0, factor, maxBytes), factor)
  {
    PlanShape(s, 0, factor, maxBytes);
    StretchesPending(m, s, PlanFrom(s, 0, factor, maxBytes), Starts(s, 0, factor, maxBytes), factor);
  }

  lemma StretchesPending(m: Manifest<Key>, s: seq<SegmentMeta<Key>>, groups: seq<seq<SegmentMeta<Key>>>,
                         starts: seq<nat>, factor: nat)
    requires factor >= 2 && WalkOf(m, s) && |groups| == |starts|
    requires forall j :: 0 <= j < |groups| ==>
               starts[j] + factor <= |s| && groups[j] == s[starts[j]..starts[j] + factor]
    requires forall i, j :: 0 <= i < j < |groups| ==> starts[i] + factor <= starts[j]
    ensures Pending(m, groups, factor)
  {
    hide WalkOf, Consecutive;
    forall j | 0 <= j < |groups|
      ensures |groups[j]| == factor && Consecutive(m, groups[j])
    {
      StretchConsecutive(m, s, starts[j], starts[j] + factor);
    }
    forall i, j, a, b | 0 <= i < j < |groups| && a in groups[i] && b in groups[j]
      ensures a != b
    {
      StretchesApart(m, s, starts[i], starts[j], factor, a, b);
    }
  }

  lemma StretchesApart(m: Manifest<Key>, s: seq<SegmentMeta<Key>>, x: nat, y: nat, factor: nat,
                       a: SegmentMeta<Key>, b: SegmentMeta<Key>)
    requires WalkOf(m, s) && x + factor <= y && y + factor <= |s|
    requires a in s[x..x + factor] && b in s[y..y + factor]
    ensures a != b
  {
    var i :| x <= i < x + factor && s[i] == a;
    var j :| y <= j < y + factor && s[j] == b;
  }

  lemma GroupShrinks<D>(sealer: Sealer<D>, store: Store<D>, p: nat, part: Partition<D>, group: seq<SegmentMeta<Key>>)
    requires Quiet(sealer, store, p, part) && Consecutive(Live(store, p), group) && Readable(store, group)
    ensures var m := Live(store, p);
      |MergedManifest(m, group, MergedMeta(sealer, store, p, group)).segments| == |m.segments| - |group| + 1
  {
    var m, merged := Live(store, p), MergedMeta(sealer, store, p, group);
    QuietManifest(sealer, store, p, part);
    assert forall g :: g in group ==> g in m.segments;
    ConsecutiveUnique(m, group);
    if merged.key in KeysOf(m.segments) && merged.key !in KeysOf(group) {
      var e :| e in m.segments && e.key == merged.key;
      if e !in group {
        OtherUnretired(sealer, store, p, part, group, e);
        UnretiredExactly(m.segments, KeysOf(group) + {merged.key}, e);
      }
    }
    MergeShrinks(m, group, merged);
  }

  lemma {:induction false} FirstsAscend<K>(m: Manifest<K>, group: seq<SegmentMeta<K>>, i: nat, j: nat)
    requires Consecutive(m, group) && i < j < |group|
    ensures FirstOrZero(group[i]) < FirstOrZero(group[j])
    decreases j
  {
    if i < j - 1 {
      FirstsAscend(m, group, i, j - 1);
    }
    assert group[j - 1].range.value.first < group[j - 1 + 1].range.value.first;
  }

  lemma ConsecutiveUnique<K>(m: Manifest<K>, group: seq<SegmentMeta<K>>)
    requires Consecutive(m, group) && UniqueKeys(m.segments)
    ensures UniqueKeys(group)
  {
    forall i, j | 0 <= i < j < |group|
      ensures group[i].key != group[j].key
    {
      FirstsAscend(m, group, i, j);
      var a :| 0 <= a < |m.segments| && m.segments[a] == group[i];
      var b :| 0 <= b < |m.segments| && m.segments[b] == group[j];
    }
  }

  /** What `compact` reports. */
  datatype CompactionResult = CompactionResult(merged: seq<SegmentMeta<Key>>, retired: seq<SegmentMeta<Key>>)

  // ---- what a pass leaves ----------------------------------------------

  /** The entry of a merge: the name of its hull, and what sealing that stretch of the log records. */
  ghost predicate IsMergeOf<D>(sealer: Sealer<D>, p: nat, log: seq<D>, group: seq<SegmentMeta<Key>>,
                               merged: SegmentMeta<Key>)
  {
    && group != [] && group[0].range.Some? && group[|group| - 1].range.Some?
    && var hull := Hull(group);
    && merged == Sealed(sealer, p, hull.first, hull.last, Slice(log, hull.first, hull.last + 1))
  }

  ghost predicate AreMergesOf<D>(sealer: Sealer<D>, p: nat, log: seq<D>, groups: seq<seq<SegmentMeta<Key>>>,
                                 merged: seq<SegmentMeta<Key>>)
  {
    |merged| == |groups| && forall i :: 0 <= i < |groups| ==> IsMergeOf(sealer, p, log, groups[i], merged[i])
  }

  /** The manifest with each group replaced by its merge, in turn. */
  function AllMerged(m: Manifest<Key>, groups: seq<seq<SegmentMeta<Key>>>, merged: seq<SegmentMeta<Key>>): Manifest<Key>
    requires |groups| == |merged|
  {
    if groups == [] then m
    else
      var n := |groups| - 1;
      MergedManifest(AllMerged(m, groups[..n], merged[..n]), groups[n], merged[n])
  }

  /** Nothing is deleted, and no object but the manifest is overwritten. */
  ghost predicate ObjectsKept<D>(before: Store<D>, after: Store<D>, p: nat) {
    forall k :: k in before && k != ManifestKey(p) ==> k in after && after[k] == before[k]
  }

  /** One pass over a partition at rest. */
  ghost predicate Pass<D>(sealer: Sealer<D>, p: nat, part: Partition<D>, factor: nat, maxBytes: nat, before: Store<D>,
                          after: Store<D>, merged: seq<SegmentMeta<Key>>)
    requires factor >= 2
  {
    var plan := Plan(Live(before, p), Render, factor, maxBytes);
    && Quiet(sealer, before, p, part) && Quiet(sealer, after, p, part) && ObjectsKept(before, after, p)
    && AreMergesOf(sealer, p, part.log, plan, merged) && Live(after, p) == AllMerged(Live(before, p), plan, merged)
    && |Live(after, p).segments| + |plan| * (factor - 1) == |Live(before, p).segments|
  }

  /**
   One pass: every planned group becomes the entry of its hull, the manifest is the old one with
   each group replaced, no segment object is touched, and the number of listed segments falls by
   `mergeFactor - 1` for each group.
   */
  method Compact<D(!new)>(store: ObjectStore<D>, sealer: Sealer<D>, p: nat, mergeFactor: nat, maxMergedBytes: nat,
                          ghost part: Partition<D>)
    returns (r: Result<CompactionResult>)
    requires Quiet(sealer, store.objects, p, part)
    modifies store
    ensures mergeFactor < 2 ==> r == Err(ValueError) && store.objects == old(store.objects)
    ensures mergeFactor >= 2 ==> r.Ok?
    ensures r.Ok? ==>
              && Pass(sealer, p, part, mergeFactor, maxMergedBytes, old(store.objects), store.objects, r.value.merged)
              && r.value.retired == Flatten(Plan(Live(old(store.objects), p), Render, mergeFactor, maxMergedBytes))
  {
    hide Quiet, PlanFrom, AreMergesOf, AllMerged, ObjectsKept, Pending, DistinctFirsts;
    var manifest := store.ReadManifest(p);
    var planned := PlanCompaction(manifest, Render, mergeFactor, maxMergedBytes);
    if planned.Err? {
      return Err(planned.error);
    }
    QuietManifest(sealer, store.objects, p, part);
    PlanPending(manifest, mergeFactor, maxMergedBytes);
    var merged := MergeAll(store, sealer, p, planned.value, mergeFactor, part);
    r := Ok(CompactionResult(merged, Flatten(planned.value)));
  }

  method MergeAll<D>(store: ObjectStore<D>, sealer: Sealer<D>, p: nat, groups: seq<seq<SegmentMeta<Key>>>,
                     mergeFactor: nat, ghost part: Partition<D>)
    returns (merged: seq<SegmentMeta<Key>>)
    requires Quiet(sealer, store.objects, p, part) && Pending(Live(store.objects, p), groups, mergeFactor)
    requires mergeFactor >= 2
    modifies store
    ensures Quiet(sealer, store.objects, p, part) && ObjectsKept(old(store.objects), store.objects, p)
    ensures AreMergesOf(sealer, p, part.log, groups, merged)
    ensures Live(store.objects, p) == AllMerged(Live(old(store.objects), p), groups, merged)
    ensures |Live(store.objects, p).segments| + |groups| * (mergeFactor - 1) == |Live(old(store.objects), p).segments|
  {
    hide Quiet, Pending, IsMergeOf, MergedManifest, Live;
    merged := [];
    assert groups[0..] == groups;
    for i := 0 to |groups|
      invariant Quiet(sealer, store.objects, p, part) && ObjectsKept(old(store.objects), store.objects, p)
      invariant Pending(Live(store.objects, p), groups[i..], mergeFactor)
      invariant AreMergesOf(sealer, p, part.log, groups[..i], merged)
      invariant Live(store.objects, p) == AllMerged(Live(old(store.objects), p), groups[..i], merged)
      invariant |Live(store.objects, p).segments| + i * (mergeFactor - 1) == |Live(old(store.objects), p).segments|
    {
      assert groups[i..][0] == groups[i] && groups[i..][1..] == groups[i + 1..];
      var next := MergePlanned(store, sealer, p, groups[i..], mergeFactor, part);
      assert groups[..i + 1][..i] == groups[..i] && (merged + [next])[..i] == merged;
      merged := merged + [next];
      assert (i + 1) * (mergeFactor - 1) == i * (mergeFactor - 1) + (mergeFactor - 1);
    }
    assert groups[..|groups|] == groups;
  }

  /** What a merge writes is what the log holds over its hull, and no object is overwritten. */
  lemma MergeIsLog<D>(sealer: Sealer<D>, store: Store<D>, p: nat, part: Partition<D>, group: seq<SegmentMeta<Key>>)
    requires Quiet(sealer, store, p, part) && Consecutive(Live(store, p), group) && Readable(store, group)
    ensures IsMergeOf(sealer, p, part.log, group, MergedMeta(sealer, store, p, group))
    ensures ObjectsKept(store, AfterMerge(sealer, store, p, group), p)
  {
    QuietReadable(sealer, store, p, part, group);
    PutMergedOk(sealer, store, p, part, group);
    ConsecutiveChained(p, |part.log|, Live(store, p), group, part.committed);
    MergedDocsAreLog(store, p, part.log, group);
  }

  lemma PendingShrinks<D>(sealer: Sealer<D>, store: Store<D>, p: nat, part: Partition<D>,
                          groups: seq<seq<SegmentMeta<Key>>>, factor: nat)
    requires Quiet(sealer, store, p, part) && groups != [] && Pending(Live(store, p), groups, factor)
    requires Readable(store, groups[0])
    ensures Pending(MergedManifest(Live(store, p), groups[0], MergedMeta(sealer, store, p, groups[0])), groups[1..], factor)
  {
    var m, group, merged := Live(store, p), groups[0], MergedMeta(sealer, store, p, groups[0]);
    forall j | 1 <= j < |groups|
      ensures Consecutive(MergedManifest(m, group, merged), groups[j])
    {
      forall e | e in groups[j]
        ensures e in Unretired(m.segments, KeysOf(group) + {merged.key})
      {
        OtherUnretired(sealer, store, p, part, group, e);
      }
      ConsecutiveSurvives(m, group, merged, groups[j]);
    }
  }

  lemma MergeReadable<D>(sealer: Sealer<D>, store: Store<D>, p: nat, part: Partition<D>, group: seq<SegmentMeta<Key>>)
    requires Quiet(sealer, store, p, part) && Consecutive(Live(store, p), group)
    ensures Readable(store, group)
  {
    QuietReadable(sealer, store, p, part, group);
  }

  /** One turn of the loop in `compact`. */
  method MergePlanned<D>(store: ObjectStore<D>, sealer: Sealer<D>, p: nat, groups: seq<seq<SegmentMeta<Key>>>,
                         mergeFactor: nat, ghost part: Partition<D>)
    returns (merged: SegmentMeta<Key>)
    requires Quiet(sealer, store.objects, p, part) && groups != []
    requires Pending(Live(store.objects, p), groups, mergeFactor)
    modifies store
    ensures Quiet(sealer, store.objects, p, part)
    ensures Pending(Live(store.objects, p), groups[1..], mergeFactor)
    ensures IsMergeOf(sealer, p, part.log, groups[0], merged)
    ensures Live(store.objects, p) == MergedManifest(Live(old(store.objects), p), groups[0], merged)
    ensures ObjectsKept(old(store.objects), store.objects, p)
    ensures |Live(store.objects, p).segments| + mergeFactor - 1 == |Live(old(store.objects), p).segments|
  {
    hide Quiet, MergedDocs, IsMergeOf, ObjectsKept, MergedManifest;
    ghost var before := store.objects;
    var group := groups[0];
    MergeReadable(sealer, before, p, part, group);
    MergeIsLog(sealer, before, p, part, group);
    MergeKeepsQuiet(sealer, before, p, part, group);
    GroupShrinks(sealer, before, p, part, group);
    PendingShrinks(sealer, before, p, part, groups, mergeFactor);
    merged := MergeGroup(store, sealer, p, group);
  }

  // ---- repeated passes -------------------------------------------------

  function Planned<D>(store: Store<D>, p: nat, factor: nat, maxBytes: nat): seq<seq<SegmentMeta<Key>>>
    requires factor >= 2
  {
    Plan(Live(store, p), Render, factor, maxBytes)
  }

  /** The stores of one pass after the other, and what each pass merged. */
  ghost predicate Passes<D>(sealer: Sealer<D>, p: nat, part: Partition<D>, factor: nat, maxBytes: nat,
                            stores: seq<Store<D>>, merged: seq<seq<SegmentMeta<Key>>>)
    requires factor >= 2
  {
    && |stores| == |merged| + 1
    && forall i :: 0 <= i < |merged| ==> Pass(sealer, p, part, factor, maxBytes, stores[i], stores[i + 1], merged[i])
  }

  /** A pass with nothing to merge leaves the manifest as it is; any other lists fewer segments. */
  lemma PassProgress<D>(sealer: Sealer<D>, p: nat, part: Partition<D>, factor: nat, maxBytes: nat, before: Store<D>,
                        after: Store<D>, merged: seq<SegmentMeta<Key>>)
    requires factor >= 2 && Pass(sealer, p, part, factor, maxBytes, before, after, merged)
    ensures Planned(before, p, factor, maxBytes) == [] ==> Live(after, p) == Live(before, p) && merged == []
    ensures Planned(before, p, factor, maxBytes) != [] ==>
      |Live(after, p).segments| + factor - 1 <= |Live(before, p).segments|
  {
    hide Quiet, Plan, ObjectsKept, Live, IsMergeOf, MergedManifest;
    AtLeastOnce(|Planned(before, p, factor, maxBytes)|, factor - 1);
  }

  lemma AtLeastOnce(n: nat, k: nat)
    ensures n >= 1 ==> n * k >= k
  {
    if n >= 1 {
      assert n * k == (n - 1) * k + k;
    }
  }

  /**
   Passes converge: each that has something to merge lists at least `factor - 1` segments fewer, so
   there are no more of them than that allows, and once a plan is empty no later pass changes anything.
   */
  lemma {:induction false} PassesConverge<D>(sealer: Sealer<D>, p: nat, part: Partition<D>, factor: nat, maxBytes: nat,
                                             stores: seq<Store<D>>, merged: seq<seq<SegmentMeta<Key>>>, n: nat)
    requires factor >= 2 && Passes(sealer, p, part, factor, maxBytes, stores, merged) && n <= |merged|
    ensures (forall i :: 0 <= i < n ==> Planned(stores[i], p, factor, maxBytes) != []) ==>
      n * (factor - 1) + |Live(stores[n], p).segments| <= |Live(stores[0], p).segments|
    ensures forall i :: 0 <= i <= n && Planned(stores[i], p, factor, maxBytes) == [] ==>
      Live(stores[n], p) == Live(stores[i], p) && Planned(stores[n], p, factor, maxBytes) == []
  {
    hide Pass, Live, Plan;
    if n > 0 {
      PassesConverge(sealer, p, part, factor, maxBytes, stores, merged, n - 1);
      PassProgress(sealer, p, part, factor, maxBytes, stores[n - 1], stores[n], merged[n - 1]);
      assert n * (factor - 1) == (n - 1) * (factor - 1) + (factor - 1);
    }
  }

  /** As many passes as there are segments are enough: nothing is left to merge after them. */
  lemma EnoughPasses<D>(sealer: Sealer<D>, p: nat, part: Partition<D>, factor: nat, maxBytes: nat,
                        stores: seq<Store<D>>, merged: seq<seq<SegmentMeta<Key>>>)
    requires factor >= 2 && Passes(sealer, p, part, factor, maxBytes, stores, merged)
    requires |merged| * (factor - 1) >= |Live(stores[0], p).segments|
    ensures Planned(stores[|merged|], p, factor, maxBytes) == []
  {
    hide Pass, Live, Plan, PlanFrom;
    var n := |merged|;
    PassesConverge(sealer, p, part, factor, maxBytes, stores, merged, n);
    if Planned(stores[n], p, factor, maxBytes) != [] {
      assert forall i :: 0 <= i < n ==> Planned(stores[i], p, factor, maxBytes) != [];
      NoneListed(stores[n], p, factor, maxBytes);
    }
  }

  lemma NoneListed<D>(store: Store<D>, p: nat, factor: nat, maxBytes: nat)
    requires factor >= 2 && Live(store, p).segments == []
    ensures Planned(store, p, factor, maxBytes) == []
  {
  }

  /** The pass above, read as documents: the same sequence, in the same order. */
  lemma CompactionKeepsDocuments<D(!new)>(sealer: Sealer<D>, before: Store<D>, after: Store<D>, p: nat, part: Partition<D>)
    requires Quiet(sealer, before, p, part) && Quiet(sealer, after, p, part)
    ensures Readable(before, Ordered(Live(before, p), Render)) && Readable(after, Ordered(Live(after, p), Render))
    ensures MergedDocs(after, Ordered(Live(after, p), Render)) == MergedDocs(before, Ordered(Live(before, p), Render))
  {
    QuietDocsAreLog(sealer, before, p, part);
    QuietDocsAreLog(sealer, after, p, part);
  }
}
