/**
 The live set: src/aether/index/manifest.py. `K` is the type of object names:
 `Keys.Key` for the streaming indexer, `string` for any other writer.
 */
module Manifests {
  import opened Prelude

  /** A source range. The code records both ends of it or neither. */
  datatype Range = Range(first: nat, last: nat)

  datatype SegmentMeta<K(==)> = SegmentMeta(
    key: K, docs: nat, bytes: nat, minTs: int, maxTs: int, range: Option<Range>)
  {
    predicate Covers(first: nat, last: nat) {
      range.Some? && range.value.first <= last && first <= range.value.last
    }

    predicate Holds(offset: nat) {
      Covers(offset, offset)
    }

    predicate Overlaps(start: Option<int>, end: Option<int>) {
      && (start.Some? ==> start.value <= maxTs)
      && (end.Some? ==> minTs <= end.value)
    }

    /** `Manifest.publish` unlists `this` when `segment` is published. */
    predicate SupersededBy(segment: SegmentMeta<K>) {
      || key == segment.key
      || (segment.range.Some? && Covers(segment.range.value.first, segment.range.value.last))
    }
  }

  datatype Manifest<K(==)> = Manifest(segments: seq<SegmentMeta<K>>, generation: nat) {
    function WithSegments(replacement: seq<SegmentMeta<K>>): Manifest<K> {
      Manifest(replacement, generation + 1)
    }
  }

  function Kept<K(==)>(segments: seq<SegmentMeta<K>>, segment: SegmentMeta<K>): seq<SegmentMeta<K>> {
    if segments == [] then []
    else (if segments[0].SupersededBy(segment) then [] else [segments[0]]) + Kept(segments[1..], segment)
  }

  function Publish<K(==)>(m: Manifest<K>, segment: SegmentMeta<K>): Manifest<K> {
    m.WithSegments(Kept(m.segments, segment) + [segment])
  }

  predicate Apart<K(==)>(a: SegmentMeta<K>, b: SegmentMeta<K>) {
    a.range.Some? && b.range.Some? ==> !a.Covers(b.range.value.first, b.range.value.last)
  }

  /** No two listed segments hold a common offset. */
  predicate Disjoint<K(==)>(segments: seq<SegmentMeta<K>>) {
    forall i, j :: 0 <= i < j < |segments| ==> Apart(segments[i], segments[j])
  }

  predicate UniqueKeys<K(==)>(segments: seq<SegmentMeta<K>>) {
    forall i, j :: 0 <= i < j < |segments| ==> segments[i].key != segments[j].key
  }

  lemma {:induction false} KeptExactly<K>(segments: seq<SegmentMeta<K>>, segment: SegmentMeta<K>, e: SegmentMeta<K>)
    ensures e in Kept(segments, segment) <==> e in segments && !e.SupersededBy(segment)
  {
    if segments != [] {
      KeptExactly(segments[1..], segment, e);
      assert segments == [segments[0]] + segments[1..];
    }
  }

  lemma {:induction false} KeptPairwise<K>(segments: seq<SegmentMeta<K>>, segment: SegmentMeta<K>)
    ensures Disjoint(segments) ==> Disjoint(Kept(segments, segment))
    ensures UniqueKeys(segments) ==> UniqueKeys(Kept(segments, segment))
  {
    if segments != [] {
      var rest := segments[1..];
      KeptPairwise(rest, segment);
      var kept := Kept(rest, segment);
      forall i | 0 <= i < |kept|
        ensures exists j :: 0 <= j < |rest| && rest[j] == kept[i]
      {
        KeptExactly(rest, segment, kept[i]);
      }
    }
  }

  /** What publishing leaves listed, and that it never lists an offset twice. */
  lemma PublishEvicts<K>(m: Manifest<K>, segment: SegmentMeta<K>)
    ensures var r := Publish(m, segment);
      && (forall e :: e in r.segments <==>
            || e == segment
            || (e in m.segments && e.key != segment.key
                && (e.range.Some? && segment.range.Some? ==>
                      e.range.value.last < segment.range.value.first || segment.range.value.last < e.range.value.first)))
      && r.generation == m.generation + 1
      && (Disjoint(m.segments) ==> Disjoint(r.segments))
      && (UniqueKeys(m.segments) ==> UniqueKeys(r.segments))
  {
    Evicts(m, segment);
  }

  lemma Evicts<K>(m: Manifest<K>, segment: SegmentMeta<K>)
    ensures var r := Publish(m, segment);
      && (forall e :: e in r.segments <==> e == segment || (e in m.segments && !e.SupersededBy(segment)))
      && r.generation == m.generation + 1
      && (Disjoint(m.segments) ==> Disjoint(r.segments))
      && (UniqueKeys(m.segments) ==> UniqueKeys(r.segments))
  {
    KeptPairwise(m.segments, segment);
    var kept := Kept(m.segments, segment);
    forall e
      ensures e in kept <==> e in m.segments && !e.SupersededBy(segment)
    {
      KeptExactly(m.segments, segment, e);
    }
    forall i | 0 <= i < |kept|
      ensures Apart(kept[i], segment) && kept[i].key != segment.key
    {
      KeptExactly(m.segments, segment, kept[i]);
    }
  }

  // ---- in what order segments are listed -------------------------------

  /** `part` is `whole` with some entries left out and the others in place: those at `at`. */
  predicate Thinned<K(==)>(part: seq<SegmentMeta<K>>, whole: seq<SegmentMeta<K>>, at: seq<nat>) {
    && |at| == |part| && Ascending(at)
    && forall i :: 0 <= i < |at| ==> at[i] < |whole| && part[i] == whole[at[i]]
  }

  lemma ThinnedBehind<K>(part: seq<SegmentMeta<K>>, whole: seq<SegmentMeta<K>>, at: seq<nat>, keep: bool)
    returns (wider: seq<nat>)
    requires whole != [] && Thinned(part, whole[1..], at)
    ensures Thinned((if keep then [whole[0]] else []) + part, whole, wider)
  {
    wider := (if keep then [0] else []) + seq(|at|, i requires 0 <= i < |at| => at[i] + 1);
  }

  lemma {:induction false} KeptInOrder<K>(segments: seq<SegmentMeta<K>>, segment: SegmentMeta<K>) returns (at: seq<nat>)
    ensures Thinned(Kept(segments, segment), segments, at)
  {
    at := [];
    if segments != [] {
      at := KeptInOrder(segments[1..], segment);
      at := ThinnedBehind(Kept(segments[1..], segment), segments, at, !segments[0].SupersededBy(segment));
    }
  }

  /** A published segment is listed last, after the others in the order they had, one generation on. */
  lemma PublishInOrder<K>(m: Manifest<K>, segment: SegmentMeta<K>) returns (at: seq<nat>)
    ensures var r := Publish(m, segment);
      && r.generation == m.generation + 1 && r.segments != []
      && var n := |r.segments| - 1;
        r.segments[n] == segment && Thinned(r.segments[..n], m.segments, at)
  {
    at := KeptInOrder(m.segments, segment);
    var kept := Kept(m.segments, segment);
    assert (kept + [segment])[..|kept|] == kept;
  }

  // ---- the union across partitions -------------------------------------

  function KeysOf<K(==)>(segments: seq<SegmentMeta<K>>): set<K> {
    set e | e in segments :: e.key
  }

  /** One entry per key: the first one met. */
  function FirstOfEachKey<K(==)>(segments: seq<SegmentMeta<K>>): seq<SegmentMeta<K>> {
    if segments == [] then []
    else
      var seen := FirstOfEachKey(segments[..|segments| - 1]);
      var next := segments[|segments| - 1];
      if next.key in KeysOf(seen) then seen else seen + [next]
  }

  function Segments<K(==)>(manifests: seq<Manifest<K>>): seq<SegmentMeta<K>> {
    if manifests == [] then []
    else Segments(manifests[..|manifests| - 1]) + manifests[|manifests| - 1].segments
  }

  function Newest<K(==)>(manifests: seq<Manifest<K>>): (g: nat)
    ensures forall m :: m in manifests ==> m.generation <= g
    ensures g == 0 || exists m :: m in manifests && m.generation == g
  {
    if manifests == [] then 0
    else
      var rest := manifests[..|manifests| - 1];
      var last := manifests[|manifests| - 1];
      assert manifests == rest + [last];
      var g: nat := Newest(rest);
      assert g == 0 || exists m :: m in rest && m in manifests && m.generation == g;
      if last.generation > g then last.generation else g
  }

  lemma FirstOfEachKeyStep<K>(all: seq<SegmentMeta<K>>, next: SegmentMeta<K>)
    ensures var seen := FirstOfEachKey(all);
      && FirstOfEachKey(all + [next]) == (if next.key in KeysOf(seen) then seen else seen + [next])
      && KeysOf(seen + [next]) == KeysOf(seen) + {next.key}
  {
    assert (all + [next])[..|all|] == all;
  }

  lemma SegmentsStep<K>(manifests: seq<Manifest<K>>, i: nat)
    requires i < |manifests|
    ensures Segments(manifests[..i + 1]) == Segments(manifests[..i]) + manifests[i].segments
    ensures Newest(manifests[..i + 1]) == Max(Newest(manifests[..i]), manifests[i].generation)
  {
    assert manifests[..i + 1][..i] == manifests[..i];
  }

  /** The inner loop: list what is new in one manifest, after everything in `before`. */
  method ListNew<K(==)>(listed: seq<SegmentMeta<K>>, segments: seq<SegmentMeta<K>>, ghost before: seq<SegmentMeta<K>>)
    returns (seen: seq<SegmentMeta<K>>)
    requires listed == FirstOfEachKey(before)
    ensures seen == FirstOfEachKey(before + segments)
  {
    seen := listed;
    assert before + segments[..0] == before;
    for j := 0 to |segments|
      invariant seen == FirstOfEachKey(before + segments[..j])
    {
      FirstOfEachKeyStep(before + segments[..j], segments[j]);
      assert before + segments[..j + 1] == (before + segments[..j]) + [segments[j]];
      if segments[j].key !in KeysOf(seen) {
        seen := seen + [segments[j]];
      }
    }
    assert before + segments[..|segments|] == before + segments;
  }

  method UnionManifests<K(==)>(manifests: seq<Manifest<K>>) returns (r: Manifest<K>)
    ensures r.segments == FirstOfEachKey(Segments(manifests))
    ensures r.generation == Newest(manifests)
  {
    var seen: seq<SegmentMeta<K>> := [];
    var generation := 0;
    for i := 0 to |manifests|
      invariant seen == FirstOfEachKey(Segments(manifests[..i]))
      invariant generation == Newest(manifests[..i])
    {
      SegmentsStep(manifests, i);
      generation := Max(generation, manifests[i].generation);
      seen := ListNew(seen, manifests[i].segments, Segments(manifests[..i]));
    }
    assert manifests[..|manifests|] == manifests;
    r := Manifest(seen, generation);
  }

  lemma {:induction false} FirstOfEachKeyKeys<K>(all: seq<SegmentMeta<K>>)
    ensures KeysOf(FirstOfEachKey(all)) == KeysOf(all)
    ensures forall e :: e in FirstOfEachKey(all) ==> e in all
  {
    if all != [] {
      var init, next := all[..|all| - 1], all[|all| - 1];
      assert all == init + [next];
      FirstOfEachKeyKeys(init);
      assert KeysOf(all) == KeysOf(init) + {next.key};
      var seen := FirstOfEachKey(init);
      assert KeysOf(seen + [next]) == KeysOf(seen) + {next.key};
    }
  }

  /** Every key of any manifest is listed once; nothing is dropped when no key repeats. */
  lemma {:induction false} UnionListsEachKeyOnce<K>(all: seq<SegmentMeta<K>>)
    ensures UniqueKeys(FirstOfEachKey(all))
    ensures KeysOf(FirstOfEachKey(all)) == KeysOf(all)
    ensures UniqueKeys(all) ==> FirstOfEachKey(all) == all
  {
    FirstOfEachKeyKeys(all);
    if all != [] {
      var init, next := all[..|all| - 1], all[|all| - 1];
      assert all == init + [next];
      UnionListsEachKeyOnce(init);
      var seen := FirstOfEachKey(init);
      assert forall i | 0 <= i < |seen| :: seen[i] in seen && seen[i].key in KeysOf(seen);
      assert UniqueKeys(all) ==> UniqueKeys(init) && forall i | 0 <= i < |init| :: init[i].key != next.key;
    }
  }

  /** Entry `k` is the first of its key. */
  predicate Unmet<K(==)>(all: seq<SegmentMeta<K>>, k: nat) {
    k < |all| && forall j :: 0 <= j < k ==> all[j].key != all[k].key
  }

  /** The listed entries stand in the order they were met in, each the first of its key. */
  lemma {:induction false} UnionInOrder<K>(all: seq<SegmentMeta<K>>) returns (at: seq<nat>)
    ensures Thinned(FirstOfEachKey(all), all, at) && forall i :: 0 <= i < |at| ==> Unmet(all, at[i])
  {
    hide FirstOfEachKey;
    at := [];
    if all == [] {
      NothingMet(all);
    } else {
      var (init, next) := (all[..|all| - 1], all[|all| - 1]);
      assert all == init + [next];
      at := UnionInOrder(init);
      FirstOfEachKeyStep(init, next);
      FirstOfEachKeyKeys(init);
      MetStay(init, next, at);
      if next.key !in KeysOf(init) {
        ThinnedAhead(FirstOfEachKey(init), init, next, at);
        NewlyMet(init, next);
        at := at + [|init|];
      } else {
        ThinnedLonger(FirstOfEachKey(init), init, next, at);
      }
    }
  }

  lemma NothingMet<K>(all: seq<SegmentMeta<K>>)
    requires all == []
    ensures FirstOfEachKey(all) == []
  {
  }

  lemma MetStay<K>(init: seq<SegmentMeta<K>>, next: SegmentMeta<K>, at: seq<nat>)
    requires forall i :: 0 <= i < |at| ==> Unmet(init, at[i])
    ensures forall i :: 0 <= i < |at| ==> Unmet(init + [next], at[i])
  {
  }

  lemma NewlyMet<K>(init: seq<SegmentMeta<K>>, next: SegmentMeta<K>)
    requires next.key !in KeysOf(init)
    ensures Unmet(init + [next], |init|)
  {
    assert forall j | 0 <= j < |init| :: init[j] in init && init[j].key in KeysOf(init);
  }

  lemma ThinnedLonger<K>(part: seq<SegmentMeta<K>>, whole: seq<SegmentMeta<K>>, next: SegmentMeta<K>, at: seq<nat>)
    requires Thinned(part, whole, at)
    ensures Thinned(part, whole + [next], at)
  {
  }

  lemma ThinnedAhead<K>(part: seq<SegmentMeta<K>>, whole: seq<SegmentMeta<K>>, next: SegmentMeta<K>, at: seq<nat>)
    requires Thinned(part, whole, at)
    ensures Thinned(part + [next], whole + [next], at + [|whole|])
  {
  }

  // ---- a merge ---------------------------------------------------------

  /** A run consecutive in offset order, as `plan_compaction` walks the manifest. */
  predicate Consecutive<K(==)>(m: Manifest<K>, group: seq<SegmentMeta<K>>) {
    && group != []
    && (forall i :: 0 <= i < |group| ==> group[i] in m.segments && group[i].range.Some?)
    && (forall i :: 0 <= i < |group| - 1 ==> group[i].range.value.first < group[i + 1].range.value.first)
    && (forall seg, i :: seg in m.segments && seg.range.Some? && 0 <= i < |group| - 1 ==>
          !(group[i].range.value.first < seg.range.value.first < group[i + 1].range.value.first))
  }

  predicate AllBelow<K(==)>(group: seq<SegmentMeta<K>>, n: nat) {
    forall i :: 0 <= i < |group| ==> group[i].range.Some? && group[i].range.value.last < n
  }

  function Hull<K(==)>(group: seq<SegmentMeta<K>>): Range
    requires group != [] && group[0].range.Some? && group[|group| - 1].range.Some?
  {
    Range(group[0].range.value.first, group[|group| - 1].range.value.last)
  }

  function Unretired<K(==)>(segments: seq<SegmentMeta<K>>, retired: set<K>): seq<SegmentMeta<K>> {
    if segments == [] then []
    else (if segments[0].key in retired then [] else [segments[0]]) + Unretired(segments[1..], retired)
  }

  function MergedManifest<K(==)>(m: Manifest<K>, group: seq<SegmentMeta<K>>, merged: SegmentMeta<K>): Manifest<K> {
    m.WithSegments(Unretired(m.segments, KeysOf(group) + {merged.key}) + [merged])
  }

  lemma {:induction false} UnretiredExactly<K>(segments: seq<SegmentMeta<K>>, retired: set<K>, e: SegmentMeta<K>)
    ensures e in Unretired(segments, retired) <==> e in segments && e.key !in retired
  {
    if segments != [] {
      UnretiredExactly(segments[1..], retired, e);
      assert segments == [segments[0]] + segments[1..];
    }
  }

  lemma {:induction false} UnretiredPairwise<K>(segments: seq<SegmentMeta<K>>, retired: set<K>)
    ensures Disjoint(segments) ==> Disjoint(Unretired(segments, retired))
    ensures UniqueKeys(segments) ==> UniqueKeys(Unretired(segments, retired))
  {
    if segments != [] {
      var rest := segments[1..];
      UnretiredPairwise(rest, retired);
      var kept := Unretired(rest, retired);
      forall i | 0 <= i < |kept|
        ensures exists j :: 0 <= j < |rest| && rest[j] == kept[i]
      {
        UnretiredExactly(rest, retired, kept[i]);
      }
    }
  }

  lemma {:induction false} UnretiredInOrder<K>(segments: seq<SegmentMeta<K>>, retired: set<K>) returns (at: seq<nat>)
    ensures Thinned(Unretired(segments, retired), segments, at)
  {
    at := [];
    if segments != [] {
      at := UnretiredInOrder(segments[1..], retired);
      at := ThinnedBehind(Unretired(segments[1..], retired), segments, at, segments[0].key !in retired);
    }
  }

  /** A merged segment is listed last, after exactly those not merged into it, in the order they had. */
  lemma MergeInOrder<K>(m: Manifest<K>, group: seq<SegmentMeta<K>>, merged: SegmentMeta<K>) returns (at: seq<nat>)
    ensures var r := MergedManifest(m, group, merged);
      && r.generation == m.generation + 1 && r.segments != []
      && var n := |r.segments| - 1;
        && r.segments[n] == merged && Thinned(r.segments[..n], m.segments, at)
        && forall e :: e in r.segments[..n] <==>
             e in m.segments && e.key != merged.key && forall i :: 0 <= i < |group| ==> e.key != group[i].key
  {
    var retired := KeysOf(group) + {merged.key};
    at := UnretiredInOrder(m.segments, retired);
    var kept := Unretired(m.segments, retired);
    assert (kept + [merged])[..|kept|] == kept;
    forall e
      ensures e in kept <==>
        e in m.segments && e.key != merged.key && forall i :: 0 <= i < |group| ==> e.key != group[i].key
    {
      UnretiredExactly(m.segments, retired, e);
      assert forall i | 0 <= i < |group| :: group[i] in group && group[i].key in KeysOf(group);
    }
  }
}
