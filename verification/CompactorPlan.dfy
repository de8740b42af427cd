/** What a compaction plan is, whatever manifest it is made for. */
module CompactionPlan {
  import opened Prelude
  import opened Sorting
  import opened Keys
  import opened Manifests
  import opened Compaction

  function Plan<K>(m: Manifest<K>, name: K -> string, factor: nat, maxBytes: nat): seq<seq<SegmentMeta<K>>>
    requires factor >= 2
  {
    PlanFrom(Ordered(m, name), 0, factor, maxBytes)
  }

  // ---- shape -----------------------------------------------------------

  lemma {:induction false} RunEndStops<K>(s: seq<SegmentMeta<K>>, lo: nat, hi: nat, factor: nat, maxBytes: nat)
    requires lo < hi <= |s| && hi - lo <= factor
    ensures var e := RunEnd(s, lo, hi, factor, maxBytes);
      && (forall k :: hi <= k < e ==> Fits(s, lo, k, maxBytes))
      && (e - lo == factor || e == |s| || !Fits(s, lo, e, maxBytes))
    decreases |s| - hi
  {
    if !(hi - lo == factor || hi == |s| || !Fits(s, lo, hi, maxBytes)) {
      RunEndStops(s, lo, hi + 1, factor, maxBytes);
    }
  }

  /** Where in the ordered segments each group of the plan starts. */
  function Starts<K>(s: seq<SegmentMeta<K>>, lo: nat, factor: nat, maxBytes: nat): seq<nat>
    requires factor >= 2 && lo <= |s|
    decreases |s| - lo
  {
    if lo == |s| then []
    else
      var e := RunEnd(s, lo, lo + 1, factor, maxBytes);
      (if e - lo == factor then [lo] else []) + Starts(s, e, factor, maxBytes)
  }

  /** A stretch of exactly `factor` segments in which each fitted the ones before it. */
  predicate FullRun<K>(s: seq<SegmentMeta<K>>, start: nat, factor: nat, maxBytes: nat) {
    && start + factor <= |s| && factor >= 2
    && TotalBytes(s, start, start + factor) <= maxBytes
    && forall k :: start < k < start + factor ==> Fits(s, start, k, maxBytes)
  }

  /** The groups are disjoint stretches of the ordered segments, in order, each a full run. */
  lemma {:induction false} PlanShape<K>(s: seq<SegmentMeta<K>>, lo: nat, factor: nat, maxBytes: nat)
    requires factor >= 2 && lo <= |s|
    ensures var (groups, starts) := (PlanFrom(s, lo, factor, maxBytes), Starts(s, lo, factor, maxBytes));
      && |groups| == |starts|
      && (forall j :: 0 <= j < |groups| ==>
            lo <= starts[j] && FullRun(s, starts[j], factor, maxBytes)
            && groups[j] == s[starts[j]..starts[j] + factor])
      && (forall i, j :: 0 <= i < j < |groups| ==> starts[i] + factor <= starts[j])
    decreases |s| - lo
  {
    if lo < |s| {
      var e := RunEnd(s, lo, lo + 1, factor, maxBytes);
      RunEndStops(s, lo, lo + 1, factor, maxBytes);
      PlanShape(s, e, factor, maxBytes);
      if e - lo == factor {
        assert Fits(s, lo, e - 1, maxBytes);
        assert FullRun(s, lo, factor, maxBytes);
      }
    }
  }

  // ---- what belongs together -------------------------------------------

  function Sizes<K>(s: seq<SegmentMeta<K>>): seq<nat> {
    seq(|s|, i requires 0 <= i < |s| => s[i].bytes)
  }

  /**
   Segment `k` belongs to the run begun at `lo`: it is at most four times some member, some member is at
   most four times it, and the run with it stays under the ceiling.
   */
  predicate Belongs<K>(s: seq<SegmentMeta<K>>, lo: nat, k: nat, maxBytes: nat)
    requires lo < k < |s|
  {
    && (exists i :: lo <= i < k && s[k].bytes <= 4 * s[i].bytes)
    && (exists i :: lo <= i < k && s[i].bytes <= 4 * s[k].bytes)
    && Sum(Sizes(s[lo..k + 1])) <= maxBytes
  }

  lemma {:induction false} LargestIs<K>(s: seq<SegmentMeta<K>>, lo: nat, hi: nat)
    requires lo < hi <= |s|
    ensures forall i :: lo <= i < hi ==> Smallest(s, lo, hi) <= s[i].bytes <= Largest(s, lo, hi)
    ensures exists i :: lo <= i < hi && s[i].bytes == Largest(s, lo, hi)
    ensures exists i :: lo <= i < hi && s[i].bytes == Smallest(s, lo, hi)
    decreases hi
  {
    if hi == lo + 1 {
      assert s[lo].bytes == Largest(s, lo, hi) == Smallest(s, lo, hi);
    } else {
      LargestIs(s, lo, hi - 1);
      var i :| lo <= i < hi - 1 && s[i].bytes == Largest(s, lo, hi - 1);
      var j :| lo <= j < hi - 1 && s[j].bytes == Smallest(s, lo, hi - 1);
      assert s[i].bytes == Largest(s, lo, hi) || s[hi - 1].bytes == Largest(s, lo, hi);
      assert s[j].bytes == Smallest(s, lo, hi) || s[hi - 1].bytes == Smallest(s, lo, hi);
    }
  }

  lemma {:induction false} TotalIsSum<K>(s: seq<SegmentMeta<K>>, lo: nat, hi: nat)
    requires lo <= hi <= |s|
    ensures TotalBytes(s, lo, hi) == Sum(Sizes(s[lo..hi]))
    decreases hi
  {
    if hi > lo {
      TotalIsSum(s, lo, hi - 1);
      assert Sizes(s[lo..hi])[..hi - lo - 1] == Sizes(s[lo..hi - 1]);
    }
  }

  lemma FitsIff<K>(s: seq<SegmentMeta<K>>, lo: nat, k: nat, maxBytes: nat)
    requires lo < k < |s|
    ensures Fits(s, lo, k, maxBytes) <==> Belongs(s, lo, k, maxBytes)
  {
    hide Largest, Smallest, Sum;
    LargestIs(s, lo, k);
    TotalIsSum(s, lo, k + 1);
  }

  /** The ordered segments cut into runs, each grown as far as its next segment belongs to it, and no further. */
  ghost predicate Greedy<K>(s: seq<SegmentMeta<K>>, cuts: seq<nat>, factor: nat, maxBytes: nat) {
    && cuts != [] && cuts[|cuts| - 1] == |s|
    && forall i :: 0 <= i < |cuts| - 1 ==> GreedyRun(s, cuts[i], cuts[i + 1], factor, maxBytes)
  }

  ghost predicate GreedyRun<K>(s: seq<SegmentMeta<K>>, lo: nat, hi: nat, factor: nat, maxBytes: nat) {
    && lo < hi <= |s| && hi - lo <= factor
    && (forall k :: lo < k < hi ==> Belongs(s, lo, k, maxBytes))
    && (hi - lo == factor || hi == |s| || !Belongs(s, lo, hi, maxBytes))
  }

  /** The runs that are full. */
  function FullRuns<K>(s: seq<SegmentMeta<K>>, cuts: seq<nat>, factor: nat): seq<seq<SegmentMeta<K>>> {
    if |cuts| < 2 then []
    else (if cuts[0] <= cuts[1] <= |s| && cuts[1] - cuts[0] == factor then [s[cuts[0]..cuts[1]]] else [])
         + FullRuns(s, cuts[1..], factor)
  }

  /** What is merged is exactly the full runs of the greedy cut: everything that belongs together and suffices. */
  lemma {:induction false} PlanIsGreedy<K>(s: seq<SegmentMeta<K>>, lo: nat, factor: nat, maxBytes: nat)
    returns (cuts: seq<nat>)
    requires factor >= 2 && lo <= |s|
    ensures Greedy(s, cuts, factor, maxBytes) && cuts[0] == lo
    ensures PlanFrom(s, lo, factor, maxBytes) == FullRuns(s, cuts, factor)
    decreases |s| - lo
  {
    hide Belongs, Fits;
    if lo == |s| {
      cuts := [lo];
    } else {
      var e := RunEnd(s, lo, lo + 1, factor, maxBytes);
      RunEndStops(s, lo, lo + 1, factor, maxBytes);
      forall k | lo < k < e
        ensures Belongs(s, lo, k, maxBytes)
      {
        FitsIff(s, lo, k, maxBytes);
      }
      if e < |s| {
        FitsIff(s, lo, e, maxBytes);
      }
      var rest := PlanIsGreedy(s, e, factor, maxBytes);
      cuts := [lo] + rest;
      assert cuts[1..] == rest;
    }
  }

  /** The plan is one of the manifest's segments, not of the order they are listed in. */
  lemma PlanIgnoresListingOrder<K(!new)>(m: Manifest<K>, m': Manifest<K>, name: K -> string, factor: nat, maxBytes: nat)
    requires factor >= 2 && multiset(m.segments) == multiset(m'.segments)
    requires forall a, b :: a in m.segments && b in m.segments && name(a.key) == name(b.key) ==> a == b
    ensures Plan(m, name, factor, maxBytes) == Plan(m', name, factor, maxBytes)
  {
    ByOffsetOrder(name);
    StrOrder();
    SortOrderIrrelevant(m.segments, m'.segments, ByOffset(name));
  }

  /** The walk goes by first offset, or from 0 where there is none, and by name where two are equal. */
  lemma WalkedInOrder<K(!new)>(m: Manifest<K>, name: K -> string)
    ensures var s := Ordered(m, name);
      && multiset(s) == multiset(m.segments)
      && forall i, j :: 0 <= i < j < |s| ==>
           var first := match s[i].range case Some(r) => r.first case None => 0;
           var next := match s[j].range case Some(r) => r.first case None => 0;
           first < next || (first == next && StrLe(name(s[i].key), name(s[j].key)))
  {
    hide StrLe;
    var s := Ordered(m, name);
    ByOffsetOrder(name);
    SortSorted(m.segments, ByOffset(name));
    forall i, j | 0 <= i < j < |s|
      ensures MetaLe(name, s[i], s[j])
    {
      assert ByOffset(name)(s[i], s[j]);
    }
  }

  lemma OrderedFirsts<K(!new)>(m: Manifest<K>, name: K -> string, i: nat, j: nat)
    requires i < j < |Ordered(m, name)|
    ensures FirstOrZero(Ordered(m, name)[i]) <= FirstOrZero(Ordered(m, name)[j])
  {
    var s := Ordered(m, name);
    ByOffsetOrder(name);
    SortSorted(m.segments, ByOffset(name));
    assert ByOffset(name)(s[i], s[j]);
  }

  /** Every listed segment has a range, and no two start at the same offset. */
  predicate DistinctFirsts<K>(m: Manifest<K>) {
    && (forall e :: e in m.segments ==> e.range.Some?)
    && forall i, j :: 0 <= i < j < |m.segments| ==> FirstOrZero(m.segments[i]) != FirstOrZero(m.segments[j])
  }

  /** The walk order is strict when no two segments start at the same offset. */
  lemma OrderedStrict<K(!new)>(m: Manifest<K>, name: K -> string, i: nat, j: nat)
    requires DistinctFirsts(m) && i < j < |Ordered(m, name)|
    ensures FirstOrZero(Ordered(m, name)[i]) < FirstOrZero(Ordered(m, name)[j])
  {
    hide MetaLe, ByOffset, Sort, StrLe;
    var s := Ordered(m, name);
    OrderedFirsts(m, name, i, j);
    SortMember(m.segments, ByOffset(name), s[i]);
    SortMember(m.segments, ByOffset(name), s[j]);
    DistinctPermutation(m.segments, s);
    var a :| 0 <= a < |m.segments| && m.segments[a] == s[i];
    var b :| 0 <= b < |m.segments| && m.segments[b] == s[j];
  }

  /** `s` is the manifest's segments in strict offset order. */
  ghost predicate WalkOf<K>(m: Manifest<K>, s: seq<SegmentMeta<K>>) {
    && (forall i :: 0 <= i < |s| ==> s[i] in m.segments && s[i].range.Some?)
    && (forall e :: e in m.segments ==> e in s)
    && (forall i, j :: 0 <= i < j < |s| ==> FirstOrZero(s[i]) < FirstOrZero(s[j]))
  }

  lemma OrderedIsWalk<K(!new)>(m: Manifest<K>, name: K -> string)
    requires DistinctFirsts(m)
    ensures WalkOf(m, Ordered(m, name))
  {
    var s := Ordered(m, name);
    forall i | 0 <= i < |s|
      ensures s[i] in m.segments
    {
      SortMember(m.segments, ByOffset(name), s[i]);
    }
    forall e | e in m.segments
      ensures e in s
    {
      SortMember(m.segments, ByOffset(name), e);
    }
    forall i, j | 0 <= i < j < |s|
      ensures FirstOrZero(s[i]) < FirstOrZero(s[j])
    {
      OrderedStrict(m, name, i, j);
    }
  }

  /** A stretch of the walk leaves out nothing that lies between its members. */
  lemma StretchConsecutive<K>(m: Manifest<K>, s: seq<SegmentMeta<K>>, start: nat, end: nat)
    requires WalkOf(m, s) && start < end <= |s|
    ensures Consecutive(m, s[start..end])
  {
    var group := s[start..end];
    assert forall i :: 0 <= i < |group| ==> group[i] == s[start + i];
    forall seg, i | seg in m.segments && seg.range.Some? && 0 <= i < |group| - 1
      ensures !(group[i].range.value.first < seg.range.value.first < group[i + 1].range.value.first)
    {
      NothingBetween(m, s, start + i, seg);
    }
    forall i | 0 <= i < |group| - 1
      ensures FirstOrZero(group[i]) < FirstOrZero(group[i + 1])
    {
      assert FirstOrZero(s[start + i]) < FirstOrZero(s[start + i + 1]);
    }
  }

  lemma NothingBetween<K>(m: Manifest<K>, s: seq<SegmentMeta<K>>, i: nat, seg: SegmentMeta<K>)
    requires WalkOf(m, s) && i + 1 < |s| && seg in m.segments && seg.range.Some?
    ensures !(s[i].range.value.first < seg.range.value.first < s[i + 1].range.value.first)
  {
    var n :| 0 <= n < |s| && s[n] == seg;
    assert n <= i || i + 1 <= n;
  }

  lemma GroupIsRun<K>(s: seq<SegmentMeta<K>>, factor: nat, maxBytes: nat, group: seq<SegmentMeta<K>>)
    returns (start: nat)
    requires factor >= 2 && group in PlanFrom(s, 0, factor, maxBytes)
    ensures FullRun(s, start, factor, maxBytes) && group == s[start..start + factor]
  {
    hide PlanFrom, Starts, Fits, TotalBytes;
    PlanShape(s, 0, factor, maxBytes);
    var groups := PlanFrom(s, 0, factor, maxBytes);
    var j :| 0 <= j < |groups| && groups[j] == group;
    start := Starts(s, 0, factor, maxBytes)[j];
  }

  /** Every planned group is a full run; over the walk of a manifest it is consecutive in offset order. */
  lemma PlannedGroups<K>(m: Manifest<K>, s: seq<SegmentMeta<K>>, factor: nat, maxBytes: nat,
                         group: seq<SegmentMeta<K>>) returns (start: nat)
    requires factor >= 2 && group in PlanFrom(s, 0, factor, maxBytes)
    ensures FullRun(s, start, factor, maxBytes) && group == s[start..start + factor]
    ensures WalkOf(m, s) ==> Consecutive(m, group)
  {
    hide WalkOf, Consecutive, Fits, TotalBytes, PlanFrom;
    start := GroupIsRun(s, factor, maxBytes, group);
    if WalkOf(m, s) {
      StretchConsecutive(m, s, start, start + factor);
    }
  }

  // ---- size tiers ------------------------------------------------------

  /** What the planner's documentation says of a run: its members are within the ratio of each other. */
  predicate PairwiseTier<K>(group: seq<SegmentMeta<K>>) {
    forall i, j :: 0 <= i < |group| && 0 <= j < |group| ==> group[i].bytes <= group[j].bytes * SIZE_TIER_RATIO
  }

  function SteepSize(i: nat): nat {
    if i == 0 then 1 else if i == 1 then 4 else 16
  }

  /** Sizes 1, 4, 16, 16, ...: each within the ratio of the largest before it. */
  function Steep(n: nat): seq<SegmentMeta<Key>> {
    seq(n, i requires 0 <= i < n => SegmentMeta(SegmentKey(0, i, i), 1, SteepSize(i), 0, 0, Some(Range(i, i))))
  }

  lemma SteepIsListable(n: nat)
    ensures Listable(Steep(n))
  {
  }

  lemma {:induction false} SteepMeasures(n: nat, k: nat)
    requires 1 <= k <= n
    ensures Largest(Steep(n), 0, k) == SteepSize(k - 1)
    ensures Smallest(Steep(n), 0, k) == 1
    ensures TotalBytes(Steep(n), 0, k) <= 16 * k
  {
    if k > 1 {
      SteepMeasures(n, k - 1);
    } else {
      assert TotalBytes(Steep(n), 0, 0) == 0;
    }
  }

  lemma {:induction false} SteepRun(n: nat, hi: nat)
    requires 1 <= hi <= n
    ensures RunEnd(Steep(n), 0, hi, n, 16 * n) == n
    decreases n - hi
  {
    if hi < n {
      SteepMeasures(n, hi);
      SteepRun(n, hi + 1);
    }
  }

  /** Segments listed in strict offset order are walked as they stand. */
  lemma SortOfStrict<K(!new)>(s: seq<SegmentMeta<K>>, name: K -> string)
    requires forall i, j :: 0 <= i < j < |s| ==> FirstOrZero(s[i]) < FirstOrZero(s[j])
    ensures Sort(s, ByOffset(name)) == s
  {
    var le := ByOffset(name);
    ByOffsetOrder(name);
    SortSorted(s, le);
    assert SortedBy(s, le);
    assert NoTies(s, le);
    SortedUnique(s, Sort(s, le), le);
  }

  lemma SteepOrdered(n: nat)
    ensures Ordered(Manifest(Steep(n), 0), Render) == Steep(n)
  {
    SortOfStrict(Steep(n), Render);
  }

  /** What publishing leaves in a manifest: no key twice, and no offset. */
  predicate Listable(segments: seq<SegmentMeta<Key>>) {
    UniqueKeys(segments) && Disjoint(segments)
  }

  ghost predicate AlwaysPairwise(factor: nat)
    requires factor >= 2
  {
    forall m: Manifest<Key>, maxBytes: nat, group ::
      Listable(m.segments) && group in Plan(m, Render, factor, maxBytes) ==> PairwiseTier(group)
  }

  lemma PairsWithinTier<K>(s: seq<SegmentMeta<K>>, maxBytes: nat, group: seq<SegmentMeta<K>>)
    requires group in PlanFrom(s, 0, 2, maxBytes)
    ensures PairwiseTier(group)
  {
    var start := GroupIsRun(s, 2, maxBytes, group);
    assert Fits(s, start, start + 1, maxBytes);
  }

  /** The documented tier rule holds of every manifest's plan exactly when merges take two segments at a time. */
  lemma PairwiseTierIffMergingPairs(factor: nat)
    requires factor >= 2
    ensures AlwaysPairwise(factor) <==> factor == 2
  {
    if factor == 2 {
      forall m: Manifest<Key>, maxBytes: nat, group | group in Plan(m, Render, 2, maxBytes)
        ensures PairwiseTier(group)
      {
        PairsWithinTier(Ordered(m, Render), maxBytes, group);
      }
    } else {
      SteepTooWide(factor);
    }
  }

  /** Three or more at a time: sizes 1, 4, 16 are merged together, sixteen apart. */
  lemma SteepTooWide(factor: nat)
    requires factor >= 3
    ensures Listable(Steep(factor))
    ensures Steep(factor) in Plan(Manifest(Steep(factor), 0), Render, factor, 16 * factor)
    ensures !PairwiseTier(Steep(factor)) && !AlwaysPairwise(factor)
  {
    hide Listable;
    var s := Steep(factor);
    var m := Manifest(s, 0);
    SteepIsListable(factor);
    SteepOrdered(factor);
    SteepRun(factor, 1);
    assert s[0..factor] == s;
    assert PlanFrom(s, 0, factor, 16 * factor) == [s] + PlanFrom(s, factor, factor, 16 * factor);
    assert s[2].bytes == 16 && s[0].bytes == 1;
    assert s in Plan(m, Render, factor, 16 * factor);
    assert Listable(m.segments);
  }
}
