/** Planning merges: src/aether/index/compactor.py, `plan_compaction` and `merged_key`. */
module Compaction {
  import opened Prelude
  import opened Sorting
  import opened Manifests

  const SIZE_TIER_RATIO: nat := 4

  // ---- the walk order --------------------------------------------------

  function FirstOrZero<K>(s: SegmentMeta<K>): nat {
    if s.range.Some? then s.range.value.first else 0
  }

  predicate MetaLe<K>(name: K -> string, a: SegmentMeta<K>, b: SegmentMeta<K>) {
    FirstOrZero(a) < FirstOrZero(b) || (FirstOrZero(a) == FirstOrZero(b) && StrLe(name(a.key), name(b.key)))
  }

  function ByOffset<K>(name: K -> string): (SegmentMeta<K>, SegmentMeta<K>) -> bool {
    (a, b) => MetaLe(name, a, b)
  }

  function Ordered<K>(m: Manifest<K>, name: K -> string): seq<SegmentMeta<K>> {
    Sort(m.segments, ByOffset(name))
  }

  lemma ByOffsetOrder<K(!new)>(name: K -> string)
    ensures TotalPreorder(ByOffset(name))
  {
    StrOrder();
  }

  // ---- the policy, over the stretch [lo, hi) of the ordered segments ----

  function Smallest<K>(s: seq<SegmentMeta<K>>, lo: nat, hi: nat): nat
    requires lo < hi <= |s|
  {
    if hi == lo + 1 then s[lo].bytes else Min(Smallest(s, lo, hi - 1), s[hi - 1].bytes)
  }

  function Largest<K>(s: seq<SegmentMeta<K>>, lo: nat, hi: nat): nat
    requires lo < hi <= |s|
  {
    if hi == lo + 1 then s[lo].bytes else Max(Largest(s, lo, hi - 1), s[hi - 1].bytes)
  }

  function TotalBytes<K>(s: seq<SegmentMeta<K>>, lo: nat, hi: nat): nat
    requires lo <= hi <= |s|
  {
    if hi == lo then 0 else TotalBytes(s, lo, hi - 1) + s[hi - 1].bytes
  }

  predicate SameTier<K>(s: seq<SegmentMeta<K>>, lo: nat, hi: nat)
    requires lo < hi < |s|
  {
    s[hi].bytes <= Largest(s, lo, hi) * SIZE_TIER_RATIO && s[hi].bytes * SIZE_TIER_RATIO >= Smallest(s, lo, hi)
  }

  /** The run [lo, hi) may take the next segment too. */
  predicate Fits<K>(s: seq<SegmentMeta<K>>, lo: nat, hi: nat, maxBytes: nat)
    requires lo < hi < |s|
  {
    SameTier(s, lo, hi) && TotalBytes(s, lo, hi) + s[hi].bytes <= maxBytes
  }

  /** Where the run [lo, hi) ends once it has grown as far as it may. */
  function RunEnd<K>(s: seq<SegmentMeta<K>>, lo: nat, hi: nat, factor: nat, maxBytes: nat): (e: nat)
    requires lo < hi <= |s| && hi - lo <= factor
    ensures hi <= e <= |s| && e - lo <= factor
    decreases |s| - hi
  {
    if hi - lo == factor || hi == |s| || !Fits(s, lo, hi, maxBytes) then hi
    else RunEnd(s, lo, hi + 1, factor, maxBytes)
  }

  /** The merges to perform: full runs, cut greedily from `lo` on. */
  function PlanFrom<K>(s: seq<SegmentMeta<K>>, lo: nat, factor: nat, maxBytes: nat): seq<seq<SegmentMeta<K>>>
    requires factor >= 2 && lo <= |s|
    decreases |s| - lo
  {
    if lo == |s| then []
    else
      var e := RunEnd(s, lo, lo + 1, factor, maxBytes);
      (if e - lo == factor then [s[lo..e]] else []) + PlanFrom(s, e, factor, maxBytes)
  }

  // ---- the walk ----------------------------------------------------------

  /** The numbers the walk keeps about its current run are those of a stretch. */
  lemma {:induction false} RunMeasures<K>(s: seq<SegmentMeta<K>>, lo: nat, hi: nat)
    requires lo < hi <= |s|
    ensures var run := s[lo..hi];
      && Smallest(run, 0, |run|) == Smallest(s, lo, hi)
      && Largest(run, 0, |run|) == Largest(s, lo, hi)
  {
    PrefixMeasures(s, lo, hi, hi);
  }

  lemma {:induction false} PrefixMeasures<K>(s: seq<SegmentMeta<K>>, lo: nat, mid: nat, hi: nat)
    requires lo < mid <= hi <= |s|
    ensures var run := s[lo..hi];
      && Smallest(run, 0, mid - lo) == Smallest(s, lo, mid)
      && Largest(run, 0, mid - lo) == Largest(s, lo, mid)
    decreases mid
  {
    if mid > lo + 1 {
      PrefixMeasures(s, lo, mid - 1, hi);
    }
  }

  /** What the walk has when it has looked at `i` segments and its run began at `lo`. */
  ghost predicate Walked<K>(s: seq<SegmentMeta<K>>, lo: nat, i: nat, run: seq<SegmentMeta<K>>, runBytes: nat,
                            groups: seq<seq<SegmentMeta<K>>>, factor: nat, maxBytes: nat)
    requires factor >= 2
  {
    && lo <= i <= |s| && i - lo <= factor && run == s[lo..i] && runBytes == TotalBytes(s, lo, i)
    && PlanFrom(s, 0, factor, maxBytes) == groups + PlanFrom(s, lo, factor, maxBytes)
    && (lo < i ==> RunEnd(s, lo, lo + 1, factor, maxBytes) == RunEnd(s, lo, i, factor, maxBytes))
  }

  /** A run that can grow no further contributes a group exactly when it is full. */
  lemma RunCloses<K>(s: seq<SegmentMeta<K>>, lo: nat, i: nat, run: seq<SegmentMeta<K>>, runBytes: nat,
                     groups: seq<seq<SegmentMeta<K>>>, factor: nat, maxBytes: nat)
    requires factor >= 2 && Walked(s, lo, i, run, runBytes, groups, factor, maxBytes)
    requires lo < i && (i - lo == factor || i == |s| || !Fits(s, lo, i, maxBytes))
    ensures Walked(s, i, i, [], 0, groups + (if |run| == factor then [run] else []), factor, maxBytes)
  {
  }

  /** What is left of the walk at its end is too short to merge. */
  lemma LastRun<K>(s: seq<SegmentMeta<K>>, lo: nat, run: seq<SegmentMeta<K>>, runBytes: nat,
                   groups: seq<seq<SegmentMeta<K>>>, factor: nat, maxBytes: nat)
    requires factor >= 2 && Walked(s, lo, |s|, run, runBytes, groups, factor, maxBytes) && |run| < factor
    ensures groups == PlanFrom(s, 0, factor, maxBytes)
  {
    if lo < |s| {
      RunCloses(s, lo, |s|, run, runBytes, groups, factor, maxBytes);
    }
  }

  lemma RunGrows<K>(s: seq<SegmentMeta<K>>, lo: nat, i: nat, run: seq<SegmentMeta<K>>, runBytes: nat,
                    groups: seq<seq<SegmentMeta<K>>>, factor: nat, maxBytes: nat)
    requires factor >= 2 && Walked(s, lo, i, run, runBytes, groups, factor, maxBytes)
    requires i < |s| && i - lo < factor && (lo < i ==> Fits(s, lo, i, maxBytes))
    ensures Walked(s, lo, i + 1, run + [s[i]], runBytes + s[i].bytes, groups, factor, maxBytes)
  {
    assert s[lo..i + 1] == s[lo..i] + [s[i]];
  }

  /** Whether the run must close before `segment`, from what the walk keeps about the run. */
  method MustClose<K>(run: seq<SegmentMeta<K>>, runBytes: nat, segment: SegmentMeta<K>, maxMergedBytes: nat,
                      ghost ordered: seq<SegmentMeta<K>>, ghost lo: nat, ghost i: nat)
    returns (close: bool)
    requires lo <= i < |ordered| && run == ordered[lo..i] && segment == ordered[i]
    requires runBytes == TotalBytes(ordered, lo, i)
    ensures close <==> lo < i && !Fits(ordered, lo, i, maxMergedBytes)
  {
    if run == [] {
      return false;
    }
    var smallest, largest := Smallest(run, 0, |run|), Largest(run, 0, |run|);
    RunMeasures(ordered, lo, i);
    var sameTier := segment.bytes <= largest * SIZE_TIER_RATIO && segment.bytes * SIZE_TIER_RATIO >= smallest;
    close := !sameTier || runBytes + segment.bytes > maxMergedBytes;
  }

  /** The first half of a turn of the loop: close the run if `segment` does not fit it. */
  method BeforeSegment<K>(run: seq<SegmentMeta<K>>, runBytes: nat, segment: SegmentMeta<K>,
                          ghost groups: seq<seq<SegmentMeta<K>>>, mergeFactor: nat, maxMergedBytes: nat,
                          ghost ordered: seq<SegmentMeta<K>>, ghost lo: nat, ghost i: nat)
    returns (run': seq<SegmentMeta<K>>, runBytes': nat, ghost lo': nat)
    requires mergeFactor >= 2 && Walked(ordered, lo, i, run, runBytes, groups, mergeFactor, maxMergedBytes)
    requires |run| < mergeFactor && i < |ordered| && segment == ordered[i]
    ensures Walked(ordered, lo', i, run', runBytes', groups, mergeFactor, maxMergedBytes)
    ensures |run'| < mergeFactor && (lo' < i ==> Fits(ordered, lo', i, maxMergedBytes))
  {
    run', runBytes', lo' := run, runBytes, lo;
    var close := MustClose(run, runBytes, segment, maxMergedBytes, ordered, lo, i);
    if close {
      // The run is still shorter than the merge factor, and is left alone.
      RunCloses(ordered, lo, i, run, runBytes, groups, mergeFactor, maxMergedBytes);
      run', runBytes', lo' := [], 0, i;
    }
  }

  lemma WalkStart<K>(s: seq<SegmentMeta<K>>, factor: nat, maxBytes: nat)
    requires factor >= 2
    ensures Walked(s, 0, 0, [], 0, [], factor, maxBytes)
  {
  }

  lemma RunLength<K>(s: seq<SegmentMeta<K>>, lo: nat, i: nat, run: seq<SegmentMeta<K>>, runBytes: nat,
                     groups: seq<seq<SegmentMeta<K>>>, factor: nat, maxBytes: nat)
    requires factor >= 2 && Walked(s, lo, i, run, runBytes, groups, factor, maxBytes)
    ensures lo <= i <= |s| && i - lo == |run| && (|run| < factor ==> lo == i || run != [])
  {
  }

  method CutRuns<K>(ordered: seq<SegmentMeta<K>>, mergeFactor: nat, maxMergedBytes: nat)
    returns (groups: seq<seq<SegmentMeta<K>>>)
    requires mergeFactor >= 2
    ensures groups == PlanFrom(ordered, 0, mergeFactor, maxMergedBytes)
  {
    hide Walked, Fits, PlanFrom;
    groups := [];
    var run: seq<SegmentMeta<K>> := [];
    var runBytes: nat := 0;
    ghost var lo: nat := 0;
    WalkStart(ordered, mergeFactor, maxMergedBytes);
    for i := 0 to |ordered|
      invariant Walked(ordered, lo, i, run, runBytes, groups, mergeFactor, maxMergedBytes) && |run| < mergeFactor
    {
      var segment := ordered[i];
      run, runBytes, lo := BeforeSegment(run, runBytes, segment, groups, mergeFactor, maxMergedBytes, ordered, lo, i);
      RunLength(ordered, lo, i, run, runBytes, groups, mergeFactor, maxMergedBytes);
      RunGrows(ordered, lo, i, run, runBytes, groups, mergeFactor, maxMergedBytes);
      run, runBytes := run + [segment], runBytes + segment.bytes;
      if |run| == mergeFactor {
        RunLength(ordered, lo, i + 1, run, runBytes, groups, mergeFactor, maxMergedBytes);
        RunCloses(ordered, lo, i + 1, run, runBytes, groups, mergeFactor, maxMergedBytes);
        groups := groups + [run];
        run, runBytes, lo := [], 0, i + 1;
      }
    }
    LastRun(ordered, lo, run, runBytes, groups, mergeFactor, maxMergedBytes);
  }

  method PlanCompaction<K>(manifest: Manifest<K>, name: K -> string, mergeFactor: nat, maxMergedBytes: nat)
    returns (r: Result<seq<seq<SegmentMeta<K>>>>)
    ensures mergeFactor < 2 ==> r == Err(ValueError)
    ensures mergeFactor >= 2 ==> r == Ok(PlanFrom(Ordered(manifest, name), 0, mergeFactor, maxMergedBytes))
  {
    if mergeFactor < 2 {
      return Err(ValueError);
    }
    var groups := CutRuns(Ordered(manifest, name), mergeFactor, maxMergedBytes);
    r := Ok(groups);
  }
}
