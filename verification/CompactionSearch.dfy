/** Compaction does not show in a search with global statistics. */
module CompactionSearch {
  import opened Prelude
  import opened Sorting
  import opened Keys
  import opened Manifests
  import opened Protocol
  import opened Compaction
  import opened CompactionRun
  import opened Memory
  import opened Matching
  import opened Ranking
  import opened Coordinator
  import opened Sharding
  import opened Paging

  /** What each of the segments holds, analysed. */
  function Analysed<D>(store: Store<D>, segments: seq<SegmentMeta<Key>>, analyze: D -> Terms): (r: seq<seq<Terms>>)
    requires Readable(store, segments)
    ensures |r| == |segments|
  {
    seq(|segments|, i requires 0 <= i < |segments| => Map(analyze, store[segments[i].key].docs))
  }

  lemma {:induction false} AnalysedJoins<D>(store: Store<D>, segments: seq<SegmentMeta<Key>>, analyze: D -> Terms)
    requires Readable(store, segments)
    ensures Flatten(Analysed(store, segments, analyze)) == Map(analyze, MergedDocs(store, segments))
  {
    if segments != [] {
      var n := |segments| - 1;
      var init := segments[..n];
      AnalysedJoins(store, init, analyze);
      MergedDocsAppend(store, init, segments[n]);
      assert segments == init + [segments[n]];
      assert Analysed(store, segments, analyze)[..n] == Analysed(store, init, analyze);
    }
  }

  /** The coordinator's view of a partition: its segments as the manifest lists them, and what each object holds. */
  ghost predicate Views<D>(segments: seq<Segment>, contents: Contents, store: Store<D>, p: nat, analyze: D -> Terms) {
    var listed := Live(store, p).segments;
    && |segments| == |listed| && Readable(store, listed)
    && forall i :: 0 <= i < |listed| ==>
         && segments[i].meta == Named(listed[i]) && segments[i].meta.key in contents
         && contents[segments[i].meta.key] == Map(analyze, store[listed[i].key].docs)
  }

  lemma ViewedDocs<D>(segments: seq<Segment>, contents: Contents, store: Store<D>, p: nat, analyze: D -> Terms)
    requires Views(segments, contents, store, p, analyze)
    ensures AllStored(segments, contents)
    ensures DocsIn(contents, segments) == Analysed(store, Live(store, p).segments, analyze)
  {
    hide Live;
  }

  function DocsAt<D>(store: Store<D>, analyze: D -> Terms): SegmentMeta<Key> -> seq<Terms> {
    (seg: SegmentMeta<Key>) =>
      if seg.key in store && store[seg.key].SegmentObject? then Map(analyze, store[seg.key].docs) else []
  }

  lemma AnalysedIsMap<D>(store: Store<D>, segments: seq<SegmentMeta<Key>>, analyze: D -> Terms)
    requires Readable(store, segments)
    ensures Analysed(store, segments, analyze) == Map(DocsAt(store, analyze), segments)
  {
  }

  /** Listed in any order, the segments of a quiet partition hold the analysed log. */
  lemma ListedHoldLog<D(!new)>(sealer: Sealer<D>, store: Store<D>, p: nat, part: Partition<D>, analyze: D -> Terms)
    requires Quiet(sealer, store, p, part) && Readable(store, Live(store, p).segments)
    ensures multiset(Flatten(Analysed(store, Live(store, p).segments, analyze)))
         == multiset(Map(analyze, part.log[..part.committed]))
  {
    hide Quiet, Analysed, Flatten, MergedDocs, Live, Sort, DocsAt, Readable, Map;
    var (listed, ordered) := (Live(store, p).segments, Ordered(Live(store, p), Render));
    QuietDocsAreLog(sealer, store, p, part);
    AnalysedIsMap(store, listed, analyze);
    AnalysedIsMap(store, ordered, analyze);
    MapPermutes(DocsAt(store, analyze), listed, ordered);
    FlattenPermutes(Analysed(store, listed, analyze), Analysed(store, ordered, analyze));
    AnalysedJoins(store, ordered, analyze);
  }

  /**
   Whatever passes ran between two quiet states of a partition with the same log, a search with global
   statistics over the segments as the manifest lists them finds the same documents with the same
   scores, every page of it shows the same scores, and it reports the same total.
   */
  lemma CompactionKeepsSearch<D(!new)>(sealer: Sealer<D>, before: Store<D>, after: Store<D>, p: nat, part: Partition<D>,
                                       analyze: D -> Terms, a: seq<Segment>, kept: Contents, b: seq<Segment>,
                                       keptAfter: Contents, tokens: seq<string>, topK: int, offset: nat, mode: Mode,
                                       scorer: Scorer)
    requires Quiet(sealer, before, p, part) && Quiet(sealer, after, p, part)
    requires Views(a, kept, before, p, analyze) && Views(b, keptAfter, after, p, analyze)
    ensures SameFindings(Findings(a, kept, tokens, mode, scorer), Findings(b, keptAfter, tokens, mode, scorer))
    ensures var (x, y) := (Answer(a, kept, tokens, topK, offset, mode, None, None, true, scorer),
                           Answer(b, keptAfter, tokens, topK, offset, mode, None, None, true, scorer));
      HitScores(x.hits) == HitScores(y.hits) && x.total == y.total
  {
    hide Quiet, Findings, Answer, SameFindings, HitScores, DocsIn, Flatten, Analysed, Map, AllStored, Live;
    ViewedDocs(a, kept, before, p, analyze);
    ViewedDocs(b, keptAfter, after, p, analyze);
    ListedHoldLog(sealer, before, p, part, analyze);
    ListedHoldLog(sealer, after, p, part, analyze);
    ReshapingInvariance(a, kept, b, keptAfter, tokens, topK, offset, mode, scorer);
  }
}
