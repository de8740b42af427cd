/** Fan-out search over every live segment, merged and paged: src/aether/index/coordinator.py. */
module Coordinator {
  import opened Prelude
  import opened Sorting
  import opened Paging
  import opened Memory
  import opened Blocked
  import opened BlockedReader
  import opened Matching
  import opened Ranking
  import opened Manifests

  /** A listed segment and what its reader answers from. */
  datatype Segment = Segment(meta: SegmentMeta<string>, index: Index, lengths: seq<nat>)

  /** What each segment object holds, by key. */
  type Contents = map<string, seq<Terms>>

  ghost predicate Holding(segment: Segment, contents: Contents) {
    && segment.meta.key in contents
    && var docs := contents[segment.meta.key];
      Answers(segment.index, docs) && segment.lengths == Lengths(docs) && segment.meta.docs == |docs|
  }

  ghost predicate AllHolding(segments: seq<Segment>, contents: Contents) {
    forall i :: 0 <= i < |segments| ==> Holding(segments[i], contents)
  }

  ghost function SegmentReaders(segments: seq<Segment>): set<BlockedPostings> {
    set i, r | 0 <= i < |segments| && r in IndexReaders(segments[i].index) :: r
  }

  /** The segments a time window leaves. */
  function Surviving(segments: seq<Segment>, start: Option<int>, end: Option<int>): seq<Segment> {
    if segments == [] then []
    else
      var n := |segments| - 1;
      Surviving(segments[..n], start, end) + if segments[n].meta.Overlaps(start, end) then [segments[n]] else []
  }

  lemma {:induction false} SurvivingMember(segments: seq<Segment>, start: Option<int>, end: Option<int>, i: nat)
    requires i < |Surviving(segments, start, end)|
    ensures Surviving(segments, start, end)[i] in segments
  {
    var n := |segments| - 1;
    if i < |Surviving(segments[..n], start, end)| {
      SurvivingMember(segments[..n], start, end, i);
    }
  }

  // ---- corpus statistics -----------------------------------------------

  function DocsIn(contents: Contents, segments: seq<Segment>): (r: seq<seq<Terms>>)
    ensures |r| == |segments|
  {
    seq(|segments|, i requires 0 <= i < |segments| =>
      if segments[i].meta.key in contents then contents[segments[i].meta.key] else [])
  }

  function DocCount(parts: seq<seq<Terms>>): nat {
    if parts == [] then 0 else DocCount(parts[..|parts| - 1]) + |parts[|parts| - 1]|
  }

  function LengthCount(parts: seq<seq<Terms>>): nat {
    if parts == [] then 0 else LengthCount(parts[..|parts| - 1]) + Sum(Lengths(parts[|parts| - 1]))
  }

  function DfCount(parts: seq<seq<Terms>>, t: string): nat {
    if parts == [] then 0 else DfCount(parts[..|parts| - 1], t) + |PostingIds(parts[|parts| - 1], t)|
  }

  /** The statistics of everything, gathered part by part. */
  function GlobalCorpus(parts: seq<seq<Terms>>, terms: seq<string>, scorer: Scorer): Corpus {
    Corpus(DocCount(parts), AvgLength(scorer, LengthCount(parts), DocCount(parts)),
           map t | t in terms :: DfCount(parts, t))
  }

  /** `df(term)` of one segment. */
  function Df(index: Index, t: string): nat {
    if t in index then index[t].Df() else 0
  }

  lemma DfIs(index: Index, docs: seq<Terms>, t: string)
    requires Answers(index, docs)
    ensures Df(index, t) == |PostingIds(docs, t)|
  {
    hide PostingIds, PostingFreqs, Vocabulary;
    if t !in index {
      AbsentTerm(docs, t);
    }
  }

  method GatherCorpusStats(segments: seq<Segment>, ghost contents: Contents, tokens: seq<string>, scorer: Scorer)
    returns (corpus: Corpus)
    requires AllHolding(segments, contents)
    ensures corpus == GlobalCorpus(DocsIn(contents, segments), QueryTerms(tokens), scorer)
    ensures DocCount(DocsIn(contents, segments)) == 0 ==> corpus.avgLength == 0.0
  {
    hide QueryTerms, PostingIds, Lengths, Answers, Sum;
    ghost var parts := DocsIn(contents, segments);
    var terms := QueryTerms(tokens);
    var totals: map<string, nat> := map t | t in terms :: 0;
    var docs: nat, lengths: nat := 0, 0;
    for i := 0 to |segments|
      invariant totals.Keys == set t | t in terms
      invariant forall t :: t in terms ==> totals[t] == DfCount(parts[..i], t)
      invariant docs == DocCount(parts[..i]) && lengths == LengthCount(parts[..i])
    {
      var segment := segments[i];
      assert parts[..i + 1][..i] == parts[..i];
      assert Holding(segment, contents) && parts[i] == contents[segment.meta.key];
      forall t
        ensures Df(segment.index, t) == |PostingIds(parts[i], t)|
      {
        DfIs(segment.index, parts[i], t);
      }
      totals := map t | t in totals :: totals[t] + Df(segment.index, t);
      docs := docs + segment.meta.docs;
      lengths := lengths + Sum(segment.lengths);
    }
    assert parts[..|parts|] == parts;
    corpus := Corpus(docs, AvgLength(scorer, lengths, docs), totals);
  }

  // ---- the full ranking ------------------------------------------------

  datatype GlobalHit = GlobalHit(segment: string, doc: int, score: real)

  datatype QueryResult = QueryResult(hits: seq<GlobalHit>, total: nat)

  /** Best score first, ties by segment key, then document id. */
  predicate Ahead(a: GlobalHit, b: GlobalHit) {
    || a.score > b.score
    || (a.score == b.score && (StrLess(a.segment, b.segment) || (a.segment == b.segment && a.doc <= b.doc)))
  }

  lemma AheadTotal()
    ensures TotalOrder(Ahead)
  {
    hide StrLe;
    StrOrder();
    forall a, b, c | Ahead(a, b) && Ahead(b, c)
      ensures Ahead(a, c)
    {
      if a.score == c.score && a.segment != c.segment {
        assert StrLe(a.segment, b.segment) && StrLe(b.segment, c.segment);
      }
      assert StrLe(a.segment, b.segment) && StrLe(b.segment, a.segment) ==> a.segment == b.segment;
    }
    forall a, b
      ensures Ahead(a, b) || Ahead(b, a)
    {
      assert StrLe(a.segment, b.segment) || StrLe(b.segment, a.segment);
    }
    forall a, b | Ahead(a, b) && Ahead(b, a)
      ensures a == b
    {
      assert a.score == b.score;
    }
  }

  function Label(key: string): Hit -> GlobalHit {
    (hit: Hit) => GlobalHit(key, hit.doc, hit.score)
  }

  /** Every match of one segment, scored. */
  function HitsIn(key: string, docs: seq<Terms>, terms: seq<string>, mode: Mode, scorer: Scorer, corpus: Option<Corpus>)
    : seq<GlobalHit>
  {
    Map(Label(key), AllHits(BasisOf(scorer, corpus, docs), Dfs(corpus, docs, terms), docs, terms, mode))
  }

  function HitsOfEach(segments: seq<Segment>, contents: Contents, terms: seq<string>, mode: Mode, scorer: Scorer,
                      corpus: Option<Corpus>): (r: seq<seq<GlobalHit>>)
    ensures |r| == |segments|
  {
    var parts := DocsIn(contents, segments);
    seq(|segments|, i requires 0 <= i < |segments| => HitsIn(segments[i].meta.key, parts[i], terms, mode, scorer, corpus))
  }

  /** All matches of all segments, in one ranking. */
  function FullRanking(segments: seq<Segment>, contents: Contents, terms: seq<string>, mode: Mode, scorer: Scorer,
                       corpus: Option<Corpus>): seq<GlobalHit>
  {
    Sort(Flatten(HitsOfEach(segments, contents, terms, mode, scorer, corpus)), Ahead)
  }

  /** How many documents match, over every part. */
  function MatchCount(parts: seq<seq<Terms>>, terms: seq<string>, mode: Mode): nat {
    if parts == [] then 0 else MatchCount(parts[..|parts| - 1], terms, mode) + |Matches(parts[|parts| - 1], terms, mode)|
  }

  /** One segment's best hits, labelled, are the best of its labelled hits. */
  lemma LabelledBest(key: string, docs: seq<Terms>, tokens: seq<string>, mode: Mode, scorer: Scorer,
                     corpus: Option<Corpus>, depth: int)
    ensures var r := BruteForce(docs, tokens, mode, scorer, corpus, depth);
      Map(Label(key), r.hits) == Best(HitsIn(key, docs, QueryTerms(tokens), mode, scorer, corpus), Ahead, depth)
  {
    hide QueryTerms, AllHits, Sort, Matches, Take;
    var terms := QueryTerms(tokens);
    var hits := AllHits(BasisOf(scorer, corpus, docs), Dfs(corpus, docs, terms), docs, terms, mode);
    MapSort(Label(key), hits, Better, Ahead);
    MapTake(Label(key), Sort(hits, Better), depth);
  }

  // ---- search ----------------------------------------------------------

  /** The statistics a search scores with: the surviving segments' own, or everyone's. */
  function CorpusFor(parts: seq<seq<Terms>>, tokens: seq<string>, globalStats: bool, scorer: Scorer): Option<Corpus> {
    if globalStats then Some(GlobalCorpus(parts, QueryTerms(tokens), scorer)) else None
  }

  /** What a search answers: a page of the ranking of every match in every surviving segment, and their number. */
  function Answer(segments: seq<Segment>, contents: Contents, tokens: seq<string>, topK: int, offset: nat, mode: Mode,
                  start: Option<int>, end: Option<int>, globalStats: bool, scorer: Scorer): QueryResult
  {
    var live := Surviving(segments, start, end);
    var (parts, terms) := (DocsIn(contents, live), QueryTerms(tokens));
    var corpus := CorpusFor(parts, tokens, globalStats, scorer);
    QueryResult(Page(FullRanking(live, contents, terms, mode, scorer, corpus), offset, topK), MatchCount(parts, terms, mode))
  }

  /** The fan-out: every segment's best `depth`, in segment order. */
  method FanOut(segments: seq<Segment>, ghost contents: Contents, tokens: seq<string>, depth: int, mode: Mode,
                scorer: Scorer, corpus: Option<Corpus>) returns (merged: seq<GlobalHit>, total: nat)
    requires AllHolding(segments, contents) && AllValid(SegmentReaders(segments))
    modifies SegmentReaders(segments)
    ensures AllValid(SegmentReaders(segments))
    ensures merged == Flatten(BestOfEach(HitsOfEach(segments, contents, QueryTerms(tokens), mode, scorer, corpus), Ahead, depth))
    ensures total == MatchCount(DocsIn(contents, segments), QueryTerms(tokens), mode)
  {
    hide QueryTerms, BruteForce, HitsIn, Best, Answers, Matches, DecodedBlock;
    ghost var parts := DocsIn(contents, segments);
    ghost var each := BestOfEach(HitsOfEach(segments, contents, QueryTerms(tokens), mode, scorer, corpus), Ahead, depth);
    merged, total := [], 0;
    for i := 0 to |segments|
      invariant AllValid(SegmentReaders(segments))
      invariant merged == Flatten(each[..i]) && total == MatchCount(parts[..i], QueryTerms(tokens), mode)
    {
      var segment := segments[i];
      assert Holding(segment, contents) && parts[i] == contents[segment.meta.key];
      assert IndexReaders(segment.index) <= SegmentReaders(segments);
      var result := Search(segment.index, parts[i], segment.lengths, tokens, depth, mode, scorer, corpus);
      var key := segment.meta.key;
      LabelledBest(key, parts[i], tokens, mode, scorer, corpus, depth);
      TotalIs(parts[i], tokens, mode, scorer, corpus, depth);
      FlattenSnoc(each, i);
      assert parts[..i + 1][..i] == parts[..i];
      merged := merged + Map(Label(key), result.hits);
      total := total + result.total;
    }
    assert each[..|segments|] == each && parts[..|segments|] == parts;
  }

  lemma TotalIs(docs: seq<Terms>, tokens: seq<string>, mode: Mode, scorer: Scorer, corpus: Option<Corpus>, depth: int)
    ensures BruteForce(docs, tokens, mode, scorer, corpus, depth).total == |Matches(docs, QueryTerms(tokens), mode)|
  {
  }

  /**
   A page of the ranking of every match in every surviving segment. `total` does not
   depend on the page.
   */
  method SearchAll(segments: seq<Segment>, ghost contents: Contents, tokens: seq<string>, topK: int, offset: int,
                   mode: Mode, start: Option<int>, end: Option<int>, globalStats: bool, scorer: Scorer)
    returns (r: Result<QueryResult>)
    requires AllHolding(segments, contents) && AllValid(SegmentReaders(segments))
    modifies SegmentReaders(segments)
    ensures AllValid(SegmentReaders(segments))
    ensures r.Err? <==> offset < 0
    ensures r.Err? ==> r.error == ValueError
    ensures offset >= 0 ==>
      r.value == Answer(segments, contents, tokens, topK, offset, mode, start, end, globalStats, scorer)
  {
    hide QueryTerms, Holding, Surviving, MatchCount, FullRanking, CorpusFor, AllHolding, DocsIn, Page;
    hide DecodedBlock;
    if offset < 0 {
      return Err(ValueError);
    }
    var live := Surviving(segments, start, end);
    SurvivingHolding(segments, contents, start, end);
    var page := SearchLive(live, contents, tokens, topK, offset, mode, globalStats, scorer);
    r := Ok(page);
  }

  /** The search proper, over the segments the window left. */
  method SearchLive(live: seq<Segment>, ghost contents: Contents, tokens: seq<string>, topK: int, offset: nat,
                    mode: Mode, globalStats: bool, scorer: Scorer) returns (r: QueryResult)
    requires AllHolding(live, contents) && AllValid(SegmentReaders(live))
    modifies SegmentReaders(live)
    ensures AllValid(SegmentReaders(live))
    ensures
      var (parts, terms) := (DocsIn(contents, live), QueryTerms(tokens));
      var corpus := CorpusFor(parts, tokens, globalStats, scorer);
      && r.hits == Page(FullRanking(live, contents, terms, mode, scorer, corpus), offset, topK)
      && r.total == MatchCount(parts, terms, mode)
  {
    hide QueryTerms, HitsOfEach, Holding, GlobalCorpus, Best, MatchCount, AllHolding, DocsIn, Page;
    hide Sort, Flatten, DecodedBlock;
    if live == [] {
      NothingLive(contents, tokens, mode, globalStats, scorer, offset, topK);
      return QueryResult([], 0);
    }
    var corpus := None;
    if globalStats {
      var gathered := GatherCorpusStats(live, contents, tokens, scorer);
      corpus := Some(gathered);
    }
    var depth := offset + topK;
    var merged, total := FanOut(live, contents, tokens, depth, mode, scorer, corpus);
    var ranked := Best(merged, Ahead, depth);
    MergedPage(HitsOfEach(live, contents, QueryTerms(tokens), mode, scorer, corpus), offset, topK);
    r := QueryResult(Slice(ranked, offset, |ranked|), total);
  }

  lemma SurvivingHolding(segments: seq<Segment>, contents: Contents, start: Option<int>, end: Option<int>)
    requires AllHolding(segments, contents)
    ensures var live := Surviving(segments, start, end);
      AllHolding(live, contents) && SegmentReaders(live) <= SegmentReaders(segments)
  {
    hide Holding, Surviving;
    var live := Surviving(segments, start, end);
    forall i | 0 <= i < |live|
      ensures Holding(live[i], contents) && IndexReaders(live[i].index) <= SegmentReaders(segments)
    {
      SurvivingMember(segments, start, end, i);
      var k :| 0 <= k < |segments| && segments[k] == live[i];
    }
  }

  lemma NothingLive(contents: Contents, tokens: seq<string>, mode: Mode, globalStats: bool, scorer: Scorer,
                    offset: nat, topK: int)
    ensures var (parts, terms) := (DocsIn(contents, []), QueryTerms(tokens));
      var corpus := CorpusFor(parts, tokens, globalStats, scorer);
      && Page(FullRanking([], contents, terms, mode, scorer, corpus), offset, topK) == []
      && MatchCount(parts, terms, mode) == 0
  {
    hide QueryTerms;
  }

  lemma MergedPage(each: seq<seq<GlobalHit>>, offset: nat, topK: int)
    ensures var ranked := Best(Flatten(BestOfEach(each, Ahead, offset + topK)), Ahead, offset + topK);
      Slice(ranked, offset, |ranked|) == Page(Sort(Flatten(each), Ahead), offset, topK)
  {
    hide Sort, Flatten, BestOfEach;
    AheadTotal();
    if offset + topK >= 0 {
      BestOfParts(each, Ahead, offset + topK);
    }
    PageIsTail(Sort(Flatten(each), Ahead), offset, topK);
  }

  /** The total is the length of the whole ranking, whatever page is asked for. */
  lemma {:induction false} TotalIsAll(segments: seq<Segment>, contents: Contents, terms: seq<string>, mode: Mode,
                                      scorer: Scorer, corpus: Option<Corpus>)
    ensures |FullRanking(segments, contents, terms, mode, scorer, corpus)|
         == MatchCount(DocsIn(contents, segments), terms, mode)
  {
    hide Sort;
    var each := HitsOfEach(segments, contents, terms, mode, scorer, corpus);
    SortLength(Flatten(each), Ahead);
    HitCount(segments, contents, terms, mode, scorer, corpus, |segments|);
    assert each[..|segments|] == each && DocsIn(contents, segments)[..|segments|] == DocsIn(contents, segments);
  }

  lemma {:induction false} HitCount(segments: seq<Segment>, contents: Contents, terms: seq<string>, mode: Mode,
                                    scorer: Scorer, corpus: Option<Corpus>, n: nat)
    requires n <= |segments|
    ensures |Flatten(HitsOfEach(segments, contents, terms, mode, scorer, corpus)[..n])|
         == MatchCount(DocsIn(contents, segments)[..n], terms, mode)
  {
    hide Matches, AllHits;
    if n > 0 {
      HitCount(segments, contents, terms, mode, scorer, corpus, n - 1);
      FlattenSnoc(HitsOfEach(segments, contents, terms, mode, scorer, corpus), n - 1);
      assert DocsIn(contents, segments)[..n][..n - 1] == DocsIn(contents, segments)[..n - 1];
    }
  }
}
