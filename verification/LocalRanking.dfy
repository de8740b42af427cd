/**
 A search without global statistics, and the order of every answer: src/aether/index/coordinator.py.
 Each segment is scored by its own documents alone.
 */
module LocalRanking {
  import opened Prelude
  import opened Sorting
  import opened Paging
  import opened Memory
  import opened Matching
  import opened Ranking
  import opened Coordinator

  /** The hits in `key`, in the order they stand. */
  function From(hits: seq<GlobalHit>, key: string): seq<GlobalHit> {
    if hits == [] then []
    else From(hits[..|hits| - 1], key) + if hits[|hits| - 1].segment == key then [hits[|hits| - 1]] else []
  }

  lemma {:induction false} FromConcat(a: seq<GlobalHit>, b: seq<GlobalHit>, key: string)
    ensures From(a + b, key) == From(a, key) + From(b, key)
  {
    if b == [] {
      assert a + b == a;
    } else {
      var n := |b| - 1;
      assert (a + b)[..|a + b| - 1] == a + b[..n];
      FromConcat(a, b[..n], key);
    }
  }

  lemma {:induction false} FromCount(hits: seq<GlobalHit>, key: string, h: GlobalHit)
    ensures multiset(From(hits, key))[h] == if h.segment == key then multiset(hits)[h] else 0
  {
    if hits != [] {
      var n := |hits| - 1;
      FromCount(hits[..n], key, h);
      assert hits == hits[..n] + [hits[n]];
    }
  }

  lemma FromMembers(hits: seq<GlobalHit>, key: string)
    ensures multiset(From(hits, key)) <= multiset(hits)
    ensures forall h :: h in From(hits, key) <==> h in hits && h.segment == key
    ensures forall h :: multiset(From(hits, key))[h] == if h.segment == key then multiset(hits)[h] else 0
  {
    hide From;
    forall h
      ensures multiset(From(hits, key))[h] == if h.segment == key then multiset(hits)[h] else 0
      ensures h in From(hits, key) <==> h in hits && h.segment == key
    {
      FromCount(hits, key, h);
      assert h in From(hits, key) <==> multiset(From(hits, key))[h] > 0;
      assert h in hits <==> multiset(hits)[h] > 0;
    }
  }

  /** Taking one segment's hits out of an ordered list keeps them ordered. */
  lemma {:induction false} FromSorted(hits: seq<GlobalHit>, key: string)
    requires SortedBy(hits, Ahead)
    ensures SortedBy(From(hits, key), Ahead)
  {
    hide Ahead;
    if hits != [] {
      var n := |hits| - 1;
      FromSorted(hits[..n], key);
      FromBelow(hits, key);
      hide From;
      SortedSnoc(From(hits[..n], key), hits[n]);
    }
  }

  predicate AllAhead(hits: seq<GlobalHit>, last: GlobalHit) {
    forall i :: 0 <= i < |hits| ==> Ahead(hits[i], last)
  }

  lemma FromBelow(hits: seq<GlobalHit>, key: string)
    requires SortedBy(hits, Ahead) && hits != []
    ensures AllAhead(From(hits[..|hits| - 1], key), hits[|hits| - 1])
    ensures var few := From(hits[..|hits| - 1], key);
      From(hits, key) == few || From(hits, key) == few + [hits[|hits| - 1]]
  {
    hide Ahead;
    var n := |hits| - 1;
    FromMembers(hits[..n], key);
    var few := From(hits[..n], key);
    forall i | 0 <= i < |few|
      ensures Ahead(few[i], hits[n])
    {
      assert few[i] in hits[..n];
      var k :| 0 <= k < n && hits[..n][k] == few[i];
    }
  }

  lemma SortedSnoc(hits: seq<GlobalHit>, last: GlobalHit)
    requires SortedBy(hits, Ahead) && AllAhead(hits, last)
    ensures SortedBy(hits + [last], Ahead)
  {
    hide Ahead;
  }

  lemma FromOfSort(hits: seq<GlobalHit>, key: string)
    ensures From(Sort(hits, Ahead), key) == Sort(From(hits, key), Ahead)
  {
    hide Ahead, Sort, From, SortedBy, TotalOrder;
    AheadTotal();
    AheadIsTotal();
    var (a, b) := (From(Sort(hits, Ahead), key), Sort(From(hits, key), Ahead));
    SortSorted(hits, Ahead);
    FromSorted(Sort(hits, Ahead), key);
    SortSorted(From(hits, key), Ahead);
    FromMembers(Sort(hits, Ahead), key);
    FromMembers(hits, key);
    assert multiset(a) == multiset(b);
    NoTiesIn(a);
    SortedUnique(a, b, Ahead);
  }

  lemma AheadIsTotal()
    ensures TotalPreorder(Ahead)
  {
    hide Ahead;
    AheadTotal();
  }

  lemma NoTiesIn(hits: seq<GlobalHit>)
    ensures NoTies(hits, Ahead)
  {
    hide Ahead;
    AheadTotal();
  }

  predicate DistinctKeys(segments: seq<Segment>) {
    forall i, j :: 0 <= i < j < |segments| ==> segments[i].meta.key != segments[j].meta.key
  }

  lemma {:induction false} FromLabelled(key: string, hits: seq<Hit>, other: string)
    ensures From(Map(Label(key), hits), other) == if other == key then Map(Label(key), hits) else []
  {
    if hits != [] {
      var n := |hits| - 1;
      assert Map(Label(key), hits)[..n] == Map(Label(key), hits[..n]);
      FromLabelled(key, hits[..n], other);
    }
  }

  lemma FromHitsIn(key: string, docs: seq<Terms>, terms: seq<string>, mode: Mode, scorer: Scorer, corpus: Option<Corpus>,
                   other: string)
    ensures var hits := HitsIn(key, docs, terms, mode, scorer, corpus);
      From(hits, other) == if other == key then hits else []
  {
    hide AllHits, BasisOf, Dfs, From, Label;
    FromLabelled(key, AllHits(BasisOf(scorer, corpus, docs), Dfs(corpus, docs, terms), docs, terms, mode), other);
  }

  lemma {:induction false} FromEach(segments: seq<Segment>, contents: Contents, terms: seq<string>, mode: Mode,
                                    scorer: Scorer, corpus: Option<Corpus>, i: nat, n: nat)
    requires DistinctKeys(segments) && i < |segments| && n <= |segments|
    ensures var each := HitsOfEach(segments, contents, terms, mode, scorer, corpus);
      From(Flatten(each[..n]), segments[i].meta.key) == if i < n then each[i] else []
  {
    hide HitsIn, DocsIn, From, Flatten;
    var each := HitsOfEach(segments, contents, terms, mode, scorer, corpus);
    if n == 0 {
      FromNothing(each[..0], segments[i].meta.key);
    } else {
      FromEach(segments, contents, terms, mode, scorer, corpus, i, n - 1);
      FlattenSnoc(each, n - 1);
      FromConcat(Flatten(each[..n - 1]), each[n - 1], segments[i].meta.key);
      FromHitsIn(segments[n - 1].meta.key, DocsIn(contents, segments)[n - 1], terms, mode, scorer, corpus,
                 segments[i].meta.key);
    }
  }

  lemma FromNothing(parts: seq<seq<GlobalHit>>, key: string)
    requires parts == []
    ensures From(Flatten(parts), key) == []
  {
  }

  /** The whole answer: enough of it to hold every match. */
  function Whole(segments: seq<Segment>, contents: Contents, tokens: seq<string>, mode: Mode, start: Option<int>,
                 end: Option<int>, globalStats: bool, scorer: Scorer): seq<GlobalHit>
  {
    var total := Answer(segments, contents, tokens, 0, 0, mode, start, end, globalStats, scorer).total;
    Answer(segments, contents, tokens, total, 0, mode, start, end, globalStats, scorer).hits
  }

  lemma WholeIsRanking(segments: seq<Segment>, contents: Contents, tokens: seq<string>, mode: Mode, start: Option<int>,
                       end: Option<int>, globalStats: bool, scorer: Scorer)
    ensures var live := Surviving(segments, start, end);
      Whole(segments, contents, tokens, mode, start, end, globalStats, scorer)
      == FullRanking(live, contents, QueryTerms(tokens), mode, scorer,
                     CorpusFor(DocsIn(contents, live), tokens, globalStats, scorer))
  {
    hide QueryTerms, FullRanking, CorpusFor, Surviving, DocsIn;
    var live := Surviving(segments, start, end);
    TotalIsAll(live, contents, QueryTerms(tokens), mode, scorer,
               CorpusFor(DocsIn(contents, live), tokens, globalStats, scorer));
  }

  /** Every answer is a page of the whole one. */
  lemma AnswersArePages(segments: seq<Segment>, contents: Contents, tokens: seq<string>, topK: int, offset: nat,
                        mode: Mode, start: Option<int>, end: Option<int>, globalStats: bool, scorer: Scorer)
    ensures var whole := Whole(segments, contents, tokens, mode, start, end, globalStats, scorer);
      var answer := Answer(segments, contents, tokens, topK, offset, mode, start, end, globalStats, scorer);
      answer.total == |whole| && answer.hits == if topK <= 0 then [] else Slice(whole, offset, offset + topK)
  {
    hide QueryTerms, FullRanking, CorpusFor, Surviving, DocsIn, Whole;
    WholeIsRanking(segments, contents, tokens, mode, start, end, globalStats, scorer);
    var live := Surviving(segments, start, end);
    TotalIsAll(live, contents, QueryTerms(tokens), mode, scorer,
               CorpusFor(DocsIn(contents, live), tokens, globalStats, scorer));
  }

  /**
   Without global statistics, what an answer holds of a segment is the ranking the segment gives on its
   own: neither its hits nor their scores depend on any other segment.
   */
  lemma SegmentsRankAlone(segments: seq<Segment>, contents: Contents, tokens: seq<string>, mode: Mode, start: Option<int>,
                          end: Option<int>, scorer: Scorer, i: nat)
    requires DistinctKeys(segments) && i < |Surviving(segments, start, end)|
    requires Surviving(segments, start, end)[i].meta.key in contents
    ensures var key := Surviving(segments, start, end)[i].meta.key;
      From(Whole(segments, contents, tokens, mode, start, end, false, scorer), key)
      == Map(Label(key), Ranked(contents[key], QueryTerms(tokens), mode, scorer, None))
  {
    hide QueryTerms, Sort, AllHits, BasisOf, Dfs, Whole, From, Surviving, Label, Better, Ahead;
    var (live, terms) := (Surviving(segments, start, end), QueryTerms(tokens));
    var key := live[i].meta.key;
    SurvivingDistinct(segments, start, end);
    WholeIsRanking(segments, contents, tokens, mode, start, end, false, scorer);
    var each := HitsOfEach(live, contents, terms, mode, scorer, None);
    FromOfSort(Flatten(each), key);
    FromEach(live, contents, terms, mode, scorer, None, i, |live|);
    assert each[..|live|] == each;
    RelabelledSort(key, contents[key], terms, mode, scorer);
  }

  lemma RelabelledSort(key: string, docs: seq<Terms>, terms: seq<string>, mode: Mode, scorer: Scorer)
    ensures Sort(HitsIn(key, docs, terms, mode, scorer, None), Ahead)
         == Map(Label(key), Ranked(docs, terms, mode, scorer, None))
  {
    hide Sort, AllHits;
    MapSort(Label(key), AllHits(BasisOf(scorer, None, docs), Dfs(None, docs, terms), docs, terms, mode), Better, Ahead);
  }

  lemma {:induction false} SurvivingDistinct(segments: seq<Segment>, start: Option<int>, end: Option<int>)
    requires DistinctKeys(segments)
    ensures DistinctKeys(Surviving(segments, start, end))
  {
    if segments != [] {
      var n := |segments| - 1;
      var few := Surviving(segments[..n], start, end);
      SurvivingDistinct(segments[..n], start, end);
      forall i | 0 <= i < |few|
        ensures few[i].meta.key != segments[n].meta.key
      {
        SurvivingMember(segments[..n], start, end, i);
      }
    }
  }

  /** Best score first; at equal scores the segment whose key sorts first; within it the lower document. */
  lemma AnswersInOrder(segments: seq<Segment>, contents: Contents, tokens: seq<string>, topK: int, offset: nat, mode: Mode,
                       start: Option<int>, end: Option<int>, globalStats: bool, scorer: Scorer, i: nat, j: nat)
    requires i < j < |Answer(segments, contents, tokens, topK, offset, mode, start, end, globalStats, scorer).hits|
    ensures var hits := Answer(segments, contents, tokens, topK, offset, mode, start, end, globalStats, scorer).hits;
      var (a, b) := (hits[i], hits[j]);
      && a.score >= b.score
      && (a.score == b.score ==> StrLe(a.segment, b.segment))
      && (a.score == b.score && a.segment == b.segment ==> a.doc <= b.doc)
  {
    hide QueryTerms, HitsOfEach, Sort, Surviving, DocsIn, StrLe, MatchCount, CorpusFor;
    StrOrder();
    AheadIsTotal();
    var live := Surviving(segments, start, end);
    var corpus := CorpusFor(DocsIn(contents, live), tokens, globalStats, scorer);
    var each := HitsOfEach(live, contents, QueryTerms(tokens), mode, scorer, corpus);
    SortSorted(Flatten(each), Ahead);
    var ranking := Sort(Flatten(each), Ahead);
    assert Ahead(ranking[offset + i], ranking[offset + j]);
  }
}
