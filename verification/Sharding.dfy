/** How documents are split into segments does not show in a search with global statistics. */
module Sharding {
  import opened Prelude
  import opened Sorting
  import opened Paging
  import opened Memory
  import opened Matching
  import opened Ranking
  import opened Coordinator

  /** Matching documents with their scores, in document order. */
  function ScoredDocs(basis: Basis, dfs: map<string, nat>, docs: seq<Terms>, terms: seq<string>, mode: Mode): seq<(Terms, real)>
    requires forall t :: t in terms ==> t in dfs
  {
    if docs == [] then []
    else
      var doc := docs[|docs| - 1];
      ScoredDocs(basis, dfs, docs[..|docs| - 1], terms, mode)
      + if Satisfies(doc, terms, mode) then [(doc, ScoreOf(basis, dfs, doc, terms))] else []
  }

  /** They are the hits of the segment, each with its document instead of its number. */
  lemma {:induction false} ScoredDocsAreHits(basis: Basis, dfs: map<string, nat>, docs: seq<Terms>, terms: seq<string>,
                                             mode: Mode, k: nat)
    requires forall t :: t in terms ==> t in dfs
    requires k < |Matches(docs, terms, mode)|
    ensures |ScoredDocs(basis, dfs, docs, terms, mode)| == |Matches(docs, terms, mode)|
    ensures var hit := AllHits(basis, dfs, docs, terms, mode)[k];
      0 <= hit.doc < |docs| && ScoredDocs(basis, dfs, docs, terms, mode)[k] == (docs[hit.doc], hit.score)
  {
    hide Satisfies, ScoreOf;
    var n := |docs| - 1;
    var before := Matches(docs[..n], terms, mode);
    ScoredDocsCount(basis, dfs, docs[..n], terms, mode);
    if k < |before| {
      ScoredDocsAreHits(basis, dfs, docs[..n], terms, mode, k);
      assert Matches(docs, terms, mode)[k] == before[k];
    }
  }

  lemma {:induction false} ScoredDocsCount(basis: Basis, dfs: map<string, nat>, docs: seq<Terms>, terms: seq<string>, mode: Mode)
    requires forall t :: t in terms ==> t in dfs
    ensures |ScoredDocs(basis, dfs, docs, terms, mode)| == |Matches(docs, terms, mode)|
  {
    hide Satisfies, ScoreOf;
    if docs != [] {
      ScoredDocsCount(basis, dfs, docs[..|docs| - 1], terms, mode);
    }
  }

  // ---- everything adds up over concatenation ---------------------------

  lemma {:induction false} PostingsConcat(a: seq<Terms>, b: seq<Terms>, t: string)
    ensures |PostingIds(a + b, t)| == |PostingIds(a, t)| + |PostingIds(b, t)|
  {
    if b == [] {
      assert a + b == a;
    } else {
      var n := |b| - 1;
      assert (a + b)[..|a + b| - 1] == a + b[..n];
      PostingsConcat(a, b[..n], t);
    }
  }

  lemma LengthsConcat(a: seq<Terms>, b: seq<Terms>)
    ensures Sum(Lengths(a + b)) == Sum(Lengths(a)) + Sum(Lengths(b))
  {
    assert Lengths(a + b) == Lengths(a) + Lengths(b);
    SumConcat(Lengths(a), Lengths(b));
  }

  lemma {:induction false} ScoredConcat(basis: Basis, dfs: map<string, nat>, a: seq<Terms>, b: seq<Terms>,
                                        terms: seq<string>, mode: Mode)
    requires forall t :: t in terms ==> t in dfs
    ensures ScoredDocs(basis, dfs, a + b, terms, mode)
         == ScoredDocs(basis, dfs, a, terms, mode) + ScoredDocs(basis, dfs, b, terms, mode)
  {
    hide Satisfies, ScoreOf;
    if b == [] {
      assert a + b == a;
    } else {
      var n := |b| - 1;
      assert (a + b)[..|a + b| - 1] == a + b[..n];
      ScoredConcat(basis, dfs, a, b[..n], terms, mode);
    }
  }

  lemma {:induction false} CountsAddUp(parts: seq<seq<Terms>>, t: string)
    ensures DocCount(parts) == |Flatten(parts)|
    ensures LengthCount(parts) == Sum(Lengths(Flatten(parts)))
    ensures DfCount(parts, t) == |PostingIds(Flatten(parts), t)|
  {
    hide PostingIds, Lengths, Sum;
    if parts == [] {
      NoDocs(t);
    } else {
      var n := |parts| - 1;
      CountsAddUp(parts[..n], t);
      LengthsConcat(Flatten(parts[..n]), parts[n]);
      PostingsConcat(Flatten(parts[..n]), parts[n], t);
    }
  }

  lemma NoDocs(t: string)
    ensures Sum(Lengths([])) == 0 && |PostingIds([], t)| == 0
  {
  }

  /** Statistics gathered segment by segment are the unsplit index's own. */
  lemma GlobalIsOwn(parts: seq<seq<Terms>>, part: seq<Terms>, terms: seq<string>, scorer: Scorer)
    ensures var (global, all) := (Some(GlobalCorpus(parts, terms, scorer)), Flatten(parts));
      && BasisOf(scorer, global, part) == BasisOf(scorer, None, all)
      && Dfs(global, part, terms) == Dfs(None, all, terms)
  {
    hide PostingIds, Lengths, Sum, DocCount, LengthCount, DfCount, Flatten;
    CountsAddUp(parts, "");
    forall t
      ensures DfCount(parts, t) == |PostingIds(Flatten(parts), t)|
    {
      CountsAddUp(parts, t);
    }
  }

  /** Matches of every part under the global statistics, part after part. */
  function ScoredParts(parts: seq<seq<Terms>>, global: Corpus, terms: seq<string>, mode: Mode, scorer: Scorer, n: nat)
    : seq<(Terms, real)>
    requires n <= |parts|
  {
    if n == 0 then []
    else
      var part := parts[n - 1];
      ScoredParts(parts, global, terms, mode, scorer, n - 1)
      + ScoredDocs(BasisOf(scorer, Some(global), part), Dfs(Some(global), part, terms), part, terms, mode)
  }

  lemma {:induction false} PartsAddUp(parts: seq<seq<Terms>>, terms: seq<string>, mode: Mode, scorer: Scorer, n: nat)
    requires n <= |parts|
    ensures var all := Flatten(parts);
      ScoredParts(parts, GlobalCorpus(parts, terms, scorer), terms, mode, scorer, n)
      == ScoredDocs(BasisOf(scorer, None, all), Dfs(None, all, terms), Flatten(parts[..n]), terms, mode)
  {
    hide BasisOf, Dfs, GlobalCorpus;
    DfsKeys(Flatten(parts), terms);
    if n > 0 {
      PartsAddUp(parts, terms, mode, scorer, n - 1);
      GlobalIsOwn(parts, parts[n - 1], terms, scorer);
      assert parts[..n][..n - 1] == parts[..n - 1];
      ScoredConcat(BasisOf(scorer, None, Flatten(parts)), Dfs(None, Flatten(parts), terms),
                   Flatten(parts[..n - 1]), parts[n - 1], terms, mode);
    }
  }

  lemma DfsKeys(docs: seq<Terms>, terms: seq<string>)
    ensures forall t :: t in terms ==> t in Dfs(None, docs, terms)
  {
  }

  lemma {:induction false} MatchesAddUp(parts: seq<seq<Terms>>, terms: seq<string>, mode: Mode)
    ensures MatchCount(parts, terms, mode) == |Matches(Flatten(parts), terms, mode)|
  {
    hide Satisfies;
    if parts != [] {
      var n := |parts| - 1;
      MatchesAddUp(parts[..n], terms, mode);
      MatchesConcat(Flatten(parts[..n]), parts[n], terms, mode);
    }
  }

  lemma {:induction false} MatchesConcat(a: seq<Terms>, b: seq<Terms>, terms: seq<string>, mode: Mode)
    ensures |Matches(a + b, terms, mode)| == |Matches(a, terms, mode)| + |Matches(b, terms, mode)|
  {
    hide Satisfies;
    if b == [] {
      assert a + b == a;
    } else {
      var n := |b| - 1;
      assert (a + b)[..|a + b| - 1] == a + b[..n];
      MatchesConcat(a, b[..n], terms, mode);
    }
  }

  /** Under global statistics every split of the documents scores them as the unsplit index does. */
  lemma PartsAreWhole(parts: seq<seq<Terms>>, terms: seq<string>, mode: Mode, scorer: Scorer)
    ensures var all := Flatten(parts);
      && ScoredParts(parts, GlobalCorpus(parts, terms, scorer), terms, mode, scorer, |parts|)
         == ScoredDocs(BasisOf(scorer, None, all), Dfs(None, all, terms), all, terms, mode)
      && MatchCount(parts, terms, mode) == |Matches(all, terms, mode)|
  {
    hide ScoredDocs, ScoredParts, BasisOf, Dfs, GlobalCorpus, Matches;
    PartsAddUp(parts, terms, mode, scorer, |parts|);
    assert parts[..|parts|] == parts;
    MatchesAddUp(parts, terms, mode);
  }

  // ---- what a ranking finds --------------------------------------------

  /** A hit as its document and score, wherever the document is kept. */
  function Found(contents: Contents): GlobalHit -> (Terms, real) {
    (h: GlobalHit) =>
      (if h.segment in contents && 0 <= h.doc < |contents[h.segment]| then contents[h.segment][h.doc] else [], h.score)
  }

  function FoundIn(docs: seq<Terms>): Hit -> (Terms, real) {
    (h: Hit) => (if 0 <= h.doc < |docs| then docs[h.doc] else [], h.score)
  }

  predicate AllStored(segments: seq<Segment>, contents: Contents) {
    forall i :: 0 <= i < |segments| ==> segments[i].meta.key in contents
  }

  lemma HitsFound(basis: Basis, dfs: map<string, nat>, docs: seq<Terms>, terms: seq<string>, mode: Mode)
    requires forall t :: t in terms ==> t in dfs
    ensures Map(FoundIn(docs), AllHits(basis, dfs, docs, terms, mode)) == ScoredDocs(basis, dfs, docs, terms, mode)
  {
    hide AllHits, ScoredDocs, Matches;
    ScoredDocsCount(basis, dfs, docs, terms, mode);
    var hits := AllHits(basis, dfs, docs, terms, mode);
    forall k | 0 <= k < |hits|
      ensures FoundIn(docs)(hits[k]) == ScoredDocs(basis, dfs, docs, terms, mode)[k]
    {
      ScoredDocsAreHits(basis, dfs, docs, terms, mode, k);
    }
  }

  lemma LabelledFound(contents: Contents, key: string, hits: seq<Hit>)
    requires key in contents
    ensures Map(Found(contents), Map(Label(key), hits)) == Map(FoundIn(contents[key]), hits)
  {
  }

  lemma {:induction false} EachFound(segments: seq<Segment>, contents: Contents, terms: seq<string>, mode: Mode,
                                     scorer: Scorer, corpus: Corpus, n: nat)
    requires AllStored(segments, contents) && n <= |segments|
    ensures Map(Found(contents), Flatten(HitsOfEach(segments, contents, terms, mode, scorer, Some(corpus))[..n]))
         == ScoredParts(DocsIn(contents, segments), corpus, terms, mode, scorer, n)
  {
    hide AllHits, ScoredDocs, BasisOf, Dfs, Found, FoundIn, Label, Flatten;
    var each := HitsOfEach(segments, contents, terms, mode, scorer, Some(corpus));
    if n == 0 {
      NoParts(each[..0]);
    } else {
      var key := segments[n - 1].meta.key;
      var docs := contents[key];
      EachFound(segments, contents, terms, mode, scorer, corpus, n - 1);
      FlattenSnoc(each, n - 1);
      MapConcat(Found(contents), Flatten(each[..n - 1]), each[n - 1]);
      var (basis, dfs) := (BasisOf(scorer, Some(corpus), docs), Dfs(Some(corpus), docs, terms));
      LabelledFound(contents, key, AllHits(basis, dfs, docs, terms, mode));
      HitsFound(basis, dfs, docs, terms, mode);
    }
  }

  lemma NoParts<T>(parts: seq<seq<T>>)
    requires parts == []
    ensures Flatten(parts) == []
  {
  }

  /** The ranking under global statistics, read as documents and scores. */
  function Findings(segments: seq<Segment>, contents: Contents, tokens: seq<string>, mode: Mode, scorer: Scorer)
    : seq<(Terms, real)>
  {
    var (parts, terms) := (DocsIn(contents, segments), QueryTerms(tokens));
    Map(Found(contents), FullRanking(segments, contents, terms, mode, scorer, CorpusFor(parts, tokens, true, scorer)))
  }

  /** One unsplit index's own ranking, read in the same way. */
  function OwnFindings(docs: seq<Terms>, tokens: seq<string>, mode: Mode, scorer: Scorer): seq<(Terms, real)> {
    Map(FoundIn(docs), Ranked(docs, QueryTerms(tokens), mode, scorer, None))
  }

  lemma FindingsAreScored(segments: seq<Segment>, contents: Contents, tokens: seq<string>, mode: Mode, scorer: Scorer)
    requires AllStored(segments, contents)
    ensures var (parts, terms) := (DocsIn(contents, segments), QueryTerms(tokens));
      multiset(Findings(segments, contents, tokens, mode, scorer))
      == multiset(ScoredParts(parts, GlobalCorpus(parts, terms, scorer), terms, mode, scorer, |parts|))
  {
    hide QueryTerms, Sort, Flatten, HitsOfEach, GlobalCorpus, Found, Map, DocsIn, ScoredParts, AllStored, Ahead;
    var (parts, terms) := (DocsIn(contents, segments), QueryTerms(tokens));
    var corpus := GlobalCorpus(parts, terms, scorer);
    var each := HitsOfEach(segments, contents, terms, mode, scorer, Some(corpus));
    EachFound(segments, contents, terms, mode, scorer, corpus, |segments|);
    assert each[..|segments|] == each;
    MapPermutes(Found(contents), Sort(Flatten(each), Ahead), Flatten(each));
  }

  lemma OwnFindingsAreScored(docs: seq<Terms>, tokens: seq<string>, mode: Mode, scorer: Scorer)
    ensures var terms := QueryTerms(tokens);
      multiset(OwnFindings(docs, tokens, mode, scorer))
      == multiset(ScoredDocs(BasisOf(scorer, None, docs), Dfs(None, docs, terms), docs, terms, mode))
  {
    hide QueryTerms, Sort, AllHits, FoundIn, Map, ScoredDocs, Better, BasisOf, Dfs;
    var terms := QueryTerms(tokens);
    DfsKeys(docs, terms);
    var (basis, dfs) := (BasisOf(scorer, None, docs), Dfs(None, docs, terms));
    var hits := AllHits(basis, dfs, docs, terms, mode);
    HitsFound(basis, dfs, docs, terms, mode);
    MapPermutes(FoundIn(docs), Sort(hits, Better), hits);
  }

  // ---- scores, rank by rank --------------------------------------------

  predicate Higher(a: real, b: real) { a >= b }

  function ScoresOf(found: seq<(Terms, real)>): seq<real> {
    Map((f: (Terms, real)) => f.1, found)
  }

  function HitScores(hits: seq<GlobalHit>): seq<real> {
    Map((h: GlobalHit) => h.score, hits)
  }

  /** The same documents with the same scores, and the same score at every rank. */
  ghost predicate SameFindings(a: seq<(Terms, real)>, b: seq<(Terms, real)>) {
    multiset(a) == multiset(b) && ScoresOf(a) == ScoresOf(b)
  }

  lemma RankedByScore(a: seq<(Terms, real)>, b: seq<(Terms, real)>)
    requires multiset(a) == multiset(b) && SortedBy(ScoresOf(a), Higher) && SortedBy(ScoresOf(b), Higher)
    ensures SameFindings(a, b)
  {
    MapPermutes((f: (Terms, real)) => f.1, a, b);
    SortedUnique(ScoresOf(a), ScoresOf(b), Higher);
  }

  lemma FindingsSorted(segments: seq<Segment>, contents: Contents, tokens: seq<string>, mode: Mode, scorer: Scorer)
    ensures SortedBy(ScoresOf(Findings(segments, contents, tokens, mode, scorer)), Higher)
  {
    hide QueryTerms, Sort, HitsOfEach, DocsIn, Flatten;
    AheadTotal();
    var (parts, terms) := (DocsIn(contents, segments), QueryTerms(tokens));
    SortSorted(Flatten(HitsOfEach(segments, contents, terms, mode, scorer, CorpusFor(parts, tokens, true, scorer))), Ahead);
  }

  lemma OwnFindingsSorted(docs: seq<Terms>, tokens: seq<string>, mode: Mode, scorer: Scorer)
    ensures SortedBy(ScoresOf(OwnFindings(docs, tokens, mode, scorer)), Higher)
  {
    hide QueryTerms, Sort, AllHits, BasisOf, Dfs;
    var terms := QueryTerms(tokens);
    DfsKeys(docs, terms);
    SortSorted(AllHits(BasisOf(scorer, None, docs), Dfs(None, docs, terms), docs, terms, mode), Better);
  }

  /**
   Sharding invariance: whatever segments the documents are split into, and in whatever order they are
   listed, a search with global statistics ranks the documents one unsplit index does, with the
   scores it gives them, at every rank, and reports its total.
   */
  lemma ShardingInvariance(segments: seq<Segment>, contents: Contents, tokens: seq<string>, mode: Mode, scorer: Scorer)
    requires AllStored(segments, contents)
    ensures var all := Flatten(DocsIn(contents, segments));
      && SameFindings(Findings(segments, contents, tokens, mode, scorer), OwnFindings(all, tokens, mode, scorer))
      && MatchCount(DocsIn(contents, segments), QueryTerms(tokens), mode)
         == BruteForce(all, tokens, mode, scorer, None, 0).total
  {
    hide Findings, OwnFindings, ScoredParts, ScoredDocs, QueryTerms, Flatten, DocsIn, BasisOf, Dfs, GlobalCorpus;
    hide SameFindings, Matches, MatchCount, Ranked, AllStored;
    var parts := DocsIn(contents, segments);
    var all := Flatten(parts);
    PartsAreWhole(parts, QueryTerms(tokens), mode, scorer);
    FindingsAreScored(segments, contents, tokens, mode, scorer);
    OwnFindingsAreScored(all, tokens, mode, scorer);
    FindingsSorted(segments, contents, tokens, mode, scorer);
    OwnFindingsSorted(all, tokens, mode, scorer);
    RankedByScore(Findings(segments, contents, tokens, mode, scorer), OwnFindings(all, tokens, mode, scorer));
  }

  lemma {:induction false} NoWindow(segments: seq<Segment>)
    ensures Surviving(segments, None, None) == segments
  {
    if segments != [] {
      NoWindow(segments[..|segments| - 1]);
    }
  }

  /** A page of an answer, score by score, is a page of the findings. */
  lemma PageScores(segments: seq<Segment>, contents: Contents, tokens: seq<string>, topK: int, offset: nat, mode: Mode,
                   scorer: Scorer)
    ensures var answer := Answer(segments, contents, tokens, topK, offset, mode, None, None, true, scorer);
      && HitScores(answer.hits) == Page(ScoresOf(Findings(segments, contents, tokens, mode, scorer)), offset, topK)
      && answer.total == MatchCount(DocsIn(contents, segments), QueryTerms(tokens), mode)
  {
    hide QueryTerms, DocsIn, FullRanking, MatchCount, Surviving, CorpusFor, Page;
    NoWindow(segments);
    var (parts, terms) := (DocsIn(contents, segments), QueryTerms(tokens));
    var ranking := FullRanking(segments, contents, terms, mode, scorer, CorpusFor(parts, tokens, true, scorer));
    var score := (h: GlobalHit) => h.score;
    MapPage(score, ranking, offset, topK);
    assert Map(score, ranking) == ScoresOf(Map(Found(contents), ranking));
  }

  // ---- reshaping, as compaction does -----------------------------------

  /** The two document lists agree on every statistic and on the scored matches. */
  predicate Alike(a: seq<Terms>, b: seq<Terms>, t: string, basis: Basis, dfs: map<string, nat>, terms: seq<string>, mode: Mode)
    requires forall u :: u in terms ==> u in dfs
  {
    && |a| == |b| && Sum(Lengths(a)) == Sum(Lengths(b)) && |PostingIds(a, t)| == |PostingIds(b, t)|
    && multiset(ScoredDocs(basis, dfs, a, terms, mode)) == multiset(ScoredDocs(basis, dfs, b, terms, mode))
  }

  /** They depend on which documents there are, not on their order. */
  lemma {:induction false} OrderIrrelevant(a: seq<Terms>, b: seq<Terms>, t: string, basis: Basis, dfs: map<string, nat>,
                                           terms: seq<string>, mode: Mode)
    requires multiset(a) == multiset(b) && forall u :: u in terms ==> u in dfs
    ensures Alike(a, b, t, basis, dfs, terms, mode)
  {
    assert |multiset(a)| == |a| && |multiset(b)| == |b|;
    if a == [] {
      assert b == [];
    } else {
      hide Alike;
      var n := |a| - 1;
      assert a == a[..n] + [a[n]];
      assert a[n] in multiset(b);
      var k :| 0 <= k < |b| && b[k] == a[n];
      Removed(b, k);
      assert multiset(a[..n]) == multiset(a) - multiset{a[n]};
      OrderIrrelevant(a[..n], b[..k] + b[k + 1..], t, basis, dfs, terms, mode);
      AlikeGrows(a[..n], a[n], b[..k], b[k + 1..], t, basis, dfs, terms, mode);
    }
  }

  lemma AlikeGrows(init: seq<Terms>, doc: Terms, left: seq<Terms>, right: seq<Terms>, t: string, basis: Basis,
                   dfs: map<string, nat>, terms: seq<string>, mode: Mode)
    requires forall u :: u in terms ==> u in dfs
    requires Alike(init, left + right, t, basis, dfs, terms, mode)
    ensures Alike(init + [doc], left + ([doc] + right), t, basis, dfs, terms, mode)
  {
    hide Lengths, PostingIds, ScoredDocs, Sum;
    Parted(init, doc, [], t, basis, dfs, terms, mode);
    assert init + ([doc] + []) == init + [doc] && init + [] == init;
    Parted(left, doc, right, t, basis, dfs, terms, mode);
  }

  lemma Parted(left: seq<Terms>, doc: Terms, right: seq<Terms>, t: string, basis: Basis, dfs: map<string, nat>,
               terms: seq<string>, mode: Mode)
    requires forall u :: u in terms ==> u in dfs
    ensures var (whole, rest) := (left + ([doc] + right), left + right);
      && Sum(Lengths(whole)) == Sum(Lengths(rest)) + Sum(Lengths([doc]))
      && |PostingIds(whole, t)| == |PostingIds(rest, t)| + |PostingIds([doc], t)|
      && multiset(ScoredDocs(basis, dfs, whole, terms, mode))
         == multiset(ScoredDocs(basis, dfs, rest, terms, mode)) + multiset(ScoredDocs(basis, dfs, [doc], terms, mode))
  {
    hide Lengths, PostingIds, ScoredDocs, Sum;
    LengthsConcat(left, [doc] + right);
    LengthsConcat([doc], right);
    LengthsConcat(left, right);
    PostingsConcat(left, [doc] + right, t);
    PostingsConcat([doc], right, t);
    PostingsConcat(left, right, t);
    ScoredConcat(basis, dfs, left, [doc] + right, terms, mode);
    ScoredConcat(basis, dfs, [doc], right, terms, mode);
    ScoredConcat(basis, dfs, left, right, terms, mode);
  }

  /** The unsplit index's findings depend on which documents there are, not on their order. */
  lemma OwnFindingsAlike(a: seq<Terms>, b: seq<Terms>, tokens: seq<string>, mode: Mode, scorer: Scorer)
    requires multiset(a) == multiset(b)
    ensures SameFindings(OwnFindings(a, tokens, mode, scorer), OwnFindings(b, tokens, mode, scorer))
    ensures |Matches(a, QueryTerms(tokens), mode)| == |Matches(b, QueryTerms(tokens), mode)|
  {
    hide QueryTerms, ScoredDocs, OwnFindings, Matches, PostingIds, Lengths, Sum, SameFindings, ScoresOf;
    var terms := QueryTerms(tokens);
    var (basis, dfs) := (BasisOf(scorer, None, a), Dfs(None, a, terms));
    forall t
      ensures |PostingIds(a, t)| == |PostingIds(b, t)|
    {
      OrderIrrelevant(a, b, t, basis, dfs, terms, mode);
    }
    OrderIrrelevant(a, b, "", basis, dfs, terms, mode);
    assert BasisOf(scorer, None, b) == basis && Dfs(None, b, terms) == dfs;
    ScoredDocsCount(basis, dfs, a, terms, mode);
    ScoredDocsCount(basis, dfs, b, terms, mode);
    var (x, y) := (ScoredDocs(basis, dfs, a, terms, mode), ScoredDocs(basis, dfs, b, terms, mode));
    assert |x| == |multiset(x)| == |multiset(y)| == |y|;
    OwnFindingsAreScored(a, tokens, mode, scorer);
    OwnFindingsAreScored(b, tokens, mode, scorer);
    OwnFindingsSorted(a, tokens, mode, scorer);
    OwnFindingsSorted(b, tokens, mode, scorer);
    RankedByScore(OwnFindings(a, tokens, mode, scorer), OwnFindings(b, tokens, mode, scorer));
  }

  /**
   Two sets of segments holding the same documents, however cut, kept and listed: a search with
   global statistics finds the same documents with the same scores, every page of it shows the
   same scores, and it reports the same total.
   */
  lemma ReshapingInvariance(before: seq<Segment>, kept: Contents, after: seq<Segment>, keptAfter: Contents,
                            tokens: seq<string>, topK: int, offset: nat, mode: Mode, scorer: Scorer)
    requires AllStored(before, kept) && AllStored(after, keptAfter)
    requires multiset(Flatten(DocsIn(kept, before))) == multiset(Flatten(DocsIn(keptAfter, after)))
    ensures SameFindings(Findings(before, kept, tokens, mode, scorer), Findings(after, keptAfter, tokens, mode, scorer))
    ensures var (a, b) := (Answer(before, kept, tokens, topK, offset, mode, None, None, true, scorer),
                           Answer(after, keptAfter, tokens, topK, offset, mode, None, None, true, scorer));
      HitScores(a.hits) == HitScores(b.hits) && a.total == b.total
  {
    hide QueryTerms, Findings, OwnFindings, Answer, Flatten, DocsIn, MatchCount, Matches, ScoresOf, HitScores, Page, Ranked;
    hide AllStored;
    ShardingInvariance(before, kept, tokens, mode, scorer);
    ShardingInvariance(after, keptAfter, tokens, mode, scorer);
    OwnFindingsAlike(Flatten(DocsIn(kept, before)), Flatten(DocsIn(keptAfter, after)), tokens, mode, scorer);
    PageScores(before, kept, tokens, topK, offset, mode, scorer);
    PageScores(after, keptAfter, tokens, topK, offset, mode, scorer);
  }
}
