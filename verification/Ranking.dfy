/** Scoring and ranking one index's matches: src/aether/index/base.py. */
module Ranking {
  import opened Prelude
  import opened Sorting
  import opened Postings
  import opened Memory
  import opened Blocked
  import opened BlockedReader
  import opened Matching

  /**
   The arithmetic of BM25, none of which is assumed: `add` stands for floating-point
   addition, so every result below holds of rounded sums as they are.
   */
  datatype Scorer = Scorer(
    add: (real, real) -> real,
    divide: (nat, nat) -> real,
    idf: (nat, nat) -> real,
    termScore: (nat, nat, real, real) -> real)

  /** Statistics handed in by the coordinator. */
  datatype Corpus = Corpus(numDocs: nat, avgLength: real, dfs: map<string, nat>)

  /** The statistics one search scores with. */
  datatype Basis = Basis(scorer: Scorer, numDocs: nat, avgLength: real)

  function AvgLength(scorer: Scorer, total: nat, docs: nat): real {
    if docs == 0 then 0.0 else scorer.divide(total, docs)
  }

  function BasisOf(scorer: Scorer, corpus: Option<Corpus>, docs: seq<Terms>): Basis {
    match corpus
    case Some(c) => Basis(scorer, c.numDocs, c.avgLength)
    case None => Basis(scorer, |docs|, AvgLength(scorer, Sum(Lengths(docs)), |docs|))
  }

  function DfOf(corpus: Option<Corpus>, t: string, own: nat): nat {
    if corpus.Some? && t in corpus.value.dfs then corpus.value.dfs[t] else own
  }

  /** What one term adds to a document's score. */
  function Gain(basis: Basis, df: nat, freq: nat, length: nat): real {
    basis.scorer.termScore(freq, length, basis.avgLength, basis.scorer.idf(basis.numDocs, df))
  }

  // ---- the score of one document ---------------------------------------

  /** A score after one more term, read off the document. */
  function Scored(basis: Basis, df: nat, doc: Terms, t: string, before: real): real {
    if t in doc then basis.scorer.add(before, Gain(basis, df, multiset(doc)[t], |doc|)) else before
  }

  /** The sum of the document's matching terms' contributions, in term order. */
  function ScoreOf(basis: Basis, dfs: map<string, nat>, doc: Terms, terms: seq<string>): real
    requires forall t :: t in terms ==> t in dfs
  {
    if terms == [] then 0.0
    else
      var last := terms[|terms| - 1];
      Scored(basis, dfs[last], doc, last, ScoreOf(basis, dfs, doc, terms[..|terms| - 1]))
  }

  /** The document frequencies one search uses. */
  function Dfs(corpus: Option<Corpus>, docs: seq<Terms>, terms: seq<string>): (m: map<string, nat>)
    ensures m.Keys == set t | t in terms
  {
    map t | t in terms :: DfOf(corpus, t, |PostingIds(docs, t)|)
  }

  // ---- one pass over one list ------------------------------------------

  type Scores = map<int, real>

  function Bumped(basis: Basis, df: nat, ids: seq<int>, freqs: seq<nat>, length: nat, doc: int, before: real): real
    requires |ids| == |freqs|
  {
    if doc in ids then basis.scorer.add(before, Gain(basis, df, FreqOf(ids, freqs, doc), length)) else before
  }

  /** The merge walk of `_accumulate` over one posting list. */
  method AddList(scores: Scores, candidates: seq<int>, basis: Basis, df: nat, ids: seq<int>, freqs: seq<nat>,
                 lengths: seq<nat>) returns (out: Scores)
    requires Ascending(ids) && |ids| == |freqs| && Ascending(candidates)
    requires forall c :: c in candidates ==> c in scores && 0 <= c < |lengths|
    ensures out.Keys == scores.Keys
    ensures forall c :: c in candidates ==> out[c] == Bumped(basis, df, ids, freqs, lengths[c], c, scores[c])
  {
    hide Bumped, Gain, FreqOf, Ascending, Split;
    out := scores;
    var i, j := 0, 0;
    SplitStart(ids, candidates);
    forall k | 0 <= k < |candidates|
      ensures candidates[k] in scores && 0 <= candidates[k] < |lengths|
    {
      assert candidates[k] in candidates;
    }
    while i < |ids| && j < |candidates|
      invariant 0 <= i <= |ids| && 0 <= j <= |candidates|
      invariant Split(ids, i, candidates, j)
      invariant out.Keys == scores.Keys
      invariant forall k :: 0 <= k < |candidates| ==> candidates[k] in scores && 0 <= candidates[k] < |lengths|
      invariant forall k :: 0 <= k < j ==>
        var c := candidates[k]; out[c] == Bumped(basis, df, ids, freqs, lengths[c], c, scores[c])
      invariant forall k :: j <= k < |candidates| ==> out[candidates[k]] == scores[candidates[k]]
      decreases |ids| - i + |candidates| - j
    {
      var (id, c) := (ids[i], candidates[j]);
      ApartFrom(candidates, j);
      if id == c {
        SplitBoth(ids, i, candidates, j);
        BumpedHere(basis, df, ids, freqs, lengths[c], i, scores[c]);
        out := out[c := basis.scorer.add(out[c], Gain(basis, df, freqs[i], lengths[c]))];
        i, j := i + 1, j + 1;
      } else if id < c {
        SplitSkip(ids, i, candidates, j);
        i := i + 1;
      } else {
        NotListed(ids, i, candidates, j);
        NotBumped(basis, df, ids, freqs, lengths[c], c, scores[c]);
        SplitSym(ids, i, candidates, j);
        SplitSkip(candidates, j, ids, i);
        SplitSym(candidates, j + 1, ids, i);
        j := j + 1;
      }
    }
    forall k | j <= k < |candidates|
      ensures var c := candidates[k]; scores[c] == Bumped(basis, df, ids, freqs, lengths[c], c, scores[c])
    {
      RestNotListed(ids, candidates, j, k);
      NotBumped(basis, df, ids, freqs, lengths[candidates[k]], candidates[k], scores[candidates[k]]);
    }
    forall c | c in candidates
      ensures out[c] == Bumped(basis, df, ids, freqs, lengths[c], c, scores[c])
    {
      var k :| 0 <= k < |candidates| && candidates[k] == c;
    }
  }

  lemma SplitStart(a: seq<int>, b: seq<int>)
    ensures Split(a, 0, b, 0)
  {
  }

  lemma ApartFrom(s: seq<int>, j: nat)
    requires Ascending(s) && j < |s|
    ensures forall k :: 0 <= k < |s| && k != j ==> s[k] != s[j]
  {
  }

  lemma NotListed(a: seq<int>, i: nat, b: seq<int>, j: nat)
    requires Ascending(a) && i < |a| && j < |b| && Split(a, i, b, j) && b[j] < a[i]
    ensures b[j] !in a
  {
    forall k | 0 <= k < |a| ensures a[k] != b[j] { assert k < i || a[i] <= a[k]; }
  }

  lemma RestNotListed(a: seq<int>, b: seq<int>, j: nat, k: nat)
    requires j <= k < |b| && Split(a, |a|, b, j)
    ensures b[k] !in a
  {
  }

  lemma BumpedHere(basis: Basis, df: nat, ids: seq<int>, freqs: seq<nat>, length: nat, i: nat, before: real)
    requires |ids| == |freqs| && Ascending(ids) && i < |ids|
    ensures Bumped(basis, df, ids, freqs, length, ids[i], before)
         == basis.scorer.add(before, Gain(basis, df, freqs[i], length))
  {
    FreqOfAt(ids, freqs, i);
  }

  lemma NotBumped(basis: Basis, df: nat, ids: seq<int>, freqs: seq<nat>, length: nat, doc: int, before: real)
    requires |ids| == |freqs| && doc !in ids
    ensures Bumped(basis, df, ids, freqs, length, doc, before) == before
  {
  }

  /** What a faithful list adds is what the document says. */
  lemma BumpedIsScored(basis: Basis, df: nat, docs: seq<Terms>, t: string, d: nat, before: real)
    requires d < |docs|
    ensures Bumped(basis, df, PostingIds(docs, t), PostingFreqs(docs, t), |docs[d]|, d, before)
         == Scored(basis, df, docs[d], t, before)
  {
    PostingMember(docs, t, d);
    PostingFreq(docs, t, d);
  }

  // ---- every list ------------------------------------------------------

  /** The sum the code builds, list by list. */
  ghost function FromLists(basis: Basis, corpus: Option<Corpus>, lists: seq<TermList>, length: nat, doc: int): real
    requires Usable(lists)
  {
    if lists == [] then 0.0
    else
      var n := |lists| - 1;
      var (t, p) := lists[n];
      UsableAt(lists, lists, n);
      Bumped(basis, DfOf(corpus, t, p.Df()), p.Ids(), p.Freqs(), length, doc,
             FromLists(basis, corpus, lists[..n], length, doc))
  }

  lemma FromNone(basis: Basis, corpus: Option<Corpus>, lists: seq<TermList>, length: nat, doc: int)
    requires lists == []
    ensures FromLists(basis, corpus, lists, length, doc) == 0.0
  {
  }

  lemma FromListsMore(basis: Basis, corpus: Option<Corpus>, lists: seq<TermList>, k: nat, length: nat, doc: int)
    requires Usable(lists) && k < |lists|
    ensures Usable(lists[..k]) && Usable(lists[..k + 1])
    ensures var (t, p) := lists[k];
      && p.Faithful() && |p.Ids()| == |p.Freqs()|
      && FromLists(basis, corpus, lists[..k + 1], length, doc)
         == Bumped(basis, DfOf(corpus, t, p.Df()), p.Ids(), p.Freqs(), length, doc,
                   FromLists(basis, corpus, lists[..k], length, doc))
  {
    hide Bumped, Represents, Whole;
    UsableAt(lists, lists, k);
    assert lists[..k + 1][..k] == lists[..k];
  }

  /** `_accumulate`. */
  method Accumulate(lists: seq<TermList>, candidates: seq<int>, basis: Basis, corpus: Option<Corpus>, lengths: seq<nat>)
    returns (scores: Scores)
    requires Usable(lists) && AllValid(Readers(lists)) && Ascending(candidates)
    requires forall c :: c in candidates ==> 0 <= c < |lengths|
    modifies Readers(lists)
    ensures AllValid(Readers(lists))
    ensures scores.Keys == set c | c in candidates
    ensures forall c :: c in candidates ==> scores[c] == FromLists(basis, corpus, lists, lengths[c], c)
  {
    hide Represents, Whole, Ascending, Bumped, FromLists;
    scores := map c | c in candidates :: 0.0;
    forall c | c in candidates
      ensures FromLists(basis, corpus, lists[..0], lengths[c], c) == 0.0
    {
      FromNone(basis, corpus, lists[..0], lengths[c], c);
    }
    for k := 0 to |lists|
      invariant AllValid(Readers(lists))
      invariant scores.Keys == set c | c in candidates
      invariant forall c :: c in candidates ==> scores[c] == FromLists(basis, corpus, lists[..k], lengths[c], c)
    {
      var (t, p) := lists[k];
      UsableAt(lists, lists, k);
      var ids := ReadIds(p);
      var freqs := ReadFreqs(p);
      var next := AddList(scores, candidates, basis, DfOf(corpus, t, p.Df()), ids, freqs, lengths);
      forall c | c in candidates
        ensures next[c] == FromLists(basis, corpus, lists[..k + 1], lengths[c], c)
      {
        FromListsMore(basis, corpus, lists, k, lengths[c], c);
      }
      scores := next;
    }
    assert lists[..|lists|] == lists;
  }

  /** The lists of an index that answers for `docs` add up to the document's score. */
  lemma {:induction false} FromListsIsScore(basis: Basis, corpus: Option<Corpus>, index: Index, docs: seq<Terms>,
                                            all: seq<string>, terms: seq<string>, d: nat)
    requires Answers(index, docs) && d < |docs| && Usable(Present(index, terms))
    requires forall t :: t in terms ==> t in all
    ensures FromLists(basis, corpus, Present(index, terms), |docs[d]|, d)
         == ScoreOf(basis, Dfs(corpus, docs, all), docs[d], terms)
  {
    hide Bumped, Scored, Vocabulary, PostingIds, PostingFreqs, Gain;
    if terms != [] {
      var n := |terms| - 1;
      var (t, lists) := (terms[n], Present(index, terms[..n]));
      PresentUsable(index, docs, terms[..n]);
      FromListsIsScore(basis, corpus, index, docs, all, terms[..n], d);
      var before := ScoreOf(basis, Dfs(corpus, docs, all), docs[d], terms[..n]);
      if t in index {
        var p := (t, index[t]);
        assert Present(index, terms) == lists + [p];
        assert (lists + [p])[..|lists|] == lists;
        BumpedIsScored(basis, DfOf(corpus, t, index[t].Df()), docs, t, d, before);
      } else {
        assert Present(index, terms) == lists;
        NotIndexed(basis, Dfs(corpus, docs, all)[t], docs, t, d, before);
      }
    }
  }

  lemma NotIndexed(basis: Basis, df: nat, docs: seq<Terms>, t: string, d: nat, before: real)
    requires t !in Vocabulary(docs) && d < |docs|
    ensures Scored(basis, df, docs[d], t, before) == before
  {
  }

  // ---- ranking ---------------------------------------------------------

  datatype Hit = Hit(doc: int, score: real)

  datatype SearchResult = SearchResult(hits: seq<Hit>, total: nat)

  /** Best score first, ties by ascending document id. */
  predicate Better(a: Hit, b: Hit) {
    a.score > b.score || (a.score == b.score && a.doc <= b.doc)
  }

  /** Every match of the scan with the score read off its document. */
  function AllHits(basis: Basis, dfs: map<string, nat>, docs: seq<Terms>, terms: seq<string>, mode: Mode): (r: seq<Hit>)
    requires forall t :: t in terms ==> t in dfs
    ensures |r| == |Matches(docs, terms, mode)|
  {
    var matches := Matches(docs, terms, mode);
    seq(|matches|, k requires 0 <= k < |matches| => HitFor(basis, dfs, docs, terms, matches[k]))
  }

  function HitFor(basis: Basis, dfs: map<string, nat>, docs: seq<Terms>, terms: seq<string>, d: nat): Hit
    requires forall t :: t in terms ==> t in dfs
  {
    Hit(d, if d < |docs| then ScoreOf(basis, dfs, docs[d], terms) else 0.0)
  }

  /** The whole ranking, by brute force over the documents. */
  function Ranked(docs: seq<Terms>, terms: seq<string>, mode: Mode, scorer: Scorer, corpus: Option<Corpus>): seq<Hit> {
    Sort(AllHits(BasisOf(scorer, corpus, docs), Dfs(corpus, docs, terms), docs, terms, mode), Better)
  }

  function BruteForce(docs: seq<Terms>, tokens: seq<string>, mode: Mode, scorer: Scorer, corpus: Option<Corpus>, topK: int)
    : SearchResult
  {
    var terms := QueryTerms(tokens);
    SearchResult(Take(Ranked(docs, terms, mode, scorer, corpus), topK), |Matches(docs, terms, mode)|)
  }

  /** Matching as `search` does it: the lists, and the candidates in all or any of them. */
  method Candidates(index: Index, ghost docs: seq<Terms>, tokens: seq<string>, mode: Mode)
    returns (lists: seq<TermList>, candidates: seq<int>)
    requires Answers(index, docs) && AllValid(IndexReaders(index))
    modifies IndexReaders(index)
    ensures AllValid(IndexReaders(index))
    ensures candidates == Matches(docs, QueryTerms(tokens), mode)
    ensures candidates != [] ==> lists == Present(index, QueryTerms(tokens))
  {
    hide Present, QueryTerms, Matches, Vocabulary, PostingIds, PostingFreqs, MeetOfAll, JoinOfAll, Usable;
    ghost var terms := QueryTerms(tokens);
    var complete;
    lists, complete := PostingsFor(index, tokens, mode == And);
    QueryTermsExact(tokens);
    PresentUsable(index, docs, terms);
    if lists == [] || !complete {
      NothingListed(index, docs, terms, mode, complete);
      return lists, [];
    }
    if mode == And {
      candidates := IntersectAll(lists);
      NonEmptyTerms(index, terms);
      MeetIsMatch(index, docs, terms, candidates);
    } else {
      candidates := UnionAll(lists);
      JoinIsMatch(index, docs, terms, candidates);
    }
  }

  lemma NonEmptyTerms(index: Index, terms: seq<string>)
    requires Present(index, terms) != []
    ensures terms != []
  {
  }

  lemma NothingListed(index: Index, docs: seq<Terms>, terms: seq<string>, mode: Mode, complete: bool)
    requires Answers(index, docs)
    requires complete <==> (mode == And ==> forall t :: t in terms ==> t in index)
    requires complete ==> Present(index, terms) == []
    ensures Matches(docs, terms, mode) == []
  {
    hide Present, Vocabulary, PostingIds, PostingFreqs, Matches;
    if mode == Or {
      EmptyUnion(index, terms);
      JoinIsMatch(index, docs, terms, []);
    } else {
      if complete { PresentLength(index, terms); }
      NothingMatches(docs, terms);
    }
  }

  lemma EmptyUnion(index: Index, terms: seq<string>)
    requires Present(index, terms) == []
    ensures JoinOfAll([], Present(index, terms))
  {
  }

  /** `search` returns the top of the brute-force ranking, and how many matched in all. */
  method Search(index: Index, ghost docs: seq<Terms>, lengths: seq<nat>, tokens: seq<string>, topK: int, mode: Mode,
                scorer: Scorer, corpus: Option<Corpus>) returns (r: SearchResult)
    requires Answers(index, docs) && AllValid(IndexReaders(index)) && lengths == Lengths(docs)
    modifies IndexReaders(index)
    ensures AllValid(IndexReaders(index))
    ensures r == BruteForce(docs, tokens, mode, scorer, corpus, topK)
  {
    hide Present, QueryTerms, Matches, Vocabulary, PostingIds, PostingFreqs, Usable, AllHits, Sort, FromLists, Lengths;
    hide Ascending, Sum;
    ghost var terms := QueryTerms(tokens);
    var lists, candidates := Candidates(index, docs, tokens, mode);
    if candidates == [] {
      NoHits(docs, terms, mode, scorer, corpus);
      return SearchResult([], 0);
    }
    PresentUsable(index, docs, terms);
    var basis := match corpus
      case Some(c) => Basis(scorer, c.numDocs, c.avgLength)
      case None => Basis(scorer, |lengths|, AvgLength(scorer, Sum(lengths), |lengths|));
    LengthsAre(docs);
    MatchesAscend(docs, terms, mode);
    CandidatesWithin(docs, terms, mode);
    var scores := Accumulate(lists, candidates, basis, corpus, lengths);
    var hits := seq(|candidates|, k requires 0 <= k < |candidates| =>
      (assert candidates[k] in candidates; Hit(candidates[k], scores[candidates[k]])));
    HitsExact(index, docs, terms, mode, basis, corpus, candidates, scores, hits);
    r := SearchResult(Take(Sort(hits, Better), topK), |candidates|);
  }

  lemma LengthsAre(docs: seq<Terms>)
    ensures |Lengths(docs)| == |docs| && forall d :: 0 <= d < |docs| ==> Lengths(docs)[d] == |docs[d]|
  {
  }

  lemma NoHits(docs: seq<Terms>, terms: seq<string>, mode: Mode, scorer: Scorer, corpus: Option<Corpus>)
    requires Matches(docs, terms, mode) == []
    ensures Ranked(docs, terms, mode, scorer, corpus) == []
  {
  }

  lemma CandidatesWithin(docs: seq<Terms>, terms: seq<string>, mode: Mode)
    ensures forall c :: c in Matches(docs, terms, mode) ==> 0 <= c < |docs|
  {
    hide Matches;
    forall c | c in Matches(docs, terms, mode)
      ensures 0 <= c < |docs|
    {
      MatchesMember(docs, terms, mode, c);
    }
  }

  lemma HitsExact(index: Index, docs: seq<Terms>, terms: seq<string>, mode: Mode, basis: Basis, corpus: Option<Corpus>,
                  candidates: seq<int>, scores: Scores, hits: seq<Hit>)
    requires Answers(index, docs) && Usable(Present(index, terms))
    requires candidates == Matches(docs, terms, mode) && |hits| == |candidates|
    requires forall c :: c in candidates ==> 0 <= c < |docs|
    requires forall c :: c in candidates ==> c in scores
    requires forall c :: c in candidates ==> scores[c] == FromLists(basis, corpus, Present(index, terms), |docs[c]|, c)
    requires forall k :: 0 <= k < |hits| ==> candidates[k] in candidates && hits[k] == Hit(candidates[k], scores[candidates[k]])
    ensures hits == AllHits(basis, Dfs(corpus, docs, terms), docs, terms, mode)
  {
    hide Present, Matches, Vocabulary, PostingIds, PostingFreqs, FromLists, ScoreOf, Usable, Dfs;
    forall k | 0 <= k < |hits|
      ensures hits[k] == HitFor(basis, Dfs(corpus, docs, terms), docs, terms, candidates[k])
    {
      assert candidates[k] in candidates;
      FromListsIsScore(basis, corpus, index, docs, terms, terms, candidates[k]);
    }
  }

  // ---- the score, written out ------------------------------------------

  /** The documents with `t` in them. */
  function Having(docs: seq<Terms>, t: string): set<nat> {
    set d: nat | d < |docs| && t in docs[d]
  }

  lemma {:induction false} PostingCount(docs: seq<Terms>, t: string)
    ensures |PostingIds(docs, t)| == |Having(docs, t)|
  {
    if docs == [] {
      assert Having(docs, t) == {};
    } else {
      var n := |docs| - 1;
      PostingCount(docs[..n], t);
      assert Having(docs, t) == Having(docs[..n], t) + if t in docs[n] then {n} else {};
    }
  }

  /** How many documents a term is in: as the corpus supplied says, or where it does not, of these. */
  function DocsWith(corpus: Option<Corpus>, docs: seq<Terms>, t: string): nat {
    match corpus
    case None => |Having(docs, t)|
    case Some(c) => if t in c.dfs then c.dfs[t] else |Having(docs, t)|
  }

  /**
   What a term a document has adds to its score: its occurrences, the document's length, the average length,
   and the weight of how many of how many documents have it. The figures are of the corpus supplied, or of
   these documents.
   */
  function Contribution(scorer: Scorer, corpus: Option<Corpus>, docs: seq<Terms>, doc: Terms, t: string): real
    requires docs != []
  {
    var (size, average) := match corpus
      case None => (|docs|, scorer.divide(Sum(Lengths(docs)), |docs|))
      case Some(c) => (c.numDocs, c.avgLength);
    scorer.termScore(multiset(doc)[t], |doc|, average, scorer.idf(size, DocsWith(corpus, docs, t)))
  }

  function Contributions(scorer: Scorer, corpus: Option<Corpus>, docs: seq<Terms>, doc: Terms, terms: seq<string>)
    : seq<real>
    requires docs != []
  {
    if terms == [] then []
    else
      var t := terms[|terms| - 1];
      Contributions(scorer, corpus, docs, doc, terms[..|terms| - 1])
      + if t in doc then [Contribution(scorer, corpus, docs, doc, t)] else []
  }

  lemma GainIs(scorer: Scorer, corpus: Option<Corpus>, docs: seq<Terms>, doc: Terms, t: string, all: seq<string>)
    requires docs != [] && t in all
    ensures BasisOf(scorer, corpus, docs).scorer == scorer
    ensures Gain(BasisOf(scorer, corpus, docs), Dfs(corpus, docs, all)[t], multiset(doc)[t], |doc|)
         == Contribution(scorer, corpus, docs, doc, t)
  {
    hide Sum, Lengths, PostingIds, Having;
    PostingCount(docs, t);
  }

  function AddUp(add: (real, real) -> real, parts: seq<real>): real {
    if parts == [] then 0.0 else add(AddUp(add, parts[..|parts| - 1]), parts[|parts| - 1])
  }

  /** A score, with each figure of the corpus in its place. */
  lemma {:induction false} ScoreWrittenOut(scorer: Scorer, corpus: Option<Corpus>, docs: seq<Terms>, doc: Terms,
                                           terms: seq<string>, all: seq<string>)
    requires docs != [] && forall t :: t in terms ==> t in all
    ensures ScoreOf(BasisOf(scorer, corpus, docs), Dfs(corpus, docs, all), doc, terms)
         == AddUp(scorer.add, Contributions(scorer, corpus, docs, doc, terms))
  {
    hide Gain, BasisOf, Dfs, Contribution;
    if terms != [] {
      var n := |terms| - 1;
      var before := Contributions(scorer, corpus, docs, doc, terms[..n]);
      ScoreWrittenOut(scorer, corpus, docs, doc, terms[..n], all);
      GainIs(scorer, corpus, docs, doc, terms[n], all);
      var after := Contributions(scorer, corpus, docs, doc, terms);
      if terms[n] in doc {
        assert after[..|after| - 1] == before;
      } else {
        assert after == before;
      }
    }
  }

  /** Every hit of a search carries the sum of its document's contributions, in term order. */
  lemma HitsWrittenOut(docs: seq<Terms>, tokens: seq<string>, mode: Mode, scorer: Scorer, corpus: Option<Corpus>, topK: int,
                       h: Hit)
    requires h in BruteForce(docs, tokens, mode, scorer, corpus, topK).hits
    ensures 0 <= h.doc < |docs| && Satisfies(docs[h.doc], QueryTerms(tokens), mode)
    ensures h.score == AddUp(scorer.add, Contributions(scorer, corpus, docs, docs[h.doc], QueryTerms(tokens)))
  {
    hide Sort, Matches, ScoreOf, Contributions, AddUp, QueryTerms, BasisOf, Dfs, Satisfies;
    var terms := QueryTerms(tokens);
    var hits := AllHits(BasisOf(scorer, corpus, docs), Dfs(corpus, docs, terms), docs, terms, mode);
    SortMember(hits, Better, h);
    var k :| 0 <= k < |hits| && hits[k] == h;
    CandidatesWithin(docs, terms, mode);
    assert Matches(docs, terms, mode)[k] in Matches(docs, terms, mode);
    MatchesMember(docs, terms, mode, h.doc);
    ScoreWrittenOut(scorer, corpus, docs, docs[h.doc], terms, terms);
  }
}
