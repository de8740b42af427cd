/** Query terms, posting lists and boolean matching: src/aether/index/base.py. */
module Matching {
  import opened Prelude
  import opened Sorting
  import opened Postings
  import opened Memory
  import opened Blocked
  import opened BlockedReader

  const SKIP_RATIO: nat := 128

  /** What `postings(term)` hands the query engine: a list in memory, or a segment's blocks. */
  datatype TermPostings = Plain(docIds: seq<nat>, tfs: seq<nat>) | Packed(reader: BlockedPostings) {
    function Df(): nat {
      match this
      case Plain(docIds, _) => |docIds|
      case Packed(reader) => reader.header.count
    }

    /** The list read whole. */
    function Ids(): seq<int> {
      match this
      case Plain(docIds, _) => docIds
      case Packed(reader) => if Sound(reader.header) && Whole(reader.header).Ok? then Whole(reader.header).value.ids else []
    }

    function Freqs(): seq<nat> {
      match this
      case Plain(_, tfs) => tfs
      case Packed(reader) => if Sound(reader.header) && Whole(reader.header).Ok? then Whole(reader.header).value.freqs else []
    }

    /** Decodable and in order, as every list the two indexes produce is. */
    ghost predicate Faithful() {
      && |Ids()| == |Freqs()| == Df() && Ascending(Ids())
      && (Packed? ==> Represents(reader.header, Ids(), Freqs()))
    }
  }

  type TermList = (string, TermPostings)

  ghost function Readers(lists: seq<TermList>): set<BlockedPostings> {
    set p | p in lists && p.1.Packed? :: p.1.reader
  }

  ghost predicate AllValid(readers: set<BlockedPostings>)
    reads readers
  {
    forall r :: r in readers ==> r.Valid()
  }

  // ---- the query -------------------------------------------------------

  datatype Mode = And | Or

  function Dedup(tokens: seq<string>): seq<string> {
    if tokens == [] then []
    else
      var before := Dedup(tokens[..|tokens| - 1]);
      var last := tokens[|tokens| - 1];
      if last in before then before else before + [last]
  }

  /** `sorted(set(tokenize(query)))`, from the tokens. */
  function QueryTerms(tokens: seq<string>): seq<string> {
    Sort(Dedup(tokens), StrLe)
  }

  lemma {:induction false} DedupMembers(tokens: seq<string>)
    ensures Distinct(Dedup(tokens)) && forall t :: t in Dedup(tokens) <==> t in tokens
  {
    if tokens != [] {
      DedupMembers(tokens[..|tokens| - 1]);
    }
  }

  /** Each term of the query once, in order. */
  lemma QueryTermsExact(tokens: seq<string>)
    ensures Distinct(QueryTerms(tokens)) && SortedBy(QueryTerms(tokens), StrLe)
    ensures forall t :: t in QueryTerms(tokens) <==> t in tokens
  {
    DedupMembers(tokens);
    StrOrder();
    SortSorted(Dedup(tokens), StrLe);
    DistinctPermutation(Dedup(tokens), QueryTerms(tokens));
    forall t
      ensures t in QueryTerms(tokens) <==> t in tokens
    {
      SortMember(Dedup(tokens), StrLe, t);
    }
  }

  /** What a match is, read off the document itself. A query with no terms matches nothing. */
  predicate Satisfies(doc: Terms, terms: seq<string>, mode: Mode) {
    match mode
    case And => terms != [] && forall t :: t in terms ==> t in doc
    case Or => exists t :: t in terms && t in doc
  }

  /** The brute-force scan. */
  function Matches(docs: seq<Terms>, terms: seq<string>, mode: Mode): seq<nat> {
    if docs == [] then []
    else
      var n := |docs| - 1;
      Matches(docs[..n], terms, mode) + if Satisfies(docs[n], terms, mode) then [n] else []
  }

  lemma {:induction false} MatchesMember(docs: seq<Terms>, terms: seq<string>, mode: Mode, d: int)
    ensures d in Matches(docs, terms, mode) <==> 0 <= d < |docs| && Satisfies(docs[d], terms, mode)
  {
    if docs != [] {
      MatchesMember(docs[..|docs| - 1], terms, mode, d);
    }
  }

  lemma {:induction false} MatchesAscend(docs: seq<Terms>, terms: seq<string>, mode: Mode)
    ensures Ascending(Matches(docs, terms, mode))
  {
    hide Satisfies;
    if docs != [] {
      var n := |docs| - 1;
      var before := Matches(docs[..n], terms, mode);
      MatchesAscend(docs[..n], terms, mode);
      forall d | d in before
        ensures d < n
      {
        MatchesMember(docs[..n], terms, mode, d);
      }
      AscendingSnoc(before, n);
    }
  }

  // ---- fetching --------------------------------------------------------

  type Index = map<string, TermPostings>

  /** The index answers every term as the documents do. */
  ghost predicate Answers(index: Index, docs: seq<Terms>) {
    && index.Keys == Vocabulary(docs)
    && forall t :: t in index ==>
      index[t].Faithful() && index[t].Ids() == PostingIds(docs, t) && index[t].Freqs() == PostingFreqs(docs, t)
  }

  /** The lists of the terms that have one. */
  function Present(index: Index, terms: seq<string>): seq<TermList> {
    if terms == [] then []
    else
      var last := terms[|terms| - 1];
      Present(index, terms[..|terms| - 1]) + if last in index then [(last, index[last])] else []
  }

  lemma {:induction false} PresentMember(index: Index, terms: seq<string>, p: TermList)
    ensures p in Present(index, terms) <==> p.0 in terms && p.0 in index && p.1 == index[p.0]
  {
    if terms != [] {
      PresentMember(index, terms[..|terms| - 1], p);
      assert terms == terms[..|terms| - 1] + [terms[|terms| - 1]];
    }
  }

  method PostingsFor(index: Index, tokens: seq<string>, requireAll: bool)
    returns (lists: seq<TermList>, complete: bool)
    ensures complete <==> (requireAll ==> forall t :: t in tokens ==> t in index)
    ensures lists == if complete then Present(index, QueryTerms(tokens)) else []
  {
    hide QueryTerms;
    var terms := QueryTerms(tokens);
    QueryTermsExact(tokens);
    if requireAll {
      for i := 0 to |terms|
        invariant forall k :: 0 <= k < i ==> terms[k] in index
      {
        if terms[i] !in index {
          assert terms[i] in tokens;
          return [], false;
        }
      }
    }
    lists := [];
    for i := 0 to |terms|
      invariant lists == Present(index, terms[..i])
    {
      assert terms[..i + 1][..i] == terms[..i];
      if terms[i] in index {
        lists := lists + [(terms[i], index[terms[i]])];
      }
    }
    assert terms[..|terms|] == terms;
    complete := true;
  }

  // ---- matching --------------------------------------------------------

  /** The lists as the two walks may take them. */
  ghost predicate Usable(lists: seq<TermList>) {
    forall p :: p in lists ==> p.1.Faithful()
  }

  ghost predicate InAll(x: int, lists: seq<TermList>) {
    forall p :: p in lists ==> x in p.1.Ids()
  }

  ghost predicate InSome(x: int, lists: seq<TermList>) {
    exists p :: p in lists && x in p.1.Ids()
  }

  ghost predicate MeetOfAll(result: seq<int>, lists: seq<TermList>) {
    Ascending(result) && forall x :: x in result <==> InAll(x, lists)
  }

  ghost predicate JoinOfAll(result: seq<int>, lists: seq<TermList>) {
    Ascending(result) && forall x :: x in result <==> InSome(x, lists)
  }

  method ReadIds(p: TermPostings) returns (ids: seq<int>)
    requires p.Faithful()
    requires p.Packed? ==> p.reader.Valid()
    modifies if p.Packed? then {p.reader} else {}
    ensures p.Packed? ==> p.reader.Valid()
    ensures ids == p.Ids()
  {
    hide Whole, DecodedBlock, Represents, Ascending;
    match p {
      case Plain(docIds, _) =>
        ids := docIds;
      case Packed(reader) =>
        WholeOk(p);
        var r := reader.DocIds();
        ids := r.value;
    }
  }

  method ReadFreqs(p: TermPostings) returns (freqs: seq<nat>)
    requires p.Faithful()
    requires p.Packed? ==> p.reader.Valid()
    modifies if p.Packed? then {p.reader} else {}
    ensures p.Packed? ==> p.reader.Valid()
    ensures freqs == p.Freqs()
  {
    hide Whole, DecodedBlock, Represents, Ascending;
    match p {
      case Plain(_, tfs) =>
        freqs := tfs;
      case Packed(reader) =>
        WholeOk(p);
        var r := reader.Freqs();
        freqs := r.value;
    }
  }

  lemma WholeOk(p: TermPostings)
    requires p.Faithful() && p.Packed?
    ensures Sound(p.reader.header) && Whole(p.reader.header) == Ok(Block(p.Ids(), p.Freqs()))
    ensures Represents(p.reader.header, p.Ids(), p.Freqs())
  {
    hide Whole, DecodedBlock;
    WholeIsAll(p.reader.header, p.Ids(), p.Freqs());
  }

  /** One step of `_intersect_all`: skip when the list is long enough, walk otherwise. */
  method Narrow(result: seq<int>, p: TermPostings) returns (out: seq<int>)
    requires Ascending(result) && p.Faithful()
    requires p.Packed? ==> p.reader.Valid()
    modifies if p.Packed? then {p.reader} else {}
    ensures p.Packed? ==> p.reader.Valid()
    ensures IsIntersection(out, result, p.Ids())
  {
    hide Whole, DecodedBlock, Represents, Ascending;
    if p.Packed? && result != [] && p.Df() >= |result| * SKIP_RATIO {
      WholeOk(p);
      out := IntersectSkipping(result, p.reader, p.Ids(), p.Freqs());
    } else {
      var ids := ReadIds(p);
      out := Intersect(result, ids);
    }
  }

  predicate ByDf(a: TermList, b: TermList) {
    a.1.Df() <= b.1.Df()
  }

  /** The documents in every list, whatever order and mix of walking and skipping is chosen. */
  method IntersectAll(lists: seq<TermList>) returns (result: seq<int>)
    requires lists != [] && Usable(lists) && AllValid(Readers(lists))
    modifies Readers(lists)
    ensures AllValid(Readers(lists))
    ensures MeetOfAll(result, lists)
  {
    hide Sort, Represents, Ascending, Whole;
    var ordered := Sort(lists, ByDf);
    SortLength(lists, ByDf);
    UsableAt(lists, ordered, 0);
    result := ReadIds(ordered[0].1);
    MeetFirst(ordered, result);
    for k := 1 to |ordered|
      invariant AllValid(Readers(lists))
      invariant MeetOfAll(result, ordered[..k])
    {
      UsableAt(lists, ordered, k);
      var narrowed := Narrow(result, ordered[k].1);
      MeetMore(result, ordered, k, narrowed);
      result := narrowed;
      if result == [] {
        MeetEmpty(ordered, k + 1);
        SameMeet(ordered, lists, result);
        return;
      }
    }
    assert ordered[..|ordered|] == ordered;
    SameMeet(ordered, lists, result);
  }

  lemma UsableAt(lists: seq<TermList>, ordered: seq<TermList>, k: nat)
    requires Usable(lists) && multiset(ordered) == multiset(lists) && k < |ordered|
    ensures var p := ordered[k].1;
      p.Faithful() && Ascending(p.Ids()) && (p.Packed? ==> p.reader in Readers(lists))
  {
    hide Represents, Whole, Ascending;
    assert ordered[k] in multiset(lists);
  }

  lemma SameMeet(ordered: seq<TermList>, lists: seq<TermList>, result: seq<int>)
    requires multiset(ordered) == multiset(lists) && MeetOfAll(result, ordered)
    ensures MeetOfAll(result, lists)
  {
    hide Ascending;
    forall x
      ensures InAll(x, ordered) <==> InAll(x, lists)
    {
      if InAll(x, ordered) {
        forall p | p in lists ensures x in p.1.Ids() { assert p in multiset(ordered); }
      }
      if InAll(x, lists) {
        forall p | p in ordered ensures x in p.1.Ids() { assert p in multiset(lists); }
      }
    }
  }

  lemma MeetFirst(ordered: seq<TermList>, ids: seq<int>)
    requires ordered != [] && ids == ordered[0].1.Ids() && Ascending(ids)
    ensures MeetOfAll(ids, ordered[..1])
  {
    hide Ascending;
    assert ordered[..1] == [ordered[0]];
    forall x
      ensures x in ids <==> InAll(x, ordered[..1])
    {
      if x in ids { assert InAll(x, ordered[..1]); }
      if InAll(x, ordered[..1]) { assert ordered[0] in ordered[..1]; }
    }
  }

  lemma MeetMore(result: seq<int>, ordered: seq<TermList>, k: nat, narrowed: seq<int>)
    requires k < |ordered| && MeetOfAll(result, ordered[..k])
    requires IsIntersection(narrowed, result, ordered[k].1.Ids())
    ensures MeetOfAll(narrowed, ordered[..k + 1])
  {
    hide Ascending;
    assert ordered[..k + 1] == ordered[..k] + [ordered[k]];
    forall x
      ensures InAll(x, ordered[..k + 1]) <==> InAll(x, ordered[..k]) && x in ordered[k].1.Ids()
    {
      if InAll(x, ordered[..k + 1]) { assert ordered[k] in ordered[..k + 1]; }
    }
  }

  lemma MeetEmpty(ordered: seq<TermList>, k: nat)
    requires k <= |ordered| && MeetOfAll([], ordered[..k])
    ensures MeetOfAll([], ordered)
  {
    hide Ascending;
    forall x
      ensures !InAll(x, ordered)
    {
      assert x !in [];
      assert !InAll(x, ordered[..k]);
    }
    assert Ascending([]);
  }

  method UnionAll(lists: seq<TermList>) returns (result: seq<int>)
    requires Usable(lists) && AllValid(Readers(lists))
    modifies Readers(lists)
    ensures AllValid(Readers(lists))
    ensures JoinOfAll(result, lists)
  {
    hide Represents, Whole;
    result := [];
    for k := 0 to |lists|
      invariant AllValid(Readers(lists))
      invariant JoinOfAll(result, lists[..k])
    {
      UsableAt(lists, lists, k);
      var ids := ReadIds(lists[k].1);
      var joined := Union(result, ids);
      JoinMore(result, lists, k, joined);
      result := joined;
    }
    assert lists[..|lists|] == lists;
  }

  lemma JoinMore(result: seq<int>, lists: seq<TermList>, k: nat, joined: seq<int>)
    requires k < |lists| && JoinOfAll(result, lists[..k])
    requires IsUnion(joined, result, lists[k].1.Ids())
    ensures JoinOfAll(joined, lists[..k + 1])
  {
    hide Ascending;
    assert lists[..k + 1] == lists[..k] + [lists[k]];
    forall x
      ensures InSome(x, lists[..k + 1]) <==> InSome(x, lists[..k]) || x in lists[k].1.Ids()
    {
      if x in lists[k].1.Ids() { assert lists[k] in lists[..k + 1]; }
      if InSome(x, lists[..k]) {
        var p :| p in lists[..k] && x in p.1.Ids();
        assert p in lists[..k + 1];
      }
    }
  }

  // ---- the two searches ------------------------------------------------

  ghost function IndexReaders(index: Index): set<BlockedPostings> {
    set t | t in index && index[t].Packed? :: index[t].reader
  }

  lemma PresentUsable(index: Index, docs: seq<Terms>, terms: seq<string>)
    requires Answers(index, docs)
    ensures Usable(Present(index, terms)) && Readers(Present(index, terms)) <= IndexReaders(index)
  {
    hide Present, PostingIds, PostingFreqs, Vocabulary;
    forall p | p in Present(index, terms)
      ensures p.1.Faithful() && p.0 in index && p.1 == index[p.0]
    {
      PresentMember(index, terms, p);
    }
  }

  lemma ListedIds(index: Index, docs: seq<Terms>, t: string, d: int)
    requires Answers(index, docs) && t in index
    ensures d in index[t].Ids() <==> 0 <= d < |docs| && t in docs[d]
  {
    hide PostingIds, PostingFreqs, Vocabulary;
    PostingMember(docs, t, d);
  }

  lemma Indexed(docs: seq<Terms>, t: string, d: nat)
    requires d < |docs| && t in docs[d]
    ensures t in Vocabulary(docs)
  {
  }

  lemma MeetIsMatch(index: Index, docs: seq<Terms>, terms: seq<string>, result: seq<int>)
    requires Answers(index, docs) && terms != [] && forall t :: t in terms ==> t in index
    requires MeetOfAll(result, Present(index, terms))
    ensures result == Matches(docs, terms, And)
  {
    hide Present, Vocabulary, PostingIds, PostingFreqs, Matches;
    var lists := Present(index, terms);
    forall d
      ensures InAll(d, lists) <==> 0 <= d < |docs| && Satisfies(docs[d], terms, And)
    {
      forall t | t in terms
        ensures (t, index[t]) in lists && (d in index[t].Ids() <==> 0 <= d < |docs| && t in docs[d])
      {
        PresentMember(index, terms, (t, index[t]));
        ListedIds(index, docs, t, d);
      }
      assert terms[0] in terms;
      if 0 <= d < |docs| && Satisfies(docs[d], terms, And) {
        forall p | p in lists
          ensures d in p.1.Ids()
        {
          PresentMember(index, terms, p);
        }
      }
    }
    forall d
      ensures d in Matches(docs, terms, And) <==> d in result
    {
      MatchesMember(docs, terms, And, d);
    }
    MatchesAscend(docs, terms, And);
    AscendingUnique(result, Matches(docs, terms, And));
  }

  lemma JoinIsMatch(index: Index, docs: seq<Terms>, terms: seq<string>, result: seq<int>)
    requires Answers(index, docs)
    requires JoinOfAll(result, Present(index, terms))
    ensures result == Matches(docs, terms, Or)
  {
    hide Present, Vocabulary, PostingIds, PostingFreqs, Matches;
    var lists := Present(index, terms);
    forall d
      ensures InSome(d, lists) <==> 0 <= d < |docs| && Satisfies(docs[d], terms, Or)
    {
      if InSome(d, lists) {
        var p :| p in lists && d in p.1.Ids();
        PresentMember(index, terms, p);
        ListedIds(index, docs, p.0, d);
      }
      if 0 <= d < |docs| && Satisfies(docs[d], terms, Or) {
        var t :| t in terms && t in docs[d];
        Indexed(docs, t, d);
        PresentMember(index, terms, (t, index[t]));
        ListedIds(index, docs, t, d);
      }
    }
    forall d
      ensures d in Matches(docs, terms, Or) <==> d in result
    {
      MatchesMember(docs, terms, Or, d);
    }
    MatchesAscend(docs, terms, Or);
    AscendingUnique(result, Matches(docs, terms, Or));
  }

  /** A conjunction with a term the index lacks, or with no term, matches nothing. */
  lemma NothingMatches(docs: seq<Terms>, terms: seq<string>)
    requires terms == [] || exists t :: t in terms && t !in Vocabulary(docs)
    ensures Matches(docs, terms, And) == []
  {
    hide Matches;
    if Matches(docs, terms, And) != [] {
      var d := Matches(docs, terms, And)[0];
      MatchesMember(docs, terms, And, d);
      forall t | t in terms
        ensures t in Vocabulary(docs)
      {
        Indexed(docs, t, d);
      }
    }
  }

  lemma {:induction false} PresentLength(index: Index, terms: seq<string>)
    requires forall t :: t in terms ==> t in index
    ensures |Present(index, terms)| == |terms|
  {
    if terms != [] {
      var n := |terms| - 1;
      assert terms[n] in terms;
      PresentLength(index, terms[..n]);
    }
  }

  /** `search_and`: exactly the documents containing every term of the query, in order. */
  method SearchAnd(index: Index, ghost docs: seq<Terms>, tokens: seq<string>) returns (result: seq<int>)
    requires Answers(index, docs) && AllValid(IndexReaders(index))
    modifies IndexReaders(index)
    ensures AllValid(IndexReaders(index))
    ensures result == Matches(docs, QueryTerms(tokens), And)
  {
    hide Present, QueryTerms, Matches, Vocabulary, PostingIds, PostingFreqs, MeetOfAll, Usable;
    var lists, complete := PostingsFor(index, tokens, true);
    QueryTermsExact(tokens);
    if complete { PresentLength(index, QueryTerms(tokens)); }
    if !complete || lists == [] {
      NothingMatches(docs, QueryTerms(tokens));
      return [];
    }
    PresentUsable(index, docs, QueryTerms(tokens));
    result := IntersectAll(lists);
    MeetIsMatch(index, docs, QueryTerms(tokens), result);
  }

  /** `search_or`: exactly the documents containing some term of the query, in order. */
  method SearchOr(index: Index, ghost docs: seq<Terms>, tokens: seq<string>) returns (result: seq<int>)
    requires Answers(index, docs) && AllValid(IndexReaders(index))
    modifies IndexReaders(index)
    ensures AllValid(IndexReaders(index))
    ensures result == Matches(docs, QueryTerms(tokens), Or)
  {
    hide Present, QueryTerms, Matches, Vocabulary, PostingIds, PostingFreqs, JoinOfAll, Usable;
    var lists, _ := PostingsFor(index, tokens, false);
    PresentUsable(index, docs, QueryTerms(tokens));
    result := UnionAll(lists);
    JoinIsMatch(index, docs, QueryTerms(tokens), result);
  }

  // ---- the in-memory index ---------------------------------------------

  function PlainIndex(m: Listing): Index
    requires forall t :: t in m ==> |m[t].0| == |m[t].1|
  {
    map t | t in m :: Plain(m[t].0, m[t].1)
  }

  /** The in-memory index, whose contents are `Inverted`, answers as its documents do. */
  lemma MemoryAnswers(docs: seq<Terms>)
    ensures Answers(PlainIndex(Inverted(docs)), docs)
  {
    hide PostingIds, PostingFreqs, Vocabulary;
    forall t
      ensures Ascending(PostingIds(docs, t))
    {
      PostingAscends(docs, t);
    }
  }
}
