/** The lazy, cached segment reader: src/aether/index/segment.py, `SegmentReader`. */
module SegmentReading {
  import opened Prelude
  import opened Sorting
  import opened Memory
  import opened Blocked
  import opened BlockedReader
  import Bloom
  import Dict = DictBlock
  import opened Hotcache
  import opened SegmentWriter
  import opened SegmentFaithful
  import opened Matching

  // ---- finding the block -----------------------------------------------

  /** `bisect.bisect_right` on terms. */
  method BisectTerms(firsts: seq<string>, term: string) returns (at: nat)
    ensures at <= |firsts|
    ensures SortedBy(firsts, StrLe) ==> forall i :: 0 <= i < |firsts| ==> (i < at <==> StrLe(firsts[i], term))
  {
    hide StrLe;
    StrOrder();
    var lo: nat, hi: nat := 0, |firsts|;
    while lo < hi
      invariant lo <= hi <= |firsts|
      invariant SortedBy(firsts, StrLe) ==> forall i :: 0 <= i < lo ==> StrLe(firsts[i], term)
      invariant SortedBy(firsts, StrLe) ==> forall i :: hi <= i < |firsts| ==> !StrLe(firsts[i], term)
    {
      var mid := (lo + hi) / 2;
      if !StrLe(firsts[mid], term) { hi := mid; } else { lo := mid + 1; }
    }
    at := lo;
  }

  /** `bisect.bisect_right` on document ids. */
  method BisectDocs(firsts: seq<nat>, doc: int) returns (at: nat)
    ensures at <= |firsts|
    ensures NonDecreasing(firsts) ==> forall i :: 0 <= i < |firsts| ==> (i < at <==> firsts[i] <= doc)
  {
    var lo: nat, hi: nat := 0, |firsts|;
    while lo < hi
      invariant lo <= hi <= |firsts|
      invariant NonDecreasing(firsts) ==> forall i :: 0 <= i < lo ==> firsts[i] <= doc
      invariant NonDecreasing(firsts) ==> forall i :: hi <= i < |firsts| ==> doc < firsts[i]
    {
      var mid := (lo + hi) / 2;
      if doc < firsts[mid] { hi := mid; } else { lo := mid + 1; }
    }
    at := lo;
  }

  /** Where `term` stands. */
  function IndexOf(terms: seq<string>, term: string): (i: nat)
    requires term in terms
    ensures i < |terms| && terms[i] == term
  {
    if terms[0] == term then 0 else 1 + IndexOf(terms[1..], term)
  }

  type Place = (nat, nat, nat)

  function PlaceOf<Doc(!new)>(src: Source<Doc>, terms: seq<string>, term: string): Option<Place>
    requires src.Sized()
  {
    if term !in terms then None
    else
      var e := Entries(src, terms)[IndexOf(terms, term)];
      Some((e.df, e.offset, e.length))
  }

  predicate Strict(terms: seq<string>) {
    forall i, j :: 0 <= i < j < |terms| ==> StrLess(terms[i], terms[j])
  }

  /** A listed term lies in the last block that does not begin after it. */
  lemma TermHome(terms: seq<string>, firsts: seq<string>, term: string, at: nat)
    requires Strict(terms) && |firsts| == Blocks(|terms|, TERMS_PER_BLOCK) && at <= |firsts| && term in terms
    requires forall b :: 0 <= b < |firsts| ==> firsts[b] == terms[b * TERMS_PER_BLOCK]
    requires forall b :: 0 <= b < |firsts| ==> (b < at <==> StrLe(firsts[b], term))
    ensures IndexOf(terms, term) / TERMS_PER_BLOCK == at - 1
  {
    hide StrLe;
    StrOrder();
    var i := IndexOf(terms, term);
    var home := i / TERMS_PER_BLOCK;
    assert StrLe(firsts[home], term);
    if home + 1 < |firsts| {
      assert StrLess(terms[i], firsts[home + 1]);
      assert !StrLe(firsts[home + 1], term);
    }
  }

  lemma FirstsSorted(terms: seq<string>, firsts: seq<string>)
    requires Strict(terms) && |firsts| == Blocks(|terms|, TERMS_PER_BLOCK)
    requires forall b :: 0 <= b < |firsts| ==> firsts[b] == terms[b * TERMS_PER_BLOCK]
    ensures SortedBy(firsts, StrLe)
  {
    hide StrLe;
  }

  lemma StrictDistinct<Doc(!new)>(src: Source<Doc>, terms: seq<string>, b: nat)
    requires src.Sized() && Strict(terms)
    ensures Dict.DistinctTerms(Chunk(Entries(src, terms), TERMS_PER_BLOCK, b))
  {
    hide StrLe, PostingIds, ListBytes, Offset;
    var (entries, chunk) := (Entries(src, terms), Chunk(Entries(src, terms), TERMS_PER_BLOCK, b));
    forall i, j | 0 <= i < j < |chunk|
      ensures chunk[i].term != chunk[j].term
    {
      var k := b * TERMS_PER_BLOCK;
      assert chunk[i] == entries[k + i] && chunk[j] == entries[k + j];
      assert StrLess(terms[k + i], terms[k + j]);
    }
  }

  /** The block a listed term lies in has its place; no block has a place for any other. */
  lemma BlockAnswers<Doc(!new)>(src: Source<Doc>, terms: seq<string>, b: nat, term: string)
    requires src.Sized() && Strict(terms)
    requires term in terms ==> IndexOf(terms, term) / TERMS_PER_BLOCK == b
    ensures var found := Dict.AsLookup(Chunk(Entries(src, terms), TERMS_PER_BLOCK, b));
      PlaceOf(src, terms, term) == if term in found.places then Some(found.places[term]) else None
  {
    hide StrLe, PostingIds, ListBytes, Offset, Dict.AsLookup, Strict, StrLess;
    var (entries, chunk) := (Entries(src, terms), Chunk(Entries(src, terms), TERMS_PER_BLOCK, b));
    StrictDistinct(src, terms, b);
    Dict.LookupExact(chunk, term);
    var k := b * TERMS_PER_BLOCK;
    if term in terms {
      var i := IndexOf(terms, term);
      assert chunk[i - k] == entries[i];
    } else {
      forall i | 0 <= i < |chunk|
        ensures chunk[i].term in terms
      {
        assert chunk[i] == entries[k + i] && entries[k + i].term == terms[k + i];
      }
    }
  }

  // ---- the reader ------------------------------------------------------

  class SegmentReader<Doc(!new)> {
    const data: Bytes
    const footer: Footer
    const hotcache: Cache
    const tools: Tools<Doc>
    var dictCache: map<nat, Dict.Lookup>
    var docCache: map<nat, seq<Doc>>
    var bloomRejections: nat

    /** A cached block is what fetching and decoding it afresh would give. */
    ghost predicate Valid()
      reads this
    {
      && (forall b :: b in dictCache ==> b < |hotcache.termBlocks| && FetchDict(b) == Ok(dictCache[b]))
      && (forall b :: b in docCache ==> b < |hotcache.docBlocks| && FetchDocs(b) == Ok(docCache[b]))
    }

    function FetchDict(b: nat): Result<Dict.Lookup>
      requires b < |hotcache.termBlocks|
    {
      Dict.DecodeBlock(Range(data, hotcache.termBlocks[b].offset, hotcache.termBlocks[b].length))
    }

    function FetchDocs(b: nat): Result<seq<Doc>>
      requires b < |hotcache.docBlocks|
    {
      tools.inflate(Range(data, hotcache.docBlocks[b].offset, hotcache.docBlocks[b].length))
    }

    constructor (data: Bytes, footer: Footer, hotcache: Cache, tools: Tools<Doc>)
      ensures this.data == data && this.footer == footer && this.hotcache == hotcache && this.tools == tools
      ensures Valid() && dictCache == map[] && docCache == map[] && bloomRejections == 0
    {
      this.data, this.footer, this.hotcache, this.tools := data, footer, hotcache, tools;
      dictCache, docCache, bloomRejections := map[], map[], 0;
    }

    method DictBlock(b: nat) returns (r: Result<Dict.Lookup>)
      requires Valid() && b < |hotcache.termBlocks|
      modifies this`dictCache
      ensures Valid() && r == FetchDict(b)
      ensures dictCache == if r.Ok? then old(dictCache)[b := r.value] else old(dictCache)
    {
      hide FetchDict, FetchDocs;
      if b in dictCache {
        assert dictCache == dictCache[b := dictCache[b]];
        return Ok(dictCache[b]);
      }
      r := FetchDict(b);
      if r.Ok? {
        dictCache := dictCache[b := r.value];
      }
    }

    method DocstoreBlock(b: nat) returns (r: Result<seq<Doc>>)
      requires Valid() && b < |hotcache.docBlocks|
      modifies this`docCache
      ensures Valid() && r == FetchDocs(b)
      ensures docCache == if r.Ok? then old(docCache)[b := r.value] else old(docCache)
    {
      hide FetchDict, FetchDocs;
      if b in docCache {
        assert docCache == docCache[b := docCache[b]];
        return Ok(docCache[b]);
      }
      r := FetchDocs(b);
      if r.Ok? {
        docCache := docCache[b := r.value];
      }
    }

    function FirstTerms(): (r: seq<string>)
      ensures |r| == |hotcache.termBlocks|
    {
      seq(|hotcache.termBlocks|, b requires 0 <= b < |hotcache.termBlocks| => hotcache.termBlocks[b].first)
    }

    /** Filter, sparse index, dictionary block: where a term's list stands, if the segment has the term. */
    method Entry(term: string, ghost src: Source<Doc>, ghost terms: seq<string>) returns (r: Option<Place>)
      requires Valid() && Faithful(data, footer, hotcache, src, terms, tools)
      modifies this`dictCache, this`bloomRejections
      ensures Valid()
      ensures r == PlaceOf(src, terms, term)
      ensures src.Sized() && hotcache.bloom.Valid()
      ensures var rejected := !hotcache.bloom.MayContain(tools.hash, term);
        && bloomRejections == old(bloomRejections) + (if rejected then 1 else 0)
        && (rejected ==> dictCache == old(dictCache))
      ensures |dictCache.Keys - old(dictCache.Keys)| <= 1
    {
      hide FetchDict, FetchDocs, Faithful, PlaceOf, Bloom.Filter.MayContain, Bloom.Filter.Valid;
      FilterAnswers(data, footer, hotcache, src, terms, tools, term);
      if !hotcache.bloom.MayContain(tools.hash, term) {
        bloomRejections := bloomRejections + 1;
        return None;
      }
      var at := Locate(term, src, terms);
      if at == 0 {
        return None;
      }
      var found := DictBlock(at - 1);
      OneMoreKey(old(dictCache), at - 1, found.value);
      r := if term in found.value.places then Some(found.value.places[term]) else None;
    }

    /** `contains`: presence without touching the postings. */
    method Contains(term: string, ghost src: Source<Doc>, ghost terms: seq<string>) returns (present: bool)
      requires Valid() && Faithful(data, footer, hotcache, src, terms, tools)
      modifies this`dictCache, this`bloomRejections
      ensures Valid()
      ensures present <==> term in Vocabulary(src.docs)
    {
      hide FetchDict, FetchDocs;
      hide DictBlockHolds, DocBlockHolds, ListHolds, Bloom.Holds, Vocabulary, StrLe, Entries;
      var entry := Entry(term, src, terms);
      present := entry.Some?;
    }

    /** `df`, from the dictionary alone. */
    method Df(term: string, ghost src: Source<Doc>, ghost terms: seq<string>) returns (df: nat)
      requires Valid() && Faithful(data, footer, hotcache, src, terms, tools)
      modifies this`dictCache, this`bloomRejections
      ensures Valid()
      ensures df == |PostingIds(src.docs, term)|
    {
      hide FetchDict, FetchDocs, Faithful;
      var entry := Entry(term, src, terms);
      PlaceSays(data, footer, hotcache, src, terms, tools, term);
      df := if entry.Some? then entry.value.0 else 0;
    }

    /** `postings`: a reader of exactly the term's list, or nothing for a term the segment lacks. */
    method Postings(term: string, ghost src: Source<Doc>, ghost terms: seq<string>) returns (r: Option<BlockedPostings>)
      requires Valid() && Faithful(data, footer, hotcache, src, terms, tools)
      modifies this`dictCache, this`bloomRejections
      ensures Valid()
      ensures r.Some? <==> term in Vocabulary(src.docs)
      ensures r.Some? ==> fresh(r.value) && r.value.Valid()
      ensures r.Some? ==> Represents(r.value.header, PostingIds(src.docs, term), PostingFreqs(src.docs, term))
    {
      hide FetchDict, FetchDocs, Faithful, Represents, DecodedBlock, Vocabulary, Parse;
      var entry := Entry(term, src, terms);
      PlaceSays(data, footer, hotcache, src, terms, tools, term);
      if entry.None? {
        return None;
      }
      var (_, offset, length) := entry.value;
      var header := ParseLoop(Range(data, offset, length));
      SoundHeader(header.value, PostingIds(src.docs, term), PostingFreqs(src.docs, term));
      var postings := new BlockedPostings(header.value);
      r := Some(postings);
    }

    /** `document`: out of range is an error, anything else is the document. */
    method Document(doc: int, ghost src: Source<Doc>, ghost terms: seq<string>) returns (r: Result<Doc>)
      requires Valid() && Faithful(data, footer, hotcache, src, terms, tools)
      modifies this`docCache
      ensures Valid()
      ensures r == if 0 <= doc < |src.documents| then Ok(src.documents[doc]) else Err(IndexError)
      ensures |docCache.Keys - old(docCache.Keys)| <= 1
    {
      hide FetchDict, FetchDocs, Faithful, Chunk;
      DocCount(data, footer, hotcache, src, terms, tools);
      if !(0 <= doc < footer.numDocs) {
        return Err(IndexError);
      }
      var b, first := LocateDoc(doc, src, terms);
      var block := DocstoreBlock(b);
      OneMoreKey(old(docCache), b, block.value);
      r := Ok(block.value[doc - first]);
    }

    /** The block a document is in, and the id it begins at. */
    method LocateDoc(doc: nat, ghost src: Source<Doc>, ghost terms: seq<string>) returns (b: nat, first: nat)
      requires Faithful(data, footer, hotcache, src, terms, tools) && doc < |src.documents|
      ensures b < |hotcache.docBlocks| && FetchDocs(b) == Ok(Chunk(src.documents, DOCS_PER_BLOCK, b))
      ensures first <= doc && doc - first < |Chunk(src.documents, DOCS_PER_BLOCK, b)|
      ensures Chunk(src.documents, DOCS_PER_BLOCK, b)[doc - first] == src.documents[doc]
    {
      hide DictBlockHolds, DocBlockHolds, ListHolds, Bloom.Holds, Vocabulary, StrLe, Entries, Lengths;
      hide Range, Chunk, Sum, PostingTotal, InOrder;
      var firsts := seq(|hotcache.docBlocks|, b requires 0 <= b < |hotcache.docBlocks| => hotcache.docBlocks[b].first);
      DocFirsts(data, hotcache, src, tools, firsts);
      var at := BisectDocs(firsts, doc);
      DocHome(src.documents, firsts, doc, at);
      DocsFetched(data, footer, hotcache, src, terms, tools, at - 1);
      b, first := at - 1, firsts[at - 1];
    }

    /** `doc_length`, from the hotcache: a list's own indexing, from the end for a negative id. */
    method DocLength(doc: int, ghost src: Source<Doc>, ghost terms: seq<string>) returns (r: Result<nat>)
      requires Faithful(data, footer, hotcache, src, terms, tools)
      ensures var n := |src.docs|;
        r == if 0 <= doc < n then Ok(|src.docs[doc]|) else if -n <= doc < 0 then Ok(|src.docs[n + doc]|) else Err(IndexError)
    {
      hide DictBlockHolds, DocBlockHolds, ListHolds, Bloom.Holds, Vocabulary, StrLe, Entries;
      var n := |hotcache.docLengths|;
      var i := if doc < 0 then n + doc else doc;
      r := if 0 <= i < n then Ok(hotcache.docLengths[i]) else Err(IndexError);
    }

    /** `terms`: every dictionary block read in turn, the vocabulary in order. */
    method Terms(ghost src: Source<Doc>, ghost terms: seq<string>) returns (all: seq<string>)
      requires Valid() && Faithful(data, footer, hotcache, src, terms, tools)
      modifies this`dictCache
      ensures Valid()
      ensures all == terms && InOrder(all, src.docs)
    {
      hide FetchDict, FetchDocs, Faithful, Vocabulary, Dict.AsLookup, Entries, Range, Dict.DecodeBlock, InOrder, Chunk;
      hide StrLe;
      TermsInOrder(data, footer, hotcache, src, terms, tools);
      all := [];
      for b := 0 to |hotcache.termBlocks|
        invariant Valid()
        invariant all == Take(terms, b * TERMS_PER_BLOCK)
      {
        DictFetched(data, footer, hotcache, src, terms, tools, b);
        FetchedIs(this, b);
        var found := DictBlock(b);
        BlockTerms(src, terms, b);
        all := all + found.value.order;
      }
    }

    /** One more than the only block that can hold the term, zero when it comes before every block. */
    method Locate(term: string, ghost src: Source<Doc>, ghost terms: seq<string>) returns (at: nat)
      requires Faithful(data, footer, hotcache, src, terms, tools)
      ensures at <= |hotcache.termBlocks|
      ensures at == 0 ==> PlaceOf(src, terms, term) == None
      ensures at > 0 ==> FetchDict(at - 1).Ok?
      ensures at > 0 ==> var found := FetchDict(at - 1).value;
        PlaceOf(src, terms, term) == if term in found.places then Some(found.places[term]) else None
    {
      hide StrLe, Entries, Bloom.Holds, ListHolds, DocBlockHolds, DictBlockHolds, PlaceOf, Chunk;
      hide Dict.DecodeBlock, Dict.AsLookup;
      var firsts := FirstTerms();
      FirstsAre(data, hotcache, src, terms, firsts);
      at := BisectTerms(firsts, term);
      if at == 0 {
        BeforeAll(src, terms, firsts, term);
      } else {
        AtHome(src, terms, firsts, term, at);
        DictFetched(data, footer, hotcache, src, terms, tools, at - 1);
      }
    }
  }

  lemma OneMoreKey<V>(m: map<nat, V>, k: nat, v: V)
    ensures |m.Keys - m.Keys| == 0 && |m[k := v].Keys - m.Keys| <= 1
  {
    assert m.Keys - m.Keys == {};
    if k in m {
      assert m[k := v].Keys - m.Keys == {};
    } else {
      assert m[k := v].Keys - m.Keys == {k};
    }
  }

  lemma AtHome<Doc(!new)>(src: Source<Doc>, terms: seq<string>, firsts: seq<string>, term: string, at: nat)
    requires src.Sized() && Strict(terms) && |firsts| == Blocks(|terms|, TERMS_PER_BLOCK) && 0 < at <= |firsts|
    requires forall b :: 0 <= b < |firsts| ==> firsts[b] == terms[b * TERMS_PER_BLOCK]
    requires forall b :: 0 <= b < |firsts| ==> (b < at <==> StrLe(firsts[b], term))
    ensures var found := Dict.AsLookup(Chunk(Entries(src, terms), TERMS_PER_BLOCK, at - 1));
      PlaceOf(src, terms, term) == if term in found.places then Some(found.places[term]) else None
  {
    hide StrLe, Entries, Dict.AsLookup, Chunk, PlaceOf, Strict;
    if term in terms {
      TermHome(terms, firsts, term, at);
    }
    BlockAnswers(src, terms, at - 1, term);
  }

  lemma FilterAnswers<Doc(!new)>(data: Bytes, footer: Footer, cache: Cache, src: Source<Doc>, terms: seq<string>,
                                 tools: Tools<Doc>, term: string)
    requires Faithful(data, footer, cache, src, terms, tools)
    ensures src.Sized() && cache.bloom.Valid()
    ensures !cache.bloom.MayContain(tools.hash, term) ==> PlaceOf(src, terms, term) == None
  {
    hide PlaceOf, Bloom.Filter.MayContain, DictBlockHolds, DocBlockHolds, ListHolds;
    if !cache.bloom.MayContain(tools.hash, term) {
      NotInFilter(cache.bloom, tools.hash, src, terms, term);
    }
  }

  lemma NotInFilter<Doc(!new)>(filter: Bloom.Filter, hash: Bloom.Hash, src: Source<Doc>, terms: seq<string>, term: string)
    requires src.Sized() && Bloom.Holds(filter, hash, Elements(terms)) && !filter.MayContain(hash, term)
    ensures PlaceOf(src, terms, term) == None
  {
    hide Entries;
    if term in terms {
      Bloom.NeverAWrongNo(filter, hash, Elements(terms), term);
    }
  }

  lemma BeforeAll<Doc(!new)>(src: Source<Doc>, terms: seq<string>, firsts: seq<string>, term: string)
    requires src.Sized() && Strict(terms) && |firsts| == Blocks(|terms|, TERMS_PER_BLOCK)
    requires forall b :: 0 <= b < |firsts| ==> firsts[b] == terms[b * TERMS_PER_BLOCK]
    requires forall b :: 0 <= b < |firsts| ==> !StrLe(firsts[b], term)
    ensures PlaceOf(src, terms, term) == None
  {
    hide Entries, StrLe;
    if term in terms {
      TermHome(terms, firsts, term, 0);
    }
  }

  lemma FirstsAre<Doc(!new)>(data: Bytes, cache: Cache, src: Source<Doc>, terms: seq<string>, firsts: seq<string>)
    requires src.Sized() && InOrder(terms, src.docs)
    requires |cache.termBlocks| == |firsts| == Blocks(|terms|, TERMS_PER_BLOCK)
    requires forall b :: 0 <= b < |firsts| ==> firsts[b] == cache.termBlocks[b].first
    requires forall b: nat :: b < |cache.termBlocks| ==> DictBlockHolds(data, cache, src, terms, b)
    ensures Strict(terms) && SortedBy(firsts, StrLe)
    ensures forall b :: 0 <= b < |firsts| ==> firsts[b] == terms[b * TERMS_PER_BLOCK]
  {
    hide StrLe, Entries, Dict.DecodeBlock, Dict.AsLookup;
    forall b: nat | b < |firsts|
      ensures firsts[b] == terms[b * TERMS_PER_BLOCK]
    {
      assert DictBlockHolds(data, cache, src, terms, b);
    }
    FirstsSorted(terms, firsts);
  }

  lemma DictFetched<Doc(!new)>(data: Bytes, footer: Footer, cache: Cache, src: Source<Doc>, terms: seq<string>,
                               tools: Tools<Doc>, b: nat)
    requires Faithful(data, footer, cache, src, terms, tools) && b < |cache.termBlocks|
    ensures Dict.DecodeBlock(Range(data, cache.termBlocks[b].offset, cache.termBlocks[b].length))
         == Ok(Dict.AsLookup(Chunk(Entries(src, terms), TERMS_PER_BLOCK, b)))
  {
    hide Entries, Dict.DecodeBlock, Dict.AsLookup, Chunk, Range, Bloom.Holds, ListHolds, DocBlockHolds;
    assert DictBlockHolds(data, cache, src, terms, b);
  }

  lemma FetchedIs<Doc(!new)>(reader: SegmentReader<Doc>, b: nat)
    requires b < |reader.hotcache.termBlocks|
    ensures var block := reader.hotcache.termBlocks[b];
      reader.FetchDict(b) == Dict.DecodeBlock(Range(reader.data, block.offset, block.length))
  {
  }

  lemma TermsInOrder<Doc(!new)>(data: Bytes, footer: Footer, cache: Cache, src: Source<Doc>, terms: seq<string>,
                                tools: Tools<Doc>)
    requires Faithful(data, footer, cache, src, terms, tools)
    ensures src.Sized() && Strict(terms) && InOrder(terms, src.docs)
    ensures |cache.termBlocks| == Blocks(|terms|, TERMS_PER_BLOCK)
    ensures Take(terms, |cache.termBlocks| * TERMS_PER_BLOCK) == terms
  {
    hide DictBlockHolds, DocBlockHolds, ListHolds, Bloom.Holds, Vocabulary, StrLe, Entries;
  }

  /** The blocks list the terms one stretch after the other. */
  lemma BlockTerms<Doc(!new)>(src: Source<Doc>, terms: seq<string>, b: nat)
    requires src.Sized() && Strict(terms) && b < Blocks(|terms|, TERMS_PER_BLOCK)
    ensures Take(terms, b * TERMS_PER_BLOCK) + Dict.AsLookup(Chunk(Entries(src, terms), TERMS_PER_BLOCK, b)).order
         == Take(terms, (b + 1) * TERMS_PER_BLOCK)
  {
    hide StrLe, Dict.AsLookup, PostingIds, ListBytes, Offset, Strict;
    var chunk := Chunk(Entries(src, terms), TERMS_PER_BLOCK, b);
    StrictDistinct(src, terms, b);
    Dict.LookupOrder(chunk);
    assert Dict.TermsOf(chunk) == Chunk(terms, TERMS_PER_BLOCK, b);
  }

  /** What a term's place says: its document frequency, and the bytes of its list. */
  lemma PlaceSays<Doc(!new)>(data: Bytes, footer: Footer, cache: Cache, src: Source<Doc>, terms: seq<string>,
                             tools: Tools<Doc>, term: string)
    requires Faithful(data, footer, cache, src, terms, tools)
    ensures src.Sized()
    ensures var place := PlaceOf(src, terms, term);
      && (place.Some? <==> term in Vocabulary(src.docs))
      && (place.None? ==> PostingIds(src.docs, term) == [])
      && (place.Some? ==>
          var (df, offset, length) := place.value;
          && df == |PostingIds(src.docs, term)|
          && Parse(Range(data, offset, length)).Ok?
          && Represents(Parse(Range(data, offset, length)).value, PostingIds(src.docs, term), PostingFreqs(src.docs, term)))
  {
    hide DictBlockHolds, DocBlockHolds, Bloom.Holds, Vocabulary, StrLe, Parse, Represents, Range, Encoded;
    hide PostingIds, PostingFreqs, NarrowGaps;
    if term in terms {
      var i := IndexOf(terms, term);
      assert ListHolds(data, src, terms, i);
      ListsFit(src, term);
      BlockedRoundTripIff(PostingIds(src.docs, term), PostingFreqs(src.docs, term));
    } else {
      AbsentTerm(src.docs, term);
    }
  }

  lemma SoundHeader(h: Header, ids: seq<int>, freqs: seq<nat>)
    requires Represents(h, ids, freqs)
    ensures Blocked.Sound(h)
  {
  }

  lemma DocFirsts<Doc(!new)>(data: Bytes, cache: Cache, src: Source<Doc>, tools: Tools<Doc>, firsts: seq<nat>)
    requires |cache.docBlocks| == |firsts| == Blocks(|src.documents|, DOCS_PER_BLOCK)
    requires forall b :: 0 <= b < |firsts| ==> firsts[b] == cache.docBlocks[b].first
    requires forall b: nat :: b < |cache.docBlocks| ==> DocBlockHolds(data, cache, src, tools, b)
    ensures NonDecreasing(firsts) && forall b :: 0 <= b < |firsts| ==> firsts[b] == b * DOCS_PER_BLOCK
  {
    hide Chunk, Range;
    forall b: nat | b < |firsts|
      ensures firsts[b] == b * DOCS_PER_BLOCK
    {
      assert DocBlockHolds(data, cache, src, tools, b);
    }
  }

  lemma DocHome<Doc>(documents: seq<Doc>, firsts: seq<nat>, doc: nat, at: nat)
    requires |firsts| == Blocks(|documents|, DOCS_PER_BLOCK) && doc < |documents| && at <= |firsts|
    requires forall b :: 0 <= b < |firsts| ==> firsts[b] == b * DOCS_PER_BLOCK
    requires forall b :: 0 <= b < |firsts| ==> (b < at <==> firsts[b] <= doc)
    ensures at > 0
    ensures var chunk := Chunk(documents, DOCS_PER_BLOCK, at - 1);
      0 <= doc - firsts[at - 1] < |chunk| && chunk[doc - firsts[at - 1]] == documents[doc]
  {
    var home := doc / DOCS_PER_BLOCK;
    assert firsts[home] <= doc;
    assert home + 1 < |firsts| ==> firsts[home + 1] > doc;
    assert at == home + 1;
  }

  lemma DocCount<Doc(!new)>(data: Bytes, footer: Footer, cache: Cache, src: Source<Doc>, terms: seq<string>,
                            tools: Tools<Doc>)
    requires Faithful(data, footer, cache, src, terms, tools)
    ensures footer.numDocs == |src.documents|
  {
    hide DictBlockHolds, DocBlockHolds, ListHolds;
  }

  lemma DocsFetched<Doc(!new)>(data: Bytes, footer: Footer, cache: Cache, src: Source<Doc>, terms: seq<string>,
                               tools: Tools<Doc>, b: nat)
    requires Faithful(data, footer, cache, src, terms, tools) && b < |cache.docBlocks|
    ensures tools.inflate(Range(data, cache.docBlocks[b].offset, cache.docBlocks[b].length))
         == Ok(Chunk(src.documents, DOCS_PER_BLOCK, b))
  {
    hide Entries, Chunk, Range, Bloom.Holds, ListHolds, DictBlockHolds;
    assert DocBlockHolds(data, cache, src, tools, b);
  }
}
