/** What a written segment holds, as a reader finds it: src/aether/index/segment.py. */
module SegmentFaithful {
  import opened Prelude
  import opened Sorting
  import opened Binary
  import opened Memory
  import Blocked
  import Bloom
  import Dict = DictBlock
  import opened Hotcache
  import opened SegmentWriter

  /** `get_suffix`: the last `n` bytes, or all there are. */
  function Suffix(data: Bytes, n: nat): Bytes {
    if |data| < n then data else data[|data| - n..]
  }

  /** What opening a segment reads: the footer from the tail, then the hotcache it points to. */
  function Opened(data: Bytes): Result<(Footer, Cache)> {
    var footer :- UnpackFooter(Suffix(data, FOOTER_SIZE));
    var cache :- DecodeHotcache(Slice(data, footer.hotcacheOffset, footer.hotcacheOffset + footer.hotcacheLength));
    Ok((footer, cache))
  }

  // ---- where the parts stand -------------------------------------------

  lemma PartsStand(layout: Layout)
    requires LayoutFits(layout)
    ensures var data := SegmentBytes(layout);
      var (docsAt, dictAt) := (|layout.postings|, |layout.postings| + |layout.docstore|);
      && At(data, 0, layout.postings) && At(data, docsAt, layout.docstore) && At(data, dictAt, layout.termdict)
      && At(data, dictAt + |layout.termdict|, CacheBytes(layout.cache))
  {
    hide CacheBytes, PackFooter, At, Fits, FooterFits;
    PackOk(layout.footer);
    var (a, b, c, d) := (layout.postings, layout.docstore, layout.termdict, CacheBytes(layout.cache));
    AtWhole(Body(layout));
    AtLonger(Body(layout), PackFooter(layout.footer).value, 0, Body(layout));
    var data := SegmentBytes(layout);
    AtSplit(data, 0, a, b + (c + d));
    AtSplit(data, |a|, b, c + d);
    AtSplit(data, |a| + |b|, c, d);
  }

  /** Opening the written bytes finds the footer and the hotcache that were written. */
  lemma WrittenOpens<Doc(!new)>(src: Source<Doc>, terms: seq<string>, tools: Tools<Doc>, bloom: Bloom.Filter)
    requires bloom.Valid()
    requires LayoutFits(LayoutOf(src, terms, tools, bloom))
    ensures var layout := LayoutOf(src, terms, tools, bloom);
      Opened(SegmentBytes(layout)) == Ok((layout.footer, layout.cache))
  {
    hide PostingPieces, DocPieces, DictPieces, TermBlocks, DocBlocks, Entries, CacheBytes, Fits, Flatten;
    hide PackFooter, UnpackFooter, DecodeHotcache, FooterFits, At, Lengths, Times, Sum, PostingTotal;
    var layout := LayoutOf(src, terms, tools, bloom);
    var data := SegmentBytes(layout);
    PackOk(layout.footer);
    var tail := PackFooter(layout.footer).value;
    FooterRoundTrip([], layout.footer);
    assert [] + tail == tail;
    assert Suffix(data, FOOTER_SIZE) == tail;
    PartsStand(layout);
    HotcacheRoundTrip(layout.cache);
    SliceAt(data, layout.footer.hotcacheOffset, CacheBytes(layout.cache));
  }

  // ---- what each reference leads to ------------------------------------

  /** The bytes a reader fetches for a range. */
  function Range(data: Bytes, offset: nat, length: nat): Bytes {
    Slice(data, offset, offset + length)
  }

  ghost predicate DictBlockHolds<Doc(!new)>(data: Bytes, cache: Cache, src: Source<Doc>, terms: seq<string>, b: nat)
    requires b < |cache.termBlocks|
  {
    var block := cache.termBlocks[b];
    && b * TERMS_PER_BLOCK < |terms| && block.first == terms[b * TERMS_PER_BLOCK]
    && Dict.DecodeBlock(Range(data, block.offset, block.length))
       == Ok(Dict.AsLookup(Chunk(Entries(src, terms), TERMS_PER_BLOCK, b)))
  }

  ghost predicate DocBlockHolds<Doc(!new)>(data: Bytes, cache: Cache, src: Source<Doc>, tools: Tools<Doc>, b: nat)
    requires b < |cache.docBlocks|
  {
    var block := cache.docBlocks[b];
    && block.first == b * DOCS_PER_BLOCK
    && tools.inflate(Range(data, block.offset, block.length)) == Ok(Chunk(src.documents, DOCS_PER_BLOCK, b))
  }

  ghost predicate ListHolds<Doc(!new)>(data: Bytes, src: Source<Doc>, terms: seq<string>, i: nat)
    requires i < |terms|
  {
    var e := Entries(src, terms)[i];
    Range(data, e.offset, e.length) == ListBytes(src, terms[i])
  }

  /** Everything a reader relies on. */
  ghost predicate Faithful<Doc(!new)>(data: Bytes, footer: Footer, cache: Cache, src: Source<Doc>, terms: seq<string>,
                                      tools: Tools<Doc>)
  {
    && src.Sized() && InOrder(terms, src.docs)
    && Bloom.Holds(cache.bloom, tools.hash, Elements(terms))
    && |cache.termBlocks| == Blocks(|terms|, TERMS_PER_BLOCK)
    && |cache.docBlocks| == Blocks(|src.documents|, DOCS_PER_BLOCK)
    && (forall b: nat :: b < |cache.termBlocks| ==> DictBlockHolds(data, cache, src, terms, b))
    && (forall b: nat :: b < |cache.docBlocks| ==> DocBlockHolds(data, cache, src, tools, b))
    && (forall i: nat :: i < |terms| ==> ListHolds(data, src, terms, i))
    && cache.docLengths == Lengths(src.docs)
    && footer.numDocs == |src.docs| && footer.numTerms == |terms|
    && footer.totalLength == Sum(Lengths(src.docs)) && footer.numPostings == PostingTotal(Entries(src, terms))
    && footer.minTs == Least(Times(src.documents, tools.timestamp))
    && footer.maxTs == Greatest(Times(src.documents, tools.timestamp))
  }

  lemma DictBlockWritten<Doc(!new)>(data: Bytes, base: nat, src: Source<Doc>, terms: seq<string>, b: nat)
    requires b < Blocks(|terms|, TERMS_PER_BLOCK)
    requires At(data, base, Flatten(DictPieces(src, terms)))
    ensures var block := TermBlocks(src, terms, base)[b];
      && b * TERMS_PER_BLOCK < |terms| && block.first == terms[b * TERMS_PER_BLOCK]
      && Dict.DecodeBlock(Range(data, block.offset, block.length))
         == Ok(Dict.AsLookup(Chunk(Entries(src, terms), TERMS_PER_BLOCK, b)))
  {
    hide Entries, Flatten, Dict.BlockBytes, Dict.DecodeBlock, Dict.AsLookup, Chunk, At, Offset, Slice;
    hide Dict.NeverBehind;
    var pieces := DictPieces(src, terms);
    var chunk := Chunk(Entries(src, terms), TERMS_PER_BLOCK, b);
    ChunkNeverBehind(src, terms, b);
    assert pieces[b] == Dict.BlockBytes(chunk);
    PieceInside(data, base, pieces, b);
    Dict.BlockRoundTrip(chunk, []);
    assert Dict.BlockBytes(chunk) + [] == Dict.BlockBytes(chunk);
  }

  /** A piece of a joined part, found in the whole object. */
  lemma PieceInside(data: Bytes, base: nat, pieces: seq<Bytes>, b: nat)
    requires At(data, base, Flatten(pieces)) && b < |pieces|
    ensures Range(data, base + Offset(pieces, b), |pieces[b]|) == pieces[b]
  {
    hide Flatten, At, Offset, Slice;
    PieceStands(pieces, b, |pieces|);
    assert pieces[..|pieces|] == pieces;
    AtInside(data, base, Flatten(pieces), Offset(pieces, b), pieces[b]);
    SliceAt(data, base + Offset(pieces, b), pieces[b]);
  }

  lemma DocBlockWritten<Doc(!new)>(data: Bytes, base: nat, src: Source<Doc>, tools: Tools<Doc>, b: nat)
    requires tools.Sound() && b < Blocks(|src.documents|, DOCS_PER_BLOCK)
    requires At(data, base, Flatten(DocPieces(src, tools)))
    ensures var block := DocBlocks(src, tools, base)[b];
      && block.first == b * DOCS_PER_BLOCK
      && tools.inflate(Range(data, block.offset, block.length)) == Ok(Chunk(src.documents, DOCS_PER_BLOCK, b))
  {
    hide Flatten, Chunk, At, Offset, Slice;
    var pieces := DocPieces(src, tools);
    PieceInside(data, base, pieces, b);
    assert pieces[b] == tools.deflate(Chunk(src.documents, DOCS_PER_BLOCK, b));
  }

  lemma ListWritten<Doc(!new)>(data: Bytes, src: Source<Doc>, terms: seq<string>, i: nat)
    requires i < |terms|
    requires At(data, 0, Flatten(PostingPieces(src, terms)))
    ensures ListHolds(data, src, terms, i)
  {
    hide ListBytes, PostingIds, Flatten, At, Offset, Slice;
    PieceInside(data, 0, PostingPieces(src, terms), i);
  }

  /** Everything a reader relies on holds of what the writer wrote. */
  lemma WrittenIsFaithful<Doc(!new)>(src: Source<Doc>, terms: seq<string>, tools: Tools<Doc>, bloom: Bloom.Filter)
    requires src.Paired() && tools.Sound() && InOrder(terms, src.docs)
    requires Bloom.Holds(bloom, tools.hash, Elements(terms))
    requires LayoutFits(LayoutOf(src, terms, tools, bloom))
    ensures var layout := LayoutOf(src, terms, tools, bloom);
      && Opened(SegmentBytes(layout)) == Ok((layout.footer, layout.cache))
      && Faithful(SegmentBytes(layout), layout.footer, layout.cache, src, terms, tools)
  {
    hide PostingPieces, DocPieces, DictPieces, Entries, CacheBytes, LayoutFits, Flatten, SegmentBytes;
    hide At, Lengths, Times, Sum, PostingTotal, Opened, InOrder, Least, Greatest, TermBlocks, DocBlocks, Range, Chunk;
    hide Dict.DecodeBlock, Dict.AsLookup, ListHolds;
    var layout := LayoutOf(src, terms, tools, bloom);
    var data := SegmentBytes(layout);
    FittingTakes(src, terms, tools, bloom);
    WrittenOpens(src, terms, tools, bloom);
    PartsStand(layout);
    forall b: nat | b < Blocks(|terms|, TERMS_PER_BLOCK)
      ensures DictBlockHolds(data, layout.cache, src, terms, b)
    {
      DictBlockWritten(data, |layout.postings| + |layout.docstore|, src, terms, b);
    }
    forall b: nat | b < Blocks(|src.documents|, DOCS_PER_BLOCK)
      ensures DocBlockHolds(data, layout.cache, src, tools, b)
    {
      DocBlockWritten(data, |layout.postings|, src, tools, b);
    }
    forall i: nat | i < |terms|
      ensures ListHolds(data, src, terms, i)
    {
      ListWritten(data, src, terms, i);
    }
  }

  // ---- counting the postings -------------------------------------------

  /** How many terms each document has, added up. */
  function TermsHeld(docs: seq<Terms>): nat {
    if docs == [] then 0 else TermsHeld(docs[..|docs| - 1]) + |Elements(docs[|docs| - 1])|
  }

  /** How many documents each term is in, added up. */
  function DocsListed(docs: seq<Terms>, terms: seq<string>): nat {
    if terms == [] then 0 else DocsListed(docs, terms[..|terms| - 1]) + |PostingIds(docs, terms[|terms| - 1])|
  }

  lemma {:induction false} TotalListed<Doc(!new)>(src: Source<Doc>, terms: seq<string>, n: nat)
    requires n <= |terms|
    ensures PostingTotal(Entries(src, terms)[..n]) == DocsListed(src.docs, terms[..n])
  {
    if n > 0 {
      TotalListed(src, terms, n - 1);
      assert Entries(src, terms)[..n][..n - 1] == Entries(src, terms)[..n - 1] && terms[..n][..n - 1] == terms[..n - 1];
    }
  }

  lemma ListedOnceMore(docs: seq<Terms>, doc: Terms, t: string)
    ensures |PostingIds(docs + [doc], t)| == |PostingIds(docs, t)| + if t in doc then 1 else 0
  {
    assert (docs + [doc])[..|docs|] == docs;
  }

  lemma {:induction false} ListedMore(docs: seq<Terms>, doc: Terms, terms: seq<string>)
    requires Distinct(terms)
    ensures DocsListed(docs + [doc], terms) == DocsListed(docs, terms) + |set t | t in terms && t in doc|
  {
    hide PostingIds;
    if terms == [] {
      assert (set t | t in terms && t in doc) == {};
    } else {
      var (init, last) := (terms[..|terms| - 1], terms[|terms| - 1]);
      ListedMore(docs, doc, init);
      ListedOnceMore(docs, doc, last);
      var (before, now) := (set t | t in init && t in doc, set t | t in terms && t in doc);
      assert now == if last in doc then before + {last} else before;
    }
  }

  lemma {:induction false} ListedNone(terms: seq<string>)
    ensures DocsListed([], terms) == 0
  {
    if terms != [] {
      ListedNone(terms[..|terms| - 1]);
    }
  }

  lemma {:induction false} ListedIsHeld(docs: seq<Terms>, terms: seq<string>)
    requires Distinct(terms) && forall t :: t in Vocabulary(docs) ==> t in terms
    ensures DocsListed(docs, terms) == TermsHeld(docs)
  {
    if docs == [] {
      ListedNone(terms);
    } else {
      var (init, last) := (docs[..|docs| - 1], docs[|docs| - 1]);
      assert docs == init + [last];
      VocabularyGrows(init, last);
      ListedIsHeld(init, terms);
      ListedMore(init, last, terms);
      assert (set t | t in terms && t in last) == Elements(last);
    }
  }

  /** The footer's count of postings, taken term by term, is the number of terms of each document added up. */
  lemma PostingsCounted<Doc(!new)>(src: Source<Doc>, terms: seq<string>)
    requires InOrder(terms, src.docs)
    ensures PostingTotal(Entries(src, terms)) == TermsHeld(src.docs)
  {
    hide PostingTotal, Entries, DocsListed, TermsHeld, StrLe, Vocabulary;
    assert Distinct(terms);
    TotalListed(src, terms, |terms|);
    assert Entries(src, terms)[..|terms|] == Entries(src, terms) && terms[..|terms|] == terms;
    ListedIsHeld(src.docs, terms);
  }
}
