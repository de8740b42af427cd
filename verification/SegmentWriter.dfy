/** Serializing an index into one segment: src/aether/index/segment.py, `write_segment`. */
module SegmentWriter {
  import opened Prelude
  import opened Sorting
  import opened Binary
  import opened Memory
  import Blocked
  import BitPack
  import Bloom
  import Dict = DictBlock
  import opened Hotcache

  const TERMS_PER_BLOCK: nat := 32
  const DOCS_PER_BLOCK: nat := 64

  /** What the writer takes from outside: JSON with deflate, the digest, the filter's sizing, a document's time. */
  datatype Tools<!Doc(!new)> = Tools(
    deflate: seq<Doc> -> Bytes, inflate: Bytes -> Result<seq<Doc>>,
    hash: Bloom.Hash, size: nat -> (nat, nat), timestamp: Doc -> Option<int>)
  {
    /** JSON and deflate are an inverse pair; the sizing is whole bytes. */
    ghost predicate Sound() {
      (forall docs :: inflate(deflate(docs)) == Ok(docs)) && Bloom.Sizing(size)
    }
  }

  /** An index: its documents and what each analyses to. */
  datatype Source<Doc> = Source(documents: seq<Doc>, docs: seq<Terms>) {
    ghost predicate Paired() {
      |documents| == |docs|
    }

    /** Documents and their lengths within the format's 32-bit fields. */
    ghost predicate Sized() {
      && Paired() && |docs| < Pow256(4)
      && forall d :: 0 <= d < |docs| ==> |docs[d]| < Pow256(4)
    }
  }

  // ---- pieces laid end to end ------------------------------------------

  function Offset(pieces: seq<Bytes>, i: nat): nat
    requires i <= |pieces|
  {
    |Flatten(pieces[..i])|
  }

  lemma OffsetNext(pieces: seq<Bytes>, i: nat)
    requires i < |pieces|
    ensures Offset(pieces, i + 1) == Offset(pieces, i) + |pieces[i]|
    ensures Flatten(pieces[..i + 1]) == Flatten(pieces[..i]) + pieces[i]
  {
    assert pieces[..i + 1][..i] == pieces[..i];
  }

  lemma {:induction false} PieceStands(pieces: seq<Bytes>, i: nat, n: nat)
    requires i < n <= |pieces|
    ensures At(Flatten(pieces[..n]), Offset(pieces, i), pieces[i])
  {
    OffsetNext(pieces, n - 1);
    if i < n - 1 {
      PieceStands(pieces, i, n - 1);
      AtLonger(Flatten(pieces[..n - 1]), pieces[n - 1], Offset(pieces, i), pieces[i]);
    }
  }

  /** A stretch of `n` things cut into blocks of `size`: how many blocks, and where each starts and ends. */
  function Blocks(n: nat, size: nat): nat
    requires size > 0
  {
    (n + size - 1) / size
  }

  function Chunk<T>(items: seq<T>, size: nat, b: nat): (r: seq<T>)
    requires size > 0
  {
    Slice(items, b * size, b * size + size)
  }

  // ---- field widths ----------------------------------------------------

  lemma {:induction false} BytesAreBits(n: nat)
    ensures Pow256(n) == Pow2(8 * n)
  {
    if n > 0 {
      BytesAreBits(n - 1);
      Pow2Adds(8, 8 * (n - 1));
      assert Pow2(8) == 256;
    }
  }

  lemma {:induction false} CountAtMost(terms: Terms, t: string)
    ensures multiset(terms)[t] <= |terms|
  {
    if terms != [] {
      var n := |terms| - 1;
      CountAtMost(terms[..n], t);
      assert terms == terms[..n] + [terms[n]];
    }
  }

  lemma {:induction false} FreqsFit(docs: seq<Terms>, t: string, limit: nat)
    requires forall d :: 0 <= d < |docs| ==> |docs[d]| < limit
    ensures forall k :: 0 <= k < |PostingFreqs(docs, t)| ==> PostingFreqs(docs, t)[k] < limit
  {
    if docs != [] {
      FreqsFit(docs[..|docs| - 1], t, limit);
      CountAtMost(docs[|docs| - 1], t);
    }
  }

  /** The posting encoder takes the term's list. */
  predicate Takes<Doc(!new)>(src: Source<Doc>, t: string) {
    Blocked.Accepted(PostingIds(src.docs, t), PostingFreqs(src.docs, t))
  }

  /** A sized source's lists are within what the posting encoder takes. */
  lemma ListsFit<Doc(!new)>(src: Source<Doc>, t: string)
    requires src.Sized()
    ensures Takes(src, t) && Blocked.Openable(PostingIds(src.docs, t), PostingFreqs(src.docs, t))
    ensures Blocked.NarrowGaps(PostingIds(src.docs, t))
  {
    hide PostingIds, PostingFreqs, Pow2, Pow256;
    BytesAreBits(4);
    Pow2Grows(32, 63);
    PostingAscends(src.docs, t);
    FreqsFit(src.docs, t, Pow256(4));
    IdsFit(src.docs, t, Pow256(4));
    var ids := PostingIds(src.docs, t);
    forall i | 0 <= i < |ids|
      ensures Blocked.NatGaps(ids)[i] < Pow2(BitPack.WORD_BITS)
    {
      assert Blocked.NatGaps(ids)[i] == Blocked.GapAt(ids, i) <= ids[i];
    }
  }

  lemma IdsFit(docs: seq<Terms>, t: string, limit: nat)
    requires |docs| < limit
    ensures forall k :: 0 <= k < |PostingIds(docs, t)| ==> PostingIds(docs, t)[k] < limit
  {
    hide PostingIds;
    var ids := PostingIds(docs, t);
    forall k | 0 <= k < |ids|
      ensures ids[k] < limit
    {
      PostingMember(docs, t, ids[k]);
    }
  }

  // ---- postings and dictionary entries ---------------------------------

  function ListBytes<Doc(!new)>(src: Source<Doc>, t: string): Bytes {
    if Takes(src, t) then Blocked.Encoded(PostingIds(src.docs, t), PostingFreqs(src.docs, t)) else []
  }

  function PostingPieces<Doc(!new)>(src: Source<Doc>, terms: seq<string>): (r: seq<Bytes>)
    ensures |r| == |terms|
  {
    seq(|terms|, i requires 0 <= i < |terms| => ListBytes(src, terms[i]))
  }

  /** Each term with its document frequency and the range of its list. */
  function Entries<Doc(!new)>(src: Source<Doc>, terms: seq<string>): (r: seq<Dict.Entry>)
    ensures |r| == |terms|
  {
    var pieces := PostingPieces(src, terms);
    seq(|terms|, i requires 0 <= i < |terms| =>
      Dict.Entry(terms[i], |PostingIds(src.docs, terms[i])|, Offset(pieces, i), |pieces[i]|))
  }

  /** Lists are laid end to end, so no chunk of entries falls behind its predictions. */
  lemma ChunkNeverBehind<Doc(!new)>(src: Source<Doc>, terms: seq<string>, b: nat)
    ensures Dict.NeverBehind(Chunk(Entries(src, terms), TERMS_PER_BLOCK, b))
  {
    hide ListBytes, PostingIds, Offset;
    var (entries, pieces) := (Entries(src, terms), PostingPieces(src, terms));
    var chunk := Chunk(entries, TERMS_PER_BLOCK, b);
    forall i | 0 <= i < |chunk|
      ensures chunk[i].offset >= Dict.Predicted(chunk, i)
    {
      var k := b * TERMS_PER_BLOCK + i;
      assert chunk[i] == entries[k];
      if i > 0 {
        OffsetNext(pieces, k - 1);
        assert chunk[i - 1] == entries[k - 1];
      }
    }
  }

  function DictPieces<Doc(!new)>(src: Source<Doc>, terms: seq<string>): (r: seq<Bytes>)
    ensures |r| == Blocks(|terms|, TERMS_PER_BLOCK)
  {
    var entries := Entries(src, terms);
    seq(Blocks(|terms|, TERMS_PER_BLOCK), b requires 0 <= b < Blocks(|terms|, TERMS_PER_BLOCK) =>
      (ChunkNeverBehind(src, terms, b); Dict.BlockBytes(Chunk(entries, TERMS_PER_BLOCK, b))))
  }

  function TermBlocks<Doc(!new)>(src: Source<Doc>, terms: seq<string>, base: nat): (r: seq<TermBlock>)
    ensures |r| == Blocks(|terms|, TERMS_PER_BLOCK)
  {
    var pieces := DictPieces(src, terms);
    seq(|pieces|, b requires 0 <= b < |pieces| =>
      TermBlock(terms[b * TERMS_PER_BLOCK], base + Offset(pieces, b), |pieces[b]|))
  }

  // ---- documents -------------------------------------------------------

  function DocPieces<Doc(!new)>(src: Source<Doc>, tools: Tools<Doc>): (r: seq<Bytes>)
    ensures |r| == Blocks(|src.documents|, DOCS_PER_BLOCK)
  {
    seq(Blocks(|src.documents|, DOCS_PER_BLOCK), b requires 0 <= b < Blocks(|src.documents|, DOCS_PER_BLOCK) =>
      tools.deflate(Chunk(src.documents, DOCS_PER_BLOCK, b)))
  }

  function DocBlocks<Doc(!new)>(src: Source<Doc>, tools: Tools<Doc>, base: nat): (r: seq<DocBlock>)
    ensures |r| == Blocks(|src.documents|, DOCS_PER_BLOCK)
  {
    var pieces := DocPieces(src, tools);
    seq(|pieces|, b requires 0 <= b < |pieces| =>
      DocBlock(b * DOCS_PER_BLOCK, base + Offset(pieces, b), |pieces[b]|))
  }

  /** The integer timestamps, in document order. */
  function Times<Doc(!new)>(documents: seq<Doc>, timestamp: Doc -> Option<int>): seq<int> {
    if documents == [] then []
    else
      var last := timestamp(documents[|documents| - 1]);
      Times(documents[..|documents| - 1], timestamp) + if last.Some? then [last.value] else []
  }

  function Least(s: seq<int>): (r: int)
    ensures s == [] ==> r == 0
    ensures forall x :: x in s ==> r <= x
    ensures s != [] ==> r in s
  {
    if |s| == 0 then 0
    else if |s| == 1 then s[0]
    else
      var n := |s| - 1;
      assert s == s[..n] + [s[n]];
      Min(Least(s[..n]), s[n])
  }

  function Greatest(s: seq<int>): (r: int)
    ensures s == [] ==> r == 0
    ensures forall x :: x in s ==> x <= r
    ensures s != [] ==> r in s
  {
    if |s| == 0 then 0
    else if |s| == 1 then s[0]
    else
      var n := |s| - 1;
      assert s == s[..n] + [s[n]];
      Max(Greatest(s[..n]), s[n])
  }

  // ---- the whole object ------------------------------------------------

  function PostingTotal(entries: seq<Dict.Entry>): nat {
    if entries == [] then 0 else PostingTotal(entries[..|entries| - 1]) + entries[|entries| - 1].df
  }

  datatype Layout = Layout(postings: Bytes, docstore: Bytes, termdict: Bytes, cache: Cache, footer: Footer)

  function LayoutOf<Doc(!new)>(src: Source<Doc>, terms: seq<string>, tools: Tools<Doc>, bloom: Bloom.Filter): Layout
  {
    var (postings, docstore) := (Flatten(PostingPieces(src, terms)), Flatten(DocPieces(src, tools)));
    var termdict := Flatten(DictPieces(src, terms));
    var (docsAt, dictAt) := (|postings|, |postings| + |docstore|);
    var hotAt := dictAt + |termdict|;
    var cache := Cache(TermBlocks(src, terms, dictAt), DocBlocks(src, tools, docsAt), Lengths(src.docs), bloom);
    var times := Times(src.documents, tools.timestamp);
    Layout(postings, docstore, termdict, cache,
      Footer(VERSION, 0, |postings|, docsAt, |docstore|, dictAt, |termdict|, hotAt, |CacheBytes(cache)|,
             |src.docs|, |terms|, PostingTotal(Entries(src, terms)), Sum(Lengths(src.docs)), Least(times), Greatest(times)))
  }

  function Body(layout: Layout): Bytes {
    layout.postings + (layout.docstore + (layout.termdict + CacheBytes(layout.cache)))
  }

  /** Every field fits: otherwise packing is refused. */
  predicate LayoutFits(layout: Layout) {
    Fits(layout.cache) && FooterFits(layout.footer)
  }

  function SegmentBytes(layout: Layout): Bytes
    requires LayoutFits(layout)
  {
    Body(layout) + PackFooter(layout.footer).value
  }

  // ---- the code's loops ------------------------------------------------

  method WritePostings<Doc(!new)>(src: Source<Doc>, terms: seq<string>)
    returns (r: Result<(Bytes, seq<Dict.Entry>)>)
    ensures r == if forall t :: t in terms ==> Takes(src, t) then Ok((Flatten(PostingPieces(src, terms)), Entries(src, terms)))
                 else Err(OverflowError)
  {
    hide PostingIds, PostingFreqs, Blocked.Encoded;
    ghost var (pieces, all) := (PostingPieces(src, terms), Entries(src, terms));
    var out: Bytes, entries: seq<Dict.Entry> := [], [];
    for i := 0 to |terms|
      invariant out == Flatten(pieces[..i]) && entries == all[..i]
      invariant forall t :: t in terms[..i] ==> Takes(src, t)
    {
      var t := terms[i];
      PostingAscends(src.docs, t);
      var encoded := Blocked.EncodeBlocked(PostingIds(src.docs, t), PostingFreqs(src.docs, t));
      if encoded.Err? {
        return Err(OverflowError);
      }
      OffsetNext(pieces, i);
      entries := entries + [Dict.Entry(t, |PostingIds(src.docs, t)|, |out|, |encoded.value|)];
      out := out + encoded.value;
    }
    assert pieces[..|terms|] == pieces && all[..|terms|] == all && terms[..|terms|] == terms;
    r := Ok((out, entries));
  }

  method WriteDocs<Doc(!new)>(src: Source<Doc>, tools: Tools<Doc>, base: nat) returns (out: Bytes, blocks: seq<DocBlock>)
    ensures out == Flatten(DocPieces(src, tools)) && blocks == DocBlocks(src, tools, base)
  {
    hide Chunk;
    ghost var (pieces, all) := (DocPieces(src, tools), DocBlocks(src, tools, base));
    out, blocks := [], [];
    for b := 0 to Blocks(|src.documents|, DOCS_PER_BLOCK)
      invariant out == Flatten(pieces[..b]) && blocks == all[..b]
    {
      var encoded := tools.deflate(Chunk(src.documents, DOCS_PER_BLOCK, b));
      OffsetNext(pieces, b);
      blocks := blocks + [DocBlock(b * DOCS_PER_BLOCK, base + |out|, |encoded|)];
      out := out + encoded;
    }
    assert pieces[..|pieces|] == pieces && all[..|pieces|] == all;
  }

  method WriteDict<Doc(!new)>(src: Source<Doc>, terms: seq<string>, entries: seq<Dict.Entry>, base: nat)
    returns (out: Bytes, blocks: seq<TermBlock>)
    requires entries == Entries(src, terms)
    ensures out == Flatten(DictPieces(src, terms)) && blocks == TermBlocks(src, terms, base)
  {
    hide Entries, Chunk, Dict.BlockBytes, Dict.NeverBehind;
    ghost var (pieces, all) := (DictPieces(src, terms), TermBlocks(src, terms, base));
    out, blocks := [], [];
    for b := 0 to Blocks(|terms|, TERMS_PER_BLOCK)
      invariant out == Flatten(pieces[..b]) && blocks == all[..b]
    {
      ChunkNeverBehind(src, terms, b);
      var encoded := Dict.EncodeBlock(Chunk(entries, TERMS_PER_BLOCK, b));
      OffsetNext(pieces, b);
      blocks := blocks + [TermBlock(terms[b * TERMS_PER_BLOCK], base + |out|, |encoded.value|)];
      out := out + encoded.value;
    }
    assert pieces[..|pieces|] == pieces && all[..|pieces|] == all;
  }

  /** The terms in order, from whatever order the index lists them in. */
  ghost predicate InOrder(terms: seq<string>, docs: seq<Terms>) {
    && (forall i, j :: 0 <= i < j < |terms| ==> StrLess(terms[i], terms[j]))
    && forall t :: t in terms <==> t in Vocabulary(docs)
  }

  lemma SortedTerms(listed: seq<string>, docs: seq<Terms>)
    requires Distinct(listed) && forall t :: t in listed <==> t in Vocabulary(docs)
    ensures InOrder(Sort(listed, StrLe), docs)
  {
    hide Vocabulary;
    StrOrder();
    var terms := Sort(listed, StrLe);
    SortSorted(listed, StrLe);
    DistinctPermutation(listed, terms);
    forall t
      ensures t in terms <==> t in listed
    {
      SortMember(listed, StrLe, t);
    }
  }

  /** The filter the writer builds over the terms. */
  ghost predicate FilterOf<Doc(!new)>(bloom: Bloom.Filter, tools: Tools<Doc>, terms: seq<string>) {
    Bloom.Holds(bloom, tools.hash, Elements(terms)) && (bloom.bits, bloom.hashes) == tools.size(|terms|)
  }

  /** `write_segment`: the object's bytes, or the error of a list or a field too narrow. */
  method WriteSegment<Doc(!new)>(src: Source<Doc>, listed: seq<string>, tools: Tools<Doc>)
    returns (r: Result<Bytes>, bloom: Bloom.Filter)
    requires src.Paired() && tools.Sound()
    requires Distinct(listed) && forall t :: t in listed <==> t in Vocabulary(src.docs)
    ensures var terms := Sort(listed, StrLe);
      var layout := LayoutOf(src, terms, tools, bloom);
      && InOrder(terms, src.docs) && FilterOf(bloom, tools, terms)
      && (r.Ok? <==> LayoutFits(layout)) && (r.Ok? ==> r.value == SegmentBytes(layout))
      && (r.Err? ==> r.error == if forall t :: t in terms ==> Takes(src, t) then StructError else OverflowError)
  {
    hide Entries, PostingPieces, DocPieces, DictPieces, DocBlocks, TermBlocks, Sort, Bloom.Holds, CacheBytes, Fits;
    hide FooterFits, Sum, Lengths, Times, InOrder, Flatten, PackFooter, Takes;
    SortedTerms(listed, src.docs);
    var terms := Sort(listed, StrLe);
    bloom := Bloom.ForTerms(tools.hash, tools.size, terms);
    FittingTakes(src, terms, tools, bloom);
    var lists := WritePostings(src, terms);
    if lists.Err? {
      return Err(OverflowError), bloom;
    }
    var (postings, entries) := lists.value;
    var docsAt := |postings|;
    var docstore, docBlocks := WriteDocs(src, tools, docsAt);
    var dictAt := docsAt + |docstore|;
    var termdict, termBlocks := WriteDict(src, terms, entries, dictAt);
    var hotAt := dictAt + |termdict|;
    var lengths := Lengths(src.docs);
    var cache := Cache(termBlocks, docBlocks, lengths, bloom);
    var hotcache := EncodeHotcache(cache);
    var times := Times(src.documents, tools.timestamp);
    if hotcache.Err? {
      r := Err(StructError);
    } else {
      var footer := Footer(VERSION, 0, |postings|, docsAt, |docstore|, dictAt, |termdict|, hotAt, |hotcache.value|,
                           |src.docs|, |terms|, PostingTotal(entries), Sum(lengths), Least(times), Greatest(times));
      PackOk(footer);
      var tail := PackFooter(footer);
      r := if tail.Err? then Err(StructError)
           else Ok(postings + (docstore + (termdict + hotcache.value)) + tail.value);
    }
  }

  /** A replay of the same documents writes the same bytes, whatever order the index lists its terms in. */
  lemma ReplayIsByteIdentical<Doc(!new)>(src: Source<Doc>, tools: Tools<Doc>, listed: seq<string>, again: seq<string>,
                                         bloom: Bloom.Filter, bloomAgain: Bloom.Filter)
    requires Distinct(listed) && forall t :: t in listed <==> t in Vocabulary(src.docs)
    requires Distinct(again) && forall t :: t in again <==> t in Vocabulary(src.docs)
    requires FilterOf(bloom, tools, Sort(listed, StrLe)) && FilterOf(bloomAgain, tools, Sort(again, StrLe))
    ensures LayoutOf(src, Sort(listed, StrLe), tools, bloom) == LayoutOf(src, Sort(again, StrLe), tools, bloomAgain)
  {
    hide Vocabulary, StrLe, LayoutOf, Bloom.Holds;
    StrOrder();
    DistinctSame(listed, again);
    SortOrderIrrelevant(listed, again, StrLe);
    Bloom.FilterIsItsTerms(bloom, bloomAgain, tools.hash, Elements(Sort(listed, StrLe)));
  }

  /** What fits the format's fields is sized, and the encoder takes every list of it. */
  lemma FittingTakes<Doc(!new)>(src: Source<Doc>, terms: seq<string>, tools: Tools<Doc>, bloom: Bloom.Filter)
    requires src.Paired()
    ensures LayoutFits(LayoutOf(src, terms, tools, bloom)) ==> src.Sized() && forall t :: t in terms ==> Takes(src, t)
  {
    hide PostingPieces, DocPieces, DictPieces, Entries, TermBlocks, DocBlocks, FooterFits, Flatten, Takes;
    var layout := LayoutOf(src, terms, tools, bloom);
    if LayoutFits(layout) {
      FittingSized(src, layout.cache);
      forall t | t in terms
        ensures Takes(src, t)
      {
        ListsFit(src, t);
      }
    }
  }

  lemma FittingSized<Doc>(src: Source<Doc>, cache: Cache)
    requires src.Paired() && Fits(cache) && cache.docLengths == Lengths(src.docs)
    ensures src.Sized()
  {
    hide Pow256;
    forall d | 0 <= d < |src.docs|
      ensures |src.docs[d]| < Pow256(4)
    {
      assert cache.docLengths[d] == |src.docs[d]|;
    }
  }

  lemma PackOk(f: Footer)
    ensures PackFooter(f).Ok? <==> FooterFits(f)
    ensures PackFooter(f).Err? ==> PackFooter(f).error == StructError
  {
  }
}
