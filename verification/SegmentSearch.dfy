/** A segment behind the query engine: written, opened lazily and searched, it answers as its documents do. */
module SegmentSearch {
  import opened Prelude
  import opened Sorting
  import opened Memory
  import opened Blocked
  import opened BlockedReader
  import opened Matching
  import opened Ranking
  import Manifests
  import Bloom
  import Dict = DictBlock
  import Hotcache
  import opened SegmentWriter
  import opened SegmentFaithful
  import opened SegmentReading

  /** Opens a segment: two reads, or the error of bytes that are not one. */
  method Open<Doc(!new)>(data: Bytes, tools: Tools<Doc>) returns (r: Result<SegmentReader<Doc>>)
    ensures r.Ok? <==> Opened(data).Ok?
    ensures r.Err? ==> r.error == Opened(data).error
    ensures r.Ok? ==> fresh(r.value) && r.value.Valid() && r.value.data == data && r.value.tools == tools
    ensures r.Ok? ==> Opened(data) == Ok((r.value.footer, r.value.hotcache))
  {
    hide Opened;
    var parts :- Opened(data);
    var reader := new SegmentReader(data, parts.0, parts.1, tools);
    r := Ok(reader);
  }

  /** A reader that represents a term's list is a faithful list for the query engine. */
  lemma PackedIsList(p: TermPostings, ids: seq<nat>, freqs: seq<nat>)
    requires p.Packed? && Represents(p.reader.header, ids, freqs)
    ensures p.Faithful() && p.Ids() == ids && p.Freqs() == freqs
  {
    hide DecodedBlock, Whole;
    WholeIsAll(p.reader.header, ids, freqs);
  }

  /** The lists gathered so far answer for the terms in `done`. */
  ghost predicate AnswersFor(index: Index, docs: seq<Terms>, done: set<string>) {
    && index.Keys == done
    && forall t :: t in done ==>
      index[t].Faithful() && index[t].Ids() == PostingIds(docs, t) && index[t].Freqs() == PostingFreqs(docs, t)
  }

  /** The segment's posting lists, as the query engine asks for them. */
  method AsIndex<Doc(!new)>(reader: SegmentReader<Doc>, ghost src: Source<Doc>, ghost terms: seq<string>)
    returns (index: Index)
    requires reader.Valid()
    requires Faithful(reader.data, reader.footer, reader.hotcache, src, terms, reader.tools)
    modifies reader
    ensures reader.Valid()
    ensures Answers(index, src.docs) && AllValid(IndexReaders(index)) && fresh(IndexReaders(index))
  {
    hide SegmentFaithful.Faithful, Vocabulary, DecodedBlock, PostingIds, PostingFreqs, Represents, Elements;
    hide TermPostings.Faithful, TermPostings.Ids, TermPostings.Freqs;
    var all := reader.Terms(src, terms);
    OrderedVocabulary(all, src.docs);
    index := map[];
    NoElements(all[..0]);
    for i := 0 to |all|
      invariant reader.Valid()
      invariant AnswersFor(index, src.docs, Elements(all[..i]))
      invariant AllValid(IndexReaders(index)) && fresh(IndexReaders(index))
    {
      var t := all[i];
      var postings := reader.Postings(t, src, terms);
      PackedIsList(Packed(postings.value), PostingIds(src.docs, t), PostingFreqs(src.docs, t));
      ghost var before := IndexReaders(index);
      assert all[..i + 1] == all[..i] + [t];
      ElementsSnoc(all[..i], t);
      index := index[t := Packed(postings.value)];
      assert IndexReaders(index) <= before + {postings.value};
    }
    assert all[..|all|] == all;
    AnswersAll(index, src.docs);
  }

  lemma OrderedVocabulary(terms: seq<string>, docs: seq<Terms>)
    requires InOrder(terms, docs)
    ensures Elements(terms) == Vocabulary(docs)
    ensures forall i :: 0 <= i < |terms| ==> terms[i] in Vocabulary(docs)
  {
    hide Vocabulary, StrLe;
  }

  lemma AnswersAll(index: Index, docs: seq<Terms>)
    requires AnswersFor(index, docs, Vocabulary(docs))
    ensures Answers(index, docs)
  {
    hide TermPostings.Faithful, TermPostings.Ids, TermPostings.Freqs, PostingIds, PostingFreqs, Vocabulary;
  }

  /**
   Writing an index, opening what was written and searching it is brute force over the documents.
   It succeeds exactly when everything fits the format's fields.
   */
  method SearchWritten<Doc(!new)>(src: Source<Doc>, listed: seq<string>, tools: Tools<Doc>, tokens: seq<string>,
                                  topK: int, mode: Mode, scorer: Scorer, corpus: Option<Corpus>)
    returns (r: Result<SearchResult>, ghost bloom: Bloom.Filter)
    requires src.Paired() && tools.Sound()
    requires Distinct(listed) && forall t :: t in listed <==> t in Vocabulary(src.docs)
    ensures FilterOf(bloom, tools, Sort(listed, StrLe))
    ensures r.Ok? <==> LayoutFits(LayoutOf(src, Sort(listed, StrLe), tools, bloom))
    ensures r.Ok? ==> r.value == BruteForce(src.docs, tokens, mode, scorer, corpus, topK)
    ensures r.Err? ==> r.error == if forall t :: t in Sort(listed, StrLe) ==> Takes(src, t) then StructError
                                  else OverflowError
  {
    hide SegmentFaithful.Faithful, Opened, Vocabulary, LayoutOf, SegmentBytes, Answers, BruteForce, Bloom.Holds, InOrder;
    hide LayoutFits, Sort, DecodedBlock, Lengths, Takes;
    ghost var terms := Sort(listed, StrLe);
    var written, filter := WriteSegment(src, listed, tools);
    bloom := filter;
    if written.Err? {
      return Err(written.error), bloom;
    }
    WrittenIsFaithful(src, terms, tools, bloom);
    var segment := Open(written.value, tools);
    var reader := segment.value;
    var index := AsIndex(reader, src, terms);
    DocLengthsAre(reader, src, terms);
    var found := Search(index, src.docs, reader.hotcache.docLengths, tokens, topK, mode, scorer, corpus);
    r := Ok(found);
  }

  lemma DocLengthsAre<Doc(!new)>(reader: SegmentReader<Doc>, src: Source<Doc>, terms: seq<string>)
    requires Faithful(reader.data, reader.footer, reader.hotcache, src, terms, reader.tools)
    ensures reader.hotcache.docLengths == Lengths(src.docs)
  {
  }

  // ---- time windows ----------------------------------------------------

  lemma {:induction false} TimesMember<Doc(!new)>(documents: seq<Doc>, timestamp: Doc -> Option<int>, d: nat)
    requires d < |documents| && timestamp(documents[d]).Some?
    ensures timestamp(documents[d]).value in Times(documents, timestamp)
  {
    if d < |documents| - 1 {
      TimesMember(documents[..|documents| - 1], timestamp, d);
    }
  }

  /** A segment pruned by the times its footer records holds no document inside the window. */
  lemma PruningIsSafe<Doc(!new)>(documents: seq<Doc>, timestamp: Doc -> Option<int>, meta: Manifests.SegmentMeta<string>,
                                 start: Option<int>, end: Option<int>, d: nat)
    requires meta.minTs == Least(Times(documents, timestamp)) && meta.maxTs == Greatest(Times(documents, timestamp))
    requires !meta.Overlaps(start, end)
    requires d < |documents| && timestamp(documents[d]).Some?
    ensures var ts := timestamp(documents[d]).value;
      (start.Some? && ts < start.value) || (end.Some? && ts > end.value)
  {
    TimesMember(documents, timestamp, d);
  }
}
