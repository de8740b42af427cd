/** Time windows, from what a footer records to what a windowed search returns. */
module Windows {
  import opened Prelude
  import opened Sorting
  import opened Paging
  import opened Memory
  import opened Matching
  import opened Ranking
  import Manifests
  import Protocol
  import ProtocolSafety
  import opened SegmentWriter
  import opened Coordinator

  lemma {:induction false} TimesAre<Doc(!new)>(documents: seq<Doc>, timestamp: Doc -> Option<int>, ts: int)
    ensures ts in Times(documents, timestamp) <==> exists d :: 0 <= d < |documents| && timestamp(documents[d]) == Some(ts)
  {
    if documents != [] {
      var n := |documents| - 1;
      TimesAre(documents[..n], timestamp, ts);
      assert timestamp(documents[n]) == Some(ts) ==> ts in Times(documents, timestamp);
      if exists d :: 0 <= d < n && timestamp(documents[..n][d]) == Some(ts) {
        var d :| 0 <= d < n && timestamp(documents[..n][d]) == Some(ts);
        assert timestamp(documents[d]) == Some(ts);
      }
      if exists d :: 0 <= d < |documents| && timestamp(documents[d]) == Some(ts) {
        var d :| 0 <= d < |documents| && timestamp(documents[d]) == Some(ts);
        assert d == n || timestamp(documents[..n][d]) == Some(ts);
      }
    }
  }

  /** A segment with timestamps is pruned exactly when all of them are before the window, or all after it. */
  lemma PrunedIff(meta: Manifests.SegmentMeta<string>, times: seq<int>, start: Option<int>, end: Option<int>)
    requires times != [] && meta.minTs == Least(times) && meta.maxTs == Greatest(times)
    ensures !meta.Overlaps(start, end) <==>
      || (start.Some? && forall ts :: ts in times ==> ts < start.value)
      || (end.Some? && forall ts :: ts in times ==> ts > end.value)
  {
  }

  /** A sealer that records the least and the greatest timestamp encloses the documents' times. */
  lemma FooterTimesEnclose<Doc(!new)>(sealer: Protocol.Sealer<Doc>, timestamp: Doc -> Option<int>)
    requires forall docs :: sealer.minTs(docs) == Least(Times(docs, timestamp))
    requires forall docs :: sealer.maxTs(docs) == Greatest(Times(docs, timestamp))
    ensures ProtocolSafety.Encloses(sealer, timestamp)
  {
    forall docs: seq<Doc>, i | 0 <= i < |docs| && timestamp(docs[i]).Some?
      ensures sealer.minTs(docs) <= timestamp(docs[i]).value <= sealer.maxTs(docs)
    {
      TimesAre(docs, timestamp, timestamp(docs[i]).value);
    }
  }

  // ---- what a window leaves --------------------------------------------

  /** The window leaves exactly the segments that reach neither wholly before it nor wholly after it, in order. */
  lemma {:induction false} SurvivingExactly(segments: seq<Segment>, start: Option<int>, end: Option<int>, s: Segment)
    ensures s in Surviving(segments, start, end) <==>
      s in segments && !(start.Some? && s.meta.maxTs < start.value) && !(end.Some? && s.meta.minTs > end.value)
    decreases |segments|
  {
    if segments != [] {
      var n := |segments| - 1;
      SurvivingExactly(segments[..n], start, end, s);
      assert segments == segments[..n] + [segments[n]];
    }
  }

  lemma {:induction false} SurvivingInOrder(a: seq<Segment>, b: seq<Segment>, start: Option<int>, end: Option<int>)
    ensures Surviving(a + b, start, end) == Surviving(a, start, end) + Surviving(b, start, end)
    decreases |b|
  {
    if b == [] {
      assert a + b == a;
    } else {
      var n := |b| - 1;
      assert (a + b)[..|a + b| - 1] == a + b[..n];
      SurvivingInOrder(a, b[..n], start, end);
    }
  }

  /** A matching document with a time inside the window is found, whatever the window prunes. */
  lemma WindowMissesNothing<Doc(!new)>(segments: seq<Segment>, contents: Contents, tokens: seq<string>, mode: Mode,
                                       start: Option<int>, end: Option<int>, globalStats: bool, scorer: Scorer,
                                       documents: seq<Doc>, timestamp: Doc -> Option<int>, s: Segment, d: nat)
    requires s in segments && s.meta.key in contents && |documents| == |contents[s.meta.key]| && d < |documents|
    requires var times := Times(documents, timestamp);
      s.meta.minTs == Least(times) && s.meta.maxTs == Greatest(times)
    requires timestamp(documents[d]).Some?
    requires var ts := timestamp(documents[d]).value;
      (start.Some? ==> start.value <= ts) && (end.Some? ==> ts <= end.value)
    requires Satisfies(contents[s.meta.key][d], QueryTerms(tokens), mode)
    ensures var live := Surviving(segments, start, end);
      exists h: GlobalHit :: h.segment == s.meta.key && h.doc == d &&
        h in FullRanking(live, contents, QueryTerms(tokens), mode, scorer,
                         CorpusFor(DocsIn(contents, live), tokens, globalStats, scorer))
  {
    hide QueryTerms, Sort, Times, Satisfies, Surviving, CorpusFor;
    TimesAre(documents, timestamp, timestamp(documents[d]).value);
    SurvivingExactly(segments, start, end, s);
    var (live, terms) := (Surviving(segments, start, end), QueryTerms(tokens));
    var corpus := CorpusFor(DocsIn(contents, live), tokens, globalStats, scorer);
    var i :| 0 <= i < |live| && live[i] == s;
    var each := HitsOfEach(live, contents, terms, mode, scorer, corpus);
    var h := HitThere(s.meta.key, contents[s.meta.key], terms, mode, scorer, corpus, d);
    InFlatten(each, i, h);
    SortMember(Flatten(each), Ahead, h);
  }

  lemma HitThere(key: string, docs: seq<Terms>, terms: seq<string>, mode: Mode, scorer: Scorer, corpus: Option<Corpus>,
                 d: nat) returns (h: GlobalHit)
    requires d < |docs| && Satisfies(docs[d], terms, mode)
    ensures h.segment == key && h.doc == d && h in HitsIn(key, docs, terms, mode, scorer, corpus)
  {
    hide Matches, Satisfies, ScoreOf, BasisOf, Dfs;
    MatchesMember(docs, terms, mode, d);
    var k :| 0 <= k < |Matches(docs, terms, mode)| && Matches(docs, terms, mode)[k] == d;
    h := HitsIn(key, docs, terms, mode, scorer, corpus)[k];
  }

  lemma {:induction false} InFlatten<T>(parts: seq<seq<T>>, i: nat, x: T)
    requires i < |parts| && x in parts[i]
    ensures x in Flatten(parts)
  {
    var n := |parts| - 1;
    if i < n {
      InFlatten(parts[..n], i, x);
    }
  }
}
