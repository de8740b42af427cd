/**
 What an inverted index says about the analysed documents it was built from, and the
 in-memory index that maintains it: src/aether/index/memory.py.
 */
module Memory {
  import opened Prelude
  import opened Postings

  type Terms = seq<string>

  // ---- the index as a function of the documents ------------------------

  /** The documents containing `t`, in order. */
  function PostingIds(docs: seq<Terms>, t: string): seq<nat> {
    if docs == [] then []
    else
      var n := |docs| - 1;
      PostingIds(docs[..n], t) + if t in docs[n] then [n] else []
  }

  /** How often `t` occurs in each of them. */
  function PostingFreqs(docs: seq<Terms>, t: string): (r: seq<nat>)
    ensures |r| == |PostingIds(docs, t)|
  {
    if docs == [] then []
    else
      var n := |docs| - 1;
      PostingFreqs(docs[..n], t) + if t in docs[n] then [multiset(docs[n])[t]] else []
  }

  lemma {:induction false} PostingMember(docs: seq<Terms>, t: string, d: int)
    ensures d in PostingIds(docs, t) <==> 0 <= d < |docs| && t in docs[d]
  {
    if docs != [] {
      PostingMember(docs[..|docs| - 1], t, d);
    }
  }

  lemma {:induction false} PostingAscends(docs: seq<Terms>, t: string)
    ensures Ascending(PostingIds(docs, t))
  {
    if docs != [] {
      var n := |docs| - 1;
      var before := PostingIds(docs[..n], t);
      PostingAscends(docs[..n], t);
      forall d | d in before
        ensures d < n
      {
        PostingMember(docs[..n], t, d);
      }
      AscendingSnoc(before, n);
    }
  }

  lemma {:induction false} PostingFreq(docs: seq<Terms>, t: string, d: nat)
    requires d < |docs|
    ensures FreqOf(PostingIds(docs, t), PostingFreqs(docs, t), d) == multiset(docs[d])[t]
  {
    var n := |docs| - 1;
    var (ids, freqs) := (PostingIds(docs[..n], t), PostingFreqs(docs[..n], t));
    PostingMember(docs[..n], t, n);
    assert t !in docs[n] ==> PostingIds(docs, t) == ids && PostingFreqs(docs, t) == freqs;
    if t in docs[n] {
      FreqOfSnoc(ids, freqs, n, multiset(docs[n])[t], d);
    }
    if d < n {
      PostingFreq(docs[..n], t, d);
    } else if t !in docs[n] {
      FreqOfAbsent(ids, freqs, n);
    }
  }

  lemma {:induction false} FreqOfSnoc(ids: seq<nat>, freqs: seq<nat>, id: nat, freq: nat, d: nat)
    requires |ids| == |freqs| && id !in ids
    ensures FreqOf(ids + [id], freqs + [freq], d) == if d == id then freq else FreqOf(ids, freqs, d)
  {
    if ids == [] {
      assert (ids + [id])[1..] == [];
    } else {
      assert (ids + [id])[1..] == ids[1..] + [id] && (freqs + [freq])[1..] == freqs[1..] + [freq];
      FreqOfSnoc(ids[1..], freqs[1..], id, freq, d);
    }
  }

  /** Every indexed term. */
  function Vocabulary(docs: seq<Terms>): set<string> {
    set d, t | 0 <= d < |docs| && t in docs[d] :: t
  }

  type Listing = map<string, (seq<nat>, seq<nat>)>

  /** The whole inverted index. */
  function Inverted(docs: seq<Terms>): Listing {
    map t | t in Vocabulary(docs) :: (PostingIds(docs, t), PostingFreqs(docs, t))
  }

  function Lengths(docs: seq<Terms>): seq<nat> {
    seq(|docs|, d requires 0 <= d < |docs| => |docs[d]|)
  }

  lemma {:induction false} AbsentTerm(docs: seq<Terms>, t: string)
    requires t !in Vocabulary(docs)
    ensures PostingIds(docs, t) == [] && PostingFreqs(docs, t) == []
  {
    if docs != [] {
      assert t !in docs[|docs| - 1];
      assert Vocabulary(docs[..|docs| - 1]) <= Vocabulary(docs);
      AbsentTerm(docs[..|docs| - 1], t);
    }
  }

  // ---- one more document -----------------------------------------------

  function Listed(m: Listing, t: string): (seq<nat>, seq<nat>) {
    if t in m then m[t] else ([], [])
  }

  /** `m` after document `id` was appended to the lists of the terms in `done`. */
  function WithTerms(m: Listing, id: nat, terms: Terms, done: set<string>): Listing {
    map t | t in m.Keys + done ::
      if t in done then (Listed(m, t).0 + [id], Listed(m, t).1 + [multiset(terms)[t]]) else m[t]
  }

  lemma WithNone(m: Listing, id: nat, terms: Terms)
    ensures WithTerms(m, id, terms, {}) == m
  {
  }

  lemma LengthsGrow(docs: seq<Terms>, terms: Terms)
    ensures Lengths(docs + [terms]) == Lengths(docs) + [|terms|]
    ensures Sum(Lengths(docs + [terms])) == Sum(Lengths(docs)) + |terms|
  {
    assert Lengths(docs + [terms])[..|docs|] == Lengths(docs);
  }

  lemma WithOneMore(m: Listing, id: nat, terms: Terms, done: set<string>, t: string)
    requires t !in done
    ensures var before := WithTerms(m, id, terms, done);
      && Listed(before, t) == Listed(m, t)
      && WithTerms(m, id, terms, done + {t})
         == before[t := (Listed(m, t).0 + [id], Listed(m, t).1 + [multiset(terms)[t]])]
  {
  }

  lemma WithAllTerms(docs: seq<Terms>, terms: Terms)
    ensures WithTerms(Inverted(docs), |docs|, terms, set t | t in terms) == Inverted(docs + [terms])
  {
    hide PostingIds, PostingFreqs, Vocabulary;
    var all := docs + [terms];
    var m := Inverted(docs);
    var done := set t | t in terms;
    VocabularyGrows(docs, terms);
    forall t | t in Inverted(all)
      ensures t in m.Keys + done && WithTerms(m, |docs|, terms, done)[t] == Inverted(all)[t]
    {
      PostingsGrow(docs, terms, t);
      if t !in m { AbsentTerm(docs, t); }
      assert Listed(m, t) == (PostingIds(docs, t), PostingFreqs(docs, t));
      assert t !in terms ==> PostingIds(all, t) == PostingIds(docs, t) && PostingFreqs(all, t) == PostingFreqs(docs, t);
    }
  }

  lemma VocabularyGrows(docs: seq<Terms>, terms: Terms)
    ensures Vocabulary(docs + [terms]) == Vocabulary(docs) + set t | t in terms
  {
    var all := docs + [terms];
    forall t | t in terms
      ensures t in Vocabulary(all)
    {
      assert t in all[|docs|];
    }
    forall t | t in Vocabulary(docs)
      ensures t in Vocabulary(all)
    {
      var d :| 0 <= d < |docs| && t in docs[d];
      assert t in all[d];
    }
  }

  lemma PostingsGrow(docs: seq<Terms>, terms: Terms, t: string)
    ensures var all := docs + [terms];
      && PostingIds(all, t) == PostingIds(docs, t) + (if t in terms then [|docs|] else [])
      && PostingFreqs(all, t) == PostingFreqs(docs, t) + (if t in terms then [multiset(terms)[t]] else [])
  {
    assert (docs + [terms])[..|docs|] == docs;
  }

  // ---- the index -------------------------------------------------------

  class MemoryIndex<Doc> {
    const analyze: Doc -> Terms
    var postings: map<string, PostingList>
    var documents: seq<Doc>
    var docLengths: seq<nat>
    var totalLength: nat

    /** The analysed documents, in the order they were added. */
    ghost function View(): (r: seq<Terms>)
      reads this
      ensures |r| == |documents|
    {
      seq(|documents|, d requires 0 <= d < |documents| reads this => analyze(documents[d]))
    }

    ghost function Contents(): (m: Listing)
      reads this, postings.Values
      ensures m.Keys == postings.Keys
    {
      map t | t in postings :: (postings[t].docIds, postings[t].freqs)
    }

    ghost predicate Separate()
      reads this, postings.Values
    {
      && (forall t :: t in postings ==> postings[t].Valid())
      && (forall t, u :: t in postings && u in postings && t != u ==> postings[t] != postings[u])
    }

    /** The index is exactly the inverted index of its documents. */
    ghost predicate Valid()
      reads this, postings.Values
    {
      Separate() && Contents() == Inverted(View()) && docLengths == Lengths(View()) && totalLength == Sum(docLengths)
    }

    constructor (analyze: Doc -> Terms)
      ensures Valid() && documents == [] && this.analyze == analyze && fresh(postings.Values)
    {
      this.analyze := analyze;
      postings, documents, docLengths, totalLength := map[], [], [], 0;
    }

    /** One pass of the loop over the counted terms. */
    method AddTerm(t: string, docId: nat, freq: nat)
      requires Separate() && forall d :: d in Listed(Contents(), t).0 ==> d < docId
      modifies this`postings, postings.Values
      ensures Separate() && fresh(postings.Values - old(postings.Values))
      ensures Contents() == old(Contents())[t := (Listed(old(Contents()), t).0 + [docId], Listed(old(Contents()), t).1 + [freq])]
    {
      hide Ascending;
      if t !in postings {
        var list := new PostingList();
        postings := postings[t := list];
      }
      var list := postings[t];
      assert list.docIds == Listed(old(Contents()), t).0 && list.freqs == Listed(old(Contents()), t).1;
      var r := list.Append(docId, freq);
    }

    /** Indexes one document under the next id. */
    method Add(doc: Doc) returns (docId: nat)
      requires Valid()
      modifies this, postings.Values
      ensures Valid() && fresh(postings.Values - old(postings.Values))
      ensures docId == old(|documents|) && documents == old(documents) + [doc]
      ensures View() == old(View()) + [analyze(doc)]
    {
      hide Inverted, WithTerms, Vocabulary, Ascending, Lengths, Sum;
      ghost var (docs, m, held) := (View(), Contents(), postings.Values);
      docId := |documents|;
      documents := documents + [doc];
      var terms := analyze(doc);
      docLengths := docLengths + [|terms|];
      totalLength := totalLength + |terms|;
      var done: set<string>, todo := {}, set t | t in terms;
      WithNone(m, docId, terms);
      while todo != {}
        invariant done + todo == (set t | t in terms) && done !! todo
        invariant Separate() && fresh(postings.Values - held)
        invariant Contents() == WithTerms(m, docId, terms, done)
        invariant documents == old(documents) + [doc] && docLengths == old(docLengths) + [|terms|]
        invariant totalLength == old(totalLength) + |terms|
        decreases todo
      {
        var t :| t in todo;
        WithOneMore(m, docId, terms, done, t);
        ListedBelow(docs, t);
        AddTerm(t, docId, multiset(terms)[t]);
        done, todo := done + {t}, todo - {t};
      }
      WithAllTerms(docs, terms);
      assert View() == docs + [terms];
      LengthsGrow(docs, terms);
    }
  }

  lemma ListedBelow(docs: seq<Terms>, t: string)
    ensures forall d :: d in Listed(Inverted(docs), t).0 ==> d < |docs|
  {
    hide PostingIds, PostingFreqs, Vocabulary;
    forall d | d in Listed(Inverted(docs), t).0
      ensures d < |docs|
    {
      PostingMember(docs, t, d);
    }
  }
}
