/** One block of the term dictionary, front coded: src/aether/index/segment.py. */
module DictBlock {
  import opened Prelude
  import opened Codec
  import Utf8

  datatype Entry = Entry(term: string, df: nat, offset: nat, length: nat)

  /** A dictionary: a place for each term, and the terms in the order they were first stored. */
  datatype Lookup = Lookup(order: seq<string>, places: map<string, (nat, nat, nat)>) {
    function With(e: Entry): Lookup {
      Lookup(if e.term in places then order else order + [e.term], places[e.term := (e.df, e.offset, e.length)])
    }
  }

  const NO_TERMS := Lookup([], map[])

  // ---- encoding --------------------------------------------------------

  /** How many leading characters two terms share. */
  function Shared(a: string, b: string): (n: nat)
    ensures n <= |a| && n <= |b| && a[..n] == b[..n]
    ensures n < |a| && n < |b| ==> a[n] != b[n]
  {
    if a == "" || b == "" || a[0] != b[0] then 0
    else
      var rest := Shared(a[1..], b[1..]);
      assert a[..rest + 1] == [a[0]] + a[1..][..rest] && b[..rest + 1] == [b[0]] + b[1..][..rest];
      1 + rest
  }

  /** What the entry before `i` leaves: its term, and where its postings end. */
  function TermBefore(entries: seq<Entry>, i: nat): string
    requires i <= |entries|
  {
    if i == 0 then "" else entries[i - 1].term
  }

  function Predicted(entries: seq<Entry>, i: nat): nat
    requires 0 < |entries| && i <= |entries|
  {
    if i == 0 then entries[0].offset else entries[i - 1].offset + entries[i - 1].length
  }

  /** No offset falls behind the end of the postings before it. */
  predicate NeverBehind(entries: seq<Entry>) {
    forall i :: 0 <= i < |entries| ==> entries[i].offset >= Predicted(entries, i)
  }

  function SuffixBytes(before: string, term: string): Bytes {
    Utf8.Encode(term[Shared(before, term)..])
  }

  function EntryBytes(before: string, predicted: nat, e: Entry): Bytes
    requires e.offset >= predicted
  {
    var suffix := SuffixBytes(before, e.term);
    EncodeVarint(Shared(before, e.term)) + (EncodeVarint(|suffix|) + (suffix
      + (EncodeVarint(e.df) + (EncodeVarint(e.offset - predicted) + EncodeVarint(e.length)))))
  }

  function EntriesBytes(entries: seq<Entry>, n: nat): Bytes
    requires n <= |entries| && NeverBehind(entries)
  {
    if n == 0 then []
    else EntriesBytes(entries, n - 1)
         + EntryBytes(TermBefore(entries, n - 1), Predicted(entries, n - 1), entries[n - 1])
  }

  function BlockBytes(entries: seq<Entry>): Bytes
    requires NeverBehind(entries)
  {
    if entries == [] then EncodeVarint(0)
    else EncodeVarint(|entries|) + (EncodeVarint(entries[0].offset) + EntriesBytes(entries, |entries|))
  }

  method EncodeBlock(entries: seq<Entry>) returns (r: Result<Bytes>)
    ensures r.Ok? <==> NeverBehind(entries)
    ensures r.Ok? ==> r.value == BlockBytes(entries)
    ensures r.Err? ==> r.error == ValueError
  {
    hide EncodeVarint, EntryBytes;
    var out := EncodeVarint(|entries|);
    if entries == [] {
      return Ok(out);
    }
    out := out + EncodeVarint(entries[0].offset);
    ghost var head := out;
    var (before, predicted) := ("", entries[0].offset);
    ghost var body: Bytes := [];
    for i := 0 to |entries|
      invariant before == TermBefore(entries, i) && predicted == Predicted(entries, i)
      invariant forall k :: 0 <= k < i ==> entries[k].offset >= Predicted(entries, k)
      invariant NeverBehind(entries) ==> body == EntriesBytes(entries, i)
      invariant out == head + body
    {
      var e := entries[i];
      if e.offset < predicted {
        return Err(ValueError);
      }
      var one := EntryBytes(before, predicted, e);
      body := body + one;
      out := out + one;
      before, predicted := e.term, e.offset + e.length;
    }
    assert out == EncodeVarint(|entries|) + (EncodeVarint(entries[0].offset) + body);
    r := Ok(out);
  }

  // ---- decoding --------------------------------------------------------

  /** One entry after `before`, and the position past it. */
  function DecodeEntry(data: Bytes, pos: nat, before: string, predicted: nat): Result<(Entry, nat)> {
    var (shared, p1) :- DecodeVarint(data, pos);
    var (width, p2) :- DecodeVarint(data, p1);
    var suffix :- Utf8.Decode(Slice(data, p2, p2 + width));
    var (df, p3) :- DecodeVarint(data, p2 + width);
    var (gap, p4) :- DecodeVarint(data, p3);
    var (length, p5) :- DecodeVarint(data, p4);
    Ok((Entry(Take(before, shared) + suffix, df, predicted + gap, length), p5))
  }

  /** The first `n` entries from `pos` on, in a block whose offsets start at `origin`. */
  function DecodeEntries(data: Bytes, n: nat, pos: nat, origin: nat): (r: Result<(seq<Entry>, nat)>)
    ensures r.Ok? ==> |r.value.0| == n
  {
    if n == 0 then Ok(([], pos))
    else
      var (entries, p) :- DecodeEntries(data, n - 1, pos, origin);
      var (before, predicted) := Context(entries, origin);
      var (e, q) :- DecodeEntry(data, p, before, predicted);
      Ok((entries + [e], q))
  }

  /** What the decoder carries from one entry to the next. */
  function Context(entries: seq<Entry>, origin: nat): (string, nat) {
    if entries == [] then ("", origin)
    else
      var last := entries[|entries| - 1];
      (last.term, last.offset + last.length)
  }

  /** The dictionary the entries fill, a later entry replacing an earlier one. */
  function AsLookup(entries: seq<Entry>): Lookup {
    if entries == [] then NO_TERMS else AsLookup(entries[..|entries| - 1]).With(entries[|entries| - 1])
  }

  function DecodeBlock(data: Bytes): Result<Lookup> {
    var (count, pos) :- DecodeVarint(data, 0);
    if count == 0 then Ok(NO_TERMS)
    else
      var (origin, p) :- DecodeVarint(data, pos);
      var (entries, _) :- DecodeEntries(data, count, p, origin);
      Ok(AsLookup(entries))
  }

  method DecodeBlockLoop(data: Bytes) returns (r: Result<Lookup>)
    ensures r == DecodeBlock(data)
  {
    hide DecodeVarint, DecodeEntry;
    var head :- DecodeVarint(data, 0);
    var (count, start) := head;
    if count == 0 {
      return Ok(NO_TERMS);
    }
    var second :- DecodeVarint(data, start);
    var (origin, first) := second;
    var found := NO_TERMS;
    ghost var entries: seq<Entry> := [];
    var (before, predicted, pos) := ("", origin, first);
    for i := 0 to count
      invariant DecodeEntries(data, i, first, origin) == Ok((entries, pos))
      invariant (before, predicted) == Context(entries, origin)
      invariant found == AsLookup(entries)
    {
      var one := DecodeEntry(data, pos, before, predicted);
      if one.Err? {
        EntriesFail(data, i + 1, count, first, origin);
        return Err(one.error);
      }
      var (e, next) := one.value;
      entries := entries + [e];
      found := found.With(e);
      before, predicted, pos := e.term, e.offset + e.length, next;
    }
    r := Ok(found);
  }

  lemma {:induction false} EntriesFail(data: Bytes, few: nat, many: nat, pos: nat, origin: nat)
    requires few <= many && DecodeEntries(data, few, pos, origin).Err?
    ensures DecodeEntries(data, many, pos, origin) == Err(DecodeEntries(data, few, pos, origin).error)
  {
    hide DecodeEntry;
    if few < many {
      EntriesFail(data, few, many - 1, pos, origin);
    }
  }

  // ---- the round trip --------------------------------------------------

  /** Where the six parts of an entry stand. */
  lemma EntryParts(data: Bytes, pos: nat, before: string, predicted: nat, e: Entry)
    requires e.offset >= predicted && At(data, pos, EntryBytes(before, predicted, e))
    ensures
      var suffix := SuffixBytes(before, e.term);
      var (a, b) := (EncodeVarint(Shared(before, e.term)), EncodeVarint(|suffix|));
      var (c, d, f) := (EncodeVarint(e.df), EncodeVarint(e.offset - predicted), EncodeVarint(e.length));
      var p3 := pos + |a| + |b| + |suffix|;
      && At(data, pos, a) && At(data, pos + |a|, b) && At(data, pos + |a| + |b|, suffix)
      && At(data, p3, c) && At(data, p3 + |c|, d) && At(data, p3 + |c| + |d|, f)
      && pos + |EntryBytes(before, predicted, e)| == p3 + |c| + |d| + |f|
  {
    hide EncodeVarint, Shared, SuffixBytes, At;
    var suffix := SuffixBytes(before, e.term);
    var (a, b) := (EncodeVarint(Shared(before, e.term)), EncodeVarint(|suffix|));
    var (c, d, f) := (EncodeVarint(e.df), EncodeVarint(e.offset - predicted), EncodeVarint(e.length));
    AtSplit(data, pos, a, b + (suffix + (c + (d + f))));
    AtSplit(data, pos + |a|, b, suffix + (c + (d + f)));
    AtSplit(data, pos + |a| + |b|, suffix, c + (d + f));
    AtSplit(data, pos + |a| + |b| + |suffix|, c, d + f);
    AtSplit(data, pos + |a| + |b| + |suffix| + |c|, d, f);
  }

  lemma EntryRoundTrip(data: Bytes, pos: nat, before: string, predicted: nat, e: Entry)
    requires e.offset >= predicted && At(data, pos, EntryBytes(before, predicted, e))
    ensures DecodeEntry(data, pos, before, predicted) == Ok((e, pos + |EntryBytes(before, predicted, e)|))
  {
    hide EncodeVarint, DecodeVarint, Shared, Utf8.Encode, Utf8.Decode, EntryBytes, At, Slice, Take;
    EntryParts(data, pos, before, predicted, e);
    var suffix := SuffixBytes(before, e.term);
    var shared := Shared(before, e.term);
    var p2 := pos + |EncodeVarint(shared)| + |EncodeVarint(|suffix|)|;
    var p3 := p2 + |suffix|;
    VarintRoundTrip(data, pos, shared);
    VarintRoundTrip(data, pos + |EncodeVarint(shared)|, |suffix|);
    VarintRoundTrip(data, p3, e.df);
    VarintRoundTrip(data, p3 + |EncodeVarint(e.df)|, e.offset - predicted);
    VarintRoundTrip(data, p3 + |EncodeVarint(e.df)| + |EncodeVarint(e.offset - predicted)|, e.length);
    SliceAt(data, p2, suffix);
    Utf8.RoundTrip(e.term[shared..]);
    Rejoined(before, e.term);
  }

  /** The shared part of the term before, and the suffix, make the term again. */
  lemma Rejoined(before: string, term: string)
    ensures Take(before, Shared(before, term)) + term[Shared(before, term)..] == term
  {
    var shared := Shared(before, term);
    assert before[..shared] == term[..shared];
  }

  lemma {:induction false} EntriesRoundTrip(data: Bytes, pos: nat, entries: seq<Entry>, n: nat)
    requires 0 < |entries| && n <= |entries| && NeverBehind(entries)
    requires At(data, pos, EntriesBytes(entries, n))
    ensures DecodeEntries(data, n, pos, entries[0].offset) == Ok((entries[..n], pos + |EntriesBytes(entries, n)|))
  {
    hide EntryBytes, DecodeEntry, Context, At, TermBefore, Predicted;
    if n > 0 {
      var (before, last) := (EntriesBytes(entries, n - 1),
                             EntryBytes(TermBefore(entries, n - 1), Predicted(entries, n - 1), entries[n - 1]));
      AtSplit(data, pos, before, last);
      EntriesRoundTrip(data, pos, entries, n - 1);
      EntryRoundTrip(data, pos + |before|, TermBefore(entries, n - 1), Predicted(entries, n - 1), entries[n - 1]);
      ContextIs(entries, n - 1);
      assert entries[..n] == entries[..n - 1] + [entries[n - 1]];
    }
  }

  lemma ContextIs(entries: seq<Entry>, i: nat)
    requires 0 < |entries| && i <= |entries|
    ensures Context(entries[..i], entries[0].offset) == (TermBefore(entries, i), Predicted(entries, i))
  {
  }

  /** A block decodes, with no other block present and whatever follows it, to the entries encoded. */
  lemma BlockRoundTrip(entries: seq<Entry>, extra: Bytes)
    requires NeverBehind(entries)
    ensures DecodeBlock(BlockBytes(entries) + extra) == Ok(AsLookup(entries))
  {
    hide EncodeVarint, DecodeVarint, EntriesBytes, DecodeEntries, NeverBehind, At;
    var data := BlockBytes(entries) + extra;
    AtWhole(BlockBytes(entries));
    AtLonger(BlockBytes(entries), extra, 0, BlockBytes(entries));
    if entries == [] {
      VarintRoundTrip(data, 0, 0);
    } else {
      var (a, b, c) := (EncodeVarint(|entries|), EncodeVarint(entries[0].offset), EntriesBytes(entries, |entries|));
      AtSplit(data, 0, a, b + c);
      AtSplit(data, |a|, b, c);
      VarintRoundTrip(data, 0, |entries|);
      VarintRoundTrip(data, |a|, entries[0].offset);
      EntriesRoundTrip(data, |a| + |b|, entries, |entries|);
      assert entries[..|entries|] == entries;
    }
  }

  predicate DistinctTerms(entries: seq<Entry>) {
    forall i, j :: 0 <= i < j < |entries| ==> entries[i].term != entries[j].term
  }

  /** Looking a term up finds its entry, and nothing else is found. */
  lemma {:induction false} LookupExact(entries: seq<Entry>, term: string)
    ensures term in AsLookup(entries).places <==> exists i :: 0 <= i < |entries| && entries[i].term == term
    ensures DistinctTerms(entries) ==> forall i :: 0 <= i < |entries| ==>
      entries[i].term in AsLookup(entries).places
      && AsLookup(entries).places[entries[i].term] == (entries[i].df, entries[i].offset, entries[i].length)
  {
    if entries != [] {
      var n := |entries| - 1;
      LookupExact(entries[..n], term);
      assert DistinctTerms(entries) ==> DistinctTerms(entries[..n]);
      assert forall i :: 0 <= i < n ==> entries[..n][i] == entries[i];
    }
  }

  function TermsOf(entries: seq<Entry>): (r: seq<string>)
    ensures |r| == |entries|
  {
    seq(|entries|, i requires 0 <= i < |entries| => entries[i].term)
  }

  /** The terms of a block are listed in the order of its entries. */
  lemma {:induction false} LookupOrder(entries: seq<Entry>)
    requires DistinctTerms(entries)
    ensures AsLookup(entries).order == TermsOf(entries)
  {
    if entries != [] {
      var n := |entries| - 1;
      var e := entries[n];
      LookupOrder(entries[..n]);
      LookupExact(entries[..n], e.term);
      assert forall i :: 0 <= i < n ==> entries[..n][i] == entries[i];
      assert e.term !in AsLookup(entries[..n]).places;
      assert TermsOf(entries) == TermsOf(entries[..n]) + [e.term];
    }
  }
}
