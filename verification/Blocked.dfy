/** Posting lists readable a block at a time: src/aether/index/blocked.py. */
module Blocked {
  import opened Prelude
  import opened Codec
  import opened BitPack

  const SMALL_LIST: nat := 8

  /** One row of the skip index. */
  datatype Skip = Skip(lastDelta: nat, length: nat, idBits: Byte, freqBits: Byte)

  datatype Block = Block(ids: seq<int>, freqs: seq<nat>)

  /** Values a 32-bit word holds. */
  predicate Words(values: seq<nat>) {
    AllBelow(values, WORD_BITS)
  }

  // ---- blocks ----------------------------------------------------------

  function BlockCount(count: nat): nat {
    (count + BLOCK_SIZE - 1) / BLOCK_SIZE
  }

  function Start(b: nat): nat {
    b * BLOCK_SIZE
  }

  function End(b: nat, count: nat): nat {
    Min(b * BLOCK_SIZE + BLOCK_SIZE, count)
  }

  /** What the caller must pass: parallel lists, ids ascending. */
  predicate Postable(ids: seq<nat>, freqs: seq<nat>) {
    |ids| == |freqs| && Ascending(ids)
  }

  predicate Packable(ids: seq<nat>, freqs: seq<nat>) {
    Postable(ids, freqs) && Words(freqs)
  }

  /** Values a signed 64-bit array takes; one that is larger raises `OverflowError`. */
  predicate Int64s(values: seq<int>) {
    forall i :: 0 <= i < |values| ==> values[i] < Pow2(63)
  }

  /** What the encoder takes: any short list, and a long one whose values fit the arrays it builds. */
  predicate Accepted(ids: seq<nat>, freqs: seq<nat>) {
    Postable(ids, freqs) && (|ids| > SMALL_LIST ==> Int64s(ids) && Words(freqs))
  }

  /** What the reader then takes: it builds its arrays when it opens a short list. */
  predicate Openable(ids: seq<nat>, freqs: seq<nat>) {
    |ids| <= SMALL_LIST ==> Int64s(ids) && Int64s(freqs)
  }

  /** The gaps after `astype(uint32)`, which wraps what does not fit. */
  function WordGaps(ids: seq<nat>): (r: seq<nat>)
    requires Ascending(ids)
    ensures |r| == |ids| && Words(r)
  {
    Truncated(NatGaps(ids), WORD_BITS)
  }

  function NatGaps(ids: seq<nat>): (r: seq<nat>)
    requires Ascending(ids)
    ensures r == Gaps(ids)
  {
    seq(|ids|, i requires 0 <= i < |ids| => GapAt(ids, i))
  }

  function GapAt(ids: seq<nat>, i: nat): (r: nat)
    requires Ascending(ids) && i < |ids|
    ensures r == Gaps(ids)[i]
  {
    if i == 0 then ids[0] else ids[i] - ids[i - 1]
  }

  /** What one block stores: its gaps and frequencies, and how far its last id is past the block before. */
  datatype Contents = Piece(gaps: seq<nat>, freqs: seq<nat>, lastDelta: nat) {
    predicate Valid() {
      |gaps| == |freqs| && Words(gaps) && Words(freqs)
    }
  }

  type Piece = p: Contents | p.Valid() witness Piece([], [], 0)

  function PieceBytes(p: Piece): Bytes {
    WidthForIsLeast(p.gaps, WORD_BITS);
    WidthForIsLeast(p.freqs, WORD_BITS);
    Pack(p.gaps, WidthFor(p.gaps)) + Pack(p.freqs, WidthFor(p.freqs))
  }

  function SkipFor(p: Piece): Skip {
    WidthForIsLeast(p.gaps, WORD_BITS);
    WidthForIsLeast(p.freqs, WORD_BITS);
    Skip(p.lastDelta, |PieceBytes(p)|, WidthFor(p.gaps), WidthFor(p.freqs))
  }

  /** The last id before block `b`, zero before the first. */
  function Base(ids: seq<nat>, b: nat): nat
    requires Start(b) <= |ids|
  {
    if b == 0 then 0 else ids[Start(b) - 1]
  }

  function PieceAt(ids: seq<nat>, freqs: seq<nat>, b: nat): (p: Piece)
    requires Packable(ids, freqs) && Start(b) < |ids|
    ensures |p.gaps| == End(b, |ids|) - Start(b)
  {
    var (start, end) := (Start(b), End(b, |ids|));
    assert b == 0 || ids[start - 1] < ids[end - 1];
    Piece(WordGaps(ids)[start..end], freqs[start..end], ids[end - 1] - Base(ids, b))
  }

  // ---- encoding --------------------------------------------------------

  function Pieces(ids: seq<nat>, freqs: seq<nat>, n: nat): (r: seq<Piece>)
    requires Packable(ids, freqs) && n <= BlockCount(|ids|)
    ensures |r| == n
  {
    seq(n, b requires 0 <= b < n => PieceAt(ids, freqs, b))
  }

  function Skips(pieces: seq<Piece>): (r: seq<Skip>)
    ensures |r| == |pieces|
  {
    seq(|pieces|, b requires 0 <= b < |pieces| => SkipFor(pieces[b]))
  }

  function Chunks(pieces: seq<Piece>): (r: seq<Bytes>)
    ensures |r| == |pieces|
  {
    seq(|pieces|, b requires 0 <= b < |pieces| => PieceBytes(pieces[b]))
  }

  function SkipBytes(skip: Skip): Bytes {
    EncodeVarint(skip.lastDelta) + (EncodeVarint(skip.length) + [skip.idBits, skip.freqBits])
  }

  function SkipIndex(skips: seq<Skip>): Bytes {
    if skips == [] then [] else SkipIndex(skips[..|skips| - 1]) + SkipBytes(skips[|skips| - 1])
  }

  /** Block count, skip index and payload. */
  function Framed(pieces: seq<Piece>): Bytes {
    EncodeVarint(|pieces|) + (SkipIndex(Skips(pieces)) + Flatten(Chunks(pieces)))
  }

  function Encoded(ids: seq<nat>, freqs: seq<nat>): Bytes
    requires Accepted(ids, freqs)
  {
    var count := |ids|;
    if count == 0 then EncodeVarint(0)
    else if count <= SMALL_LIST then
      EncodeVarint(count) + (EncodeVarints(NatGaps(ids)) + EncodeVarints(freqs))
    else EncodeVarint(count) + Framed(Pieces(ids, freqs, BlockCount(count)))
  }

  // ---- parsing ---------------------------------------------------------

  /** The fields the constructor fills. */
  datatype Header = Header(count: nat, lastIds: seq<int>, offsets: seq<nat>, skips: seq<Skip>,
                           data: Bytes, small: Option<Block>)

  function ParseSkip(data: Bytes, pos: nat): Result<(Skip, nat)> {
    var (delta, p) :- DecodeVarint(data, pos);
    var (length, q) :- DecodeVarint(data, p);
    if q + 1 >= |data| then Err(IndexError)
    else Ok((Skip(delta, length, data[q], data[q + 1]), q + 2))
  }

  function ParseSkips(data: Bytes, n: nat, pos: nat): (r: Result<(seq<Skip>, nat)>)
    ensures r.Ok? ==> |r.value.0| == n
  {
    if n == 0 then Ok(([], pos))
    else
      var (skips, p) :- ParseSkips(data, n - 1, pos);
      var (skip, q) :- ParseSkip(data, p);
      Ok((skips + [skip], q))
  }

  /** The last id of every block. */
  function LastIds(skips: seq<Skip>): (r: seq<int>)
    ensures |r| == |skips|
  {
    if skips == [] then []
    else
      var n := |skips| - 1;
      var before := LastIds(skips[..n]);
      before + [(if n == 0 then 0 else before[n - 1]) + skips[n].lastDelta]
  }

  /** Where each block starts in the payload. */
  function Offsets(skips: seq<Skip>): (r: seq<nat>)
    ensures |r| == |skips|
  {
    if skips == [] then []
    else
      var n := |skips| - 1;
      var before := Offsets(skips[..n]);
      before + [if n == 0 then 0 else before[n - 1] + skips[n - 1].length]
  }

  function Parse(data: Bytes): Result<Header> {
    var (count, pos) :- DecodeVarint(data, 0);
    if count == 0 then Ok(Header(0, [], [], [], [], None))
    else if count <= SMALL_LIST then
      var (gaps, p) :- DecodeVarints(data, count, pos);
      var (freqs, _) :- DecodeVarints(data, count, p);
      var ids := DeltaDecode(gaps);
      if !Int64s(ids) || !Int64s(freqs) then Err(OverflowError)
      else Ok(Header(count, [ids[|ids| - 1]], [], [], [], Some(Block(ids, freqs))))
    else
      var (n, p) :- DecodeVarint(data, pos);
      var (skips, q) :- ParseSkips(data, n, p);
      Ok(Header(count, LastIds(skips), Offsets(skips), skips, Slice(data, q, |data|), None))
  }

  // ---- decoding --------------------------------------------------------

  function Shift(ids: seq<int>, base: int): (r: seq<int>)
    ensures |r| == |ids|
  {
    seq(|ids|, i requires 0 <= i < |ids| => base + ids[i])
  }

  predicate Sound(h: Header) {
    |h.lastIds| == (if h.small.Some? then 1 else |h.skips|) && |h.offsets| == |h.skips|
  }

  /** `decode_block`, apart from its cache. */
  function DecodedBlock(h: Header, b: nat): Result<Block>
    requires Sound(h)
  {
    if h.small.Some? then (if b == 0 then Ok(h.small.value) else Err(IndexError))
    else if b >= |h.skips| then Err(IndexError)
    else
      var skip := h.skips[b];
      var raw := Slice(h.data, h.offsets[b], h.offsets[b] + skip.length);
      var n := Min(BLOCK_SIZE, h.count - Start(b));
      if n < 0 then Err(ValueError)
      else
        var idBytes := PackedSize(n, skip.idBits);
        var gaps :- Unpack(Slice(raw, 0, idBytes), n, skip.idBits);
        var freqs :- Unpack(Slice(raw, idBytes, |raw|), n, skip.freqBits);
        Ok(Block(Shift(DeltaDecode(gaps), if b == 0 then 0 else h.lastIds[b - 1]), freqs))
  }

  // ---- the round trip --------------------------------------------------

  lemma {:induction false} SkipIndexRoundTrip(data: Bytes, pos: nat, skips: seq<Skip>)
    requires At(data, pos, SkipIndex(skips))
    ensures ParseSkips(data, |skips|, pos) == Ok((skips, pos + |SkipIndex(skips)|))
  {
    if skips != [] {
      var n := |skips| - 1;
      var (before, last) := (SkipIndex(skips[..n]), SkipBytes(skips[n]));
      assert SkipIndex(skips) == before + last;
      AtSplit(data, pos, before, last);
      SkipIndexRoundTrip(data, pos, skips[..n]);
      SkipRoundTrip(data, pos + |before|, skips[n]);
      assert skips == skips[..n] + [skips[n]];
    }
  }

  lemma SkipRoundTrip(data: Bytes, pos: nat, skip: Skip)
    requires At(data, pos, SkipBytes(skip))
    ensures ParseSkip(data, pos) == Ok((skip, pos + |SkipBytes(skip)|))
  {
    hide EncodeVarint, DecodeVarint;
    var (delta, length) := (EncodeVarint(skip.lastDelta), EncodeVarint(skip.length));
    var tail := [skip.idBits, skip.freqBits];
    AtSplit(data, pos, delta, length + tail);
    AtSplit(data, pos + |delta|, length, tail);
    VarintRoundTrip(data, pos, skip.lastDelta);
    VarintRoundTrip(data, pos + |delta|, skip.length);
    var q := pos + |delta| + |length|;
    assert data[q..q + 2][0] == data[q] && data[q..q + 2][1] == data[q + 1];
  }

  /** Recorded deltas that are the gaps of `ends` add up to `ends`. */
  lemma {:induction false} LastIdsExact(skips: seq<Skip>, ends: seq<int>)
    requires |skips| == |ends|
    requires forall b :: 0 <= b < |skips| ==> skips[b].lastDelta == Gaps(ends)[b]
    ensures LastIds(skips) == ends
  {
    if skips != [] {
      var n := |skips| - 1;
      assert Gaps(ends)[..n] == Gaps(ends[..n]);
      forall b | 0 <= b < n
        ensures skips[..n][b].lastDelta == Gaps(ends[..n])[b]
      {
        assert Gaps(ends)[..n][b] == Gaps(ends)[b];
      }
      LastIdsExact(skips[..n], ends[..n]);
      assert skips[n].lastDelta == Gaps(ends)[n];
      assert ends == ends[..n] + [ends[n]];
    }
  }

  /** Every chunk stands in the joined payload where the recorded lengths say. */
  lemma {:induction false} JoinedAt(skips: seq<Skip>, chunks: seq<Bytes>, b: nat)
    requires |skips| == |chunks| && b < |skips|
    requires forall i :: 0 <= i < |skips| ==> skips[i].length == |chunks[i]|
    ensures At(Flatten(chunks), Offsets(skips)[b], chunks[b])
  {
    var n := |skips| - 1;
    JoinedLength(skips, chunks);
    if b < n {
      JoinedAt(skips[..n], chunks[..n], b);
      AtLonger(Flatten(chunks[..n]), chunks[n], Offsets(skips[..n])[b], chunks[b]);
    }
  }

  lemma {:induction false} JoinedLength(skips: seq<Skip>, chunks: seq<Bytes>)
    requires |skips| == |chunks| > 0
    requires forall i :: 0 <= i < |skips| ==> skips[i].length == |chunks[i]|
    ensures |Flatten(chunks[..|chunks| - 1])| == Offsets(skips)[|skips| - 1]
  {
    var n := |skips| - 1;
    if n > 0 {
      JoinedLength(skips[..n], chunks[..n]);
      assert chunks[..n][..n - 1] == chunks[..n - 1];
    }
  }

  /** Adding the gaps of a stretch to the value before it gives the stretch back. */
  lemma {:induction false} StretchOfGaps(ids: seq<int>, lo: nat, hi: nat)
    requires lo <= hi <= |ids|
    ensures Shift(DeltaDecode(Gaps(ids)[lo..hi]), if lo == 0 then 0 else ids[lo - 1]) == ids[lo..hi]
  {
    if lo < hi {
      var (gaps, base) := (Gaps(ids)[lo..hi], if lo == 0 then 0 else ids[lo - 1]);
      var k := hi - 1 - lo;
      assert gaps[..k] == Gaps(ids)[lo..hi - 1] && gaps[k] == Gaps(ids)[hi - 1];
      StretchOfGaps(ids, lo, hi - 1);
      var before := DeltaDecode(gaps[..k]);
      assert k > 0 ==> base + before[k - 1] == Shift(before, base)[k - 1] == ids[lo..hi - 1][k - 1] == ids[hi - 2];
      assert Shift(DeltaDecode(gaps), base) == Shift(before, base) + [ids[hi - 1]];
      SliceSnoc(ids, lo, hi);
    }
  }

  lemma SliceSnoc<T>(s: seq<T>, lo: nat, hi: nat)
    requires lo < hi <= |s|
    ensures s[lo..hi] == s[lo..hi - 1] + [s[hi - 1]]
  {
  }

  // ---- one block -------------------------------------------------------

  /** A block's bytes decode to its gaps and frequencies. */
  lemma PieceDecodes(p: Piece)
    ensures var (raw, n, idBits) := (PieceBytes(p), |p.gaps|, WidthFor(p.gaps));
      && Unpack(Slice(raw, 0, PackedSize(n, idBits)), n, idBits) == Ok(p.gaps)
      && Unpack(Slice(raw, PackedSize(n, idBits), |raw|), n, WidthFor(p.freqs)) == Ok(p.freqs)
  {
    PackWidth(p.gaps);
    PackWidth(p.freqs);
    PackSize(p.gaps, WidthFor(p.gaps));
    SliceOfConcat(Pack(p.gaps, WidthFor(p.gaps)), Pack(p.freqs, WidthFor(p.freqs)));
  }

  lemma PackWidth(values: seq<nat>)
    requires Words(values)
    ensures 1 <= WidthFor(values) <= WORD_BITS
    ensures Unpack(Pack(values, WidthFor(values)), |values|, WidthFor(values)) == Ok(values)
  {
    WidthForIsLeast(values, WORD_BITS);
    WidthForIsLeast(values, WidthFor(values));
    PackRoundTripIff(values, WidthFor(values));
  }

  lemma SliceOfConcat<T>(a: seq<T>, b: seq<T>)
    ensures Slice(a + b, 0, |a|) == a && Slice(a + b, |a|, |a + b|) == b
  {
  }

  function HeaderOf(count: nat, pieces: seq<Piece>): Header {
    Header(count, LastIds(Skips(pieces)), Offsets(Skips(pieces)), Skips(pieces), Flatten(Chunks(pieces)), None)
  }

  /** The block the code reads back: ids summed from the stored gaps, frequencies exact. */
  lemma DecodedPiece(count: nat, pieces: seq<Piece>, b: nat)
    requires b < |pieces| && Min(BLOCK_SIZE, count - Start(b)) == |pieces[b].gaps|
    ensures var h := HeaderOf(count, pieces);
      DecodedBlock(h, b) == Ok(Block(Shift(DeltaDecode(pieces[b].gaps), if b == 0 then 0 else h.lastIds[b - 1]), pieces[b].freqs))
  {
    hide Unpack, Pack, PieceBytes, Flatten, WidthFor, Words, PackedSize, DeltaDecode, Shift, Slice, At, Offsets, LastIds;
    var (h, p) := (HeaderOf(count, pieces), pieces[b]);
    JoinedAt(h.skips, Chunks(pieces), b);
    assert Chunks(pieces)[b] == PieceBytes(p) && h.skips[b] == SkipFor(p);
    SliceAt(h.data, h.offsets[b], PieceBytes(p));
    PieceDecodes(p);
  }

  lemma ParseFramed(data: Bytes, count: nat, pieces: seq<Piece>)
    requires count > SMALL_LIST && data == EncodeVarint(count) + Framed(pieces)
    ensures Parse(data) == Ok(HeaderOf(count, pieces))
  {
    hide Pack, PieceBytes, Flatten, SkipIndex, Skips, Chunks, WidthFor, Words, EncodeVarint, DecodeVarint, ParseSkips;
    var (skips, payload) := (Skips(pieces), Flatten(Chunks(pieces)));
    var (c, m, index) := (EncodeVarint(count), EncodeVarint(|pieces|), SkipIndex(skips));
    assert data == c + (m + (index + payload)) && At(data, 0, data);
    AtSplit(data, 0, c, m + (index + payload));
    AtSplit(data, |c|, m, index + payload);
    AtSplit(data, |c| + |m|, index, payload);
    VarintRoundTrip(data, 0, count);
    VarintRoundTrip(data, |c|, |pieces|);
    SkipIndexRoundTrip(data, |c| + |m|, skips);
    var q := |c| + |m| + |index|;
    SliceAt(data, q, payload);
  }

  // ---- a whole list ----------------------------------------------------

  function Ends(ids: seq<nat>): (r: seq<int>)
    ensures |r| == BlockCount(|ids|)
  {
    seq(BlockCount(|ids|), b requires 0 <= b < BlockCount(|ids|) => ids[End(b, |ids|) - 1])
  }

  lemma LastIdsAreEnds(ids: seq<nat>, freqs: seq<nat>)
    requires Packable(ids, freqs)
    ensures LastIds(Skips(Pieces(ids, freqs, BlockCount(|ids|)))) == Ends(ids)
  {
    var skips := Skips(Pieces(ids, freqs, BlockCount(|ids|)));
    forall b | 0 <= b < |skips|
      ensures skips[b].lastDelta == Gaps(Ends(ids))[b]
    {
      EndGap(ids, b);
    }
    LastIdsExact(skips, Ends(ids));
  }

  lemma EndGap(ids: seq<nat>, b: nat)
    requires b < BlockCount(|ids|)
    ensures Gaps(Ends(ids))[b] == Ends(ids)[b] - Base(ids, b)
    ensures Base(ids, b) == if b == 0 then 0 else Ends(ids)[b - 1]
  {
    assert b > 0 ==> End(b - 1, |ids|) == Start(b);
  }

  function HeaderFor(ids: seq<nat>, freqs: seq<nat>): Header
    requires Postable(ids, freqs) && (|ids| > SMALL_LIST ==> Words(freqs))
  {
    var count := |ids|;
    if count == 0 then Header(0, [], [], [], [], None)
    else if count <= SMALL_LIST then Header(count, [ids[count - 1]], [], [], [], Some(Block(ids, freqs)))
    else HeaderOf(count, Pieces(ids, freqs, BlockCount(count)))
  }

  lemma ParseEncoded(ids: seq<nat>, freqs: seq<nat>)
    requires Accepted(ids, freqs)
    ensures Parse(Encoded(ids, freqs)) == if Openable(ids, freqs) then Ok(HeaderFor(ids, freqs)) else Err(OverflowError)
  {
    hide EncodeVarint, DecodeVarint, Framed, HeaderOf, Pieces, Ascending, Words, NatGaps, EncodeVarints;
    var (data, count) := (Encoded(ids, freqs), |ids|);
    if count == 0 {
      assert At(data, 0, data);
      VarintRoundTrip(data, 0, 0);
    } else if count <= SMALL_LIST {
      ParseSmall(data, ids, freqs);
    } else {
      ParseFramed(data, count, Pieces(ids, freqs, BlockCount(count)));
    }
  }

  lemma ParseSmall(data: Bytes, ids: seq<nat>, freqs: seq<nat>)
    requires Postable(ids, freqs) && 0 < |ids| <= SMALL_LIST && data == Encoded(ids, freqs)
    ensures Parse(data) == if Openable(ids, freqs) then Ok(HeaderFor(ids, freqs)) else Err(OverflowError)
  {
    hide EncodeVarint, DecodeVarint, DecodeVarints, Ascending, Words, EncodeVarints, DeltaDecode, Int64s;
    var (c, g, f) := (EncodeVarint(|ids|), EncodeVarints(NatGaps(ids)), EncodeVarints(freqs));
    assert data == c + (g + f) && At(data, 0, data);
    AtSplit(data, 0, c, g + f);
    AtSplit(data, |c|, g, f);
    VarintRoundTrip(data, 0, |ids|);
    VarintsRoundTrip(data, |c|, NatGaps(ids));
    VarintsRoundTrip(data, |c| + |g|, freqs);
    DeltaRoundTrip(ids);
  }

  /** Block `b` of `h` holds exactly its stretch of the list. */
  ghost predicate Holds(h: Header, ids: seq<int>, freqs: seq<nat>, b: nat)
    requires Sound(h) && |ids| == |freqs| && b < BlockCount(|ids|) == |h.lastIds|
  {
    && h.lastIds[b] == ids[End(b, |ids|) - 1]
    && DecodedBlock(h, b) == Ok(Block(ids[Start(b)..End(b, |ids|)], freqs[Start(b)..End(b, |ids|)]))
  }

  /** `h` is the list: what every reader below answers from. */
  ghost predicate Represents(h: Header, ids: seq<int>, freqs: seq<nat>) {
    && Sound(h) && h.count == |ids| == |freqs| && Ascending(ids)
    && |h.lastIds| == BlockCount(|ids|)
    && forall b: nat :: b < BlockCount(|ids|) ==> Holds(h, ids, freqs, b)
  }

  /** Every gap fits a word: the condition under which a long list survives. */
  predicate NarrowGaps(ids: seq<nat>)
    requires Ascending(ids)
  {
    Words(NatGaps(ids))
  }

  lemma LargeBlockIff(ids: seq<nat>, freqs: seq<nat>, b: nat)
    requires Packable(ids, freqs) && |ids| > SMALL_LIST && b < BlockCount(|ids|)
    ensures var h := HeaderFor(ids, freqs);
      && |h.lastIds| == BlockCount(|ids|)
      && (Holds(h, ids, freqs, b)
          <==> WordGaps(ids)[Start(b)..End(b, |ids|)] == NatGaps(ids)[Start(b)..End(b, |ids|)])
  {
    hide DecodedBlock, DeltaDecode, Shift, WordGaps, NatGaps, Ascending, Words, LastIds, Offsets, Flatten, Gaps;
    var (n, start, end) := (BlockCount(|ids|), Start(b), End(b, |ids|));
    var pieces := Pieces(ids, freqs, n);
    var (wrapped, gaps, base) := (WordGaps(ids)[start..end], NatGaps(ids)[start..end], Base(ids, b));
    assert pieces[b] == PieceAt(ids, freqs, b);
    DecodedPiece(|ids|, pieces, b);
    LastIdsAreEnds(ids, freqs);
    EndGap(ids, b);
    StretchOfGaps(ids, start, end);
    ShiftedGapsInjective(wrapped, gaps, base);
  }

  lemma ShiftedGapsInjective(a: seq<int>, b: seq<int>, base: int)
    ensures Shift(DeltaDecode(a), base) == Shift(DeltaDecode(b), base) ==> a == b
  {
    hide DeltaDecode;
    var (x, y) := (DeltaDecode(a), DeltaDecode(b));
    if Shift(x, base) == Shift(y, base) {
      assert |x| == |Shift(x, base)| == |y|;
      forall i | 0 <= i < |x|
        ensures x[i] == y[i]
      {
        assert Shift(x, base)[i] == Shift(y, base)[i];
      }
      GapsRoundTrip(a);
      GapsRoundTrip(b);
    }
  }

  /** Two lists cut into blocks alike are equal. */
  lemma BlockwiseEqual(a: seq<nat>, b: seq<nat>)
    requires |a| == |b|
    requires forall k: nat :: k < BlockCount(|a|) ==> a[Start(k)..End(k, |a|)] == b[Start(k)..End(k, |a|)]
    ensures a == b
  {
    forall i | 0 <= i < |a|
      ensures a[i] == b[i]
    {
      var k := i / BLOCK_SIZE;
      assert a[Start(k)..End(k, |a|)][i - Start(k)] == b[Start(k)..End(k, |a|)][i - Start(k)];
    }
  }

  /** A list of more than eight ids comes back exactly when every gap fits a word. */
  lemma LargeRoundTripIff(ids: seq<nat>, freqs: seq<nat>)
    requires Packable(ids, freqs) && |ids| > SMALL_LIST
    ensures Represents(HeaderFor(ids, freqs), ids, freqs) <==> NarrowGaps(ids)
  {
    hide Holds, WordGaps, NatGaps, Ascending, Words, Pieces, Skips, LastIds, Offsets, Truncated;
    var (wrapped, gaps, n) := (WordGaps(ids), NatGaps(ids), BlockCount(|ids|));
    var h := HeaderFor(ids, freqs);
    LargeBlockIff(ids, freqs, 0);
    WordGapsIff(ids);
    forall b: nat | b < n
      ensures Holds(h, ids, freqs, b) <==> wrapped[Start(b)..End(b, |ids|)] == gaps[Start(b)..End(b, |ids|)]
    {
      LargeBlockIff(ids, freqs, b);
    }
    if forall b: nat :: b < n ==> Holds(h, ids, freqs, b) {
      BlockwiseEqual(wrapped, gaps);
    }
  }

  lemma WordGapsIff(ids: seq<nat>)
    requires Ascending(ids)
    ensures WordGaps(ids) == NatGaps(ids) <==> NarrowGaps(ids)
  {
    TruncatedIff(NatGaps(ids), WORD_BITS);
  }

  /**
   Encoding then parsing gives the list back: a short one exactly when its values fit 64 bits, and
   opening it is refused otherwise; a long one exactly when its gaps fit 32 bits.
   */
  lemma BlockedRoundTripIff(ids: seq<nat>, freqs: seq<nat>)
    requires Accepted(ids, freqs)
    ensures var r := Parse(Encoded(ids, freqs));
      && (r == Err(OverflowError) <==> !Openable(ids, freqs)) && (r.Err? <==> !Openable(ids, freqs))
      && (r.Ok? && Represents(r.value, ids, freqs)
          <==> if |ids| <= SMALL_LIST then Int64s(ids) && Int64s(freqs) else NarrowGaps(ids))
  {
    hide Encoded, Parse, NarrowGaps, HeaderOf, Pieces, Represents, Int64s;
    ParseEncoded(ids, freqs);
    if |ids| > SMALL_LIST {
      LargeRoundTripIff(ids, freqs);
    } else {
      SmallRepresents(ids, freqs);
    }
  }

  /** Nine ids with one gap of 2^32: they are written, read back without an error, and are others. */
  lemma WideGapIsLost()
    ensures var (ids, freqs) := (WideGap(), seq(9, _ => 1));
      && Accepted(ids, freqs)
      && Parse(Encoded(ids, freqs)).Ok? && !Represents(Parse(Encoded(ids, freqs)).value, ids, freqs)
  {
    hide Encoded, Parse, Represents, Pow2, NatGaps;
    var (ids, freqs) := (WideGap(), seq(9, _ => 1));
    SixtyThree();
    assert NatGaps(ids)[8] == GapAt(ids, 8);
    BlockedRoundTripIff(ids, freqs);
  }

  lemma SixtyThree()
    ensures 1 < Pow2(32) && 7 + Pow2(32) < Pow2(63)
  {
    hide Pow2;
    AboveExponent(31);
    AboveExponent(32);
    Pow2Adds(31, 32);
    WellBelow(Pow2(31), Pow2(32));
  }

  lemma WellBelow(p: nat, q: nat)
    requires p >= 8 && q >= 2
    ensures 7 + q < p * q
  {
    assert p * q >= 8 * q;
  }

  lemma {:induction false} AboveExponent(n: nat)
    ensures Pow2(n) > n
  {
    if n > 0 {
      AboveExponent(n - 1);
    }
  }

  function WideGap(): (ids: seq<nat>)
    ensures |ids| == 9 && Ascending(ids)
  {
    [0, 1, 2, 3, 4, 5, 6, 7, 7 + Pow2(32)]
  }

  lemma SmallRepresents(ids: seq<nat>, freqs: seq<nat>)
    requires Postable(ids, freqs) && |ids| <= SMALL_LIST
    ensures Represents(HeaderFor(ids, freqs), ids, freqs)
  {
    hide HeaderOf, Pieces;
    if |ids| > 0 {
      assert ids[0..|ids|] == ids && freqs[0..|ids|] == freqs;
    }
  }

  // ---- the code's loops ------------------------------------------------

  method EncodeBlocked(ids: seq<nat>, freqs: seq<nat>) returns (r: Result<Bytes>)
    requires Postable(ids, freqs)
    ensures r == if Accepted(ids, freqs) then Ok(Encoded(ids, freqs)) else Err(OverflowError)
  {
    hide EncodeVarint, WordGaps, NatGaps, EncodeVarints, Ascending, Words, PieceAt, PieceBytes, SkipFor, Skips, Chunks;
    hide Pieces, Int64s;
    var count := |ids|;
    if count == 0 {
      return Ok(EncodeVarint(0));
    }
    if count <= SMALL_LIST {
      return Ok(EncodeVarint(count) + (EncodeVarints(NatGaps(ids)) + EncodeVarints(freqs)));
    }
    // The two arrays are built here.
    if !Int64s(ids) || !Words(freqs) {
      return Err(OverflowError);
    }
    var skip: seq<Skip>, payload: Bytes := [], [];
    var n := BlockCount(count);
    NoPieces(ids, freqs);
    for b := 0 to n
      invariant skip == Skips(Pieces(ids, freqs, b))
      invariant payload == Flatten(Chunks(Pieces(ids, freqs, b)))
    {
      MorePieces(ids, freqs, b);
      var piece := PieceAt(ids, freqs, b);
      skip := skip + [SkipFor(piece)];
      payload := payload + PieceBytes(piece);
    }
    var index := WriteSkips(skip);
    r := Ok(EncodeVarint(count) + (EncodeVarint(|skip|) + (index + payload)));
  }

  method WriteSkips(skips: seq<Skip>) returns (out: Bytes)
    ensures out == SkipIndex(skips)
  {
    out := [];
    for i := 0 to |skips|
      invariant out == SkipIndex(skips[..i])
    {
      assert skips[..i + 1][..i] == skips[..i];
      out := out + SkipBytes(skips[i]);
    }
    assert skips[..|skips|] == skips;
  }

  lemma NoPieces(ids: seq<nat>, freqs: seq<nat>)
    requires Packable(ids, freqs)
    ensures var none := Pieces(ids, freqs, 0); Skips(none) == [] && Chunks(none) == []
  {
  }

  lemma MorePieces(ids: seq<nat>, freqs: seq<nat>, b: nat)
    requires Packable(ids, freqs) && b < BlockCount(|ids|)
    ensures var (few, more, p) := (Pieces(ids, freqs, b), Pieces(ids, freqs, b + 1), PieceAt(ids, freqs, b));
      Skips(more) == Skips(few) + [SkipFor(p)] && Chunks(more) == Chunks(few) + [PieceBytes(p)]
  {
    hide PieceAt, SkipFor, PieceBytes;
    assert Pieces(ids, freqs, b + 1) == Pieces(ids, freqs, b) + [PieceAt(ids, freqs, b)];
  }

  method ParseLoop(data: Bytes) returns (r: Result<Header>)
    ensures r == Parse(data)
  {
    hide DecodeVarint, DecodeVarints, DeltaDecode, ParseSkips, LastIds, Offsets, Slice;
    var head :- DecodeVarint(data, 0);
    var (count, pos) := head;
    if count == 0 {
      return Ok(Header(0, [], [], [], [], None));
    }
    if count <= SMALL_LIST {
      var gapsRead :- DecodeVarints(data, count, pos);
      var (gaps, p) := gapsRead;
      var freqsRead :- DecodeVarints(data, count, p);
      var (freqs, _) := freqsRead;
      var ids := DeltaDecode(gaps);
      if !Int64s(ids) || !Int64s(freqs) {
        return Err(OverflowError);
      }
      return Ok(Header(count, [ids[|ids| - 1]], [], [], [], Some(Block(ids, freqs))));
    }
    var blocksRead :- DecodeVarint(data, pos);
    var (n, start) := blocksRead;
    var skipsRead :- ReadSkips(data, n, start);
    var (skips, rest) := skipsRead;
    var lastIds := RunningIds(skips);
    var offsets := RunningOffsets(skips);
    r := Ok(Header(count, lastIds, offsets, skips, Slice(data, rest, |data|), None));
  }

  method ReadSkips(data: Bytes, n: nat, start: nat) returns (r: Result<(seq<Skip>, nat)>)
    ensures r == ParseSkips(data, n, start)
  {
    hide ParseSkip;
    var skips: seq<Skip>, pos := [], start;
    for i := 0 to n
      invariant ParseSkips(data, i, start) == Ok((skips, pos))
    {
      var one := ParseSkip(data, pos);
      if one.Err? {
        ParseFailureSpreads(data, i + 1, n, start);
        return Err(one.error);
      }
      skips, pos := skips + [one.value.0], one.value.1;
    }
    r := Ok((skips, pos));
  }

  lemma {:induction false} ParseFailureSpreads(data: Bytes, few: nat, many: nat, pos: nat)
    requires few <= many && ParseSkips(data, few, pos).Err?
    ensures ParseSkips(data, many, pos) == Err(ParseSkips(data, few, pos).error)
  {
    hide ParseSkip;
    if few < many {
      ParseFailureSpreads(data, few, many - 1, pos);
    }
  }

  method RunningIds(skips: seq<Skip>) returns (lastIds: seq<int>)
    ensures lastIds == LastIds(skips)
  {
    lastIds := [];
    var running: nat := 0;
    for i := 0 to |skips|
      invariant lastIds == LastIds(skips[..i])
      invariant running == if i == 0 then 0 else lastIds[i - 1]
    {
      assert skips[..i + 1][..i] == skips[..i];
      running := running + skips[i].lastDelta;
      lastIds := lastIds + [running];
    }
    assert skips[..|skips|] == skips;
  }

  method RunningOffsets(skips: seq<Skip>) returns (offsets: seq<nat>)
    ensures offsets == Offsets(skips)
  {
    offsets := [];
    var running: nat := 0;
    for i := 0 to |skips|
      invariant offsets == Offsets(skips[..i])
      invariant running == if i == 0 then 0 else offsets[i - 1] + skips[i - 1].length
    {
      assert skips[..i + 1][..i] == skips[..i];
      offsets := offsets + [running];
      running := running + skips[i].length;
    }
    assert skips[..|skips|] == skips;
  }
}
