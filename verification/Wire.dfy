/**
 Where each byte of the formats stands and what it holds, without either of the codecs that write and
 read them: src/aether/index/codec.py, src/aether/index/bitpack.py, src/aether/index/bloom.py and the
 fixed-width parts of src/aether/index/segment.py.
 */
module WireFormat {
  import opened Prelude
  import opened Codec
  import opened Binary
  import opened BitPack
  import Bloom
  import Dict = DictBlock
  import Utf8
  import opened Blocked
  import opened Hotcache
  import opened Memory
  import opened SegmentWriter

  // ---- varints ---------------------------------------------------------

  /** The number whose base-128 digits are the low seven bits of `data`, least first. */
  function Base128(data: Bytes): nat {
    if data == [] then 0 else data[0] % 128 + 128 * Base128(data[1..])
  }

  /** Seven bits a byte, least significant first; every byte but the last has its top bit; no more bytes than needed. */
  lemma {:induction false} VarintBytes(v: nat)
    ensures var r := EncodeVarint(v);
      && Base128(r) == v
      && (forall i :: 0 <= i < |r| ==> (r[i] >= 128 <==> i < |r| - 1))
      && (|r| > 1 ==> r[|r| - 1] > 0)
  {
    if v >= 128 {
      VarintBytes(v / 128);
      assert EncodeVarint(v)[1..] == EncodeVarint(v / 128);
    }
  }

  // ---- fixed-width fields ----------------------------------------------

  lemma DivUnique(v: nat, m: nat, q: nat, r: nat)
    requires m > 0 && v == m * q + r && r < m
    ensures v / m == q
  {
    ModUnique(v, m, q, r);
    assert m * (v / m) == m * q;
    SameFactor(m, v / m, q);
  }

  lemma Ascends(m: nat, a: nat, b: nat)
    requires m > 0 && a < b
    ensures m * a < m * b
  {
    assert m * b == m * a + m * (b - a);
    AtLeastOnce(m, b - a);
  }

  lemma SameFactor(m: nat, a: nat, b: nat)
    requires m > 0 && m * a == m * b
    ensures a == b
  {
    if a < b { Ascends(m, a, b); }
    if b < a { Ascends(m, b, a); }
  }

  lemma Nested(a: nat, b: nat, x: nat, y: nat, r: nat)
    requires r < a && y < b
    ensures a * y + r < a * b && a * (b * x + y) + r == (a * b) * x + (a * y + r)
  {
    assert a * (y + 1) == a * y + a;
    Grows(y + 1, b, a);
    assert a * (b * x) == (a * b) * x;
    assert a * (b * x + y) == a * (b * x) + a * y;
  }

  lemma Grows(a: nat, b: nat, k: nat)
    requires a <= b
    ensures a * k <= b * k && k * a <= k * b
  {
    assert (b - a) * k >= 0;
  }

  lemma DivDiv(v: nat, a: nat, b: nat)
    requires a > 0 && b > 0
    ensures a * b > 0 && v / (a * b) == (v / a) / b
  {
    var (q, r) := (v / a, v % a);
    var (x, y) := (q / b, q % b);
    Nested(a, b, x, y, r);
    DivUnique(v, a * b, x, a * y + r);
  }

  /** Byte `i` of a field holds the `i`-th digit in base 256, least first. */
  lemma {:induction false} LittleBytes(v: nat, width: nat, i: nat)
    requires i < width
    ensures Little(v, width)[i] == v / Pow256(i) % 256
  {
    if i > 0 {
      LittleBytes(v / 256, width - 1, i - 1);
      DivDiv(v, 256, Pow256(i - 1));
    }
  }

  // ---- packed bits -----------------------------------------------------

  /** Bit `k` of `v`, counted from the least. */
  function BitOf(v: nat, k: nat): nat {
    v / Pow2(k) % 2
  }

  lemma {:induction false} BitsAre(v: nat, n: nat, k: nat)
    requires k < n
    ensures ToBits(v, n)[n - 1 - k] == BitOf(v, k)
  {
    if k > 0 {
      BitsAre(v / 2, n - 1, k - 1);
      DivDiv(v, 2, Pow2(k - 1));
    }
  }

  lemma {:induction false} UnpackedAt(data: Bytes, n: nat)
    requires n < 8 * |data|
    ensures UnpackBits(data)[n] == ToBits(data[n / 8], 8)[n % 8]
  {
    hide ToBits;
    if n >= 8 {
      UnpackedAt(data[1..], n - 8);
    }
  }

  lemma {:induction false} SpreadAt(values: seq<nat>, bits: nat, i: nat, j: nat)
    requires bits <= WORD_BITS && i < |values| && j < bits
    ensures i * bits + j < |values| * bits
    ensures Spread(values, bits)[i * bits + j] == ToBits(values[i], WORD_BITS)[WORD_BITS - bits + j]
  {
    hide ToBits;
    var n := |values| - 1;
    var row := ToBits(values[n], WORD_BITS)[WORD_BITS - bits..];
    RowEnds(i, |values|, bits);
    assert Spread(values, bits) == Spread(values[..n], bits) + row;
    if i < n {
      SpreadAt(values[..n], bits, i, j);
    }
  }

  lemma RowEnds(i: nat, n: nat, bits: nat)
    requires i < n
    ensures i * bits + bits <= n * bits && (n - 1) * bits + bits == n * bits
  {
    assert (i + 1) * bits == i * bits + bits;
    Grows(i + 1, n, bits);
  }

  /** Bit `j` of value `i`, counted from the top of its width, is bit `i * bits + j` of the packed bytes, each from its top. */
  lemma PackedBitAt(values: seq<nat>, bits: nat, i: nat, j: nat)
    requires 1 <= bits <= WORD_BITS && i < |values| && j < bits
    ensures var (data, n) := (Pack(values, bits), i * bits + j);
      n / 8 < |data| && BitOf(data[n / 8], 7 - n % 8) == BitOf(values[i], bits - 1 - j)
  {
    hide Spread, PackBits, UnpackBits, ToBits, BitOf;
    var (data, n) := (Pack(values, bits), i * bits + j);
    var stream := Spread(values, bits);
    SpreadAt(values, bits, i, j);
    UnpackPacked(stream);
    assert UnpackBits(data)[..|stream|][n] == UnpackBits(data)[n];
    UnpackedAt(data, n);
    BitsAre(data[n / 8], 8, 7 - n % 8);
    BitsAre(values[i], WORD_BITS, bits - 1 - j);
  }

  // ---- the bloom filter ------------------------------------------------

  /** Position `p` is bit `p % 8`, from the least, of byte `p / 8`. */
  lemma FilterBitAt(f: Bloom.Filter, p: nat)
    requires f.Valid() && p < f.bits
    ensures f.Has(p) <==> BitOf(f.words[p / 8], p % 8) == 1
  {
    hide BitOf, ToBits;
    BitsAre(f.words[p / 8], 8, p % 8);
  }

  /** Four bytes of bit count, one of hash count, then the words. */
  lemma FilterPlaces(f: Bloom.Filter)
    ensures var data := Bloom.FilterBytes(f);
      |data| == 5 + |f.words| && data[..4] == Little(f.bits, 4) && data[4] == f.hashes % 256 && data[5..] == f.words
  {
    hide Little;
    LittleBytes(f.hashes, 1, 0);
  }

  // ---- the footer ------------------------------------------------------

  lemma {:induction false} FieldAt(values: seq<nat>, widths: seq<nat>, k: nat)
    requires |values| == |widths| && k < |values|
    ensures At(FieldBytes(values, widths), TotalWidth(widths[..k]), Little(values[k], widths[k]))
  {
    hide Little;
    var (first, rest) := (Little(values[0], widths[0]), FieldBytes(values[1..], widths[1..]));
    AtWhole(first + rest);
    AtSplit(first + rest, 0, first, rest);
    if k > 0 {
      FieldAt(values[1..], widths[1..], k - 1);
      assert widths[..k][1..] == widths[1..][..k - 1];
      AtInside(first + rest, |first|, rest, TotalWidth(widths[1..][..k - 1]), Little(values[k], widths[k]));
    }
  }

  /** Where in a footer field `k` starts. */
  const STARTS: seq<nat> := [4, 8, 16, 24, 32, 40, 48, 56, 64, 72, 76, 80, 88, 96, 104]

  lemma {:induction false} StartsAre(k: nat)
    requires k < 15
    ensures 4 + TotalWidth(WIDTHS[..k]) == STARTS[k]
  {
    if k > 0 {
      StartsAre(k - 1);
      assert WIDTHS[..k] == WIDTHS[..k - 1] + [WIDTHS[k - 1]];
      WidthSnoc(WIDTHS[..k - 1], WIDTHS[k - 1]);
    }
  }

  lemma {:induction false} WidthSnoc(widths: seq<nat>, w: nat)
    ensures TotalWidth(widths + [w]) == TotalWidth(widths) + w
  {
    if widths == [] {
      assert [w][1..] == [];
    } else {
      assert (widths + [w])[1..] == widths[1..] + [w];
      WidthSnoc(widths[1..], w);
    }
  }

  lemma FooterFieldAt(f: Footer, k: nat)
    requires FooterFits(f) && k < 15
    ensures At(PackFooter(f).value, STARTS[k], Little(Values(f)[k], WIDTHS[k]))
  {
    hide Little, FieldBytes, FitsSigned, TotalWidth, Pow256;
    var (fields, data) := (FieldBytes(Values(f), WIDTHS), PackFooter(f).value);
    AtWhole(data);
    AtSplit(data, 0, MAGIC, fields + MAGIC);
    AtSplit(data, 4, fields, MAGIC);
    FieldAt(Values(f), WIDTHS, k);
    StartsAre(k);
    AtInside(data, 4, fields, TotalWidth(WIDTHS[..k]), Little(Values(f)[k], WIDTHS[k]));
  }

  /** The footer, byte by byte: "ATHR" at both ends, the version, the four parts, the counts and the two times. */
  lemma FooterPlaces(f: Footer)
    requires FooterFits(f)
    ensures var data := PackFooter(f).value;
      && |data| == 116 && data[..4] == [65, 84, 72, 82] && data[112..] == [65, 84, 72, 82]
      && At(data, 4, Little(f.version, 4))
      && At(data, 8, Little(f.postingsOffset, 8)) && At(data, 16, Little(f.postingsLength, 8))
      && At(data, 24, Little(f.docstoreOffset, 8)) && At(data, 32, Little(f.docstoreLength, 8))
      && At(data, 40, Little(f.termdictOffset, 8)) && At(data, 48, Little(f.termdictLength, 8))
      && At(data, 56, Little(f.hotcacheOffset, 8)) && At(data, 64, Little(f.hotcacheLength, 8))
      && At(data, 72, Little(f.numDocs, 4)) && At(data, 76, Little(f.numTerms, 4))
      && At(data, 80, Little(f.numPostings, 8)) && At(data, 88, Little(f.totalLength, 8))
      && At(data, 96, Little(if f.minTs < 0 then f.minTs + Pow256(8) else f.minTs, 8))
      && At(data, 104, Little(if f.maxTs < 0 then f.maxTs + Pow256(8) else f.maxTs, 8))
  {
    hide FooterFits, PackFooter, Little, At;
    FooterEnds(f);
    FooterFieldAt(f, 0); FooterFieldAt(f, 1); FooterFieldAt(f, 2); FooterFieldAt(f, 3); FooterFieldAt(f, 4);
    FooterFieldAt(f, 5); FooterFieldAt(f, 6); FooterFieldAt(f, 7); FooterFieldAt(f, 8); FooterFieldAt(f, 9);
    FooterFieldAt(f, 10); FooterFieldAt(f, 11); FooterFieldAt(f, 12); FooterFieldAt(f, 13); FooterFieldAt(f, 14);
  }

  lemma FooterEnds(f: Footer)
    requires FooterFits(f)
    ensures FitsSigned(f.minTs, 8) && FitsSigned(f.maxTs, 8)
    ensures var data := PackFooter(f).value;
      |data| == 116 && data[..4] == [65, 84, 72, 82] && data[112..] == [65, 84, 72, 82]
  {
    hide Little, FieldBytes, TotalWidth, Pow256, FitsSigned;
    FooterWidth();
    FieldsLength(Values(f), WIDTHS);
  }

  // ---- the hotcache ----------------------------------------------------

  lemma {:induction false} ManyAt<T>(items: seq<T>, enc: T -> Bytes, i: nat)
    requires i < |items|
    ensures At(Many(items, enc), |Many(items[..i], enc)|, enc(items[i]))
  {
    hide At;
    var n := |items| - 1;
    var (before, last) := (Many(items[..n], enc), enc(items[n]));
    if i == n {
      AtWhole(before + last);
      AtSplit(before + last, 0, before, last);
    } else {
      ManyAt(items[..n], enc, i);
      assert items[..n][..i] == items[..i];
      AtLonger(before, last, |Many(items[..i], enc)|, enc(items[i]));
    }
  }

  lemma {:induction false} ManyLength<T>(items: seq<T>, enc: T -> Bytes, width: nat)
    requires forall i :: 0 <= i < |items| ==> |enc(items[i])| == width
    ensures |Many(items, enc)| == width * |items|
  {
    if items != [] {
      ManyLength(items[..|items| - 1], enc, width);
      assert width * |items| == width * (|items| - 1) + width;
    }
  }

  /** Term blocks, document blocks and lengths, each after its count, and the filter at the end. */
  lemma HotcachePlaces(h: Cache)
    ensures var (data, t) := (CacheBytes(h), |Many(h.termBlocks, TermBlockBytes)|);
      var (d, l) := (16 * |h.docBlocks|, 4 * |h.docLengths|);
      && At(data, 0, Little(|h.termBlocks|, 4)) && At(data, 4 + t, Little(|h.docBlocks|, 4))
      && At(data, 8 + t + d, Little(|h.docLengths|, 4)) && At(data, 12 + t + d + l, Bloom.FilterBytes(h.bloom))
      && |data| == 12 + t + d + l + |Bloom.FilterBytes(h.bloom)|
  {
    hide Many, TermBlockBytes, At, Little, Bloom.FilterBytes;
    CacheParts(h);
    ManyLength(h.docBlocks, DocBlockBytes, 16);
    ManyLength(h.docLengths, CountBytes, 4);
  }

  /** Document block `i`: its first document, its offset and its length. */
  lemma DocBlockPlace(h: Cache, i: nat)
    requires i < |h.docBlocks|
    ensures var (data, b) := (CacheBytes(h), h.docBlocks[i]);
      var at := 8 + |Many(h.termBlocks, TermBlockBytes)| + 16 * i;
      At(data, at, Little(b.first, 4)) && At(data, at + 4, Little(b.offset, 8)) && At(data, at + 12, Little(b.length, 4))
  {
    hide Many, TermBlockBytes, At, Little, CacheBytes, Bloom.FilterBytes;
    var (data, b) := (CacheBytes(h), h.docBlocks[i]);
    var base := 8 + |Many(h.termBlocks, TermBlockBytes)|;
    CacheParts(h);
    ManyAt(h.docBlocks, DocBlockBytes, i);
    ManyLength(h.docBlocks[..i], DocBlockBytes, 16);
    AtInside(data, base, Many(h.docBlocks, DocBlockBytes), 16 * i, DocBlockBytes(b));
    AtSplit(data, base + 16 * i, Little(b.first, 4), Little(b.offset, 8) + Little(b.length, 4));
    AtSplit(data, base + 16 * i + 4, Little(b.offset, 8), Little(b.length, 4));
  }

  /** Term block `i`: the width of its first term, the term, its offset and its length. */
  lemma TermBlockPlace(h: Cache, i: nat)
    requires i < |h.termBlocks|
    ensures var (data, b) := (CacheBytes(h), h.termBlocks[i]);
      var (at, term) := (4 + |Many(h.termBlocks[..i], TermBlockBytes)|, Utf8.Encode(b.first));
      && At(data, at, Little(|term|, 2)) && At(data, at + 2, term)
      && At(data, at + 2 + |term|, Little(b.offset, 8)) && At(data, at + 10 + |term|, Little(b.length, 4))
  {
    hide Many, At, Little, CacheBytes, Bloom.FilterBytes, Utf8.Encode;
    var (data, b) := (CacheBytes(h), h.termBlocks[i]);
    var (at, term) := (4 + |Many(h.termBlocks[..i], TermBlockBytes)|, Utf8.Encode(b.first));
    CacheParts(h);
    ManyAt(h.termBlocks, TermBlockBytes, i);
    AtInside(data, 4, Many(h.termBlocks, TermBlockBytes), at - 4, TermBlockBytes(b));
    AtSplit(data, at, Little(|term|, 2), term + (Little(b.offset, 8) + Little(b.length, 4)));
    AtSplit(data, at + 2, term, Little(b.offset, 8) + Little(b.length, 4));
    AtSplit(data, at + 2 + |term|, Little(b.offset, 8), Little(b.length, 4));
  }

  // ---- a dictionary entry ----------------------------------------------

  /**
   An entry of a dictionary block, given the term before it and the end of the postings before it: the
   length of the longest common prefix, the rest of the term, its document frequency, the gap and the length.
   */
  lemma EntryPlaces(before: string, predicted: nat, e: Dict.Entry, shared: nat)
    requires e.offset >= predicted
    requires shared <= |before| && shared <= |e.term| && before[..shared] == e.term[..shared]
    requires shared < |before| && shared < |e.term| ==> before[shared] != e.term[shared]
    ensures var rest := Utf8.Encode(e.term[shared..]);
      Dict.EntryBytes(before, predicted, e)
      == EncodeVarint(shared) + EncodeVarint(|rest|) + rest
         + EncodeVarint(e.df) + EncodeVarint(e.offset - predicted) + EncodeVarint(e.length)
  {
    hide EncodeVarint, Utf8.Encode;
    OneCommonPrefix(before, e.term, shared, Dict.Shared(before, e.term));
  }

  lemma OneCommonPrefix(a: string, b: string, m: nat, n: nat)
    requires m <= |a| && m <= |b| && a[..m] == b[..m] && (m < |a| && m < |b| ==> a[m] != b[m])
    requires n <= |a| && n <= |b| && a[..n] == b[..n] && (n < |a| && n < |b| ==> a[n] != b[n])
    ensures m == n
  {
    if m < n { PrefixAt(a, b, n, m); }
    if n < m { PrefixAt(a, b, m, n); }
  }

  lemma PrefixAt(a: string, b: string, n: nat, k: nat)
    requires k < n <= |a| && n <= |b| && a[..n] == b[..n]
    ensures a[k] == b[k]
  {
    assert a[k] == a[..n][k] && b[k] == b[..n][k];
  }

  // ---- posting lists ---------------------------------------------------

  /** How far id `i` is past the one before it. */
  function Step(ids: seq<nat>, i: nat): (r: nat)
    requires Ascending(ids) && i < |ids|
  {
    if i == 0 then ids[0] else ids[i] - ids[i - 1]
  }

  function Steps(ids: seq<nat>): seq<nat>
    requires Ascending(ids)
  {
    seq(|ids|, i requires 0 <= i < |ids| => Step(ids, i))
  }

  /** A short list: its length, the steps, the frequencies, every one a varint. */
  lemma ShortListPlaces(ids: seq<nat>, freqs: seq<nat>)
    requires Accepted(ids, freqs) && 0 < |ids| <= 8
    ensures Encoded(ids, freqs) == EncodeVarint(|ids|) + EncodeVarints(Steps(ids)) + EncodeVarints(freqs)
  {
    hide EncodeVarint, EncodeVarints, Words, Int64s;
    assert NatGaps(ids) == Steps(ids);
  }

  lemma {:induction false} VarintsAre(values: seq<nat>)
    ensures EncodeVarints(values) == Flatten(seq(|values|, i requires 0 <= i < |values| => EncodeVarint(values[i])))
  {
    hide EncodeVarint;
    if values != [] {
      var n := |values| - 1;
      VarintsAre(values[..n]);
      var all := seq(|values|, i requires 0 <= i < |values| => EncodeVarint(values[i]));
      assert all[..n] == seq(n, i requires 0 <= i < n => EncodeVarint(values[..n][i]));
    }
  }

  /** The steps of block `b`, each in a word, and its frequencies: 128 of them, or what is left. */
  function BlockSteps(ids: seq<nat>, b: nat): seq<nat>
    requires Ascending(ids)
  {
    var words := seq(|ids|, i requires 0 <= i < |ids| => Step(ids, i) % Pow2(32));
    Slice(words, 128 * b, 128 * b + 128)
  }

  function PackedBlock(ids: seq<nat>, freqs: seq<nat>, b: nat): Bytes
    requires Packable(ids, freqs)
  {
    var (steps, few) := (BlockSteps(ids, b), Slice(freqs, 128 * b, 128 * b + 128));
    if 1 <= WidthFor(steps) <= 32 && 1 <= WidthFor(few) <= 32 then Pack(steps, WidthFor(steps)) + Pack(few, WidthFor(few))
    else []
  }

  /** A row of the skip index: how far the block's last id is past the last before it, its bytes, its two widths. */
  function SkipRow(ids: seq<nat>, freqs: seq<nat>, b: nat): Bytes
    requires Packable(ids, freqs) && 128 * b < |ids|
  {
    var last := ids[Min(128 * b + 128, |ids|) - 1];
    var before := if b == 0 then 0 else ids[128 * b - 1];
    var (steps, few) := (WidthFor(BlockSteps(ids, b)), WidthFor(Slice(freqs, 128 * b, 128 * b + 128)));
    if before <= last && steps < 256 && few < 256 then
      EncodeVarint(last - before) + EncodeVarint(|PackedBlock(ids, freqs, b)|) + [steps, few]
    else []
  }

  lemma PieceIs(ids: seq<nat>, freqs: seq<nat>, b: nat)
    requires Packable(ids, freqs) && 128 * b < |ids|
    ensures PieceBytes(PieceAt(ids, freqs, b)) == PackedBlock(ids, freqs, b)
    ensures SkipBytes(SkipFor(PieceAt(ids, freqs, b))) == SkipRow(ids, freqs, b)
  {
    hide EncodeVarint, Pack, Ascending, Pow2, WidthFor;
    var p := PieceAt(ids, freqs, b);
    if b > 0 { AscendingIn(ids, b); }
    WordsAre(ids);
    assert p.gaps == BlockSteps(ids, b) && p.freqs == Slice(freqs, 128 * b, 128 * b + 128);
    WidthForIsLeast(p.gaps, WORD_BITS);
    WidthForIsLeast(p.freqs, WORD_BITS);
  }

  lemma AscendingIn(ids: seq<nat>, b: nat)
    requires Ascending(ids) && 128 * b < |ids| && b > 0
    ensures ids[128 * b - 1] < ids[Min(128 * b + 128, |ids|) - 1]
  {
  }

  lemma WordsAre(ids: seq<nat>)
    requires Ascending(ids)
    ensures WordGaps(ids) == seq(|ids|, i requires 0 <= i < |ids| => Step(ids, i) % Pow2(32))
  {
    hide Pow2;
  }

  lemma {:induction false} IndexIsRows(skips: seq<Skip>)
    ensures SkipIndex(skips) == Flatten(seq(|skips|, b requires 0 <= b < |skips| => SkipBytes(skips[b])))
  {
    hide SkipBytes;
    if skips != [] {
      var n := |skips| - 1;
      IndexIsRows(skips[..n]);
      var all := seq(|skips|, b requires 0 <= b < |skips| => SkipBytes(skips[b]));
      assert all[..n] == seq(n, b requires 0 <= b < n => SkipBytes(skips[..n][b]));
    }
  }

  function SkipRows(ids: seq<nat>, freqs: seq<nat>): (r: seq<Bytes>)
    requires Packable(ids, freqs)
  {
    seq((|ids| + 127) / 128, b requires 0 <= b < (|ids| + 127) / 128 => SkipRow(ids, freqs, b))
  }

  function PackedBlocks(ids: seq<nat>, freqs: seq<nat>): (r: seq<Bytes>)
    requires Packable(ids, freqs)
  {
    seq((|ids| + 127) / 128, b requires 0 <= b < (|ids| + 127) / 128 => PackedBlock(ids, freqs, b))
  }

  lemma RowsAre(ids: seq<nat>, freqs: seq<nat>)
    requires Packable(ids, freqs)
    ensures var pieces := Pieces(ids, freqs, BlockCount(|ids|));
      SkipIndex(Skips(pieces)) == Flatten(SkipRows(ids, freqs)) && Chunks(pieces) == PackedBlocks(ids, freqs)
  {
    hide PieceAt, PieceBytes, SkipFor, SkipBytes, SkipRow, PackedBlock, Flatten, SkipIndex, Words, Ascending;
    var pieces := Pieces(ids, freqs, BlockCount(|ids|));
    var skips := Skips(pieces);
    IndexIsRows(skips);
    var rows := seq(|skips|, b requires 0 <= b < |skips| => SkipBytes(skips[b]));
    forall b: nat | b < |skips|
      ensures rows[b] == SkipRows(ids, freqs)[b] && Chunks(pieces)[b] == PackedBlocks(ids, freqs)[b]
    {
      PieceIs(ids, freqs, b);
    }
    assert rows == SkipRows(ids, freqs);
  }

  /** A long list: its length, its number of blocks, a row for each block, and the blocks. */
  lemma LongListPlaces(ids: seq<nat>, freqs: seq<nat>)
    requires Accepted(ids, freqs) && |ids| > 8
    ensures Encoded(ids, freqs)
         == EncodeVarint(|ids|) + EncodeVarint((|ids| + 127) / 128)
            + Flatten(SkipRows(ids, freqs)) + Flatten(PackedBlocks(ids, freqs))
  {
    hide EncodeVarint, SkipRows, PackedBlocks, Flatten, SkipIndex, Skips, Chunks, Pieces, Int64s, Words, Ascending;
    RowsAre(ids, freqs);
  }

  // ---- text ------------------------------------------------------------

  /** The number whose base-64 digits are the low six bits of `tail`, most significant first. */
  function Base64(tail: Bytes): nat {
    if tail == [] then 0 else 64 * Base64(tail[..|tail| - 1]) + tail[|tail| - 1] % 64
  }

  /**
   As RFC 3629 lays a character out: one byte below 128 as it is, and otherwise a first byte that says how
   many follow, six bits in each of those, and as few as will do.
   */
  lemma CharPlaces(c: char)
    ensures var (n, r) := (c as int, Utf8.EncodeChar(c));
      && |r| == (if n < 0x80 then 1 else if n < 0x800 then 2 else if n < 0x10000 then 3 else 4)
      && (|r| == 1 ==> r[0] == n)
      && (forall i :: 1 <= i < |r| ==> 0x80 <= r[i] < 0xC0)
      && (|r| == 2 ==> 0xC0 <= r[0] < 0xE0 && n == r[0] % 0x20 * 0x40 + Base64(r[1..]))
      && (|r| == 3 ==> 0xE0 <= r[0] < 0xF0 && n == r[0] % 0x10 * 0x1000 + Base64(r[1..]))
      && (|r| == 4 ==> 0xF0 <= r[0] < 0xF8 && n == r[0] % 0x08 * 0x40000 + Base64(r[1..]))
  {
    hide Utf8.EncodeChar, Base64;
    var n: nat := c as int;
    OneByte(c);
    TwoBytes(c);
    ThreeBytes(c);
    FourBytes(c);
  }

  lemma OneByte(c: char)
    ensures c as int < 0x80 ==> Utf8.EncodeChar(c) == [c as int]
  {
  }

  lemma SixBits(high: nat, low: nat)
    ensures 128 <= Utf8.Tail(low) < 192 && Utf8.Tail(low) % 64 == low % 64
    ensures Base64([Utf8.Tail(low)]) == low % 64
    ensures Base64([Utf8.Tail(high), Utf8.Tail(low)]) == high % 64 * 64 + low % 64
  {
    var (a, b) := (Utf8.Tail(high), Utf8.Tail(low));
    assert [a, b][..1] == [a] && [a][..0] == [] && [b][..0] == [];
  }

  lemma TwoBytes(c: char)
    ensures var (n, r) := (c as int, Utf8.EncodeChar(c));
      0x80 <= n < 0x800 ==>
        && |r| == 2 && 0xC0 <= r[0] < 0xE0 && 0x80 <= r[1] < 0xC0
        && n == r[0] % 0x20 * 0x40 + Base64(r[1..])
  {
    hide Base64;
    var (n, r) := (c as int, Utf8.EncodeChar(c));
    if 0x80 <= n < 0x800 {
      SixBits(0, n);
      assert r[1..] == [Utf8.Tail(n)];
    }
  }

  lemma ThreeBytes(c: char)
    ensures var (n, r) := (c as int, Utf8.EncodeChar(c));
      0x800 <= n < 0x10000 ==>
        && |r| == 3 && 0xE0 <= r[0] < 0xF0 && 0x80 <= r[1] < 0xC0 && 0x80 <= r[2] < 0xC0
        && n == r[0] % 0x10 * 0x1000 + Base64(r[1..])
  {
    hide Base64, Utf8.Tail;
    var (n, r) := (c as int, Utf8.EncodeChar(c));
    if 0x800 <= n < 0x10000 {
      SixBits(0, n / 64);
      SixBits(n / 64, n);
      assert r[1..] == [Utf8.Tail(n / 64), Utf8.Tail(n)];
    }
  }

  lemma FourDigits(n: nat)
    ensures n == n / 262144 * 0x40000 + (64 * (n / 4096 % 64 * 64 + n / 64 % 64) + n % 64)
  {
    var a := n / 64;
    var b := a / 64;
    assert n / 4096 == b && n / 262144 == b / 64;
    assert b == 64 * (b / 64) + b % 64 && a == 64 * b + a % 64 && n == 64 * a + n % 64;
  }

  lemma FourBytes(c: char)
    ensures var (n, r) := (c as int, Utf8.EncodeChar(c));
      0x10000 <= n ==>
        && |r| == 4 && 0xF0 <= r[0] < 0xF8 && 0x80 <= r[1] < 0xC0 && 0x80 <= r[2] < 0xC0 && 0x80 <= r[3] < 0xC0
        && n == r[0] % 0x08 * 0x40000 + Base64(r[1..])
  {
    hide Utf8.Tail, Base64;
    var (n, r) := (c as int, Utf8.EncodeChar(c));
    if 0x10000 <= n {
      SixBits(0, n / 4096);
      SixBits(n / 4096, n / 64);
      SixBits(0, n);
      var (a, b, d) := (Utf8.Tail(n / 4096), Utf8.Tail(n / 64), Utf8.Tail(n));
      assert r[1..] == [a, b] + [d];
      Base64Snoc([a, b], d);
      FourDigits(n);
      assert n / 262144 < 8 && r[0] == 0xF0 + n / 262144;
    }
  }

  lemma Base64Snoc(tail: Bytes, b: Byte)
    ensures Base64(tail + [b]) == 64 * Base64(tail) + b % 64
  {
    assert (tail + [b])[..|tail|] == tail;
  }

  // ---- the whole object ------------------------------------------------

  /** The parts stand end to end in the order of the footer's fields, and the footer closes the object. */
  lemma SegmentPlaces<Doc(!new)>(src: Source<Doc>, terms: seq<string>, tools: Tools<Doc>, bloom: Bloom.Filter)
    requires LayoutFits(LayoutOf(src, terms, tools, bloom))
    ensures var layout := LayoutOf(src, terms, tools, bloom);
      var (f, data) := (layout.footer, SegmentBytes(layout));
      && f.version == 6 && f.postingsOffset == 0 && f.docstoreOffset == f.postingsLength
      && f.termdictOffset == f.docstoreOffset + f.docstoreLength
      && f.hotcacheOffset == f.termdictOffset + f.termdictLength
      && |data| == f.hotcacheOffset + f.hotcacheLength + 116
      && data[..f.docstoreOffset] == Flatten(PostingPieces(src, terms))
      && data[f.docstoreOffset..f.termdictOffset] == Flatten(DocPieces(src, tools))
      && data[f.termdictOffset..f.hotcacheOffset] == Flatten(DictPieces(src, terms))
      && data[f.hotcacheOffset..|data| - 116] == CacheBytes(layout.cache)
      && data[|data| - 116..] == PackFooter(f).value
  {
    hide PostingPieces, DocPieces, DictPieces, TermBlocks, DocBlocks, Entries, CacheBytes, Flatten, PackFooter;
    hide Fits, FooterFits, Lengths, Times, Sum, PostingTotal;
    var layout := LayoutOf(src, terms, tools, bloom);
    PackOk(layout.footer);
    FooterEnds(layout.footer);
  }

  /** The references of a hotcache: a dictionary block for every 32 terms and a docstore block for every 64 documents. */
  lemma BlocksPlaces<Doc(!new)>(src: Source<Doc>, terms: seq<string>, tools: Tools<Doc>, bloom: Bloom.Filter)
    ensures var (f, cache) := (LayoutOf(src, terms, tools, bloom).footer, LayoutOf(src, terms, tools, bloom).cache);
      && |cache.termBlocks| == (|terms| + 31) / 32 && |cache.docBlocks| == (|src.documents| + 63) / 64
      && (forall b :: 0 <= b < |cache.termBlocks| ==>
            32 * b < |terms| && cache.termBlocks[b].first == terms[32 * b]
            && cache.termBlocks[b].offset == f.termdictOffset + Offset(DictPieces(src, terms), b))
      && (forall b :: 0 <= b < |cache.docBlocks| ==>
            cache.docBlocks[b].first == 64 * b
            && cache.docBlocks[b].offset == f.docstoreOffset + Offset(DocPieces(src, tools), b))
      && cache.docLengths == Lengths(src.docs) && cache.bloom == bloom
  {
    hide PostingPieces, Entries, CacheBytes, Flatten, Lengths, Times, Sum, PostingTotal, Offset;
  }
}
