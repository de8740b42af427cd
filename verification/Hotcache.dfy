/** The hotcache and the footer of a segment: src/aether/index/segment.py. */
module Hotcache {
  import opened Prelude
  import opened Binary
  import Bloom
  import Utf8

  /** Where a dictionary block stands and the first term in it. */
  datatype TermBlock = TermBlock(first: string, offset: nat, length: nat)

  /** Where a docstore block stands and the first document in it. */
  datatype DocBlock = DocBlock(first: nat, offset: nat, length: nat)

  datatype Cache = Cache(termBlocks: seq<TermBlock>, docBlocks: seq<DocBlock>, docLengths: seq<nat>, bloom: Bloom.Filter)

  // ---- runs of records -------------------------------------------------

  function Many<T>(items: seq<T>, enc: T -> Bytes): Bytes {
    if items == [] then [] else Many(items[..|items| - 1], enc) + enc(items[|items| - 1])
  }

  type Decoder<T> = (Bytes, nat) -> Result<(T, nat)>

  function ReadMany<T>(data: Bytes, n: nat, pos: nat, dec: Decoder<T>): (r: Result<(seq<T>, nat)>)
    ensures r.Ok? ==> |r.value.0| == n
  {
    if n == 0 then Ok(([], pos))
    else
      var (items, p) :- ReadMany(data, n - 1, pos, dec);
      var (item, q) :- dec(data, p);
      Ok((items + [item], q))
  }

  method WriteManyLoop<T>(items: seq<T>, enc: T -> Bytes) returns (out: Bytes)
    ensures out == Many(items, enc)
  {
    out := [];
    for i := 0 to |items|
      invariant out == Many(items[..i], enc)
    {
      assert items[..i + 1][..i] == items[..i];
      out := out + enc(items[i]);
    }
    assert items[..|items|] == items;
  }

  method ReadManyLoop<T>(data: Bytes, n: nat, start: nat, dec: Decoder<T>) returns (r: Result<(seq<T>, nat)>)
    ensures r == ReadMany(data, n, start, dec)
  {
    var items: seq<T>, pos := [], start;
    for i := 0 to n
      invariant ReadMany(data, i, start, dec) == Ok((items, pos))
    {
      var one := dec(data, pos);
      if one.Err? {
        ReadFails(data, i + 1, n, start, dec);
        return Err(one.error);
      }
      items, pos := items + [one.value.0], one.value.1;
    }
    r := Ok((items, pos));
  }

  lemma {:induction false} ReadFails<T>(data: Bytes, few: nat, many: nat, pos: nat, dec: Decoder<T>)
    requires few <= many && ReadMany(data, few, pos, dec).Err?
    ensures ReadMany(data, many, pos, dec) == Err(ReadMany(data, few, pos, dec).error)
  {
    if few < many {
      ReadFails(data, few, many - 1, pos, dec);
    }
  }

  /** `dec` undoes `enc` on `item`, wherever it stands in `data`. */
  ghost predicate Undoes<T>(data: Bytes, item: T, enc: T -> Bytes, dec: Decoder<T>) {
    forall p: nat :: At(data, p, enc(item)) ==> dec(data, p) == Ok((item, p + |enc(item)|))
  }

  lemma {:induction false} ManyRoundTrip<T>(data: Bytes, pos: nat, items: seq<T>, enc: T -> Bytes, dec: Decoder<T>)
    requires At(data, pos, Many(items, enc))
    requires forall i :: 0 <= i < |items| ==> Undoes(data, items[i], enc, dec)
    ensures ReadMany(data, |items|, pos, dec) == Ok((items, pos + |Many(items, enc)|))
  {
    hide At;
    if items != [] {
      var n := |items| - 1;
      var (before, last) := (Many(items[..n], enc), enc(items[n]));
      AtSplit(data, pos, before, last);
      ManyRoundTrip(data, pos, items[..n], enc, dec);
      assert Undoes(data, items[n], enc, dec);
      assert dec(data, pos + |before|) == Ok((items[n], pos + |before| + |last|));
      assert items == items[..n] + [items[n]];
    }
  }

  // ---- one record ------------------------------------------------------

  predicate TermBlockFits(b: TermBlock) {
    |Utf8.Encode(b.first)| < Pow256(2) && b.offset < Pow256(8) && b.length < Pow256(4)
  }

  function TermBlockBytes(b: TermBlock): Bytes {
    var encoded := Utf8.Encode(b.first);
    Little(|encoded|, 2) + (encoded + (Little(b.offset, 8) + Little(b.length, 4)))
  }

  function ReadTermBlock(data: Bytes, pos: nat): Result<(TermBlock, nat)> {
    var width :- ReadField(data, pos, 2);
    var first :- Utf8.Decode(Slice(data, pos + 2, pos + 2 + width));
    var p := pos + 2 + width;
    var offset :- ReadField(data, p, 8);
    var length :- ReadField(data, p + 8, 4);
    Ok((TermBlock(first, offset, length), p + 12))
  }

  lemma TermBlockRoundTrip(data: Bytes, b: TermBlock)
    requires TermBlockFits(b)
    ensures Undoes(data, b, TermBlockBytes, ReadTermBlock)
  {
    hide At, Little, FromLittle, Pow256, Utf8.Encode, Utf8.Decode, Slice, ReadField;
    var encoded := Utf8.Encode(b.first);
    var (a, c, d) := (Little(|encoded|, 2), Little(b.offset, 8), Little(b.length, 4));
    forall pos: nat | At(data, pos, TermBlockBytes(b))
      ensures ReadTermBlock(data, pos) == Ok((b, pos + |TermBlockBytes(b)|))
    {
      var p := pos + 2 + |encoded|;
      AtSplit(data, pos, a, encoded + (c + d));
      AtSplit(data, pos + 2, encoded, c + d);
      AtSplit(data, p, c, d);
      FieldRoundTrip(data, pos, |encoded|, 2);
      SliceAt(data, pos + 2, encoded);
      Utf8.RoundTrip(b.first);
      FieldRoundTrip(data, p, b.offset, 8);
      FieldRoundTrip(data, p + 8, b.length, 4);
    }
  }

  predicate DocBlockFits(b: DocBlock) {
    b.first < Pow256(4) && b.offset < Pow256(8) && b.length < Pow256(4)
  }

  function DocBlockBytes(b: DocBlock): Bytes {
    Little(b.first, 4) + (Little(b.offset, 8) + Little(b.length, 4))
  }

  function ReadDocBlock(data: Bytes, pos: nat): Result<(DocBlock, nat)> {
    var first :- ReadField(data, pos, 4);
    var offset :- ReadField(data, pos + 4, 8);
    var length :- ReadField(data, pos + 12, 4);
    Ok((DocBlock(first, offset, length), pos + 16))
  }

  lemma DocBlockRoundTrip(data: Bytes, b: DocBlock)
    requires DocBlockFits(b)
    ensures Undoes(data, b, DocBlockBytes, ReadDocBlock)
  {
    hide At, Little, FromLittle, Pow256, ReadField;
    var (a, c, d) := (Little(b.first, 4), Little(b.offset, 8), Little(b.length, 4));
    forall pos: nat | At(data, pos, DocBlockBytes(b))
      ensures ReadDocBlock(data, pos) == Ok((b, pos + |DocBlockBytes(b)|))
    {
      AtSplit(data, pos, a, c + d);
      AtSplit(data, pos + 4, c, d);
      FieldRoundTrip(data, pos, b.first, 4);
      FieldRoundTrip(data, pos + 4, b.offset, 8);
      FieldRoundTrip(data, pos + 12, b.length, 4);
    }
  }

  function CountBytes(n: nat): Bytes {
    Little(n, 4)
  }

  function ReadCount(data: Bytes, pos: nat): Result<(nat, nat)> {
    var n :- ReadField(data, pos, 4);
    Ok((n, pos + 4))
  }

  lemma CountRoundTrip(data: Bytes, n: nat)
    requires n < Pow256(4)
    ensures Undoes(data, n, CountBytes, ReadCount)
  {
    hide At, Little, FromLittle, Pow256, ReadField;
    forall pos: nat | At(data, pos, CountBytes(n))
      ensures ReadCount(data, pos) == Ok((n, pos + 4))
    {
      FieldRoundTrip(data, pos, n, 4);
    }
  }

  // ---- the hotcache ----------------------------------------------------

  /** Every value fits its field; `struct.pack` refuses any other. */
  predicate Fits(h: Cache) {
    && |h.termBlocks| < Pow256(4) && |h.docBlocks| < Pow256(4) && |h.docLengths| < Pow256(4)
    && (forall i :: 0 <= i < |h.termBlocks| ==> TermBlockFits(h.termBlocks[i]))
    && (forall i :: 0 <= i < |h.docBlocks| ==> DocBlockFits(h.docBlocks[i]))
    && (forall i :: 0 <= i < |h.docLengths| ==> h.docLengths[i] < Pow256(4))
    && h.bloom.bits < Pow256(4) && h.bloom.hashes < Pow256(1)
  }

  function CacheBytes(h: Cache): Bytes {
    CountBytes(|h.termBlocks|) + (Many(h.termBlocks, TermBlockBytes)
      + (CountBytes(|h.docBlocks|) + (Many(h.docBlocks, DocBlockBytes)
          + (CountBytes(|h.docLengths|) + (Many(h.docLengths, CountBytes) + Bloom.FilterBytes(h.bloom))))))
  }

  method EncodeHotcache(h: Cache) returns (r: Result<Bytes>)
    ensures r == if Fits(h) then Ok(CacheBytes(h)) else Err(StructError)
  {
    hide Many, TermBlockBytes, DocBlockBytes, CountBytes, Bloom.FilterBytes, Pow256, TermBlockFits, DocBlockFits;
    if !Fits(h) {
      return Err(StructError);
    }
    var terms := WriteManyLoop(h.termBlocks, TermBlockBytes);
    var docs := WriteManyLoop(h.docBlocks, DocBlockBytes);
    var lengths := WriteManyLoop(h.docLengths, CountBytes);
    r := Ok(CountBytes(|h.termBlocks|) + (terms + (CountBytes(|h.docBlocks|) + (docs
            + (CountBytes(|h.docLengths|) + (lengths + Bloom.FilterBytes(h.bloom)))))));
  }

  function DecodeHotcache(data: Bytes): Result<Cache> {
    var (terms, p0) :- ReadCount(data, 0);
    var (termBlocks, p1) :- ReadMany(data, terms, p0, ReadTermBlock);
    var (docs, p2) :- ReadCount(data, p1);
    var (docBlocks, p3) :- ReadMany(data, docs, p2, ReadDocBlock);
    var (count, p4) :- ReadCount(data, p3);
    var (docLengths, p5) :- ReadMany(data, count, p4, ReadCount);
    var (bloom, _) :- Bloom.FromBytes(data, p5);
    Ok(Cache(termBlocks, docBlocks, docLengths, bloom))
  }

  method DecodeHotcacheLoop(data: Bytes) returns (r: Result<Cache>)
    ensures r == DecodeHotcache(data)
  {
    hide ReadMany, ReadCount, Bloom.FromBytes, ReadTermBlock, ReadDocBlock;
    var terms :- ReadCount(data, 0);
    var termBlocks :- ReadManyLoop(data, terms.0, terms.1, ReadTermBlock);
    var docs :- ReadCount(data, termBlocks.1);
    var docBlocks :- ReadManyLoop(data, docs.0, docs.1, ReadDocBlock);
    var count :- ReadCount(data, docBlocks.1);
    var lengths :- ReadManyLoop(data, count.0, count.1, ReadCount);
    var bloom :- Bloom.FromBytes(data, lengths.1);
    r := Ok(Cache(termBlocks.0, docBlocks.0, lengths.0, bloom.0));
  }

  lemma CacheParts(h: Cache)
    ensures
      var (data, a, b) := (CacheBytes(h), Many(h.termBlocks, TermBlockBytes), Many(h.docBlocks, DocBlockBytes));
      var (p1, p3) := (4 + |a|, 8 + |a| + |b|);
      var c := Many(h.docLengths, CountBytes);
      && At(data, 0, CountBytes(|h.termBlocks|)) && At(data, 4, a)
      && At(data, p1, CountBytes(|h.docBlocks|)) && At(data, p1 + 4, b)
      && At(data, p3, CountBytes(|h.docLengths|)) && At(data, p3 + 4, c)
      && At(data, p3 + 4 + |c|, Bloom.FilterBytes(h.bloom))
  {
    hide Many, TermBlockBytes, DocBlockBytes, Bloom.FilterBytes, At;
    var (data, a, b) := (CacheBytes(h), Many(h.termBlocks, TermBlockBytes), Many(h.docBlocks, DocBlockBytes));
    var (c, f) := (Many(h.docLengths, CountBytes), Bloom.FilterBytes(h.bloom));
    var (x, y, z) := (CountBytes(|h.termBlocks|), CountBytes(|h.docBlocks|), CountBytes(|h.docLengths|));
    AtWhole(data);
    AtSplit(data, 0, x, a + (y + (b + (z + (c + f)))));
    AtSplit(data, 4, a, y + (b + (z + (c + f))));
    AtSplit(data, 4 + |a|, y, b + (z + (c + f)));
    AtSplit(data, 8 + |a|, b, z + (c + f));
    AtSplit(data, 8 + |a| + |b|, z, c + f);
    AtSplit(data, 12 + |a| + |b|, c, f);
  }

  lemma TermRun(h: Cache, data: Bytes, pos: nat)
    requires Fits(h) && At(data, pos, Many(h.termBlocks, TermBlockBytes))
    ensures ReadMany(data, |h.termBlocks|, pos, ReadTermBlock)
         == Ok((h.termBlocks, pos + |Many(h.termBlocks, TermBlockBytes)|))
  {
    hide At, Many, ReadMany, Undoes, TermBlockBytes, ReadTermBlock, Pow256, TermBlockFits;
    forall i | 0 <= i < |h.termBlocks|
      ensures Undoes(data, h.termBlocks[i], TermBlockBytes, ReadTermBlock)
    {
      TermBlockRoundTrip(data, h.termBlocks[i]);
    }
    ManyRoundTrip(data, pos, h.termBlocks, TermBlockBytes, ReadTermBlock);
  }

  lemma DocRun(h: Cache, data: Bytes, pos: nat)
    requires Fits(h) && At(data, pos, Many(h.docBlocks, DocBlockBytes))
    ensures ReadMany(data, |h.docBlocks|, pos, ReadDocBlock)
         == Ok((h.docBlocks, pos + |Many(h.docBlocks, DocBlockBytes)|))
  {
    hide At, Many, ReadMany, Undoes, DocBlockBytes, ReadDocBlock, Pow256, DocBlockFits;
    forall i | 0 <= i < |h.docBlocks|
      ensures Undoes(data, h.docBlocks[i], DocBlockBytes, ReadDocBlock)
    {
      DocBlockRoundTrip(data, h.docBlocks[i]);
    }
    ManyRoundTrip(data, pos, h.docBlocks, DocBlockBytes, ReadDocBlock);
  }

  lemma LengthRun(h: Cache, data: Bytes, pos: nat)
    requires Fits(h) && At(data, pos, Many(h.docLengths, CountBytes))
    ensures ReadMany(data, |h.docLengths|, pos, ReadCount)
         == Ok((h.docLengths, pos + |Many(h.docLengths, CountBytes)|))
  {
    forall i | 0 <= i < |h.docLengths|
      ensures Undoes(data, h.docLengths[i], CountBytes, ReadCount)
    {
      CountRoundTrip(data, h.docLengths[i]);
    }
    ManyRoundTrip(data, pos, h.docLengths, CountBytes, ReadCount);
  }

  lemma CountAt(data: Bytes, pos: nat, n: nat)
    requires n < Pow256(4) && At(data, pos, CountBytes(n))
    ensures ReadCount(data, pos) == Ok((n, pos + 4))
  {
    CountRoundTrip(data, n);
  }

  /** What is written is what is read. */
  lemma HotcacheRoundTrip(h: Cache)
    requires Fits(h) && h.bloom.Valid()
    ensures DecodeHotcache(CacheBytes(h)) == Ok(h)
  {
    hide Many, ReadMany, TermBlockBytes, DocBlockBytes, Bloom.FilterBytes, At, CacheBytes, Pow256, ReadCount, CountBytes;
    hide ReadTermBlock, ReadDocBlock, TermBlockFits, DocBlockFits, Bloom.FromBytes;
    var data := CacheBytes(h);
    CacheParts(h);
    var p1 := 4 + |Many(h.termBlocks, TermBlockBytes)|;
    var p3 := p1 + 4 + |Many(h.docBlocks, DocBlockBytes)|;
    CountAt(data, 0, |h.termBlocks|);
    TermRun(h, data, 4);
    CountAt(data, p1, |h.docBlocks|);
    DocRun(h, data, p1 + 4);
    CountAt(data, p3, |h.docLengths|);
    LengthRun(h, data, p3 + 4);
    Bloom.FilterRoundTrip(data, p3 + 4 + |Many(h.docLengths, CountBytes)|, h.bloom);
  }

  // ---- the footer ------------------------------------------------------

  const MAGIC: Bytes := [65, 84, 72, 82]
  const VERSION: nat := 6
  const FOOTER_SIZE: nat := 116

  datatype Footer = Footer(
    version: nat, postingsOffset: nat, postingsLength: nat, docstoreOffset: nat, docstoreLength: nat,
    termdictOffset: nat, termdictLength: nat, hotcacheOffset: nat, hotcacheLength: nat,
    numDocs: nat, numTerms: nat, numPostings: nat, totalLength: nat, minTs: int, maxTs: int)

  /** The widths of the fields between the two magics, in order. */
  const WIDTHS: seq<nat> := [4, 8, 8, 8, 8, 8, 8, 8, 8, 4, 4, 8, 8, 8, 8]

  predicate FooterFits(f: Footer) {
    FitsSigned(f.minTs, 8) && FitsSigned(f.maxTs, 8) && FieldsFit(Values(f), WIDTHS)
  }

  /** The fields as unsigned integers, the two signed ones in two's complement. */
  function Values(f: Footer): seq<nat>
    requires FitsSigned(f.minTs, 8) && FitsSigned(f.maxTs, 8)
  {
    [f.version, f.postingsOffset, f.postingsLength, f.docstoreOffset, f.docstoreLength,
     f.termdictOffset, f.termdictLength, f.hotcacheOffset, f.hotcacheLength,
     f.numDocs, f.numTerms, f.numPostings, f.totalLength, Unsigned(f.minTs, 8), Unsigned(f.maxTs, 8)]
  }

  function FromValues(v: seq<nat>): Footer
    requires |v| == 15
  {
    Footer(v[0], v[1], v[2], v[3], v[4], v[5], v[6], v[7], v[8], v[9], v[10], v[11], v[12],
           Signed(v[13], 8), Signed(v[14], 8))
  }

  predicate FieldsFit(values: seq<nat>, widths: seq<nat>) {
    |values| == |widths| && forall i :: 0 <= i < |values| ==> values[i] < Pow256(widths[i])
  }

  function FieldBytes(values: seq<nat>, widths: seq<nat>): Bytes
    requires |values| == |widths|
  {
    if values == [] then [] else Little(values[0], widths[0]) + FieldBytes(values[1..], widths[1..])
  }

  function ReadFields(data: Bytes, pos: nat, widths: seq<nat>): (r: Result<seq<nat>>)
    ensures r.Ok? ==> |r.value| == |widths|
    decreases |widths|
  {
    if widths == [] then Ok([])
    else
      var first :- ReadField(data, pos, widths[0]);
      var rest :- ReadFields(data, pos + widths[0], widths[1..]);
      Ok([first] + rest)
  }

  function PackFooter(f: Footer): Result<Bytes> {
    if FooterFits(f) then Ok(MAGIC + (FieldBytes(Values(f), WIDTHS) + MAGIC)) else Err(StructError)
  }

  /** The footer at the end of `data`, whatever stands before it. */
  function UnpackFooter(data: Bytes): Result<Footer> {
    if |data| < FOOTER_SIZE then Err(ValueError)
    else
      var tail := data[|data| - FOOTER_SIZE..];
      var values :- ReadFields(tail, 4, WIDTHS);
      if tail[..4] != MAGIC || tail[FOOTER_SIZE - 4..] != MAGIC || values[0] != VERSION then Err(ValueError)
      else Ok(FromValues(values))
  }

  lemma {:induction false} FieldsRoundTrip(data: Bytes, pos: nat, values: seq<nat>, widths: seq<nat>)
    requires FieldsFit(values, widths) && At(data, pos, FieldBytes(values, widths))
    ensures ReadFields(data, pos, widths) == Ok(values)
    decreases |values|
  {
    hide Little, Pow256, At, ReadField;
    if values != [] {
      AtSplit(data, pos, Little(values[0], widths[0]), FieldBytes(values[1..], widths[1..]));
      FieldRoundTrip(data, pos, values[0], widths[0]);
      FieldsRoundTrip(data, pos + widths[0], values[1..], widths[1..]);
      assert values == [values[0]] + values[1..];
    }
  }

  lemma {:induction false} FieldsLength(values: seq<nat>, widths: seq<nat>)
    requires |values| == |widths|
    ensures |FieldBytes(values, widths)| == TotalWidth(widths)
  {
    if values != [] {
      FieldsLength(values[1..], widths[1..]);
    }
  }

  function TotalWidth(widths: seq<nat>): nat {
    if widths == [] then 0 else widths[0] + TotalWidth(widths[1..])
  }

  lemma WidthStep(k: nat)
    requires k < 15
    ensures TotalWidth(WIDTHS[k..]) == WIDTHS[k] + TotalWidth(WIDTHS[k + 1..])
  {
    assert WIDTHS[k..][1..] == WIDTHS[k + 1..];
  }

  lemma FooterWidth()
    ensures TotalWidth(WIDTHS) == FOOTER_SIZE - 8
  {
    WidthStep(0); WidthStep(1); WidthStep(2); WidthStep(3); WidthStep(4);
    WidthStep(5); WidthStep(6); WidthStep(7); WidthStep(8); WidthStep(9);
    WidthStep(10); WidthStep(11); WidthStep(12); WidthStep(13); WidthStep(14);
    assert WIDTHS[0..] == WIDTHS;
  }

  lemma ValuesRoundTrip(f: Footer)
    requires FitsSigned(f.minTs, 8) && FitsSigned(f.maxTs, 8)
    ensures FromValues(Values(f)) == f
  {
    hide Pow256, FitsSigned;
    SignedRoundTrip(f.minTs, 8);
    SignedRoundTrip(f.maxTs, 8);
  }

  /** The last bytes of an object alone give its footer back. */
  lemma FooterRoundTrip(before: Bytes, f: Footer)
    requires FooterFits(f) && f.version == VERSION
    ensures PackFooter(f).Ok? && |PackFooter(f).value| == FOOTER_SIZE
    ensures UnpackFooter(before + PackFooter(f).value) == Ok(f)
  {
    hide FieldBytes, Pow256, FitsSigned, ReadFields, TotalWidth, FromValues;
    var (fields, footer) := (FieldBytes(Values(f), WIDTHS), PackFooter(f).value);
    var data := before + footer;
    FooterWidth();
    FieldsLength(Values(f), WIDTHS);
    assert data[|data| - FOOTER_SIZE..] == footer;
    assert At(footer, 4, fields);
    FieldsRoundTrip(footer, 4, Values(f), WIDTHS);
    ValuesRoundTrip(f);
  }
}
