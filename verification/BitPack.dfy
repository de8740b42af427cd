/** Bit-packing at the width a block needs: src/aether/index/bitpack.py. Bits run high to low. */
module BitPack {
  import opened Prelude

  const BLOCK_SIZE: nat := 128
  const WORD_BITS: nat := 32

  type Bit = b: nat | b < 2

  // ---- widths ----------------------------------------------------------

  /** Python's `int.bit_length`. */
  function BitLength(n: nat): nat {
    if n == 0 then 0 else 1 + BitLength(n / 2)
  }

  function Largest(values: seq<nat>): (r: nat)
    ensures forall i :: 0 <= i < |values| ==> values[i] <= r
    ensures values != [] ==> exists i :: 0 <= i < |values| && values[i] == r
  {
    if values == [] then 0
    else
      var rest := Largest(values[..|values| - 1]);
      var last := values[|values| - 1];
      if last >= rest then last else rest
  }

  function WidthFor(values: seq<nat>): nat {
    if values == [] then 1 else Max(1, BitLength(Largest(values)))
  }

  lemma {:induction false} BitLengthBounds(n: nat)
    ensures n < Pow2(BitLength(n))
    ensures n > 0 ==> BitLength(n) >= 1 && Pow2(BitLength(n) - 1) <= n
  {
    if n > 0 {
      BitLengthBounds(n / 2);
    }
  }

  /** Every value fits below `2^width`. */
  predicate AllBelow(values: seq<nat>, width: nat) {
    forall i :: 0 <= i < |values| ==> values[i] < Pow2(width)
  }

  /** The width is the least that holds every value, and never below one. */
  lemma WidthForIsLeast(values: seq<nat>, width: nat)
    ensures WidthFor(values) >= 1
    ensures width >= 1 ==> (AllBelow(values, width) <==> WidthFor(values) <= width)
  {
    var w := WidthFor(values);
    if values != [] {
      var top := Largest(values);
      BitLengthBounds(top);
      var i :| 0 <= i < |values| && values[i] == top;
      if BitLength(top) <= width { Pow2Grows(BitLength(top), width); }
      if width < BitLength(top) { Pow2Grows(width, BitLength(top) - 1); }
    }
  }

  // ---- bits ------------------------------------------------------------

  /** The `n` low bits of `v`. */
  function ToBits(v: nat, n: nat): (r: seq<Bit>)
    ensures |r| == n
  {
    if n == 0 then [] else ToBits(v / 2, n - 1) + [v % 2]
  }

  function FromBits(bits: seq<Bit>): nat {
    if bits == [] then 0 else 2 * FromBits(bits[..|bits| - 1]) + bits[|bits| - 1]
  }

  lemma {:induction false} FromBitsBound(bits: seq<Bit>)
    ensures FromBits(bits) < Pow2(|bits|)
  {
    if bits != [] {
      FromBitsBound(bits[..|bits| - 1]);
    }
  }

  lemma {:induction false} BitsOfNumber(bits: seq<Bit>)
    ensures ToBits(FromBits(bits), |bits|) == bits
  {
    if bits != [] {
      var n := |bits| - 1;
      BitsOfNumber(bits[..n]);
      assert bits == bits[..n] + [bits[n]];
    }
  }

  lemma HalfModulus(v: nat, p: nat)
    requires p >= 1
    ensures 2 * ((v / 2) % p) + v % 2 == v % (2 * p)
  {
    var (q, r) := ((v / 2) / p, (v / 2) % p);
    assert v / 2 == p * q + r;
    var low := 2 * r + v % 2;
    assert v == 2 * (p * q) + low;
    assert 2 * (p * q) == (2 * p) * q;
    ModUnique(v, 2 * p, q, low);
  }

  lemma ModUnique(v: nat, m: nat, q: nat, r: nat)
    requires m > 0 && v == m * q + r && r < m
    ensures v % m == r
  {
    var (q', r') := (v / m, v % m);
    assert m * (q - q') == r' - r;
    if q > q' { AtLeastOnce(m, q - q'); }
    if q < q' { AtLeastOnce(m, q' - q); }
  }

  lemma AtLeastOnce(m: nat, k: nat)
    requires k >= 1
    ensures m * k >= m
  {
    assert m * (k - 1) >= 0;
  }

  lemma {:induction false} NumberOfBits(v: nat, n: nat)
    ensures FromBits(ToBits(v, n)) == v % Pow2(n)
  {
    if n > 0 {
      NumberOfBits(v / 2, n - 1);
      assert ToBits(v, n)[..n - 1] == ToBits(v / 2, n - 1);
      HalfModulus(v, Pow2(n - 1));
    }
  }

  /** Keeping the low columns of a wide row keeps the low bits of the value. */
  lemma {:induction false} LowBits(v: nat, wide: nat, n: nat)
    requires n <= wide
    ensures ToBits(v, wide)[wide - n..] == ToBits(v, n)
  {
    if n > 0 {
      LowBits(v / 2, wide - 1, n - 1);
      var (w, t) := (ToBits(v, wide), ToBits(v / 2, wide - 1));
      assert w[wide - n..] == t[wide - n..] + [v % 2];
    }
  }

  function Zeros(n: nat): (r: seq<Bit>)
    ensures |r| == n
  {
    seq(n, _ => 0)
  }

  /** Leading zeros change nothing. */
  lemma {:induction false} LeadingZeros(bits: seq<Bit>, n: nat)
    ensures FromBits(Zeros(n) + bits) == FromBits(bits)
  {
    var all := Zeros(n) + bits;
    if bits == [] {
      assert all == Zeros(n);
      ZerosAreZero(n);
    } else {
      assert all[..|all| - 1] == Zeros(n) + bits[..|bits| - 1];
      LeadingZeros(bits[..|bits| - 1], n);
    }
  }

  lemma {:induction false} ZerosAreZero(n: nat)
    ensures FromBits(Zeros(n)) == 0
  {
    if n > 0 {
      assert Zeros(n)[..n - 1] == Zeros(n - 1);
      ZerosAreZero(n - 1);
    }
  }

  // ---- bytes of bits ---------------------------------------------------

  function ByteOf(bits: seq<Bit>): Byte
    requires |bits| == 8
  {
    FromBitsBound(bits);
    assert Pow2(8) == 256;
    FromBits(bits)
  }

  /** `numpy.packbits`: the last byte is filled up with zeros. */
  function PackBits(bits: seq<Bit>): Bytes {
    if bits == [] then []
    else if |bits| < 8 then [ByteOf(bits + Zeros(8 - |bits|))]
    else [ByteOf(bits[..8])] + PackBits(bits[8..])
  }

  /** `numpy.unpackbits`. */
  function UnpackBits(data: Bytes): (r: seq<Bit>)
    ensures |r| == 8 * |data|
  {
    if data == [] then [] else ToBits(data[0], 8) + UnpackBits(data[1..])
  }

  lemma {:induction false} PackedLength(bits: seq<Bit>)
    ensures |PackBits(bits)| == (|bits| + 7) / 8
  {
    if |bits| >= 8 {
      PackedLength(bits[8..]);
    }
  }

  lemma {:induction false} UnpackPacked(bits: seq<Bit>)
    ensures |bits| <= 8 * |PackBits(bits)|
    ensures UnpackBits(PackBits(bits))[..|bits|] == bits
  {
    if 0 < |bits| < 8 {
      var full := bits + Zeros(8 - |bits|);
      BitsOfNumber(full);
      assert PackBits(bits)[1..] == [];
      assert UnpackBits(PackBits(bits)) == full;
    } else if |bits| >= 8 {
      BitsOfNumber(bits[..8]);
      UnpackPacked(bits[8..]);
      var packed := PackBits(bits);
      assert packed[1..] == PackBits(bits[8..]);
      assert UnpackBits(packed) == bits[..8] + UnpackBits(packed[1..]);
    }
  }

  lemma {:induction false} UnpackConcat(a: Bytes, b: Bytes)
    ensures UnpackBits(a + b) == UnpackBits(a) + UnpackBits(b)
  {
    if a == [] {
      assert a + b == b;
    } else {
      assert (a + b)[1..] == a[1..] + b;
      UnpackConcat(a[1..], b);
    }
  }

  // ---- packing ---------------------------------------------------------

  /** The low `bits` columns of each value's 32-bit row, back to back. */
  function Spread(values: seq<nat>, bits: nat): (r: seq<Bit>)
    requires bits <= WORD_BITS
    ensures |r| == |values| * bits
  {
    if values == [] then []
    else
      var rest := Spread(values[..|values| - 1], bits);
      assert (|values| - 1) * bits + bits == |values| * bits;
      rest + ToBits(values[|values| - 1], WORD_BITS)[WORD_BITS - bits..]
  }

  function Pack(values: seq<nat>, bits: nat): Bytes
    requires 1 <= bits <= WORD_BITS
  {
    PackBits(Spread(values, bits))
  }

  function PackedSize(count: nat, bits: nat): nat {
    (count * bits + 7) / 8
  }

  lemma PackSize(values: seq<nat>, bits: nat)
    requires 1 <= bits <= WORD_BITS
    ensures |Pack(values, bits)| == PackedSize(|values|, bits)
  {
    PackedLength(Spread(values, bits));
  }

  /** Cell `(i, j)` of the 32-column buffer: zero left of the last `bits` columns. */
  function Cell(stream: seq<Bit>, bits: nat, i: nat, j: nat): Bit {
    var at := i * bits + j - (WORD_BITS - bits);
    if j + bits >= WORD_BITS && 0 <= at < |stream| then stream[at] else 0
  }

  /** Row `i` of that buffer, read as a number. */
  function Row(stream: seq<Bit>, bits: nat, i: nat): nat {
    FromBits(seq(WORD_BITS, j requires 0 <= j < WORD_BITS => Cell(stream, bits, i, j)))
  }

  function Rows(stream: seq<Bit>, bits: nat, count: nat): (r: seq<nat>)
    ensures |r| == count
  {
    if count == 0 then [] else Rows(stream, bits, count - 1) + [Row(stream, bits, count - 1)]
  }

  /** A shape that does not fit is the error numpy raises. */
  function Unpack(data: Bytes, count: nat, bits: nat): Result<seq<nat>> {
    if count == 0 then Ok([])
    else if bits < 1 || bits > WORD_BITS || count * bits > 8 * |data| then Err(ValueError)
    else Ok(Rows(UnpackBits(data)[..count * bits], bits, count))
  }

  /** The code's own steps: a zeroed buffer whose low columns are filled, then read row by row. */
  method UnpackLoop(data: Bytes, count: nat, bits: nat) returns (r: Result<seq<nat>>)
    ensures r == Unpack(data, count, bits)
  {
    if count == 0 {
      return Ok([]);
    }
    if bits < 1 || bits > WORD_BITS || count * bits > 8 * |data| {
      return Err(ValueError);
    }
    var stream := UnpackBits(data)[..count * bits];
    var spread := new Bit[count, WORD_BITS]((_, _) => 0);
    FillColumns(spread, stream, bits);
    var values: seq<nat> := [];
    for i := 0 to count
      invariant values == Rows(stream, bits, i)
    {
      var row := seq(WORD_BITS, j requires 0 <= j < WORD_BITS reads spread => spread[i, j]);
      assert row == seq(WORD_BITS, j requires 0 <= j < WORD_BITS => Cell(stream, bits, i, j));
      values := values + [FromBits(row)];
    }
    r := Ok(values);
  }

  /** `spread[:, -bits:] = stream.reshape(count, bits)` over a zeroed buffer. */
  method FillColumns(spread: array2<Bit>, stream: seq<Bit>, bits: nat)
    requires spread.Length1 == WORD_BITS && 1 <= bits <= WORD_BITS
    requires |stream| == spread.Length0 * bits
    requires forall i, j :: 0 <= i < spread.Length0 && 0 <= j < WORD_BITS ==> spread[i, j] == 0
    modifies spread
    ensures forall i, j :: 0 <= i < spread.Length0 && 0 <= j < WORD_BITS ==> spread[i, j] == Cell(stream, bits, i, j)
  {
    var skip := WORD_BITS - bits;
    var at := 0;
    for i := 0 to spread.Length0
      invariant at == i * bits
      invariant forall k, j :: 0 <= k < i && 0 <= j < WORD_BITS ==> spread[k, j] == Cell(stream, bits, k, j)
      invariant forall k, j :: i <= k < spread.Length0 && 0 <= j < WORD_BITS ==> spread[k, j] == 0
    {
      RowWithin(i, spread.Length0, bits);
      for c := 0 to bits
        invariant forall k, j :: 0 <= k < i && 0 <= j < WORD_BITS ==> spread[k, j] == Cell(stream, bits, k, j)
        invariant forall k, j :: i < k < spread.Length0 && 0 <= j < WORD_BITS ==> spread[k, j] == 0
        invariant forall j :: 0 <= j < skip + c ==> spread[i, j] == Cell(stream, bits, i, j)
        invariant forall j :: skip + c <= j < WORD_BITS ==> spread[i, j] == 0
      {
        spread[i, skip + c] := stream[at + c];
      }
      at := at + bits;
    }
  }

  lemma RowWithin(i: nat, count: nat, bits: nat)
    requires i < count
    ensures i * bits + bits == (i + 1) * bits <= count * bits
  {
    assert (count - i - 1) * bits >= 0;
  }

  // ---- the round trip --------------------------------------------------

  /** What survives of each value in `bits` bits. */
  function Truncated(values: seq<nat>, bits: nat): (r: seq<nat>)
    ensures |r| == |values|
  {
    seq(|values|, i requires 0 <= i < |values| => LowPart(values[i], bits))
  }

  function LowPart(v: nat, bits: nat): nat {
    v % Pow2(bits)
  }

  lemma LowPartIff(v: nat, bits: nat)
    ensures LowPart(v, bits) == v <==> v < Pow2(bits)
  {
    if v < Pow2(bits) { ModUnique(v, Pow2(bits), 0, v); }
  }

  lemma SpreadLast(values: seq<nat>, bits: nat)
    requires bits <= WORD_BITS && values != []
    ensures var n := |values| - 1;
      Spread(values, bits) == Spread(values[..n], bits) + ToBits(values[n], bits)
  {
    LowBits(values[|values| - 1], WORD_BITS, bits);
  }

  lemma RowOfBits(stream: seq<Bit>, bits: nat, i: nat, v: nat)
    requires bits <= WORD_BITS && At(stream, i * bits, ToBits(v, bits))
    ensures Row(stream, bits, i) == LowPart(v, bits)
  {
    var low := ToBits(v, bits);
    var at := i * bits;
    var row := seq(WORD_BITS, j requires 0 <= j < WORD_BITS => Cell(stream, bits, i, j));
    assert forall c :: 0 <= c < bits ==> stream[at..at + |low|][c] == low[c] == stream[at + c];
    assert row == Zeros(WORD_BITS - bits) + low;
    LeadingZeros(low, WORD_BITS - bits);
    NumberOfBits(v, bits);
  }

  lemma {:induction false} RowsOfSpread(values: seq<nat>, bits: nat, stream: seq<Bit>)
    requires bits <= WORD_BITS && At(stream, 0, Spread(values, bits))
    ensures Rows(stream, bits, |values|) == Truncated(values, bits)
  {
    if values != [] {
      var n := |values| - 1;
      SpreadLast(values, bits);
      AtSplit(stream, 0, Spread(values[..n], bits), ToBits(values[n], bits));
      RowsOfSpread(values[..n], bits, stream);
      RowOfBits(stream, bits, n, values[n]);
      assert Truncated(values, bits) == Truncated(values[..n], bits) + [LowPart(values[n], bits)];
    }
  }

  /** Unpacking what was packed, with anything after it, gives every value modulo `2^bits`. */
  lemma UnpackPack(values: seq<nat>, bits: nat, extra: Bytes)
    requires 1 <= bits <= WORD_BITS
    ensures Unpack(Pack(values, bits) + extra, |values|, bits) == Ok(Truncated(values, bits))
  {
    var (spread, packed) := (Spread(values, bits), Pack(values, bits));
    var stream := UnpackBits(packed + extra);
    UnpackPacked(spread);
    UnpackConcat(packed, extra);
    assert stream[..|spread|] == UnpackBits(packed)[..|spread|] == spread;
    assert At(spread, 0, spread);
    RowsOfSpread(values, bits, spread);
  }

  /** The round trip is exact precisely when every value fits the width. */
  lemma PackRoundTripIff(values: seq<nat>, bits: nat)
    requires 1 <= bits <= WORD_BITS
    ensures Unpack(Pack(values, bits), |values|, bits) == Ok(values) <==> AllBelow(values, bits)
  {
    UnpackPack(values, bits, []);
    assert Pack(values, bits) + [] == Pack(values, bits);
    TruncatedIff(values, bits);
  }

  lemma TruncatedIff(values: seq<nat>, bits: nat)
    ensures Truncated(values, bits) == values <==> AllBelow(values, bits)
  {
    var low := Truncated(values, bits);
    forall i | 0 <= i < |values|
      ensures low[i] == LowPart(values[i], bits) && (low[i] == values[i] <==> values[i] < Pow2(bits))
    {
      LowPartIff(values[i], bits);
    }
    assert low == values <==> forall i :: 0 <= i < |values| ==> low[i] == values[i];
  }
}
