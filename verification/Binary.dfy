/** Python's `struct` with little-endian fields: src/aether/index/segment.py, src/aether/index/bloom.py. */
module Binary {
  import opened Prelude

  /** The `width` little-endian bytes of `v` modulo `256^width`. */
  function Little(v: nat, width: nat): (r: Bytes)
    ensures |r| == width
  {
    if width == 0 then [] else [v % 256] + Little(v / 256, width - 1)
  }

  function FromLittle(data: Bytes): nat {
    if data == [] then 0 else data[0] + 256 * FromLittle(data[1..])
  }

  function Pow256(n: nat): (p: nat)
    ensures p >= 1
  {
    if n == 0 then 1 else 256 * Pow256(n - 1)
  }

  /** `struct.unpack_from` of one unsigned field. */
  function ReadField(data: Bytes, pos: nat, width: nat): Result<nat> {
    if pos + width > |data| then Err(StructError) else Ok(FromLittle(data[pos..pos + width]))
  }

  lemma {:induction false} LittleRoundTrip(v: nat, width: nat)
    requires v < Pow256(width)
    ensures FromLittle(Little(v, width)) == v
  {
    if width > 0 {
      LittleRoundTrip(v / 256, width - 1);
      assert Little(v, width)[1..] == Little(v / 256, width - 1);
    }
  }

  lemma FieldRoundTrip(data: Bytes, pos: nat, v: nat, width: nat)
    requires v < Pow256(width) && At(data, pos, Little(v, width))
    ensures ReadField(data, pos, width) == Ok(v)
  {
    LittleRoundTrip(v, width);
  }

  predicate FitsSigned(v: int, width: nat) {
    0 <= 2 * v + Pow256(width) && 2 * v < Pow256(width)
  }

  /** Two's complement: a signed field stored in `width` bytes. */
  function Unsigned(v: int, width: nat): nat
    requires FitsSigned(v, width)
  {
    if v < 0 then v + Pow256(width) else v
  }

  function Signed(n: nat, width: nat): int {
    if 2 * n >= Pow256(width) then n - Pow256(width) else n
  }

  lemma SignedRoundTrip(v: int, width: nat)
    requires FitsSigned(v, width)
    ensures Unsigned(v, width) < Pow256(width) && Signed(Unsigned(v, width), width) == v
  {
  }
}
