/** The bloom filter over a segment's terms: src/aether/index/bloom.py. */
module Bloom {
  import opened Prelude
  import opened Binary
  import opened BitPack

  /** A digest split into two halves. Any function will do: nothing below assumes it scatters. */
  type Hash = string -> (nat, nat)

  // ---- bits of a byte --------------------------------------------------

  predicate HasBit(b: Byte, k: nat)
    requires k < 8
  {
    ToBits(b, 8)[7 - k] == 1
  }

  /** `b | 1 << k`. */
  function WithBit(b: Byte, k: nat): Byte
    requires k < 8
  {
    ByteOf(ToBits(b, 8)[7 - k := 1])
  }

  lemma BitSet(b: Byte, k: nat, j: nat)
    requires k < 8 && j < 8
    ensures HasBit(WithBit(b, k), j) <==> j == k || HasBit(b, j)
  {
    BitsOfNumber(ToBits(b, 8)[7 - k := 1]);
  }

  // ---- the filter as a value -------------------------------------------

  datatype Filter = Filter(bits: nat, hashes: nat, words: Bytes) {
    predicate Valid() {
      bits > 0 && bits % 8 == 0 && |words| == bits / 8
    }

    predicate Has(p: nat)
      requires Valid() && p < bits
    {
      HasBit(words[p / 8], p % 8)
    }

    /** `__contains__`: every position is set. */
    predicate MayContain(hash: Hash, term: string)
      requires Valid()
    {
      forall i :: 0 <= i < hashes ==> Has(Position(hash, term, i, bits))
    }
  }

  function Odd(n: nat): nat {
    if n % 2 == 1 then n else n + 1
  }

  /** The `i`-th position of a term: `(first + i * (second | 1)) % bits`. */
  function Position(hash: Hash, term: string, i: nat, bits: nat): (p: nat)
    requires bits > 0
    ensures p < bits
  {
    (hash(term).0 + i * Odd(hash(term).1)) % bits
  }

  predicate Hits(hash: Hash, term: string, bits: nat, hashes: nat, p: nat)
    requires bits > 0
  {
    exists i :: 0 <= i < hashes && Position(hash, term, i, bits) == p
  }

  /** `p` is a position of some term. */
  ghost predicate Covered(hash: Hash, terms: set<string>, bits: nat, hashes: nat, p: nat)
    requires bits > 0
  {
    exists t :: t in terms && Hits(hash, t, bits, hashes, p)
  }

  /** Exactly the positions of the terms added are set. */
  ghost predicate Holds(f: Filter, hash: Hash, terms: set<string>) {
    f.Valid() && forall p: nat :: p < f.bits ==>
      (f.Has(p) <==> Covered(hash, terms, f.bits, f.hashes, p))
  }

  /** Never a wrong no: every term added answers maybe. */
  lemma NeverAWrongNo(f: Filter, hash: Hash, terms: set<string>, term: string)
    requires Holds(f, hash, terms) && term in terms
    ensures f.MayContain(hash, term)
  {
    forall i | 0 <= i < f.hashes
      ensures f.Has(Position(hash, term, i, f.bits))
    {
      assert Hits(hash, term, f.bits, f.hashes, Position(hash, term, i, f.bits));
    }
  }

  /** Maybe means exactly that every position of the term is a position of some term added. */
  lemma MaybeIff(f: Filter, hash: Hash, terms: set<string>, term: string)
    requires Holds(f, hash, terms)
    ensures f.MayContain(hash, term) <==>
      forall i :: 0 <= i < f.hashes ==> Covered(hash, terms, f.bits, f.hashes, Position(hash, term, i, f.bits))
  {
    hide Covered, Position;
    forall i | 0 <= i < f.hashes
      ensures var p := Position(hash, term, i, f.bits); f.Has(p) <==> Covered(hash, terms, f.bits, f.hashes, p)
    {
    }
  }

  /** A filter is settled by its size and its terms: neither the order nor a repetition of additions shows. */
  lemma FilterIsItsTerms(f: Filter, g: Filter, hash: Hash, terms: set<string>)
    requires Holds(f, hash, terms) && Holds(g, hash, terms) && f.bits == g.bits && f.hashes == g.hashes
    ensures f == g
  {
    hide Covered, HasBit;
    forall i | 0 <= i < |f.words|
      ensures f.words[i] == g.words[i]
    {
      forall k: nat | k < 8
        ensures HasBit(f.words[i], k) <==> HasBit(g.words[i], k)
      {
        var p := i * 8 + k;
        assert p / 8 == i && p % 8 == k;
        assert f.Has(p) <==> g.Has(p);
      }
      SameBits(f.words[i], g.words[i]);
    }
  }

  lemma SameBits(a: Byte, b: Byte)
    requires forall k: nat :: k < 8 ==> (HasBit(a, k) <==> HasBit(b, k))
    ensures a == b
  {
    hide ToBits, FromBits, Pow2;
    var (x, y) := (ToBits(a, 8), ToBits(b, 8));
    forall i | 0 <= i < 8
      ensures x[i] == y[i]
    {
      assert HasBit(a, 7 - i) <==> HasBit(b, 7 - i);
    }
    assert x == y;
    NumberOfBits(a, 8);
    NumberOfBits(b, 8);
    EightBits();
  }

  lemma EightBits()
    ensures Pow2(8) == 256
  {
  }

  /**
   The positions written out: of a digest's two halves, the second made odd, the first plus `i` times the
   second, modulo the bit count, for each `i` below the hash count. They are set.
   */
  lemma PositionsSet(f: Filter, hash: Hash, terms: set<string>, term: string, i: nat)
    requires Holds(f, hash, terms) && term in terms && i < f.hashes
    ensures var (first, second) := hash(term);
      var odd := if second % 2 == 0 then second + 1 else second;
      f.Has((first + i * odd) % f.bits)
  {
    assert Hits(hash, term, f.bits, f.hashes, Position(hash, term, i, f.bits));
  }

  /** Nothing else is set. */
  lemma NothingElseSet(f: Filter, hash: Hash, terms: set<string>, p: nat) returns (term: string, i: nat)
    requires Holds(f, hash, terms) && p < f.bits && f.Has(p)
    ensures term in terms && i < f.hashes
    ensures var (first, second) := hash(term);
      var odd := if second % 2 == 0 then second + 1 else second;
      p == (first + i * odd) % f.bits
  {
    term :| term in terms && Hits(hash, term, f.bits, f.hashes, p);
    i :| 0 <= i < f.hashes && Position(hash, term, i, f.bits) == p;
  }

  // ---- the filter being built ------------------------------------------

  class BloomFilter {
    const hash: Hash
    const bits: nat
    const hashes: nat
    const words: array<Byte>

    ghost predicate Valid() {
      bits > 0 && bits % 8 == 0 && words.Length == bits / 8
    }

    function Value(): Filter
      reads words
    {
      Filter(bits, hashes, words[..])
    }

    constructor (hash: Hash, bits: nat, hashes: nat)
      requires bits > 0 && bits % 8 == 0
      ensures Valid() && fresh(words) && Holds(Value(), hash, {})
      ensures this.hash == hash && this.bits == bits && this.hashes == hashes
    {
      this.hash, this.bits, this.hashes := hash, bits, hashes;
      words := new Byte[bits / 8](_ => 0);
      new;
      forall p: nat | p < bits
        ensures !Value().Has(p)
      {
        ZeroByte(p % 8);
      }
    }

    method SetBit(p: nat)
      requires Valid() && p < bits
      modifies words
      ensures forall q: nat :: q < bits ==> (Value().Has(q) <==> q == p || old(Value()).Has(q))
    {
      hide HasBit, WithBit;
      ghost var before := words[..];
      words[p / 8] := WithBit(words[p / 8], p % 8);
      forall q: nat | q < bits
        ensures Value().Has(q) <==> q == p || old(Value()).Has(q)
      {
        if q / 8 == p / 8 {
          BitSet(before[p / 8], p % 8, q % 8);
        } else {
          assert words[q / 8] == before[q / 8];
        }
      }
    }

    method Add(term: string, ghost terms: set<string>)
      requires Valid() && Holds(Value(), hash, terms)
      modifies words
      ensures Holds(Value(), hash, terms + {term})
    {
      hide HasBit, WithBit, Filter.Has, Position;
      ghost var before := Value();
      for i := 0 to hashes
        invariant Valid()
        invariant forall q: nat :: q < bits ==>
          (Value().Has(q) <==> before.Has(q) || exists k :: 0 <= k < i && Position(hash, term, k, bits) == q)
      {
        SetBit(Position(hash, term, i, bits));
      }
      forall q: nat | q < bits
        ensures Value().Has(q) <==> Covered(hash, terms + {term}, bits, hashes, q)
      {
        assert Hits(hash, term, bits, hashes, q) <==> exists k :: 0 <= k < hashes && Position(hash, term, k, bits) == q;
        if t :| t in terms && Hits(hash, t, bits, hashes, q) {
          assert t in terms + {term};
        }
      }
    }

    method Contains(term: string) returns (maybe: bool)
      requires Valid()
      ensures maybe == Value().MayContain(hash, term)
    {
      hide HasBit, Position;
      for i := 0 to hashes
        invariant forall k :: 0 <= k < i ==> Value().Has(Position(hash, term, k, bits))
      {
        var p := Position(hash, term, i, bits);
        if !HasBit(words[p / 8], p % 8) {
          assert !Value().Has(p);
          return false;
        }
        assert Value().Has(p);
      }
      maybe := true;
    }
  }

  lemma ZeroByte(k: nat)
    requires k < 8
    ensures !HasBit(0, k)
  {
    ZeroBits(8, 7 - k);
  }

  lemma {:induction false} ZeroBits(n: nat, i: nat)
    requires i < n
    ensures ToBits(0, n)[i] == 0
  {
    if i < n - 1 {
      ZeroBits(n - 1, i);
    }
  }

  /** The size the code chooses for a number of terms: whole bytes, and at least one hash. */
  ghost predicate Sizing(size: nat -> (nat, nat)) {
    forall n: nat :: size(n).0 >= 8 && size(n).0 % 8 == 0 && size(n).1 >= 1
  }

  method ForTerms(hash: Hash, size: nat -> (nat, nat), terms: seq<string>) returns (f: Filter)
    requires Sizing(size)
    ensures Holds(f, hash, Elements(terms))
    ensures (f.bits, f.hashes) == size(|terms|)
  {
    var (bits, hashes) := size(|terms|);
    var filter := new BloomFilter(hash, bits, hashes);
    for i := 0 to |terms|
      invariant fresh(filter.words) && filter.Valid() && Holds(filter.Value(), hash, Elements(terms[..i]))
    {
      filter.Add(terms[i], Elements(terms[..i]));
      assert terms[..i + 1] == terms[..i] + [terms[i]];
      ElementsSnoc(terms[..i], terms[i]);
    }
    assert terms[..|terms|] == terms;
    f := filter.Value();
  }

  // ---- bytes -----------------------------------------------------------

  const HEADER_SIZE: nat := 5

  function FilterBytes(f: Filter): Bytes {
    Little(f.bits, 4) + (Little(f.hashes, 1) + f.words)
  }

  /** `to_bytes`: a size that does not fit the header is an error. */
  function ToBytes(f: Filter): Result<Bytes> {
    if f.bits < Pow256(4) && f.hashes < Pow256(1) then Ok(FilterBytes(f)) else Err(StructError)
  }

  /** `from_bytes`: the filter and where it ends. */
  function FromBytes(data: Bytes, pos: nat): Result<(Filter, nat)> {
    var bits :- ReadField(data, pos, 4);
    var hashes :- ReadField(data, pos + 4, 1);
    if bits % 8 != 0 then Err(ValueError)
    else
      var (start, end) := (pos + HEADER_SIZE, pos + HEADER_SIZE + bits / 8);
      Ok((Filter(bits, hashes, Slice(data, start, end)), end))
  }

  lemma FilterRoundTrip(data: Bytes, pos: nat, f: Filter)
    requires f.Valid() && ToBytes(f).Ok? && At(data, pos, ToBytes(f).value)
    ensures FromBytes(data, pos) == Ok((f, pos + |ToBytes(f).value|))
  {
    hide Little, FromLittle, Pow256;
    var (a, b) := (Little(f.bits, 4), Little(f.hashes, 1));
    AtSplit(data, pos, a, b + f.words);
    AtSplit(data, pos + 4, b, f.words);
    FieldRoundTrip(data, pos, f.bits, 4);
    FieldRoundTrip(data, pos + 4, f.hashes, 1);
  }
}
