/**
 Integer compression: src/aether/index/codec.py. The varint is the unsigned LEB128 encoding
 of section 7.6 of DWARF Version 5. `|` of bits that do not meet is written as `+`.
 */
module Codec {
  import opened Prelude

  // ---- one varint ------------------------------------------------------

  function EncodeVarint(v: nat): (r: Bytes)
    ensures |r| >= 1
  {
    if v < 128 then [v]
    else
      var low: Byte := v % 128 + 128;
      [low] + EncodeVarint(v / 128)
  }

  method EncodeVarintLoop(value: int) returns (r: Result<Bytes>)
    ensures r == if value < 0 then Err(ValueError) else Ok(EncodeVarint(value))
  {
    if value < 0 {
      return Err(ValueError);
    }
    var rest: nat := value;
    var out: Bytes := [];
    while rest >= 128
      invariant EncodeVarint(value) == out + EncodeVarint(rest)
    {
      var low: Byte := rest % 128 + 128;
      assert EncodeVarint(rest) == [low] + EncodeVarint(rest / 128);
      assert out + ([low] + EncodeVarint(rest / 128)) == (out + [low]) + EncodeVarint(rest / 128);
      out := out + [low];
      rest := rest / 128;
    }
    r := Ok(out + [rest]);
  }

  /** The value at `pos` and the position after it. */
  function DecodeVarint(data: Bytes, pos: nat): (r: Result<(nat, nat)>)
    ensures r.Ok? ==> pos < r.value.1 <= |data|
    ensures r.Err? ==> r.error == ValueError
    decreases |data| - pos
  {
    if pos >= |data| then Err(ValueError)
    else if data[pos] < 128 then Ok((data[pos], pos + 1))
    else
      var rest := DecodeVarint(data, pos + 1);
      if rest.Err? then rest else Ok((data[pos] - 128 + 128 * rest.value.0, rest.value.1))
  }

  /** What the loop below has read so far, finished with what is still to read. */
  function Finish(value: nat, unit: nat, rest: Result<(nat, nat)>): Result<(nat, nat)> {
    if rest.Err? then rest else Ok((value + unit * rest.value.0, rest.value.1))
  }

  lemma FinishStep(value: nat, unit: nat, byte: nat, rest: Result<(nat, nat)>)
    ensures Finish(value, unit, if rest.Err? then rest else Ok((byte + 128 * rest.value.0, rest.value.1)))
         == Finish(value + byte * unit, unit * 128, rest)
  {
    if rest.Ok? {
      var x := rest.value.0;
      assert unit * (byte + 128 * x) == byte * unit + (unit * 128) * x;
    }
  }

  method DecodeVarintLoop(data: Bytes, start: nat) returns (r: Result<(nat, nat)>)
    ensures r == DecodeVarint(data, start)
  {
    var value: nat, unit: nat, pos := 0, 1, start;
    while true
      invariant start <= pos && (pos <= |data| || pos == start)
      invariant DecodeVarint(data, start) == Finish(value, unit, DecodeVarint(data, pos))
      decreases |data| - pos
    {
      if pos >= |data| {
        return Err(ValueError);
      }
      var byte := data[pos];
      pos := pos + 1;
      if byte < 128 {
        assert byte * unit == unit * byte;
        return Ok((value + byte * unit, pos));
      }
      FinishStep(value, unit, byte - 128, DecodeVarint(data, pos));
      value := value + (byte - 128) * unit;
      unit := unit * 128;
    }
  }

  /** An encoding decodes to its value wherever it stands: varints are self-delimiting. */
  lemma {:induction false} VarintRoundTrip(data: Bytes, pos: nat, v: nat)
    requires At(data, pos, EncodeVarint(v))
    ensures DecodeVarint(data, pos) == Ok((v, pos + |EncodeVarint(v)|))
    decreases v
  {
    var e := EncodeVarint(v);
    assert data[pos] == data[pos..pos + |e|][0] == e[0];
    if v >= 128 {
      AtSplit(data, pos, [v % 128 + 128], EncodeVarint(v / 128));
      VarintRoundTrip(data, pos + 1, v / 128);
    }
  }

  /** The decoder also accepts longer encodings; the bytes are the encoder's when they do not end in zero. */
  lemma {:induction false} VarintCanonicalIff(data: Bytes, pos: nat)
    requires DecodeVarint(data, pos).Ok?
    ensures var (v, next) := DecodeVarint(data, pos).value;
      data[pos..next] == EncodeVarint(v) <==> next == pos + 1 || data[next - 1] != 0
    decreases |data| - pos
  {
    var (v, next) := DecodeVarint(data, pos).value;
    assert data[pos..next][0] == data[pos];
    if data[pos] < 128 {
      assert data[pos..next] == [data[pos]];
    } else {
      VarintCanonicalIff(data, pos + 1);
      var (w, _) := DecodeVarint(data, pos + 1).value;
      assert data[pos..next] == [data[pos]] + data[pos + 1..next];
      assert v == data[pos] - 128 + 128 * w && v / 128 == w && v % 128 == data[pos] - 128;
      if next == pos + 2 {
        assert data[pos + 1..next] == [data[pos + 1]] && w == data[pos + 1];
      }
      if v >= 128 {
        assert EncodeVarint(v) == [data[pos]] + EncodeVarint(w);
        assert EncodeVarint(v)[1..] == EncodeVarint(w);
        assert data[pos..next][1..] == data[pos + 1..next];
      } else {
        ZeroVarint(data, pos + 1);
        assert |EncodeVarint(v)| == 1;
      }
    }
  }

  /** Only zero bytes, after their continuation bits, decode to zero. */
  lemma {:induction false} ZeroVarint(data: Bytes, pos: nat)
    requires DecodeVarint(data, pos).Ok? && DecodeVarint(data, pos).value.0 == 0
    ensures data[DecodeVarint(data, pos).value.1 - 1] == 0
    decreases |data| - pos
  {
    if data[pos] >= 128 {
      ZeroVarint(data, pos + 1);
    }
  }

  // ---- runs of varints -------------------------------------------------

  function EncodeVarints(values: seq<nat>): Bytes {
    if values == [] then []
    else EncodeVarints(values[..|values| - 1]) + EncodeVarint(values[|values| - 1])
  }

  method EncodeVarintsLoop(values: seq<int>) returns (r: Result<Bytes>)
    ensures r.Ok? <==> forall i :: 0 <= i < |values| ==> values[i] >= 0
    ensures r.Ok? ==> r.value == EncodeVarints(values)
    ensures r.Err? ==> r.error == ValueError
  {
    var out: Bytes := [];
    for i := 0 to |values|
      invariant forall j :: 0 <= j < i ==> values[j] >= 0
      invariant out == EncodeVarints(values[..i])
    {
      var one := EncodeVarintLoop(values[i]);
      if one.Err? {
        return one;
      }
      assert values[..i + 1][..i] == values[..i];
      out := out + one.value;
    }
    assert values[..|values|] == values;
    r := Ok(out);
  }

  /** `count` varints from `pos` on. */
  function DecodeVarints(data: Bytes, count: nat, pos: nat): (r: Result<(seq<nat>, nat)>)
    ensures r.Ok? ==> |r.value.0| == count && pos <= r.value.1
    ensures r.Err? ==> r.error == ValueError
  {
    if count == 0 then Ok(([], pos))
    else
      var (values, next) :- DecodeVarints(data, count - 1, pos);
      var (v, after) :- DecodeVarint(data, next);
      Ok((values + [v], after))
  }

  method DecodeVarintsLoop(data: Bytes, count: nat, start: nat) returns (r: Result<(seq<nat>, nat)>)
    ensures r == DecodeVarints(data, count, start)
  {
    var values: seq<nat>, pos := [], start;
    for i := 0 to count
      invariant DecodeVarints(data, i, start) == Ok((values, pos))
    {
      var one := DecodeVarintLoop(data, pos);
      if one.Err? {
        DecodeFailureSpreads(data, i + 1, count, start);
        return Err(one.error);
      }
      values, pos := values + [one.value.0], one.value.1;
    }
    r := Ok((values, pos));
  }

  lemma {:induction false} DecodeFailureSpreads(data: Bytes, few: nat, many: nat, pos: nat)
    requires few <= many && DecodeVarints(data, few, pos).Err?
    ensures DecodeVarints(data, many, pos) == Err(ValueError)
  {
    if few < many {
      DecodeFailureSpreads(data, few, many - 1, pos);
    }
  }

  lemma {:induction false} VarintsRoundTrip(data: Bytes, pos: nat, values: seq<nat>)
    requires At(data, pos, EncodeVarints(values))
    ensures DecodeVarints(data, |values|, pos) == Ok((values, pos + |EncodeVarints(values)|))
  {
    if values != [] {
      var n := |values| - 1;
      AtSplit(data, pos, EncodeVarints(values[..n]), EncodeVarint(values[n]));
      VarintsRoundTrip(data, pos, values[..n]);
      VarintRoundTrip(data, pos + |EncodeVarints(values[..n])|, values[n]);
      assert values == values[..n] + [values[n]];
    }
  }

  // ---- gaps ------------------------------------------------------------

  /** The differences of neighbours, the first value standing for itself. */
  function Gaps(values: seq<int>): (r: seq<int>)
    ensures |r| == |values|
  {
    seq(|values|, i requires 0 <= i < |values| => if i == 0 then values[0] else values[i] - values[i - 1])
  }

  /** Running sums. */
  function DeltaDecode(gaps: seq<int>): (r: seq<int>)
    ensures |r| == |gaps|
  {
    if gaps == [] then []
    else
      var rest := DeltaDecode(gaps[..|gaps| - 1]);
      rest + [(if rest == [] then 0 else rest[|rest| - 1]) + gaps[|gaps| - 1]]
  }

  method DeltaEncode(values: seq<int>) returns (r: Result<seq<int>>)
    ensures r == if Ascending(values) then Ok(Gaps(values)) else Err(ValueError)
  {
    if |values| == 0 {
      return Ok([]);
    }
    var gaps, previous := [values[0]], values[0];
    for i := 1 to |values|
      invariant previous == values[i - 1] && gaps == Gaps(values)[..i]
      invariant Ascending(values[..i])
    {
      if values[i] <= previous {
        assert !Ascending(values);
        return Err(ValueError);
      }
      gaps := gaps + [values[i] - previous];
      previous := values[i];
    }
    assert values[..|values|] == values && Gaps(values)[..|values|] == Gaps(values);
    r := Ok(gaps);
  }

  method DeltaDecodeLoop(gaps: seq<int>) returns (values: seq<int>)
    ensures values == DeltaDecode(gaps)
  {
    values := [];
    var running := 0;
    for i := 0 to |gaps|
      invariant values == DeltaDecode(gaps[..i])
      invariant running == if i == 0 then 0 else values[i - 1]
    {
      assert gaps[..i + 1][..i] == gaps[..i];
      running := running + gaps[i];
      values := values + [running];
    }
    assert gaps[..|gaps|] == gaps;
  }

  /** Summing the gaps gives the values back, whatever they are. */
  lemma {:induction false} DeltaRoundTrip(values: seq<int>)
    ensures DeltaDecode(Gaps(values)) == values
  {
    if values != [] {
      var n := |values| - 1;
      assert Gaps(values)[..n] == Gaps(values[..n]);
      DeltaRoundTrip(values[..n]);
      assert values == values[..n] + [values[n]];
    }
  }

  lemma {:induction false} GapsRoundTrip(gaps: seq<int>)
    ensures Gaps(DeltaDecode(gaps)) == gaps
  {
    if gaps != [] {
      var n := |gaps| - 1;
      var (init, all) := (DeltaDecode(gaps[..n]), DeltaDecode(gaps));
      GapsRoundTrip(gaps[..n]);
      assert all[..n] == init;
      assert Gaps(all)[..n] == Gaps(init);
      assert Gaps(all) == Gaps(all)[..n] + [Gaps(all)[n]];
      assert gaps == gaps[..n] + [gaps[n]];
    }
  }

  lemma {:induction false} AscendingIffGapsPositive(values: seq<int>)
    ensures Ascending(values) <==> forall i :: 1 <= i < |values| ==> Gaps(values)[i] > 0
  {
    if values != [] {
      var n := |values| - 1;
      var init := values[..n];
      AscendingIffGapsPositive(init);
      assert forall i :: 0 <= i < n ==> Gaps(values)[i] == Gaps(init)[i];
      assert values == init + [values[n]];
      assert Ascending(values) ==> Ascending(init);
      if n > 0 && Ascending(init) && values[n - 1] < values[n] {
        forall i | 0 <= i < n
          ensures values[i] < values[n]
        {
          assert i == n - 1 || init[i] < init[n - 1];
        }
        assert Ascending(values);
      }
      assert n > 0 ==> Gaps(values)[n] == values[n] - values[n - 1];
    }
  }

  /** Gaps decode to an ascending list, the only kind that encodes, exactly when all but the first are positive. */
  lemma DeltaDecodeAscendingIff(gaps: seq<int>)
    ensures Ascending(DeltaDecode(gaps)) <==> forall i :: 1 <= i < |gaps| ==> gaps[i] > 0
    ensures Gaps(DeltaDecode(gaps)) == gaps
  {
    GapsRoundTrip(gaps);
    AscendingIffGapsPositive(DeltaDecode(gaps));
  }
}
