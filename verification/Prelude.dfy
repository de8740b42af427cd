/** Types and facts shared by every module of the model. */
module Prelude {

  datatype Option<+T> = None | Some(value: T)

  /** The exceptions the modelled code raises, by Python name. */
  datatype Error = ValueError | IndexError | StructError | OverflowError

  datatype Result<+T> = Ok(value: T) | Err(error: Error) {
    predicate IsFailure() { Err? }

    function PropagateFailure<U>(): Result<U>
      requires Err?
    {
      Err(error)
    }

    function Extract(): T
      requires Ok?
    {
      value
    }
  }

  type Byte = n: nat | n < 256

  type Bytes = seq<Byte>

  function Min(a: int, b: int): int { if a <= b then a else b }

  function Max(a: int, b: int): int { if a >= b then a else b }

  function Pow2(n: nat): (p: nat)
    ensures p >= 1
  {
    if n == 0 then 1 else 2 * Pow2(n - 1)
  }

  lemma {:induction false} Pow2Adds(a: nat, b: nat)
    ensures Pow2(a + b) == Pow2(a) * Pow2(b)
  {
    if a != 0 {
      Pow2Adds(a - 1, b);
    }
  }

  lemma {:induction false} Pow2Grows(a: nat, b: nat)
    requires a <= b
    ensures Pow2(a) <= Pow2(b)
  {
    if a < b {
      Pow2Grows(a, b - 1);
    }
  }

  // ---- byte strings read at a position --------------------------------

  /** `chunk` stands in `data` at `pos`, whatever surrounds it. */
  predicate At<T(==)>(data: seq<T>, pos: nat, chunk: seq<T>) {
    pos + |chunk| <= |data| && data[pos..pos + |chunk|] == chunk
  }

  lemma AtSplit<T>(data: seq<T>, pos: nat, a: seq<T>, b: seq<T>)
    requires At(data, pos, a + b)
    ensures At(data, pos, a) && At(data, pos + |a|, b)
  {
    assert data[pos..pos + |a|] == (a + b)[..|a|] == a;
    assert data[pos + |a|..pos + |a| + |b|] == (a + b)[|a|..] == b;
  }

  lemma AtWhole<T>(data: seq<T>)
    ensures At(data, 0, data)
  {
  }

  lemma AtLonger<T>(data: seq<T>, more: seq<T>, pos: nat, chunk: seq<T>)
    requires At(data, pos, chunk)
    ensures At(data + more, pos, chunk)
  {
    assert (data + more)[pos..pos + |chunk|] == data[pos..pos + |chunk|];
  }

  lemma AtInside<T>(data: seq<T>, pos: nat, chunk: seq<T>, at: nat, inner: seq<T>)
    requires At(data, pos, chunk) && At(chunk, at, inner)
    ensures At(data, pos + at, inner)
  {
    assert pos + at + |inner| <= |data|;
    forall k | 0 <= k < |inner|
      ensures data[pos + at + k] == inner[k]
    {
      assert data[pos..pos + |chunk|][at + k] == data[pos + at + k];
      assert chunk[at..at + |inner|][k] == chunk[at + k];
    }
    assert data[pos + at..pos + at + |inner|] == inner;
  }

  /** Python's `data[start:stop]`, which is clipped rather than refused. */
  function Slice<T>(data: seq<T>, start: nat, stop: nat): seq<T> {
    if start >= stop || start >= |data| then [] else data[start..Min(stop, |data|)]
  }

  /** Python's `data[:n]`. */
  function Take<T>(data: seq<T>, n: int): seq<T> {
    if n <= 0 then [] else data[..Min(n, |data|)]
  }

  lemma SliceAt<T>(data: seq<T>, pos: nat, chunk: seq<T>)
    requires At(data, pos, chunk)
    ensures Slice(data, pos, pos + |chunk|) == chunk
  {
  }

  function Elements<T(==)>(s: seq<T>): set<T> {
    set x | x in s
  }

  lemma NoElements<T>(s: seq<T>)
    requires s == []
    ensures Elements(s) == {}
  {
  }

  lemma ElementsSnoc<T>(s: seq<T>, x: T)
    ensures Elements(s + [x]) == Elements(s) + {x}
  {
  }

  // ---- ascending sequences --------------------------------------------

  predicate Ascending(s: seq<int>) {
    forall i, j :: 0 <= i < j < |s| ==> s[i] < s[j]
  }

  /** An ascending sequence is determined by its elements. */
  lemma {:induction false} AscendingUnique(a: seq<int>, b: seq<int>)
    requires Ascending(a) && Ascending(b)
    requires forall x :: x in a <==> x in b
    ensures a == b
  {
    assert a == [] || a[0] in a;
    assert b == [] || b[0] in b;
    if a != [] && b != [] {
      assert a[0] in b && b[0] in a;
      assert a[0] == b[0];
      assert a == [a[0]] + a[1..] && b == [b[0]] + b[1..];
      forall x
        ensures x in a[1..] <==> x in b[1..]
      {
        if x in a[1..] { assert x in b && x != b[0]; }
        if x in b[1..] { assert x in a && x != a[0]; }
      }
      AscendingUnique(a[1..], b[1..]);
    }
  }

  lemma AscendingSnoc(s: seq<int>, v: int)
    requires Ascending(s) && forall x :: x in s ==> x < v
    ensures Ascending(s + [v])
  {
    forall i | 0 <= i < |s|
      ensures s[i] < v
    {
      assert s[i] in s;
    }
  }

  function Sum(s: seq<nat>): nat {
    if s == [] then 0 else Sum(s[..|s| - 1]) + s[|s| - 1]
  }

  lemma {:induction false} SumConcat(a: seq<nat>, b: seq<nat>)
    ensures Sum(a + b) == Sum(a) + Sum(b)
  {
    if b == [] {
      assert a + b == a;
    } else {
      var n := |b| - 1;
      assert (a + b)[..|a + b| - 1] == a + b[..n];
      SumConcat(a, b[..n]);
    }
  }

  /** The parts end to end. */
  function Flatten<T>(parts: seq<seq<T>>): seq<T> {
    if parts == [] then [] else Flatten(parts[..|parts| - 1]) + parts[|parts| - 1]
  }

  lemma FlattenSnoc<T>(parts: seq<seq<T>>, i: nat)
    requires i < |parts|
    ensures Flatten(parts[..i + 1]) == Flatten(parts[..i]) + parts[i]
  {
    assert parts[..i + 1][..i] == parts[..i];
  }
}
