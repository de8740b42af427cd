/** In-memory posting lists and the merge walks over them: src/aether/index/postings.py. */
module Postings {
  import opened Prelude

  /** The frequency recorded for `doc`, zero when it is not listed. */
  function FreqOf(docIds: seq<int>, freqs: seq<nat>, doc: int): nat
    requires |docIds| == |freqs|
  {
    if docIds == [] then 0
    else if docIds[0] == doc then freqs[0]
    else FreqOf(docIds[1..], freqs[1..], doc)
  }

  lemma {:induction false} FreqOfAt(docIds: seq<int>, freqs: seq<nat>, i: nat)
    requires |docIds| == |freqs| && Ascending(docIds) && i < |docIds|
    ensures FreqOf(docIds, freqs, docIds[i]) == freqs[i]
  {
    if i > 0 {
      assert docIds[0] < docIds[i] == docIds[1..][i - 1];
      FreqOfAt(docIds[1..], freqs[1..], i - 1);
    }
  }

  lemma {:induction false} FreqOfAbsent(docIds: seq<int>, freqs: seq<nat>, doc: int)
    requires |docIds| == |freqs| && doc !in docIds
    ensures FreqOf(docIds, freqs, doc) == 0
  {
    if docIds != [] {
      assert docIds[0] != doc;
      FreqOfAbsent(docIds[1..], freqs[1..], doc);
    }
  }

  class PostingList {
    var docIds: seq<nat>
    var freqs: seq<nat>

    ghost predicate Valid()
      reads this
    {
      |docIds| == |freqs| && Ascending(docIds)
    }

    constructor ()
      ensures Valid() && docIds == [] && freqs == []
    {
      docIds, freqs := [], [];
    }

    /** Appends only past the end; anything else is refused and changes nothing. */
    method Append(docId: nat, freq: nat) returns (r: Result<()>)
      requires Valid()
      modifies this
      ensures Valid()
      ensures r.Ok? <==> forall d :: d in old(docIds) ==> d < docId
      ensures r.Ok? ==> docIds == old(docIds) + [docId] && freqs == old(freqs) + [freq]
      ensures r.Err? ==> r.error == ValueError && docIds == old(docIds) && freqs == old(freqs)
    {
      if docIds != [] && docId <= docIds[|docIds| - 1] {
        assert docIds[|docIds| - 1] in docIds;
        return Err(ValueError);
      }
      docIds := docIds + [docId];
      freqs := freqs + [freq];
      r := Ok(());
    }

    method FreqIn(doc: int) returns (freq: nat)
      requires Valid()
      ensures freq == FreqOf(docIds, freqs, doc)
    {
      for i := 0 to |docIds|
        invariant doc !in docIds[..i]
      {
        if docIds[i] == doc {
          FreqOfAt(docIds, freqs, i);
          return freqs[i];
        }
      }
      FreqOfAbsent(docIds, freqs, doc);
      freq := 0;
    }
  }

  // ---- merge walks -----------------------------------------------------

  /** `out` is ascending and lists what is in both. */
  ghost predicate IsIntersection(out: seq<int>, a: seq<int>, b: seq<int>) {
    Ascending(out) && forall x :: x in out <==> x in a && x in b
  }

  /** `out` is ascending and lists what is in either. */
  ghost predicate IsUnion(out: seq<int>, a: seq<int>, b: seq<int>) {
    Ascending(out) && forall x :: x in out <==> x in a || x in b
  }

  /** Everything passed on either side lies below everything still ahead on the other. */
  ghost predicate Split(a: seq<int>, i: nat, b: seq<int>, j: nat)
    requires i <= |a| && j <= |b|
  {
    && (forall k, l :: 0 <= k < i && j <= l < |b| ==> a[k] < b[l])
    && (forall k, l :: i <= k < |a| && 0 <= l < j ==> b[l] < a[k])
  }

  method Intersect(a: seq<int>, b: seq<int>) returns (out: seq<int>)
    requires Ascending(a) && Ascending(b)
    ensures IsIntersection(out, a, b)
  {
    out := [];
    var i, j := 0, 0;
    while i < |a| && j < |b|
      invariant 0 <= i <= |a| && 0 <= j <= |b|
      invariant Split(a, i, b, j)
      invariant IsIntersection(out, a[..i], b[..j])
      decreases |a| - i + |b| - j
    {
      if a[i] == b[j] {
        MeetBoth(out, a, i, b, j);
        out := out + [a[i]];
        i, j := i + 1, j + 1;
      } else if a[i] < b[j] {
        MeetSkip(out, a, i, b, j);
        i := i + 1;
      } else {
        SplitSym(a, i, b, j);
        MeetSkip(out, b, j, a, i);
        SplitSym(b, j + 1, a, i);
        j := j + 1;
      }
    }
    MeetDone(out, a, i, b, j);
  }

  lemma SplitSym(a: seq<int>, i: nat, b: seq<int>, j: nat)
    requires i <= |a| && j <= |b| && Split(a, i, b, j)
    ensures Split(b, j, a, i)
  {
  }

  lemma SplitSkip(a: seq<int>, i: nat, b: seq<int>, j: nat)
    requires Ascending(a) && Ascending(b) && i < |a| && j <= |b| && Split(a, i, b, j)
    requires j < |b| ==> a[i] < b[j]
    ensures Split(a, i + 1, b, j)
  {
    forall l | j <= l < |b|
      ensures a[i] < b[l]
    {
      assert b[j] <= b[l];
    }
  }

  lemma SplitBoth(a: seq<int>, i: nat, b: seq<int>, j: nat)
    requires Ascending(a) && Ascending(b) && i < |a| && j < |b| && Split(a, i, b, j) && a[i] == b[j]
    ensures Split(a, i + 1, b, j + 1)
  {
  }

  lemma MeetBoth(out: seq<int>, a: seq<int>, i: nat, b: seq<int>, j: nat)
    requires Ascending(a) && Ascending(b) && i < |a| && j < |b| && Split(a, i, b, j) && a[i] == b[j]
    requires IsIntersection(out, a[..i], b[..j])
    ensures Split(a, i + 1, b, j + 1) && IsIntersection(out + [a[i]], a[..i + 1], b[..j + 1])
  {
    SplitBoth(a, i, b, j);
    forall x | x in out
      ensures x < a[i]
    {
      assert x in a[..i];
    }
    AscendingSnoc(out, a[i]);
    assert a[..i + 1] == a[..i] + [a[i]] && b[..j + 1] == b[..j] + [a[i]];
  }

  lemma MeetSkip(out: seq<int>, a: seq<int>, i: nat, b: seq<int>, j: nat)
    requires Ascending(a) && Ascending(b) && i < |a| && j < |b| && Split(a, i, b, j) && a[i] < b[j]
    requires IsIntersection(out, a[..i], b[..j])
    ensures Split(a, i + 1, b, j) && IsIntersection(out, a[..i + 1], b[..j])
  {
    SplitSkip(a, i, b, j);
    assert a[..i + 1] == a[..i] + [a[i]];
    assert a[i] !in b[..j];
  }

  lemma MeetDone(out: seq<int>, a: seq<int>, i: nat, b: seq<int>, j: nat)
    requires i <= |a| && j <= |b| && (i == |a| || j == |b|) && Split(a, i, b, j)
    requires IsIntersection(out, a[..i], b[..j])
    ensures IsIntersection(out, a, b)
  {
    assert a == a[..i] + a[i..] && b == b[..j] + b[j..];
    forall x | x in a && x in b
      ensures x in out
    {
      assert x in a[..i] && x in b[..j];
    }
  }

  method Union(a: seq<int>, b: seq<int>) returns (out: seq<int>)
    requires Ascending(a) && Ascending(b)
    ensures IsUnion(out, a, b)
  {
    out := [];
    var i, j := 0, 0;
    while i < |a| && j < |b|
      invariant 0 <= i <= |a| && 0 <= j <= |b|
      invariant Split(a, i, b, j)
      invariant IsUnion(out, a[..i], b[..j])
      decreases |a| - i + |b| - j
    {
      if a[i] == b[j] {
        JoinBoth(out, a, i, b, j);
        out := out + [a[i]];
        i, j := i + 1, j + 1;
      } else if a[i] < b[j] {
        JoinOne(out, a, i, b, j);
        out := out + [a[i]];
        i := i + 1;
      } else {
        SplitSym(a, i, b, j);
        JoinOne(out, b, j, a, i);
        SplitSym(b, j + 1, a, i);
        out := out + [b[j]];
        j := j + 1;
      }
    }
    JoinRest(out, a, i, b, j);
    out := out + a[i..];
    out := out + b[j..];
  }

  lemma JoinBoth(out: seq<int>, a: seq<int>, i: nat, b: seq<int>, j: nat)
    requires Ascending(a) && Ascending(b) && i < |a| && j < |b| && Split(a, i, b, j) && a[i] == b[j]
    requires IsUnion(out, a[..i], b[..j])
    ensures Split(a, i + 1, b, j + 1) && IsUnion(out + [a[i]], a[..i + 1], b[..j + 1])
  {
    SplitBoth(a, i, b, j);
    forall x | x in out
      ensures x < a[i]
    {
      assert x in a[..i] || x in b[..j];
    }
    AscendingSnoc(out, a[i]);
    assert a[..i + 1] == a[..i] + [a[i]] && b[..j + 1] == b[..j] + [a[i]];
  }

  lemma JoinOne(out: seq<int>, a: seq<int>, i: nat, b: seq<int>, j: nat)
    requires Ascending(a) && Ascending(b) && i < |a| && j <= |b| && Split(a, i, b, j)
    requires j < |b| ==> a[i] < b[j]
    requires IsUnion(out, a[..i], b[..j])
    ensures Split(a, i + 1, b, j) && IsUnion(out + [a[i]], a[..i + 1], b[..j])
  {
    SplitSkip(a, i, b, j);
    forall x | x in out
      ensures x < a[i]
    {
      assert x in a[..i] || x in b[..j];
    }
    AscendingSnoc(out, a[i]);
    assert a[..i + 1] == a[..i] + [a[i]];
  }

  lemma {:induction false} JoinTail(out: seq<int>, a: seq<int>, i: nat, b: seq<int>)
    requires Ascending(a) && Ascending(b) && i <= |a| && Split(a, i, b, |b|)
    requires IsUnion(out, a[..i], b)
    ensures IsUnion(out + a[i..], a, b)
    decreases |a| - i
  {
    if i == |a| {
      assert a[..i] == a && out + a[i..] == out;
    } else {
      assert b[..|b|] == b;
      JoinOne(out, a, i, b, |b|);
      JoinTail(out + [a[i]], a, i + 1, b);
      assert out + [a[i]] + a[i + 1..] == out + a[i..];
    }
  }

  lemma JoinRest(out: seq<int>, a: seq<int>, i: nat, b: seq<int>, j: nat)
    requires Ascending(a) && Ascending(b) && i <= |a| && j <= |b| && (i == |a| || j == |b|)
    requires Split(a, i, b, j) && IsUnion(out, a[..i], b[..j])
    ensures IsUnion(out + a[i..] + b[j..], a, b)
  {
    if j == |b| {
      assert b[..j] == b && out + a[i..] + b[j..] == out + a[i..];
      JoinTail(out, a, i, b);
    } else {
      assert a[..i] == a && out + a[i..] + b[j..] == out + b[j..];
      SplitSym(a, i, b, j);
      JoinTail(out, b, j, a);
    }
  }
}
