/** The lazy reader of a blocked posting list, and intersection by skipping: src/aether/index/blocked.py. */
module BlockedReader {
  import opened Prelude
  import opened BitPack
  import opened Blocked
  import opened Postings

  predicate NonDecreasing(s: seq<int>) {
    forall i, j :: 0 <= i < j < |s| ==> s[i] <= s[j]
  }

  /** `bisect.bisect_left`, and numpy's `searchsorted`. */
  method BisectLeft(s: seq<int>, target: int) returns (at: nat)
    ensures at <= |s|
    ensures NonDecreasing(s) ==> forall i :: 0 <= i < |s| ==> (i < at <==> s[i] < target)
  {
    var lo: nat, hi: nat := 0, |s|;
    while lo < hi
      invariant lo <= hi <= |s|
      invariant NonDecreasing(s) ==> forall i :: 0 <= i < lo ==> s[i] < target
      invariant NonDecreasing(s) ==> forall i :: hi <= i < |s| ==> target <= s[i]
    {
      var mid := (lo + hi) / 2;
      if s[mid] < target { lo := mid + 1; } else { hi := mid; }
    }
    at := lo;
  }

  // ---- whole-list access -----------------------------------------------

  /** The first `n` blocks, end to end. */
  function DecodedUpTo(h: Header, n: nat): Result<Block>
    requires Sound(h)
  {
    if n == 0 then Ok(Block([], []))
    else
      var before :- DecodedUpTo(h, n - 1);
      var last :- DecodedBlock(h, n - 1);
      Ok(Block(before.ids + last.ids, before.freqs + last.freqs))
  }

  lemma {:induction false} DecodingFails(h: Header, few: nat, many: nat)
    requires Sound(h) && few <= many && DecodedUpTo(h, few).Err?
    ensures DecodedUpTo(h, many) == DecodedUpTo(h, few)
  {
    hide DecodedBlock;
    if few < many {
      DecodingFails(h, few, many - 1);
    }
  }

  /** What `doc_ids` and `freqs` read: everything, in order. */
  function Whole(h: Header): Result<Block>
    requires Sound(h)
  {
    if h.count == 0 then Ok(Block([], []))
    else if h.small.Some? then Ok(h.small.value)
    else if |h.lastIds| == 0 then Err(ValueError)
    else DecodedUpTo(h, |h.lastIds|)
  }

  lemma {:induction false} BlocksSoFar(h: Header, ids: seq<int>, freqs: seq<nat>, n: nat)
    requires Represents(h, ids, freqs) && n <= BlockCount(|ids|)
    ensures Start(n) <= |ids| || n == BlockCount(|ids|)
    ensures var end := Min(Start(n), |ids|); DecodedUpTo(h, n) == Ok(Block(ids[..end], freqs[..end]))
  {
    hide DecodedBlock, Ascending;
    if n > 0 {
      BlocksSoFar(h, ids, freqs, n - 1);
      assert Holds(h, ids, freqs, n - 1);
      var (start, end) := (Start(n - 1), End(n - 1, |ids|));
      assert ids[..start] + ids[start..end] == ids[..end];
      assert freqs[..start] + freqs[start..end] == freqs[..end];
    }
  }

  /** A represented list reads back whole. */
  lemma WholeIsAll(h: Header, ids: seq<int>, freqs: seq<nat>)
    requires Represents(h, ids, freqs)
    ensures Whole(h) == Ok(Block(ids, freqs))
  {
    hide DecodedUpTo, Ascending;
    var n := BlockCount(|ids|);
    BlocksSoFar(h, ids, freqs, n);
    assert ids[..|ids|] == ids && freqs[..|ids|] == freqs;
    if h.small.Some? && |ids| > 0 {
      assert Holds(h, ids, freqs, 0);
      assert End(0, |ids|) == |ids|;
    }
  }

  // ---- the reader ------------------------------------------------------

  class BlockedPostings {
    const header: Header
    var cache: map<nat, Block>

    /** A cached block is what decoding it afresh would give. */
    ghost predicate Valid()
      reads this
    {
      Sound(header) && forall b :: b in cache ==> DecodedBlock(header, b) == Ok(cache[b])
    }

    constructor (header: Header)
      requires Sound(header)
      ensures this.header == header && Valid()
      ensures cache == if header.small.Some? then map[0 := header.small.value] else map[]
    {
      this.header := header;
      cache := if header.small.Some? then map[0 := header.small.value] else map[];
    }

    /** The block, from the cache or the bytes; only this block is added to the cache. */
    method DecodeBlock(index: nat) returns (r: Result<Block>)
      requires Valid()
      modifies this`cache
      ensures Valid()
      ensures r == DecodedBlock(header, index)
      ensures cache == if r.Ok? then old(cache)[index := r.value] else old(cache)
    {
      hide DecodedBlock;
      if index in cache {
        assert cache == cache[index := cache[index]];
        return Ok(cache[index]);
      }
      r := DecodedBlock(header, index);
      if r.Ok? {
        cache := cache[index := r.value];
      }
    }

    method BlockContaining(target: int) returns (b: nat)
      ensures b <= |header.lastIds|
      ensures NonDecreasing(header.lastIds) ==>
        forall i :: 0 <= i < |header.lastIds| ==> (i < b <==> header.lastIds[i] < target)
    {
      b := BisectLeft(header.lastIds, target);
    }

    method DecodeAll() returns (r: Result<Block>)
      requires Valid() && header.small.None?
      modifies this`cache
      ensures Valid() && r == DecodedUpTo(header, |header.lastIds|)
    {
      hide DecodedBlock;
      var all := Block([], []);
      for b := 0 to |header.lastIds|
        invariant Valid()
        invariant DecodedUpTo(header, b) == Ok(all)
      {
        var one := DecodeBlock(b);
        if one.Err? {
          DecodingFails(header, b + 1, |header.lastIds|);
          return one;
        }
        all := Block(all.ids + one.value.ids, all.freqs + one.value.freqs);
      }
      r := Ok(all);
    }

    method DocIds() returns (r: Result<seq<int>>)
      requires Valid()
      modifies this`cache
      ensures Valid()
      ensures r == var w := Whole(header); if w.Err? then Err(w.error) else Ok(w.value.ids)
    {
      hide DecodedUpTo, DecodedBlock;
      if header.count == 0 {
        return Ok([]);
      }
      if header.small.Some? {
        return Ok(header.small.value.ids);
      }
      if |header.lastIds| == 0 {
        return Err(ValueError);
      }
      var all :- DecodeAll();
      r := Ok(all.ids);
    }

    method Freqs() returns (r: Result<seq<nat>>)
      requires Valid()
      modifies this`cache
      ensures Valid()
      ensures r == var w := Whole(header); if w.Err? then Err(w.error) else Ok(w.value.freqs)
    {
      hide DecodedUpTo, DecodedBlock;
      if header.count == 0 {
        return Ok([]);
      }
      if header.small.Some? {
        return Ok(header.small.value.freqs);
      }
      if |header.lastIds| == 0 {
        return Err(ValueError);
      }
      var all :- DecodeAll();
      r := Ok(all.freqs);
    }

    /** The frequency the list holds for `doc`, zero when it does not list it. */
    method FreqIn(doc: int, ghost ids: seq<int>, ghost freqs: seq<nat>) returns (freq: nat)
      requires Valid() && Represents(header, ids, freqs)
      modifies this`cache
      ensures Valid()
      ensures freq == FreqOf(ids, freqs, doc)
    {
      hide DecodedBlock, FreqOf;
      LastIdsAscend(header, ids, freqs);
      var index := BlockContaining(doc);
      WhereBlocksLie(header, ids, freqs, index, doc);
      if index >= |header.lastIds| {
        FreqOfAbsent(ids, freqs, doc);
        return 0;
      }
      var block := DecodeBlock(index);
      assert Holds(header, ids, freqs, index);
      var stretch := block.value.ids;
      StretchAscends(ids, Start(index), End(index, |ids|));
      var position := BisectLeft(stretch, doc);
      if position < |stretch| && stretch[position] == doc {
        FreqOfAt(ids, freqs, Start(index) + position);
        freq := block.value.freqs[position];
      } else {
        BisectAbsent(stretch, position, doc);
        FreqOfAbsent(ids, freqs, doc);
        freq := 0;
      }
    }
  }

  // ---- where a document must lie ---------------------------------------

  lemma LastIdsAscend(h: Header, ids: seq<int>, freqs: seq<nat>)
    requires Represents(h, ids, freqs)
    ensures Ascending(h.lastIds) && NonDecreasing(h.lastIds)
    ensures h.count > 0 ==> |h.lastIds| > 0
  {
    hide DecodedBlock;
    forall i, j | 0 <= i < j < |h.lastIds|
      ensures h.lastIds[i] < h.lastIds[j]
    {
      assert Holds(h, ids, freqs, i) && Holds(h, ids, freqs, j);
    }
  }

  lemma StretchAscends(ids: seq<int>, lo: nat, hi: nat)
    requires Ascending(ids) && lo <= hi <= |ids|
    ensures Ascending(ids[lo..hi]) && NonDecreasing(ids[lo..hi])
  {
  }

  lemma BisectAbsent(s: seq<int>, at: nat, target: int)
    requires at <= |s| && Ascending(s)
    requires forall i :: 0 <= i < |s| ==> (i < at <==> s[i] < target)
    requires at < |s| ==> s[at] != target
    ensures target !in s
  {
  }

  /** The skip index names the only block that can hold a document. */
  lemma WhereBlocksLie(h: Header, ids: seq<int>, freqs: seq<nat>, b: nat, doc: int)
    requires Represents(h, ids, freqs) && b <= |h.lastIds|
    requires forall i :: 0 <= i < |h.lastIds| ==> (i < b <==> h.lastIds[i] < doc)
    ensures doc in ids <==> b < |h.lastIds| && doc in ids[Start(b)..End(b, |ids|)]
  {
    hide DecodedBlock;
    if doc in ids {
      var k :| 0 <= k < |ids| && ids[k] == doc;
      var home := k / BLOCK_SIZE;
      assert Holds(h, ids, freqs, home);
      assert ids[k] <= h.lastIds[home];
      if home > 0 {
        assert Holds(h, ids, freqs, home - 1);
        assert h.lastIds[home - 1] < ids[k];
      }
      assert home == b;
      assert ids[Start(b)..End(b, |ids|)][k - Start(b)] == doc;
    }
  }

  // ---- intersection by skipping ----------------------------------------

  /** The first block whose last id is not below `target`. */
  function FirstReaching(lastIds: seq<int>, target: int): (b: nat)
    ensures b <= |lastIds|
    ensures b < |lastIds| ==> lastIds[b] >= target
    ensures forall i :: 0 <= i < b ==> lastIds[i] < target
  {
    if lastIds == [] || lastIds[0] >= target then 0 else 1 + FirstReaching(lastIds[1..], target)
  }

  /** The blocks the skip index names for the candidates the list reaches. */
  function Needed(candidates: seq<int>, lastIds: seq<int>): (s: set<nat>)
    ensures |s| <= |candidates|
  {
    if candidates == [] then {}
    else
      var n := |candidates| - 1;
      var b := FirstReaching(lastIds, candidates[n]);
      Needed(candidates[..n], lastIds) + if b < |lastIds| then {b} else {}
  }

  lemma FirstReachingIs(lastIds: seq<int>, target: int, b: nat)
    requires b <= |lastIds|
    requires forall i :: 0 <= i < |lastIds| ==> (i < b <==> lastIds[i] < target)
    ensures FirstReaching(lastIds, target) == b
  {
    var here := if b < |lastIds| then lastIds[b] else target;
  }

  lemma NeededGrows(candidates: seq<int>, i: nat, lastIds: seq<int>)
    requires i < |candidates|
    ensures var b := FirstReaching(lastIds, candidates[i]);
      Needed(candidates[..i + 1], lastIds) == Needed(candidates[..i], lastIds) + if b < |lastIds| then {b} else {}
  {
    assert candidates[..i + 1][..i] == candidates[..i];
  }

  lemma {:induction false} NeededSoFar(candidates: seq<int>, i: nat, lastIds: seq<int>)
    requires i <= |candidates|
    ensures Needed(candidates[..i], lastIds) <= Needed(candidates, lastIds)
    decreases |candidates| - i
  {
    if i == |candidates| {
      assert candidates[..i] == candidates;
    } else {
      NeededGrows(candidates, i, lastIds);
      NeededSoFar(candidates, i + 1, lastIds);
    }
  }

  lemma EmptySide(h: Header, ids: seq<int>, freqs: seq<nat>, candidates: seq<int>)
    requires Represents(h, ids, freqs) && (candidates == [] || h.count == 0)
    ensures IsIntersection([], candidates, ids)
  {
  }

  lemma PastTheEnd(out: seq<int>, candidates: seq<int>, i: nat, h: Header, ids: seq<int>, freqs: seq<nat>)
    requires Represents(h, ids, freqs) && Ascending(candidates) && i < |candidates| && h.count > 0
    requires IsIntersection(out, candidates[..i], ids) && candidates[i] > h.lastIds[|h.lastIds| - 1]
    ensures IsIntersection(out, candidates, ids)
  {
    hide DecodedBlock;
    var last := |h.lastIds| - 1;
    assert Holds(h, ids, freqs, last);
    assert End(last, |ids|) == |ids|;
    assert candidates == candidates[..i] + candidates[i..];
    forall x | x in candidates[i..]
      ensures x !in ids
    {
      assert x >= candidates[i];
    }
  }

  lemma BlockDecodes(h: Header, ids: seq<int>, freqs: seq<nat>, b: nat)
    requires Represents(h, ids, freqs) && b < |h.lastIds|
    ensures b < BlockCount(|ids|)
    ensures DecodedBlock(h, b) == Ok(Block(ids[Start(b)..End(b, |ids|)], freqs[Start(b)..End(b, |ids|)]))
    ensures NonDecreasing(ids[Start(b)..End(b, |ids|)])
  {
    hide DecodedBlock;
    assert Holds(h, ids, freqs, b);
    StretchAscends(ids, Start(b), End(b, |ids|));
  }

  /** Searching the one named block decides a candidate. */
  lemma OneCandidate(out: seq<int>, candidates: seq<int>, i: nat, h: Header, ids: seq<int>, freqs: seq<nat>,
                     b: nat, position: nat)
    requires Represents(h, ids, freqs) && Ascending(candidates) && i < |candidates|
    requires IsIntersection(out, candidates[..i], ids)
    requires b < |h.lastIds|
    requires forall k :: 0 <= k < |h.lastIds| ==> (k < b <==> h.lastIds[k] < candidates[i])
    requires position <= End(b, |ids|) - Start(b)
    requires var block := ids[Start(b)..End(b, |ids|)];
      forall k :: 0 <= k < |block| ==> (k < position <==> block[k] < candidates[i])
    ensures var (block, c) := (ids[Start(b)..End(b, |ids|)], candidates[i]);
      var found := position < |block| && block[position] == c;
      IsIntersection(if found then out + [c] else out, candidates[..i + 1], ids)
  {
    hide DecodedBlock;
    var (block, c) := (ids[Start(b)..End(b, |ids|)], candidates[i]);
    var found := position < |block| && block[position] == c;
    WhereBlocksLie(h, ids, freqs, b, c);
    if !found {
      StretchAscends(ids, Start(b), End(b, |ids|));
      BisectAbsent(block, position, c);
    }
    assert found <==> c in ids;
    assert candidates[..i + 1] == candidates[..i] + [c];
    forall x | x in out
      ensures x < c
    {
      assert x in candidates[..i];
    }
    AscendingSnoc(out, c);
  }

  /**
   The documents in both, in order. The only blocks decoded are those the skip
   index names, so at most one per candidate.
   */
  method IntersectSkipping(candidates: seq<int>, postings: BlockedPostings, ghost ids: seq<int>, ghost freqs: seq<nat>)
    returns (out: seq<int>)
    requires Ascending(candidates)
    requires postings.Valid() && Represents(postings.header, ids, freqs)
    modifies postings`cache
    ensures postings.Valid()
    ensures IsIntersection(out, candidates, ids)
    ensures postings.cache.Keys <= old(postings.cache.Keys) + Needed(candidates, postings.header.lastIds)
  {
    hide DecodedBlock, Represents, Needed, IsIntersection, NonDecreasing, Ascending, FirstReaching;
    var lastIds := postings.header.lastIds;
    var before := postings.cache.Keys;
    if candidates == [] || postings.header.count == 0 {
      EmptySide(postings.header, ids, freqs, candidates);
      return [];
    }
    LastIdsAscend(postings.header, ids, freqs);
    out := [];
    EmptySide(postings.header, ids, freqs, candidates[..0]);
    var index, block := 0, None;
    for i := 0 to |candidates|
      invariant postings.Valid()
      invariant IsIntersection(out, candidates[..i], ids)
      invariant block.Some? ==> DecodedBlock(postings.header, index) == Ok(block.value)
      invariant postings.cache.Keys <= before + Needed(candidates[..i], lastIds)
    {
      var candidate := candidates[i];
      NeededGrows(candidates, i, lastIds);
      if candidate > lastIds[|lastIds| - 1] {
        PastTheEnd(out, candidates, i, postings.header, ids, freqs);
        NeededSoFar(candidates, i, lastIds);
        return;
      }
      var target := postings.BlockContaining(candidate);
      FirstReachingIs(lastIds, candidate, target);
      BlockDecodes(postings.header, ids, freqs, target);
      if block.None? || target != index {
        index := target;
        var one := postings.DecodeBlock(index);
        block := Some(one.value);
      }
      var position := BisectLeft(block.value.ids, candidate);
      OneCandidate(out, candidates, i, postings.header, ids, freqs, target, position);
      if position < |block.value.ids| && block.value.ids[position] == candidate {
        out := out + [candidate];
      }
    }
    assert candidates[..|candidates|] == candidates;
  }
}
