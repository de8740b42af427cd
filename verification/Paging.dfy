/** Why a page can be cut from the best few of every part: src/aether/index/coordinator.py. */
module Paging {
  import opened Prelude
  import opened Sorting

  /** The best `n`: `heapq.nsmallest`. */
  function Best<T>(s: seq<T>, le: (T, T) -> bool, n: int): seq<T> {
    Take(Sort(s, le), n)
  }

  lemma {:induction false} InsertTake<T>(x: T, s: seq<T>, le: (T, T) -> bool, n: nat)
    ensures Take(Insert(x, s, le), n) == Take(Insert(x, Take(s, n), le), n)
    decreases |s|
  {
    hide Take;
    if s == [] || n == 0 {
      TakeNone(s, n);
      TakeNone(Insert(x, s, le), n);
      TakeNone(Insert(x, Take(s, n), le), n);
    } else if le(x, s[0]) {
      InsertFirst(x, s, le, n);
    } else {
      hide Insert;
      InsertTake(x, s[1..], le, n - 1);
      InsertLater(x, s, le, n);
    }
  }

  lemma InsertFirst<T>(x: T, s: seq<T>, le: (T, T) -> bool, n: nat)
    requires s != [] && n > 0 && le(x, s[0])
    ensures Take(Insert(x, s, le), n) == Take(Insert(x, Take(s, n), le), n)
  {
    hide Take;
    TakeCons(s[0], s[1..], n);
    assert s == [s[0]] + s[1..];
    TakeCons(x, s, n);
    TakeCons(x, Take(s, n), n);
    TakeTake(s, n);
  }

  lemma InsertLater<T>(x: T, s: seq<T>, le: (T, T) -> bool, n: nat)
    requires s != [] && n > 0 && !le(x, s[0])
    requires Take(Insert(x, s[1..], le), n - 1) == Take(Insert(x, Take(s[1..], n - 1), le), n - 1)
    ensures Take(Insert(x, s, le), n) == Take(Insert(x, Take(s, n), le), n)
  {
    hide Take;
    var (head, tail, few) := (s[0], s[1..], Take(s, n));
    assert s == [head] + tail;
    TakeCons(head, tail, n);
    assert few[1..] == Take(tail, n - 1);
    TakeCons(head, Insert(x, tail, le), n);
    TakeCons(head, Insert(x, few[1..], le), n);
  }

  lemma TakeNone<T>(s: seq<T>, n: nat)
    ensures s == [] || n == 0 ==> Take(s, n) == []
  {
  }

  lemma TakeTake<T>(s: seq<T>, n: nat)
    requires n > 0
    ensures Take(Take(s, n), n - 1) == Take(s, n - 1)
  {
  }

  lemma TakeCons<T>(x: T, s: seq<T>, n: nat)
    requires n > 0
    ensures Take([x] + s, n) == [x] + Take(s, n - 1)
  {
  }

  lemma SortCons<T>(x: T, s: seq<T>, le: (T, T) -> bool)
    ensures Sort([x] + s, le) == Insert(x, Sort(s, le), le)
  {
    assert ([x] + s)[1..] == s;
  }

  /** The best of a list needs only the best of its tail. */
  lemma {:induction false} BestOfTail<T>(a: seq<T>, b: seq<T>, c: seq<T>, le: (T, T) -> bool, n: nat)
    requires Best(b, le, n) == Best(c, le, n)
    ensures Best(a + b, le, n) == Best(a + c, le, n)
  {
    hide Sort, Insert, Take;
    if a == [] {
      assert a + b == b && a + c == c;
    } else {
      var (x, rest) := (a[0], a[1..]);
      BestOfTail(rest, b, c, le, n);
      assert a + b == [x] + (rest + b) && a + c == [x] + (rest + c);
      SortCons(x, rest + b, le);
      SortCons(x, rest + c, le);
      InsertTake(x, Sort(rest + b, le), le, n);
      InsertTake(x, Sort(rest + c, le), le, n);
    }
  }

  lemma {:induction false} SortOfSorted<T>(s: seq<T>, le: (T, T) -> bool)
    requires SortedBy(s, le)
    ensures Sort(s, le) == s
  {
    if s != [] {
      SortOfSorted(s[1..], le);
      assert s == [s[0]] + s[1..];
    }
  }

  lemma BestIsItsOwn<T(!new)>(s: seq<T>, le: (T, T) -> bool, n: nat)
    requires TotalPreorder(le)
    ensures Best(Best(s, le, n), le, n) == Best(s, le, n)
  {
    hide Sort;
    SortSorted(s, le);
    SortOfSorted(Best(s, le, n), le);
  }

  /** The best few of each part. */
  function BestOfEach<T>(parts: seq<seq<T>>, le: (T, T) -> bool, n: int): (r: seq<seq<T>>)
    ensures |r| == |parts|
  {
    seq(|parts|, i requires 0 <= i < |parts| => Best(parts[i], le, n))
  }

  lemma AnyNoTies<T(!new)>(s: seq<T>, le: (T, T) -> bool)
    requires TotalOrder(le)
    ensures NoTies(s, le)
  {
  }

  lemma BestSwaps<T(!new)>(a: seq<T>, b: seq<T>, le: (T, T) -> bool, n: int)
    requires TotalOrder(le)
    ensures Best(a + b, le, n) == Best(b + a, le, n)
  {
    AnyNoTies(a + b, le);
    assert multiset(a + b) == multiset(b + a);
    SortOrderIrrelevant(a + b, b + a, le);
  }

  /** The best few of everything are the best few of the best few of each part. */
  lemma {:induction false} BestOfParts<T(!new)>(parts: seq<seq<T>>, le: (T, T) -> bool, n: nat)
    requires TotalOrder(le)
    ensures Best(Flatten(BestOfEach(parts, le, n)), le, n) == Best(Flatten(parts), le, n)
  {
    hide Best, TotalOrder;
    if parts != [] {
      var k := |parts| - 1;
      var (last, best) := (parts[k], Best(parts[k], le, n));
      var (rest, few) := (Flatten(parts[..k]), Flatten(BestOfEach(parts[..k], le, n)));
      assert BestOfEach(parts, le, n)[..k] == BestOfEach(parts[..k], le, n);
      BestOfParts(parts[..k], le, n);
      BestSwaps(few, best, le, n);
      BestOfTail(best, few, rest, le, n) by { assert Best(few, le, n) == Best(rest, le, n); }
      BestSwaps(best, rest, le, n);
      OwnBest(last, le, n);
      BestOfTail(rest, best, last, le, n);
    }
  }

  lemma OwnBest<T(!new)>(s: seq<T>, le: (T, T) -> bool, n: nat)
    requires TotalOrder(le)
    ensures Best(Best(s, le, n), le, n) == Best(s, le, n)
  {
    BestIsItsOwn(s, le, n);
  }

  // ---- pages -----------------------------------------------------------

  /** `ranked[offset:]` of the best `offset + k`. */
  function Page<T>(full: seq<T>, offset: nat, k: int): seq<T> {
    if k <= 0 then [] else Slice(full, offset, offset + k)
  }

  lemma PageIsTail<T>(full: seq<T>, offset: nat, k: int)
    ensures Slice(Take(full, offset + k), offset, |Take(full, offset + k)|) == Page(full, offset, k)
  {
  }

  /** Pages of `k`, one after another. */
  function Pages<T>(full: seq<T>, k: nat, count: nat): seq<T> {
    if count == 0 then [] else Pages(full, k, count - 1) + Page(full, (count - 1) * k, k)
  }

  /** Consecutive pages tile the ranking: no hit is repeated and none is missed. */
  lemma {:induction false} PagesTile<T>(full: seq<T>, k: nat, count: nat)
    requires k > 0
    ensures Pages(full, k, count) == Take(full, count * k)
  {
    if count > 0 {
      PagesTile(full, k, count - 1);
      assert count * k == (count - 1) * k + k;
    }
  }

  // ---- relabelling -----------------------------------------------------

  function Map<S, T>(f: S -> T, s: seq<S>): (r: seq<T>)
    ensures |r| == |s|
  {
    seq(|s|, i requires 0 <= i < |s| => f(s[i]))
  }

  lemma MapConcat<S, T>(f: S -> T, a: seq<S>, b: seq<S>)
    ensures Map(f, a + b) == Map(f, a) + Map(f, b)
  {
  }

  lemma MapPage<S, T>(f: S -> T, s: seq<S>, offset: nat, k: int)
    ensures Map(f, Page(s, offset, k)) == Page(Map(f, s), offset, k)
  {
  }

  lemma Removed<T>(s: seq<T>, k: nat)
    requires k < |s|
    ensures s == s[..k] + ([s[k]] + s[k + 1..])
    ensures multiset(s[..k] + s[k + 1..]) == multiset(s) - multiset{s[k]}
  {
    var (a, b) := (s[..k], s[k + 1..]);
    assert s == a + ([s[k]] + b);
    assert multiset(s) == multiset(a) + multiset{s[k]} + multiset(b);
  }

  /** What is read off a list in another order is the same, in another order. */
  lemma {:induction false} MapPermutes<S, T>(f: S -> T, a: seq<S>, b: seq<S>)
    requires multiset(a) == multiset(b)
    ensures multiset(Map(f, a)) == multiset(Map(f, b))
  {
    assert |multiset(a)| == |a| && |multiset(b)| == |b|;
    if a == [] {
      assert b == [];
    } else {
      var n := |a| - 1;
      assert a == a[..n] + [a[n]];
      assert a[n] in multiset(b);
      var k :| 0 <= k < |b| && b[k] == a[n];
      Removed(b, k);
      assert multiset(a[..n]) == multiset(a) - multiset{a[n]};
      MapPermutes(f, a[..n], b[..k] + b[k + 1..]);
      MapOneMore(f, a[..n], a[n], []);
      assert a[..n] + ([a[n]] + []) == a && a[..n] + [] == a[..n];
      MapOneMore(f, b[..k], b[k], b[k + 1..]);
    }
  }

  lemma MapOneMore<S, T>(f: S -> T, a: seq<S>, x: S, b: seq<S>)
    ensures multiset(Map(f, a + ([x] + b))) == multiset(Map(f, a + b)) + multiset{f(x)}
  {
    MapConcat(f, a, [x] + b);
    MapConcat(f, [x], b);
    MapConcat(f, a, b);
    assert Map(f, [x]) == [f(x)];
  }

  /** The parts in another order hold the same things. */
  lemma {:induction false} FlattenPermutes<T>(a: seq<seq<T>>, b: seq<seq<T>>)
    requires multiset(a) == multiset(b)
    ensures multiset(Flatten(a)) == multiset(Flatten(b))
  {
    assert |multiset(a)| == |a| && |multiset(b)| == |b|;
    if a == [] {
      assert b == [];
    } else {
      var n := |a| - 1;
      assert a == a[..n] + [a[n]];
      assert a[n] in multiset(b);
      var k :| 0 <= k < |b| && b[k] == a[n];
      Removed(b, k);
      assert multiset(a[..n]) == multiset(a) - multiset{a[n]};
      FlattenPermutes(a[..n], b[..k] + b[k + 1..]);
      FlattenOneMore(b[..k], b[k], b[k + 1..]);
    }
  }

  lemma {:induction false} FlattenConcat<T>(a: seq<seq<T>>, b: seq<seq<T>>)
    ensures Flatten(a + b) == Flatten(a) + Flatten(b)
  {
    if b == [] {
      assert a + b == a;
    } else {
      var n := |b| - 1;
      assert (a + b)[..|a + b| - 1] == a + b[..n];
      FlattenConcat(a, b[..n]);
    }
  }

  lemma FlattenOneMore<T>(a: seq<seq<T>>, x: seq<T>, b: seq<seq<T>>)
    ensures multiset(Flatten(a + ([x] + b))) == multiset(Flatten(a + b)) + multiset(x)
  {
    FlattenConcat(a, [x] + b);
    FlattenConcat([x], b);
    FlattenConcat(a, b);
    assert [x][..0] == [];
  }

  lemma MapCons<S, T>(f: S -> T, x: S, s: seq<S>)
    ensures Map(f, [x] + s) == [f(x)] + Map(f, s)
  {
  }

  lemma {:induction false} MapInsert<S, T>(f: S -> T, x: S, s: seq<S>, le: (S, S) -> bool, le': (T, T) -> bool)
    requires forall y :: y in s ==> le(x, y) == le'(f(x), f(y))
    ensures Map(f, Insert(x, s, le)) == Insert(f(x), Map(f, s), le')
  {
    if s == [] {
    } else if le(x, s[0]) {
      MapCons(f, x, s);
    } else {
      assert Map(f, s)[1..] == Map(f, s[1..]);
      MapInsert(f, x, s[1..], le, le');
      MapCons(f, s[0], Insert(x, s[1..], le));
    }
  }

  /** Relabelling that keeps the order commutes with sorting. */
  lemma {:induction false} MapSort<S, T>(f: S -> T, s: seq<S>, le: (S, S) -> bool, le': (T, T) -> bool)
    requires forall x, y :: x in s && y in s ==> le(x, y) == le'(f(x), f(y))
    ensures Map(f, Sort(s, le)) == Sort(Map(f, s), le')
  {
    hide Insert;
    if s != [] {
      MapSort(f, s[1..], le, le');
      assert Map(f, s)[1..] == Map(f, s[1..]);
      forall y | y in Sort(s[1..], le)
        ensures le(s[0], y) == le'(f(s[0]), f(y))
      {
        SortMember(s[1..], le, y);
      }
      MapInsert(f, s[0], Sort(s[1..], le), le, le');
    }
  }

  lemma MapTake<S, T>(f: S -> T, s: seq<S>, n: int)
    ensures Map(f, Take(s, n)) == Take(Map(f, s), n)
  {
  }
}
