/** Object names: src/aether/stream/partition.py, `segment_key` and `manifest_key`. */
module Keys {
  import opened Prelude
  import opened Sorting

  /** What the streaming indexer writes, before it is rendered as a string. */
  datatype Key =
    | SegmentKey(partition: nat, first: nat, last: nat)
    | ManifestKey(partition: nat)

  const OFFSET_DIGITS: nat := 20

  function Pow10(n: nat): (p: nat)
    ensures p >= 1
  {
    if n == 0 then 1 else 10 * Pow10(n - 1)
  }

  function Digit(d: nat): char
    requires d < 10
  {
    '0' + d as char
  }

  /** The exactly `width` low decimal digits of `n`. */
  function Fixed(n: nat, width: nat): (s: string)
    ensures |s| == width
  {
    if width == 0 then "" else Fixed(n / 10, width - 1) + [Digit(n % 10)]
  }

  function Decimal(n: nat): (s: string)
    ensures |s| >= 1
  {
    if n < 10 then [Digit(n)] else Decimal(n / 10) + [Digit(n % 10)]
  }

  /** Python's `{n:020d}`: zero-padded to twenty digits, wider when it must be. */
  function Padded(n: nat): string {
    if n < Pow10(OFFSET_DIGITS) then Fixed(n, OFFSET_DIGITS) else Decimal(n)
  }

  function Directory(partition: nat): string {
    "segments/p" + Decimal(partition)
  }

  function Render(key: Key): string {
    match key
    case SegmentKey(p, first, last) =>
      Directory(p) + "/" + Padded(first) + "-" + Padded(last) + ".seg"
    case ManifestKey(p) =>
      "manifests/p" + Decimal(p) + "/current.json"
  }

  // ---- rendering is injective ------------------------------------------

  predicate Digits(s: string) {
    forall i :: 0 <= i < |s| ==> '0' <= s[i] <= '9'
  }

  function Parse(s: string): nat
    requires Digits(s)
  {
    if s == [] then 0
    else
      var c := s[|s| - 1];
      10 * Parse(s[..|s| - 1]) + (c as int - '0' as int)
  }

  lemma {:induction false} ParseFixed(n: nat, width: nat)
    requires n < Pow10(width)
    ensures Digits(Fixed(n, width)) && Parse(Fixed(n, width)) == n
  {
    if width != 0 {
      ParseFixed(n / 10, width - 1);
      var s := Fixed(n, width);
      assert s[..|s| - 1] == Fixed(n / 10, width - 1);
    }
  }

  lemma {:induction false} ParseDecimal(n: nat)
    ensures Digits(Decimal(n)) && Parse(Decimal(n)) == n
  {
    var s := Decimal(n);
    if n >= 10 {
      ParseDecimal(n / 10);
      assert s[..|s| - 1] == Decimal(n / 10);
    } else {
      assert s[..|s| - 1] == [];
    }
  }

  lemma ParsePadded(n: nat)
    ensures Digits(Padded(n)) && Parse(Padded(n)) == n
  {
    if n < Pow10(OFFSET_DIGITS) {
      ParseFixed(n, OFFSET_DIGITS);
    } else {
      ParseDecimal(n);
    }
  }

  /** Text up to a separator that it does not contain can be read back. */
  lemma {:induction false} SplitAt(a: string, b: string, rest: string, rest': string, c: char)
    requires c !in a && c !in b && a + [c] + rest == b + [c] + rest'
    ensures a == b && rest == rest'
  {
    var whole := a + [c] + rest;
    assert whole == b + [c] + rest';
    assert whole[|a|] == c && whole[|b|] == c;
    assert forall i | 0 <= i < |a| :: whole[i] == a[i] && a[i] in a;
    assert forall i | 0 <= i < |b| :: whole[i] == b[i] && b[i] in b;
    assert |a| == |b|;
    assert a == whole[..|a|] == b;
    assert rest == whole[|a| + 1..] == rest';
  }

  lemma SegmentNameSplits(p: string, f: string, l: string, p': string, f': string, l': string)
    requires Digits(p) && Digits(f) && Digits(l) && Digits(p') && Digits(f') && Digits(l')
    requires "segments/p" + p + "/" + f + "-" + l + ".seg" == "segments/p" + p' + "/" + f' + "-" + l' + ".seg"
    ensures p == p' && f == f' && l == l'
  {
    NameInParts(p, f, l);
    NameInParts(p', f', l');
    var (u, u') := (l + ['.'] + "seg", l' + ['.'] + "seg");
    var (t, t') := (f + ['-'] + u, f' + ['-'] + u');
    SamePrefix("segments/p", p + ['/'] + t, p' + ['/'] + t');
    SplitAt(p, p', t, t', '/');
    SplitAt(f, f', u, u', '-');
    SplitAt(l, l', "seg", "seg", '.');
  }

  lemma NameInParts(p: string, f: string, l: string)
    ensures "segments/p" + p + "/" + f + "-" + l + ".seg"
         == "segments/p" + (p + ['/'] + (f + ['-'] + (l + ['.'] + "seg")))
  {
  }

  lemma SamePrefix(prefix: string, s: string, s': string)
    requires prefix + s == prefix + s'
    ensures s == s'
  {
    assert (prefix + s)[|prefix|..] == s && (prefix + s')[|prefix|..] == s';
  }

  lemma ManifestNameSplits(p: string, p': string)
    requires Digits(p) && Digits(p')
    requires "manifests/p" + p + "/current.json" == "manifests/p" + p' + "/current.json"
    ensures p == p'
  {
    var (s, s') := (p + ['/'] + "current.json", p' + ['/'] + "current.json");
    assert "manifests/p" + p + "/current.json" == "manifests/p" + s;
    assert "manifests/p" + p' + "/current.json" == "manifests/p" + s';
    SamePrefix("manifests/p", s, s');
    SplitAt(p, p', "current.json", "current.json", '/');
  }

  lemma RenderStart(k: Key)
    ensures |Render(k)| > 0 && Render(k)[0] == if k.SegmentKey? then 's' else 'm'
  {
  }

  /** No two objects share a name, so a store may be indexed by `Key`. */
  lemma RenderInjective(k: Key, k': Key)
    requires Render(k) == Render(k')
    ensures k == k'
  {
    RenderStart(k);
    RenderStart(k');
    ParseDecimal(k.partition);
    ParseDecimal(k'.partition);
    if k.SegmentKey? {
      ParsePadded(k.first);
      ParsePadded(k'.first);
      ParsePadded(k.last);
      ParsePadded(k'.last);
      SegmentNameSplits(Decimal(k.partition), Padded(k.first), Padded(k.last),
                        Decimal(k'.partition), Padded(k'.first), Padded(k'.last));
    } else {
      ManifestNameSplits(Decimal(k.partition), Decimal(k'.partition));
    }
  }

  /**
   The form of the names: the partition without padding, and each offset in twenty digits, all of them
   numerals that read back as what they stand for.
   */
  lemma NamesReadBack(p: nat, first: nat, last: nat) returns (d: string, f: string, l: string)
    requires first < 100_000_000_000_000_000_000 && last < 100_000_000_000_000_000_000
    ensures Render(SegmentKey(p, first, last)) == "segments/p" + d + "/" + f + "-" + l + ".seg"
    ensures Render(ManifestKey(p)) == "manifests/p" + d + "/current.json"
    ensures Digits(d) && Digits(f) && Digits(l) && |f| == |l| == 20
    ensures Parse(d) == p && Parse(f) == first && Parse(l) == last
    ensures |d| > 1 ==> d[0] != '0'
  {
    d, f, l := Decimal(p), Padded(first), Padded(last);
    ParseDecimal(p);
    NoLeadingZero(p);
    ParsePadded(first);
    ParsePadded(last);
    TwentyDigits();
  }

  lemma TwentyDigits()
    ensures Pow10(OFFSET_DIGITS) == 100_000_000_000_000_000_000
  {
    assert Pow10(4) == 10_000 && Pow10(8) == 100_000_000 && Pow10(12) == 1_000_000_000_000;
    assert Pow10(16) == 10_000_000_000_000_000;
  }

  lemma {:induction false} NoLeadingZero(n: nat)
    ensures n > 0 ==> Decimal(n)[0] != '0'
    ensures |Decimal(n)| > 1 ==> n > 0
  {
    if n >= 10 {
      NoLeadingZero(n / 10);
      assert Decimal(n)[0] == Decimal(n / 10)[0];
    }
  }

  // ---- names sort in offset order --------------------------------------

  lemma {:induction false} StrLessPrefixed(pre: string, a: string, b: string, ra: string, rb: string)
    requires |a| == |b| && StrLess(a, b)
    ensures StrLess(pre + a + ra, pre + b + rb)
  {
    var x, y := pre + a + ra, pre + b + rb;
    if pre != [] {
      StrLessPrefixed(pre[1..], a, b, ra, rb);
      assert x[1..] == pre[1..] + a + ra && y[1..] == pre[1..] + b + rb;
    } else if a != [] && a[0] == b[0] {
      assert a == [a[0]] + a[1..] && b == [b[0]] + b[1..];
      StrLessPrefixed([], a[1..], b[1..], ra, rb);
      assert [] + a[1..] + ra == x[1..] && [] + b[1..] + rb == y[1..];
    } else {
      assert x[0] == a[0] && y[0] == b[0];
    }
  }

  lemma DigitOrder(d: nat, e: nat)
    requires d < e < 10
    ensures StrLess([Digit(d)], [Digit(e)])
  {
    assert [Digit(d)][1..] == [Digit(e)][1..] == [];
  }

  lemma {:induction false} FixedOrder(n: nat, m: nat, width: nat)
    requires n < m < Pow10(width)
    ensures StrLess(Fixed(n, width), Fixed(m, width))
  {
    hide StrLess, StrLe, Digit;
    var (a, b) := (Fixed(n / 10, width - 1), Fixed(m / 10, width - 1));
    var (x, y) := ([Digit(n % 10)], [Digit(m % 10)]);
    if n / 10 < m / 10 {
      FixedOrder(n / 10, m / 10, width - 1);
      StrLessPrefixed([], a, b, x, y);
      assert [] + a + x == Fixed(n, width) && [] + b + y == Fixed(m, width);
    } else {
      DigitOrder(n % 10, m % 10);
      StrLessPrefixed(a, x, y, [], []);
      assert a + x + [] == Fixed(n, width) && b + y + [] == Fixed(m, width);
    }
  }

  lemma NamesInOrder(dir: string, f: string, f': string, l: string, l': string)
    requires |f| == |f'| && StrLess(f, f')
    ensures StrLess(dir + "/" + f + "-" + l + ".seg", dir + "/" + f' + "-" + l' + ".seg")
  {
    var (ra, rb) := ("-" + l + ".seg", "-" + l' + ".seg");
    StrLessPrefixed(dir + "/", f, f', ra, rb);
    assert (dir + "/") + f + ra == dir + "/" + f + "-" + l + ".seg";
    assert (dir + "/") + f' + rb == dir + "/" + f' + "-" + l' + ".seg";
  }

  /** Fixed width makes the order of names the order of offsets. */
  lemma KeysSortInOffsetOrder(p: nat, first: nat, last: nat, first': nat, last': nat)
    requires first < first' < Pow10(OFFSET_DIGITS)
    ensures StrLess(Render(SegmentKey(p, first, last)), Render(SegmentKey(p, first', last')))
  {
    FixedOrder(first, first', OFFSET_DIGITS);
    NamesInOrder(Directory(p), Padded(first), Padded(first'), Padded(last), Padded(last'));
  }
}
