/** Why the network of `bitonic_sort` sorts, for every length and not only for
    powers of two.  The argument is the 0-1 principle: a compare-exchange
    commutes with every threshold map `x |-> (x >= t ? 1 : 0)`, so it is enough
    to follow sequences of zeros and ones, and those keep one of two shapes
    through the merge, a block of one value inside the other. */
module BitonicSorted {
  import opened BitonicNetwork

  /** The value a sorted 0-1 range ends with: 1 ascending, 0 descending. */
  function Top(up: bool): (v: int)
    ensures v == 0 || v == 1
  {
    if up then 1 else 0
  }

  /** The value a sorted 0-1 range starts with. */
  function Bottom(up: bool): (v: int)
    ensures v == 1 - Top(up)
  {
    if up then 0 else 1
  }

  /** Position `p` of `s`.  The range predicates below speak of positions through
      `At` only, so that their quantifiers are instantiated where a proof names a
      position and not at every index of every sequence in sight. */
  function At(s: seq<int>, p: nat): int
    requires p < |s|
  {
    s[p]
  }

  /** On `[lo, hi)`, `s` holds `v` inside `[a, b)` and `1 - v` outside it, `v` being 0 or 1. */
  predicate Shape(s: seq<int>, lo: nat, hi: nat, a: nat, b: nat, v: int)
  {
    && lo <= a <= b <= hi <= |s| && (v == 0 || v == 1)
    && forall p :: lo <= p < hi ==> At(s, p) == (if a <= p < b then v else 1 - v)
  }

  /** `[lo, hi)` is a sorted 0-1 range in direction `up`. */
  ghost predicate Sorted01(s: seq<int>, lo: nat, hi: nat, up: bool)
  {
    exists a :: Shape(s, lo, hi, a, hi, Top(up))
  }

  /** `[lo, hi)` is a block of one value inside the other. */
  ghost predicate Bitonic01(s: seq<int>, lo: nat, hi: nat)
  {
    exists a, b, v :: Shape(s, lo, hi, a, b, v)
  }

  /** ... with the value the order `up` puts first inside: a "V" for ascending order. */
  ghost predicate Valley(s: seq<int>, lo: nat, hi: nat, up: bool)
  {
    exists a, b :: Shape(s, lo, hi, a, b, Bottom(up))
  }

  /** Every position of `[lo, hi)` holds `v`. */
  predicate AllEq(s: seq<int>, lo: nat, hi: nat, v: int)
    requires hi <= |s|
  {
    forall p :: lo <= p < hi ==> At(s, p) == v
  }

  /** `s` and `t` agree on `[lo, hi)`. */
  predicate Same(s: seq<int>, t: seq<int>, lo: nat, hi: nat)
    requires hi <= |s| && hi <= |t|
  {
    forall p :: lo <= p < hi ==> At(s, p) == At(t, p)
  }

  /** Every position of `[lo, hi)` holds 0 or 1. */
  predicate Binary(s: seq<int>, lo: nat, hi: nat)
    requires hi <= |s|
  {
    forall p :: lo <= p < hi ==> At(s, p) == 0 || At(s, p) == 1
  }

  /** The threshold map. */
  function Threshold(s: seq<int>, t: int): (r: seq<int>)
    ensures |r| == |s|
    ensures forall p :: 0 <= p < |s| ==> (r[p] == 1 <==> s[p] >= t) && (r[p] == 0 <==> s[p] < t)
  {
    seq(|s|, p requires 0 <= p < |s| => if s[p] >= t then 1 else 0)
  }

  /** A compare-exchange commutes with a threshold map. */
  lemma {:induction false} StepThreshold(s: seq<int>, c: Comparator, t: int)
    requires c.i < |s| && c.j < |s| && c.i != c.j
    ensures Step(Threshold(s, t), c) == Threshold(Step(s, c), t)
  {
    var th := Threshold(s, t);
    StepAt(s, c);
    StepAt(th, c);
    var u, w := Step(th, c), Threshold(Step(s, c), t);
    forall p | 0 <= p < |s|
      ensures u[p] == w[p]
    {
    }
  }

  /** So does a whole network. */
  lemma {:induction false} RunThreshold(net: Network, s: seq<int>, t: int)
    requires Between(net, 0, |s|)
    ensures Run(net, Threshold(s, t)) == Threshold(Run(net, s), t)
  {
    match net
    case Skip =>
    case Compare(c) =>
      StepThreshold(s, c, t);
    case Then(a, b) =>
      RunThreshold(a, s, t);
      RunThreshold(b, Run(a, s), t);
  }

  /** On 0 and 1, `Low` is the value the sorted order puts first as soon as either
      argument is that value, and `High` the other one. */
  lemma {:induction false} LowHighBinary(up: bool, x: int, y: int)
    requires (x == 0 || x == 1) && (y == 0 || y == 1)
    ensures Low(up, x, y) == (if x == Bottom(up) || y == Bottom(up) then Bottom(up) else Top(up))
    ensures High(up, x, y) == (if x == Top(up) || y == Top(up) then Top(up) else Bottom(up))
  {
  }

  /** A network confined to `[lo', hi')` leaves a disjoint range `[lo, hi)` as it was. */
  lemma {:induction false} RunSame(net: Network, s: seq<int>, lo': nat, hi': nat, lo: nat, hi: nat)
    requires Between(net, lo', hi') && hi' <= |s| && hi <= |s| && (hi <= lo' || hi' <= lo)
    ensures Same(Run(net, s), s, lo, hi)
  {
    forall p | lo <= p < hi
      ensures Run(net, s)[p] == s[p]
    {
      RunFrame(net, s, lo', hi', p);
    }
  }

  lemma {:induction false} ShapeSame(s: seq<int>, t: seq<int>, lo: nat, hi: nat, a: nat, b: nat, v: int)
    requires hi <= |t| && Shape(s, lo, hi, a, b, v) && Same(t, s, lo, hi)
    ensures Shape(t, lo, hi, a, b, v)
  {
  }

  lemma {:induction false} Sorted01Same(s: seq<int>, t: seq<int>, lo: nat, hi: nat, up: bool)
    requires hi <= |s| && hi <= |t| && Sorted01(s, lo, hi, up) && Same(t, s, lo, hi)
    ensures Sorted01(t, lo, hi, up)
  {
    var a :| Shape(s, lo, hi, a, hi, Top(up));
    ShapeSame(s, t, lo, hi, a, hi, Top(up));
  }

  lemma {:induction false} AllEqSame(s: seq<int>, t: seq<int>, lo: nat, hi: nat, v: int)
    requires hi <= |s| && hi <= |t| && AllEq(s, lo, hi, v) && Same(t, s, lo, hi)
    ensures AllEq(t, lo, hi, v)
  {
  }

  lemma {:induction false} Bitonic01Same(s: seq<int>, t: seq<int>, lo: nat, hi: nat)
    requires hi <= |s| && hi <= |t| && Bitonic01(s, lo, hi) && Same(t, s, lo, hi)
    ensures Bitonic01(t, lo, hi)
  {
    var a, b, v :| Shape(s, lo, hi, a, b, v);
    ShapeSame(s, t, lo, hi, a, b, v);
  }

  lemma {:induction false} ValleySame(s: seq<int>, t: seq<int>, lo: nat, hi: nat, up: bool)
    requires hi <= |s| && hi <= |t| && Valley(s, lo, hi, up) && Same(t, s, lo, hi)
    ensures Valley(t, lo, hi, up)
  {
    var a, b :| Shape(s, lo, hi, a, b, Bottom(up));
    ShapeSame(s, t, lo, hi, a, b, Bottom(up));
  }

  lemma {:induction false} BinarySame(s: seq<int>, t: seq<int>, lo: nat, hi: nat)
    requires hi <= |s| && hi <= |t| && Binary(s, lo, hi) && Same(t, s, lo, hi)
    ensures Binary(t, lo, hi)
  {
  }

  lemma {:induction false} BinarySplit(s: seq<int>, lo: nat, mid: nat, hi: nat)
    requires lo <= mid <= hi <= |s| && Binary(s, lo, hi)
    ensures Binary(s, lo, mid) && Binary(s, mid, hi)
  {
  }

  /** A single 0-1 position, or none, is sorted. */
  lemma {:induction false} ShortSorted(s: seq<int>, lo: nat, n: nat, up: bool)
    requires n <= 1 && lo + n <= |s| && Binary(s, lo, lo + n)
    ensures Sorted01(s, lo, lo + n, up)
  {
    if n == 0 || s[lo] == Top(up) {
      assert Shape(s, lo, lo + n, lo, lo + n, Top(up));
    } else {
      assert Shape(s, lo, lo + n, lo + n, lo + n, Top(up));
    }
  }

  /** A network confined to a range where every key is `v` changes nothing there. */
  lemma {:induction false} RunAllEq(net: Network, s: seq<int>, lo: nat, hi: nat, v: int)
    requires Between(net, lo, hi) && hi <= |s| && AllEq(s, lo, hi, v)
    ensures AllEq(Run(net, s), lo, hi, v)
  {
    match net
    case Skip =>
    case Compare(c) =>
      var t := Step(s, c);
      StepAt(s, c);
      assert At(s, c.i) == s[c.i] && At(s, c.j) == s[c.j];
      forall p | lo <= p < hi
        ensures At(t, p) == v
      {
        assert At(s, p) == s[p];
      }
    case Then(a, b) =>
      RunAllEq(a, s, lo, hi, v);
      RunAllEq(b, Run(a, s), lo, hi, v);
  }

  /** A sorted 0-1 range is sorted. */
  lemma {:induction false} Sorted01Sorted(s: seq<int>, lo: nat, hi: nat, up: bool)
    requires hi <= |s| && Sorted01(s, lo, hi, up)
    ensures SortedRange(s, lo, hi, up)
  {
    var a :| Shape(s, lo, hi, a, hi, Top(up));
    forall p, q | lo <= p < q < hi
      ensures Ordered(up, s[p], s[q])
    {
      assert At(s, p) == s[p] && At(s, q) == s[q];
    }
  }

  /** Two sorted halves make a sorted whole when one of them is all on its own side. */
  lemma {:induction false} Glue(s: seq<int>, lo: nat, mid: nat, hi: nat, up: bool)
    requires lo <= mid <= hi <= |s|
    requires (AllEq(s, lo, mid, Bottom(up)) && Sorted01(s, mid, hi, up))
          || (Sorted01(s, lo, mid, up) && AllEq(s, mid, hi, Top(up)))
    ensures Sorted01(s, lo, hi, up)
  {
    if AllEq(s, lo, mid, Bottom(up)) && Sorted01(s, mid, hi, up) {
      var a :| Shape(s, mid, hi, a, hi, Top(up));
      assert Shape(s, lo, hi, a, hi, Top(up));
    } else {
      var a :| Shape(s, lo, mid, a, mid, Top(up));
      assert Shape(s, lo, hi, a, hi, Top(up));
    }
  }

  /** The first `m` positions after the half cleaner of a merge of length `n`
      on a valley `[a, b)`: low where either compared key was. */
  lemma {:induction false} ValleyFirst(c: seq<int>, lo: nat, m: nat, n: nat, a: nat, b: nat, up: bool)
    requires m < n <= 2 * m && lo <= a <= b <= lo + n && lo + n <= |c|
    requires forall p :: lo <= p < lo + m ==> c[p] == (if a <= p < b || a <= p + m < b then Bottom(up) else Top(up))
    ensures Bitonic01(c, lo, lo + m)
    ensures b > a + m ==> AllEq(c, lo, lo + m, Bottom(up))
  {
    if b <= lo + m {
      assert Shape(c, lo, lo + m, a, b, Bottom(up));
    } else if a >= lo + m {
      assert Shape(c, lo, lo + m, a - m, b - m, Bottom(up));
    } else if b - m >= a {
      assert Shape(c, lo, lo + m, lo, lo + m, Bottom(up));
    } else {
      assert Shape(c, lo, lo + m, b - m, a, Top(up));
    }
  }

  /** The last `n - m` positions: low only where both compared keys were. */
  lemma {:induction false} ValleySecond(c: seq<int>, lo: nat, m: nat, n: nat, a: nat, b: nat, up: bool)
    requires m < n && lo <= a <= b <= lo + n && lo + n <= |c|
    requires forall q :: lo + m <= q < lo + n ==> c[q] == (if a <= q - m < b && a <= q < b then Bottom(up) else Top(up))
    ensures Valley(c, lo + m, lo + n, up)
    ensures b <= a + m ==> AllEq(c, lo + m, lo + n, Top(up))
  {
    var a2 := if a + m <= lo + n then a + m else lo + n;
    var b2 := if b >= a2 then b else a2;
    assert Shape(c, lo + m, lo + n, a2, b2, Bottom(up));
  }

  /** The half cleaner of a merge of any length on a valley: afterwards the first
      `m` positions are bitonic, the last `n - m` are again a valley, and one of
      the two parts is entirely on its own side. */
  lemma {:induction false} CleanValley(s: seq<int>, lo: nat, n: nat, m: nat, up: bool)
    requires n >= 2 && m == GreatestPowerOfTwoLessThan(n) && lo + n <= |s| && Valley(s, lo, lo + n, up)
    ensures var c := Run(CleanNet(lo, n - m, m, up), s);
      && Bitonic01(c, lo, lo + m) && Valley(c, lo + m, lo + n, up)
      && (AllEq(c, lo, lo + m, Bottom(up)) || AllEq(c, lo + m, lo + n, Top(up)))
  {
    var a: nat, b: nat :| Shape(s, lo, lo + n, a, b, Bottom(up));
    CleanValleyShape(s, lo, n, m, up, a, b);
  }

  lemma {:induction false} CleanValleyShape(s: seq<int>, lo: nat, n: nat, m: nat, up: bool, a: nat, b: nat)
    requires n >= 2 && m == GreatestPowerOfTwoLessThan(n) && Shape(s, lo, lo + n, a, b, Bottom(up))
    ensures var c := Run(CleanNet(lo, n - m, m, up), s);
      && Bitonic01(c, lo, lo + m) && Valley(c, lo + m, lo + n, up)
      && (AllEq(c, lo, lo + m, Bottom(up)) || AllEq(c, lo + m, lo + n, Top(up)))
  {
    var r := n - m;
    var c := Run(CleanNet(lo, r, m, up), s);
    forall p | lo <= p < lo + m
      ensures c[p] == (if a <= p < b || a <= p + m < b then Bottom(up) else Top(up))
    {
      CleanAt(s, lo, r, m, up, p);
      assert At(s, p) == s[p];
      if p < lo + r {
        assert At(s, p + m) == s[p + m];
        LowHighBinary(up, s[p], s[p + m]);
      }
    }
    forall q | lo + m <= q < lo + n
      ensures c[q] == (if a <= q - m < b && a <= q < b then Bottom(up) else Top(up))
    {
      CleanAt(s, lo, r, m, up, q);
      assert At(s, q - m) == s[q - m] && At(s, q) == s[q];
      LowHighBinary(up, s[q - m], s[q]);
    }
    ValleyFirst(c, lo, m, n, a, b, up);
    ValleySecond(c, lo, m, n, a, b, up);
  }

  /** The first half after the half cleaner of a merge of length `2m` on a peak
      `[a, b)`: high only where both compared keys were. */
  lemma {:induction false} PeakFirst(c: seq<int>, lo: nat, m: nat, a: nat, b: nat, up: bool)
    requires lo <= a <= b <= lo + 2 * m && lo + 2 * m <= |c|
    requires forall p :: lo <= p < lo + m ==> c[p] == (if a <= p < b && a <= p + m < b then Top(up) else Bottom(up))
    ensures Bitonic01(c, lo, lo + m)
    ensures b <= a + m ==> AllEq(c, lo, lo + m, Bottom(up))
  {
    var a1 := if a <= lo + m then a else lo + m;
    var b1 := if b - m >= a1 then b - m else a1;
    assert Shape(c, lo, lo + m, a1, b1, Top(up));
  }

  /** The second half: high where either compared key was. */
  lemma {:induction false} PeakSecond(c: seq<int>, lo: nat, m: nat, a: nat, b: nat, up: bool)
    requires lo <= a <= b <= lo + 2 * m && lo + 2 * m <= |c|
    requires forall q :: lo + m <= q < lo + 2 * m ==> c[q] == (if a <= q - m < b || a <= q < b then Top(up) else Bottom(up))
    ensures Bitonic01(c, lo + m, lo + 2 * m)
    ensures b > a + m ==> AllEq(c, lo + m, lo + 2 * m, Top(up))
  {
    if a >= lo + m {
      assert Shape(c, lo + m, lo + 2 * m, a, b, Top(up));
    } else if b <= lo + m {
      assert Shape(c, lo + m, lo + 2 * m, a + m, b + m, Top(up));
    } else if a + m <= b {
      assert Shape(c, lo + m, lo + 2 * m, lo + m, lo + 2 * m, Top(up));
    } else {
      assert Shape(c, lo + m, lo + 2 * m, b, a + m, Bottom(up));
    }
  }

  /** The half cleaner of a merge of power-of-two length on a peak: afterwards
      both halves are bitonic and one of them is entirely on its own side. */
  lemma {:induction false} CleanPeak(s: seq<int>, lo: nat, n: nat, up: bool, a: nat, b: nat)
    requires n >= 2 && IsPow2(n) && Shape(s, lo, lo + n, a, b, Top(up))
    ensures GreatestPowerOfTwoLessThan(n) == n / 2
    ensures var m := n / 2;
      var c := Run(CleanNet(lo, m, m, up), s);
      && Bitonic01(c, lo, lo + m) && Bitonic01(c, lo + m, lo + n)
      && (AllEq(c, lo, lo + m, Bottom(up)) || AllEq(c, lo + m, lo + n, Top(up)))
  {
    GreatestPowerOfTwoLessThanHalf(n);
    var m := n / 2;
    var c := Run(CleanNet(lo, m, m, up), s);
    forall p | lo <= p < lo + m
      ensures c[p] == (if a <= p < b && a <= p + m < b then Top(up) else Bottom(up))
    {
      CleanAt(s, lo, m, m, up, p);
      assert At(s, p) == s[p] && At(s, p + m) == s[p + m];
      LowHighBinary(up, s[p], s[p + m]);
    }
    forall q | lo + m <= q < lo + n
      ensures c[q] == (if a <= q - m < b || a <= q < b then Top(up) else Bottom(up))
    {
      CleanAt(s, lo, m, m, up, q);
      assert At(s, q - m) == s[q - m] && At(s, q) == s[q];
      LowHighBinary(up, s[q - m], s[q]);
    }
    PeakFirst(c, lo, m, a, b, up);
    PeakSecond(c, lo, m, a, b, up);
  }

  lemma {:induction false} ValleyBitonic(s: seq<int>, lo: nat, hi: nat, up: bool)
    requires Valley(s, lo, hi, up)
    ensures Bitonic01(s, lo, hi)
  {
    var a, b :| Shape(s, lo, hi, a, b, Bottom(up));
  }

  /** The half cleaner of a merge of power-of-two length on any bitonic 0-1 range:
      both halves come out bitonic, one of them entirely on its own side. */
  lemma {:induction false} CleanBitonic(s: seq<int>, lo: nat, n: nat, m: nat, up: bool)
    requires n >= 2 && IsPow2(n) && m == n / 2 && lo + n <= |s| && Bitonic01(s, lo, lo + n)
    ensures var c := Run(CleanNet(lo, n - m, m, up), s);
      && Bitonic01(c, lo, lo + m) && Bitonic01(c, lo + m, lo + n)
      && (AllEq(c, lo, lo + m, Bottom(up)) || AllEq(c, lo + m, lo + n, Top(up)))
  {
    var a, b, v :| Shape(s, lo, lo + n, a, b, v);
    GreatestPowerOfTwoLessThanHalf(n);
    if v == Bottom(up) {
      CleanValley(s, lo, n, m, up);
      ValleyBitonic(Run(CleanNet(lo, n - m, m, up), s), lo + m, lo + n, up);
    } else {
      CleanPeak(s, lo, n, up, a, b);
    }
  }

  /** The last step of a merge level, on the sequences alone: `c` after the half
      cleaner, `c1` after the merge of the first part, `r` after the merge of the
      second part. */
  lemma {:induction false} MergeGlue(c: seq<int>, c1: seq<int>, r: seq<int>, lo: nat, m: nat, n: nat, up: bool)
    requires m <= n && lo + n <= |c| && |c1| == |c| && |r| == |c|
    requires Same(c1, c, lo + m, lo + n) && Same(r, c1, lo, lo + m)
    requires AllEq(c, lo, lo + m, Bottom(up)) ==> AllEq(c1, lo, lo + m, Bottom(up))
    requires AllEq(c1, lo + m, lo + n, Top(up)) ==> AllEq(r, lo + m, lo + n, Top(up))
    requires AllEq(c, lo, lo + m, Bottom(up)) || AllEq(c, lo + m, lo + n, Top(up))
    requires Sorted01(c1, lo, lo + m, up) && Sorted01(r, lo + m, lo + n, up)
    ensures Sorted01(r, lo, lo + n, up)
  {
    Sorted01Same(c1, r, lo, lo + m, up);
    if AllEq(c, lo, lo + m, Bottom(up)) {
      AllEqSame(c1, r, lo, lo + m, Bottom(up));
    } else {
      AllEqSame(c, c1, lo + m, lo + n, Top(up));
    }
    Glue(r, lo, lo + m, lo + n, up);
  }

  /** The merge of the first part of a merge level leaves the second part alone. */
  lemma {:induction false} MergeFirstSame(c: seq<int>, lo: nat, m: nat, n: nat, up: bool)
    requires m <= n && lo + n <= |c|
    ensures Same(Run(MergeNet(lo, m, up), c), c, lo + m, lo + n)
  {
    MergeNetBetween(lo, m, up);
    RunSame(MergeNet(lo, m, up), c, lo, lo + m, lo + m, lo + n);
  }

  /** Each merge of a merge level leaves the other part alone, and keeps its own
      part as it is when every key there is one value. */
  lemma {:induction false} MergeHalvesSame(c: seq<int>, lo: nat, m: nat, n: nat, up: bool)
    requires m <= n && lo + n <= |c|
    ensures var c1 := Run(MergeNet(lo, m, up), c);
      var r := Run(MergeNet(lo + m, n - m, up), c1);
      && Same(c1, c, lo + m, lo + n) && Same(r, c1, lo, lo + m)
      && (AllEq(c, lo, lo + m, Bottom(up)) ==> AllEq(c1, lo, lo + m, Bottom(up)))
      && (AllEq(c1, lo + m, lo + n, Top(up)) ==> AllEq(r, lo + m, lo + n, Top(up)))
  {
    var c1 := Run(MergeNet(lo, m, up), c);
    MergeNetBetween(lo, m, up);
    MergeNetBetween(lo + m, n - m, up);
    RunSame(MergeNet(lo, m, up), c, lo, lo + m, lo + m, lo + n);
    RunSame(MergeNet(lo + m, n - m, up), c1, lo + m, lo + n, lo, lo + m);
    if AllEq(c, lo, lo + m, Bottom(up)) {
      RunAllEq(MergeNet(lo, m, up), c, lo, lo + m, Bottom(up));
    }
    if AllEq(c1, lo + m, lo + n, Top(up)) {
      RunAllEq(MergeNet(lo + m, n - m, up), c1, lo + m, lo + n, Top(up));
    }
  }

  /** One level of `bitonic_merge(lo, n, up)`: the half cleaner, then the merges of
      `[lo, lo + m)` and `[lo + m, lo + n)`.  Whenever the cleaner leaves one part
      entirely on its side and the merges sort both parts, the range ends sorted. */
  lemma {:induction false} MergeLevel(s: seq<int>, lo: nat, n: nat, m: nat, up: bool)
    requires n >= 2 && lo + n <= |s| && m == GreatestPowerOfTwoLessThan(n)
    requires var c := Run(CleanNet(lo, n - m, m, up), s);
      var c1 := Run(MergeNet(lo, m, up), c);
      && (AllEq(c, lo, lo + m, Bottom(up)) || AllEq(c, lo + m, lo + n, Top(up)))
      && Sorted01(c1, lo, lo + m, up)
      && Sorted01(Run(MergeNet(lo + m, n - m, up), c1), lo + m, lo + n, up)
    ensures Sorted01(Run(MergeNet(lo, n, up), s), lo, lo + n, up)
  {
    var c := Run(CleanNet(lo, n - m, m, up), s);
    var c1 := Run(MergeNet(lo, m, up), c);
    MergeRunSplit(s, lo, n, m, up);
    MergeHalvesSame(c, lo, m, n, up);
    MergeGlue(c, c1, Run(MergeNet(lo + m, n - m, up), c1), lo, m, n, up);
  }

  /** A merge of power-of-two length sorts any bitonic 0-1 range. */
  lemma {:induction false} MergeSortsPow2(s: seq<int>, lo: nat, n: nat, up: bool)
    requires IsPow2(n) && lo + n <= |s| && Bitonic01(s, lo, lo + n)
    ensures Sorted01(Run(MergeNet(lo, n, up), s), lo, lo + n, up)
    decreases n
  {
    if n == 1 {
      var a, b, v :| Shape(s, lo, lo + n, a, b, v);
      ShortSorted(s, lo, n, up);
    } else {
      var m := GreatestPowerOfTwoLessThan(n);
      GreatestPowerOfTwoLessThanHalf(n);
      HalfIsPow2(n);
      var c := Run(CleanNet(lo, n - m, m, up), s);
      CleanBitonic(s, lo, n, m, up);
      MergeSortsPow2(c, lo, m, up);
      var c1 := Run(MergeNet(lo, m, up), c);
      MergeFirstSame(c, lo, m, n, up);
      Bitonic01Same(c, c1, lo + m, lo + n);
      MergeSortsPow2(c1, lo + m, n - m, up);
      MergeLevel(s, lo, n, m, up);
    }
  }


  /** A merge of any length sorts a 0-1 valley. */
  lemma {:induction false} MergeSortsValley(s: seq<int>, lo: nat, n: nat, up: bool)
    requires lo + n <= |s| && Valley(s, lo, lo + n, up)
    ensures Sorted01(Run(MergeNet(lo, n, up), s), lo, lo + n, up)
    decreases n
  {
    if n <= 1 {
      var a, b :| Shape(s, lo, lo + n, a, b, Bottom(up));
      ShortSorted(s, lo, n, up);
    } else {
      var m := GreatestPowerOfTwoLessThan(n);
      var c := Run(CleanNet(lo, n - m, m, up), s);
      CleanValley(s, lo, n, m, up);
      GreatestPowerOfTwoLessThanIsPow2(n);
      MergeSortsPow2(c, lo, m, up);
      var c1 := Run(MergeNet(lo, m, up), c);
      MergeFirstSame(c, lo, m, n, up);
      ValleySame(c, c1, lo + m, lo + n, up);
      MergeSortsValley(c1, lo + m, n - m, up);
      MergeLevel(s, lo, n, m, up);
    }
  }

  /** Two halves sorted in opposite directions form a valley. */
  lemma {:induction false} HalvesValley(s: seq<int>, lo: nat, h: nat, n: nat, up: bool)
    requires h <= n && lo + n <= |s| && Sorted01(s, lo, lo + h, !up) && Sorted01(s, lo + h, lo + n, up)
    ensures Valley(s, lo, lo + n, up)
  {
    var a1 :| Shape(s, lo, lo + h, a1, lo + h, Top(!up));
    var a2 :| Shape(s, lo + h, lo + n, a2, lo + n, Top(up));
    assert Shape(s, lo, lo + n, a1, a2, Bottom(up));
  }

  /** One level of `bitonic_sort(lo, n, up)` on the sequences alone: `s1` after
      the sort of the first half, `s2` after the sort of the second, `r` after the
      merge. */
  lemma {:induction false} SortGlue(s: seq<int>, s1: seq<int>, s2: seq<int>, r: seq<int>, lo: nat, h: nat, n: nat, up: bool)
    requires h <= n && lo + n <= |s| && |s1| == |s| && |s2| == |s| && |r| == |s|
    requires Binary(s, lo, lo + n) && Same(s1, s, lo + h, lo + n) && Same(s2, s1, lo, lo + h)
    requires Sorted01(s1, lo, lo + h, !up)
    requires Binary(s1, lo + h, lo + n) ==> Sorted01(s2, lo + h, lo + n, up)
    requires Valley(s2, lo, lo + n, up) ==> Sorted01(r, lo, lo + n, up)
    ensures Sorted01(r, lo, lo + n, up)
  {
    BinarySplit(s, lo, lo + h, lo + n);
    BinarySame(s, s1, lo + h, lo + n);
    Sorted01Same(s1, s2, lo, lo + h, !up);
    HalvesValley(s2, lo, h, n, up);
  }

  /** Each half sort of `bitonic_sort` leaves the other half alone. */
  lemma {:induction false} SortHalvesSame(s: seq<int>, lo: nat, h: nat, n: nat, up: bool)
    requires h <= n && lo + n <= |s|
    ensures var s1 := Run(SortNet(lo, h, !up), s);
      && Same(s1, s, lo + h, lo + n)
      && Same(Run(SortNet(lo + h, n - h, up), s1), s1, lo, lo + h)
  {
    var s1 := Run(SortNet(lo, h, !up), s);
    SortNetBetween(lo, h, !up);
    RunSame(SortNet(lo, h, !up), s, lo, lo + h, lo + h, lo + n);
    SortNetBetween(lo + h, n - h, up);
    RunSame(SortNet(lo + h, n - h, up), s1, lo + h, lo + n, lo, lo + h);
  }

  /** The merge that ends `bitonic_sort` sorts whenever the half sorts left a valley. */
  lemma {:induction false} SortMergeSorts(s: seq<int>, lo: nat, n: nat, up: bool)
    requires n >= 2 && lo + n <= |s|
    ensures var s2 := Run(SortNet(lo + n / 2, n - n / 2, up), Run(SortNet(lo, n / 2, !up), s));
      Valley(s2, lo, lo + n, up) ==> Sorted01(Run(SortNet(lo, n, up), s), lo, lo + n, up)
  {
    var s2 := Run(SortNet(lo + n / 2, n - n / 2, up), Run(SortNet(lo, n / 2, !up), s));
    SortRunSplit(s, lo, n, up);
    if Valley(s2, lo, lo + n, up) {
      MergeSortsValley(s2, lo, n, up);
    }
  }

  /** `bitonic_sort` sorts every 0-1 range: the halves, sorted in opposite
      directions, form a valley, which the merge sorts. */
  lemma {:induction false} SortSorts01(s: seq<int>, lo: nat, n: nat, up: bool)
    requires lo + n <= |s| && Binary(s, lo, lo + n)
    ensures Sorted01(Run(SortNet(lo, n, up), s), lo, lo + n, up)
    decreases n
  {
    if n <= 1 {
      ShortSorted(s, lo, n, up);
    } else {
      var h := n / 2;
      var s1 := Run(SortNet(lo, h, !up), s);
      var s2 := Run(SortNet(lo + h, n - h, up), s1);
      BinarySplit(s, lo, lo + h, lo + n);
      SortSorts01(s, lo, h, !up);
      if Binary(s1, lo + h, lo + n) {
        SortSorts01(s1, lo + h, n - h, up);
      }
      SortSortsStep(s, lo, n, up);
    }
  }

  /** One level of `SortSorts01`, given what the two half sorts achieve. */
  lemma {:induction false} SortSortsStep(s: seq<int>, lo: nat, n: nat, up: bool)
    requires n >= 2 && lo + n <= |s| && Binary(s, lo, lo + n)
    requires Sorted01(Run(SortNet(lo, n / 2, !up), s), lo, lo + n / 2, !up)
    requires var s1 := Run(SortNet(lo, n / 2, !up), s);
      Binary(s1, lo + n / 2, lo + n) ==> Sorted01(Run(SortNet(lo + n / 2, n - n / 2, up), s1), lo + n / 2, lo + n, up)
    ensures Sorted01(Run(SortNet(lo, n, up), s), lo, lo + n, up)
  {
    var h := n / 2;
    var s1 := Run(SortNet(lo, h, !up), s);
    var s2 := Run(SortNet(lo + h, n - h, up), s1);
    SortHalvesSame(s, lo, h, n, up);
    SortMergeSorts(s, lo, n, up);
    SortGlue(s, s1, s2, Run(SortNet(lo, n, up), s), lo, h, n, up);
  }

  /** A threshold map gives zeros and ones. */
  lemma {:induction false} ThresholdBinary(s: seq<int>, t: int, lo: nat, hi: nat)
    requires hi <= |s|
    ensures Binary(Threshold(s, t), lo, hi)
  {
    var th := Threshold(s, t);
    forall p | lo <= p < hi
      ensures At(th, p) == 0 || At(th, p) == 1
    {
      assert At(th, p) == th[p];
    }
  }

  /** If thresholding `r` at the key of the position the order `up` puts first
      of `p < q` gives a sorted 0-1 range, then `r[p]` and `r[q]` are in order. */
  lemma {:induction false} ThresholdOrdered(r: seq<int>, lo: nat, hi: nat, up: bool, p: nat, q: nat)
    requires lo <= p < q < hi <= |r|
    requires Sorted01(Threshold(r, if up then r[p] else r[q]), lo, hi, up)
    ensures Ordered(up, r[p], r[q])
  {
    var th := Threshold(r, if up then r[p] else r[q]);
    Sorted01Sorted(th, lo, hi, up);
    assert Ordered(up, th[p], th[q]);
  }

  /** Thresholding the sorted keys at any `t` gives a sorted 0-1 range. */
  lemma {:induction false} SortThreshold(s: seq<int>, lo: nat, n: nat, up: bool, t: int)
    requires lo + n <= |s|
    ensures Sorted01(Threshold(Run(SortNet(lo, n, up), s), t), lo, lo + n, up)
  {
    SortNetWithin(lo, n, up, |s|);
    RunThreshold(SortNet(lo, n, up), s, t);
    ThresholdBinary(s, t, lo, lo + n);
    SortSorts01(Threshold(s, t), lo, n, up);
  }

  /** Any two positions of the range come out in order. */
  lemma {:induction false} SortNetOrdered(s: seq<int>, lo: nat, n: nat, up: bool, p: nat, q: nat)
    requires lo <= p < q < lo + n <= |s|
    ensures var r := Run(SortNet(lo, n, up), s); Ordered(up, r[p], r[q])
  {
    var r := Run(SortNet(lo, n, up), s);
    SortThreshold(s, lo, n, up, if up then r[p] else r[q]);
    ThresholdOrdered(r, lo, lo + n, up, p, q);
  }

  /** `bitonic_sort(lo, n, up)` leaves `[lo, lo + n)` sorted in direction `up`,
      whatever the keys and whatever `n`. */
  lemma {:induction false} SortNetSorts(s: seq<int>, lo: nat, n: nat, up: bool)
    requires lo + n <= |s|
    ensures SortedRange(Run(SortNet(lo, n, up), s), lo, lo + n, up)
  {
    forall p, q | lo <= p < q < lo + n
      ensures Ordered(up, Run(SortNet(lo, n, up), s)[p], Run(SortNet(lo, n, up), s)[q])
    {
      SortNetOrdered(s, lo, n, up, p, q);
    }
  }

  /** ... holds the keys it started with ... */
  lemma {:induction false} SortNetPermutes(s: seq<int>, lo: nat, n: nat, up: bool)
    ensures multiset(Run(SortNet(lo, n, up), s)) == multiset(s)
  {
    RunMultiset(SortNet(lo, n, up), s);
  }

  /** ... and leaves every position outside the range alone. */
  lemma {:induction false} SortNetFrame(s: seq<int>, lo: nat, n: nat, up: bool)
    requires lo + n <= |s|
    ensures forall p :: 0 <= p < |s| && !(lo <= p < lo + n) ==> Run(SortNet(lo, n, up), s)[p] == s[p]
  {
    SortNetBetween(lo, n, up);
    forall p | 0 <= p < |s| && !(lo <= p < lo + n)
      ensures Run(SortNet(lo, n, up), s)[p] == s[p]
    {
      RunFrame(SortNet(lo, n, up), s, lo, lo + n, p);
    }
  }
}
