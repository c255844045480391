// The sort context of a FABLE lookup (src/GC/lookup.cpp): the reference
// order `sort_reference` that lines the deduplicated queries up with the
// cuckoo buckets, and what its clear-key sort does to any column.

module LookupContext {
  import opened SwapLog
  import opened BitonicNetwork
  import opened SortSpec
  import Sort

  // ---------------------------------------------------------------------------
  // Sets of buckets

  /** The elements of a sequence. */
  function Elems(s: seq<int>): (e: set<int>)
    ensures forall x :: x in e <==> x in s
  {
    set x | x in s
  }

  lemma {:induction false} DistinctCard(s: seq<int>)
    requires Distinct(s)
    ensures |Elems(s)| == |s|
  {
    if s != [] {
      var init := s[..|s| - 1];
      assert Distinct(init) by {
        forall p, q | 0 <= p < |init| && 0 <= q < |init| && p != q
          ensures init[p] != init[q]
        {
          assert init[p] == s[p] && init[q] == s[q];
        }
      }
      DistinctCard(init);
      assert s == init + [s[|s| - 1]];
      assert Elems(s) == Elems(init) + {s[|s| - 1]};
      assert s[|s| - 1] !in Elems(init);
    }
  }

  /** The buckets `0 .. n - 1`, in order. */
  function Buckets(n: nat): (b: seq<int>)
    ensures |b| == n && forall p :: 0 <= p < n ==> b[p] == p
  {
    seq(n, p requires 0 <= p < n => p)
  }

  /** The set of buckets `0 .. n - 1`. */
  function Range(n: nat): (r: set<int>)
    ensures forall x :: x in r <==> 0 <= x < n
  {
    var b := Buckets(n);
    assert forall x :: 0 <= x < n ==> x in b by {
      forall x | 0 <= x < n
        ensures x in b
      {
        assert b[x] == x;
      }
    }
    Elems(b)
  }

  lemma RangeCard(n: nat)
    ensures |Range(n)| == n
  {
    var b := Buckets(n);
    DistinctCard(b);
    assert Range(n) == Elems(b);
  }

  // ---------------------------------------------------------------------------
  // The dummy buckets

  /** Every element is smaller than every later one. */
  predicate Increasing(s: seq<int>)
  {
    forall p, q :: 0 <= p < q < |s| ==> s[p] < s[q]
  }

  /** `dummy_buckets`: the buckets below `n` that the cuckoo map leaves empty, in
      ascending order (the order in which a `std::set` is copied into a vector). */
  function Absent(keys: set<int>, n: nat): (d: seq<int>)
  {
    if n == 0 then []
    else Absent(keys, n - 1) + (if n - 1 in keys then [] else [n - 1])
  }

  /** The dummy buckets are exactly the empty buckets, each once, ascending. */
  lemma {:induction false} AbsentSpec(keys: set<int>, n: nat)
    ensures var d := Absent(keys, n);
      && Increasing(d)
      && (forall p :: 0 <= p < |d| ==> 0 <= d[p] < n && d[p] !in keys)
      && (forall x :: 0 <= x < n && x !in keys ==> x in d)
  {
    if n > 0 {
      AbsentSpec(keys, n - 1);
    }
  }

  /** The loop over `bucket_idx` that collects `dummy_buckets`. */
  method DummyBuckets(keys: set<int>, n: nat) returns (dummies: seq<int>)
    ensures dummies == Absent(keys, n)
  {
    dummies := [];
    for b := 0 to n
      invariant dummies == Absent(keys, b)
    {
      if b !in keys {
        dummies := dummies + [b];
      }
    }
  }

  // ---------------------------------------------------------------------------
  // `sort_reference`

  /** `inv_cuckoo_map[i]`: the bucket the cuckoo table gave query `i`; a missing
      entry reads as 0. */
  function InvAt(inv: map<int, int>, i: int): int
  {
    if i in inv then inv[i] else 0
  }

  /** The buckets of the first `batch` queries. */
  function Heads(inv: map<int, int>, batch: nat): (h: seq<int>)
    ensures |h| == batch
  {
    seq(batch, i requires 0 <= i < batch => InvAt(inv, i))
  }

  /** BOB's `sort_reference`: the query buckets, then as many dummy buckets as
      fill it to `num_bucket`. */
  function SortReference(inv: map<int, int>, keys: set<int>, batch: nat, n: nat): (r: seq<int>)
    requires batch <= n && n - batch <= |Absent(keys, n)|
    ensures |r| == n
  {
    Heads(inv, batch) + Absent(keys, n)[..n - batch]
  }

  /** The cuckoo map places the first `batch` queries in distinct buckets below
      `n` and holds no other bucket. */
  predicate CuckooPlacement(inv: map<int, int>, keys: set<int>, batch: nat, n: nat)
  {
    && Distinct(Heads(inv, batch))
    && Elems(Heads(inv, batch)) == keys
    && (forall k :: k in keys ==> 0 <= k < n)
  }

  /** Under a cuckoo placement, there are exactly enough dummy buckets and
      `sort_reference` is a permutation of the buckets `0 .. n - 1`: it has
      `n` distinct entries, all buckets, and every bucket occurs. */
  lemma {:induction false} SortReferencePermutation(inv: map<int, int>, keys: set<int>, batch: nat, n: nat)
    requires batch <= n && CuckooPlacement(inv, keys, batch, n)
    ensures |Absent(keys, n)| == n - batch
    ensures var r := SortReference(inv, keys, batch, n);
      && Distinct(r)
      && (forall p :: 0 <= p < n ==> 0 <= r[p] < n)
      && (forall x :: 0 <= x < n ==> x in r)
  {
    var full := Heads(inv, batch) + Absent(keys, n);
    AbsentSpec(keys, n);
    FullDistinct(inv, keys, batch, n);
    FullElems(inv, keys, batch, n);
    DistinctCard(full);
    RangeCard(n);
    var d := Absent(keys, n);
    assert d[..n - batch] == d;
    assert SortReference(inv, keys, batch, n) == full;
    forall p | 0 <= p < n
      ensures 0 <= full[p] < n
    {
      assert full[p] in Elems(full);
    }
  }

  lemma FullDistinct(inv: map<int, int>, keys: set<int>, batch: nat, n: nat)
    requires batch <= n && CuckooPlacement(inv, keys, batch, n)
    ensures Distinct(Heads(inv, batch) + Absent(keys, n))
  {
    var heads, d := Heads(inv, batch), Absent(keys, n);
    var full := heads + d;
    AbsentSpec(keys, n);
    forall p, q | 0 <= p < |full| && 0 <= q < |full| && p != q
      ensures full[p] != full[q]
    {
      if p < batch && q < batch {
        assert full[p] == heads[p] && full[q] == heads[q];
      } else if p < batch {
        assert full[p] in Elems(heads) && full[q] == d[q - batch];
      } else if q < batch {
        assert full[q] in Elems(heads) && full[p] == d[p - batch];
      } else {
        assert full[p] == d[p - batch] && full[q] == d[q - batch];
      }
    }
  }

  lemma FullElems(inv: map<int, int>, keys: set<int>, batch: nat, n: nat)
    requires batch <= n && CuckooPlacement(inv, keys, batch, n)
    ensures Elems(Heads(inv, batch) + Absent(keys, n)) == Range(n)
  {
    FullCovers(inv, keys, batch, n);
    FullWithin(inv, keys, batch, n);
  }

  lemma FullCovers(inv: map<int, int>, keys: set<int>, batch: nat, n: nat)
    requires batch <= n && CuckooPlacement(inv, keys, batch, n)
    ensures Range(n) <= Elems(Heads(inv, batch) + Absent(keys, n))
  {
    var heads, d := Heads(inv, batch), Absent(keys, n);
    AbsentSpec(keys, n);
    forall x | x in Range(n)
      ensures x in heads + d
    {
      if x in keys {
        assert x in Elems(heads);
      } else {
        assert x in d;
      }
    }
  }

  lemma FullWithin(inv: map<int, int>, keys: set<int>, batch: nat, n: nat)
    requires batch <= n && CuckooPlacement(inv, keys, batch, n)
    ensures Elems(Heads(inv, batch) + Absent(keys, n)) <= Range(n)
  {
    var heads, d := Heads(inv, batch), Absent(keys, n);
    var full := heads + d;
    AbsentSpec(keys, n);
    forall p | 0 <= p < |full|
      ensures 0 <= full[p] < n
    {
      if p < batch {
        assert full[p] == heads[p] && heads[p] in Elems(heads);
      } else {
        assert full[p] == d[p - batch];
      }
    }
  }

  /** `n` buckets that nobody filled in. */
  function Unfilled(n: nat): (r: seq<int>)
    ensures |r| == n && forall p :: 0 <= p < n ==> r[p] == 0
  {
    if n == 0 then [] else Unfilled(n - 1) + [0]
  }

  /** The `sort_reference` a party holds: BOB fills it in, ALICE's stays zero. */
  function Reference(party: int, inv: map<int, int>, keys: set<int>, batch: nat, n: nat): (r: seq<int>)
    requires party == Sort.BOB ==> batch <= n && n - batch <= |Absent(keys, n)|
    ensures |r| == n
  {
    if party == Sort.BOB then SortReference(inv, keys, batch, n) else Unfilled(n)
  }

  /** `vector<int> sort_reference(num_bucket, 0)`, filled by BOB. */
  method BuildSortReference(party: int, inv: map<int, int>, keys: set<int>, batch: nat, n: nat)
      returns (sortRef: array<int>)
    requires party == Sort.BOB ==> batch <= n && n - batch <= |Absent(keys, n)|
    ensures fresh(sortRef) && sortRef[..] == Reference(party, inv, keys, batch, n)
  {
    sortRef := new int[n](_ => 0);
    if party == Sort.BOB {
      var dummies := DummyBuckets(keys, n);
      for i := 0 to batch
        invariant forall p :: 0 <= p < i ==> sortRef[p] == InvAt(inv, p)
      {
        sortRef[i] := InvAt(inv, i);
      }
      for i := batch to n
        invariant forall p :: 0 <= p < batch ==> sortRef[p] == InvAt(inv, p)
        invariant forall p :: batch <= p < i ==> sortRef[p] == dummies[p - batch]
      {
        sortRef[i] := dummies[i - batch];
      }
      assert sortRef[..] == SortReference(inv, keys, batch, n);
    }
    assert sortRef[..] == Reference(party, inv, keys, batch, n);
  }

  // ---------------------------------------------------------------------------
  // What the sort of `sort_reference` does

  /** A non-decreasing sequence of `n` distinct buckets below `n` is `0 .. n - 1`. */
  lemma {:induction false} SortedBucketsAreIota(t: seq<int>, n: nat)
    requires |t| == n && Distinct(t) && SortedRange(t, 0, n, true)
    requires forall p :: 0 <= p < n ==> 0 <= t[p] < n
    ensures forall p :: 0 <= p < n ==> t[p] == p
  {
    forall p | 0 <= p < n
      ensures t[p] == p
    {
      StrictStep(t, n, 0, p);
      StrictStep(t, n, p, n - 1);
    }
  }

  lemma {:induction false} StrictStep(t: seq<int>, n: nat, p: nat, q: nat)
    requires |t| == n && Distinct(t) && SortedRange(t, 0, n, true)
    requires p <= q < n
    ensures t[q] - t[p] >= q - p
    decreases q - p
  {
    if p < q {
      StrictStep(t, n, p + 1, q);
      assert t[p] <= t[p + 1] && t[p] != t[p + 1];
    }
  }

  /** BOB's log for the clear-key sort of `sort_reference`. */
  function ContextLog(sortRef: seq<int>): seq<Swap>
  {
    var t := Exec(SortRange(0, |sortRef|, true), sortRef);
    Sort.Promote(t.log, Sort.Decisions(t.log))
  }

  /** The log `sort(sort_reference, num_bucket, BOB)` leaves with a party: the
      positions its own buffer records, with the decisions BOB feeds (BOB's own,
      or `peer` at ALICE). */
  function PartyLog(party: int, inv: map<int, int>, keys: set<int>, batch: nat, n: nat, peer: seq<bool>): seq<Swap>
    requires party == Sort.BOB ==> batch <= n && n - batch <= |Absent(keys, n)|
    requires party != Sort.BOB ==> |peer| == |Exec(SortRange(0, n, true), Unfilled(n)).log|
  {
    var t := Exec(SortRange(0, n, true), Reference(party, inv, keys, batch, n));
    Sort.Promote(t.log, if party == Sort.BOB then Sort.Decisions(t.log) else peer)
  }

  /** Both parties end with BOB's log: BOB's own is `ContextLog` of BOB's reference,
      and ALICE, fed BOB's decisions, promotes ALICE's buffer to the same log. */
  lemma PartiesAgree(party: int, inv: map<int, int>, keys: set<int>, batch: nat, n: nat, peer: seq<bool>)
    requires batch <= n && n - batch <= |Absent(keys, n)|
    requires party != Sort.BOB ==>
      peer == Sort.Decisions(Exec(SortRange(0, n, true), SortReference(inv, keys, batch, n)).log)
    ensures party != Sort.BOB ==> |peer| == |Exec(SortRange(0, n, true), Unfilled(n)).log|
    ensures PartyLog(party, inv, keys, batch, n, peer) == ContextLog(SortReference(inv, keys, batch, n))
  {
    Sort.ClearSortAgrees(Unfilled(n), SortReference(inv, keys, batch, n), n, true);
  }

  /** When `sort_reference` is a permutation of the buckets, its sort log moves
      whatever sits at position `i` to bucket `sort_reference[i]`, and replaying
      it backward brings it back: `permute(sort_res, x)` puts query `i` in
      bucket `inv_cuckoo_map[i]`, and `permute(sort_res, result, true)` reads
      bucket `inv_cuckoo_map[i]` into position `i`. */
  lemma {:induction false} ContextAligns<T>(sortRef: seq<int>, x: seq<T>, i: nat)
    requires |x| == |sortRef| && i < |sortRef| && Distinct(sortRef)
    requires forall p :: 0 <= p < |sortRef| ==> 0 <= sortRef[p] < |sortRef|
    ensures 0 <= sortRef[i] < |x|
    ensures Permute(ContextLog(sortRef), x)[sortRef[i]] == x[i]
    ensures Unpermute(ContextLog(sortRef), x)[i] == x[sortRef[i]]
  {
    var n := |sortRef|;
    var log := ContextLog(sortRef);
    var t := Exec(SortRange(0, n, true), sortRef);
    Sort.ClearSortSorts(sortRef, n, true);
    PermuteDistinct(log, sortRef);
    forall p | 0 <= p < n
      ensures 0 <= t.key[p] < n
    {
      PermuteAt(log, sortRef, p);
    }
    SortedBucketsAreIota(t.key, n);
    MovesTo(log, sortRef, x, i);
    var y := Unpermute(log, x);
    RedoPermute(log, x);
    MovesTo(log, sortRef, y, i);
  }

  lemma MovesTo<T>(log: seq<Swap>, sortRef: seq<int>, x: seq<T>, i: nat)
    requires |x| == |sortRef| && i < |sortRef| && Distinct(sortRef)
    requires forall p :: 0 <= p < |sortRef| ==> Permute(log, sortRef)[p] == p
    requires 0 <= sortRef[i] < |sortRef|
    ensures Permute(log, x)[sortRef[i]] == x[i]
  {
    var n, b := |sortRef|, sortRef[i];
    var sigma := IndexMap(log, n);
    PermuteAt(log, sortRef, b);
    PermuteAt(log, x, b);
    assert sortRef[sigma[b]] == b;
  }
}
