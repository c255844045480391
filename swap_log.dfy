/** Swap logs: the ordered record `(decision, i, j)` of every compare-exchange a
    sorting network performed, and `permute`, which replays such a log forward
    (reproducing the reordering) or backward (undoing it) on any array of the
    same length. */
module SwapLog {

  /** One compare-exchange of positions `i` and `j`; `decision` says whether the
      two positions were exchanged. */
  datatype Swap = Swap(decision: bool, i: nat, j: nat)

  /** Every record of `log` addresses positions below `n`. */
  predicate Fits(log: seq<Swap>, n: nat)
  {
    forall k :: 0 <= k < |log| ==> log[k].i < n && log[k].j < n
  }

  /** Every record of `log` compares two positions `lo <= i < j < hi`. */
  predicate Within(log: seq<Swap>, lo: nat, hi: nat)
  {
    forall k :: 0 <= k < |log| ==> lo <= log[k].i < log[k].j < hi
  }

  lemma WithinFits(log: seq<Swap>, lo: nat, hi: nat, n: nat)
    requires Within(log, lo, hi) && hi <= n
    ensures Fits(log, n)
  {
  }

  lemma WithinAppend(l1: seq<Swap>, l2: seq<Swap>, lo: nat, hi: nat)
    requires Within(l1, lo, hi) && Within(l2, lo, hi)
    ensures Within(l1 + l2, lo, hi)
  {
    forall k | 0 <= k < |l1 + l2|
      ensures lo <= (l1 + l2)[k].i < (l1 + l2)[k].j < hi
    {
      if k >= |l1| { assert (l1 + l2)[k] == l2[k - |l1|]; }
    }
  }

  lemma FitsAppend(l1: seq<Swap>, l2: seq<Swap>, n: nat)
    requires Fits(l1, n) && Fits(l2, n)
    ensures Fits(l1 + l2, n)
  {
    forall k | 0 <= k < |l1 + l2|
      ensures (l1 + l2)[k].i < n && (l1 + l2)[k].j < n
    {
      if k >= |l1| { assert (l1 + l2)[k] == l2[k - |l1|]; }
    }
  }

  /** The conditional exchange one record performs. A record naming a position
      outside `s` leaves it unchanged (every log a sort produces fits its array). */
  function Exchange<T>(s: seq<T>, r: Swap): (t: seq<T>)
    ensures |t| == |s|
  {
    if r.decision && r.i < |s| && r.j < |s| then s[r.i := s[r.j]][r.j := s[r.i]] else s
  }

  /** An exchange moves the two elements it names and no other. */
  lemma ExchangeAt<T>(s: seq<T>, r: Swap)
    requires r.i < |s| && r.j < |s|
    ensures var t := Exchange(s, r);
      && t[r.i] == (if r.decision then s[r.j] else s[r.i])
      && t[r.j] == (if r.decision then s[r.i] else s[r.j])
      && forall p :: 0 <= p < |s| && p != r.i && p != r.j ==> t[p] == s[p]
  {
  }

  lemma ExchangeMultiset<T>(s: seq<T>, r: Swap)
    ensures multiset(Exchange(s, r)) == multiset(s)
  {
    if r.decision && r.i < |s| && r.j < |s| && r.i != r.j {
      var t := s[r.i := s[r.j]];
      assert multiset(t) == multiset(s) - multiset{s[r.i]} + multiset{s[r.j]};
    }
  }

  /** An exchange is its own inverse. */
  lemma ExchangeInvolution<T>(s: seq<T>, r: Swap)
    ensures Exchange(Exchange(s, r), r) == s
  {
  }

  /** `permute(log, arr)`: replay the log from its first record to its last. */
  function Permute<T>(log: seq<Swap>, s: seq<T>): (t: seq<T>)
    ensures |t| == |s|
    decreases |log|
  {
    if log == [] then s else Permute(log[1..], Exchange(s, log[0]))
  }

  /** `permute(log, arr, true)`: replay the log from its last record to its first. */
  function Unpermute<T>(log: seq<Swap>, s: seq<T>): (t: seq<T>)
    ensures |t| == |s|
    decreases |log|
  {
    if log == [] then s else Unpermute(log[..|log| - 1], Exchange(s, log[|log| - 1]))
  }

  lemma {:induction false} PermuteAppend<T>(l1: seq<Swap>, l2: seq<Swap>, s: seq<T>)
    ensures Permute(l1 + l2, s) == Permute(l2, Permute(l1, s))
    decreases |l1|
  {
    if l1 == [] {
      assert l1 + l2 == l2;
    } else {
      assert (l1 + l2)[0] == l1[0];
      assert (l1 + l2)[1..] == l1[1..] + l2;
      PermuteAppend(l1[1..], l2, Exchange(s, l1[0]));
    }
  }

  lemma {:induction false} UnpermuteAppend<T>(l1: seq<Swap>, l2: seq<Swap>, s: seq<T>)
    ensures Unpermute(l1 + l2, s) == Unpermute(l1, Unpermute(l2, s))
    decreases |l2|
  {
    if l2 == [] {
      assert l1 + l2 == l1;
    } else {
      var l, init, x := l1 + l2, l2[..|l2| - 1], Exchange(s, l2[|l2| - 1]);
      assert l[..|l| - 1] == l1 + init;
      assert l[|l| - 1] == l2[|l2| - 1];
      assert Unpermute(l, s) == Unpermute(l1 + init, x);
      assert Unpermute(l2, s) == Unpermute(init, x);
      UnpermuteAppend(l1, init, x);
    }
  }

  /** Replaying one more record forward is one more exchange. */
  lemma PermuteSnoc<T>(log: seq<Swap>, r: Swap, s: seq<T>)
    ensures Permute(log + [r], s) == Exchange(Permute(log, s), r)
  {
    PermuteAppend(log, [r], s);
  }

  /** Replaying one more record backward exchanges it last. */
  lemma UnpermuteCons<T>(r: Swap, log: seq<Swap>, s: seq<T>)
    ensures Unpermute([r] + log, s) == Exchange(Unpermute(log, s), r)
  {
    UnpermuteAppend([r], log, s);
  }

  /** Undo round trip: replaying backward restores what replaying forward produced. */
  lemma {:induction false} UndoPermute<T>(log: seq<Swap>, s: seq<T>)
    ensures Unpermute(log, Permute(log, s)) == s
    decreases |log|
  {
    if log != [] {
      var x := Exchange(s, log[0]);
      UndoPermute(log[1..], x);
      assert log == [log[0]] + log[1..];
      UnpermuteCons(log[0], log[1..], Permute(log[1..], x));
      ExchangeInvolution(s, log[0]);
    }
  }

  /** And the other way round: replaying forward redoes what replaying backward undid. */
  lemma {:induction false} RedoPermute<T>(log: seq<Swap>, s: seq<T>)
    ensures Permute(log, Unpermute(log, s)) == s
    decreases |log|
  {
    if log != [] {
      var n := |log| - 1;
      var x := Exchange(s, log[n]);
      RedoPermute(log[..n], x);
      assert log == log[..n] + [log[n]];
      PermuteSnoc(log[..n], log[n], Unpermute(log[..n], x));
      ExchangeInvolution(s, log[n]);
    }
  }

  /** Replaying a log only reorders: the multiset of elements is unchanged. */
  lemma {:induction false} PermuteMultiset<T>(log: seq<Swap>, s: seq<T>)
    ensures multiset(Permute(log, s)) == multiset(s)
    decreases |log|
  {
    if log != [] {
      ExchangeMultiset(s, log[0]);
      PermuteMultiset(log[1..], Exchange(s, log[0]));
    }
  }

  lemma {:induction false} UnpermuteMultiset<T>(log: seq<Swap>, s: seq<T>)
    ensures multiset(Unpermute(log, s)) == multiset(s)
    decreases |log|
  {
    if log != [] {
      ExchangeMultiset(s, log[|log| - 1]);
      UnpermuteMultiset(log[..|log| - 1], Exchange(s, log[|log| - 1]));
    }
  }

  /** Elementwise application of `f`. */
  function Map<A, B>(f: A -> B, s: seq<A>): (t: seq<B>)
    ensures |t| == |s|
    ensures forall p :: 0 <= p < |s| ==> t[p] == f(s[p])
  {
    seq(|s|, p requires 0 <= p < |s| => f(s[p]))
  }

  /** A log moves elements without looking at them, so it commutes with any map. */
  lemma {:induction false} PermuteMap<A, B>(log: seq<Swap>, f: A -> B, s: seq<A>)
    ensures Permute(log, Map(f, s)) == Map(f, Permute(log, s))
    decreases |log|
  {
    if log != [] {
      assert Exchange(Map(f, s), log[0]) == Map(f, Exchange(s, log[0]));
      PermuteMap(log[1..], f, Exchange(s, log[0]));
    }
  }

  lemma {:induction false} UnpermuteMap<A, B>(log: seq<Swap>, f: A -> B, s: seq<A>)
    ensures Unpermute(log, Map(f, s)) == Map(f, Unpermute(log, s))
    decreases |log|
  {
    if log != [] {
      var r := log[|log| - 1];
      assert Exchange(Map(f, s), r) == Map(f, Exchange(s, r));
      UnpermuteMap(log[..|log| - 1], f, Exchange(s, r));
    }
  }

  /** A log that fits a prefix acts on that prefix alone. */
  lemma {:induction false} PermutePrefix<T>(log: seq<Swap>, s: seq<T>, n: nat)
    requires n <= |s| && Fits(log, n)
    ensures Permute(log, s)[..n] == Permute(log, s[..n])
    ensures Permute(log, s)[n..] == s[n..]
    decreases |log|
  {
    if log != [] {
      var x := Exchange(s, log[0]);
      assert x[..n] == Exchange(s[..n], log[0]);
      assert x[n..] == s[n..];
      PermutePrefix(log[1..], x, n);
    }
  }

  lemma {:induction false} UnpermutePrefix<T>(log: seq<Swap>, s: seq<T>, n: nat)
    requires n <= |s| && Fits(log, n)
    ensures Unpermute(log, s)[..n] == Unpermute(log, s[..n])
    ensures Unpermute(log, s)[n..] == s[n..]
    decreases |log|
  {
    if log != [] {
      var r := log[|log| - 1];
      var x := Exchange(s, r);
      assert x[..n] == Exchange(s[..n], r);
      assert x[n..] == s[n..];
      UnpermutePrefix(log[..|log| - 1], x, n);
    }
  }

  /** The positions `0 .. n-1`. */
  function Iota(n: nat): (t: seq<nat>)
    ensures |t| == n
    ensures forall p :: 0 <= p < n ==> t[p] == p
  {
    seq(n, p requires 0 <= p < n => p)
  }

  /** No two positions of `s` hold the same value. */
  predicate Distinct<T(==)>(s: seq<T>)
  {
    forall p, q :: 0 <= p < |s| && 0 <= q < |s| && p != q ==> s[p] != s[q]
  }

  /** Replaying a log keeps distinct elements distinct. */
  lemma {:induction false} PermuteDistinct<T>(log: seq<Swap>, s: seq<T>)
    requires Distinct(s)
    ensures Distinct(Permute(log, s))
    decreases |log|
  {
    if log != [] {
      var x := Exchange(s, log[0]);
      assert Distinct(x) by {
        forall p, q | 0 <= p < |x| && 0 <= q < |x| && p != q
          ensures x[p] != x[q]
        {
          var r := log[0];
          var e := r.decision && r.i < |s| && r.j < |s|;
          var p' := if e && p == r.i then r.j else if e && p == r.j then r.i else p;
          var q' := if e && q == r.i then r.j else if e && q == r.j then r.i else q;
          assert x[p] == s[p'] && x[q] == s[q'];
        }
      }
      PermuteDistinct(log[1..], x);
    }
  }

  /** Replaying a log keeps every element within a bound. */
  lemma {:induction false} PermuteBounded(log: seq<Swap>, s: seq<nat>, n: nat)
    requires forall p :: 0 <= p < |s| ==> s[p] < n
    ensures forall p :: 0 <= p < |s| ==> Permute<nat>(log, s)[p] < n
    decreases |log|
  {
    if log != [] {
      PermuteBounded(log[1..], Exchange(s, log[0]), n);
    }
  }

  /** Replaying a log moves position `IndexMap(log, n)[p]` of any array to position `p`. */
  function IndexMap(log: seq<Swap>, n: nat): (sigma: seq<nat>)
    ensures |sigma| == n
    ensures forall p :: 0 <= p < n ==> sigma[p] < n
    ensures Distinct(sigma)
  {
    var iota := Iota(n);
    PermuteBounded(log, iota, n);
    PermuteDistinct(log, iota);
    Permute<nat>(log, iota)
  }

  /** Replaying a log is the permutation of positions given by `IndexMap`. */
  lemma {:induction false} PermuteAt<T>(log: seq<Swap>, s: seq<T>, p: nat)
    requires p < |s|
    ensures Permute(log, s)[p] == s[IndexMap(log, |s|)[p]]
    decreases |log|
  {
    if log != [] {
      var r, n := log[0], |s|;
      var x, ix := Exchange(s, r), Exchange(Iota(n), r);
      PermuteAt(log[1..], x, p);
      var q := IndexMap(log[1..], n)[p];
      assert x[q] == s[ix[q]];
      PermuteAt(log[1..], ix, p);
      assert IndexMap(log, n) == Permute(log[1..], ix);
    }
  }
}
