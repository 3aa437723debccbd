/**
 fs/mount.rs: walks along the tail list, guarded against cycles by a tortoise
 that is left behind at ever longer intervals.
 */
module Tortoise {
  import opened Util
  import opened Fetch
  import opened GState

  predicate IsNull(p: Pair) { p.first == BLOCK_NULL || p.second == BLOCK_NULL }

  // The two orders of the blocks of a pair name the same directory.
  function Blocks(p: Pair): set<bv32> { {p.first, p.second} }

  lemma BlocksInSync(p: Pair, q: Pair)
    ensures InSync(p, q) <==> Blocks(p) == Blocks(q)
  {
    if Blocks(p) == Blocks(q) {
      assert p.first in Blocks(q) && p.second in Blocks(q) && q.first in Blocks(p) && q.second in Blocks(p);
    }
  }

  // Every directory has a tail; the tails lead to directories or are null.
  type Tails = map<set<bv32>, Pair>

  ghost predicate Closed(tails: Tails) {
    forall p :: p in tails ==> BLOCK_NULL !in p && (IsNull(tails[p]) || Blocks(tails[p]) in tails)
  }

  // the n-th pair of the walk; it stays at the null pair that ends it
  function Walk(tails: Tails, start: Pair, n: nat): Pair {
    if n == 0 then start
    else
      var p := Walk(tails, start, n - 1);
      if Blocks(p) in tails then tails[Blocks(p)] else p
  }

  class Hare {
    var pair: Pair
    var i: nat
    var period: nat

    constructor ()
      ensures pair == NO_PAIR && i == 1 && period == 1
    {
      pair, i, period := NO_PAIR, 1, 1;
    }

    // lfs_tortoise_detectcycles
    method Detect(tail: Pair) returns (cycle: bool)
      modifies this
      ensures cycle <==> InSync(tail, old(pair))
      ensures cycle ==> pair == old(pair)
      ensures !cycle ==>
                if old(i) == old(period) then pair == tail && i == 1 && period == 2 * old(period)
                else pair == old(pair) && i == old(i) + 1 && period == old(period)
    {
      if InSync(tail, pair) {
        return true;
      }
      if i == period {
        pair, i, period := tail, 0, 2 * period;
      }
      i := i + 1;
      return false;
    }
  }

  // where on the walk the tortoise is when the n-th pair is looked at
  function Left(n: nat): int { Pow2(Log2(n + 1)) - 2 }

  lemma LeftIs(n: nat, j: nat)
    requires n > 0 && Pow2(j) - 2 < n <= 2 * Pow2(j) - 2
    ensures Left(n) == Pow2(j) - 2
  {
    Log2Unique(n + 1, j);
  }

  // Once the walk repeats itself it does so for ever.
  lemma {:induction false} Repeats(tails: Tails, start: Pair, i: nat, j: nat, k: nat)
    requires InSync(Walk(tails, start, i), Walk(tails, start, j))
    ensures InSync(Walk(tails, start, i + k), Walk(tails, start, j + k))
  {
    if k > 0 {
      Repeats(tails, start, i, j, k - 1);
      BlocksInSync(Walk(tails, start, i + k - 1), Walk(tails, start, j + k - 1));
    }
  }

  // ----- how soon a cycle is met -----

  // No pair up to the n-th was where the tortoise was at the time.
  ghost predicate Unmet(tails: Tails, start: Pair, n: nat) {
    forall k :: 0 < k < n ==> Left(k) >= 0 && !InSync(Walk(tails, start, k), Walk(tails, start, Left(k)))
  }

  // A cycle of length `cycle` entered after `lead` pairs is met by then.
  lemma MetInTime(tails: Tails, start: Pair, lead: nat, cycle: nat, n: nat)
    requires cycle > 0 && InSync(Walk(tails, start, lead), Walk(tails, start, lead + cycle))
    requires n > 3 * (lead + cycle) + 2
    ensures !Unmet(tails, start, n)
  {
    hide Walk;
    var m := if lead + 2 > cycle then lead + 2 else cycle;
    var j := Log2(m - 1) + 1;
    Log2Bounds(m - 1);
    var k := Pow2(j) - 2 + cycle;
    assert Pow2(j) == 2 * Pow2(j - 1);
    LeftIs(k, j);
    Repeats(tails, start, lead, lead + cycle, Pow2(j) - 2 - lead);
    assert 0 < k < n && InSync(Walk(tails, start, k), Walk(tails, start, Left(k)));
  }

  // ----- a walk longer than the directories repeats itself -----

  lemma {:induction false} Pigeonhole(s: seq<set<bv32>>, all: set<set<bv32>>) returns (i: nat, j: nat)
    requires |s| > |all| && forall k :: 0 <= k < |s| ==> s[k] in all
    ensures i < j < |s| && s[i] == s[j]
    decreases |s|
  {
    var n := |s| - 1;
    if k :| 0 <= k < n && s[k] == s[n] {
      return k, n;
    }
    i, j := Pigeonhole(s[..n], all - {s[n]});
  }

  lemma {:induction false} StaysInside(tails: Tails, start: Pair, n: nat)
    requires Closed(tails) && (IsNull(start) || Blocks(start) in tails)
    ensures IsNull(Walk(tails, start, n)) || Blocks(Walk(tails, start, n)) in tails
  {
    if n > 0 { StaysInside(tails, start, n - 1); }
  }

  lemma {:induction false} NullStays(tails: Tails, start: Pair, n: nat, k: nat)
    requires Closed(tails) && IsNull(Walk(tails, start, n))
    ensures Walk(tails, start, n + k) == Walk(tails, start, n)
  {
    if k > 0 {
      NullStays(tails, start, n, k - 1);
      NullBlocks(Walk(tails, start, n));
    }
  }

  lemma NullBlocks(p: Pair)
    ensures IsNull(p) <==> BLOCK_NULL in Blocks(p)
  {}

  function Trail(tails: Tails, start: Pair, n: nat): (s: seq<set<bv32>>)
    ensures |s| == n
  {
    seq(n, (k: nat) => Blocks(Walk(tails, start, k)))
  }

  lemma Revisits(tails: Tails, start: Pair) returns (i: nat, j: nat)
    requires Closed(tails) && (IsNull(start) || Blocks(start) in tails)
    requires forall k :: 0 <= k <= |tails| ==> !IsNull(Walk(tails, start, k))
    ensures i < j <= |tails| && InSync(Walk(tails, start, i), Walk(tails, start, j))
  {
    hide Walk, Closed, Blocks, InSync, IsNull;
    var s := Trail(tails, start, |tails| + 1);
    forall k | 0 <= k < |s| ensures s[k] in tails.Keys {
      StaysInside(tails, start, k);
    }
    i, j := Pigeonhole(s, tails.Keys);
    BlocksInSync(Walk(tails, start, i), Walk(tails, start, j));
  }

  // While neither a null pair nor the tortoise has been met the walk is short.
  lemma Short(tails: Tails, start: Pair, n: nat)
    requires Closed(tails) && (IsNull(start) || Blocks(start) in tails)
    requires (forall k :: 0 <= k < n ==> !IsNull(Walk(tails, start, k))) && Unmet(tails, start, n)
    ensures n <= 3 * |tails| + 2
  {
    hide Walk, Closed, Blocks, InSync, IsNull, Unmet;
    if n > 3 * |tails| + 2 {
      var i, j := Revisits(tails, start);
      MetInTime(tails, start, i, j - i, n);
    }
  }

  // The walk of lfs_mount_: it ends at a null pair or is told of a cycle,
  // within three times as many steps as there are directories. It is told of
  // one if and only if the list never ends; else it has seen the whole list.
  method WalkTails(tails: Tails, start: Pair) returns (cycle: bool, visited: seq<Pair>)
    requires Closed(tails) && (IsNull(start) || Blocks(start) in tails)
    ensures |visited| <= 3 * |tails| + 2
    ensures forall k :: 0 <= k < |visited| ==> visited[k] == Walk(tails, start, k) && !IsNull(visited[k])
    ensures cycle <==> forall n :: !IsNull(Walk(tails, start, n))
    ensures !cycle ==> IsNull(Walk(tails, start, |visited|))
  {
    hide Walk, Closed, InSync, Unmet, Log2, Pow2;
    var hare := new Hare();
    var tail := start;
    visited := [];
    cycle := false;
    FirstStep(tails, start);
    while !IsNull(tail)
      invariant tail == Walk(tails, start, |visited|)
      invariant forall k :: 0 <= k < |visited| ==> visited[k] == Walk(tails, start, k) && !IsNull(visited[k])
      invariant Unmet(tails, start, |visited|)
      invariant Placed(tails, start, |visited|, hare.pair, hare.i, hare.period)
      invariant |visited| <= 3 * |tails| + 2
      decreases 3 * |tails| + 2 - |visited|
    {
      var n := |visited|;
      ghost var pair, i, period := hare.pair, hare.i, hare.period;
      cycle := hare.Detect(tail);
      if cycle {
        NeverEnds(tails, start, n, pair, i, period);
        return;
      }
      PlacedNext(tails, start, n, pair, i, period, hare.pair, hare.i, hare.period);
      visited := visited + [tail];
      StaysInside(tails, start, n);
      assert Blocks(tail) in tails;
      tail := tails[Blocks(tail)];
      WalkNext(tails, start, n);
      Short(tails, start, n + 1);
    }
  }

  // where the tortoise is before the n-th pair is looked at
  ghost predicate Placed(tails: Tails, start: Pair, n: nat, pair: Pair, i: nat, period: nat) {
    if n == 0 then pair == NO_PAIR && i == 1 && period == 1
    else Left(n) >= 0 && pair == Walk(tails, start, Left(n)) && i == n - Left(n) && period == Left(n) + 2
  }

  lemma FirstStep(tails: Tails, start: Pair)
    ensures Walk(tails, start, 0) == start && Unmet(tails, start, 0) && Unmet(tails, start, 1)
  {}

  lemma WalkNext(tails: Tails, start: Pair, n: nat)
    requires Blocks(Walk(tails, start, n)) in tails
    ensures Walk(tails, start, n + 1) == tails[Blocks(Walk(tails, start, n))]
  {}

  // The tortoise is moved when the hare is as far ahead as it was let go.
  lemma PlacedNext(tails: Tails, start: Pair, n: nat, pair: Pair, i: nat, period: nat, pair': Pair, i': nat,
                   period': nat)
    requires Placed(tails, start, n, pair, i, period) && Unmet(tails, start, n)
    requires !InSync(Walk(tails, start, n), pair)
    requires if i == period then pair' == Walk(tails, start, n) && i' == 1 && period' == 2 * period
             else pair' == pair && i' == i + 1 && period' == period
    ensures Placed(tails, start, n + 1, pair', i', period') && Unmet(tails, start, n + 1)
  {
    hide Walk, InSync;
    var j := if n == 0 then 0 else Log2(n + 1);
    if n == 0 {
      LeftIs(1, 1);
    } else {
      Log2Bounds(n + 1);
      if i == period { LeftIs(n + 1, j + 1); } else { LeftIs(n + 1, j); }
    }
  }

  // A pair met again: the walk goes round for ever.
  lemma NeverEnds(tails: Tails, start: Pair, n: nat, pair: Pair, i: nat, period: nat)
    requires Closed(tails) && Placed(tails, start, n, pair, i, period)
    requires !IsNull(Walk(tails, start, n)) && InSync(Walk(tails, start, n), pair)
    ensures forall k :: !IsNull(Walk(tails, start, k))
  {
    if n > 0 {
      Log2Bounds(n + 1);
      forall k ensures !IsNull(Walk(tails, start, k)) {
        RoundAndRound(tails, start, Left(n), n, k);
      }
    }
  }

  lemma {:induction false} RoundAndRound(tails: Tails, start: Pair, i: nat, n: nat, k: nat)
    requires Closed(tails) && i < n && !IsNull(Walk(tails, start, n))
             && InSync(Walk(tails, start, i), Walk(tails, start, n))
    ensures !IsNull(Walk(tails, start, k))
    decreases k
  {
    hide Walk, Closed, InSync, IsNull;
    if IsNull(Walk(tails, start, k)) {
      if k <= n {
        NullStays(tails, start, k, n - k);
      } else {
        Repeats(tails, start, i, n, k - n);
        InSyncNull(Walk(tails, start, i + (k - n)), Walk(tails, start, k));
        RoundAndRound(tails, start, i, n, i + (k - n));
      }
    }
  }

  lemma InSyncNull(p: Pair, q: Pair)
    requires InSync(p, q)
    ensures IsNull(p) <==> IsNull(q)
  {}
}
