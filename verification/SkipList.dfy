/**
 Files as skip lists of blocks (file/ctz.rs): the list a head block stands for,
 the bytes it holds, and the two walks along it.
 */
module SkipList {
  import opened Arith
  import opened Octets
  import opened Util
  import opened CtzIndex

  type Block = nat
  type Disk = map<Block, Bytes>

  ghost predicate Sound(B: nat, d: Disk) {
    128 <= B < WORD && forall b :: b in d ==> b < WORD && |d[b]| == B
  }

  // ----- block numbers in bytes, least significant first -----

  function Word(s: Bytes): nat
    requires |s| == 4
  {
    var a: nat, b: nat, c: nat, d: nat := s[0], s[1], s[2], s[3];
    a + 0x100 * (b + 0x100 * (c + 0x100 * d))
  }

  function WordBytes(n: nat): (s: Bytes)
    requires n < WORD
    ensures |s| == 4
  {
    var a := n / 0x100;
    var b := a / 0x100;
    [n % 0x100, a % 0x100, b % 0x100, b / 0x100]
  }

  lemma WordRoundTrip(n: nat)
    requires n < WORD
    ensures Word(WordBytes(n)) == n
  {}

  // the k-th pointer of a block
  function Pointer(B: nat, d: Disk, b: Block, k: nat): Block {
    if b in d && 4 * k + 4 <= |d[b]| then Word(d[b][4 * k..4 * k + 4]) else NULL
  }

  // bs[i] is block i of the list, and all of its pointers are in place.
  ghost predicate Listed(B: nat, d: Disk, bs: seq<Block>) {
    && Sound(B, d) && |bs| <= 0x400_0000
    && (forall i :: 0 <= i < |bs| ==> bs[i] in d)
    && (forall i, k :: 0 < i < |bs| && 0 <= k <= Trailing(i) ==> Linked(B, d, bs, i, k))
  }

  ghost predicate Linked(B: nat, d: Disk, bs: seq<Block>, i: nat, k: nat)
    requires i < |bs|
  {
    Pow2(k) <= i && Pointer(B, d, bs[i], k) == bs[i - Pow2(k)]
  }

  // the data of the blocks, one block after the other
  ghost function Flat(B: nat, d: Disk, bs: seq<Block>): Bytes {
    if bs == [] then [] else
      var n, b := |bs| - 1, bs[|bs| - 1];
      Flat(B, d, bs[..n]) + (if b in d && Header(n) <= |d[b]| then d[b][Header(n)..] else [])
  }

  // The list of a file of that size with that head: as many blocks as the
  // size needs, the last one being the head.
  ghost predicate Heads(B: nat, d: Disk, bs: seq<Block>, head: Block, size: nat) {
    && Listed(B, d, bs) && size < WORD
    && (if size == 0 then bs == [] else bs != [] && bs[|bs| - 1] == head && InBlock(B, size - 1, |bs| - 1))
  }

  ghost function Content(B: nat, d: Disk, bs: seq<Block>, size: nat): Bytes {
    if size <= |Flat(B, d, bs)| then Flat(B, d, bs)[..size] else []
  }

  // ----- the bytes -----

  lemma {:induction false} FlatLength(B: nat, d: Disk, bs: seq<Block>)
    requires Listed(B, d, bs)
    ensures |Flat(B, d, bs)| == Start(B, |bs|)
  {
    if bs != [] {
      ListedPrefix(B, d, bs, |bs| - 1);
      FlatLength(B, d, bs[..|bs| - 1]);
      SmallIndex(|bs| - 1);
    }
  }

  lemma ListedPrefix(B: nat, d: Disk, bs: seq<Block>, k: nat)
    requires Listed(B, d, bs) && k <= |bs|
    ensures Listed(B, d, bs[..k])
  {
    var cut := bs[..k];
    forall i, j | 0 < i < k && 0 <= j <= Trailing(i) ensures Linked(B, d, cut, i, j) {
      assert Linked(B, d, bs, i, j);
    }
  }

  lemma {:induction false} FlatPrefix(B: nat, d: Disk, bs: seq<Block>, k: nat)
    requires Listed(B, d, bs) && k <= |bs|
    ensures 0 <= Start(B, k) <= |Flat(B, d, bs)|
    ensures Flat(B, d, bs[..k]) == Flat(B, d, bs)[..Start(B, k)]
    decreases |bs|
  {
    var n := |bs|;
    if k == n {
      FlatLength(B, d, bs);
      assert bs[..k] == bs;
    } else {
      hide Listed, Start, Header;
      ListedPrefix(B, d, bs, n - 1);
      FlatPrefix(B, d, bs[..n - 1], k);
      assert bs[..n - 1][..k] == bs[..k];
    }
  }

  // Position `pos` of the contents is where the index says it is.
  lemma FlatAt(B: nat, d: Disk, bs: seq<Block>, pos: nat)
    requires Listed(B, d, bs) && pos < |Flat(B, d, bs)| && pos < WORD
    ensures var p := Index(B, pos);
            0 <= p.index < |bs| && 0 <= p.off < B && Flat(B, d, bs)[pos] == d[bs[p.index]][p.off]
  {
    hide Index, Trailing, Linked, Pow2, Flat, Start;
    IndexInBlock(B, pos);
    FlatLength(B, d, bs);
    var p := Index(B, pos);
    var n := p.index;
    if n >= |bs| {
      StartGrows(B, |bs|, n);
    }
    FlatPrefix(B, d, bs, n + 1);
    ListedPrefix(B, d, bs, n + 1);
    ListedPrefix(B, d, bs, n);
    FlatLength(B, d, bs[..n]);
    assert bs[..n + 1] == bs[..n] + [bs[n]];
    FlatLast(B, d, bs[..n], bs[n], p.off, pos);
    FlatLength(B, d, bs[..n + 1]);
    assert Flat(B, d, bs)[..Start(B, n + 1)][pos] == Flat(B, d, bs)[pos];
  }

  // a byte of the last block
  lemma FlatLast(B: nat, d: Disk, bs: seq<Block>, b: Block, off: nat, pos: nat)
    requires Listed(B, d, bs + [b]) && Header(|bs|) <= off < B && pos == |Flat(B, d, bs)| + off - Header(|bs|)
    ensures pos < |Flat(B, d, bs + [b])| && Flat(B, d, bs + [b])[pos] == d[b][off]
  {
    hide Linked, Header;
    assert (bs + [b])[..|bs|] == bs && (bs + [b])[|bs|] == b;
  }

  // the blocks of the list hold the same bytes on both disks
  ghost predicate Same(d: Disk, e: Disk, bs: seq<Block>) {
    forall i :: 0 <= i < |bs| ==> bs[i] in d && bs[i] in e && d[bs[i]] == e[bs[i]]
  }

  lemma {:induction false} FlatFrame(B: nat, d: Disk, e: Disk, bs: seq<Block>)
    requires Same(d, e, bs)
    ensures Flat(B, d, bs) == Flat(B, e, bs)
  {
    if bs != [] {
      FlatFrame(B, d, e, bs[..|bs| - 1]);
    }
  }

  lemma ListedFrame(B: nat, d: Disk, e: Disk, bs: seq<Block>)
    requires Listed(B, d, bs) && Sound(B, e) && Same(d, e, bs)
    ensures Listed(B, e, bs)
  {
    forall i, k | 0 < i < |bs| && 0 <= k <= Trailing(i) ensures Linked(B, e, bs, i, k) {
      assert Linked(B, d, bs, i, k);
    }
  }

  // ----- walking by powers of two -----

  // Jumping back by a power of two the number is a multiple of.
  lemma {:induction false} JumpBack(c: nat, s: nat)
    requires c > 0 && s <= Trailing(c)
    ensures Pow2(s) <= c
    ensures c > Pow2(s) ==>
              && Trailing(c - Pow2(s)) >= s
              && (s < Trailing(c) ==> Trailing(c - Pow2(s)) == s)
              && (s == Trailing(c) ==> Trailing(c - Pow2(s)) > s)
    decreases s
  {
    if s > 0 {
      JumpBack(c / 2, s - 1);
      assert (c - Pow2(s)) / 2 == c / 2 - Pow2(s - 1);
    }
  }

  // hops a search may still need at block c, d blocks above its target
  function Budget(c: nat, d: nat): nat {
    if d == 0 || c == 0 then 0
    else Log2(d) + 1 + (if Trailing(c) < Log2(d) then Log2(d) - Trailing(c) else 0)
  }

  lemma Log2Monotone(m: nat, n: nat)
    requires 0 < m <= n
    ensures Log2(m) <= Log2(n)
  {
    Log2Bounds(m);
    Log2Bounds(n);
    if Log2(n) < Log2(m) {
      Pow2Grows(Log2(n) + 1, Log2(m));
    }
  }

  lemma HopCosts(c: nat, d: nat, s: nat)
    requires 0 < d <= c && s == Min(Log2(d), Trailing(c))
    ensures Pow2(s) <= d
    ensures Budget(c - Pow2(s), d - Pow2(s)) < Budget(c, d) <= 2 * (Log2(c) + 1)
  {
    hide Trailing, Log2, Pow2;
    Log2Bounds(d);
    Pow2Grows(s, Log2(d));
    JumpBack(c, s);
    Log2Monotone(d, c);
    var d' := d - Pow2(s);
    if d' > 0 {
      Log2Monotone(d', d);
      if s == Log2(d) {
        Log2Bounds(d');
        PowStep(s);
        if Log2(d') >= s { Pow2Grows(s, Log2(d')); }
      }
    }
  }

  lemma PowStep(k: nat)
    ensures Pow2(k + 1) == 2 * Pow2(k)
  {}

  // ----- lfs_ctz_find -----

  // The size of one hop.
  function Skip(current: nat, target: nat): (s: int)
    requires target < current < 0x400_0000
  {
    Min(Npw2(current - target + 1) - 1, Ctz(current))
  }

  lemma SkipIs(current: nat, target: nat)
    requires target < current < 0x400_0000
    ensures Skip(current, target) == Min(Log2(current - target), Trailing(current)) >= 0
  {
    hide Npw2, Ctz, Log2, Trailing;
    Npw2IsLog(current - target);
    CtzIsTrailing(current);
  }

  // the byte of the contents at `pos` is byte `off` of that block
  ghost predicate Shows(B: nat, d: Disk, bs: seq<Block>, size: nat, pos: nat, block: Block, off: int) {
    && pos < |Content(B, d, bs, size)| == size
    && block in d && 0 <= off < |d[block]|
    && Content(B, d, bs, size)[pos] == d[block][off]
  }

  // For a position in the file: the block and offset of that position, after
  // a number of hops logarithmic in the block number of the head. Behind the
  // end of the file no hop is made.
  method Find(B: nat, d: Disk, head: Block, size: nat, pos: nat, ghost bs: seq<Block>)
    returns (block: Block, off: int, ghost hops: nat)
    requires 128 <= B < WORD && pos < WORD && Heads(B, d, bs, head, size)
    ensures size == 0 ==> block == NULL && off == 0
    ensures size > 0 ==> off == Index(B, pos).off
    ensures size > 0 && Index(B, pos).index >= |bs| ==> block == head
    ensures pos < size ==> 0 <= Index(B, pos).index < |bs| && block == bs[Index(B, pos).index]
    ensures pos < size ==> Shows(B, d, bs, size, pos, block, off)
    ensures hops <= 2 * (if |bs| > 1 then Log2(|bs| - 1) + 1 else 0)
  {
    hide Index, Skip, Trailing, Log2, Shows, Pointer, Budget, Start, Header, Pow2, Sound;
    hops := 0;
    if size == 0 {
      return NULL, 0, 0;
    }
    IndexIs(B, size - 1, |bs| - 1);
    IndexInBlock(B, pos);
    var current: nat := Index(B, size - 1).index;
    var target: nat := Index(B, pos).index;
    block := head;
    ghost var all := Left(current, target);
    AllHops(current, target);
    while current > target
      invariant current < |bs| && block == bs[current]
      invariant current == |bs| - 1 || current >= target
      invariant hops + Left(current, target) <= all
    {
      Hop(B, d, bs, current, target);
      var skip := Skip(current, target);
      block := Pointer(B, d, block, skip);
      current := current - Pow2(skip);
      hops := hops + 1;
    }
    off := Index(B, pos).off;
    if pos < size {
      InFile(B, d, bs, head, size, pos);
    }
  }

  function Left(current: nat, target: nat): nat {
    if target < current then Budget(current, current - target) else 0
  }

  lemma AllHops(current: nat, target: nat)
    ensures Left(current, target) <= 2 * (if current > 0 then Log2(current) + 1 else 0)
  {
    if target < current {
      HopCosts(current, current - target, Min(Log2(current - target), Trailing(current)));
    }
  }

  // One hop follows a pointer that is there, does not overshoot, and is paid for.
  lemma Hop(B: nat, d: Disk, bs: seq<Block>, current: nat, target: nat)
    requires Listed(B, d, bs) && target < current < |bs|
    ensures var s := Skip(current, target);
            0 <= s && target <= current - Pow2(s) < current
            && Pointer(B, d, bs[current], s) == bs[current - Pow2(s)]
            && Left(current - Pow2(s), target) < Left(current, target)
  {
    hide Skip, Trailing, Log2, Pow2, Budget, Pointer;
    SkipIs(current, target);
    var s := Skip(current, target);
    HopCosts(current, current - target, s);
    assert Linked(B, d, bs, current, s);
  }

  // the block a position lies in is the one the index gives
  lemma IndexIs(B: nat, pos: nat, n: nat)
    requires 128 <= B < WORD && pos < WORD && InBlock(B, pos, n) && n < 0x400_0000
    ensures Index(B, pos).index == n
  {
    IndexInBlock(B, pos);
    var m := Index(B, pos).index;
    if m < n { StartGrows(B, m + 1, n); }
    if n < m { StartGrows(B, n + 1, m); }
  }

  lemma InFile(B: nat, d: Disk, bs: seq<Block>, head: Block, size: nat, pos: nat)
    requires 128 <= B < WORD && Heads(B, d, bs, head, size) && pos < size
    ensures var p := Index(B, pos);
            0 <= p.index < |bs| && Shows(B, d, bs, size, pos, bs[p.index], p.off)
  {
    hide Index, Start;
    FlatLength(B, d, bs);
    FlatAt(B, d, bs, pos);
  }

  // ----- lfs_ctz_traverse -----

  function Reversed(s: seq<Block>): seq<Block> {
    if s == [] then [] else [s[|s| - 1]] + Reversed(s[..|s| - 1])
  }

  // What the walk visits from a block it takes for number `index`: the block,
  // and for an even one both of the blocks its first two pointers name.
  function VisitFrom(B: nat, d: Disk, head: Block, index: nat): (v: seq<Block>)
    ensures |v| == index + 1
    decreases index
  {
    if index == 0 then [head]
    else if index % 2 == 1 then [head] + VisitFrom(B, d, Pointer(B, d, head, 0), index - 1)
    else [head, Pointer(B, d, head, 0)] + VisitFrom(B, d, Pointer(B, d, head, 1), index - 2)
  }

  function Visits(B: nat, d: Disk, head: Block, size: nat): seq<Block>
    requires 128 <= B < WORD && size < WORD
  {
    if size == 0 then []
    else
      IndexInBlock(B, size - 1);
      VisitFrom(B, d, head, Index(B, size - 1).index)
  }

  // the pointers read in one round; all but the last are visited at once
  function Heads2(B: nat, d: Disk, b: Block, index: nat): (h: seq<Block>)
    ensures |h| == 2 - index % 2
  {
    [Pointer(B, d, b, 0), Pointer(B, d, b, 1)][..2 - index % 2]
  }

  lemma VisitStep(B: nat, d: Disk, b: Block, index: nat)
    requires index > 0
    ensures var h := Heads2(B, d, b, index);
            VisitFrom(B, d, b, index) == [b] + h[..|h| - 1] + VisitFrom(B, d, h[|h| - 1], index - |h|)
  {
    hide Pointer;
  }

  method Traverse(B: nat, d: Disk, head: Block, size: nat) returns (visited: seq<Block>)
    requires 128 <= B < WORD && size < WORD
    ensures visited == Visits(B, d, head, size)
  {
    hide Index, VisitFrom, Heads2, Start, Header;
    visited := [];
    if size == 0 {
      return;
    }
    IndexInBlock(B, size - 1);
    var index: nat := Index(B, size - 1).index;
    var current := head;
    ghost var all := VisitFrom(B, d, head, index);
    while true
      invariant visited + VisitFrom(B, d, current, index) == all
      decreases index
    {
      visited := visited + [current];
      if index == 0 {
        assert VisitFrom(B, d, current, 0) == [current] by { VisitLast(B, d, current); }
        return;
      }
      VisitStep(B, d, current, index);
      var heads := Heads2(B, d, current, index);
      ghost var before := visited;
      for i := 0 to |heads| - 1
        invariant visited == before + heads[..i]
      {
        visited := visited + [heads[i]];
      }
      current := heads[|heads| - 1];
      index := index - |heads|;
    }
  }

  lemma VisitLast(B: nat, d: Disk, b: Block)
    ensures VisitFrom(B, d, b, 0) == [b]
  {}

  lemma {:induction false} VisitsBack(B: nat, d: Disk, bs: seq<Block>, index: nat)
    requires Listed(B, d, bs) && index < |bs|
    ensures VisitFrom(B, d, bs[index], index) == Reversed(bs[..index + 1])
    decreases index
  {
    hide Pointer, Trailing, Linked;
    assert bs[..index + 1][..index] == bs[..index];
    if index > 0 {
      Neighbours(B, d, bs, index);
      if index % 2 == 1 {
        VisitsBack(B, d, bs, index - 1);
      } else {
        assert bs[..index][..index - 1] == bs[..index - 1];
        VisitsBack(B, d, bs, index - 2);
      }
    }
  }

  // Every block of a file is visited exactly once, from the last to the first.
  lemma VisitsAll(B: nat, d: Disk, bs: seq<Block>, head: Block, size: nat)
    requires 128 <= B < WORD && Heads(B, d, bs, head, size)
    ensures Visits(B, d, head, size) == Reversed(bs)
  {
    hide Index;
    if size > 0 {
      IndexIs(B, size - 1, |bs| - 1);
      VisitsBack(B, d, bs, |bs| - 1);
      assert bs[..|bs|] == bs;
    }
  }

  lemma {:induction false} ReversedLength(s: seq<Block>)
    ensures |Reversed(s)| == |s|
  {
    if s != [] { ReversedLength(s[..|s| - 1]); }
  }

  // An even block points at its two predecessors, an odd one at the one before it.
  lemma Neighbours(B: nat, d: Disk, bs: seq<Block>, i: nat)
    requires Listed(B, d, bs) && 0 < i < |bs|
    ensures Pointer(B, d, bs[i], 0) == bs[i - 1]
    ensures i % 2 == 0 ==> i >= 2 && Pointer(B, d, bs[i], 1) == bs[i - 2]
  {
    assert Pow2(0) == 1 && Pow2(1) == 2;
    assert Linked(B, d, bs, i, 0);
    if i % 2 == 0 { assert Linked(B, d, bs, i, 1); }
  }
}
