/**
 lfs_ctz_extend: the list grows by a block, or its partly filled last block is
 replaced by a copy. Blocks in use are never written.
 */
module Extend {
  import opened Arith
  import opened Octets
  import opened Util
  import opened CtzIndex
  import opened SkipList
  import opened Volume

  // A list that is written at its end: the next byte goes to `off` of the
  // block `block`, and that is position `pos` of the file.
  ghost predicate Tip(B: nat, d: Disk, bs: seq<Block>, block: Block, off: nat, pos: nat) {
    && Listed(B, d, bs) && bs != [] && bs[|bs| - 1] == block
    && Header(|bs| - 1) <= off <= B
    && pos == Start(B, |bs| - 1) + (off - Header(|bs| - 1))
  }

  // no block in use differs
  ghost predicate Spares(d: Disk, e: Disk, live: set<Block>) {
    d.Keys == e.Keys && forall b :: b in live && b in d ==> d[b] == e[b]
  }

  lemma TipContent(B: nat, d: Disk, bs: seq<Block>, block: Block, off: nat, pos: nat)
    requires Tip(B, d, bs, block, off, pos)
    ensures |Content(B, d, bs, pos)| == pos
    ensures Content(B, d, bs, pos) == Flat(B, d, bs[..|bs| - 1]) + d[block][Header(|bs| - 1)..off]
  {
    var n := |bs| - 1;
    ListedPrefix(B, d, bs, n);
    FlatLength(B, d, bs[..n]);
    FlatLength(B, d, bs);
  }

  // A scan for free blocks walks the list being written from its tip with the
  // position as its size. It finds exactly the blocks of the list if and only
  // if the last block holds a byte already: right after a new block was put
  // behind a full one, the walk takes it for the block before.
  lemma ScanOfTip(B: nat, d: Disk, bs: seq<Block>, block: Block, off: nat, pos: nat)
    requires 128 <= B < WORD && pos < WORD && Tip(B, d, bs, block, off, pos)
    ensures Visits(B, d, block, pos) == Reversed(bs) <==> Start(B, |bs| - 1) < pos
  {
    hide Index, Linked, Trailing, Header;
    var n := |bs| - 1;
    StartGrows(B, 0, n);
    ReversedLength(bs);
    if Start(B, n) < pos {
      StartNext(B, n);
      VisitsAll(B, d, bs, block, pos);
    } else if n > 0 {
      StartNext(B, n - 1);
      StartGrows(B, n - 1, n);
      IndexIs(B, pos - 1, n - 1);
    }
  }

  // Listing is decided by the earlier blocks and the pointers of the last.
  lemma ListedSnoc(B: nat, d: Disk, bs: seq<Block>, b: Block)
    requires Listed(B, d, bs) && |bs| < 0x400_0000 && b in d
    requires forall k :: bs != [] && 0 <= k <= Trailing(|bs|) ==>
             Pow2(k) <= |bs| && Pointer(B, d, b, k) == bs[|bs| - Pow2(k)]
    ensures Listed(B, d, bs + [b])
  {
    hide Pointer, Trailing, Pow2;
    var all := bs + [b];
    forall i, k | 0 < i < |all| && 0 <= k <= Trailing(i) ensures Linked(B, d, all, i, k) {
      if i < |bs| {
        assert Linked(B, d, bs, i, k);
      }
    }
  }

  // Copies the first n bytes of a block, one at a time.
  method CopyHead(vol: Volume, from: Block, to: Block, n: nat) returns (ok: bool)
    requires vol.Valid() && from in vol.disk && to in vol.disk && from != to && n <= vol.B
    modifies vol`disk, vol`clock
    ensures vol.Valid() && Touches(old(vol.disk), vol.disk, to)
    ensures ok ==> vol.disk[to][..n] == vol.disk[from][..n]
  {
    for i := 0 to n
      invariant vol.Valid() && Touches(old(vol.disk), vol.disk, to)
      invariant vol.disk[to][..i] == vol.disk[from][..i]
    {
      var data := [vol.disk[from][i]];
      ok := vol.Prog(to, i, data);
      if !ok {
        return;
      }
      Longer(vol.disk[to], vol.disk[from], i);
    }
    return true;
  }

  lemma Longer(s: Bytes, t: Bytes, i: nat)
    requires i < |s| && i < |t| && s[..i] == t[..i] && s[i..i + 1] == [t[i]]
    ensures s[..i + 1] == t[..i + 1]
  {
    assert s[..i + 1] == s[..i] + s[i..i + 1];
    assert t[..i + 1] == t[..i] + [t[i]];
  }

  // Writes the pointers of block m = |bs|: the k-th is read out of the block
  // the one before it points at.
  method WritePointers(vol: Volume, nblock: Block, head: Block, m: nat, ghost bs: seq<Block>) returns (ok: bool)
    requires vol.Valid() && nblock in vol.disk && nblock !in bs
    requires Listed(vol.B, vol.disk, bs) && 0 < |bs| == m < 0x400_0000 && head == bs[m - 1]
    modifies vol`disk, vol`clock
    ensures vol.Valid() && Touches(old(vol.disk), vol.disk, nblock)
    ensures ok ==> forall k :: 0 <= k <= Trailing(m) ==>
            Pow2(k) <= m && Pointer(vol.B, vol.disk, nblock, k) == bs[m - Pow2(k)]
  {
    hide Ctz, Trailing, Pow2, Pointer;
    CtzIsTrailing(m);
    SmallIndex(m);
    var skips := Ctz(m) + 1;
    var nhead := head;
    assert Pow2(0) == 1 by { PowZero(); }
    ghost var d := vol.disk;
    for i := 0 to skips
      invariant vol.Valid() && Touches(d, vol.disk, nblock)
      invariant i < skips ==> Pow2(i) <= m && nhead == bs[m - Pow2(i)]
      invariant forall k :: 0 <= k < i ==> Pow2(k) <= m && Pointer(vol.B, vol.disk, nblock, k) == bs[m - Pow2(k)]
    {
      ghost var e := vol.disk;
      ok := vol.Prog(nblock, 4 * i, WordBytes(nhead));
      if !ok {
        return;
      }
      PointerWritten(vol.B, e, vol.disk, nblock, i, nhead);
      if i != skips - 1 {
        NextPointer(vol.B, d, bs, m, i);
        SamePointer(vol.B, d, vol.disk, nblock, nhead, i);
        nhead := Pointer(vol.B, vol.disk, nhead, i);
      }
    }
    return true;
  }

  lemma PowZero() ensures Pow2(0) == 1 {}

  lemma SamePointer(B: nat, d: Disk, e: Disk, b: Block, c: Block, k: nat)
    requires Touches(d, e, b) && c != b
    ensures Pointer(B, d, c, k) == Pointer(B, e, c, k)
  {}

  // Pointer i is there, and those before it have stayed.
  lemma PointerWritten(B: nat, d: Disk, e: Disk, b: Block, i: nat, w: Block)
    requires w < WORD && b in d && b in e && |d[b]| == |e[b]| && 4 * i + 4 <= |e[b]|
    requires e[b][..4 * i] == d[b][..4 * i] && e[b][4 * i..4 * i + 4] == WordBytes(w)
    ensures Pointer(B, e, b, i) == w
    ensures forall k :: 0 <= k < i ==> Pointer(B, e, b, k) == Pointer(B, d, b, k)
  {
    WordRoundTrip(w);
    forall k | 0 <= k < i ensures Pointer(B, e, b, k) == Pointer(B, d, b, k) {
      assert e[b][4 * k..4 * k + 4] == e[b][..4 * i][4 * k..4 * k + 4];
      assert d[b][4 * k..4 * k + 4] == d[b][..4 * i][4 * k..4 * k + 4];
    }
  }

  // Pointer k of block m - 2^k is block m - 2^(k+1).
  lemma NextPointer(B: nat, d: Disk, bs: seq<Block>, m: nat, k: nat)
    requires Listed(B, d, bs) && 0 < |bs| == m && k < Trailing(m)
    ensures Pow2(k) <= m && Pow2(k + 1) <= m
    ensures Pointer(B, d, bs[m - Pow2(k)], k) == bs[m - Pow2(k + 1)]
  {
    hide Trailing, Pointer;
    JumpBack(m, k + 1);
    JumpBack(m, k);
    PowStep(k);
    assert Linked(B, d, bs, m - Pow2(k), k);
  }

  datatype Extended = Extended(block: Block, off: nat) | NoSpace

  // The list that stays in front of the new block.
  function Kept(B: nat, bs: seq<Block>, size: nat): seq<Block> {
    if bs != [] && size < Start(B, |bs|) then bs[..|bs| - 1] else bs
  }

  // The new list, the place of the next byte, the same contents.
  ghost predicate Extends(B: nat, d: Disk, e: Disk, bs: seq<Block>, size: nat, block: Block, off: nat) {
    && off < B && Tip(B, e, Kept(B, bs, size) + [block], block, off, size)
    && Content(B, e, Kept(B, bs, size) + [block], size) == Content(B, d, bs, size)
  }

  method Attempt(vol: Volume, nblock: Block, head: Block, size: nat, ghost bs: seq<Block>) returns (ok: bool, off: nat)
    requires vol.Valid() && nblock in vol.disk && nblock !in bs
    requires Heads(vol.B, vol.disk, bs, head, size)
    modifies vol`disk, vol`clock
    ensures vol.Valid() && Touches(old(vol.disk), vol.disk, nblock)
    ensures ok ==> Extends(vol.B, old(vol.disk), vol.disk, bs, size, nblock, off)
  {
    ok := vol.Erase(nblock);
    off := 0;
    if !ok {
      return;
    }
    if size == 0 {
      Fresh(vol.B, old(vol.disk), vol.disk, nblock);
      return;
    }
    hide Index, Start, Header, Linked, Pointer, Flat, Extends, Trailing, Ctz, InBlock, Content;
    LastByte(vol.B, old(vol.disk), vol.disk, bs, head, size);
    var p := Index(vol.B, size - 1);
    var noff := p.off + 1;
    if noff != vol.B {
      ok := CopyHead(vol, head, nblock, noff);
      off := noff;
      if ok { Replaced(vol.B, old(vol.disk), vol.disk, bs, head, size, nblock, noff); }
    } else {
      var m := p.index + 1;
      ok := WritePointers(vol, nblock, head, m, bs);
      CtzIsTrailing(m);
      HeaderOf(m);
      off := 4 * (Ctz(m) + 1);
      if ok { Grown(vol.B, old(vol.disk), vol.disk, bs, head, size, nblock, off); }
    }
  }

  // where the last byte of the file lies; the next block number is still small
  lemma LastByte(B: nat, d: Disk, e: Disk, bs: seq<Block>, head: Block, size: nat)
    requires 128 <= B < WORD && Heads(B, d, bs, head, size) && size > 0 && Sound(B, e) && Same(d, e, bs)
    ensures Heads(B, e, bs, head, size) && bs != []
    ensures var p := Index(B, size - 1);
            && p.index == |bs| - 1 && Header(|bs| - 1) <= p.off < B
            && p.off == size - 1 - Start(B, |bs| - 1) + Header(|bs| - 1)
    ensures Index(B, size - 1).off + 1 == B ==> size == Start(B, |bs|) && |bs| < 0x400_0000
  {
    hide Index, Start, Header;
    HeadsFrame(B, d, e, bs, head, size);
    IndexIs(B, size - 1, |bs| - 1);
    IndexInBlock(B, size - 1);
    StartNext(B, |bs| - 1);
    if Index(B, size - 1).off + 1 == B {
      IndexInBlock(B, size);
      var n := Index(B, size).index;
      if n < |bs| { StartGrows(B, n + 1, |bs|); }
    }
  }

  lemma Fresh(B: nat, d: Disk, e: Disk, b: Block)
    requires Touches(d, e, b) && Sound(B, e)
    ensures Extends(B, d, e, [], 0, b, 0)
  {}

  // A copy of the last block, as far as it is written, can take its place.
  lemma SwapLast(B: nat, d: Disk, e: Disk, bs: seq<Block>, head: Block, b: Block, off: nat, pos: nat)
    requires Tip(B, d, bs, head, off, pos) && Sound(B, e) && Same(d, e, bs[..|bs| - 1])
    requires b in e && e[b][..off] == d[head][..off]
    ensures Tip(B, e, bs[..|bs| - 1] + [b], b, off, pos)
    ensures Content(B, e, bs[..|bs| - 1] + [b], pos) == Content(B, d, bs, pos)
  {
    hide Start, Header, Content, Flat, Linked, Trailing;
    var n := |bs| - 1;
    var init := bs[..n];
    SwapListed(B, d, e, bs, head, b, off);
    ListedPrefix(B, d, bs, n);
    FlatFrame(B, d, e, init);
    TipContent(B, d, bs, head, off, pos);
    TipContent(B, e, init + [b], b, off, pos);
    assert (init + [b])[..n] == init;
    SameTail(d[head], e[b], Header(n), off);
  }

  lemma SwapListed(B: nat, d: Disk, e: Disk, bs: seq<Block>, head: Block, b: Block, off: nat)
    requires Listed(B, d, bs) && Sound(B, e) && bs != [] && Same(d, e, bs[..|bs| - 1])
    requires head == bs[|bs| - 1] && Header(|bs| - 1) <= off <= B
    requires b in e && e[b][..off] == d[head][..off]
    ensures Listed(B, e, bs[..|bs| - 1] + [b])
  {
    hide Header, Trailing, Pointer, Pow2;
    var n := |bs| - 1;
    var init := bs[..n];
    ListedPrefix(B, d, bs, n);
    ListedFrame(B, d, e, init);
    forall k | init != [] && 0 <= k <= Trailing(n)
      ensures Pow2(k) <= n && Pointer(B, e, b, k) == init[n - Pow2(k)]
    {
      assert Linked(B, d, bs, n, k);
      HeaderOf(n);
      PointerCopied(B, d, e, head, b, off, k);
    }
    ListedSnoc(B, e, init, b);
  }

  lemma Replaced(B: nat, d: Disk, e: Disk, bs: seq<Block>, head: Block, size: nat, b: Block, off: nat)
    requires Heads(B, d, bs, head, size) && size > 0 && Sound(B, e) && Touches(d, e, b) && b !in bs
    requires off == size - Start(B, |bs| - 1) + Header(|bs| - 1) && Header(|bs| - 1) < off < B
    requires e[b][..off] == e[head][..off]
    ensures Extends(B, d, e, bs, size, b, off)
  {
    hide Start, Header, Trailing, Pointer, Content, Flat;
    StartNext(B, |bs| - 1);
    SwapLast(B, d, e, bs, head, b, off, size);
  }

  lemma SameTail(s: Bytes, t: Bytes, h: nat, off: nat)
    requires h <= off <= |s| && off <= |t| && s[..off] == t[..off]
    ensures s[h..off] == t[h..off]
  {
    assert s[h..off] == s[..off][h..];
    assert t[h..off] == t[..off][h..];
  }

  lemma PointerCopied(B: nat, d: Disk, e: Disk, a: Block, b: Block, off: nat, k: nat)
    requires a in d && b in e && off <= |d[a]| && off <= |e[b]| && d[a][..off] == e[b][..off]
    requires 4 * k + 4 <= off
    ensures Pointer(B, d, a, k) == Pointer(B, e, b, k)
  {
    assert e[b][4 * k..4 * k + 4] == e[b][..off][4 * k..4 * k + 4];
    assert d[a][4 * k..4 * k + 4] == d[a][..off][4 * k..4 * k + 4];
  }

  lemma Grown(B: nat, d: Disk, e: Disk, bs: seq<Block>, head: Block, size: nat, b: Block, off: nat)
    requires Heads(B, d, bs, head, size) && size > 0 && Sound(B, e) && Touches(d, e, b) && b !in bs
    requires size == Start(B, |bs|) && |bs| < 0x400_0000 && off == Header(|bs|)
    requires forall k :: 0 <= k <= Trailing(|bs|) ==> Pow2(k) <= |bs| && Pointer(B, e, b, k) == bs[|bs| - Pow2(k)]
    ensures Extends(B, d, e, bs, size, b, off)
  {
    hide Start, Header, Trailing, Pointer, Flat, Linked;
    var n := |bs|;
    ListedFrame(B, d, e, bs);
    ListedSnoc(B, e, bs, b);
    FlatFrame(B, d, e, bs);
    FlatLength(B, d, bs);
    SmallIndex(n);
    assert (bs + [b])[..n] == bs;
    TipContent(B, e, bs + [b], b, off, size);
  }

  method GrowList(vol: Volume, head: Block, size: nat, live: set<Block>, ghost bs: seq<Block>) returns (r: Extended)
    requires vol.Valid() && Heads(vol.B, vol.disk, bs, head, size)
    requires forall b :: b in bs ==> b in live
    modifies vol
    ensures vol.Valid() && Spares(old(vol.disk), vol.disk, live)
    ensures r.Extended? ==> r.block !in live && Extends(vol.B, old(vol.disk), vol.disk, bs, size, r.block, r.off)
    ensures |vol.candidates| <= |old(vol.candidates)|
  {
    ghost var d := vol.disk;
    while true
      invariant vol.Valid() && Spares(d, vol.disk, live) && |vol.candidates| <= |old(vol.candidates)|
      decreases |vol.candidates|
    {
      var nblock := vol.Alloc(live);
      if nblock.None? {
        return NoSpace;
      }
      ghost var e := vol.disk;
      HeadsFrame(vol.B, d, e, bs, head, size);
      var ok, off := Attempt(vol, nblock.value, head, size, bs);
      if ok {
        return Extended(nblock.value, off);
      }
    }
  }

  lemma HeadsFrame(B: nat, d: Disk, e: Disk, bs: seq<Block>, head: Block, size: nat)
    requires Heads(B, d, bs, head, size) && Sound(B, e) && Same(d, e, bs)
    ensures Heads(B, e, bs, head, size) && Content(B, d, bs, size) == Content(B, e, bs, size)
  {
    ListedFrame(B, d, e, bs);
    FlatFrame(B, d, e, bs);
  }
}
