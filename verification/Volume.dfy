/**
 The block device as the file layer sees it through its caches, with an oracle
 for the blocks that go bad, and the allocator as a supply of blocks that are
 not in use. What it promises of programs is what the caches keep.
 */
module Volume {
  import MetadataLog
  import opened Octets
  import opened SkipList
  import Arith
  import BlockCache

  // only block b differs
  ghost predicate Touches(d: Disk, e: Disk, b: Block) {
    d.Keys == e.Keys && b in d && forall c :: c in d && c != b ==> d[c] == e[c]
  }

  // What programming `data` at `off` promises: the bytes before it stay, and
  // unless it fails the data is behind them.
  ghost predicate Programmed(d: Disk, e: Disk, b: Block, off: nat, data: Bytes, ok: bool) {
    && Touches(d, e, b) && off + |data| <= |d[b]| == |e[b]| && e[b][..off] == d[b][..off]
    && (ok ==> e[b][off..off + |data|] == data)
  }

  class Volume {
    const B: nat
    const fails: nat -> bool             // whether the n-th erase or program reports Corrupt
    const junk: (nat, nat) -> Byte        // what bytes it leaves where nothing is promised
    var clock: nat
    var disk: Disk
    var candidates: seq<Block>           // what the allocator looks at, in order

    ghost predicate Valid() reads this {
      Sound(B, disk) && forall b :: b in candidates ==> b in disk
    }

    constructor (B: nat, fails: nat -> bool, junk: (nat, nat) -> Byte, disk: Disk, candidates: seq<Block>)
      requires Sound(B, disk) && forall b :: b in candidates ==> b in disk
      ensures Valid() && this.B == B && this.disk == disk && this.candidates == candidates
    {
      this.B, this.fails, this.junk := B, fails, junk;
      clock, this.disk, this.candidates := 0, disk, candidates;
    }

    // The next block that is not in use. Each call uses up a candidate.
    method Alloc(live: set<Block>) returns (r: MetadataLog.Option<Block>)
      requires Valid()
      modifies this`candidates
      ensures Valid()
      ensures r.Some? ==> r.value !in live && r.value in disk && |candidates| < |old(candidates)|
      ensures |candidates| <= |old(candidates)|
      ensures r.None? ==> forall c :: c in old(candidates) ==> c in live
    {
      while candidates != []
        invariant Valid() && |candidates| <= |old(candidates)|
        invariant forall c :: c in old(candidates) ==> c in live || c in candidates
        decreases |candidates|
      {
        var c := candidates[0];
        assert forall x :: x in candidates ==> x == c || x in candidates[1..];
        candidates := candidates[1..];
        if c !in live {
          return MetadataLog.Some(c);
        }
      }
      return MetadataLog.None;
    }

    function Junk(n: nat): (s: Bytes)
      reads this
      ensures |s| == n
    {
      var c, j := clock, junk;
      seq(n, (i: nat) => j(c, i))
    }

    // An erased block may hold anything.
    method Erase(b: Block) returns (ok: bool)
      requires Valid() && b in disk
      modifies this`disk, this`clock
      ensures Valid() && Touches(old(disk), disk, b)
    {
      disk, clock, ok := disk[b := Junk(B)], clock + 1, !fails(clock);
    }

    // Programs run upwards through a block. What lies behind the data is not
    // kept (it is padded up to the program size), and after Corrupt only the
    // bytes before it are.
    method Prog(b: Block, off: nat, data: Bytes) returns (ok: bool)
      requires Valid() && b in disk && off + |data| <= B
      modifies this`disk, this`clock
      ensures Valid() && Programmed(old(disk), disk, b, off, data, ok)
    {
      ok := !fails(clock);
      var head := disk[b][..off] + (if ok then data else []);
      disk, clock := disk[b := head + Junk(B - |head|)], clock + 1;
      assert disk[b][..off] == head[..off];
      assert ok ==> disk[b][off..off + |data|] == head[off..];
    }

    // Writes out what is still cached for block b, up to its offset off. The
    // cache keeps its bytes if that fails.
    method Sync(b: Block, off: nat) returns (ok: bool)
      requires Valid() && b in disk && off <= B
      modifies this`disk, this`clock
      ensures Valid() && Programmed(old(disk), disk, b, off, [], ok)
    {
      ok := !fails(clock);
      disk, clock := disk[b := disk[b][..off] + Junk(B - off)], clock + 1;
    }
  }

  // ----- the caches keep these promises -----

  // the blocks as they are read through the program cache
  ghost function Seen(d: Disk, p: BlockCache.Held): (e: Disk)
    ensures e.Keys == d.Keys
  {
    map b | b in d :: BlockCache.View(d, p, b)
  }

  lemma SeenTouches(d: Disk, e: Disk, p: BlockCache.Held, q: BlockCache.Held, b: Block)
    requires b in d && BlockCache.Only(d, e, b)
    requires forall c :: c in d && c != b ==> p.block != c && q.block != c
    ensures Touches(Seen(d, p), Seen(e, q), b)
  {}

  lemma ExtendedIsProgrammed(d: Disk, e: Disk, b: Block, off: nat, data: Bytes, n: nat, ok: bool)
    requires Touches(d, e, b) && n <= |data| && (ok ==> n == |data|) && off + |data| <= |d[b]|
    requires BlockCache.Extended(d[b], e[b], off, data[..n])
    ensures Programmed(d, e, b, off, data, ok)
  {
    assert e[b][..off] == e[b][..off + n][..off];
    if ok {
      assert data[..n] == data;
      assert e[b][off..off + n] == e[b][..off + n][off..];
    }
  }

  // lfs_bd_prog through the program cache, in order, on a device that tells the
  // truth or with validation: what is read from then on is as Volume.Prog says.
  method ProgThroughCache(dev: BlockCache.Device, pcache: BlockCache.Cache, rcache: BlockCache.Cache, validate: bool,
                          b: Block, off: nat, data: Bytes) returns (ok: bool)
    requires BlockCache.CanProg(dev, pcache, rcache) && BlockCache.Follows(pcache, dev.progSize, b, off)
    requires b in dev.disk && NULL !in dev.disk && off + |data| <= dev.B && (dev.honest || validate)
    modifies dev`disk, dev`clock, pcache, pcache.buffer, rcache, rcache.buffer
    ensures BlockCache.Usable(dev, pcache, rcache)
    ensures Programmed(old(Seen(dev.disk, BlockCache.Hold(pcache))), Seen(dev.disk, BlockCache.Hold(pcache)), b, off,
            data, ok)
  {
    hide BlockCache.View, BlockCache.Extended, BlockCache.Coherent, BlockCache.Only, Programmed, Touches;
    ghost var d, p := dev.disk, BlockCache.Hold(pcache);
    ok := BlockCache.Prog(dev, pcache, rcache, validate, b, off, data);
    ghost var e, q := dev.disk, BlockCache.Hold(pcache);
    ghost var n: nat :| n <= |data| && (ok ==> n == |data|)
                        && BlockCache.Extended(BlockCache.View(d, p, b), BlockCache.View(e, q, b), off, data[..n]);
    SeenTouches(d, e, p, q, b);
    SeenLength(d, p, b);
    ExtendedIsProgrammed(Seen(d, p), Seen(e, q), b, off, data, n, ok);
  }

  lemma SeenLength(d: Disk, p: BlockCache.Held, b: Block)
    requires b in d
    ensures |BlockCache.View(d, p, b)| == |d[b]|
  {}

  // lfs_bd_flush: the bytes that were cached or lie before them are read as
  // before, as Volume.Sync says.
  method SyncThroughCache(dev: BlockCache.Device, pcache: BlockCache.Cache, rcache: BlockCache.Cache, validate: bool,
                          off: nat) returns (ok: bool)
    requires BlockCache.CanProg(dev, pcache, rcache) && pcache.block in dev.disk && NULL !in dev.disk
    requires off <= pcache.off + pcache.size && (dev.honest || validate)
    modifies dev`disk, dev`clock, pcache`block, pcache.buffer, rcache, rcache.buffer
    ensures BlockCache.Usable(dev, pcache, rcache)
    ensures Programmed(old(Seen(dev.disk, BlockCache.Hold(pcache))), Seen(dev.disk, BlockCache.Hold(pcache)),
                       old(pcache.block), off, [], ok)
  {
    hide BlockCache.Coherent, BlockCache.Only, Programmed, Touches, BlockCache.Flushed, BlockCache.Within;
    hide BlockCache.View;
    ghost var d, p := dev.disk, BlockCache.Hold(pcache);
    ok := BlockCache.Flush(dev, pcache, rcache, validate);
    ghost var e, q := dev.disk, BlockCache.Hold(pcache);
    SeenTouches(d, e, p, q, p.block);
    if ok {
      FlushedKeeps(d, e, p, q, off);
    } else {
      WithinKeeps(d, e, p, off, Arith.AlignUp(pcache.size, dev.progSize));
    }
  }

  lemma FlushedKeeps(d: Disk, e: Disk, p: BlockCache.Held, q: BlockCache.Held, off: nat)
    requires BlockCache.Flushed(d, e, p) && q.block == NULL && NULL !in d && off <= p.off + |p.bytes|
    requires Touches(Seen(d, p), Seen(e, q), p.block)
    ensures Programmed(Seen(d, p), Seen(e, q), p.block, off, [], true)
  {
    var k, v, w := p.off + |p.bytes|, BlockCache.View(d, p, p.block), BlockCache.View(e, q, p.block);
    assert w[..off] == w[..k][..off] && v[..off] == v[..k][..off];
  }

  lemma WithinKeeps(d: Disk, e: Disk, p: BlockCache.Held, off: nat, n: nat)
    requires BlockCache.Within(d, e, p.block, p.off, n) && p.block in d && off <= p.off + |p.bytes| <= |d[p.block]|
    requires Touches(Seen(d, p), Seen(e, p), p.block)
    ensures Programmed(Seen(d, p), Seen(e, p), p.block, off, [], false)
  {
    var k, v, w := p.off + |p.bytes|, BlockCache.View(d, p, p.block), BlockCache.View(e, p, p.block);
    assert v[..k] == d[p.block][..p.off] + p.bytes && w[..k] == e[p.block][..p.off] + p.bytes;
    assert w[..off] == w[..k][..off] && v[..off] == v[..k][..off];
  }
}
