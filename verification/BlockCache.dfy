/**
 bd/bd.rs: the read cache and the program cache in front of the block device.
 Reads see the device overlaid by what is still in the program cache.
 */
module BlockCache {
  import opened Arith
  import opened Octets
  import opened Sequences

  type Disk = map<nat, Bytes>

  // ----- the device -----

  // Reads and programs whole units; either may fail. A device that is not
  // honest may also report success for a program that did not take.
  class Device {
    const B: nat
    const readSize: nat
    const progSize: nat
    const count: nat               // 0 as long as it is not known
    const honest: bool
    const fails: nat -> bool
    const junk: (nat, nat) -> Byte
    var clock: nat
    var disk: Disk

    ghost predicate Valid()
      reads this
    {
      && 0 < readSize && 0 < progSize && progSize % readSize == 0 && B % progSize == 0 && B % readSize == 0
      && count <= NULL && forall b :: b in disk ==> |disk[b]| == B
    }

    constructor (B: nat, readSize: nat, progSize: nat, count: nat, honest: bool, fails: nat -> bool,
                 junk: (nat, nat) -> Byte, disk: Disk)
      requires 0 < readSize && 0 < progSize && progSize % readSize == 0 && B % progSize == 0 && B % readSize == 0
      requires count <= NULL && forall b :: b in disk ==> |disk[b]| == B
      ensures Valid() && this.disk == disk
    {
      this.B, this.readSize, this.progSize, this.count, this.honest := B, readSize, progSize, count, honest;
      this.fails, this.junk, this.disk, clock := fails, junk, disk, 0;
    }

    method Read(block: nat, off: nat, n: nat) returns (ok: bool, data: Bytes)
      requires Valid() && off + n <= B && off % readSize == 0 && n % readSize == 0
      modifies this`clock
      ensures clock == old(clock) + 1 && (!ok ==> block !in disk || fails(old(clock)))
      ensures ok ==> block in disk && data == disk[block][off..off + n]
    {
      ok, data, clock := block in disk && !fails(clock), [], clock + 1;
      if ok {
        data := disk[block][off..off + n];
      }
    }

    method Write(block: nat, off: nat, data: Bytes) returns (ok: bool)
      requires Valid() && off + |data| <= B && off % progSize == 0 && |data| % progSize == 0
      modifies this`clock, this`disk
      ensures Valid() && Within(old(disk), disk, block, off, |data|)
      ensures ok && honest ==> block in disk && disk[block][off..off + |data|] == data
      ensures ok ==> block in disk
    {
      ok := block in disk && !fails(clock);
      if block in disk {
        var c, j, n := clock, junk, |data|;
        var stored := if ok && honest then data else seq(n, (i: nat) => j(c, i));
        var b := disk[block];
        disk := disk[block := b[..off] + stored + b[off + n..]];
        WithinOne(old(disk), disk, block, off, n, stored);
      }
      clock := clock + 1;
    }
  }

  // At most n bytes of one block differ.
  ghost predicate Within(d: Disk, e: Disk, block: nat, off: nat, n: nat) {
    && d.Keys == e.Keys && (forall b :: b in d && b != block ==> d[b] == e[b])
    && (block in d ==>
          && |d[block]| == |e[block]| && off + n <= |d[block]|
          && d[block][..off] == e[block][..off] && d[block][off + n..] == e[block][off + n..])
  }

  // no other block differs
  ghost predicate Only(d: Disk, e: Disk, block: nat) {
    d.Keys == e.Keys && forall b :: b in d && b != block ==> d[b] == e[b]
  }

  lemma WithinOne(d: Disk, e: Disk, block: nat, off: nat, n: nat, stored: Bytes)
    requires block in d && off + n <= |d[block]| && |stored| == n
    requires e == d[block := d[block][..off] + stored + d[block][off + n..]]
    ensures Within(d, e, block, off, n) && e[block][off..off + n] == stored
  {}

  // ----- caches -----

  class Cache {
    var block: nat
    var off: nat
    var size: nat
    const buffer: array<Byte>

    constructor (length: nat)
      ensures block == NULL && off == 0 && size == 0 && buffer.Length == length && fresh(buffer)
    {
      block, off, size, buffer := NULL, 0, 0, new Byte[length];
    }
  }

  // what a cache holds, as a value
  datatype Held = Held(block: nat, off: nat, bytes: Bytes)

  function Hold(c: Cache): Held
    reads c, c.buffer
    requires c.size <= c.buffer.Length
  {
    Held(c.block, c.off, c.buffer[..c.size])
  }

  // the read cache tells the truth about the device
  ghost predicate Coherent(d: Disk, r: Held) {
    r.block != NULL ==>
      r.block in d && r.off + |r.bytes| <= |d[r.block]| && r.bytes == d[r.block][r.off..r.off + |r.bytes|]
  }

  // the program cache covers a part of a block, from the start of a unit
  ghost predicate Fits(dev: Device, p: Held)
    reads dev
  {
    p.block != NULL ==>
      dev.progSize > 0 && p.off % dev.progSize == 0 && p.block in dev.disk && p.off + |p.bytes| <= dev.B
  }

  function Overlay(c: Cache?): Held
    reads c, if c == null then {} else {c.buffer}
    requires c == null || c.size <= c.buffer.Length
  {
    if c == null then Held(NULL, 0, []) else Hold(c)
  }

  // a block as reads are to see it
  function View(d: Disk, p: Held, b: nat): Bytes {
    if b !in d then []
    else if p.block == b && p.off + |p.bytes| <= |d[b]| then d[b][..p.off] + p.bytes + d[b][p.off + |p.bytes|..]
    else d[b]
  }

  // n bytes of a block as reads are to see it
  ghost predicate Shows(d: Disk, p: Held, block: nat, off: nat, out: Bytes) {
    && block in d && off + |out| <= |View(d, p, block)| && View(d, p, block)[off..off + |out|] == out
  }

  lemma ViewCached(d: Disk, p: Held, b: nat, off: nat, n: nat)
    requires b in d && p.block == b && p.off + |p.bytes| <= |d[b]|
    requires p.off <= off && off + n <= p.off + |p.bytes|
    ensures |View(d, p, b)| == |d[b]| && Shows(d, p, b, off, p.bytes[off - p.off..off - p.off + n])
  {}

  lemma ViewDevice(d: Disk, p: Held, b: nat, off: nat, n: nat)
    requires b in d && off + n <= |d[b]|
    requires p.block != b || off + n <= p.off || off >= p.off + |p.bytes|
    ensures |View(d, p, b)| == |d[b]| && Shows(d, p, b, off, d[b][off..off + n])
  {}

  // ----- lfs_bd_read -----

  // What a miss loads: from the unit of `off` on, towards `hint` bytes.
  function LoadSize(B: nat, unit: nat, length: nat, off: nat, hint: nat): int
    requires unit > 0
  {
    Min(Min(AlignUp(off + hint, unit), B) - AlignDown(off, unit), length)
  }

  // A miss is followed by a hit if and only if the hint is not zero, or the
  // position is not at the start of a unit anyway. Without that the read
  // would load nothing over and over again.
  lemma LoadCovers(B: nat, unit: nat, length: nat, off: nat, hint: nat)
    requires 0 < unit <= length && off < B && B % unit == 0
    ensures off < AlignDown(off, unit) + LoadSize(B, unit, length, off, hint) <==> hint > 0 || off % unit != 0
    ensures LoadSize(B, unit, length, off, hint) >= 0
    ensures length % unit == 0 ==> LoadSize(B, unit, length, off, hint) % unit == 0
  {
    hide AlignDown, AlignUp;
    var up, down := AlignUp(off + hint, unit), AlignDown(off, unit);
    if hint == 0 && off % unit == 0 {
      ModClose(up, off, unit);
    }
    ModSub(up, down, unit);
    ModSub(B, down, unit);
  }

  ghost predicate Usable(dev: Device, pcache: Cache?, rcache: Cache)
    reads dev, rcache, rcache.buffer, pcache, if pcache == null then {} else {pcache.buffer}
  {
    && dev.Valid() && rcache != pcache
    && (pcache != null ==> pcache.buffer != rcache.buffer && pcache.size <= pcache.buffer.Length)
    && Fits(dev, Overlay(pcache))
    && rcache.size <= rcache.buffer.Length && dev.readSize <= rcache.buffer.Length
    && rcache.buffer.Length % dev.readSize == 0
    && rcache.off % dev.readSize == 0
  }

  ghost predicate Ready(dev: Device, pcache: Cache?, rcache: Cache)
    reads dev, rcache, rcache.buffer, pcache, if pcache == null then {} else {pcache.buffer}
  {
    Usable(dev, pcache, rcache) && Coherent(dev.disk, Hold(rcache))
  }

  predicate Covers(h: Held, block: nat, off: nat) { h.block == block && h.off <= off < h.off + |h.bytes| }

  // at most n bytes of what a cache holds, from an offset in it
  method Take(c: Cache, off: nat, n: nat) returns (out: Bytes)
    requires c.size <= c.buffer.Length && c.off <= off < c.off + c.size && n > 0
    ensures 0 < |out| == Min(n, c.size - (off - c.off))
    ensures out == Hold(c).bytes[off - c.off..off - c.off + |out|]
  {
    var diff := Min(n, c.size - (off - c.off));
    out := c.buffer[off - c.off..off - c.off + diff];
    SubSlice(c.buffer[..], 0, c.size, off - c.off, diff);
  }

  // what a hit in the read cache gives
  lemma ViewHit(d: Disk, p: Held, r: Held, b: nat, off: nat, n: nat)
    requires Coherent(d, r) && r.block == b != NULL && r.off <= off && off + n <= r.off + |r.bytes|
    requires p.block != b || off + n <= p.off || off >= p.off + |p.bytes|
    ensures Shows(d, p, b, off, r.bytes[off - r.off..off - r.off + n])
  {
    ViewDevice(d, p, b, off, n);
    SubSlice(d[b], r.off, r.off + |r.bytes|, off - r.off, n);
  }

  // Fills the read cache around an offset.
  method Load(dev: Device, rcache: Cache, hint: nat, block: nat, off: nat) returns (ok: bool)
    requires dev.Valid() && off < dev.B && hint > 0 && block != NULL
    requires dev.readSize <= rcache.buffer.Length && rcache.buffer.Length % dev.readSize == 0
    modifies rcache, rcache.buffer, dev`clock
    ensures rcache.size <= rcache.buffer.Length && Coherent(dev.disk, Hold(rcache)) && rcache.off % dev.readSize == 0
    ensures ok ==> block in dev.disk && Covers(Hold(rcache), block, off)
    ensures !ok ==> block !in dev.disk || dev.fails(old(dev.clock))
    ensures dev.clock == old(dev.clock) + 1
  {
    LoadCovers(dev.B, dev.readSize, rcache.buffer.Length, off, hint);
    rcache.block := block;
    rcache.off := AlignDown(off, dev.readSize);
    rcache.size := LoadSize(dev.B, dev.readSize, rcache.buffer.Length, off, hint);
    var data;
    ok, data := dev.Read(rcache.block, rcache.off, rcache.size);
    if ok {
      forall i | 0 <= i < |data| { rcache.buffer[i] := data[i]; }
      assert rcache.buffer[..rcache.size] == data;
    } else {
      rcache.block := NULL;
    }
  }

  // Both caches are asked for the bytes. Without a hit, `diff` bytes are to
  // come from the device, none of which the program cache has.
  method ReadCached(dev: Device, pcache: Cache?, rcache: Cache, block: nat, off: nat, n: nat)
    returns (hit: bool, out: Bytes, diff: nat)
    requires Ready(dev, pcache, rcache) && n > 0 && off + n <= dev.B && block != NULL
    ensures hit ==> Shows(dev.disk, Overlay(pcache), block, off, out) && 0 < |out| <= n
    ensures !hit ==> Gap(Overlay(pcache), block, off, n, diff) && !Covers(Hold(rcache), block, off)
    ensures !hit && off % dev.readSize == 0 && n >= dev.readSize ==> diff >= dev.readSize
  {
    hide View, Coherent, Shows;
    ghost var p, r := Overlay(pcache), Hold(rcache);
    diff := n;
    if pcache != null && block == pcache.block && off < pcache.off + pcache.size {
      if off >= pcache.off {
        out := Take(pcache, off, diff);
        ViewCached(dev.disk, p, block, off, |out|);
        return true, out, diff;
      }
      UnitsApart(pcache.off, off, dev.progSize, dev.readSize);
      diff := Min(diff, pcache.off - off);
    }
    if block == rcache.block && off < rcache.off + rcache.size {
      if off >= rcache.off {
        out := Take(rcache, off, diff);
        ViewHit(dev.disk, p, r, block, off, |out|);
        return true, out, diff;
      }
      UnitsApart(rcache.off, off, dev.readSize, dev.readSize);
      diff := Min(diff, rcache.off - off);
    }
    return false, [], diff;
  }

  // the next `diff` of n bytes are not in the program cache
  ghost predicate Gap(p: Held, block: nat, off: nat, n: nat, diff: nat) {
    0 < diff <= n && (p.block != block || off + diff <= p.off || off >= p.off + |p.bytes|)
  }

  // starts of units are whole units apart
  lemma UnitsApart(a: nat, off: nat, big: nat, unit: nat)
    requires 0 < big && 0 < unit && a % big == 0 && big % unit == 0 && off < a
    ensures off % unit == 0 ==> a - off >= unit
  {
    ModTrans(a, big, unit);
    if off % unit == 0 && a - off < unit { ModClose(a, off, unit); }
  }

  // One round of the read loop: bytes from a cache or from the device, or the
  // read cache is loaded.
  method ReadSome(dev: Device, pcache: Cache?, rcache: Cache, hint: nat, block: nat, off: nat, n: nat)
    returns (ok: bool, out: Bytes)
    requires Ready(dev, pcache, rcache) && hint > 0 && n > 0 && off + n <= dev.B && block != NULL
    modifies rcache, rcache.buffer, dev`clock
    ensures Ready(dev, pcache, rcache) && old(dev.clock) <= dev.clock
    ensures !ok ==> Failed(dev, block, old(dev.clock))
    ensures ok ==> Shows(dev.disk, Overlay(pcache), block, off, out) && |out| <= n
    ensures ok && out == [] ==> !old(Covers(Hold(rcache), block, off)) && Covers(Hold(rcache), block, off)
  {
    hide View, Coherent, Covers, Shows;
    ok := true;
    var hit, diff;
    hit, out, diff := ReadCached(dev, pcache, rcache, block, off, n);
    if hit {
      return;
    }
    if n >= hint && off % dev.readSize == 0 && n >= dev.readSize {
      WholeUnits(diff, dev.readSize);
      diff := AlignDown(diff, dev.readSize);
      ok, out := dev.Read(block, off, diff);
      if ok { ViewDevice(dev.disk, Overlay(pcache), block, off, diff); }
      return;
    }
    ok := Load(dev, rcache, hint, block, off);
    out := [];
    if ok { ViewDevice(dev.disk, Overlay(pcache), block, off, 0); }
  }

  lemma WholeUnits(diff: nat, unit: nat)
    requires 0 < unit <= diff
    ensures AlignDown(diff, unit) >= unit
  {
    if AlignDown(diff, unit) < unit { ModClose(unit, AlignDown(diff, unit), unit); }
  }

  ghost predicate Failed(dev: Device, block: nat, since: nat)
    reads dev
  {
    block !in dev.disk || exists t :: since <= t < dev.clock && dev.fails(t)
  }

  // The bytes of the device overlaid by the program cache, whatever is cached
  // and however they are got together; the read cache stays coherent.
  method Read(dev: Device, pcache: Cache?, rcache: Cache, hint: nat, block: nat, off: nat, n: nat)
    returns (ok: bool, out: Bytes)
    requires Ready(dev, pcache, rcache) && hint > 0 && (dev.count == 0 ==> block != NULL)
    modifies rcache, rcache.buffer, dev`clock
    ensures Ready(dev, pcache, rcache) && old(dev.clock) <= dev.clock
    ensures off + n > dev.B || (dev.count != 0 && block >= dev.count) ==> !ok
    ensures !ok ==> off + n > dev.B || (dev.count != 0 && block >= dev.count) || Failed(dev, block, old(dev.clock))
    ensures ok ==> |out| == n && (n > 0 ==> Shows(dev.disk, Overlay(pcache), block, off, out))
  {
    hide View, Coherent, Covers, Hold;
    out := [];
    if off + n > dev.B || (dev.count != 0 && block >= dev.count) {
      return false, [];
    }
    while |out| < n
      invariant Ready(dev, pcache, rcache) && old(dev.clock) <= dev.clock && |out| <= n
      invariant out != [] ==> Shows(dev.disk, Overlay(pcache), block, off, out)
      decreases n - |out|, if Covers(Hold(rcache), block, off + |out|) then 0 else 1
    {
      var more;
      ok, more := ReadSome(dev, pcache, rcache, hint, block, off + |out|, n - |out|);
      if !ok {
        return false, [];
      }
      ShowsMore(dev.disk, Overlay(pcache), block, off, out, more);
      out := out + more;
    }
    ok := true;
  }

  lemma ShowsMore(d: Disk, p: Held, block: nat, off: nat, out: Bytes, more: Bytes)
    requires out != [] ==> Shows(d, p, block, off, out)
    requires Shows(d, p, block, off + |out|, more)
    ensures Shows(d, p, block, off, out + more)
  {
    var v := View(d, p, block);
    assert v[off..off + |out + more|] == v[off..off + |out|] + v[off + |out|..off + |out| + |more|];
  }

  // ----- lfs_bd_cmp -----

  // The first difference decides.
  lemma {:induction false} CompareFirst(p: Bytes, x: Bytes, y: Bytes, s: Bytes, t: Bytes)
    requires |x| == |y| && x != y
    ensures Compare(p + x + s, p + y + t) == Compare(x, y)
    decreases |p| + |x|
  {
    if p == [] {
      assert p + x + s == x + s && p + y + t == y + t;
      assert (x + s)[1..] == x[1..] + s && (y + t)[1..] == y[1..] + t;
      if x[0] == y[0] {
        assert x == [x[0]] + x[1..] && y == [y[0]] + y[1..];
        CompareFirst([], x[1..], y[1..], s, t);
        assert [] + x[1..] + s == x[1..] + s && [] + y[1..] + t == y[1..] + t;
      }
    } else {
      CompareFirst(p[1..], x, y, s, t);
      assert (p + x + s)[1..] == p[1..] + x + s && (p + y + t)[1..] == p[1..] + y + t;
    }
  }

  // r is the order of the bytes of a block and those they are compared with
  ghost predicate Decides(v: Bytes, off: nat, data: Bytes, r: Ordering) {
    off + |data| <= |v| ==> r == Compare(v[off..off + |data|], data)
  }

  lemma FirstDiffers(v: Bytes, off: nat, data: Bytes, p: Bytes, x: Bytes, y: Bytes, t: Bytes)
    requires data == p + y + t && |x| == |y| && x != y
    requires off + |p + x| <= |v| && v[off..off + |p + x|] == p + x
    ensures Decides(v, off, data, Compare(x, y))
  {
    hide Compare;
    if off + |data| <= |v| {
      var k, n := off + |p + x|, off + |data|;
      Split2(v, off, k, n);
      Differ(v[off..n], data, p, v[off..k], x, y, v[k..n], t);
    }
  }

  lemma Differ(w: Bytes, data: Bytes, p: Bytes, px: Bytes, x: Bytes, y: Bytes, s: Bytes, t: Bytes)
    requires w == px + s && px == p + x && data == p + y + t && |x| == |y| && x != y
    ensures Compare(w, data) == Compare(x, y)
  {
    CompareFirst(p, x, y, s, t);
  }

  lemma Split2(v: Bytes, a: nat, b: nat, c: nat)
    requires a <= b <= c <= |v|
    ensures v[a..c] == v[a..b] + v[b..c]
  {}

  // Compared eight bytes at a time, up to the first difference.
  method Cmp(dev: Device, pcache: Cache?, rcache: Cache, hint: nat, block: nat, off: nat, data: Bytes)
    returns (ok: bool, r: Ordering)
    requires Ready(dev, pcache, rcache) && hint >= |data| && (dev.count == 0 ==> block != NULL)
    modifies rcache, rcache.buffer, dev`clock
    ensures Ready(dev, pcache, rcache) && old(dev.clock) <= dev.clock
    ensures ok && data != [] ==> block in dev.disk && Decides(View(dev.disk, Overlay(pcache), block), off, data, r)
    ensures ok && r == Equal && data != [] ==> Shows(dev.disk, Overlay(pcache), block, off, data)
  {
    hide View, Coherent, Hold, Fits, Compare, Overlay, Decides;
    ghost var p := Overlay(pcache);
    var i := 0;
    while i < |data|
      invariant Ready(dev, pcache, rcache) && old(dev.clock) <= dev.clock && i <= |data|
      invariant i > 0 ==> Shows(dev.disk, p, block, off, data[..i])
      decreases |data| - i
    {
      var diff := Min(|data| - i, 8);
      var dat;
      ok, dat := Read(dev, pcache, rcache, hint - i, block, off + i, diff);
      if !ok {
        return false, Equal;
      }
      ShowsMore(dev.disk, p, block, off, data[..i], dat);
      r := Compare(dat, data[i..i + diff]);
      CompareEqual(dat, data[i..i + diff]);
      if r != Equal {
        Split3(data, i, diff);
        FirstDiffers(View(dev.disk, p, block), off, data, data[..i], dat, data[i..i + diff], data[i + diff..]);
        return;
      }
      assert data[..i + diff] == data[..i] + dat;
      i := i + diff;
    }
    assert data[..|data|] == data;
    CompareEqual(data, data);
    if data != [] { AllSame(View(dev.disk, p, block), off, data); }
    return true, Equal;
  }

  lemma AllSame(v: Bytes, off: nat, data: Bytes)
    requires off + |data| <= |v| && v[off..off + |data|] == data
    ensures Decides(v, off, data, Equal)
  {
    CompareEqual(data, data);
  }

  lemma Split3(s: Bytes, i: nat, n: nat)
    requires i + n <= |s|
    ensures s == s[..i] + s[i..i + n] + s[i + n..]
  {}

  // ----- lfs_bd_flush -----

  const NOTHING := Held(NULL, 0, [])

  // From d to e a block took in what the cache held for it: up to the end of
  // that the block reads as before, and behind it at most the rest of the
  // program unit differs.
  ghost predicate Flushed(d: Disk, e: Disk, p: Held) {
    && p.block in d && p.block in e && |d[p.block]| == |e[p.block]| && p.off + |p.bytes| <= |d[p.block]|
    && e[p.block][..p.off + |p.bytes|] == View(d, p, p.block)[..p.off + |p.bytes|]
    && forall b :: b in d && b != p.block ==> b in e && d[b] == e[b]
  }

  lemma FlushedBy(d: Disk, e: Disk, p: Held, data: Bytes)
    requires p.block in d && p.block != NULL && p.off + |p.bytes| <= |d[p.block]|
    requires |p.bytes| <= |data| && data[..|p.bytes|] == p.bytes
    requires Within(d, e, p.block, p.off, |data|) && Shows(e, NOTHING, p.block, p.off, data)
    ensures Flushed(d, e, p)
  {
    var b, k := p.block, p.off + |p.bytes|;
    Split2(e[b], 0, p.off, k);
    SubSlice(e[b], p.off, p.off + |data|, 0, |p.bytes|);
    var v := View(d, p, b);
    assert v[..k] == d[b][..p.off] + p.bytes;
    assert e[b][..p.off] == e[b][0..p.off];
    assert e[b][..k] == e[b][0..k];
  }

  method Zero(c: Cache)
    modifies c`block, c.buffer
    ensures c.block == NULL
    ensures forall i :: 0 <= i < c.buffer.Length ==> c.buffer[i] == 0xff
  {
    forall i | 0 <= i < c.buffer.Length { c.buffer[i] := 0xff; }
    c.block := NULL;
  }

  // Writes the program cache out. If that fails the cache still holds its
  // bytes; with `validate` success means that the device has them.
  method Flush(dev: Device, pcache: Cache, rcache: Cache, validate: bool) returns (ok: bool)
    requires Usable(dev, pcache, rcache) && pcache.buffer.Length % dev.progSize == 0
    modifies dev`disk, dev`clock, pcache`block, pcache.buffer, rcache, rcache.buffer
    ensures Usable(dev, pcache, rcache) && Only(old(dev.disk), dev.disk, old(pcache.block))
    ensures !validate ==> Hold(rcache) == old(Hold(rcache))
    ensures ok && validate && old(pcache.block) != NULL ==> Coherent(dev.disk, Hold(rcache))
    ensures old(pcache.block) == NULL ==> ok && dev.disk == old(dev.disk) && Hold(pcache) == old(Hold(pcache))
    ensures ok ==> pcache.block == NULL
    ensures ok && old(pcache.block) != NULL && (dev.honest || validate) ==>
            Flushed(old(dev.disk), dev.disk, old(Hold(pcache)))
    ensures !ok ==> Hold(pcache) == old(Hold(pcache))
    ensures !ok ==> Within(old(dev.disk), dev.disk, pcache.block, pcache.off, AlignUp(pcache.size, dev.progSize))
  {
    hide View, Coherent, Flushed, Within;
    if pcache.block == NULL {
      return true;
    }
    ghost var d, p := dev.disk, Hold(pcache);
    var diff := AlignUp(pcache.size, dev.progSize);
    PadFits(pcache.size, dev.progSize, pcache.buffer.Length, pcache.off, dev.B);
    var data := pcache.buffer[..diff];
    assert data[..|p.bytes|] == p.bytes;
    ok := WriteOut(dev, rcache, validate, pcache.block, pcache.off, data);
    OnlyWithin(d, dev.disk, pcache.block, pcache.off, diff);
    if ok {
      if dev.honest || validate {
        FlushedBy(d, dev.disk, p, data);
      }
      Zero(pcache);
    }
  }

  lemma OnlyWithin(d: Disk, e: Disk, block: nat, off: nat, n: nat)
    requires Within(d, e, block, off, n)
    ensures Only(d, e, block)
  {}

  lemma PadFits(size: nat, unit: nat, length: nat, off: nat, B: nat)
    requires unit > 0 && length % unit == 0 && off % unit == 0 && B % unit == 0 && size <= length && off + size <= B
    ensures AlignUp(size, unit) <= length && off + AlignUp(size, unit) <= B
  {
    UnitsFit(size, unit, length);
    ModSub(B, off, unit);
    UnitsFit(size, unit, B - off);
  }

  // Programs whole units and, to validate, reads them back.
  method WriteOut(dev: Device, rcache: Cache, validate: bool, block: nat, off: nat, data: Bytes) returns (ok: bool)
    requires Usable(dev, null, rcache) && block in dev.disk && block != NULL
    requires off + |data| <= dev.B && off % dev.progSize == 0 && |data| % dev.progSize == 0
    modifies dev`disk, dev`clock, rcache, rcache.buffer
    ensures Usable(dev, null, rcache) && Within(old(dev.disk), dev.disk, block, off, |data|)
    ensures !validate ==> Hold(rcache) == old(Hold(rcache))
    ensures validate ==> !ok || Coherent(dev.disk, Hold(rcache))
    ensures ok && (dev.honest || validate) ==> block in dev.disk && Shows(dev.disk, NOTHING, block, off, data)
  {
    ok := dev.Write(block, off, data);
    if ok && validate {
      ok := Verify(dev, rcache, block, off, data);
    }
  }

  // Reads back what was programmed, past whatever the read cache holds.
  method Verify(dev: Device, rcache: Cache, block: nat, off: nat, data: Bytes) returns (ok: bool)
    requires Usable(dev, null, rcache) && block in dev.disk && block != NULL && off + |data| <= dev.B
    modifies rcache, rcache.buffer, dev`clock
    ensures Ready(dev, null, rcache)
    ensures ok ==> dev.disk[block][off..off + |data|] == data
  {
    rcache.block := NULL;
    var r;
    ok, r := Cmp(dev, null, rcache, |data|, block, off, data);
    ok := ok && r == Equal;
  }

  // ----- lfs_bd_prog -----

  // The program cache is free or already where the bytes go.
  predicate Accepts(c: Cache, block: nat, off: nat)
    reads c
  {
    c.block == NULL || (c.block == block && c.off <= off < c.off + c.buffer.Length)
  }

  // Bytes that follow what is cached, or start a program unit.
  predicate InOrder(p: Held, unit: nat, off: nat)
    requires unit > 0
  {
    if p.block == NULL then off % unit == 0 else off <= p.off + |p.bytes|
  }

  // Puts bytes into the cache, whatever was there.
  method Put(c: Cache, at: nat, data: Bytes)
    requires c.size <= c.buffer.Length && at + |data| <= c.buffer.Length
    modifies c`size, c.buffer
    ensures c.size == Max(old(c.size), at + |data|)
    ensures Hold(c).bytes[at..at + |data|] == data
    ensures at <= old(c.size) ==> Hold(c).bytes[..at] == old(Hold(c).bytes[..at])
  {
    forall i | 0 <= i < |data| { c.buffer[at + i] := data[i]; }
    c.size := Max(c.size, at + |data|);
    Cut(old(c.buffer[..]), old(c.size), at, 0);
    Cut(c.buffer[..], c.size, at, |data|);
    assert c.buffer[..][at..at + |data|] == data && c.buffer[..][..at] == old(c.buffer[..])[..at];
  }

  lemma Cut(s: Bytes, size: nat, at: nat, n: nat)
    requires size <= |s|
    ensures at <= size ==> s[..size][..at] == s[..at]
    ensures at + n <= size ==> s[..size][at..at + n] == s[at..at + n]
  {
    if at + n <= size {
      assert s[..size] == s[0..size];
      SubSlice(s, 0, size, at, n);
    }
  }

  function Max(a: nat, b: nat): nat { if a > b then a else b }

  // What reads see of the block after bytes were put into the cache.
  lemma PutShows(d: Disk, p: Held, q: Held, off: nat, data: Bytes)
    requires q.block == p.block && q.off == p.off && p.block in d && p.off <= off <= p.off + |p.bytes|
    requires p.off + |p.bytes| <= |d[p.block]| && q.off + |q.bytes| <= |d[p.block]|
    requires |q.bytes| >= off - p.off + |data|
    requires q.bytes[..off - p.off] == p.bytes[..off - p.off]
    requires q.bytes[off - p.off..off - p.off + |data|] == data
    ensures Extended(View(d, p, p.block), View(d, q, p.block), off, data)
  {
    hide View;
    var k := off + |data|;
    CachedPrefix(d, p, off);
    CachedPrefix(d, q, k);
    Split2(q.bytes, 0, off - p.off, k - p.off);
    assert q.bytes[..k - p.off] == p.bytes[..off - p.off] + data;
  }

  lemma CachedPrefix(d: Disk, p: Held, k: nat)
    requires p.block in d && p.off <= k <= p.off + |p.bytes| <= |d[p.block]|
    ensures |View(d, p, p.block)| == |d[p.block]|
    ensures View(d, p, p.block)[..k] == d[p.block][..p.off] + p.bytes[..k - p.off]
  {}

  // w holds what v holds up to `off`, then the bytes
  ghost predicate Extended(v: Bytes, w: Bytes, off: nat, data: Bytes) {
    |v| == |w| && off + |data| <= |v| && w[..off + |data|] == v[..off] + data
  }

  lemma ExtendedTwice(u: Bytes, v: Bytes, w: Bytes, off: nat, data: Bytes, more: Bytes)
    requires Extended(u, v, off, data) && Extended(v, w, off + |data|, more)
    ensures Extended(u, w, off, data + more)
  {
    assert u[..off] + (data + more) == u[..off] + data + more;
  }

  // Flushing shows no more than what was seen already.
  lemma FlushShows(d: Disk, e: Disk, q: Held, v: Bytes, off: nat, data: Bytes)
    requires Flushed(d, e, q) && d.Keys == e.Keys && Extended(v, View(d, q, q.block), off, data)
    requires off + |data| <= q.off + |q.bytes| && q.block != NULL
    ensures Extended(v, View(e, NOTHING, q.block), off, data) && Only(d, e, q.block)
  {
    var k, m := off + |data|, q.off + |q.bytes|;
    var w, x := View(d, q, q.block), View(e, NOTHING, q.block);
    assert w[..k] == w[..m][..k];
    assert x[..k] == x[..m][..k];
  }

  // A failed flush of a full cache shows nothing at all.
  lemma FailureHidden(d: Disk, e: Disk, q: Held, n: nat)
    requires q.block in d && Within(d, e, q.block, q.off, n) && |q.bytes| == n
    ensures View(e, q, q.block) == View(d, q, q.block) && Only(d, e, q.block)
  {}

  ghost predicate CanProg(dev: Device, pcache: Cache, rcache: Cache)
    reads dev, rcache, rcache.buffer, pcache, pcache.buffer
  {
    && Usable(dev, pcache, rcache) && 0 < pcache.buffer.Length && pcache.buffer.Length % dev.progSize == 0
    && (pcache.block != NULL ==> pcache.size < pcache.buffer.Length)
  }

  // The cache opened at an offset, or already there.
  method Open(dev: Device, pcache: Cache, rcache: Cache, block: nat, off: nat)
    requires CanProg(dev, pcache, rcache) && Accepts(pcache, block, off)
    requires block in dev.disk && block != NULL && off < dev.B
    modifies pcache`block, pcache`off, pcache`size
    ensures CanProg(dev, pcache, rcache) && pcache.block == block
    ensures pcache.off <= off < pcache.off + pcache.buffer.Length
    ensures View(dev.disk, Hold(pcache), block) == old(View(dev.disk, Hold(pcache), block))
    ensures old(InOrder(Hold(pcache), dev.progSize, off)) ==> off <= pcache.off + pcache.size
  {
    if block == pcache.block && off >= pcache.off && off < pcache.off + pcache.buffer.Length {
      return;
    }
    UnitBelow(off, dev.progSize, pcache.buffer.Length);
    pcache.block := block;
    pcache.off := AlignDown(off, dev.progSize);
    pcache.size := 0;
  }

  lemma UnitBelow(off: nat, unit: nat, length: nat)
    requires 0 < unit && 0 < length && length % unit == 0
    ensures off - AlignDown(off, unit) < length
    ensures off % unit == 0 ==> AlignDown(off, unit) == off
  {
    if length < unit { ModClose(unit, length, unit); }
    if off % unit == 0 { ModClose(off, AlignDown(off, unit), unit); }
  }

  // As many bytes as fit go into the cache.
  method Fill(dev: Device, pcache: Cache, rcache: Cache, block: nat, off: nat, data: Bytes) returns (n: nat)
    requires CanProg(dev, pcache, rcache) && Accepts(pcache, block, off) && data != []
    requires block in dev.disk && block != NULL && off + |data| <= dev.B
    modifies pcache, pcache.buffer
    ensures 0 < n <= |data| && Usable(dev, pcache, rcache)
    ensures pcache.block == block && pcache.off <= off && off + n <= pcache.off + pcache.size
    ensures n < |data| ==> off + n == pcache.off + pcache.buffer.Length
    ensures old(InOrder(Hold(pcache), dev.progSize, off)) ==>
              Extended(old(View(dev.disk, Hold(pcache), block)), View(dev.disk, Hold(pcache), block), off, data[..n])
  {
    hide View, Extended;
    Open(dev, pcache, rcache, block, off);
    ghost var p := Hold(pcache);
    n := Min(|data|, pcache.buffer.Length - (off - pcache.off));
    Put(pcache, off - pcache.off, data[..n]);
    ghost var q := Hold(pcache);
    if off <= p.off + |p.bytes| {
      PutShows(dev.disk, p, q, off, data[..n]);
    }
  }

  // Writes a full cache out. What is seen of its block stays, even if that fails.
  method FlushFull(dev: Device, pcache: Cache, rcache: Cache, validate: bool, ghost v: Bytes, ghost off: nat,
                   ghost data: Bytes)
    returns (ok: bool)
    requires Usable(dev, pcache, rcache) && pcache.buffer.Length % dev.progSize == 0 && pcache.block != NULL
    requires pcache.size == pcache.buffer.Length && off + |data| <= pcache.off + pcache.size
    modifies dev`disk, dev`clock, pcache`block, pcache.buffer, rcache, rcache.buffer
    ensures Usable(dev, pcache, rcache) && Only(old(dev.disk), dev.disk, old(pcache.block))
    ensures pcache.block == if ok then NULL else old(pcache.block)
    ensures (dev.honest || validate) && Extended(v, old(View(dev.disk, Hold(pcache), pcache.block)), off, data) ==>
              Extended(v, View(dev.disk, Hold(pcache), old(pcache.block)), off, data)
  {
    hide View, Extended, Within, Flushed;
    ghost var d, q := dev.disk, Hold(pcache);
    UnitsFit(pcache.size, dev.progSize, pcache.size);
    ok := Flush(dev, pcache, rcache, validate);
    if ok {
      if (dev.honest || validate) && Extended(v, View(d, q, q.block), off, data) {
        FlushShows(d, dev.disk, q, v, off, data);
        ViewNothing(dev.disk, Hold(pcache), q.block);
      }
    } else {
      FailureHidden(d, dev.disk, q, AlignUp(pcache.size, dev.progSize));
    }
  }

  lemma ViewNothing(d: Disk, p: Held, b: nat)
    requires p.block == NULL && b != NULL
    ensures View(d, p, b) == View(d, NOTHING, b)
  {}

  // One round: the cache is filled, and written out when it is full.
  method ProgSome(dev: Device, pcache: Cache, rcache: Cache, validate: bool, block: nat, off: nat, data: Bytes)
    returns (ok: bool, n: nat)
    requires CanProg(dev, pcache, rcache) && Accepts(pcache, block, off) && data != []
    requires block in dev.disk && block != NULL && off + |data| <= dev.B
    modifies dev`disk, dev`clock, pcache, pcache.buffer, rcache, rcache.buffer
    ensures 0 < n <= |data| && Only(old(dev.disk), dev.disk, block) && Usable(dev, pcache, rcache)
    ensures pcache.block == block || pcache.block == NULL
    ensures ok ==> CanProg(dev, pcache, rcache) && (n < |data| ==> Follows(pcache, dev.progSize, block, off + n))
    ensures (dev.honest || validate) && old(InOrder(Hold(pcache), dev.progSize, off)) ==>
              Extended(old(View(dev.disk, Hold(pcache), block)), View(dev.disk, Hold(pcache), block), off, data[..n])
  {
    hide View, Extended, Coherent;
    ghost var v := View(dev.disk, Hold(pcache), block);
    n := Fill(dev, pcache, rcache, block, off, data);
    ok := true;
    ghost var end := pcache.off + pcache.buffer.Length;
    if pcache.size == pcache.buffer.Length {
      NextUnit(pcache.off, pcache.buffer.Length, dev.progSize);
      ok := FlushFull(dev, pcache, rcache, validate, v, off, data[..n]);
    }
  }

  lemma NextUnit(off: nat, length: nat, unit: nat)
    requires unit > 0
    ensures off % unit == 0 && length % unit == 0 ==> (off + length) % unit == 0
  {
    if off % unit == 0 && length % unit == 0 { ModSub(off, length, unit); }
  }

  // The cache takes bytes at that offset of the block next, in order.
  predicate Follows(c: Cache, unit: nat, block: nat, off: nat)
    requires unit > 0
    reads c, c.buffer
    requires c.size <= c.buffer.Length
  {
    Accepts(c, block, off) && InOrder(Hold(c), unit, off)
  }

  // Programs bytes through the cache. On a device that tells the truth, or
  // with validation, bytes programmed in order are what reads see from then
  // on, behind what they saw before; and if it fails, what lies before is
  // still seen.
  method Prog(dev: Device, pcache: Cache, rcache: Cache, validate: bool, block: nat, off: nat, data: Bytes)
    returns (ok: bool)
    requires CanProg(dev, pcache, rcache) && (data != [] ==> Accepts(pcache, block, off))
    requires block in dev.disk && block != NULL && off + |data| <= dev.B
    modifies dev`disk, dev`clock, pcache, pcache.buffer, rcache, rcache.buffer
    ensures Usable(dev, pcache, rcache) && Only(old(dev.disk), dev.disk, block)
    ensures ok ==> CanProg(dev, pcache, rcache)
    ensures if data == [] then Hold(pcache) == old(Hold(pcache)) else pcache.block == block || pcache.block == NULL
    ensures (dev.honest || validate) && old(InOrder(Hold(pcache), dev.progSize, off)) ==>
              exists n: nat ::
                && n <= |data| && (ok ==> n == |data|)
                && Extended(old(View(dev.disk, Hold(pcache), block)), View(dev.disk, Hold(pcache), block), off,
                            data[..n])
  {
    hide View, Extended, Coherent, Only;
    ghost var d, v := dev.disk, View(dev.disk, Hold(pcache), block);
    OnlyThat(d, d, d, block);
    ghost var truth := (dev.honest || validate) && InOrder(Hold(pcache), dev.progSize, off);
    SeenWhole(dev, pcache, rcache, block, off);
    var i := 0;
    ok := true;
    while i < |data|
      invariant i <= |data| && CanProg(dev, pcache, rcache) && Only(d, dev.disk, block) && block in dev.disk
      invariant i < |data| ==> Accepts(pcache, block, off + i)
      invariant if i == 0 then Hold(pcache) == old(Hold(pcache)) else pcache.block == block || pcache.block == NULL
      invariant truth && i < |data| ==> InOrder(Hold(pcache), dev.progSize, off + i)
      invariant truth ==> Extended(v, View(dev.disk, Hold(pcache), block), off, data[..i])
      decreases |data| - i
    {
      ghost var c, u := dev.disk, View(dev.disk, Hold(pcache), block);
      var n;
      ok, n := ProgSome(dev, pcache, rcache, validate, block, off + i, data[i..]);
      OnlyThat(d, c, dev.disk, block);
      if truth {
        ExtendedTwice(v, u, View(dev.disk, Hold(pcache), block), off, data[..i], data[i..][..n]);
        TakeMore(data, i, n);
      }
      if !ok {
        return;
      }
      i := i + n;
    }
  }

  lemma OnlyThat(d: Disk, e: Disk, f: Disk, block: nat)
    ensures Only(d, d, block) && (Only(d, e, block) && Only(e, f, block) ==> Only(d, f, block))
    ensures Only(d, e, block) ==> d.Keys == e.Keys
  {}

  lemma SeenWhole(dev: Device, pcache: Cache, rcache: Cache, block: nat, off: nat)
    requires Usable(dev, pcache, rcache) && block in dev.disk && off <= dev.B
    ensures Extended(View(dev.disk, Hold(pcache), block), View(dev.disk, Hold(pcache), block), off, [])
  {}
}
