/**
 file/ops.rs: reading and writing a file that is stored as a skip list. While
 it is written the file has two lists, the one of the last flush and the one
 being built; only blocks of neither are written, until they become the tip.
 */
module File {
  import opened Arith
  import opened Octets
  import Sequences
  import opened Util
  import opened CtzIndex
  import opened SkipList
  import opened Volume
  import opened Extend

  // ----- the file as an array of bytes -----

  function Tail(v: Bytes, p: nat): Bytes { if p < |v| then v[p..] else [] }

  function Head(v: Bytes, p: nat): Bytes { if p <= |v| then v[..p] else v + seq(p - |v|, _ => 0) }

  // Writing behind the end fills the gap with zeros.
  function Written(v: Bytes, p: nat, data: Bytes): Bytes { Head(v, p) + data + Tail(v, p + |data|) }

  // at most n bytes from position p
  function Sub(v: Bytes, p: nat, n: nat): Bytes {
    if p >= |v| then [] else v[p..p + Min(n, |v| - p)]
  }

  // ----- positions in a list -----

  // `off` of `block` is where position `pos` lies, or the end of the block before.
  ghost predicate At(B: nat, bs: seq<Block>, block: Block, off: nat, pos: nat) {
    exists n :: 0 <= n < |bs| && bs[n] == block && AtBlock(B, n, off, pos)
  }

  ghost predicate AtBlock(B: nat, n: nat, off: nat, pos: nat) {
    Header(n) <= off <= B && pos == Start(B, n) + (off - Header(n))
  }

  function SetOf(bs: seq<Block>): set<Block> { set b | b in bs }

  // A list all of whose blocks are in use is the same after blocks not in use change.
  lemma Spared(B: nat, d: Disk, e: Disk, bs: seq<Block>, live: set<Block>)
    requires Listed(B, d, bs) && Sound(B, e) && Spares(d, e, live)
    requires forall b :: b in bs ==> b in live
    ensures Same(d, e, bs) && Listed(B, e, bs) && Flat(B, e, bs) == Flat(B, d, bs)
  {
    ListedFrame(B, d, e, bs);
    FlatFrame(B, d, e, bs);
  }

  // The tip of a list being written is in a block of its own.
  ghost predicate Own(others: set<Block>, base: seq<Block>, tip: seq<Block>, block: Block) {
    tip != [] && block !in others && block !in base && block !in tip[..|tip| - 1]
  }

  lemma Moved(B: nat, d: Disk, e: Disk, live: set<Block>, tip: seq<Block>, block: Block, off: nat, pos: nat,
              nblock: Block)
    requires Tip(B, d, tip, block, off, pos) && Sound(B, e) && Spares(d, e, live)
    requires forall b :: b in tip ==> b in live
    requires nblock !in live && nblock in e && block in e && e[nblock][..off] == e[block][..off]
    ensures Tip(B, e, tip[..|tip| - 1] + [nblock], nblock, off, pos)
    ensures Content(B, e, tip[..|tip| - 1] + [nblock], pos) == Content(B, d, tip, pos)
  {
    hide Linked, Start, Header, Content, Flat;
    Spared(B, d, e, tip, live);
    assert block in tip;
    SwapLast(B, d, e, tip, block, nblock, off, pos);
  }

  // Erases a block that is not in use and copies the head of another to it.
  method CopyTo(vol: Volume, from: Block, to: Block, n: nat, ghost live: set<Block>) returns (ok: bool)
    requires vol.Valid() && from in vol.disk && to in vol.disk && n <= vol.B && from in live && to !in live
    modifies vol`disk, vol`clock
    ensures vol.Valid() && Spares(old(vol.disk), vol.disk, live)
    ensures ok ==> vol.disk[to][..n] == vol.disk[from][..n]
  {
    ok := vol.Erase(to);
    if ok {
      ok := CopyHead(vol, from, to, n);
    }
  }

  lemma SparesSelf(d: Disk, live: set<Block>)
    ensures Spares(d, d, live)
  {}

  lemma SparesThen(d: Disk, e: Disk, f: Disk, live: set<Block>)
    requires Spares(d, e, live) && Spares(e, f, live)
    ensures Spares(d, f, live)
  {}

  datatype WriteResult = Ok | TooBig | NoSpace

  class File {
    const vol: Volume
    const others: set<Block>    // blocks of everything else, the committed list included
    const fileMax: nat
    const append: bool
    var head: Block             // the list of the last flush
    var size: nat
    var pos: nat
    var block: Block
    var off: nat
    var reading: bool
    var writing: bool
    var dirty: bool
    var base: seq<Block>        // its blocks and those of the list being written,
    var tip: seq<Block>         // as a scan for free blocks finds them

    constructor (vol: Volume, others: set<Block>, fileMax: nat, append: bool, head: Block, size: nat, base: seq<Block>)
      requires vol.Valid() && fileMax < WORD && Heads(vol.B, vol.disk, base, head, size)
      ensures Valid() && this.vol == vol && this.others == others && this.base == base
      ensures !writing && !reading && pos == 0 && this.head == head && this.size == size
      ensures this.fileMax == fileMax && this.append == append
    {
      this.vol, this.others, this.fileMax, this.append := vol, others, fileMax, append;
      this.head, this.size, pos, block, off := head, size, 0, NULL, 0;
      reading, writing, dirty := false, false, false;
      this.base, tip := base, [];
    }

    ghost predicate Stored()
      reads this, vol
    {
      && vol.Valid() && fileMax < WORD && Heads(vol.B, vol.disk, base, head, size)
    }

    // The list being written ends in a block of its own.
    ghost predicate Writing()
      reads this, vol
    {
      && Tip(vol.B, vol.disk, tip, block, off, pos) && pos < WORD
      && Own(others, base, tip, block)
      && (append ==> pos >= size)
    }

    ghost predicate Valid()
      reads this, vol
    {
      && Stored() && pos < WORD
      && !(reading && writing)
      && (reading ==> At(vol.B, base, block, off, pos))
      && (writing ==> Writing() && Start(vol.B, |tip| - 1) < pos)
    }

    // the bytes before the position
    ghost function Before(): Bytes
      reads this, vol
    {
      if writing then Content(vol.B, vol.disk, tip, pos) else Head(Content(vol.B, vol.disk, base, size), pos)
    }

    // the contents of the file
    ghost function View(): Bytes
      reads this, vol
    {
      var was := Content(vol.B, vol.disk, base, size);
      if writing then Content(vol.B, vol.disk, tip, pos) + Tail(was, pos) else was
    }

    function Live(): set<Block>
      reads this
    {
      others + SetOf(base) + SetOf(tip)
    }

    // ----- lfs_file_relocate -----

    // The written part of the tip moves to a fresh block.
    method Relocate() returns (ok: bool)
      requires Stored() && Writing()
      modifies this`block, this`tip, vol
      ensures vol.Valid() && Spares(old(vol.disk), vol.disk, others + SetOf(base))
      ensures |vol.candidates| <= |old(vol.candidates)|
      ensures ok ==> Stored() && Writing() && |tip| == |old(tip)| && |vol.candidates| < |old(vol.candidates)|
      ensures ok ==> Content(vol.B, vol.disk, tip, pos) == old(Content(vol.B, vol.disk, tip, pos))
    {
      hide Listed, Start, Header, Content, Heads;
      ghost var d, live := vol.disk, Live();
      TipThere(vol.B, d, tip, block, off, pos);
      while true
        invariant tip == old(tip) && block == old(block)
        invariant vol.Valid() && Spares(d, vol.disk, live) && |vol.candidates| <= |old(vol.candidates)|
        decreases |vol.candidates|
      {
        var r := vol.Alloc(Live());
        if r.None? {
          return false;
        }
        var nblock := r.value;
        ok := CopyTo(vol, block, nblock, off, live);
        if ok {
          HeadsSpared(vol.B, d, vol.disk, base, head, size, live);
          Moved(vol.B, d, vol.disk, live, tip, block, off, pos, nblock);
          tip := tip[..|tip| - 1] + [nblock];
          block := nblock;
          assert tip[..|tip| - 1] == old(tip)[..|tip| - 1];
          return true;
        }
      }
    }

    // ----- lfs_file_flushedwrite -----

    // Programs bytes behind the position, in another block if need be.
    method Program(chunk: Bytes) returns (ok: bool)
      requires Stored() && Writing() && off + |chunk| <= vol.B && pos + |chunk| < WORD
      modifies this`block, this`tip, this`off, this`pos, vol
      ensures vol.Valid() && Spares(old(vol.disk), vol.disk, others + SetOf(base))
      ensures |vol.candidates| <= |old(vol.candidates)|
      ensures ok ==> Stored() && Writing() && pos == old(pos) + |chunk|
      ensures ok ==> |tip| == |old(tip)| && off == old(off) + |chunk|
      ensures ok ==> Content(vol.B, vol.disk, tip, pos) == old(Content(vol.B, vol.disk, tip, pos)) + chunk
    {
      hide Listed, Start, Header, Content, Heads;
      ghost var d, keep := vol.disk, others + SetOf(base);
      while true
        invariant Stored() && Writing() && off == old(off) && pos == old(pos) && |tip| == |old(tip)|
        invariant Content(vol.B, vol.disk, tip, pos) == old(Content(vol.B, vol.disk, tip, pos))
        invariant Spares(d, vol.disk, keep) && |vol.candidates| <= |old(vol.candidates)|
        decreases |vol.candidates|
      {
        ghost var e := vol.disk;
        TipThere(vol.B, e, tip, block, off, pos);
        ok := vol.Prog(block, off, chunk);
        HeadsSpared(vol.B, e, vol.disk, base, head, size, keep);
        Rewritten(vol.B, e, vol.disk, tip, block, off, pos);
        if ok {
          Advanced(vol.B, vol.disk, tip, block, off, pos, chunk);
          off, pos := off + |chunk|, pos + |chunk|;
          return true;
        }
        ok := Relocate();
        if !ok {
          return false;
        }
      }
    }

    // The list the next block is put behind: the one being written, or the
    // old list up to the byte before the position.
    method ListBehind()
      requires Valid() && (if writing then off == vol.B else pos <= size)
      modifies this`block, this`tip, this`off
      ensures Heads(vol.B, vol.disk, tip, block, pos)
      ensures Content(vol.B, vol.disk, tip, pos) == old(Before())
    {
      hide Listed, Start, Header, Content, Heads, Index, Own, At;
      if writing {
        FullTip(vol.B, vol.disk, tip, block, off, pos);
      } else if pos > 0 {
        ghost var hops;
        FoundPrefix(vol.B, vol.disk, base, head, size, pos);
        block, off, hops := Find(vol.B, vol.disk, head, size, pos - 1, base);
        tip := base[..Index(vol.B, pos - 1).index + 1];
      } else {
        EmptyFile(vol.B, vol.disk, block, base, size);
        tip := [];
      }
    }

    // The tip gets a block with room: the next one, or a copy of the block
    // that holds the byte before the position.
    method NextBlock() returns (ok: bool)
      requires Valid() && !reading && (append ==> pos >= size)
      requires if writing then off == vol.B else pos <= size
      modifies this`block, this`tip, this`off, this`writing, vol
      ensures vol.Valid() && Spares(old(vol.disk), vol.disk, others + SetOf(base))
      ensures |vol.candidates| <= |old(vol.candidates)|
      ensures ok ==> Stored() && Writing() && writing && off < vol.B
      ensures ok ==> Content(vol.B, vol.disk, tip, pos) == old(Before())
    {
      hide Listed, Start, Header, Content, Heads, Index, At, Tip, Before;
      ListBehind();
      ghost var d := vol.disk;
      var r := GrowList(vol, block, pos, Live(), tip);
      if r.NoSpace? {
        return false;
      }
      HeadsSpared(vol.B, d, vol.disk, base, head, size, Live());
      var kept := Kept(vol.B, tip, pos);
      assert forall b :: b in kept ==> b in tip;
      tip := kept + [r.block];
      assert tip[..|tip| - 1] == kept;
      block, off, writing := r.block, r.off, true;
      return true;
    }

    // One round of the loop: as many bytes as the block at hand takes.
    method WriteSome(data: Bytes) returns (ok: bool, diff: nat)
      requires Valid() && !reading && (append ==> pos >= size) && data != []
      requires (writing || pos <= size) && pos + |data| < WORD
      modifies this`block, this`tip, this`off, this`pos, this`writing, vol
      ensures vol.Valid() && Spares(old(vol.disk), vol.disk, others + SetOf(base))
      ensures ok ==> Valid() && writing && 0 < diff <= |data| && pos == old(pos) + diff
      ensures ok ==> Before() == old(Before()) + data[..diff]
    {
      hide Listed, Start, Header, Content, Heads, Index, Spares;
      ghost var d, keep := vol.disk, others + SetOf(base);
      SparesSelf(d, keep);
      diff := 0;
      if !writing || off == vol.B {
        ok := NextBlock();
        if !ok {
          return;
        }
      } else {
        StillRoom(vol.B, vol.disk, tip, block, off, pos);
      }
      ghost var e := vol.disk;
      diff := Min(|data|, vol.B - off);
      ok := Program(data[..diff]);
      SparesThen(d, e, vol.disk, keep);
      if ok {
        PastStart(vol.B, vol.disk, tip, block, off, pos, off - diff);
      }
    }

    // Writes bytes over and behind those at the position.
    method FlushedWrite(data: Bytes) returns (ok: bool)
      requires Valid() && !reading && (append ==> pos >= size)
      requires (writing || pos <= size) && pos + |data| < WORD
      modifies this`block, this`tip, this`off, this`pos, this`writing, vol
      ensures vol.Valid() && Spares(old(vol.disk), vol.disk, others + SetOf(base))
      ensures ok ==> Valid() && pos == old(pos) + |data| && (writing <==> old(writing) || data != [])
      ensures ok ==> View() == Written(old(View()), old(pos), data)
      ensures ok ==> Content(vol.B, vol.disk, base, size) == old(Content(vol.B, vol.disk, base, size))
    {
      hide Listed, Start, Header, Content, Heads, Index, Spares, Head, Tail, At, Own;
      ghost var d, keep, was := vol.disk, others + SetOf(base), Content(vol.B, vol.disk, base, size);
      ghost var prefix := Before();
      SparesSelf(d, keep);
      Views();
      var i := 0;
      while i < |data|
        invariant i <= |data| && pos == old(pos) + i && (writing <==> old(writing) || i > 0)
        invariant vol.Valid() && Spares(d, vol.disk, keep)
        invariant Valid() && Before() == prefix + data[..i]
        decreases |data| - i
      {
        ghost var e := vol.disk;
        var diff;
        ok, diff := WriteSome(data[i..]);
        SparesThen(d, e, vol.disk, keep);
        if !ok {
          return;
        }
        Sequences.TakeMore(data, i, diff);
        i := i + diff;
      }
      HeadsSpared(vol.B, d, vol.disk, base, head, size, keep);
      assert data[..|data|] == data;
      if writing { Views(); }
      HeadAndTail(old(View()), old(pos));
      WrittenIs(was, old(View()), old(pos), prefix, data);
      ok := true;
    }

    // ----- lfs_file_flushedread -----

    // Finds the block of the position, unless the last read left off in it.
    method FindPos()
      requires Valid() && !writing && pos < size
      modifies this`block, this`off, this`reading
      ensures Valid() && reading && off < vol.B
    {
      hide Listed, Start, Header, Content, Heads, Index, At;
      if !reading || off == vol.B {
        ghost var hops;
        PosAt(vol.B, vol.disk, base, head, size, pos);
        block, off, hops := Find(vol.B, vol.disk, head, size, pos, base);
        reading := true;
      } else {
        AtThere(vol.B, vol.disk, base, head, size, block, off, pos);
      }
    }

    method FlushedRead(length: nat) returns (out: Bytes)
      requires Valid() && !writing
      modifies this`block, this`off, this`pos, this`reading
      ensures Valid() && View() == old(View()) && |View()| == size
      ensures out == Sub(View(), old(pos), length) && pos == old(pos) + |out|
    {
      hide Listed, Start, Header, Content, Heads, Index, At;
      ContentSize(vol.B, vol.disk, base, head, size);
      SizeFits(vol.B, vol.disk, base, head, size);
      ghost var v := View();
      out := [];
      if length == 0 || pos >= size {
        return;
      }
      var n := Min(length, size - pos);
      while |out| < n
        invariant |out| <= n && pos == old(pos) + |out| && Valid()
        invariant out == v[old(pos)..pos]
        decreases n - |out|
      {
        FindPos();
        var diff := Min(n - |out|, vol.B - off);
        ReadChunk(vol.B, vol.disk, base, head, size, block, off, pos, diff);
        Joined(v, old(pos), pos, pos + diff);
        out := out + vol.disk[block][off..off + diff];
        pos, off := pos + diff, off + diff;
      }
    }

    // ----- lfs_file_flush -----

    // Writes out what is cached for the tip, moving it if that fails.
    method SyncTip() returns (ok: bool)
      requires Valid() && writing
      modifies this`block, this`tip, vol
      ensures vol.Valid() && Spares(old(vol.disk), vol.disk, others + SetOf(base))
      ensures ok ==> Valid() && Content(vol.B, vol.disk, tip, pos) == old(Content(vol.B, vol.disk, tip, pos))
    {
      hide Listed, Start, Header, Content, Heads;
      ghost var d, keep := vol.disk, others + SetOf(base);
      while true
        invariant Valid() && |tip| == |old(tip)| && Spares(d, vol.disk, keep)
        invariant Content(vol.B, vol.disk, tip, pos) == old(Content(vol.B, vol.disk, tip, pos))
        decreases |vol.candidates|
      {
        ghost var e := vol.disk;
        TipThere(vol.B, e, tip, block, off, pos);
        ok := vol.Sync(block, off);
        HeadsSpared(vol.B, e, vol.disk, base, head, size, keep);
        Rewritten(vol.B, e, vol.disk, tip, block, off, pos);
        if ok {
          return true;
        }
        ok := Relocate();
        if !ok {
          return false;
        }
      }
    }

    // Copies what is left of the old list behind the position.
    method CopyRest() returns (ok: bool)
      requires Valid() && writing
      modifies this`block, this`tip, this`off, this`pos, this`writing, vol
      ensures vol.Valid() && Spares(old(vol.disk), vol.disk, others + SetOf(base))
      ensures ok ==> Valid() && writing && pos >= size && View() == old(View()) == Before()
    {
      hide Listed, Start, Header, Content, Heads, Spares, At, Written, Before;
      ghost var d, keep, was := vol.disk, others + SetOf(base), Content(vol.B, vol.disk, base, size);
      SparesSelf(d, keep);
      var orig := new File(vol, others, fileMax, false, head, size, base);
      orig.pos := pos;
      while pos < size
        invariant Valid() && writing && View() == old(View()) && Spares(d, vol.disk, keep)
        invariant orig.Valid() && !orig.writing && orig.pos == pos
        invariant orig.head == head && orig.size == size && orig.base == base
        invariant Content(vol.B, vol.disk, base, size) == was
        decreases size - pos
      {
        ghost var e, v, p := vol.disk, View(), pos;
        Views();
        SizeFits(vol.B, vol.disk, base, head, size);
        var data := orig.FlushedRead(1);
        ok := FlushedWrite(data);
        SparesThen(d, e, vol.disk, keep);
        if !ok {
          return;
        }
        HeadsSpared(vol.B, e, vol.disk, base, head, size, keep);
        Overwritten(v, p, was, data);
      }
      Views();
      return true;
    }

    method Flush() returns (ok: bool)
      requires Valid()
      modifies this, vol
      ensures vol.Valid() && Spares(old(vol.disk), vol.disk, others + SetOf(old(base)))
      ensures ok ==> Valid() && !reading && !writing && pos == old(pos)
      ensures ok ==> View() == old(View()) && size == |View()|
      ensures !old(writing) ==> ok
      ensures ok ==> if old(writing) then dirty else dirty == old(dirty) && base == old(base) && head == old(head)
    {
      hide Listed, Start, Header, Content, Heads, Spares, At;
      ghost var d, keep := vol.disk, others + SetOf(base);
      SparesSelf(d, keep);
      reading := false;
      if writing {
        var p := pos;
        ok := CopyRest();
        if !ok {
          return;
        }
        ghost var e := vol.disk;
        ok := SyncTip();
        SparesThen(d, e, vol.disk, keep);
        if !ok {
          return;
        }
        TipHeads(vol.B, vol.disk, tip, block, off, pos);
        head, size, base := block, pos, tip;
        writing, dirty, pos := false, true, p;
      }
      ContentSize(vol.B, vol.disk, base, head, size);
      ok := true;
    }

    // ----- lfs_file_read_, lfs_file_write_, lfs_file_seek_ -----

    method Read(length: nat) returns (ok: bool, out: Bytes)
      requires Valid()
      modifies this, vol
      ensures vol.Valid() && Spares(old(vol.disk), vol.disk, others + SetOf(old(base)))
      ensures ok ==> Valid() && View() == old(View())
      ensures ok ==> out == Sub(old(View()), old(pos), length) && pos == old(pos) + |out|
    {
      hide Listed, Start, Header, Content, Heads, Spares, At;
      SparesSelf(vol.disk, others + SetOf(base));
      out := [];
      if writing {
        ok := Flush();
        if !ok {
          return;
        }
      }
      out := FlushedRead(length);
      ok := true;
    }

    // Fills the gap between the end of the file and position p with zeros.
    method FillGap(p: nat) returns (ok: bool)
      requires Valid() && !reading && !writing && size < p <= fileMax && pos == p
      modifies this`block, this`tip, this`off, this`pos, this`writing, vol
      ensures vol.Valid() && Spares(old(vol.disk), vol.disk, others + SetOf(base))
      ensures ok ==> Valid() && pos == p && writing && View() == Head(old(View()), p)
    {
      hide Listed, Start, Header, Content, Heads, Spares, At;
      ghost var d, keep := vol.disk, others + SetOf(base);
      SparesSelf(d, keep);
      ContentSize(vol.B, vol.disk, base, head, size);
      pos := size;
      while pos < p
        invariant Valid() && size <= pos <= p && (writing || pos == size) && Spares(d, vol.disk, keep)
        invariant View() == Head(old(View()), pos)
        decreases p - pos
      {
        ghost var e := vol.disk;
        ok := FlushedWrite([0]);
        SparesThen(d, e, vol.disk, keep);
        if !ok {
          return;
        }
      }
      ok := true;
    }

    // where a write goes
    ghost function Target(): nat
      reads this, vol
    {
      if append && pos < |View()| then |View()| else pos
    }

    // Appending moves the position to the end; a gap behind the end is filled
    // with zeros; a write past the largest file size is refused.
    method Write(data: Bytes) returns (r: WriteResult)
      requires Valid()
      modifies this, vol
      ensures vol.Valid() && Spares(old(vol.disk), vol.disk, others + SetOf(old(base)))
      ensures r.TooBig? <==> old(Target()) + |data| > fileMax
      ensures r.TooBig? ==> Valid() && View() == old(View())
      ensures r.Ok? ==> Valid() && pos == old(Target()) + |data|
      ensures r.Ok? ==> View() == Written(old(View()), old(Target()), data)
    {
      hide Listed, Start, Header, Content, Heads, Spares, At, Written;
      ghost var d, keep := vol.disk, others + SetOf(base);
      SparesSelf(d, keep);
      ContentSize(vol.B, vol.disk, base, head, size);
      SizeFits(vol.B, vol.disk, base, head, size);
      if writing { Views(); }
      if reading {
        var ok := Flush();
        assert ok;
      }
      if append && pos < size {
        pos := size;
      }
      if pos + |data| > fileMax {
        return TooBig;
      }
      if !writing && pos > size {
        ghost var e := vol.disk;
        var ok := FillGap(pos);
        SparesThen(d, e, vol.disk, keep);
        if !ok {
          return WriteResult.NoSpace;
        }
      }
      ghost var e := vol.disk;
      var ok := FlushedWrite(data);
      SparesThen(d, e, vol.disk, keep);
      if !ok {
        return WriteResult.NoSpace;
      }
      WrittenOverGap(old(View()), old(Target()), data);
      return WriteResult.Ok;
    }

    // Moves the position. Within what is cached of the block at hand the
    // reader stays where it is; `cached` tells whether that is so.
    method Seek(npos: nat, cached: nat -> bool) returns (ok: bool)
      requires Valid() && pos < WORD
      modifies this, vol
      ensures vol.Valid() && Spares(old(vol.disk), vol.disk, others + SetOf(old(base)))
      ensures npos > fileMax ==> !ok
      ensures ok ==> Valid() && pos == npos && View() == old(View())
    {
      hide Listed, Start, Header, Content, Heads, Spares, At;
      SparesSelf(vol.disk, others + SetOf(base));
      if npos > fileMax {
        return false;
      }
      if pos == npos {
        return true;
      }
      if reading && off != vol.B {
        var o, n := Index(vol.B, pos), Index(vol.B, npos);
        if o.index == n.index && n.off >= 0 && cached(n.off) {
          SameBlock(vol.B, vol.disk, base, head, size, block, off, pos, npos);
          pos, off := npos, n.off;
          return true;
        }
      }
      ok := Flush();
      if ok {
        pos := npos;
      }
    }

    // What the contents are in terms of the bytes before the position.
    lemma Views()
      requires Valid() && (writing || pos <= size)
      ensures |Before()| == pos && |Content(vol.B, vol.disk, base, size)| == size
      ensures Before() == Head(View(), pos)
      ensures writing ==> View() == Before() + Tail(Content(vol.B, vol.disk, base, size), pos)
    {
      hide Listed, Start, Header, Content, Heads;
      ContentSize(vol.B, vol.disk, base, head, size);
      if writing {
        TipContent(vol.B, vol.disk, tip, block, off, pos);
      }
    }
  }

  lemma ContentSize(B: nat, d: Disk, bs: seq<Block>, head: Block, size: nat)
    requires Heads(B, d, bs, head, size)
    ensures |Content(B, d, bs, size)| == size
  {
    FlatLength(B, d, bs);
  }

  lemma SizeFits(B: nat, d: Disk, bs: seq<Block>, head: Block, size: nat)
    requires Heads(B, d, bs, head, size)
    ensures size < WORD
  {}

  // A tip with a byte in its last block is the list of what was written.
  lemma TipHeads(B: nat, d: Disk, tip: seq<Block>, block: Block, off: nat, pos: nat)
    requires Tip(B, d, tip, block, off, pos) && Start(B, |tip| - 1) < pos < WORD
    ensures Heads(B, d, tip, block, pos)
  {
    StartNext(B, |tip| - 1);
    StartGrows(B, 0, |tip| - 1);
  }

  // Writing the byte that is there changes nothing.
  lemma Overwritten(v: Bytes, p: nat, was: Bytes, data: Bytes)
    requires p < |was| && |Head(v, p)| == p <= |v| && v == Head(v, p) + Tail(was, p) && data == was[p..p + 1]
    ensures Written(v, p, data) == v
  {
    hide Head;
    var h, rest := Head(v, p), was[p + 1..];
    assert was[p..] == data + rest;
    assert h + (data + rest) == (h + data) + rest;
    TailBehind(h + data, rest);
  }

  lemma TailBehind(a: Bytes, b: Bytes)
    ensures Tail(a + b, |a|) == b
  {}

  // where Find puts the reader
  lemma PosAt(B: nat, d: Disk, bs: seq<Block>, head: Block, size: nat, pos: nat)
    requires 128 <= B < WORD && Heads(B, d, bs, head, size) && pos < size
    ensures var p := Index(B, pos);
            0 <= p.index < |bs| && bs[p.index] in d && 0 <= p.off < B && At(B, bs, bs[p.index], p.off, pos)
  {
    hide Index, Start, Header, Linked;
    InFile(B, d, bs, head, size, pos);
    IndexInBlock(B, pos);
    var p := Index(B, pos);
    assert AtBlock(B, p.index, p.off, pos);
  }

  lemma AtThere(B: nat, d: Disk, bs: seq<Block>, head: Block, size: nat, block: Block, off: nat, pos: nat)
    requires Heads(B, d, bs, head, size) && At(B, bs, block, off, pos)
    ensures off <= B && block in d
  {}

  // What lies there is what the contents hold there.
  lemma ReadChunk(B: nat, d: Disk, bs: seq<Block>, head: Block, size: nat, block: Block, off: nat, pos: nat, diff: nat)
    requires Heads(B, d, bs, head, size) && At(B, bs, block, off, pos)
    requires off + diff <= B && pos + diff <= size == |Content(B, d, bs, size)|
    ensures block in d && |d[block]| == B && At(B, bs, block, off + diff, pos + diff)
    ensures d[block][off..off + diff] == Content(B, d, bs, size)[pos..pos + diff]
  {
    hide Start, Header, Flat, Linked;
    var n :| 0 <= n < |bs| && bs[n] == block && AtBlock(B, n, off, pos);
    assert AtBlock(B, n, off + diff, pos + diff);
    var cut := bs[..n + 1];
    ListedPrefix(B, d, bs, n + 1);
    TipContent(B, d, cut, block, off + diff, pos + diff);
    TipContent(B, d, cut, block, off, pos);
    FlatPrefix(B, d, bs, n + 1);
    FlatLength(B, d, bs);
    FlatLength(B, d, cut);
    StartNext(B, n);
    ChunkOf(Flat(B, d, bs), Start(B, n + 1), Flat(B, d, cut[..n]), d[block], Header(n), off, diff, pos, size);
  }

  lemma ChunkOf(flat: Bytes, cut: nat, init: Bytes, b: Bytes, h: nat, off: nat, diff: nat, pos: nat, size: nat)
    requires pos + diff <= size <= |flat| && pos + diff <= cut <= |flat| && h <= off && off + diff <= |b|
    requires flat[..cut][..pos + diff] == init + b[h..off + diff] && flat[..cut][..pos] == init + b[h..off]
    ensures b[off..off + diff] == flat[..size][pos..pos + diff]
  {
    assert flat[..size][pos..pos + diff] == flat[..cut][..pos + diff][pos..];
    assert b[h..off + diff] == b[h..off] + b[off..off + diff];
  }

  lemma Joined(v: Bytes, a: nat, b: nat, c: nat)
    requires a <= b <= c <= |v|
    ensures v[a..c] == v[a..b] + v[b..c]
  {}

  lemma WrittenOverGap(v: Bytes, p: nat, data: Bytes)
    ensures |Head(v, p)| == p
    ensures p > |v| ==> Written(Head(v, p), p, data) == Written(v, p, data)
  {}

  lemma SameBlock(B: nat, d: Disk, bs: seq<Block>, head: Block, size: nat, block: Block, off: nat, pos: nat, npos: nat)
    requires 128 <= B < WORD && pos < WORD && npos < WORD && Heads(B, d, bs, head, size)
    requires At(B, bs, block, off, pos) && off != B && Index(B, pos).index == Index(B, npos).index
    ensures Index(B, npos).off >= 0 && At(B, bs, block, Index(B, npos).off, npos)
  {
    hide Index, Linked, Trailing;
    var n :| 0 <= n < |bs| && bs[n] == block && AtBlock(B, n, off, pos);
    StartNext(B, n);
    IndexIs(B, pos, n);
    IndexInBlock(B, npos);
    assert AtBlock(B, n, Index(B, npos).off, npos);
  }

  // a tip that does not fill its block
  lemma StillRoom(B: nat, d: Disk, tip: seq<Block>, block: Block, off: nat, pos: nat)
    requires Tip(B, d, tip, block, off, pos) && off != B
    ensures off < B
  {}

  lemma PastStart(B: nat, d: Disk, tip: seq<Block>, block: Block, off: nat, pos: nat, before: int)
    requires Tip(B, d, tip, block, off, pos) && before < off
    requires Header(|tip| - 1) <= before
    ensures Start(B, |tip| - 1) < pos
  {}

  lemma HeadAndTail(v: Bytes, p: nat)
    requires p <= |v|
    ensures v == Head(v, p) + Tail(v, p)
  {}

  // The prefix up to the old position, the new bytes and the old tail are the
  // old contents written over.
  lemma WrittenIs(was: Bytes, v: Bytes, p: nat, prefix: Bytes, data: Bytes)
    requires |prefix| == p && prefix == Head(v, p) && p <= |v|
    requires v == prefix + Tail(was, p)
    ensures prefix + data + Tail(was, p + |data|) == Written(v, p, data)
    ensures data == [] ==> Written(v, p, data) == v
  {
  }

  lemma TipThere(B: nat, d: Disk, tip: seq<Block>, block: Block, off: nat, pos: nat)
    requires Tip(B, d, tip, block, off, pos)
    ensures block in d && block in tip && off <= B
  {}

  lemma HeadsSpared(B: nat, d: Disk, e: Disk, bs: seq<Block>, head: Block, size: nat, live: set<Block>)
    requires Heads(B, d, bs, head, size) && Sound(B, e) && Spares(d, e, live)
    requires forall b :: b in bs ==> b in live
    ensures Heads(B, e, bs, head, size) && Content(B, e, bs, size) == Content(B, d, bs, size)
  {
    Spared(B, d, e, bs, live);
  }

  // Bytes behind `off` of the tip do not matter.
  lemma Rewritten(B: nat, d: Disk, e: Disk, tip: seq<Block>, block: Block, off: nat, pos: nat)
    requires Tip(B, d, tip, block, off, pos) && Sound(B, e) && Touches(d, e, block)
    requires block !in tip[..|tip| - 1] && e[block][..off] == d[block][..off]
    ensures Tip(B, e, tip, block, off, pos)
    ensures Content(B, e, tip, pos) == Content(B, d, tip, pos)
  {
    hide Linked, Start, Header, Content, Flat;
    var init := tip[..|tip| - 1];
    forall i | 0 <= i < |init| ensures init[i] != block && init[i] in d {
      assert init[i] == tip[i] && init[i] in init;
    }
    SwapLast(B, d, e, tip, block, block, off, pos);
    assert init + [block] == tip;
  }

  lemma Advanced(B: nat, d: Disk, tip: seq<Block>, block: Block, off: nat, pos: nat, chunk: Bytes)
    requires Tip(B, d, tip, block, off, pos) && off + |chunk| <= B && d[block][off..off + |chunk|] == chunk
    ensures Tip(B, d, tip, block, off + |chunk|, pos + |chunk|)
    ensures Content(B, d, tip, pos + |chunk|) == Content(B, d, tip, pos) + chunk
  {
    hide Linked, Start, Header, Content, Flat;
    var h := Header(|tip| - 1);
    TipContent(B, d, tip, block, off, pos);
    TipContent(B, d, tip, block, off + |chunk|, pos + |chunk|);
    assert d[block][h..off + |chunk|] == d[block][h..off] + d[block][off..off + |chunk|];
  }

  lemma FullTip(B: nat, d: Disk, tip: seq<Block>, block: Block, off: nat, pos: nat)
    requires Tip(B, d, tip, block, off, pos) && off == B && Start(B, |tip| - 1) < pos < WORD
    ensures Heads(B, d, tip, block, pos)
  {
    StartNext(B, |tip| - 1);
    StartGrows(B, 0, |tip| - 1);
  }

  lemma EmptyFile(B: nat, d: Disk, block: Block, base: seq<Block>, size: nat)
    requires Sound(B, d)
    ensures Heads(B, d, [], block, 0) && Content(B, d, [], 0) == []
    ensures Head(Content(B, d, base, size), 0) == []
  {}

  // The blocks up to the one of the byte before `pos` are the list of the
  // first `pos` bytes.
  lemma FoundPrefix(B: nat, d: Disk, base: seq<Block>, head: Block, size: nat, pos: nat)
    requires 128 <= B < WORD && Heads(B, d, base, head, size) && 0 < pos <= size
    ensures var i := Index(B, pos - 1).index;
            0 <= i < |base| && Heads(B, d, base[..i + 1], base[i], pos)
            && Content(B, d, base[..i + 1], pos) == Head(Content(B, d, base, size), pos)
  {
    hide Index, Linked, Start, Header, Flat;
    var i := Index(B, pos - 1).index;
    InFile(B, d, base, head, size, pos - 1);
    IndexInBlock(B, pos - 1);
    ListedPrefix(B, d, base, i + 1);
    FlatPrefix(B, d, base, i + 1);
    FlatLength(B, d, base);
  }
}
