/**
 dir/commit.rs, lfs_dir_commitprog, lfs_dir_commitattr and lfs_dir_commitcrc:
 writing a commit behind the log a block already holds.
 */
module Commit {
  import opened Arith
  import opened Tags
  import opened MetadataLog
  import opened Layout
  import opened Crc
  import opened Fetch

  function CcrcTag(eperturb: bv8, size: nat): Tag {
    Tag(CRC, if TopClear(eperturb) then 1 else 0, NO_ID, size)
  }

  const FCRC_TAG := Tag(CRC, 0xff, NO_ID, 8)

  datatype Result = Ok | NoSpace | Corrupt

  predicate ProgOk(prog: bv32, blockSize: nat) {
    Nat32(prog) > 0 && blockSize % Nat32(prog) == 0 && blockSize + Nat32(prog) <= 0x1_0000_0000
  }

  // where a commit whose tags end at `off` ends: there is room for an fcrc and a
  // crc, rounded to the program size
  function CommitEnd(off: nat, prog: bv32, blockSize: nat): nat
    requires Nat32(prog) > 0
  {
    AlignUp(Min(off + 20, blockSize), Nat32(prog))
  }

  predicate Room(off: nat, start: nat, stop: nat, blockSize: nat) {
    || off == stop
    || off + 20 <= stop
    || (off == start && stop == blockSize && off + 8 <= stop)
  }

  predicate StopOk(stop: nat, prog: bv32, blockSize: nat) {
    stop <= blockSize && Nat32(prog) > 0 && stop % Nat32(prog) == 0
    && (stop < blockSize ==> stop <= blockSize - Nat32(prog))
  }

  lemma CommitEndBounds(off: nat, prog: bv32, blockSize: nat)
    requires ProgOk(prog, blockSize) && off + 8 <= blockSize
    ensures var stop := CommitEnd(off, prog, blockSize);
            off < stop && StopOk(stop, prog, blockSize) && Room(off, off, stop, blockSize)
  {
    var size: nat := Nat32(prog);
    UnitsFit(Min(off + 20, blockSize), size, blockSize);
    var stop := CommitEnd(off, prog, blockSize);
    if stop < blockSize {
      DivModOf(stop, size);
      DivModOf(blockSize, size);
      MulSub(size, blockSize / size, stop / size);
      MulAtLeast(size, blockSize / size - stop / size);
    }
  }

  // a commit adds nothing but crc tags to the attributes, none over 0x3fe bytes
  predicate Extends(log: seq<Rec>, log': seq<Rec>) {
    log <= log'
    && forall k :: |log| <= k < |log'| ==> log'[k].tag.type1 == CRC && log'[k].tag.size <= 0x3fe
  }

  // A finished commit: the last record is a verified crc, the block is ready for
  // the next commit, and an unwritten word behind it reads as invalid.
  predicate Sealed(block: Bytes, off: nat, ptag: bv32, rev: bv32, log: seq<Rec>, prog: bv32)
    requires Nat32(prog) > 0
  {
    && LogOnDisk(log) && log != [] && log[|log| - 1].tag.IsCcrc()
    && off % Nat32(prog) == 0 && off <= |block|
    && (off < |block| ==>
          && off + Nat32(prog) <= |block|
          && (TopClear(block[off]) <==> !WordIsValid(ptag))
          && StateAt(Start(rev), log).temp.fcrc == Some(Fcrc(prog, Crc32(CRC_INIT, block[off..off + Nat32(prog)]))))
  }

  // only bytes in [from, to) differ
  predicate Programmed(b: Bytes, c: Bytes, from: nat, to: nat) {
    from <= to <= |b| == |c| && b[..from] == c[..from] && b[to..] == c[to..]
  }

  lemma ProgrammedNothing(b: Bytes, off: nat)
    requires off <= |b|
    ensures Programmed(b, b, off, off)
  {}

  lemma ProgrammedOn(b: Bytes, c: Bytes, d: Bytes, from: nat, mid: nat, to: nat, to': nat)
    requires Programmed(b, c, from, mid) && Programmed(c, d, mid, to) && to <= to' <= |b|
    ensures Programmed(b, d, from, to')
  {
    assert d[..from] == d[..mid][..from] == c[..mid][..from];
    assert d[to'..] == d[to..][to' - to..] == c[to..][to' - to..] == c[mid..][to' - mid..] == b[mid..][to' - mid..];
  }

  lemma KeptAfter(b: Bytes, c: Bytes, from: nat, to: nat)
    requires Programmed(b, c, from, to)
    ensures forall i, j :: to <= i <= j <= |b| ==> c[i..j] == b[i..j]
    ensures forall i :: to <= i < |b| ==> c[i] == b[i]
  {
    forall i, j | to <= i <= j <= |b| ensures c[i..j] == b[i..j] {
      assert c[to..][i - to..j - to] == c[i..j];
      assert b[to..][i - to..j - to] == b[i..j];
    }
    forall i | to <= i < |b| ensures c[i] == b[i] {
      assert c[to..][i - to] == c[i] && b[to..][i - to] == b[i];
    }
  }

  lemma KeptBefore(b: Bytes, c: Bytes, from: nat, to: nat, i: nat, j: nat)
    requires Programmed(b, c, from, to) && i <= j && j + 4 <= from
    ensures b[i..j] == c[i..j] && b[j..j + 4] == c[j..j + 4]
  {
    assert b[..from][i..j] == b[i..j];
    assert c[..from][i..j] == c[i..j];
    assert b[..from][j..j + 4] == b[j..j + 4];
    assert c[..from][j..j + 4] == c[j..j + 4];
  }

  lemma TwoWrites(b: Bytes, off: nat, s: Bytes, t: Bytes)
    requires off + |s| + |t| <= |b|
    ensures var c := Overwrite(Overwrite(b, off, s), off + |s|, t);
            Programmed(b, c, off, off + |s| + |t|) && c[off..off + |s| + |t|] == s + t
  {}

  lemma VerifiesSnoc(s: Scanner, log: seq<Rec>, r: Rec)
    requires LogOnDisk(log) && OnDisk(r) && Verifies(s, log) && Checks(StateAt(s, log), r)
    ensures LogOnDisk(log + [r]) && Verifies(s, log + [r])
    ensures StateAt(s, log + [r]) == AfterRec(StateAt(s, log), r)
  {
    hide Checks, AfterRec;
    assert (log + [r])[..|log|] == log;
  }

  lemma PlainLink(t: Tag)
    requires t.InRange() && !t.IsCcrc()
    ensures Link(t) == Pack(t)
  {}

  // The block holds a log whose commits verify, and the running variables are
  // those of a scan that has read it.
  predicate Consistent(block: Bytes, off: nat, ptag: bv32, crc: bv32, rev: bv32, log: seq<Rec>) {
    && LogOnDisk(log) && Holds(block, 4, FIRST_PTAG, log) && Verifies(Start(rev), log)
    && var s := StateAt(Start(rev), log);
       off == s.off && ptag == s.ptag && crc == s.crc && off <= |block|
  }

  // Programming the bytes of a record, and the running variables after it.
  lemma RecordWritten(block: Bytes, off: nat, ptag: bv32, crc: bv32, rev: bv32, log: seq<Rec>, r: Rec,
                      c: Bytes, crc': bv32)
    requires Consistent(block, off, ptag, crc, rev, log) && OnDisk(r) && off + r.tag.DSize() <= |block|
    requires Programmed(block, c, off, off + r.tag.DSize())
    requires c[off..off + r.tag.DSize()] == BeBytes(Chain(Pack(r.tag), ptag)) + r.data
    requires Checks(StateAt(Start(rev), log), r)
    requires crc' == AfterRec(StateAt(Start(rev), log), r).crc
    ensures Consistent(c, off + r.tag.DSize(), Link(r.tag), crc', rev, log + [r])
  {
    hide Pack, Chain, Link, BeBytes, Encode, TempAfter, Crc32, Verifies, StateAt, Checks;
    StateAtEnd(Start(rev), log);
    HoldsElsewhere(block, c, 4, FIRST_PTAG, log);
    SnocEndTag(log, r, FIRST_PTAG);
    HoldsSnoc(c, 4, FIRST_PTAG, log, r);
    VerifiesSnoc(Start(rev), log, r);
  }

  // A commit in progress on one block.
  class Writer {
    var block: Bytes
    var off: nat
    var ptag: bv32
    var crc: bv32
    const begin: nat
    const end: nat
    ghost const rev: bv32
    ghost var log: seq<Rec>

    ghost predicate Valid()
      reads this
    {
      Consistent(block, off, ptag, crc, rev, log)
    }

    // the crc covers the commit from its first byte
    ghost predicate Running()
      reads this
    {
      begin <= off <= |block| && crc == Crc32(CRC_INIT, block[begin..off])
    }

    // lfs_dir_relocatingcommit: append behind what a fetch found
    constructor Append(block: Bytes, off: nat, etag: bv32, end: nat, ghost rev: bv32, ghost log: seq<Rec>)
      requires LogOnDisk(log) && Holds(block, 4, FIRST_PTAG, log) && Verifies(Start(rev), log)
      requires log != [] && log[|log| - 1].tag.IsCcrc()
      requires off == 4 + Length(log) && etag == EndTag(log, FIRST_PTAG)
      ensures Valid() && Running()
      ensures this.log == log && this.rev == rev && this.end == end && this.block == block && this.off == off
    {
      this.block, this.off, this.ptag, this.crc, this.begin, this.end := block, off, etag, CRC_INIT, off, end;
      this.rev, this.log := rev, log;
      new;
      StateAtEnd(Start(rev), log);
    }

    // lfs_dir_compact: an erased block and a new revision count
    constructor Compact(erased: Bytes, rev: bv32, end: nat)
      requires |erased| >= 4
      ensures Valid() && Running() && log == [] && off == 4 && this.rev == rev && this.end == end
      ensures block == Overwrite(erased, 0, LeBytes(rev))
    {
      block := Overwrite(erased, 0, LeBytes(rev));
      off, ptag, crc, begin, this.end := 4, FIRST_PTAG, CRC_INIT, 0, end;
      this.rev, log := rev, [];
      new;
      crc := LfsCrc(CRC_INIT, LeBytes(rev));
    }

    // lfs_dir_commitattr; false is NoSpace
    method Attr(tag: Tag, data: Bytes) returns (ok: bool)
      requires Valid() && end <= |block|
      requires var r := Rec(tag, data); OnDisk(r) && RecReadable(r) && !tag.IsCcrc()
      modifies this`block, this`off, this`ptag, this`crc, this`log
      ensures |block| == old(|block|)
      ensures Valid() && (old(Running()) ==> Running()) && ok == (old(off) + tag.DSize() <= end)
      ensures !ok ==> block == old(block) && log == old(log)
      ensures ok ==> log == old(log) + [Rec(tag, data)] && off == old(off) + tag.DSize()
      ensures ok ==> Programmed(old(block), block, old(off), off)
    {
      hide Pack, Chain, Link, BeBytes, Crc32, Consistent, Programmed, StateAt;
      if off + tag.DSize() > end {
        return false;
      }
      var word := BeBytes(Chain(Pack(tag), ptag));
      var b := Overwrite(Overwrite(block, off, word), off + 4, data);
      TwoWrites(block, off, word, data);
      var c := LfsCrc(crc, word);
      c := LfsCrc(c, data);
      AttrWritten(block, off, ptag, crc, rev, log, Rec(tag, data), b, c);
      if begin <= off {
        StillRunning(block, b, begin, off, word, data);
      }
      block, off, ptag, crc, log := b, off + tag.DSize(), Pack(tag), c, log + [Rec(tag, data)];
      return true;
    }

    // one CCRC tag, stretching the commit to `noff`
    method Ccrc(noff: nat, eperturb: bv8) returns (c: bv32)
      requires Valid() && off + 8 <= noff <= |block| && noff - (off + 4) <= 0x3fe
      modifies this`block, this`off, this`ptag, this`crc, this`log
      ensures Valid() && off == noff && crc == CRC_INIT && |block| == old(|block|)
      ensures Programmed(old(block), block, old(off), old(off) + 8)
      ensures |log| == old(|log|) + 1 && log[..old(|log|)] == old(log)
      ensures old(Running()) && begin <= old(off) ==>
                c == Crc32(CRC_INIT, block[begin..old(off) + 4]) && block[old(off) + 4..old(off) + 8] == LeBytes(c)
      ensures var r := log[old(|log|)];
              OnDisk(r) && r.tag == CcrcTag(eperturb, noff - (old(off) + 4)) && ptag == Link(r.tag)
    {
      hide Pack, Chain, Link, BeBytes, LeBytes, Crc32, Consistent, Programmed, StateAt;
      var tag := CcrcTag(eperturb, noff - (off + 4));
      var word := BeBytes(Chain(Pack(tag), ptag));
      c := LfsCrc(crc, word);
      var b := Overwrite(Overwrite(block, off, word), off + 4, LeBytes(c));
      TwoWrites(block, off, word, LeBytes(c));
      FirstCrc(block, b, begin, off, word, c);
      ghost var r := Rec(tag, LeBytes(c) + block[off + 8..noff]);
      CcrcWritten(block, off, ptag, crc, rev, log, r, b, c);
      block, off, ptag, crc, log := b, noff, Link(tag), CRC_INIT, log + [r];
    }

    // One round of lfs_dir_commitcrc: a padding crc, or the last crc behind the
    // fcrc of what follows it. `c` is the crc stored at `at + 4`.
    method Round(stop: nat, prog: bv32, ghost start: nat) returns (ok: bool, at: nat, c: bv32)
      requires Valid() && end <= |block| && ProgOk(prog, |block|) && start <= off < stop
      requires Room(off, start, stop, |block|) && StopOk(stop, prog, |block|)
      modifies this`block, this`off, this`ptag, this`crc, this`log
      ensures Valid() && |block| == old(|block|)
      ensures ok ==> old(off) < off <= stop && Room(off, start, stop, |block|) && Extends(old(log), log)
      ensures ok ==> Programmed(old(block), block, old(off), off)
      ensures ok && off == stop ==> Sealed(block, off, ptag, rev, log, prog)
      ensures ok ==> old(off) <= at && at + 8 <= off
      ensures ok && old(Running()) ==> c == Crc32(CRC_INIT, block[begin..at + 4]) && block[at + 4..at + 8] == LeBytes(c)
    {
      hide Consistent, Pack, Chain, Link, BeBytes, LeBytes, Crc32, Programmed, Sealed;
      var noff := Min(stop - (off + 4), 0x3fe) + (off + 4);
      if noff < stop {
        noff := Min(noff, stop - 20);
      }
      ghost var b0, log0, off0 := block, log, off;
      var eperturb;
      ok, eperturb := ForwardCrc(noff, stop, prog);
      at, c := off, 0;
      if !ok {
        return;
      }
      ghost var b1, log1 := block, log;
      c := Ccrc(noff, eperturb);
      ProgrammedOn(b0, b1, block, off0, at, at + 8, off);
      if off == stop {
        SealedBy(b0, block, off0, off, ptag, crc, rev, log0, log1, log, prog, eperturb);
      }
    }

    // the fcrc of the program unit behind the commit, if there is one, and the
    // byte that decides the perturb bit
    method ForwardCrc(noff: nat, stop: nat, prog: bv32) returns (ok: bool, eperturb: bv8)
      requires Valid() && end <= |block| && ProgOk(prog, |block|) && StopOk(stop, prog, |block|)
               && off + 8 <= noff <= stop
      requires noff == stop < |block| ==> off + 20 <= stop
      modifies this`block, this`off, this`ptag, this`crc, this`log
      ensures Valid() && |block| == old(|block|) && (old(Running()) ==> Running())
      ensures ok ==> Programmed(old(block), block, old(off), off) && old(off) <= off && off + 8 <= noff
      ensures ok && noff == stop < |block| ==>
                log == old(log) + [FcrcRec(prog, old(block), noff)] && eperturb == old(block)[noff]
      ensures ok && !(noff == stop < |block|) ==> log == old(log) && eperturb == 0xff
    {
      hide Consistent, Pack, Chain, Link, BeBytes, LeBytes, Crc32, Programmed;
      var size := Nat32(prog);
      eperturb, ok := 0xff, true;
      ProgrammedNothing(block, off);
      if noff >= stop && noff <= |block| - size {
        eperturb := block[noff];
        var fcrc := LfsCrc(CRC_INIT, block[noff..noff + size]);
        ok := Attr(FCRC_TAG, LeBytes(prog) + LeBytes(fcrc));
      }
    }

    // lfs_dir_commitcrc
    method Finish(prog: bv32) returns (r: Result)
      requires Valid() && Running() && end <= |block| && off + 8 <= |block| && ProgOk(prog, |block|)
      modifies this`block, this`off, this`ptag, this`crc, this`log
      ensures Valid() && |block| == old(|block|) && r != Corrupt
      ensures r == Ok ==> off == CommitEnd(old(off), prog, |block|) && Sealed(block, off, ptag, rev, log, prog)
      ensures r == Ok ==> Extends(old(log), log) && Programmed(old(block), block, old(off), off)
    {
      hide Consistent, Crc32, LeBytes, Programmed, Sealed;
      var stop := CommitEnd(off, prog, |block|);
      CommitEndBounds(off, prog, |block|);
      ghost var start, log0, block0 := off, log, block;
      var ok, at, crc1 := Round(stop, prog, start);
      if !ok {
        return NoSpace;
      }
      var off1 := at + 4;
      while off < stop
        invariant Valid() && |block| == |block0| && start <= off <= stop
        invariant Room(off, start, stop, |block|) && start < off
        invariant Extends(log0, log) && Programmed(block0, block, start, off)
        invariant begin <= off1 && off1 + 4 <= off && crc1 == Crc32(CRC_INIT, block[begin..off1])
        invariant block[off1..off1 + 4] == LeBytes(crc1)
        invariant off == stop ==> Sealed(block, off, ptag, rev, log, prog)
      {
        ghost var before, from := block, off;
        var c;
        ok, at, c := Round(stop, prog, start);
        if !ok {
          return NoSpace;
        }
        ProgrammedOn(block0, before, block, start, from, off, off);
        KeptBefore(before, block, from, off, begin, off1);
      }
      // read the commit back
      var back := LfsCrc(CRC_INIT, block[begin..off1]);
      if back != crc1 {
        return Corrupt;
      }
      OwnCrc(crc1);
      back := LfsCrc(back, block[off1..off1 + 4]);
      if back != 0 {
        return Corrupt;
      }
      return Ok;
    }
  }

  function FcrcRec(prog: bv32, b: Bytes, at: nat): Rec
    requires Nat32(prog) > 0 && at + Nat32(prog) <= |b|
  {
    Rec(FCRC_TAG, LeBytes(prog) + LeBytes(Crc32(CRC_INIT, b[at..at + Nat32(prog)])))
  }

  // The last round seals the commit.
  lemma SealedBy(b0: Bytes, b: Bytes, off0: nat, off: nat, ptag: bv32, crc: bv32, rev: bv32,
                 log0: seq<Rec>, log1: seq<Rec>, log: seq<Rec>, prog: bv32, eperturb: bv8)
    requires Consistent(b, off, ptag, crc, rev, log) && Programmed(b0, b, off0, off) && |b0| == |b|
    requires ProgOk(prog, |b|) && StopOk(off, prog, |b|)
    requires |log| == |log1| + 1 && log[..|log1|] == log1
    requires var r := log[|log1|];
             && r.tag.IsCcrc() && r.tag.chunk == (if TopClear(eperturb) then 1 else 0) && OnDisk(r)
             && ptag == Link(r.tag)
    requires off < |b| ==> log1 == log0 + [FcrcRec(prog, b0, off)] && eperturb == b0[off]
    ensures Sealed(b, off, ptag, rev, log, prog)
  {
    hide Pack, Chain, Link, BeBytes, LeBytes, Crc32, Verifies, Holds, Programmed, StateAt, Nat32, TopClear, WordIsValid;
    var r, size := log[|log1|], Nat32(prog);
    LinkValidity(r.tag);
    KeptAfter(b0, b, off0, off);
    if off < |b| {
      var f := FcrcRec(prog, b0, off);
      assert log == log0 + [f] + [r];
      assert forall k :: 0 <= k < |log0| ==> log0[k] == log[k];
      FcrcRemembered(Start(rev), log0, f, r, prog, Crc32(CRC_INIT, b[off..off + size]));
    }
  }

  lemma LinkValidity(t: Tag)
    requires t.InRange() && t.IsCcrc()
    ensures WordIsValid(Link(t)) <==> t.chunk % 2 == 0
  {
    hide Pack;
    PackUnpack(t);
    FlipValidity(Pack(t));
  }

  lemma FlipValidity(w: bv32)
    ensures WordIsValid(w ^ 0x8000_0000) <==> !WordIsValid(w)
  {}

  // After an fcrc and a crc the scan remembers the fcrc.
  lemma FcrcRemembered(s: Scanner, log: seq<Rec>, f: Rec, r: Rec, prog: bv32, crc: bv32)
    requires LogOnDisk(log) && OnDisk(f) && OnDisk(r) && r.tag.IsCcrc()
    requires f == Rec(FCRC_TAG, LeBytes(prog) + LeBytes(crc))
    ensures LogOnDisk(log + [f] + [r])
    ensures StateAt(s, log + [f] + [r]).temp.fcrc == Some(Fcrc(prog, crc))
  {
    hide LeBytes, FromLe, Crc32, Link, BeBytes, Chain, Pack;
    assert (log + [f] + [r])[..|log| + 1] == log + [f];
    assert (log + [f])[..|log|] == log;
    assert Clip8(f.data) == f.data;
    assert f.data[..4] == LeBytes(prog) && f.data[4..] == LeBytes(crc);
    LeRoundTrip(prog);
    LeRoundTrip(crc);
  }

  lemma FirstCrc(b: Bytes, c: Bytes, begin: nat, off: nat, word: Bytes, crc: bv32)
    requires off + 8 <= |b| && |word| == 4
    requires Programmed(b, c, off, off + 8) && c[off..off + 8] == word + LeBytes(crc)
    ensures c[off + 4..off + 8] == LeBytes(crc)
    ensures begin <= off ==> Crc32(CRC_INIT, c[begin..off + 4]) == Crc32(Crc32(CRC_INIT, b[begin..off]), word)
  {
    assert c[off + 4..off + 8] == c[off..off + 8][4..];
    assert c[off..off + 4] == c[off..off + 8][..4];
    if begin <= off {
      assert c[begin..off] == c[..off][begin..] == b[..off][begin..] == b[begin..off];
      assert c[begin..off + 4] == c[begin..off] + c[off..off + 4];
      Chunks(CRC_INIT, b[begin..off], word);
    }
  }

  // A CCRC record keeps whatever lies between its crc and its end.
  lemma CcrcWritten(block: Bytes, off: nat, ptag: bv32, crc: bv32, rev: bv32, log: seq<Rec>, r: Rec,
                    b: Bytes, c: bv32)
    requires Consistent(block, off, ptag, crc, rev, log) && OnDisk(r) && off + r.tag.DSize() <= |block|
    requires r.tag.IsCcrc() && r.tag.DSize() >= 8
    requires r.data == LeBytes(c) + block[off + 8..off + r.tag.DSize()]
    requires c == Crc32(crc, BeBytes(Chain(Pack(r.tag), ptag)))
    requires Programmed(block, b, off, off + 8)
    requires b[off..off + 8] == BeBytes(Chain(Pack(r.tag), ptag)) + LeBytes(c)
    ensures Consistent(b, off + r.tag.DSize(), Link(r.tag), CRC_INIT, rev, log + [r])
  {
    hide Pack, Chain, BeBytes, LeBytes, FromLe, Link, Crc32, StateAt, Holds, Verifies, TempAfter;
    var end := off + r.tag.DSize();
    LeRoundTrip(c);
    assert r.data[..4] == LeBytes(c);
    assert b[off + 8..end] == b[off + 8..][..end - off - 8] == block[off + 8..][..end - off - 8] == block[off + 8..end];
    assert b[off..end] == b[off..off + 8] + b[off + 8..end];
    assert Programmed(block, b, off, end) by {
      assert b[end..] == b[off + 8..][end - off - 8..];
      assert block[end..] == block[off + 8..][end - off - 8..];
    }
    RecordWritten(block, off, ptag, crc, rev, log, r, b, CRC_INIT);
  }

  lemma StillRunning(b: Bytes, c: Bytes, begin: nat, off: nat, s: Bytes, t: Bytes)
    requires begin <= off && Programmed(b, c, off, off + |s| + |t|) && c[off..off + |s| + |t|] == s + t
    ensures Crc32(Crc32(Crc32(CRC_INIT, b[begin..off]), s), t) == Crc32(CRC_INIT, c[begin..off + |s| + |t|])
  {
    assert c[begin..off] == c[..off][begin..] == b[..off][begin..] == b[begin..off];
    assert c[begin..off + |s| + |t|] == c[begin..off] + (s + t);
    Chunks(CRC_INIT, c[begin..off], s + t);
    Chunks(Crc32(CRC_INIT, b[begin..off]), s, t);
  }

  lemma AttrWritten(block: Bytes, off: nat, ptag: bv32, crc: bv32, rev: bv32, log: seq<Rec>, r: Rec,
                    b: Bytes, crc': bv32)
    requires Consistent(block, off, ptag, crc, rev, log) && OnDisk(r) && off + r.tag.DSize() <= |block|
    requires RecReadable(r) && !r.tag.IsCcrc()
    requires Programmed(block, b, off, off + r.tag.DSize())
    requires b[off..off + r.tag.DSize()] == BeBytes(Chain(Pack(r.tag), ptag)) + r.data
    requires crc' == Crc32(Crc32(crc, BeBytes(Chain(Pack(r.tag), ptag))), r.data)
    ensures Consistent(b, off + r.tag.DSize(), Pack(r.tag), crc', rev, log + [r])
  {
    PlainLink(r.tag);
    hide Pack, Chain, BeBytes, Link, Crc32, StateAt, Holds, Verifies, TempAfter;
    RecordWritten(block, off, ptag, crc, rev, log, r, b, crc');
  }
}
