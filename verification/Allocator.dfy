/**
 block_alloc/alloc.rs: free blocks are looked for in a window of the device
 whose bitmap one scan of the file system fills, and which moves round the
 device from scan to scan. Checkpoints mark when no block is in flight.
 */
module Allocator {
  import opened Arith
  import MetadataLog
  import Util

  // ----- bits of a byte -----

  function BitMask(i: nat): bv8
    requires i < 8
  {
    if i == 0 then 1 else if i == 1 then 2 else if i == 2 then 4 else if i == 3 then 8
    else if i == 4 then 16 else if i == 5 then 32 else if i == 6 then 64 else 128
  }

  predicate TestBit(b: bv8, i: nat)
    requires i < 8
  {
    b & BitMask(i) != 0
  }

  function SetBit(b: bv8, i: nat): bv8
    requires i < 8
  {
    b | BitMask(i)
  }

  lemma SetBitSets(b: bv8, i: nat, j: nat)
    requires i < 8 && j < 8
    ensures TestBit(SetBit(b, i), j) <==> i == j || TestBit(b, j)
    ensures !TestBit(0, j)
  {}

  // ----- places round a device of N blocks -----

  function Turn(x: nat, N: nat): nat { if x < N then x else x - N }

  lemma TurnIsMod(x: nat, N: nat)
    requires x < 2 * N
    ensures x % N == Turn(x, N)
  {
    if x < N { DivModUnique(x, N, 0, x); } else { DivModUnique(x, N, 1, x - N); }
  }

  // How many blocks back from the cursor c block b was passed: 0 for the one just before c.
  function Behind(c: nat, b: nat, N: nat): int { if b < c then c - 1 - b else c - 1 - b + N }

  // The unsigned arithmetic of lfs_alloc_lookahead.
  function WindowOff(block: nat, start: nat, N: nat): int
    requires N > 0
  {
    ((block + Util.WORD - start) % Util.WORD + N) % Util.WORD % N
  }

  lemma WindowOffIs(block: nat, start: nat, N: nat)
    requires start < N && block < N <= 0x8000_0000
    ensures WindowOff(block, start, N) == if block >= start then block - start else block - start + N
  {
    TurnIsMod(block + Util.WORD - start, Util.WORD);
    var d := (block + Util.WORD - start) % Util.WORD;
    TurnIsMod(d + N, Util.WORD);
    if block >= start { TurnIsMod(block - start + N, N); } else { TurnIsMod(block - start + N, N); }
  }

  // The offset is right for every block of a device if and only if the device
  // has at most 2^31 blocks.
  lemma WindowOffExact(N: nat)
    requires 0 < N < Util.WORD
    ensures (forall block: nat, start: nat :: block < N && start < N ==>
               WindowOff(block, start, N) == (block - start) % N)
       <==> N <= 0x8000_0000
  {
    if N <= 0x8000_0000 {
      forall block: nat, start: nat | block < N && start < N ensures WindowOff(block, start, N) == (block - start) % N {
        WindowOffIs(block, start, N);
        if block >= start { DivModUnique(block - start, N, 0, block - start); }
        else { DivModUnique(block - start, N, -1, block - start + N); }
      }
    } else {
      TurnIsMod(N - 1 + Util.WORD, Util.WORD);
      TurnIsMod(N - 1 + N, Util.WORD);
      DivModUnique(2 * N - 1 - Util.WORD, N, 0, 2 * N - 1 - Util.WORD);
      DivModUnique(N - 1, N, 0, N - 1);
      assert WindowOff(N - 1, 0, N) != (N - 1 - 0) % N;
    }
  }

  function SetOf(s: seq<nat>): set<nat> { set b | b in s }

  datatype Allocated = Block(block: nat) | NoSpace | ScanFailed

  class Lookahead {
    const N: nat                  // blocks of the device
    const buffer: array<bv8>
    var start: nat
    var next: nat
    var size: nat
    var ckpoint: nat
    ghost var inUse: set<nat>     // blocks a scan would find now
    ghost var handed: set<nat>    // handed out since the checkpoint
    ghost var passed: set<nat>    // passed over since the checkpoint as taken
    ghost var snap: set<nat>      // what the window was marked with
    ghost var reported: set<nat>  // what the windows since the checkpoint were marked with

    ghost predicate Valid()
      reads this, buffer
    {
      && Shape(N, start, next, size, ckpoint) && 0 < buffer.Length && size <= 8 * buffer.Length
      && (forall b :: b in inUse ==> b < N) && (forall b :: b in handed ==> b < N)
      && Window(buffer[..], N, start, next, size, inUse, snap)
      && Trail(N, Turn(start + next, N), ckpoint, handed, passed)
      && passed <= reported && snap <= reported
    }

    constructor (N: nat, length: nat, start: nat, ghost inUse: set<nat>)
      requires 0 < N <= 0x8000_0000 && length > 0 && start < N && forall b :: b in inUse ==> b < N
      ensures Valid() && this.N == N && this.inUse == inUse && handed == {} && fresh(buffer)
    {
      this.N, buffer := N, new bv8[length];
      this.start, next, size, ckpoint := start, 0, 0, N;
      this.inUse, handed, passed, snap, reported := inUse, {}, {}, {}, {};
    }

    // ----- what the rest of the file system does in between -----

    // A block that was handed out is put to use, before the next checkpoint.
    ghost method Use(b: nat)
      requires Valid() && b in handed
      modifies this`inUse
      ensures Valid() && inUse == old(inUse) + {b}
    {
      hide Marked, Trail;
      inUse := inUse + {b};
      HandedIsBehind(N, start, next, size, ckpoint, handed, passed, b);
    }

    ghost method Free(b: nat)
      requires Valid()
      modifies this`inUse
      ensures Valid() && inUse == old(inUse) - {b}
    {
      inUse := inUse - {b};
    }

    // lfs_alloc_ckpoint: nothing is in flight
    method Checkpoint()
      requires Valid()
      modifies this`ckpoint, this`handed, this`passed, this`reported
      ensures Valid() && ckpoint == N && handed == {} && passed == {} && reported == snap
    {
      ckpoint := N;
      handed, passed, reported := {}, {}, snap;
    }

    // lfs_alloc_drop: the window is given up
    method Drop()
      requires 0 < N <= 0x8000_0000 && start < N && buffer.Length > 0
      requires forall b :: b in inUse ==> b < N
      modifies this`next, this`size, this`ckpoint, this`handed, this`passed, this`snap, this`reported
      ensures Valid() && next == size == 0 && ckpoint == N && handed == passed == snap == reported == {}
    {
      next, size, ckpoint := 0, 0, N;
      handed, passed, snap, reported := {}, {}, {}, {};
    }

    // lfs_alloc_lookahead
    method Mark(block: nat)
      requires Shape(N, start, next, size, ckpoint) && size <= 8 * buffer.Length && block < N
      modifies buffer
      ensures Marks(old(buffer[..]), buffer[..], N, start, size, block)
    {
      hide SetBit, TestBit, WindowOff, Marks;
      var off := WindowOff(block, start, N);
      WindowOffIs(block, start, N);
      if off < size {
        buffer[off / 8] := SetBit(buffer[off / 8], off % 8);
      }
      MarkMarks(old(buffer[..]), buffer[..], N, start, size, block, off);
    }

    // A caller reports a block it found to be bad.
    method MarkBad(block: nat)
      requires Valid() && block < N
      modifies this`snap, this`reported, buffer
      ensures Valid() && snap == old(snap) + {block} && reported == old(reported) + {block}
    {
      hide Trail, Marked;
      Mark(block);
      snap, reported := snap + {block}, reported + {block};
    }

    // lfs_alloc_scan: the window moves on to the cursor and is marked with
    // every block the traversal of the file system reports. If the traversal
    // fails, having reported `cut` blocks, the window is given up.
    method Scan(report: seq<nat>, cut: MetadataLog.Option<nat>) returns (ok: bool)
      requires Valid() && SetOf(report) == inUse
      modifies this`start, this`next, this`size, this`snap, this`reported, this`ckpoint, this`handed, this`passed,
               buffer
      ensures Valid() && ok == cut.None? && Place(N, start, next) == old(Place(N, start, next))
      ensures ok ==> next == 0 && size == Min(8 * buffer.Length, ckpoint)
      ensures ok ==> snap == inUse && reported == old(reported) + inUse
      ensures ok ==> ckpoint == old(ckpoint) && handed == old(handed) && passed == old(passed)
      ensures !ok ==> next == size == 0 && ckpoint == N && handed == passed == snap == reported == {}
    {
      hide Trail, Marks, TestBit, Window, MarkedBy, Marked;
      TurnIsMod(start + next, N);
      start := (start + next) % N;
      next, size := 0, Min(8 * buffer.Length, ckpoint);
      for i := 0 to buffer.Length
        invariant forall j :: 0 <= j < i ==> buffer[j] == 0
        modifies buffer
      {
        buffer[i] := 0;
      }
      Unmarked(buffer[..], N, start, size);
      var n := if cut.Some? && cut.value < |report| then cut.value else |report|;
      assert report[..0] == [];
      for i := 0 to n
        invariant MarkedBy(buffer[..], N, start, size, report[..i])
        modifies buffer
      {
        assert report[i] in inUse;
        ghost var was := buffer[..];
        Mark(report[i]);
        MarkedOne(was, buffer[..], N, start, size, report, i);
      }
      if cut.Some? {
        Drop();
        return false;
      }
      assert report[..n] == report;
      Scanned(buffer[..], N, start, size, report, inUse);
      snap, reported := inUse, reported + inUse;
      return true;
    }

    // The cursor moves over a block, which is handed out if it is unmarked.
    method Advance()
      requires Valid() && next < size
      modifies this`next, this`ckpoint, this`handed, this`passed
      ensures Valid() && next == old(next) + 1 && ckpoint == old(ckpoint) - 1
      ensures var b := Place(N, start, old(next));
              if Marked(buffer[..], old(next)) then handed == old(handed) && passed == old(passed) + {b}
              else handed == old(handed) + {b} && passed == old(passed) && b !in old(handed) && b !in inUse
    {
      hide Marked, Trail;
      ghost var b := Place(N, start, next);
      TrailStep(N, start, next, ckpoint, handed, passed, b);
      if b in handed { HandedIsBehind(N, start, next, size, ckpoint, handed, passed, b); }
      if Marked(buffer[..], next) {
        passed := passed + {b};
      } else {
        handed := handed + {b};
      }
      next, ckpoint := next + 1, ckpoint - 1;
    }

    // Moves the cursor to the next unmarked block of the window or its end.
    method Skip()
      requires Valid()
      modifies this`next, this`ckpoint, this`handed, this`passed
      ensures Valid() && old(next) <= next && ckpoint == old(ckpoint) - (next - old(next)) && handed == old(handed)
      ensures next < size ==> !Marked(buffer[..], next)
    {
      hide Marked, Trail, Window, Shape;
      while next < size && Marked(buffer[..], next)
        invariant Valid() && old(next) <= next && ckpoint == old(ckpoint) - (next - old(next)) && handed == old(handed)
        decreases size - next
      {
        Advance();
      }
    }

    // A block that is free and not handed out since the checkpoint; or no
    // space, when every block was handed out or passed over since then. The
    // traversal of a scan made when ckpoint is k fails after cuts(k) blocks, if
    // that is some number.
    method Alloc(report: seq<nat>, cuts: nat -> MetadataLog.Option<nat>) returns (r: Allocated)
      requires Valid() && SetOf(report) == inUse
      modifies this`start, this`next, this`size, this`ckpoint, this`handed, this`passed, this`snap, this`reported,
               buffer
      ensures Valid() && (!r.ScanFailed? ==> reported <= old(reported) + inUse)
      ensures r.Block? ==> r.block < N && r.block !in inUse && r.block !in old(handed)
      ensures r.Block? ==> handed == old(handed) + {r.block}
      ensures r.NoSpace? ==> handed == old(handed) && forall b: nat :: b < N ==> b in handed || b in passed
      ensures r.ScanFailed? ==> next == size == 0 && ckpoint == N && handed == passed == reported == {}
    {
      hide Marked, Window, Trail;
      while true
        invariant Valid() && handed == old(handed) && reported <= old(reported) + inUse
        decreases ckpoint, if next < size then 0 else 1
      {
        Skip();
        if next < size {
          var block := (start + next) % N;
          TurnIsMod(start + next, N);
          Advance();
          Skip();
          return Block(block);
        }
        if ckpoint == 0 {
          TrailAll(N, Turn(start + next, N), handed, passed);
          return NoSpace;
        }
        var ok := Scan(report, cuts(ckpoint));
        if !ok {
          return ScanFailed;
        }
      }
    }
  }

  // ----- the window -----

  predicate Marked(bytes: seq<bv8>, k: nat) {
    k / 8 < |bytes| && TestBit(bytes[k / 8], k % 8)
  }

  // the block at place k of a window
  function Place(N: nat, start: nat, k: nat): nat { Turn(start + k, N) }

  ghost predicate Shape(N: nat, start: nat, next: nat, size: nat, ckpoint: nat) {
    && 0 < N <= 0x8000_0000 && start < N
    && next <= size <= N && size - next <= ckpoint <= N
  }

  // What is in use is marked, and what is marked was reported.
  ghost predicate Window(bytes: seq<bv8>, N: nat, start: nat, next: nat, size: nat, inUse: set<nat>, snap: set<nat>) {
    && (forall k :: next <= k < size && Place(N, start, k) in inUse ==> Marked(bytes, k))
    && (forall k :: next <= k < size && Marked(bytes, k) ==> Place(N, start, k) in snap)
  }

  // The blocks handed out or passed over since the checkpoint are the last
  // N - ckpoint before the cursor.
  ghost predicate Trail(N: nat, cursor: nat, ckpoint: nat, handed: set<nat>, passed: set<nat>) {
    && (forall b :: b in handed ==> Behind(cursor, b, N) < N - ckpoint)
    && (forall b: nat :: b < N && Behind(cursor, b, N) < N - ckpoint ==> b in handed || b in passed)
  }

  // Nothing ahead in the window has been handed out since the checkpoint.
  lemma HandedIsBehind(N: nat, start: nat, next: nat, size: nat, ckpoint: nat, handed: set<nat>, passed: set<nat>,
                       b: nat)
    requires Shape(N, start, next, size, ckpoint) && Trail(N, Turn(start + next, N), ckpoint, handed, passed)
    requires b in handed
    ensures forall k :: next <= k < size ==> Place(N, start, k) != b
  {}

  lemma Scanned(bytes: seq<bv8>, N: nat, start: nat, size: nat, report: seq<nat>, inUse: set<nat>)
    requires MarkedBy(bytes, N, start, size, report) && SetOf(report) == inUse
    ensures Window(bytes, N, start, 0, size, inUse, inUse)
  {
    hide Marked;
  }

  // Once the cursor has gone all the way round every block was met.
  lemma TrailAll(N: nat, cursor: nat, handed: set<nat>, passed: set<nat>)
    requires cursor < N && Trail(N, cursor, 0, handed, passed)
    ensures forall b: nat :: b < N ==> b in handed || b in passed
  {}

  lemma TrailStep(N: nat, start: nat, next: nat, ckpoint: nat, handed: set<nat>, passed: set<nat>, b: nat)
    requires start < N && next < N && 0 < ckpoint <= N && b == Place(N, start, next)
    requires Trail(N, Turn(start + next, N), ckpoint, handed, passed)
    requires forall x :: x in handed ==> x < N
    ensures Trail(N, Turn(start + next + 1, N), ckpoint - 1, handed + {b}, passed)
    ensures Trail(N, Turn(start + next + 1, N), ckpoint - 1, handed, passed + {b})
  {}

  // Exactly the bit of the block is set, if the window has one.
  ghost predicate Marks(was: seq<bv8>, now: seq<bv8>, N: nat, start: nat, size: nat, block: nat) {
    && |now| == |was|
    && forall k: nat :: k < size ==> (Marked(now, k) <==> Marked(was, k) || Place(N, start, k) == block)
  }

  lemma MarkMarks(was: seq<bv8>, now: seq<bv8>, N: nat, start: nat, size: nat, block: nat, off: nat)
    requires start < N && size <= N && size <= 8 * |was| && block < N
    requires off == if block >= start then block - start else block - start + N
    requires now == if off < size then was[off / 8 := SetBit(was[off / 8], off % 8)] else was
    ensures Marks(was, now, N, start, size, block)
  {
    forall k: nat | k < size ensures Marked(now, k) <==> Marked(was, k) || Place(N, start, k) == block {
      if off < size && k / 8 == off / 8 {
        SetBitSets(was[off / 8], off % 8, k % 8);
      }
    }
  }

  ghost predicate MarkedBy(bytes: seq<bv8>, N: nat, start: nat, size: nat, report: seq<nat>) {
    forall k: nat :: k < size ==> (Marked(bytes, k) <==> Place(N, start, k) in report)
  }

  lemma Unmarked(bytes: seq<bv8>, N: nat, start: nat, size: nat)
    requires forall j :: 0 <= j < |bytes| ==> bytes[j] == 0
    ensures MarkedBy(bytes, N, start, size, [])
  {}

  lemma MarkedOne(was: seq<bv8>, now: seq<bv8>, N: nat, start: nat, size: nat, report: seq<nat>, i: nat)
    requires i < |report| && MarkedBy(was, N, start, size, report[..i])
    requires Marks(was, now, N, start, size, report[i])
    ensures MarkedBy(now, N, start, size, report[..i + 1])
  {
    assert report[..i + 1] == report[..i] + [report[i]];
  }
}
