/**
 dir/fetch.rs, lfs_dir_fetchmatch without the name search: scanning a metadata
 block and choosing between the two blocks of a pair.
 */
module Fetch {
  import opened Tags
  import opened MetadataLog
  import opened Layout
  import opened Crc

  datatype Pair = Pair(first: bv32, second: bv32)

  const BLOCK_NULL: bv32 := 0xffff_ffff
  const NO_PAIR := Pair(BLOCK_NULL, BLOCK_NULL)
  const CRC_INIT: bv32 := 0xffff_ffff

  datatype Fcrc = Fcrc(size: bv32, crc: bv32)

  // what the tags of the commit being read add up to
  datatype Temp = Temp(count: int, tail: Pair, split: bool, fcrc: Option<Fcrc>)

  // the fields of the mdir, set only by a verified commit
  datatype Found = Found(off: nat, etag: bv32, count: int, tail: Pair, split: bool)

  datatype Scanner = Scanner(off: nat, ptag: bv32, crc: bv32, temp: Temp, best: Found)

  datatype Move = Next(s: Scanner) | Stop(maybeErased: bool)

  const NOTHING := Found(0, 0, 0, NO_PAIR, false)

  function Start(rev: bv32): Scanner {
    Scanner(4, FIRST_PTAG, Crc32(CRC_INIT, LeBytes(rev)), Temp(0, NO_PAIR, false, None), NOTHING)
  }

  predicate IsFcrc(t: Tag) { t.type1 == CRC && t.chunk == 0xff }

  // a payload read as two little-endian words whatever its size
  predicate ReadsEight(t: Tag) { t.type1 == TAIL || IsFcrc(t) }

  function TempAfter(temp: Temp, t: Tag, eight: Bytes): Temp
    requires ReadsEight(t) ==> |eight| == 8
  {
    if t.type1 == NAME then temp.(count := CountAfter(temp.count, t))
    else if t.type1 == SPLICE then temp.(count := (temp.count + t.Splice()) % 0x1_0000)
    else if t.type1 == TAIL then
      temp.(split := t.chunk % 2 == 1, tail := Pair(FromLe(eight[..4]), FromLe(eight[4..])))
    else if IsFcrc(t) then temp.(fcrc := Some(Fcrc(FromLe(eight[..4]), FromLe(eight[4..]))))
    else temp
  }

  function Accepted(s: Scanner, t: Tag): Scanner
    requires t.InRange()
  {
    var off, etag := s.off + t.DSize(), Link(t);
    Scanner(off, etag, CRC_INIT, s.temp, Found(off, etag, s.temp.count, s.temp.tail, s.temp.split))
  }

  // One round of the scan loop.
  function Step(b: Bytes, s: Scanner): (m: Move)
    ensures m.Next? ==> s.off < m.s.off <= |b|
  {
    if s.off + 4 > |b| then Stop(false)
    else
      var raw := b[s.off..s.off + 4];
      var crc, w := Crc32(s.crc, raw), Chain(FromBe(raw), s.ptag);
      var t := Unpack(w);
      if !WordIsValid(w) then Stop(Unpack(s.ptag).IsCcrc())
      else if s.off + t.DSize() > |b| then Stop(false)
      else if t.IsCcrc() then
        if s.off + 8 > |b| || crc != LeAt(b, s.off + 4) then Stop(false) else Next(Accepted(s, t))
      else if ReadsEight(t) && s.off + 12 > |b| then Stop(false)
      else
        var eight := if ReadsEight(t) then b[s.off + 4..s.off + 12] else [];
        Next(Scanner(s.off + t.DSize(), w, Crc32(crc, b[s.off + 4..s.off + t.DSize()]),
                     TempAfter(s.temp, t, eight), s.best))
  }

  // Where the scan ends, and whether it ended on an unwritten word after a commit.
  function Scan(b: Bytes, s: Scanner): (Scanner, bool)
    decreases |b| - s.off
  {
    match Step(b, s)
    case Stop(maybeErased) => (s, maybeErased)
    case Next(n) => Scan(b, n)
  }

  // One round as the loop body does it: the loop variables of the source in,
  // and either their next values or the reason to leave the loop out.
  method ScanStep(b: Bytes, s: Scanner) returns (m: Move)
    ensures m == Step(b, s)
  {
    hide Chain, Unpack, WordIsValid, FromBe, Link, FromLe, LeAt, Crc32, Accepted;
    if s.off + 4 > |b| {
      return Stop(false);
    }
    var raw := b[s.off..s.off + 4];
    var crc := LfsCrc(s.crc, raw);
    var w := Chain(FromBe(raw), s.ptag);
    if !WordIsValid(w) {
      return Stop(Unpack(s.ptag).IsCcrc());
    }
    var tag := Unpack(w);
    var end := s.off + tag.DSize();
    if end > |b| {
      return Stop(false);
    }
    if tag.IsCcrc() {
      if s.off + 8 > |b| {
        return Stop(false);
      }
      if crc != LeAt(b, s.off + 4) {
        return Stop(false);
      }
      return Next(Accepted(s, tag));
    }
    crc := LfsCrc(crc, b[s.off + 4..end]);
    var temp := s.temp;
    if tag.type1 == NAME {
      if tag.id >= temp.count {
        temp := temp.(count := tag.id + 1);
      }
    } else if tag.type1 == SPLICE {
      temp := temp.(count := (temp.count + tag.Splice()) % 0x1_0000);
    } else if tag.type1 == TAIL {
      if s.off + 12 > |b| {
        return Stop(false);
      }
      var eight := b[s.off + 4..s.off + 12];
      temp := temp.(split := tag.chunk % 2 == 1, tail := Pair(FromLe(eight[..4]), FromLe(eight[4..])));
    } else if IsFcrc(tag) {
      if s.off + 12 > |b| {
        return Stop(false);
      }
      var eight := b[s.off + 4..s.off + 12];
      temp := temp.(fcrc := Some(Fcrc(FromLe(eight[..4]), FromLe(eight[4..]))));
    }
    return Next(Scanner(end, w, crc, temp, s.best));
  }

  // the scan of one block
  method ScanBlock(b: Bytes, rev: bv32) returns (s: Scanner, maybeErased: bool)
    ensures (s, maybeErased) == Scan(b, Start(rev))
  {
    hide Step, Start;
    s := Start(rev);
    while true
      invariant Scan(b, s) == Scan(b, Start(rev))
      decreases |b| - s.off
    {
      var m := ScanStep(b, s);
      match m {
        case Stop(erased) => return s, erased;
        case Next(n) => s := n;
      }
    }
  }

  // ----- scanning a log that was written whole -----

  predicate RecReadable(r: Rec) { ReadsEight(r.tag) ==> |r.data| >= 8 }

  // the scanner after record `r`
  function AfterRec(s: Scanner, r: Rec): Scanner
    requires OnDisk(r)
  {
    if r.tag.IsCcrc() then Accepted(s, r.tag)
    else
      var crc := Crc32(Crc32(s.crc, BeBytes(Chain(Pack(r.tag), s.ptag))), r.data);
      Scanner(s.off + r.tag.DSize(), Link(r.tag), crc,
              TempAfter(s.temp, r.tag, if ReadsEight(r.tag) then Clip8(r.data) else []), s.best)
  }

  function Clip8(data: Bytes): (s: Bytes)
    ensures |s| == 8
  {
    if |data| >= 8 then data[..8] else [0, 0, 0, 0, 0, 0, 0, 0]
  }

  // a commit crc holds what the scan will compute
  predicate Checks(s: Scanner, r: Rec)
    requires OnDisk(r)
  {
    if r.tag.IsCcrc() then
      |r.data| >= 4 && FromLe(r.data[..4]) == Crc32(s.crc, BeBytes(Chain(Pack(r.tag), s.ptag)))
    else RecReadable(r)
  }

  function StateAt(s: Scanner, log: seq<Rec>): Scanner
    requires LogOnDisk(log)
  {
    if log == [] then s else AfterRec(StateAt(s, log[..|log| - 1]), log[|log| - 1])
  }

  // every commit in the log verifies
  predicate Verifies(s: Scanner, log: seq<Rec>)
    requires LogOnDisk(log)
  {
    log == []
    || (Verifies(s, log[..|log| - 1]) && Checks(StateAt(s, log[..|log| - 1]), log[|log| - 1]))
  }

  // A record that checks is accepted as it is.
  lemma StepIsAfter(b: Bytes, s: Scanner, r: Rec)
    requires OnDisk(r) && Checks(s, r) && s.off + r.tag.DSize() <= |b|
    requires b[s.off..s.off + 4] == BeBytes(Chain(Pack(r.tag), s.ptag))
    requires b[s.off + 4..s.off + r.tag.DSize()] == r.data
    ensures Step(b, s) == Next(AfterRec(s, r))
  {
    hide Chain, Pack, Unpack, BeBytes, FromBe, FromLe, WordIsValid, Crc32, TempAfter;
    BeRoundTrip(Chain(Pack(r.tag), s.ptag));
    Unchain(Pack(r.tag), s.ptag);
    PackUnpack(r.tag);
    if r.tag.IsCcrc() {
      assert b[s.off + 4..s.off + 8] == r.data[..4];
    } else if ReadsEight(r.tag) {
      assert b[s.off + 4..s.off + 12] == r.data[..8];
    }
  }

  lemma {:induction false} StateAtEnd(s: Scanner, log: seq<Rec>)
    requires LogOnDisk(log)
    ensures StateAt(s, log).off == s.off + Length(log) && StateAt(s, log).ptag == EndTag(log, s.ptag)
  {
    hide Link, Crc32, TempAfter;
    if log != [] {
      StateAtEnd(s, log[..|log| - 1]);
    }
  }

  // Whatever log a block holds, if its commits verify, the scan reads it whole.
  lemma {:induction false} ScanHolds(b: Bytes, s: Scanner, log: seq<Rec>)
    requires LogOnDisk(log) && Holds(b, s.off, s.ptag, log) && Verifies(s, log)
    ensures Scan(b, s) == Scan(b, StateAt(s, log))
  {
    hide Link, Crc32, TempAfter, Pack, Chain, BeBytes, Encode, BeAt, Step, AfterRec, Checks, EndTag;
    if log != [] {
      var init, r := log[..|log| - 1], log[|log| - 1];
      assert log == init + [r];
      HoldsPrefix(b, s.off, s.ptag, log, |init|);
      ScanHolds(b, s, init);
      HoldsLast(b, s.off, s.ptag, init, r);
      StateAtEnd(s, init);
      StepIsAfter(b, StateAt(s, init), r);
    }
  }
}
