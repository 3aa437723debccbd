/**
 dir/fetch.rs and dir/commit.rs together: a metadata pair is read from its
 newest block that holds a commit, and a commit that was cut short leaves the
 pair as it was.
 */
module MetadataPair {
  import opened Tags
  import opened MetadataLog
  import opened Layout
  import opened Crc
  import opened Fetch
  import opened Commit

  // ----- what a fetch reads back from a finished commit -----

  lemma FirstByteDecides(s: Bytes, ptag: bv32)
    requires |s| == 4 && (TopClear(s[0]) <==> !WordIsValid(ptag))
    ensures !WordIsValid(Chain(FromBe(s), ptag))
  {}

  // The scan stops at the end of a sealed commit.
  lemma SealedStops(b: Bytes, off: nat, ptag: bv32, crc: bv32, rev: bv32, log: seq<Rec>, prog: bv32)
    requires Nat32(prog) > 0 && Consistent(b, off, ptag, crc, rev, log) && Sealed(b, off, ptag, rev, log, prog)
    ensures Step(b, StateAt(Start(rev), log)) == Stop(off + 4 <= |b|)
  {
    hide Chain, FromBe, WordIsValid, Unpack, Link, Crc32, Holds, Verifies, StateAt;
    StateAtEnd(Start(rev), log);
    var t := log[|log| - 1].tag;
    assert ptag == Link(t);
    LinkDecodes(t);
    if off + 4 <= |b| {
      FirstByteDecides(b[off..off + 4], ptag);
    }
  }

  lemma LinkDecodes(t: Tag)
    requires t.InRange()
    ensures Unpack(Link(t)) == t
  {
    hide Pack, Unpack, Link;
    LinkFields(t);
    PackUnpack(t);
  }

  lemma FlipFields(w: bv32)
    ensures var v := w ^ 0x8000_0000;
            WordClass(v) == WordClass(w) && WordChunk(v) == WordChunk(w)
            && WordId(v) == WordId(w) && WordSize(v) == WordSize(w)
  {}

  lemma LinkFields(t: Tag)
    requires t.InRange()
    ensures Unpack(Link(t)) == Unpack(Pack(t))
  {
    hide Pack, WordClass, WordChunk, WordId, WordSize;
    FlipFields(Pack(t));
  }

  // The fields a fetch takes from a log that ends in a commit.
  lemma BestIsLast(s: Scanner, log: seq<Rec>)
    requires LogOnDisk(log) && log != [] && log[|log| - 1].tag.IsCcrc()
    ensures var e := StateAt(s, log);
            e.best == Found(e.off, e.ptag, e.temp.count, e.temp.tail, e.temp.split)
  {}

  // Scanning the block of a finished commit reads the whole log.
  lemma ScanSealed(b: Bytes, off: nat, ptag: bv32, crc: bv32, rev: bv32, log: seq<Rec>, prog: bv32)
    requires Nat32(prog) > 0 && Consistent(b, off, ptag, crc, rev, log) && Sealed(b, off, ptag, rev, log, prog)
    ensures var end := StateAt(Start(rev), log);
            && Scan(b, Start(rev)) == (end, off + 4 <= |b|)
            && end.best == Found(off, ptag, end.temp.count, end.temp.tail, end.temp.split)
  {
    hide Chain, FromBe, WordIsValid, Unpack, Link, Crc32, Step, StateAt;
    ScanHolds(b, Start(rev), log);
    SealedStops(b, off, ptag, crc, rev, log, prog);
    BestIsLast(Start(rev), log);
  }

  // ----- the fields of the directory, as its writer keeps them -----

  datatype Fields = Fields(count: int, tail: Pair, split: bool)

  function FieldsOf(t: Temp): Fields { Fields(t.count, t.tail, t.split) }

  function FieldsFound(f: Found): Fields { Fields(f.count, f.tail, f.split) }

  // lfs_dir_relocatingcommit: what an attribute does to dir.count, dir.tail and dir.split
  function FieldsStep(g: Fields, r: Rec): Fields {
    if r.tag.IsCreate() then g.(count := g.count + 1)
    else if r.tag.IsDelete() then g.(count := g.count - 1)
    else if r.tag.type1 == TAIL then
      g.(tail := Pair(FromLe(Clip8(r.data)[..4]), FromLe(Clip8(r.data)[4..])), split := r.tag.chunk % 2 == 1)
    else g
  }

  function FieldsAfter(f: Fields, attrs: seq<Rec>): Fields {
    if attrs == [] then f else FieldsStep(FieldsAfter(f, attrs[..|attrs| - 1]), attrs[|attrs| - 1])
  }

  // one more record, as the scan and as the writer take it in
  lemma TempStep(s: Scanner, log: seq<Rec>, r: Rec)
    requires LogOnDisk(log + [r])
    ensures LogOnDisk(log)
    ensures var t, u := StateAt(s, log).temp, StateAt(s, log + [r]).temp;
            && u.tail == FieldsStep(FieldsOf(t), r).tail && u.split == FieldsStep(FieldsOf(t), r).split
            && u.count == if r.tag.type1 == NAME then CountAfter(t.count, r.tag)
                          else if r.tag.type1 == SPLICE then (t.count + r.tag.Splice()) % 0x1_0000
                          else t.count
  {
    hide Crc32, Link, BeBytes, Pack, Chain, FromLe;
    assert (log + [r])[..|log|] == log;
    assert forall i :: 0 <= i < |log| ==> log[i] == (log + [r])[i];
    assert OnDisk((log + [r])[|log|]);
  }

  // A fetch finds the tail and the split the writer has.
  lemma {:induction false} TailIsWritten(s: Scanner, log: seq<Rec>, attrs: seq<Rec>)
    requires LogOnDisk(log + attrs) && LogOnDisk(log)
    ensures var f := FieldsAfter(FieldsOf(StateAt(s, log).temp), attrs);
            var g := FieldsOf(StateAt(s, log + attrs).temp);
            f.tail == g.tail && f.split == g.split
  {
    if attrs == [] {
      assert log + attrs == log;
    } else {
      hide StateAt, FromLe, OnDisk;
      var n := |attrs| - 1;
      assert log + attrs == log + attrs[..n] + [attrs[n]];
      TempStep(s, log + attrs[..n], attrs[n]);
      TailIsWritten(s, log, attrs[..n]);
    }
  }

  // Names are given to entries that are there, as the writer counts them.
  predicate NamesWithin(f: Fields, attrs: seq<Rec>) {
    attrs == [] ||
    var init, r := attrs[..|attrs| - 1], attrs[|attrs| - 1];
    NamesWithin(f, init) && (r.tag.type1 == NAME ==> r.tag.id < FieldsAfter(f, init).count)
  }

  // entries are created and deleted one at a time, and none that is not there
  predicate Counted(f: Fields, attrs: seq<Rec>) {
    attrs == [] ||
    var init, r := attrs[..|attrs| - 1], attrs[|attrs| - 1];
    && Counted(f, init) && FieldsAfter(f, attrs).count >= 0
    && (r.tag.type1 == SPLICE ==> r.tag.IsCreate() || r.tag.IsDelete())
  }

  lemma LastInRange(log: seq<Rec>, r: Rec)
    requires LogOnDisk(log + [r])
    ensures r.tag.InRange()
  {
    assert OnDisk((log + [r])[|log|]);
  }

  lemma CountStep(g: Fields, r: Rec, c: int, c': int, limit: int)
    requires 0 <= g.count <= c <= limit && 0x400 <= limit < 0xffff && r.tag.InRange() && FieldsStep(g, r).count >= 0
    requires r.tag.type1 == SPLICE ==> r.tag.IsCreate() || r.tag.IsDelete()
    requires c' == if r.tag.type1 == NAME then CountAfter(c, r.tag)
                   else if r.tag.type1 == SPLICE then (c + r.tag.Splice()) % 0x1_0000 else c
    ensures FieldsStep(g, r).count <= c' <= limit + 1
    ensures c' == FieldsStep(g, r).count <==> c == g.count && (r.tag.type1 == NAME ==> r.tag.id < g.count)
  {}

  // n is at least the writer's count, and the same if and only if no name was
  // given to an entry that was not created
  ghost predicate Tells(f: Fields, attrs: seq<Rec>, n: int) {
    && FieldsAfter(f, attrs).count <= n <= f.count + 0x400 + |attrs|
    && (n == FieldsAfter(f, attrs).count <==> NamesWithin(f, attrs))
  }

  // What the count a fetch finds tells of the writer's.
  lemma {:induction false} CountIsWritten(s: Scanner, log: seq<Rec>, attrs: seq<Rec>)
    requires LogOnDisk(log + attrs) && LogOnDisk(log) && Counted(FieldsOf(StateAt(s, log).temp), attrs)
    requires 0 <= StateAt(s, log).temp.count && StateAt(s, log).temp.count + |attrs| < 0xfc00
    ensures Tells(FieldsOf(StateAt(s, log).temp), attrs, StateAt(s, log + attrs).temp.count)
  {
    hide StateAt, OnDisk;
    var f := FieldsOf(StateAt(s, log).temp);
    if attrs == [] {
      assert log + attrs == log;
    } else {
      hide Tells, FieldsStep;
      var n := |attrs| - 1;
      var init, r := attrs[..n], attrs[n];
      assert log + attrs == log + init + [r];
      LastInRange(log + init, r);
      TempStep(s, log + init, r);
      CountIsWritten(s, log, init);
      TellsMore(f, attrs, StateAt(s, log + init).temp.count, StateAt(s, log + attrs).temp.count);
    }
  }

  lemma TellsMore(f: Fields, attrs: seq<Rec>, c: int, c': int)
    requires attrs != [] && 0 <= f.count && f.count + |attrs| < 0xfc00 && Counted(f, attrs)
    requires var init, r := attrs[..|attrs| - 1], attrs[|attrs| - 1];
             && Tells(f, init, c) && r.tag.InRange()
             && c' == if r.tag.type1 == NAME then CountAfter(c, r.tag)
                      else if r.tag.type1 == SPLICE then (c + r.tag.Splice()) % 0x1_0000 else c
    ensures Tells(f, attrs, c')
  {
    hide FieldsStep, CountAfter, Tag.InRange, Tag.Splice, Tag.IsCreate, Tag.IsDelete;
    var n := |attrs| - 1;
    CountedNow(f, attrs[..n]);
    CountStep(FieldsAfter(f, attrs[..n]), attrs[n], c, c', f.count + 0x400 + n);
  }

  lemma CountedNow(f: Fields, attrs: seq<Rec>)
    requires Counted(f, attrs) && f.count >= 0
    ensures FieldsAfter(f, attrs).count >= 0
  {}

  // crc tags say nothing about the fields
  lemma {:induction false} CrcsKeepFields(s: Scanner, log: seq<Rec>, more: seq<Rec>)
    requires LogOnDisk(log + more) && LogOnDisk(log) && forall i :: 0 <= i < |more| ==> more[i].tag.type1 == CRC
    ensures FieldsOf(StateAt(s, log + more).temp) == FieldsOf(StateAt(s, log).temp)
  {
    if more == [] {
      assert log + more == log;
    } else {
      hide StateAt, FromLe, OnDisk;
      var n := |more| - 1;
      assert log + more == log + more[..n] + [more[n]];
      TempStep(s, log + more[..n], more[n]);
      CrcsKeepFields(s, log, more[..n]);
    }
  }

  // What a fetch finds of a finished commit, in terms of what its writer had:
  // the fields `f` found before, and the attributes.
  ghost predicate AsWritten(found: Found, f: Fields, attrs: seq<Rec>) {
    && found.tail == FieldsAfter(f, attrs).tail && found.split == FieldsAfter(f, attrs).split
    && (Counted(f, attrs) && 0 <= f.count && f.count + |attrs| < 0xfc00 ==>
          (found.count == FieldsAfter(f, attrs).count <==> NamesWithin(f, attrs)))
  }

  // Round trip: scanning the block of a finished commit ends on the writer's own
  // offset and tag, with the writer's tail and split, and with its count if and
  // only if every name was given to an entry that is there.
  lemma CommitFetchRoundTrip(b: Bytes, off: nat, ptag: bv32, crc: bv32, rev: bv32, prog: bv32,
                             prior: seq<Rec>, attrs: seq<Rec>, whole: seq<Rec>)
    requires Nat32(prog) > 0 && Consistent(b, off, ptag, crc, rev, whole) && Sealed(b, off, ptag, rev, whole, prog)
    requires LogOnDisk(prior) && Extends(prior + attrs, whole)
    ensures var end := StateAt(Start(rev), whole);
            && Scan(b, Start(rev)) == (end, off + 4 <= |b|)
            && end.best.off == off && end.best.etag == ptag
            && AsWritten(end.best, FieldsOf(StateAt(Start(rev), prior).temp), attrs)
  {
    hide StateAt, Scan, Crc32, Counted, NamesWithin;
    ScanSealed(b, off, ptag, crc, rev, whole, prog);
    FieldsAreWritten(Start(rev), prior, attrs, whole);
  }

  lemma FieldsAreWritten(s: Scanner, prior: seq<Rec>, attrs: seq<Rec>, whole: seq<Rec>)
    requires LogOnDisk(prior) && LogOnDisk(whole) && Extends(prior + attrs, whole)
    ensures FieldsOf(StateAt(s, whole).temp) == FieldsOf(StateAt(s, (prior + attrs)).temp)
    ensures forall found: Found :: FieldsFound(found) == FieldsOf(StateAt(s, whole).temp) ==>
              AsWritten(found, FieldsOf(StateAt(s, prior).temp), attrs)
  {
    hide StateAt, Counted, NamesWithin, OnDisk, FieldsAfter;
    var log, more := prior + attrs, whole[|prior + attrs|..];
    assert whole == log + more;
    forall i | 0 <= i < |log| ensures OnDisk(log[i]) { assert log[i] == whole[i]; }
    CrcsKeepFields(s, log, more);
    TailIsWritten(s, prior, attrs);
    var f := FieldsOf(StateAt(s, prior).temp);
    if Counted(f, attrs) && 0 <= f.count && f.count + |attrs| < 0xfc00 {
      CountIsWritten(s, prior, attrs);
    }
  }

  // The count a fetch takes is the count of the log.
  lemma {:induction false} CountIsRead(s: Scanner, log: seq<Rec>)
    requires LogOnDisk(log) && s.temp.count == 0
    requires forall k :: 0 <= k <= |log| ==> 0 <= Count(log[..k]) < 0x1_0000
    ensures StateAt(s, log).temp.count == Count(log)
  {
    hide Crc32, Link, BeBytes, Pack, Chain, FromLe;
    if log != [] {
      var init := log[..|log| - 1];
      forall k | 0 <= k <= |init| ensures 0 <= Count(init[..k]) < 0x1_0000 {
        assert init[..k] == log[..k];
      }
      CountIsRead(s, init);
      assert log[..|log|] == log;
    }
  }

  // ----- is the rest of the block still erased? -----

  // lfs_bd_crc in chunks of eight bytes; a chunk past the block ends it
  function CrcWithin(b: Bytes, off: nat, size: nat): bv32
    requires off <= |b|
  {
    if off + size <= |b| then Crc32(CRC_INIT, b[off..off + size])
    else Crc32(CRC_INIT, b[off..off + 8 * ((|b| - off) / 8)])
  }

  function Erased(b: Bytes, s: Scanner, maybeErased: bool, prog: bv32): bool
    requires Nat32(prog) > 0
  {
    && maybeErased && s.best.off % Nat32(prog) == 0 && s.best.off <= |b|
    && s.temp.fcrc.Some?
    && CrcWithin(b, s.best.off, Nat32(s.temp.fcrc.value.size)) == s.temp.fcrc.value.crc
  }

  // A finished commit is fetched with a block ready for the next one exactly
  // when there is room for another tag.
  lemma SealedIsErased(b: Bytes, off: nat, ptag: bv32, crc: bv32, rev: bv32, log: seq<Rec>, prog: bv32)
    requires Nat32(prog) > 0 && Consistent(b, off, ptag, crc, rev, log) && Sealed(b, off, ptag, rev, log, prog)
    ensures var (s, maybeErased) := Scan(b, Start(rev)); Erased(b, s, maybeErased, prog) <==> off + 4 <= |b|
  {
    hide Crc32, Link, StateAt, Scan, Consistent, LogOnDisk, Erased, Start, Nat32;
    ScanSealed(b, off, ptag, crc, rev, log, prog);
    ErasedWhen(b, StateAt(Start(rev), log), off, prog, off + 4 <= |b|);
  }

  lemma ErasedWhen(b: Bytes, s: Scanner, off: nat, prog: bv32, maybeErased: bool)
    requires Nat32(prog) > 0 && off % Nat32(prog) == 0 && s.best.off == off
    requires maybeErased ==> off + Nat32(prog) <= |b|
                             && s.temp.fcrc == Some(Fcrc(prog, Crc32(CRC_INIT, b[off..off + Nat32(prog)])))
    ensures Erased(b, s, maybeErased, prog) <==> maybeErased
  {
    hide Nat32, Crc32;
  }

  // ----- choosing the block -----

  // lfs_scmp(a, b) > 0: sequence numbers compared across the wrap
  predicate Newer(a: bv32, b: bv32) { a != b && (a - b) & 0x8000_0000 == 0 }

  // A block is the bytes of it that can be read: where reads fail from some
  // byte on, the scan ends as it does at the end of the block. The revision is
  // zero if it cannot be read.
  function Rev(b: Bytes): bv32 { if |b| >= 4 then FromLe(b[..4]) else 0 }

  // the fields found in one block, if it holds a commit at all
  function Committed(b: Bytes): Option<Found> {
    var best := Scan(b, Start(Rev(b))).0.best;
    if best.off == 0 then None else Some(best)
  }

  datatype Fetched = Fetched(block: nat, rev: bv32, found: Found, erased: bool)

  // Block 1 goes first when its revision is newer, then the other one.
  function Choice(b: seq<Bytes>): Option<(nat, Found)>
    requires |b| == 2
  {
    var r := if |b[1]| >= 4 && Newer(Rev(b[1]), Rev(b[0])) then 1 else 0;
    if Committed(b[r]).Some? then Some((r, Committed(b[r]).value))
    else if Committed(b[1 - r]).Some? then Some((1 - r, Committed(b[1 - r]).value))
    else None
  }

  // lfs_dir_fetch
  method FetchPair(b: seq<Bytes>, prog: bv32) returns (m: Option<Fetched>)
    requires |b| == 2 && Nat32(prog) > 0
    ensures m.Some? <==> Choice(b).Some?
    ensures m.Some? ==> (m.value.block, m.value.found) == Choice(b).value
                        && m.value.rev == Rev(b[m.value.block])
                        && var (s, maybeErased) := Scan(b[m.value.block], Start(m.value.rev));
                           m.value.erased == Erased(b[m.value.block], s, maybeErased, prog)
  {
    hide Scan, Start, FromLe, Erased;
    var revs, r := [0, 0], 0;
    for i := 0 to 2
      invariant |revs| == 2 && (i > 0 ==> revs[0] == Rev(b[0])) && (i > 1 ==> revs[1] == Rev(b[1]))
      invariant (r == 0 || r == 1) && (i <= 1 ==> r == 0)
      invariant i == 2 ==> r == if |b[1]| >= 4 && Newer(Rev(b[1]), Rev(b[0])) then 1 else 0
    {
      revs := revs[i := Rev(b[i])];
      if |b[i]| >= 4 && Newer(revs[i], revs[1 - i]) {
        r := i;
      }
    }
    for i := 0 to 2
      invariant i == 1 ==> Committed(b[r]) == None
      invariant i == 2 ==> Committed(b[r]) == None && Committed(b[1 - r]) == None
    {
      var k := if i == 0 then r else 1 - r;
      var s, maybeErased := ScanBlock(b[k], revs[k]);
      if s.best.off != 0 {
        return Some(Fetched(k, revs[k], s.best, Erased(b[k], s, maybeErased, prog)));
      }
    }
    return None;
  }

  // ----- commits cut short -----

  // Where, if anywhere, a scan first accepts a commit crc.
  function FirstAccept(b: Bytes, s: Scanner): Option<nat>
    decreases |b| - s.off
  {
    match Step(b, s)
    case Stop(_) => None
    case Next(n) => if n.best.off == n.off then Some(s.off) else FirstAccept(b, n)
  }

  lemma {:induction false} NothingAccepted(b: Bytes, s: Scanner)
    requires s.best.off <= s.off && FirstAccept(b, s) == None
    ensures Scan(b, s).0.best == s.best
    decreases |b| - s.off
  {
    match Step(b, s)
    case Stop(_) =>
    case Next(n) =>
      StepBest(b, s);
      NothingAccepted(b, n);
  }

  lemma StepBest(b: Bytes, s: Scanner)
    requires s.best.off <= s.off && Step(b, s).Next?
    ensures var n := Step(b, s).s;
            n.best.off <= n.off && (n.best.off != n.off ==> n.best == s.best)
  {
    hide Chain, Unpack, WordIsValid, Link, Crc32, TempAfter, LeAt, FromBe;
  }

  lemma {:induction false} AcceptedLater(b: Bytes, s: Scanner)
    requires FirstAccept(b, s).Some?
    ensures FirstAccept(b, s).value >= s.off
    decreases |b| - s.off
  {
    match Step(b, s)
    case Stop(_) =>
    case Next(n) =>
      if n.best.off != n.off {
        AcceptedLater(b, n);
      }
  }

  // `d` agrees with `c` on the bytes that were programmed before the cut
  predicate CutAt(c: Bytes, d: Bytes, m: nat) { m <= |c| == |d| && d[..m] == c[..m] }

  lemma BeforeCut(c: Bytes, d: Bytes, m: nat, i: nat, j: nat)
    requires CutAt(c, d, m) && i <= j <= m
    ensures d[i..j] == c[i..j]
  {
    forall k | 0 <= k < j - i ensures d[i..j][k] == c[i..j][k] {
      assert d[..m][i + k] == c[..m][i + k];
    }
  }

  // The scan of a cut block decodes whatever tag words were written whole.
  lemma WholeTag(c: Bytes, d: Bytes, m: nat, log: seq<Rec>, k: nat, s: Scanner)
    requires CutAt(c, d, m) && LogOnDisk(log) && Holds(c, 4, FIRST_PTAG, log) && k < |log|
    requires s.off == 4 + Length(log[..k]) && s.ptag == EndTag(log[..k], FIRST_PTAG) && s.off + 4 <= m
    requires !log[k].tag.IsCcrc() && Step(d, s).Next? && s.best.off <= s.off
    ensures var n := Step(d, s).s;
            n.off == 4 + Length(log[..k + 1]) && n.ptag == EndTag(log[..k + 1], FIRST_PTAG)
            && n.best.off < n.off
  {
    hide Chain, Pack, Unpack, BeBytes, FromBe, WordIsValid, Crc32, TempAfter, Encode, LeAt, EndTag, Link;
    var t := log[k].tag;
    HoldsRec(c, 4, FIRST_PTAG, log, k);
    BeforeCut(c, d, m, s.off, s.off + 4);
    Unchain(Pack(t), s.ptag);
    PackUnpack(t);
    PlainLink(t);
    EndTagAt(log, k);
  }

  lemma EndTagAt(log: seq<Rec>, k: nat)
    requires LogOnDisk(log) && k < |log|
    ensures EndTag(log[..k + 1], FIRST_PTAG) == Link(log[k].tag)
  {}

  // A crc accepted in the cut part covers bytes that were never programmed.
  lemma {:induction false} AcceptedPastCut(c: Bytes, d: Bytes, m: nat, log: seq<Rec>, k: nat, s: Scanner)
    requires CutAt(c, d, m) && LogOnDisk(log) && Holds(c, 4, FIRST_PTAG, log) && k < |log|
    requires s.off == 4 + Length(log[..k]) && s.ptag == EndTag(log[..k], FIRST_PTAG) && s.best.off <= s.off
    requires forall i :: k <= i < |log| - 1 ==> !log[i].tag.IsCcrc()
    requires m < 4 + Length(log[..|log| - 1]) + 8
    ensures FirstAccept(d, s).Some? ==> FirstAccept(d, s).value + 8 > m
    decreases |log| - k
  {
    hide Chain, Pack, Unpack, BeBytes, FromBe, WordIsValid, Crc32, TempAfter, Encode, Step, EndTag, Holds;
    if FirstAccept(d, s).Some? {
      AcceptedLater(d, s);
      if s.off + 4 <= m && k < |log| - 1 {
        WholeTag(c, d, m, log, k, s);
        AcceptedPastCut(c, d, m, log, k + 1, Step(d, s).s);
      }
    }
  }

  // The crc check passed over bytes the commit never programmed.
  ghost predicate Forged(d: Bytes, s: Scanner, m: nat) {
    FirstAccept(d, s).Some? && FirstAccept(d, s).value + 8 > m
  }

  lemma {:induction false} BestBehind(s: Scanner, log: seq<Rec>)
    requires LogOnDisk(log) && s.best.off <= s.off
    ensures StateAt(s, log).best.off <= StateAt(s, log).off
  {
    hide Crc32, TempAfter, Link;
    if log != [] {
      BestBehind(s, log[..|log| - 1]);
    }
  }

  // where the crc word of the last commit ends
  function CrcEnd(log: seq<Rec>): nat
    requires log != []
  {
    4 + Length(log[..|log| - 1]) + 8
  }

  ghost predicate Complete(c: Bytes, rev: bv32, log: seq<Rec>) {
    LogOnDisk(log) && Holds(c, 4, FIRST_PTAG, log) && Verifies(Start(rev), log)
  }

  lemma CompletePrefix(c: Bytes, rev: bv32, log: seq<Rec>, k: nat)
    requires Complete(c, rev, log) && k <= |log|
    ensures Complete(c, rev, log[..k]) && Length(log[..k]) <= Length(log)
  {
    hide Holds, Verifies, Length;
    HoldsPrefix(c, 4, FIRST_PTAG, log, k);
    VerifiesPrefix(Start(rev), log, k);
  }

  lemma {:induction false} VerifiesPrefix(s: Scanner, log: seq<Rec>, k: nat)
    requires LogOnDisk(log) && Verifies(s, log) && k <= |log|
    ensures Verifies(s, log[..k])
    decreases |log|
  {
    hide Checks, StateAt;
    if k == |log| {
      assert log[..k] == log;
    } else {
      assert log[..k] == log[..|log| - 1][..k];
      VerifiesPrefix(s, log[..|log| - 1], k);
    }
  }

  // What was programmed whole before the cut is still scanned.
  lemma ScanUpToCut(c: Bytes, d: Bytes, m: nat, rev: bv32, log: seq<Rec>)
    requires Complete(c, rev, log) && CutAt(c, d, m) && 4 + Length(log) <= m
    ensures Scan(d, Start(rev)) == Scan(d, StateAt(Start(rev), log))
  {
    hide Scan, StateAt, Verifies, Length, Encode, Crc32;
    var n := 4 + Length(log);
    BeforeCut(c, d, m, 0, n);
    assert d[..n] == d[0..n] && c[..n] == c[0..n];
    HoldsElsewhere(c, d, 4, FIRST_PTAG, log);
    ScanHolds(d, Start(rev), log);
  }

  lemma CutBehindCrc(c: Bytes, d: Bytes, m: nat, rev: bv32, log: seq<Rec>)
    requires Complete(c, rev, log) && log != [] && log[|log| - 1].tag.IsCcrc()
    requires CutAt(c, d, m) && m >= CrcEnd(log)
    ensures Scan(d, Start(rev)) == Scan(d, StateAt(Start(rev), log))
  {
    hide StateAt, Holds, Verifies, EndTag, Step, AfterRec, Checks, CrcEnd;
    var init, r := log[..|log| - 1], log[|log| - 1];
    assert init + [r] == log;
    CompletePrefix(c, rev, log, |log| - 1);
    UpToCrc(init, r, m);
    ScanUpToCut(c, d, m, rev, init);
    StateAtEnd(Start(rev), init);
    LastChecks(Start(rev), log);
    CutLast(c, d, m, StateAt(Start(rev), init), init, r);
  }

  lemma UpToCrc(init: seq<Rec>, r: Rec, m: nat)
    requires m >= CrcEnd(init + [r])
    ensures 4 + Length(init) <= m
  {
    assert (init + [r])[..|init|] == init;
  }

  lemma CutLast(c: Bytes, d: Bytes, m: nat, s: Scanner, init: seq<Rec>, r: Rec)
    requires LogOnDisk(init + [r]) && LogOnDisk(init) && Holds(c, 4, FIRST_PTAG, init + [r]) && r.tag.IsCcrc()
    requires s.off == 4 + Length(init) && s.ptag == EndTag(init, FIRST_PTAG) && Checks(s, r)
    requires CutAt(c, d, m) && m >= CrcEnd(init + [r])
    ensures Step(d, s) == Next(AfterRec(s, r))
  {
    hide Holds, EndTag, Crc32, Pack, Chain, BeBytes, Step, FromLe, Link, Encode;
    assert (init + [r])[|init|] == r && (init + [r])[..|init|] == init;
    HoldsLast(c, 4, FIRST_PTAG, init, r);
    var at := 4 + Length(init);
    BeforeCut(c, d, m, at, at + 4);
    BeforeCut(c, d, m, at + 4, at + 8);
    var r' := Rec(r.tag, d[at + 4..at + r.tag.DSize()]);
    FirstFour(d, at + 4, at + r.tag.DSize());
    FirstFour(c, at + 4, at + r.tag.DSize());
    StepIsAfter(d, s, r');
    assert AfterRec(s, r') == AfterRec(s, r);
  }

  lemma FirstFour(b: Bytes, i: nat, j: nat)
    requires i + 4 <= j <= |b|
    ensures b[i..j][..4] == b[i..i + 4]
  {
    assert forall k :: 0 <= k < 4 ==> b[i..j][..4][k] == b[i..i + 4][k];
  }

  lemma LastChecks(s: Scanner, log: seq<Rec>)
    requires LogOnDisk(log) && Verifies(s, log) && log != []
    ensures Checks(StateAt(s, log[..|log| - 1]), log[|log| - 1])
    ensures StateAt(s, log) == AfterRec(StateAt(s, log[..|log| - 1]), log[|log| - 1])
  {}

  // ----- the pair -----

  lemma SameRev(c: Bytes, d: Bytes, m: nat)
    requires CutAt(c, d, m) && m >= 4
    ensures Rev(d) == Rev(c)
  {
    BeforeCut(c, d, m, 0, 4);
    assert d[..4] == d[0..4] && c[..4] == c[0..4];
  }

  // The records of the commits whose crc was programmed before the cut.
  function Survived(log: seq<Rec>, m: nat): (k: nat)
    ensures k <= |log| && (k > 0 ==> log[k - 1].tag.IsCcrc())
  {
    if log == [] then 0
    else if log[|log| - 1].tag.IsCcrc() && CrcEnd(log) <= m then |log|
    else Survived(log[..|log| - 1], m)
  }

  lemma {:induction false} SurvivedAll(log: seq<Rec>, m: nat, k: nat)
    requires 0 < k <= |log| && log[k - 1].tag.IsCcrc()
    ensures CrcEnd(log[..k]) <= m ==> Survived(log, m) >= k
    ensures Survived(log, m) > 0 ==> CrcEnd(log[..Survived(log, m)]) <= m
    decreases |log|
  {
    hide CrcEnd;
    if k == |log| {
      assert log[..k] == log;
      if !(CrcEnd(log) <= m) {
        SurvivedEnds(log, m);
      }
    } else {
      var init := log[..|log| - 1];
      assert init[..k] == log[..k];
      SurvivedEnds(log, m);
      SurvivedAll(init, m, k);
    }
  }

  lemma {:induction false} SurvivedEnds(log: seq<Rec>, m: nat)
    ensures Survived(log, m) > 0 ==> CrcEnd(log[..Survived(log, m)]) <= m
  {
    hide CrcEnd;
    if log != [] {
      var init := log[..|log| - 1];
      SurvivedEnds(init, m);
      assert log[..|log|] == log;
      if Survived(log, m) < |log| { assert init[..Survived(init, m)] == log[..Survived(init, m)]; }
    }
  }

  // the first commit crc of a log behind the given records
  lemma {:induction false} FirstCcrc(log: seq<Rec>, from: nat) returns (k: nat)
    requires from < |log| && log[|log| - 1].tag.IsCcrc()
    ensures from <= k < |log| && log[k].tag.IsCcrc() && forall i :: from <= i < k ==> !log[i].tag.IsCcrc()
    decreases |log| - from
  {
    if log[from].tag.IsCcrc() {
      k := from;
    } else {
      k := FirstCcrc(log, from + 1);
    }
  }

  // A block that holds `whole`, with nothing behind it that reads as a tag.
  ghost predicate Finished(c: Bytes, rev: bv32, whole: seq<Rec>) {
    && Complete(c, rev, whole) && whole != [] && whole[|whole| - 1].tag.IsCcrc()
    && NoTagAt(c, StateAt(Start(rev), whole))
  }

  ghost predicate NoTagAt(c: Bytes, s: Scanner) {
    s.off + 4 <= |c| ==> !WordIsValid(Chain(FromBe(c[s.off..s.off + 4]), s.ptag))
  }

  lemma SealedIsFinished(c: Bytes, off: nat, ptag: bv32, crc: bv32, rev: bv32, log: seq<Rec>, prog: bv32)
    requires Nat32(prog) > 0 && Consistent(c, off, ptag, crc, rev, log) && Sealed(c, off, ptag, rev, log, prog)
    ensures Finished(c, rev, log)
  {
    hide Chain, FromBe, WordIsValid, Link, Crc32, Holds, Verifies, StateAt;
    if off + 4 <= |c| {
      FirstByteDecides(c[off..off + 4], ptag);
    }
  }

  // Cut at any byte, a block is read up to the last commit whose crc was
  // programmed, unless the crc was fooled.
  lemma CutIsSurvived(c: Bytes, d: Bytes, m: nat, rev: bv32, whole: seq<Rec>)
    requires Finished(c, rev, whole) && CutAt(c, d, m)
    ensures LogOnDisk(whole[..Survived(whole, m)])
    ensures var s := StateAt(Start(rev), whole[..Survived(whole, m)]);
            Forged(d, s, m) || Scan(d, Start(rev)).0.best == s.best
  {
    hide Complete, Scan, StateAt, Length, CrcEnd, NoTagAt, Start, Forged;
    var k := Survived(whole, m);
    var done := whole[..k];
    CompleteCut(c, rev, whole, k);
    SurvivedEnds(whole, m);
    assert k > 0 ==> done[|done| - 1] == whole[k - 1];
    assert Scan(d, Start(rev)) == Scan(d, StateAt(Start(rev), done)) by {
      if k > 0 {
        CutBehindCrc(c, d, m, rev, done);
      } else {
        NothingRead(rev);
      }
    }
    StartsBehind(rev, done);
    NextNotAccepted(c, d, m, rev, whole, k);
    NotForged(d, StateAt(Start(rev), done), m);
  }

  lemma NothingRead(rev: bv32)
    ensures StateAt(Start(rev), []) == Start(rev)
  {}

  lemma CompleteCut(c: Bytes, rev: bv32, log: seq<Rec>, k: nat)
    requires Complete(c, rev, log) && k <= |log|
    ensures Complete(c, rev, log[..k]) && LogOnDisk(log) && LogOnDisk(log[..k])
  {
    CompletePrefix(c, rev, log, k);
  }

  lemma StartsBehind(rev: bv32, log: seq<Rec>)
    requires LogOnDisk(log)
    ensures var s := StateAt(Start(rev), log);
            s.off == 4 + Length(log) && s.ptag == EndTag(log, FIRST_PTAG) && s.best.off <= s.off
  {
    StateAtEnd(Start(rev), log);
    BestBehind(Start(rev), log);
  }

  lemma NotForged(d: Bytes, s: Scanner, m: nat)
    requires s.best.off <= s.off
    requires FirstAccept(d, s).Some? ==> FirstAccept(d, s).value + 8 > m
    ensures Forged(d, s, m) || Scan(d, s).0.best == s.best
  {
    if FirstAccept(d, s) == None { NothingAccepted(d, s); }
  }

  // Behind the last commit that survived, whatever crc is accepted reaches past the cut.
  lemma NextNotAccepted(c: Bytes, d: Bytes, m: nat, rev: bv32, whole: seq<Rec>, k: nat)
    requires Finished(c, rev, whole) && CutAt(c, d, m) && k == Survived(whole, m) && LogOnDisk(whole[..k])
    ensures var s := StateAt(Start(rev), whole[..k]);
            FirstAccept(d, s).Some? ==> FirstAccept(d, s).value + 8 > m
  {
    hide Scan, StateAt, Length, CrcEnd, NoTagAt, Start, FirstAccept, Holds, Verifies, EndTag;
    StartsBehind(rev, whole[..k]);
    if k == |whole| {
      assert whole[..k] == whole;
      NothingBehind(c, d, m, StateAt(Start(rev), whole));
    } else {
      var j := FirstCcrc(whole, k);
      var next := whole[..j + 1];
      SurvivedAll(whole, m, j + 1);
      CompleteCut(c, rev, whole, j + 1);
      assert next[..k] == whole[..k] && next[..|next| - 1] == whole[..j];
      PastCut(c, d, m, next, k, StateAt(Start(rev), whole[..k]));
    }
  }

  lemma PastCut(c: Bytes, d: Bytes, m: nat, next: seq<Rec>, k: nat, s: Scanner)
    requires CutAt(c, d, m) && LogOnDisk(next) && Holds(c, 4, FIRST_PTAG, next) && k < |next|
    requires s.off == 4 + Length(next[..k]) && s.ptag == EndTag(next[..k], FIRST_PTAG) && s.best.off <= s.off
    requires forall i :: k <= i < |next| - 1 ==> !next[i].tag.IsCcrc()
    requires m < CrcEnd(next)
    ensures FirstAccept(d, s).Some? ==> FirstAccept(d, s).value + 8 > m
  {
    AcceptedPastCut(c, d, m, next, k, s);
  }

  lemma NothingBehind(c: Bytes, d: Bytes, m: nat, s: Scanner)
    requires CutAt(c, d, m) && NoTagAt(c, s)
    ensures FirstAccept(d, s).Some? ==> FirstAccept(d, s).value + 8 > m
  {
    hide Chain, FromBe, WordIsValid, Unpack, Crc32, TempAfter, LeAt, Link;
    if FirstAccept(d, s).Some? {
      AcceptedLater(d, s);
      if s.off + 4 <= m {
        BeforeCut(c, d, m, s.off, s.off + 4);
      }
    }
  }

  // the same block is chosen, with other fields
  ghost predicate Updated(b: Bytes, d: Bytes, twin: Bytes, found: Found)
    requires |b| >= 4 && |d| >= 4 && |twin| >= 4
  {
    && (Choice([b, twin]).Some? && Choice([b, twin]).value.0 == 0 ==> Choice([d, twin]) == Some((0, found)))
    && (Choice([twin, b]).Some? && Choice([twin, b]).value.0 == 1 ==> Choice([twin, d]) == Some((1, found)))
  }

  lemma ChoiceSame(b: Bytes, d: Bytes, twin: Bytes)
    requires |b| >= 4 && |d| >= 4 && |twin| >= 4 && Rev(b) == Rev(d) && Committed(b) == Committed(d)
    ensures Choice([d, twin]) == Choice([b, twin]) && Choice([twin, d]) == Choice([twin, b])
  {
    hide Committed, Rev, Newer;
  }

  lemma ChoiceUpdated(b: Bytes, d: Bytes, twin: Bytes, found: Found)
    requires |b| >= 4 && |d| >= 4 && |twin| >= 4 && Rev(b) == Rev(d)
    requires Committed(b).Some? && Committed(d) == Some(found)
    ensures Updated(b, d, twin, found)
  {
    hide Committed, Rev, Newer;
  }

  // a log that ends in a commit was found
  lemma BestIsThere(rev: bv32, log: seq<Rec>)
    requires LogOnDisk(log) && log != [] && log[|log| - 1].tag.IsCcrc()
    ensures StateAt(Start(rev), log).best.off != 0
  {
    StateAtEnd(Start(rev), log);
    BestIsLast(Start(rev), log);
  }

  // The commit before is programmed whole.
  lemma PriorSurvives(c: Bytes, rev: bv32, m: nat, prior: seq<Rec>, whole: seq<Rec>)
    requires Complete(c, rev, whole) && prior != [] && prior <= whole && prior[|prior| - 1].tag.IsCcrc()
    requires LogOnDisk(prior) && 4 + Length(prior) <= m
    ensures Survived(whole, m) >= |prior|
  {
    hide Holds, Verifies, StateAt, Survived;
    CompleteCut(c, rev, whole, |prior|);
    assert whole[..|prior|] == prior;
    LastChecks(Start(rev), prior);
    SurvivedAll(whole, m, |prior|);
  }

  // the scanner after the commits that survived
  function CutState(rev: bv32, whole: seq<Rec>, m: nat): Scanner
    requires LogOnDisk(whole)
  {
    StateAt(Start(rev), whole[..Survived(whole, m)])
  }

  // Block `d`, cut at byte m on the way from b to a block that holds `whole`:
  // unless the crc was fooled, as long as no commit behind the `prior` records
  // survived, fetching the pair gives what it gave before; after that, inside
  // later crcs too, the same block with what the surviving commits hold.
  ghost predicate AllOrNothing(b: Bytes, d: Bytes, twin: Bytes, m: nat, rev: bv32, prior: nat, whole: seq<Rec>)
    requires |b| >= 4 && |d| >= 4 && |twin| >= 4 && LogOnDisk(whole)
  {
    || Forged(d, CutState(rev, whole, m), m)
    || (if Survived(whole, m) <= prior then
          Choice([d, twin]) == Choice([b, twin]) && Choice([twin, d]) == Choice([twin, b])
        else Updated(b, d, twin, CutState(rev, whole, m).best))
  }

  // An append cut short is all or nothing. `b` is the block before it, `c`
  // after it.
  lemma AppendIsAtomic(b: Bytes, c: Bytes, d: Bytes, twin: Bytes, m: nat, prior: seq<Rec>, whole: seq<Rec>)
    requires |b| >= 4 && |c| >= 4 && |d| >= 4 && |twin| >= 4
    requires Finished(c, Rev(c), whole) && CutAt(c, d, m)
    requires prior != [] && prior <= whole && prior[|prior| - 1].tag.IsCcrc() && LogOnDisk(prior)
             && 4 + Length(prior) <= m
    requires Rev(b) == Rev(c) && Scan(b, Start(Rev(b))).0.best == StateAt(Start(Rev(b)), prior).best
    ensures LogOnDisk(whole) && |prior| <= Survived(whole, m)
    ensures AllOrNothing(b, d, twin, m, Rev(c), |prior|, whole)
  {
    hide Scan, StateAt, Start, Rev, CutAt, Forged, Survived, Choice, Updated, NoTagAt, Complete, Length, LogOnDisk;
    var k := Survived(whole, m);
    CompleteCut(c, Rev(c), whole, k);
    PriorSurvives(c, Rev(c), m, prior, whole);
    SameRev(c, d, m);
    CutIsSurvived(c, d, m, Rev(c), whole);
    BestIsThere(Rev(c), prior);
    BestIsThere(Rev(c), whole[..k]);
    if !Forged(d, CutState(Rev(c), whole, m), m) {
      if k == |prior| {
        assert whole[..k] == prior;
        ChoiceSame(b, d, twin);
      } else {
        ChoiceUpdated(b, d, twin, CutState(Rev(c), whole, m).best);
      }
    }
  }

  lemma NextIsNewer(rev: bv32)
    ensures Newer(rev + 1, rev) && !Newer(rev, rev + 1)
  {}

  // Nothing is found in a block whose first crc was not written whole, whatever
  // its revision reads as.
  lemma NothingYet(c: Bytes, d: Bytes, m: nat, whole: seq<Rec>)
    requires |c| >= 4 && |d| >= 4 && Finished(c, Rev(c), whole) && CutAt(c, d, m) && Survived(whole, m) == 0
    ensures Forged(d, Start(Rev(d)), m) || Committed(d) == None
  {
    hide Scan, FirstAccept, Finished, Survived, Rev, Start, CutAt;
    NoRecords(Rev(d));
    FirstNotAccepted(c, d, m, Rev(c), whole, Start(Rev(d)));
    NotForged(d, Start(Rev(d)), m);
  }

  lemma FirstNotAccepted(c: Bytes, d: Bytes, m: nat, rev: bv32, whole: seq<Rec>, s: Scanner)
    requires Finished(c, rev, whole) && CutAt(c, d, m) && Survived(whole, m) == 0
    requires s.off == 4 + Length([]) && s.ptag == EndTag([], FIRST_PTAG) && s.best.off <= s.off
    ensures FirstAccept(d, s).Some? ==> FirstAccept(d, s).value + 8 > m
  {
    hide Holds, Verifies, Length, CrcEnd, FirstAccept, NoTagAt, EndTag, Survived, CutAt, Start, StateAt, LogOnDisk;
    var j := FirstCcrc(whole, 0);
    SurvivedAll(whole, m, j + 1);
    CompleteCut(c, rev, whole, j + 1);
    var next := whole[..j + 1];
    assert next[..0] == [];
    PastCut(c, d, m, next, 0, s);
  }

  lemma NoRecords(rev: bv32)
    ensures Start(rev).off == 4 + Length([]) && Start(rev).ptag == EndTag([], FIRST_PTAG) && Start(rev).best.off == 0
  {}

  // The new block d, cut at byte m, beside the old one: before the first crc is
  // written whole the pair is read from the old block, whatever d holds behind
  // the cut, unless a crc was fooled and the revision of d is as new; so the
  // commit that the twin held before, where an erase left it, is not taken. After
  // that it is read from d, with what the surviving commits hold, unless a crc
  // was fooled.
  ghost predicate OldOrNew(a: Bytes, d: Bytes, m: nat, rev: bv32, whole: seq<Rec>)
    requires |a| >= 4 && |d| >= 4 && Committed(a).Some? && LogOnDisk(whole)
  {
    if Survived(whole, m) == 0 then
      && (!Newer(Rev(d), Rev(a)) || !Forged(d, Start(Rev(d)), m) ==> Choice([a, d]) == Some((0, Committed(a).value)))
      && (Newer(Rev(a), Rev(d)) || !Forged(d, Start(Rev(d)), m) ==> Choice([d, a]) == Some((1, Committed(a).value)))
    else
      || Forged(d, CutState(rev, whole, m), m)
      || (&& Choice([a, d]) == Some((1, CutState(rev, whole, m).best))
          && Choice([d, a]) == Some((0, CutState(rev, whole, m).best)))
  }

  // A compaction cut short is all or nothing. `a` is the block in use, `c` the
  // finished new block.
  lemma CompactionIsAtomic(a: Bytes, c: Bytes, d: Bytes, m: nat, whole: seq<Rec>)
    requires |a| >= 4 && |c| >= 4 && |d| >= 4 && Committed(a).Some? && Rev(c) == Rev(a) + 1
    requires Finished(c, Rev(c), whole) && CutAt(c, d, m)
    ensures LogOnDisk(whole) && OldOrNew(a, d, m, Rev(c), whole)
  {
    hide Scan, StateAt, Start, Rev, CutAt, Forged, Survived, NoTagAt, Complete, Length, CrcEnd, Newer, Choice;
    hide LogOnDisk;
    var k := Survived(whole, m);
    CompleteCut(c, Rev(c), whole, k);
    CutIsSurvived(c, d, m, Rev(c), whole);
    if k == 0 {
      NothingYet(c, d, m, whole);
      OlderLast(a, d);
      if !Forged(d, Start(Rev(d)), m) { ChoiceOld(a, d); }
    } else {
      SurvivedEnds(whole, m);
      EndsLate(whole[..k]);
      SameRev(c, d, m);
      BestIsThere(Rev(c), whole[..k]);
      NextIsNewer(Rev(a));
      if !Forged(d, CutState(Rev(c), whole, m), m) { ChoiceNew(a, d); }
    }
  }

  // An older block is not looked at, whatever it holds.
  lemma OlderLast(a: Bytes, d: Bytes)
    requires |a| >= 4 && Committed(a).Some?
    ensures !Newer(Rev(d), Rev(a)) ==> Choice([a, d]) == Some((0, Committed(a).value))
    ensures Newer(Rev(a), Rev(d)) ==> Choice([d, a]) == Some((1, Committed(a).value))
  {
    hide Committed, Rev, Newer;
  }

  lemma ChoiceOld(a: Bytes, d: Bytes)
    requires Committed(a).Some? && Committed(d).None?
    ensures Choice([a, d]) == Some((0, Committed(a).value)) && Choice([d, a]) == Some((1, Committed(a).value))
  {
    hide Committed, Rev, Newer;
  }

  lemma ChoiceNew(a: Bytes, d: Bytes)
    requires |d| >= 4 && Committed(d).Some? && Newer(Rev(d), Rev(a)) && !Newer(Rev(a), Rev(d))
    ensures Choice([a, d]) == Some((1, Committed(d).value)) && Choice([d, a]) == Some((0, Committed(d).value))
  {
    hide Committed, Rev, Newer;
  }

  lemma EndsLate(log: seq<Rec>)
    requires log != []
    ensures CrcEnd(log) >= 4
  {}
}
