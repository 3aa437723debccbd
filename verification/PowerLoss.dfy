/**
 Commits from the first attribute to the last crc, and what a fetch makes of
 them when power is lost at any byte on the way.
 */
module PowerLoss {
  import opened Tags
  import opened MetadataLog
  import opened Layout
  import opened Crc
  import opened Fetch
  import opened Commit
  import opened MetadataPair
  import opened Traverse
  import opened Compaction
  import GetSlice
  import NameSearch

  // attributes as a commit may write them
  predicate Writable(attrs: seq<Rec>) {
    forall i :: 0 <= i < |attrs| ==> OnDisk(attrs[i]) && RecReadable(attrs[i]) && !attrs[i].tag.IsCcrc()
  }

  // Cut at any byte behind what was there, an append is all or nothing; and what
  // is found once a commit of it survived is what its writer has.
  ghost predicate AppendsAtOnce(b: Bytes, c: Bytes, rev: bv32, prior: seq<Rec>, attrs: seq<Rec>, whole: seq<Rec>)
    requires |b| >= 4 && LogOnDisk(prior) && LogOnDisk(whole)
  {
    && (forall d: Bytes, twin: Bytes, m: nat ::
          |d| >= 4 && |twin| >= 4 && CutAt(c, d, m) && 4 + Length(prior) <= m ==>
            AllOrNothing(b, d, twin, m, rev, |prior|, whole))
    && FoundAsWritten(rev, prior, attrs, whole)
  }

  ghost predicate ReplacesAtOnce(a: Bytes, c: Bytes, rev: bv32, attrs: seq<Rec>, whole: seq<Rec>)
    requires |a| >= 4 && Committed(a).Some? && LogOnDisk(whole)
  {
    && (forall d: Bytes, m: nat :: |d| >= 4 && CutAt(c, d, m) ==> OldOrNew(a, d, m, rev, whole))
    && FoundAsWritten(rev, [], attrs, whole)
  }

  ghost predicate FoundAsWritten(rev: bv32, prior: seq<Rec>, attrs: seq<Rec>, whole: seq<Rec>)
    requires LogOnDisk(prior) && LogOnDisk(whole)
  {
    forall m: nat :: Survived(whole, m) > |prior| ==>
      AsWritten(CutState(rev, whole, m).best, FieldsOf(StateAt(Start(rev), prior).temp), attrs)
  }

  lemma FoundWritten(rev: bv32, prior: seq<Rec>, attrs: seq<Rec>, whole: seq<Rec>)
    requires LogOnDisk(prior) && LogOnDisk(whole) && Extends(prior + attrs, whole) && Writable(attrs)
    ensures FoundAsWritten(rev, prior, attrs, whole)
  {
    hide StateAt, AsWritten, Survived, OnDisk, Start;
    forall m: nat | Survived(whole, m) > |prior|
      ensures AsWritten(CutState(rev, whole, m).best, FieldsOf(StateAt(Start(rev), prior).temp), attrs)
    {
      var k := Survived(whole, m);
      assert forall i :: |prior| <= i < |prior + attrs| ==> whole[i] == (prior + attrs)[i] == attrs[i - |prior|];
      var done := whole[..k];
      assert prior + attrs <= done;
      FieldsAreWritten(Start(rev), prior, attrs, done);
      BestIsLast(Start(rev), done);
    }
  }

  // Writes the attributes; false is NoSpace.
  method WriteAttrs(w: Writer, attrs: seq<Rec>) returns (ok: bool)
    requires w.Valid() && w.Running() && w.end <= |w.block| && Writable(attrs)
    modifies w`block, w`off, w`ptag, w`crc, w`log
    ensures w.Valid() && w.Running() && |w.block| == old(|w.block|)
    ensures ok ==> w.log == old(w.log) + attrs
    ensures ok ==> if attrs == [] then w.off == old(w.off) else w.off <= w.end
    ensures ok ==> Programmed(old(w.block), w.block, old(w.off), w.off)
  {
    hide Consistent, Programmed;
    ghost var b, from := w.block, w.off;
    ProgrammedNothing(w.block, w.off);
    for i := 0 to |attrs|
      invariant w.Valid() && w.Running() && |w.block| == |b|
      invariant w.log == old(w.log) + attrs[..i] && (i > 0 ==> w.off <= w.end) && (i == 0 ==> w.off == from)
      invariant Programmed(b, w.block, from, w.off)
    {
      ghost var c, mid := w.block, w.off;
      ok := w.Attr(attrs[i].tag, attrs[i].data);
      if !ok {
        return;
      }
      ProgrammedOn(b, c, w.block, from, mid, w.off, w.off);
      assert attrs[..i + 1] == attrs[..i] + [Rec(attrs[i].tag, attrs[i].data)];
    }
    assert attrs[..|attrs|] == attrs;
    ok := true;
  }

  // A finished commit, seen from a fetch: nothing but crc tags was added to the
  // attributes, and the scan ends at the writer's own place with its fields.
  ghost predicate ReadsBack(c: Bytes, off: nat, etag: bv32, rev: bv32, prior: seq<Rec>, attrs: seq<Rec>,
                            whole: seq<Rec>) {
    && LogOnDisk(prior) && LogOnDisk(whole) && Extends(prior + attrs, whole)
    && var (end, erased) := Scan(c, Start(rev));
       && erased == (off + 4 <= |c|) && end.best.off == off && end.best.etag == etag
       && AsWritten(end.best, FieldsOf(StateAt(Start(rev), prior).temp), attrs)
  }

  // An append from end to end: what was fetched before, the attributes, the
  // crcs. `block` is as the last fetch found it.
  method AppendCommit(block: Bytes, off: nat, etag: bv32, end: nat, prog: bv32, attrs: seq<Rec>, ghost log: seq<Rec>)
    returns (r: Result, c: Bytes, off': nat, etag': bv32, ghost whole: seq<Rec>)
    requires |block| >= 4 && ProgOk(prog, |block|) && off + 8 <= |block| && end + 8 <= |block| && Writable(attrs)
    requires Complete(block, Rev(block), log) && log != [] && log[|log| - 1].tag.IsCcrc()
    requires off == 4 + Length(log) && etag == EndTag(log, FIRST_PTAG)
    requires Scan(block, Start(Rev(block))).0.best == StateAt(Start(Rev(block)), log).best
    ensures r == Ok ==> |c| == |block| && Rev(c) == Rev(block) && c[..off] == block[..off]
    ensures r == Ok ==> ReadsBack(c, off', etag', Rev(block), log, attrs, whole)
    ensures r == Ok ==> AppendsAtOnce(block, c, Rev(block), log, attrs, whole)
  {
    hide Holds, Verifies, Scan, StateAt, Consistent, Programmed, Sealed, Rev, Length, EndTag, AppendsAtOnce, AsWritten;
    whole, c, off', etag' := [], [], 0, 0;
    var w := new Writer.Append(block, off, etag, end, Rev(block), log);
    var ok := WriteAttrs(w, attrs);
    if !ok {
      return NoSpace, c, off', etag', whole;
    }
    ghost var b1, off1 := w.block, w.off;
    r := w.Finish(prog);
    if r == Ok {
      c, off', etag', whole := w.block, w.off, w.ptag, w.log;
      Unchanged(block, b1, c, off, off1, off');
      SealedIsFinished(c, off', etag', w.crc, Rev(block), whole, prog);
      CommitFetchRoundTrip(c, off', etag', w.crc, Rev(block), prog, log, attrs, whole);
      Appended(block, c, log, attrs, whole);
    }
  }

  lemma Unchanged(b: Bytes, b': Bytes, c: Bytes, from: nat, mid: nat, to: nat)
    requires Programmed(b, b', from, mid) && Programmed(b', c, mid, to) && from >= 4
    ensures |c| == |b| && c[..from] == b[..from] && Rev(c) == Rev(b)
  {
    ProgrammedOn(b, b', c, from, mid, to, to);
    assert c[..4] == c[..from][..4] && b[..4] == b[..from][..4];
  }

  lemma Appended(b: Bytes, c: Bytes, prior: seq<Rec>, attrs: seq<Rec>, whole: seq<Rec>)
    requires |b| >= 4 && |c| >= 4 && Rev(b) == Rev(c) && Finished(c, Rev(c), whole)
    requires LogOnDisk(prior) && LogOnDisk(whole) && Extends(prior + attrs, whole) && Writable(attrs)
    requires prior != [] && prior[|prior| - 1].tag.IsCcrc()
    requires Scan(b, Start(Rev(b))).0.best == StateAt(Start(Rev(b)), prior).best
    ensures AppendsAtOnce(b, c, Rev(c), prior, attrs, whole)
  {
    hide Scan, StateAt, Rev, Length, CutAt, Finished, AllOrNothing, FoundAsWritten, OnDisk;
    FoundWritten(Rev(c), prior, attrs, whole);
    assert prior <= whole by { assert whole[..|prior|] == whole[..|prior + attrs|][..|prior|]; }
    forall d: Bytes, twin: Bytes, m: nat | |d| >= 4 && |twin| >= 4 && CutAt(c, d, m) && 4 + Length(prior) <= m
      ensures AllOrNothing(b, d, twin, m, Rev(c), |prior|, whole)
    {
      AppendIsAtomic(b, c, d, twin, m, prior, whole);
    }
  }

  // A compaction from end to end, into the erased block beside the one in use.
  method CompactCommit(a: Bytes, erased: Bytes, end: nat, prog: bv32, attrs: seq<Rec>)
    returns (r: Result, c: Bytes, off': nat, etag': bv32, ghost whole: seq<Rec>)
    requires |a| >= 4 && |erased| >= 12 && ProgOk(prog, |erased|) && end + 8 <= |erased| && Writable(attrs)
    requires Committed(a).Some?
    ensures r == Ok ==> |c| == |erased| && Rev(c) == Rev(a) + 1
    ensures r == Ok ==> ReadsBack(c, off', etag', Rev(a) + 1, [], attrs, whole)
    ensures r == Ok ==> ReplacesAtOnce(a, c, Rev(a) + 1, attrs, whole)
  {
    hide Holds, Verifies, Scan, StateAt, Consistent, Programmed, Sealed, Rev, Length, EndTag, ReplacesAtOnce, LeBytes;
    hide Committed, AsWritten;
    whole, c, off', etag' := [], [], 0, 0;
    var rev := Rev(a) + 1;
    var w := new Writer.Compact(erased, rev, end);
    ghost var b0 := w.block;
    RevWritten(b0, erased, rev);
    var ok := WriteAttrs(w, attrs);
    if !ok {
      return NoSpace, c, off', etag', whole;
    }
    ghost var b1, off1 := w.block, w.off;
    r := w.Finish(prog);
    if r == Ok {
      c, off', etag', whole := w.block, w.off, w.ptag, w.log;
      Unchanged(b0, b1, c, 4, off1, off');
      SealedIsFinished(c, off', etag', w.crc, rev, whole, prog);
      CommitFetchRoundTrip(c, off', etag', w.crc, rev, prog, [], attrs, whole);
      Replaced(a, c, attrs, whole);
    }
  }

  lemma RevWritten(b: Bytes, erased: Bytes, rev: bv32)
    requires |erased| >= 4 && b == Overwrite(erased, 0, LeBytes(rev))
    ensures Rev(b) == rev
  {
    hide LeBytes, FromLe;
    LeRoundTrip(rev);
    assert b[..4] == b[0..4] == LeBytes(rev);
  }

  lemma Replaced(a: Bytes, c: Bytes, attrs: seq<Rec>, whole: seq<Rec>)
    requires |a| >= 4 && |c| >= 4 && Committed(a).Some? && Rev(c) == Rev(a) + 1 && Finished(c, Rev(c), whole)
    requires LogOnDisk(whole) && Extends([] + attrs, whole) && Writable(attrs)
    ensures ReplacesAtOnce(a, c, Rev(c), attrs, whole)
  {
    hide Committed, Rev, CutAt, Finished, OldOrNew, FoundAsWritten, OnDisk;
    FoundWritten(Rev(c), [], attrs, whole);
    forall d: Bytes, m: nat | |d| >= 4 && CutAt(c, d, m) ensures OldOrNew(a, d, m, Rev(c), whole) {
      CompactionIsAtomic(a, c, d, m, whole);
    }
  }

  // Tags that say nothing about entries: tails, the global state, crcs.
  predicate Aside(t: Tag) { t.type1 > SPLICE }

  lemma {:induction false} AsideMeansNothing(log: seq<Rec>, more: seq<Rec>)
    requires forall i :: 0 <= i < |more| ==> Aside(more[i].tag)
    ensures Replay(log + more) == Replay(log)
  {
    if more == [] {
      assert log + more == log;
    } else {
      assert (log + more)[..|log + more| - 1] == log + more[..|more| - 1];
      AsideMeansNothing(log, more[..|more| - 1]);
    }
  }

  // A compaction from the old log to a lookup in the new block: `c` holds what
  // the traversal emitted for entries begin..end-1, its tail and global state,
  // and its crcs; looking a slot up there gives what the full replay of the
  // old log and the attributes holds.
  lemma CompactedLookup(items: seq<Item>, begin: nat, end: nat, asides: seq<Rec>, whole: seq<Rec>, q: GetSlice.Query,
                        id: nat)
    requires ItemsOk(items) && MovesApart(items) && id < end - begin
    requires forall i :: 0 <= i < |asides| ==> Aside(asides[i].tag)
    requires Extends(Emission(items, CompactWindow(begin, end)) + asides, whole)
    requires LogOk(whole) && GetSlice.NamesOk(whole) && q.Ok() && q.byId
    ensures Slot(ReplayItems(items), id + begin, q.Key()) ==
            match GetSlice.Back(whole, q, id)
            case None => None
            case Some(r) => Some(Value(r.tag.chunk, r.data))
  {
    hide Replay, Emission, MovesApart, ItemsOk, Slot, GetSlice.Back, GetSlice.NamesOk;
    var out := Emission(items, CompactWindow(begin, end));
    var more := whole[|out + asides|..];
    assert whole == out + (asides + more);
    forall i | 0 <= i < |asides + more| ensures Aside((asides + more)[i].tag) {
      if i >= |asides| { assert (asides + more)[i] == whole[|out| + i]; }
    }
    AsideMeansNothing(out, asides + more);
    CompactionPreservesMeaning(items, begin, end, id, q.Key());
    GetSlice.BackIsReplay(whole, q, id);
  }

  // ... and a fetch counts the entries of the range, if they have names.
  lemma CompactedCount(items: seq<Item>, begin: nat, end: nat, asides: seq<Rec>, whole: seq<Rec>, rev: bv32)
    requires ItemsOk(items) && MovesApart(items) && begin <= end < begin + 0x1_0000
    requires forall id :: begin <= id < end ==> Slot(ReplayItems(items), id, 0x100 * NAME).Some?
    requires forall i :: 0 <= i < |asides| ==> Aside(asides[i].tag)
    requires LogOnDisk(whole) && Extends(Emission(items, CompactWindow(begin, end)) + asides, whole)
    ensures StateAt(Start(rev), whole).temp.count == end - begin
  {
    hide Replay, Emission, MovesApart, ItemsOk, Slot, StateAt, Count, ReplayItems, OnDisk;
    var out := Emission(items, CompactWindow(begin, end));
    var more := whole[|out + asides|..];
    assert whole == out + (asides + more);
    forall i | 0 <= i < |asides + more| ensures Aside((asides + more)[i].tag) {
      if i >= |asides| { assert (asides + more)[i] == whole[|out| + i]; }
    }
    CompactionCount(items, begin, end);
    EmittedCounts(items, begin, end);
    AsideCounts(out, asides + more, end - begin);
    StartCounts(rev);
    CountIsRead(Start(rev), whole);
  }

  lemma StartCounts(rev: bv32)
    ensures Start(rev).temp.count == 0
  {}

  // Every prefix of what is emitted counts at most as much.
  lemma EmittedCounts(items: seq<Item>, begin: nat, end: nat)
    requires ItemsOk(items) && MovesApart(items) && begin <= end
    ensures var out := Emission(items, CompactWindow(begin, end));
            forall k :: 0 <= k <= |out| ==> 0 <= Count(out[..k]) <= end - begin
  {
    hide Emission, Survivors, MovesApart, ReplayItems, Out, Count, ItemsOk, Compaction.Apart;
    var w, live := CompactWindow(begin, end), Survivors(items);
    var out := Emission(items, w);
    EmissionIsOut(items, w);
    SurvivorsSettled(items);
    CompactionEmitsOnce(items, begin, end);
    forall k | 0 <= k < |out| ensures out[k].tag.id < end - begin {
      OutIds(live, w, k);
    }
    forall k | 0 <= k <= |out| ensures 0 <= Count(out[..k]) <= end - begin {
      CountBounds(out[..k], end - begin);
    }
  }

  lemma {:induction false} AsideCounts(log: seq<Rec>, more: seq<Rec>, n: int)
    requires forall i :: 0 <= i < |more| ==> Aside(more[i].tag)
    requires (forall k :: 0 <= k <= |log| ==> 0 <= Count(log[..k]) <= n) && Count(log) == n
    ensures Count(log + more) == n && forall k :: 0 <= k <= |log + more| ==> 0 <= Count((log + more)[..k]) <= n
  {
    if more == [] {
      assert log + more == log;
    } else {
      var init, all := log + more[..|more| - 1], log + more;
      assert all[..|init|] == init;
      AsideCounts(log, more[..|more| - 1], n);
      forall k | 0 <= k <= |all| ensures 0 <= Count(all[..k]) <= n {
        if k <= |init| { assert all[..k] == init[..k]; } else { assert all[..k] == all; }
      }
    }
  }

  // The log of a finished commit is one a name can be searched in, whatever
  // crc tags it ends in, and the search finds in it what it found without them.
  lemma SealedIsOrderly(cmp: NameSearch.Comparison, log: seq<Rec>, whole: seq<Rec>)
    requires NameSearch.Orderly(cmp, log) && LogOnDisk(whole) && Extends(log, whole)
    ensures NameSearch.Orderly(cmp, whole) && Replay(whole) == Replay(log)
    ensures NameSearch.Scan(cmp, whole) == NameSearch.Scan(cmp, log)
  {
    hide NameSearch.Orderly, NameSearch.Scan, Replay;
    var more := whole[|log|..];
    assert whole == log + more;
    forall i | 0 <= i < |more| ensures RecOk(more[i]) && more[i].tag.type1 > SPLICE {
      assert more[i] == whole[|log| + i] && OnDisk(whole[|log| + i]);
    }
    NameSearch.AsidesStayOrderly(cmp, log, more);
  }
}
