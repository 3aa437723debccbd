/**
 The search for a name that lfs_dir_fetchmatch (dir/fetch.rs) does while it
 scans a log: one pass, keeping only the best tag so far, which splices move.
 */
module NameSearch {
  import opened Tags
  import opened MetadataLog
  import opened Rename
  import opened Octets
  import opened Sequences
  import BlockCache

  type Bytes = MetadataLog.Bytes

  // how a name on disk compares with the one looked for
  type Comparison = Bytes -> Ordering

  // The names of files and directories are compared; the superblock's, which
  // comes first, is not.
  predicate Compared(chunk: nat) { chunk < 0x80 }

  function Rank(cmp: Comparison, v: Value): Ordering {
    if Compared(v.chunk) then cmp(v.data) else Less
  }

  predicate Named(e: Entry) { 0 in e }

  predicate Is(cmp: Comparison, e: Entry, o: Ordering) { Named(e) && Rank(cmp, e[0]) == o }

  // The names are in order as far as the name looked for can tell.
  ghost predicate Sorted(cmp: Comparison, s: seq<Entry>) {
    forall i, j :: 0 <= i < j < |s| && Named(s[i]) && Named(s[j]) ==>
      Is(cmp, s[i], Less) || Is(cmp, s[j], Greater)
  }

  // `tempbesttag`: -1; a tag that matched; or, marked invalid, the first tag
  // behind the place of the name
  datatype Best = Nothing | Match(id: int, chunk: nat) | Place(id: int, chunk: nat) {
    function Id(): int { if Nothing? then NO_ID else id }
  }

  function Step(cmp: Comparison, best: Best, r: Rec): Best {
    var t := r.tag;
    if t.IsDelete() && !best.Nothing? && t.id == best.id then Place(best.id, best.chunk)
    else if t.type1 == SPLICE && !best.Nothing? && t.id <= best.id then best.(id := best.id + t.Splice())
    else if t.type1 == NAME && Compared(t.chunk) then
      if cmp(r.data) == Equal then Match(t.id, t.chunk)
      else if !best.Nothing? && t.id == best.id && t.chunk == best.chunk then Nothing
      else if cmp(r.data) == Greater && t.id <= best.Id() then Place(t.id, t.chunk)
      else best
    else best
  }

  function Scan(cmp: Comparison, log: seq<Rec>): Best {
    if log == [] then Nothing else Step(cmp, Scan(cmp, log[..|log| - 1]), log[|log| - 1])
  }

  // ----- logs as commits and compactions write them -----

  predicate Spliced(log: seq<Rec>) { exists i :: 0 <= i < |log| && log[i].tag.type1 == SPLICE }

  ghost predicate Full(s: seq<Entry>) { forall i :: 0 <= i < |s| ==> Named(s[i]) }

  // A name is given once, to a new entry; entries are created within the
  // directory or, by a compaction, in any order from the start; and none is
  // deleted before all have names.
  ghost predicate StepOk(s: seq<Entry>, spliced: bool, r: Rec) {
    var t := r.tag;
    && RecOk(r) && (t.type1 <= SPLICE ==> t.id < NO_ID)
    && (t.IsCreate() ==> t.id <= |s|)
    && (t.IsDelete() ==> t.id < |s| && Full(s))
    && (t.IsSlot() ==> t.id < |s| || !spliced)
    && (t.type1 == NAME ==> t.chunk > 0 && !t.IsRemoval() && (t.id < |s| ==> !Named(s[t.id])))
  }

  ghost predicate Orderly(cmp: Comparison, log: seq<Rec>) {
    log == [] ||
    var init, r := log[..|log| - 1], log[|log| - 1];
    Orderly(cmp, init) && StepOk(Replay(init), Spliced(init), r) && Sorted(cmp, Replay(log))
  }

  // ----- what the best tag says about the entries -----

  ghost predicate Tells(cmp: Comparison, s: seq<Entry>, spliced: bool, best: Best) {
    match best
    case Nothing => forall i :: 0 <= i < |s| && Named(s[i]) ==> Is(cmp, s[i], Less)
    case Match(i, _) => 0 <= i < |s| && Is(cmp, s[i], Equal) && Compared(s[i][0].chunk)
    case Place(i, _) =>
      && 0 <= i <= |s|
      && (forall k :: 0 <= k < i && Named(s[k]) ==> Is(cmp, s[k], Less))
      && (forall k :: i <= k < |s| && Named(s[k]) ==> Is(cmp, s[k], Greater))
      && (if i < |s| then Named(s[i]) else spliced)
  }

  lemma CreateStep(cmp: Comparison, s: seq<Entry>, spliced: bool, best: Best, r: Rec)
    requires Tells(cmp, s, spliced, best) && StepOk(s, spliced, r) && r.tag.IsCreate()
    ensures Tells(cmp, Apply(s, r), true, Step(cmp, best, r))
  {
    var d := Apply(s, r);
    assert forall k :: 0 <= k < |d| ==>
           d[k] == if k < r.tag.id then s[k] else if k == r.tag.id then map[] else s[k - 1];
  }

  lemma DeleteStep(cmp: Comparison, s: seq<Entry>, spliced: bool, best: Best, r: Rec)
    requires Tells(cmp, s, spliced, best) && StepOk(s, spliced, r) && r.tag.IsDelete() && Sorted(cmp, s)
    ensures Tells(cmp, Apply(s, r), true, Step(cmp, best, r))
  {
    var d := Apply(s, r);
    assert forall k :: 0 <= k < |d| ==> d[k] == if k < r.tag.id then s[k] else s[k + 1];
  }

  lemma NameStep(cmp: Comparison, s: seq<Entry>, spliced: bool, best: Best, r: Rec)
    requires Tells(cmp, s, spliced, best) && StepOk(s, spliced, r) && r.tag.type1 == NAME && Sorted(cmp, Apply(s, r))
    ensures Tells(cmp, Apply(s, r), spliced, Step(cmp, best, r))
  {
    var d := Apply(s, r);
    assert Is(cmp, d[r.tag.id], Rank(cmp, Value(r.tag.chunk, r.data)));
    assert forall k :: 0 <= k < |d| && k != r.tag.id ==> d[k] == if k < |s| then s[k] else map[];
  }

  lemma OtherStep(cmp: Comparison, s: seq<Entry>, spliced: bool, best: Best, r: Rec)
    requires Tells(cmp, s, spliced, best) && StepOk(s, spliced, r) && r.tag.type1 != NAME && r.tag.type1 != SPLICE
    ensures Tells(cmp, Apply(s, r), spliced, Step(cmp, best, r))
  {
    var d := Apply(s, r);
    assert forall k :: 0 <= k < |d| ==>
           (Named(d[k]) <==> k < |s| && Named(s[k])) && (Named(d[k]) ==> d[k][0] == s[k][0]);
  }

  // After every log the best tag is the entry with the name or, without one,
  // the place it would go.
  lemma {:induction false} ScanTells(cmp: Comparison, log: seq<Rec>)
    requires Orderly(cmp, log)
    ensures Tells(cmp, Replay(log), Spliced(log), Scan(cmp, log)) && Sorted(cmp, Replay(log))
  {
    if log != [] {
      hide Apply, Step, Tells, Sorted, StepOk;
      var n := |log| - 1;
      var init, r := log[..n], log[n];
      ScanTells(cmp, init);
      SplicedSnoc(log);
      OneStep(cmp, Replay(init), Spliced(init), Scan(cmp, init), r);
    } else {
      assert Tells(cmp, [], false, Nothing);
    }
  }

  lemma SplicedSnoc(log: seq<Rec>)
    requires log != []
    ensures Spliced(log) <==> Spliced(log[..|log| - 1]) || log[|log| - 1].tag.type1 == SPLICE
  {
    var n := |log| - 1;
    if Spliced(log) && log[n].tag.type1 != SPLICE {
      var i :| 0 <= i < |log| && log[i].tag.type1 == SPLICE;
      assert log[..n][i] == log[i];
    }
    if Spliced(log[..n]) {
      var i :| 0 <= i < n && log[..n][i].tag.type1 == SPLICE;
      assert log[i].tag.type1 == SPLICE;
    }
  }

  lemma OneStep(cmp: Comparison, s: seq<Entry>, spliced: bool, best: Best, r: Rec)
    requires Tells(cmp, s, spliced, best) && StepOk(s, spliced, r) && Sorted(cmp, s) && Sorted(cmp, Apply(s, r))
    ensures Tells(cmp, Apply(s, r), spliced || r.tag.type1 == SPLICE, Step(cmp, best, r))
  {
    hide Tells, Sorted, Apply, Step;
    if r.tag.IsCreate() { CreateStep(cmp, s, spliced, best, r); }
    else if r.tag.IsDelete() { DeleteStep(cmp, s, spliced, best, r); }
    else if r.tag.type1 == NAME { NameStep(cmp, s, spliced, best, r); }
    else { OtherStep(cmp, s, spliced, best, r); }
  }

  // ----- the answer, with a move that is half done -----

  datatype Answer = Hit(id: int) | NoEntry(id: int) | GoOn(id: int)

  // The end of lfs_dir_fetchmatch: `moved` is the id a pending move hides.
  function Answered(best: Best, moved: Option<nat>, count: nat): Answer {
    var best :=
      if moved.None? || best.Nothing? then best
      else if best.id == moved.value then Place(best.id, best.chunk)
      else if moved.value < best.id then best.(id := best.id - 1)
      else best;
    var id := if best.Id() < count then best.Id() else count;
    if best.Match? then Hit(id)
    else if best.Id() < count then NoEntry(id)
    else GoOn(id)
  }

  // The entries as the directory shows them.
  function ShownEntries(s: seq<Entry>, moved: Option<nat>): seq<Entry> {
    if moved.Some? then Remove(s, moved.value) else s
  }

  // The search finds an entry exactly if the directory shows one with that
  // name, and says which. Otherwise it says where the name would go: behind
  // the smaller and in front of the greater ones. The entry a pending move
  // hides is not found, and those behind it are counted without it. It ends
  // the search along a split directory if a name is not smaller, and also if a
  // move is pending and the log holds a name, since deleted, that is not.
  lemma SearchAnswers(cmp: Comparison, log: seq<Rec>, moved: Option<nat>)
    requires Orderly(cmp, log) && |Replay(log)| < NO_ID
    requires moved.Some? ==> moved.value < |Replay(log)|
    ensures var s := ShownEntries(Replay(log), moved);
            var a := Answered(Scan(cmp, log), moved, |Replay(log)|);
            && (a.Hit? <==> exists i :: 0 <= i < |s| && Compares(cmp, s[i], Equal))
            && (a.Hit? ==> 0 <= a.id < |s| && Compares(cmp, s[a.id], Equal))
            && (!a.Hit? ==> 0 <= a.id && Between(cmp, s, a.id) && (moved.None? ==> a.id <= |s|))
            && (!a.Hit? ==> (a.GoOn? <==> AllLess(cmp, Replay(log)) && (moved.Some? ==> NoneBehind(cmp, log))))
  {
    hide Orderly, Replay, Scan, AllLess, Behind, NoneBehind, Between;
    ScanTells(cmp, log);
    AnswerTells(cmp, Replay(log), Spliced(log), Scan(cmp, log), moved);
    NothingWhen(cmp, log);
    BehindWhen(cmp, Replay(log), Spliced(log), Scan(cmp, log));
  }

  // no name in the log, of an entry that is there or not, is equal or greater
  ghost predicate NoneBehind(cmp: Comparison, log: seq<Rec>) {
    forall k :: 0 <= k < |log| && log[k].tag.type1 == NAME && Compared(log[k].tag.chunk) ==> cmp(log[k].data) == Less
  }

  // That is when the scan remembers no tag.
  lemma {:induction false} NothingWhen(cmp: Comparison, log: seq<Rec>)
    requires Orderly(cmp, log)
    ensures Scan(cmp, log) == Nothing <==> NoneBehind(cmp, log)
  {
    if log != [] {
      hide Apply, Tells, Sorted, StepOk, Step;
      var n := |log| - 1;
      NothingWhen(cmp, log[..n]);
      ScanTells(cmp, log[..n]);
      NothingStep(cmp, Replay(log[..n]), Spliced(log[..n]), Scan(cmp, log[..n]), log[n]);
      NoneSnoc(cmp, log);
    }
  }

  lemma NothingStep(cmp: Comparison, s: seq<Entry>, spliced: bool, best: Best, r: Rec)
    requires Tells(cmp, s, spliced, best) && StepOk(s, spliced, r)
    ensures Step(cmp, best, r) == Nothing <==>
              best == Nothing && (r.tag.type1 == NAME && Compared(r.tag.chunk) ==> cmp(r.data) == Less)
  {
    hide Sorted;
  }

  lemma NoneSnoc(cmp: Comparison, log: seq<Rec>)
    requires log != []
    ensures var n := |log| - 1;
            NoneBehind(cmp, log) <==>
              && NoneBehind(cmp, log[..n])
              && (log[n].tag.type1 == NAME && Compared(log[n].tag.chunk) ==> cmp(log[n].data) == Less)
  {
    var n := |log| - 1;
    if NoneBehind(cmp, log) {
      forall k | 0 <= k < n && log[..n][k].tag.type1 == NAME && Compared(log[..n][k].tag.chunk)
        ensures cmp(log[..n][k].data) == Less
      {
        assert log[..n][k] == log[k];
      }
    } else {
      var k :| 0 <= k < |log| && log[k].tag.type1 == NAME && Compared(log[k].tag.chunk) && cmp(log[k].data) != Less;
      assert k < n ==> log[..n][k] == log[k];
    }
  }

  lemma BehindWhen(cmp: Comparison, s: seq<Entry>, spliced: bool, best: Best)
    requires Tells(cmp, s, spliced, best)
    ensures Behind(best, |s|) <==> AllLess(cmp, s) && !best.Nothing?
  {}

  ghost predicate AllLess(cmp: Comparison, s: seq<Entry>) {
    forall i :: 0 <= i < |s| && Named(s[i]) ==> Is(cmp, s[i], Less)
  }

  // the place is that of an entry that was the last one and is deleted
  predicate Behind(best: Best, count: nat) { best.Place? && best.id == count }

  // A directory that goes on in another pair, with a move of its one entry
  // "0" pending and a deleted last entry "2": the search for "1" says that
  // there is no such entry, although all names here come before it.
  lemma StopsTooSoon()
    ensures Orderly(LookForOne(), StopLog()) && |Replay(StopLog())| == 1 && AllLess(LookForOne(), Replay(StopLog()))
    ensures Answered(Scan(LookForOne(), StopLog()), Some(0), 1) == NoEntry(0)
    ensures Answered(Scan(LookForOne(), StopLog()), None, 1) == GoOn(1)
  {
    hide At;
    var l := StopLog();
    var e, f: Entry := map[0 := Value(1, [48])], map[0 := Value(1, [50])];
    StopLogBegins(e);
    OneMore([l[0]] + [l[1]], [e], [e, map[]], true, Nothing, Nothing, l[2]);
    OneMore([l[0]] + [l[1]] + [l[2]], [e, map[]], [e, f], true, Nothing, Place(1, 1), l[3]);
    OneMore([l[0]] + [l[1]] + [l[2]] + [l[3]], [e, f], [e], true, Place(1, 1), Place(1, 1), l[4]);
    assert [l[0]] + [l[1]] + [l[2]] + [l[3]] + [l[4]] == l;
    AtMeans(l, [e], true, Place(1, 1));
  }

  lemma StopLogBegins(e: Entry)
    requires e == map[0 := Value(1, [48])]
    ensures At([StopLog()[0]] + [StopLog()[1]], [e], true, Nothing)
  {
    hide At;
    var l := StopLog();
    assert At([], [], false, Nothing) by { Empty(); }
    OneMore([], [], [map[]], false, Nothing, Nothing, l[0]);
    assert [] + [l[0]] == [l[0]];
    OneMore([l[0]], [map[]], [e], true, Nothing, Nothing, l[1]);
  }

  ghost predicate At(log: seq<Rec>, s: seq<Entry>, spliced: bool, best: Best) {
    Orderly(LookForOne(), log) && Replay(log) == s && Spliced(log) == spliced && Scan(LookForOne(), log) == best
  }

  lemma Empty()
    ensures At([], [], false, Nothing)
  {}

  lemma AtMeans(log: seq<Rec>, s: seq<Entry>, spliced: bool, best: Best)
    requires At(log, s, spliced, best)
    ensures Orderly(LookForOne(), log) && Replay(log) == s && Scan(LookForOne(), log) == best
  {}

  lemma OneMore(log: seq<Rec>, s: seq<Entry>, s': seq<Entry>, spliced: bool, best: Best, best': Best, r: Rec)
    requires At(log, s, spliced, best) && StepOk(s, spliced, r) && Sorted(LookForOne(), s')
    requires s' == Apply(s, r) && best' == Step(LookForOne(), best, r)
    ensures At(log + [r], s', spliced || r.tag.type1 == SPLICE, best')
  {
    hide Apply, StepOk, Sorted, Step, Orderly, Spliced, Scan, Replay;
    OrderlySnoc(LookForOne(), log, r);
  }

  function LookForOne(): Comparison { (s: Bytes) => if s == [48] then Less else Greater }

  function StopLog(): seq<Rec> {
    [ Rec(Tag(SPLICE, 1, 0, 0), []), Rec(Tag(NAME, 1, 0, 1), [48]),
      Rec(Tag(SPLICE, 1, 1, 0), []), Rec(Tag(NAME, 1, 1, 1), [50]), Rec(Tag(SPLICE, 0xff, 1, 0), []) ]
  }

  lemma OrderlySnoc(cmp: Comparison, log: seq<Rec>, r: Rec)
    requires Orderly(cmp, log)
    requires StepOk(Replay(log), Spliced(log), r) && Sorted(cmp, Apply(Replay(log), r))
    ensures Orderly(cmp, log + [r])
    ensures Replay(log + [r]) == Apply(Replay(log), r) && Scan(cmp, log + [r]) == Step(cmp, Scan(cmp, log), r)
    ensures Spliced(log + [r]) <==> Spliced(log) || r.tag.type1 == SPLICE
  {
    hide Apply, StepOk, Sorted, Step, Spliced;
    assert (log + [r])[..|log|] == log;
    SplicedSnoc(log + [r]);
  }

  // Tags that say nothing about entries, such as a commit's crcs, tail and
  // global state, keep a log orderly and do not change what the search finds.
  lemma {:induction false} AsidesStayOrderly(cmp: Comparison, log: seq<Rec>, more: seq<Rec>)
    requires Orderly(cmp, log)
    requires forall i :: 0 <= i < |more| ==> RecOk(more[i]) && more[i].tag.type1 > SPLICE
    ensures Orderly(cmp, log + more) && Replay(log + more) == Replay(log) && Scan(cmp, log + more) == Scan(cmp, log)
  {
    hide Orderly, Replay, Scan, Sorted, Spliced;
    if more == [] {
      assert log + more == log;
    } else {
      var n := |more| - 1;
      assert log + more == log + more[..n] + [more[n]];
      AsidesStayOrderly(cmp, log, more[..n]);
      ScanTells(cmp, log + more[..n]);
      OrderlySnoc(cmp, log + more[..n], more[n]);
    }
  }

  // the loop over the log and what is made of its result
  method Search(cmp: Comparison, log: seq<Rec>, moved: Option<nat>, count: nat) returns (a: Answer)
    ensures a == Answered(Scan(cmp, log), moved, count)
  {
    var best := Nothing;
    for i := 0 to |log|
      invariant best == Scan(cmp, log[..i])
    {
      assert log[..i + 1][..i] == log[..i];
      best := Step(cmp, best, log[i]);
    }
    assert log[..|log|] == log;
    a := Answered(best, moved, count);
  }

  // has a name that is looked at, in that order to the one looked for
  ghost predicate Compares(cmp: Comparison, e: Entry, o: Ordering) {
    Named(e) && Compared(e[0].chunk) && cmp(e[0].data) == o
  }

  ghost predicate Between(cmp: Comparison, s: seq<Entry>, id: int) {
    && (forall k :: 0 <= k < |s| && k < id && Named(s[k]) ==> Is(cmp, s[k], Less))
    && (forall k :: 0 <= k < |s| && k >= id && Named(s[k]) ==> Is(cmp, s[k], Greater))
  }

  lemma AnswerTells(cmp: Comparison, s: seq<Entry>, spliced: bool, best: Best, moved: Option<nat>)
    requires Tells(cmp, s, spliced, best) && Sorted(cmp, s) && |s| < NO_ID
    requires moved.Some? ==> moved.value < |s|
    ensures var v := ShownEntries(s, moved);
            var a := Answered(best, moved, |s|);
            && (a.Hit? <==> exists i :: 0 <= i < |v| && Compares(cmp, v[i], Equal))
            && (a.Hit? ==> 0 <= a.id < |v| && Compares(cmp, v[a.id], Equal))
            && (!a.Hit? ==> 0 <= a.id && Between(cmp, v, a.id) && (moved.None? ==> a.id <= |v|))
            && (!a.Hit? ==> (a.GoOn? <==> AllLess(cmp, s) && !(moved.Some? && Behind(best, |s|))))
            && (Behind(best, |s|) ==> AllLess(cmp, s))
  {
    var v := ShownEntries(s, moved);
    var a := Answered(best, moved, |s|);
    assert forall k :: 0 <= k < |v| ==> v[k] == if moved.Some? && k >= moved.value then s[k + 1] else s[k];
    if a.Hit? {
      assert Compares(cmp, v[a.id], Equal);
    } else {
      assert Between(cmp, v, a.id);
      forall i | 0 <= i < |v| ensures !Compares(cmp, v[i], Equal) {}
    }
    if best.Place? && best.id < |s| {
      assert !Is(cmp, s[best.id], Less);
    }
  }

  // ----- the order of names -----

  // lfs_dir_find_match: the common length is compared byte by byte; if that is
  // the same the longer name on disk counts as the lesser.
  function FindMatch(disk: Octets.Bytes, name: Octets.Bytes): Ordering {
    var diff := if |name| < |disk| then |name| else |disk|;
    var r := Compare(disk[..diff], name[..diff]);
    if r != Equal then r
    else if |name| < |disk| then Less else if |name| > |disk| then Greater else Equal
  }

  // The comparison as it is made, with the name read through the cache.
  method FindMatchOnDisk(dev: BlockCache.Device, rcache: BlockCache.Cache, name: Octets.Bytes, block: nat, off: nat,
                         size: nat)
    returns (ok: bool, r: Ordering)
    requires BlockCache.Ready(dev, null, rcache) && block in dev.disk && block != NULL && off + size <= dev.B
    modifies rcache, rcache.buffer, dev`clock
    ensures BlockCache.Ready(dev, null, rcache)
    ensures ok ==>
            && block in dev.disk && off + size <= |dev.disk[block]|
            && r == FindMatch(dev.disk[block][off..off + size], name)
  {
    hide Compare, BlockCache.Coherent;
    var diff := if |name| < size then |name| else size;
    CompareEqual([], []);
    ok, r := BlockCache.Cmp(dev, null, rcache, diff, block, off, name[..diff]);
    SubSlice(dev.disk[block], off, off + size, 0, diff);
    assert dev.disk[block][off..off + size][..diff] == dev.disk[block][off..off + diff];
    if diff == 0 {
      r := Equal;
    }
    if ok && r == Equal {
      r := if |name| < size then Less else if |name| > size then Greater else Equal;
    }
  }

  lemma {:induction false} FindMatchStep(a: Octets.Bytes, b: Octets.Bytes)
    requires a != [] && b != []
    ensures FindMatch(a, b) == if a[0] < b[0] then Less else if a[0] > b[0] then Greater else FindMatch(a[1..], b[1..])
  {
    var diff := if |b| < |a| then |b| else |a|;
    assert a[..diff][1..] == a[1..][..diff - 1] && b[..diff][1..] == b[1..][..diff - 1];
  }

  // It is a strict total order: whatever is looked for, a name that comes
  // before another is less than it, or the other one is greater.
  lemma {:induction false} FindMatchOrders(a: Octets.Bytes, b: Octets.Bytes, name: Octets.Bytes)
    requires FindMatch(a, b) == Less
    ensures FindMatch(a, name) == Less || FindMatch(b, name) == Greater
  {
    if a != [] && b != [] && name != [] {
      FindMatchStep(a, b);
      FindMatchStep(a, name);
      FindMatchStep(b, name);
      if a[0] == b[0] == name[0] { FindMatchOrders(a[1..], b[1..], name[1..]); }
    }
  }

  lemma {:induction false} FindMatchExact(a: Octets.Bytes, b: Octets.Bytes)
    ensures FindMatch(a, b) == Equal <==> a == b
    ensures FindMatch(a, b) == Less <==> FindMatch(b, a) == Greater
  {
    if a != [] && b != [] {
      FindMatchStep(a, b);
      FindMatchStep(b, a);
      FindMatchExact(a[1..], b[1..]);
      assert a == [a[0]] + a[1..] && b == [b[0]] + b[1..];
    }
  }

  function Octet(x: bv8): Octets.Byte { x as int }

  function Text(s: Bytes): Octets.Bytes { seq(|s|, i requires 0 <= i < |s| => Octet(s[i])) }

  function LookingFor(name: Octets.Bytes): Comparison { (s: Bytes) => FindMatch(Text(s), name) }

  // The names of a directory, all of them compared but the first one, in order.
  ghost predicate InOrder(s: seq<Entry>) {
    forall i, j :: 0 <= i < j < |s| && Named(s[i]) && Named(s[j]) ==>
      Compared(s[j][0].chunk) && (Compared(s[i][0].chunk) ==> FindMatch(Text(s[i][0].data), Text(s[j][0].data)) == Less)
  }

  // Entries that are in order are in order for every name one may look for.
  lemma SortedForAll(s: seq<Entry>, name: Octets.Bytes)
    requires InOrder(s)
    ensures Sorted(LookingFor(name), s)
  {
    hide FindMatch, Text, Compared;
    forall i, j | 0 <= i < j < |s| && Named(s[i]) && Named(s[j])
      ensures Is(LookingFor(name), s[i], Less) || Is(LookingFor(name), s[j], Greater)
    {
      if Compared(s[i][0].chunk) {
        FindMatchOrders(Text(s[i][0].data), Text(s[j][0].data), name);
      }
    }
  }

  // An entry created at the place the search answers keeps the directory in
  // order, so that it is in order for the next search.
  lemma CreatedInOrder(log: seq<Rec>, e: Entry)
    requires InOrder(Replay(log)) && Named(e) && Compared(e[0].chunk) && |Replay(log)| < NO_ID
    requires var cmp := LookingFor(Text(e[0].data));
             Orderly(cmp, log) && !Answered(Scan(cmp, log), None, |Replay(log)|).Hit?
    requires forall i :: 0 <= i < |Replay(log)| && Named(Replay(log)[i]) && !Compared(Replay(log)[i][0].chunk) ==>
             i == 0
    ensures var a := Answered(Scan(LookingFor(Text(e[0].data)), log), None, |Replay(log)|);
            0 <= a.id <= |Replay(log)| && InOrder(Insert(Replay(log), a.id, e))
  {
    hide Orderly, Replay, Scan, FindMatch, Text;
    var s, name := Replay(log), Text(e[0].data);
    var cmp := LookingFor(name);
    SearchAnswers(cmp, log, None);
    var id := Answered(Scan(cmp, log), None, |s|).id;
    InsertInOrder(s, e, id);
  }

  lemma InsertInOrder(s: seq<Entry>, e: Entry, id: nat)
    requires InOrder(s) && Named(e) && Compared(e[0].chunk) && id <= |s|
    requires Between(LookingFor(Text(e[0].data)), s, id)
    requires forall i :: 0 <= i < |s| && Named(s[i]) && !Compared(s[i][0].chunk) ==> i == 0
    ensures InOrder(Insert(s, id, e))
  {
    hide FindMatch, Text;
    var t, name := Insert(s, id, e), Text(e[0].data);
    forall i, j | 0 <= i < j < |t| && Named(t[i]) && Named(t[j])
      ensures Compared(t[j][0].chunk)
              && (Compared(t[i][0].chunk) ==> FindMatch(Text(t[i][0].data), Text(t[j][0].data)) == Less)
    {
      if i == id {
        assert t[j] == s[j - 1] && Is(LookingFor(name), s[j - 1], Greater);
        FindMatchExact(name, Text(s[j - 1][0].data));
      } else if j == id {
        assert t[i] == s[i] && Is(LookingFor(name), s[i], Less);
      } else {
        assert t[i] == s[if i < id then i else i - 1] && t[j] == s[if j < id then j else j - 1];
      }
    }
  }
}
