/**
 The global state on disk (dir/commit.rs, fs/mount.rs). Every metadata pair of
 the tail list stores a delta; XORed together they are the global state. The
 state machine here commits to a pair of the list: in place, by splitting it,
 by relocating it, or while dropping the pair behind it.
 */
module TailList {
  import opened Tags
  import opened MetadataLog
  import opened Fetch
  import opened GState
  import Rename

  // a metadata pair as commits leave it: where it is, the entries its log
  // replays to, and its MOVESTATE tag, if there is one
  datatype Mdir = Mdir(pair: Pair, entries: seq<Entry>, delta: Option<G>) {
    // lfs_dir_getgstate: a missing tag counts as zero
    function Value(): G { if delta.Some? then delta.value else ZERO }
  }

  // the loop of lfs_mount_
  function Fold(list: seq<Mdir>): G {
    if list == [] then ZERO else Xor(Fold(list[..|list| - 1]), list[|list| - 1].Value())
  }

  lemma {:induction false} FoldConcat(a: seq<Mdir>, b: seq<Mdir>)
    ensures Fold(a + b) == Xor(Fold(a), Fold(b))
  {
    if b == [] {
      assert a + b == a;
      XorLaws(Fold(a), ZERO);
    } else {
      var n := |b| - 1;
      assert (a + b)[..|a + b| - 1] == a + b[..n];
      FoldConcat(a, b[..n]);
      XorAssoc(Fold(a), Fold(b[..n]), b[n].Value());
    }
  }

  lemma FoldOne(d: Mdir)
    ensures Fold([d]) == d.Value() && Fold([]) == ZERO
  {
    assert [d][..0] == [];
    XorLaws(d.Value(), ZERO);
  }

  // The fold of a list in which mdir i is rewritten and the ones behind it, up
  // to i + count, are replaced.
  lemma FoldReplaced(list: seq<Mdir>, i: nat, count: nat, dirs: seq<Mdir>, news: seq<Mdir>)
    requires 0 < count && i + count <= |list|
    ensures Fold(list[..i] + dirs + news + list[i + count..]) ==
            Xor(Fold(list), Xor(Xor(list[i].Value(), Fold(dirs)), Xor(Fold(list[i + 1..i + count]), Fold(news))))
  {
    var pre, mid, post := list[..i], list[i + 1..i + count], list[i + count..];
    assert list == pre + [list[i]] + mid + post;
    FoldFour(pre, [list[i]], mid, post);
    FoldOne(list[i]);
    FoldFour(pre, dirs, news, post);
    Replaced(Fold(pre), list[i].Value(), Fold(dirs), Fold(mid), Fold(news), Fold(post));
  }

  lemma FoldFour(a: seq<Mdir>, b: seq<Mdir>, c: seq<Mdir>, d: seq<Mdir>)
    ensures Fold(a + b + c + d) == Xor(Xor(Xor(Fold(a), Fold(b)), Fold(c)), Fold(d))
  {
    FoldConcat(a + b + c, d);
    FoldConcat(a + b, c);
    FoldConcat(a, b);
  }

  lemma Replaced(pre: G, s: G, s': G, mid: G, news: G, post: G)
    ensures Xor(Xor(Xor(pre, s'), news), post) ==
            Xor(Xor(Xor(Xor(pre, s), mid), post), Xor(Xor(s, s'), Xor(mid, news)))
  {
    hide Xor;
    var a, b, u, v := Xor(pre, s), mid, Xor(s, s'), Xor(mid, news);
    XorAssoc(pre, s, u);
    XorCancel(s', s);
    XorCancel(news, mid);
    XorExchange(a, b, u, v);
    assert Xor(Xor(a, b), Xor(u, v)) == Xor(Xor(pre, s'), news);
    XorAssoc(Xor(a, b), post, Xor(u, v));
    XorLaws(post, Xor(u, v));
    XorAssoc(Xor(a, b), Xor(u, v), post);
  }

  // the same pending move, and orphans or none
  predicate SameNews(a: G, b: G) {
    && (HasMove(a) <==> HasMove(b)) && MoveId(a) == MoveId(b) && a.pair == b.pair
    && (HasOrphans(a) <==> HasOrphans(b)) && FlagTrue(a)
  }

  // What a commit owes the disk after it: its delta brings the fold from the
  // old state on disk to the new one.
  lemma Settled(disk: G, state: G, taken: G, owed: G, change: G)
    requires change == Xor(owed, taken)
    ensures Xor(Xor(disk, owed), Xor(Xor(Xor(state, disk), taken), change)) == state
  {
    hide Xor;
    XorCancel(owed, taken);
    XorLaws(owed, taken);
    XorAssoc(Xor(state, disk), taken, change);
    assert Xor(taken, change) == owed;
    XorExchange(disk, owed, Xor(state, disk), owed);
    XorLaws(owed, owed);
    XorLaws(disk, Xor(state, disk));
    XorCancel(state, disk);
    XorLaws(state, ZERO);
  }

  lemma MaskedSum(state: G, disk: G, taken: G)
    requires Mask(taken) == taken
    ensures Mask(Xor(Xor(state, disk), taken)) == Xor(Xor(Mask(state), Mask(disk)), taken)
  {
    hide Xor, Mask;
    XorLaws(Xor(state, disk), taken);
    XorLaws(state, disk);
  }

  ghost predicate Stored(list: seq<Mdir>) {
    forall i :: 0 <= i < |list| ==> Mask(list[i].Value()) == list[i].Value()
  }

  lemma {:induction false} FoldStored(list: seq<Mdir>)
    requires Stored(list)
    ensures Mask(Fold(list)) == Fold(list)
  {
    hide Xor, Mask;
    XorLaws(ZERO, ZERO);
    if list != [] {
      var n := |list| - 1;
      FoldStored(list[..n]);
      XorLaws(Fold(list[..n]), list[n].Value());
    }
  }

  // all entries, in the order of the list
  function All(list: seq<Mdir>): seq<Entry> {
    if list == [] then [] else All(list[..|list| - 1]) + list[|list| - 1].entries
  }

  // How a commit turns out: appended to the log; compacted in place; split,
  // its later entries going to a new pair; relocated, or both. The new pair of
  // a split may have to be relocated in turn before it can be written.
  datatype Outcome = Appended | Compacted | Split(tailMoved: bool) | Relocated | SplitAndRelocated(tailMoved: bool) {
    predicate InPlace() { Appended? || Compacted? || Split? }

    predicate Splits() { Split? || SplitAndRelocated? }

    // the state in memory goes into a pair that is not linked yet
    predicate Unlinked() { SplitAndRelocated? && !tailMoved }
  }

  // Pairs that are written but not linked yet: they are to take the place of
  // list[at..at + count].
  datatype Pending = Pending(at: nat, count: nat, news: seq<Mdir>)

  // what a commit makes of a directory
  datatype Edit = Edit(entries: seq<Entry>, rest: seq<Entry>, first: Pair, second: Pair) {
    function All(o: Outcome): seq<Entry> { entries + if o.Splits() then rest else [] }
  }

  // Where a commit splits, if it does, and the pairs it takes to split or relocate.
  datatype Way = Way(cut: nat, first: Pair, second: Pair)

  function EditOf(s: seq<Entry>, w: Way, o: Outcome): (e: Edit)
    ensures e.All(o) == s && e.first == w.first && e.second == w.second
  {
    if o.Splits() && w.cut <= |s| then Edit(s[..w.cut], s[w.cut..], w.first, w.second)
    else Edit(s, [], w.first, w.second)
  }

  // the mdirs that a commit writes
  predicate Wrote(ds: seq<Mdir>, head: Pair, e: Edit, o: Outcome) {
    && |ds| == (if o.Splits() then 2 else 1) && ds[0].pair == head && ds[0].entries == e.entries
    && (o.Splits() ==> ds[1].pair == e.first && ds[1].entries == e.rest)
  }

  // ----- commits that make others point at a directory that moved -----

  // The entry of a parent that names the directory: the mdir, the id under
  // which the log has it, and the pair to name from now on.
  datatype Naming = Naming(at: nat, id: nat, to: Bytes, append: bool)

  // An id counted without the entry that the move in `g` says has gone.
  function Uncounted(g: G, pair: Pair, id: nat): nat {
    if HasMoveHere(g, pair) && (MoveId(g) as int) < id then id - 1 else id
  }

  // If a move is pending in a mdir that is committed to for another reason, the
  // commit finishes it.
  function MoveDone(g: G, pair: Pair): G { if HasMoveHere(g, pair) then PrepMove(g, NoMove) else g }

  function Unmoved(s: seq<Entry>, g: G, pair: Pair): seq<Entry> {
    if HasMoveHere(g, pair) then ApplyItem(s, Rename.DeleteAttr(MoveId(g) as int)) else s
  }

  function DirStruct(id: nat, to: Bytes): Item { Item(Tag(STRUCT, 0, id, 8), Data(to)) }

  // The id a parent is told to change: lfs_fs_parent counts by the state on
  // disk, and the commit once more by the one in memory.
  function ToldId(disk: G, g: G, pair: Pair, id: nat): nat { Uncounted(g, pair, Uncounted(disk, pair, id)) }

  function Repointed(s: seq<Entry>, disk: G, g: G, pair: Pair, p: Naming): seq<Entry> {
    ApplyItem(Unmoved(s, g, pair), DirStruct(ToldId(disk, g, pair, p.id), p.to))
  }

  // The parent's entry is changed, and not another one, if and only if the move
  // is not yet in the state on disk, or the entry comes no later than right
  // behind the moved one.
  lemma ToldRight(disk: G, g: G, pair: Pair, id: nat)
    requires HasMoveHere(g, pair) && id != MoveId(g) as int
    requires HasMoveHere(disk, pair) ==> MoveId(disk) == MoveId(g)
    ensures ToldId(disk, g, pair, id) == Uncounted(g, pair, id) <==>
              !HasMoveHere(disk, pair) || id <= MoveId(g) as int + 1
  {
    hide HasMoveHere, MoveId;
  }

  // Otherwise a neighbour is made to name the directory, and the entry that
  // should is left as it was: here the moved entry is the first one.
  lemma ToldWrong(g: G, pair: Pair, moved: Entry, other: Entry, dir: Entry, p: Naming)
    requires HasMoveHere(g, pair) && MoveId(g) == 0 && p.id == 2
    ensures Repointed([moved, other, dir], g, g, pair, p) == [other[0x200 := Value(0, p.to)], dir]
    ensures Repointed([moved, other, dir], ZERO, g, pair, p) == [other, dir[0x200 := Value(0, p.to)]]
  {
    hide MoveId, Overlap;
    var s: seq<Entry> := [moved, other, dir];
    Rename.DeleteStep(s, 0);
    assert Rename.Remove(s, 0) == [other, dir];
    NoMoveInZero(pair);
  }

  lemma NoMoveInZero(pair: Pair)
    ensures !HasMoveHere(ZERO, pair)
  {}

  // How a round of the loop goes: the outcome of the commit to the predecessor,
  // and the parent that is committed to before it.
  datatype Round = Round(outcome: Outcome, way: Way, parent: Option<Naming>)

  // the same state, or the one without its move
  predicate SameOrDone(was: G, now: G) { now == was || now == PrepMove(was, NoMove) }

  lemma MoveStaysDone(was: G, g: G, pair: Pair)
    ensures SameOrDone(g, g) && (Countable(g) ==> Countable(MoveDone(g, pair)))
    ensures SameOrDone(was, g) ==> SameOrDone(was, MoveDone(g, pair))
  {
    hide PrepMove, HasMove, Countable;
    PrepMoveSets(was, NoMove);
    PrepMoveIsMove(g, NoMove);
  }

  lemma Finishes(g: G, pair: Pair)
    requires Countable(g)
    ensures MoveOf(MoveDone(PrepOrphans(g, 1), pair)) == MoveOf(MoveDone(g, pair))
    ensures var h := PrepOrphans(g, 1);
            && (HasMoveHere(h, pair) <==> HasMoveHere(g, pair)) && MoveId(h) == MoveId(g)
            && HasOrphans(MoveDone(h, pair)) && PrepOrphans(MoveDone(h, pair), 0xffff_ffff) == MoveDone(g, pair)
  {
    hide PrepMove, PrepOrphans, HasMove, MoveId, Overlap, MoveOf, HasOrphans, Countable;
    OneOrphanMore(g);
    SameMove(PrepOrphans(g, 1), g);
    PrepMoveIsMove(g, NoMove);
    PrepMoveIsMove(PrepOrphans(g, 1), NoMove);
  }

  class Fs {
    var gstate: G
    var gdisk: G
    var gdelta: G
    var list: seq<Mdir>
    var pending: Option<Pending>
    ghost var owed: G             // by what linking will change the fold

    ghost predicate Inv()
      reads this
    {
      && Stored(list) && Mask(gdelta) == gdelta
      && Fold(list) == Xor(Mask(gdisk), owed)
      && match pending
         case None => owed == ZERO
         case Some(p) =>
           && p.at + p.count <= |list| && Stored(p.news)
           && owed == Xor(Fold(list[p.at..p.at + p.count]), Fold(p.news))
    }

    // nothing half done: the deltas add up to the state on disk
    ghost predicate Quiet()
      reads this
    {
      Inv() && pending.None? && gdelta == ZERO
    }

    // lfs_mount_: the deltas are added up
    constructor (list: seq<Mdir>)
      requires Stored(list)
      ensures Quiet() && this.list == list && gdisk == gstate == Mounted(Fold(list))
      ensures Mask(gdisk) == Fold(list)
    {
      hide Xor, Mask, Fold, Mounted;
      FoldStored(list);
      MountedSame(Fold(list));
      this.list, gstate, gdisk := list, Mounted(Fold(list)), Mounted(Fold(list));
      gdelta, pending, owed := ZERO, None, ZERO;
      XorLaws(Fold(list), ZERO);
      XorLaws(ZERO, ZERO);
    }

    // lfs_fs_prepmove, lfs_fs_preporphans, lfs_fs_prepsuperblock
    method SetState(g: G)
      requires Inv()
      modifies this`gstate
      ensures Inv() && gstate == g
    {
      gstate := g;
    }

    // lfs_dir_getgstate into gdelta: the delta of a pair about to be dropped
    method TakeDelta(i: nat)
      requires Inv() && i < |list|
      modifies this`gdelta
      ensures Inv() && gdelta == Xor(old(gdelta), list[i].Value())
    {
      hide Xor, Mask;
      XorLaws(gdelta, list[i].Value());
      gdelta := Xor(gdelta, list[i].Value());
    }

    // the delta an append writes; it writes none if nothing changes
    method AppendState(stored: Option<G>) returns (r: Option<G>)
      requires Mask(gdelta) == gdelta
      ensures Mdir(NO_PAIR, [], r).Value() ==
              Xor(Mdir(NO_PAIR, [], stored).Value(), Xor(Xor(Mask(gstate), Mask(gdisk)), gdelta))
    {
      hide Xor, Mask;
      var s := if stored.Some? then stored.value else ZERO;
      var delta := Xor(Xor(Xor(ZERO, gstate), gdisk), gdelta);
      XorLaws(gstate, ZERO);
      XorLaws(ZERO, gstate);
      MaskedSum(gstate, gdisk, gdelta);
      delta := Mask(delta);
      XorLaws(s, delta);
      r := stored;
      if delta != ZERO {
        r := Some(Xor(delta, s));
      }
    }

    // the delta a compaction writes into the fresh log; none if it is zero
    method CompactState(stored: Option<G>, relocated: bool) returns (r: Option<G>)
      requires Mask(gdelta) == gdelta
      ensures Mdir(NO_PAIR, [], r).Value() ==
              Xor(Mdir(NO_PAIR, [], stored).Value(),
                  if relocated then gdelta else Xor(Xor(Mask(gstate), Mask(gdisk)), gdelta))
    {
      hide Xor, Mask;
      var s := if stored.Some? then stored.value else ZERO;
      var delta := ZERO;
      XorLaws(gdisk, ZERO);
      XorLaws(ZERO, gdisk);
      XorLaws(gdisk, gstate);
      XorLaws(ZERO, gdelta);
      XorLaws(gdelta, ZERO);
      MaskedSum(gstate, gdisk, gdelta);
      if !relocated {
        delta := Xor(Xor(delta, gdisk), gstate);
      }
      delta := Mask(Xor(delta, gdelta));
      XorLaws(s, delta);
      delta := Xor(delta, s);
      r := if delta != ZERO then Some(delta) else None;
    }

    // The delta of a commit in place, in whichever of the ways; a split puts
    // all there is to say into the new pair, which the directory links.
    method InPlace(i: nat, e: Edit, outcome: Outcome) returns (dirs: seq<Mdir>)
      requires Mask(gdelta) == gdelta && i < |list| && outcome.InPlace()
      modifies this`gdisk, this`gdelta
      ensures gdisk == gstate && gdelta == ZERO && 1 <= |dirs| <= 2
      ensures Xor(list[i].Value(), Fold(dirs)) == Xor(Xor(Mask(gstate), Mask(old(gdisk))), old(gdelta))
      ensures Mask(list[i].Value()) == list[i].Value() ==> Stored(dirs)
      ensures Wrote(dirs, list[i].pair, e, outcome) && All(dirs) == e.All(outcome)
    {
      hide Xor, Mask, Fold, All;
      ghost var s, delta := list[i].Value(), Xor(Xor(Mask(gstate), Mask(gdisk)), gdelta);
      DeltaStored(s, gstate, gdisk, gdelta);
      XorCancel(delta, s);
      AllTwo(Mdir(list[i].pair, e.entries, None), Mdir(e.first, e.rest, None));
      if outcome.Split? {
        ghost var m, taken, gdisk0 := Xor(Mask(gstate), Mask(gdisk)), gdelta, gdisk;
        var t := CompactState(None, outcome.tailMoved);
        gdelta := ZERO;
        if !outcome.tailMoved {
          gdisk := gstate;
        }
        XorLaws(ZERO, ZERO);
        XorLaws(m, ZERO);
        XorLaws(ZERO, taken);
        XorLaws(taken, ZERO);
        XorAssoc(s, m, taken);
        DeltaStored(s, gstate, gdisk0, ZERO);
        var d := CompactState(list[i].delta, false);
        gdisk := gstate;
        dirs := [Mdir(list[i].pair, e.entries, d), Mdir(e.first, e.rest, t)];
        FoldTwo(dirs[0], dirs[1]);
        XorLaws(Mask(gstate), ZERO);
        XorLaws(ZERO, delta);
        XorLaws(delta, ZERO);
        XorLaws(s, ZERO);
        AllTwo(dirs[0], dirs[1]);
      } else {
        var d;
        if outcome.Appended? { d := AppendState(list[i].delta); } else { d := CompactState(list[i].delta, false); }
        dirs := [Mdir(list[i].pair, e.entries, d)];
        FoldOne(dirs[0]);
        gdisk, gdelta := gstate, ZERO;
        AllTwo(dirs[0], dirs[0]);
      }
    }

    // The directory written to another block. Unless it was split the state
    // in memory is not part of it; the commit that links it will bring that.
    method Elsewhere(i: nat, e: Edit, outcome: Outcome) returns (dirs: seq<Mdir>)
      requires Mask(gdelta) == gdelta && i < |list| && !outcome.InPlace() && Mask(list[i].Value()) == list[i].Value()
      modifies this`gdisk, this`gdelta
      ensures gdelta == ZERO && Stored(dirs) && Wrote(dirs, e.second, e, outcome) && All(dirs) == e.All(outcome)
      ensures !outcome.Unlinked() ==> gdisk == old(gdisk) && Xor(list[i].Value(), Fold(dirs)) == old(gdelta)
      ensures outcome.Unlinked() ==>
                gdisk == gstate
                && Xor(list[i].Value(), Fold(dirs)) == Xor(Xor(Mask(gstate), Mask(old(gdisk))), old(gdelta))
    {
      hide Xor, Mask, Fold, All;
      ghost var s, delta := list[i].Value(), Xor(Xor(Mask(gstate), Mask(gdisk)), gdelta);
      DeltaStored(s, gstate, gdisk, gdelta);
      XorLaws(s, gdelta);
      XorCancel(delta, s);
      XorCancel(gdelta, s);
      if outcome.Relocated? {
        var d := CompactState(list[i].delta, true);
        dirs := [Mdir(e.second, e.entries, d)];
        gdelta := ZERO;
        FoldOne(dirs[0]);
        AllTwo(dirs[0], dirs[0]);
      } else {
        ghost var taken := gdelta;
        var t := CompactState(None, outcome.tailMoved);
        gdelta := ZERO;
        if !outcome.tailMoved {
          gdisk := gstate;
        }
        XorLaws(ZERO, ZERO);
        XorLaws(ZERO, taken);
        XorLaws(taken, ZERO);
        var d := CompactState(list[i].delta, true);
        dirs := [Mdir(e.second, e.entries, d), Mdir(e.first, e.rest, t)];
        FoldTwo(dirs[0], dirs[1]);
        XorLaws(ZERO, delta);
        XorLaws(delta, ZERO);
        XorLaws(s, ZERO);
        AllTwo(dirs[0], dirs[1]);
      }
    }

    // lfs_dir_relocatingcommit: a commit to list[i] after which `behind` comes
    // in place of list[i + 1..i + count]. It settles all that is owed, now if
    // it stays in place, else when it is linked.
    method Commit(i: nat, count: nat, e: Edit, behind: seq<Mdir>, outcome: Outcome)
      returns (dirs: seq<Mdir>)
      requires Inv() && 0 < count && i + count <= |list| && Stored(behind)
      requires Xor(Fold(list[i + 1..i + count]), Fold(behind)) == Xor(owed, gdelta)
      modifies this
      ensures Inv() && gdelta == ZERO && gstate == old(gstate)
      ensures outcome.InPlace() ==> Quiet() && gdisk == gstate
      ensures |dirs| > 0 && All(dirs) == e.All(outcome)
      ensures outcome.InPlace() ==>
                && Wrote(dirs, old(list[i].pair), e, outcome)
                && list == old(list[..i]) + dirs + behind + old(list[i + count..])
      ensures !outcome.InPlace() ==>
                && Wrote(dirs, e.second, e, outcome) && list == old(list)
                && pending == Some(Pending(i, count, dirs + behind))
      ensures !outcome.InPlace() && !outcome.Unlinked() ==> owed == old(owed) && gdisk == old(gdisk)
      ensures outcome.Unlinked() ==> owed == Xor(old(owed), Xor(Mask(gstate), Mask(old(gdisk)))) && gdisk == gstate
    {
      hide Xor, Mask, Fold, All, Edit.All;
      if outcome.InPlace() {
        ghost var was, disk, taken := list, gdisk, gdelta;
        dirs := InPlace(i, e, outcome);
        StoredParts(list, i, count, dirs, behind);
        FoldReplaced(list, i, count, dirs, behind);
        Settled(Mask(disk), Mask(gstate), taken, owed, Xor(owed, taken));
        list := list[..i] + dirs + behind + list[i + count..];
        pending, owed := None, ZERO;
        XorLaws(Mask(gdisk), ZERO);
        XorLaws(ZERO, ZERO);
      } else {
        ghost var s, disk, taken := list[i].Value(), gdisk, gdelta;
        ghost var mid := Fold(list[i + 1..i + count]);
        dirs := Elsewhere(i, e, outcome);
        StoredParts([], 0, 0, dirs, behind);
        FoldSegment(list, i, count);
        FoldConcat(dirs, behind);
        AllConcat(dirs, behind);
        Later(s, Xor(s, Fold(dirs)), mid, Fold(behind));
        XorCancel(Fold(dirs), s);
        XorLaws(ZERO, ZERO);
        OwedLater(Mask(disk), Mask(gstate), taken, owed);
        pending := Some(Pending(i, count, dirs + behind));
        owed := Xor(Fold(list[i..i + count]), Fold(dirs + behind));
      }
    }

    // A new directory, written but not linked: the commit to it takes up
    // whatever the state in memory has over that on disk.
    method MakeDir(i: nat, pair: Pair, entries: seq<Entry>)
      requires Quiet() && i < |list|
      modifies this
      ensures Inv() && gdelta == ZERO && gdisk == gstate == old(gstate) && list == old(list)
      ensures pending.Some? && pending.value.at == i + 1 && pending.value.count == 0
      ensures All(pending.value.news) == entries && owed == Xor(Mask(gstate), Mask(old(gdisk)))
    {
      hide Xor, Mask, Fold, All;
      ghost var m := Xor(Mask(gstate), Mask(gdisk));
      var d := CompactState(None, false);
      var dir := Mdir(pair, entries, d);
      DeltaStored(ZERO, gstate, gdisk, ZERO);
      XorLaws(m, ZERO);
      XorLaws(ZERO, m);
      XorLaws(ZERO, ZERO);
      FoldOne(dir);
      AllTwo(dir, dir);
      OwedLater(Mask(gdisk), Mask(gstate), ZERO, ZERO);
      assert list[i + 1..i + 1 + 0] == [];
      pending, owed := Some(Pending(i + 1, 0, [dir])), m;
      gdisk, gdelta := gstate, ZERO;
    }

    // The mdir before the pending ones is made to point at them.
    method Link(w: Way, outcome: Outcome) returns (dirs: seq<Mdir>)
      requires Inv() && pending.Some? && pending.value.at > 0 && gdelta == ZERO
      requires outcome.InPlace() || pending.value.at > 1
      modifies this
      ensures Inv() && gdelta == ZERO
      ensures var p, pred := old(pending).value, old(list)[old(pending).value.at - 1];
              && gstate == MoveDone(old(gstate), pred.pair)
              && All(dirs) == Unmoved(pred.entries, old(gstate), pred.pair)
              && (outcome.InPlace() ==>
                    && Wrote(dirs, pred.pair, EditOf(Unmoved(pred.entries, old(gstate), pred.pair), w, outcome),
                             outcome)
                    && list == old(list)[..p.at - 1] + dirs + p.news + old(list)[p.at + p.count..])
      ensures outcome.InPlace() ==> Quiet() && gdisk == gstate
      ensures !outcome.InPlace() ==> pending.Some? && pending.value.at == old(pending.value.at) - 1
      ensures !outcome.Unlinked() && !outcome.InPlace() ==> owed == old(owed)
    {
      hide Xor, Mask, Fold, All, Unmoved, MoveDone;
      var p := pending.value;
      var pred := list[p.at - 1];
      XorLaws(owed, ZERO);
      var s := Unmoved(pred.entries, gstate, pred.pair);
      SetState(MoveDone(gstate, pred.pair));
      dirs := Commit(p.at - 1, p.count + 1, EditOf(s, w, outcome), p.news, outcome);
    }

    // The commit to the parent of a directory that moved, with an orphan counted
    // from then on until the list points at it, too.
    method CommitToParent(p: Naming)
      requires Inv() && pending.Some? && gdelta == ZERO && p.at < |list| && Countable(gstate)
      requires p.at < pending.value.at || pending.value.at + pending.value.count <= p.at
      modifies this
      ensures Inv() && pending == old(pending) && gdelta == ZERO && owed == old(owed)
      ensures gdisk == MoveDone(PrepOrphans(old(gstate), 1), old(list[p.at].pair))
      ensures gstate == MoveDone(old(gstate), old(list[p.at].pair)) && Countable(gstate)
      ensures var d := old(list)[p.at];
              && |list| == |old(list)| && list == old(list)[p.at := list[p.at]] && list[p.at].pair == d.pair
              && list[p.at].entries == Repointed(d.entries, old(gdisk), old(gstate), d.pair, p)
    {
      hide Xor, Mask, Fold, All, PrepOrphans, HasOrphans, Countable, HasMove, MoveId, Overlap, PrepMove, DirStruct;
      hide ApplyItem;
      var d, disk := list[p.at], gdisk;
      Finishes(gstate, d.pair);
      MoveStaysDone(gstate, gstate, d.pair);
      SetState(PrepOrphans(gstate, 1));
      var s := Repointed(d.entries, disk, gstate, d.pair, p);
      SetState(MoveDone(gstate, d.pair));
      CommitBeside(p.at, Edit(s, [], NO_PAIR, NO_PAIR), if p.append then Appended else Compacted);
      if HasOrphans(gstate) {
        SetState(PrepOrphans(gstate, 0xffff_ffff));
      }
    }

    // lfs_dir_orphaningcommit: as long as a commit has moved its directory, its
    // parent, if it has one, and the one before it are made to point at it.
    method CommitAndLink(i: nat, count: nat, e: Edit, outcome: Outcome, rounds: nat -> Round)
      requires Inv() && pending.None? && 0 < count && i + count <= |list|
      requires gdelta == Fold(list[i + 1..i + count])
      requires rounds(0).outcome.InPlace() && (i == 0 ==> outcome.InPlace())
      requires forall k :: rounds(k).parent.Some? ==> Countable(gstate)
      modifies this
      ensures Quiet() && gdisk == gstate && SameOrDone(old(gstate), gstate)
    {
      hide Xor, Mask, Fold, All, Countable, MoveDone, PrepMove, SameOrDone, Wrote, Unmoved, Repointed, EditOf;
      XorLaws(gdelta, ZERO);
      XorLaws(ZERO, gdelta);
      FoldOne(Mdir(NO_PAIR, [], None));
      var _ := Commit(i, count, e, [], outcome);
      MoveStaysDone(gstate, gstate, NO_PAIR);
      while pending.Some?
        invariant Inv() && gdelta == ZERO && SameOrDone(old(gstate), gstate)
        invariant forall k :: rounds(k).parent.Some? ==> Countable(gstate)
        invariant pending.Some? ==> 0 < pending.value.at
        invariant pending.None? ==> gdisk == gstate
        decreases if pending.Some? then pending.value.at else 0
      {
        var k := pending.value.at - 1;
        var p := rounds(k).parent;
        if p.Some? && p.value.at < |list| && (p.value.at <= k || pending.value.at + pending.value.count <= p.value.at) {
          MoveStaysDone(old(gstate), gstate, list[p.value.at].pair);
          CommitToParent(p.value);
        }
        MoveStaysDone(old(gstate), gstate, list[k].pair);
        var _ := Link(rounds(k).way, rounds(k).outcome);
      }
    }

    // lfs_dir_drop: the mdir behind list[i] leaves the list; its delta stays.
    method Drop(i: nat, e: Edit, outcome: Outcome, rounds: nat -> Round)
      requires Quiet() && i + 2 <= |list| && rounds(0).outcome.InPlace() && (i == 0 ==> outcome.InPlace())
      requires forall k :: rounds(k).parent.Some? ==> Countable(gstate)
      modifies this
      ensures Quiet() && gdisk == gstate && SameOrDone(old(gstate), gstate)
    {
      hide Xor, Mask, Fold, All, Countable, PrepMove;
      XorLaws(list[i + 1].Value(), ZERO);
      XorLaws(ZERO, list[i + 1].Value());
      TakeDelta(i + 1);
      FoldOne(list[i + 1]);
      assert list[i + 1..i + 2] == [list[i + 1]];
      CommitAndLink(i, 2, e, outcome, rounds);
    }

    // A commit to another directory while some are waiting to be linked, as
    // lfs_dir_orphaningcommit makes to the parent: what is owed stays owed.
    method CommitBeside(i: nat, e: Edit, outcome: Outcome)
      requires Inv() && pending.Some? && gdelta == ZERO && i < |list| && outcome.InPlace()
      requires i < pending.value.at || pending.value.at + pending.value.count <= i
      modifies this
      ensures Inv() && pending.Some? && gdelta == ZERO && gstate == old(gstate) && gdisk == gstate && owed == old(owed)
      ensures pending.value.count == old(pending.value.count) && pending.value.news == old(pending.value.news)
      ensures !outcome.Splits() ==>
                && pending == old(pending) && |list| == |old(list)| && list == old(list)[i := list[i]]
                && list[i].pair == old(list[i].pair) && list[i].entries == e.entries
    {
      hide Xor, Mask, Fold, All;
      var p := pending.value;
      ghost var was, disk := list, gdisk;
      var dirs := InPlace(i, e, outcome);
      StoredParts(list, i, 1, dirs, []);
      FoldReplaced(list, i, 1, dirs, []);
      FoldOne(list[i]);
      assert list[i + 1..i + 1] == [];
      Beside(Mask(disk), Mask(gstate), owed);
      list := list[..i] + dirs + [] + list[i + 1..];
      var at := if i < p.at then p.at + (|dirs| - 1) else p.at;
      SegmentStays(was, i, dirs, p.at, p.count);
      pending := Some(p.(at := at));
    }

    // Power is lost: what is in memory is gone, and the next mount adds the
    // deltas up. It finds the state the last commit left on disk if and only
    // if nothing is owed.
    method CrashAndMount()
      requires Inv()
      modifies this
      ensures Quiet() && list == old(list) && gdisk == gstate == Mounted(Fold(list))
      ensures Mask(gdisk) == Mask(old(gdisk)) <==> old(owed) == ZERO
      ensures old(owed) == ZERO && FlagTrue(old(gdisk)) ==> SameNews(gstate, old(gdisk))
    {
      hide Xor, Mask, Fold, Mounted;
      if owed == ZERO && FlagTrue(gdisk) { MountedKeeps(gdisk); }
      FoldStored(list);
      MountedSame(Fold(list));
      XorCancel(owed, Mask(gdisk));
      XorLaws(Mask(gdisk), ZERO);
      XorLaws(Mask(gdisk), Mask(gdisk));
      XorLaws(Mask(gdisk), owed);
      gstate := Mounted(Fold(list));
      gdisk, gdelta, pending, owed := gstate, ZERO, None, ZERO;
      XorLaws(Mask(gdisk), ZERO);
      XorLaws(ZERO, ZERO);
    }

    // A commit, and then a power loss: the state is all new or all old. It is
    // the one that memory took for the one on disk, `told`, if and only if the
    // state did not go into an unlinked pair, or did not change.
    method CommitAndCrash(i: nat, count: nat, e: Edit, behind: seq<Mdir>, outcome: Outcome) returns (ghost told: G)
      requires Quiet() && 0 < count && i + count <= |list| && Stored(behind)
      requires Fold(list[i + 1..i + count]) == Fold(behind)
      modifies this
      ensures Quiet() && gstate == gdisk == Mounted(Fold(list)) && (!outcome.InPlace() ==> list == old(list))
      ensures told == if outcome.InPlace() || outcome.Unlinked() then old(gstate) else old(gdisk)
      ensures Mask(gdisk) == if outcome.InPlace() then Mask(old(gstate)) else Mask(old(gdisk))
      ensures Mask(gdisk) == Mask(told) <==> !outcome.Unlinked() || Mask(old(gstate)) == Mask(old(gdisk))
    {
      hide Xor, Mask, Fold, All, Mounted;
      XorLaws(Fold(behind), ZERO);
      XorLaws(ZERO, ZERO);
      XorLaws(Mask(gdisk), ZERO);
      var _ := Commit(i, count, e, behind, outcome);
      told := gdisk;
      XorLaws(Mask(gdisk), ZERO);
      CrashAndMount();
      XorLaws(Mask(gdisk), ZERO);
    }

    // Power is lost later, when the parent names the new pairs but the list does
    // not. What is mounted is what the parent's commit took for the state on disk
    // if and only if the first commit had not taken the state away, or it did
    // not change.
    method BehindParent(i: nat, e: Edit, outcome: Outcome, p: Naming) returns (news: seq<Mdir>, ghost told: G)
      requires Quiet() && i < |list| && p.at < |list| && p.at != i && !outcome.InPlace() && Countable(gstate)
      modifies this
      ensures Quiet() && gstate == gdisk == Mounted(Fold(list)) && Mask(gdisk) == Fold(list)
      ensures Wrote(news, e.second, e, outcome) && Stored(news) && Xor(Fold([old(list[i])]), Fold(news)) ==
                if outcome.Unlinked() then Xor(Mask(old(gstate)), Mask(old(gdisk))) else ZERO
      ensures var d := old(list)[p.at];
              && |list| == |old(list)| && list == old(list)[p.at := list[p.at]] && list[p.at].pair == d.pair
              && list[p.at].entries ==
                 Repointed(d.entries, if outcome.Unlinked() then old(gstate) else old(gdisk), old(gstate), d.pair, p)
              && told == MoveDone(PrepOrphans(old(gstate), 1), d.pair)
      ensures Mask(gdisk) ==
              Xor(Mask(told), if outcome.Unlinked() then Xor(Mask(old(gstate)), Mask(old(gdisk))) else ZERO)
      ensures Mask(gdisk) == Mask(told) <==> !outcome.Unlinked() || Mask(old(gstate)) == Mask(old(gdisk))
    {
      hide Xor, Mask, Fold, All, Mounted, Repointed, MoveDone, PrepOrphans, Countable;
      FoldOne(list[i]);
      assert list[i + 1..i + 1] == [] && list[i..i + 1] == [list[i]];
      XorLaws(ZERO, ZERO);
      ghost var disk, was := gdisk, list[i];
      news := Commit(i, 1, e, [], outcome);
      assert news + [] == news;
      XorLaws(Xor(Mask(gstate), Mask(disk)), ZERO);
      XorLaws(ZERO, Xor(Mask(gstate), Mask(disk)));
      CommitToParent(p);
      told := gdisk;
      FoldStored(list);
      OwedNothing(Mask(told), owed);
      OwedNothing(Mask(old(gstate)), Mask(disk));
      CrashAndMount();
      XorLaws(Mask(gdisk), ZERO);
    }

    // The same for a new directory, whose commit takes the state along.
    method MakeDirAndCrash(i: nat, pair: Pair, entries: seq<Entry>) returns (ghost told: G)
      requires Quiet() && i < |list|
      modifies this
      ensures Quiet() && gstate == gdisk && told == old(gstate) && Mask(gdisk) == Mask(old(gdisk))
      ensures Mask(gdisk) == Mask(told) <==> Mask(old(gstate)) == Mask(old(gdisk))
    {
      hide Xor, Mask, Fold, All, Mounted;
      XorLaws(Mask(gdisk), ZERO);
      MakeDir(i, pair, entries);
      told := gdisk;
      CrashAndMount();
      XorLaws(Mask(gdisk), ZERO);
    }
  }

  // A move is prepared, and the commit that stores it splits and relocates its
  // directory: until the new pairs are linked a power loss forgets the move,
  // though memory takes it for stored.
  method MoveForgotten(id: bv10, from: Pair) returns (fs: Fs, ghost told: G)
    ensures fresh(fs) && fs.Quiet() && HasMove(told) && MoveId(told) == id && told.pair == from && !HasMove(fs.gstate)
  {
    var root, dir := Mdir(Pair(0, 1), [], None), Mdir(Pair(2, 3), [], None);
    fs := new Fs([root, dir]);
    FoldTwo(root, dir);
    XorLaws(ZERO, ZERO);
    fs.SetState(PrepMove(fs.gstate, MoveFrom(id, from)));
    PrepMoveSets(ZERO, MoveFrom(id, from));
    told := fs.CommitAndCrash(1, 1, Edit([], [], Pair(4, 5), Pair(6, 7)), [], SplitAndRelocated(false));
  }

  lemma OwedNothing(a: G, b: G)
    ensures Xor(a, b) == a <==> b == ZERO
    ensures Xor(a, b) == ZERO <==> a == b
  {
    hide Xor;
    XorCancel(a, b);
    XorCancel(b, a);
    XorLaws(a, b);
    XorLaws(a, a);
    XorLaws(ZERO, b);
  }

  // A segment that list[i] is not part of is the same after list[i] is replaced.
  lemma SegmentStays(list: seq<Mdir>, i: nat, dirs: seq<Mdir>, at: nat, count: nat)
    requires i < |list| && at + count <= |list| && |dirs| > 0 && (i < at || at + count <= i)
    ensures var k := if i < at then at + (|dirs| - 1) else at;
            k + count <= |list| - 1 + |dirs|
            && (list[..i] + dirs + [] + list[i + 1..])[k..k + count] == list[at..at + count]
  {
    var p, q := list[..i] + dirs + [], list[i + 1..];
    if i < at {
      SliceBehind(p, q, at - i - 1, count);
      assert list == list[..i + 1] + q;
      SliceBehind(list[..i + 1], q, at - i - 1, count);
    } else {
      assert p + q == list[..i] + (dirs + q);
      SliceInFront(list[..i], dirs + q, at, count);
      assert list == list[..i] + list[i..];
      SliceInFront(list[..i], list[i..], at, count);
    }
  }

  lemma SliceBehind(p: seq<Mdir>, q: seq<Mdir>, a: nat, n: nat)
    requires a + n <= |q|
    ensures (p + q)[|p| + a..|p| + a + n] == q[a..a + n]
  {}

  lemma SliceInFront(p: seq<Mdir>, q: seq<Mdir>, a: nat, n: nat)
    requires a + n <= |p|
    ensures (p + q)[a..a + n] == p[a..a + n]
  {}

  lemma Beside(disk: G, state: G, owed: G)
    ensures Xor(Xor(disk, owed), Xor(Xor(Xor(state, disk), ZERO), Xor(ZERO, ZERO))) == Xor(state, owed)
  {
    hide Xor;
    XorLaws(Xor(state, disk), ZERO);
    XorLaws(ZERO, ZERO);
    XorExchange(disk, owed, Xor(state, disk), ZERO);
    XorLaws(disk, Xor(state, disk));
    XorCancel(state, disk);
    XorLaws(owed, ZERO);
  }

  lemma FoldSegment(list: seq<Mdir>, i: nat, count: nat)
    requires 0 < count && i + count <= |list|
    ensures Fold(list[i..i + count]) == Xor(list[i].Value(), Fold(list[i + 1..i + count]))
  {
    assert list[i..i + count] == [list[i]] + list[i + 1..i + count];
    FoldConcat([list[i]], list[i + 1..i + count]);
    FoldOne(list[i]);
  }

  // what replacing s and mid by s ^ x and news changes
  lemma Later(s: G, x: G, mid: G, news: G)
    ensures Xor(Xor(s, mid), Xor(Xor(s, x), news)) == Xor(x, Xor(mid, news))
  {
    hide Xor;
    XorExchange(s, mid, Xor(s, x), news);
    XorCancel(x, s);
  }

  lemma OwedLater(disk: G, state: G, taken: G, owed: G)
    ensures Xor(taken, Xor(owed, taken)) == owed
    ensures Xor(Xor(Xor(state, disk), taken), Xor(owed, taken)) == Xor(owed, Xor(state, disk))
    ensures Xor(state, Xor(owed, Xor(state, disk))) == Xor(disk, owed)
  {
    hide Xor;
    var m := Xor(state, disk);
    XorLaws(owed, taken);
    XorCancel(owed, taken);
    XorExchange(m, taken, owed, taken);
    XorLaws(taken, taken);
    XorLaws(m, owed);
    XorLaws(Xor(m, owed), ZERO);
    XorLaws(owed, m);
    XorAssoc(state, m, owed);
    XorCancel(disk, state);
  }

  lemma DeltaStored(s: G, state: G, disk: G, taken: G)
    requires Mask(taken) == taken
    ensures var delta := Xor(Xor(Mask(state), Mask(disk)), taken);
            Mask(delta) == delta && (Mask(s) == s ==> Mask(Xor(s, delta)) == Xor(s, delta))
  {
    hide Xor, Mask;
    var delta := Xor(Xor(Mask(state), Mask(disk)), taken);
    XorLaws(Mask(state), Mask(disk));
    XorLaws(state, ZERO);
    XorLaws(disk, ZERO);
    XorLaws(Xor(Mask(state), Mask(disk)), taken);
    XorLaws(s, delta);
  }

  lemma FoldTwo(a: Mdir, b: Mdir)
    ensures Fold([a, b]) == Xor(a.Value(), b.Value())
  {
    FoldConcat([a], [b]);
    FoldOne(a);
    FoldOne(b);
    assert [a] + [b] == [a, b];
  }

  lemma AllTwo(a: Mdir, b: Mdir)
    ensures All([a, b]) == a.entries + b.entries && All([a]) == a.entries && All([]) == []
  {
    assert [a, b][..1] == [a] && [a][..0] == [];
    assert All([a]) == All([]) + a.entries;
    assert All([a, b]) == All([a]) + b.entries;
  }

  lemma {:induction false} AllConcat(a: seq<Mdir>, b: seq<Mdir>)
    ensures All(a + b) == All(a) + All(b)
  {
    if b == [] {
      assert a + b == a;
    } else {
      var n := |b| - 1;
      assert (a + b)[..|a + b| - 1] == a + b[..n];
      AllConcat(a, b[..n]);
    }
  }

  lemma StoredParts(list: seq<Mdir>, i: nat, count: nat, dirs: seq<Mdir>, news: seq<Mdir>)
    requires Stored(list) && Stored(dirs) && Stored(news) && i + count <= |list|
    ensures Stored(list[..i] + dirs + news + list[i + count..]) && Stored(dirs + news)
  {}
}
