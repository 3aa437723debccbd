/**
 Moving an entry to another directory (fs/rename.rs, lfs_fs_demove of
 fs/superblock.rs): the first commit makes the new entry and, in the same
 stroke, hides the old one by the move in the global state; the second, or the
 recovery after a power loss, takes the old one out. Either commit may split or
 relocate its directory; power may be lost at every point, also when a parent
 names a relocated directory that the tail list does not link yet.
 */
module MoveProtocol {
  import opened Tags
  import opened MetadataLog
  import opened Fetch
  import opened GState
  import opened TailList
  import opened Rename
  import opened Slots

  // ----- the rename -----

  // the state in memory with which the first commit is made
  function Moving(g: G, s: Slot, oldid: nat): G
    requires s.seen != [] && oldid < NO_ID
  {
    PrepMove(g, MoveFrom(Bv10(oldid), s.seen[0].pair))
  }

  // The old entry may be renamed, from slot a to slot b.
  ghost predicate CanRename(slots: seq<Slot>, disk: G, a: nat, oldid: nat, b: nat, t: Target, from: seq<Rec>,
                            to: seq<Rec>) {
    && !HasMove(disk) && a < |slots| && b < |slots| && a != b && slots[a].Single() && slots[b].Single()
    && oldid < |slots[a].seen[0].entries| && TargetOk(t, from, oldid)
    && (if t.over then t.id < |slots[b].seen[0].entries| else t.id <= |slots[b].seen[0].entries|)
    && Replay(from) == slots[a].seen[0].entries && Replay(to) == slots[b].seen[0].entries
  }

  // the file system after the rename
  function Renamed(v: seq<seq<Entry>>, a: nat, oldid: nat, b: nat, t: Target, log: seq<Rec>): seq<seq<Entry>>
    requires a < |v| && b < |v| && t.id <= |Base(v[b], t)|
  {
    Added(v, oldid, b, t, log)[a := Remove(v[a], oldid)]
  }

  // the file system with both names
  function Added(v: seq<seq<Entry>>, oldid: nat, b: nat, t: Target, log: seq<Rec>): seq<seq<Entry>>
    requires b < |v| && t.id <= |Base(v[b], t)|
  {
    v[b := Insert(Base(v[b], t), t.id, NewEntry(t, log, oldid))]
  }

  datatype Event = PowerLoss | Recovery(how: How) | Relinking(slot: nat, append: bool)

  predicate CanFinish(slots: seq<Slot>, g: G, disk: G, how: How) {
    forall a :: 0 <= a < |slots| && MoveAt(slots, disk, a) ==> Allowed(slots, a, PrepMove(g, NoMove), how)
  }

  predicate CanHappen(slots: seq<Slot>, g: G, disk: G, e: Event) {
    match e
    case PowerLoss => true
    case Recovery(how) => CanFinish(slots, g, disk, how)
    case Relinking(i, _) => 0 < i < |slots| && slots[i - 1].Whole()
  }

  predicate Mends(e: Event) { e.Recovery? && !e.how.Cut? }

  lemma BaseLength(s: seq<Entry>, t: Target)
    requires if t.over then t.id < |s| else t.id <= |s|
    ensures t.id <= |Base(s, t)|
  {}

  lemma PlainOne(slots: seq<Slot>, disk: G, j: nat)
    requires !HasMove(disk) && j < |slots| && slots[j].Single()
    ensures View(slots, disk)[j] == slots[j].seen[0].entries
  {
    hide All, View;
    ViewWithout(slots, disk, j);
    assert slots[j].seen == [slots[j].seen[0]];
    AllTwo(slots[j].seen[0], slots[j].seen[0]);
  }

  lemma BaseThere(slots: seq<Slot>, disk: G, a: nat, oldid: nat, b: nat, t: Target, from: seq<Rec>, to: seq<Rec>)
    requires CanRename(slots, disk, a, oldid, b, t, from, to)
    ensures t.id <= |Base(View(slots, disk)[b], t)|
  {
    hide View, HasMove;
    PlainOne(slots, disk, b);
    BaseLength(slots[b].seen[0].entries, t);
  }

  lemma MovingMoves(slots: seq<Slot>, disk: G, g: G, a: nat, oldid: nat, b: nat, t: Target, from: seq<Rec>,
                    to: seq<Rec>)
    requires CanRename(slots, disk, a, oldid, b, t, from, to) && Distinct(slots)
    ensures var h := Moving(g, slots[a], oldid);
            && HasMove(h) && MoveAt(slots, h, a) && MoveElsewhere(slots, h, b)
            && MoveId(h) as int == oldid && (Countable(g) ==> Countable(h))
            && MoveOf(h) != ZERO && h.pair == slots[a].seen[0].pair
  {
    hide HasMove, MoveId, Countable, PrepMove, MoveOf;
    var h := Moving(g, slots[a], oldid);
    PrepMoveSets(g, MoveFrom(Bv10(oldid), slots[a].seen[0].pair));
    PrepMoveIsMove(g, MoveFrom(Bv10(oldid), slots[a].seen[0].pair));
    assert MoveAt(slots, h, a);
    MoveOfTells(h);
    ZeroMoves();
  }

  lemma ZeroMoves()
    ensures !HasMove(ZERO) && MoveOf(ZERO) == ZERO
  {}

  // With the new entry and the move the directories are renamed.
  lemma StartShows(slots: seq<Slot>, disk: G, g: G, a: nat, oldid: nat, b: nat, t: Target, from: seq<Rec>, to: seq<Rec>)
    requires CanRename(slots, disk, a, oldid, b, t, from, to) && Distinct(slots) && MoveAt(slots, g, a)
             && MoveId(g) as int == oldid
    ensures t.id <= |Base(slots[b].seen[0].entries, t)| && t.id <= |Base(View(slots, disk)[b], t)|
    ensures View(Wanted(slots, b, ReplayItems(Lift(to) + Attrs(t, from, oldid, None))), g) ==
            Renamed(View(slots, disk), a, oldid, b, t, from)
  {
    hide HasMove, MoveId, View, All, ReplayItems, NewEntry, Insert, Base, Remove, Overlap, Distinct;
    var s := ReplayItems(Lift(to) + Attrs(t, from, oldid, None));
    var want := Wanted(slots, b, s);
    BaseThere(slots, disk, a, oldid, b, t, from, to);
    BaseLength(slots[b].seen[0].entries, t);
    LiftReplay(to);
    RenameMeaning(Lift(to), t, from, oldid, None);
    PlainOne(slots, disk, a);
    PlainOne(slots, disk, b);
    assert want[b].seen[0].pair == slots[b].seen[0].pair;
    SetDistinct(slots, b, want[b]);
    assert MoveAt(want, g, a);
    forall j | 0 <= j < |slots| ensures View(want, g)[j] == Renamed(View(slots, disk), a, oldid, b, t, from)[j] {
      ViewWithMove(want, g, a, j);
      ViewWithout(slots, disk, j);
      if j == b { AllTwo(want[b].seen[0], want[b].seen[0]); }
    }
  }

  lemma MoveSomewhere(slots: seq<Slot>, g: G)
    requires HasMove(g) && MoveIsThere(slots, g)
    ensures exists a :: 0 <= a < |slots| && MoveAt(slots, g, a)
  {}

  // With the old entry deleted and no move they still are.
  lemma FinishShows(slots: seq<Slot>, disk: G, g: G, a: nat)
    requires Distinct(slots) && MoveAt(slots, disk, a) && !HasMove(g)
    ensures View(Wanted(slots, a, ApplyItem(slots[a].seen[0].entries, DeleteAttr(MoveId(disk) as int))), g) ==
            View(slots, disk)
    ensures MoveElsewhere(slots, g, a)
  {
    hide HasMove, MoveId, View, All, Remove, Overlap, ApplyItem;
    var s := ApplyItem(slots[a].seen[0].entries, DeleteAttr(MoveId(disk) as int));
    DeleteStep(slots[a].seen[0].entries, MoveId(disk) as int);
    forall j | 0 <= j < |slots| ensures View(Wanted(slots, a, s), g)[j] == View(slots, disk)[j] {
      ViewWithMove(slots, disk, a, j);
      ViewWithout(Wanted(slots, a, s), g, j);
      if j == a { AllTwo(Wanted(slots, a, s)[a].seen[0], Wanted(slots, a, s)[a].seen[0]); }
    }
  }

  lemma NoMoveLeft(g: G, h: G)
    requires !HasMove(h) && (HasMove(g) ==> MoveOf(g) == MoveOf(h))
    ensures !HasMove(g)
  {
    hide HasMove, MoveOf;
    if HasMove(g) { SameMove(g, h); }
  }

  lemma NothingMoved(slots: seq<Slot>, g: G, h: G)
    requires !HasMove(g) && !HasMove(h)
    ensures View(slots, g) == View(slots, h)
  {
    hide HasMove, View, All;
    forall j | 0 <= j < |slots| ensures View(slots, g)[j] == View(slots, h)[j] {
      ViewWithout(slots, g, j);
      ViewWithout(slots, h, j);
    }
  }

  lemma FilledAt(slots: seq<Slot>, i: nat)
    requires AllFilled(slots) && i < |slots| && !slots[i].Whole()
    ensures slots[i].linked != [] && slots[i].seen != [] && Stored(slots[i].seen)
            && Fold(slots[i].linked) == Fold(slots[i].seen)
  {
    assert Filled(slots[i]);
  }

  lemma AllButOne(slots: seq<Slot>, i: nat)
    requires AllFilled(slots)
    ensures FilledBut(slots, i)
  {
    hide Filled;
  }

  class World {
    const fs: Fs
    var slots: seq<Slot>

    constructor (fs: Fs, slots: seq<Slot>)
      ensures this.fs == fs && this.slots == slots
    {
      this.fs, this.slots := fs, slots;
    }

    ghost predicate Valid()
      reads this, fs
    {
      && fs.Quiet() && Countable(fs.gstate) && MoveOf(fs.gstate) == MoveOf(fs.gdisk)
      && fs.list == Flat(slots) && Distinct(slots) && AllFilled(slots)
      && MoveIsThere(slots, fs.gdisk) && (HasMove(fs.gdisk) || MoveOf(fs.gdisk) == ZERO)
    }

    // What memory takes for the state on disk is what the deltas add up to.
    lemma OnDisk()
      requires Valid()
      ensures MoveOf(Fold(fs.list)) == MoveOf(fs.gdisk) && View(slots, Fold(fs.list)) == View(slots, fs.gdisk)
      ensures HasMove(Fold(fs.list)) <==> HasMove(fs.gdisk)
    {
      hide Fold, Mask, Xor, MoveOf, HasMove, View;
      XorLaws(Mask(fs.gdisk), ZERO);
      MoveOfMask(fs.gdisk);
      SameShown(slots, Fold(fs.list), fs.gdisk);
      SameMove(Fold(fs.list), fs.gdisk);
    }

    lemma At(i: nat)
      requires fs.list == Flat(slots) && i < |slots| && slots[i].Single()
      ensures Offset(slots, i) < |fs.list| && fs.list[Offset(slots, i)] == slots[i].linked[0]
      ensures fs.list == Flat(slots[..i]) + slots[i].linked + Flat(slots[i + 1..])
    {
      hide Flat;
      FlatSet(slots, i, slots[i]);
    }

    // lfs_dir_relocatingcommit to slot i that stays in place, split or not
    method WriteThrough(i: nat, s: seq<Entry>, g: G, o: Outcome, w: Way)
      requires Valid() && i < |slots| && slots[i].Single() && Fresh(slots, i, w) && o.InPlace()
      requires Countable(g) && MoveElsewhere(slots, g, i) && (HasMove(g) || MoveOf(g) == ZERO)
      modifies this, fs
      ensures Valid() && fs.gdisk == g && View(slots, g) == View(Wanted(old(slots), i, s), g)
    {
      hide Fold, Mask, Xor, MoveOf, HasMove, View, Flat, Wrote, Distinct, Countable, MoveId, MoveElsewhere, MoveIsThere;
      hide AllFilled, Fresh, Overlap;
      At(i);
      var at := |Flat(slots[..i])|;
      assert fs.list[at + 1..at + 1] == [];
      XorLaws(ZERO, ZERO);
      FoldOne(fs.list[at]);
      fs.SetState(g);
      var ds := fs.Commit(at, 1, EditOf(s, w, o), [], o);
      WroteShows(slots, i, ds, ds, s, g, w, o);
      FlatSet(slots, i, Slot(ds, ds));
      SetFilled(slots, i, Slot(ds, ds));
      ElsewhereThere(slots[i := Slot(ds, ds)], g, i);
      slots := slots[i := Slot(ds, ds)];
    }

    // Written elsewhere, and power is lost: nothing happened.
    method WriteCut(i: nat, s: seq<Entry>, g: G, o: Outcome, w: Way)
      requires Valid() && i < |slots| && slots[i].Single() && !o.InPlace()
      modifies this, fs
      ensures Valid() && slots == old(slots) && fs.list == old(fs.list) && MoveOf(fs.gdisk) == old(MoveOf(fs.gdisk))
      ensures fs.gstate == fs.gdisk == Mounted(Fold(fs.list))
    {
      hide Fold, Mask, Xor, MoveOf, HasMove, View, Flat, Distinct, Countable, Mounted;
      At(i);
      var at := |Flat(slots[..i])|;
      assert fs.list[at + 1..at + 1] == [];
      ghost var disk := fs.gdisk;
      fs.SetState(g);
      ghost var told := fs.CommitAndCrash(at, 1, EditOf(s, w, o), [], o);
      Remounted(disk);
    }

    // After a power loss the mount finds the move that is on disk.
    lemma Remounted(disk: G)
      requires fs.Quiet() && Mask(fs.gdisk) == Mask(disk) && fs.gdisk == Mounted(Fold(fs.list))
      ensures MoveOf(fs.gdisk) == MoveOf(disk) && Countable(fs.gdisk)
      ensures MoveIsThere(slots, disk) ==> MoveIsThere(slots, fs.gdisk)
      ensures HasMove(disk) <==> HasMove(fs.gdisk)
    {
      hide Fold, Mask, MoveOf, HasMove, Countable, Mounted, Xor;
      FoldStored(fs.list);
      MountedCountable(Fold(fs.list));
      MoveOfMask(disk);
      MoveOfMask(fs.gdisk);
      SameShown(slots, disk, fs.gdisk);
      SameMove(disk, fs.gdisk);
    }

    method CrashAndMount()
      requires Valid()
      modifies this, fs
      ensures Valid() && slots == old(slots) && fs.list == old(fs.list) && MoveOf(fs.gdisk) == old(MoveOf(fs.gdisk))
    {
      hide Fold, Mask, Xor, MoveOf, HasMove, View, Flat, Distinct, Countable, Mounted;
      ghost var disk := fs.gdisk;
      fs.CrashAndMount();
      Remounted(disk);
    }

    // Power is lost when the parent names the pairs that slot i was written to
    // and the list does not link them.
    method Behind(i: nat, s: seq<Entry>, g: G, o: Outcome, w: Way, p: ParentAt) returns (news: seq<Mdir>, e: Mdir)
      requires Valid() && i < |slots| && slots[i].Single() && Fresh(slots, i, w) && !o.InPlace()
      requires Countable(g) && MoveElsewhere(slots, g, i) && NamesIt(slots, i, g, p)
      requires HasMove(fs.gdisk) ==> MoveAt(slots, fs.gdisk, i) && !HasMove(g)
      modifies this, fs
      ensures fs.Quiet() && fs.gstate == fs.gdisk && Countable(fs.gdisk) && fs.list == Flat(slots)
              && |slots| == |old(slots)|
      ensures Has(old(slots)[i := Slot(old(slots)[i].linked, news)], p.slot, p.part)
              && slots == Put(old(slots)[i := Slot(old(slots)[i].linked, news)], p.slot, p.part, e)
              && Distinct(slots) && (!o.Unlinked() ==> AllFilled(slots))
      ensures var d := old(slots)[p.slot].seen[p.part];
              && e.pair == d.pair && MoveOf(fs.gdisk) ==
                 Xor(MoveOf(MoveDone(g, d.pair)), if o.Unlinked() then Xor(MoveOf(g), MoveOf(old(fs.gdisk))) else ZERO)
              && e.entries == Repointed(d.entries, if o.Unlinked() then g else old(fs.gdisk), g, d.pair,
                                        Naming(Offset(old(slots), p.slot) + p.part, p.id, p.to, p.append))
      ensures Wrote(news, w.second, EditOf(s, w, o), o)
      ensures var pair := old(slots)[p.slot].seen[p.part].pair;
              Told(old(slots), g, o, p) ==>
                && Alike(View(slots, MoveDone(g, pair)), View(Wanted(old(slots), i, s), g))
                && MoveIsThere(slots, MoveDone(g, pair))
    {
      hide Fold, Mask, Xor, MoveOf, HasMove, View, Flat, Wrote, Distinct, Countable, MoveId, Mounted, MoveDone;
      hide Repointed, PrepOrphans;
      hide Alike, MoveElsewhere, MoveIsThere, Told, AllFilled, EditOf, Fresh, MoveAt, Overlap;
      ghost var was, disk, d := slots, fs.gdisk, slots[p.slot].seen[p.part];
      At(i);
      var at := Offset(slots, p.slot) + p.part;
      OffsetApart(slots, i, p.slot, p.part);
      FlatPut(slots, p.slot, p.part, slots[p.slot].seen[p.part]);
      fs.SetState(g);
      ghost var told;
      news, told := fs.BehindParent(Offset(slots, i), EditOf(s, w, o), o, Naming(at, p.id, p.to, p.append));
      e := fs.list[at];
      BehindState(told, fs.gdisk, g, disk, d.pair, o);
      FoldStored(fs.list);
      MountedCountable(Fold(fs.list));
      assert was[i].linked == [was[i].linked[0]];
      BehindShows(was, i, s, g, disk, o, w, p, news, e);
      slots := Put(slots[i := Slot(slots[i].linked, news)], p.slot, p.part, e);
    }

    // lfs_dir_relocatingcommit to slot i, cut behind the commit to the parent
    method WriteBehind(i: nat, s: seq<Entry>, g: G, o: Outcome, w: Way, p: ParentAt)
      requires Valid() && i < |slots| && slots[i].Single() && Fresh(slots, i, w) && !o.InPlace() && !o.Unlinked()
      requires Countable(g) && MoveElsewhere(slots, g, i) && NamesIt(slots, i, g, p)
               && (HasMove(g) || MoveOf(g) == ZERO)
      requires HasMove(fs.gdisk) ==> MoveAt(slots, fs.gdisk, i) && !HasMove(g)
      modifies this, fs
      ensures Valid() && Alike(View(slots, fs.gdisk), View(Wanted(old(slots), i, s), g))
      ensures HasMove(fs.gdisk) ==> MoveOf(fs.gdisk) == MoveOf(g)
    {
      hide Fold, Mask, Xor, MoveOf, HasMove, View, Flat, Wrote, Distinct, Countable, MoveId, MoveDone, Repointed;
      hide Alike, NamesIt, MoveElsewhere, MoveIsThere, AllFilled, MoveAt, Fresh;
      ghost var pair := NamedPair(slots, i, g, p);
      var _, _ := Behind(i, s, g, o, w, p);
      XorLaws(MoveOf(MoveDone(g, pair)), ZERO);
      SameShown(slots, fs.gdisk, MoveDone(g, pair));
      SameMove(fs.gdisk, MoveDone(g, pair));
      MoveDoneClean(g, pair);
    }

    // a commit is under way: slot i is written elsewhere, and not linked
    ghost predicate UnderWay(i: nat)
      reads this, fs
    {
      && fs.Inv() && fs.gdelta == ZERO && fs.list == Flat(slots) && i < |slots|
      && slots[i].seen != [] && |slots[i].linked| == 1
      && fs.pending == Some(Pending(Offset(slots, i), 1, slots[i].seen))
      && Countable(fs.gstate) && Distinct(slots) && FilledBut(slots, i) && MoveIsThere(slots, fs.gstate)
      && (HasMove(fs.gstate) || MoveOf(fs.gstate) == ZERO)
    }

    method WriteElsewhere(i: nat, s: seq<Entry>, g: G, o: Outcome, w: Way)
      requires Valid() && i < |slots| && slots[i].Single() && Fresh(slots, i, w) && !o.InPlace()
      requires Countable(g) && MoveElsewhere(slots, g, i) && (HasMove(g) || MoveOf(g) == ZERO)
      modifies this, fs
      ensures UnderWay(i) && fs.gstate == g && fs.gdisk == (if o.Unlinked() then g else old(fs.gdisk))
      ensures slots == old(slots)[i := slots[i]] && View(slots, g) == View(Wanted(old(slots), i, s), g)
    {
      hide Fold, Mask, Xor, MoveOf, HasMove, View, Flat, Wrote, Distinct, Countable, MoveId, MoveElsewhere, MoveIsThere;
      At(i);
      var at := Offset(slots, i);
      assert fs.list[at + 1..at + 1] == [];
      XorLaws(ZERO, ZERO);
      FoldOne(fs.list[at]);
      fs.SetState(g);
      var news := fs.Commit(at, 1, EditOf(s, w, o), [], o);
      assert news + [] == news;
      WroteShows(slots, i, slots[i].linked, news, s, g, w, o);
      WroteAll(news, w.second, EditOf(s, w, o), o);
      SameLinked(slots, i, Slot(slots[i].linked, news), i);
      slots := slots[i := Slot(slots[i].linked, news)];
      ElsewhereThere(slots, g, i);
    }

    method NameParent(i: nat, p: ParentAt)
      requires UnderWay(i) && NamesIt(slots, i, fs.gstate, p)
      requires var pair := slots[p.slot].seen[p.part].pair;
               ToldId(fs.gdisk, fs.gstate, pair, p.id) == Uncounted(fs.gstate, pair, p.id)
      modifies this, fs
      ensures UnderWay(i) && |slots| == |old(slots)| && slots[i] == old(slots[i])
      ensures forall j :: 0 <= j < |slots| && old(slots)[j].Whole() ==> slots[j].Whole()
      ensures Alike(View(slots, fs.gstate), old(View(slots, fs.gstate)))
      ensures HasMove(fs.gstate) ==> fs.gstate == old(fs.gstate)
    {
      hide Fold, Mask, Xor, MoveOf, HasMove, View, Flat, Distinct, Countable, MoveId, MoveIsThere, MoveDone, Repointed;
      hide Overlap;
      hide BesideOk, ToldId, Uncounted, FilledBut, Alike;
      ghost var was, g, d := slots, fs.gstate, slots[p.slot].seen[p.part];
      var at := Offset(slots, p.slot) + p.part;
      OffsetApart(slots, i, p.slot, p.part);
      FlatPut(slots, p.slot, p.part, slots[p.slot].seen[p.part]);
      ghost var disk := fs.gdisk;
      fs.CommitToParent(Naming(at, p.id, p.to, p.append));
      var e := fs.list[at];
      BesideTold(d, e, g, disk, Naming(at, p.id, p.to, p.append));
      BesideKeeps(slots, g, p.slot, p.part, e, Some(p.id), p.to);
      FlatPut(slots, p.slot, p.part, e);
      PutOffset(slots, p.slot, p.part, e, i);
      PutFilledBut(slots, i, p.slot, p.part, e);
      MoveDoneClean(g, d.pair);
      slots := Put(slots, p.slot, p.part, e);
    }

    method LinkUp(i: nat, append: bool)
      requires UnderWay(i) && 0 < i && slots[i - 1].Whole()
      modifies this, fs
      ensures Valid() && fs.gdisk == fs.gstate && Alike(View(slots, fs.gdisk), old(View(slots, fs.gstate)))
      ensures HasMove(fs.gstate) ==> fs.gstate == old(fs.gstate)
    {
      hide Fold, Mask, Xor, MoveOf, HasMove, View, Flat, Distinct, Countable, MoveId, MoveIsThere, MoveDone, Unmoved;
      hide Overlap;
      hide BesideOk, FilledBut, AllFilled, Alike, Wrote;
      ghost var g := fs.gstate;
      var k := |slots[i - 1].linked| - 1;
      FlatLinked(slots, i, slots[i].seen, slots[i - 1].linked[k]);
      FlatPut(slots, i - 1, k, slots[i - 1].linked[k]);
      ghost var d := slots[i - 1].linked[k];
      var o, w := if append then Appended else Compacted, Way(0, NO_PAIR, NO_PAIR);
      MoveStaysDone(g, g, d.pair);
      var ds := fs.Link(w, o);
      OneWritten(ds, d, g, w, o);
      var e := ds[0];
      SamePair(d, e, g, None, []);
      LinkedUp(slots, i, g, e);
      slots := Put(slots, i - 1, k, e)[i := Slot(slots[i].seen, slots[i].seen)];
    }

    // the whole of lfs_dir_orphaningcommit for a commit that moves slot i
    method WriteLinked(i: nat, s: seq<Entry>, g: G, o: Outcome, w: Way, named: Option<ParentAt>, append: bool)
      requires Valid() && Allowed(slots, i, g, Linked(o, w, named, append))
      requires Countable(g) && MoveElsewhere(slots, g, i) && (HasMove(g) || MoveOf(g) == ZERO)
      requires HasMove(fs.gdisk) ==> MoveAt(slots, fs.gdisk, i) && !HasMove(g)
      modifies this, fs
      ensures Valid() && Alike(View(slots, fs.gdisk), View(Wanted(old(slots), i, s), g))
      ensures HasMove(fs.gdisk) ==> MoveOf(fs.gdisk) == MoveOf(g)
    {
      hide Fold, Mask, Xor, MoveOf, HasMove, View, Flat, Distinct, Countable, MoveId, MoveElsewhere, MoveIsThere;
      hide Overlap;
      hide Alike, ToldId, Uncounted, NamesIt, Told, MoveAt, Fresh;
      ghost var disk, was := fs.gdisk, slots;
      WriteElsewhere(i, s, g, o, w);
      ghost var v := View(slots, g);
      AlikeSelf(v);
      if named.Some? {
        ToldHere(was, i, g, disk, o, named.value);
        StillNames(was, i, slots[i], g, named.value);
        NameParent(i, named.value);
      }
      ghost var u := View(slots, fs.gstate);
      LinkUp(i, append);
      AlikeTrans(View(slots, fs.gdisk), u, v);
    }

    // One commit of the protocol, however it goes.
    method Write(i: nat, s: seq<Entry>, g: G, how: How)
      requires Valid() && Allowed(slots, i, g, how)
      requires Countable(g) && MoveElsewhere(slots, g, i) && (HasMove(g) || MoveOf(g) == ZERO)
      requires HasMove(fs.gdisk) ==> MoveAt(slots, fs.gdisk, i) && !HasMove(g)
      modifies this, fs
      ensures Valid()
      ensures how.Cut? ==> slots == old(slots) && fs.list == old(fs.list) && MoveOf(fs.gdisk) == old(MoveOf(fs.gdisk))
      ensures !how.Cut? ==> Alike(View(slots, fs.gdisk), View(Wanted(old(slots), i, s), g))
      ensures !how.Cut? && HasMove(fs.gdisk) ==> MoveOf(fs.gdisk) == MoveOf(g)
    {
      hide Fold, Mask, Xor, MoveOf, HasMove, View, Flat, Distinct, Countable, MoveId, MoveElsewhere, MoveIsThere;
      hide MoveAt, Fresh;
      hide Alike, NamesIt, Told;
      match how {
        case Through(o, w) =>
          WriteThrough(i, s, g, o, w);
          AlikeSelf(View(slots, g));
        case Cut(o, w) =>
          WriteCut(i, s, g, o, w);
        case CutBehindParent(o, w, p) =>
          WriteBehind(i, s, g, o, w, p);
        case Linked(o, w, named, append) =>
          WriteLinked(i, s, g, o, w, named, append);
      }
    }

    // The first commit of a rename, to the directory of the new name.
    method Start(a: nat, oldid: nat, b: nat, t: Target, from: seq<Rec>, to: seq<Rec>, how: How)
      requires Valid() && CanRename(slots, fs.gdisk, a, oldid, b, t, from, to)
      requires Allowed(slots, b, Moving(fs.gstate, slots[a], oldid), how)
      modifies this, fs
      ensures Valid()
      ensures how.Cut? ==> slots == old(slots) && fs.list == old(fs.list) && !HasMove(fs.gdisk)
      ensures !how.Cut? ==>
                t.id <= |Base(old(slots)[b].seen[0].entries, t)|
                && t.id <= |Base(View(old(slots), old(fs.gdisk))[b], t)|
                && Alike(View(slots, fs.gdisk), Renamed(View(old(slots), old(fs.gdisk)), a, oldid, b, t, from))
      ensures HasMove(fs.gdisk) ==> MoveOf(fs.gdisk) == MoveOf(old(Moving(fs.gstate, slots[a], oldid)))
    {
      hide Fold, Mask, Xor, MoveOf, HasMove, View, Flat, Distinct, Countable, MoveId, MoveElsewhere, MoveIsThere;
      hide MoveAt;
      hide Alike, Allowed, ReplayItems, NewEntry, Insert, Base, PrepMove, Renamed;
      ghost var was, disk, g := slots, fs.gdisk, Moving(fs.gstate, slots[a], oldid);
      var s := ReplayItems(Lift(to) + Attrs(t, from, oldid, None));
      MovingMoves(was, disk, fs.gstate, a, oldid, b, t, from, to);
      StartShows(was, disk, g, a, oldid, b, t, from, to);
      Write(b, s, Moving(fs.gstate, slots[a], oldid), how);
      if how.Cut? { SameMove(fs.gdisk, disk); }
    }

    // The commit that takes the old entry out: the second one of a rename, and
    // lfs_fs_demove.
    method Finish(how: How)
      requires Valid() && CanFinish(slots, fs.gstate, fs.gdisk, how)
      modifies this, fs
      ensures Valid() && Alike(View(slots, fs.gdisk), old(View(slots, fs.gdisk)))
      ensures !how.Cut? || !old(HasMove(fs.gdisk)) ==> !HasMove(fs.gdisk)
      ensures how.Cut? || !old(HasMove(fs.gdisk)) ==> slots == old(slots) && fs.list == old(fs.list)
    {
      hide Fold, Mask, Xor, MoveOf, HasMove, View, Flat, Distinct, Countable, MoveId, MoveElsewhere, MoveIsThere;
      hide Alike, Allowed, ApplyItem, PrepMove;
      AlikeSelf(View(slots, fs.gdisk));
      if !HasMove(fs.gdisk) {
        return;
      }
      MoveSomewhere(slots, fs.gdisk);
      var a :| 0 <= a < |slots| && MoveAt(slots, fs.gdisk, a);
      ghost var was, disk := slots, fs.gdisk;
      var g, s := PrepMove(fs.gstate, NoMove), ApplyItem(slots[a].seen[0].entries, DeleteAttr(MoveId(fs.gdisk) as int));
      PrepMoveSets(fs.gstate, NoMove);
      PrepMoveIsMove(fs.gstate, NoMove);
      FinishShows(slots, disk, g, a);
      Write(a, s, g, how);
      if how.Cut? {
        SameShown(slots, disk, fs.gdisk);
      } else {
        NoMoveLeft(fs.gdisk, g);
      }
    }

    // The pass of lfs_fs_deorphan that links what a parent names: slot i.
    method Relink(i: nat, append: bool)
      requires Valid() && 0 < i < |slots| && slots[i - 1].Whole()
      modifies this, fs
      ensures Valid() && Alike(View(slots, fs.gdisk), old(View(slots, fs.gdisk))) && slots[i].Whole()
      ensures !old(HasMove(fs.gdisk)) ==> !HasMove(fs.gdisk)
    {
      hide Fold, Mask, Xor, MoveOf, HasMove, View, Flat, Distinct, Countable, MoveId, MoveIsThere, MoveDone, Unmoved;
      hide Overlap, BesideOk, AllFilled, FilledBut, Alike, Wrote, EditOf, Stored, SameOrDone;
      AlikeSelf(View(slots, fs.gdisk));
      if slots[i].Whole() {
        return;
      }
      ghost var g := fs.gstate;
      var k, n, at := |slots[i - 1].linked| - 1, |slots[i].linked|, Offset(slots, i);
      var d := slots[i - 1].linked[k];
      FlatLinked(slots, i, slots[i].seen, d);
      FlatPut(slots, i - 1, k, d);
      FilledAt(slots, i);
      XorLaws(Fold(slots[i].seen), ZERO);
      XorLaws(ZERO, ZERO);
      SameShown(slots, fs.gstate, fs.gdisk);
      SameMove(fs.gstate, fs.gdisk);
      var o, w := if append then Appended else Compacted, Way(0, NO_PAIR, NO_PAIR);
      MoveStaysDone(g, g, d.pair);
      var s := Unmoved(d.entries, fs.gstate, d.pair);
      fs.SetState(MoveDone(fs.gstate, d.pair));
      assert fs.list[at - 1 + 1..at - 1 + (n + 1)] == slots[i].linked;
      var ds := fs.Commit(at - 1, n + 1, EditOf(s, w, o), slots[i].seen, o);
      OneWritten(ds, d, g, w, o);
      var e := ds[0];
      AllButOne(slots, i);
      SamePair(d, e, g, None, []);
      LinkedUp(slots, i, g, e);
      slots := Put(slots, i - 1, k, e)[i := Slot(slots[i].seen, slots[i].seen)];
    }

    // A rename to another directory, and then any sequence of power losses and
    // recoveries. The first commit may be missing, go through in place or by
    // relocation, or be cut, also behind the commit to a parent; so may those of
    // the recoveries, of which `done` happen, up to the first one that is not
    // covered. What is on disk amounts to the state before the rename or the one
    // after it and nothing else; once a recovery has gone through no move is left.
    method RenameAcross(a: nat, oldid: nat, b: nat, t: Target, from: seq<Rec>, to: seq<Rec>, first: Option<How>,
                        events: seq<Event>) returns (done: nat)
      requires Valid() && CanRename(slots, fs.gdisk, a, oldid, b, t, from, to)
      requires first.Some? ==> Allowed(slots, b, Moving(fs.gstate, slots[a], oldid), first.value)
      modifies this, fs
      ensures Valid() && done <= |events| && (done < |events| ==> !CanHappen(slots, fs.gstate, fs.gdisk, events[done]))
      ensures var v := View(old(slots), Fold(old(fs.list)));
              && t.id <= |Base(v[b], t)|
              && Alike(View(slots, Fold(fs.list)),
                       if first.Some? && !first.value.Cut? then Renamed(v, a, oldid, b, t, from) else v)
      ensures (exists k :: 0 <= k < done && Mends(events[k])) ==> !HasMove(Fold(fs.list))
    {
      hide Fold, Mask, Xor, MoveOf, HasMove, View, Flat, Distinct, Countable, MoveId, MoveIsThere, MoveAt, Overlap;
      hide Alike, Allowed, CanFinish, AllFilled, Base, Renamed, Moving, Mends;
      ghost var was, disk := slots, fs.gdisk;
      OnDisk();
      BaseThere(was, disk, a, oldid, b, t, from, to);
      AlikeSelf(View(was, disk));
      if first.Some? {
        Start(a, oldid, b, t, from, to, first.value);
        if first.value.Cut? { NothingMoved(was, disk, fs.gdisk); }
      }
      ghost var v0 := View(was, disk);
      ghost var target := if first.Some? && !first.value.Cut? then Renamed(v0, a, oldid, b, t, from) else v0;
      ghost var mended := false;
      done := 0;
      while done < |events| && CanHappen(slots, fs.gstate, fs.gdisk, events[done])
        invariant Valid() && done <= |events|
        invariant Alike(View(slots, fs.gdisk), target)
        invariant (exists k :: 0 <= k < done && Mends(events[k])) ==> mended
        invariant mended ==> !HasMove(fs.gdisk)
      {
        ghost var v := View(slots, fs.gdisk);
        mended := mended || Mends(events[done]);
        Happen(events[done]);
        AlikeTrans(View(slots, fs.gdisk), v, target);
        done := done + 1;
      }
      OnDisk();
    }

    method Happen(e: Event)
      requires Valid() && CanHappen(slots, fs.gstate, fs.gdisk, e)
      modifies this, fs
      ensures Valid() && Alike(View(slots, fs.gdisk), old(View(slots, fs.gdisk)))
      ensures Mends(e) || !old(HasMove(fs.gdisk)) ==> !HasMove(fs.gdisk)
    {
      hide Fold, Mask, Xor, MoveOf, HasMove, View, Flat, Distinct, Countable, MoveId, MoveIsThere, MoveAt, Overlap;
      hide Alike, CanFinish, AllFilled;
      match e {
        case PowerLoss =>
          ghost var disk := fs.gdisk;
          AlikeSelf(View(slots, disk));
          CrashAndMount();
          SameShown(slots, disk, fs.gdisk);
          SameMove(disk, fs.gdisk);
        case Recovery(how) =>
          Finish(how);
        case Relinking(i, append) =>
          Relink(i, append);
      }
    }

    // The first commit of a rename is written elsewhere, and power is lost when
    // the parent names the new pairs: for every outcome, what is on disk then.
    // It is the renamed file system if and only if the commit did not take the
    // state into a pair that is not linked, or the old entry is the last one of
    // the very directory that was the parent. Otherwise both names are there or,
    // where the parent was the directory moved from, another entry is hidden.
    method StartBehindParent(a: nat, oldid: nat, b: nat, t: Target, from: seq<Rec>, to: seq<Rec>, o: Outcome, w: Way,
                             p: ParentAt)
      requires Valid() && CanRename(slots, fs.gdisk, a, oldid, b, t, from, to) && Fresh(slots, b, w) && !o.InPlace()
      requires NamesIt(slots, b, Moving(fs.gstate, slots[a], oldid), p)
      modifies this, fs
      ensures fs.Quiet() && fs.gstate == fs.gdisk && fs.list == Flat(slots) && |slots| == |old(slots)|
      ensures MoveOf(Fold(fs.list)) == MoveOf(fs.gdisk)
      ensures HasMove(fs.gstate) <==> (o.Unlinked() <==> p.slot == a)
      ensures t.id <= |Base(View(old(slots), old(fs.gdisk))[b], t)|
      ensures Alike(View(slots, Fold(fs.list)), Renamed(View(old(slots), old(fs.gdisk)), a, oldid, b, t, from)) <==>
                !o.Unlinked() || (p.slot == a && oldid + 1 == |old(slots)[a].seen[0].entries|)
      ensures o.Unlinked() && p.slot != a ==>
                Alike(View(slots, Fold(fs.list)), Added(View(old(slots), old(fs.gdisk)), oldid, b, t, from))
      ensures o.Unlinked() && p.slot == a && oldid + 1 < |old(slots)[a].seen[0].entries| ==>
                |View(slots, Fold(fs.list))[a]| == |old(slots)[a].seen[0].entries| - 2
    {
      hide Fold, Mask, Xor, MoveOf, HasMove, View, Flat, Distinct, Countable, MoveId, MoveElsewhere, MoveIsThere;
      hide MoveAt, Wrote;
      hide Alike, ReplayItems, NewEntry, Insert, Base, PrepMove, Renamed, Moving, AllFilled, Repointed, MoveDone;
      hide NamesIt, Fresh;
      hide Added, Put, EditOf;
      ghost var was, disk, g := slots, fs.gdisk, Moving(fs.gstate, slots[a], oldid);
      var s := ReplayItems(Lift(to) + Attrs(t, from, oldid, None));
      MovingMoves(was, disk, fs.gstate, a, oldid, b, t, from, to);
      StartShows(was, disk, g, a, oldid, b, t, from, to);
      var news, e := Behind(b, s, Moving(fs.gstate, slots[a], oldid), o, w, p);
      StateBehind(was, a, b, g, disk, fs.gdisk, o, p);
      FoldIsDisk();
      SameShown(slots, Fold(fs.list), fs.gdisk);
      ghost var pair := NamedPair(was, b, g, p);
      NotDone(g, pair);
      if !o.Unlinked() {
        XorLaws(MoveOf(MoveDone(g, pair)), ZERO);
        SameShown(slots, fs.gdisk, MoveDone(g, pair));
      } else if p.slot != a {
        TwiceNamed(was, slots, a, oldid, b, t, from, s, g, disk, fs.gdisk, p, news, e);
      } else {
        MovedTwice(was, slots, a, oldid, b, t, from, s, g, disk, fs.gdisk, p, news, e,
                   Naming(Offset(was, p.slot) + p.part, p.id, p.to, p.append));
      }
    }

    // The same for the commit that takes the old entry out. Where the state went
    // into an unlinked pair the move is still there, and the parent leads to
    // entries that are done with it: they are shown as they are unless the new
    // pair has a block of the old one and one of them has the id of the move.
    method FinishBehindParent(a: nat, o: Outcome, w: Way, p: ParentAt)
      requires Valid() && a < |slots| && MoveAt(slots, fs.gdisk, a) && Fresh(slots, a, w) && !o.InPlace()
      requires NamesIt(slots, a, PrepMove(fs.gstate, NoMove), p) && !Overlap(fs.gdisk.pair, w.first)
      modifies this, fs
      ensures fs.Quiet() && fs.gstate == fs.gdisk && fs.list == Flat(slots) && |slots| == |old(slots)|
      ensures MoveOf(Fold(fs.list)) == MoveOf(fs.gdisk) == if o.Unlinked() then MoveOf(old(fs.gdisk)) else ZERO
      ensures var s := Remove(old(slots)[a].seen[0].entries, MoveId(old(fs.gdisk)) as int);
              Alike(View(slots, Fold(fs.list)), old(View(slots, fs.gdisk))) <==>
                || !o.Unlinked() || !Overlap(old(fs.gdisk).pair, w.second)
                || |EditOf(s, w, o).entries| <= MoveId(old(fs.gdisk)) as int
    {
      hide Fold, Mask, Xor, MoveOf, HasMove, View, Flat, Distinct, Countable, MoveId, MoveElsewhere, MoveIsThere, Wrote;
      hide Alike, PrepMove, AllFilled, Repointed, MoveDone, NamesIt, Fresh, Put, EditOf, Overlap, ApplyItem, Remove, MoveAt;
      ghost var was, disk := slots, fs.gdisk;
      DoneEntries(was, disk, a);
      var g, s := PrepMove(fs.gstate, NoMove), ApplyItem(slots[a].seen[0].entries, DeleteAttr(MoveId(fs.gdisk) as int));
      PrepMoveSets(fs.gstate, NoMove);
      PrepMoveIsMove(fs.gstate, NoMove);
      FinishShows(slots, disk, g, a);
      ghost var pair := NamedPair(was, a, g, p);
      NotDone(g, pair);
      var news, e := Behind(a, s, g, o, w, p);
      XorLaws(ZERO, MoveOf(disk));
      XorLaws(MoveOf(disk), ZERO);
      XorLaws(ZERO, ZERO);
      FoldIsDisk();
      SameShown(slots, Fold(fs.list), fs.gdisk);
      if !o.Unlinked() {
        SameShown(slots, fs.gdisk, g);
      } else {
        MoveStays(was, slots, a, s, g, disk, fs.gdisk, o, w, p, news, e);
      }
    }

    lemma FoldIsDisk()
      requires fs.Quiet()
      ensures MoveOf(Fold(fs.list)) == MoveOf(fs.gdisk)
    {
      hide Fold, Mask, Xor, MoveOf;
      XorLaws(Mask(fs.gdisk), ZERO);
      MoveOfMask(fs.gdisk);
    }
  }

  // ----- power lost behind the commit to the parent -----

  // The move that is on disk then: the new state has it unless the parent is
  // where it moves from, and a state that went into an unlinked pair is missing.
  lemma StateBehind(slots: seq<Slot>, a: nat, b: nat, g: G, disk: G, now: G, o: Outcome, p: ParentAt)
    requires Distinct(slots) && MoveAt(slots, g, a) && a != b && NamesIt(slots, b, g, p) && MoveOf(disk) == ZERO
    requires MoveOf(now) == Xor(MoveOf(MoveDone(g, slots[p.slot].seen[p.part].pair)),
                                if o.Unlinked() then Xor(MoveOf(g), MoveOf(disk)) else ZERO)
    ensures MoveOf(now) == if o.Unlinked() <==> p.slot == a then MoveOf(g) else ZERO
    ensures HasMove(now) <==> (o.Unlinked() <==> p.slot == a)
    ensures HasMoveHere(g, slots[p.slot].seen[p.part].pair) <==> p.slot == a
  {
    hide HasMove, MoveId, Overlap, MoveOf, Xor, PrepMove, View, Remove;
    var pair := slots[p.slot].seen[p.part].pair;
    ViewWithMove(slots, g, a, p.slot);
    PrepMoveIsMove(g, NoMove);
    XorLaws(MoveOf(g), ZERO);
    XorLaws(ZERO, MoveOf(g));
    XorLaws(MoveOf(g), MoveOf(g));
    XorLaws(ZERO, ZERO);
    ZeroMoves();
    if o.Unlinked() <==> p.slot == a { SameMove(now, g); } else { SameMove(now, ZERO); }
  }

  lemma AlikeLength(v: seq<seq<Entry>>, w: seq<seq<Entry>>, a: nat)
    requires a < |v| && a < |w|
    ensures Alike(v, w) ==> |v[a]| == |w[a]|
  {
    if Alike(v, w) { assert Similar(v[a], w[a]); }
  }

  lemma RenamedLength(v: seq<seq<Entry>>, a: nat, oldid: nat, b: nat, t: Target, log: seq<Rec>)
    requires a < |v| && b < |v| && t.id <= |Base(v[b], t)| && oldid < |v[a]|
    ensures |Renamed(v, a, oldid, b, t, log)[a]| == |v[a]| - 1
  {}

  // The move is not there: the old entry is shown besides the new one.
  lemma TwiceNamed(was: seq<Slot>, slots: seq<Slot>, a: nat, oldid: nat, b: nat, t: Target, from: seq<Rec>,
                   s: seq<Entry>, g: G, disk: G, now: G, p: ParentAt, news: seq<Mdir>, e: Mdir)
    requires Distinct(was) && a < |was| && b < |was| && a != b && was[a].Single() && was[b].Single()
             && oldid < |was[a].seen[0].entries|
    requires !HasMove(disk) && !HasMove(now) && MoveAt(was, g, a) && MoveId(g) as int == oldid && p.slot != a
             && p.slot != b
    requires t.id <= |Base(View(was, disk)[b], t)| && NamesIt(was, b, g, p)
    requires View(Wanted(was, b, s), g) == Renamed(View(was, disk), a, oldid, b, t, from)
    requires Has(was[b := Slot(was[b].linked, news)], p.slot, p.part)
    requires slots == Put(was[b := Slot(was[b].linked, news)], p.slot, p.part, e) && Distinct(slots)
    requires e.pair == was[p.slot].seen[p.part].pair && MoveDone(g, e.pair) == g
    requires Alike(View(slots, MoveDone(g, e.pair)), View(Wanted(was, b, s), g))
    ensures Alike(View(slots, now), Added(View(was, disk), oldid, b, t, from))
    ensures !Alike(View(slots, now), Renamed(View(was, disk), a, oldid, b, t, from))
  {
    hide HasMove, MoveId, Overlap, View, All, NewEntry, Insert, Base, Remove, Distinct, MoveDone, NamesIt, Similar;
    PlainOne(was, disk, a);
    PlainOne(slots, now, a);
    assert MoveAt(slots, g, a);
    var v := View(was, disk);
    forall j | 0 <= j < |slots| ensures Similar(View(slots, now)[j], Added(v, oldid, b, t, from)[j]) {
      if j == a {
        SimilarSelf(v[a]);
      } else {
        ViewWithMove(slots, g, a, j);
        ViewWithout(slots, now, j);
        assert Similar(View(slots, g)[j], Renamed(v, a, oldid, b, t, from)[j]);
      }
    }
    RemoveLength(v[a], oldid);
    RenamedLength(v, a, oldid, b, t, from);
    AlikeLength(View(slots, now), Renamed(v, a, oldid, b, t, from), a);
  }

  // The entry is taken out and the move is there again: another one is hidden,
  // if there is one behind it.
  lemma MovedTwice(was: seq<Slot>, slots: seq<Slot>, a: nat, oldid: nat, b: nat, t: Target, from: seq<Rec>,
                   s: seq<Entry>, g: G, disk: G, now: G, p: ParentAt, news: seq<Mdir>, e: Mdir, q: Naming)
    requires Distinct(was) && a < |was| && b < |was| && a != b && was[a].Single() && was[b].Single()
             && oldid < |was[a].seen[0].entries|
    requires !HasMove(disk) && MoveOf(now) == MoveOf(g) && MoveAt(was, g, a) && MoveId(g) as int == oldid && p.slot == a
    requires t.id <= |Base(View(was, disk)[b], t)| && NamesIt(was, b, g, p)
    requires View(Wanted(was, b, s), g) == Renamed(View(was, disk), a, oldid, b, t, from)
    requires Has(was[b := Slot(was[b].linked, news)], p.slot, p.part)
    requires slots == Put(was[b := Slot(was[b].linked, news)], p.slot, p.part, e) && Distinct(slots)
    requires e.pair == was[p.slot].seen[p.part].pair && HasMoveHere(g, e.pair)
    requires q.id == p.id && e.entries == Repointed(was[a].seen[0].entries, g, g, e.pair, q)
    requires p.id < oldid ==> Alike(View(slots, MoveDone(g, e.pair)), View(Wanted(was, b, s), g))
    ensures Alike(View(slots, now), Renamed(View(was, disk), a, oldid, b, t, from)) <==>
            oldid + 1 == |was[a].seen[0].entries|
    ensures oldid + 1 < |was[a].seen[0].entries| ==> |View(slots, now)[a]| == |was[a].seen[0].entries| - 2
  {
    hide HasMove, MoveId, Overlap, View, All, NewEntry, Insert, Base, Remove, Distinct, MoveDone, Similar, Repointed;
    hide PrepMove;
    var n, v := |was[a].seen[0].entries|, View(was, disk);
    PlainOne(was, disk, a);
    RepointedLength(was[a].seen[0].entries, g, e.pair, q);
    SameMove(now, g);
    assert slots[a].seen == [e];
    HiddenAgain(slots, a, now, e);
    RemoveLength(e.entries, oldid);
    RenamedLength(v, a, oldid, b, t, from);
    if oldid + 1 < n {
      AlikeLength(View(slots, now), Renamed(v, a, oldid, b, t, from), a);
    } else {
      var h := MoveDone(g, e.pair);
      MoveGone(g, e.pair);
      forall j | 0 <= j < |slots| ensures View(slots, now)[j] == View(slots, h)[j] {
        ViewWithout(slots, h, j);
        if j == a {
          AllTwo(e, e);
          NothingToRemove(e.entries, oldid);
        } else {
          assert Clear(slots[j], slots[a].seen[0].pair) by { DistinctAt(slots, a, 0, j); }
          ViewIs(slots, now, j);
          ShownClear(now, slots[j].seen);
        }
      }
      assert View(slots, now) == View(slots, h);
    }
  }

  lemma DoneEntries(slots: seq<Slot>, disk: G, a: nat)
    requires MoveAt(slots, disk, a)
    ensures slots[a].Single() && HasMove(disk)
    ensures ApplyItem(slots[a].seen[0].entries, DeleteAttr(MoveId(disk) as int)) ==
            Remove(slots[a].seen[0].entries, MoveId(disk) as int)
    ensures disk.pair == slots[a].seen[0].pair
  {
    hide HasMove, MoveId, Remove, ApplyItem;
    DeleteStep(slots[a].seen[0].entries, MoveId(disk) as int);
  }

  // What is written shows under a move from a pair that it may have a block of.
  lemma ShownWritten(now: G, news: seq<Mdir>, head: Pair, e: Edit, o: Outcome)
    requires Wrote(news, head, e, o) && HasMove(now) && !Overlap(now.pair, e.first)
    ensures ShownAll(now, news) ==
            (if Overlap(now.pair, head) then Remove(e.entries, MoveId(now) as int) else e.entries)
            + if o.Splits() then e.rest else []
  {
    hide HasMove, MoveId, Overlap, Remove;
    ShownOne(now, news[0]);
    if o.Splits() {
      assert news == [news[0], news[1]] && news[..1] == [news[0]];
      assert ShownAll(now, news) == ShownAll(now, [news[0]]) + Shown(now, news[1]);
    } else {
      assert news == [news[0]];
    }
  }

  lemma MoveStays(was: seq<Slot>, slots: seq<Slot>, a: nat, s: seq<Entry>, g: G, disk: G, now: G, o: Outcome, w: Way,
                  p: ParentAt, news: seq<Mdir>, e: Mdir)
    requires Distinct(was) && MoveAt(was, disk, a) && !HasMove(g) && MoveOf(now) == MoveOf(disk) && p.slot != a
    requires s == Remove(was[a].seen[0].entries, MoveId(disk) as int) && !Overlap(disk.pair, w.first)
    requires View(Wanted(was, a, s), g) == View(was, disk) && Wrote(news, w.second, EditOf(s, w, o), o)
    requires Has(was[a := Slot(was[a].linked, news)], p.slot, p.part)
    requires slots == Put(was[a := Slot(was[a].linked, news)], p.slot, p.part, e)
    requires e.pair == was[p.slot].seen[p.part].pair && Alike(View(slots, g), View(Wanted(was, a, s), g))
    ensures Alike(View(slots, now), View(was, disk)) <==>
              !Overlap(disk.pair, w.second) || |EditOf(s, w, o).entries| <= MoveId(disk) as int
  {
    hide HasMove, MoveId, Overlap, View, All, Remove, Distinct, Wrote, EditOf, MoveOf, Similar;
    SameMove(now, disk);
    var edit := EditOf(s, w, o);
    ViewWithMove(was, disk, a, a);
    WroteAll(news, w.second, edit, o);
    ShownWritten(now, news, w.second, edit, o);
    RemoveLength(edit.entries, MoveId(disk) as int);
    NothingToRemove(edit.entries, MoveId(disk) as int);
    ViewIs(slots, now, a);
    forall j | 0 <= j < |slots| && j != a ensures View(slots, now)[j] == View(slots, g)[j] {
      DistinctAt(was, a, 0, j);
      StillClear(was, slots, a, news, p, e, disk.pair, j);
      ViewIs(slots, now, j);
      ShownClear(now, slots[j].seen);
      ViewWithout(slots, g, j);
    }
    ViewWithout(slots, g, a);
    assert slots[a].seen == news;
    if Overlap(disk.pair, w.second) && MoveId(disk) as int < |edit.entries| {
      AlikeLength(View(slots, now), View(was, disk), a);
    } else {
      assert View(slots, now) == View(slots, g);
    }
  }

  lemma StillClear(was: seq<Slot>, slots: seq<Slot>, a: nat, news: seq<Mdir>, p: ParentAt, e: Mdir, pair: Pair, j: nat)
    requires a < |was| && j < |was| && j != a && Clear(was[j], pair) && p.slot != a
    requires Has(was[a := Slot(was[a].linked, news)], p.slot, p.part)
    requires slots == Put(was[a := Slot(was[a].linked, news)], p.slot, p.part, e)
    requires e.pair == was[p.slot].seen[p.part].pair
    ensures Clear(slots[j], pair)
  {
    hide Overlap;
    assert was[a := Slot(was[a].linked, news)][j] == was[j];
    forall k | 0 <= k < |slots[j].seen| ensures !Overlap(pair, slots[j].seen[k].pair) {
      assert slots[j].seen[k].pair == was[j].seen[k].pair;
    }
  }

  lemma DistinctAt(slots: seq<Slot>, i: nat, k: nat, j: nat)
    requires Distinct(slots) && i < |slots| && k < |slots[i].seen| && j < |slots| && j != i
    ensures Clear(slots[j], slots[i].seen[k].pair)
  {}

  lemma NothingToRemove(s: seq<Entry>, id: nat)
    ensures id >= |s| ==> Remove(s, id) == s
  {}

  lemma NotDone(g: G, pair: Pair)
    ensures !HasMoveHere(g, pair) ==> MoveDone(g, pair) == g
  {}

  lemma MoveGone(g: G, pair: Pair)
    ensures HasMoveHere(g, pair) ==> !HasMove(MoveDone(g, pair))
  {
    hide PrepMove, HasMove;
    PrepMoveSets(g, NoMove);
  }

  lemma RepointedLength(s: seq<Entry>, g: G, pair: Pair, q: Naming)
    requires HasMoveHere(g, pair) && MoveId(g) as int < |s| && q.id < |s| && q.id != MoveId(g) as int
    ensures |Repointed(s, g, g, pair, q)| == |s| - 1
  {
    hide HasMove, MoveId, Overlap;
    DeleteStep(s, MoveId(g) as int);
    RemoveLength(s, MoveId(g) as int);
  }

  lemma HiddenAgain(slots: seq<Slot>, a: nat, g: G, e: Mdir)
    requires a < |slots| && slots[a].seen == [e] && HasMoveHere(g, e.pair)
    ensures View(slots, g)[a] == Remove(e.entries, MoveId(g) as int)
  {
    hide HasMove, MoveId, Overlap;
    ShownOne(g, e);
  }

  // In the state after the rename the old name is gone, and the new one holds
  // everything the old one held but its name; the entries behind the old one
  // move up, and nothing else changes.
  lemma ExactlyOne(v: seq<seq<Entry>>, a: nat, oldid: nat, b: nat, t: Target, log: seq<Rec>)
    requires a < |v| && b < |v| && a != b && Replay(log) == v[a]
    requires oldid < |v[a]| && t.id <= |Base(v[b], t)|
    ensures var after := Renamed(v, a, oldid, b, t, log);
            && |after| == |v| && (forall k :: 0 <= k < |v| && k != a && k != b ==> after[k] == v[k])
            && GoneFrom(v[a], after[a], oldid)
            && t.id < |after[b]| && after[b][..t.id] + after[b][t.id + 1..] == Base(v[b], t)
            && HoldsOld(after[b][t.id], t, v[a][oldid])
  {
    hide Base, NewEntry, HoldsOld, GoneFrom, Insert, Remove;
    NewHoldsOld(t, log, oldid);
    ListInserted(Base(v[b], t), t.id, NewEntry(t, log, oldid));
    OneGone(v[a], oldid);
  }

  ghost predicate GoneFrom(s: seq<Entry>, r: seq<Entry>, id: nat) {
    |r| == |s| - 1 && forall i :: 0 <= i < |r| ==> r[i] == s[if i < id then i else i + 1]
  }

  lemma OneGone(s: seq<Entry>, id: nat)
    requires id < |s|
    ensures GoneFrom(s, Remove(s, id), id)
  {}

  // the new name and the structure and attributes of the old entry
  ghost predicate HoldsOld(e: Entry, t: Target, was: Entry) {
    && 0 in e && e[0] == Value(t.kind, t.name)
    && forall key :: key > 0 ==>
         (key in e <==> key in was && Carried(key)) && (key in e && key in was ==> e[key] == was[key])
  }

  lemma NewHoldsOld(t: Target, log: seq<Rec>, oldid: nat)
    requires oldid < |Replay(log)|
    ensures HoldsOld(NewEntry(t, log, oldid), t, Replay(log)[oldid])
  {
    assert !Carried(0);
  }

  lemma ListInserted(s: seq<Entry>, id: nat, e: Entry)
    requires id <= |s|
    ensures var r := Insert(s, id, e); id < |r| && r[id] == e && r[..id] + r[id + 1..] == s
  {}

  // ----- inputs on which it goes wrong -----

  function Named(c: bv8): Entry { map[0 := Value(1, [c])] }

  function AddNamed(id: nat, c: bv8): seq<Rec> { [Rec(Tag(SPLICE, 0x01, id, 0), []), Rec(Tag(NAME, 1, id, 1), [c])] }

  const DIRECTORY: Entry := map[0x200 := Value(0, [])]

  function AddDirectory(): seq<Rec> { [Rec(Tag(SPLICE, 0x01, 0, 0), []), Rec(Tag(STRUCT, 0, 0, 8), [])] }

  lemma ReplayTwo(log: seq<Rec>, two: seq<Rec>)
    requires |two| == 2
    ensures Replay(log + two) == Apply(Apply(Replay(log), two[0]), two[1])
  {
    assert (log + two)[..|log| + 1] == log + [two[0]] && (log + [two[0]])[..|log|] == log;
  }

  lemma AddedNamed(log: seq<Rec>, c: bv8)
    ensures Replay(log + AddNamed(|Replay(log)|, c)) == Replay(log) + [Named(c)]
  {
    hide Replay;
    ReplayTwo(log, AddNamed(|Replay(log)|, c));
  }

  lemma AddedDirectory()
    ensures Replay(AddDirectory()) == [DIRECTORY]
  {
    assert [] + AddDirectory() == AddDirectory();
    ReplayTwo([], AddDirectory());
  }

  lemma FlatSingle(slots: seq<Slot>, list: seq<Mdir>)
    requires |slots| == |list| && forall i :: 0 <= i < |list| ==> slots[i] == One(list[i])
    ensures Flat(slots) == list
  {
    if slots != [] {
      FlatSingle(slots[..|slots| - 1], list[..|list| - 1]);
    }
  }

  lemma {:induction false} FoldZero(list: seq<Mdir>)
    requires forall i :: 0 <= i < |list| ==> list[i].delta == None
    ensures Fold(list) == ZERO && Stored(list)
  {
    if list != [] {
      FoldZero(list[..|list| - 1]);
      XorLaws(ZERO, ZERO);
    }
    XorLaws(ZERO, ZERO);
  }

  // A file system with these directories and nothing pending.
  method Made(list: seq<Mdir>) returns (w: World)
    requires forall i :: 0 <= i < |list| ==> list[i].delta == None
    requires forall i, j :: 0 <= i < |list| && 0 <= j < |list| && i != j ==> !Overlap(list[i].pair, list[j].pair)
    ensures fresh(w) && fresh(w.fs) && w.Valid() && w.fs.list == list && !HasMove(w.fs.gdisk)
    ensures |w.slots| == |list| && forall i :: 0 <= i < |list| ==> w.slots[i] == One(list[i])
  {
    hide Overlap, Fold, Stored, Flat, Countable, HasMove, MoveOf, Mounted, Mask;
    FoldZero(list);
    var fs := new Fs(list);
    var slots := seq(|list|, i requires 0 <= i < |list| => One(list[i]));
    w := new World(fs, slots);
    FlatSingle(slots, list);
    XorLaws(ZERO, ZERO);
    MountedCountable(ZERO);
    ZeroMoves();
    SameMove(fs.gdisk, ZERO);
  }

  const WORN: Way := Way(0, Pair(6, 7), Pair(8, 4))
  const BY_ROOT: ParentAt := ParentAt(0, 0, 0, [], true)
  const TO_B: Target := Target(false, 0, 1, [98])

  function ThreeDirs(): seq<Mdir> {
    [Mdir(Pair(0, 1), [DIRECTORY], None), Mdir(Pair(2, 3), [Named(97)], None), Mdir(Pair(4, 5), [], None)]
  }

  lemma ThreeReady(slots: seq<Slot>, disk: G, g: G)
    requires |slots| == 3 && forall i :: 0 <= i < 3 ==> slots[i] == One(ThreeDirs()[i])
    requires !HasMove(disk)
    ensures CanRename(slots, disk, 1, 0, 2, TO_B, AddNamed(0, 97), []) && Fresh(slots, 2, WORN)
    ensures NamesIt(slots, 2, Moving(g, slots[1], 0), BY_ROOT)
  {
    hide HasMove, MoveId, PrepMove, Replay, AddNamed;
    OneReplays();
    PrepMoveSets(g, MoveFrom(Bv10(0), Pair(2, 3)));
  }

  lemma OneReplays()
    ensures Replay(AddNamed(0, 97)) == [Named(97)] && Replay([]) == [] && LogOk(AddNamed(0, 97))
    ensures Insert(Base([], TO_B), 0, NewEntry(TO_B, AddNamed(0, 97), 0)) == [Named(98)]
  {
    hide NewEntry, Insert, Base;
    assert [] + AddNamed(0, 97) == AddNamed(0, 97) && Replay([]) == [];
    AddedNamed([], 97);
    NewIsNamed(TO_B, AddNamed(0, 97));
  }

  lemma ThreeShown(slots: seq<Slot>, disk: G)
    requires |slots| == 3 && forall i :: 0 <= i < 3 ==> slots[i] == One(ThreeDirs()[i])
    requires !HasMove(disk)
    ensures View(slots, disk)[1] == [Named(97)] && View(slots, disk)[2] == []
  {
    hide HasMove, View, Named;
    PlainOne(slots, disk, 1);
    PlainOne(slots, disk, 2);
  }

  // The file "a" is moved to "b" in a directory of the root whose pair is worn
  // out: when the root names its new pairs and power is lost, both names are
  // there, and no move is pending that would tell.
  method BothNames() returns (w: World)
    ensures fresh(w) && w.fs.Quiet() && !HasMove(w.fs.gstate) && w.fs.list == Flat(w.slots)
    ensures var v := View(w.slots, Fold(w.fs.list));
            |v| == 3 && Similar(v[1], [Named(97)]) && Similar(v[2], [Named(98)])
  {
    hide Named, Overlap, CanRename, Fresh, NamesIt, HasMove, MoveOf, Fold, Flat, View, Alike, Similar, Distinct;
    hide AllFilled, Moving;
    hide MoveIsThere, Countable, Insert, Base, NewEntry, Renamed, AddNamed, Mask, Xor;
    ThreeApart();
    w := Made(ThreeDirs());
    ThreeReady(w.slots, w.fs.gdisk, w.fs.gstate);
    ThreeShown(w.slots, w.fs.gdisk);
    OneReplays();
    ghost var v := View(w.slots, w.fs.gdisk);
    w.StartBehindParent(1, 0, 2, TO_B, AddNamed(0, 97), [], SplitAndRelocated(false), WORN, BY_ROOT);
    AlikeAt(View(w.slots, Fold(w.fs.list)), Added(v, 0, 2, TO_B, AddNamed(0, 97)), 1);
    AlikeAt(View(w.slots, Fold(w.fs.list)), Added(v, 0, 2, TO_B, AddNamed(0, 97)), 2);
  }

  lemma ThreeApart()
    ensures var l := ThreeDirs(); forall i, j :: 0 <= i < 3 && 0 <= j < 3 && i != j ==> !Overlap(l[i].pair, l[j].pair)
  {}

  lemma AlikeAt(v: seq<seq<Entry>>, w: seq<seq<Entry>>, i: nat)
    requires Alike(v, w) && i < |v|
    ensures |v| == |w| && Similar(v[i], w[i])
  {}

  lemma NewIsNamed(t: Target, from: seq<Rec>)
    requires t == Target(false, 0, 1, [98]) && Replay(from) == [Named(97)]
    ensures NewEntry(t, from, 0) == Named(98) && Insert(Base([], t), t.id, NewEntry(t, from, 0)) == [Named(98)]
  {}

  function TwoDirs(): seq<Mdir> {
    [Mdir(Pair(0, 1), [DIRECTORY, Named(97), Named(99)], None), Mdir(Pair(4, 5), [], None)]
  }

  function TwoLog(): seq<Rec> { AddDirectory() + AddNamed(1, 97) + AddNamed(2, 99) }

  lemma TwoReady(slots: seq<Slot>, disk: G, g: G)
    requires |slots| == 2 && forall i :: 0 <= i < 2 ==> slots[i] == One(TwoDirs()[i])
    requires !HasMove(disk)
    ensures CanRename(slots, disk, 0, 1, 1, TO_B, TwoLog(), []) && Fresh(slots, 1, WORN)
    ensures NamesIt(slots, 1, Moving(g, slots[0], 1), BY_ROOT)
  {
    hide HasMove, MoveId, PrepMove, Replay, TwoLog, Named;
    TwoReplays();
    PrepMoveSets(g, MoveFrom(Bv10(1), Pair(0, 1)));
  }

  lemma TwoReplays()
    ensures Replay(TwoLog()) == TwoDirs()[0].entries && Replay([]) == [] && LogOk(TwoLog())
  {
    hide Replay, AddDirectory, AddNamed, Named, LogOk;
    AddedDirectory();
    AddedNamed(AddDirectory(), 97);
    AddedNamed(AddDirectory() + AddNamed(1, 97), 99);
    assert [DIRECTORY] + [Named(97)] + [Named(99)] == TwoDirs()[0].entries;
    OneReplays();
    TwoLogOk();
  }

  lemma TwoLogOk()
    ensures LogOk(TwoLog())
  {}

  // The file "a" is moved from the root to a directory of it whose pair is worn
  // out: after a power loss at that point a move is pending that takes the file
  // "c" behind it out, too.
  method AnotherGone() returns (w: World)
    ensures fresh(w) && w.fs.Quiet() && HasMove(w.fs.gstate) && w.fs.list == Flat(w.slots)
    ensures var v := View(w.slots, Fold(w.fs.list)); |v| == 2 && |v[0]| == 1
  {
    hide Named, Overlap, CanRename, Fresh, NamesIt, HasMove, MoveOf, Fold, Flat, View, Alike, Similar, Distinct;
    hide AllFilled, Moving;
    hide MoveIsThere, Countable, Insert, Base, NewEntry, Renamed, AddNamed, Mask, Xor;
    TwoApart();
    w := Made(TwoDirs());
    TwoReady(w.slots, w.fs.gdisk, w.fs.gstate);
    w.StartBehindParent(0, 1, 1, TO_B, TwoLog(), [], SplitAndRelocated(false), WORN, BY_ROOT);
  }

  lemma TwoApart()
    ensures var l := TwoDirs(); forall i, j :: 0 <= i < 2 && 0 <= j < 2 && i != j ==> !Overlap(l[i].pair, l[j].pair)
  {}
}
