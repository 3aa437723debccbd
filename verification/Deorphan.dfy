/**
 lfs_fs_deorphan of fs/superblock.rs, the passes over the tail list that mend
 what a power loss left: a directory that was moved to another pair but is
 still linked under the old one, and a directory without a parent.
 */
module Deorphan {
  import opened MetadataLog
  import opened Sequences
  import opened Fetch
  import opened GState
  import opened TailList

  function Same(s: seq<Pair>): seq<Pair> { s }

  // the directory entries of all mdirs, in the order of the list
  function Children(kids: seq<seq<Pair>>): seq<Pair> { FlatMap(Same, kids) }

  // lfs_fs_parent: the entry that names the pair or, if it was moved, the
  // pair it was moved to
  function Parent(children: seq<Pair>, p: Pair): Option<Pair> {
    if children == [] then None
    else if Overlap(children[0], p) then Some(children[0])
    else Parent(children[1..], p)
  }

  ghost predicate Apart(children: seq<Pair>) {
    forall i, j :: 0 <= i < j < |children| ==> !Overlap(children[i], children[j])
  }

  lemma {:induction false} ParentOfParent(children: seq<Pair>, p: Pair)
    requires Apart(children)
    ensures Parent(children, p).Some? ==> Parent(children, Parent(children, p).value) == Parent(children, p)
    ensures Parent(children, p).Some? ==> Parent(children, p).value in children
  {
    if children != [] && !Overlap(children[0], p) {
      ParentOfParent(children[1..], p);
      if Parent(children[1..], p).Some? {
        var k :| 0 <= k < |children[1..]| && children[1..][k] == Parent(children[1..], p).value;
        assert !Overlap(children[0], children[k + 1]);
      }
    }
  }

  lemma NoChildren(kids: seq<seq<Pair>>, i: nat)
    requires i < |kids| && kids[i] == []
    ensures Children(kids[..i] + kids[i + 1..]) == Children(kids)
  {
    assert kids == kids[..i] + [kids[i]] + kids[i + 1..];
    FlatMapConcat(Same, kids[..i] + [kids[i]], kids[i + 1..]);
    FlatMapConcat(Same, kids[..i], [kids[i]]);
    FlatMapOne(Same, kids[i]);
    FlatMapConcat(Same, kids[..i], kids[i + 1..]);
  }

  // the head of a directory: the one before it does not continue in it
  predicate Soft(split: seq<bool>, i: nat) { 0 < i <= |split| && !split[i - 1] }

  ghost predicate Orphan(list: seq<Mdir>, split: seq<bool>, kids: seq<seq<Pair>>, i: nat)
    requires i < |list|
  {
    Soft(split, i) && Parent(Children(kids), list[i].pair).None?
  }

  // Where the parent of a directory names another pair than the list does, the
  // directory was copied there, with its delta.
  predicate CopyOf(copies: map<Pair, Mdir>, children: seq<Pair>, d: Mdir) {
    var q := Parent(children, d.pair);
    q.Some? && !InSync(q.value, d.pair) ==> q.value in copies && copies[q.value].Value() == d.Value()
  }

  class Recovery {
    const fs: Fs
    const copies: map<Pair, Mdir>   // what relocations wrote but did not link
    var split: seq<bool>            // whether the tail of a pair is a hard one
    var kids: seq<seq<Pair>>        // the directories among its entries

    constructor (fs: Fs, copies: map<Pair, Mdir>, split: seq<bool>, kids: seq<seq<Pair>>)
      ensures this.fs == fs && this.copies == copies && this.split == split && this.kids == kids
    {
      this.fs, this.copies, this.split, this.kids := fs, copies, split, kids;
    }

    ghost predicate Valid()
      reads this, fs
    {
      && fs.Quiet() && |split| == |kids| == |fs.list| && Apart(Children(kids))
      && forall q :: q in copies ==> copies[q].pair == q && Mask(copies[q].Value()) == copies[q].Value()
    }

    // the commit to the mdir before list[i] that puts `behind` in its place
    method Relink(i: nat, behind: seq<Mdir>, append: bool)
      requires fs.Inv() && fs.pending.None? && 0 < i < |fs.list| && Stored(behind)
      requires Xor(fs.list[i].Value(), Fold(behind)) == fs.gdelta
      modifies fs
      ensures fs.Quiet() && fs.gdisk == fs.gstate == old(fs.gstate) && |fs.list| == |old(fs.list)| - 1 + |behind|
      ensures fs.list == old(fs.list[..i - 1]) + [fs.list[i - 1]] + behind + old(fs.list[i + 1..])
      ensures fs.list[i - 1].pair == old(fs.list[i - 1].pair) && fs.list[i - 1].entries == old(fs.list[i - 1].entries)
    {
      hide Xor, Mask, Fold, All;
      FoldOne(fs.list[i]);
      assert fs.list[i - 1 + 1..i - 1 + 2] == [fs.list[i]];
      XorLaws(fs.gdelta, ZERO);
      XorLaws(ZERO, fs.gdelta);
      var e := Edit(fs.list[i - 1].entries, [], NO_PAIR, NO_PAIR);
      var _ := fs.Commit(i - 1, 2, e, behind, if append then Appended else Compacted);
    }

    // The list is made to follow the parent of one head.
    method Follow(i: nat, append: bool)
      requires Valid() && i < |fs.list| && CopyOf(copies, Children(kids), fs.list[i])
      modifies fs
      ensures Valid() && fs.gstate == old(fs.gstate) && |fs.list| == |old(fs.list)|
      ensures fs.gdisk == old(fs.gdisk) || fs.gdisk == fs.gstate
      ensures Moved(old(fs.list[i]), fs.list[i], Soft(split, i), Children(kids), copies)
      ensures fs.list == old(fs.list) || (i > 0 && Stays(old(fs.list[i - 1]), fs.list[i - 1]) &&
              fs.list == old(fs.list[..i - 1]) + [fs.list[i - 1], fs.list[i]] + old(fs.list[i + 1..]))
    {
      hide Xor, Mask, Fold, Overlap, InSync, Children;
      var q := Parent(Children(kids), fs.list[i].pair);
      if Soft(split, i) && q.Some? && !InSync(q.value, fs.list[i].pair) {
        XorLaws(fs.list[i].Value(), ZERO);
        FoldOne(copies[q.value]);
        Relink(i, [copies[q.value]], append);
      }
    }

    // First pass: every head is made to follow its parent.
    method SyncTails(appends: nat -> bool)
      requires Valid() && forall i :: 0 <= i < |fs.list| ==> CopyOf(copies, Children(kids), fs.list[i])
      modifies this, fs
      ensures Valid() && fs.gstate == old(fs.gstate) && split == old(split) && kids == old(kids)
      ensures Followed(old(Now()), Now(), copies, |fs.list|) && AllLinked(Now())
      ensures fs.gdisk == old(fs.gdisk) || fs.gdisk == fs.gstate
      ensures Fold(fs.list) == old(Fold(fs.list)) || Fold(fs.list) == Mask(fs.gstate)
      ensures old(fs.gdisk == fs.gstate) ==> Fold(fs.list) == old(Fold(fs.list))
    {
      hide Xor, Mask, Fold, Overlap, InSync, Children, Followed, Moved, Soft, CopyOf, AllLinked;
      ghost var o := Now();
      NoneFollowed(o, copies);
      XorLaws(Mask(fs.gdisk), ZERO);
      var i := 0;
      while i < |fs.list|
        invariant Valid() && fs.gstate == old(fs.gstate) && i <= |fs.list| == |o.list|
        invariant fs.gdisk == old(fs.gdisk) || fs.gdisk == fs.gstate
        invariant fs.list[i..] == o.list[i..] && Followed(o, Now(), copies, i)
        decreases |fs.list| - i
        modifies fs
      {
        ghost var was := Now();
        assert was.list[i] == was.list[i..][0] == o.list[i..][0] == o.list[i];
        Follow(i, appends(i));
        assert fs.list[i + 1..] == was.list[i + 1..];
        FollowOne(o, was, Now(), copies, i);
        assert fs.list[i + 1..] == was.list[i..][1..] == o.list[i + 1..];
        i := i + 1;
      }
      XorLaws(Mask(fs.gdisk), ZERO);
      FollowedLinked(o, Now(), copies);
    }

    ghost function Now(): Chain
      reads this, fs
    {
      Chain(fs.list, split, kids)
    }

    // Second pass, after a power loss: heads without a parent leave the list.
    // `kept` are the places of those that stay, in order.
    method DropOrphans(appends: nat -> bool) returns (ghost kept: seq<nat>)
      requires Valid()
      requires forall i :: 0 <= i < |fs.list| && Orphan(fs.list, split, kids, i) ==> !split[i] && kids[i] == []
      modifies this, fs
      ensures Valid() && fs.gstate == old(fs.gstate)
      ensures Cleaned(old(Now()), Now(), kept)
      ensures forall i :: 0 <= i < |fs.list| ==> !Orphan(fs.list, split, kids, i)
      ensures fs.gdisk == old(fs.gdisk) || fs.gdisk == fs.gstate
      ensures Fold(fs.list) == old(Fold(fs.list)) || Fold(fs.list) == Mask(fs.gstate)
      ensures old(fs.gdisk == fs.gstate) ==> Fold(fs.list) == old(Fold(fs.list))
    {
      hide Xor, Mask, Fold, Overlap, InSync, Children, Progress, Orphan;
      ghost var start := Now();
      kept := [];
      var i := 0;
      ghost var j := 0;
      NoProgress(start);
      XorLaws(Mask(fs.gdisk), ZERO);
      while i < |fs.list|
        invariant Valid() && fs.gstate == old(fs.gstate)
        invariant fs.gdisk == old(fs.gdisk) || fs.gdisk == fs.gstate
        invariant i <= |fs.list| && |fs.list| - i == |start.list| - j
        invariant Progress(start, Now(), kept, i, j)
        decreases |fs.list| - i
        modifies this, fs
      {
        ghost var before := Now();
        AtHand(start, before, kept, i, j);
        if Soft(split, i) && Parent(Children(kids), fs.list[i].pair).None? {
          XorLaws(fs.list[i].Value(), ZERO);
          XorLaws(ZERO, fs.list[i].Value());
          FoldOne(fs.list[i]);
          fs.TakeDelta(i);
          Relink(i, [], appends(i));
          NoChildren(kids, i);
          split := split[..i - 1] + split[i..];
          kids := kids[..i] + kids[i + 1..];
          Dropped(start, before, Now(), kept, i, j);
        } else {
          KeepOne(start, before, kept, i, j);
          kept := kept + [j];
          i := i + 1;
        }
        j := j + 1;
      }
      XorLaws(Mask(fs.gdisk), ZERO);
      AllDone(start, Now(), kept, i, j);
    }

    // Both passes, and the count of orphans taken back. `kept` are the places
    // of the mdirs that stay.
    method Mend(powerloss: bool, appends: nat -> bool) returns (ghost kept: seq<nat>)
      requires Valid() && !NeedsSuperblock(fs.gstate)
      requires forall i :: 0 <= i < |fs.list| ==> CopyOf(copies, Children(kids), fs.list[i])
      requires forall i :: 0 <= i < |fs.list| && Orphan(fs.list, split, kids, i) ==> !split[i] && kids[i] == []
      modifies this, fs
      ensures Valid()
      ensures old(HasOrphans(fs.gstate)) ==> Mended(old(Now()), Now(), copies, kept, powerloss) && AllLinked(Now())
      ensures old(HasOrphans(fs.gstate)) && powerloss ==> forall i :: 0 <= i < |fs.list| ==>
              !Orphan(fs.list, split, kids, i)
      ensures !old(HasOrphans(fs.gstate)) ==> Now() == old(Now()) && fs.gstate == old(fs.gstate)
      ensures Fold(fs.list) == old(Fold(fs.list)) || Fold(fs.list) == Mask(old(fs.gstate))
      ensures old(fs.gdisk == fs.gstate) ==> Fold(fs.list) == old(Fold(fs.list))
      ensures !HasOrphans(fs.gstate) <==> old(Few(fs.gstate.tag))
    {
      hide Orphan, Children, Cleaned, Mended, CopyOf, Followed, AllLinked, HasOrphans, Few, PrepOrphans, MinusOrphans;
      hide NeedsSuperblock, Fold, Mask;
      FewIfNone(fs.gstate);
      kept := [];
      if !HasOrphans(fs.gstate) {
        return;
      }
      ghost var start, g := Now(), fs.gstate;
      SyncTails(appends);
      ghost var mid := Now();
      SameOrphans(start, mid, copies);
      if powerloss {
        kept := DropOrphans(appends);
        StillLinked(mid, Now(), kept);
        MendedBoth(start, mid, Now(), copies, kept);
      } else {
        kept := seq(|fs.list|, k => k);
        MendedFirst(start, mid, copies, kept);
      }
      NoOrphansLeft(fs.gstate);
      fs.SetState(PrepOrphans(fs.gstate, MinusOrphans(fs.gstate.tag)));
    }
  }

  // What becomes of a pair: a head whose parent names another pair is now the
  // copy there.
  predicate Moved(was: Mdir, now: Mdir, soft: bool, children: seq<Pair>, copies: map<Pair, Mdir>) {
    var q := Parent(children, was.pair);
    if soft && q.Some? && !InSync(q.value, was.pair) then
      q.value in copies && now.pair == q.value && now.entries == copies[q.value].entries
    else
      Stays(was, now)
  }

  ghost predicate Followed(o: Chain, c: Chain, copies: map<Pair, Mdir>, i: nat) {
    && o.Fits() && c.Fits() && i <= |o.list| == |c.list| && o.split == c.split && o.kids == c.kids
    && forall k :: 0 <= k < i ==> Moved(o.list[k], c.list[k], Soft(o.split, k), Children(o.kids), copies)
  }

  lemma NoneFollowed(o: Chain, copies: map<Pair, Mdir>)
    requires o.Fits()
    ensures Followed(o, o, copies, 0)
  {}

  lemma FollowOne(o: Chain, was: Chain, c: Chain, copies: map<Pair, Mdir>, i: nat)
    requires Followed(o, was, copies, i) && i < |o.list| == |c.list| && was.list[i] == o.list[i]
    requires c.split == was.split && c.kids == was.kids
    requires c.list == was.list ||
             (i > 0 && c.list == was.list[..i - 1] + [c.list[i - 1], c.list[i]] + was.list[i + 1..] &&
              Stays(was.list[i - 1], c.list[i - 1]))
    requires Moved(o.list[i], c.list[i], Soft(o.split, i), Children(o.kids), copies)
    ensures Followed(o, c, copies, i + 1)
  {
    hide Moved, Soft, Children;
    forall k | 0 <= k < i ensures Moved(o.list[k], c.list[k], Soft(o.split, k), Children(o.kids), copies) {
      SamePlace(o.list[k], was.list[k], c.list[k], Soft(o.split, k), Children(o.kids), copies);
    }
  }

  lemma SamePlace(o: Mdir, a: Mdir, b: Mdir, soft: bool, children: seq<Pair>, copies: map<Pair, Mdir>)
    ensures Stays(a, b) && Moved(o, a, soft, children, copies) ==> Moved(o, b, soft, children, copies)
  {}

  lemma FollowedLinked(o: Chain, c: Chain, copies: map<Pair, Mdir>)
    requires Apart(Children(c.kids)) && Followed(o, c, copies, |c.list|)
    ensures AllLinked(c)
  {
    hide Soft, Apart, Parent, Children;
    forall k | 0 <= k < |c.list| ensures LinkedAt(c, k) {
      ParentOfParent(Children(c.kids), o.list[k].pair);
      assert Moved(o.list[k], c.list[k], Soft(c.split, k), Children(c.kids), copies);
    }
  }

  lemma FewIfNone(a: G)
    ensures !HasOrphans(a) ==> Few(a.tag)
  {}

  // Following the parents makes no new orphans and saves none.
  lemma SameOrphans(o: Chain, c: Chain, copies: map<Pair, Mdir>)
    requires Followed(o, c, copies, |c.list|) && Apart(Children(o.kids))
    ensures forall i :: 0 <= i < |c.list| ==>
            (Orphan(c.list, c.split, c.kids, i) <==> Orphan(o.list, o.split, o.kids, i))
  {
    hide Children, Parent, Apart;
    forall i | 0 <= i < |c.list| ensures Orphan(c.list, c.split, c.kids, i) <==> Orphan(o.list, o.split, o.kids, i) {
      assert Moved(o.list[i], c.list[i], Soft(o.split, i), Children(o.kids), copies);
      ParentOfParent(Children(o.kids), o.list[i].pair);
    }
  }

  // place k of c holds what place m of o held, or the copy its parent names
  ghost predicate MendedAt(o: Chain, c: Chain, copies: map<Pair, Mdir>, m: nat, k: nat)
    requires o.Fits() && c.Fits() && k < |c.list|
  {
    && m < |o.list| && Moved(o.list[m], c.list[k], Soft(o.split, m), Children(o.kids), copies)
    && c.kids[k] == o.kids[m] && c.split[k] == o.split[m] && (Soft(c.split, k) <==> Soft(o.split, m))
  }

  // All mdirs in their order, or, after a power loss, all but the orphans: each
  // is as it was or the copy its parent names.
  ghost predicate Mended(o: Chain, c: Chain, copies: map<Pair, Mdir>, kept: seq<nat>, powerloss: bool) {
    && o.Fits() && c.Fits() && |kept| == |c.list| && Children(c.kids) == Children(o.kids)
    && (forall a, b :: 0 <= a < b < |kept| ==> kept[a] < kept[b])
    && (forall m: nat :: m in kept <==> m < |o.list| && !(powerloss && o.Lost(m)))
    && (forall k :: 0 <= k < |kept| ==> MendedAt(o, c, copies, kept[k], k))
  }

  lemma MendedBoth(o: Chain, mid: Chain, c: Chain, copies: map<Pair, Mdir>, kept: seq<nat>)
    requires Followed(o, mid, copies, |mid.list|) && Cleaned(mid, c, kept)
    requires forall i :: 0 <= i < |mid.list| ==>
               (Orphan(mid.list, mid.split, mid.kids, i) <==> Orphan(o.list, o.split, o.kids, i))
    ensures Mended(o, c, copies, kept, true)
  {
    hide Moved, Soft, Children, Orphan;
    forall k | 0 <= k < |kept| ensures MendedAt(o, c, copies, kept[k], k) {
      var m := kept[k];
      assert KeptAt(mid, c, m, k);
      SamePlace(o.list[m], mid.list[m], c.list[k], Soft(o.split, m), Children(o.kids), copies);
    }
    forall m: nat ensures m in kept <==> m < |o.list| && !o.Lost(m) {
      assert m in kept <==> m < |mid.list| && !mid.Lost(m);
    }
  }

  lemma MendedFirst(o: Chain, c: Chain, copies: map<Pair, Mdir>, kept: seq<nat>)
    requires Followed(o, c, copies, |c.list|) && kept == seq(|c.list|, k => k)
    ensures Mended(o, c, copies, kept, false)
  {
    hide Moved, Soft, Children;
    forall k | 0 <= k < |kept| ensures MendedAt(o, c, copies, kept[k], k) {
      assert kept[k] == k;
    }
    forall m: nat ensures m in kept <==> m < |o.list| {
      if m < |kept| { assert kept[m] == m; }
    }
  }

  // Dropping orphans leaves the others linked as they were.
  lemma StillLinked(o: Chain, c: Chain, kept: seq<nat>)
    requires Cleaned(o, c, kept) && AllLinked(o)
    ensures AllLinked(c)
  {
    hide Children, Parent, Soft, InSync;
    forall k | 0 <= k < |c.list| ensures LinkedAt(c, k) {
      assert KeptAt(o, c, kept[k], k) && LinkedAt(o, kept[k]);
    }
  }

  // every head that has a parent is linked under the pair the parent names
  ghost predicate AllLinked(c: Chain) { forall i :: 0 <= i < |c.list| ==> LinkedAt(c, i) }

  ghost predicate LinkedAt(c: Chain, i: nat)
    requires i < |c.list|
  {
    var q := Parent(Children(c.kids), c.list[i].pair);
    Soft(c.split, i) && q.Some? ==> InSync(q.value, c.list[i].pair)
  }

  // the list with, for each pair, whether its tail is hard and what it contains
  datatype Chain = Chain(list: seq<Mdir>, split: seq<bool>, kids: seq<seq<Pair>>) {
    ghost predicate Fits() { |list| == |split| == |kids| }
    ghost predicate Lost(i: nat) requires i < |list| { Orphan(list, split, kids, i) }
  }

  // place k of c holds what place m of o held
  ghost predicate KeptAt(o: Chain, c: Chain, m: nat, k: nat)
    requires o.Fits() && c.Fits() && k < |c.list|
  {
    && m < |o.list| && Stays(o.list[m], c.list[k]) && c.kids[k] == o.kids[m] && c.split[k] == o.split[m]
    && (Soft(c.split, k) <==> Soft(o.split, m))
  }

  ghost predicate Kept(o: Chain, c: Chain, kept: seq<nat>, i: nat)
    requires o.Fits() && c.Fits() && i <= |kept| && i <= |c.list|
  {
    forall k :: 0 <= k < i ==> KeptAt(o, c, kept[k], k)
  }

  ghost predicate Progress(o: Chain, c: Chain, kept: seq<nat>, i: nat, j: nat) {
    && o.Fits() && c.Fits() && Children(c.kids) == Children(o.kids)
    && i <= |c.list| && j <= |o.list| && |kept| == i
    && c.list[i..] == o.list[j..] && c.split[i..] == o.split[j..] && c.kids[i..] == o.kids[j..]
    && (Soft(c.split, i) <==> Soft(o.split, j)) && (i == 0 <==> j == 0)
    && (forall a, b :: 0 <= a < b < i ==> kept[a] < kept[b])
    && (forall m: nat :: m in kept <==> m < j && !o.Lost(m))
    && Kept(o, c, kept, i)
  }

  // exactly the mdirs that are not orphans, in their order
  ghost predicate Cleaned(o: Chain, c: Chain, kept: seq<nat>) {
    && o.Fits() && c.Fits() && |kept| == |c.list| && Children(c.kids) == Children(o.kids)
    && (forall a, b :: 0 <= a < b < |kept| ==> kept[a] < kept[b])
    && (forall m: nat :: m in kept <==> m < |o.list| && !o.Lost(m))
    && Kept(o, c, kept, |kept|)
  }

  lemma NoProgress(o: Chain)
    requires o.Fits()
    ensures Progress(o, o, [], 0, 0)
  {}

  lemma AtHand(o: Chain, c: Chain, kept: seq<nat>, i: nat, j: nat)
    requires Progress(o, c, kept, i, j) && i < |c.list|
    ensures j < |o.list| && c.list[i] == o.list[j] && c.split[i] == o.split[j] && c.kids[i] == o.kids[j]
    ensures Orphan(c.list, c.split, c.kids, i) <==> o.Lost(j)
    ensures o.Lost(j) <==> Soft(c.split, i) && Parent(Children(c.kids), c.list[i].pair).None?
  {
    hide Children;
    assert c.list[i..][0] == o.list[j..][0] && c.split[i..][0] == o.split[j..][0] && c.kids[i..][0] == o.kids[j..][0];
  }

  lemma KeepOne(o: Chain, c: Chain, kept: seq<nat>, i: nat, j: nat)
    requires Progress(o, c, kept, i, j) && i < |c.list| && j < |o.list| && !o.Lost(j)
    ensures Progress(o, c, kept + [j], i + 1, j + 1)
  {
    hide Orphan, Children, Kept;
    AtHand(o, c, kept, i, j);
    KeptOne(o, c, kept, i, j);
    assert c.list[i + 1..] == c.list[i..][1..] && c.split[i + 1..] == c.split[i..][1..]
           && c.kids[i + 1..] == c.kids[i..][1..];
    assert o.list[j + 1..] == o.list[j..][1..] && o.split[j + 1..] == o.split[j..][1..]
           && o.kids[j + 1..] == o.kids[j..][1..];
    forall k | 0 <= k < i ensures kept[k] < j { assert kept[k] in kept; }
  }

  lemma KeptOne(o: Chain, c: Chain, kept: seq<nat>, i: nat, j: nat)
    requires o.Fits() && c.Fits() && i == |kept| && i < |c.list| && j < |o.list| && Kept(o, c, kept, i)
    requires c.list[i] == o.list[j] && c.split[i] == o.split[j] && c.kids[i] == o.kids[j]
    requires Soft(c.split, i) <==> Soft(o.split, j)
    ensures Kept(o, c, kept + [j], i + 1)
  {
    assert KeptAt(o, c, j, i);
    hide KeptAt;
  }

  // what stays in front when an mdir is dropped
  ghost predicate Front(c: Chain, d: Chain, i: nat)
    requires c.Fits() && d.Fits() && i <= |c.list| && i <= |d.list|
  {
    && (forall k :: 0 <= k < i ==> Stays(c.list[k], d.list[k]) && d.kids[k] == c.kids[k] && d.split[k] == c.split[k])
    && (forall k :: 0 <= k < i ==> (Soft(c.split, k) <==> Soft(d.split, k)))
  }

  lemma DroppedFront(c: Chain, d: Chain, i: nat)
    requires c.Fits() && d.Fits() && 0 < i < |c.list| && |d.list| == |c.list| - 1 && Soft(c.split, i) && !c.split[i]
    requires d.list == c.list[..i - 1] + [d.list[i - 1]] + [] + c.list[i + 1..] && Stays(c.list[i - 1], d.list[i - 1])
    requires d.split == c.split[..i - 1] + c.split[i..] && d.kids == c.kids[..i] + c.kids[i + 1..]
    ensures Front(c, d, i) && Soft(d.split, i)
    ensures d.list[i..] == c.list[i + 1..] && d.split[i..] == c.split[i + 1..] && d.kids[i..] == c.kids[i + 1..]
  {}

  lemma KeptFront(o: Chain, c: Chain, d: Chain, kept: seq<nat>, i: nat)
    requires o.Fits() && c.Fits() && d.Fits() && i <= |kept| && i <= |c.list| && i <= |d.list|
    requires Kept(o, c, kept, i) && Front(c, d, i)
    ensures Kept(o, d, kept, i)
  {
    hide Soft;
    forall k | 0 <= k < i ensures KeptAt(o, d, kept[k], k) {
      assert KeptAt(o, c, kept[k], k);
    }
  }

  lemma Dropped(o: Chain, c: Chain, d: Chain, kept: seq<nat>, i: nat, j: nat)
    requires Progress(o, c, kept, i, j) && 0 < i < |c.list| && j < |o.list| && o.Lost(j) && Soft(c.split, i)
    requires !c.split[i] && d.Fits() && |d.list| == |c.list| - 1 && Children(d.kids) == Children(c.kids)
    requires d.list == c.list[..i - 1] + [d.list[i - 1]] + [] + c.list[i + 1..] && Stays(c.list[i - 1], d.list[i - 1])
    requires d.split == c.split[..i - 1] + c.split[i..] && d.kids == c.kids[..i] + c.kids[i + 1..]
    ensures Progress(o, d, kept, i, j + 1)
  {
    hide Orphan, Children, Kept, Front;
    AtHand(o, c, kept, i, j);
    DroppedFront(c, d, i);
    KeptFront(o, c, d, kept, i);
    assert c.list[i + 1..] == c.list[i..][1..] && c.split[i + 1..] == c.split[i..][1..]
           && c.kids[i + 1..] == c.kids[i..][1..];
    assert o.list[j + 1..] == o.list[j..][1..] && o.split[j + 1..] == o.split[j..][1..]
           && o.kids[j + 1..] == o.kids[j..][1..];
  }

  lemma AllDone(o: Chain, c: Chain, kept: seq<nat>, i: nat, j: nat)
    requires Progress(o, c, kept, i, j) && i == |c.list| && j == |o.list|
    ensures Cleaned(o, c, kept)
    ensures forall k :: 0 <= k < |c.list| ==> !Orphan(c.list, c.split, c.kids, k)
  {
    hide Children, Parent;
    forall k | 0 <= k < |c.list| ensures !Orphan(c.list, c.split, c.kids, k) {
      assert kept[k] in kept && KeptAt(o, c, kept[k], k);
      assert !o.Lost(kept[k]);
    }
  }

  // the same directory in the same place, perhaps with another delta
  predicate Stays(was: Mdir, now: Mdir) { now.pair == was.pair && now.entries == was.entries }
}
