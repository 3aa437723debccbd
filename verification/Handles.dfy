/**
 relocatingcommit_fixmlist of dir/commit.rs: after a commit every other open
 handle on the directory is made to name the entry it named before, wherever
 the entry's id and, if the directory was split, its metadata pair have gone.
 */
module Handles {
  import opened Tags
  import opened MetadataLog
  import opened Traverse
  import opened Compaction

  // The id an entry had before the attributes; None if they created it.
  function Origin(attrs: seq<Item>, id: int): Option<int> {
    if attrs == [] then Some(id)
    else match Before(attrs[|attrs| - 1].tag, id)
      case None => None
      case Some(j) => Origin(attrs[..|attrs| - 1], j)
  }

  // One attribute as a handle sees it: None if its entry is deleted.
  function Seen(t: Tag, id: int): Option<int> {
    if t.IsDelete() && id == t.id then None
    else if t.IsDelete() && id > t.id then Some(id - 1)
    else if t.IsCreate() && id >= t.id then Some(id + 1)
    else Some(id)
  }

  function Track(attrs: seq<Item>, id: int): Option<int> {
    if attrs == [] then Some(id)
    else match Track(attrs[..|attrs| - 1], id)
      case None => None
      case Some(j) => Seen(attrs[|attrs| - 1].tag, j)
  }

  // Following an entry forwards and looking back for its origin agree: the
  // entry is at the tracked id and nowhere else, and nowhere if it is deleted.
  lemma {:induction false} TrackIsOrigin(attrs: seq<Item>, id: int, j: int)
    ensures Track(attrs, id) == Some(j) <==> Origin(attrs, j) == Some(id)
  {
    if attrs != [] {
      var init, t := attrs[..|attrs| - 1], attrs[|attrs| - 1].tag;
      match Before(t, j) {
        case None =>
        case Some(i) => TrackIsOrigin(init, id, i);
      }
      match Track(init, id) {
        case None =>
        case Some(i) => TrackIsOrigin(init, id, i);
      }
    }
  }

  // no attribute writes that slot of the entry
  ghost predicate Untouched(attrs: seq<Item>, id: int, key: nat) {
    attrs == [] ||
    var init, x := attrs[..|attrs| - 1], attrs[|attrs| - 1];
    Untouched(init, id, key) && (Track(init, id).Some? ==> !Writes(x, Track(init, id).value, key))
  }

  // So what the entry holds is found at the tracked id, unless the attributes
  // themselves write it.
  lemma {:induction false} EntryFollows(items: seq<Item>, attrs: seq<Item>, id: nat, key: nat)
    requires ItemsOk(attrs) && Track(attrs, id).Some? && Untouched(attrs, id, key)
    ensures Track(attrs, id).value >= 0
    ensures Slot(ReplayItems(items + attrs), Track(attrs, id).value, key) == Slot(ReplayItems(items), id, key)
    decreases |attrs|
  {
    if attrs == [] {
      assert items + attrs == items;
    } else {
      hide Slot, ApplyItem, Written;
      var n := |attrs| - 1;
      var init, x := attrs[..n], attrs[n];
      assert (items + attrs)[..|items| + n] == items + init;
      EntryFollows(items, init, id, key);
      SeenUntouched(x, Track(init, id).value, key);
      ApplyItemSlot(ReplayItems(items + init), x, Track(attrs, id).value, key);
    }
  }

  lemma SeenUntouched(x: Item, k: nat, key: nat)
    requires ItemOk(x) && Seen(x.tag, k).Some? && !Writes(x, k, key)
    ensures var j := Seen(x.tag, k).value; j >= 0 && Before(x.tag, j) == Some(k) && !Writes(x, j, key)
  {}

  lemma {:induction false} TrackNat(attrs: seq<Item>, id: nat)
    requires ItemsOk(attrs)
    ensures Track(attrs, id).Some? ==> Track(attrs, id).value >= 0
  {
    if attrs != [] { TrackNat(attrs[..|attrs| - 1], id); }
  }

  // ----- a directory that was split -----

  function Sum(counts: seq<nat>): nat {
    if counts == [] then 0 else Sum(counts[..|counts| - 1]) + counts[|counts| - 1]
  }

  // Compacted pair by pair, the directory shows at the handle's new place what
  // it showed at the old one.
  lemma HandleFollows(items: seq<Item>, attrs: seq<Item>, id: nat, counts: seq<nat>, mdir: nat, local: nat, key: nat)
    requires ItemsOk(items + attrs) && MovesApart(items + attrs) && ItemsOk(attrs)
    requires Track(attrs, id).Some? && Untouched(attrs, id, key)
    requires mdir < |counts| && local < counts[mdir] && Sum(counts[..mdir]) + local == Track(attrs, id).value
    ensures var begin := Sum(counts[..mdir]);
            Slot(Replay(Emission(items + attrs, CompactWindow(begin, begin + counts[mdir]))), local, key)
              == Slot(ReplayItems(items), id, key)
  {
    hide Slot, Replay, Emission, Untouched, MovesApart, ItemsOk;
    var begin := Sum(counts[..mdir]);
    CompactionPreservesMeaning(items + attrs, begin, begin + counts[mdir], local, key);
    EntryFollows(items, attrs, id, key);
  }

  // The id the code keeps in a handle: that of the entry or, once the entry is
  // deleted, of the one that came behind it.
  function Shifted(t: Tag, id: int): int {
    if t.IsDelete() && id > t.id then id - 1
    else if t.IsCreate() && id >= t.id then id + 1
    else id
  }

  function Place(attrs: seq<Item>, id: int): int {
    if attrs == [] then id else Shifted(attrs[|attrs| - 1].tag, Place(attrs[..|attrs| - 1], id))
  }

  lemma {:induction false} TrackIsPlace(attrs: seq<Item>, id: int)
    requires ItemsOk(attrs)
    ensures Track(attrs, id).Some? ==> Place(attrs, id) == Track(attrs, id).value
    ensures id >= 0 ==> Place(attrs, id) >= 0
  {
    if attrs != [] { TrackIsPlace(attrs[..|attrs| - 1], id); }
  }

  // When a handle is cut off: its entry is deleted, and the walk has no reason
  // to fetch another pair, which would give the handle a pair again.
  predicate CutOff(attrs: seq<Item>, id: int, counts: seq<nat>)
    requires counts != []
  {
    Track(attrs, id).None? && (Place(attrs, id) < counts[0] || |counts| == 1)
  }

  // The last entry of a pair with a hard tail is deleted: its handle is not cut
  // off but names the first entry of the next pair.
  lemma DeletedLastStaysOpen(attrs: seq<Item>)
    requires attrs == [Item(Tag(SPLICE, 0xff, 2, 0), Data([]))]
    ensures Track(attrs, 2).None? && !CutOff(attrs, 2, [2, 3]) && Place(attrs, 2) == Sum([2]) + 0
  {
    assert attrs[..0] == [] && [2][..0] == [];
    assert Place(attrs[..0], 2) == 2 && Sum([2][..0]) == 0;
  }

  class Handle {
    var id: int
    var pair: Option<nat>  // the mdir whose pair it holds, counted along the hard tails of the
                           // directory; None is the null pair
    const isDir: bool

    constructor (id: int, isDir: bool)
      ensures this.id == id && this.isDir == isDir && pair == Some(0)
    {
      this.id, this.isDir, pair := id, isDir, Some(0);
    }

    // The id follows the attributes; the walk then finds the mdir, of which
    // `counts` has the entries, and takes its pair.
    method Fix(attrs: seq<Item>, counts: seq<nat>, own: bool)
      requires ItemsOk(attrs) && id >= 0 && pair == Some(0) && counts != []
      modifies this
      ensures pair.None? <==> !own && !isDir && CutOff(attrs, old(id), counts)
      ensures id >= 0
      ensures pair.None? ==> id == Place(attrs, old(id))
      ensures pair.Some? ==>
                && pair.value < |counts|
                && Sum(counts[..pair.value]) + id == (if own then old(id) else Place(attrs, old(id)))
                && (id < counts[pair.value] || pair.value == |counts| - 1)
    {
      var deleted := false;
      if !own {
        for i := 0 to |attrs|
          invariant id == Place(attrs[..i], old(id)) && pair == (if deleted then None else Some(0))
          invariant !isDir ==> (deleted <==> Track(attrs[..i], old(id)).None?)
          invariant isDir ==> !deleted
        {
          ghost var was := id;
          var t := attrs[i].tag;
          assert attrs[..i + 1][..i] == attrs[..i];
          TrackedPlace(attrs, i, old(id));
          if t.IsDelete() && id == t.id && !isDir {
            pair, deleted := None, true;
          } else if t.IsDelete() && id > t.id {
            id := id - 1;
          } else if t.IsCreate() && id >= t.id {
            id := id + 1;
          }
        }
        assert attrs[..|attrs|] == attrs;
        TrackIsPlace(attrs, old(id));
      }
      ghost var all := id;
      assert counts[..0] == [];
      var mdir := 0;
      while id >= counts[mdir] && mdir < |counts| - 1
        invariant mdir < |counts| && Sum(counts[..mdir]) + id == all && id >= 0
        invariant pair == (if mdir > 0 || !deleted then Some(mdir) else None)
        invariant mdir > 0 ==> all >= counts[0]
        decreases |counts| - mdir
        modifies this`id, this`pair
      {
        assert counts[..mdir + 1][..mdir] == counts[..mdir];
        id, mdir := id - counts[mdir], mdir + 1;
        pair := Some(mdir);
      }
    }
  }

  lemma TrackedPlace(attrs: seq<Item>, i: nat, id: int)
    requires ItemsOk(attrs) && i < |attrs|
    ensures Track(attrs[..i], id).Some? ==> Track(attrs[..i], id).value == Place(attrs[..i], id)
  {
    TrackIsPlace(attrs[..i], id);
  }
}
