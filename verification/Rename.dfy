/**
 fs/rename.rs: what the attributes of a rename do to a directory.
 */
module Rename {
  import opened Tags
  import opened MetadataLog
  import opened Traverse
  import opened Compaction
  import opened Sequences

  // ----- the attributes -----

  function Noop(): Item { Item(Tag(NAME, 0, 0, 0), Data([])) }
  function DeleteAttr(id: nat): Item { Item(Tag(SPLICE, 0xff, id, 0), Data([])) }
  function CreateAttr(id: nat): Item { Item(Tag(SPLICE, 0x01, id, 0), Data([])) }

  // The new entry: `kind` is the chunk of its type (file or directory), `log`
  // the directory the old entry is in.
  datatype Target = Target(over: bool, id: nat, kind: nat, name: Bytes)

  function Attrs(t: Target, log: seq<Rec>, oldid: nat, dropped: Option<nat>): seq<Item> {
    [ if t.over then DeleteAttr(t.id) else Noop(),
      CreateAttr(t.id),
      Item(Tag(NAME, t.kind, t.id, |t.name|), Data(t.name)),
      Item(Tag(FROM, 1, t.id, oldid), Source(log)),
      if dropped.Some? then DeleteAttr(dropped.value) else Noop() ]
  }

  predicate TargetOk(t: Target, log: seq<Rec>, oldid: nat) {
    0 < t.kind < 0x100 && |t.name| < REMOVED && oldid < REMOVED && LogOk(log)
  }

  function Remove(s: seq<Entry>, i: nat): seq<Entry> { if i < |s| then s[..i] + s[i + 1..] else s }

  function Insert(s: seq<Entry>, i: nat, e: Entry): seq<Entry>
    requires i <= |s|
  {
    s[..i] + [e] + s[i..]
  }

  // the name it is given, and everything but the name of the old entry
  function NewEntry(t: Target, log: seq<Rec>, oldid: nat): Entry {
    map[0 := Value(t.kind, t.name)] + CarriedSlots(log, oldid)
  }

  lemma ReplayStep(items: seq<Item>, x: Item)
    ensures ReplayItems(items + [x]) == ApplyItem(ReplayItems(items), x)
  {
    assert (items + [x])[..|items|] == items;
  }

  lemma DeleteStep(s: seq<Entry>, id: nat)
    ensures ApplyItem(s, DeleteAttr(id)) == Remove(s, id) && ApplyItem(s, Noop()) == s
  {}

  lemma NewStep(s: seq<Entry>, t: Target, log: seq<Rec>, oldid: nat)
    requires TargetOk(t, log, oldid) && t.id <= |s|
    ensures var a := Attrs(t, log, oldid, None);
            ApplyItem(ApplyItem(ApplyItem(s, a[1]), a[2]), a[3]) == Insert(s, t.id, NewEntry(t, log, oldid))
  {
    var a := Attrs(t, log, oldid, None);
    var s1 := ApplyItem(s, a[1]);
    assert s1 == Insert(s, t.id, map[]);
    var s2 := ApplyItem(s1, a[2]);
    assert s2 == Insert(s, t.id, map[0 := Value(t.kind, t.name)]);
  }

  // What the commit makes of the directory the new name is in.
  lemma RenameMeaning(items: seq<Item>, t: Target, log: seq<Rec>, oldid: nat, dropped: Option<nat>)
    requires TargetOk(t, log, oldid)
    requires var s := ReplayItems(items); if t.over then t.id < |s| else t.id <= |s|
    ensures var s := ReplayItems(items);
            var added := Insert(Base(s, t), t.id, NewEntry(t, log, oldid));
            ReplayItems(items + Attrs(t, log, oldid, dropped)) ==
            if dropped.Some? then Remove(added, dropped.value) else added
  {
    hide ReplayItems, ApplyItem, NewEntry, Insert, Remove;
    var a := Attrs(t, log, oldid, dropped);
    assert items + a == items + [a[0]] + [a[1]] + [a[2]] + [a[3]] + [a[4]];
    ReplayStep(items, a[0]);
    ReplayStep(items + [a[0]], a[1]);
    ReplayStep(items + [a[0]] + [a[1]], a[2]);
    ReplayStep(items + [a[0]] + [a[1]] + [a[2]], a[3]);
    ReplayStep(items + [a[0]] + [a[1]] + [a[2]] + [a[3]], a[4]);
    var s := ReplayItems(items);
    DeleteStep(s, t.id);
    var base := ApplyItem(s, a[0]);
    assert t.id <= |base| by { RemoveLength(s, t.id); }
    NewStep(base, t, log, oldid);
    DeleteStep(Insert(base, t.id, NewEntry(t, log, oldid)), if dropped.Some? then dropped.value else 0);
  }

  lemma RemoveLength(s: seq<Entry>, i: nat)
    ensures |Remove(s, i)| == if i < |s| then |s| - 1 else |s|
  {}

  // Where the old entry is once the entry that is replaced is gone, and its id
  // once the new entry is in.
  function OldAt(t: Target, oldid: nat): nat { if t.over && t.id < oldid then oldid - 1 else oldid }
  function NewOldId(t: Target, oldid: nat): nat { if !t.over && t.id <= oldid then oldid + 1 else oldid }

  function Base(s: seq<Entry>, t: Target): seq<Entry> { if t.over then Remove(s, t.id) else s }

  lemma OldIsThere(s: seq<Entry>, t: Target, oldid: nat)
    requires oldid < |s| && (if t.over then t.id < |s| && t.id != oldid else t.id <= |s|)
    ensures OldAt(t, oldid) < |Base(s, t)| && Base(s, t)[OldAt(t, oldid)] == s[oldid] && t.id <= |Base(s, t)|
  {}

  // A rename within one directory: the id of the old entry moves when a new
  // one is put in front of it, and the entry deleted in the end is the old
  // one. Everything else stays, in order.
  lemma SameDirectory(s: seq<Entry>, t: Target, log: seq<Rec>, oldid: nat)
    requires oldid < |s| && (if t.over then t.id < |s| && t.id != oldid else t.id <= |s|)
    ensures var base, at := Base(s, t), OldAt(t, oldid);
            && t.id <= |base| && at < |base|
            && (if at < t.id then t.id - 1 else t.id) <= |Remove(base, at)|
            && Remove(Insert(base, t.id, NewEntry(t, log, oldid)), NewOldId(t, oldid)) ==
               Insert(Remove(base, at), if at < t.id then t.id - 1 else t.id, NewEntry(t, log, oldid))
  {
    hide NewEntry, Insert, Remove, Base;
    OldIsThere(s, t, oldid);
    RemoveLength(Base(s, t), OldAt(t, oldid));
    InsertThenRemove(Base(s, t), t.id, OldAt(t, oldid), NewEntry(t, log, oldid));
  }

  lemma InsertThenRemove(s: seq<Entry>, id: nat, at: nat, e: Entry)
    requires id <= |s| && at < |s|
    ensures (if at < id then id - 1 else id) <= |Remove(s, at)|
    ensures Remove(Insert(s, id, e), if at < id then at else at + 1) ==
            Insert(Remove(s, at), if at < id then id - 1 else id, e)
  {
    hide Insert, Remove;
    RemoveLength(s, at);
    if at < id {
      assert s == s[..at] + [s[at]] + s[at + 1..id] + s[id..];
      InsertBehind(s[..at], s[at], s[at + 1..id], s[id..], e);
    } else {
      assert s == s[..id] + s[id..at] + [s[at]] + s[at + 1..];
      InsertInFront(s[..id], s[id..at], s[at], s[at + 1..], e);
    }
  }

  lemma InsertBehind(p: seq<Entry>, x: Entry, q: seq<Entry>, r: seq<Entry>, e: Entry)
    requires |p| + |q| <= |Remove(p + [x] + q + r, |p|)|
    ensures Remove(Insert(p + [x] + q + r, |p| + 1 + |q|, e), |p|) == Insert(Remove(p + [x] + q + r, |p|), |p| + |q|, e)
  {
    hide Insert, Remove;
    InsertAt(p + [x] + q, r, e);
    Regroup(p, [x], q, [e] + r);
    Regroup(p + [x], q, [e], r);
    RemoveAt(p, x, q + ([e] + r));
    Regroup(p, [x], q, r);
    RemoveAt(p, x, q + r);
    Regroup(p, q, [], r);
    InsertAt(p + q, r, e);
    Regroup(p, q, [e], r);
  }

  lemma InsertInFront(p: seq<Entry>, q: seq<Entry>, x: Entry, r: seq<Entry>, e: Entry)
    requires |p| <= |Remove(p + q + [x] + r, |p| + |q|)|
    ensures Remove(Insert(p + q + [x] + r, |p|, e), |p| + |q| + 1) == Insert(Remove(p + q + [x] + r, |p| + |q|), |p|, e)
  {
    hide Insert, Remove;
    Regroup(p, q, [x], r);
    InsertAt(p, q + ([x] + r), e);
    Regroup(p + [e], q, [x], r);
    RemoveAt(p + [e] + q, x, r);
    RemoveAt(p + q, x, r);
    Regroup(p, q, [], r);
    InsertAt(p, q + r, e);
    Regroup(p + [e], q, [], r);
  }

  lemma Regroup(a: seq<Entry>, b: seq<Entry>, c: seq<Entry>, d: seq<Entry>)
    ensures a + b + c + d == a + b + (c + d) == a + (b + (c + d))
    ensures c == [] ==> a + b + d == a + (b + d) == a + (b + c + d)
    ensures a + (b + c + d) == a + b + c + d
  {}

  lemma RemoveAt(p: seq<Entry>, x: Entry, r: seq<Entry>)
    ensures Remove(p + [x] + r, |p|) == p + r
  {}

  lemma InsertAt(p: seq<Entry>, r: seq<Entry>, e: Entry)
    ensures Insert(p + r, |p|, e) == p + [e] + r
  {}

  // ----- the attributes keep the entry they fill apart -----

  ghost predicate AllData(items: seq<Item>) { forall i :: 0 <= i < |items| ==> items[i].payload.Data? }

  lemma SnocSurvivors(items: seq<Item>, x: Item)
    ensures Survivors(items + [x]) == Sweep(Survivors(items), x.tag) + (if Entries.Matches(x.tag) then [x] else [])
    ensures AllData(Survivors(items)) && x.payload.Data? ==> AllData(Survivors(items + [x]))
  {
    SurvivorsSnoc(items, x);
    SweepKeeps(Survivors(items), x.tag);
  }

  // A survivor of a sweep is one of those before it, perhaps with another id;
  // its id is not that of an entry created by the sweeping tag.
  lemma SweepKeeps(live: seq<Item>, t: Tag)
    ensures AllData(live) ==> AllData(Sweep(live, t))
    ensures t.IsCreate() ==> forall i :: 0 <= i < |Sweep(live, t)| ==> Sweep(live, t)[i].tag.id != t.id
  {
    forall i | 0 <= i < |Sweep(live, t)|
      ensures AllData(live) ==> Sweep(live, t)[i].payload.Data?
      ensures t.IsCreate() ==> Sweep(live, t)[i].tag.id != t.id
    {
      var k := FlatMapOrigin(SweptBy(t), live, i);
    }
  }

  lemma ApartSnoc(items: seq<Item>, x: Item)
    requires MovesApart(items)
    requires forall i :: 0 <= i < |Survivors(items)| ==>
               (Survivors(items)[i].payload.Source? || x.payload.Source?) ==> !Clash(Survivors(items)[i], x)
    ensures MovesApart(items + [x])
  {
    assert (items + [x])[..|items|] == items;
  }

  lemma {:induction false} LogApart(log: seq<Rec>)
    ensures MovesApart(Lift(log)) && AllData(Survivors(Lift(log)))
  {
    if log != [] {
      var n := |log| - 1;
      LogApart(log[..n]);
      assert Lift(log) == Lift(log[..n]) + [Lift(log)[n]];
      ApartSnoc(Lift(log[..n]), Lift(log)[n]);
      SnocSurvivors(Lift(log[..n]), Lift(log)[n]);
    }
  }

  // So the compaction theorem covers a directory compacted by a rename.
  lemma RenameAttrsApart(log: seq<Rec>, t: Target, from: seq<Rec>, oldid: nat, dropped: Option<nat>)
    requires LogOk(log) && TargetOk(t, from, oldid)
    ensures ItemsOk(Lift(log) + Attrs(t, from, oldid, dropped))
    ensures MovesApart(Lift(log) + Attrs(t, from, oldid, dropped))
  {
    hide MovesApart, Survivors, ItemsOk;
    var a := Attrs(t, from, oldid, dropped);
    var i1 := Lift(log) + [a[0]];
    LogApart(log);
    SnocSurvivors(Lift(log), a[0]);
    DataApart(Lift(log), a[0]);
    var i2 := i1 + [a[1]];
    SnocSurvivors(i1, a[1]);
    DataApart(i1, a[1]);
    SweepKeeps(Survivors(i1), a[1].tag);
    NamedAndMoved(i2, a[2], a[3]);
    var i4 := i2 + [a[2]] + [a[3]];
    NoSlotNoClash(Survivors(i4), a[4]);
    ApartSnoc(i4, a[4]);
    assert i4 + [a[4]] == Lift(log) + a;
    AttrsOk(log, t, from, oldid, dropped);
  }

  lemma AttrsOk(log: seq<Rec>, t: Target, from: seq<Rec>, oldid: nat, dropped: Option<nat>)
    requires LogOk(log) && TargetOk(t, from, oldid)
    ensures ItemsOk(Lift(log) + Attrs(t, from, oldid, dropped))
  {
    forall i | 0 <= i < |log| ensures ItemOk(Lift(log)[i]) {
      assert RecOk(log[i]);
    }
  }

  lemma DataApart(items: seq<Item>, x: Item)
    requires MovesApart(items) && AllData(Survivors(items)) && x.payload.Data?
    ensures MovesApart(items + [x])
  {
    hide Survivors, Clash;
    ApartSnoc(items, x);
  }

  lemma NamedAndMoved(items: seq<Item>, name: Item, move: Item)
    requires MovesApart(items) && AllData(Survivors(items))
    requires forall i :: 0 <= i < |Survivors(items)| ==> Survivors(items)[i].tag.id != move.tag.id
    requires name.tag.type1 == NAME && name.payload.Data? && move.payload.Source?
    ensures MovesApart(items + [name] + [move])
  {
    hide MovesApart, Survivors, Clash;
    SurvivorsSnoc(items, name);
    DataApart(items, name);
    NoClashWithMove(Survivors(items), name, move);
    ApartSnoc(items + [name], move);
  }

  // The only survivor with the new id is the name, which a move does not touch.
  lemma NoClashWithMove(live: seq<Item>, name: Item, move: Item)
    requires name.tag.type1 == NAME && name.payload.Data? && move.payload.Source?
    requires forall i :: 0 <= i < |live| ==> live[i].tag.id != move.tag.id
    ensures forall i :: 0 <= i < |Sweep(live, name.tag) + [name]| ==> !Clash((Sweep(live, name.tag) + [name])[i], move)
  {
    forall i | 0 <= i < |Sweep(live, name.tag)| ensures Sweep(live, name.tag)[i].tag.id != move.tag.id {
      var k := FlatMapOrigin(SweptBy(name.tag), live, i);
    }
  }

  lemma NoSlotNoClash(live: seq<Item>, x: Item)
    requires x.payload.Data? && !x.tag.IsSlot()
    ensures forall i :: 0 <= i < |live| ==> !Clash(live[i], x)
  {}
}
