/**
 Compaction preserves meaning: replaying what the traversal emits gives the
 entries of the full replay.
 */
module Compaction {
  import opened Tags
  import opened MetadataLog
  import opened Traverse
  import opened Sequences

  // The tags that outlive everything after them, with the ids they end up with.
  function Survivors(items: seq<Item>): (live: seq<Item>)
    ensures forall i :: 0 <= i < |live| ==> live[i].tag.type1 < SPLICE
  {
    if items == [] then [] else FirstSurvivor(items) + Survivors(items[1..])
  }

  function FirstSurvivor(items: seq<Item>): (live: seq<Item>)
    requires items != []
    ensures |live| <= 1
    ensures live != [] ==> live[0].tag.type1 < SPLICE
  {
    if Entries.Matches(items[0].tag) then
      match Survivor(items[0].tag, items[1..])
      case None => []
      case Some(t) => [Item(t, items[0].payload)]
    else []
  }

  // One later tag seen by a survivor, and by every survivor.
  function Swept(x: Item, t: Tag): (y: seq<Item>)
    ensures |y| <= 1
  {
    if Silent(t) then [x]
    else match Filter(x.tag, t)
      case None => []
      case Some(t') => [Item(t', x.payload)]
  }

  function SweptBy(t: Tag): Item -> seq<Item> { x => Swept(x, t) }

  function Sweep(live: seq<Item>, t: Tag): seq<Item> { FlatMap(SweptBy(t), live) }

  lemma {:induction false} SurvivorSnoc(t: Tag, rest: seq<Item>, x: Item)
    ensures Survivor(t, rest + [x]) ==
            match Survivor(t, rest)
            case None => None
            case Some(t') => if Silent(x.tag) then Some(t') else Filter(t', x.tag)
    decreases |rest|
  {
    if rest == [] {
      assert (rest + [x])[1..] == [];
    } else {
      assert (rest + [x])[1..] == rest[1..] + [x];
      if Silent(rest[0].tag) {
        SurvivorSnoc(t, rest[1..], x);
      } else if Filter(t, rest[0].tag).Some? {
        SurvivorSnoc(Filter(t, rest[0].tag).value, rest[1..], x);
      }
    }
  }

  lemma FirstSnoc(items: seq<Item>, x: Item)
    requires items != []
    ensures FirstSurvivor(items + [x]) == Sweep(FirstSurvivor(items), x.tag)
  {
    assert (items + [x])[1..] == items[1..] + [x];
    SurvivorSnoc(items[0].tag, items[1..], x);
    var first := FirstSurvivor(items);
    if first != [] {
      assert first == [first[0]];
      FlatMapOne(SweptBy(x.tag), first[0]);
    }
  }

  lemma {:induction false} SurvivorsSnoc(items: seq<Item>, x: Item)
    ensures Survivors(items + [x]) ==
            Sweep(Survivors(items), x.tag) + (if Entries.Matches(x.tag) then [x] else [])
  {
    if items == [] {
      assert (items + [x])[1..] == [];
    } else {
      var tail := items[1..];
      assert (items + [x])[1..] == tail + [x];
      SurvivorsSnoc(tail, x);
      FirstSnoc(items, x);
      FlatMapConcat(SweptBy(x.tag), FirstSurvivor(items), Survivors(tail));
    }
  }

  // ----- what a list of survivors says about a slot -----

  function Last(live: seq<Item>, id: int, key: nat): Option<Value> {
    if live == [] then None
    else
      var x := live[|live| - 1];
      if Writes(x, id, key) then Written(x, key) else Last(live[..|live| - 1], id, key)
  }

  // `x` owns slot `key` of its entry, whether or not it puts a value there
  predicate Owns(x: Item, key: nat) {
    match x.payload
    case Data(_) => x.tag.IsSlot() && x.tag.Key() == key
    case Source(_) => Carried(key)
  }

  ghost predicate Clash(x: Item, y: Item) {
    x.tag.id == y.tag.id && exists key :: Owns(x, key) && Owns(y, key)
  }

  ghost predicate Apart(live: seq<Item>) {
    forall i, j :: 0 <= i < j < |live| ==> !Clash(live[i], live[j])
  }

  // No slot tag touches an entry a move of the same log fills, and the other
  // way round: true of the attributes rename commits (see `Rename.RenameAttrsApart`).
  ghost predicate MovesApart(items: seq<Item>)
  {
    items == []
    || var init, x := items[..|items| - 1], items[|items| - 1];
       && MovesApart(init)
       && forall i :: 0 <= i < |Survivors(init)| ==>
            (Survivors(init)[i].payload.Source? || x.payload.Source?) ==> !Clash(Survivors(init)[i], x)
  }

  lemma NoOwnerNoValue(live: seq<Item>, id: int, key: nat)
    requires forall i :: 0 <= i < |live| ==> !(live[i].tag.id == id && Owns(live[i], key))
    ensures Last(live, id, key) == None
  {}

  lemma SweptApart(x: Item, y: Item, t: Tag)
    requires t.type1 == SPLICE ==> t.IsCreate() || t.IsDelete()
    requires Swept(x, t) != [] && Swept(y, t) != []
    requires !Clash(x, y)
    ensures !Clash(Swept(x, t)[0], Swept(y, t)[0])
  {
    var x', y' := Swept(x, t)[0], Swept(y, t)[0];
    if Clash(x', y') {
      var key :| Owns(x', key) && Owns(y', key);
      assert Owns(x, key) && Owns(y, key);
    }
  }

  lemma {:induction false} SweepApart(live: seq<Item>, t: Tag)
    requires t.type1 == SPLICE ==> t.IsCreate() || t.IsDelete()
    requires Apart(live)
    ensures Apart(Sweep(live, t))
  {
    if live != [] {
      var n := |live| - 1;
      var init := Sweep(live[..n], t);
      SweepApart(live[..n], t);
      if Swept(live[n], t) != [] {
        forall k | 0 <= k < |init| ensures !Clash(init[k], Swept(live[n], t)[0]) {
          var i := FlatMapOrigin(SweptBy(t), live[..n], k);
          SweptApart(live[i], live[n], t);
        }
      }
    }
  }

  // One item and one later tag, seen from one slot.
  lemma SweptWrites(y: Item, x: Item, id: int, key: nat)
    requires ItemOk(y) && ItemOk(x) && y.tag.type1 < SPLICE
    requires !(x.tag.IsSlot() && x.tag.id == id && x.tag.Key() == key)
    ensures var j := Before(x.tag, id);
            var writes := j.Some? && Writes(y, j.value, key);
            if Swept(y, x.tag) == [] then writes ==> Written(y, key) == None
            else
              var z := Swept(y, x.tag)[0];
              (Writes(z, id, key) <==> writes) && (writes ==> Written(z, key) == Written(y, key))
  {}

  // What a sweep does to a slot.
  lemma {:induction false} SweepLast(live: seq<Item>, x: Item, id: int, key: nat)
    requires ItemsOk(live) && ItemOk(x) && Apart(live)
    requires forall i :: 0 <= i < |live| ==> live[i].tag.type1 < SPLICE
    requires !(x.tag.IsSlot() && x.tag.id == id && x.tag.Key() == key)
    ensures Last(Sweep(live, x.tag), id, key) ==
            match Before(x.tag, id)
            case None => None
            case Some(j) => Last(live, j, key)
  {
    if live != [] {
      var n := |live| - 1;
      var init, y, j := Sweep(live[..n], x.tag), live[n], Before(x.tag, id);
      SweepLast(live[..n], x, id, key);
      SweptWrites(y, x, id, key);
      if Swept(y, x.tag) != [] {
        assert Sweep(live, x.tag)[..|init|] == init;
      } else {
        assert Sweep(live, x.tag) == init;
      }
      if Swept(y, x.tag) == [] && j.Some? && Writes(y, j.value, key) {
        forall i | 0 <= i < n ensures !(live[i].tag.id == j.value && Owns(live[i], key)) {
          assert !Clash(live[i], y);
        }
        NoOwnerNoValue(live[..n], j.value, key);
      }
    }
  }

  lemma AppendApart(live: seq<Item>, x: Item)
    requires ItemsOk(live) && ItemOk(x) && Apart(live)
    requires forall i :: 0 <= i < |live| ==> live[i].tag.type1 < SPLICE
    requires forall i :: 0 <= i < |live| ==>
               (live[i].payload.Source? || x.payload.Source?) ==> !Clash(live[i], x)
    ensures Apart(Sweep(live, x.tag) + (if Entries.Matches(x.tag) then [x] else []))
  {
    SweepApart(live, x.tag);
    if Entries.Matches(x.tag) {
      var after := Sweep(live, x.tag);
      forall k | 0 <= k < |after| ensures !Clash(after[k], x) {
        var i := FlatMapOrigin(SweptBy(x.tag), live, k);
        assert Swept(live[i], x.tag)[0].tag.id == live[i].tag.id;
      }
    }
  }

  lemma {:induction false} SurvivorOk(t: Tag, rest: seq<Item>)
    requires ItemsOk(rest) && t.id >= 0
    ensures Survivor(t, rest).Some? ==> Survivor(t, rest).value.id >= 0
    decreases |rest|
  {
    if rest != [] && (Silent(rest[0].tag) || Filter(t, rest[0].tag).Some?) {
      SurvivorOk(if Silent(rest[0].tag) then t else Filter(t, rest[0].tag).value, rest[1..]);
    }
  }

  lemma {:induction false} SurvivorsOk(items: seq<Item>)
    requires ItemsOk(items)
    ensures ItemsOk(Survivors(items))
  {
    if items != [] {
      SurvivorsOk(items[1..]);
      SurvivorOk(items[0].tag, items[1..]);
    }
  }

  lemma {:induction false} SurvivorsApart(items: seq<Item>)
    requires ItemsOk(items) && MovesApart(items)
    ensures Apart(Survivors(items))
  {
    if items != [] {
      var init, x := items[..|items| - 1], items[|items| - 1];
      SurvivorsApart(init);
      SurvivorsOk(init);
      assert items == init + [x];
      SurvivorsSnoc(init, x);
      AppendApart(Survivors(init), x);
    }
  }

  // A slot of the replay is what its one surviving writer says.
  lemma {:induction false} SurvivorsMeaning(items: seq<Item>, id: int, key: nat)
    requires ItemsOk(items) && MovesApart(items) && id >= 0
    ensures Last(Survivors(items), id, key) == Slot(ReplayItems(items), id, key)
  {
    if items != [] {
      var init, x := items[..|items| - 1], items[|items| - 1];
      var live := Survivors(init);
      assert items == init + [x];
      SurvivorsSnoc(init, x);
      SurvivorsApart(init);
      SurvivorsOk(init);
      ApplyItemSlot(ReplayItems(init), x, id, key);
      var after := Sweep(live, x.tag);
      assert Entries.Matches(x.tag) ==> (after + [x])[..|after|] == after;
      assert !Entries.Matches(x.tag) ==> after + [] == after;
      assert Writes(x, id, key) ==> Entries.Matches(x.tag);
      if !Writes(x, id, key) {
        SweepLast(live, x, id, key);
        var j := Before(x.tag, id);
        if j.Some? {
          SurvivorsMeaning(init, j.value, key);
        }
      }
    }
  }

  // ----- from survivors to emitted tags -----

  function OutOf(x: Item, w: Window): (out: seq<Rec>)
  {
    if w.sel.Matches(x.tag) then Process(x.tag, x.payload, w) else []
  }

  function OutBy(w: Window): Item -> seq<Rec> { x => OutOf(x, w) }

  function Out(live: seq<Item>, w: Window): seq<Rec> { FlatMap(OutBy(w), live) }

  lemma {:induction false} EmissionIsOut(items: seq<Item>, w: Window)
    requires w.sel != All
    ensures Emission(items, w) == Out(Survivors(items), w)
  {
    if items != [] {
      EmissionIsOut(items[1..], w);
      var first := FirstSurvivor(items);
      FlatMapConcat(OutBy(w), first, Survivors(items[1..]));
      if first != [] {
        assert first == [first[0]];
        FlatMapOne(OutBy(w), first[0]);
      }
    }
  }

  lemma {:induction false} EmitLogIsEmission(log: seq<Rec>, w: Window)
    ensures EmitLog(log, w) == Emission(Lift(log), w)
  {
    if log != [] {
      EmitLogIsEmission(log[1..], w);
      assert Lift(log)[1..] == Lift(log[1..]);
    }
  }

  // ----- the meaning of what is emitted -----

  lemma {:induction false} LastConcat(a: seq<Item>, b: seq<Item>, id: int, key: nat)
    ensures Last(b, id, key).Some? ==> Last(a + b, id, key) == Last(b, id, key)
    ensures Last(b, id, key) == None && Last(a, id, key) == None ==> Last(a + b, id, key) == None
    ensures (forall i :: 0 <= i < |b| ==> !Writes(b[i], id, key)) ==> Last(a + b, id, key) == Last(a, id, key)
  {
    if b == [] {
      assert a + b == a;
    } else {
      var init := b[..|b| - 1];
      assert (a + b)[..|a + b| - 1] == a + init;
      LastConcat(a, init, id, key);
    }
  }

  lemma LiftConcat(a: seq<Rec>, b: seq<Rec>)
    ensures Lift(a + b) == Lift(a) + Lift(b)
  {}

  predicate Shows(w: Window, id: int, key: nat) {
    w.begin <= id - w.diff < w.end && (w.sel == Movable ==> Carried(key))
  }

  // Every tag a move emits sets a carried slot of its destination.
  lemma MoveOwners(log: seq<Rec>, t: Tag, diff: int)
    requires LogOk(log)
    ensures var out := EmitLog(log, MoveWindow(t, diff));
            forall k :: 0 <= k < |out| ==> out[k].tag.id == t.id + diff && Carried(out[k].tag.Key())
  {
    hide Emission, EmitLog, Survivors, FlatMap;
    var w, live := MoveWindow(t, diff), Survivors(Lift(log));
    EmitLogIsEmission(log, w);
    EmissionIsOut(Lift(log), w);
    SurvivorsOk(Lift(log));
    forall k | 0 <= k < |Out(live, w)|
      ensures Out(live, w)[k].tag.id == t.id + diff && Carried(Out(live, w)[k].tag.Key())
    {
      SurvivorsData(Lift(log));
      var i := FlatMapOrigin(OutBy(w), live, k);
    }
  }

  lemma {:induction false} SurvivorsData(items: seq<Item>)
    requires forall i :: 0 <= i < |items| ==> items[i].payload.Data?
    ensures forall i :: 0 <= i < |Survivors(items)| ==> Survivors(items)[i].payload.Data?
  {
    if items != [] {
      SurvivorsData(items[1..]);
    }
  }

  lemma {:induction false} NoMovesApart(items: seq<Item>)
    requires forall i :: 0 <= i < |items| ==> items[i].payload.Data?
    ensures MovesApart(items)
  {
    if items != [] {
      var init := items[..|items| - 1];
      NoMovesApart(init);
      SurvivorsData(init);
    }
  }

  lemma MoveMeaning(log: seq<Rec>, t: Tag, diff: int, id: int, key: nat)
    requires LogOk(log)
    ensures Last(Lift(EmitLog(log, MoveWindow(t, diff))), id, key) ==
            if id == t.id + diff && Carried(key) then Slot(Replay(log), t.size, key) else None
    decreases 0, |log| + 1
  {
    hide Replay, Emission, Survivors, MovesApart, ReplayItems, Out, EmitLog, Last;
    var w, live := MoveWindow(t, diff), Survivors(Lift(log));
    EmitLogIsEmission(log, w);
    EmissionIsOut(Lift(log), w);
    SurvivorsOk(Lift(log));
    SurvivorsData(Lift(log));
    NoMovesApart(Lift(log));
    SurvivorsApart(Lift(log));
    OutMeaningData(live, w, id, key);
    SurvivorsMeaning(Lift(log), t.size, key);
    LiftReplay(log);
  }

  lemma {:induction false} OutMeaningData(live: seq<Item>, w: Window, id: int, key: nat)
    requires ItemsOk(live) && Apart(live) && w.sel != All
    requires forall i :: 0 <= i < |live| ==> live[i].tag.type1 < SPLICE && live[i].payload.Data?
    ensures Last(Lift(Out(live, w)), id, key) ==
            if Shows(w, id, key) then Last(live, id - w.diff, key) else None
  {
    if live != [] {
      var init, x := live[..|live| - 1], live[|live| - 1];
      OutMeaningData(init, w, id, key);
      OutStep(init, x, w, id, key);
    }
  }

  // The one tag, if any, emitted for a plain survivor.
  lemma DataWrites(x: Item, w: Window, id: int, key: nat)
    requires ItemOk(x) && x.tag.type1 < SPLICE && x.payload.Data? && w.sel != All
    ensures var b, shown := Lift(OutOf(x, w)), Shows(w, id, key) && Writes(x, id - w.diff, key);
            if b == [] then !shown
            else |b| == 1 && (Writes(b[0], id, key) <==> shown)
                 && (shown ==> Written(b[0], key) == Written(x, key))
  {}

  lemma OutStep(init: seq<Item>, x: Item, w: Window, id: int, key: nat)
    requires ItemOk(x) && x.tag.type1 < SPLICE && x.payload.Data? && w.sel != All
    requires Last(Lift(Out(init, w)), id, key) ==
             if Shows(w, id, key) then Last(init, id - w.diff, key) else None
    ensures Last(Lift(Out(init, w) + OutOf(x, w)), id, key) ==
            if Shows(w, id, key) then Last(init + [x], id - w.diff, key) else None
  {
    var a, b := Lift(Out(init, w)), Lift(OutOf(x, w));
    LiftConcat(Out(init, w), OutOf(x, w));
    DataWrites(x, w, id, key);
    LastSnoc(init, x, id - w.diff, key);
    if b == [] {
      assert a + b == a;
    } else {
      assert b == [b[0]];
      LastSnoc(a, b[0], id, key);
    }
  }

  lemma LastSnoc(a: seq<Item>, x: Item, id: int, key: nat)
    ensures Last(a + [x], id, key) == if Writes(x, id, key) then Written(x, key) else Last(a, id, key)
  {
    assert (a + [x])[..|a|] == a;
  }

  lemma {:induction false} OutMeaning(live: seq<Item>, w: Window, id: int, key: nat)
    requires ItemsOk(live) && Apart(live) && w.sel == Entries
    requires forall i :: 0 <= i < |live| ==> live[i].tag.type1 < SPLICE
    ensures Last(Lift(Out(live, w)), id, key) ==
            if Shows(w, id, key) then Last(live, id - w.diff, key) else None
  {
    if live != [] {
      var init, x := live[..|live| - 1], live[|live| - 1];
      OutMeaning(init, w, id, key);
      assert live == init + [x];
      if x.payload.Data? {
        OutStep(init, x, w, id, key);
      } else {
        if x.tag.id == id - w.diff && Carried(key) {
          forall i | 0 <= i < |init| ensures !(init[i].tag.id == id - w.diff && Owns(init[i], key)) {
            assert !Clash(live[i], x);
            assert Owns(x, key);
          }
          NoOwnerNoValue(init, id - w.diff, key);
        }
        MoveStep(init, x, w, id, key);
      }
    }
  }

  lemma MoveStep(init: seq<Item>, x: Item, w: Window, id: int, key: nat)
    requires ItemOk(x) && x.payload.Source? && w.sel == Entries
    requires Last(Lift(Out(init, w)), id, key) ==
             if Shows(w, id, key) then Last(init, id - w.diff, key) else None
    requires x.tag.id == id - w.diff && Carried(key) ==> Last(init, id - w.diff, key) == None
    ensures Last(Lift(Out(init, w) + OutOf(x, w)), id, key) ==
            if Shows(w, id, key) then Last(init + [x], id - w.diff, key) else None
  {
    var a, b := Lift(Out(init, w)), Lift(OutOf(x, w));
    LiftConcat(Out(init, w), OutOf(x, w));
    LastSnoc(init, x, id - w.diff, key);
    LastConcat(a, b, id, key);
    if w.Contains(x.tag.id) {
      assert OutOf(x, w) == EmitLog(x.payload.log, MoveWindow(x.tag, w.diff));
      MoveMeaning(x.payload.log, x.tag, w.diff, id, key);
      MoveOwners(x.payload.log, x.tag, w.diff);
    } else {
      assert OutOf(x, w) == [];
    }
  }

  // ----- what is emitted is a log of slot tags, each slot once -----

  predicate SlotsOnly(log: seq<Rec>) {
    forall i :: 0 <= i < |log| ==> RecOk(log[i]) && log[i].tag.type1 < SPLICE
  }

  predicate SameSlot(r: Rec, s: Rec) { r.tag.id == s.tag.id && r.tag.Key() == s.tag.Key() }

  predicate Once(log: seq<Rec>) {
    forall i, j :: 0 <= i < j < |log| ==> !SameSlot(log[i], log[j])
  }

  lemma OnceConcat(a: seq<Rec>, b: seq<Rec>)
    requires SlotsOnly(a) && SlotsOnly(b) && Once(a) && Once(b)
    requires forall i, j :: 0 <= i < |a| && 0 <= j < |b| ==> !SameSlot(a[i], b[j])
    ensures SlotsOnly(a + b) && Once(a + b)
  {}

  lemma {:induction false} SlotsOnlyReplay(log: seq<Rec>, id: int, key: nat)
    requires SlotsOnly(log) && id >= 0
    ensures Slot(Replay(log), id, key) == Last(Lift(log), id, key)
  {
    if log != [] {
      var init, r := log[..|log| - 1], log[|log| - 1];
      SlotsOnlyReplay(init, id, key);
      var x := Item(r.tag, Data(r.data));
      ApplyItemSlot(Replay(init), x, id, key);
      LastSnoc(Lift(init), x, id, key);
      assert Lift(log) == Lift(init) + [x];
    }
  }

  // What one survivor emits: slots it owns, each once.
  lemma OutOfShape(x: Item, w: Window)
    requires ItemOk(x) && x.tag.type1 < SPLICE && w.sel != All && w.begin + w.diff >= 0
    requires x.payload.Source? ==> w.sel == Entries
    ensures var out := OutOf(x, w);
            && SlotsOnly(out) && Once(out)
            && forall k :: 0 <= k < |out| ==> out[k].tag.id == x.tag.id + w.diff && Owns(x, out[k].tag.Key())
    decreases if x.payload.Source? then 1 else 0, 0
  {
    if x.payload.Source? && w.Contains(x.tag.id) {
      var log := x.payload.log;
      var mw, live := MoveWindow(x.tag, w.diff), Survivors(Lift(log));
      EmitLogIsEmission(log, mw);
      EmissionIsOut(Lift(log), mw);
      SurvivorsOk(Lift(log));
      SurvivorsData(Lift(log));
      NoMovesApart(Lift(log));
      SurvivorsApart(Lift(log));
      OutShape(live, mw);
      MoveOwners(log, x.tag, w.diff);
    }
  }

  lemma {:induction false} OutShape(live: seq<Item>, w: Window)
    requires ItemsOk(live) && Apart(live) && w.sel != All && w.begin + w.diff >= 0
    requires forall i :: 0 <= i < |live| ==> live[i].tag.type1 < SPLICE
    requires w.sel != Entries ==> forall i :: 0 <= i < |live| ==> live[i].payload.Data?
    ensures SlotsOnly(Out(live, w)) && Once(Out(live, w))
    decreases if w.sel == Entries then 1 else 0, |live|
  {
    if live != [] {
      var init, x := live[..|live| - 1], live[|live| - 1];
      OutShape(init, w);
      OutOfShape(x, w);
      var a, b := Out(init, w), OutOf(x, w);
      forall i, j | 0 <= i < |a| && 0 <= j < |b| ensures !SameSlot(a[i], b[j]) {
        OutCross(init, x, w, i, b[j]);
      }
      OnceConcat(a, b);
    }
  }

  // A tag emitted for an earlier survivor is not one that `x` emits.
  lemma OutCross(init: seq<Item>, x: Item, w: Window, i: nat, r: Rec)
    requires ItemsOk(init) && w.sel != All && w.begin + w.diff >= 0
    requires forall k :: 0 <= k < |init| ==> init[k].tag.type1 < SPLICE && !Clash(init[k], x)
    requires w.sel != Entries ==> forall k :: 0 <= k < |init| ==> init[k].payload.Data?
    requires i < |Out(init, w)| && r.tag.id == x.tag.id + w.diff && Owns(x, r.tag.Key())
    ensures !SameSlot(Out(init, w)[i], r)
    decreases if w.sel == Entries then 1 else 0, |init|
  {
    var k := FlatMapOrigin(OutBy(w), init, i);
    OutOfShape(init[k], w);
  }

  ghost predicate Settled(live: seq<Item>) {
    ItemsOk(live) && Apart(live) && forall i :: 0 <= i < |live| ==> live[i].tag.type1 < SPLICE
  }

  lemma SurvivorsSettled(items: seq<Item>)
    requires ItemsOk(items) && MovesApart(items)
    ensures Settled(Survivors(items))
  {
    SurvivorsOk(items);
    SurvivorsApart(items);
  }

  lemma OutReplay(live: seq<Item>, w: Window, out: seq<Rec>, id: nat, key: nat)
    requires Settled(live) && w.sel == Entries && w.begin + w.diff >= 0
    requires out == Out(live, w)
    ensures Slot(Replay(out), id, key) == if Shows(w, id, key) then Last(live, id - w.diff, key) else None
  {
    OutShape(live, w);
    SlotsOnlyReplay(out, id, key);
    OutMeaning(live, w, id, key);
  }

  // ----- the theorem -----

  function CompactWindow(begin: nat, end: nat): Window { Window(Entries, begin, end, -(begin as int)) }

  // What lfs_dir_compact writes for entries begin..end-1 replays to exactly
  // those entries of the full replay, renumbered from zero.
  lemma CompactionPreservesMeaning(items: seq<Item>, begin: nat, end: nat, id: nat, key: nat)
    requires ItemsOk(items) && MovesApart(items)
    ensures Slot(Replay(Emission(items, CompactWindow(begin, end))), id, key) ==
            if id < end - begin then Slot(ReplayItems(items), id + begin, key) else None
  {
    hide Replay, Emission, Survivors, Settled, MovesApart, ItemsOk, ReplayItems, Out;
    var w := CompactWindow(begin, end);
    EmissionIsOut(items, w);
    SurvivorsSettled(items);
    OutReplay(Survivors(items), w, Emission(items, w), id, key);
    SurvivorsMeaning(items, id + begin, key);
  }

  // No slot is emitted twice, and no splice is emitted at all.
  lemma CompactionEmitsOnce(items: seq<Item>, begin: nat, end: nat)
    requires ItemsOk(items) && MovesApart(items)
    ensures var out := Emission(items, CompactWindow(begin, end));
            SlotsOnly(out) && Once(out)
  {
    var w := CompactWindow(begin, end);
    EmissionIsOut(items, w);
    SurvivorsSettled(items);
    OutShape(Survivors(items), w);
  }

  // ----- the count a fetch of the compacted log finds -----

  lemma OutIds(live: seq<Item>, w: Window, k: nat)
    requires Settled(live) && w.sel == Entries && w.begin + w.diff >= 0 && k < |Out(live, w)|
    ensures w.begin + w.diff <= Out(live, w)[k].tag.id < w.end + w.diff
  {
    var i := FlatMapOrigin(OutBy(w), live, k);
    OutOfShape(live[i], w);
  }

  lemma {:induction false} CountBounds(log: seq<Rec>, n: nat)
    requires SlotsOnly(log) && forall k :: 0 <= k < |log| ==> log[k].tag.id < n
    ensures 0 <= Count(log) <= n
    ensures forall id :: id >= 0 && Last(Lift(log), id, 0x100 * NAME).Some? ==> Count(log) > id
  {
    if log != [] {
      var init, r := log[..|log| - 1], log[|log| - 1];
      CountBounds(init, n);
      assert Lift(log) == Lift(init) + [Item(r.tag, Data(r.data))];
      forall id | id >= 0 && Last(Lift(log), id, 0x100 * NAME).Some? ensures Count(log) > id {
        LastSnoc(Lift(init), Item(r.tag, Data(r.data)), id, 0x100 * NAME);
      }
    }
  }

  // `dir.count = end - begin` is what scanning the compacted log finds, when
  // every entry that was kept has a name.
  lemma CompactionCount(items: seq<Item>, begin: nat, end: nat)
    requires ItemsOk(items) && MovesApart(items) && begin <= end
    requires forall id :: begin <= id < end ==> Slot(ReplayItems(items), id, 0x100 * NAME).Some?
    ensures Count(Emission(items, CompactWindow(begin, end))) == end - begin
  {
    hide Emission, Survivors, MovesApart, ReplayItems, Out, Last, Count, ItemsOk, Apart;
    var w, live := CompactWindow(begin, end), Survivors(items);
    var out := Emission(items, w);
    EmissionIsOut(items, w);
    SurvivorsSettled(items);
    CompactionEmitsOnce(items, begin, end);
    forall k | 0 <= k < |out| ensures out[k].tag.id < end - begin {
      OutIds(live, w, k);
    }
    CountBounds(out, end - begin);
    if begin < end {
      var last: nat := end - begin - 1;
      CompactionPreservesMeaning(items, begin, end, last, 0x100 * NAME);
      SlotsOnlyReplay(out, last, 0x100 * NAME);
    }
  }
}
