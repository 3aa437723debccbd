/**
 The tail list as the tree of directories sees it. While a directory that was
 split or relocated is not linked yet (dir/commit.rs, lfs_dir_orphaningcommit),
 the entry of its parent may already lead to the new pairs. A slot holds both;
 what the directories show depends on what is seen, and on the pending move.
 */
module Slots {
  import opened Tags
  import opened MetadataLog
  import opened Fetch
  import opened GState
  import opened TailList
  import opened Rename

  // What has become of one mdir of the list: the mdirs that the list links in
  // its place, and those that the entry of its parent leads to.
  datatype Slot = Slot(linked: seq<Mdir>, seen: seq<Mdir>) {
    predicate Whole() { linked == seen && linked != [] }
    predicate Single() { Whole() && |linked| == 1 }
  }

  function One(d: Mdir): Slot { Slot([d], [d]) }

  function Flat(slots: seq<Slot>): seq<Mdir> {
    if slots == [] then [] else Flat(slots[..|slots| - 1]) + slots[|slots| - 1].linked
  }

  function Offset(slots: seq<Slot>, i: nat): nat
    requires i <= |slots|
  {
    |Flat(slots[..i])|
  }

  lemma {:induction false} FlatConcat(a: seq<Slot>, b: seq<Slot>)
    ensures Flat(a + b) == Flat(a) + Flat(b)
  {
    if b == [] {
      assert a + b == a;
    } else {
      assert (a + b)[..|a + b| - 1] == a + b[..|b| - 1];
      FlatConcat(a, b[..|b| - 1]);
    }
  }

  lemma FlatOne(s: Slot)
    ensures Flat([s]) == s.linked
  {
    assert [s][..0] == [];
    assert Flat([s]) == Flat([]) + s.linked;
  }

  // The list around one slot, which may be replaced.
  lemma FlatSet(slots: seq<Slot>, i: nat, s: Slot)
    requires i < |slots|
    ensures Flat(slots) == Flat(slots[..i]) + slots[i].linked + Flat(slots[i + 1..])
    ensures Flat(slots[i := s]) == Flat(slots[..i]) + s.linked + Flat(slots[i + 1..])
    ensures Offset(slots[i := s], i) == Offset(slots, i)
  {
    hide Flat;
    assert slots == slots[..i] + [slots[i]] + slots[i + 1..];
    assert slots[i := s] == slots[..i] + [s] + slots[i + 1..] && slots[i := s][..i] == slots[..i];
    FlatConcat(slots[..i] + [slots[i]], slots[i + 1..]);
    FlatConcat(slots[..i], [slots[i]]);
    FlatConcat(slots[..i] + [s], slots[i + 1..]);
    FlatConcat(slots[..i], [s]);
    FlatOne(s);
    FlatOne(slots[i]);
  }

  // A slot that is not affected may be found at another place of the list.
  predicate Has(slots: seq<Slot>, q: nat, k: nat) {
    q < |slots| && slots[q].Whole() && k < |slots[q].linked|
  }

  // one mdir of a slot is rewritten
  function Put(slots: seq<Slot>, q: nat, k: nat, d: Mdir): seq<Slot>
    requires Has(slots, q, k)
  {
    slots[q := Slot(slots[q].linked[k := d], slots[q].seen[k := d])]
  }

  lemma FlatPut(slots: seq<Slot>, q: nat, k: nat, d: Mdir)
    requires Has(slots, q, k)
    ensures var at := Offset(slots, q) + k;
            && at < |Flat(slots)| && Flat(slots)[at] == slots[q].linked[k]
            && Flat(Put(slots, q, k, d)) == Flat(slots)[at := d]
  {
    hide Flat;
    var s := Slot(slots[q].linked[k := d], slots[q].seen[k := d]);
    FlatSet(slots, q, s);
    SetInside(Flat(slots[..q]), slots[q].linked, Flat(slots[q + 1..]), k, d);
  }

  lemma SetInside(a: seq<Mdir>, b: seq<Mdir>, c: seq<Mdir>, k: nat, d: Mdir)
    requires k < |b|
    ensures (a + b + c)[|a| + k] == b[k] && a + b[k := d] + c == (a + b + c)[|a| + k := d]
  {}

  // A slot is replaced in the list, and the mdir before it is rewritten.
  lemma FlatLinked(slots: seq<Slot>, i: nat, news: seq<Mdir>, d: Mdir)
    requires 0 < i < |slots| && slots[i - 1].Whole()
    ensures var L, o, n, k := Flat(slots), Offset(slots, i), |slots[i].linked|, |slots[i - 1].linked| - 1;
            && 0 < o && o + n <= |L| && o == Offset(slots, i - 1) + k + 1 && L[o..o + n] == slots[i].linked
            && Flat(Put(slots, i - 1, k, d)[i := Slot(news, news)]) == L[..o - 1] + [d] + news + L[o + n..]
  {
    hide Flat;
    var k := |slots[i - 1].linked| - 1;
    FlatSet(slots, i, Slot(news, news));
    FlatSet(slots[..i], i - 1, slots[i - 1]);
    assert slots[..i][..i - 1] == slots[..i - 1] && slots[..i][i..] == [];
    assert Flat([]) == [] by { FlatNone(); }
    var put := Put(slots, i - 1, k, d);
    FlatSet(put, i, Slot(news, news));
    FlatPut(slots[..i], i - 1, k, d);
    assert put[..i] == Put(slots[..i], i - 1, k, d) && put[i + 1..] == slots[i + 1..];
    Around(Flat(slots[..i]), slots[i].linked, Flat(slots[i + 1..]), news, d);
  }

  lemma FlatNone()
    ensures Flat([]) == []
  {}

  lemma Around(f: seq<Mdir>, b: seq<Mdir>, r: seq<Mdir>, news: seq<Mdir>, d: Mdir)
    requires f != []
    ensures var l, o := f + b + r, |f|;
            && l[o..o + |b|] == b && f[o - 1 := d] + news + r == l[..o - 1] + [d] + news + l[o + |b|..]
  {}

  // ----- what the directories show -----

  // The entries of a mdir once the pending move is done.
  function Shown(g: G, d: Mdir): seq<Entry> {
    if HasMoveHere(g, d.pair) then Remove(d.entries, MoveId(g) as int) else d.entries
  }

  function ShownAll(g: G, ds: seq<Mdir>): seq<Entry> {
    if ds == [] then [] else ShownAll(g, ds[..|ds| - 1]) + Shown(g, ds[|ds| - 1])
  }

  // Every part of the directories as it is reached by the entries of its
  // parents, under a global state. On disk that is what the deltas of the list
  // add up to.
  function View(slots: seq<Slot>, g: G): (v: seq<seq<Entry>>)
    ensures |v| == |slots|
  {
    seq(|slots|, i requires 0 <= i < |slots| => ShownAll(g, slots[i].seen))
  }

  // An entry but for the place of the directory it names, if it names one.
  predicate IsDir(e: Entry) { 0x200 in e && e[0x200].chunk == 0 }

  function Blind(e: Entry): Entry { if IsDir(e) then e[0x200 := Value(0, [])] else e }

  ghost predicate Similar(s: seq<Entry>, t: seq<Entry>) {
    |s| == |t| && forall j :: 0 <= j < |s| ==> Blind(s[j]) == Blind(t[j])
  }

  // the same directories, wherever they are
  ghost predicate Alike(v: seq<seq<Entry>>, w: seq<seq<Entry>>) {
    |v| == |w| && forall i :: 0 <= i < |v| ==> Similar(v[i], w[i])
  }

  lemma AlikeTrans(u: seq<seq<Entry>>, v: seq<seq<Entry>>, w: seq<seq<Entry>>)
    requires Alike(u, v) && Alike(v, w)
    ensures Alike(u, w)
  {
    hide Blind;
    forall i | 0 <= i < |u| ensures Similar(u[i], w[i]) {
      assert Similar(u[i], v[i]) && Similar(v[i], w[i]);
    }
  }

  lemma AlikeSelf(v: seq<seq<Entry>>)
    ensures Alike(v, v)
  {}

  lemma PointSimilar(s: seq<Entry>, id: nat, to: Bytes)
    requires id < |s| && IsDir(s[id])
    ensures Similar(ApplyItem(s, DirStruct(id, to)), s)
  {}

  lemma {:induction false} ShownSet(g: G, ds: seq<Mdir>, k: nat, d: Mdir)
    requires k < |ds| && Similar(Shown(g, d), Shown(g, ds[k]))
    ensures Similar(ShownAll(g, ds[k := d]), ShownAll(g, ds))
  {
    hide Shown, Blind;
    var n := |ds| - 1;
    if k == n {
      assert ds[k := d][..n] == ds[..n];
    } else {
      assert ds[k := d][..n] == ds[..n][k := d];
      ShownSet(g, ds[..n], k, d);
    }
  }

  // where no move is pending
  predicate Clear(s: Slot, p: Pair) { forall k :: 0 <= k < |s.seen| ==> !Overlap(p, s.seen[k].pair) }

  ghost predicate Distinct(slots: seq<Slot>) {
    forall i, j, k :: 0 <= i < |slots| && 0 <= j < |slots| && i != j && 0 <= k < |slots[i].seen| ==>
      Clear(slots[j], slots[i].seen[k].pair)
  }

  lemma {:induction false} ShownClear(g: G, ds: seq<Mdir>)
    requires HasMove(g) ==> forall k :: 0 <= k < |ds| ==> !Overlap(g.pair, ds[k].pair)
    ensures ShownAll(g, ds) == All(ds)
  {
    hide HasMove, MoveId, Overlap;
    if ds != [] { ShownClear(g, ds[..|ds| - 1]); }
  }

  predicate MovesFrom(g: G, d: Mdir) { d.pair == g.pair && MoveId(g) as int < |d.entries| }

  // the move is from the one mdir of slot a
  predicate MoveAt(slots: seq<Slot>, g: G, a: nat) {
    HasMove(g) && a < |slots| && slots[a].Single() && MovesFrom(g, slots[a].seen[0])
  }

  ghost predicate MoveIsThere(slots: seq<Slot>, g: G) { HasMove(g) ==> exists a: nat :: MoveAt(slots, g, a) }

  lemma ShownOne(g: G, d: Mdir)
    ensures ShownAll(g, [d]) == Shown(g, d) && All([d]) == d.entries
  {
    assert [d][..0] == [];
    assert ShownAll(g, [d]) == ShownAll(g, []) + Shown(g, d);
    AllTwo(d, d);
  }

  // The view, slot by slot: the move takes one entry out of slot a.
  lemma ViewWithMove(slots: seq<Slot>, g: G, a: nat, j: nat)
    requires Distinct(slots) && MoveAt(slots, g, a) && j < |slots|
    ensures View(slots, g)[j] ==
            if j == a then Remove(slots[a].seen[0].entries, MoveId(g) as int) else All(slots[j].seen)
    ensures j != a ==> Clear(slots[j], g.pair)
    ensures HasMoveHere(g, g.pair)
  {
    hide HasMove, MoveId, All;
    if j == a {
      ShownOne(g, slots[a].seen[0]);
      assert slots[a].seen == [slots[a].seen[0]];
    } else {
      assert Clear(slots[j], slots[a].seen[0].pair);
      ShownClear(g, slots[j].seen);
    }
  }

  lemma ViewWithout(slots: seq<Slot>, g: G, j: nat)
    requires !HasMove(g) && j < |slots|
    ensures View(slots, g)[j] == All(slots[j].seen)
  {
    ShownClear(g, slots[j].seen);
  }

  // ----- commits beside: to a parent, or to the mdir before -----

  // What a commit to d for the sake of another directory makes of its entries:
  // a move pending there is finished, and an entry may be made to name another pair.
  ghost predicate BesideOk(d: Mdir, e: Mdir, g: G, p: Option<nat>, to: Bytes) {
    && e.pair == d.pair
    && match p
       case None => e.entries == Unmoved(d.entries, g, d.pair)
       case Some(id) =>
         && id < |d.entries| && IsDir(d.entries[id]) && (HasMoveHere(g, d.pair) ==> id != MoveId(g) as int)
         && e.entries == ApplyItem(Unmoved(d.entries, g, d.pair), DirStruct(Uncounted(g, d.pair, id), to))
  }

  lemma BesideShows(d: Mdir, e: Mdir, g: G, p: Option<nat>, to: Bytes)
    requires BesideOk(d, e, g, p, to) && (HasMoveHere(g, d.pair) ==> MoveId(g) as int < |d.entries|)
    ensures Similar(e.entries, Shown(g, d))
    ensures !HasMoveHere(g, d.pair) ==> |e.entries| == |d.entries|
  {
    hide HasMoveHere, MoveId, ApplyItem, Blind;
    DeleteStep(d.entries, MoveId(g) as int);
    if p.Some? {
      PointSimilar(Unmoved(d.entries, g, d.pair), Uncounted(g, d.pair, p.value), to);
    }
  }

  // Such a commit shows nothing new.
  lemma BesideKeeps(slots: seq<Slot>, g: G, q: nat, k: nat, e: Mdir, p: Option<nat>, to: Bytes)
    requires Distinct(slots) && MoveIsThere(slots, g) && Has(slots, q, k)
    requires BesideOk(slots[q].seen[k], e, g, p, to)
    ensures var put, h := Put(slots, q, k, e), MoveDone(g, e.pair);
            Distinct(put) && MoveIsThere(put, h) && Alike(View(put, h), View(slots, g))
  {
    hide HasMove, MoveId, Overlap, BesideOk, Similar, View, Shown, ShownAll, All;
    var d, put, h := slots[q].seen[k], Put(slots, q, k, e), MoveDone(g, e.pair);
    assert e.pair == d.pair by { SamePair(d, e, g, p, to); }
    PutDistinct(slots, q, k, e);
    if HasMoveHere(g, d.pair) {
      var a: nat :| MoveAt(slots, g, a);
      ViewWithMove(slots, g, a, q);
      assert a == q && k == 0;
      PrepMoveSets(g, NoMove);
      BesideShows(d, e, g, p, to);
      forall j | 0 <= j < |slots| ensures Similar(View(put, h)[j], View(slots, g)[j]) {
        ViewWithMove(slots, g, a, j);
        ViewWithout(put, h, j);
        if j == q {
          assert put[q].seen == [e];
          ShownOne(g, e);
          ShownMoved(g, d);
        } else {
          SimilarSelf(All(slots[j].seen));
        }
      }
    } else {
      BesideShows(d, e, g, p, to);
      assert Shown(g, e) == e.entries by { NotShown(g, e); }
      ShownSet(g, slots[q].seen, k, e);
      forall j | 0 <= j < |slots| ensures Similar(View(put, g)[j], View(slots, g)[j]) {
        ViewIs(put, g, j);
        ViewIs(slots, g, j);
        SimilarSelf(View(slots, g)[j]);
      }
      if HasMove(g) {
        var a: nat :| MoveAt(slots, g, a);
        ViewWithMove(slots, g, a, a);
        assert MoveAt(put, g, a);
      }
    }
  }

  lemma SamePair(d: Mdir, e: Mdir, g: G, p: Option<nat>, to: Bytes)
    requires BesideOk(d, e, g, p, to)
    ensures e.pair == d.pair
  {}

  lemma SimilarSelf(s: seq<Entry>)
    ensures Similar(s, s)
  {}

  lemma ShownMoved(g: G, d: Mdir)
    ensures HasMoveHere(g, d.pair) ==> Shown(g, d) == Remove(d.entries, MoveId(g) as int)
  {}

  lemma NotShown(g: G, e: Mdir)
    ensures !HasMoveHere(g, e.pair) ==> Shown(g, e) == e.entries
  {}

  lemma ViewIs(slots: seq<Slot>, g: G, j: nat)
    requires j < |slots|
    ensures View(slots, g)[j] == ShownAll(g, slots[j].seen)
  {}

  lemma PutDistinct(slots: seq<Slot>, q: nat, k: nat, e: Mdir)
    requires Distinct(slots) && Has(slots, q, k) && e.pair == slots[q].seen[k].pair
    ensures Distinct(Put(slots, q, k, e))
  {
    hide Overlap;
    var put := Put(slots, q, k, e);
    forall i | 0 <= i < |slots| ensures |put[i].seen| == |slots[i].seen| {}
    forall i, m | 0 <= i < |slots| && 0 <= m < |slots[i].seen| ensures put[i].seen[m].pair == slots[i].seen[m].pair {}
    forall i, j, m | 0 <= i < |put| && 0 <= j < |put| && i != j && 0 <= m < |put[i].seen|
      ensures Clear(put[j], put[i].seen[m].pair)
    {
      assert Clear(slots[j], slots[i].seen[m].pair);
    }
  }

  // ----- how commits go -----

  // The entry of a parent, and the pair it is to name.
  datatype ParentAt = ParentAt(slot: nat, part: nat, id: nat, to: Bytes, append: bool)

  // A commit goes through in place; or it is written elsewhere, and power is lost
  // at once, or when the parent names the new pair; or the new pair is linked.
  datatype How =
    | Through(outcome: Outcome, way: Way)
    | Cut(outcome: Outcome, way: Way)
    | CutBehindParent(outcome: Outcome, way: Way, parent: ParentAt)
    | Linked(outcome: Outcome, way: Way, named: Option<ParentAt>, append: bool)

  predicate NamesIt(slots: seq<Slot>, i: nat, g: G, p: ParentAt) {
    && p.slot != i && Has(slots, p.slot, p.part)
    && var d := slots[p.slot].seen[p.part];
       p.id < |d.entries| && IsDir(d.entries[p.id]) && (HasMoveHere(g, d.pair) ==> p.id != MoveId(g) as int)
  }

  // New pairs are in no other use.
  predicate Fresh(slots: seq<Slot>, i: nat, w: Way) {
    forall j :: 0 <= j < |slots| && j != i ==> Clear(slots[j], w.first) && Clear(slots[j], w.second)
  }

  // Where the parent is told to change another entry, see TailList.ToldRight.
  predicate Told(slots: seq<Slot>, g: G, o: Outcome, p: ParentAt)
    requires Has(slots, p.slot, p.part)
  {
    o.Unlinked() && HasMoveHere(g, slots[p.slot].seen[p.part].pair) ==> p.id <= MoveId(g) as int + 1
  }

  predicate Allowed(slots: seq<Slot>, i: nat, g: G, how: How) {
    && i < |slots| && slots[i].Single() && Fresh(slots, i, how.way) && (how.outcome.InPlace() <==> how.Through?)
    && match how
       case Through(_, _) => true
       case Cut(_, _) => true
       case CutBehindParent(o, _, p) => NamesIt(slots, i, g, p) && !o.Unlinked()
       case Linked(o, _, named, _) =>
         && 0 < i && slots[i - 1].Whole()
         && (named.Some? ==> NamesIt(slots, i, g, named.value) && Told(slots, g, o, named.value))
  }

  // slot i with these entries
  function Wanted(slots: seq<Slot>, i: nat, s: seq<Entry>): seq<Slot>
    requires i < |slots| && slots[i].Single()
  {
    slots[i := One(Mdir(slots[i].seen[0].pair, s, None))]
  }

  ghost predicate MoveElsewhere(slots: seq<Slot>, g: G, i: nat) {
    HasMove(g) ==> exists a: nat :: a != i && MoveAt(slots, g, a)
  }

  // What was written shows the entries, split or not.
  lemma WroteShows(slots: seq<Slot>, i: nat, linked: seq<Mdir>, ds: seq<Mdir>, s: seq<Entry>, g: G, w: Way, o: Outcome)
    requires Distinct(slots) && i < |slots| && slots[i].Single() && Fresh(slots, i, w) && MoveElsewhere(slots, g, i)
    requires Wrote(ds, if o.InPlace() then slots[i].seen[0].pair else w.second, EditOf(s, w, o), o)
    ensures var now := slots[i := Slot(linked, ds)];
            Distinct(now) && MoveElsewhere(now, g, i) && View(now, g) == View(Wanted(slots, i, s), g)
  {
    hide HasMove, MoveId, Overlap, View, All, EditOf;
    var now, want := slots[i := Slot(linked, ds)], Wanted(slots, i, s);
    SetDistinct(slots, i, Slot(linked, ds));
    SetDistinct(slots, i, want[i]);
    WroteAll(ds, if o.InPlace() then slots[i].seen[0].pair else w.second, EditOf(s, w, o), o);
    AllTwo(want[i].seen[0], want[i].seen[0]);
    if HasMove(g) {
      var a: nat :| a != i && MoveAt(slots, g, a);
      assert MoveAt(now, g, a) && MoveAt(want, g, a);
      forall j | 0 <= j < |now| ensures View(now, g)[j] == View(want, g)[j] {
        ViewWithMove(now, g, a, j);
        ViewWithMove(want, g, a, j);
      }
    } else {
      forall j | 0 <= j < |now| ensures View(now, g)[j] == View(want, g)[j] {
        ViewWithout(now, g, j);
        ViewWithout(want, g, j);
      }
    }
  }

  lemma WroteAll(ds: seq<Mdir>, head: Pair, e: Edit, o: Outcome)
    requires Wrote(ds, head, e, o)
    ensures All(ds) == e.All(o) && ds != []
  {
    hide All;
    AllTwo(ds[0], ds[|ds| - 1]);
    assert ds == if o.Splits() then [ds[0], ds[1]] else [ds[0]];
  }

  // A slot may be replaced by one whose pairs are its own or in no other use.
  lemma SetDistinct(slots: seq<Slot>, i: nat, s: Slot)
    requires Distinct(slots) && i < |slots| && slots[i].seen != []
    requires forall k :: 0 <= k < |s.seen| ==>
               || s.seen[k].pair == slots[i].seen[0].pair
               || (forall j :: 0 <= j < |slots| && j != i ==> Clear(slots[j], s.seen[k].pair))
    ensures Distinct(slots[i := s])
  {
    hide Overlap;
    var now := slots[i := s];
    forall j, m, k | 0 <= j < |now| && 0 <= m < |now| && j != m && 0 <= k < |now[j].seen|
      ensures Clear(now[m], now[j].seen[k].pair)
    {
      if j == i {
        assert Clear(slots[m], slots[i].seen[0].pair);
      } else if m == i {
        assert Clear(slots[i], slots[j].seen[k].pair);
        forall l | 0 <= l < |s.seen| ensures !Overlap(now[j].seen[k].pair, s.seen[l].pair) {
          if s.seen[l].pair != slots[i].seen[0].pair {
            assert Clear(slots[j], s.seen[l].pair);
            Symmetric(s.seen[l].pair, slots[j].seen[k].pair);
          }
        }
      } else {
        assert Clear(slots[m], slots[j].seen[k].pair);
      }
    }
  }

  lemma Symmetric(p: Pair, q: Pair)
    ensures Overlap(p, q) <==> Overlap(q, p)
  {}

  // What only the list sees does not matter for the view.
  lemma LinkShows(slots: seq<Slot>, i: nat, s: Slot, g: G)
    requires i < |slots| && s.seen == slots[i].seen && Distinct(slots)
    ensures Distinct(slots[i := s]) && View(slots[i := s], g) == View(slots, g)
    ensures MoveIsThere(slots, g) && s.Whole() ==> MoveIsThere(slots[i := s], g)
  {
    hide Overlap, ShownAll, HasMove, MovesFrom;
    var now := slots[i := s];
    forall j | 0 <= j < |now| ensures now[j].seen == slots[j].seen {}
    forall j, m, k | 0 <= j < |now| && 0 <= m < |now| && j != m && 0 <= k < |now[j].seen|
      ensures Clear(now[m], now[j].seen[k].pair)
    {
      assert Clear(slots[m], slots[j].seen[k].pair);
    }
    forall a: nat | MoveAt(slots, g, a) && s.Whole() ensures MoveAt(now, g, a) {}
  }

  // The view depends on the move alone.
  lemma SameShown(slots: seq<Slot>, g: G, h: G)
    requires MoveOf(g) == MoveOf(h)
    ensures View(slots, g) == View(slots, h) && (MoveIsThere(slots, g) <==> MoveIsThere(slots, h))
  {
    SameMove(g, h);
    hide HasMove, MoveId, Overlap, MoveOf;
    forall j | 0 <= j < |slots| ensures ShownAll(g, slots[j].seen) == ShownAll(h, slots[j].seen) {
      SameShownAll(g, h, slots[j].seen);
    }
    forall a: nat ensures MoveAt(slots, g, a) <==> MoveAt(slots, h, a) {}
  }

  lemma {:induction false} SameShownAll(g: G, h: G, ds: seq<Mdir>)
    requires (HasMove(g) <==> HasMove(h)) && MoveId(g) == MoveId(h) && g.pair == h.pair
    ensures ShownAll(g, ds) == ShownAll(h, ds)
  {
    hide HasMove, MoveId, Overlap;
    if ds != [] { SameShownAll(g, h, ds[..|ds| - 1]); }
  }

  lemma {:induction false} OffsetApart(slots: seq<Slot>, i: nat, q: nat, k: nat)
    requires i < |slots| && q != i && Has(slots, q, k)
    ensures Offset(slots, q) + k < Offset(slots, i) || Offset(slots, i) + |slots[i].linked| <= Offset(slots, q) + k
  {
    hide Flat;
    if q < i {
      FlatSet(slots[..i], q, slots[q]);
      assert slots[..i][..q] == slots[..q];
    } else {
      FlatSet(slots[..q], i, slots[i]);
      assert slots[..q][..i] == slots[..i];
    }
  }

  // ----- the deltas -----

  // A slot that is not linked as it is seen has the same delta either way.
  ghost predicate Filled(s: Slot) {
    s.linked != [] && s.seen != [] && (s.Whole() || (Stored(s.seen) && Fold(s.linked) == Fold(s.seen)))
  }

  ghost predicate AllFilled(slots: seq<Slot>) { forall i :: 0 <= i < |slots| ==> Filled(slots[i]) }

  lemma PutFilled(slots: seq<Slot>, q: nat, k: nat, d: Mdir)
    requires AllFilled(slots) && Has(slots, q, k)
    ensures AllFilled(Put(slots, q, k, d))
  {
    hide Fold, Stored;
  }

  lemma SetFilled(slots: seq<Slot>, i: nat, s: Slot)
    requires AllFilled(slots) && i < |slots| && Filled(s)
    ensures AllFilled(slots[i := s])
  {
    hide Filled;
  }

  lemma ElsewhereThere(slots: seq<Slot>, g: G, i: nat)
    requires MoveElsewhere(slots, g, i)
    ensures MoveIsThere(slots, g)
  {}

  // The parts of the state that are about a move, behind the commit to the parent.
  lemma BehindState(told: G, now: G, g: G, disk: G, pair: Pair, o: Outcome)
    requires Countable(g) && told == MoveDone(PrepOrphans(g, 1), pair)
    requires Mask(now) == Xor(Mask(told), if o.Unlinked() then Xor(Mask(g), Mask(disk)) else ZERO)
    ensures MoveOf(now) == Xor(MoveOf(MoveDone(g, pair)), if o.Unlinked() then Xor(MoveOf(g), MoveOf(disk)) else ZERO)
  {
    hide Mask, Xor, MoveOf, MoveDone, PrepOrphans, Countable, HasMove;
    Finishes(g, pair);
    MoveOfMask(now);
    MoveOfMask(told);
    MoveOfMask(g);
    MoveOfMask(disk);
    MoveOfXor(Mask(g), Mask(disk));
    MoveOfXor(Mask(told), if o.Unlinked() then Xor(Mask(g), Mask(disk)) else ZERO);
  }

  lemma SameLinked(slots: seq<Slot>, i: nat, s: Slot, q: nat)
    requires i < |slots| && q <= |slots| && s.linked == slots[i].linked
    ensures Flat(slots[i := s]) == Flat(slots) && Offset(slots[i := s], q) == Offset(slots, q)
  {
    hide Flat;
    FlatSet(slots, i, s);
    if i < q {
      FlatSet(slots[..q], i, s);
      assert slots[i := s][..q] == slots[..q][i := s];
    } else {
      assert slots[i := s][..q] == slots[..q];
    }
  }

  // The parent is told the right id: it does not come behind a move that both
  // the disk and memory have there.
  lemma ToldHere(slots: seq<Slot>, i: nat, g: G, disk: G, o: Outcome, p: ParentAt)
    requires Distinct(slots) && i < |slots| && NamesIt(slots, i, g, p) && Told(slots, g, o, p)
    requires HasMove(disk) ==> MoveAt(slots, disk, i) && !HasMove(g)
    ensures var pair := slots[p.slot].seen[p.part].pair;
            ToldId(if o.Unlinked() then g else disk, g, pair, p.id) == Uncounted(g, pair, p.id)
  {
    hide HasMove, MoveId, Overlap;
    var pair := slots[p.slot].seen[p.part].pair;
    if HasMoveHere(g, pair) {
      ToldRight(if o.Unlinked() then g else disk, g, pair, p.id);
    } else if HasMove(disk) {
      assert Clear(slots[p.slot], slots[i].seen[0].pair);
    }
  }

  lemma BesideTold(d: Mdir, e: Mdir, g: G, disk: G, p: Naming)
    requires p.id < |d.entries| && IsDir(d.entries[p.id]) && (HasMoveHere(g, d.pair) ==> p.id != MoveId(g) as int)
    requires ToldId(disk, g, d.pair, p.id) == Uncounted(g, d.pair, p.id)
    requires e.pair == d.pair && e.entries == Repointed(d.entries, disk, g, d.pair, p)
    ensures BesideOk(d, e, g, Some(p.id), p.to)
  {}

  // The list is made to link what is seen, and the mdir before is rewritten.
  lemma LinkKeeps(slots: seq<Slot>, i: nat, g: G, e: Mdir)
    requires Distinct(slots) && MoveIsThere(slots, g) && 0 < i < |slots| && slots[i - 1].Whole() && slots[i].seen != []
    requires BesideOk(slots[i - 1].seen[|slots[i - 1].seen| - 1], e, g, None, [])
    ensures var k, h := |slots[i - 1].linked| - 1, MoveDone(g, e.pair);
            var now := Put(slots, i - 1, k, e)[i := Slot(slots[i].seen, slots[i].seen)];
            Distinct(now) && MoveIsThere(now, h) && Alike(View(now, h), View(slots, g))
  {
    hide Distinct, MoveIsThere, View, Alike, BesideOk, MoveDone;
    var k := |slots[i - 1].linked| - 1;
    BesideKeeps(slots, g, i - 1, k, e, None, []);
    var put := Put(slots, i - 1, k, e);
    assert put[i] == slots[i];
    LinkShows(put, i, Slot(put[i].seen, put[i].seen), MoveDone(g, e.pair));
  }

  lemma PutOffset(slots: seq<Slot>, q: nat, k: nat, d: Mdir, i: nat)
    requires Has(slots, q, k) && i <= |slots|
    ensures Offset(Put(slots, q, k, d), i) == Offset(slots, i)
  {
    hide Flat;
    if q < i {
      FlatPut(slots[..i], q, k, d);
      assert Put(slots, q, k, d)[..i] == Put(slots[..i], q, k, d);
    } else {
      assert Put(slots, q, k, d)[..i] == slots[..i];
    }
  }

  ghost predicate FilledBut(slots: seq<Slot>, i: nat) { forall j :: 0 <= j < |slots| && j != i ==> Filled(slots[j]) }

  lemma FilledAgain(slots: seq<Slot>, i: nat, k: nat, e: Mdir)
    requires FilledBut(slots, i) && 0 < i < |slots| && Has(slots, i - 1, k) && slots[i].seen != []
    ensures AllFilled(Put(slots, i - 1, k, e)[i := Slot(slots[i].seen, slots[i].seen)])
  {
    hide Fold, Stored;
  }

  lemma PutFilledBut(slots: seq<Slot>, i: nat, q: nat, k: nat, e: Mdir)
    requires FilledBut(slots, i) && Has(slots, q, k) && q != i
    ensures FilledBut(Put(slots, q, k, e), i)
  {
    hide Fold, Stored;
  }

  lemma MoveDoneClean(g: G, pair: Pair)
    requires HasMove(g) || MoveOf(g) == ZERO
    ensures HasMove(MoveDone(g, pair)) || MoveOf(MoveDone(g, pair)) == ZERO
    ensures HasMove(MoveDone(g, pair)) ==> MoveDone(g, pair) == g
  {
    hide HasMove, MoveOf, PrepMove, Overlap;
    PrepMoveIsMove(g, NoMove);
    PrepMoveSets(g, NoMove);
  }

  // All of that for the commit that links slot i.
  lemma LinkedUp(slots: seq<Slot>, i: nat, g: G, e: Mdir)
    requires Distinct(slots) && FilledBut(slots, i) && MoveIsThere(slots, g)
    requires 0 < i < |slots| && slots[i - 1].Whole() && slots[i].seen != []
    requires BesideOk(slots[i - 1].seen[|slots[i - 1].seen| - 1], e, g, None, [])
    requires HasMove(g) || MoveOf(g) == ZERO
    ensures var k, h := |slots[i - 1].linked| - 1, MoveDone(g, e.pair);
            var now := Put(slots, i - 1, k, e)[i := Slot(slots[i].seen, slots[i].seen)];
            var L, o, n := Flat(slots), Offset(slots, i), |slots[i].linked|;
            && Distinct(now) && AllFilled(now) && MoveIsThere(now, h) && Alike(View(now, h), View(slots, g))
            && 0 < o && o + n <= |L| && Flat(now) == L[..o - 1] + [e] + slots[i].seen + L[o + n..]
            && (HasMove(h) || MoveOf(h) == ZERO) && (HasMove(h) ==> h == g)
  {
    hide Distinct, FilledBut, AllFilled, MoveIsThere, View, Alike, BesideOk, MoveDone, Flat, HasMove, MoveOf;
    var k := |slots[i - 1].linked| - 1;
    LinkKeeps(slots, i, g, e);
    FlatLinked(slots, i, slots[i].seen, e);
    FilledAgain(slots, i, k, e);
    MoveDoneClean(g, e.pair);
  }

  lemma OneWritten(ds: seq<Mdir>, d: Mdir, g: G, w: Way, o: Outcome)
    requires !o.Splits() && Wrote(ds, d.pair, EditOf(Unmoved(d.entries, g, d.pair), w, o), o)
    ensures ds != [] && ds == [ds[0]] && BesideOk(d, ds[0], g, None, [])
  {}

  lemma StillNames(slots: seq<Slot>, i: nat, s: Slot, g: G, p: ParentAt)
    requires i < |slots| && NamesIt(slots, i, g, p)
    ensures NamesIt(slots[i := s], i, g, p) && Has(slots, p.slot, p.part) && p.slot != i
  {}

  lemma NamedPair(slots: seq<Slot>, i: nat, g: G, p: ParentAt) returns (pair: Pair)
    requires NamesIt(slots, i, g, p)
    ensures Has(slots, p.slot, p.part) && p.slot != i && pair == slots[p.slot].seen[p.part].pair
  {
    pair := slots[p.slot].seen[p.part].pair;
  }

  // What the tree and the list are when the parent names the new pairs.
  lemma BehindShows(was: seq<Slot>, i: nat, s: seq<Entry>, g: G, disk: G, o: Outcome, w: Way, p: ParentAt,
                    news: seq<Mdir>, e: Mdir)
    requires Distinct(was) && AllFilled(was) && i < |was| && was[i].Single() && Fresh(was, i, w) && !o.InPlace()
    requires MoveElsewhere(was, g, i) && NamesIt(was, i, g, p)
             && (HasMove(disk) ==> MoveAt(was, disk, i) && !HasMove(g))
    requires Wrote(news, w.second, EditOf(s, w, o), o) && Stored(news)
    requires !o.Unlinked() ==> Xor(Fold(was[i].linked), Fold(news)) == ZERO
    requires var d := was[p.slot].seen[p.part];
             e.pair == d.pair && e.entries == Repointed(d.entries, if o.Unlinked() then g else disk, g, d.pair,
                                                        Naming(Offset(was, p.slot) + p.part, p.id, p.to, p.append))
    ensures var mid, at := was[i := Slot(was[i].linked, news)], Offset(was, p.slot) + p.part;
            && Has(mid, p.slot, p.part) && at < |Flat(was)| && Flat(Put(mid, p.slot, p.part, e)) == Flat(was)[at := e]
            && Distinct(Put(mid, p.slot, p.part, e)) && (!o.Unlinked() ==> AllFilled(Put(mid, p.slot, p.part, e)))
            && (Told(was, g, o, p) ==>
                  && Alike(View(Put(mid, p.slot, p.part, e), MoveDone(g, e.pair)), View(Wanted(was, i, s), g))
                  && MoveIsThere(Put(mid, p.slot, p.part, e), MoveDone(g, e.pair)))
  {
    hide Fold, Xor, HasMove, View, Flat, Wrote, Distinct, MoveId, MoveDone, Repointed, Alike, MoveElsewhere;
    hide MoveIsThere, Told;
    hide AllFilled, EditOf, Fresh, MoveAt, Overlap, Stored;
    var d, mid := was[p.slot].seen[p.part], was[i := Slot(was[i].linked, news)];
    WroteShows(was, i, was[i].linked, news, s, g, w, o);
    SameLinked(was, i, Slot(was[i].linked, news), p.slot);
    FlatPut(mid, p.slot, p.part, e);
    PutDistinct(mid, p.slot, p.part, e);
    if Told(was, g, o, p) {
      ToldHere(was, i, g, disk, o, p);
      BesideTold(d, e, g, if o.Unlinked() then g else disk, Naming(Offset(was, p.slot) + p.part, p.id, p.to, p.append));
      ElsewhereThere(mid, g, i);
      BesideKeeps(mid, g, p.slot, p.part, e, Some(p.id), p.to);
    }
    if !o.Unlinked() {
      WroteAll(news, w.second, EditOf(s, w, o), o);
      OwedNothing(Fold(was[i].linked), Fold(news));
      SetFilled(was, i, mid[i]);
      PutFilled(mid, p.slot, p.part, e);
    }
  }
}
