/**
 dir/traverse.rs, lfs_dir_getslice: lookup by walking the log backwards,
 renumbering the wanted id around every splice on the way. It finds what the
 forward replay holds.
 */
module GetSlice {
  import opened Tags
  import opened MetadataLog
  import opened Layout
  import opened Sequences

  // What is looked for: a slot of an entry, or a tag whatever its id.
  datatype Query = Query(byId: bool, type1: nat, chunk: nat) {
    predicate Ok() { type1 < 8 && chunk < 0x100 && type1 != SPLICE && (byId ==> type1 < SPLICE && type1 != FROM) }

    // the class alone for types unique by class, else the whole type
    predicate MatchesType(t: Tag) {
      t.type1 == type1 && (type1 % 2 == 1 ==> t.chunk == chunk)
    }

    function Key(): nat { Tag(type1, chunk, 0, 0).Key() }
  }

  // The id after stepping back over `t`.
  function Renumber(t: Tag, id: int): int {
    if t.type1 == SPLICE && t.id <= id then id - t.Splice() else id
  }

  // What one tag says about entry `id`: its slot is empty, its value is here, or
  // go on with the id the entry had before.
  datatype Verdict = Absent | Here | Earlier(id: int)

  function Judge(q: Query, t: Tag, id: int): Verdict {
    if q.byId && t.IsCreate() && t.id == id then Absent
    else
      var id' := if q.byId then Renumber(t, id) else id;
      if q.MatchesType(t) && (q.byId ==> t.id == id') then
        if t.IsRemoval() then Absent else Here
      else Earlier(id')
  }

  function Back(log: seq<Rec>, q: Query, id: int): Option<Rec> {
    if log == [] then None
    else
      var r := log[|log| - 1];
      match Judge(q, r.tag, id)
      case Absent => None
      case Here => Some(r)
      case Earlier(id') => Back(log[..|log| - 1], q, id')
  }

  // Names of entries all live in one slot; a superblock entry keeps the magic there.
  predicate NamesOk(log: seq<Rec>) {
    forall i :: 0 <= i < |log| ==> log[i].tag.type1 == NAME ==> log[i].tag.chunk != 0
  }

  // Backward lookup refines forward replay.
  lemma {:induction false} BackIsReplay(log: seq<Rec>, q: Query, id: nat)
    requires LogOk(log) && NamesOk(log) && q.Ok() && q.byId
    ensures var found := Back(log, q, id);
            Slot(Replay(log), id, q.Key()) ==
            match found
            case None => None
            case Some(r) => Some(Value(r.tag.chunk, r.data))
  {
    hide Apply;
    if log != [] {
      var init, r := log[..|log| - 1], log[|log| - 1];
      ApplySlot(Replay(init), r, id, q.Key());
      if !(r.tag.IsCreate() && r.tag.id == id) {
        BackIsReplay(init, q, Renumber(r.tag, id));
      }
    }
  }

  // A pending move hides the moved entry; the ids above it are looked up one
  // higher.
  function StartId(q: Query, id: int, pending: Option<int>): Option<int> {
    if q.byId && pending.Some? then
      if pending.value == id then None else if pending.value < id then Some(id + 1) else Some(id)
    else Some(id)
  }

  function Found(log: seq<Rec>, q: Query, id: int, pending: Option<int>): Option<Rec> {
    match StartId(q, id, pending)
    case None => None
    case Some(start) => Back(log, q, start)
  }

  // The lookup agrees with the log in which the moved entry is deleted, except
  // that the id right at the move answers "no entry".
  lemma PendingMoveView(log: seq<Rec>, q: Query, id: int, p: nat)
    requires q.Ok() && q.byId
    ensures var deleted := log + [Rec(Tag(SPLICE, 0xff, p, 0), [])];
            Found(log, q, id, Some(p)) == Back(deleted, q, id) <==> id != p || Back(log, q, p + 1) == None
    ensures Found(log, q, p, Some(p)) == None
  {
    var deleted := log + [Rec(Tag(SPLICE, 0xff, p, 0), [])];
    assert deleted[..|log|] == log;
  }

  // ----- the walk over the bytes of a block -----

  datatype Lookup = NoEntry | Corrupt | Hit(tag: Tag, buffer: Bytes)

  // a tag word without its valid bit
  function Value31(w: bv32): bv32 { w & 0x7fff_ffff }

  // `(raw ^ tag) & 0x7fff_ffff`
  function Previous(raw: bv32, tag: bv32): bv32 { Value31(Chain(raw, tag)) }

  // The word read at a tag, XORed with that tag, is the word before it.
  lemma StepBack(p: bv32, e: bv32, n: bv32)
    requires Value31(n) == Value31(p)
    ensures Value31(Previous(Chain(p, e), n)) == Value31(e)
  {}

  lemma FlipValue(w: bv32)
    ensures Value31(w ^ 0x8000_0000) == Value31(w)
  {}

  lemma LinkValue(t: Tag)
    requires t.InRange()
    ensures Value31(Link(t)) == Value31(Pack(t))
  {
    hide Pack, Value31;
    FlipValue(Pack(t));
  }

  lemma ValidValue(w: bv32)
    requires WordIsValid(w)
    ensures Value31(w) == w
  {}

  lemma UnpackMasked(w: bv32)
    ensures Pack(Unpack(w)) == Value31(w)
  {
    hide Pack, Unpack;
    UnpackPack(w);
  }

  // A word with the value of a tag decodes to that tag.
  lemma UnpackValue(w: bv32, t: Tag)
    requires t.InRange() && Value31(w) == Value31(Pack(t))
    ensures Unpack(w) == t && WordDSize(w) == t.DSize()
  {
    UnpackMasked(w);
    hide Pack, Unpack, WordDSize, WordIsValid, Value31;
    PackUnpack(t);
    ValidValue(Pack(t));
    PackUnpack(Unpack(w));
    UnpackDSize(w);
  }

  // The first tag word of a block ends the walk.
  lemma FirstStops(w: bv32)
    requires Value31(w) == Value31(FIRST_PTAG)
    ensures WordDSize(w) == 4
  {
    assert w & 0x3ff == 0x3ff;
    RemovalSize(w);
  }

  ghost predicate Stored(b: Bytes, log: seq<Rec>) {
    LogOnDisk(log) && Holds(b, 4, FIRST_PTAG, log)
  }

  ghost predicate HasData(b: Bytes, at: nat, r: Rec) {
    OnDisk(r) && at + |r.data| <= |b| && b[at..at + |r.data|] == r.data
  }

  ghost predicate At(log: seq<Rec>, k: nat, off: nat, ntag: bv32) {
    LogOnDisk(log) && k <= |log| && off == 4 + Length(log[..k])
    && Value31(ntag) == Value31(EndTag(log[..k], FIRST_PTAG))
  }

  // One step of the walk.
  lemma StepAt(b: Bytes, log: seq<Rec>, k: nat, off: nat, ntag: bv32)
    requires Stored(b, log) && At(log, k, off, ntag)
    ensures off >= 4 + WordDSize(ntag) <==> k > 0
    ensures k > 0 ==>
              var r, at := log[k - 1], off - WordDSize(ntag);
              && Unpack(ntag) == r.tag && 4 <= at && at + 4 <= |b|
              && At(log, k - 1, at, Previous(BeAt(b, at), ntag))
              && HasData(b, at + 4, r)
  {
    hide Unpack, WordDSize, BeAt, Encode, Pack, Link, Value31, Previous, Chain;
    if k == 0 {
      FirstStops(ntag);
    } else {
      var r := log[k - 1];
      HoldsRec(b, 4, FIRST_PTAG, log, k - 1);
      assert log[..k][k - 1] == r && |log[..k]| == k;
      LinkValue(r.tag);
      UnpackValue(ntag, r.tag);
      StepBack(Pack(r.tag), EndTag(log[..k - 1], FIRST_PTAG), ntag);
    }
  }

  function Clip(data: Bytes, size: nat): (s: Bytes)
    ensures |s| == size
    ensures forall i :: 0 <= i < size ==> s[i] == if i < |data| then data[i] else 0
  {
    seq(size, i requires 0 <= i => if i < |data| then data[i] else 0)
  }

  lemma BackAt(log: seq<Rec>, k: nat, q: Query, id: int)
    requires k < |log|
    ensures Back(log[..k + 1], q, id) ==
            match Judge(q, log[k].tag, id)
            case Absent => None
            case Here => Some(log[k])
            case Earlier(id') => Back(log[..k], q, id')
  {
    assert log[..k + 1][..k] == log[..k];
  }

  lemma BackEmpty(log: seq<Rec>, q: Query, id: int)
    requires log == []
    ensures Back(log, q, id) == None
  {}

  lemma StartAt(b: Bytes, log: seq<Rec>)
    requires Stored(b, log)
    ensures var off, etag := 4 + Length(log), EndTag(log, FIRST_PTAG);
            At(log, |log|, off, etag) && (off >= 4 + WordDSize(etag) <==> |log| > 0)
    ensures log[..|log|] == log
  {
    hide WordDSize, EndTag, Encode, Holds, Length, Value31, Pack, Link, Previous, BeAt;
    assert log[..|log|] == log;
    StepAt(b, log, |log|, 4 + Length(log), EndTag(log, FIRST_PTAG));
  }

  // Reads the tag before `off`: its word is known, the word before it comes
  // from the disk.
  method ReadBack(b: Bytes, off: nat, ntag: bv32, ghost log: seq<Rec>, ghost k: nat)
    returns (tag: Tag, off': nat, ntag': bv32)
    requires Stored(b, log) && At(log, k, off, ntag) && off >= 4 + WordDSize(ntag)
    ensures k > 0 && tag == log[k - 1].tag && At(log, k - 1, off', ntag') && HasData(b, off' + 4, log[k - 1])
    ensures off' >= 4 + WordDSize(ntag') <==> k - 1 > 0
  {
    hide Unpack, WordDSize, BeAt, Previous, Encode, EndTag, Holds, At;
    StepAt(b, log, k, off, ntag);
    tag := Unpack(ntag);
    off' := off - WordDSize(ntag);
    ntag' := Previous(BeAt(b, off'), ntag);
    StepAt(b, log, k - 1, off', ntag');
  }

  // What is read of a payload from `goff` on: the bytes that were asked for,
  // zero-filled; but as many as the whole payload has, so that where fewer are
  // left, what lies behind them in the block follows, or the block ends.
  ghost predicate SliceOf(r: Lookup, tag: Tag, data: Bytes, goff: nat, gsize: nat) {
    var diff := if |data| < gsize then |data| else gsize;
    if goff + diff <= |data| then
      r == Hit(tag, Clip(data[goff..goff + diff], gsize))
    else
      r == Corrupt || (r.Hit? && r.tag == tag && |r.buffer| == gsize
                       && (goff <= |data| ==> r.buffer[..|data| - goff] == data[goff..]))
  }

  // From the start it is the whole payload, cut or zero-filled to the buffer.
  lemma SliceFromStart(r: Lookup, tag: Tag, data: Bytes, gsize: nat)
    ensures SliceOf(r, tag, data, 0, gsize) <==> r == Hit(tag, Clip(data, gsize))
  {
    assert Clip(data[..if |data| < gsize then |data| else gsize], gsize) == Clip(data, gsize);
  }

  method ReadSlice(b: Bytes, at: nat, tag: Tag, goff: nat, gsize: nat, ghost rec: Rec) returns (r: Lookup)
    requires HasData(b, at, rec) && tag.size == rec.tag.size && !rec.tag.IsRemoval()
    ensures SliceOf(r, tag, rec.data, goff, gsize)
  {
    var diff := if tag.size < gsize then tag.size else gsize;
    if at + goff + diff > |b| {
      return Corrupt;
    }
    var end := at + |rec.data|;
    if goff + diff <= |rec.data| {
      SubSlice(b, at, end, goff, diff);
    } else if goff <= |rec.data| {
      assert b[at + goff..at + goff + diff][..|rec.data| - goff] == b[at..end][goff..];
    }
    return Hit(tag, Clip(b[at + goff..at + goff + diff], gsize));
  }

  // The body of the walk: splices adjust `gdiff` before the tag is compared.
  method Examine(q: Query, tag: Tag, id: int, gdiff: int) returns (stop: bool, hit: bool, gdiff': int)
    ensures match Judge(q, tag, id - gdiff)
            case Absent => stop && !hit
            case Here => stop && hit && !tag.IsRemoval() && (q.byId ==> tag.id == id - gdiff')
            case Earlier(id') => !stop && !hit && id' == id - gdiff'
  {
    gdiff' := gdiff;
    if q.byId && tag.type1 == SPLICE && tag.id <= id - gdiff {
      if tag.IsCreate() && tag.id == id - gdiff {
        return true, false, gdiff;
      }
      gdiff' := gdiff + tag.Splice();
    }
    stop := q.MatchesType(tag) && (q.byId ==> tag.id == id - gdiff');
    hit := stop && !tag.IsRemoval();
  }

  // lfs_dir_getslice
  method LookUp(b: Bytes, dirOff: nat, etag: bv32, pending: Option<int>,
                q: Query, id: int, goff: nat, gsize: nat, ghost log: seq<Rec>)
    returns (r: Lookup)
    requires Stored(b, log) && dirOff == 4 + Length(log) && etag == EndTag(log, FIRST_PTAG)
    ensures match Found(log, q, id, pending)
            case None => r == NoEntry
            case Some(rec) => SliceOf(r, if q.byId then rec.tag.(id := id) else rec.tag, rec.data, goff, gsize)
  {
    hide WordDSize, EndTag, Encode, Holds, Length, LogOnDisk, OnDisk, Back, At, Judge, HasData, Stored, Clip, MkWord;
    hide SliceOf;
    var off: nat, ntag, gdiff := dirOff, etag, 0;
    if q.byId && pending.Some? {
      if pending.value == id {
        return NoEntry;
      } else if pending.value < id {
        gdiff := gdiff - 1;
      }
    }
    ghost var k, want := |log|, Found(log, q, id, pending);
    StartAt(b, log);
    while off >= 4 + WordDSize(ntag)
      invariant 0 <= k <= |log| && At(log, k, off, ntag)
      invariant off >= 4 + WordDSize(ntag) <==> k > 0
      invariant Back(log[..k], q, id - gdiff) == want
      decreases k
    {
      var tag, stop, hit;
      tag, off, ntag := ReadBack(b, off, ntag, log, k);
      k := k - 1;
      BackAt(log, k, q, id - gdiff);
      stop, hit, gdiff := Examine(q, tag, id, gdiff);
      if hit {
        r := ReadSlice(b, off + 4, if q.byId then tag.Moved(gdiff) else tag, goff, gsize, log[k]);
        return;
      } else if stop {
        return NoEntry;
      }
    }
    BackEmpty(log[..0], q, id - gdiff);
    return NoEntry;
  }
}
