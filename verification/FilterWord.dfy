/**
 dir/traverse.rs, lfs_dir_traverse_filter on the packed words it works with,
 and the proof that it is the filter on tag records.
 */
module FilterWord {
  import opened Tags
  import opened MetadataLog
  import opened Traverse

  const TYPE_AND_ID: bv32 := 0x7fff_fc00
  const CLASS_AND_ID: bv32 := 0x700f_fc00
  const ID_BITS: bv32 := 0x000f_fc00
  const LOW_TYPE_BIT: bv32 := 0x1000_0000

  // LFS_MKTAG(LFS_TYPE_DELETE, 0, 0) with the id of `ft`
  function DeleteOf(ft: bv32): bv32 { 0x4ff0_0000 | And(ID_BITS, ft) }

  // the mask depends on the low bit of the class
  function MaskFor(tag: bv32): bv32 {
    if And(LOW_TYPE_BIT, tag) != 0 then TYPE_AND_ID else CLASS_AND_ID
  }

  function Shifted(ft: bv32, tag: bv32): bv32 { ft + WordSplice(tag) }

  // The new filter tag, and whether the filtered tag was redundant.
  function Step(ft: bv32, tag: bv32): (bv32, bool) {
    if Matches(MaskFor(tag), tag, ft)
       || WordIsRemoval(ft)
       || And(TYPE_AND_ID, tag) == DeleteOf(ft) then (0, true)
    else if WordType1(tag) == 0x400 && WordId(tag) <= WordId(ft) then (Shifted(ft, tag), false)
    else (ft, false)
  }

  lemma LowTypeBit(w: bv32)
    ensures And(LOW_TYPE_BIT, w) != 0 <==> WordClass(w) & 1 == 1
  {}

  lemma DeleteOfWord(ft: bv32)
    ensures DeleteOf(ft) == And(TYPE_AND_ID, MkWord(4, 0xff, WordId(ft), 0))
  {}

  lemma SpliceClass(w: bv32)
    ensures WordType1(w) == 0x400 <==> WordClass(w) == 4
  {}

  lemma SpliceOfCreate(w: bv32)
    requires WordChunk(w) == 1
    ensures WordSplice(w) == 0x400
  {}

  lemma SpliceOfDelete(w: bv32)
    requires WordChunk(w) == 0xff
    ensures WordSplice(w) == 0xffff_fc00
  {}

  lemma Parity(x: bv3)
    ensures x & 1 == 1 <==> x as int % 2 == 1
  {}

  lemma OrderOfIds(x: bv10, y: bv10)
    ensures x <= y <==> x as int <= y as int
    ensures x == y <==> x as int == y as int
  {}

  lemma Equality8(x: bv8, y: bv8)
    ensures x == y <==> x as int == y as int
  {}

  lemma Equality3(x: bv3, y: bv3)
    ensures x == y <==> x as int == y as int
  {}

  lemma Successor(x: bv10)
    ensures x != 0x3ff ==> (x + 1) as int == x as int + 1
    ensures x != 0 ==> (x - 1) as int == x as int - 1
  {}

  lemma UnpackFields(w: bv32)
    ensures Unpack(w) == Tag(WordClass(w) as int, WordChunk(w) as int, WordId(w) as int, WordSize(w) as int)
  {}

  lemma KeysEqual(t: Tag, u: Tag)
    requires t.InRange() && u.InRange()
    ensures t.Key() == u.Key() <==> t.type1 == u.type1 && (t.type1 % 2 == 1 ==> t.chunk == u.chunk)
  {}

  lemma MaskParity(tag: bv32)
    ensures MaskFor(tag) == if WordClass(tag) as int % 2 == 1 then TYPE_AND_ID else CLASS_AND_ID
  {
    hide And, WordClass;
    LowTypeBit(tag);
    Parity(WordClass(tag));
  }

  lemma SameSlotTest(ft: bv32, tag: bv32)
    ensures Matches(MaskFor(tag), tag, ft) <==>
            Unpack(tag).Key() == Unpack(ft).Key() && Unpack(tag).id == Unpack(ft).id
  {
    hide Matches, And, WordClass, WordChunk, WordId, WordSize, Unpack, Tag.Key, MaskFor;
    UnpackFields(ft);
    UnpackFields(tag);
    KeysEqual(Unpack(tag), Unpack(ft));
    MaskParity(tag);
    MatchesAll(tag, ft);
    MatchesClassId(tag, ft);
    OrderOfIds(WordId(tag), WordId(ft));
    Equality8(WordChunk(tag), WordChunk(ft));
    Equality3(WordClass(tag), WordClass(ft));
  }

  lemma DeleteTest(ft: bv32, tag: bv32)
    ensures And(TYPE_AND_ID, tag) == DeleteOf(ft) <==>
            Unpack(tag).IsDelete() && Unpack(tag).id == Unpack(ft).id
  {
    hide And, WordClass, WordChunk, WordId, WordSize, WordIsValid, WordIsRemoval, Unpack, DeleteOf, MkWord;
    UnpackFields(ft);
    UnpackFields(tag);
    DeleteOfWord(ft);
    MatchesAll(tag, MkWord(4, 0xff, WordId(ft), 0));
    MkWordFields(4, 0xff, WordId(ft), 0);
    OrderOfIds(WordId(tag), WordId(ft));
    Equality8(WordChunk(tag), 0xff);
    Equality3(WordClass(tag), 4);
  }

  lemma RemovalTest(ft: bv32)
    ensures WordIsRemoval(ft) <==> Unpack(ft).IsRemoval()
  {
    hide WordIsRemoval;
    NotRemovalSize(ft);
    OrderOfIds(WordSize(ft), 0x3ff);
  }

  lemma ShiftTest(ft: bv32, tag: bv32)
    requires Unpack(tag).type1 == SPLICE ==> Unpack(tag).IsCreate() || Unpack(tag).IsDelete()
    requires Unpack(tag).type1 == SPLICE && Unpack(tag).id <= Unpack(ft).id ==>
               0 <= Unpack(ft).id + Unpack(tag).Splice() < 0x400
    ensures var shifts := WordType1(tag) == 0x400 && WordId(tag) <= WordId(ft);
            && (shifts <==> Unpack(tag).type1 == SPLICE && Unpack(tag).id <= Unpack(ft).id)
            && (shifts ==> Unpack(Shifted(ft, tag)) == Unpack(ft).Moved(Unpack(tag).Splice())
                           && (WordIsValid(Shifted(ft, tag)) <==> WordIsValid(ft)))
  {
    hide WordClass, WordChunk, WordId, WordSize, WordIsValid, Unpack, WordType1, WordSplice, Shifted;
    UnpackFields(ft);
    UnpackFields(tag);
    SpliceClass(tag);
    Equality3(WordClass(tag), 4);
    OrderOfIds(WordId(tag), WordId(ft));
    if Unpack(tag).type1 == SPLICE && Unpack(tag).id <= Unpack(ft).id {
      ShiftedFields(ft, tag);
      UnpackFields(Shifted(ft, tag));
    }
  }

  lemma ShiftedFields(ft: bv32, tag: bv32)
    requires Unpack(tag).IsCreate() || Unpack(tag).IsDelete()
    requires 0 <= Unpack(ft).id + Unpack(tag).Splice() < 0x400
    ensures var v := Shifted(ft, tag);
            && WordId(v) as int == WordId(ft) as int + Unpack(tag).Splice() && WordClass(v) == WordClass(ft)
            && WordChunk(v) == WordChunk(ft) && WordSize(v) == WordSize(ft) && (WordIsValid(v) <==> WordIsValid(ft))
  {
    hide WordClass, WordChunk, WordId, WordSize, WordIsValid, Unpack, WordSplice;
    UnpackFields(ft);
    UnpackFields(tag);
    Equality8(WordChunk(tag), 1);
    Equality8(WordChunk(tag), 0xff);
    OrderOfIds(WordId(ft), 0x3ff);
    OrderOfIds(WordId(ft), 0);
    Successor(WordId(ft));
    if Unpack(tag).IsCreate() {
      SpliceOfCreate(tag);
      IdUp(ft);
    } else {
      SpliceOfDelete(tag);
      IdDown(ft);
    }
  }

  // The packed filter is the filter on records, valid bit kept, as long as the
  // moved id is still a ten-bit id.
  lemma StepRefinesFilter(ft: bv32, tag: bv32)
    requires Unpack(tag).type1 == SPLICE ==> Unpack(tag).IsCreate() || Unpack(tag).IsDelete()
    requires Unpack(tag).type1 == SPLICE && Unpack(tag).id <= Unpack(ft).id ==>
               Unpack(ft).id + Unpack(tag).Splice() < 0x400
    ensures match Filter(Unpack(ft), Unpack(tag))
            case None => Step(ft, tag) == (0, true)
            case Some(t) => var (w, redundant) := Step(ft, tag);
                            !redundant && Unpack(w) == t && (WordIsValid(w) <==> WordIsValid(ft))
  {
    hide WordClass, WordChunk, WordId, WordSize, WordIsValid, WordIsRemoval, Unpack, WordType1, WordSplice,
         Matches, And, DeleteOf, MaskFor, Shifted;
    SameSlotTest(ft, tag);
    DeleteTest(ft, tag);
    RemovalTest(ft);
    if Filter(Unpack(ft), Unpack(tag)).Some? {
      ShiftTest(ft, tag);
    }
  }
}
