/**
 Metadata tags: the packed 32-bit word of the disk format and the record of
 its four fields.

   bit 31      valid (0 on every tag that was really written)
   bits 28-30  type1, the class of the tag
   bits 20-27  chunk, the rest of the type
   bits 10-19  id
   bits 0-9    size, 0x3ff meaning "removed"

 Everything below the codec reasons about the record; `Pack` and the lemmas at
 the end of the module tie the record to the word operations of the source.
 */
module Tags {

  const NAME := 0
  const FROM := 1
  const STRUCT := 2
  const USERATTR := 3
  const SPLICE := 4
  const CRC := 5
  const TAIL := 6
  const GLOBALS := 7

  const NO_ID := 0x3ff
  const REMOVED := 0x3ff

  datatype Tag = Tag(type1: nat, chunk: nat, id: int, size: nat) {

    predicate InRange() {
      type1 < 8 && chunk < 0x100 && 0 <= id < 0x400 && size < 0x400
    }

    predicate IsNoop() { type1 == NAME && chunk == 0 }

    predicate IsCreate() { type1 == SPLICE && chunk == 0x01 }

    predicate IsDelete() { type1 == SPLICE && chunk == 0xff }

    // lfs_tag_isdelete: the tag says that its slot is gone
    predicate IsRemoval() { size == REMOVED }

    // tags that give an entry a name, a structure or an attribute
    predicate IsSlot() {
      (type1 == NAME && chunk != 0) || type1 == STRUCT || type1 == USERATTR
    }

    predicate IsCcrc() { type1 == CRC && chunk < 0x80 }

    // lfs_tag_splice: the chunk as a signed byte
    function Splice(): int {
      if chunk < 0x80 then chunk else chunk - 0x100
    }

    // The slot a tag writes: classes with the low type bit set are unique by
    // their whole type, the others by their class alone.
    function Key(): nat {
      if type1 % 2 == 1 then 0x100 * type1 + chunk else 0x100 * type1
    }

    // lfs_tag_dsize: bytes on disk, tag word included
    function DSize(): nat {
      4 + if IsRemoval() then 0 else size
    }

    function Moved(shift: int): Tag { this.(id := id + shift) }
  }

  // ----- packed words -----

  // Field extraction as the source writes it, on words.
  function WordType1(w: bv32): bv16 { ((w & 0x7000_0000) >> 20) as bv16 }

  function WordChunk(w: bv32): bv8 { ((w & 0x0ff0_0000) >> 20) as bv8 }

  function WordId(w: bv32): bv10 { ((w & 0x000f_fc00) >> 10) as bv10 }

  function WordSize(w: bv32): bv10 { (w & 0x0000_03ff) as bv10 }

  function WordClass(w: bv32): bv3 { (WordType1(w) >> 8) as bv3 }

  // The splice amount shifted into the id field: `lfs_mktag(0, splice as u32, 0)`.
  function WordSplice(w: bv32): bv32 {
    var c := WordChunk(w) as bv32;
    (if c & 0x80 == 0 then c else c | 0xffff_ff00) << 10
  }

  predicate WordIsValid(w: bv32) { w & 0x8000_0000 == 0 }

  predicate WordIsRemoval(w: bv32) { w & 0x3ff == 0x3ff }

  function WordDSize(w: bv32): int {
    4 + if WordIsRemoval(w) then WordSize(w + 1) as int else WordSize(w) as int
  }

  function MkWord(type1: bv3, chunk: bv8, id: bv10, size: bv10): bv32 {
    ((type1 as bv32) << 28) | ((chunk as bv32) << 20) | ((id as bv32) << 10) | (size as bv32)
  }

  // The bit vector of a small number, with the value it must have.
  function Bv3(n: nat): (x: bv3)
    requires n < 8
    ensures x as int == n
  {
    if n == 0 then 0 else Bv3(n - 1) + 1
  }

  function Bv8(n: nat): (x: bv8)
    requires n < 0x100
    ensures x as int == n
  {
    if n == 0 then 0 else Bv8(n - 1) + 1
  }

  function Bv10(n: nat): (x: bv10)
    requires n < 0x400
    ensures x as int == n
  {
    if n == 0 then 0 else Bv10(n - 1) + 1
  }

  function Pack(t: Tag): bv32
    requires t.InRange()
  {
    MkWord(Bv3(t.type1), Bv8(t.chunk), Bv10(t.id), Bv10(t.size))
  }

  function Unpack(w: bv32): (t: Tag)
    ensures t.InRange()
  {
    Tag(WordClass(w) as int, WordChunk(w) as int, WordId(w) as int, WordSize(w) as int)
  }

  lemma MkWordFields(type1: bv3, chunk: bv8, id: bv10, size: bv10)
    ensures var w := MkWord(type1, chunk, id, size);
            && WordIsValid(w) && WordClass(w) == type1 && WordChunk(w) == chunk
            && WordId(w) == id && WordSize(w) == size
            && (WordIsRemoval(w) <==> size == 0x3ff)
  {}

  lemma FieldsMkWord(w: bv32)
    ensures MkWord(WordClass(w), WordChunk(w), WordId(w), WordSize(w)) == w & 0x7fff_ffff
  {}

  // A bit vector is determined by its value.
  lemma SameValue10(x: bv10, y: bv10)
    requires x as int == y as int
    ensures x == y
  {}

  lemma Bv3OfValue(x: bv3)
    ensures 0 <= x as int < 8 && Bv3(x as int) == x
  {
    var y := Bv3(x as int);
    assert x as int == y as int ==> x == y;
  }

  lemma Bv8OfValue(x: bv8)
    ensures 0 <= x as int < 0x100 && Bv8(x as int) == x
  {
    var y := Bv8(x as int);
    assert x as int == y as int ==> x == y;
  }

  lemma Bv10OfValue(x: bv10)
    ensures 0 <= x as int < 0x400 && Bv10(x as int) == x
  {
    SameValue10(Bv10(x as int), x);
  }

  // Packing loses nothing: the record is recovered from the valid word.
  lemma PackUnpack(t: Tag)
    requires t.InRange()
    ensures Unpack(Pack(t)) == t && WordIsValid(Pack(t))
  {
    hide MkWord, WordClass, WordChunk, WordId, WordSize;
    UnpackMkWord(Bv3(t.type1), Bv8(t.chunk), Bv10(t.id), Bv10(t.size));
  }

  lemma UnpackMkWord(type1: bv3, chunk: bv8, id: bv10, size: bv10)
    ensures var w := MkWord(type1, chunk, id, size);
            WordIsValid(w) && Unpack(w) == Tag(type1 as int, chunk as int, id as int, size as int)
  {
    hide MkWord, WordClass, WordChunk, WordId, WordSize, WordIsRemoval, WordIsValid;
    MkWordFields(type1, chunk, id, size);
  }

  // A word is determined by its fields, up to the valid bit.
  lemma UnpackPack(w: bv32)
    ensures Pack(Unpack(w)) == w & 0x7fff_ffff
  {
    hide MkWord, WordClass, WordChunk, WordId, WordSize;
    Bv3OfValue(WordClass(w));
    Bv8OfValue(WordChunk(w));
    Bv10OfValue(WordId(w));
    Bv10OfValue(WordSize(w));
    FieldsMkWord(w);
  }

  lemma RemovalSize(w: bv32)
    requires WordIsRemoval(w)
    ensures WordSize(w + 1) == 0
  {}

  lemma NotRemovalSize(w: bv32)
    ensures WordIsRemoval(w) <==> WordSize(w) == 0x3ff
  {}

  lemma UnpackDSize(w: bv32)
    ensures WordDSize(w) == Unpack(w).DSize()
  {
    hide WordClass, WordChunk, WordId, WordSize;
    NotRemovalSize(w);
    if WordIsRemoval(w) {
      RemovalSize(w);
    } else {
      var size := WordSize(w);
      if size as int == 0x3ff { SameValue10(size, 0x3ff); }
    }
  }

  // ----- comparisons and id arithmetic on words -----

  function And(mask: bv32, w: bv32): bv32 { mask & w }

  function Or(v: bv32, w: bv32): bv32 { v | w }

  predicate Matches(mask: bv32, w: bv32, g: bv32) { And(mask, w) == And(mask, g) }

  lemma MatchesChunk(w: bv32, g: bv32)
    ensures Matches(0x0ff0_0000, w, g) <==> WordChunk(w) == WordChunk(g)
  {}

  lemma MatchesClassId(w: bv32, g: bv32)
    ensures Matches(0x700f_fc00, w, g) <==> WordClass(w) == WordClass(g) && WordId(w) == WordId(g)
  {}

  lemma AndParts(w: bv32)
    ensures And(0x7fff_fc00, w) == Or(And(0x700f_fc00, w), And(0x0ff0_0000, w))
    ensures And(0x700f_fc00, And(0x7fff_fc00, w)) == And(0x700f_fc00, w)
    ensures And(0x0ff0_0000, And(0x7fff_fc00, w)) == And(0x0ff0_0000, w)
  {}

  lemma MatchesAll(w: bv32, g: bv32)
    ensures Matches(0x7fff_fc00, w, g) <==>
            WordClass(w) == WordClass(g) && WordChunk(w) == WordChunk(g) && WordId(w) == WordId(g)
  {
    hide And, Or, WordClass, WordChunk, WordId;
    AndParts(w);
    AndParts(g);
    MatchesClassId(w, g);
    MatchesChunk(w, g);
  }

  // Adding or subtracting LFS_MKTAG(0, 1, 0) moves the id and nothing else.
  lemma IdUp(w: bv32)
    requires WordId(w) != 0x3ff
    ensures var v := w + 0x400;
            && WordId(v) == WordId(w) + 1 && WordClass(v) == WordClass(w)
            && WordChunk(v) == WordChunk(w) && WordSize(v) == WordSize(w) && (WordIsValid(v) <==> WordIsValid(w))
  {}

  lemma IdDown(w: bv32)
    requires WordId(w) != 0
    ensures var v := w + 0xffff_fc00;
            && WordId(v) == WordId(w) - 1 && WordClass(v) == WordClass(w)
            && WordChunk(v) == WordChunk(w) && WordSize(v) == WordSize(w) && (WordIsValid(v) <==> WordIsValid(w))
  {}
}
