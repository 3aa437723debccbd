/**
 lfs_gstate.rs and the bits of fs/superblock.rs that change it: the global
 state, which says whether a move is half done and whether there are orphans.
 Its size field (counts kept in memory only) never reaches the disk.
 */
module GState {
  import opened Tags
  import opened Fetch

  datatype G = G(tag: bv32, pair: Pair)

  const ZERO := G(0, Pair(0, 0))

  function WordXor(a: bv32, b: bv32): bv32 { a ^ b }
  function WordMask(a: bv32): bv32 { a & 0xffff_fc00 }

  // lfs_gstate_xor
  function Xor(a: G, b: G): G {
    G(WordXor(a.tag, b.tag), Pair(WordXor(a.pair.first, b.pair.first), WordXor(a.pair.second, b.pair.second)))
  }

  // what of it is stored: `tag &= !lfs_mktag(0, 0, 0x3ff)`
  function Mask(a: G): G { a.(tag := WordMask(a.tag)) }

  function WordCount(w: bv32): bv32 { w & 0x3ff }
  function WordMove(w: bv32): bv32 { w & 0x7000_0000 }
  function WordFlag(w: bv32): bv32 { w & 0x8000_0000 }

  predicate HasOrphans(a: G) { WordCount(a.tag) != 0 }
  predicate HasMove(a: G) { WordMove(a.tag) != 0 }
  function MoveId(a: G): bv10 { WordId(a.tag) }

  // lfs_pair_cmp and lfs_pair_issync: one block in common; the same two blocks
  predicate Overlap(p: Pair, q: Pair) {
    p.first == q.first || p.second == q.second || p.first == q.second || p.second == q.first
  }

  predicate InSync(p: Pair, q: Pair) {
    (p.first == q.first && p.second == q.second) || (p.first == q.second && p.second == q.first)
  }

  predicate HasMoveHere(a: G, p: Pair) { HasMove(a) && Overlap(a.pair, p) }

  // The flag on disk: the top bit says that the count is not zero.
  predicate Flagged(a: G) { WordFlag(a.tag) != 0 }
  predicate FlagTrue(a: G) { Flagged(a) <==> HasOrphans(a) }

  // lfs_fs_prepmove; None stands for the id 0x3ff, "no move"
  datatype MoveTo = NoMove | MoveFrom(id: bv10, pair: Pair)

  function PrepMove(a: G, m: MoveTo): G {
    match m
    case NoMove => G(WordKept(a.tag), Pair(0, 0))
    case MoveFrom(id, pair) => G(WordKept(a.tag) | 0x4ff0_0000 | ((id as bv32) << 10), pair)
  }

  function WordKept(w: bv32): bv32 { w & 0x8000_03ff }

  // lfs_fs_preporphans: the count and the flag that goes with it
  function PrepOrphans(a: G, n: bv32): G { a.(tag := FlagWord(WordAdd(a.tag, n))) }

  function WordAdd(a: bv32, b: bv32): bv32 { a + b }

  function FlagWord(w: bv32): bv32 { (w & 0x7fff_ffff) | (if w & 0x3ff != 0 then 0x8000_0000 else 0) }

  // lfs_gstate_needssuperblock
  predicate WordSuper(w: bv32) { WordCount(w) & 0x200 != 0 }
  predicate NeedsSuperblock(a: G) { WordSuper(a.tag) }

  // lfs_mount_: a flag found on disk becomes a count of one.
  function Mounted(a: G): G {
    if a != ZERO && Flagged(a) then a.(tag := WordAdd(a.tag, 1)) else a
  }

  // ----- the algebra of deltas -----

  lemma WordLaws(a: bv32, b: bv32)
    ensures WordXor(a, b) == WordXor(b, a) && WordXor(a, a) == 0 && WordXor(a, 0) == a
  {}

  lemma MaskOverXor(a: bv32, b: bv32, x: bv32, ma: bv32, mb: bv32)
    requires x == WordXor(a, b) && ma == WordMask(a) && mb == WordMask(b)
    ensures WordMask(x) == WordXor(ma, mb)
  {}

  lemma WordMaskXor(a: bv32, b: bv32)
    ensures WordMask(WordXor(a, b)) == WordXor(WordMask(a), WordMask(b))
  {
    hide WordXor, WordMask;
    MaskOverXor(a, b, WordXor(a, b), WordMask(a), WordMask(b));
  }

  lemma WordMaskTwice(a: bv32)
    ensures WordMask(WordMask(a)) == WordMask(a) && WordMask(0) == 0
  {}

  lemma WordAssoc(a: bv32, b: bv32, c: bv32)
    ensures WordXor(a, WordXor(b, c)) == WordXor(WordXor(a, b), c)
  {}

  lemma XorLaws(a: G, b: G)
    ensures Xor(a, b) == Xor(b, a) && Xor(a, a) == ZERO && Xor(a, ZERO) == a
    ensures Mask(Xor(a, b)) == Xor(Mask(a), Mask(b)) && Mask(Mask(a)) == Mask(a) && Mask(ZERO) == ZERO
  {
    hide WordXor, WordMask;
    WordLaws(a.tag, b.tag);
    WordMaskXor(a.tag, b.tag);
    WordMaskTwice(a.tag);
    WordMaskTwice(b.tag);
    WordLaws(a.pair.first, b.pair.first);
    WordLaws(a.pair.second, b.pair.second);
  }

  lemma XorAssoc(a: G, b: G, c: G)
    ensures Xor(a, Xor(b, c)) == Xor(Xor(a, b), c)
  {
    hide WordXor;
    WordAssoc(a.tag, b.tag, c.tag);
    WordAssoc(a.pair.first, b.pair.first, c.pair.first);
    WordAssoc(a.pair.second, b.pair.second, c.pair.second);
  }

  lemma XorExchange(a: G, b: G, c: G, d: G)
    ensures Xor(Xor(a, b), Xor(c, d)) == Xor(Xor(a, c), Xor(b, d))
  {
    hide Xor;
    XorAssoc(a, b, Xor(c, d));
    XorAssoc(b, c, d);
    XorLaws(b, c);
    XorAssoc(c, b, d);
    XorAssoc(a, c, Xor(b, d));
  }

  // what is XORed in twice is gone
  lemma XorCancel(a: G, b: G)
    ensures Xor(Xor(a, b), b) == a && Xor(b, Xor(b, a)) == a
  {
    hide Xor;
    XorAssoc(a, b, b);
    XorAssoc(b, b, a);
    XorLaws(b, a);
    XorLaws(a, b);
    XorLaws(ZERO, a);
  }

  // ----- what the changes do -----

  lemma PrepMoveSets(a: G, m: MoveTo)
    ensures var b := PrepMove(a, m);
            && (HasMove(b) <==> m.MoveFrom?)
            && (m.MoveFrom? ==> MoveId(b) == m.id && b.pair == m.pair)
            && (HasOrphans(b) <==> HasOrphans(a)) && (Flagged(b) <==> Flagged(a))
  {}

  // Adding or taking away one orphan, within the count of 9 bits, keeps the
  // flag right, the move as it is, and counts.
  lemma PrepOrphansCounts(a: G, up: bool)
    requires if up then WordCount(a.tag) < 0x1ff else HasOrphans(a)
    ensures var b := PrepOrphans(a, if up then 1 else 0xffff_ffff);
            && FlagTrue(b) && b.pair == a.pair && (HasMove(b) <==> HasMove(a)) && MoveId(b) == MoveId(a)
            && WordCount(b.tag) == (if up then WordCount(a.tag) + 1 else WordCount(a.tag) - 1)
  {}

  // One orphan more and one less is nothing changed.
  lemma OrphanThereAndBack(a: G)
    requires FlagTrue(a) && WordCount(a.tag) < 0x1ff
    ensures PrepOrphans(PrepOrphans(a, 1), 0xffff_ffff) == a
  {
    hide FlagWord, WordCount, WordAdd, WordFlag;
    ThereAndBack(a.tag, WordAdd(a.tag, 1), FlagWord(WordAdd(a.tag, 1)));
  }

  lemma ThereAndBack(w: bv32, u: bv32, v: bv32)
    requires (WordFlag(w) != 0 <==> WordCount(w) != 0) && WordCount(w) < 0x1ff && u == WordAdd(w, 1) && v == FlagWord(u)
    ensures FlagWord(WordAdd(v, 0xffff_ffff)) == w
  {}

  // ----- what of the state is about a move -----

  function WordMoves(w: bv32): bv32 { w & 0x7fff_fc00 }

  function MoveOf(a: G): G { a.(tag := WordMoves(a.tag)) }

  // The move is told by this part, whatever the orphans.
  lemma MoveOfTells(a: G)
    ensures (HasMove(a) <==> HasMove(MoveOf(a))) && MoveId(a) == MoveId(MoveOf(a)) && a.pair == MoveOf(a).pair
  {
    hide WordMoves, WordMove, WordId;
    WordMovesTell(a.tag);
  }

  lemma WordMovesTell(w: bv32)
    ensures WordMove(WordMoves(w)) == WordMove(w) && WordId(WordMoves(w)) == WordId(w)
            && WordMoves(WordMoves(w)) == WordMoves(w)
    ensures WordMoves(WordMask(w)) == WordMoves(w) && WordMask(WordMoves(w)) == WordMoves(w) && WordMoves(0) == 0
  {}

  lemma SameMove(a: G, b: G)
    requires MoveOf(a) == MoveOf(b)
    ensures (HasMove(a) <==> HasMove(b)) && MoveId(a) == MoveId(b) && a.pair == b.pair
  {
    hide MoveOf, HasMove, MoveId;
    MoveOfTells(a);
    MoveOfTells(b);
  }

  lemma MoveOfMask(a: G)
    ensures MoveOf(Mask(a)) == MoveOf(a) && Mask(MoveOf(a)) == MoveOf(a) && MoveOf(MoveOf(a)) == MoveOf(a)
            && MoveOf(ZERO) == ZERO
  {
    hide WordMoves, WordMask, WordMove, WordId;
    WordMovesTell(a.tag);
  }

  lemma MovesOverXor(a: bv32, b: bv32, x: bv32, ma: bv32, mb: bv32)
    requires x == WordXor(a, b) && ma == WordMoves(a) && mb == WordMoves(b)
    ensures WordMoves(x) == WordXor(ma, mb)
  {}

  lemma MoveOfXor(a: G, b: G)
    ensures MoveOf(Xor(a, b)) == Xor(MoveOf(a), MoveOf(b))
  {
    hide WordXor, WordMoves;
    MovesOverXor(a.tag, b.tag, WordXor(a.tag, b.tag), WordMoves(a.tag), WordMoves(b.tag));
  }

  // There is room for one orphan more.
  predicate Countable(a: G) { FlagTrue(a) && WordCount(a.tag) < 0x1ff }

  lemma OneOrphanMore(a: G)
    requires Countable(a)
    ensures MoveOf(PrepOrphans(a, 1)) == MoveOf(a) && HasOrphans(PrepOrphans(a, 1))
    ensures PrepOrphans(PrepOrphans(a, 1), 0xffff_ffff) == a
    ensures PrepOrphans(PrepMove(PrepOrphans(a, 1), NoMove), 0xffff_ffff) == PrepMove(a, NoMove)
    ensures HasOrphans(PrepMove(PrepOrphans(a, 1), NoMove))
  {
    hide FlagWord, WordCount, WordAdd, WordFlag, WordMoves, WordKept;
    OrphanThereAndBack(a);
    OneMoreWord(a.tag, WordAdd(a.tag, 1), FlagWord(WordAdd(a.tag, 1)));
    NoMoveBetween(a.tag, FlagWord(WordAdd(a.tag, 1)));
  }

  lemma OneMoreWord(w: bv32, u: bv32, v: bv32)
    requires WordCount(w) < 0x1ff && u == WordAdd(w, 1) && v == FlagWord(u)
    ensures WordMoves(v) == WordMoves(w) && WordCount(v) == WordCount(w) + 1 && WordCount(WordKept(v)) != 0
  {}

  lemma NoMoveBetween(w: bv32, v: bv32)
    requires FlagWord(WordAdd(v, 0xffff_ffff)) == w && WordCount(v) != 0
    ensures FlagWord(WordAdd(WordKept(v), 0xffff_ffff)) == WordKept(w)
  {}

  lemma PrepMoveIsMove(a: G, m: MoveTo)
    ensures MoveOf(PrepMove(a, m)) == PrepMove(ZERO, m) && MoveOf(PrepMove(a, NoMove)) == ZERO
    ensures Countable(a) ==> Countable(PrepMove(a, m))
  {}

  // -(orphans as i8) as u32, where the count is first cut to eight bits
  function MinusOrphans(w: bv32): bv32 {
    var m := (0 - (w & 0xff)) & 0xff;
    if m & 0x80 != 0 then m | 0xffff_ff00 else m
  }

  predicate Few(w: bv32) { w & 0x3ff <= 128 }

  // Taking all orphans away at once leaves none if and only if there were at
  // most 128 (and no new superblock is asked for, which uses the bit above).
  lemma NoOrphansLeft(a: G)
    requires !NeedsSuperblock(a)
    ensures !HasOrphans(PrepOrphans(a, MinusOrphans(a.tag))) <==> Few(a.tag)
  {
    hide MinusOrphans, FlagWord, WordCount, Few, WordSuper, WordAdd;
    var v := WordAdd(a.tag, MinusOrphans(a.tag));
    MinusOrphansIs(a.tag, MinusOrphans(a.tag), v);
    FlagAside(v, FlagWord(v));
  }

  lemma MinusOrphansIs(w: bv32, n: bv32, v: bv32)
    requires !WordSuper(w) && n == MinusOrphans(w) && v == WordAdd(w, n)
    ensures WordCount(v) == 0 <==> Few(w)
  {}

  lemma FlagAside(v: bv32, u: bv32)
    requires u == FlagWord(v)
    ensures WordCount(u) == WordCount(v)
  {}

  // What is stored, and what a mount makes of it, name the same move; the
  // mount counts an orphan if and only if there were any.
  lemma MountedKeeps(a: G)
    requires FlagTrue(a)
    ensures var b := Mounted(Mask(a));
            && (HasMove(b) <==> HasMove(a)) && MoveId(b) == MoveId(a) && b.pair == a.pair
            && FlagTrue(b) && (HasOrphans(b) <==> HasOrphans(a)) && Mask(b) == Mask(a)
  {
    hide WordMask, WordCount, WordMove, WordFlag, WordId, WordAdd;
    MaskedFields(a.tag);
    MaskedCount(a.tag);
    WordMaskTwice(a.tag);
    MountedWord(WordMask(a.tag), Mounted(Mask(a)).tag);
  }

  // Whatever the flag says, a mount finds the move that was stored.
  lemma MountedMove(a: G)
    ensures var b := Mounted(Mask(a));
            (HasMove(b) <==> HasMove(a)) && MoveId(b) == MoveId(a) && b.pair == a.pair
  {
    hide WordMask, WordCount, WordMove, WordFlag, WordId, WordAdd;
    MaskedFields(a.tag);
    MaskedCount(a.tag);
    MountedWord(WordMask(a.tag), Mounted(Mask(a)).tag);
  }

  lemma MountedSame(a: G)
    requires Mask(a) == a
    ensures Mask(Mounted(a)) == a
  {
    hide WordMask, WordCount, WordMove, WordFlag, WordId, WordAdd;
    MaskedCount(a.tag);
    MountedWord(a.tag, Mounted(a).tag);
  }

  lemma MountedCountable(a: G)
    requires Mask(a) == a
    ensures Countable(Mounted(a)) && MoveOf(Mounted(a)) == MoveOf(a)
  {
    hide WordMask, WordCount, WordMove, WordFlag, WordId, WordAdd, WordMoves;
    MaskedCount(a.tag);
    MountedWord(a.tag, Mounted(a).tag);
    CountedMoves(a.tag);
    SmallCounts();
  }

  lemma CountedMoves(w: bv32)
    requires WordCount(w) == 0
    ensures WordMoves(WordAdd(w, 1)) == WordMoves(w)
  {}

  lemma SmallCounts()
    ensures (0 as bv32) < 0x1ff && (1 as bv32) < 0x1ff
  {}

  lemma MountedWord(w: bv32, v: bv32)
    requires WordCount(w) == 0 && (v == w || (v == WordAdd(w, 1) && WordFlag(w) != 0))
    ensures WordMove(v) == WordMove(w) && WordId(v) == WordId(w) && WordMask(v) == WordMask(w)
    ensures WordFlag(v) == WordFlag(w) && WordCount(v) == (if v == w then 0 else 1) && WordAdd(w, 1) != w
  {
    hide WordMask, WordCount, WordMove, WordFlag, WordId, WordAdd;
    CountedFields(w);
    CountedOne(w);
  }

  lemma MaskedFields(w: bv32)
    ensures WordMove(WordMask(w)) == WordMove(w) && WordId(WordMask(w)) == WordId(w)
  {}

  lemma MaskedCount(w: bv32)
    ensures WordFlag(WordMask(w)) == WordFlag(w) && WordCount(WordMask(w)) == 0
    ensures WordFlag(0) == 0 && WordMove(0) == 0
  {}

  lemma CountedFields(w: bv32)
    requires WordCount(w) == 0
    ensures WordMove(WordAdd(w, 1)) == WordMove(w) && WordId(WordAdd(w, 1)) == WordId(w)
  {}

  lemma CountedOne(w: bv32)
    requires WordCount(w) == 0
    ensures WordFlag(WordAdd(w, 1)) == WordFlag(w) && WordCount(WordAdd(w, 1)) == 1
            && WordMask(WordAdd(w, 1)) == WordMask(w)
  {}
}
