/** crc.rs: CRC-32 by nibbles with a sixteen-entry table. */
module Crc {
  import opened MetadataLog
  import opened Layout

  // CRC-32, polynomial 0x04c11db7 reflected, one bit at a time: the reference.
  function BitStep(crc: bv32): bv32 {
    if crc & 1 == 1 then (crc >> 1) ^ 0xedb8_8320 else crc >> 1
  }

  function Xor(a: bv32, b: bv32): bv32 { a ^ b }

  function FourBits(crc: bv32): bv32 { BitStep(BitStep(BitStep(BitStep(crc)))) }

  function ByteStep(crc: bv32, b: bv8): bv32 { FourBits(FourBits(Xor(crc, b as bv32))) }

  function Crc32(crc: bv32, s: Bytes): bv32 {
    if s == [] then crc else ByteStep(Crc32(crc, s[..|s| - 1]), s[|s| - 1])
  }

  const RTABLE: seq<bv32> := [
    0x0000_0000, 0x1db7_1064, 0x3b6e_20c8, 0x26d9_30ac, 0x76dc_4190, 0x6b6b_51f4, 0x4db2_6158, 0x5005_713c,
    0xedb8_8320, 0xf00f_9344, 0xd6d6_a3e8, 0xcb61_b38c, 0x9b64_c2b0, 0x86d3_d2d4, 0xa00a_e278, 0xbdbd_f21c]

  function Nibble(x: bv32): (n: nat)
    ensures n < 16
  {
    (x & 0xf) as bv4 as int
  }

  function Entry(x: bv32): bv32 { RTABLE[Nibble(x)] }

  function High(b: bv8): bv32 { (b >> 4) as bv32 }

  function Shr4(x: bv32): bv32 { x >> 4 }

  function TableStep(crc: bv32, x: bv32): bv32 { Xor(Shr4(crc), Entry(Xor(crc, x))) }

  function Upper(x: bv32): bv32 { x & 0xffff_fff0 }
  function Lower(x: bv32): bv32 { x & 0xf }

  function Shr1(x: bv32): bv32 { x >> 1 }
  function Also(x: bv32, m: bv32): bv32 { x & m }

  function Feedback(bit: bv32): bv32 { if bit == 1 then 0xedb8_8320 else 0 }

  lemma BitStepParts(x: bv32)
    ensures BitStep(x) == Xor(Shr1(x), Feedback(Also(x, 1)))
    ensures Also(x, 1) == 0 || Also(x, 1) == 1
  {}

  lemma Shr1Linear(a: bv32, b: bv32)
    ensures Shr1(Xor(a, b)) == Xor(Shr1(a), Shr1(b))
  {}

  lemma AlsoLinear(a: bv32, b: bv32, m: bv32)
    ensures Also(Xor(a, b), m) == Xor(Also(a, m), Also(b, m))
  {}

  lemma FeedbackLinear(a: bv32, b: bv32)
    requires a < 2 && b < 2
    ensures Feedback(Xor(a, b)) == Xor(Feedback(a), Feedback(b))
  {}

  // A bit step is linear, hence four are.
  lemma BitStepLinear(a: bv32, b: bv32)
    ensures BitStep(Xor(a, b)) == Xor(BitStep(a), BitStep(b))
  {
    hide BitStep, Xor, Shr1, Also, Feedback;
    BitStepParts(a);
    BitStepParts(b);
    BitStepParts(Xor(a, b));
    Shr1Linear(a, b);
    AlsoLinear(a, b, 1);
    FeedbackLinear(Also(a, 1), Also(b, 1));
    var p, q, u, v := Shr1(a), Shr1(b), Feedback(Also(a, 1)), Feedback(Also(b, 1));
    XorAssociates(p, q, Xor(u, v));
    XorAssociates(q, u, v);
    XorCommutes(q, u);
    XorAssociates(u, q, v);
    XorAssociates(p, u, Xor(q, v));
  }

  lemma FourBitsLinear(a: bv32, b: bv32)
    ensures FourBits(Xor(a, b)) == Xor(FourBits(a), FourBits(b))
  {
    hide BitStep, Xor;
    BitStepLinear(a, b);
    var a1, b1 := BitStep(a), BitStep(b);
    BitStepLinear(a1, b1);
    var a2, b2 := BitStep(a1), BitStep(b1);
    BitStepLinear(a2, b2);
    BitStepLinear(BitStep(a2), BitStep(b2));
  }

  lemma Halves(x: bv32)
    ensures Xor(Upper(x), Lower(x)) == x && Shr4(Upper(x)) == Shr4(x)
  {}

  // As long as the lower bits are zero a bit step only shifts.
  lemma EvenStep(a: bv32, m: bv32)
    requires Also(a, m) == 0 && m & 1 == 1
    ensures BitStep(a) == Shr1(a)
  {}

  lemma EvenAfter(a: bv32, m: bv32)
    requires Also(a, m) == 0
    ensures Also(Shr1(a), Shr1(m)) == 0
  {}

  lemma ShiftFour(a: bv32)
    ensures Shr1(Shr1(Shr1(Shr1(a)))) == Shr4(a)
  {}

  lemma LowerOfUpper(x: bv32)
    ensures Also(Upper(x), 15) == 0
  {}

  lemma Masks()
    ensures Shr1(15) == 7 && Shr1(7) == 3 && Shr1(3) == 1
  {}

  lemma UpperIsShifted(x: bv32)
    ensures FourBits(Upper(x)) == Shr4(x)
  {
    hide Xor, BitStep, Upper, Lower, Shr1, Shr4, Also;
    var a := Upper(x);
    Masks();
    LowerOfUpper(x);
    EvenStep(a, 15);
    EvenAfter(a, 15);
    EvenStep(Shr1(a), 7);
    EvenAfter(Shr1(a), 7);
    EvenStep(Shr1(Shr1(a)), 3);
    EvenAfter(Shr1(Shr1(a)), 3);
    EvenStep(Shr1(Shr1(Shr1(a))), 1);
    ShiftFour(a);
    Halves(x);
  }

  lemma LowerBits(n: bv4)
    ensures FourBits(n as bv32) == RTABLE[n as int]
  {
    if n < 8 { if n < 4 {} else {} } else { if n < 12 {} else {} }
  }

  lemma LowerNibble(x: bv32)
    ensures Lower(x) == ((x & 0xf) as bv4) as bv32
  {}

  // A table entry is what four bit steps do to its index.
  lemma EntryIsFourBits(x: bv32)
    ensures FourBits(x) == Xor(Shr4(x), Entry(x))
  {
    hide FourBits, Xor, Shr4, Upper, Lower;
    Halves(x);
    FourBitsLinear(Upper(x), Lower(x));
    UpperIsShifted(x);
    LowerNibble(x);
    LowerBits((x & 0xf) as bv4);
  }

  lemma FirstNibble(crc: bv32, b: bv8)
    ensures Shr4(Xor(crc, b as bv32)) == Xor(Shr4(crc), High(b))
  {}

  lemma SecondNibble(crc: bv32, b: bv8)
    ensures Shr4(Xor(crc, High(b))) == Shr4(crc)
  {}

  lemma XorAssociates(a: bv32, b: bv32, c: bv32)
    ensures Xor(Xor(a, b), c) == Xor(a, Xor(b, c))
  {}

  lemma XorCommutes(a: bv32, b: bv32)
    ensures Xor(a, b) == Xor(b, a)
  {}

  lemma Shuffle(a: bv32, b: bv32, c: bv32)
    ensures Xor(Xor(a, b), c) == Xor(Xor(a, c), b)
  {
    hide Xor;
    XorAssociates(a, b, c);
    XorCommutes(b, c);
    XorAssociates(a, c, b);
  }

  // Two table steps are eight bit steps.
  lemma ByteStepTable(crc: bv32, b: bv8)
    ensures ByteStep(crc, b) == TableStep(TableStep(crc, b as bv32), High(b))
  {
    hide FourBits, Shr4, Xor, Entry, High;
    var x, c1 := Xor(crc, b as bv32), TableStep(crc, b as bv32);
    EntryIsFourBits(x);
    FirstNibble(crc, b);
    Shuffle(Shr4(crc), High(b), Entry(x));
    EntryIsFourBits(Xor(c1, High(b)));
    SecondNibble(c1, b);
  }

  // lfs_crc
  method LfsCrc(crc: bv32, buffer: Bytes) returns (r: bv32)
    ensures r == Crc32(crc, buffer)
  {
    r := crc;
    assert buffer[..0] == [];
    for i := 0 to |buffer|
      invariant r == Crc32(crc, buffer[..i])
    {
      var byte := buffer[i];
      assert buffer[..i + 1][..i] == buffer[..i];
      ByteStepTable(r, byte);
      r := TableStep(r, byte as bv32);
      r := TableStep(r, High(byte));
    }
    assert buffer[..|buffer|] == buffer;
  }

  // The crc does not depend on how the data is cut into chunks.
  lemma {:induction false} Chunks(crc: bv32, s: Bytes, t: Bytes)
    ensures Crc32(Crc32(crc, s), t) == Crc32(crc, s + t)
  {
    if t == [] {
      assert s + t == s;
    } else {
      var init := t[..|t| - 1];
      assert (s + t)[..|s + t| - 1] == s + init;
      Chunks(crc, s, init);
    }
  }

  function Shr8(c: bv32): bv32 { c >> 8 }

  function Low(c: bv32): bv8 { (c & 0xff) as bv8 }

  // A crc fed its own low byte shifts it out.
  lemma OwnByte(c: bv32)
    ensures ByteStep(c, Low(c)) == Shr8(c)
  {}

  lemma LeByShifts(c: bv32)
    ensures var d, e, f := Shr8(c), Shr8(Shr8(c)), Shr8(Shr8(Shr8(c)));
            LeBytes(c) == [Low(c), Low(d), Low(e), Low(f)] && Shr8(f) == 0
  {}

  lemma CrcFour(crc: bv32, a: bv8, b: bv8, c: bv8, d: bv8)
    ensures Crc32(crc, [a, b, c, d]) == ByteStep(ByteStep(ByteStep(ByteStep(crc, a), b), c), d)
  {
    hide ByteStep;
    assert [a, b, c, d][..3] == [a, b, c] && [a, b, c][..2] == [a, b] && [a, b][..1] == [a] && [a][..0] == [];
    assert Crc32(crc, [a]) == ByteStep(Crc32(crc, [a][..0]), a);
    assert Crc32(crc, [a, b]) == ByteStep(Crc32(crc, [a]), b);
    assert Crc32(crc, [a, b, c]) == ByteStep(Crc32(crc, [a, b]), c);
  }

  lemma OwnCrc(c: bv32)
    ensures Crc32(c, LeBytes(c)) == 0
  {
    hide Shr8, Low, ByteStep, LeBytes, Crc32;
    var d, e, f := Shr8(c), Shr8(Shr8(c)), Shr8(Shr8(Shr8(c)));
    LeByShifts(c);
    CrcFour(c, Low(c), Low(d), Low(e), Low(f));
    OwnByte(c);
    OwnByte(d);
    OwnByte(e);
    OwnByte(f);
  }

  // Data followed by its own crc, little-endian, has crc 0: the check the
  // commit makes when it reads itself back.
  lemma Residue(crc: bv32, data: Bytes)
    ensures Crc32(crc, data + LeBytes(Crc32(crc, data))) == 0
  {
    var c := Crc32(crc, data);
    Chunks(crc, data, LeBytes(c));
    OwnCrc(c);
  }
}
