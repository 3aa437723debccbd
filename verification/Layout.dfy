/**
 How a metadata block holds a log: big-endian tag words, each XORed with the
 word before it, followed by the payload of the tag.
 */
module Layout {
  import opened Tags
  import opened MetadataLog

  // ----- words in bytes -----

  function Nat32(w: bv32): nat { w as int }

  predicate TopClear(x: bv8) { x & 0x80 == 0 }

  function BeBytes(w: bv32): (s: Bytes)
    ensures |s| == 4
  {
    [(w >> 24) as bv8, ((w >> 16) & 0xff) as bv8, ((w >> 8) & 0xff) as bv8, (w & 0xff) as bv8]
  }

  function FromBe(s: Bytes): bv32
    requires |s| == 4
  {
    ((s[0] as bv32) << 24) | ((s[1] as bv32) << 16) | ((s[2] as bv32) << 8) | (s[3] as bv32)
  }

  function LeBytes(w: bv32): (s: Bytes)
    ensures |s| == 4
  {
    [(w & 0xff) as bv8, ((w >> 8) & 0xff) as bv8, ((w >> 16) & 0xff) as bv8, (w >> 24) as bv8]
  }

  function FromLe(s: Bytes): bv32
    requires |s| == 4
  {
    ((s[3] as bv32) << 24) | ((s[2] as bv32) << 16) | ((s[1] as bv32) << 8) | (s[0] as bv32)
  }

  lemma BeRoundTrip(w: bv32)
    ensures FromBe(BeBytes(w)) == w
  {}

  lemma LeRoundTrip(w: bv32)
    ensures FromLe(LeBytes(w)) == w
  {}

  function BeAt(b: Bytes, off: nat): bv32
    requires off + 4 <= |b|
  {
    FromBe(b[off..off + 4])
  }

  function LeAt(b: Bytes, off: nat): bv32
    requires off + 4 <= |b|
  {
    FromLe(b[off..off + 4])
  }

  // ----- the chain of tags -----

  const FIRST_PTAG: bv32 := 0xffff_ffff

  // the word stored for tag `w` behind the word `ptag`, and back
  function Chain(w: bv32, ptag: bv32): bv32 { w ^ ptag }

  lemma Unchain(w: bv32, ptag: bv32)
    ensures Chain(Chain(w, ptag), ptag) == w
  {}

  // The word the next tag is XORed with. A CCRC carries in its low chunk bit
  // the valid bit the erased word after it would otherwise decode to.
  function Link(t: Tag): bv32
    requires t.InRange()
  {
    if t.IsCcrc() && t.chunk % 2 == 1 then Pack(t) ^ 0x8000_0000 else Pack(t)
  }

  predicate OnDisk(r: Rec) {
    r.tag.InRange() && |r.data| == r.tag.DSize() - 4
  }

  predicate LogOnDisk(log: seq<Rec>) { forall i :: 0 <= i < |log| ==> OnDisk(log[i]) }

  function Length(log: seq<Rec>): nat {
    if log == [] then 0 else Length(log[..|log| - 1]) + log[|log| - 1].tag.DSize()
  }

  // the word after which the log is continued
  function EndTag(log: seq<Rec>, ptag: bv32): bv32
    requires LogOnDisk(log)
  {
    if log == [] then ptag else Link(log[|log| - 1].tag)
  }

  // The bytes of a tag and its payload behind a previous word.
  function EncodeRec(r: Rec, ptag: bv32): (s: Bytes)
    requires OnDisk(r)
    ensures |s| == r.tag.DSize()
  {
    BeBytes(Chain(Pack(r.tag), ptag)) + r.data
  }

  function Encode(log: seq<Rec>, ptag: bv32): (s: Bytes)
    requires LogOnDisk(log)
    ensures |s| == Length(log)
  {
    if log == [] then []
    else
      var init := log[..|log| - 1];
      Encode(init, ptag) + EncodeRec(log[|log| - 1], EndTag(init, ptag))
  }

  // block `b` holds `log` at `off`
  predicate Holds(b: Bytes, off: nat, ptag: bv32, log: seq<Rec>)
    requires LogOnDisk(log)
  {
    off + Length(log) <= |b| && b[off..off + Length(log)] == Encode(log, ptag)
  }

  // A held log holds its prefixes.
  lemma {:induction false} HoldsPrefix(b: Bytes, off: nat, ptag: bv32, log: seq<Rec>, k: nat)
    requires LogOnDisk(log) && Holds(b, off, ptag, log) && k <= |log|
    ensures Holds(b, off, ptag, log[..k]) && Length(log[..k]) <= Length(log)
    decreases |log|
  {
    hide EncodeRec, EndTag;
    if k == |log| {
      assert log[..k] == log;
    } else {
      var init := log[..|log| - 1];
      var n := Length(init);
      assert log[..k] == init[..k];
      assert Encode(log, ptag)[..n] == Encode(init, ptag);
      assert b[off..off + n] == b[off..off + Length(log)][..n];
      HoldsPrefix(b, off, ptag, init, k);
    }
  }

  // The last record of a held log, read where it lies.
  lemma HoldsLast(b: Bytes, off: nat, ptag: bv32, init: seq<Rec>, r: Rec)
    requires LogOnDisk(init) && OnDisk(r) && LogOnDisk(init + [r])
    requires Holds(b, off, ptag, init + [r])
    ensures var at := off + Length(init);
            && at + r.tag.DSize() == off + Length(init + [r]) <= |b|
            && BeAt(b, at) == Chain(Pack(r.tag), EndTag(init, ptag))
            && b[at..at + 4] == BeBytes(Chain(Pack(r.tag), EndTag(init, ptag)))
            && b[at + 4..at + r.tag.DSize()] == r.data
  {
    hide Chain, Pack, BeBytes, FromBe, EndTag, BeAt, Encode;
    var w := Chain(Pack(r.tag), EndTag(init, ptag));
    EncodeSnoc(init, r, ptag);
    WordAndData(b, off, Encode(init, ptag), w, r.data);
  }

  lemma WordAndData(b: Bytes, off: nat, s: Bytes, w: bv32, data: Bytes)
    requires off + |s| + 4 + |data| <= |b|
    requires b[off..off + |s| + 4 + |data|] == s + (BeBytes(w) + data)
    ensures var at := off + |s|; BeAt(b, at) == w && b[at..at + 4] == BeBytes(w) && b[at + 4..at + 4 + |data|] == data
  {
    SplitAt(b, off, s, BeBytes(w) + data);
    SplitAt(b, off + |s|, BeBytes(w), data);
    BeRoundTrip(w);
  }

  lemma EncodeSnoc(init: seq<Rec>, r: Rec, ptag: bv32)
    requires LogOnDisk(init) && OnDisk(r) && LogOnDisk(init + [r])
    ensures Encode(init + [r], ptag) ==
            Encode(init, ptag) + (BeBytes(Chain(Pack(r.tag), EndTag(init, ptag))) + r.data)
    ensures Length(init + [r]) == Length(init) + r.tag.DSize()
  {
    assert (init + [r])[..|init|] == init;
  }

  lemma SplitAt(b: Bytes, off: nat, s: Bytes, t: Bytes)
    requires off + |s| + |t| <= |b| && b[off..off + |s| + |t|] == s + t
    ensures b[off..off + |s|] == s && b[off + |s|..off + |s| + |t|] == t
  {
    assert s == (s + t)[..|s|] && t == (s + t)[|s|..];
  }

  // Record `k` of a held log, read where it lies.
  lemma HoldsRec(b: Bytes, off: nat, ptag: bv32, log: seq<Rec>, k: nat)
    requires LogOnDisk(log) && Holds(b, off, ptag, log) && k < |log|
    ensures var at := off + Length(log[..k]);
            && at + log[k].tag.DSize() == off + Length(log[..k + 1]) <= |b|
            && BeAt(b, at) == Chain(Pack(log[k].tag), EndTag(log[..k], ptag))
            && b[at + 4..at + log[k].tag.DSize()] == log[k].data
  {
    hide Chain, Pack, Link, BeBytes, FromBe, EndTag, Encode, Length, Holds, BeAt;
    HoldsPrefix(b, off, ptag, log, k + 1);
    assert log[..k + 1] == log[..k] + [log[k]];
    HoldsLast(b, off, ptag, log[..k], log[k]);
  }

  // Writing a record behind a held log extends the log.
  lemma HoldsSnoc(b: Bytes, off: nat, ptag: bv32, log: seq<Rec>, r: Rec)
    requires LogOnDisk(log) && OnDisk(r) && Holds(b, off, ptag, log)
    requires var at := off + Length(log);
             at + r.tag.DSize() <= |b| && b[at..at + r.tag.DSize()] == EncodeRec(r, EndTag(log, ptag))
    ensures LogOnDisk(log + [r]) && Length(log + [r]) == Length(log) + r.tag.DSize()
    ensures Holds(b, off, ptag, log + [r]) && EndTag(log + [r], ptag) == Link(r.tag)
  {
    hide Chain, Pack, Link, BeBytes, EndTag, Encode, EncodeRec, Length, LogOnDisk, OnDisk, Tag.DSize;
    var at, end := off + Length(log), off + Length(log) + r.tag.DSize();
    SnocEndTag(log, r, ptag);
    EncodeSnoc(log, r, ptag);
    assert b[off..end] == b[off..at] + b[at..end];
  }

  lemma SnocEndTag(log: seq<Rec>, r: Rec, ptag: bv32)
    requires LogOnDisk(log) && OnDisk(r)
    ensures LogOnDisk(log + [r]) && EndTag(log + [r], ptag) == Link(r.tag)
    ensures EncodeRec(r, EndTag(log, ptag)) == BeBytes(Chain(Pack(r.tag), EndTag(log, ptag))) + r.data
  {}

  // Bytes behind a held log do not matter to it.
  lemma HoldsElsewhere(b: Bytes, c: Bytes, off: nat, ptag: bv32, log: seq<Rec>)
    requires LogOnDisk(log) && Holds(b, off, ptag, log) && off + Length(log) <= |c|
    requires b[..off + Length(log)] == c[..off + Length(log)]
    ensures Holds(c, off, ptag, log)
  {
    var n := off + Length(log);
    assert b[off..n] == b[..n][off..] && c[off..n] == c[..n][off..];
  }

  function Overwrite(b: Bytes, off: nat, s: Bytes): (c: Bytes)
    requires off + |s| <= |b|
    ensures |c| == |b| && c[..off] == b[..off] && c[off..off + |s|] == s && c[off + |s|..] == b[off + |s|..]
  {
    b[..off] + s + b[off + |s|..]
  }
}
