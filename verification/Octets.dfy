/** Bytes as numbers, for the layers below and beside the metadata log. */
module Octets {
  type Byte = x: int | 0 <= x < 0x100
  type Bytes = seq<Byte>

  // LFS_BLOCK_NULL, the number of no block
  const NULL: nat := 0xffff_ffff

  // the order of byte strings, as slices are compared
  datatype Ordering = Less | Equal | Greater

  function Compare(a: Bytes, b: Bytes): Ordering {
    if a == [] then (if b == [] then Equal else Less)
    else if b == [] then Greater
    else if a[0] < b[0] then Less
    else if a[0] > b[0] then Greater
    else Compare(a[1..], b[1..])
  }

  lemma {:induction false} CompareEqual(a: Bytes, b: Bytes)
    ensures Compare(a, b) == Equal <==> a == b
  {
    if a != [] && b != [] && a[0] == b[0] {
      CompareEqual(a[1..], b[1..]);
      assert a == [a[0]] + a[1..] && b == [b[0]] + b[1..];
    }
  }
}
