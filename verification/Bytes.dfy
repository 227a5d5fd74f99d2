/** Unsigned bytes and the little-endian words made of them. */
module Bytes {

  type Byte = b: nat | b < 256
  type Short = x: nat | x < 0x1_0000

  function ShortAt(s: seq<Byte>, at: nat): Short
    requires at + 1 < |s|
  {
    var low: nat, high: nat := s[at], s[at + 1];
    low + high * 256
  }
}
