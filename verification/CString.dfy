/** Strings in character buffers, which end at the first NUL. */
module CString {

  const NUL := '\0'

  /** A C string in a buffer. */
  ghost predicate IsString(buffer: seq<char>, offset: int, s: string) {
    0 <= offset && offset + |s| < |buffer| && buffer[offset..offset + |s|] == s && buffer[offset + |s|] == NUL &&
        NUL !in s
  }

  /** The length of the string that starts at `from`. */
  method StringLength(buffer: array<char>, from: nat, ghost rest: string) returns (length: nat)
    requires IsString(buffer[..], from, rest)
    ensures length == |rest|
  {
    length := 0;
    assert buffer[..][from..from + |rest|] == rest;
    while buffer[from + length] != NUL
      invariant length <= |rest|
      decreases |rest| - length
    {
      assert buffer[from + length] == rest[length];
      length := length + 1;
    }
  }
}
