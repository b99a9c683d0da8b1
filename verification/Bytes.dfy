/** Byte strings, as the calls that move data see them. */
module Bytes {
  newtype byte = x: int | 0 <= x < 256

  function Min(a: nat, b: nat): nat {
    if a < b then a else b
  }

  predicate Prefix(s: seq<byte>, whole: seq<byte>) {
    |s| <= |whole| && s == whole[..|s|]
  }

  /** Up to `count` bytes from `offset` on; none at or past the end. */
  function Window(file: seq<byte>, offset: nat, count: nat): (w: seq<byte>)
    ensures |w| <= count
  {
    if offset >= |file| then [] else file[offset..offset + Min(count, |file| - offset)]
  }

  function Drop(s: seq<byte>, n: nat): seq<byte> {
    if n <= |s| then s[n..] else []
  }

  /** A file made long enough to be written at `offset`; a gap reads as zeros. */
  function Padded(file: seq<byte>, offset: nat): (r: seq<byte>)
    ensures |r| >= offset
  {
    if offset <= |file| then file else file + seq(offset - |file|, _ => 0)
  }

  /** What a file holds after `data` is written at `offset`. */
  function Splice(file: seq<byte>, offset: nat, data: seq<byte>): seq<byte> {
    if data == [] then file
    else Padded(file, offset)[..offset] + data + Drop(Padded(file, offset), offset + |data|)
  }
}
