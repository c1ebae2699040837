/** Bytes, and the big-endian integers the RFB wire format is built from. */
module Bytes {

  type Byte = b: int | 0 <= b < 256
  type Data = seq<Byte>

  datatype Option<+T> = None | Some(value: T)

  /** `struct.unpack("!H", s)`. */
  function U16(s: Data): (n: nat)
    requires |s| == 2
    ensures n < 0x1_0000
  {
    256 * (s[0] as int) + s[1] as int
  }

  /** `struct.unpack("!I", s)`. */
  function U32(s: Data): (n: nat)
    requires |s| == 4
    ensures n < 0x1_0000_0000
  {
    0x1_0000 * U16(s[..2]) + U16(s[2..])
  }

  /** `struct.pack("!H", n)`, the inverse of `U16`. */
  function PutU16(n: nat): (s: Data)
    requires n < 0x1_0000
    ensures |s| == 2 && U16(s) == n
  {
    [n / 256, n % 256]
  }

  /** `struct.pack("!I", n)`, the inverse of `U32`. */
  function PutU32(n: nat): (s: Data)
    requires n < 0x1_0000_0000
    ensures |s| == 4 && U32(s) == n
  {
    var s := PutU16(n / 0x1_0000) + PutU16(n % 0x1_0000);
    assert s[..2] == PutU16(n / 0x1_0000) && s[2..] == PutU16(n % 0x1_0000);
    s
  }

  lemma {:induction false} Associative(a: Data, b: Data, c: Data)
    ensures a + (b + c) == (a + b) + c
  {
  }

  lemma {:induction false} SplitAt(s: Data, n: nat)
    requires n <= |s|
    ensures s == s[..n] + s[n..]
  {
  }

  lemma {:induction false} Extends(a: Data, b: Data)
    requires a <= b
    ensures b == a + b[|a|..] && b[..|a|] == a
  {
  }

  /** The front of a concatenation, and what is behind it. */
  lemma {:induction false} Peel(a: Data, b: Data)
    ensures (a + b)[0..|a|] == a && (a + b)[|a|..] == b
    ensures a != [] ==> (a + b)[0] == a[0]
  {
  }

  /** Slices of a suffix. */
  lemma {:induction false} Slices(s: Data, pos: nat, a: nat, b: nat)
    requires a <= b && pos + b <= |s|
    ensures s[pos..][a..b] == s[pos + a..pos + b] && s[pos..][b..] == s[pos + b..]
  {
  }

  /** Slices of a slice. */
  lemma {:induction false} Middle(s: Data, pos: nat, n: nat, end: nat)
    requires pos + n <= end <= |s|
    ensures s[pos..end][..n] == s[pos..pos + n] && s[pos..end][n..] == s[pos + n..end]
  {
  }

  /** What a FIFO delivers in all when it delivers `chunks` one after another. */
  function Concat(chunks: seq<Data>): Data {
    if chunks == [] then [] else chunks[0] + Concat(chunks[1..])
  }
}
