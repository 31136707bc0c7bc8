/** Octets, fixed-width integers and the result types shared by the whole model. */
module Bytes {

  type Byte = x: int | 0 <= x < 256

  datatype Option<+T> = None | Some(value: T)

  datatype Result<+T, +E> = Success(value: T) | Failure(error: E)

  const U16_LIMIT := 0x1_0000
  const U32_LIMIT := 0x1_0000_0000

  /** The bytes `s` occur in `b` at offset `p`. */
  predicate At(b: seq<Byte>, p: nat, s: seq<Byte>) {
    p + |s| <= |b| && b[p..p + |s|] == s
  }

  /** An occurrence of a concatenation is an occurrence of each part. */
  lemma AtSplit(b: seq<Byte>, p: nat, s: seq<Byte>, t: seq<Byte>)
    ensures At(b, p, s + t) <==> At(b, p, s) && At(b, p + |s|, t)
  {
    if At(b, p, s + t) {
      assert b[p..p + |s|] == (s + t)[..|s|];
      assert b[p + |s|..p + |s| + |t|] == (s + t)[|s|..];
    }
    if At(b, p, s) && At(b, p + |s|, t) {
      assert b[p..p + |s + t|] == b[p..p + |s|] + b[p + |s|..p + |s| + |t|];
    }
  }

  // Big-endian 16-bit integers (DNS).

  function GetU16(b: seq<Byte>, p: nat): (n: nat)
    requires p + 2 <= |b|
    ensures n < U16_LIMIT
  {
    b[p] as int * 256 + b[p + 1]
  }

  /** The two octets of a 16-bit integer, characterized by their value. */
  ghost function PutU16(n: nat): (s: seq<Byte>)
    requires n < U16_LIMIT
    ensures |s| == 2 && GetU16(s, 0) == n
  {
    assert GetU16([n / 256, n % 256], 0) == n;
    var s: seq<Byte> :| |s| == 2 && GetU16(s, 0) == n;
    s
  }

  /** No other two octets have that value. */
  lemma PutU16Unique(n: nat, s: seq<Byte>)
    requires n < U16_LIMIT && |s| == 2 && GetU16(s, 0) == n
    ensures PutU16(n) == s
  {
  }

  // Little-endian 32-bit integers (Cap'n Proto).

  function GetU32(b: seq<Byte>, p: nat): (n: nat)
    requires p + 4 <= |b|
    ensures n < U32_LIMIT
  {
    b[p] + 256 * (b[p + 1] as int) + 65536 * (b[p + 2] as int) + 16777216 * (b[p + 3] as int)
  }

  /** The four octets of a 32-bit integer, characterized by their value. */
  ghost function PutU32(n: nat): (s: seq<Byte>)
    requires n < U32_LIMIT
    ensures |s| == 4 && GetU32(s, 0) == n
  {
    var low, high := n % 65536, n / 65536;
    assert GetU32([low % 256, low / 256, high % 256, high / 256], 0) == n;
    var s: seq<Byte> :| |s| == 4 && GetU32(s, 0) == n;
    s
  }

  lemma GetU32Injective(s: seq<Byte>, t: seq<Byte>)
    requires |s| == |t| == 4 && GetU32(s, 0) == GetU32(t, 0)
    ensures s == t
  {
    assert s[3] == t[3];
    assert s[2] == t[2];
    assert s[1] == t[1];
    assert s[0] == t[0];
  }

  /** `PutU32` is the only four-byte representation of its value. */
  lemma PutGetU32(b: seq<Byte>, p: nat)
    requires p + 4 <= |b|
    ensures PutU32(GetU32(b, p)) == b[p..p + 4]
  {
    assert GetU32(b[p..p + 4], 0) == GetU32(b, p);
    GetU32Injective(PutU32(GetU32(b, p)), b[p..p + 4]);
  }
}
