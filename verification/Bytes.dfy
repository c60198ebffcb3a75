/**
 Bytes and fixed-width integers.

 A byte is an integer below 256. Integers of two, four and eight bytes are written least
 significant byte first, and reading what was written gives the value back whatever bytes
 follow. Signed and unsigned 64-bit values are two readings of the same word.
 */
module Bytes {

  type byte = x: int | 0 <= x < 0x100
  type u32 = x: int | 0 <= x < 0x1_0000_0000
  type u64 = x: int | 0 <= x < 0x1_0000_0000_0000_0000
  type i64 = x: int | -0x8000_0000_0000_0000 <= x < 0x8000_0000_0000_0000

  datatype Option<+T> = None | Some(value: T)

  function PutU16(v: nat): (s: seq<byte>)
    ensures |s| == 2
  {
    [v % 0x100, (v / 0x100) % 0x100]
  }

  function GetU16(s: seq<byte>): (v: nat)
    requires |s| >= 2
    ensures v < 0x1_0000
  {
    s[0] as int + 0x100 * s[1] as int
  }

  function PutU32(v: nat): (s: seq<byte>)
    ensures |s| == 4
  {
    PutU16(v % 0x1_0000) + PutU16(v / 0x1_0000)
  }

  function GetU32(s: seq<byte>): u32
    requires |s| >= 4
  {
    GetU16(s) + 0x1_0000 * GetU16(s[2..])
  }

  function PutU64(v: nat): (s: seq<byte>)
    ensures |s| == 8
  {
    PutU32(v % 0x1_0000_0000) + PutU32(v / 0x1_0000_0000)
  }

  function GetU64(s: seq<byte>): u64
    requires |s| >= 8
  {
    GetU32(s) as int + 0x1_0000_0000 * GetU32(s[4..]) as int
  }

  lemma {:induction false} U16RoundTrip(v: nat, rest: seq<byte>)
    requires v < 0x1_0000
    ensures GetU16(PutU16(v) + rest) == v
  {
  }

  lemma {:induction false} U32RoundTrip(v: u32, rest: seq<byte>)
    ensures GetU32(PutU32(v) + rest) == v
  {
    U16RoundTrip(v % 0x1_0000, PutU16(v / 0x1_0000) + rest);
    U16RoundTrip(v / 0x1_0000, rest);
    assert PutU32(v) + rest == PutU16(v % 0x1_0000) + (PutU16(v / 0x1_0000) + rest);
    assert (PutU32(v) + rest)[2..] == PutU16(v / 0x1_0000) + rest;
  }

  lemma {:induction false} U64RoundTrip(v: u64, rest: seq<byte>)
    ensures GetU64(PutU64(v) + rest) == v
  {
    var lo, hi := v % 0x1_0000_0000, v / 0x1_0000_0000;
    U32RoundTrip(lo, PutU32(hi) + rest);
    U32RoundTrip(hi, rest);
    assert PutU64(v) + rest == PutU32(lo) + (PutU32(hi) + rest);
    assert (PutU64(v) + rest)[4..] == PutU32(hi) + rest;
  }

  lemma {:induction false} U16Bytes(s: seq<byte>)
    requires |s| >= 2
    ensures PutU16(GetU16(s)) == s[..2]
  {
  }

  lemma {:induction false} U32Bytes(s: seq<byte>)
    requires |s| >= 4
    ensures PutU32(GetU32(s)) == s[..4]
  {
    U16Bytes(s);
    U16Bytes(s[2..]);
    assert GetU32(s) % 0x1_0000 == GetU16(s) && GetU32(s) / 0x1_0000 == GetU16(s[2..]);
    assert s[..4] == s[..2] + s[2..][..2];
  }

  lemma {:induction false} U64Bytes(s: seq<byte>)
    requires |s| >= 8
    ensures PutU64(GetU64(s)) == s[..8]
  {
    U32Bytes(s);
    U32Bytes(s[4..]);
    assert GetU64(s) % 0x1_0000_0000 == GetU32(s) && GetU64(s) / 0x1_0000_0000 == GetU32(s[4..]);
    assert s[..8] == s[..4] + s[4..][..4];
  }

  /** Two's-complement reading of a 64-bit word, and the word that writes it back. */
  function Signed64(u: u64): i64 {
    if u < 0x8000_0000_0000_0000 then u else u - 0x1_0000_0000_0000_0000
  }

  function Word64(v: int): u64 {
    v % 0x1_0000_0000_0000_0000
  }

  lemma {:induction false} SignedRoundTrip(v: i64, u: u64)
    ensures Signed64(Word64(v)) == v
    ensures Word64(Signed64(u)) == u
  {
  }

  // ---- concatenation bookkeeping, stated on plain sequences so that writers stay folded ----

  lemma {:induction false} Cut(a: seq<byte>, b: seq<byte>)
    ensures (a + b)[..|a|] == a && (a + b)[|a|..] == b
  {
  }

  lemma {:induction false} Assoc3(a: seq<byte>, b: seq<byte>, c: seq<byte>)
    ensures a + b + c == a + (b + c)
  {
  }

  lemma {:induction false} Assoc4(a: seq<byte>, b: seq<byte>, c: seq<byte>, d: seq<byte>, r: seq<byte>)
    ensures a + b + c + d + r == a + (b + (c + (d + r)))
  {
  }

  lemma {:induction false} Assoc6(a: seq<byte>, b: seq<byte>, c: seq<byte>, d: seq<byte>, e: seq<byte>, f: seq<byte>, r: seq<byte>)
    ensures a + b + c + d + e + f + r == a + (b + (c + (d + (e + (f + r)))))
  {
    Assoc4(a, b, c, d, []);
    Assoc4(d, e, f, [], r);
  }

  function Reverse<T>(s: seq<T>): (r: seq<T>)
    ensures |r| == |s|
  {
    seq(|s|, i requires 0 <= i < |s| => s[|s| - 1 - i])
  }

  lemma {:induction false} ReverseTwice<T>(s: seq<T>)
    ensures Reverse(Reverse(s)) == s
  {
  }
}
