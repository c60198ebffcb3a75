/**
 CBC mode with optional padding over a block cipher (NIST SP 800-38A section 6.2, RFC 5652
 section 6.3). The cipher under the caller's key is a pair of function parameters.
 */
module AesCbc {

  const BLOCK := 16

  type Blocks = seq<bv8>
  type Cipher = Blocks -> Blocks

  ghost predicate KeepsBlocks(f: Cipher) { forall b: Blocks {:trigger f(b)} | |b| == BLOCK :: |f(b)| == BLOCK }

  /** Two functions on whole blocks, the first undoing the second. */
  ghost predicate Undoes(dec: Cipher, enc: Cipher) {
    KeepsBlocks(enc) && KeepsBlocks(dec) && forall b: Blocks {:trigger enc(b)} | |b| == BLOCK :: dec(enc(b)) == b
  }

  function Xor(a: Blocks, b: Blocks): (r: Blocks)
    requires |a| == |b|
    ensures |r| == |a|
  {
    seq(|a|, i requires 0 <= i < |a| => a[i] ^ b[i])
  }

  lemma {:induction false} XorTwice(a: Blocks, b: Blocks)
    requires |a| == |b|
    ensures Xor(a, Xor(a, b)) == b && Xor(Xor(a, b), a) == b
  {
    forall i | 0 <= i < |a| ensures a[i] ^ (a[i] ^ b[i]) == b[i] && (a[i] ^ b[i]) ^ a[i] == b[i] { XorBits(a[i], b[i]); }
  }

  lemma {:induction false} XorBits(x: bv8, y: bv8)
    ensures x ^ (x ^ y) == y && (x ^ y) ^ x == y
  {
  }

  // ---- the mode on whole blocks ----

  function CbcEncrypt(enc: Cipher, prev: Blocks, data: Blocks): (r: Blocks)
    requires KeepsBlocks(enc) && |prev| == BLOCK && |data| % BLOCK == 0
    ensures |r| == |data|
    decreases |data|
  {
    if data == [] then [] else
    var c := enc(Xor(prev, data[..BLOCK]));
    c + CbcEncrypt(enc, c, data[BLOCK..])
  }

  function CbcDecrypt(dec: Cipher, prev: Blocks, data: Blocks): (r: Blocks)
    requires KeepsBlocks(dec) && |prev| == BLOCK && |data| % BLOCK == 0
    ensures |r| == |data|
    decreases |data|
  {
    if data == [] then [] else
    Xor(dec(data[..BLOCK]), prev) + CbcDecrypt(dec, data[..BLOCK], data[BLOCK..])
  }

  lemma {:induction false} CbcRoundTrip(enc: Cipher, dec: Cipher, prev: Blocks, data: Blocks)
    requires Undoes(dec, enc) && |prev| == BLOCK && |data| % BLOCK == 0
    ensures CbcDecrypt(dec, prev, CbcEncrypt(enc, prev, data)) == data
    decreases |data|
  {
    hide Xor, CbcDecrypt, CbcEncrypt;
    if data == [] {
      NothingToDo(enc, dec, prev);
    } else {
      var c := FirstBlock(enc, dec, prev, data);
      CbcRoundTrip(enc, dec, c, data[BLOCK..]);
      OneBlockBack(dec, c, prev, data[..BLOCK], CbcEncrypt(enc, c, data[BLOCK..]));
      assert data == data[..BLOCK] + data[BLOCK..];
    }
  }

  lemma {:induction false} FirstBlock(enc: Cipher, dec: Cipher, prev: Blocks, data: Blocks) returns (c: Blocks)
    requires Undoes(dec, enc) && |prev| == BLOCK && |data| % BLOCK == 0 && data != []
    ensures |c| == BLOCK && dec(c) == Xor(prev, data[..BLOCK])
    ensures CbcEncrypt(enc, prev, data) == c + CbcEncrypt(enc, c, data[BLOCK..])
  {
    hide Xor, CbcEncrypt;
    c := enc(Xor(prev, data[..BLOCK]));
    EncryptStep(enc, prev, data);
  }

  lemma {:induction false} EncryptStep(enc: Cipher, prev: Blocks, data: Blocks)
    requires KeepsBlocks(enc) && |prev| == BLOCK && |data| % BLOCK == 0 && data != []
    ensures CbcEncrypt(enc, prev, data) == (var c := enc(Xor(prev, data[..BLOCK])); c + CbcEncrypt(enc, c, data[BLOCK..]))
  {
    hide Xor;
  }

  lemma {:induction false} NothingToDo(enc: Cipher, dec: Cipher, prev: Blocks)
    requires KeepsBlocks(enc) && KeepsBlocks(dec) && |prev| == BLOCK
    ensures CbcEncrypt(enc, prev, []) == [] && CbcDecrypt(dec, prev, []) == []
  {
  }

  lemma {:induction false} OneBlockBack(dec: Cipher, c: Blocks, prev: Blocks, first: Blocks, tail: Blocks)
    requires KeepsBlocks(dec) && |c| == |prev| == |first| == BLOCK && |tail| % BLOCK == 0
    requires dec(c) == Xor(prev, first)
    ensures CbcDecrypt(dec, prev, c + tail) == first + CbcDecrypt(dec, c, tail)
  {
    XorTwice(prev, first);
    assert (c + tail)[..BLOCK] == c && (c + tail)[BLOCK..] == tail;
  }

  // ---- the chain, block by block ----

  /** The bytes of block i. */
  function BlockAt(data: Blocks, i: nat): (b: Blocks)
    requires BLOCK * (i + 1) <= |data|
    ensures |b| == BLOCK
  {
    data[BLOCK * i..BLOCK * (i + 1)]
  }

  /** What block i is chained to: the block before it, and the start vector for the first. */
  function Chained(iv: Blocks, data: Blocks, i: nat): Blocks
    requires BLOCK * i <= |data|
  {
    if i == 0 then iv else BlockAt(data, i - 1)
  }

  lemma {:induction false} BlockOfRest(c: Blocks, rest: Blocks, i: nat)
    requires |c| == BLOCK && 0 < i && BLOCK * (i + 1) <= |c + rest|
    ensures BlockAt(c + rest, i) == BlockAt(rest, i - 1)
  {
  }

  /** Every ciphertext block is the cipher of its plaintext block, combined bit by bit with the
      ciphertext block before it or with the start vector. */
  lemma {:induction false} EncryptedBlock(enc: Cipher, iv: Blocks, data: Blocks, i: nat, x: Blocks)
    requires KeepsBlocks(enc) && |iv| == BLOCK && |data| % BLOCK == 0 && BLOCK * (i + 1) <= |data| && |x| == BLOCK
    requires var out := CbcEncrypt(enc, iv, data);
      forall k | 0 <= k < BLOCK :: x[k] == Chained(iv, out, i)[k] ^ BlockAt(data, i)[k]
    ensures BlockAt(CbcEncrypt(enc, iv, data), i) == enc(x)
    decreases i
  {
    hide CbcEncrypt, KeepsBlocks;
    var c := enc(Xor(iv, data[..BLOCK]));
    KeptBlock(enc, Xor(iv, data[..BLOCK]));
    var rest := CbcEncrypt(enc, c, data[BLOCK..]);
    EncryptStep(enc, iv, data);
    if i == 0 {
      assert x == Xor(iv, data[..BLOCK]);
      assert BlockAt(c + rest, 0) == c;
    } else {
      BlockOfRest(c, rest, i);
      BlockOfRest(data[..BLOCK], data[BLOCK..], i);
      assert data == data[..BLOCK] + data[BLOCK..];
      if i == 1 { assert BlockAt(c + rest, 0) == c; } else { BlockOfRest(c, rest, i - 1); }
      EncryptedBlock(enc, c, data[BLOCK..], i - 1, x);
    }
  }

  lemma {:induction false} KeptBlock(f: Cipher, b: Blocks)
    requires KeepsBlocks(f) && |b| == BLOCK
    ensures |f(b)| == BLOCK
  {
  }

  /** Every plaintext block is the decipherment of its ciphertext block, combined bit by bit with
      the ciphertext block before it or with the start vector. */
  lemma {:induction false} DecryptedBlock(dec: Cipher, iv: Blocks, data: Blocks, i: nat, k: nat)
    requires KeepsBlocks(dec) && |iv| == BLOCK && |data| % BLOCK == 0 && BLOCK * (i + 1) <= |data| && k < BLOCK
    ensures |dec(BlockAt(data, i))| == BLOCK
    ensures BlockAt(CbcDecrypt(dec, iv, data), i)[k] == dec(BlockAt(data, i))[k] ^ Chained(iv, data, i)[k]
    decreases i
  {
    hide CbcDecrypt, KeepsBlocks;
    var c := data[..BLOCK];
    KeptBlock(dec, c);
    KeptBlock(dec, BlockAt(data, i));
    DecryptStep(dec, iv, data);
    var rest := CbcDecrypt(dec, c, data[BLOCK..]);
    assert data == c + data[BLOCK..];
    if i == 0 {
      assert BlockAt(data, 0) == c;
      assert BlockAt(Xor(dec(c), iv) + rest, 0) == Xor(dec(c), iv);
    } else {
      BlockOfRest(Xor(dec(c), iv), rest, i);
      BlockOfRest(c, data[BLOCK..], i);
      if i == 1 { assert BlockAt(data, 0) == c; } else { BlockOfRest(c, data[BLOCK..], i - 1); }
      DecryptedBlock(dec, c, data[BLOCK..], i - 1, k);
    }
  }

  // ---- padding ----

  function PadSize(n: nat): (k: nat)
    ensures 1 <= k <= BLOCK && (n + k) % BLOCK == 0
  {
    BLOCK - n % BLOCK
  }

  function PadBytes(k: nat): (r: Blocks)
    requires k < 0x100
    ensures |r| == k
  {
    seq(k, _ => k as bv8)
  }

  function Padded(data: Blocks): (r: Blocks)
    ensures |r| == |data| + PadSize(|data|)
  {
    data + PadBytes(PadSize(|data|))
  }

  function LastByte(p: Blocks): nat
    requires p != []
  {
    p[|p| - 1] as nat
  }

  /** Between 1 and 16 bytes at the end, all equal to their count. */
  predicate WellPadded(p: Blocks) {
    p != [] && 1 <= LastByte(p) <= BLOCK && LastByte(p) <= |p| &&
    forall i | |p| - LastByte(p) <= i < |p| :: p[i] == p[|p| - 1]
  }

  function Unpadded(p: Blocks): Blocks
    requires WellPadded(p)
  {
    p[..|p| - LastByte(p)]
  }

  lemma {:induction false} PadValue(k: nat)
    requires 1 <= k <= BLOCK
    ensures (k as bv8) as nat == k
  {
    if k <= 8 { SmallPadValue(k); } else { LargePadValue(k); }
  }

  lemma {:induction false} SmallPadValue(k: nat)
    requires 1 <= k <= 8
    ensures (k as bv8) as nat == k
  {
    assert k == 1 || k == 2 || k == 3 || k == 4 || k == 5 || k == 6 || k == 7 || k == 8;
  }

  lemma {:induction false} LargePadValue(k: nat)
    requires 9 <= k <= 16
    ensures (k as bv8) as nat == k
  {
    assert k == 9 || k == 10 || k == 11 || k == 12 || k == 13 || k == 14 || k == 15 || k == 16;
  }

  /** Padding adds from 1 to 16 bytes up to a whole block, each of them their count. */
  lemma {:induction false} PaddedIs(data: Blocks)
    ensures var p := Padded(data);
            var k := |p| - |data|;
      && 1 <= k <= 16 && |p| % 16 == 0 && data <= p
      && forall i | |data| <= i < |p| :: p[i] as nat == k
  {
    PadValue(PadSize(|data|));
  }

  /** Whole blocks are well padded exactly when they are the padding of something. */
  lemma {:induction false} WellPaddedIff(p: Blocks)
    requires |p| % 16 == 0
    ensures WellPadded(p) <==> exists data :: p == Padded(data)
  {
    if WellPadded(p) {
      var k := LastByte(p);
      var data := p[..|p| - k];
      assert PadSize(|data|) == k;
      ByteOfValue(p[|p| - 1]);
      assert p == Padded(data);
    }
    if data :| p == Padded(data) { UnpadUndoesPad(data); }
  }

  lemma {:induction false} UnpadUndoesPad(data: Blocks)
    ensures WellPadded(Padded(data)) && Unpadded(Padded(data)) == data
  {
    var p, k := Padded(data), PadSize(|data|);
    PadValue(k);
    assert p[|p| - 1] == k as bv8;
  }

  // ---- the two operations on values ----

  /** What is written; nothing for empty data, or for partial blocks without padding. */
  function Encrypted(enc: Cipher, iv: Blocks, data: Blocks, pad: bool): Blocks
    requires KeepsBlocks(enc) && |iv| == BLOCK
  {
    if data == [] || (!pad && |data| % BLOCK != 0) then [] else
    CbcEncrypt(enc, iv, if pad then Padded(data) else data)
  }

  /** The plaintext; nothing for empty data, partial blocks or malformed padding. */
  function Decrypted(dec: Cipher, iv: Blocks, data: Blocks, pad: bool): Blocks
    requires KeepsBlocks(dec) && |iv| == BLOCK
  {
    if data == [] || |data| % BLOCK != 0 then [] else
    var p := CbcDecrypt(dec, iv, data);
    if !pad then p else if WellPadded(p) then Unpadded(p) else []
  }

  /** Decryption gives back what was encrypted: all non-empty data with padding, whole blocks
      without. */
  lemma {:induction false} DecryptUndoesEncrypt(enc: Cipher, dec: Cipher, iv: Blocks, data: Blocks, pad: bool)
    requires Undoes(dec, enc) && |iv| == BLOCK
    ensures Decrypted(dec, iv, Encrypted(enc, iv, data, pad), pad) == if pad || |data| % BLOCK == 0 then data else []
  {
    if data != [] && (pad || |data| % BLOCK == 0) {
      var d := if pad then Padded(data) else data;
      CbcRoundTrip(enc, dec, iv, d);
      if pad { UnpadUndoesPad(data); }
    }
  }

  /** Nothing comes out of non-empty whole blocks exactly when the padding is malformed, or the
      plaintext is a single block of nothing but padding, which is well formed. */
  lemma {:induction false} NothingDecryptedIff(dec: Cipher, iv: Blocks, data: Blocks)
    requires KeepsBlocks(dec) && |iv| == BLOCK && data != [] && |data| % BLOCK == 0
    ensures var p := CbcDecrypt(dec, iv, data);
      Decrypted(dec, iv, data, true) == [] <==> !WellPadded(p) || p == PadBytes(BLOCK)
  {
    var p := CbcDecrypt(dec, iv, data);
    PadValue(BLOCK);
    if WellPadded(p) && LastByte(p) == |p| {
      assert |p| == BLOCK;
      ByteOfValue(p[|p| - 1]);
      assert p == PadBytes(BLOCK);
    }
  }

  /** Such a block exists under every key: it is well formed, and decrypts to nothing. */
  lemma {:induction false} PaddingBlockIsLost(enc: Cipher, dec: Cipher, iv: Blocks)
    requires Undoes(dec, enc) && |iv| == BLOCK
    ensures var data := CbcEncrypt(enc, iv, PadBytes(BLOCK));
      WellPadded(CbcDecrypt(dec, iv, data)) && Decrypted(dec, iv, data, true) == []
  {
    hide CbcEncrypt, CbcDecrypt;
    CbcRoundTrip(enc, dec, iv, PadBytes(BLOCK));
    PadValue(BLOCK);
  }

  lemma {:induction false} ByteOfValue(x: bv8)
    ensures (x as nat) as bv8 == x
  {
  }

  // ---- the loops ----

  method MixInto(mixed: array<bv8>, x: Blocks)
    requires mixed.Length == BLOCK == |x|
    modifies mixed
    ensures mixed[..] == Xor(old(mixed[..]), x)
  {
    ghost var was := mixed[..];
    for i := 0 to BLOCK
      invariant forall j | 0 <= j < i :: mixed[j] == was[j] ^ x[j]
      invariant forall j | i <= j < BLOCK :: mixed[j] == was[j]
    {
      mixed[i] := mixed[i] ^ x[i];
    }
  }

  /** The last block: what remains of the data, then the count of missing bytes. */
  method MixPadding(mixed: array<bv8>, tail: Blocks)
    requires mixed.Length == BLOCK && |tail| < BLOCK
    modifies mixed
    ensures mixed[..] == Xor(old(mixed[..]), tail + PadBytes(BLOCK - |tail|))
  {
    ghost var was := mixed[..];
    var padsize := |tail|;
    ghost var last := tail + PadBytes(BLOCK - padsize);
    assert forall j | 0 <= j < padsize :: last[j] == tail[j];
    assert forall j | padsize <= j < BLOCK :: last[j] == (BLOCK - padsize) as bv8;
    for i := 0 to padsize
      invariant forall j | 0 <= j < i :: mixed[j] == was[j] ^ last[j]
      invariant forall j | i <= j < BLOCK :: mixed[j] == was[j]
    {
      mixed[i] := mixed[i] ^ tail[i];
    }
    for i := padsize to BLOCK
      invariant forall j | 0 <= j < i :: mixed[j] == was[j] ^ last[j]
      invariant forall j | i <= j < BLOCK :: mixed[j] == was[j]
    {
      mixed[i] := mixed[i] ^ ((BLOCK - padsize) as bv8);
    }
    assert mixed[..] == Xor(was, last);
  }

  method Put(out: array<bv8>, at: nat, block: Blocks)
    requires |block| == BLOCK && at + BLOCK <= out.Length
    modifies out
    ensures out[..] == old(out[..])[..at] + block + old(out[..])[at + BLOCK..]
  {
    ghost var was := out[..];
    for i := 0 to BLOCK
      invariant forall j | 0 <= j < i :: out[at + j] == block[j]
      invariant forall j | 0 <= j < at || at + i <= j < out.Length :: out[j] == was[j]
    {
      out[at + i] := block[i];
    }
    assert out[..] == was[..at] + block + was[at + BLOCK..];
  }

  /** Encrypting what is left of d from a block boundary continues what is written. */
  ghost predicate Continues(enc: Cipher, iv: Blocks, d: Blocks, written: Blocks, mixed: Blocks, at: nat)
    requires KeepsBlocks(enc) && |iv| == |mixed| == BLOCK && |d| % BLOCK == 0 && at <= |d| && at % BLOCK == 0
  {
    CbcEncrypt(enc, iv, d) == written + CbcEncrypt(enc, mixed, d[at..])
  }

  lemma {:induction false} ContinuesAtStart(enc: Cipher, iv: Blocks, d: Blocks)
    requires KeepsBlocks(enc) && |iv| == BLOCK && |d| % BLOCK == 0
    ensures Continues(enc, iv, d, [], iv, 0)
  {
    assert d[0..] == d;
  }

  lemma {:induction false} ContinueBlock(enc: Cipher, iv: Blocks, d: Blocks, written: Blocks, mixed: Blocks, at: nat)
    requires KeepsBlocks(enc) && |iv| == |mixed| == BLOCK && |d| % BLOCK == 0 && at < |d| && at % BLOCK == 0
    requires Continues(enc, iv, d, written, mixed, at)
    ensures at + BLOCK <= |d|
    ensures var c := enc(Xor(mixed, d[at..at + BLOCK])); |c| == BLOCK && Continues(enc, iv, d, written + c, c, at + BLOCK)
  {
    assert at + BLOCK <= |d|;
    var c := enc(Xor(mixed, d[at..at + BLOCK]));
    assert d[at..][..BLOCK] == d[at..at + BLOCK] && d[at..][BLOCK..] == d[at + BLOCK..];
    assert written + (c + CbcEncrypt(enc, c, d[at + BLOCK..])) == written + c + CbcEncrypt(enc, c, d[at + BLOCK..]);
  }

  method Aes256CbcEncrypt(enc: Cipher, iv: Blocks, data: Blocks, pad: bool, out: array<bv8>) returns (written: nat)
    requires KeepsBlocks(enc) && |iv| == BLOCK && out.Length >= |Encrypted(enc, iv, data, pad)|
    modifies out
    ensures written == |Encrypted(enc, iv, data, pad)| && out[..written] == Encrypted(enc, iv, data, pad)
    ensures out[written..] == old(out[..])[written..]
  {
    hide CbcEncrypt, Xor, PadBytes;
    written := 0;
    var padsize := |data| % BLOCK;
    if |data| == 0 { return 0; }
    if !pad && padsize != 0 { return 0; }
    ghost var d := if pad then Padded(data) else data;
    var mixed;
    written, mixed := EncryptWhole(enc, iv, data, d, out);
    if pad {
      assert d[written..] == data[written..] + PadBytes(BLOCK - padsize);
      EncryptLast(enc, iv, d, mixed, data[written..], out, written);
      written := written + BLOCK;
    }
    Finished(enc, iv, d, out[..written], mixed[..], written);
  }

  lemma {:induction false} Finished(enc: Cipher, iv: Blocks, d: Blocks, written: Blocks, mixed: Blocks, at: nat)
    requires KeepsBlocks(enc) && |iv| == |mixed| == BLOCK && |d| % BLOCK == 0 && at == |d|
    requires Continues(enc, iv, d, written, mixed, at)
    ensures written == CbcEncrypt(enc, iv, d)
  {
    assert d[at..] == [];
  }

  /** All whole blocks of the data, which the padded text d starts with. */
  method EncryptWhole(enc: Cipher, iv: Blocks, data: Blocks, ghost d: Blocks, out: array<bv8>)
    returns (written: nat, mixed: array<bv8>)
    requires KeepsBlocks(enc) && |iv| == BLOCK && |d| % BLOCK == 0 && data <= d && |d| <= out.Length
    modifies out
    ensures fresh(mixed) && mixed.Length == BLOCK && written == |data| - |data| % BLOCK
    ensures Continues(enc, iv, d, out[..written], mixed[..], written) && out[written..] == old(out[written..])
  {
    hide CbcEncrypt, Xor, Continues;
    written := 0;
    ghost var was := out[..];
    mixed := new bv8[BLOCK](i requires 0 <= i < BLOCK => iv[i]);
    assert mixed[..] == iv && out[..0] == [];
    ContinuesAtStart(enc, iv, d);
    while written + BLOCK <= |data|
      invariant written % BLOCK == 0 && written <= |data| && fresh(mixed) && mixed.Length == BLOCK
      invariant Continues(enc, iv, d, out[..written], mixed[..], written)
      invariant out[written..] == was[written..]
    {
      EncryptNext(enc, iv, data, d, mixed, out, written);
      written := written + BLOCK;
    }
  }

  method EncryptNext(enc: Cipher, iv: Blocks, data: Blocks, ghost d: Blocks, mixed: array<bv8>, out: array<bv8>, at: nat)
    requires KeepsBlocks(enc) && |iv| == BLOCK == mixed.Length && mixed != out && at % BLOCK == 0 && |d| % BLOCK == 0
    requires data <= d && at + BLOCK <= |data| && |d| <= out.Length
    requires Continues(enc, iv, d, out[..at], mixed[..], at)
    modifies mixed, out
    ensures Continues(enc, iv, d, out[..at + BLOCK], mixed[..], at + BLOCK)
    ensures out[at + BLOCK..] == old(out[at + BLOCK..])
  {
    hide CbcEncrypt, Xor;
    ghost var before := out[..at];
    ContinueBlock(enc, iv, d, before, mixed[..], at);
    assert d[at..at + BLOCK] == data[at..at + BLOCK];
    EncryptBlock(enc, mixed, data[at..at + BLOCK], out, at);
  }

  method EncryptLast(enc: Cipher, iv: Blocks, ghost d: Blocks, mixed: array<bv8>, tail: Blocks, out: array<bv8>, at: nat)
    requires KeepsBlocks(enc) && |iv| == BLOCK == mixed.Length && mixed != out && |tail| < BLOCK && at % BLOCK == 0
    requires at + BLOCK == |d| <= out.Length && d[at..] == tail + PadBytes(BLOCK - |tail|)
    requires Continues(enc, iv, d, out[..at], mixed[..], at)
    modifies mixed, out
    ensures Continues(enc, iv, d, out[..at + BLOCK], mixed[..], at + BLOCK)
    ensures out[at + BLOCK..] == old(out[at + BLOCK..])
  {
    hide CbcEncrypt, Xor, PadBytes;
    ghost var before := out[..at];
    ContinueBlock(enc, iv, d, before, mixed[..], at);
    assert d[at..at + BLOCK] == d[at..];
    MixPadding(mixed, tail);
    var c := enc(mixed[..]);
    Put(out, at, c);
    Put(mixed, 0, c);
    assert mixed[..] == c && out[..at + BLOCK] == before + c;
  }

  method EncryptBlock(enc: Cipher, mixed: array<bv8>, x: Blocks, out: array<bv8>, at: nat)
    requires KeepsBlocks(enc) && mixed.Length == BLOCK == |x| && at + BLOCK <= out.Length && mixed != out
    modifies mixed, out
    ensures mixed[..] == enc(Xor(old(mixed[..]), x))
    ensures out[..at + BLOCK] == old(out[..at]) + mixed[..] && out[at + BLOCK..] == old(out[at + BLOCK..])
  {
    MixInto(mixed, x);
    var c := enc(mixed[..]);
    Put(out, at, c);
    Put(mixed, 0, c);
    assert mixed[..] == c;
  }

  method Aes256CbcDecrypt(dec: Cipher, iv: Blocks, data: Blocks, pad: bool, out: array<bv8>) returns (r: nat)
    requires KeepsBlocks(dec) && |iv| == BLOCK && out.Length >= |data|
    modifies out
    ensures r == |Decrypted(dec, iv, data, pad)| && out[..r] == Decrypted(dec, iv, data, pad)
  {
    hide CbcDecrypt, Xor;
    if |data| == 0 { return 0; }
    if |data| % BLOCK != 0 { return 0; }
    var written := DecryptAll(dec, iv, data, out);
    ghost var p := out[..written];
    if pad {
      var fail, padsize := CheckPadding(out, written);
      written := written - padsize;
      r := if fail then 0 else written;
      assert out[..r] == p[..r];
    } else {
      r := written;
    }
  }

  method DecryptAll(dec: Cipher, iv: Blocks, data: Blocks, out: array<bv8>) returns (written: nat)
    requires KeepsBlocks(dec) && |iv| == BLOCK && |data| % BLOCK == 0 && out.Length >= |data|
    modifies out
    ensures written == |data| && out[..written] == CbcDecrypt(dec, iv, data)
  {
    hide Xor, CbcDecrypt;
    var prev := iv;
    written := 0;
    assert data[0..] == data;
    while written != |data|
      invariant written % BLOCK == 0 && written <= |data| && |prev| == BLOCK
      invariant CbcDecrypt(dec, iv, data) == out[..written] + CbcDecrypt(dec, prev, data[written..])
    {
      DecryptNext(dec, prev, data, out, written);
      prev := data[written..written + BLOCK];
      written := written + BLOCK;
    }
    NothingToDo(dec, dec, prev);
    assert data[written..] == [];
  }

  method DecryptNext(dec: Cipher, prev: Blocks, data: Blocks, out: array<bv8>, at: nat)
    requires KeepsBlocks(dec) && |prev| == BLOCK && |data| % BLOCK == 0 && at % BLOCK == 0 && at + BLOCK <= |data| <= out.Length
    modifies out
    ensures out[..at + BLOCK] + CbcDecrypt(dec, data[at..at + BLOCK], data[at + BLOCK..])
         == old(out[..at]) + CbcDecrypt(dec, prev, data[at..])
  {
    hide Xor, CbcDecrypt;
    ghost var before, rest := out[..at], data[at..];
    assert rest[..BLOCK] == data[at..at + BLOCK] && rest[BLOCK..] == data[at + BLOCK..];
    DecryptStep(dec, prev, rest);
    var plain := DecryptBlock(dec, prev, data[at..at + BLOCK]);
    Put(out, at, plain);
    assert out[..at + BLOCK] == before + plain;
  }

  lemma {:induction false} DecryptStep(dec: Cipher, prev: Blocks, rest: Blocks)
    requires KeepsBlocks(dec) && |prev| == BLOCK && |rest| % BLOCK == 0 && rest != []
    ensures CbcDecrypt(dec, prev, rest) == Xor(dec(rest[..BLOCK]), prev) + CbcDecrypt(dec, rest[..BLOCK], rest[BLOCK..])
  {
    hide Xor;
  }

  method DecryptBlock(dec: Cipher, prev: Blocks, block: Blocks) returns (plain: Blocks)
    requires KeepsBlocks(dec) && |prev| == BLOCK == |block|
    ensures plain == Xor(dec(block), prev)
  {
    var buf := new bv8[BLOCK](i requires 0 <= i < BLOCK => dec(block)[i]);
    assert buf[..] == dec(block);
    MixInto(buf, prev);
    plain := buf[..];
  }

  /** All sixteen bytes are looked at, whatever the padding says. */
  method CheckPadding(out: array<bv8>, size: nat) returns (fail: bool, padsize: nat)
    requires BLOCK <= size <= out.Length
    ensures fail <==> !WellPadded(out[..size])
    ensures padsize == if 1 <= LastByte(out[..size]) <= BLOCK then LastByte(out[..size]) else 0
  {
    var last := out[size - 1];
    padsize := last as nat;
    fail := padsize == 0 || padsize > BLOCK;
    if fail { padsize := 0; }
    ghost var bad := fail;
    var i := BLOCK;
    while i != 0
      invariant 0 <= i <= BLOCK
      invariant fail <==> bad || exists k :: size - (BLOCK - i) <= k < size && k >= size - padsize && out[k] != last
    {
      if i > BLOCK - padsize && out[size - 1 - (BLOCK - i)] != last { fail := true; }
      i := i - 1;
    }
  }
}
