/** Base58Check and Dogecoin addresses: the explorer writes the address of a script, the wallet
    reads the script of an address, the arcade reads the payload. SHA-256 is a parameter. */
module Address {
  import opened Bytes
  import opened Base58

  type Hash = seq<byte> -> seq<byte>

  ghost predicate IsHash(sha256: Hash) { forall x :: |sha256(x)| == 32 }

  datatype Payload = Payload(payload: seq<byte>, version: byte)
  datatype Kind = P2pkh | P2sh | P2wpkh | Other

  function Checksum(sha256: Hash, b: seq<byte>): (c: seq<byte>)
    requires IsHash(sha256)
    ensures |c| == 4
  {
    sha256(sha256(b))[..4]
  }

  function Sealed(sha256: Hash, b: seq<byte>): seq<byte>
    requires IsHash(sha256)
  {
    b + Checksum(sha256, b)
  }

  function CheckEncode(sha256: Hash, version: byte, payload: seq<byte>): seq<byte>
    requires IsHash(sha256)
  {
    Encode(Sealed(sha256, [version] + payload))
  }

  /** Decoded bytes without their checksum, when there are enough of them and it matches. */
  function Unsealed(sha256: Hash, decoded: seq<byte>): Option<seq<byte>>
    requires IsHash(sha256)
  {
    if |decoded| < 5 then None else
    var n := |decoded| - 4;
    if Checksum(sha256, decoded[..n]) != decoded[n..] then None else Some(decoded[..n])
  }

  function CheckDecode(sha256: Hash, input: seq<byte>): Option<Payload>
    requires IsHash(sha256)
  {
    match Decode(input)
    case None => None
    case Some(decoded) =>
      match Unsealed(sha256, decoded)
      case None => None
      case Some(b) => Some(Payload(b[1..], b[0]))
  }

  method Base58CheckDecode(sha256: Hash, input: seq<byte>) returns (r: Option<Payload>)
    requires IsHash(sha256)
    ensures r == CheckDecode(sha256, input)
  {
    var decoded := Base58Decode(input);
    if decoded == None || |decoded.value| < 5 { return None; }
    var d := decoded.value;
    var version := d[0];
    var cksum := d[|d| - 4..];
    if Checksum(sha256, d[..|d| - 4]) != cksum { return None; }
    assert d[1..|d| - 4] == d[..|d| - 4][1..];
    return Some(Payload(d[1..|d| - 4], version));
  }

  lemma {:induction false} UnsealedSealed(sha256: Hash, b: seq<byte>)
    requires IsHash(sha256) && b != []
    ensures Unsealed(sha256, Sealed(sha256, b)) == Some(b)
  {
  }

  lemma {:induction false} SealedUnsealed(sha256: Hash, d: seq<byte>)
    requires IsHash(sha256) && Unsealed(sha256, d).Some?
    ensures Sealed(sha256, Unsealed(sha256, d).value) == d
  {
  }

  /** A checked string decodes to what was encoded, unless every byte of it was zero. */
  lemma {:induction false} CheckDecodeUndoesEncode(sha256: Hash, version: byte, payload: seq<byte>)
    requires IsHash(sha256)
    ensures CheckDecode(sha256, CheckEncode(sha256, version, payload)) == Some(Payload(payload, version))
       <==> BigEndian(Sealed(sha256, [version] + payload)) != 0
  {
    var b := [version] + payload;
    DecodeUndoesEncode(Sealed(sha256, b));
    if BigEndian(Sealed(sha256, b)) != 0 {
      UnsealedSealed(sha256, b);
      assert b[1..] == payload;
    } else {
      ZeroEncodes(Sealed(sha256, b));
    }
  }

  lemma {:induction false} ZeroEncodes(b: seq<byte>)
    requires BigEndian(b) == 0
    ensures Decode(Encode(b)) == Some([0])
  {
    BigEndianOfZeros(1);
    assert Repeat(0, 1) == [0];
    DecodeUndoesEncode([0]);
  }

  // ---- addresses ----

  function P2pkhVersion(testnet: bool): byte { if testnet then 0x71 else 0x1e }
  function P2shVersion(testnet: bool): byte { if testnet then 0xc4 else 0x16 }

  predicate IsP2pkh(script: seq<byte>) {
    |script| == 25 && script[0] == 0x76 && script[1] == 0xa9 && script[2] == 0x14 && script[23] == 0x88 && script[24] == 0xac
  }

  predicate IsP2sh(script: seq<byte>) {
    |script| == 23 && script[0] == 0xa9 && script[1] == 0x14 && script[22] == 0x87
  }

  function AddressFromScript(sha256: Hash, script: seq<byte>, testnet: bool): (Kind, seq<byte>)
    requires IsHash(sha256)
  {
    if IsP2pkh(script) then (P2pkh, CheckEncode(sha256, P2pkhVersion(testnet), script[3..23]))
    else if IsP2sh(script) then (P2sh, CheckEncode(sha256, P2shVersion(testnet), script[2..22]))
    else if |script| == 22 && script[0] == 0x00 && script[1] == 0x14 then (P2wpkh, [])
    else (Other, [])
  }

  predicate IsSpace(c: byte) { c == 32 || 9 <= c <= 13 }

  function TrimFront(s: seq<byte>): seq<byte> {
    if s == [] || !IsSpace(s[0]) then s else TrimFront(s[1..])
  }

  function TrimBack(s: seq<byte>): seq<byte> {
    if s == [] || !IsSpace(s[|s| - 1]) then s else TrimBack(s[..|s| - 1])
  }

  function Trim(s: seq<byte>): seq<byte> { TrimBack(TrimFront(s)) }

  function ScriptFromAddress(sha256: Hash, address: seq<byte>, testnet: bool): Option<seq<byte>>
    requires IsHash(sha256)
  {
    var addr := Trim(address);
    if addr == [] then None else
    match CheckDecode(sha256, addr)
    case None => None
    case Some(p) =>
      if |p.payload| != 20 || p.version != P2pkhVersion(testnet) then None
      else Some([0x76, 0xa9, 0x14] + p.payload + [0x88, 0xac])
  }

  lemma {:induction false} LeadingByteIsValue(b: seq<byte>)
    requires b != [] && b[0] != 0
    ensures BigEndian(b) != 0
  {
    NonZeroIff(b);
  }

  lemma {:induction false} DigitsNeedNoTrim(s: seq<byte>)
    requires AllDigits(s)
    ensures Trim(s) == s
  {
  }

  lemma {:induction false} EncodedVersion(sha256: Hash, version: byte, payload: seq<byte>, testnet: bool)
    requires IsHash(sha256) && version != 0 && |payload| == 20
    ensures ScriptFromAddress(sha256, CheckEncode(sha256, version, payload), testnet)
         == if version == P2pkhVersion(testnet) then Some([0x76, 0xa9, 0x14] + payload + [0x88, 0xac]) else None
  {
    var b := Sealed(sha256, [version] + payload);
    LeadingByteIsValue(b);
    CheckDecodeUndoesEncode(sha256, version, payload);
    DigitsNeedNoTrim(Encode(b));
  }

  /** What the explorer writes: for P2PKH and P2SH scripts, and no others, an address; its bytes
      are the version of script kind and network, the hash, and four bytes of the double hash of
      both. */
  lemma {:induction false} AddressBytes(sha256: Hash, h: seq<byte>, testnet: bool)
    requires IsHash(sha256) && |h| == 20
    ensures var p2pkh, p2sh := [if testnet then 0x71 else 0x1e] + h, [if testnet then 0xc4 else 0x16] + h;
      && AddressFromScript(sha256, [0x76, 0xa9, 0x14] + h + [0x88, 0xac], testnet) == (P2pkh, Encode(p2pkh + sha256(sha256(p2pkh))[..4]))
      && AddressFromScript(sha256, [0xa9, 0x14] + h + [0x87], testnet) == (P2sh, Encode(p2sh + sha256(sha256(p2sh))[..4]))
  {
    assert ([0x76, 0xa9, 0x14] + h + [0x88, 0xac])[3..23] == h;
    assert ([0xa9, 0x14] + h + [0x87])[2..22] == h;
  }

  lemma {:induction false} OtherScriptsHaveNone(sha256: Hash, script: seq<byte>, testnet: bool)
    requires IsHash(sha256)
    ensures var (kind, address) := AddressFromScript(sha256, script, testnet);
      && (kind == P2pkh <==> exists h :: |h| == 20 && script == [0x76, 0xa9, 0x14] + h + [0x88, 0xac])
      && (kind == P2sh <==> exists h :: |h| == 20 && script == [0xa9, 0x14] + h + [0x87])
      && (kind == P2wpkh <==> exists h :: |h| == 20 && script == [0x00, 0x14] + h)
      && (kind != P2pkh && kind != P2sh ==> address == [])
  {
    if |script| == 25 { assert script == [script[0], script[1], script[2]] + script[3..23] + [script[23], script[24]]; }
    if |script| == 23 { assert script == [script[0], script[1]] + script[2..22] + [script[22]]; }
    if |script| == 22 { assert script == [script[0], script[1]] + script[2..]; }
  }

  predicate Blank(c: byte) { c == 32 || c == 9 || c == 10 || c == 11 || c == 12 || c == 13 }
  predicate Blanks(s: seq<byte>) { forall i | 0 <= i < |s| :: Blank(s[i]) }

  /** Space around an address does not matter. */
  lemma {:induction false} SpaceAround(sha256: Hash, pre: seq<byte>, address: seq<byte>, post: seq<byte>, testnet: bool)
    requires IsHash(sha256) && Blanks(pre) && Blanks(post)
    ensures ScriptFromAddress(sha256, pre + address + post, testnet) == ScriptFromAddress(sha256, address, testnet)
  {
    TrimAround(pre, address, post);
  }

  /** Nothing but space at the ends is taken. */
  lemma {:induction false} TrimTakesOnlySpace(s: seq<byte>)
    requires s != [] ==> !Blank(s[0]) && !Blank(s[|s| - 1])
    ensures Trim(s) == s
  {
  }

  lemma {:induction false} TrimAround(pre: seq<byte>, s: seq<byte>, post: seq<byte>)
    requires Blanks(pre) && Blanks(post)
    ensures Trim(pre + s + post) == Trim(s)
  {
    assert pre + s + post == pre + (s + post);
    FrontAround(pre, s + post);
    BackAround(s, post);
  }

  lemma {:induction false} FrontAround(pre: seq<byte>, s: seq<byte>)
    requires Blanks(pre)
    ensures TrimFront(pre + s) == TrimFront(s)
  {
    if pre == [] {
      assert pre + s == s;
    } else {
      assert Blank(pre[0]);
      FrontAround(pre[1..], s);
      assert (pre + s)[1..] == pre[1..] + s;
    }
  }

  /** Space at the end goes, whether or not anything is left before it. */
  lemma {:induction false} BackAround(s: seq<byte>, post: seq<byte>)
    requires Blanks(post)
    ensures TrimBack(TrimFront(s + post)) == TrimBack(TrimFront(s))
  {
    if s == [] {
      assert s + post == post;
      AllBlank(post);
    } else if IsSpace(s[0]) {
      BackAround(s[1..], post);
      assert (s + post)[1..] == s[1..] + post;
    } else {
      TailGoes(s, post);
    }
  }

  lemma {:induction false} AllBlank(s: seq<byte>)
    requires Blanks(s)
    ensures TrimFront(s) == []
  {
    if s != [] {
      assert Blank(s[0]);
      AllBlank(s[1..]);
    }
  }

  lemma {:induction false} TailGoes(s: seq<byte>, post: seq<byte>)
    requires Blanks(post)
    ensures TrimBack(s + post) == TrimBack(s)
  {
    if post == [] {
      assert s + post == s;
    } else {
      assert Blank(post[|post| - 1]);
      TailGoes(s, post[..|post| - 1]);
      assert (s + post)[..|s + post| - 1] == s + post[..|post| - 1];
    }
  }

  /** The wallet's reader undoes the explorer's writer for every P2PKH script, and refuses the
      address of the other network and every P2SH address. */
  lemma {:induction false} ScriptUndoesAddress(sha256: Hash, script: seq<byte>, written: bool, read: bool)
    requires IsHash(sha256)
    ensures var (kind, address) := AddressFromScript(sha256, script, written);
      ScriptFromAddress(sha256, address, read) == if kind == P2pkh && written == read then Some(script) else None
  {
    if IsP2pkh(script) {
      EncodedVersion(sha256, P2pkhVersion(written), script[3..23], read);
      assert [0x76, 0xa9, 0x14] + script[3..23] + [0x88, 0xac] == script;
    } else if IsP2sh(script) {
      EncodedVersion(sha256, P2shVersion(written), script[2..22], read);
    }
  }

  /** Conversely an ASCII address that is accepted is, up to surrounding space, the one the
      explorer writes for the script: no other ASCII text reads as it. */
  lemma {:induction false} AddressUndoesScript(sha256: Hash, address: seq<byte>, testnet: bool)
    requires IsHash(sha256) && Ascii(Trim(address)) && ScriptFromAddress(sha256, address, testnet).Some?
    ensures AddressFromScript(sha256, ScriptFromAddress(sha256, address, testnet).value, testnet) == (P2pkh, Trim(address))
  {
    var addr := Trim(address);
    var d := Decode(addr).value;
    var b := Unsealed(sha256, d).value;
    var script := ScriptFromAddress(sha256, address, testnet).value;
    assert script[3..23] == b[1..] && IsP2pkh(script);
    assert [b[0]] + b[1..] == b;
    SealedUnsealed(sha256, d);
    DecodeIsPlain(addr);
    LeadingByteIsValue(d);
    BytesHaveValue(Value(addr));
    BigEndianSkipsZeros(Leading(addr, ONE), ToBytes(Value(addr)));
    EncodeUndoesDecode(addr);
  }

  /** A foreign character before an accepted address leaves it accepted, for the same script. */
  lemma {:induction false} ForeignPrefixKeepsScript(sha256: Hash, c0: byte, c1: byte, address: seq<byte>, testnet: bool)
    requires IsHash(sha256) && TwoByteRune([c0, c1]) && Ascii(address) && Trim(address) == address
    requires ScriptFromAddress(sha256, address, testnet).Some?
    ensures ScriptFromAddress(sha256, [c0, c1] + address, testnet) == ScriptFromAddress(sha256, address, testnet)
  {
    var d := Decode(address).value;
    DecodeIsPlain(address);
    assert Leading(address, ONE) == 0 by { assert d[0] != 0; }
    ForeignPrefixIsIgnored(c0, c1, address);
    var t := [c0, c1] + address;
    assert t[|t| - 1] == address[|address| - 1];
    assert IsDigit(address[0]) && !IsSpace(address[0]);
    assert Trim(t) == t by { assert IsDigit(address[|address| - 1]); }
  }

  // ---- the arcade's decoder ----

  /** `b58check_decode`: version byte and payload together, for ASCII digits only. */
  function ArcadeDecode(sha256: Hash, addr: seq<byte>): Option<seq<byte>>
    requires IsHash(sha256)
  {
    match PlainDecode(addr)
    case None => None
    case Some(raw) => Unsealed(sha256, raw)
  }

  method B58DecodeInt(s: seq<byte>) returns (r: Option<nat>)
    ensures r == if AllDigits(s) then Some(Value(s)) else None
  {
    var n: nat := 0;
    for i := 0 to |s|
      invariant AllDigits(s[..i]) && n == Value(s[..i])
    {
      if !IsDigit(s[i]) { return None; }
      assert s[..i + 1][..i] == s[..i];
      n := n * 58 + Table(s[i]);
    }
    assert s[..|s|] == s;
    return Some(n);
  }

  method B58CheckDecode(sha256: Hash, addr: seq<byte>) returns (r: Option<seq<byte>>)
    requires IsHash(sha256)
    ensures r == ArcadeDecode(sha256, addr)
  {
    var rawInt := B58DecodeInt(addr);
    if rawInt == None { return None; }
    var pad := 0;
    while pad < |addr| && addr[pad] == ONE
      invariant pad <= |addr| && pad + Leading(addr[pad..], ONE) == Leading(addr, ONE)
    {
      assert addr[pad..][1..] == addr[pad + 1..];
      pad := pad + 1;
    }
    var combined: seq<byte> := [];
    if rawInt.value != 0 { combined := ToBytes(rawInt.value); }
    var raw := Repeat(0, pad) + combined;
    if |raw| < 5 { return None; }
    var payload, chk := raw[..|raw| - 4], raw[|raw| - 4..];
    if Checksum(sha256, payload) != chk { return None; }
    return Some(payload);
  }

  /** A text the wallet reads that is not ASCII: readable, and the bytes of its digits carry their
      checksum. */
  predicate ForeignAccepted(sha256: Hash, s: seq<byte>)
    requires IsHash(sha256)
  {
    && !Ascii(s) && ChunksReadable(s)
    && Unsealed(sha256, Repeat(0, Leading(s, ONE)) + ToBytes(Value(AsDigits(s)))).Some?
  }

  /** The arcade and the wallet read the same from a text, error cases included, unless it is
      readable text outside ASCII that carries its checksum; the arcade refuses all such text. */
  lemma {:induction false} ArcadeAgreesWithWallet(sha256: Hash, s: seq<byte>)
    requires IsHash(sha256)
    ensures var wallet := CheckDecode(sha256, s);
            var same := if wallet.Some? then Some([wallet.value.version] + wallet.value.payload) else None;
      ArcadeDecode(sha256, s) == same <==> !ForeignAccepted(sha256, s)
    ensures !Ascii(s) ==> ArcadeDecode(sha256, s) == None
  {
    hide ChunksReadable, AsDigits, ToBytes, Leading, Value;
    DecodeIsPlain(s);
    if !Ascii(s) {
      var i :| 0 <= i < |s| && s[i] >= 0x80;
      assert !IsDigit(s[i]);
    } else if CheckDecode(sha256, s).Some? {
      var b := Unsealed(sha256, Decode(s).value).value;
      assert [b[0]] + b[1..] == b;
    }
  }
}
