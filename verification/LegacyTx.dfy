/**
 The wallet's legacy transactions.

 Outpoints written from display txids, unsigned P2PKH
 templates, and the wallet's own parsers, which read the written bytes back.
 */
module LegacyTx {
  import opened Bytes
  import opened Text
  import opened Wire
  import opened TxCodec
  import opened Cursor

  datatype Utxo = Utxo(txid: string, vout: u32, value: i64)
  datatype Outpoint = Outpoint(txid: string, vout: u32)

  const SEQUENCE_FINAL: u32 := 0xffff_ffff
  const TX_VERSION: u32 := 1

  // ---- outpoint hashes ----

  /** `txidWireBytes`: at most 64 digits, an odd count padded with one leading zero, short
      hashes padded with zero bytes, then reversed into wire order. */
  function TxidWire(display: string): (r: Option<seq<byte>>)
    ensures r.Some? ==> |r.value| == 32
  {
    if |display| > 64 then None else
    match HexDecode(EvenDigits(display))
    case None => None
    case Some(b) => Some(Reverse(Zeros(32 - |b|) + b))
  }

  /** The display text of a wire hash. */
  function Display(wire: seq<byte>): string { HexEncode(Reverse(wire)) }

  function PadLeft(s: string): string
    requires |s| <= 64
  {
    seq(64 - |s|, _ => '0') + s
  }

  function EvenDigits(display: string): string {
    if |display| % 2 == 0 then display else "0" + display
  }

  lemma {:induction false} EvenDigitsKeepsHex(display: string)
    ensures AllHex(EvenDigits(display)) <==> AllHex(display)
    ensures Lower(EvenDigits(display)) == EvenDigits(Lower(display))
  {
    var src := EvenDigits(display);
    if |display| % 2 == 1 {
      if AllHex(src) {
        forall k | 0 <= k < |display| ensures IsHexDigit(display[k]) { assert display[k] == src[k + 1]; }
      }
      assert Lower(src) == "0" + Lower(display);
    }
  }

  /** Every string of at most 64 hexadecimal digits is accepted, nothing else is, and the wire
      bytes display as that string in lower case, padded with zeros on the left. */
  lemma {:induction false} TxidWireDisplays(display: string)
    ensures TxidWire(display).Some? <==> |display| <= 64 && AllHex(display)
    ensures TxidWire(display).Some? ==> Display(TxidWire(display).value) == PadLeft(Lower(display))
  {
    var src := EvenDigits(display);
    HexAccepts(src);
    EvenDigitsKeepsHex(display);
    if |display| <= 64 && HexDecode(src).Some? {
      var b := HexDecode(src).value;
      var pad := seq(2 * (32 - |b|), _ => '0');
      HexRoundTrip(src);
      ReverseTwice(Zeros(32 - |b|) + b);
      HexEncodeAppend(Zeros(32 - |b|), b);
      HexEncodeZeros(32 - |b|);
      assert Display(TxidWire(display).value) == pad + EvenDigits(Lower(display));
      PadEven(Lower(display), 32 - |b|);
    }
  }

  lemma {:induction false} PadEven(s: string, n: nat)
    requires |s| <= 64 && |EvenDigits(s)| + 2 * n == 64
    ensures seq(2 * n, _ => '0') + EvenDigits(s) == PadLeft(s)
  {
  }

  lemma {:induction false} DisplayIsNormalized(wire: seq<byte>)
    requires |wire| == 32
    ensures NormalizeTxid(Display(wire)) == Display(wire)
  {
    HexEncodeDigits(Reverse(wire));
    NormalizedIsFixed(Display(wire));
  }

  /** The reversal itself: a half-length loop writing both ends of a fixed 32-byte buffer. */
  method TxidWireBytes(displayHex: string) returns (r: Option<seq<byte>>)
    ensures r == TxidWire(displayHex)
  {
    if |displayHex| > 64 { return None; }
    var src := EvenDigits(displayHex);
    var decoded := HexDecode(src);
    if decoded == None { return None; }
    var reversedHash := Zeros(32 - |decoded.value|) + decoded.value;
    var dst := new byte[32];
    for i := 0 to 16
      invariant forall k | 0 <= k < i :: dst[k] == reversedHash[31 - k] && dst[31 - k] == reversedHash[k]
    {
      dst[i], dst[31 - i] := reversedHash[31 - i], reversedHash[i];
    }
    assert dst[..] == Reverse(reversedHash);
    return Some(dst[..]);
  }

  // ---- unsigned templates ----

  predicate AllTxidsValid(selected: seq<Utxo>) { forall u | u in selected :: TxidWire(u.txid).Some? }

  function UnsignedIn(u: Utxo): TxIn
    requires TxidWire(u.txid).Some?
  {
    TxIn(TxidWire(u.txid).value, u.vout, [], SEQUENCE_FINAL)
  }

  function UnsignedIns(selected: seq<Utxo>): (ins: seq<TxIn>)
    requires AllTxidsValid(selected)
    ensures |ins| == |selected|
  {
    seq(|selected|, k requires 0 <= k < |selected| => assert selected[k] in selected; UnsignedIn(selected[k]))
  }

  function UnsignedTx(selected: seq<Utxo>, outputs: seq<TxOut>, lockTime: u32): Tx
    requires AllTxidsValid(selected)
  {
    Tx(TX_VERSION, UnsignedIns(selected), outputs, lockTime)
  }

  method SerializeUnsignedLegacyP2PKHTx(selected: seq<Utxo>, outputs: seq<TxOut>, lockTime: u32)
    returns (r: Option<seq<byte>>)
    ensures r == if AllTxidsValid(selected) then Some(WriteTx(UnsignedTx(selected, outputs, lockTime))) else None
  {
    var ins: seq<TxIn> := [];
    for k := 0 to |selected|
      invariant AllTxidsValid(selected[..k])
      invariant ins == UnsignedIns(selected[..k])
    {
      var u := selected[k];
      var h := TxidWireBytes(u.txid);
      if h == None { assert u in selected; return None; }
      assert selected[..k + 1] == selected[..k] + [u];
      ins := ins + [TxIn(h.value, u.vout, [], SEQUENCE_FINAL)];
    }
    assert selected[..|selected|] == selected;
    var buf := AppendTx(TX_VERSION, ins, outputs, lockTime);
    return Some(buf);
  }

  // ---- parsers ----

  function OutpointOf(i: TxIn): Outpoint { Outpoint(NormalizeTxid(Display(i.prevTxid)), i.prevVout) }

  function Outpoints(ins: seq<TxIn>): (ops: seq<Outpoint>)
    ensures |ops| == |ins|
  {
    seq(|ins|, k requires 0 <= k < |ins| => OutpointOf(ins[k]))
  }

  /** `parseLegacyTxPrevouts`: a buffer too short to be a transaction has no prevouts, which
      is not an error. */
  function ParsePrevouts(raw: seq<byte>): Option<seq<Outpoint>> {
    if |raw| < 10 then Some([]) else
    match ParseInputs(raw)
    case None => None
    case Some(ins) => Some(Outpoints(ins))
  }

  method ParseLegacyTxPrevouts(raw: seq<byte>) returns (r: Option<seq<Outpoint>>)
    ensures r == ParsePrevouts(raw)
  {
    if |raw| < 10 { return Some([]); }
    var off := 4;
    if off + 2 <= |raw| && raw[off] == 0x00 && raw[off + 1] == 0x01 {
      off := off + 2;
      assert raw[4..][2..] == raw[6..];
    }
    var ins;
    ins, off := ReadVinAt(raw, off);
    if ins == None { return None; }
    var out := CollectOutpoints(ins.value);
    return Some(out);
  }

  method CollectOutpoints(ins: seq<TxIn>) returns (out: seq<Outpoint>)
    ensures out == Outpoints(ins)
  {
    out := [];
    for k := 0 to |ins|
      invariant out == Outpoints(ins[..k])
    {
      out := out + [OutpointOf(ins[k])];
    }
    assert ins[..|ins|] == ins;
  }

  method ParseLegacyTxOutputs(raw: seq<byte>) returns (r: Option<seq<TxOut>>)
    ensures r == ParseLegacyOutputs(raw)
  {
    if |raw| < 6 { return None; }
    var ins, off := ReadVinAt(raw, 4);
    if ins == None { return None; }
    r, off := ReadVoutAt(raw, off);
  }

  method WireHeadAt(raw: seq<byte>, off: nat) returns (r: Option<(nat, byte)>, next: nat)
    requires off <= |raw|
    ensures Reads(raw, ReadWireHead(raw[off..]), r, next)
  {
    var n;
    n, next := ReadVarIntAt(raw, off);
    if n == None { return None, next; }
    var flags: byte := 0;
    if n.value == 0 {
      if next >= |raw| { return None, next; }
      flags := raw[next];
      assert raw[next..][1..] == raw[next + 1..];
      next := next + 1;
      if flags != 0 {
        n, next := ReadVarIntAt(raw, next);
        if n == None { return None, next; }
      }
    }
    return Some((n.value, flags)), next;
  }

  method WireTailAt(raw: seq<byte>, off: nat, nin: nat, flags: byte) returns (r: Option<()>, next: nat)
    requires off <= |raw|
    ensures Reads(raw, ReadWireTail(raw[off..], nin, flags), r, next)
  {
    next := off;
    var left := flags;
    if flags % 2 != 0 {
      left := left - 1;
      var stacks;
      stacks, next := ReadStacksAt(raw, next, nin);
      if stacks == None { return None, next; }
    }
    if left != 0 || next + 4 > |raw| { return None, next; }
    assert raw[next..][4..] == raw[next + 4..];
    return Some(()), next + 4;
  }

  method WireBodyAt(raw: seq<byte>, off: nat, nin: nat, flags: byte) returns (r: Option<()>, next: nat)
    requires off <= |raw|
    ensures Reads(raw, ReadWireBody(raw[off..], nin, flags), r, next)
  {
    var ins, outs;
    ins, next := ReadInsAt(raw, off, nin);
    if ins == None { return None, next; }
    outs, next := ReadVoutAt(raw, next);
    if outs == None { return None, next; }
    r, next := WireTailAt(raw, next, nin, flags);
  }

  method LegacyTxWireLen(raw: seq<byte>) returns (r: Option<int>)
    ensures r == WireLen(raw)
  {
    if |raw| < 4 { return None; }
    var head, off := WireHeadAt(raw, 4);
    if head == None { return None; }
    var end;
    end, off := WireBodyAt(raw, off, head.value.0, head.value.1);
    if end == None { return None; }
    return Some(off);
  }

  // ---- reading the template back ----

  lemma {:induction false} UnsignedIsValid(selected: seq<Utxo>, outputs: seq<TxOut>, lockTime: u32)
    requires AllTxidsValid(selected) && ValidOuts(outputs) && |selected| < 0x1_0000_0000_0000_0000
    ensures ValidTx(UnsignedTx(selected, outputs, lockTime))
  {
  }

  /** The outpoint a selected coin is written as, read back. */
  function WrittenOutpoint(u: Utxo): Outpoint
    requires TxidWire(u.txid).Some?
  {
    TxidWireDisplays(u.txid);
    Outpoint(PadLeft(Lower(u.txid)), u.vout)
  }

  function WrittenOutpoints(selected: seq<Utxo>): (ops: seq<Outpoint>)
    requires AllTxidsValid(selected)
    ensures |ops| == |selected|
  {
    seq(|selected|, k requires 0 <= k < |selected| => assert selected[k] in selected; WrittenOutpoint(selected[k]))
  }

  lemma {:induction false} UnsignedOutpoints(selected: seq<Utxo>)
    requires AllTxidsValid(selected)
    ensures Outpoints(UnsignedIns(selected)) == WrittenOutpoints(selected)
  {
    forall k | 0 <= k < |selected|
      ensures Outpoints(UnsignedIns(selected))[k] == WrittenOutpoints(selected)[k]
    {
      var u := selected[k];
      assert u in selected;
      TxidWireDisplays(u.txid);
      DisplayIsNormalized(TxidWire(u.txid).value);
    }
  }

  /** Version 1, empty scripts and final sequence numbers. */
  predicate UnsignedFields(t: Tx, lockTime: u32) {
    t.version == 1 && t.locktime == lockTime && forall i | i in t.inputs :: i.scriptSig == [] && i.sequence == 0xffff_ffff
  }

  /** A text too short to be a transaction has no prevouts; only a longer one can fail. */
  lemma {:induction false} PrevoutsFailIff(raw: seq<byte>)
    ensures ParsePrevouts(raw) == None <==> |raw| >= 10 && ParseInputs(raw) == None
    ensures ParsePrevouts(raw).Some? && |raw| < 10 ==> ParsePrevouts(raw).value == []
  {
  }

  /** Whatever follows the written template, the wallet's parsers find the selected coins in
      order, the outputs, and the exact length. */
  lemma {:induction false} TemplateReadsBack(selected: seq<Utxo>, outputs: seq<TxOut>, lockTime: u32, rest: seq<byte>)
    requires AllTxidsValid(selected) && ValidOuts(outputs) && 0 < |selected| < 0x1_0000_0000_0000_0000
    ensures var raw := WriteTx(UnsignedTx(selected, outputs, lockTime));
      && ParsePrevouts(raw + rest) == Some(WrittenOutpoints(selected))
      && ParseLegacyOutputs(raw + rest) == Some(outputs)
      && WireLen(raw + rest) == Some(|raw|)
      && ParseBase(raw + rest).Some? && UnsignedFields(ParseBase(raw + rest).value, lockTime)
  {
    var t := UnsignedTx(selected, outputs, lockTime);
    UnsignedIsValid(selected, outputs, lockTime);
    PrefixParsersReadBack(t, rest);
    WriteTxShape(t, rest);
    WireLenOfLegacy(t, rest);
    UnsignedOutpoints(selected);
  }
}
