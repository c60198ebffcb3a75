/**
 The explorer's transaction decoder.

 The offset-driven parsers and buffer-building writers of
 quantum-explorer, each proved to compute what `TxCodec` specifies.
 */
module TxDecode {
  import opened Bytes
  import opened Wire
  import opened TxCodec
  import opened Cursor

  method MarkerAt(raw: seq<byte>) returns (segwit: bool, off: nat)
    requires |raw| >= 10
    ensures segwit == HasMarker(raw[4..]) && off <= |raw| && raw[off..] == SkipMarker(raw[4..])
  {
    off := 4;
    segwit := off + 2 <= |raw| && raw[off] == 0x00 && raw[off + 1] == 0x01;
    if segwit {
      off := off + 2;
      assert raw[4..][2..] == raw[6..];
    }
  }

  method ParseBitcoinTx(raw: seq<byte>) returns (r: Option<TxParsed>)
    ensures r == ParseTx(raw)
  {
    if |raw| < 10 { return None; }
    var segwit, off := MarkerAt(raw);
    var ins, outs;
    ins, off := ReadVinAt(raw, off);
    if ins == None { return None; }
    outs, off := ReadVoutAt(raw, off);
    if outs == None { return None; }
    var stacks: Option<seq<Stack>> := Some([]);
    if segwit {
      stacks, off := ReadStacksAt(raw, off, |ins.value|);
      if stacks == None { return None; }
    }
    if off + 4 > |raw| { return None; }
    var locktime := GetU32(raw[off..]);
    off := off + 4;
    if off != |raw| { return None; }
    return Some(TxParsed(Tx(GetU32(raw), ins.value, outs.value, locktime), segwit, stacks.value));
  }

  method ParseTxInputs(raw: seq<byte>) returns (r: Option<seq<TxIn>>)
    ensures r == ParseInputs(raw)
  {
    if |raw| < 10 { return None; }
    var _, off := MarkerAt(raw);
    r, off := ReadVinAt(raw, off);
  }

  method ParseTxOutputs(raw: seq<byte>) returns (r: Option<seq<TxOut>>)
    ensures r == ParseOutputs(raw)
  {
    if |raw| < 10 { return None; }
    var _, off := MarkerAt(raw);
    var ins;
    ins, off := ReadVinAt(raw, off);
    if ins == None { return None; }
    r, off := ReadVoutAt(raw, off);
  }

  method ParseRawTxForBase(raw: seq<byte>) returns (r: Option<Tx>)
    ensures r == ParseBase(raw)
  {
    if |raw| < 10 { return None; }
    var segwit, off := MarkerAt(raw);
    if segwit { return None; }
    var ins, outs;
    ins, off := ReadVinAt(raw, off);
    if ins == None { return None; }
    outs, off := ReadVoutAt(raw, off);
    if outs == None || off + 4 > |raw| { return None; }
    return Some(Tx(GetU32(raw), ins.value, outs.value, GetU32(raw[off..])));
  }

  method LegacyBytesForTxID(p: TxParsed) returns (buf: seq<byte>)
    ensures buf == WriteTx(p.tx)
  {
    buf := AppendTx(p.tx.version, p.tx.inputs, p.tx.outputs, p.tx.locktime);
  }

  /** Gives up with no bytes when a previous txid is not 32 bytes long. */
  method SerializeParsedTxBase(t: Tx) returns (buf: seq<byte>)
    ensures buf == (if forall i | i in t.inputs :: |i.prevTxid| == 32 then WriteTx(t) else [])
  {
    for k := 0 to |t.inputs|
      invariant forall j | 0 <= j < k :: |t.inputs[j].prevTxid| == 32
    {
      if |t.inputs[k].prevTxid| != 32 { return []; }
    }
    buf := AppendTx(t.version, t.inputs, t.outputs, t.locktime);
  }

  method CalcWeight(p: TxParsed, totalLen: nat) returns (w: nat)
    ensures w == Weight(p, totalLen)
  {
    var stripped := LegacyBytesForTxID(p);
    return |stripped| * 3 + totalLen;
  }

  method CalcVsize(p: TxParsed, totalLen: nat) returns (v: nat)
    ensures v == Vsize(p, totalLen)
  {
    var w := CalcWeight(p, totalLen);
    return (w + 3) / 4;
  }

  /** `txidFromRaw`: the double hash, then an in-place reversal swapping from both ends. */
  method TxidFromRaw(sha256: seq<byte> -> seq<byte>, raw: seq<byte>) returns (txid: seq<byte>)
    ensures txid == Reverse(sha256(sha256(raw)))
  {
    var h := sha256(sha256(raw));
    var out := new byte[|h|];
    for i := 0 to |h|
      invariant out[..i] == h[..i]
    {
      out[i] := h[i];
    }
    assert out[..] == h;
    for i := 0 to out.Length / 2
      invariant forall k | 0 <= k < i :: out[k] == h[|h| - 1 - k] && out[|h| - 1 - k] == h[k]
      invariant forall k | i <= k < |h| - i :: out[k] == h[k]
    {
      out[i], out[out.Length - 1 - i] := out[out.Length - 1 - i], out[i];
    }
    txid := out[..];
    assert txid == Reverse(h);
  }
}
