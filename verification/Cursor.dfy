/**
 The offset-driven walks over raw bytes.

 Each method advances an offset through the buffer as the source does, and is proved to read what
 the corresponding reader of `Wire` reads from the bytes at that offset, or to stop where that
 reader finds too few bytes. The writers append to a buffer.
 */
module Cursor {
  import opened Bytes
  import opened Wire

  /** The outcome of a walk that started where `spec` was asked to read. */
  ghost predicate Reads<T>(raw: seq<byte>, spec: Read<T>, r: Option<T>, next: nat) {
    match spec
    case Short => r == None
    case Done(v, rest) => r == Some(v) && next <= |raw| && rest == raw[next..]
  }

  ghost function Prepend<T>(done: seq<T>, r: Read<seq<T>>): Read<seq<T>> {
    match r
    case Short => Short
    case Done(xs, rest) => Done(done + xs, rest)
  }

  lemma {:induction false} PrependEnds<T>(p: seq<byte> -> Read<T>, done: seq<T>, r: Read<seq<T>>, s: seq<byte>)
    ensures Prepend([], r) == r
    ensures Prepend(done, ReadMany(p, s, 0)) == Done(done, s)
  {
    if r.Done? { assert [] + r.value == r.value; }
    assert done + [] == done;
  }

  lemma {:induction false} PrependStep<T>(p: seq<byte> -> Read<T>, done: seq<T>, s: seq<byte>, n: nat)
    requires n > 0
    ensures Prepend(done, ReadMany(p, s, n)) ==
      match p(s) { case Short => Short case Done(x, s') => Prepend(done + [x], ReadMany(p, s', n - 1)) }
  {
    if p(s).Done? {
      var r := ReadMany(p, p(s).rest, n - 1);
      if r.Done? {
        assert done + ([p(s).value] + r.value) == done + [p(s).value] + r.value;
      }
    }
  }

  method ReadVarIntAt(raw: seq<byte>, off: nat) returns (r: Option<nat>, next: nat)
    requires off <= |raw|
    ensures Reads(raw, ReadVarInt(raw[off..]), r, next)
  {
    next := off;
    if next >= |raw| { return None, next; }
    var b0 := raw[next];
    next := next + 1;
    if b0 < 0xfd { return Some(b0), next; }
    ghost var s := raw[off..];
    if b0 == 0xfd {
      if next + 2 > |raw| { return None, next; }
      assert raw[next..] == s[1..] && raw[next + 2..] == s[3..];
      return Some(GetU16(raw[next..])), next + 2;
    } else if b0 == 0xfe {
      if next + 4 > |raw| { return None, next; }
      assert raw[next..] == s[1..] && raw[next + 4..] == s[5..];
      return Some(GetU32(raw[next..])), next + 4;
    } else {
      if next + 8 > |raw| { return None, next; }
      assert raw[next..] == s[1..] && raw[next + 8..] == s[9..];
      return Some(GetU64(raw[next..])), next + 8;
    }
  }

  method ReadBlobAt(raw: seq<byte>, off: nat) returns (r: Option<seq<byte>>, next: nat)
    requires off <= |raw|
    ensures Reads(raw, ReadBlob(raw[off..]), r, next)
  {
    var n;
    n, next := ReadVarIntAt(raw, off);
    if n == None || next + n.value > |raw| { return None, next; }
    assert raw[next..][..n.value] == raw[next..next + n.value];
    assert raw[next..][n.value..] == raw[next + n.value..];
    return Some(raw[next..next + n.value]), next + n.value;
  }

  method ReadInAt(raw: seq<byte>, off: nat) returns (r: Option<TxIn>, next: nat)
    requires off <= |raw|
    ensures Reads(raw, ReadIn(raw[off..]), r, next)
  {
    next := off;
    if next + 36 > |raw| { return None, next; }
    var prev := raw[next..next + 32];
    next := next + 32;
    var vout := GetU32(raw[next..]);
    next := next + 4;
    assert raw[off..][..32] == prev && raw[off..][32..] == raw[off + 32..] && raw[off..][36..] == raw[next..];
    var script;
    script, next := ReadBlobAt(raw, next);
    if script == None || next + 4 > |raw| { return None, next; }
    assert raw[next..][4..] == raw[next + 4..];
    return Some(TxIn(prev, vout, script.value, GetU32(raw[next..]))), next + 4;
  }

  method ReadOutAt(raw: seq<byte>, off: nat) returns (r: Option<TxOut>, next: nat)
    requires off <= |raw|
    ensures Reads(raw, ReadOut(raw[off..]), r, next)
  {
    next := off;
    if next + 8 > |raw| { return None, next; }
    var value := Signed64(GetU64(raw[next..]));
    next := next + 8;
    assert raw[off..][8..] == raw[next..];
    var script;
    script, next := ReadBlobAt(raw, next);
    if script == None { return None, next; }
    return Some(TxOut(value, script.value)), next;
  }

  method ReadInsAt(raw: seq<byte>, off: nat, n: nat) returns (r: Option<seq<TxIn>>, next: nat)
    requires off <= |raw|
    ensures Reads(raw, ReadMany(ReadIn, raw[off..], n), r, next)
  {
    var ins: seq<TxIn> := [];
    next := off;
    ghost var all := ReadMany(ReadIn, raw[off..], n);
    PrependEnds(ReadIn, ins, all, raw);
    for i := 0 to n
      invariant next <= |raw|
      invariant all == Prepend(ins, ReadMany(ReadIn, raw[next..], n - i))
    {
      PrependStep(ReadIn, ins, raw[next..], n - i);
      var x;
      x, next := ReadInAt(raw, next);
      if x == None { return None, next; }
      ins := ins + [x.value];
    }
    PrependEnds(ReadIn, ins, all, raw[next..]);
    return Some(ins), next;
  }

  method ReadOutsAt(raw: seq<byte>, off: nat, n: nat) returns (r: Option<seq<TxOut>>, next: nat)
    requires off <= |raw|
    ensures Reads(raw, ReadMany(ReadOut, raw[off..], n), r, next)
  {
    var outs: seq<TxOut> := [];
    next := off;
    ghost var all := ReadMany(ReadOut, raw[off..], n);
    PrependEnds(ReadOut, outs, all, raw);
    for i := 0 to n
      invariant next <= |raw|
      invariant all == Prepend(outs, ReadMany(ReadOut, raw[next..], n - i))
    {
      PrependStep(ReadOut, outs, raw[next..], n - i);
      var x;
      x, next := ReadOutAt(raw, next);
      if x == None { return None, next; }
      outs := outs + [x.value];
    }
    PrependEnds(ReadOut, outs, all, raw[next..]);
    return Some(outs), next;
  }

  method ReadItemsAt(raw: seq<byte>, off: nat, n: nat) returns (r: Option<Stack>, next: nat)
    requires off <= |raw|
    ensures Reads(raw, ReadMany(ReadBlob, raw[off..], n), r, next)
  {
    var items: Stack := [];
    next := off;
    ghost var all := ReadMany(ReadBlob, raw[off..], n);
    PrependEnds(ReadBlob, items, all, raw);
    for j := 0 to n
      invariant next <= |raw|
      invariant all == Prepend(items, ReadMany(ReadBlob, raw[next..], n - j))
    {
      PrependStep(ReadBlob, items, raw[next..], n - j);
      var x;
      x, next := ReadBlobAt(raw, next);
      if x == None { return None, next; }
      items := items + [x.value];
    }
    PrependEnds(ReadBlob, items, all, raw[next..]);
    return Some(items), next;
  }

  method ReadStackAt(raw: seq<byte>, off: nat) returns (r: Option<Stack>, next: nat)
    requires off <= |raw|
    ensures Reads(raw, ReadStack(raw[off..]), r, next)
  {
    var n;
    n, next := ReadVarIntAt(raw, off);
    if n == None { return None, next; }
    r, next := ReadItemsAt(raw, next, n.value);
  }

  method ReadStacksAt(raw: seq<byte>, off: nat, n: nat) returns (r: Option<seq<Stack>>, next: nat)
    requires off <= |raw|
    ensures Reads(raw, ReadMany(ReadStack, raw[off..], n), r, next)
  {
    var stacks: seq<Stack> := [];
    next := off;
    ghost var all := ReadMany(ReadStack, raw[off..], n);
    PrependEnds(ReadStack, stacks, all, raw);
    for i := 0 to n
      invariant next <= |raw|
      invariant all == Prepend(stacks, ReadMany(ReadStack, raw[next..], n - i))
    {
      PrependStep(ReadStack, stacks, raw[next..], n - i);
      var x;
      x, next := ReadStackAt(raw, next);
      if x == None { return None, next; }
      stacks := stacks + [x.value];
    }
    PrependEnds(ReadStack, stacks, all, raw[next..]);
    return Some(stacks), next;
  }

  method ReadVinAt(raw: seq<byte>, off: nat) returns (r: Option<seq<TxIn>>, next: nat)
    requires off <= |raw|
    ensures Reads(raw, ReadVin(raw[off..]), r, next)
  {
    var n;
    n, next := ReadVarIntAt(raw, off);
    if n == None { return None, next; }
    r, next := ReadInsAt(raw, next, n.value);
  }

  method ReadVoutAt(raw: seq<byte>, off: nat) returns (r: Option<seq<TxOut>>, next: nat)
    requires off <= |raw|
    ensures Reads(raw, ReadVout(raw[off..]), r, next)
  {
    var n;
    n, next := ReadVarIntAt(raw, off);
    if n == None { return None, next; }
    r, next := ReadOutsAt(raw, next, n.value);
  }

  // ---- buffer writers ----

  method AppendVarInt(buf: seq<byte>, v: nat) returns (out: seq<byte>)
    ensures out == buf + WriteVarInt(v)
  {
    if v < 0xfd {
      out := buf + [v];
    } else if v <= 0xffff {
      out := buf + [0xfd];
      out := out + PutU16(v);
    } else if v <= 0xffff_ffff {
      out := buf + [0xfe];
      out := out + PutU32(v);
    } else {
      out := buf + [0xff];
      out := out + PutU64(v);
    }
  }

  method AppendIn(buf: seq<byte>, x: TxIn) returns (out: seq<byte>)
    ensures out == buf + WriteIn(x)
  {
    out := buf + x.prevTxid;
    out := out + PutU32(x.prevVout);
    out := AppendVarInt(out, |x.scriptSig|);
    out := out + x.scriptSig;
    Assoc4(buf, x.prevTxid, PutU32(x.prevVout), WriteVarInt(|x.scriptSig|), x.scriptSig);
    out := out + PutU32(x.sequence);
    Assoc4(x.prevTxid, PutU32(x.prevVout), WriteVarInt(|x.scriptSig|) + x.scriptSig, PutU32(x.sequence), []);
    Assoc4(buf, x.prevTxid, PutU32(x.prevVout), WriteBlob(x.scriptSig), PutU32(x.sequence));
  }

  method AppendOut(buf: seq<byte>, x: TxOut) returns (out: seq<byte>)
    ensures out == buf + WriteOut(x)
  {
    out := buf + PutU64(Word64(x.value));
    out := AppendVarInt(out, |x.script|);
    out := out + x.script;
    Assoc4(buf, PutU64(Word64(x.value)), WriteVarInt(|x.script|), x.script, []);
  }

  method AppendIns(buf: seq<byte>, ins: seq<TxIn>) returns (out: seq<byte>)
    ensures out == buf + WriteVin(ins)
  {
    out := AppendVarInt(buf, |ins|);
    ghost var head := out;
    for i := 0 to |ins|
      invariant out == head + WriteMany(WriteIn, ins[..i])
    {
      out := AppendIn(out, ins[i]);
      WriteManyAppend(WriteIn, ins[..i], ins[i]);
      assert ins[..i] + [ins[i]] == ins[..i + 1];
      Assoc3(head, WriteMany(WriteIn, ins[..i]), WriteIn(ins[i]));
    }
    assert ins[..|ins|] == ins;
    Assoc3(buf, WriteVarInt(|ins|), WriteMany(WriteIn, ins));
  }

  method AppendOuts(buf: seq<byte>, outs: seq<TxOut>) returns (out: seq<byte>)
    ensures out == buf + WriteVout(outs)
  {
    out := AppendVarInt(buf, |outs|);
    ghost var head := out;
    for i := 0 to |outs|
      invariant out == head + WriteMany(WriteOut, outs[..i])
    {
      out := AppendOut(out, outs[i]);
      WriteManyAppend(WriteOut, outs[..i], outs[i]);
      assert outs[..i] + [outs[i]] == outs[..i + 1];
      Assoc3(head, WriteMany(WriteOut, outs[..i]), WriteOut(outs[i]));
    }
    assert outs[..|outs|] == outs;
    Assoc3(buf, WriteVarInt(|outs|), WriteMany(WriteOut, outs));
  }

  method AppendTx(version: u32, ins: seq<TxIn>, outs: seq<TxOut>, locktime: u32) returns (buf: seq<byte>)
    ensures buf == PutU32(version) + WriteVin(ins) + WriteVout(outs) + PutU32(locktime)
  {
    buf := PutU32(version);
    buf := AppendIns(buf, ins);
    buf := AppendOuts(buf, outs);
    buf := buf + PutU32(locktime);
  }
}
