/**
 The transaction wire format that every parser and writer of the repository shares.

 Compact sizes, counted lists, inputs, outputs and witness stacks. A reader consumes a prefix of
 its argument and returns the value with what is left, so that "decode undoes encode" can be
 stated with arbitrary bytes following, and "encode undoes decode" as what was consumed.
 */
module Wire {
  import opened Bytes

  datatype Read<+T> = Short | Done(value: T, rest: seq<byte>) {
    predicate IsFailure() { Short? }
    function PropagateFailure<U>(): Read<U> requires Short? { Short }
    function Extract(): (T, seq<byte>) requires Done? { (value, rest) }
  }

  datatype TxIn = TxIn(prevTxid: seq<byte>, prevVout: u32, scriptSig: seq<byte>, sequence: u32)
  datatype TxOut = TxOut(value: i64, script: seq<byte>)
  type Stack = seq<seq<byte>>

  // ---- compact sizes ----

  function WriteVarInt(v: nat): (s: seq<byte>)
    ensures |s| > 0
  {
    if v < 0xfd then [v]
    else if v <= 0xffff then [0xfd] + PutU16(v)
    else if v <= 0xffff_ffff then [0xfe] + PutU32(v)
    else [0xff] + PutU64(v)
  }

  function ReadVarInt(s: seq<byte>): Read<nat> {
    if s == [] then Short
    else if s[0] < 0xfd then Done(s[0], s[1..])
    else if s[0] == 0xfd then if |s| < 3 then Short else Done(GetU16(s[1..]), s[3..])
    else if s[0] == 0xfe then if |s| < 5 then Short else Done(GetU32(s[1..]), s[5..])
    else if |s| < 9 then Short else Done(GetU64(s[1..]), s[9..])
  }

  lemma {:induction false} Tagged(tag: byte, body: seq<byte>, rest: seq<byte>)
    ensures var s := [tag] + body + rest; s[0] == tag && s[1..] == body + rest && s[1 + |body|..] == rest
  {
  }

  lemma {:induction false} VarIntRoundTrip(v: u64, rest: seq<byte>)
    ensures ReadVarInt(WriteVarInt(v) + rest) == Done(v, rest)
  {
    if v < 0xfd {
      Tagged(v, [], rest);
      assert [v] + [] + rest == WriteVarInt(v) + rest;
    } else if v <= 0xffff {
      U16RoundTrip(v, rest);
      Tagged(0xfd, PutU16(v), rest);
    } else if v <= 0xffff_ffff {
      U32RoundTrip(v, rest);
      Tagged(0xfe, PutU32(v), rest);
    } else {
      U64RoundTrip(v, rest);
      Tagged(0xff, PutU64(v), rest);
    }
  }

  /** What a successful read says about the bytes it consumed: the writer never needs more
      of them, and needs as many only when it reproduces them. */
  ghost predicate Consumed<T>(s: seq<byte>, r: Read<T>, written: seq<byte>) {
    r.Done? ==>
      && |r.rest| <= |s|
      && r.rest == s[|s| - |r.rest|..]
      && |written| <= |s| - |r.rest|
      && (|written| == |s| - |r.rest| ==> s == written + r.rest)
  }

  lemma {:induction false} VarIntConsumed(s: seq<byte>)
    ensures var r := ReadVarInt(s);
      r.Done? ==> r.value < 0x1_0000_0000_0000_0000 && |r.rest| < |s| && Consumed(s, r, WriteVarInt(r.value))
  {
    var r := ReadVarInt(s);
    if r.Done? && s[0] >= 0xfd {
      var k := |s| - |r.rest|;
      assert s == [s[0]] + s[1..k] + r.rest;
      if s[0] == 0xfd {
        U16Bytes(s[1..]);
        assert s[1..][..2] == s[1..k];
      } else if s[0] == 0xfe {
        U32Bytes(s[1..]);
        assert s[1..][..4] == s[1..k];
      } else {
        U64Bytes(s[1..]);
        assert s[1..][..8] == s[1..k];
      }
    } else if r.Done? {
      assert s == [s[0]] + s[1..];
    }
  }

  // ---- counted lists ----

  function ReadMany<T>(p: seq<byte> -> Read<T>, s: seq<byte>, n: nat): (r: Read<seq<T>>)
    ensures r.Done? ==> |r.value| == n
    decreases n
  {
    if n == 0 then Done([], s) else
    var (x, s') :- p(s);
    var (xs, s'') :- ReadMany(p, s', n - 1);
    Done([x] + xs, s'')
  }

  function WriteMany<T>(enc: T -> seq<byte>, xs: seq<T>): seq<byte> {
    if xs == [] then [] else enc(xs[0]) + WriteMany(enc, xs[1..])
  }

  function ReadList<T>(p: seq<byte> -> Read<T>, s: seq<byte>): Read<seq<T>> {
    var (n, s') :- ReadVarInt(s);
    ReadMany(p, s', n)
  }

  function WriteList<T>(enc: T -> seq<byte>, xs: seq<T>): seq<byte> {
    WriteVarInt(|xs|) + WriteMany(enc, xs)
  }

  lemma {:induction false} ManyRoundTrip<T>(p: seq<byte> -> Read<T>, enc: T -> seq<byte>, xs: seq<T>, rest: seq<byte>)
    requires forall x, r | x in xs :: p(enc(x) + r) == Done(x, r)
    ensures ReadMany(p, WriteMany(enc, xs) + rest, |xs|) == Done(xs, rest)
  {
    if xs != [] {
      ManyRoundTrip(p, enc, xs[1..], rest);
      assert WriteMany(enc, xs) + rest == enc(xs[0]) + (WriteMany(enc, xs[1..]) + rest);
      assert xs == [xs[0]] + xs[1..];
    } else {
      assert WriteMany(enc, xs) + rest == rest;
    }
  }

  lemma {:induction false} ListRoundTrip<T>(p: seq<byte> -> Read<T>, enc: T -> seq<byte>, xs: seq<T>, rest: seq<byte>)
    requires forall x, r | x in xs :: p(enc(x) + r) == Done(x, r)
    requires |xs| < 0x1_0000_0000_0000_0000
    ensures ReadList(p, WriteList(enc, xs) + rest) == Done(xs, rest)
  {
    VarIntRoundTrip(|xs|, WriteMany(enc, xs) + rest);
    assert WriteList(enc, xs) + rest == WriteVarInt(|xs|) + (WriteMany(enc, xs) + rest);
    ManyRoundTrip(p, enc, xs, rest);
  }

  lemma {:induction false} ConsumedThen<A, B, C>(s: seq<byte>, a: Read<A>, wa: seq<byte>, b: Read<B>, wb: seq<byte>, c: Read<C>)
    requires a.Done? && Consumed(s, a, wa)
    requires b.Done? && Consumed(a.rest, b, wb)
    requires c.Done? && c.rest == b.rest
    ensures Consumed(s, c, wa + wb)
  {
    if |wa + wb| == |s| - |c.rest| {
      assert wa + wb + c.rest == wa + (wb + c.rest);
    }
  }

  lemma {:induction false} ManyConsumed<T>(p: seq<byte> -> Read<T>, enc: T -> seq<byte>, s: seq<byte>, n: nat)
    requires forall t: seq<byte> :: p(t).Done? ==> Consumed(t, p(t), enc(p(t).value))
    ensures ReadMany(p, s, n).Done? ==> Consumed(s, ReadMany(p, s, n), WriteMany(enc, ReadMany(p, s, n).value))
    decreases n
  {
    var r := ReadMany(p, s, n);
    if r.Done? && n > 0 {
      var a := p(s);
      var b := ReadMany(p, a.rest, n - 1);
      ManyConsumed(p, enc, a.rest, n - 1);
      ConsumedThen(s, a, enc(a.value), b, WriteMany(enc, b.value), r);
      assert r.value[1..] == b.value;
    }
  }

  lemma {:induction false} ListConsumed<T>(p: seq<byte> -> Read<T>, enc: T -> seq<byte>, s: seq<byte>)
    requires forall t: seq<byte> :: p(t).Done? ==> Consumed(t, p(t), enc(p(t).value))
    ensures var r := ReadList(p, s);
      r.Done? ==> |r.value| < 0x1_0000_0000_0000_0000 && Consumed(s, r, WriteList(enc, r.value))
  {
    var r := ReadList(p, s);
    if r.Done? {
      VarIntConsumed(s);
      var a := ReadVarInt(s);
      ManyConsumed(p, enc, a.rest, a.value);
      ConsumedThen(s, a, WriteVarInt(a.value), ReadMany(p, a.rest, a.value), WriteMany(enc, r.value), r);
    }
  }

  /** Every element a counted read returns has a property that its element reader guarantees. */
  lemma {:induction false} ManyAll<T>(p: seq<byte> -> Read<T>, q: T -> bool, s: seq<byte>, n: nat)
    requires forall t: seq<byte> :: p(t).Done? ==> q(p(t).value)
    ensures ReadMany(p, s, n).Done? ==> forall x | x in ReadMany(p, s, n).value :: q(x)
    decreases n
  {
    if n > 0 && p(s).Done? {
      ManyAll(p, q, p(s).rest, n - 1);
    }
  }

  lemma {:induction false} WriteManyConcat<T>(enc: T -> seq<byte>, a: seq<T>, b: seq<T>)
    ensures WriteMany(enc, a + b) == WriteMany(enc, a) + WriteMany(enc, b)
  {
    if a == [] {
      assert a + b == b;
    } else {
      WriteManyConcat(enc, a[1..], b);
      assert (a + b)[1..] == a[1..] + b;
      Assoc3(enc(a[0]), WriteMany(enc, a[1..]), WriteMany(enc, b));
    }
  }

  lemma {:induction false} WriteManyAppend<T>(enc: T -> seq<byte>, xs: seq<T>, x: T)
    ensures WriteMany(enc, xs + [x]) == WriteMany(enc, xs) + enc(x)
  {
    WriteManyConcat(enc, xs, [x]);
    assert [x][1..] == [];
  }

  // ---- length-prefixed byte strings (scripts, witness items) ----

  function ReadBlob(s: seq<byte>): Read<seq<byte>> {
    var (n, s') :- ReadVarInt(s);
    if n > |s'| then Short else Done(s'[..n], s'[n..])
  }

  function WriteBlob(b: seq<byte>): seq<byte> {
    WriteVarInt(|b|) + b
  }

  lemma {:induction false} BlobRoundTrip(b: seq<byte>, rest: seq<byte>)
    requires |b| < 0x1_0000_0000_0000_0000
    ensures ReadBlob(WriteBlob(b) + rest) == Done(b, rest)
  {
    VarIntRoundTrip(|b|, b + rest);
    assert WriteBlob(b) + rest == WriteVarInt(|b|) + (b + rest);
    assert (b + rest)[..|b|] == b && (b + rest)[|b|..] == rest;
  }

  lemma {:induction false} BlobConsumed(s: seq<byte>)
    ensures var r := ReadBlob(s);
      r.Done? ==> |r.value| < 0x1_0000_0000_0000_0000 && Consumed(s, r, WriteBlob(r.value))
  {
    var r := ReadBlob(s);
    if r.Done? {
      VarIntConsumed(s);
      var a := ReadVarInt(s);
      assert a.rest == a.rest[..a.value] + a.rest[a.value..];
      ConsumedThen(s, a, WriteVarInt(a.value), Done(r.value, r.rest), r.value, r);
    }
  }

  // ---- inputs, outputs, witness stacks ----

  predicate ValidIn(i: TxIn) { |i.prevTxid| == 32 && |i.scriptSig| < 0x1_0000_0000_0000_0000 }
  predicate ValidOut(o: TxOut) { |o.script| < 0x1_0000_0000_0000_0000 }
  predicate ValidItem(b: seq<byte>) { |b| < 0x1_0000_0000_0000_0000 }
  predicate ValidStack(k: Stack) { |k| < 0x1_0000_0000_0000_0000 && forall b | b in k :: ValidItem(b) }

  function WriteIn(i: TxIn): seq<byte> {
    i.prevTxid + PutU32(i.prevVout) + WriteBlob(i.scriptSig) + PutU32(i.sequence)
  }

  function ReadIn(s: seq<byte>): Read<TxIn> {
    if |s| < 36 then Short else
    var (script, s') :- ReadBlob(s[36..]);
    if |s'| < 4 then Short else
    Done(TxIn(s[..32], GetU32(s[32..]), script, GetU32(s')), s'[4..])
  }

  function WriteOut(o: TxOut): seq<byte> {
    PutU64(Word64(o.value)) + WriteBlob(o.script)
  }

  function ReadOut(s: seq<byte>): Read<TxOut> {
    if |s| < 8 then Short else
    var (script, s') :- ReadBlob(s[8..]);
    Done(TxOut(Signed64(GetU64(s)), script), s')
  }

  function ReadStack(s: seq<byte>): Read<Stack> { ReadList(ReadBlob, s) }

  function WriteStack(k: Stack): seq<byte> { WriteList(WriteBlob, k) }

  lemma {:induction false} InRoundTrip(i: TxIn, rest: seq<byte>)
    requires ValidIn(i)
    ensures ReadIn(WriteIn(i) + rest) == Done(i, rest)
  {
    var s := WriteIn(i) + rest;
    var tail := PutU32(i.sequence) + rest;
    assert s == i.prevTxid + (PutU32(i.prevVout) + (WriteBlob(i.scriptSig) + tail));
    assert s[..32] == i.prevTxid;
    assert s[32..] == PutU32(i.prevVout) + (WriteBlob(i.scriptSig) + tail);
    U32RoundTrip(i.prevVout, WriteBlob(i.scriptSig) + tail);
    assert s[36..] == WriteBlob(i.scriptSig) + tail;
    BlobRoundTrip(i.scriptSig, tail);
    U32RoundTrip(i.sequence, rest);
    assert tail[4..] == rest;
  }

  lemma {:induction false} OutRoundTrip(o: TxOut, rest: seq<byte>)
    requires ValidOut(o)
    ensures ReadOut(WriteOut(o) + rest) == Done(o, rest)
  {
    var s := WriteOut(o) + rest;
    var tail := WriteBlob(o.script) + rest;
    assert s == PutU64(Word64(o.value)) + tail;
    assert s[8..] == tail;
    U64RoundTrip(Word64(o.value), tail);
    SignedRoundTrip(o.value, Word64(o.value));
    BlobRoundTrip(o.script, rest);
  }

  lemma {:induction false} StackRoundTrip(k: Stack, rest: seq<byte>)
    requires ValidStack(k)
    ensures ReadStack(WriteStack(k) + rest) == Done(k, rest)
  {
    forall b, r | b in k ensures ReadBlob(WriteBlob(b) + r) == Done(b, r) { BlobRoundTrip(b, r); }
    ListRoundTrip(ReadBlob, WriteBlob, k, rest);
  }

  lemma {:induction false} OutpointWritten(s: seq<byte>)
    requires |s| >= 36
    ensures s == s[..32] + PutU32(GetU32(s[32..])) + s[36..]
  {
    U32Bytes(s[32..]);
    assert s[32..] == s[32..36] + s[36..];
    assert s[32..][..4] == s[32..36];
  }

  lemma {:induction false} InConsumed(s: seq<byte>)
    ensures var r := ReadIn(s); r.Done? ==> ValidIn(r.value) && Consumed(s, r, WriteIn(r.value))
  {
    var r := ReadIn(s);
    if r.Done? {
      var i := r.value;
      var b := ReadBlob(s[36..]);
      var outpoint := i.prevTxid + PutU32(i.prevVout);
      BlobConsumed(s[36..]);
      OutpointWritten(s);
      U32Bytes(b.rest);
      assert b.rest == b.rest[..4] + r.rest;
      ConsumedThen(s, Done((), s[36..]), outpoint, b, WriteBlob(i.scriptSig), b);
      ConsumedThen(s, b, outpoint + WriteBlob(i.scriptSig), r, PutU32(i.sequence), r);
    }
  }

  lemma {:induction false} OutConsumed(s: seq<byte>)
    ensures var r := ReadOut(s); r.Done? ==> ValidOut(r.value) && Consumed(s, r, WriteOut(r.value))
  {
    var r := ReadOut(s);
    if r.Done? {
      var o := r.value;
      BlobConsumed(s[8..]);
      U64Bytes(s);
      SignedRoundTrip(0, GetU64(s));
      assert s == s[..8] + s[8..];
      ConsumedThen(s, Done(o, s[8..]), PutU64(Word64(o.value)), ReadBlob(s[8..]), WriteBlob(o.script), r);
    }
  }

  lemma {:induction false} StackConsumed(s: seq<byte>)
    ensures var r := ReadStack(s); r.Done? ==> ValidStack(r.value) && Consumed(s, r, WriteStack(r.value))
  {
    forall t: seq<byte> | ReadBlob(t).Done?
      ensures Consumed(t, ReadBlob(t), WriteBlob(ReadBlob(t).value)) && ValidItem(ReadBlob(t).value)
    {
      BlobConsumed(t);
    }
    ListConsumed(ReadBlob, WriteBlob, s);
    var n := ReadVarInt(s);
    if n.Done? { ManyAll(ReadBlob, ValidItem, n.rest, n.value); }
  }

  // ---- the vin, vout and witness sections ----

  predicate ValidIns(ins: seq<TxIn>) { |ins| < 0x1_0000_0000_0000_0000 && forall i | i in ins :: ValidIn(i) }
  predicate ValidOuts(outs: seq<TxOut>) { |outs| < 0x1_0000_0000_0000_0000 && forall o | o in outs :: ValidOut(o) }

  function WriteVin(ins: seq<TxIn>): seq<byte> { WriteList(WriteIn, ins) }
  function ReadVin(s: seq<byte>): Read<seq<TxIn>> { ReadList(ReadIn, s) }
  function WriteVout(outs: seq<TxOut>): seq<byte> { WriteList(WriteOut, outs) }
  function ReadVout(s: seq<byte>): Read<seq<TxOut>> { ReadList(ReadOut, s) }

  lemma {:induction false} VinRoundTrip(ins: seq<TxIn>, rest: seq<byte>)
    requires ValidIns(ins)
    ensures ReadVin(WriteVin(ins) + rest) == Done(ins, rest)
  {
    forall i, r | i in ins ensures ReadIn(WriteIn(i) + r) == Done(i, r) { InRoundTrip(i, r); }
    ListRoundTrip(ReadIn, WriteIn, ins, rest);
  }

  lemma {:induction false} VoutRoundTrip(outs: seq<TxOut>, rest: seq<byte>)
    requires ValidOuts(outs)
    ensures ReadVout(WriteVout(outs) + rest) == Done(outs, rest)
  {
    forall o, r | o in outs ensures ReadOut(WriteOut(o) + r) == Done(o, r) { OutRoundTrip(o, r); }
    ListRoundTrip(ReadOut, WriteOut, outs, rest);
  }

  lemma {:induction false} WitnessRoundTrip(w: seq<Stack>, rest: seq<byte>)
    requires forall k | k in w :: ValidStack(k)
    ensures ReadMany(ReadStack, WriteMany(WriteStack, w) + rest, |w|) == Done(w, rest)
  {
    forall k, r | k in w ensures ReadStack(WriteStack(k) + r) == Done(k, r) { StackRoundTrip(k, r); }
    ManyRoundTrip(ReadStack, WriteStack, w, rest);
  }

  lemma {:induction false} VinConsumed(s: seq<byte>)
    ensures var r := ReadVin(s); r.Done? ==> ValidIns(r.value) && Consumed(s, r, WriteVin(r.value))
  {
    forall t: seq<byte> | ReadIn(t).Done?
      ensures ValidIn(ReadIn(t).value) && Consumed(t, ReadIn(t), WriteIn(ReadIn(t).value))
    {
      InConsumed(t);
    }
    ListConsumed(ReadIn, WriteIn, s);
    var n := ReadVarInt(s);
    if n.Done? { ManyAll(ReadIn, ValidIn, n.rest, n.value); }
  }

  lemma {:induction false} VoutConsumed(s: seq<byte>)
    ensures var r := ReadVout(s); r.Done? ==> ValidOuts(r.value) && Consumed(s, r, WriteVout(r.value))
  {
    forall t: seq<byte> | ReadOut(t).Done?
      ensures ValidOut(ReadOut(t).value) && Consumed(t, ReadOut(t), WriteOut(ReadOut(t).value))
    {
      OutConsumed(t);
    }
    ListConsumed(ReadOut, WriteOut, s);
    var n := ReadVarInt(s);
    if n.Done? { ManyAll(ReadOut, ValidOut, n.rest, n.value); }
  }

  lemma {:induction false} WitnessConsumed(s: seq<byte>, n: nat)
    ensures var r := ReadMany(ReadStack, s, n);
      r.Done? ==> (forall k | k in r.value :: ValidStack(k)) && Consumed(s, r, WriteMany(WriteStack, r.value))
  {
    forall t: seq<byte> | ReadStack(t).Done?
      ensures ValidStack(ReadStack(t).value) && Consumed(t, ReadStack(t), WriteStack(ReadStack(t).value))
    {
      StackConsumed(t);
    }
    ManyConsumed(ReadStack, WriteStack, s, n);
    ManyAll(ReadStack, ValidStack, s, n);
  }

  // ---- what a reader accepts, and what follows it ----

  /** The four forms of a compact size; only writers insist on the shortest. */
  predicate VarIntForm(head: seq<byte>, v: nat) {
    || (v < 0xfd && head == [v])
    || (v < 0x1_0000 && head == [0xfd] + PutU16(v))
    || (v < 0x1_0000_0000 && head == [0xfe] + PutU32(v))
    || (v < 0x1_0000_0000_0000_0000 && head == [0xff] + PutU64(v))
  }

  /** Exactly these are read, whatever follows. */
  lemma {:induction false} ReadVarIntIff(s: seq<byte>, v: nat, rest: seq<byte>)
    ensures ReadVarInt(s) == Done(v, rest) <==> exists head :: VarIntForm(head, v) && s == head + rest
  {
    if ReadVarInt(s) == Done(v, rest) {
      ReadSizeHead(s);
      assert VarIntForm(s[..|s| - |rest|], v);
      assert s == s[..|s| - |rest|] + rest;
    }
    if head :| VarIntForm(head, v) && s == head + rest { SizeFormIsRead(head, v, rest); }
  }

  lemma {:induction false} ReadSizeHead(s: seq<byte>)
    requires ReadVarInt(s).Done?
    ensures var r := ReadVarInt(s); |r.rest| <= |s| && VarIntForm(s[..|s| - |r.rest|], r.value) && s == s[..|s| - |r.rest|] + r.rest
  {
    if s[0] == 0xfd {
      U16Bytes(s[1..]);
      assert s[..3] == [0xfd] + s[1..][..2];
    } else if s[0] == 0xfe {
      U32Bytes(s[1..]);
      assert s[..5] == [0xfe] + s[1..][..4];
    } else if s[0] == 0xff {
      U64Bytes(s[1..]);
      assert s[..9] == [0xff] + s[1..][..8];
    } else {
      assert s[..1] == [s[0]];
    }
  }

  lemma {:induction false} SizeFormIsRead(head: seq<byte>, v: nat, rest: seq<byte>)
    requires VarIntForm(head, v)
    ensures ReadVarInt(head + rest) == Done(v, rest)
  {
    if v < 0xfd && head == [v] {
      Tagged(v, [], rest);
      assert [v] + [] + rest == head + rest;
    } else if v < 0x1_0000 && head == [0xfd] + PutU16(v) {
      U16RoundTrip(v, rest);
      Tagged(0xfd, PutU16(v), rest);
    } else if v < 0x1_0000_0000 && head == [0xfe] + PutU32(v) {
      U32RoundTrip(v, rest);
      Tagged(0xfe, PutU32(v), rest);
    } else {
      U64RoundTrip(v, rest);
      Tagged(0xff, PutU64(v), rest);
    }
  }

  /** Bytes appended after what was read are left over and change nothing else. */
  ghost predicate Extends<T(!new)>(p: seq<byte> -> Read<T>) {
    forall s: seq<byte>, more: seq<byte> | p(s).Done? :: p(s + more) == Done(p(s).value, p(s).rest + more)
  }

  lemma {:induction false} VarIntExtends(s: seq<byte>, more: seq<byte>)
    requires ReadVarInt(s).Done?
    ensures ReadVarInt(s + more) == Done(ReadVarInt(s).value, ReadVarInt(s).rest + more)
  {
    var r := ReadVarInt(s);
    var head := s[..|s| - |r.rest|];
    ReadSizeHead(s);
    assert s + more == head + (r.rest + more);
    SizeFormIsRead(head, r.value, r.rest + more);
  }

  lemma {:induction false} BlobExtends()
    ensures Extends(ReadBlob)
  {
    forall s: seq<byte>, more: seq<byte> | ReadBlob(s).Done?
      ensures ReadBlob(s + more) == Done(ReadBlob(s).value, ReadBlob(s).rest + more)
    {
      VarIntExtends(s, more);
      var b := ReadVarInt(s).rest;
      var n := ReadVarInt(s).value;
      assert (b + more)[..n] == b[..n] && (b + more)[n..] == b[n..] + more;
    }
  }

  lemma {:induction false} ManyExtends<T(!new)>(p: seq<byte> -> Read<T>, s: seq<byte>, n: nat, more: seq<byte>)
    requires Extends(p) && ReadMany(p, s, n).Done?
    ensures ReadMany(p, s + more, n) == Done(ReadMany(p, s, n).value, ReadMany(p, s, n).rest + more)
    decreases n
  {
    if n > 0 { ManyExtends(p, p(s).rest, n - 1, more); }
  }

  lemma {:induction false} ListExtends<T(!new)>(p: seq<byte> -> Read<T>, s: seq<byte>, more: seq<byte>)
    requires Extends(p) && ReadList(p, s).Done?
    ensures ReadList(p, s + more) == Done(ReadList(p, s).value, ReadList(p, s).rest + more)
  {
    VarIntExtends(s, more);
    ManyExtends(p, ReadVarInt(s).rest, ReadVarInt(s).value, more);
  }

  lemma {:induction false} InExtends()
    ensures Extends(ReadIn)
  {
    hide ReadBlob, GetU32;
    forall s: seq<byte>, more: seq<byte> | ReadIn(s).Done?
      ensures ReadIn(s + more) == Done(ReadIn(s).value, ReadIn(s).rest + more)
    {
      BlobExtends();
      var b := ReadBlob(s[36..]);
      assert (s + more)[36..] == s[36..] + more && (s + more)[..32] == s[..32];
      SameU32((s + more)[32..], s[32..]);
      SameU32(b.rest + more, b.rest);
      assert (b.rest + more)[4..] == b.rest[4..] + more;
    }
  }

  lemma {:induction false} SameU32(a: seq<byte>, b: seq<byte>)
    requires 4 <= |b| <= |a| && a[..4] == b[..4]
    ensures GetU32(a) == GetU32(b)
  {
    assert forall i | 0 <= i < 4 :: a[i] == a[..4][i] == b[i];
  }

  lemma {:induction false} OutExtends()
    ensures Extends(ReadOut)
  {
    hide ReadBlob, GetU64;
    forall s: seq<byte>, more: seq<byte> | ReadOut(s).Done?
      ensures ReadOut(s + more) == Done(ReadOut(s).value, ReadOut(s).rest + more)
    {
      BlobExtends();
      assert (s + more)[8..] == s[8..] + more;
      SameU64(s + more, s);
    }
  }

  lemma {:induction false} SameU64(a: seq<byte>, b: seq<byte>)
    requires 8 <= |b| <= |a| && a[..8] == b[..8]
    ensures GetU64(a) == GetU64(b)
  {
    assert forall i | 0 <= i < 8 :: a[i] == a[..8][i] == b[i];
    SameU32(a, b);
    SameU32(a[4..], b[4..]);
  }

  lemma {:induction false} StackExtends()
    ensures Extends(ReadStack)
  {
    BlobExtends();
    forall s: seq<byte>, more: seq<byte> | ReadStack(s).Done?
      ensures ReadStack(s + more) == Done(ReadStack(s).value, ReadStack(s).rest + more)
    {
      ListExtends(ReadBlob, s, more);
    }
  }
}
