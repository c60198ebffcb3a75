/** The PQ carrier: a key and signature cut into parts, one a scriptSig, and the explorer's
    reassembly of the parts found among a transaction's inputs. */
module Carrier {
  import opened Bytes
  import opened Wire
  import opened TxCodec
  import TxDecode
  import BaseTx

  type Push = seq<byte>

  const CHUNK_MAX := 520
  const PART_MAX := 3 * CHUNK_MAX

  const FLC1FULL: seq<byte> := [0x46, 0x4c, 0x43, 0x31, 0x46, 0x55, 0x4c, 0x4c]
  const DIL2FULL: seq<byte> := [0x44, 0x49, 0x4c, 0x32, 0x46, 0x55, 0x4c, 0x4c]
  const DL21FULL: seq<byte> := [0x44, 0x4c, 0x32, 0x31, 0x46, 0x55, 0x4c, 0x4c]
  const RCG4FULL: seq<byte> := [0x52, 0x43, 0x47, 0x34, 0x46, 0x55, 0x4c, 0x4c]

  /** OP_DROP five times, then OP_1. */
  const REDEEM: seq<byte> := [0x75, 0x75, 0x75, 0x75, 0x75, 0x51]

  /** The algorithm is named by the four bytes of its commitment tag. */
  type Algo = seq<byte>

  function AlgoOf(tag: seq<byte>): Option<Algo> {
    if tag == FLC1FULL then Some(BaseTx.FLC1)
    else if tag == DIL2FULL || tag == DL21FULL then Some(BaseTx.DIL2)
    else if tag == RCG4FULL then Some(BaseTx.RCG4)
    else None
  }

  /** The bytes of an ASCII text. */
  function Ascii(s: string): (b: seq<byte>)
    ensures |b| == |s|
  {
    seq(|s|, i requires 0 <= i < |s| => (s[i] as int) % 0x100)
  }

  /** The carrier tags are the commitment tags followed by FULL, and an older Dilithium tag. */
  lemma {:induction false} KnownTags(tag: seq<byte>, algo: Algo)
    ensures AlgoOf(tag) == Some(algo) <==>
      || (tag == algo + Ascii("FULL") && (algo == Ascii("FLC1") || algo == Ascii("DIL2") || algo == Ascii("RCG4")))
      || (tag == Ascii("DL21FULL") && algo == Ascii("DIL2"))
  {
    TagTexts();
  }

  lemma {:induction false} TagTexts()
    ensures BaseTx.FLC1 == Ascii("FLC1") && BaseTx.DIL2 == Ascii("DIL2") && BaseTx.RCG4 == Ascii("RCG4")
    ensures FLC1FULL == Ascii("FLC1") + Ascii("FULL") && DIL2FULL == Ascii("DIL2") + Ascii("FULL")
    ensures RCG4FULL == Ascii("RCG4") + Ascii("FULL") && DL21FULL == Ascii("DL21FULL")
  {
  }

  /** The algorithm of a tag: its first four bytes, but for the older Dilithium tag. */
  lemma {:induction false} AlgoIsPrefix(tag: seq<byte>)
    requires AlgoOf(tag).Some?
    ensures |tag| == 8 && AlgoOf(tag).value == if tag == Ascii("DL21FULL") then Ascii("DIL2") else tag[..4]
  {
    TagTexts();
  }

  // ---- the redeem script ----

  /** A script of OP_DROP and OP_1 run on a stack whose top is last. */
  function RunScript(script: seq<byte>, stack: seq<Push>): Option<seq<Push>> {
    if script == [] then Some(stack)
    else if script[0] == 0x75 then if stack == [] then None else RunScript(script[1..], stack[..|stack| - 1])
    else if script[0] == 0x51 then RunScript(script[1..], stack + [[1]])
    else None
  }

  /** On the five data pushes of a part the redeem script leaves true, and nothing else. */
  lemma {:induction false} RedeemLeavesTrue(tag: seq<byte>, hdr: seq<byte>, chunks: Chunks)
    ensures RunScript(REDEEM, PartPushes(tag, hdr, chunks)[..5]) == Some([[1]])
  {
    var stack := PartPushes(tag, hdr, chunks)[..5];
    DropThem([0x51], stack, 5);
    assert REDEEM == seq(5, _ => 0x75) + [0x51];
    assert [0x51][1..] == [] && stack[..0] + [[1]] == [[1]];
  }

  lemma {:induction false} DropThem(script: seq<byte>, stack: seq<Push>, n: nat)
    requires n <= |stack|
    ensures RunScript(seq(n, _ => 0x75) + script, stack) == RunScript(script, stack[..|stack| - n])
    decreases n
  {
    var all := seq(n, _ => 0x75) + script;
    if n == 0 {
      assert all == script && stack[..|stack|] == stack;
    } else {
      assert all[0] == 0x75 && all[1..] == seq(n - 1, _ => 0x75) + script;
      DropThem(script, stack[..|stack| - 1], n - 1);
      assert stack[..|stack| - 1][..|stack| - n] == stack[..|stack| - n];
    }
  }

  // ---- pushes ----

  function WritePush(d: Push): seq<byte> {
    if |d| == 0 then [0x00]
    else if |d| <= 75 then [|d|] + d
    else if |d| <= 255 then [0x4c, |d|] + d
    else [0x4d] + PutU16(|d| % 0x1_0000) + d
  }

  function TakePush(s: seq<byte>, n: nat): Read<Push> {
    if n > |s| then Short else Done(s[..n], s[n..])
  }

  function ReadPush(s: seq<byte>): (r: Read<Push>)
    requires s != []
    ensures r.Done? ==> |r.rest| < |s|
  {
    var op := s[0];
    if op == 0x00 then Done([], s[1..])
    else if op <= 0x4b then TakePush(s[1..], op)
    else if op == 0x4c then (if |s| < 2 then Short else TakePush(s[2..], s[1]))
    else if op == 0x4d then (if |s| < 3 then Short else TakePush(s[3..], GetU16(s[1..])))
    else Short
  }

  function ReadPushes(s: seq<byte>): Option<seq<Push>> {
    if s == [] then Some([]) else
    match ReadPush(s)
    case Short => None
    case Done(d, rest) =>
      match ReadPushes(rest)
      case None => None
      case Some(ds) => Some([d] + ds)
  }

  lemma {:induction false} TakeWritten(head: seq<byte>, d: Push, rest: seq<byte>)
    ensures var s := head + d + rest; s[..|head|] == head && s[|head|..] == d + rest
    ensures TakePush(d + rest, |d|) == Done(d, rest)
  {
  }

  lemma {:induction false} PushRoundTrip(d: Push, rest: seq<byte>)
    requires |d| < 0x1_0000
    ensures ReadPush(WritePush(d) + rest) == Done(d, rest)
  {
    if |d| == 0 {
      Tagged(0x00, [], rest);
    } else if |d| <= 75 {
      TakeWritten([|d|], d, rest);
    } else if |d| <= 255 {
      TakeWritten([0x4c, |d|], d, rest);
    } else {
      LongPushRoundTrip(d, rest);
    }
  }

  lemma {:induction false} LongPushRoundTrip(d: Push, rest: seq<byte>)
    requires 255 < |d| < 0x1_0000
    ensures ReadPush([0x4d] + PutU16(|d|) + d + rest) == Done(d, rest)
  {
    var head := [0x4d] + PutU16(|d|);
    TakeWritten(head, d, rest);
    U16RoundTrip(|d|, d + rest);
    Assoc3(head, d, rest);
    Tagged(0x4d, PutU16(|d|), d + rest);
  }

  /** The three ways to write a push: its length as the opcode, in one byte, or in two. */
  predicate PushForm(head: seq<byte>, n: nat) {
    (n <= 75 && head == [n]) || (n < 0x100 && head == [0x4c, n]) || (n < 0x1_0000 && head == [0x4d] + PutU16(n))
  }

  /** The reader accepts exactly these, whatever follows. */
  lemma {:induction false} ReadPushIff(s: seq<byte>, d: Push, rest: seq<byte>)
    requires s != []
    ensures ReadPush(s) == Done(d, rest) <==> exists head :: PushForm(head, |d|) && s == head + d + rest
  {
    if ReadPush(s) == Done(d, rest) {
      var k := |s| - |d| - |rest|;
      ReadHead(s, d, rest);
      assert PushForm(s[..k], |d|) && s == s[..k] + d + rest;
    }
    if head :| PushForm(head, |d|) && s == head + d + rest { FormIsRead(head, d, rest); }
  }

  lemma {:induction false} ReadHead(s: seq<byte>, d: Push, rest: seq<byte>)
    requires s != [] && ReadPush(s) == Done(d, rest)
    ensures var k := |s| - |d| - |rest|; 0 < k <= |s| && PushForm(s[..k], |d|) && s == s[..k] + d + rest
  {
    var op := s[0];
    if op == 0x4d {
      U16Bytes(s[1..]);
      assert s[..3] == [0x4d] + s[1..][..2];
      assert s == s[..3] + d + rest;
    } else if op == 0x4c {
      assert s[..2] == [0x4c, s[1]] && s == s[..2] + d + rest;
    } else {
      assert s[..1] == [op] && s == s[..1] + d + rest;
    }
  }

  lemma {:induction false} FormIsRead(head: seq<byte>, d: Push, rest: seq<byte>)
    requires PushForm(head, |d|)
    ensures ReadPush(head + d + rest) == Done(d, rest)
  {
    TakeWritten(head, d, rest);
    var s := head + d + rest;
    if head == [0x4d] + PutU16(|d|) && |d| < 0x1_0000 {
      U16RoundTrip(|d|, d + rest);
      Assoc3(head, d, rest);
      Tagged(0x4d, PutU16(|d|), d + rest);
    } else if head == [0x4c, |d|] {
      assert s[2..] == d + rest;
    } else {
      assert s[0] == |d| && s[1..] == d + rest;
      if d == [] { assert d + rest == rest; }
    }
  }

  /** A push is written in its shortest form. */
  lemma {:induction false} PushIsShortest(d: Push, head: seq<byte>)
    requires PushForm(head, |d|)
    ensures |WritePush(d)| <= |head + d|
  {
  }

  function WritePushes(ds: seq<Push>): seq<byte> { WriteMany(WritePush, ds) }

  lemma {:induction false} PushesStep(s: seq<byte>, d: Push, rest: seq<byte>, ds: seq<Push>)
    requires s != [] && ReadPush(s) == Done(d, rest) && ReadPushes(rest) == Some(ds)
    ensures ReadPushes(s) == Some([d] + ds)
  {
  }

  lemma {:induction false} PushesRoundTrip(ds: seq<Push>)
    requires forall d | d in ds :: |d| < 0x1_0000
    ensures ReadPushes(WritePushes(ds)) == Some(ds)
  {
    if ds != [] {
      PushRoundTrip(ds[0], WritePushes(ds[1..]));
      PushesRoundTrip(ds[1..]);
      PushesStep(WritePushes(ds), ds[0], WritePushes(ds[1..]), ds[1..]);
      assert ds == [ds[0]] + ds[1..];
    }
  }

  ghost function PrependPushes(done: seq<Push>, r: Option<seq<Push>>): Option<seq<Push>> {
    match r case None => None case Some(ds) => Some(done + ds)
  }

  ghost predicate PushAt(script: seq<byte>, spec: Read<Push>, r: Option<Push>, next: nat) {
    match spec
    case Short => r == None
    case Done(d, rest) => r == Some(d) && next <= |script| && rest == script[next..]
  }

  method TakePushAt(script: seq<byte>, start: nat, n: nat) returns (r: Option<Push>, next: nat)
    requires start <= |script|
    ensures PushAt(script, TakePush(script[start..], n), r, next)
  {
    if start + n > |script| { return None, start; }
    assert script[start..][n..] == script[start + n..];
    assert script[start..][..n] == script[start..start + n];
    return Some(script[start..start + n]), start + n;
  }

  method ReadPushAt(script: seq<byte>, start: nat) returns (r: Option<Push>, next: nat)
    requires start < |script|
    ensures PushAt(script, ReadPush(script[start..]), r, next)
  {
    ghost var s := script[start..];
    var op := script[start];
    next := start + 1;
    assert s[0] == op && s[1..] == script[next..];
    if op == 0x00 {
      return Some([]), next;
    } else if op <= 0x4b {
      r, next := TakePushAt(script, next, op);
    } else if op == 0x4c {
      if next + 1 > |script| { return None, next; }
      assert s[2..] == script[next + 1..];
      r, next := TakePushAt(script, next + 1, script[next]);
    } else if op == 0x4d {
      if next + 2 > |script| { return None, next; }
      assert s[3..] == script[next + 2..];
      r, next := TakePushAt(script, next + 2, GetU16(script[next..]));
    } else {
      return None, next;
    }
  }

  method ParsePushOnlyScript(script: seq<byte>) returns (r: Option<seq<Push>>)
    ensures r == ReadPushes(script)
  {
    var parts: seq<Push> := [];
    var i := 0;
    assert script[0..] == script;
    ghost var whole := ReadPushes(script);
    if whole.Some? { assert [] + whole.value == whole.value; }
    while i < |script|
      invariant i <= |script|
      invariant whole == PrependPushes(parts, ReadPushes(script[i..]))
      decreases |script| - i
    {
      var d, next := ReadPushAt(script, i);
      if d == None { return None; }
      ghost var tail := ReadPushes(script[next..]);
      if tail.Some? { assert parts + ([d.value] + tail.value) == parts + [d.value] + tail.value; }
      parts := parts + [d.value];
      i := next;
    }
    assert script[i..] == [] && parts + [] == parts;
    return Some(parts);
  }

  // ---- one part ----

  datatype Key = Key(algo: Algo, partTotal: nat, pkLen: nat, fullLen: nat)
  datatype Part = Part(key: Key, tag: seq<byte>, partIndex: nat, payload: seq<byte>)

  function BigEndian16(hi: byte, lo: byte): nat { 0x100 * hi as nat + lo as nat }

  function ParsePart(script: seq<byte>): Option<Part> {
    match ReadPushes(script)
    case None => None
    case Some(pushes) => PartOfPushes(pushes)
  }

  function PartOfPushes(pushes: seq<Push>): Option<Part> {
    if |pushes| < 6 || |pushes[0]| != 8 || |pushes[1]| != 8 || AlgoOf(pushes[0]) == None then None else
    var hdr := pushes[1];
    var pkLen, fullLen := BigEndian16(hdr[4], hdr[5]), BigEndian16(hdr[6], hdr[7]);
    if hdr[0] != 0x01 || hdr[2] < 1 || hdr[1] >= hdr[2] || pkLen < 1 || fullLen < pkLen then None
    else Some(Part(Key(AlgoOf(pushes[0]).value, hdr[2], pkLen, fullLen), pushes[0], hdr[1], pushes[2] + pushes[3] + pushes[4]))
  }

  method ParseCarrierPartFromScriptSig(script: seq<byte>) returns (r: Option<Part>)
    ensures r == ParsePart(script)
  {
    var pushes := ParsePushOnlyScript(script);
    if pushes == None || |pushes.value| < 6 { return None; }
    var ps := pushes.value;
    if |ps[0]| != 8 || |ps[1]| != 8 { return None; }
    var algo := AlgoOf(ps[0]);
    if algo == None { return None; }
    var hdr := ps[1];
    if hdr[0] != 0x01 { return None; }
    var partIdx: nat, partTot: nat := hdr[1], hdr[2];
    var pkLen, fullLen := BigEndian16(hdr[4], hdr[5]), BigEndian16(hdr[6], hdr[7]);
    if partTot < 1 || partIdx < 0 || partIdx >= partTot || pkLen < 1 || fullLen < pkLen { return None; }
    var payload := ps[2];
    payload := payload + ps[3];
    payload := payload + ps[4];
    return Some(Part(Key(algo.value, partTot, pkLen, fullLen), ps[0], partIdx, payload));
  }

  /** A script is a part exactly when it pushes a known tag, a header with its counters and
      lengths in range, three chunks and something more; the header's fourth byte is free. */
  lemma {:induction false} PartOfPushesIff(pushes: seq<Push>, p: Part)
    ensures PartOfPushes(pushes) == Some(p) <==>
      && |pushes| >= 6 && p.tag == pushes[0] && AlgoOf(p.tag) == Some(p.key.algo)
      && p.partIndex < p.key.partTotal < 0x100 && 1 <= p.key.pkLen <= p.key.fullLen < 0x1_0000
      && |pushes[1]| == 8 && pushes[1] == Header(p.partIndex, p.key.partTotal, p.key.pkLen, p.key.fullLen)[3 := pushes[1][3]]
      && p.payload == pushes[2] + pushes[3] + pushes[4]
  {
    if |pushes| >= 6 && |pushes[1]| == 8 && AlgoOf(pushes[0]).Some? {
      TagIsEightBytes(pushes[0]);
      var hdr := pushes[1];
      var pkLen, fullLen := BigEndian16(hdr[4], hdr[5]), BigEndian16(hdr[6], hdr[7]);
      BytesOf16(hdr[4], hdr[5]);
      BytesOf16(hdr[6], hdr[7]);
      if 1 <= p.key.pkLen <= p.key.fullLen < 0x1_0000 {
        HeaderLengths(p.key.pkLen);
        HeaderLengths(p.key.fullLen);
      }
    }
  }

  lemma {:induction false} BytesOf16(hi: byte, lo: byte)
    ensures var n := BigEndian16(hi, lo); n < 0x1_0000 && (n / 0x100) % 0x100 == hi && n % 0x100 == lo
  {
  }

  function Header(partIndex: byte, partTotal: byte, pkLen: nat, fullLen: nat): seq<byte> {
    [0x01, partIndex, partTotal, 0x00, (pkLen / 0x100) % 0x100, pkLen % 0x100, (fullLen / 0x100) % 0x100, fullLen % 0x100]
  }

  /** A header is the format number, the counters, a zero, and both lengths with the high byte
      first, cut to 16 bits. */
  lemma {:induction false} HeaderIs(partIndex: byte, partTotal: byte, pkLen: nat, fullLen: nat)
    ensures var h := Header(partIndex, partTotal, pkLen, fullLen);
      && |h| == 8 && h[..4] == [1, partIndex, partTotal, 0]
      && 0x100 * h[4] as int + h[5] == pkLen % 0x1_0000 && 0x100 * h[6] as int + h[7] == fullLen % 0x1_0000
  {
    LowBytes(pkLen);
    LowBytes(fullLen);
    HeaderLengths(pkLen % 0x1_0000);
    HeaderLengths(fullLen % 0x1_0000);
  }

  /** The three pushes that carry a part's data. */
  datatype Chunks = Chunks(c0: Push, c1: Push, c2: Push) {
    predicate Fit() { |c0| <= CHUNK_MAX && |c1| <= CHUNK_MAX && |c2| <= CHUNK_MAX }
    function Data(): seq<byte> { c0 + c1 + c2 }
  }

  function PartPushes(tag: seq<byte>, hdr: seq<byte>, chunks: Chunks): seq<Push> {
    [tag, hdr, chunks.c0, chunks.c1, chunks.c2, REDEEM]
  }

  lemma {:induction false} HeaderLengths(n: nat)
    requires n < 0x1_0000
    ensures BigEndian16((n / 0x100) % 0x100, n % 0x100) == n
  {
  }

  lemma {:induction false} TagIsEightBytes(tag: seq<byte>)
    requires AlgoOf(tag).Some?
    ensures |tag| == 8
  {
  }

  lemma {:induction false} PartOfWritten(tag: seq<byte>, partIndex: byte, partTotal: byte, pkLen: nat, fullLen: nat, chunks: Chunks)
    requires AlgoOf(tag).Some? && partIndex < partTotal && 1 <= pkLen <= fullLen < 0x1_0000
    ensures PartOfPushes(PartPushes(tag, Header(partIndex, partTotal, pkLen, fullLen), chunks))
         == Some(Part(Key(AlgoOf(tag).value, partTotal, pkLen, fullLen), tag, partIndex, chunks.Data()))
  {
    TagIsEightBytes(tag);
    HeaderLengths(pkLen);
    HeaderLengths(fullLen);
  }

  /** A scriptSig with the given tag, header and three chunks reads back as that part. */
  lemma {:induction false} PartRoundTrip(tag: seq<byte>, partIndex: byte, partTotal: byte, pkLen: nat, fullLen: nat, chunks: Chunks)
    requires AlgoOf(tag).Some? && partIndex < partTotal && 1 <= pkLen <= fullLen < 0x1_0000 && chunks.Fit()
    ensures ParsePart(WritePushes(PartPushes(tag, Header(partIndex, partTotal, pkLen, fullLen), chunks)))
         == Some(Part(Key(AlgoOf(tag).value, partTotal, pkLen, fullLen), tag, partIndex, chunks.Data()))
  {
    TagIsEightBytes(tag);
    PartOfWritten(tag, partIndex, partTotal, pkLen, fullLen, chunks);
    PushesRoundTrip(PartPushes(tag, Header(partIndex, partTotal, pkLen, fullLen), chunks));
  }

  // ---- the writers ----

  /** The j-th chunk of a part's data. */
  function Chunk(data: seq<byte>, j: nat): Push {
    var from := if CHUNK_MAX * j <= |data| then CHUNK_MAX * j else |data|;
    var to := if from + CHUNK_MAX <= |data| then from + CHUNK_MAX else |data|;
    data[from..to]
  }

  function ChunksOf(data: seq<byte>): Chunks { Chunks(Chunk(data, 0), Chunk(data, 1), Chunk(data, 2)) }

  lemma {:induction false} ChunksCoverData(data: seq<byte>)
    requires |data| <= PART_MAX
    ensures ChunksOf(data).Data() == data && ChunksOf(data).Fit()
  {
  }

  function ChunkList(data: seq<byte>): seq<Push> { [Chunk(data, 0), Chunk(data, 1), Chunk(data, 2)] }

  method AppendChunks(buf: seq<byte>, data: seq<byte>) returns (ss: seq<byte>)
    ensures ss == buf + WritePushes(ChunkList(data))
  {
    ss := buf;
    var off := 0;
    for i := 0 to 3
      invariant off == if CHUNK_MAX * i <= |data| then CHUNK_MAX * i else |data|
      invariant ss == buf + WritePushes(ChunkList(data)[..i])
    {
      var push: Push := [];
      if off < |data| {
        var n := |data| - off;
        if n > CHUNK_MAX { n := CHUNK_MAX; }
        push := data[off..off + n];
        off := off + n;
      }
      assert push == Chunk(data, i);
      WriteManyAppend(WritePush, ChunkList(data)[..i], push);
      assert ChunkList(data)[..i + 1] == ChunkList(data)[..i] + [push];
      Assoc3(buf, WritePushes(ChunkList(data)[..i]), WritePush(push));
      ss := ss + WritePush(push);
    }
    assert ChunkList(data)[..3] == ChunkList(data);
  }

  lemma {:induction false} PartPushesBytes(tag: seq<byte>, hdr: seq<byte>, data: seq<byte>)
    ensures WritePushes(PartPushes(tag, hdr, ChunksOf(data)))
         == WritePush(tag) + WritePush(hdr) + WritePushes(ChunkList(data)) + WritePush(REDEEM)
  {
    var chunks := ChunkList(data);
    WriteManyConcat(WritePush, [tag, hdr] + chunks, [REDEEM]);
    WriteManyConcat(WritePush, [tag, hdr], chunks);
    WriteManyAppend(WritePush, [tag], hdr);
    WriteManyAppend(WritePush, [], tag);
    WriteManyAppend(WritePush, [], REDEEM);
    assert [tag] + [hdr] == [tag, hdr] && [] + [tag] == [tag] && [] + [REDEEM] == [REDEEM];
    assert PartPushes(tag, hdr, ChunksOf(data)) == [tag, hdr] + chunks + [REDEEM];
  }

  /** `dogecoin_pqc_carrier_build_part_scriptsig`: refuses no parts and data over three chunks. */
  method BuildPartScriptSig(tag: seq<byte>, partIndex: byte, partTotal: byte, pkLen: nat, fullLen: nat, data: seq<byte>)
    returns (r: Option<seq<byte>>)
    ensures r == if partTotal == 0 || |data| > PART_MAX then None
      else Some(WritePushes(PartPushes(tag, Header(partIndex, partTotal, pkLen, fullLen), ChunksOf(data))))
  {
    if partTotal == 0 || |data| > PART_MAX { return None; }
    var hdr := Header(partIndex, partTotal, pkLen, fullLen);
    var ss := WritePush(tag);
    ss := ss + WritePush(hdr);
    ss := AppendChunks(ss, data);
    ss := ss + WritePush(REDEEM);
    PartPushesBytes(tag, hdr, data);
    return Some(ss);
  }

  /** `estimateCarrierPartTotal` on decoded lengths: the least number of parts of 1560 bytes that
      holds the payload, at least one. */
  function PartTotal(fullLen: nat): (n: nat)
    ensures n >= 1 && fullLen <= PART_MAX * n && (n == 1 || PART_MAX * (n - 1) < fullLen)
  {
    var pt := (fullLen + PART_MAX - 1) / PART_MAX;
    if pt < 1 then 1 else pt
  }

  function PartData(full: seq<byte>, i: nat): seq<byte>
    requires PART_MAX * i <= |full|
  {
    full[PART_MAX * i..if PART_MAX * (i + 1) <= |full| then PART_MAX * (i + 1) else |full|]
  }

  /** The part count as its byte holds it. */
  function PartCount(fullLen: nat): byte { ((fullLen + PART_MAX - 1) / PART_MAX) % 0x100 }

  lemma {:induction false} PartTotalFits(fullLen: nat)
    requires fullLen < 0x1_0000
    ensures PartTotal(fullLen) < 0x100 && (fullLen > 0 ==> PartTotal(fullLen) == PartCount(fullLen))
  {
  }

  lemma {:induction false} PartStarts(fullLen: nat, i: nat)
    requires i < PartCount(fullLen)
    ensures PART_MAX * i < fullLen
  {
    var count := (fullLen + PART_MAX - 1) / PART_MAX;
    assert PART_MAX * i <= PART_MAX * (count - 1);
  }

  function MadePart(tag: seq<byte>, pk: seq<byte>, sig: seq<byte>, partIndex: byte): Option<seq<byte>> {
    var full := pk + sig;
    var total := PartCount(|full|);
    if partIndex >= total then None else
    PartStarts(|full|, partIndex);
    Some(WritePushes(PartPushes(tag, Header(partIndex, total, |pk|, |full|), ChunksOf(PartData(full, partIndex)))))
  }

  /** `pqc_carrier_mkpart`: the part count is an 8-bit value, lengths are 16-bit values. */
  method MkPart(tag: seq<byte>, pk: seq<byte>, sig: seq<byte>, partIndex: byte) returns (r: Option<seq<byte>>)
    ensures r == MadePart(tag, pk, sig, partIndex)
  {
    hide PartData, Chunks.Data, ChunksOf, WritePushes, PartPushes;
    var full := pk + sig;
    var partTotal := ((|full| + PART_MAX - 1) / PART_MAX) % 0x100;
    if partTotal == 0 || partIndex >= partTotal { return None; }
    PartStarts(|full|, partIndex);
    var data := PartSlice(full, partIndex);
    PartDataFits(full, partIndex);
    TruncatedHeader(partIndex, partTotal, |pk|, |full|);
    r := BuildPartScriptSig(tag, partIndex, partTotal, |pk| % 0x1_0000, |full| % 0x1_0000, data);
  }

  lemma {:induction false} LowBytes(n: nat)
    ensures n % 0x100 == n % 0x1_0000 % 0x100 && n / 0x100 % 0x100 == n % 0x1_0000 / 0x100 % 0x100
  {
    var q, r := n / 0x1_0000, n % 0x1_0000;
    assert n == 0x100 * (0x100 * q + r / 0x100) + r % 0x100;
    assert n / 0x100 == 0x100 * q + r / 0x100;
  }

  lemma {:induction false} TruncatedHeader(partIndex: byte, partTotal: byte, pkLen: nat, fullLen: nat)
    ensures Header(partIndex, partTotal, pkLen, fullLen) == Header(partIndex, partTotal, pkLen % 0x1_0000, fullLen % 0x1_0000)
  {
    LowBytes(pkLen);
    LowBytes(fullLen);
  }

  /** What the explorer reads from a made part, for payloads of any length: the lengths modulo
      2^16 and the count modulo 2^8, or no part at all when the truncated key length is zero or
      above the truncated payload length. */
  lemma {:induction false} MadePartReads(tag: seq<byte>, pk: seq<byte>, sig: seq<byte>, i: byte)
    requires AlgoOf(tag).Some? && i < PartCount(|pk + sig|)
    ensures PART_MAX * i < |pk + sig| && MadePart(tag, pk, sig, i).Some?
    ensures var pkLen, fullLen := |pk| % 0x1_0000, |pk + sig| % 0x1_0000;
      ParsePart(MadePart(tag, pk, sig, i).value) ==
        if pkLen < 1 || fullLen < pkLen then None
        else Some(Part(Key(AlgoOf(tag).value, PartCount(|pk + sig|), pkLen, fullLen), tag, i, PartData(pk + sig, i)))
  {
    hide PartCount, ReadPushes, PartData, ChunksOf, Header, WritePushes;
    var full, total := pk + sig, PartCount(|pk + sig|);
    var pkLen, fullLen := |pk| % 0x1_0000, |full| % 0x1_0000;
    PartStarts(|full|, i);
    TruncatedHeader(i, total, |pk|, |full|);
    var data := PartData(full, i);
    PartDataFits(full, i);
    ChunksCoverData(data);
    if 1 <= pkLen <= fullLen {
      PartRoundTrip(tag, i, total, pkLen, fullLen, ChunksOf(data));
    } else {
      RefusedLengths(tag, i, total, pkLen, fullLen, ChunksOf(data));
    }
  }

  /** A made part reads back as that part of the payload exactly when the payload is below 2^16
      bytes. */
  lemma {:induction false} MadePartComesBackIff(tag: seq<byte>, pk: seq<byte>, sig: seq<byte>, i: byte)
    requires AlgoOf(tag).Some? && pk != [] && i < PartCount(|pk + sig|)
    ensures PART_MAX * i < |pk + sig| && MadePart(tag, pk, sig, i).Some?
    ensures ParsePart(MadePart(tag, pk, sig, i).value)
         == Some(Part(Key(AlgoOf(tag).value, PartTotal(|pk + sig|), |pk|, |pk + sig|), tag, i, PartData(pk + sig, i)))
      <==> |pk + sig| < 0x1_0000
  {
    hide MadePart, ParsePart, PartData, PartCount, PartTotal;
    MadePartReads(tag, pk, sig, i);
    if |pk + sig| < 0x1_0000 { PartTotalFits(|pk + sig|); }
  }

  /** One key byte and 65535 bytes of signature: the part is made and reads as no part. */
  lemma {:induction false} LongPayloadIsLost(tag: seq<byte>, k: byte)
    requires AlgoOf(tag).Some?
    ensures var made := MadePart(tag, [k], seq(0xffff, _ => 0), 0);
      made.Some? && ParsePart(made.value) == None
  {
    hide MadePart, ParsePart, PartData;
    var sig: seq<byte> := seq(0xffff, _ => 0);
    assert |[k] + sig| == 0x1_0000 && PartCount(0x1_0000) == 43;
    MadePartReads(tag, [k], sig, 0);
  }

  lemma {:induction false} PartDataFits(full: seq<byte>, i: nat)
    requires PART_MAX * i <= |full|
    ensures |PartData(full, i)| <= PART_MAX
  {
  }

  lemma {:induction false} RefusedLengths(tag: seq<byte>, partIndex: byte, partTotal: byte, pkLen: nat, fullLen: nat, chunks: Chunks)
    requires AlgoOf(tag).Some? && chunks.Fit() && pkLen < 0x1_0000 && fullLen < 0x1_0000 && (pkLen < 1 || fullLen < pkLen)
    ensures ParsePart(WritePushes(PartPushes(tag, Header(partIndex, partTotal, pkLen, fullLen), chunks))) == None
  {
    TagIsEightBytes(tag);
    HeaderLengths(pkLen);
    HeaderLengths(fullLen);
    var pushes := PartPushes(tag, Header(partIndex, partTotal, pkLen, fullLen), chunks);
    PushesRoundTrip(pushes);
    assert pushes[1] == Header(partIndex, partTotal, pkLen, fullLen);
  }

  method PartSlice(full: seq<byte>, partIndex: byte) returns (data: seq<byte>)
    requires PART_MAX * partIndex < |full|
    ensures data == PartData(full, partIndex)
  {
    var off := partIndex as nat * PART_MAX;
    var len := |full| - off;
    if len > PART_MAX { len := PART_MAX; }
    return full[off..off + len];
  }

  /** `carrierDummyScriptSigHex`: out-of-range counters are clamped, an unusable tag becomes the
      Falcon one, and the lengths in the header are zero. */
  function DummyScriptSig(tag: Option<seq<byte>>, partIndex: int, partTotal: int): seq<byte> {
    var i := if partIndex < 0 then 0 else if partIndex > 255 then 255 else partIndex;
    var n := if partTotal < 1 then 1 else if partTotal > 255 then 255 else partTotal;
    var t := if tag == None || |tag.value| != 8 then FLC1FULL else tag.value;
    WritePushes(PartPushes(t, Header(i, n, 0, 0), Chunks([], [], [])))
  }

  /** A recovery scriptSig is never taken as a part. */
  lemma {:induction false} DummyIsNoPart(tag: Option<seq<byte>>, partIndex: int, partTotal: int)
    ensures ParsePart(DummyScriptSig(tag, partIndex, partTotal)) == None
  {
    var i := if partIndex < 0 then 0 else if partIndex > 255 then 255 else partIndex;
    var n := if partTotal < 1 then 1 else if partTotal > 255 then 255 else partTotal;
    var t := if tag == None || |tag.value| != 8 then FLC1FULL else tag.value;
    var pushes := PartPushes(t, Header(i, n, 0, 0), Chunks([], [], []));
    PushesRoundTrip(pushes);
    assert pushes[1] == Header(i, n, 0, 0);
  }

  // ---- reassembly ----

  datatype Found = Found(part: Part, vin: nat)

  datatype Outcome<I> =
    | Absent
    | Unmatched(partCount: nat)
    | Verified(key: Key, tag: seq<byte>, vin: nat, pk: seq<byte>, sig: seq<byte>, commitment: seq<byte>, info: I)

  /** What each input's scriptSig reads as. */
  function ReadInputs(ins: seq<TxIn>): (ps: seq<Option<Part>>)
    ensures |ps| == |ins|
  {
    seq(|ins|, k requires 0 <= k < |ins| => ParsePart(ins[k].scriptSig))
  }

  /** The parts among the first n inputs, in input order. */
  function Parts(ps: seq<Option<Part>>, n: nat): seq<Found>
    requires n <= |ps|
  {
    if n == 0 then [] else
    Parts(ps, n - 1) + match ps[n - 1] { case None => [] case Some(p) => [Found(p, n - 1)] }
  }

  function PartsAmong(ins: seq<TxIn>): seq<Found> { Parts(ReadInputs(ins), |ins|) }

  function GroupOf(parts: seq<Found>, key: Key): seq<Found> {
    if parts == [] then [] else
    GroupOf(parts[..|parts| - 1], key) + if parts[|parts| - 1].part.key == key then [parts[|parts| - 1]] else []
  }

  /** The payload in slot i: a later part overwrites an earlier one. */
  function Slot(group: seq<Found>, i: nat): Option<seq<byte>> {
    if group == [] then None
    else if group[|group| - 1].part.partIndex == i then Some(group[|group| - 1].part.payload)
    else Slot(group[..|group| - 1], i)
  }

  /** The first n slots joined, if all are filled. */
  function Join(group: seq<Found>, n: nat): Option<seq<byte>> {
    if n == 0 then Some([]) else
    match Join(group, n - 1)
    case None => None
    case Some(full) => match Slot(group, n - 1) { case None => None case Some(d) => Some(full + d) }
  }

  function GroupOutcome<I>(sha256: seq<byte> -> seq<byte>, commitments: map<seq<byte>, I>, key: Key, group: seq<Found>): Option<Outcome<I>> {
    match Join(group, key.partTotal)
    case None => None
    case Some(joined) =>
      if group == [] || |joined| < key.fullLen || key.pkLen >= key.fullLen then None else
      var full := joined[..key.fullLen];
      var sum := sha256(full);
      if sum !in commitments then None else
      Some(Verified(key, group[0].part.tag, group[0].vin, full[..key.pkLen], full[key.pkLen..], sum, commitments[sum]))
  }

  /** What a pass over the groups may return, whatever order it visits them in. */
  ghost predicate IsOutcome<I>(sha256: seq<byte> -> seq<byte>, commitments: map<seq<byte>, I>, parts: seq<Found>, r: Outcome<I>) {
    match r
    case Absent => parts == []
    case Unmatched(n) => parts != [] && n == |parts| && forall key :: GroupOutcome(sha256, commitments, key, GroupOf(parts, key)) == None
    case Verified(key, _, _, _, _, _, _) => GroupOutcome(sha256, commitments, key, GroupOf(parts, key)) == Some(r)
  }

  method FillSlots(group: seq<Found>, n: nat) returns (slots: array<Option<seq<byte>>>)
    ensures fresh(slots) && slots.Length == n && forall i | 0 <= i < n :: slots[i] == Slot(group, i)
  {
    slots := new Option<seq<byte>>[n](_ => None);
    for k := 0 to |group|
      invariant forall i | 0 <= i < n :: slots[i] == Slot(group[..k], i)
    {
      assert group[..k + 1][..k] == group[..k];
      var p := group[k].part;
      if p.partIndex < n { slots[p.partIndex] := Some(p.payload); }
    }
    assert group[..|group|] == group;
  }

  method JoinSlots(group: seq<Found>, n: nat) returns (r: Option<seq<byte>>)
    ensures r == Join(group, n)
  {
    var slots := FillSlots(group, n);
    var full: seq<byte> := [];
    for i := 0 to n
      invariant Join(group, i) == Some(full)
    {
      if slots[i] == None { JoinStuck(group, i + 1, n); return None; }
      full := full + slots[i].value;
    }
    return Some(full);
  }

  lemma {:induction false} JoinStuck(group: seq<Found>, m: nat, n: nat)
    requires m <= n && Join(group, m) == None
    ensures Join(group, n) == None
  {
    if m < n { JoinStuck(group, m, n - 1); }
  }

  method TryGroup<I>(sha256: seq<byte> -> seq<byte>, commitments: map<seq<byte>, I>, key: Key, group: seq<Found>)
    returns (r: Option<Outcome<I>>)
    ensures r == GroupOutcome(sha256, commitments, key, group)
  {
    var joined := JoinSlots(group, key.partTotal);
    if joined == None || group == [] { return None; }
    var full := joined.value;
    if |full| < key.fullLen { return None; }
    full := full[..key.fullLen];
    if key.pkLen >= |full| { return None; }
    var pk, sig := full[..key.pkLen], full[key.pkLen..];
    var buf := pk + sig;
    assert buf == full;
    var sum := sha256(buf);
    if sum !in commitments { return None; }
    return Some(Verified(key, group[0].part.tag, group[0].vin, pk, sig, sum, commitments[sum]));
  }

  lemma {:induction false} GroupOfKeys(parts: seq<Found>, key: Key)
    ensures GroupOf(parts, key) != [] <==> exists k | 0 <= k < |parts| :: parts[k].part.key == key
  {
    if parts != [] {
      var init := parts[..|parts| - 1];
      GroupOfKeys(init, key);
      if exists k | 0 <= k < |parts| :: parts[k].part.key == key {
        var k :| 0 <= k < |parts| && parts[k].part.key == key;
        if k < |init| { assert init[k].part.key == key; }
      }
    }
  }

  method CollectParts(ins: seq<TxIn>) returns (parts: seq<Found>)
    ensures parts == PartsAmong(ins)
  {
    parts := [];
    ghost var ps := ReadInputs(ins);
    for i := 0 to |ins|
      invariant parts == Parts(ps, i)
    {
      var p := ParseCarrierPartFromScriptSig(ins[i].scriptSig);
      if p.Some? { parts := parts + [Found(p.value, i)]; }
    }
  }

  method GroupParts(parts: seq<Found>) returns (byKey: map<Key, seq<Found>>)
    ensures forall key :: key in byKey <==> GroupOf(parts, key) != []
    ensures forall key | key in byKey :: byKey[key] == GroupOf(parts, key)
  {
    byKey := map[];
    for k := 0 to |parts|
      invariant forall key :: key in byKey <==> GroupOf(parts[..k], key) != []
      invariant forall key | key in byKey :: byKey[key] == GroupOf(parts[..k], key)
    {
      assert parts[..k + 1][..k] == parts[..k];
      var key := parts[k].part.key;
      var group := if key in byKey then byKey[key] else [];
      byKey := byKey[key := group + [parts[k]]];
    }
    assert parts[..|parts|] == parts;
  }

  /** `verifyCarrierPhase1`: groups are visited in no particular order. */
  method VerifyCarrierPhase1<I>(sha256: seq<byte> -> seq<byte>, raw: seq<byte>, commitments: map<seq<byte>, I>)
    returns (r: Outcome<I>)
    ensures match ParseInputs(raw)
      case None => r == Absent
      case Some(ins) => IsOutcome(sha256, commitments, PartsAmong(ins), r)
  {
    var ins := TxDecode.ParseTxInputs(raw);
    if ins == None { return Absent; }
    var parts := CollectParts(ins.value);
    if |parts| == 0 { return Absent; }
    var byKey := GroupParts(parts);
    var todo := byKey.Keys;
    while todo != {}
      invariant todo <= byKey.Keys
      invariant forall key | key !in todo :: GroupOutcome(sha256, commitments, key, GroupOf(parts, key)) == None
      decreases |todo|
    {
      var key :| key in todo;
      var found := TryGroup(sha256, commitments, key, byKey[key]);
      if found.Some? { return found.value; }
      todo := todo - {key};
    }
    return Unmatched(|parts|);
  }

  // ---- reassembly inverts splitting ----

  /** Three pushes of at most 520 bytes a part, and a part count that fits its byte. */
  predicate WellCut(cuts: seq<Chunks>) {
    |cuts| < 0x100 && forall i | 0 <= i < |cuts| :: cuts[i].Fit()
  }

  function Joined(cuts: seq<Chunks>, n: nat): seq<byte>
    requires n <= |cuts|
  {
    if n == 0 then [] else Joined(cuts, n - 1) + cuts[n - 1].Data()
  }

  /** A cut of the payload into as many parts as the wallet budgets for. */
  predicate IsCut(full: seq<byte>, cuts: seq<Chunks>) {
    WellCut(cuts) && |cuts| == PartTotal(|full|) && Joined(cuts, |cuts|) == full
  }

  function PartScript(tag: seq<byte>, pkLen: nat, fullLen: nat, cuts: seq<Chunks>, i: nat): seq<byte>
    requires i < |cuts| < 0x100
  {
    WritePushes(PartPushes(tag, Header(i, |cuts|, pkLen, fullLen), cuts[i]))
  }

  /** The parts sit one per input at the given positions, in any order, and no other input is
      a carrier part. */
  predicate Placed(ins: seq<TxIn>, scripts: seq<seq<byte>>, pos: seq<nat>) {
    && |pos| == |scripts|
    && (forall i | 0 <= i < |pos| :: pos[i] < |ins| && ins[pos[i]].scriptSig == scripts[i])
    && (forall i, j | 0 <= i < j < |pos| :: pos[i] != pos[j])
    && (forall k | 0 <= k < |ins| && k !in pos :: ParsePart(ins[k].scriptSig) == None)
  }

  function PartScripts(tag: seq<byte>, pkLen: nat, fullLen: nat, cuts: seq<Chunks>): (s: seq<seq<byte>>)
    requires |cuts| < 0x100
    ensures |s| == |cuts|
  {
    seq(|cuts|, i requires 0 <= i < |cuts| => PartScript(tag, pkLen, fullLen, cuts, i))
  }

  lemma {:induction false} PartsAreRead(ps: seq<Option<Part>>, n: nat)
    requires n <= |ps|
    ensures var fs := Parts(ps, n);
      && (forall f | f in fs :: f.vin < n && ps[f.vin] == Some(f.part))
      && (forall k | 0 <= k < n && ps[k].Some? :: Found(ps[k].value, k) in fs)
  {
    if n > 0 { PartsAreRead(ps, n - 1); }
  }

  lemma {:induction false} GroupOfAll(parts: seq<Found>, key: Key)
    requires forall f | f in parts :: f.part.key == key
    ensures GroupOf(parts, key) == parts
  {
    if parts != [] { GroupOfAll(parts[..|parts| - 1], key); }
  }

  lemma {:induction false} SlotFilled(group: seq<Found>, i: nat, data: seq<byte>)
    requires forall f | f in group && f.part.partIndex == i :: f.part.payload == data
    requires exists f | f in group :: f.part.partIndex == i
    ensures Slot(group, i) == Some(data)
  {
    var last := group[|group| - 1];
    if last.part.partIndex != i {
      var f :| f in group && f.part.partIndex == i;
      assert f in group[..|group| - 1];
      SlotFilled(group[..|group| - 1], i, data);
    }
  }

  lemma {:induction false} JoinOfSlots(group: seq<Found>, cuts: seq<Chunks>, n: nat)
    requires n <= |cuts|
    requires forall i | 0 <= i < n :: Slot(group, i) == Some(cuts[i].Data())
    ensures Join(group, n) == Some(Joined(cuts, n))
  {
    if n > 0 { JoinOfSlots(group, cuts, n - 1); }
  }

  /** The parts that were placed are the ones found, each at its own index. */
  lemma {:induction false} PlacedAreFound(ps: seq<Option<Part>>, want: seq<Part>, pos: seq<nat>)
    requires |pos| == |want|
    requires forall i | 0 <= i < |want| :: pos[i] < |ps| && ps[pos[i]] == Some(want[i]) && want[i].partIndex == i
    requires forall k | 0 <= k < |ps| && k !in pos :: ps[k] == None
    ensures forall f | f in Parts(ps, |ps|) :: f.vin in pos && f.part in want
    ensures forall i | 0 <= i < |want| :: Slot(Parts(ps, |ps|), i) == Some(want[i].payload)
  {
    var fs := Parts(ps, |ps|);
    PartsAreRead(ps, |ps|);
    forall f | f in fs
      ensures f.vin in pos && f.part in want
    {
      assert f.vin in pos;
      var i :| 0 <= i < |pos| && pos[i] == f.vin;
      assert want[i] in want;
    }
    forall i | 0 <= i < |want|
      ensures Slot(fs, i) == Some(want[i].payload)
    {
      assert Found(want[i], pos[i]) in fs;
      SlotFilled(fs, i, want[i].payload);
    }
  }

  function PartsOfCut(key: Key, tag: seq<byte>, cuts: seq<Chunks>): (ps: seq<Part>)
    ensures |ps| == |cuts|
  {
    seq(|cuts|, i requires 0 <= i < |cuts| => Part(key, tag, i, cuts[i].Data()))
  }

  lemma {:induction false} PlacedPart(tag: seq<byte>, pkLen: nat, fullLen: nat, cuts: seq<Chunks>, i: nat)
    requires AlgoOf(tag).Some? && 1 <= pkLen < fullLen < 0x1_0000 && WellCut(cuts) && i < |cuts|
    ensures ParsePart(PartScript(tag, pkLen, fullLen, cuts, i))
         == Some(PartsOfCut(Key(AlgoOf(tag).value, |cuts|, pkLen, fullLen), tag, cuts)[i])
  {
    PartRoundTrip(tag, i, |cuts|, pkLen, fullLen, cuts[i]);
  }

  lemma {:induction false} PlacedParts(tag: seq<byte>, pkLen: nat, fullLen: nat, cuts: seq<Chunks>, ins: seq<TxIn>, pos: seq<nat>)
    requires AlgoOf(tag).Some? && 1 <= pkLen < fullLen < 0x1_0000 && WellCut(cuts)
    requires Placed(ins, PartScripts(tag, pkLen, fullLen, cuts), pos)
    ensures var want := PartsOfCut(Key(AlgoOf(tag).value, |cuts|, pkLen, fullLen), tag, cuts);
      forall i | 0 <= i < |cuts| :: pos[i] < |ins| && ReadInputs(ins)[pos[i]] == Some(want[i])
  {
    var scripts := PartScripts(tag, pkLen, fullLen, cuts);
    forall i | 0 <= i < |cuts|
      ensures pos[i] < |ins| && ReadInputs(ins)[pos[i]] == Some(PartsOfCut(Key(AlgoOf(tag).value, |cuts|, pkLen, fullLen), tag, cuts)[i])
    {
      PlacedPart(tag, pkLen, fullLen, cuts, i);
      assert ins[pos[i]].scriptSig == scripts[i];
    }
  }

  /** The outcome of the only group there is. */
  lemma {:induction false} SplitGroupOutcome<I>(sha256: seq<byte> -> seq<byte>, commitments: map<seq<byte>, I>, key: Key, parts: seq<Found>,
                             pk: seq<byte>, sig: seq<byte>)
    requires parts != [] && Join(parts, key.partTotal) == Some(pk + sig)
    requires key.pkLen == |pk| < |pk + sig| == key.fullLen
    ensures GroupOutcome(sha256, commitments, key, parts) ==
      if sha256(pk + sig) !in commitments then None
      else Some(Verified(key, parts[0].part.tag, parts[0].vin, pk, sig, sha256(pk + sig), commitments[sha256(pk + sig)]))
  {
    var full := pk + sig;
    Cut(pk, sig);
    assert full[..|full|] == full;
  }

  /** Every outcome of a pass over a transaction carrying a split payload: verified exactly when
      the hash of the payload is indexed, and then with the key and signature that were split. */
  lemma {:induction false} ReassemblyInvertsSplitting<I>(sha256: seq<byte> -> seq<byte>, commitments: map<seq<byte>, I>, tag: seq<byte>,
                                      pk: seq<byte>, sig: seq<byte>, cuts: seq<Chunks>, ins: seq<TxIn>, pos: seq<nat>, r: Outcome<I>)
    requires AlgoOf(tag).Some? && 1 <= |pk| < |pk + sig| < 0x1_0000 && IsCut(pk + sig, cuts)
    requires Placed(ins, PartScripts(tag, |pk|, |pk + sig|, cuts), pos)
    requires IsOutcome(sha256, commitments, PartsAmong(ins), r)
    ensures if sha256(pk + sig) in commitments then
        && r.Verified? && r.key == Key(AlgoOf(tag).value, |cuts|, |pk|, |pk + sig|) && r.tag == tag && r.vin in pos
        && r.pk == pk && r.sig == sig && r.commitment == sha256(pk + sig) && r.info == commitments[sha256(pk + sig)]
      else r == Unmatched(|PartsAmong(ins)|)
  {
    var full := pk + sig;
    var key := Key(AlgoOf(tag).value, |cuts|, |pk|, |full|);
    PlacedParts(tag, |pk|, |full|, cuts, ins, pos);
    PlacedAreFound(ReadInputs(ins), PartsOfCut(key, tag, cuts), pos);
    FoundAreVerified(sha256, commitments, key, tag, pk, sig, cuts, PartsAmong(ins), pos, r);
  }

  lemma {:induction false} FoundAreVerified<I>(sha256: seq<byte> -> seq<byte>, commitments: map<seq<byte>, I>, key: Key, tag: seq<byte>,
                            pk: seq<byte>, sig: seq<byte>, cuts: seq<Chunks>, parts: seq<Found>, pos: seq<nat>, r: Outcome<I>)
    requires 1 <= |pk| < |pk + sig| && |cuts| > 0 && Joined(cuts, |cuts|) == pk + sig
    requires key.partTotal == |cuts| && key.pkLen == |pk| && key.fullLen == |pk + sig|
    requires forall f | f in parts :: f.vin in pos && f.part in PartsOfCut(key, tag, cuts)
    requires forall i | 0 <= i < |cuts| :: Slot(parts, i) == Some(cuts[i].Data())
    requires IsOutcome(sha256, commitments, parts, r)
    ensures if sha256(pk + sig) in commitments then
        && r.Verified? && r.key == key && r.tag == tag && r.vin in pos
        && r.pk == pk && r.sig == sig && r.commitment == sha256(pk + sig) && r.info == commitments[sha256(pk + sig)]
      else r == Unmatched(|parts|)
  {
    GroupOfAll(parts, key);
    JoinOfSlots(parts, cuts, |cuts|);
    assert Slot(parts, 0).Some?;
    assert parts[0] in parts;
    SplitGroupOutcome(sha256, commitments, key, parts, pk, sig);
    OtherKeysAreEmpty(parts, key);
    OutcomeOfOneGroup(sha256, commitments, parts, key, r);
  }

  lemma {:induction false} OutcomeOfOneGroup<I>(sha256: seq<byte> -> seq<byte>, commitments: map<seq<byte>, I>, parts: seq<Found>, key: Key, r: Outcome<I>)
    requires parts != [] && GroupOf(parts, key) == parts
    requires forall other | other != key :: GroupOf(parts, other) == []
    requires IsOutcome(sha256, commitments, parts, r)
    ensures match GroupOutcome(sha256, commitments, key, parts)
      case None => r == Unmatched(|parts|)
      case Some(o) => r == o
  {
  }

  lemma {:induction false} OtherKeysAreEmpty(parts: seq<Found>, key: Key)
    requires forall f | f in parts :: f.part.key == key
    ensures forall other | other != key :: GroupOf(parts, other) == []
  {
    forall other | other != key
      ensures GroupOf(parts, other) == []
    {
      GroupOfKeys(parts, other);
    }
  }

  /** The cut the library makes: 1560 bytes a part, 520 a push. */
  function StandardParts(full: seq<byte>, n: nat): (cuts: seq<Chunks>)
    requires n == 0 || PART_MAX * (n - 1) <= |full|
    ensures |cuts| == n
  {
    seq(n, i requires 0 <= i < n => ChunksOf(PartData(full, i)))
  }

  function StandardCut(full: seq<byte>): seq<Chunks> { StandardParts(full, PartTotal(|full|)) }

  function Reached(full: seq<byte>, n: nat): (k: nat)
    ensures k <= |full|
  {
    if PART_MAX * n <= |full| then PART_MAX * n else |full|
  }

  lemma {:induction false} PartDataExtends(full: seq<byte>, i: nat)
    requires PART_MAX * i <= |full|
    ensures full[..Reached(full, i)] + PartData(full, i) == full[..Reached(full, i + 1)]
    ensures |PartData(full, i)| <= PART_MAX
  {
  }

  lemma {:induction false} JoinedStep(cuts: seq<Chunks>, n: nat)
    requires n < |cuts|
    ensures Joined(cuts, n + 1) == Joined(cuts, n) + cuts[n].Data()
  {
  }

  lemma {:induction false} StandardPart(full: seq<byte>, n: nat, i: nat)
    requires i < n && PART_MAX * (n - 1) <= |full|
    ensures StandardParts(full, n)[i].Fit() && StandardParts(full, n)[i].Data() == PartData(full, i)
  {
  }

  lemma {:induction false} DataJoins(full: seq<byte>, total: nat, n: nat)
    requires n <= total && PART_MAX * (total - 1) <= |full|
    ensures Joined(StandardParts(full, total), n) == full[..Reached(full, n)]
    decreases n
  {
    hide StandardParts, PartData, PartTotal, Chunks.Data;
    var cuts := StandardParts(full, total);
    if n == 0 {
      assert full[..0] == [];
    } else {
      hide *;
      JoinedStep(cuts, n - 1);
      DataJoins(full, total, n - 1);
      StandardPart(full, total, n - 1);
      PartDataExtends(full, n - 1);
      assert Joined(cuts, n) == full[..Reached(full, n - 1)] + PartData(full, n - 1);
    }
  }

  lemma {:induction false} StandardCutIsCut(full: seq<byte>)
    requires |full| < 0x1_0000
    ensures IsCut(full, StandardCut(full))
  {
    PartTotalFits(|full|);
    StandardPartsCut(full, PartTotal(|full|));
  }

  lemma {:induction false} StandardPartsCut(full: seq<byte>, n: nat)
    requires 0 < n && PART_MAX * (n - 1) <= |full| <= PART_MAX * n
    ensures forall i | 0 <= i < n :: StandardParts(full, n)[i].Fit()
    ensures Joined(StandardParts(full, n), n) == full
  {
    hide PartData, Chunks.Data, Chunks.Fit;
    var cuts := StandardParts(full, n);
    forall i | 0 <= i < n ensures cuts[i].Fit() && cuts[i].Data() == PartData(full, i) { StandardPart(full, n, i); }
    DataJoins(full, n, n);
    assert full[..Reached(full, n)] == full;
  }

  /** What the library's part maker writes is a part of that cut. */
  lemma {:induction false} LibraryMakesStandardCut(tag: seq<byte>, pk: seq<byte>, sig: seq<byte>, i: byte)
    requires 0 < |pk + sig| < 0x1_0000 && i < PartTotal(|pk + sig|) < 0x100
    ensures MadePart(tag, pk, sig, i) == Some(PartScripts(tag, |pk|, |pk + sig|, StandardCut(pk + sig))[i])
  {
  }

  // ---- exactly which made payloads come back ----

  lemma {:induction false} GroupOfMember(parts: seq<Found>, key: Key)
    ensures forall f | f in GroupOf(parts, key) :: f in parts && f.part.key == key
  {
    if parts != [] { GroupOfMember(parts[..|parts| - 1], key); }
  }

  lemma {:induction false} ReadLengths(script: seq<byte>)
    requires ParsePart(script).Some?
    ensures var key := ParsePart(script).value.key; 1 <= key.pkLen <= key.fullLen < 0x1_0000
  {
    hide ReadPushes;
  }

  /** Whatever a transaction carries, only payloads below 2^16 bytes with both a key and a
      signature are ever verified, and only when their hash is indexed. */
  lemma {:induction false} VerifiedIsShort<I>(sha256: seq<byte> -> seq<byte>, commitments: map<seq<byte>, I>, ins: seq<TxIn>, r: Outcome<I>)
    requires IsOutcome(sha256, commitments, PartsAmong(ins), r) && r.Verified?
    ensures r.pk != [] && r.sig != [] && |r.pk + r.sig| < 0x1_0000 && sha256(r.pk + r.sig) in commitments
  {
    hide ParsePart, Join, Parts;
    var parts := PartsAmong(ins);
    var group := GroupOf(parts, r.key);
    PartsAreRead(ReadInputs(ins), |ins|);
    GroupOfMember(parts, r.key);
    assert group[0] in group;
    ReadLengths(ins[group[0].vin].scriptSig);
    assert r.pk + r.sig == Join(group, r.key.partTotal).value[..r.key.fullLen];
  }

  // ---- what a verified outcome says of the transaction ----

  /** Part k of the group is the last one with its index. */
  predicate LastAt(group: seq<Found>, i: nat, k: nat) {
    k < |group| && group[k].part.partIndex == i && forall j | k < j < |group| :: group[j].part.partIndex != i
  }

  /** A slot holds the payload of the last part with its index, if there is one. */
  lemma {:induction false} SlotIsLast(group: seq<Found>, i: nat, d: seq<byte>)
    ensures Slot(group, i) == Some(d) <==> exists k: nat :: LastAt(group, i, k) && group[k].part.payload == d
  {
    if group != [] {
      var n := |group| - 1;
      SlotIsLast(group[..n], i, d);
      if group[n].part.partIndex == i {
        assert LastAt(group, i, n);
      } else {
        if Slot(group[..n], i) == Some(d) {
          var k: nat :| LastAt(group[..n], i, k) && group[..n][k].part.payload == d;
          assert LastAt(group, i, k);
        }
        if k: nat :| LastAt(group, i, k) && group[k].part.payload == d { assert LastAt(group[..n], i, k); }
      }
    }
  }

  function Flatten(ds: seq<seq<byte>>): seq<byte> { if ds == [] then [] else ds[0] + Flatten(ds[1..]) }

  lemma {:induction false} FlattenSnoc(ds: seq<seq<byte>>, d: seq<byte>)
    ensures Flatten(ds + [d]) == Flatten(ds) + d
  {
    if ds == [] {
      assert ds + [d] == [d] && [d][1..] == [];
    } else {
      FlattenSnoc(ds[1..], d);
      assert (ds + [d])[1..] == ds[1..] + [d];
      Assoc3(ds[0], Flatten(ds[1..]), d);
    }
  }

  /** The joined payload: for every index in order the payload of its last part. */
  lemma {:induction false} JoinIsFlat(group: seq<Found>, n: nat) returns (ds: seq<seq<byte>>)
    requires Join(group, n).Some?
    ensures |ds| == n && Join(group, n).value == Flatten(ds)
    ensures forall i | 0 <= i < n :: Slot(group, i) == Some(ds[i])
  {
    hide Slot;
    if n == 0 {
      ds := [];
    } else {
      ds := JoinIsFlat(group, n - 1);
      FlattenSnoc(ds, Slot(group, n - 1).value);
      ds := ds + [Slot(group, n - 1).value];
    }
  }

  lemma {:induction false} PartsInOrder(ps: seq<Option<Part>>, n: nat)
    requires n <= |ps|
    ensures var fs := Parts(ps, n); forall i, j | 0 <= i < j < |fs| :: fs[i].vin < fs[j].vin < n
  {
    if n > 0 {
      PartsInOrder(ps, n - 1);
      PartsAreRead(ps, n - 1);
    }
  }

  lemma {:induction false} GroupInOrder(parts: seq<Found>, key: Key)
    requires forall i, j | 0 <= i < j < |parts| :: parts[i].vin < parts[j].vin
    ensures var g := GroupOf(parts, key);
      && (forall i, j | 0 <= i < j < |g| :: g[i].vin < g[j].vin)
      && (forall f | f in parts && f.part.key == key :: f in g)
  {
    if parts != [] {
      GroupInOrder(parts[..|parts| - 1], key);
      GroupOfMember(parts[..|parts| - 1], key);
    }
  }

  lemma {:induction false} ReadIsGrouped(ins: seq<TxIn>, k: nat)
    requires k < |ins| && ParsePart(ins[k].scriptSig).Some?
    ensures var p := ParsePart(ins[k].scriptSig).value; Found(p, k) in GroupOf(PartsAmong(ins), p.key)
  {
    hide ParsePart, Parts;
    PartsAreRead(ReadInputs(ins), |ins|);
    PartsInOrder(ReadInputs(ins), |ins|);
    assert ReadInputs(ins)[k] == Some(ParsePart(ins[k].scriptSig).value);
    GroupInOrder(PartsAmong(ins), ParsePart(ins[k].scriptSig).value.key);
  }

  /** What a verified outcome reports is read off the transaction: input, tag and algorithm of the
      first input that carries a part of the group, the lengths of its header, and the payload put
      together from the last part of each index. */
  lemma {:induction false} VerifiedIsRead<I>(sha256: seq<byte> -> seq<byte>, commitments: map<seq<byte>, I>, ins: seq<TxIn>, r: Outcome<I>) returns (ds: seq<seq<byte>>)
    requires IsOutcome(sha256, commitments, PartsAmong(ins), r) && r.Verified?
    ensures r.vin < |ins| && ParsePart(ins[r.vin].scriptSig).Some?
    ensures var p := ParsePart(ins[r.vin].scriptSig).value; p.key == r.key && p.tag == r.tag
    ensures r.key.algo == if r.tag == Ascii("DL21FULL") then Ascii("DIL2") else r.tag[..4]
    ensures forall k | 0 <= k < r.vin && ParsePart(ins[k].scriptSig).Some? :: ParsePart(ins[k].scriptSig).value.key != r.key
    ensures |ds| == r.key.partTotal && |r.pk| == r.key.pkLen && |r.pk + r.sig| == r.key.fullLen && r.pk + r.sig <= Flatten(ds)
    ensures forall i | 0 <= i < |ds| :: LastCarried(ins, r.key, i, ds[i])
    ensures r.commitment == sha256(r.pk + r.sig) && r.commitment in commitments && r.info == commitments[r.commitment]
  {
    hide ParsePart, Parts, Slot, Join, AlgoOf, Ascii;
    var parts := PartsAmong(ins);
    var group := GroupOf(parts, r.key);
    PartsAreRead(ReadInputs(ins), |ins|);
    PartsInOrder(ReadInputs(ins), |ins|);
    GroupInOrder(parts, r.key);
    GroupOfMember(parts, r.key);
    assert group[0] in group;
    ds := JoinIsFlat(group, r.key.partTotal);
    assert r.pk + r.sig == Join(group, r.key.partTotal).value[..r.key.fullLen];
    ReadTag(ins[r.vin].scriptSig);
    forall k | 0 <= k < r.vin && ParsePart(ins[k].scriptSig).Some?
      ensures ParsePart(ins[k].scriptSig).value.key != r.key
    {
      ReadIsGrouped(ins, k);
    }
    forall i | 0 <= i < |ds| ensures LastCarried(ins, r.key, i, ds[i]) { SlotIsCarried(ins, r.key, i, ds[i]); }
  }

  lemma {:induction false} JoinOfCarried(ins: seq<TxIn>, key: Key, ds: seq<seq<byte>>, n: nat)
    requires n <= |ds| && forall i | 0 <= i < n :: LastCarried(ins, key, i, ds[i])
    ensures Join(GroupOf(PartsAmong(ins), key), n) == Some(Flatten(ds[..n]))
  {
    hide LastCarried, Slot;
    if n > 0 {
      JoinOfCarried(ins, key, ds, n - 1);
      CarriedIsSlot(ins, key, n - 1, ds[n - 1]);
      FlattenSnoc(ds[..n - 1], ds[n - 1]);
      assert ds[..n] == ds[..n - 1] + [ds[n - 1]];
    } else {
      assert ds[..0] == [];
    }
  }

  lemma {:induction false} CarriedIsSlot(ins: seq<TxIn>, key: Key, i: nat, d: seq<byte>)
    requires LastCarried(ins, key, i, d)
    ensures Slot(GroupOf(PartsAmong(ins), key), i) == Some(d)
  {
    hide ParsePart, Parts, Slot, GroupOf;
    var parts := PartsAmong(ins);
    var group := GroupOf(parts, key);
    PartsAreRead(ReadInputs(ins), |ins|);
    PartsInOrder(ReadInputs(ins), |ins|);
    GroupInOrder(parts, key);
    GroupOfMember(parts, key);
    var k: nat :| CarriesAt(ins, key, i, k, d) && forall j | k < j < |ins| :: !Carries(ins[j], key, i);
    ReadIsGrouped(ins, k);
    var g :| 0 <= g < |group| && group[g] == Found(ParsePart(ins[k].scriptSig).value, k);
    forall j | g < j < |group| ensures group[j].part.partIndex != i {
      assert group[j] in group;
      assert k < group[j].vin < |ins| && !Carries(ins[group[j].vin], key, i);
    }
    assert LastAt(group, i, g);
    SlotIsLast(group, i, d);
  }

  /** Conversely an outcome that verifies nothing means that no group of parts is complete, long
      enough, split into a key and a signature, and indexed by its hash. */
  lemma {:induction false} UnmatchedMeans<I>(sha256: seq<byte> -> seq<byte>, commitments: map<seq<byte>, I>, ins: seq<TxIn>, r: Outcome<I>,
                             key: Key, ds: seq<seq<byte>>)
    requires IsOutcome(sha256, commitments, PartsAmong(ins), r) && !r.Verified?
    requires |ds| == key.partTotal > 0 && forall i | 0 <= i < |ds| :: LastCarried(ins, key, i, ds[i])
    requires key.pkLen < key.fullLen <= |Flatten(ds)|
    ensures sha256(Flatten(ds)[..key.fullLen]) !in commitments
  {
    hide LastCarried, PartsAmong, Join, GroupOf;
    var group := GroupOf(PartsAmong(ins), key);
    JoinOfCarried(ins, key, ds, |ds|);
    assert ds[..|ds|] == ds;
    CarriedIsSlot(ins, key, 0, ds[0]);
    SlotNeedsPart(group, 0);
    EmptyHasNoGroup(PartsAmong(ins), key);
  }

  lemma {:induction false} SlotNeedsPart(group: seq<Found>, i: nat)
    requires Slot(group, i).Some?
    ensures group != []
  {
  }

  lemma {:induction false} EmptyHasNoGroup(parts: seq<Found>, key: Key)
    ensures parts == [] ==> GroupOf(parts, key) == []
  {
  }

  lemma {:induction false} ReadTag(script: seq<byte>)
    requires ParsePart(script).Some?
    ensures var p := ParsePart(script).value;
      |p.tag| == 8 && p.key.algo == if p.tag == Ascii("DL21FULL") then Ascii("DIL2") else p.tag[..4]
  {
    hide ReadPushes, Ascii;
    AlgoIsPrefix(ParsePart(script).value.tag);
  }

  /** The payload of the last input that carries a part with the key and index. */
  ghost predicate LastCarried(ins: seq<TxIn>, key: Key, i: nat, d: seq<byte>) {
    exists k: nat :: CarriesAt(ins, key, i, k, d) && forall j | k < j < |ins| :: !Carries(ins[j], key, i)
  }

  predicate Carries(input: TxIn, key: Key, i: nat) {
    ParsePart(input.scriptSig).Some? && ParsePart(input.scriptSig).value.key == key && ParsePart(input.scriptSig).value.partIndex == i
  }

  predicate CarriesAt(ins: seq<TxIn>, key: Key, i: nat, k: nat, d: seq<byte>) {
    k < |ins| && Carries(ins[k], key, i) && ParsePart(ins[k].scriptSig).value.payload == d
  }

  lemma {:induction false} SlotIsCarried(ins: seq<TxIn>, key: Key, i: nat, d: seq<byte>)
    requires Slot(GroupOf(PartsAmong(ins), key), i) == Some(d)
    ensures LastCarried(ins, key, i, d)
  {
    hide ParsePart, Parts, Slot, GroupOf;
    var parts := PartsAmong(ins);
    var group := GroupOf(parts, key);
    PartsAreRead(ReadInputs(ins), |ins|);
    PartsInOrder(ReadInputs(ins), |ins|);
    GroupInOrder(parts, key);
    GroupOfMember(parts, key);
    SlotIsLast(group, i, d);
    var g: nat :| LastAt(group, i, g) && group[g].part.payload == d;
    assert group[g] in group;
    var k := group[g].vin;
    assert CarriesAt(ins, key, i, k, d);
    forall j | k < j < |ins| ensures !Carries(ins[j], key, i) {
      if Carries(ins[j], key, i) {
        ReadIsGrouped(ins, j);
        assert false;
      }
    }
  }

  /** Parts under different tags fall into one group only for the two Dilithium tags. */
  lemma {:induction false} GroupsMixTags(a: seq<byte>, b: seq<byte>)
    requires ParsePart(a).Some? && ParsePart(b).Some? && ParsePart(a).value.key == ParsePart(b).value.key
    ensures var t, u := ParsePart(a).value.tag, ParsePart(b).value.tag;
      t == u || {t, u} == {Ascii("DIL2FULL"), Ascii("DL21FULL")}
  {
    hide ReadPushes, AlgoOf, Ascii;
    var p, q := ParsePart(a).value, ParsePart(b).value;
    KnownTags(p.tag, p.key.algo);
    KnownTags(q.tag, q.key.algo);
    AsciiFull();
  }

  lemma {:induction false} AsciiFull()
    ensures Ascii("DIL2") + Ascii("FULL") == Ascii("DIL2FULL")
  {
  }

  /** Everything the part maker makes of the payload. */
  function MadeScripts(tag: seq<byte>, pk: seq<byte>, sig: seq<byte>): (s: seq<seq<byte>>)
    ensures |s| == PartCount(|pk + sig|)
  {
    seq(PartCount(|pk + sig|), i requires 0 <= i < PartCount(|pk + sig|) => MadePart(tag, pk, sig, i).value)
  }

  lemma {:induction false} MadeIsStandardCut(tag: seq<byte>, pk: seq<byte>, sig: seq<byte>)
    requires 0 < |pk + sig| < 0x1_0000
    ensures |StandardCut(pk + sig)| < 0x100
    ensures MadeScripts(tag, pk, sig) == PartScripts(tag, |pk|, |pk + sig|, StandardCut(pk + sig))
  {
    hide MadePart, PartScript, StandardParts, PartTotal;
    PartTotalFits(|pk + sig|);
    forall i | 0 <= i < PartCount(|pk + sig|)
      ensures MadeScripts(tag, pk, sig)[i] == PartScripts(tag, |pk|, |pk + sig|, StandardCut(pk + sig))[i]
    {
      LibraryMakesStandardCut(tag, pk, sig, i);
    }
  }

  /** For payloads of any length: the key and signature that the part maker cut up come back in
      every outcome exactly when neither is empty, together they are below 2^16 bytes, and their
      hash is indexed. */
  lemma {:induction false} MadePayloadComesBackIff<I>(sha256: seq<byte> -> seq<byte>, commitments: map<seq<byte>, I>, tag: seq<byte>,
                                   pk: seq<byte>, sig: seq<byte>, ins: seq<TxIn>, pos: seq<nat>, r: Outcome<I>)
    requires AlgoOf(tag).Some? && Placed(ins, MadeScripts(tag, pk, sig), pos)
    requires IsOutcome(sha256, commitments, PartsAmong(ins), r)
    ensures r.Verified? && r.pk == pk && r.sig == sig
      <==> pk != [] && sig != [] && |pk + sig| < 0x1_0000 && sha256(pk + sig) in commitments
  {
    hide IsOutcome, PartsAmong, Placed, IsCut, MadeScripts, PartScripts, StandardCut;
    if pk != [] && sig != [] && |pk + sig| < 0x1_0000 {
      MadeIsStandardCut(tag, pk, sig);
      StandardCutIsCut(pk + sig);
      ReassemblyInvertsSplitting(sha256, commitments, tag, pk, sig, StandardCut(pk + sig), ins, pos, r);
    }
    if r.Verified? { VerifiedIsShort(sha256, commitments, ins, r); }
  }
}
