/** Whole transactions: what the writers produce, what the explorer's and the wallet's parsers
    accept, and the laws that connect them. */
module TxCodec {
  import opened Bytes
  import opened Wire

  datatype Tx = Tx(version: u32, inputs: seq<TxIn>, outputs: seq<TxOut>, locktime: u32)
  datatype TxParsed = TxParsed(tx: Tx, segwit: bool, stacks: seq<Stack>)

  predicate ValidTx(t: Tx) { ValidIns(t.inputs) && ValidOuts(t.outputs) }

  /** A transaction that the BIP 144 form can carry: one witness stack per input. */
  predicate ValidWitnessed(t: Tx, w: seq<Stack>) {
    ValidTx(t) && |w| == |t.inputs| && forall k | k in w :: ValidStack(k)
  }

  // ---- writers ----

  function WriteTx(t: Tx): seq<byte> {
    PutU32(t.version) + WriteVin(t.inputs) + WriteVout(t.outputs) + PutU32(t.locktime)
  }

  const MARKER: seq<byte> := [0x00, 0x01]

  /** BIP 144: marker and flag after the version, witness stacks before the lock time. */
  function WriteWitnessTx(t: Tx, w: seq<Stack>): seq<byte> {
    PutU32(t.version) + MARKER + WriteVin(t.inputs) + WriteVout(t.outputs)
    + WriteMany(WriteStack, w) + PutU32(t.locktime)
  }

  // ---- parsers ----

  predicate HasMarker(s: seq<byte>) { |s| >= 2 && s[0] == 0x00 && s[1] == 0x01 }

  function SkipMarker(s: seq<byte>): seq<byte> { if HasMarker(s) then s[2..] else s }

  /** `parseBitcoinTx`: the whole buffer must be one transaction. */
  function ParseTx(raw: seq<byte>): Option<TxParsed> {
    if |raw| < 10 then None else
    match ReadVin(SkipMarker(raw[4..]))
    case Short => None
    case Done(ins, s1) =>
      match ReadVout(s1)
      case Short => None
      case Done(outs, s2) =>
        var w: Read<seq<Stack>> := if HasMarker(raw[4..]) then ReadMany(ReadStack, s2, |ins|) else Done([], s2);
        match w
        case Short => None
        case Done(stacks, s3) =>
          if |s3| != 4 then None
          else Some(TxParsed(Tx(GetU32(raw), ins, outs, GetU32(s3)), HasMarker(raw[4..]), stacks))
  }

  /** `parseTxInputs`: stops after the inputs. */
  function ParseInputs(raw: seq<byte>): Option<seq<TxIn>> {
    if |raw| < 10 then None else
    match ReadVin(SkipMarker(raw[4..]))
    case Short => None
    case Done(ins, _) => Some(ins)
  }

  /** `parseTxOutputs`: stops after the outputs. */
  function ParseOutputs(raw: seq<byte>): Option<seq<TxOut>> {
    if |raw| < 10 then None else
    match ReadVin(SkipMarker(raw[4..]))
    case Short => None
    case Done(_, s) =>
      match ReadVout(s)
      case Short => None
      case Done(outs, _) => Some(outs)
  }

  /** `parseRawTxForBase`: refuses the marker, ignores bytes after the lock time. */
  function ParseBase(raw: seq<byte>): Option<Tx> {
    if |raw| < 10 || HasMarker(raw[4..]) then None else
    match ReadVin(raw[4..])
    case Short => None
    case Done(ins, s1) =>
      match ReadVout(s1)
      case Short => None
      case Done(outs, s2) =>
        if |s2| < 4 then None else Some(Tx(GetU32(raw), ins, outs, GetU32(s2)))
  }

  /** `parseLegacyTxOutputs`: no marker handling, stops after the outputs. */
  function ParseLegacyOutputs(raw: seq<byte>): Option<seq<TxOut>> {
    if |raw| < 6 then None else
    match ReadVin(raw[4..])
    case Short => None
    case Done(_, s) =>
      match ReadVout(s)
      case Short => None
      case Done(outs, _) => Some(outs)
  }

  /** The length test of this parser refuses nothing that the sections would not. */
  lemma {:induction false} LegacyOutputsIff(raw: seq<byte>)
    ensures ParseLegacyOutputs(raw).Some? <==>
      |raw| >= 4 && ReadVin(raw[4..]).Done? && ReadVout(ReadVin(raw[4..]).rest).Done?
  {
    hide ReadMany;
    if |raw| >= 4 && ReadVin(raw[4..]).Done? {
      VinConsumed(raw[4..]);
      VinTakesBytes(raw[4..]);
    }
  }

  lemma {:induction false} VinTakesBytes(s: seq<byte>)
    requires ReadVin(s).Done?
    ensures |ReadVin(s).rest| < |s|
  {
    VinConsumed(s);
    assert |WriteVin(ReadVin(s).value)| > 0;
  }

  /** `legacyTxWireLen` as a reader: an empty input count is taken as the extension marker,
      and the next byte as its flags; only bit 0 (witness) is supported. */
  function ReadWire(s: seq<byte>): Read<()> {
    if |s| < 4 then Short else
    var (head, s1) :- ReadWireHead(s[4..]);
    ReadWireBody(s1, head.0, head.1)
  }

  /** The input count and the extension flags. */
  function ReadWireHead(s: seq<byte>): Read<(nat, byte)> {
    var (n, s1) :- ReadVarInt(s);
    if n > 0 then Done((n, 0), s1)
    else if s1 == [] then Short
    else if s1[0] == 0 then Done((0, 0), s1[1..])
    else
      var (n', s2) :- ReadVarInt(s1[1..]);
      Done((n', s1[0]), s2)
  }

  function ReadWireBody(s: seq<byte>, nin: nat, flags: byte): Read<()> {
    var (ins, s1) :- ReadMany(ReadIn, s, nin);
    var (outs, s2) :- ReadVout(s1);
    ReadWireTail(s2, nin, flags)
  }

  function ReadWireTail(s: seq<byte>, nin: nat, flags: byte): Read<()> {
    var (w, s1) :- if flags % 2 == 1 then ReadMany(ReadStack, s, nin) else Done([], s);
    if (flags != 0 && flags != 1) || |s1| < 4 then Short else Done((), s1[4..])
  }

  function WireLen(raw: seq<byte>): Option<int> {
    match ReadWire(raw)
    case Short => None
    case Done(_, rest) => Some(|raw| - |rest|)
  }

  // ---- sizes ----

  function Weight(p: TxParsed, total: nat): nat { 3 * |WriteTx(p.tx)| + total }
  function Vsize(p: TxParsed, total: nat): nat { (Weight(p, total) + 3) / 4 }

  // ---- laws ----

  /** The one family of transactions whose written form reads back as something else. */
  predicate LooksSegwit(t: Tx) { |t.inputs| == 0 && |t.outputs| == 1 }

  lemma {:induction false} WriteTxShape(t: Tx, rest: seq<byte>)
    requires ValidTx(t)
    ensures |WriteTx(t)| >= 10
    ensures (WriteTx(t) + rest)[4..] == WriteVin(t.inputs) + (WriteVout(t.outputs) + (PutU32(t.locktime) + rest))
    ensures GetU32(WriteTx(t) + rest) == t.version
  {
    var body := WriteVin(t.inputs) + (WriteVout(t.outputs) + (PutU32(t.locktime) + rest));
    Assoc4(PutU32(t.version), WriteVin(t.inputs), WriteVout(t.outputs), PutU32(t.locktime), rest);
    Cut(PutU32(t.version), body);
    U32RoundTrip(t.version, body);
  }

  lemma {:induction false} WriteTxMarker(t: Tx, rest: seq<byte>)
    requires ValidTx(t)
    ensures HasMarker((WriteTx(t) + rest)[4..]) <==> LooksSegwit(t)
  {
  }

  lemma {:induction false} WriteTxSections(t: Tx, rest: seq<byte>)
    requires ValidTx(t)
    ensures var s1 := WriteVout(t.outputs) + (PutU32(t.locktime) + rest);
      && ReadVin(WriteVin(t.inputs) + s1) == Done(t.inputs, s1)
      && ReadVout(s1) == Done(t.outputs, PutU32(t.locktime) + rest)
      && GetU32(PutU32(t.locktime) + rest) == t.locktime
  {
    VinRoundTrip(t.inputs, WriteVout(t.outputs) + (PutU32(t.locktime) + rest));
    VoutRoundTrip(t.outputs, PutU32(t.locktime) + rest);
    U32RoundTrip(t.locktime, rest);
  }

  /** Parsing undoes writing for every well-formed transaction except the ones with no input
      and one output, whose count bytes are the segwit marker. */
  lemma {:induction false} ParseUndoesWrite(t: Tx)
    requires ValidTx(t)
    ensures ParseTx(WriteTx(t)) == Some(TxParsed(t, false, [])) <==> !LooksSegwit(t)
  {
    assert WriteTx(t) + [] == WriteTx(t);
    WriteTxShape(t, []);
    WriteTxMarker(t, []);
    WriteTxSections(t, []);
  }

  lemma {:induction false} HeadIsWritten(raw: seq<byte>)
    requires |raw| >= 10
    ensures raw == PutU32(GetU32(raw)) + (if HasMarker(raw[4..]) then MARKER else []) + SkipMarker(raw[4..])
  {
    U32Bytes(raw);
    if HasMarker(raw[4..]) { assert raw[4..][..2] == MARKER; }
  }

  /** The fixed head, inputs and outputs of an accepted transaction, rewritten. */
  lemma {:induction false} SectionsAreWritten(raw: seq<byte>)
    requires ParseTx(raw).Some?
    ensures var t := ParseTx(raw).value.tx;
            var b := ReadVout(ReadVin(SkipMarker(raw[4..])).rest);
            var head := PutU32(t.version) + (if HasMarker(raw[4..]) then MARKER else []);
      && ValidTx(t) && b.Done?
      && Consumed(raw, b, head + WriteVin(t.inputs) + WriteVout(t.outputs))
  {
    var t := ParseTx(raw).value.tx;
    var head := PutU32(t.version) + (if HasMarker(raw[4..]) then MARKER else []);
    var s := SkipMarker(raw[4..]);
    HeadIsWritten(raw);
    var a := ReadVin(s);
    var b := ReadVout(a.rest);
    VinConsumed(s);
    VoutConsumed(a.rest);
    ConsumedThen(raw, Done((), s), head, a, WriteVin(t.inputs), a);
    ConsumedThen(raw, a, head + WriteVin(t.inputs), b, WriteVout(t.outputs), b);
  }

  /** What acceptance tells about the bytes: parsed values are well-formed, and rewriting
      them takes no more bytes than were read, exactly as many only for the same bytes. */
  lemma {:induction false} LegacyIsWritable(raw: seq<byte>)
    requires ParseTx(raw).Some? && !ParseTx(raw).value.segwit
    ensures var t := ParseTx(raw).value.tx;
      ValidTx(t) && |WriteTx(t)| <= |raw| && (|WriteTx(t)| == |raw| <==> WriteTx(t) == raw)
  {
    var t := ParseTx(raw).value.tx;
    var b := ReadVout(ReadVin(SkipMarker(raw[4..])).rest);
    SectionsAreWritten(raw);
    assert PutU32(t.version) + [] == PutU32(t.version);
    LockTimeIsWritten(b.rest);
  }

  lemma {:induction false} LockTimeIsWritten(s: seq<byte>)
    requires |s| == 4
    ensures PutU32(GetU32(s)) == s
  {
    U32Bytes(s);
    assert s[..4] == s;
  }

  lemma {:induction false} WitnessedIsWritable(raw: seq<byte>)
    requires ParseTx(raw).Some? && ParseTx(raw).value.segwit
    ensures var p := ParseTx(raw).value;
      && ValidWitnessed(p.tx, p.stacks)
      && |WriteWitnessTx(p.tx, p.stacks)| <= |raw|
      && (|WriteWitnessTx(p.tx, p.stacks)| == |raw| <==> WriteWitnessTx(p.tx, p.stacks) == raw)
  {
    var p := ParseTx(raw).value;
    var t := p.tx;
    var b := ReadVout(ReadVin(SkipMarker(raw[4..])).rest);
    SectionsAreWritten(raw);
    WitnessConsumed(b.rest, |t.inputs|);
    var c := ReadMany(ReadStack, b.rest, |t.inputs|);
    var w := PutU32(t.version) + MARKER + WriteVin(t.inputs) + WriteVout(t.outputs);
    ConsumedThen(raw, b, w, c, WriteMany(WriteStack, p.stacks), c);
    LockTimeIsWritten(c.rest);
  }

  /** Rewriting an accepted legacy transaction normalises it: the result reads back as the
      same transaction and is never longer; it is the input itself iff it is as long. */
  lemma {:induction false} RewriteNormalises(raw: seq<byte>)
    requires ParseTx(raw).Some? && !ParseTx(raw).value.segwit
    ensures var t := ParseTx(raw).value.tx;
      && (ParseTx(WriteTx(t)) == ParseTx(raw) <==> !LooksSegwit(t))
      && |WriteTx(t)| <= |raw|
      && (|WriteTx(t)| == |raw| <==> WriteTx(t) == raw)
  {
    LegacyIsWritable(raw);
    ParseUndoesWrite(ParseTx(raw).value.tx);
    assert ParseTx(raw).value.stacks == [];
  }

  lemma {:induction false} WitnessTail(t: Tx, w: seq<Stack>, rest: seq<byte>)
    ensures (WriteWitnessTx(t, w) + rest)[4..] ==
      MARKER + (WriteVin(t.inputs) + (WriteVout(t.outputs) + (WriteMany(WriteStack, w) + (PutU32(t.locktime) + rest))))
  {
    Assoc6(PutU32(t.version), MARKER, WriteVin(t.inputs), WriteVout(t.outputs), WriteMany(WriteStack, w), PutU32(t.locktime), rest);
    Cut(PutU32(t.version), MARKER + (WriteVin(t.inputs) + (WriteVout(t.outputs) + (WriteMany(WriteStack, w) + (PutU32(t.locktime) + rest)))));
  }

  lemma {:induction false} WitnessShape(t: Tx, w: seq<Stack>, rest: seq<byte>)
    requires ValidWitnessed(t, w)
    ensures var s3 := PutU32(t.locktime) + rest;
            var s2 := WriteMany(WriteStack, w) + s3;
            var s1 := WriteVout(t.outputs) + s2;
            var raw := WriteWitnessTx(t, w) + rest;
      && |WriteWitnessTx(t, w)| >= 10
      && raw[4..] == MARKER + (WriteVin(t.inputs) + s1)
      && GetU32(raw) == t.version
      && ReadVin(WriteVin(t.inputs) + s1) == Done(t.inputs, s1)
      && ReadVout(s1) == Done(t.outputs, s2)
      && ReadMany(ReadStack, s2, |t.inputs|) == Done(w, s3)
      && GetU32(s3) == t.locktime
  {
    var s3 := PutU32(t.locktime) + rest;
    var s2 := WriteMany(WriteStack, w) + s3;
    var s1 := WriteVout(t.outputs) + s2;
    var raw := WriteWitnessTx(t, w) + rest;
    Assoc6(PutU32(t.version), MARKER, WriteVin(t.inputs), WriteVout(t.outputs), WriteMany(WriteStack, w), PutU32(t.locktime), rest);
    Cut(PutU32(t.version), MARKER + (WriteVin(t.inputs) + s1));
    U32RoundTrip(t.version, MARKER + (WriteVin(t.inputs) + s1));
    VinRoundTrip(t.inputs, s1);
    VoutRoundTrip(t.outputs, s2);
    WitnessRoundTrip(w, s3);
    U32RoundTrip(t.locktime, rest);
  }

  /** BIP 144 form: parsing recovers the fields and the witness with no exception; the txid
      bytes are the stripped form; BIP 141 weight counts base bytes four times and marker,
      flag and witness bytes once; the virtual size is the weight over four, rounded up. */
  lemma {:induction false} WitnessFormLaws(t: Tx, w: seq<Stack>)
    requires ValidWitnessed(t, w)
    ensures var raw := WriteWitnessTx(t, w);
            var p := TxParsed(t, true, w);
      && ParseTx(raw) == Some(p)
      && |raw| == |WriteTx(t)| + 2 + |WriteMany(WriteStack, w)|
      && Weight(p, |raw|) == 4 * |WriteTx(t)| + 2 + |WriteMany(WriteStack, w)|
      && 4 * (Vsize(p, |raw|) - 1) < Weight(p, |raw|) <= 4 * Vsize(p, |raw|)
  {
    var raw := WriteWitnessTx(t, w);
    assert raw + [] == raw;
    WitnessShape(t, w, []);
    assert SkipMarker(raw[4..]) == raw[4..][2..];
    assert raw[4..][2..] == WriteVin(t.inputs) + (WriteVout(t.outputs) + (WriteMany(WriteStack, w) + (PutU32(t.locktime) + [])));
  }

  /** A legacy transaction weighs four times its length. */
  lemma {:induction false} LegacyWeight(t: Tx)
    requires ValidTx(t)
    ensures Weight(TxParsed(t, false, []), |WriteTx(t)|) == 4 * |WriteTx(t)|
    ensures Vsize(TxParsed(t, false, []), |WriteTx(t)|) == |WriteTx(t)|
  {
  }

  /** On every byte string the full parser accepts, the partial parsers return its parts;
      the base parser accepts exactly the legacy ones. */
  lemma {:induction false} PartialParsersAgree(raw: seq<byte>)
    requires ParseTx(raw).Some?
    ensures var p := ParseTx(raw).value;
      && ParseInputs(raw) == Some(p.tx.inputs)
      && ParseOutputs(raw) == Some(p.tx.outputs)
      && ParseBase(raw) == (if p.segwit then None else Some(p.tx))
      && (!p.segwit ==> ParseLegacyOutputs(raw) == Some(p.tx.outputs))
  {
  }

  lemma {:induction false} HeadExtends(raw: seq<byte>, more: seq<byte>)
    requires |raw| >= 10
    ensures SkipMarker((raw + more)[4..]) == SkipMarker(raw[4..]) + more && HasMarker((raw + more)[4..]) == HasMarker(raw[4..])
    ensures GetU32(raw + more) == GetU32(raw)
  {
    assert (raw + more)[4..] == raw[4..] + more;
    assert (raw[4..] + more)[2..] == raw[4..][2..] + more;
    SameU32(raw + more, raw);
  }

  lemma {:induction false} SectionsExtend(raw: seq<byte>, more: seq<byte>)
    requires ParseTx(raw).Some?
    ensures var s, t := SkipMarker(raw[4..]), SkipMarker((raw + more)[4..]);
            var a := ReadVin(s);
            var b := ReadVout(a.rest);
      && ReadVin(t) == Done(a.value, a.rest + more)
      && ReadVout(a.rest + more) == Done(b.value, b.rest + more)
      && (HasMarker(raw[4..]) ==>
            ReadMany(ReadStack, b.rest + more, |a.value|) == Done(ReadMany(ReadStack, b.rest, |a.value|).value, ReadMany(ReadStack, b.rest, |a.value|).rest + more))
  {
    var s := SkipMarker(raw[4..]);
    HeadExtends(raw, more);
    InExtends();
    ListExtends(ReadIn, s, more);
    var a := ReadVin(s);
    OutExtends();
    ListExtends(ReadOut, a.rest, more);
    var b := ReadVout(a.rest);
    if HasMarker(raw[4..]) {
      StackExtends();
      ManyExtends(ReadStack, b.rest, |a.value|, more);
    }
  }

  /** What is accepted whole is refused with anything after it, while the parsers that stop early
      read the same from it. */
  lemma {:induction false} NothingMayFollow(raw: seq<byte>, more: seq<byte>)
    requires ParseTx(raw).Some? && more != []
    ensures ParseTx(raw + more) == None
    ensures ParseInputs(raw + more) == ParseInputs(raw) && ParseOutputs(raw + more) == ParseOutputs(raw)
    ensures ParseBase(raw + more) == ParseBase(raw)
    ensures !HasMarker(raw[4..]) ==> ParseLegacyOutputs(raw + more) == ParseLegacyOutputs(raw)
  {
    hide ReadVin, ReadVout, ReadMany, HasMarker, GetU32;
    HeadExtends(raw, more);
    SectionsExtend(raw, more);
    var b := ReadVout(ReadVin(SkipMarker(raw[4..])).rest);
    if !HasMarker(raw[4..]) { SameU32(b.rest + more, b.rest); }
  }

  /** The base parser and the output walk read a written transaction back whatever follows it. */
  lemma {:induction false} PrefixParsersReadBack(t: Tx, rest: seq<byte>)
    requires ValidTx(t) && !LooksSegwit(t)
    ensures ParseBase(WriteTx(t) + rest) == Some(t)
    ensures ParseInputs(WriteTx(t) + rest) == Some(t.inputs)
    ensures ParseOutputs(WriteTx(t) + rest) == Some(t.outputs)
    ensures ParseLegacyOutputs(WriteTx(t) + rest) == Some(t.outputs)
  {
    WriteTxShape(t, rest);
    WriteTxMarker(t, rest);
    WriteTxSections(t, rest);
  }

  /** Two well-formed transactions with the same bytes are the same transaction, with no
      exception: the section readers never look at the marker. */
  lemma {:induction false} WriteTxInjective(t: Tx, u: Tx)
    requires ValidTx(t) && ValidTx(u)
    requires WriteTx(t) == WriteTx(u)
    ensures t == u
  {
    assert WriteTx(t) + [] == WriteTx(u) + [];
    WriteTxShape(t, []);
    WriteTxShape(u, []);
    WriteTxSections(t, []);
    WriteTxSections(u, []);
  }

  /** The count and the inputs of a written input section, read one after the other. */
  lemma {:induction false} VinAsMany(ins: seq<TxIn>, rest: seq<byte>)
    requires ValidIns(ins)
    ensures var s := WriteMany(WriteIn, ins) + rest;
      && ReadVarInt(WriteVin(ins) + rest) == Done(|ins|, s)
      && ReadMany(ReadIn, s, |ins|) == Done(ins, rest)
  {
    var s := WriteMany(WriteIn, ins) + rest;
    Assoc3(WriteVarInt(|ins|), WriteMany(WriteIn, ins), rest);
    VarIntRoundTrip(|ins|, s);
    VinRoundTrip(ins, rest);
  }

  lemma {:induction false} WireBody(t: Tx, w: seq<Stack>, flags: byte, rest: seq<byte>)
    requires flags <= 1 && ValidWitnessed(t, w)
    ensures var s2 := (if flags == 1 then WriteMany(WriteStack, w) else []) + (PutU32(t.locktime) + rest);
      ReadWireBody(WriteMany(WriteIn, t.inputs) + (WriteVout(t.outputs) + s2), |t.inputs|, flags) == Done((), rest)
  {
    var s3 := PutU32(t.locktime) + rest;
    var s2 := (if flags == 1 then WriteMany(WriteStack, w) else []) + s3;
    VinAsMany(t.inputs, WriteVout(t.outputs) + s2);
    VoutRoundTrip(t.outputs, s2);
    WitnessRoundTrip(w, s3);
    if flags == 0 { assert s2 == s3; }
    Cut(PutU32(t.locktime), rest);
  }

  lemma {:induction false} WireLenFrom(w: seq<byte>, rest: seq<byte>)
    requires ReadWire(w + rest) == Done((), rest)
    ensures WireLen(w + rest) == Some(|w|)
  {
  }

  /** The measured length is exactly the transaction's, whatever bytes follow it. */
  lemma {:induction false} WireLenOfLegacy(t: Tx, rest: seq<byte>)
    requires ValidTx(t) && |t.inputs| > 0
    ensures WireLen(WriteTx(t) + rest) == Some(|WriteTx(t)|)
  {
    var raw := WriteTx(t) + rest;
    var s2 := PutU32(t.locktime) + rest;
    WriteTxShape(t, rest);
    VinAsMany(t.inputs, WriteVout(t.outputs) + s2);
    WireBody(t, seq(|t.inputs|, i => []), 0, rest);
    assert [] + s2 == s2;
    WireLenFrom(WriteTx(t), rest);
  }

  /** Without inputs the count is followed by a flags byte of its own: such a text, one byte longer
      than the legacy form, is measured in full. */
  lemma {:induction false} WireLenOfNoInputs(version: u32, outs: seq<TxOut>, locktime: u32, rest: seq<byte>)
    requires ValidOuts(outs)
    ensures var raw := PutU32(version) + ([0, 0] + (WriteVout(outs) + PutU32(locktime))); WireLen(raw + rest) == Some(|raw|)
  {
    hide ReadWireBody;
    var body := WriteVout(outs) + (PutU32(locktime) + rest);
    var raw := PutU32(version) + ([0, 0] + (WriteVout(outs) + PutU32(locktime)));
    assert raw + rest == PutU32(version) + ([0, 0] + body);
    Cut(PutU32(version), [0, 0] + body);
    assert ReadWireHead([0, 0] + body) == Done((0, 0), body) by {
      assert ([0, 0] + body)[1..] == [0] + body && ([0] + body)[1..] == body;
    }
    NoInputsBody(outs, locktime, rest);
    WireLenFrom(raw, rest);
  }

  /** Any other flags are refused, as is a text that ends before them. */
  lemma {:induction false} WireFlagsRefused(version: u32, flags: byte, body: seq<byte>)
    requires flags >= 2
    ensures WireLen(PutU32(version) + ([0, flags] + body)) == None && WireLen(PutU32(version) + [0]) == None
  {
    hide ReadMany, ReadVout;
    Cut(PutU32(version), [0, flags] + body);
    Cut(PutU32(version), [0]);
    var s: seq<byte> := [0, flags] + body;
    assert s[1..] == [flags] + body && s[1..][0] == flags;
    var end: seq<byte> := [0];
    assert end[1..] == [];
  }

  lemma {:induction false} NoInputsBody(outs: seq<TxOut>, locktime: u32, rest: seq<byte>)
    requires ValidOuts(outs)
    ensures ReadWireBody(WriteVout(outs) + (PutU32(locktime) + rest), 0, 0) == Done((), rest)
  {
    VoutRoundTrip(outs, PutU32(locktime) + rest);
    Cut(PutU32(locktime), rest);
  }

  lemma {:induction false} WireAfterMarker(raw: seq<byte>, vin: seq<byte>)
    requires |raw| >= 4 && raw[4..] == MARKER + vin
    ensures ReadWire(raw) == match ReadVarInt(vin) { case Short => Short case Done(n, s) => ReadWireBody(s, n, 1) }
  {
  }

  lemma {:induction false} WireOfWitness(raw: seq<byte>, t: Tx, w: seq<Stack>, rest: seq<byte>)
    requires ValidWitnessed(t, w) && |raw| >= 4
    requires raw[4..] == MARKER + (WriteVin(t.inputs) + (WriteVout(t.outputs) + (WriteMany(WriteStack, w) + (PutU32(t.locktime) + rest))))
    ensures ReadWire(raw) == Done((), rest)
  {
    var s1 := WriteVout(t.outputs) + (WriteMany(WriteStack, w) + (PutU32(t.locktime) + rest));
    WireAfterMarker(raw, WriteVin(t.inputs) + s1);
    VinAsMany(t.inputs, s1);
    WireBody(t, w, 1, rest);
  }

  lemma {:induction false} WireLenOfWitness(t: Tx, w: seq<Stack>, rest: seq<byte>)
    requires ValidWitnessed(t, w)
    ensures WireLen(WriteWitnessTx(t, w) + rest) == Some(|WriteWitnessTx(t, w)|)
  {
    var bytes := WriteWitnessTx(t, w);
    WitnessTail(t, w, rest);
    WireOfWitness(bytes + rest, t, w, rest);
    WireLenFrom(bytes, rest);
  }

  // ---- an accepted text that does not survive rewriting ----

  /** No input, its count written in three bytes, and one empty output. */
  const LONG_COUNT: seq<byte> :=
    [1, 0, 0, 0] + ([0xfd, 0, 0] + ([1] + [0, 0, 0, 0, 0, 0, 0, 0, 0] + [0, 0, 0, 0]))

  /** The text is accepted as a legacy transaction; written again, it is not read as one. */
  lemma {:induction false} LongCountIsAccepted()
    ensures var t := Tx(1, [], [TxOut(0, [])], 0);
      && ParseTx(LONG_COUNT) == Some(TxParsed(t, false, [])) && ParseTx(WriteTx(t)) != Some(TxParsed(t, false, []))
  {
    var t := Tx(1, [], [TxOut(0, [])], 0);
    var rest := WriteVout(t.outputs) + PutU32(0);
    LongCountSections();
    VoutRoundTrip(t.outputs, PutU32(0));
    LongCountParses(LONG_COUNT, rest);
    ParseUndoesWrite(t);
  }

  lemma {:induction false} EmptyOutput()
    ensures WriteVout([TxOut(0, [])]) == [1] + [0, 0, 0, 0, 0, 0, 0, 0, 0]
  {
    var o := TxOut(0, []);
    assert [o][1..] == [];
    assert WriteMany(WriteOut, [o]) == WriteOut(o) + [];
    assert WriteOut(o) == [0, 0, 0, 0, 0, 0, 0, 0, 0];
  }

  lemma {:induction false} LongCountSections()
    ensures LONG_COUNT[4..] == [0xfd, 0, 0] + (WriteVout([TxOut(0, [])]) + PutU32(0)) && GetU32(LONG_COUNT) == 1
  {
    hide WriteVout, GetU32;
    var rest: seq<byte> := [0xfd, 0, 0] + ([1] + [0, 0, 0, 0, 0, 0, 0, 0, 0] + [0, 0, 0, 0]);
    EmptyOutput();
    assert PutU32(0) == [0, 0, 0, 0] && PutU32(1) == [1, 0, 0, 0];
    Cut(PutU32(1), rest);
    U32RoundTrip(1, rest);
  }

  lemma {:induction false} LongCountParses(raw: seq<byte>, rest: seq<byte>)
    requires |raw| >= 10 && raw[4..] == [0xfd, 0, 0] + rest && GetU32(raw) == 1
    requires ReadVout(rest) == Done([TxOut(0, [])], PutU32(0))
    ensures ParseTx(raw) == Some(TxParsed(Tx(1, [], [TxOut(0, [])], 0), false, []))
  {
    hide ReadVout;
    var s := raw[4..];
    assert s[1..][0] == 0 && s[1..][1] == 0 && s[3..] == rest;
    assert ReadVarInt(s) == Done(0, rest);
    assert PutU32(0) == [0, 0, 0, 0];
  }
}
