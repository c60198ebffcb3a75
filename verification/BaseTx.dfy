/** TX_BASE: the transaction a PQ signature was made over, rebuilt by the explorer from the
    carrier-extended TX_C and the TX_R that spends its carriers. */
module BaseTx {
  import opened Bytes
  import opened Wire
  import opened TxCodec
  import TxDecode

  const FLC1: seq<byte> := [0x46, 0x4c, 0x43, 0x31]
  const DIL2: seq<byte> := [0x44, 0x49, 0x4c, 0x32]
  const RCG4: seq<byte> := [0x52, 0x43, 0x47, 0x34]

  // ---- commitments ----

  datatype Commitment = Commitment(tag: seq<byte>, digest: seq<byte>)

  /** `parseCanonicalPQCommitment`: OP_RETURN, a 36-byte push, a known tag, 32 bytes. */
  function ParseCommitment(script: seq<byte>): Option<Commitment> {
    if |script| != 38 || script[0] != 0x6a || script[1] != 0x24 then None else
    var tag := script[2..6];
    if tag == FLC1 || tag == DIL2 || tag == RCG4 then Some(Commitment(tag, script[6..])) else None
  }

  function CommitmentScript(tag: seq<byte>, digest: seq<byte>): seq<byte> { [0x6a, 0x24] + tag + digest }

  /** Exactly the scripts that the writer makes of a known tag and 32 bytes are commitments. */
  lemma {:induction false} ParseCommitmentIff(script: seq<byte>, c: Commitment)
    ensures ParseCommitment(script) == Some(c) <==>
      (c.tag == FLC1 || c.tag == DIL2 || c.tag == RCG4) && |c.digest| == 32 && script == [0x6a, 0x24] + c.tag + c.digest
  {
    if |script| == 38 { assert script == script[..2] + script[2..6] + script[6..]; }
    if c.tag == FLC1 || c.tag == DIL2 || c.tag == RCG4 { CommitmentRoundTrip(c.tag, c.digest); }
  }

  lemma {:induction false} CommitmentRoundTrip(tag: seq<byte>, digest: seq<byte>)
    requires tag == FLC1 || tag == DIL2 || tag == RCG4
    ensures ParseCommitment(CommitmentScript(tag, digest)) == if |digest| == 32 then Some(Commitment(tag, digest)) else None
  {
  }

  predicate Commits(script: seq<byte>, digest: seq<byte>) {
    ParseCommitment(script) == Some(Commitment(FLC1, digest))
  }

  /** Only the Falcon commitment to the digest is taken out again. */
  lemma {:induction false} CommitsIff(script: seq<byte>, digest: seq<byte>)
    ensures Commits(script, digest) <==> |digest| == 32 && script == [0x6a, 0x24, 0x46, 0x4c, 0x43, 0x31] + digest
  {
    ParseCommitmentIff(script, Commitment(FLC1, digest));
    assert [0x6a, 0x24] + FLC1 == [0x6a, 0x24, 0x46, 0x4c, 0x43, 0x31];
  }

  // ---- reconstruction ----

  function Txid(sha256: seq<byte> -> seq<byte>, raw: seq<byte>): seq<byte> { Reverse(sha256(sha256(raw))) }

  /** Output positions of the transaction with the given txid that the first n inputs spend. */
  function SpentVouts(ins: seq<TxIn>, n: nat, txid: seq<byte>): set<u32>
    requires n <= |ins|
  {
    set k | 0 <= k < n && Reverse(ins[k].prevTxid) == txid :: ins[k].prevVout
  }

  /** Value those inputs bring back, counted once for every input. */
  function Restored(ins: seq<TxIn>, n: nat, txid: seq<byte>, outs: seq<TxOut>): int
    requires n <= |ins|
  {
    if n == 0 then 0 else
    Restored(ins, n - 1, txid, outs)
    + if Reverse(ins[n - 1].prevTxid) == txid && ins[n - 1].prevVout < |outs| then outs[ins[n - 1].prevVout].value else 0
  }

  predicate Removed(outs: seq<TxOut>, i: nat, spent: set<u32>, digest: seq<byte>)
    requires i < |outs|
  {
    (i % 0x1_0000_0000) in spent || Commits(outs[i].script, digest)
  }

  function Kept(outs: seq<TxOut>, n: nat, spent: set<u32>, digest: seq<byte>): seq<TxOut>
    requires n <= |outs|
  {
    if n == 0 then [] else
    Kept(outs, n - 1, spent, digest) + if Removed(outs, n - 1, spent, digest) then [] else [outs[n - 1]]
  }

  /** The sum wraps as a 64-bit signed value. */
  function AddToFirst(outs: seq<TxOut>, amount: int): (r: seq<TxOut>)
    requires |outs| > 0
    ensures |r| == |outs|
  {
    outs[0 := outs[0].(value := Signed64(Word64(outs[0].value + amount)))]
  }

  function Rebuild(txc: Tx, txid: seq<byte>, ins: seq<TxIn>, digest: seq<byte>): Option<Tx> {
    var spent := SpentVouts(ins, |ins|, txid);
    var kept := Kept(txc.outputs, |txc.outputs|, spent, digest);
    if spent == {} || kept == [] then None
    else Some(txc.(outputs := AddToFirst(kept, Restored(ins, |ins|, txid, txc.outputs))))
  }

  function ReconstructBase(sha256: seq<byte> -> seq<byte>, rawC: seq<byte>, rawR: seq<byte>, digest: seq<byte>): Option<seq<byte>> {
    match ParseBase(rawC)
    case None => None
    case Some(txc) =>
      match ParseInputs(rawR)
      case None => None
      case Some(ins) =>
        match Rebuild(txc, Txid(sha256, rawC), ins, digest)
        case None => None
        case Some(base) => Some(WriteTx(base))
  }

  /** What is kept: exactly the outputs that no input names and that do not commit to the digest,
      in their order. */
  lemma {:induction false} KeptAre(outs: seq<TxOut>, n: nat, spent: set<u32>, digest: seq<byte>) returns (pos: seq<nat>)
    requires n <= |outs| <= 0x1_0000_0000
    ensures |pos| == |Kept(outs, n, spent, digest)| && forall j | 0 <= j < |pos| :: pos[j] < n && Kept(outs, n, spent, digest)[j] == outs[pos[j]]
    ensures forall i, j | 0 <= i < j < |pos| :: pos[i] < pos[j]
    ensures forall i: nat | i < n :: i in pos <==>
      i !in spent && !(|digest| == 32 && outs[i].script == [0x6a, 0x24, 0x46, 0x4c, 0x43, 0x31] + digest)
  {
    hide Removed;
    pos := [];
    if n > 0 {
      pos := KeptAre(outs, n - 1, spent, digest);
      RemovedIff(outs, n - 1, spent, digest);
      if !Removed(outs, n - 1, spent, digest) { pos := pos + [n - 1]; }
    }
  }

  lemma {:induction false} RemovedIff(outs: seq<TxOut>, i: nat, spent: set<u32>, digest: seq<byte>)
    requires i < |outs| <= 0x1_0000_0000
    ensures Removed(outs, i, spent, digest) <==>
      i in spent || (|digest| == 32 && outs[i].script == [0x6a, 0x24, 0x46, 0x4c, 0x43, 0x31] + digest)
  {
    hide Commits;
    CommitsIff(outs[i].script, digest);
  }

  /** Rebuilding fails exactly when no input names the transaction or nothing is kept; else only
      output values change, and only that of the first. */
  lemma {:induction false} RebuildFailsIff(txc: Tx, txid: seq<byte>, ins: seq<TxIn>, digest: seq<byte>)
    ensures var spent := SpentVouts(ins, |ins|, txid);
            var kept := Kept(txc.outputs, |txc.outputs|, spent, digest);
            var r := Rebuild(txc, txid, ins, digest);
      && (r == None <==> kept == [] || forall k | 0 <= k < |ins| :: Reverse(ins[k].prevTxid) != txid)
      && (r.Some? ==> r.value == txc.(outputs := r.value.outputs) && r.value.outputs[1..] == kept[1..] && r.value.outputs[0].script == kept[0].script)
  {
    hide Kept, Restored;
    var spent := SpentVouts(ins, |ins|, txid);
    if k :| 0 <= k < |ins| && Reverse(ins[k].prevTxid) == txid { assert ins[k].prevVout in spent; }
  }

  method CollectSpent(ins: seq<TxIn>, txid: seq<byte>, outs: seq<TxOut>) returns (spent: set<u32>, restored: int)
    ensures spent == SpentVouts(ins, |ins|, txid) && restored == Restored(ins, |ins|, txid, outs)
  {
    spent, restored := {}, 0;
    for k := 0 to |ins|
      invariant spent == SpentVouts(ins, k, txid) && restored == Restored(ins, k, txid, outs)
    {
      if Reverse(ins[k].prevTxid) != txid { continue; }
      spent := spent + {ins[k].prevVout};
      if ins[k].prevVout < |outs| { restored := restored + outs[ins[k].prevVout].value; }
    }
  }

  method FilterOutputs(outs: seq<TxOut>, spent: set<u32>, digest: seq<byte>) returns (kept: seq<TxOut>)
    ensures kept == Kept(outs, |outs|, spent, digest)
  {
    kept := [];
    for i := 0 to |outs|
      invariant kept == Kept(outs, i, spent, digest)
    {
      if (i % 0x1_0000_0000) in spent { continue; }
      var c := ParseCommitment(outs[i].script);
      if c.Some? && c.value.digest == digest && c.value.tag == FLC1 { continue; }
      kept := kept + [outs[i]];
    }
  }

  method ReconstructBaseTxContext(sha256: seq<byte> -> seq<byte>, rawC: seq<byte>, rawR: seq<byte>, digest: seq<byte>)
    returns (r: Option<seq<byte>>)
    ensures r == ReconstructBase(sha256, rawC, rawR, digest)
  {
    var txc := TxDecode.ParseRawTxForBase(rawC);
    if txc == None { return None; }
    ParsedBaseIsValid(rawC);
    var ins := TxDecode.ParseTxInputs(rawR);
    if ins == None { return None; }
    var txid := TxDecode.TxidFromRaw(sha256, rawC);
    var base := RebuildTx(txc.value, txid, ins.value, digest);
    if base == None { return None; }
    var raw := TxDecode.SerializeParsedTxBase(base.value);
    if |raw| == 0 { return None; }
    return Some(raw);
  }

  method RebuildTx(txc: Tx, txid: seq<byte>, ins: seq<TxIn>, digest: seq<byte>) returns (r: Option<Tx>)
    ensures r == Rebuild(txc, txid, ins, digest)
  {
    var spent, restored := CollectSpent(ins, txid, txc.outputs);
    if spent == {} { return None; }
    var outsBase := FilterOutputs(txc.outputs, spent, digest);
    if |outsBase| == 0 { return None; }
    outsBase := outsBase[0 := outsBase[0].(value := Signed64(Word64(outsBase[0].value + restored)))];
    return Some(txc.(outputs := outsBase));
  }

  lemma {:induction false} ParsedBaseIsValid(raw: seq<byte>)
    requires ParseBase(raw).Some?
    ensures ValidTx(ParseBase(raw).value)
  {
    VinConsumed(raw[4..]);
    VoutConsumed(ReadVin(raw[4..]).rest);
  }

  // ---- value is conserved ----

  function TotalOut(outs: seq<TxOut>): int { if outs == [] then 0 else outs[0].value + TotalOut(outs[1..]) }

  lemma {:induction false} TotalOutAppend(a: seq<TxOut>, b: seq<TxOut>)
    ensures TotalOut(a + b) == TotalOut(a) + TotalOut(b)
  {
    if a == [] {
      assert a + b == b;
    } else {
      TotalOutAppend(a[1..], b);
      assert (a + b)[1..] == a[1..] + b;
    }
  }

  lemma {:induction false} TotalOutLast(a: seq<TxOut>, o: TxOut)
    ensures TotalOut(a + [o]) == TotalOut(a) + o.value
  {
    TotalOutAppend(a, [o]);
    assert TotalOut([o]) == o.value + TotalOut([o][1..]);
  }

  /** Value of the spent outputs among the first n. */
  function SpentValue(outs: seq<TxOut>, n: nat, spent: set<u32>): int
    requires n <= |outs|
  {
    if n == 0 then 0 else
    SpentValue(outs, n - 1, spent) + if ((n - 1) % 0x1_0000_0000) in spent then outs[n - 1].value else 0
  }

  /** Value of the unspent matching commitments among the first n outputs. */
  function DroppedCommitments(outs: seq<TxOut>, n: nat, spent: set<u32>, digest: seq<byte>): int
    requires n <= |outs|
  {
    if n == 0 then 0 else
    DroppedCommitments(outs, n - 1, spent, digest)
    + if ((n - 1) % 0x1_0000_0000) !in spent && Commits(outs[n - 1].script, digest) then outs[n - 1].value else 0
  }

  lemma {:induction false} OutputsSplit(outs: seq<TxOut>, n: nat, spent: set<u32>, digest: seq<byte>)
    requires n <= |outs|
    ensures TotalOut(outs[..n]) ==
      TotalOut(Kept(outs, n, spent, digest)) + SpentValue(outs, n, spent) + DroppedCommitments(outs, n, spent, digest)
  {
    if n > 0 {
      OutputsSplit(outs, n - 1, spent, digest);
      TotalOutLast(outs[..n - 1], outs[n - 1]);
      assert outs[..n] == outs[..n - 1] + [outs[n - 1]];
      TotalOutLast(Kept(outs, n - 1, spent, digest), outs[n - 1]);
      assert Kept(outs, n - 1, spent, digest) + [] == Kept(outs, n - 1, spent, digest);
    }
  }

  lemma {:induction false} SpendOneMoreVout(outs: seq<TxOut>, n: nat, spent: set<u32>, v: u32)
    requires n <= |outs| <= 0x1_0000_0000 && v !in spent
    ensures SpentValue(outs, n, spent + {v}) == SpentValue(outs, n, spent) + if v < n then outs[v].value else 0
  {
    if n > 0 { SpendOneMoreVout(outs, n - 1, spent, v); }
  }

  lemma {:induction false} NothingSpent(outs: seq<TxOut>, n: nat)
    requires n <= |outs|
    ensures SpentValue(outs, n, {}) == 0
  {
    if n > 0 { NothingSpent(outs, n - 1); }
  }

  /** No two inputs spend the same output of the transaction. */
  predicate SpendsOnce(ins: seq<TxIn>, txid: seq<byte>) {
    forall i, j | 0 <= i < j < |ins| && Reverse(ins[i].prevTxid) == txid && Reverse(ins[j].prevTxid) == txid ::
      ins[i].prevVout != ins[j].prevVout
  }

  function SpendOf(txid: seq<byte>, vout: u32): TxIn { TxIn(Reverse(txid), vout, [], 0) }

  /** Value of the outputs that inputs name again after an earlier input has named them. */
  function Repeated(ins: seq<TxIn>, n: nat, txid: seq<byte>, outs: seq<TxOut>): int
    requires n <= |ins|
  {
    if n == 0 then 0 else
    var i := ins[n - 1];
    Repeated(ins, n - 1, txid, outs)
    + if Reverse(i.prevTxid) == txid && i.prevVout in SpentVouts(ins, n - 1, txid) && i.prevVout < |outs|
      then outs[i.prevVout].value else 0
  }

  lemma {:induction false} RestoredIsSpent(ins: seq<TxIn>, n: nat, txid: seq<byte>, outs: seq<TxOut>)
    requires n <= |ins| && |outs| <= 0x1_0000_0000
    ensures Restored(ins, n, txid, outs) == SpentValue(outs, |outs|, SpentVouts(ins, n, txid)) + Repeated(ins, n, txid, outs)
  {
    if n == 0 {
      assert SpentVouts(ins, 0, txid) == {};
      NothingSpent(outs, |outs|);
    } else {
      RestoredIsSpent(ins, n - 1, txid, outs);
      var spent, v := SpentVouts(ins, n - 1, txid), ins[n - 1].prevVout;
      if Reverse(ins[n - 1].prevTxid) == txid {
        assert SpentVouts(ins, n, txid) == spent + {v};
        if v in spent { assert spent + {v} == spent; } else { SpendOneMoreVout(outs, |outs|, spent, v); }
      } else {
        assert SpentVouts(ins, n, txid) == spent;
      }
    }
  }

  lemma {:induction false} NothingRepeated(ins: seq<TxIn>, n: nat, txid: seq<byte>, outs: seq<TxOut>)
    requires n <= |ins| && SpendsOnce(ins, txid)
    ensures Repeated(ins, n, txid, outs) == 0
  {
    if n > 0 { NothingRepeated(ins, n - 1, txid, outs); }
  }

  /** Rebuilding moves value between outputs, loses what unspent matching commitments held and
      gains what inputs name again, as 64-bit words: nothing is gained exactly when that is a
      multiple of 2^64, as it is when no output is named twice. */
  lemma {:induction false} RebuildConserves(txc: Tx, txid: seq<byte>, ins: seq<TxIn>, digest: seq<byte>)
    requires |txc.outputs| <= 0x1_0000_0000 && Rebuild(txc, txid, ins, digest).Some?
    ensures var total := TotalOut(Rebuild(txc, txid, ins, digest).value.outputs);
            var due := TotalOut(txc.outputs) - DroppedCommitments(txc.outputs, |txc.outputs|, SpentVouts(ins, |ins|, txid), digest);
            var again := Repeated(ins, |ins|, txid, txc.outputs);
      && Word64(total) == Word64(due + again)
      && (Word64(total) == Word64(due) <==> Word64(again) == 0)
      && (SpendsOnce(ins, txid) ==> again == 0)
  {
    hide SpentVouts, Kept, Restored, SpentValue, DroppedCommitments, Repeated, SpendsOnce, Word64, Signed64;
    var outs := txc.outputs;
    var spent := SpentVouts(ins, |ins|, txid);
    var kept := Kept(outs, |outs|, spent, digest);
    var amount := Restored(ins, |ins|, txid, outs);
    OutputsSplit(outs, |outs|, spent, digest);
    assert outs[..|outs|] == outs;
    RestoredIsSpent(ins, |ins|, txid, outs);
    var first := kept[0].value + amount;
    assert AddToFirst(kept, amount)[1..] == kept[1..];
    SignedRoundTrip(0, Word64(first));
    SameWord(first, Signed64(Word64(first)), TotalOut(kept[1..]));
    SameWordIff(TotalOut(outs) - DroppedCommitments(outs, |outs|, spent, digest), Repeated(ins, |ins|, txid, outs));
    if SpendsOnce(ins, txid) { NothingRepeated(ins, |ins|, txid, outs); }
  }

  lemma {:induction false} SameWordIff(a: int, b: int)
    ensures Word64(a + b) == Word64(a) <==> Word64(b) == 0
  {
  }

  /** A TX_R that names a carrier twice gives its value back twice. */
  lemma {:induction false} NamedTwiceGainsValue(txid: seq<byte>, digest: seq<byte>)
    requires |txid| == 32
    ensures var txc := Tx(1, [], [TxOut(600, []), TxOut(400, [])], 0);
            var r := Rebuild(txc, txid, [SpendOf(txid, 1), SpendOf(txid, 1)], digest);
      r.Some? && TotalOut(txc.outputs) == 1000 && TotalOut(r.value.outputs) == 1400
  {
    var outs := [TxOut(600, []), TxOut(400, [])];
    var ins := [SpendOf(txid, 1), SpendOf(txid, 1)];
    ReverseTwice(txid);
    assert SpentVouts(ins, 2, txid) == {1} by { assert Reverse(ins[0].prevTxid) == txid; }
    assert Restored(ins, 1, txid, outs) == 400 && Restored(ins, 2, txid, outs) == 800;
    assert Kept(outs, 1, {1}, digest) == [outs[0]] && Kept(outs, 2, {1}, digest) == [outs[0]];
    TotalOutAppend([outs[0]], [outs[1]]);
    assert outs == [outs[0]] + [outs[1]] && [outs[0]][1..] == [] && [outs[1]][1..] == [];
    assert AddToFirst([outs[0]], 800) == [TxOut(1400, [])] && [TxOut(1400, [])][1..] == [];
  }

  lemma {:induction false} SameWord(a: int, b: int, c: int)
    requires Word64(a) == Word64(b)
    ensures Word64(a + c) == Word64(b + c)
  {
  }

  // ---- reconstruction inverts the carrier extension ----

  /** The carrier extension: a commitment and the carriers are appended, and the carriers' value
      is taken from output 0, wrapping as a 64-bit signed value. */
  function Extend(base: Tx, digest: seq<byte>, carriers: seq<TxOut>): Tx {
    var outs := base.outputs + [TxOut(0, CommitmentScript(FLC1, digest))] + carriers;
    base.(outputs := outs[0 := outs[0].(value := Signed64(Word64(outs[0].value - TotalOut(carriers))))])
  }

  /** The value of output 0 once the commitment is appended. */
  function FirstValue(base: Tx): i64 { if base.outputs == [] then 0 else base.outputs[0].value }

  lemma {:induction false} ExtensionFront(base: Tx, digest: seq<byte>, carriers: seq<TxOut>)
    ensures var commitment := [TxOut(0, CommitmentScript(FLC1, digest))];
            var front := base.outputs + commitment;
            var first := front[0].(value := Signed64(Word64(front[0].value - TotalOut(carriers))));
      && Extend(base, digest, carriers).outputs == [first] + front[1..] + carriers
  {
    hide CommitmentScript, Signed64, Word64, TotalOut;
    var commitment := [TxOut(0, CommitmentScript(FLC1, digest))];
    assert (base.outputs + commitment + carriers)[1..] == (base.outputs + commitment)[1..] + carriers;
  }

  lemma {:induction false} FrontTotal(base: Tx, digest: seq<byte>)
    ensures var front := base.outputs + [TxOut(0, CommitmentScript(FLC1, digest))];
      front[0].value == FirstValue(base) && TotalOut(front) == TotalOut(base.outputs)
  {
    hide CommitmentScript;
    TotalOutLast(base.outputs, TxOut(0, CommitmentScript(FLC1, digest)));
  }

  /** The extension moves value between outputs and keeps their total as a 64-bit word; it keeps
      the total itself exactly when output 0 does not wrap. */
  lemma {:induction false} ExtendKeepsTotal(base: Tx, digest: seq<byte>, carriers: seq<TxOut>)
    ensures var total := TotalOut(Extend(base, digest, carriers).outputs);
      && Word64(total) == Word64(TotalOut(base.outputs))
      && (total == TotalOut(base.outputs)
          <==> -0x8000_0000_0000_0000 <= FirstValue(base) - TotalOut(carriers) < 0x8000_0000_0000_0000)
  {
    var front := base.outputs + [TxOut(0, CommitmentScript(FLC1, digest))];
    var left := FirstValue(base) - TotalOut(carriers);
    var first := front[0].(value := Signed64(Word64(left)));
    ExtensionFront(base, digest, carriers);
    FrontTotal(base, digest);
    TotalOutAppend([first] + front[1..], carriers);
    assert ([first] + front[1..])[1..] == front[1..];
    SignedRoundTrip(0, Word64(left));
    SameWord(Signed64(Word64(left)), left, TotalOut(front[1..]) + TotalOut(carriers));
    if -0x8000_0000_0000_0000 <= left < 0x8000_0000_0000_0000 { SignedRoundTrip(left, 0); }
  }

  function CarrierOutputs(spk: seq<byte>, value: i64, count: nat): (outs: seq<TxOut>)
    ensures |outs| == count
  {
    seq(count, _ => TxOut(value, spk))
  }

  lemma {:induction false} CarrierTotal(spk: seq<byte>, value: i64, count: nat)
    ensures TotalOut(CarrierOutputs(spk, value, count)) == count * value
    decreases count
  {
    if count > 0 {
      CarrierTotal(spk, value, count - 1);
      assert CarrierOutputs(spk, value, count)[1..] == CarrierOutputs(spk, value, count - 1);
      assert count * value == (count - 1) * value + value;
    }
  }

  lemma {:induction false} Wraps(v: int, times: nat)
    ensures Word64(v - 0x1_0000_0000_0000_0000 * times) == Word64(v)
  {
  }

  lemma {:induction false} WordOfProduct(n: nat, value: u64)
    ensures Word64(n * Signed64(value)) == Word64(n * value)
  {
    hide Word64;
    if Signed64(value) != value {
      assert n * (value - 0x1_0000_0000_0000_0000) == n * value - 0x1_0000_0000_0000_0000 * n;
      Wraps(n * value, n);
    }
  }

  method AppendCarriers(outputs: seq<TxOut>, spk: seq<byte>, value: i64, partTotal: byte) returns (outs: seq<TxOut>)
    ensures outs == outputs + CarrierOutputs(spk, value, partTotal)
  {
    outs := outputs;
    for i := 0 to partTotal
      invariant outs == outputs + CarrierOutputs(spk, value, i)
    {
      outs := outs + [TxOut(value, spk)];
      assert CarrierOutputs(spk, value, i + 1) == CarrierOutputs(spk, value, i) + [TxOut(value, spk)];
    }
  }

  lemma {:induction false} TakenWord(first: int, a: int, b: int)
    requires Word64(a) == Word64(b)
    ensures Word64(first - Word64(a)) == Word64(first - b)
  {
  }

  /** Taking the wrapped product takes the carriers' value. */
  lemma {:induction false} ProductIsCarrierTotal(spk: seq<byte>, value: u64, count: nat, first: int)
    ensures Word64(first - Word64(count * value)) == Word64(first - TotalOut(CarrierOutputs(spk, Signed64(value), count)))
  {
    hide Signed64, TotalOut, Word64;
    CarrierTotal(spk, Signed64(value), count);
    WordOfProduct(count, value);
    TakenWord(first, count * value, count * Signed64(value));
  }

  function AddedCarriers(base: Tx, digest: seq<byte>, spk: seq<byte>, value: u64, partTotal: byte): Option<Tx> {
    if partTotal == 0 || Word64(FirstValue(base)) < Word64(partTotal * value) then None
    else Some(Extend(base, digest, CarrierOutputs(spk, Signed64(value), partTotal)))
  }

  /** `such_tx_add_commit_and_carrier_outputs`: equal carriers, refused when output 0, which is
      the commitment when there is no other, cannot pay for them; both sides of the comparison
      are 64-bit words. */
  method AddCommitAndCarrierOutputs(base: Tx, digest: seq<byte>, spk: seq<byte>, value: u64, partTotal: byte) returns (r: Option<Tx>)
    ensures r == AddedCarriers(base, digest, spk, value, partTotal)
  {
    hide Signed64, Word64, TotalOut, CommitmentScript;
    if partTotal == 0 { return None; }
    var outs := base.outputs;
    outs := outs + [TxOut(0, CommitmentScript(FLC1, digest))];
    outs := AppendCarriers(outs, spk, Signed64(value), partTotal);
    var carrierTotal := Word64(partTotal as int * value as int);
    if |outs| > 0 {
      if Word64(outs[0].value) < carrierTotal { return None; }
      ProductIsCarrierTotal(spk, value, partTotal, outs[0].value);
      outs := outs[0 := outs[0].(value := Signed64(Word64(outs[0].value - carrierTotal)))];
    }
    return Some(base.(outputs := outs));
  }

  /** The inputs spend exactly the carriers of the extension, each once. */
  predicate SpendsCarriers(ins: seq<TxIn>, txid: seq<byte>, first: nat, count: nat) {
    && SpendsOnce(ins, txid)
    && forall v: u32 :: v in SpentVouts(ins, |ins|, txid) <==> first <= v < first + count
  }

  lemma {:induction false} ExtensionShape(base: Tx, digest: seq<byte>, carriers: seq<TxOut>)
    requires |digest| == 32
    ensures var outs := Extend(base, digest, carriers).outputs;
            var n := |base.outputs|;
      && |outs| == n + 1 + |carriers|
      && outs[n + 1..] == carriers
      && Commits(outs[n].script, digest)
      && (forall i | 0 <= i < n :: outs[i].script == base.outputs[i].script)
      && outs[0].value == Signed64(Word64(FirstValue(base) - TotalOut(carriers)))
      && (n > 0 ==> outs[1..n] == base.outputs[1..])
  {
    CommitmentRoundTrip(FLC1, digest);
  }

  /** Among the outputs of an extension only the base outputs survive, less those that commit
      to the same digest. */
  lemma {:induction false} KeptOfExtension(outs: seq<TxOut>, m: nat, spent: set<u32>, digest: seq<byte>, n: nat)
    requires m <= |outs| <= 0x1_0000_0000 && n < |outs|
    requires forall v: u32 :: v in spent <==> n + 1 <= v < |outs|
    requires Commits(outs[n].script, digest)
    ensures var k := if m < n then m else n;
      && |Kept(outs, m, spent, digest)| <= k
      && (if forall i | 0 <= i < k :: !Commits(outs[i].script, digest) then Kept(outs, m, spent, digest) == outs[..k]
          else |Kept(outs, m, spent, digest)| < k)
  {
    hide Commits;
    if m > 0 {
      KeptOfExtension(outs, m - 1, spent, digest, n);
      assert Removed(outs, m - 1, spent, digest) <==> m > n || Commits(outs[m - 1].script, digest);
      if m <= n { assert outs[..m] == outs[..m - 1] + [outs[m - 1]]; }
    }
  }

  lemma {:induction false} CarrierValueIsRestored(outs: seq<TxOut>, m: nat, spent: set<u32>, n: nat)
    requires n < m <= |outs| <= 0x1_0000_0000
    requires forall v: u32 :: v in spent <==> n + 1 <= v < |outs|
    ensures SpentValue(outs, m, spent) == TotalOut(outs[n + 1..m])
    decreases m
  {
    if m == n + 1 {
      NothingSpentBelow(outs, n + 1, spent);
    } else {
      CarrierValueIsRestored(outs, m - 1, spent, n);
      TotalOutLast(outs[n + 1..m - 1], outs[m - 1]);
      assert outs[n + 1..m - 1] + [outs[m - 1]] == outs[n + 1..m];
      assert (m - 1) as u32 in spent && (m - 1) % 0x1_0000_0000 == m - 1;
    }
  }

  lemma {:induction false} NothingSpentBelow(outs: seq<TxOut>, m: nat, spent: set<u32>)
    requires m <= |outs| <= 0x1_0000_0000
    requires forall v: u32 | v in spent :: v >= m
    ensures SpentValue(outs, m, spent) == 0
    decreases m
  {
    if m > 0 { NothingSpentBelow(outs, m - 1, spent); }
  }

  /** Rebuilding the extension gives the base back exactly when the base has outputs and no
      commitment to the same digest among them. */
  lemma {:induction false} RebuildInvertsExtend(base: Tx, digest: seq<byte>, carriers: seq<TxOut>, txid: seq<byte>, ins: seq<TxIn>)
    requires |digest| == 32 && |carriers| > 0
    requires |base.outputs| + 1 + |carriers| <= 0x1_0000_0000
    requires SpendsCarriers(ins, txid, |base.outputs| + 1, |carriers|)
    ensures var r := Rebuild(Extend(base, digest, carriers), txid, ins, digest);
      if base.outputs != [] && forall i | 0 <= i < |base.outputs| :: !Commits(base.outputs[i].script, digest) then r == Some(base)
      else r == None || |r.value.outputs| < |base.outputs|
  {
    hide Signed64, Word64, Restored, Repeated, SpentValue, TotalOut, Kept, SpentVouts, CommitmentScript, Commits, SpendsOnce;
    var txc := Extend(base, digest, carriers);
    var outs, n := txc.outputs, |base.outputs|;
    var spent := SpentVouts(ins, |ins|, txid);
    ExtensionShape(base, digest, carriers);
    KeptOfExtension(outs, |outs|, spent, digest, n);
    assert (n + 1) as u32 in spent;
    RestoredIsSpent(ins, |ins|, txid, outs);
    NothingRepeated(ins, |ins|, txid, outs);
    CarrierValueIsRestored(outs, |outs|, spent, n);
    assert outs[n + 1..|outs|] == carriers;
    if n > 0 && forall i | 0 <= i < n :: !Commits(base.outputs[i].script, digest) {
      var kept := outs[..n];
      assert Restored(ins, |ins|, txid, outs) == TotalOut(carriers);
      TakenAndRestored(base.outputs[0].value, TotalOut(carriers));
      assert kept[1..] == outs[1..n];
      assert AddToFirst(kept, TotalOut(carriers)) == base.outputs;
    }
  }

  lemma {:induction false} TakenAndRestored(v: i64, amount: int)
    ensures Signed64(Word64(Signed64(Word64(v - amount)) + amount)) == v
  {
    var word := Word64(v - amount);
    SignedRoundTrip(v, word);
    SameWord(Signed64(word), v - amount, amount);
  }

  lemma {:induction false} KeptIsValid(outs: seq<TxOut>, n: nat, spent: set<u32>, digest: seq<byte>)
    requires n <= |outs| && ValidOuts(outs)
    ensures |Kept(outs, n, spent, digest)| <= n && forall o | o in Kept(outs, n, spent, digest) :: ValidOut(o)
  {
    if n > 0 { KeptIsValid(outs, n - 1, spent, digest); }
  }

  lemma {:induction false} RebuildIsValid(txc: Tx, txid: seq<byte>, ins: seq<TxIn>, digest: seq<byte>)
    requires ValidTx(txc) && Rebuild(txc, txid, ins, digest).Some?
    ensures ValidTx(Rebuild(txc, txid, ins, digest).value)
  {
    var spent := SpentVouts(ins, |ins|, txid);
    var kept := Kept(txc.outputs, |txc.outputs|, spent, digest);
    KeptIsValid(txc.outputs, |txc.outputs|, spent, digest);
    FirstIsValid(kept, Restored(ins, |ins|, txid, txc.outputs));
  }

  lemma {:induction false} FirstIsValid(outs: seq<TxOut>, amount: int)
    requires |outs| > 0 && ValidOuts(outs)
    ensures ValidOuts(AddToFirst(outs, amount))
  {
    assert outs[0] in outs;
  }

  lemma {:induction false} ExtendIsValid(base: Tx, digest: seq<byte>, carriers: seq<TxOut>)
    requires ValidTx(base) && |digest| == 32
    requires (forall o | o in carriers :: ValidOut(o)) && |base.outputs| + 1 + |carriers| <= 0x1_0000_0000
    ensures ValidTx(Extend(base, digest, carriers))
  {
    var outs := base.outputs + [TxOut(0, CommitmentScript(FLC1, digest))] + carriers;
    assert forall o | o in outs :: ValidOut(o);
    assert outs[0] in outs;
  }

  /** The same on bytes: from the written extension and any TX_R that spends exactly the
      carriers, the explorer recovers the written base transaction, iff the base has outputs and
      no commitment to the same digest among them. */
  lemma {:induction false} ReconstructionInvertsExtension(
      sha256: seq<byte> -> seq<byte>, base: Tx, digest: seq<byte>, carriers: seq<TxOut>,
      rawC: seq<byte>, rawR: seq<byte>, ins: seq<TxIn>)
    requires ValidTx(base) && |digest| == 32 && |carriers| > 0
    requires (forall o | o in carriers :: ValidOut(o)) && |base.outputs| + 1 + |carriers| <= 0x1_0000_0000
    requires rawC == WriteTx(Extend(base, digest, carriers)) && ParseInputs(rawR) == Some(ins)
    requires SpendsCarriers(ins, Reverse(sha256(sha256(rawC))), |base.outputs| + 1, |carriers|)
    ensures ReconstructBase(sha256, rawC, rawR, digest) == Some(WriteTx(base))
      <==> base.outputs != [] && forall i | 0 <= i < |base.outputs| :: !Commits(base.outputs[i].script, digest)
  {
    var txc := Extend(base, digest, carriers);
    var txid := Txid(sha256, rawC);
    ExtendIsValid(base, digest, carriers);
    PrefixParsersReadBack(txc, []);
    assert rawC + [] == rawC;
    RebuildInvertsExtend(base, digest, carriers, txid, ins);
    var r := Rebuild(txc, txid, ins, digest);
    if r.Some? {
      RebuildIsValid(txc, txid, ins, digest);
      if WriteTx(r.value) == WriteTx(base) { WriteTxInjective(r.value, base); }
    }
  }

  // ---- both sides occur ----

  function Spends(txid: seq<byte>, first: nat, count: nat): (ins: seq<TxIn>)
    requires first + count <= 0x1_0000_0000
    ensures |ins| == count && forall i | 0 <= i < count :: ins[i] == SpendOf(txid, first + i)
  {
    seq(count, i requires 0 <= i < count => SpendOf(txid, first + i))
  }

  lemma {:induction false} SpendsAreThese(txid: seq<byte>, first: nat, count: nat, n: nat)
    requires first + count <= 0x1_0000_0000 && n <= count
    ensures forall v: u32 :: v in SpentVouts(Spends(txid, first, count), n, txid) <==> first <= v < first + n
  {
    if n > 0 {
      SpendsAreThese(txid, first, count, n - 1);
      ReverseTwice(txid);
      var ins := Spends(txid, first, count);
      assert ins[n - 1].prevVout == first + n - 1 && Reverse(ins[n - 1].prevTxid) == txid;
      assert SpentVouts(ins, n, txid) == SpentVouts(ins, n - 1, txid) + {ins[n - 1].prevVout};
    }
  }

  /** For every extension of every base, whatever it commits to, a TX_R that spends exactly the
      carriers exists. */
  lemma {:induction false} RevealExists(sha256: seq<byte> -> seq<byte>, rawC: seq<byte>, first: nat, count: nat) returns (rawR: seq<byte>)
    requires 0 < count && first + count <= 0x1_0000_0000 && |sha256(sha256(rawC))| == 32
    ensures ParseInputs(rawR).Some? && SpendsCarriers(ParseInputs(rawR).value, Txid(sha256, rawC), first, count)
  {
    var txid := Txid(sha256, rawC);
    var ins := Spends(txid, first, count);
    var tx := Tx(1, ins, [], 0);
    assert |Reverse(txid)| == |txid| == 32;
    assert forall k | 0 <= k < |ins| :: ValidIn(ins[k]) && Reverse(ins[k].prevTxid) == txid by { ReverseTwice(txid); }
    rawR := WriteTx(tx);
    PrefixParsersReadBack(tx, []);
    assert rawR + [] == rawR;
    SpendsAreThese(txid, first, count, count);
  }

  /** A base that pays and commits to the digest itself: under every 32-byte hash some TX_R spends
      exactly the carriers of its extension, and the base is not recovered. */
  lemma {:induction false} CommittingBaseIsLost(sha256: seq<byte> -> seq<byte>, digest: seq<byte>) returns (rawC: seq<byte>, rawR: seq<byte>)
    requires |digest| == 32 && forall b :: |sha256(b)| == 32
    ensures var base := Tx(1, [], [TxOut(1000, []), TxOut(0, CommitmentScript(FLC1, digest))], 0);
      && rawC == WriteTx(Extend(base, digest, [TxOut(400, [])])) && ParseInputs(rawR).Some?
      && SpendsCarriers(ParseInputs(rawR).value, Txid(sha256, rawC), 3, 1)
      && ReconstructBase(sha256, rawC, rawR, digest) != Some(WriteTx(base))
  {
    hide WriteTx, ParseInputs, ReconstructBase, SpendsCarriers;
    var base := Tx(1, [], [TxOut(1000, []), TxOut(0, CommitmentScript(FLC1, digest))], 0);
    var carriers := [TxOut(400, [])];
    assert carriers[1..] == [];
    rawC := WriteTx(Extend(base, digest, carriers));
    rawR := RevealExists(sha256, rawC, 3, 1);
    CommitmentRoundTrip(FLC1, digest);
    assert Commits(base.outputs[1].script, digest);
    ReconstructionInvertsExtension(sha256, base, digest, carriers, rawC, rawR, ParseInputs(rawR).value);
  }
}
