/**
 Two transactions whose wallet nets add up to more than the wallet holds.

 The first pays the wallet. The second spends that coin together with a coin nobody listed and
 pays only the wallet, so its net is taken as complete and its debit is never charged. The hash
 is a concrete one that tells texts apart by their length.
 */
module UnchargedSpend {
  import opened Bytes
  import opened Text
  import opened Wire
  import opened TxCodec
  import opened LegacyTx
  import opened PrevoutLedger

  function LengthHash(b: seq<byte>): (h: seq<byte>)
    ensures |h| == 32
  {
    if |b| == 32 then b else Wire32(|b| % 0x100)
  }

  function Wire32(k: byte): (h: seq<byte>)
    ensures |h| == 32
  {
    [k] + Zeros(31)
  }

  function Id(k: byte): string { Display(Wire32(k)) }
  function At(k: byte): Outpoint { Outpoint(Id(k), 0) }

  const KEY: seq<byte> := Zeros(20)
  const WALLET: Hash160s := {KEY}
  const PAYMENT := TxOut(5, [0x76, 0xa9, 0x14] + KEY + [0x88, 0xac])

  function Spend(k: byte): TxIn { TxIn(Wire32(k), 0, [], 0) }

  const FIRST := Tx(1, [Spend(1)], [PAYMENT], 0)
  const SECOND := Tx(1, [Spend(85), Spend(2)], [PAYMENT], 0)

  function Texts(): seq<string> { [HexEncode(WriteTx(FIRST)), HexEncode(WriteTx(SECOND))] }
  function BothIndexed(): Index { BuildIndex(AllListed(LengthHash, Texts()), 2, WALLET) }

  lemma {:induction false} Lengths()
    ensures |WriteTx(FIRST)| == 85 && |WriteTx(SECOND)| == 126
  {
    var one, other := Spend(1), Spend(2);
    assert FIRST.inputs[1..] == [] && SECOND.inputs[1..] == [other] && [other][1..] == [];
    assert [PAYMENT][1..] == [];
    assert |WriteIn(one)| == 41 && |WriteIn(Spend(85))| == 41 && |WriteIn(other)| == 41 && |WriteOut(PAYMENT)| == 34;
    assert |WriteMany(WriteOut, [PAYMENT])| == 34 + |WriteMany(WriteOut, [PAYMENT][1..])|;
    assert |WriteVin(FIRST.inputs)| == 42 && |WriteVin(SECOND.inputs)| == 83 && |WriteVout([PAYMENT])| == 35;
  }

  lemma {:induction false} IdsDiffer(j: byte, k: byte)
    ensures Id(j) != "" && NormalizeTxid(Id(j)) == Id(j) && (Id(j) == Id(k) ==> j == k)
  {
    DisplayIsNormalized(Wire32(j));
    HexDecodeEncode(Reverse(Wire32(j)));
    HexDecodeEncode(Reverse(Wire32(k)));
    ReverseTwice(Wire32(j));
    ReverseTwice(Wire32(k));
    assert Wire32(j)[0] == j && Wire32(k)[0] == k;
    assert HexDecode("") == Some([]);
  }

  lemma {:induction false} Parsed(tx: Tx)
    requires ValidTx(tx) && tx.inputs != []
    ensures var raw := WriteTx(tx);
      && |raw| >= 10 && !HasMarker(raw[4..])
      && ParseInputs(raw) == Some(tx.inputs) && ParseOutputs(raw) == ParseLegacyOutputs(raw) == Some(tx.outputs)
  {
    hide ParseInputs, ParseOutputs, ParseLegacyOutputs, WriteTx, HasMarker;
    var raw := WriteTx(tx);
    assert raw + [] == raw;
    PrefixParsersReadBack(tx, []);
    WriteTxShape(tx, []);
    WriteTxMarker(tx, []);
  }

  /** What the ledger sees of either transaction, whose text length is also its id. */
  lemma {:induction false} Seen(tx: Tx, k: byte)
    requires ValidTx(tx) && tx.inputs != [] && tx.outputs == [PAYMENT] && |WriteTx(tx)| == k != 32
    ensures var raw := WriteTx(tx);
      && LedgerTx(LengthHash, raw) && TxidOf(LengthHash, raw) == Id(k)
      && ParsePrevouts(raw) == Some(Outpoints(tx.inputs)) && ParseOutputs(raw) == Some([PAYMENT])
      && CoinsOf(LengthHash, raw, WALLET) == [Coin(At(k), 5)]
      && ListedRaw(LengthHash, raw) == Listed(Id(k), [PAYMENT])
  {
    hide HexEncode, ParseInputs, ParseOutputs, ParseLegacyOutputs, WriteTx, HasMarker, CoinsAmong, Receives, NormalizeTxid, Outpoints;
    var raw := WriteTx(tx);
    Parsed(tx);
    IdOfLength(raw, k);
    OneCoin(k);
  }

  lemma {:induction false} IdOfLength(raw: seq<byte>, k: byte)
    requires |raw| == k && k != 32 && k > 0
    ensures TxidOf(LengthHash, raw) == Id(k) != ""
  {
    assert LengthHash(LengthHash(raw)) == Wire32(k);
    IdsDiffer(k, k);
  }

  lemma {:induction false} OneCoin(k: byte)
    ensures CoinsAmong(Id(k), [PAYMENT], 1, WALLET) == [Coin(At(k), 5)]
  {
    PaymentReceives();
    assert CoinsAmong(Id(k), [PAYMENT], 0, WALLET) == [];
  }

  lemma {:induction false} PaymentReceives()
    ensures P2pkhHash160(PAYMENT.script) == Some(KEY) && Receives(PAYMENT.script, WALLET) && !IsOpReturn(PAYMENT.script)
  {
  }

  lemma {:induction false} RawOfEncoded(raw: seq<byte>)
    requires raw != []
    ensures RawOf(HexEncode(raw)) == Some(raw)
  {
    HexEncodeDigits(raw);
    TrimIsId(HexEncode(raw));
    RawOfText(HexEncode(raw));
    HexDecodeEncode(raw);
  }

  lemma {:induction false} BothAreListed()
    ensures AllListed(LengthHash, Texts()) == [Listed(Id(85), [PAYMENT]), Listed(Id(126), [PAYMENT])]
  {
    hide HexEncode, WriteTx, RawOf, ListedRaw;
    Lengths();
    Seen(FIRST, 85);
    Seen(SECOND, 126);
    RawOfEncoded(WriteTx(FIRST));
    RawOfEncoded(WriteTx(SECOND));
  }

  lemma {:induction false} IndexContents()
    ensures BothIndexed() == map[At(85) := PrevoutMeta(5, true), At(126) := PrevoutMeta(5, true)]
  {
    hide HexEncode, WriteTx, AllListed, IndexOuts, Id;
    BothAreListed();
    var ls := [Listed(Id(85), [PAYMENT]), Listed(Id(126), [PAYMENT])];
    IndexOne(map[], 85);
    IndexOne(map[At(85) := PrevoutMeta(5, true)], 126);
    assert BuildIndex(ls, 0, WALLET) == map[];
    assert BuildIndex(ls, 1, WALLET) == map[At(85) := PrevoutMeta(5, true)];
  }

  lemma {:induction false} IndexOne(m: Index, k: byte)
    ensures IndexOuts(m, Listed(Id(k), [PAYMENT]), 1, WALLET) == m[At(k) := PrevoutMeta(5, true)]
  {
    hide Id;
    PaymentReceives();
    assert IndexOuts(m, Listed(Id(k), [PAYMENT]), 0, WALLET) == m;
  }

  lemma {:induction false} NetIsFive(raw: seq<byte>, ops: seq<Outpoint>, missing: nat)
    requires ParsePrevouts(raw) == Some(ops) && ParseOutputs(raw) == Some([PAYMENT])
    requires missing < |ops| && ops[missing].txid != "" && ops[missing] !in BothIndexed()
    ensures NetOf(raw, WALLET, BothIndexed()) == Net(5, 0, 5, true)
  {
    hide ParsePrevouts, ParseOutputs, BothIndexed;
    PaymentReceives();
    assert FlowOf([PAYMENT], 0, WALLET) == Flow(0, 0, None);
  }

  /** What the ledger sees of a text with the given id that spends the given outpoints. */
  ghost predicate Sees(raw: seq<byte>, k: byte, ops: seq<Outpoint>) {
    && LedgerTx(LengthHash, raw) && TxidOf(LengthHash, raw) == Id(k)
    && ParsePrevouts(raw) == Some(ops) && ParseOutputs(raw) == Some([PAYMENT])
    && CoinsOf(LengthHash, raw, WALLET) == [Coin(At(k), 5)]
  }

  lemma {:induction false} FirstSeen()
    ensures Sees(WriteTx(FIRST), 85, [At(1)])
  {
    hide WriteTx, LedgerTx, TxidOf, ParsePrevouts, ParseOutputs, CoinsOf, Id, Outpoints, Spend;
    Lengths();
    assert ValidTx(FIRST) by { SpendIsValid(1); }
    SpentAt();
    Seen(FIRST, 85);
  }

  lemma {:induction false} SecondSeen()
    ensures Sees(WriteTx(SECOND), 126, [At(85), At(2)])
  {
    hide WriteTx, LedgerTx, TxidOf, ParsePrevouts, ParseOutputs, CoinsOf, Id, Outpoints, Spend;
    Lengths();
    assert ValidTx(SECOND) by { SpendIsValid(85); SpendIsValid(2); }
    SpentAt();
    Seen(SECOND, 126);
  }

  lemma {:induction false} SpendIsValid(k: byte)
    ensures ValidIn(Spend(k))
  {
  }

  lemma {:induction false} WhatTheySpend(a: seq<byte>, b: seq<byte>)
    requires Sees(a, 85, [At(1)]) && Sees(b, 126, [At(85), At(2)])
    ensures AllSpends([a, b]) == [At(1), At(85), At(2)] && Distinct(AllSpends([a, b]))
  {
    hide Id, ParsePrevouts, ParseOutputs, LedgerTx, TxidOf, CoinsOf;
    FourIds();
    assert [a, b][1..] == [b] && AllSpends([b][1..]) == [];
    assert AllSpends([b]) == [At(85), At(2)];
  }

  lemma {:induction false} WhatTheyPay(a: seq<byte>, b: seq<byte>)
    requires Sees(a, 85, [At(1)]) && Sees(b, 126, [At(85), At(2)])
    ensures Ledger(LengthHash, [a, b]) && AllCoins(LengthHash, [a, b], WALLET) == [Coin(At(85), 5), Coin(At(126), 5)]
  {
    hide Id, ParsePrevouts, ParseOutputs, LedgerTx, TxidOf, CoinsOf;
    FourIds();
    assert [a, b][1..] == [b] && AllCoins(LengthHash, [b][1..], WALLET) == [];
    assert AllCoins(LengthHash, [b], WALLET) == [Coin(At(126), 5)];
  }

  lemma {:induction false} WhatTheyNet(a: seq<byte>, b: seq<byte>)
    requires Sees(a, 85, [At(1)]) && Sees(b, 126, [At(85), At(2)])
    ensures forall raw | raw in [a, b] :: NetOf(raw, WALLET, BothIndexed()) == Net(5, 0, 5, true)
    ensures NetSum([a, b], WALLET, BothIndexed()) == 10
  {
    hide Id, ParsePrevouts, ParseOutputs, LedgerTx, TxidOf, CoinsOf, BothIndexed, NetOf;
    FourIds();
    IndexContents();
    NetIsFive(a, [At(1)], 0);
    NetIsFive(b, [At(85), At(2)], 1);
    assert [a, b][1..] == [b] && NetSum([b][1..], WALLET, BothIndexed()) == 0;
  }

  lemma {:induction false} WhatIsLeft(coins: seq<Coin>, ops: seq<Outpoint>)
    requires coins == [Coin(At(85), 5), Coin(At(126), 5)] && ops == [At(1), At(85), At(2)]
    ensures Unspent(coins, ToSet(ops)) == 5
  {
    hide Id;
    FourIds();
    assert coins[1..] == [Coin(At(126), 5)] && Unspent(coins[1..][1..], ToSet(ops)) == 0;
    assert ops[1] == At(85) && forall op | op in ops :: op.txid != Id(126);
  }

  /** All hypotheses of conservation hold for the two transactions and the index built from their
      texts, the nets total 10, and the wallet holds 5. */
  lemma {:induction false} NetsExceedWallet()
    ensures var txs, idx := [WriteTx(FIRST), WriteTx(SECOND)], BothIndexed();
            var coins := AllCoins(LengthHash, txs, WALLET);
      && Ledger(LengthHash, txs) && Distinct(AllSpends(txs))
      && (forall raw | raw in txs :: NetOf(raw, WALLET, idx).complete)
      && IndexCovered(idx, coins) && (forall c | c in coins :: c.value >= 0)
      && NetSum(txs, WALLET, idx) == 10 && Unspent(coins, ToSet(AllSpends(txs))) == 5
      && !AllCharged(txs, coins, idx)
  {
    hide *;
    var txs, idx := [WriteTx(FIRST), WriteTx(SECOND)], BothIndexed();
    var coins := AllCoins(LengthHash, txs, WALLET);
    FirstSeen();
    SecondSeen();
    WhatTheySpend(WriteTx(FIRST), WriteTx(SECOND));
    WhatTheyPay(WriteTx(FIRST), WriteTx(SECOND));
    WhatTheyNet(WriteTx(FIRST), WriteTx(SECOND));
    WhatIsLeft(coins, AllSpends(txs));
    CoveredByTwo();
    ConservationIff(LengthHash, txs, WALLET, idx);
  }

  lemma {:induction false} CoveredByTwo()
    ensures IndexCovered(BothIndexed(), [Coin(At(85), 5), Coin(At(126), 5)])
  {
    hide BothIndexed, Id;
    IndexContents();
  }

  lemma {:induction false} FourIds()
    ensures Id(1) != "" && Id(2) != "" && Id(85) != "" && Id(126) != ""
    ensures Distinct([Id(1), Id(2), Id(85), Id(126)]) && Id(1) != Id(85) && Id(1) != Id(2) && Id(1) != Id(126)
    ensures Id(2) != Id(85) && Id(2) != Id(126) && Id(85) != Id(126)
  {
    hide Id;
    forall j: byte, k: byte ensures Id(j) != "" && (Id(j) == Id(k) ==> j == k) { IdsDiffer(j, k); }
  }

  lemma {:induction false} SpentAt()
    ensures Outpoints([Spend(1)]) == [At(1)] && Outpoints([Spend(85), Spend(2)]) == [At(85), At(2)]
  {
    hide Display;
    IdsDiffer(1, 1);
    IdsDiffer(2, 2);
    IdsDiffer(85, 85);
  }
}
