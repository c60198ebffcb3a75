/** The wallet's ledger from raw transactions: the prevout index, the net effect of one
    transaction, and conservation over a set of transactions. */
module PrevoutLedger {
  import opened Bytes
  import opened Text
  import opened Wire
  import opened TxCodec
  import opened Cursor
  import opened LegacyTx
  import BaseTx

  datatype PrevoutMeta = PrevoutMeta(value: int, walletRecv: bool)
  datatype Flow = Flow(walletSats: int, externalSats: int, counterpartySats: Option<int>)
  datatype Net = Net(net: int, walletIn: int, walletOut: int, complete: bool)

  type Hash160s = set<seq<byte>>
  type Index = map<Outpoint, PrevoutMeta>

  const INCOMPLETE := Net(0, 0, 0, false)

  // ---- scripts ----

  function P2pkhHash160(script: seq<byte>): Option<seq<byte>> {
    if |script| == 25 && script[..3] == [0x76, 0xa9, 0x14] && script[23..] == [0x88, 0xac]
    then Some(script[3..23]) else None
  }

  /** The hash of a script: exactly the 25-byte P2PKH scripts have one, and it is what they pay. */
  lemma {:induction false} HashOfP2pkh(script: seq<byte>, h: seq<byte>)
    ensures P2pkhHash160(script) == Some(h) <==> |h| == 20 && script == [0x76, 0xa9, 0x14] + h + [0x88, 0xac]
  {
    if |script| == 25 { assert script == script[..3] + script[3..23] + script[23..]; }
    var built := [0x76, 0xa9, 0x14] + h + [0x88, 0xac];
    if |h| == 20 { assert built[..3] == [0x76, 0xa9, 0x14] && built[3..23] == h && built[23..] == [0x88, 0xac]; }
  }

  predicate IsOpReturn(script: seq<byte>) { |script| >= 1 && script[0] == 0x6a }

  predicate Receives(script: seq<byte>, wallet: Hash160s) {
    P2pkhHash160(script).Some? && P2pkhHash160(script).value in wallet
  }

  // ---- the index ----

  /** Display-order txid of the raw bytes; empty when the hash is not 32 bytes. */
  function TxidOf(sha256: seq<byte> -> seq<byte>, raw: seq<byte>): string {
    if raw == [] then "" else NormalizeTxid(Display(sha256(sha256(raw))))
  }

  function RawOf(rawHex: string): Option<seq<byte>> {
    var hx := Lower(Trim(rawHex));
    if hx == "" then None else HexDecode(hx)
  }

  function KeyOf(txid: string, vout: nat): Outpoint { Outpoint(txid, vout % 0x1_0000_0000) }

  function MetaOf(o: TxOut, wallet: Hash160s): PrevoutMeta { PrevoutMeta(o.value, Receives(o.script, wallet)) }

  /** What one listed transaction contributes: its txid and its outputs, none when the text is
      not hexadecimal, is short, does not parse, or does not hash to a txid. */
  datatype Listed = Listed(txid: string, outs: seq<TxOut>)

  const NOTHING_LISTED := Listed("", [])

  function ListedOf(sha256: seq<byte> -> seq<byte>, rawHex: string): Listed {
    match RawOf(rawHex)
    case None => NOTHING_LISTED
    case Some(raw) => ListedRaw(sha256, raw)
  }

  function ListedRaw(sha256: seq<byte> -> seq<byte>, raw: seq<byte>): Listed {
    if |raw| < 10 || TxidOf(sha256, raw) == "" || ParseLegacyOutputs(raw) == None then NOTHING_LISTED
    else Listed(TxidOf(sha256, raw), ParseLegacyOutputs(raw).value)
  }

  function AllListed(sha256: seq<byte> -> seq<byte>, rawHexes: seq<string>): (ls: seq<Listed>)
    ensures |ls| == |rawHexes|
  {
    seq(|rawHexes|, k requires 0 <= k < |rawHexes| => ListedOf(sha256, rawHexes[k]))
  }

  function IndexOuts(idx: Index, l: Listed, n: nat, wallet: Hash160s): Index
    requires n <= |l.outs|
  {
    if n == 0 then idx
    else IndexOuts(idx, l, n - 1, wallet)[KeyOf(l.txid, n - 1) := MetaOf(l.outs[n - 1], wallet)]
  }

  function BuildIndex(listed: seq<Listed>, n: nat, wallet: Hash160s): Index
    requires n <= |listed|
  {
    if n == 0 then map[]
    else IndexOuts(BuildIndex(listed, n - 1, wallet), listed[n - 1], |listed[n - 1].outs|, wallet)
  }

  method IndexOutputs(idx: Index, l: Listed, wallet: Hash160s) returns (r: Index)
    ensures r == IndexOuts(idx, l, |l.outs|, wallet)
  {
    r := idx;
    for vout := 0 to |l.outs|
      invariant r == IndexOuts(idx, l, vout, wallet)
    {
      r := r[KeyOf(l.txid, vout) := MetaOf(l.outs[vout], wallet)];
    }
  }

  method IndexRaw(sha256: seq<byte> -> seq<byte>, idx: Index, rawHex: string, wallet: Hash160s) returns (r: Index)
    ensures var l := ListedOf(sha256, rawHex); r == IndexOuts(idx, l, |l.outs|, wallet)
  {
    var raw := RawOf(rawHex);
    if raw == None || |raw.value| < 10 { return idx; }
    var txid := TxidOf(sha256, raw.value);
    if txid == "" { return idx; }
    var outs := ParseLegacyTxOutputs(raw.value);
    if outs == None || |outs.value| == 0 { return idx; }
    r := IndexOutputs(idx, Listed(txid, outs.value), wallet);
  }

  method BuildPrevoutWalletIndex(sha256: seq<byte> -> seq<byte>, rawHexes: seq<string>, wallet: Hash160s)
    returns (idx: Index)
    ensures idx == BuildIndex(AllListed(sha256, rawHexes), |rawHexes|, wallet)
  {
    idx := map[];
    ghost var listed := AllListed(sha256, rawHexes);
    for k := 0 to |rawHexes|
      invariant idx == BuildIndex(listed, k, wallet)
    {
      idx := IndexRaw(sha256, idx, rawHexes[k], wallet);
    }
  }

  // ---- one transaction ----

  function AddToFlow(f: Flow, o: TxOut, wallet: Hash160s): Flow {
    if IsOpReturn(o.script) then f
    else match P2pkhHash160(o.script)
      case None => if o.value > 0 then f.(externalSats := f.externalSats + o.value) else f
      case Some(h) =>
        if h in wallet then f.(walletSats := f.walletSats + o.value)
        else f.(externalSats := f.externalSats + o.value,
                counterpartySats := if f.counterpartySats == None then Some(o.value) else f.counterpartySats)
  }

  function FlowOf(outs: seq<TxOut>, n: nat, wallet: Hash160s): Flow
    requires n <= |outs|
  {
    if n == 0 then Flow(0, 0, None) else AddToFlow(FlowOf(outs, n - 1, wallet), outs[n - 1], wallet)
  }

  function DecodeFlow(raw: seq<byte>, wallet: Hash160s): Option<Flow> {
    match ParseOutputs(raw)
    case None => None
    case Some(outs) => Some(FlowOf(outs, |outs|, wallet))
  }

  /** `decodeSPVRawTxFlow`: value to scripts that are not P2PKH is kept apart and folded into
      the external total at the end. */
  method DecodeSPVRawTxFlow(raw: seq<byte>, wallet: Hash160s) returns (r: Option<Flow>)
    ensures r == DecodeFlow(raw, wallet)
  {
    if |raw| < 10 { return None; }
    var off := 4;
    if off + 2 <= |raw| && raw[off] == 0x00 && raw[off + 1] == 0x01 {
      off := off + 2;
      assert raw[4..][2..] == raw[6..];
    }
    var ins, outs;
    ins, off := ReadVinAt(raw, off);
    if ins == None { return None; }
    outs, off := ReadVoutAt(raw, off);
    if outs == None { return None; }
    var f := FlowOfOutputs(outs.value, wallet);
    return Some(f);
  }

  method FlowOfOutputs(outs: seq<TxOut>, wallet: Hash160s) returns (f: Flow)
    ensures f == FlowOf(outs, |outs|, wallet)
  {
    f := Flow(0, 0, None);
    var extNonP2PKH := 0;
    for k := 0 to |outs|
      invariant extNonP2PKH >= 0
      invariant f.(externalSats := f.externalSats + extNonP2PKH) == FlowOf(outs, k, wallet)
    {
      var o := outs[k];
      if IsOpReturn(o.script) { continue; }
      var h := P2pkhHash160(o.script);
      if h == None {
        if o.value > 0 { extNonP2PKH := extNonP2PKH + o.value; }
        continue;
      }
      if h.value in wallet {
        f := f.(walletSats := f.walletSats + o.value);
        continue;
      }
      f := f.(externalSats := f.externalSats + o.value);
      if f.counterpartySats == None { f := f.(counterpartySats := Some(o.value)); }
    }
    if extNonP2PKH > 0 { f := f.(externalSats := f.externalSats + extNonP2PKH); }
  }

  /** Value of the indexed wallet coins among the first n spent outpoints. */
  function IndexedDebit(ops: seq<Outpoint>, n: nat, idx: Index): int
    requires n <= |ops|
  {
    if n == 0 then 0
    else IndexedDebit(ops, n - 1, idx) + if ops[n - 1] in idx && idx[ops[n - 1]].walletRecv then idx[ops[n - 1]].value else 0
  }

  predicate MissingPrevout(ops: seq<Outpoint>, idx: Index) {
    exists k | 0 <= k < |ops| :: ops[k].txid != "" && ops[k] !in idx
  }

  function NetOf(raw: seq<byte>, wallet: Hash160s, idx: Index): Net {
    match ParsePrevouts(raw)
    case None => INCOMPLETE
    case Some(ops) =>
      match DecodeFlow(raw, wallet)
      case None => INCOMPLETE
      case Some(fl) =>
        if !MissingPrevout(ops, idx) then
          var debit := IndexedDebit(ops, |ops|, idx);
          Net(fl.walletSats - debit, debit, fl.walletSats, true)
        else if fl.externalSats > 0 || fl.walletSats <= 0 then INCOMPLETE
        else Net(fl.walletSats, 0, fl.walletSats, true)
  }

  method DebitOfInputs(ops: seq<Outpoint>, idx: Index) returns (walletIn: int, missing: bool)
    requires forall op | op in idx :: op.txid != ""
    ensures walletIn == IndexedDebit(ops, |ops|, idx) && (missing <==> MissingPrevout(ops, idx))
  {
    walletIn, missing := 0, false;
    for k := 0 to |ops|
      invariant walletIn == IndexedDebit(ops, k, idx)
      invariant missing <==> exists j | 0 <= j < k :: ops[j].txid != "" && ops[j] !in idx
    {
      if ops[k].txid == "" { continue; }
      if ops[k] !in idx { missing := true; continue; }
      if idx[ops[k]].walletRecv { walletIn := walletIn + idx[ops[k]].value; }
    }
  }

  method WalletNetFromPrevoutIndex(rawHex: string, wallet: Hash160s, idx: Index) returns (r: Net)
    requires forall op | op in idx :: op.txid != ""
    ensures r == match RawOf(rawHex) { case None => INCOMPLETE case Some(raw) => NetOf(raw, wallet, idx) }
  {
    var raw := RawOf(rawHex);
    if raw == None { return INCOMPLETE; }
    var ins := ParseLegacyTxPrevouts(raw.value);
    if ins == None { return INCOMPLETE; }
    var fl := DecodeSPVRawTxFlow(raw.value, wallet);
    if fl == None { return INCOMPLETE; }
    var walletIn, missing := DebitOfInputs(ins.value, idx);
    var walletOut := fl.value.walletSats;
    if missing {
      if fl.value.externalSats > 0 { return INCOMPLETE; }
      if walletOut > 0 { return Net(walletOut, 0, walletOut, true); }
      return INCOMPLETE;
    }
    return Net(walletOut - walletIn, walletIn, walletOut, true);
  }

  // ---- a set of transactions ----

  datatype Coin = Coin(op: Outpoint, value: int)

  /** A transaction in the ledger: legacy bytes that parse and hash to a txid, with output
      positions that fit the outpoint's 32 bits. */
  predicate LedgerTx(sha256: seq<byte> -> seq<byte>, raw: seq<byte>) {
    && |raw| >= 10 && !HasMarker(raw[4..]) && TxidOf(sha256, raw) != ""
    && ParseOutputs(raw).Some? && |ParseOutputs(raw).value| <= 0x1_0000_0000
  }

  function OutsOf(raw: seq<byte>): seq<TxOut> { match ParseOutputs(raw) case None => [] case Some(outs) => outs }
  function SpendsOf(raw: seq<byte>): seq<Outpoint> { match ParsePrevouts(raw) case None => [] case Some(ops) => ops }

  /** The wallet's coins among the first n outputs. */
  function CoinsAmong(txid: string, outs: seq<TxOut>, n: nat, wallet: Hash160s): seq<Coin>
    requires n <= |outs|
  {
    if n == 0 then [] else
    CoinsAmong(txid, outs, n - 1, wallet)
    + if Receives(outs[n - 1].script, wallet) then [Coin(KeyOf(txid, n - 1), outs[n - 1].value)] else []
  }

  function CoinsOf(sha256: seq<byte> -> seq<byte>, raw: seq<byte>, wallet: Hash160s): seq<Coin> {
    CoinsAmong(TxidOf(sha256, raw), OutsOf(raw), |OutsOf(raw)|, wallet)
  }

  function AllCoins(sha256: seq<byte> -> seq<byte>, txs: seq<seq<byte>>, wallet: Hash160s): seq<Coin> {
    if txs == [] then [] else CoinsOf(sha256, txs[0], wallet) + AllCoins(sha256, txs[1..], wallet)
  }

  function AllSpends(txs: seq<seq<byte>>): seq<Outpoint> {
    if txs == [] then [] else SpendsOf(txs[0]) + AllSpends(txs[1..])
  }

  function Total(coins: seq<Coin>): int { if coins == [] then 0 else coins[0].value + Total(coins[1..]) }

  /** Value of the coins whose outpoint is (or is not) among the given ones. */
  function TotalIn(coins: seq<Coin>, ops: set<Outpoint>): int {
    if coins == [] then 0 else (if coins[0].op in ops then coins[0].value else 0) + TotalIn(coins[1..], ops)
  }

  function Unspent(coins: seq<Coin>, ops: set<Outpoint>): int {
    if coins == [] then 0 else (if coins[0].op in ops then 0 else coins[0].value) + Unspent(coins[1..], ops)
  }

  function ValueAt(coins: seq<Coin>, op: Outpoint): int {
    if coins == [] then 0 else if coins[0].op == op then coins[0].value else ValueAt(coins[1..], op)
  }

  predicate DistinctCoins(coins: seq<Coin>) { forall i, j | 0 <= i < j < |coins| :: coins[i].op != coins[j].op }
  predicate Distinct<T(==)>(s: seq<T>) { forall i, j | 0 <= i < j < |s| :: s[i] != s[j] }

  /** The index knows a wallet coin at the outpoint, and every outpoint the transaction spends
      is indexed, so that the spend is charged. */
  predicate Charged(ops: seq<Outpoint>, op: Outpoint, idx: Index) {
    !MissingPrevout(ops, idx) && op in idx && idx[op].walletRecv
  }

  /** Value of the wallet coins among the first n spends of one transaction that are not charged. */
  function Uncharged(ops: seq<Outpoint>, n: nat, coins: seq<Coin>, idx: Index): int
    requires n <= |ops|
  {
    if n == 0 then 0
    else Uncharged(ops, n - 1, coins, idx) + if Charged(ops, ops[n - 1], idx) then 0 else ValueAt(coins, ops[n - 1])
  }

  function AllUncharged(txs: seq<seq<byte>>, coins: seq<Coin>, idx: Index): int {
    if txs == [] then 0
    else Uncharged(SpendsOf(txs[0]), |SpendsOf(txs[0])|, coins, idx) + AllUncharged(txs[1..], coins, idx)
  }

  function NetSum(txs: seq<seq<byte>>, wallet: Hash160s, idx: Index): int {
    if txs == [] then 0 else NetOf(txs[0], wallet, idx).net + NetSum(txs[1..], wallet, idx)
  }

  /** The index holds no wallet coin that the set of transactions does not hold. */
  predicate IndexCovered(idx: Index, coins: seq<Coin>) {
    forall op | op in idx && idx[op].walletRecv :: Coin(op, idx[op].value) in coins
  }

  // ---- arithmetic of coins ----

  lemma {:induction false} TotalAppend(a: seq<Coin>, b: seq<Coin>)
    ensures Total(a + b) == Total(a) + Total(b)
  {
    if a == [] {
      assert a + b == b;
    } else {
      TotalAppend(a[1..], b);
      assert (a + b)[1..] == a[1..] + b;
    }
  }

  lemma {:induction false} TotalSplits(coins: seq<Coin>, ops: set<Outpoint>)
    ensures Total(coins) == Unspent(coins, ops) + TotalIn(coins, ops)
  {
    if coins != [] { TotalSplits(coins[1..], ops); }
  }

  lemma {:induction false} ValueOfCoin(coins: seq<Coin>, c: Coin)
    requires DistinctCoins(coins) && c in coins
    ensures ValueAt(coins, c.op) == c.value
  {
    if coins[0] != c { ValueOfCoin(coins[1..], c); }
  }

  lemma {:induction false} SpendOneMore(coins: seq<Coin>, ops: set<Outpoint>, op: Outpoint)
    requires DistinctCoins(coins) && op !in ops
    ensures TotalIn(coins, ops + {op}) == TotalIn(coins, ops) + ValueAt(coins, op)
  {
    if coins != [] {
      SpendOneMore(coins[1..], ops, op);
      if coins[0].op == op { NoCoinAt(coins[1..], op); }
    }
  }

  lemma {:induction false} NoCoinAt(coins: seq<Coin>, op: Outpoint)
    requires forall c | c in coins :: c.op != op
    ensures ValueAt(coins, op) == 0
  {
    if coins != [] { NoCoinAt(coins[1..], op); }
  }

  function ToSet(ops: seq<Outpoint>): set<Outpoint> { set op | op in ops }

  function ValuesAt(coins: seq<Coin>, ops: seq<Outpoint>): int {
    if ops == [] then 0 else ValueAt(coins, ops[|ops| - 1]) + ValuesAt(coins, ops[..|ops| - 1])
  }

  lemma {:induction false} SpentTotal(coins: seq<Coin>, ops: seq<Outpoint>)
    requires DistinctCoins(coins) && Distinct(ops)
    ensures TotalIn(coins, ToSet(ops)) == ValuesAt(coins, ops)
  {
    if ops == [] {
      NothingSpent(coins);
    } else {
      var init, last := ops[..|ops| - 1], ops[|ops| - 1];
      SpentTotal(coins, init);
      SpendOneMore(coins, ToSet(init), last);
      assert ToSet(ops) == ToSet(init) + {last};
    }
  }

  lemma {:induction false} NothingSpent(coins: seq<Coin>)
    ensures TotalIn(coins, ToSet([])) == 0
  {
    if coins != [] { NothingSpent(coins[1..]); }
  }

  lemma {:induction false} ValuesAtAppend(coins: seq<Coin>, a: seq<Outpoint>, b: seq<Outpoint>)
    ensures ValuesAt(coins, a + b) == ValuesAt(coins, a) + ValuesAt(coins, b)
  {
    if b == [] {
      assert a + b == a;
    } else {
      ValuesAtAppend(coins, a, b[..|b| - 1]);
      assert (a + b)[..|a + b| - 1] == a + b[..|b| - 1];
    }
  }

  // ---- one transaction's share ----

  lemma {:induction false} CoinsAreWalletOut(txid: string, outs: seq<TxOut>, n: nat, wallet: Hash160s)
    requires n <= |outs|
    ensures Total(CoinsAmong(txid, outs, n, wallet)) == FlowOf(outs, n, wallet).walletSats
  {
    if n > 0 {
      CoinsAreWalletOut(txid, outs, n - 1, wallet);
      var last := if Receives(outs[n - 1].script, wallet) then [Coin(KeyOf(txid, n - 1), outs[n - 1].value)] else [];
      TotalAppend(CoinsAmong(txid, outs, n - 1, wallet), last);
      var script := outs[n - 1].script;
      if P2pkhHash160(script).Some? { assert script[0] == script[..3][0]; }
    }
  }

  lemma {:induction false} ChargesSplit(ops: seq<Outpoint>, n: nat, coins: seq<Coin>, idx: Index)
    requires n <= |ops| && DistinctCoins(coins) && IndexCovered(idx, coins)
    ensures ValuesAt(coins, ops[..n]) - Uncharged(ops, n, coins, idx)
         == if MissingPrevout(ops, idx) then 0 else IndexedDebit(ops, n, idx)
  {
    if n > 0 {
      ChargesSplit(ops, n - 1, coins, idx);
      var op := ops[n - 1];
      assert ops[..n][..n - 1] == ops[..n - 1];
      if op in idx && idx[op].walletRecv { ValueOfCoin(coins, Coin(op, idx[op].value)); }
    }
  }

  lemma {:induction false} NetOfOne(sha256: seq<byte> -> seq<byte>, raw: seq<byte>, wallet: Hash160s, coins: seq<Coin>, idx: Index)
    requires NetOf(raw, wallet, idx).complete
    requires DistinctCoins(coins) && IndexCovered(idx, coins)
    ensures NetOf(raw, wallet, idx).net ==
      Total(CoinsOf(sha256, raw, wallet)) - ValuesAt(coins, SpendsOf(raw)) + Uncharged(SpendsOf(raw), |SpendsOf(raw)|, coins, idx)
  {
    hide ValuesAt, Uncharged, IndexedDebit, ParsePrevouts, ParseOutputs, Total, CoinsAmong, IndexCovered, DistinctCoins, FlowOf;
    var ops := SpendsOf(raw);
    CoinsAreWalletOut(TxidOf(sha256, raw), OutsOf(raw), |OutsOf(raw)|, wallet);
    ChargesSplit(ops, |ops|, coins, idx);
    assert ops[..|ops|] == ops;
  }

  lemma {:induction false} NetOfAll(sha256: seq<byte> -> seq<byte>, txs: seq<seq<byte>>, wallet: Hash160s, coins: seq<Coin>, idx: Index)
    requires forall raw | raw in txs :: NetOf(raw, wallet, idx).complete
    requires DistinctCoins(coins) && IndexCovered(idx, coins)
    ensures NetSum(txs, wallet, idx) ==
      Total(AllCoins(sha256, txs, wallet)) - ValuesAt(coins, AllSpends(txs)) + AllUncharged(txs, coins, idx)
  {
    if txs != [] {
      NetOfOne(sha256, txs[0], wallet, coins, idx);
      NetOfAll(sha256, txs[1..], wallet, coins, idx);
      TotalAppend(CoinsOf(sha256, txs[0], wallet), AllCoins(sha256, txs[1..], wallet));
      ValuesAtAppend(coins, SpendsOf(txs[0]), AllSpends(txs[1..]));
    }
  }

  // ---- where the outputs of one transaction go ----

  /** Value to the wallet, value anywhere else, and value that counts as neither: in OP_RETURN
      outputs and, where it is negative, in outputs that are not P2PKH. */
  datatype Split = Split(wallet: int, external: int, ignored: int)

  function SplitOf(o: TxOut, wallet: Hash160s): Split {
    var v := o.value as int;
    if o.script != [] && o.script[0] == 0x6a then Split(0, 0, v)
    else if exists h | h in wallet :: |h| == 20 && o.script == [0x76, 0xa9, 0x14] + h + [0x88, 0xac] then Split(v, 0, 0)
    else if v >= 0 || P2pkhHash160(o.script).Some? then Split(0, v, 0)
    else Split(0, 0, v)
  }

  function Splits(outs: seq<TxOut>, wallet: Hash160s): Split {
    if outs == [] then Split(0, 0, 0) else
    var first, rest := SplitOf(outs[0], wallet), Splits(outs[1..], wallet);
    Split(first.wallet + rest.wallet, first.external + rest.external, first.ignored + rest.ignored)
  }

  /** The value of the first output to a P2PKH script that is not the wallet's. */
  function Counterparty(outs: seq<TxOut>, wallet: Hash160s): Option<int> {
    if outs == [] then None
    else if P2pkhHash160(outs[0].script).Some? && !Receives(outs[0].script, wallet) then Some(outs[0].value)
    else Counterparty(outs[1..], wallet)
  }

  lemma {:induction false} SplitsSnoc(outs: seq<TxOut>, o: TxOut, wallet: Hash160s)
    ensures var before, last := Splits(outs, wallet), SplitOf(o, wallet);
      Splits(outs + [o], wallet) == Split(before.wallet + last.wallet, before.external + last.external, before.ignored + last.ignored)
    ensures Counterparty(outs + [o], wallet) == match Counterparty(outs, wallet)
      case Some(v) => Some(v)
      case None => if P2pkhHash160(o.script).Some? && !Receives(o.script, wallet) then Some(o.value) else None
  {
    hide SplitOf, P2pkhHash160, Receives;
    if outs == [] {
      assert outs + [o] == [o] && [o][1..] == [];
    } else {
      SplitsSnoc(outs[1..], o, wallet);
      assert (outs + [o])[1..] == outs[1..] + [o];
    }
  }

  lemma {:induction false} AddedToFlow(f: Flow, o: TxOut, wallet: Hash160s)
    ensures var g, split := AddToFlow(f, o, wallet), SplitOf(o, wallet);
      && g.walletSats == f.walletSats + split.wallet && g.externalSats == f.externalSats + split.external
      && g.counterpartySats == (if f.counterpartySats == None && P2pkhHash160(o.script).Some? && !Receives(o.script, wallet)
                                then Some(o.value) else f.counterpartySats)
  {
    var h := P2pkhHash160(o.script);
    if h.Some? {
      HashOfP2pkh(o.script, h.value);
      assert o.script[0] == ([0x76, 0xa9, 0x14] + h.value + [0x88, 0xac])[0];
    }
    if other :| other in wallet && |other| == 20 && o.script == [0x76, 0xa9, 0x14] + other + [0x88, 0xac] {
      HashOfP2pkh(o.script, other);
    }
  }

  /** The totals of an output list, whatever the values: what goes to the wallet's own P2PKH
      scripts, what goes anywhere else outside OP_RETURN, and the first foreign P2PKH value. */
  lemma {:induction false} FlowIsSplit(outs: seq<TxOut>, n: nat, wallet: Hash160s)
    requires n <= |outs|
    ensures var f, split := FlowOf(outs, n, wallet), Splits(outs[..n], wallet);
      f.walletSats == split.wallet && f.externalSats == split.external && f.counterpartySats == Counterparty(outs[..n], wallet)
  {
    hide SplitOf, AddToFlow, P2pkhHash160, Receives;
    if n > 0 {
      FlowIsSplit(outs, n - 1, wallet);
      AddedToFlow(FlowOf(outs, n - 1, wallet), outs[n - 1], wallet);
      SplitsSnoc(outs[..n - 1], outs[n - 1], wallet);
      assert outs[..n] == outs[..n - 1] + [outs[n - 1]];
    }
  }

  lemma {:induction false} SplitsConserve(outs: seq<TxOut>, wallet: Hash160s)
    ensures var split := Splits(outs, wallet); split.wallet + split.external + split.ignored == BaseTx.TotalOut(outs)
  {
    if outs != [] { SplitsConserve(outs[1..], wallet); }
  }

  /** Nothing of a transaction's value goes unnoticed: wallet, external and ignored value add up to
      all of it, and the counterparty is the first foreign P2PKH output. */
  lemma {:induction false} FlowConserves(raw: seq<byte>, wallet: Hash160s)
    ensures DecodeFlow(raw, wallet).Some? <==> ParseOutputs(raw).Some?
    ensures DecodeFlow(raw, wallet).Some? ==>
      var f, outs := DecodeFlow(raw, wallet).value, ParseOutputs(raw).value;
      && f.walletSats + f.externalSats + Splits(outs, wallet).ignored == BaseTx.TotalOut(outs)
      && f.walletSats == Splits(outs, wallet).wallet && f.externalSats == Splits(outs, wallet).external
      && f.counterpartySats == Counterparty(outs, wallet)
  {
    hide ParseOutputs, Splits, Counterparty, FlowOf;
    if ParseOutputs(raw).Some? {
      var outs := ParseOutputs(raw).value;
      FlowIsSplit(outs, |outs|, wallet);
      assert outs[..|outs|] == outs;
      SplitsConserve(outs, wallet);
    }
  }

  /** Some value leaves: a positive output that is neither the wallet's nor OP_RETURN. */
  predicate PaysOthers(outs: seq<TxOut>, wallet: Hash160s) {
    exists i | 0 <= i < |outs| :: SplitOf(outs[i], wallet).external > 0
  }

  lemma {:induction false} ExternalIff(outs: seq<TxOut>, wallet: Hash160s)
    requires forall i | 0 <= i < |outs| :: outs[i].value >= 0
    ensures Splits(outs, wallet).external >= 0
    ensures Splits(outs, wallet).external > 0 <==> PaysOthers(outs, wallet)
  {
    hide SplitOf;
    if outs != [] {
      ExternalIff(outs[1..], wallet);
      ExternalNotNegative(outs[0], wallet);
      if PaysOthers(outs[1..], wallet) {
        var i :| 0 <= i < |outs[1..]| && SplitOf(outs[1..][i], wallet).external > 0;
        assert SplitOf(outs[i + 1], wallet).external > 0;
      }
      if PaysOthers(outs, wallet) && SplitOf(outs[0], wallet).external <= 0 {
        var i :| 0 <= i < |outs| && SplitOf(outs[i], wallet).external > 0;
        assert SplitOf(outs[1..][i - 1], wallet).external > 0;
      }
    }
  }

  lemma {:induction false} ExternalNotNegative(o: TxOut, wallet: Hash160s)
    requires o.value >= 0
    ensures SplitOf(o, wallet).external >= 0
  {
  }

  /** A net is taken as complete exactly when every prevout is indexed, or the transaction pays
      the wallet and no one else; then it is what the wallet receives less what is charged. */
  lemma {:induction false} CompleteIff(raw: seq<byte>, wallet: Hash160s, idx: Index)
    requires ParsePrevouts(raw).Some? && ParseOutputs(raw).Some?
    requires forall i | 0 <= i < |ParseOutputs(raw).value| :: ParseOutputs(raw).value[i].value >= 0
    ensures var ops, outs, net := ParsePrevouts(raw).value, ParseOutputs(raw).value, NetOf(raw, wallet, idx);
            var missing := exists i | 0 <= i < |ops| :: ops[i].txid != "" && ops[i] !in idx;
      && (net.complete <==> !missing || (Splits(outs, wallet).wallet > 0 && !PaysOthers(outs, wallet)))
      && (net.complete ==> net.walletOut == Splits(outs, wallet).wallet && net.net == net.walletOut - net.walletIn && (missing ==> net.walletIn == 0))
  {
    hide ParsePrevouts, ParseOutputs, Splits, PaysOthers, FlowOf, IndexedDebit;
    FlowConserves(raw, wallet);
    ExternalIff(ParseOutputs(raw).value, wallet);
  }

  // ---- distinct txids give distinct coins ----

  lemma {:induction false} CoinsAmongShape(txid: string, outs: seq<TxOut>, n: nat, wallet: Hash160s)
    requires n <= |outs| <= 0x1_0000_0000
    ensures var coins := CoinsAmong(txid, outs, n, wallet);
      && DistinctCoins(coins)
      && (forall c | c in coins :: c.op.txid == txid && c.op.vout < n)
      && (forall v | 0 <= v < n && Receives(outs[v].script, wallet) :: Coin(KeyOf(txid, v), outs[v].value) in coins)
  {
    if n > 0 { CoinsAmongShape(txid, outs, n - 1, wallet); }
  }

  predicate Ledger(sha256: seq<byte> -> seq<byte>, txs: seq<seq<byte>>) {
    && (forall raw | raw in txs :: LedgerTx(sha256, raw))
    && (forall i, j | 0 <= i < j < |txs| :: TxidOf(sha256, txs[i]) != TxidOf(sha256, txs[j]))
  }

  lemma {:induction false} AllCoinsShape(sha256: seq<byte> -> seq<byte>, txs: seq<seq<byte>>, wallet: Hash160s)
    requires Ledger(sha256, txs)
    ensures var coins := AllCoins(sha256, txs, wallet);
      && DistinctCoins(coins)
      && (forall c | c in coins :: exists k | 0 <= k < |txs| :: c.op.txid == TxidOf(sha256, txs[k]))
      && (forall k, c | 0 <= k < |txs| && c in CoinsOf(sha256, txs[k], wallet) :: c in coins)
  {
    if txs != [] {
      var first, rest := CoinsOf(sha256, txs[0], wallet), AllCoins(sha256, txs[1..], wallet);
      assert txs[0] in txs;
      CoinsAmongShape(TxidOf(sha256, txs[0]), OutsOf(txs[0]), |OutsOf(txs[0])|, wallet);
      AllCoinsShape(sha256, txs[1..], wallet);
      assert forall c | c in rest :: c.op.txid != TxidOf(sha256, txs[0]);
      DistinctAppend(first, rest);
      forall k, c | 0 <= k < |txs| && c in CoinsOf(sha256, txs[k], wallet)
        ensures c in first + rest
      {
        if k > 0 { assert txs[k] == txs[1..][k - 1]; }
      }
      forall c | c in first + rest
        ensures exists k | 0 <= k < |txs| :: c.op.txid == TxidOf(sha256, txs[k])
      {
        if c in first {
          assert c.op.txid == TxidOf(sha256, txs[0]);
        } else {
          var k :| 0 <= k < |txs[1..]| && c.op.txid == TxidOf(sha256, txs[1..][k]);
          assert c.op.txid == TxidOf(sha256, txs[k + 1]);
        }
      }
    }
  }

  lemma {:induction false} DistinctAppend(a: seq<Coin>, b: seq<Coin>)
    requires DistinctCoins(a) && DistinctCoins(b)
    requires forall c, d | c in a && d in b :: c.op != d.op
    ensures DistinctCoins(a + b)
  {
  }

  // ---- what the index holds ----

  predicate ListedAt(l: Listed, v: nat, wallet: Hash160s, op: Outpoint, m: PrevoutMeta) {
    v < |l.outs| && op == KeyOf(l.txid, v) && m == MetaOf(l.outs[v], wallet)
  }

  /** An index entry comes from an output of one of the first n listed transactions. */
  ghost predicate FromListed(listed: seq<Listed>, n: nat, wallet: Hash160s, op: Outpoint, m: PrevoutMeta)
    requires n <= |listed|
  {
    exists k, v: nat | 0 <= k < n :: ListedAt(listed[k], v, wallet, op, m)
  }

  lemma {:induction false} IndexOutsEntry(idx: Index, l: Listed, n: nat, wallet: Hash160s, op: Outpoint)
    requires n <= |l.outs| && op in IndexOuts(idx, l, n, wallet)
    ensures var m := IndexOuts(idx, l, n, wallet)[op];
      (op in idx && m == idx[op]) || exists v: nat :: ListedAt(l, v, wallet, op, m)
  {
    if n > 0 {
      if op == KeyOf(l.txid, n - 1) {
        assert ListedAt(l, n - 1, wallet, op, MetaOf(l.outs[n - 1], wallet));
      } else {
        IndexOutsEntry(idx, l, n - 1, wallet, op);
      }
    }
  }

  lemma {:induction false} IndexIsListed(listed: seq<Listed>, n: nat, wallet: Hash160s, op: Outpoint)
    requires n <= |listed| && op in BuildIndex(listed, n, wallet)
    ensures FromListed(listed, n, wallet, op, BuildIndex(listed, n, wallet)[op])
  {
    if n > 0 {
      var before, l := BuildIndex(listed, n - 1, wallet), listed[n - 1];
      IndexOutsEntry(before, l, |l.outs|, wallet, op);
      if op in before { IndexIsListed(listed, n - 1, wallet, op); }
    }
  }

  lemma {:induction false} OutsAreIndexed(idx: Index, l: Listed, n: nat, wallet: Hash160s, op: Outpoint)
    requires n <= |l.outs|
    ensures var r := IndexOuts(idx, l, n, wallet);
      && (op in idx ==> op in r) && (op in idx && op.txid != l.txid ==> r[op] == idx[op])
      && forall v | 0 <= v < n :: KeyOf(l.txid, v) in r
  {
    if n > 0 { OutsAreIndexed(idx, l, n - 1, wallet, op); }
  }

  lemma {:induction false} OutMeta(idx: Index, l: Listed, n: nat, wallet: Hash160s, v: nat)
    requires v < n <= |l.outs| <= 0x1_0000_0000
    ensures var r := IndexOuts(idx, l, n, wallet);
      Outpoint(l.txid, v) in r && r[Outpoint(l.txid, v)] == PrevoutMeta(l.outs[v].value, Receives(l.outs[v].script, wallet))
  {
    if v < n - 1 { OutMeta(idx, l, n - 1, wallet, v); }
  }

  /** Every output of every listed transaction is in the index, with its own value and ownership
      when nothing listed later under that txid has other outputs. */
  lemma {:induction false} ListedIsIndexed(listed: seq<Listed>, n: nat, wallet: Hash160s, k: nat, v: nat)
    requires k < n <= |listed| && v < |listed[k].outs|
    ensures var idx := BuildIndex(listed, n, wallet);
            var o := listed[k].outs[v];
      && KeyOf(listed[k].txid, v) in idx
      && (|listed[k].outs| <= 0x1_0000_0000 && SameLater(listed, n, k) ==>
            Outpoint(listed[k].txid, v) in idx && idx[Outpoint(listed[k].txid, v)] == PrevoutMeta(o.value, Receives(o.script, wallet)))
  {
    var before, l := BuildIndex(listed, n - 1, wallet), listed[n - 1];
    OutsAreIndexed(before, l, |l.outs|, wallet, KeyOf(listed[k].txid, v));
    if |listed[k].outs| <= 0x1_0000_0000 && SameLater(listed, n, k) {
      if l.outs == listed[k].outs && l.txid == listed[k].txid {
        OutMeta(before, l, |l.outs|, wallet, v);
      } else {
        ListedIsIndexed(listed, n - 1, wallet, k, v);
      }
    }
    if k < n - 1 { ListedIsIndexed(listed, n - 1, wallet, k, v); }
  }

  predicate SameLater(listed: seq<Listed>, n: nat, k: nat)
    requires k < n <= |listed|
  {
    forall j | k < j < n && listed[j].txid == listed[k].txid :: listed[j].outs == listed[k].outs
  }

  /** The same from the texts: hexadecimal text of at least ten bytes that parses and hashes to a
      txid is listed with all its outputs. */
  lemma {:induction false} TextIsIndexed(sha256: seq<byte> -> seq<byte>, rawHexes: seq<string>, wallet: Hash160s, k: nat, raw: seq<byte>, v: nat)
    requires k < |rawHexes| && HexDecode(Trim(rawHexes[k])) == Some(raw) && |raw| >= 10 && |sha256(sha256(raw))| == 32
    requires ParseLegacyOutputs(raw).Some? && v < |ParseLegacyOutputs(raw).value| <= 0x1_0000_0000
    requires SameLater(AllListed(sha256, rawHexes), |rawHexes|, k)
    ensures var idx := BuildIndex(AllListed(sha256, rawHexes), |rawHexes|, wallet);
            var o, op := ParseLegacyOutputs(raw).value[v], Outpoint(HexEncode(Reverse(sha256(sha256(raw)))), v);
      op in idx && idx[op] == PrevoutMeta(o.value, Receives(o.script, wallet))
  {
    hide BuildIndex, ParseLegacyOutputs, SameLater, Receives, HexDecode, Trim, RawOf;
    RawOfText(rawHexes[k]);
    TextIsListed(sha256, rawHexes[k], raw);
    ListedIsIndexed(AllListed(sha256, rawHexes), |rawHexes|, wallet, k, v);
  }

  lemma {:induction false} TextIsListed(sha256: seq<byte> -> seq<byte>, rawHex: string, raw: seq<byte>)
    requires RawOf(rawHex) == Some(raw) && |raw| >= 10 && |sha256(sha256(raw))| == 32 && ParseLegacyOutputs(raw).Some?
    ensures ListedOf(sha256, rawHex) == Listed(HexEncode(Reverse(sha256(sha256(raw)))), ParseLegacyOutputs(raw).value)
  {
    hide ParseLegacyOutputs;
    DisplayIsNormalized(sha256(sha256(raw)));
    assert |Display(sha256(sha256(raw)))| == 64;
  }

  /** A text is read in any case and without the space around it. */
  lemma {:induction false} RawOfText(rawHex: string)
    ensures RawOf(rawHex) == if Trim(rawHex) == "" then None else HexDecode(Trim(rawHex))
  {
    LowerThenTrim(rawHex);
    LowerDecodes(Trim(rawHex));
  }

  predicate PaysWallet(l: Listed, wallet: Hash160s) {
    exists v | 0 <= v < |l.outs| :: Receives(l.outs[v].script, wallet)
  }

  /** Every listed transaction with an indexed output to the wallet is in the ledger. */
  predicate PayersInLedger(sha256: seq<byte> -> seq<byte>, rawHexes: seq<string>, txs: seq<seq<byte>>, wallet: Hash160s) {
    forall k | 0 <= k < |rawHexes| && PaysWallet(ListedOf(sha256, rawHexes[k]), wallet) ::
      RawOf(rawHexes[k]).Some? && RawOf(rawHexes[k]).value in txs
  }

  lemma {:induction false} ListedEntryIsCoin(sha256: seq<byte> -> seq<byte>, rawHexes: seq<string>, txs: seq<seq<byte>>, wallet: Hash160s,
                          op: Outpoint, m: PrevoutMeta)
    requires Ledger(sha256, txs) && PayersInLedger(sha256, rawHexes, txs, wallet)
    requires FromListed(AllListed(sha256, rawHexes), |rawHexes|, wallet, op, m) && m.walletRecv
    ensures Coin(op, m.value) in AllCoins(sha256, txs, wallet)
  {
    var listed := AllListed(sha256, rawHexes);
    var k, v: nat :| 0 <= k < |rawHexes| && ListedAt(listed[k], v, wallet, op, m);
    var l := ListedOf(sha256, rawHexes[k]);
    assert Receives(l.outs[v].script, wallet);
    assert PaysWallet(l, wallet);
    ListedCoin(sha256, txs, RawOf(rawHexes[k]).value, v, wallet);
  }

  /** When every listed transaction with an output to the wallet is in the ledger, the ledger
      covers the index. */
  lemma {:induction false} ListedIndexIsCovered(sha256: seq<byte> -> seq<byte>, rawHexes: seq<string>, txs: seq<seq<byte>>, wallet: Hash160s)
    requires Ledger(sha256, txs) && PayersInLedger(sha256, rawHexes, txs, wallet)
    ensures IndexCovered(BuildIndex(AllListed(sha256, rawHexes), |rawHexes|, wallet), AllCoins(sha256, txs, wallet))
  {
    var listed, coins := AllListed(sha256, rawHexes), AllCoins(sha256, txs, wallet);
    var idx := BuildIndex(listed, |rawHexes|, wallet);
    forall op | op in idx && idx[op].walletRecv
      ensures Coin(op, idx[op].value) in coins
    {
      IndexIsListed(listed, |rawHexes|, wallet, op);
      ListedEntryIsCoin(sha256, rawHexes, txs, wallet, op, idx[op]);
    }
  }

  lemma {:induction false} ListedCoin(sha256: seq<byte> -> seq<byte>, txs: seq<seq<byte>>, raw: seq<byte>, v: nat, wallet: Hash160s)
    requires Ledger(sha256, txs) && raw in txs
    requires v < |ListedRaw(sha256, raw).outs| && Receives(ListedRaw(sha256, raw).outs[v].script, wallet)
    ensures var l := ListedRaw(sha256, raw); Coin(KeyOf(l.txid, v), l.outs[v].value) in AllCoins(sha256, txs, wallet)
  {
    var j :| 0 <= j < |txs| && txs[j] == raw;
    LegacyOutsAgree(sha256, raw);
    CoinsAmongShape(TxidOf(sha256, raw), OutsOf(raw), |OutsOf(raw)|, wallet);
    AllCoinsShape(sha256, txs, wallet);
    assert Coin(KeyOf(TxidOf(sha256, raw), v), OutsOf(raw)[v].value) in CoinsOf(sha256, txs[j], wallet);
  }

  lemma {:induction false} LegacyOutsAgree(sha256: seq<byte> -> seq<byte>, raw: seq<byte>)
    requires LedgerTx(sha256, raw)
    ensures ListedRaw(sha256, raw) == Listed(TxidOf(sha256, raw), OutsOf(raw))
  {
  }

  // ---- conservation ----

  /** Over a ledger that covers the index, all nets complete and no outpoint spent twice, the
      nets add up to the wallet value left unspent plus the wallet value spent without being
      charged, and nothing else. */
  lemma {:induction false} Conservation(sha256: seq<byte> -> seq<byte>, txs: seq<seq<byte>>, wallet: Hash160s, idx: Index)
    requires Ledger(sha256, txs) && Distinct(AllSpends(txs))
    requires forall raw | raw in txs :: NetOf(raw, wallet, idx).complete
    requires IndexCovered(idx, AllCoins(sha256, txs, wallet))
    ensures var coins := AllCoins(sha256, txs, wallet);
      NetSum(txs, wallet, idx) == Unspent(coins, ToSet(AllSpends(txs))) + AllUncharged(txs, coins, idx)
  {
    var coins, spends := AllCoins(sha256, txs, wallet), AllSpends(txs);
    AllCoinsShape(sha256, txs, wallet);
    NetOfAll(sha256, txs, wallet, coins, idx);
    TotalSplits(coins, ToSet(spends));
    SpentTotal(coins, spends);
  }

  // ---- what listed transactions settle ----

  /** Listings of one txid agree, as a collision-free hash makes them, and outputs have positions
      of 32 bits. */
  predicate Agree(listed: seq<Listed>) {
    && (forall j, k | 0 <= j < |listed| && 0 <= k < |listed| && listed[j].txid == listed[k].txid :: listed[j].outs == listed[k].outs)
    && (forall k | 0 <= k < |listed| :: |listed[k].outs| <= 0x1_0000_0000)
  }

  predicate IsListedOutput(listed: seq<Listed>, op: Outpoint) {
    exists k | 0 <= k < |listed| :: listed[k].txid == op.txid && op.vout < |listed[k].outs|
  }

  /** What the outpoint is worth to the wallet, looked up in the listed transactions themselves. */
  function ListedValue(listed: seq<Listed>, op: Outpoint, wallet: Hash160s): int {
    if listed == [] then 0
    else if listed[0].txid == op.txid && op.vout < |listed[0].outs| then
      var o := listed[0].outs[op.vout];
      if Receives(o.script, wallet) then o.value else 0
    else ListedValue(listed[1..], op, wallet)
  }

  lemma {:induction false} ListedValueIs(listed: seq<Listed>, k: nat, op: Outpoint, wallet: Hash160s)
    requires Agree(listed) && k < |listed| && listed[k].txid == op.txid && op.vout < |listed[k].outs|
    ensures ListedValue(listed, op, wallet) ==
      if Receives(listed[k].outs[op.vout].script, wallet) then listed[k].outs[op.vout].value as int else 0
  {
    if !(listed[0].txid == op.txid && op.vout < |listed[0].outs|) {
      assert k > 0 && listed[1..][k - 1] == listed[k];
      ListedValueIs(listed[1..], k - 1, op, wallet);
    }
  }

  lemma {:induction false} ListedIsSettled(listed: seq<Listed>, wallet: Hash160s, op: Outpoint)
    requires Agree(listed) && IsListedOutput(listed, op)
    ensures var idx := BuildIndex(listed, |listed|, wallet);
      op in idx && (if idx[op].walletRecv then idx[op].value else 0) == ListedValue(listed, op, wallet)
  {
    var k :| 0 <= k < |listed| && listed[k].txid == op.txid && op.vout < |listed[k].outs|;
    ListedIsIndexed(listed, |listed|, wallet, k, op.vout);
    ListedValueIs(listed, k, op, wallet);
    assert op == Outpoint(listed[k].txid, op.vout);
  }

  function SpentValue(listed: seq<Listed>, ops: seq<Outpoint>, wallet: Hash160s): int {
    if ops == [] then 0 else ListedValue(listed, ops[0], wallet) + SpentValue(listed, ops[1..], wallet)
  }

  lemma {:induction false} SpentValueSnoc(listed: seq<Listed>, ops: seq<Outpoint>, op: Outpoint, wallet: Hash160s)
    ensures SpentValue(listed, ops + [op], wallet) == SpentValue(listed, ops, wallet) + ListedValue(listed, op, wallet)
  {
    hide ListedValue;
    if ops == [] {
      assert ops + [op] == [op] && [op][1..] == [];
    } else {
      SpentValueSnoc(listed, ops[1..], op, wallet);
      assert (ops + [op])[1..] == ops[1..] + [op];
    }
  }

  lemma {:induction false} DebitIsSpent(listed: seq<Listed>, ops: seq<Outpoint>, n: nat, wallet: Hash160s)
    requires Agree(listed) && n <= |ops| && forall i | 0 <= i < n :: IsListedOutput(listed, ops[i])
    ensures IndexedDebit(ops, n, BuildIndex(listed, |listed|, wallet)) == SpentValue(listed, ops[..n], wallet)
  {
    hide ListedValue, BuildIndex, Agree, IsListedOutput;
    if n > 0 {
      DebitIsSpent(listed, ops, n - 1, wallet);
      ListedIsSettled(listed, wallet, ops[n - 1]);
      SpentValueSnoc(listed, ops[..n - 1], ops[n - 1], wallet);
      assert ops[..n] == ops[..n - 1] + [ops[n - 1]];
    }
  }

  /** A transaction that spends only outputs of listed transactions has a complete net: what its
      outputs pay the wallet, less what the wallet's own among the spent outputs are worth. */
  lemma {:induction false} ListedSpendsNet(listed: seq<Listed>, raw: seq<byte>, wallet: Hash160s)
    requires Agree(listed) && ParsePrevouts(raw).Some? && ParseOutputs(raw).Some?
    requires forall i | 0 <= i < |ParsePrevouts(raw).value| :: IsListedOutput(listed, ParsePrevouts(raw).value[i])
    ensures var paid, spent := Splits(ParseOutputs(raw).value, wallet).wallet, SpentValue(listed, ParsePrevouts(raw).value, wallet);
      NetOf(raw, wallet, BuildIndex(listed, |listed|, wallet)) == Net(paid - spent, spent, paid, true)
  {
    hide ParsePrevouts, ParseOutputs, Splits, BuildIndex, Agree, IsListedOutput, SpentValue, IndexedDebit;
    var ops := ParsePrevouts(raw).value;
    FlowConserves(raw, wallet);
    DebitIsSpent(listed, ops, |ops|, wallet);
    assert ops[..|ops|] == ops;
    forall i | 0 <= i < |ops| ensures ops[i] in BuildIndex(listed, |listed|, wallet) { ListedIsSettled(listed, wallet, ops[i]); }
  }

  predicate AllInputsListed(listed: seq<Listed>, txs: seq<seq<byte>>) {
    forall raw | raw in txs :: ParsePrevouts(raw).Some? && forall op | op in ParsePrevouts(raw).value :: IsListedOutput(listed, op)
  }

  predicate AllListedIn(sha256: seq<byte> -> seq<byte>, listed: seq<Listed>, txs: seq<seq<byte>>) {
    forall raw | raw in txs :: ListedRaw(sha256, raw) in listed
  }

  lemma {:induction false} CoinIsCharged(sha256: seq<byte> -> seq<byte>, listed: seq<Listed>, txs: seq<seq<byte>>, wallet: Hash160s, op: Outpoint)
    requires Ledger(sha256, txs) && Agree(listed) && AllListedIn(sha256, listed, txs)
    requires ValueAt(AllCoins(sha256, txs, wallet), op) != 0
    ensures var idx := BuildIndex(listed, |listed|, wallet); op in idx && idx[op].walletRecv
  {
    if txs != [] {
      var first := CoinsOf(sha256, txs[0], wallet);
      ValueAtAppend(first, AllCoins(sha256, txs[1..], wallet), op);
      assert txs[0] in txs;
      if ValueAt(first, op) != 0 {
        CoinOfTx(sha256, listed, txs[0], wallet, op);
      } else {
        assert forall raw | raw in txs[1..] :: raw in txs;
        CoinIsCharged(sha256, listed, txs[1..], wallet, op);
      }
    }
  }

  lemma {:induction false} ValueAtAppend(a: seq<Coin>, b: seq<Coin>, op: Outpoint)
    ensures ValueAt(a + b, op) != 0 ==> ValueAt(a, op) != 0 || ValueAt(b, op) != 0
  {
    if a == [] {
      assert a + b == b;
    } else {
      ValueAtAppend(a[1..], b, op);
      assert (a + b)[1..] == a[1..] + b;
    }
  }

  lemma {:induction false} CoinAmongOuts(txid: string, outs: seq<TxOut>, n: nat, wallet: Hash160s, op: Outpoint)
    requires n <= |outs| <= 0x1_0000_0000 && ValueAt(CoinsAmong(txid, outs, n, wallet), op) != 0
    ensures op.txid == txid && op.vout < n && Receives(outs[op.vout].script, wallet)
  {
    if n > 0 {
      var last := if Receives(outs[n - 1].script, wallet) then [Coin(KeyOf(txid, n - 1), outs[n - 1].value)] else [];
      ValueAtAppend(CoinsAmong(txid, outs, n - 1, wallet), last, op);
      if ValueAt(CoinsAmong(txid, outs, n - 1, wallet), op) != 0 { CoinAmongOuts(txid, outs, n - 1, wallet, op); }
    }
  }

  lemma {:induction false} CoinOfTx(sha256: seq<byte> -> seq<byte>, listed: seq<Listed>, raw: seq<byte>, wallet: Hash160s, op: Outpoint)
    requires LedgerTx(sha256, raw) && Agree(listed) && ListedRaw(sha256, raw) in listed
    requires ValueAt(CoinsOf(sha256, raw, wallet), op) != 0
    ensures var idx := BuildIndex(listed, |listed|, wallet); op in idx && idx[op].walletRecv
  {
    hide BuildIndex, ListedRaw, ValueAt;
    var l := ListedRaw(sha256, raw);
    LegacyOutsAgree(sha256, raw);
    CoinAmongOuts(TxidOf(sha256, raw), OutsOf(raw), |OutsOf(raw)|, wallet, op);
    var k :| 0 <= k < |listed| && listed[k] == l;
    ListedIsIndexed(listed, |listed|, wallet, k, op.vout);
    assert op == Outpoint(l.txid, op.vout);
  }

  lemma {:induction false} AllChargedIsFree(ops: seq<Outpoint>, n: nat, coins: seq<Coin>, idx: Index)
    requires n <= |ops| && forall op | op in ops :: Charged(ops, op, idx) || ValueAt(coins, op) == 0
    ensures Uncharged(ops, n, coins, idx) == 0
  {
    if n > 0 { AllChargedIsFree(ops, n - 1, coins, idx); }
  }

  lemma {:induction false} NothingUncharged(txs: seq<seq<byte>>, coins: seq<Coin>, idx: Index)
    requires forall raw | raw in txs :: !MissingPrevout(SpendsOf(raw), idx)
    requires forall op | ValueAt(coins, op) != 0 :: op in idx && idx[op].walletRecv
    ensures AllUncharged(txs, coins, idx) == 0
  {
    hide ValueAt, MissingPrevout;
    if txs != [] {
      AllChargedIsFree(SpendsOf(txs[0]), |SpendsOf(txs[0])|, coins, idx);
      NothingUncharged(txs[1..], coins, idx);
    }
  }

  lemma {:induction false} ListedInputsComplete(sha256: seq<byte> -> seq<byte>, listed: seq<Listed>, txs: seq<seq<byte>>, raw: seq<byte>, wallet: Hash160s)
    requires Ledger(sha256, txs) && Agree(listed) && AllInputsListed(listed, txs) && raw in txs
    ensures var idx := BuildIndex(listed, |listed|, wallet); NetOf(raw, wallet, idx).complete && !MissingPrevout(SpendsOf(raw), idx)
  {
    hide BuildIndex, ListedRaw, IsListedOutput;
    ListedSpendsNet(listed, raw, wallet);
    var ops := SpendsOf(raw);
    forall i | 0 <= i < |ops| ensures ops[i] in BuildIndex(listed, |listed|, wallet) { ListedIsSettled(listed, wallet, ops[i]); }
  }

  /** When the texts list every transaction of the ledger and every output the ledger spends, the
      nets add up to exactly the wallet value left unspent. */
  lemma {:induction false} ListedLedgerBalances(sha256: seq<byte> -> seq<byte>, rawHexes: seq<string>, txs: seq<seq<byte>>, wallet: Hash160s)
    requires Ledger(sha256, txs) && Distinct(AllSpends(txs)) && PayersInLedger(sha256, rawHexes, txs, wallet)
    requires var listed := AllListed(sha256, rawHexes); Agree(listed) && AllListedIn(sha256, listed, txs) && AllInputsListed(listed, txs)
    ensures var idx := BuildIndex(AllListed(sha256, rawHexes), |rawHexes|, wallet);
      NetSum(txs, wallet, idx) == Unspent(AllCoins(sha256, txs, wallet), ToSet(AllSpends(txs)))
  {
    hide BuildIndex, AllCoins, AllSpends, Ledger, AllListed, Agree, AllInputsListed, AllListedIn, PayersInLedger, MissingPrevout, ValueAt, NetOf, IndexCovered;
    var listed := AllListed(sha256, rawHexes);
    var idx, coins := BuildIndex(listed, |rawHexes|, wallet), AllCoins(sha256, txs, wallet);
    forall raw | raw in txs ensures NetOf(raw, wallet, idx).complete && !MissingPrevout(SpendsOf(raw), idx) {
      ListedInputsComplete(sha256, listed, txs, raw, wallet);
    }
    ListedIndexIsCovered(sha256, rawHexes, txs, wallet);
    Conservation(sha256, txs, wallet, idx);
    forall op | ValueAt(coins, op) != 0 ensures op in idx && idx[op].walletRecv {
      CoinIsCharged(sha256, listed, txs, wallet, op);
    }
    NothingUncharged(txs, coins, idx);
  }

  /** The spend is charged, or is not of a wallet coin with a positive value. */
  predicate ChargedOrFree(ops: seq<Outpoint>, op: Outpoint, coins: seq<Coin>, idx: Index) {
    Charged(ops, op, idx) || ValueAt(coins, op) == 0
  }

  predicate AllCharged(txs: seq<seq<byte>>, coins: seq<Coin>, idx: Index) {
    forall raw | raw in txs :: forall op | op in SpendsOf(raw) :: ChargedOrFree(SpendsOf(raw), op, coins, idx)
  }

  lemma {:induction false} ValueAtNonNegative(coins: seq<Coin>, op: Outpoint)
    requires forall c | c in coins :: c.value >= 0
    ensures ValueAt(coins, op) >= 0
  {
    if coins != [] { ValueAtNonNegative(coins[1..], op); }
  }

  lemma {:induction false} UnchargedIsZero(ops: seq<Outpoint>, n: nat, coins: seq<Coin>, idx: Index)
    requires n <= |ops| && forall c | c in coins :: c.value >= 0
    ensures Uncharged(ops, n, coins, idx) >= 0
    ensures Uncharged(ops, n, coins, idx) == 0 <==>
      forall k | 0 <= k < n :: ChargedOrFree(ops, ops[k], coins, idx)
  {
    if n > 0 {
      UnchargedIsZero(ops, n - 1, coins, idx);
      ValueAtNonNegative(coins, ops[n - 1]);
    }
  }

  lemma {:induction false} AllUnchargedIsZero(txs: seq<seq<byte>>, coins: seq<Coin>, idx: Index)
    requires forall c | c in coins :: c.value >= 0
    ensures AllUncharged(txs, coins, idx) >= 0
    ensures AllUncharged(txs, coins, idx) == 0 <==> AllCharged(txs, coins, idx)
  {
    if txs != [] {
      UnchargedIsZero(SpendsOf(txs[0]), |SpendsOf(txs[0])|, coins, idx);
      AllUnchargedIsZero(txs[1..], coins, idx);
      assert forall raw | raw in txs :: raw == txs[0] || raw in txs[1..];
      assert forall raw | raw in txs[1..] :: raw in txs;
    }
  }

  /** With coin values that are not negative, the nets equal the unspent wallet value exactly
      when no spend of a wallet coin goes uncharged: none has an unindexed outpoint, and none
      sits in a transaction with some other unindexed prevout. */
  lemma {:induction false} ConservationIff(sha256: seq<byte> -> seq<byte>, txs: seq<seq<byte>>, wallet: Hash160s, idx: Index)
    requires Ledger(sha256, txs) && Distinct(AllSpends(txs))
    requires forall raw | raw in txs :: NetOf(raw, wallet, idx).complete
    requires IndexCovered(idx, AllCoins(sha256, txs, wallet))
    requires forall c | c in AllCoins(sha256, txs, wallet) :: c.value >= 0
    ensures var coins := AllCoins(sha256, txs, wallet);
      NetSum(txs, wallet, idx) == Unspent(coins, ToSet(AllSpends(txs))) <==> AllCharged(txs, coins, idx)
  {
    Conservation(sha256, txs, wallet, idx);
    AllUnchargedIsZero(txs, AllCoins(sha256, txs, wallet), idx);
  }
}
