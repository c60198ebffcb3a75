/**
 The explorer's chain tables: what indexing a block writes, what a rollback deletes, and why a
 rollback leaves exactly what indexing the shorter branch would have written.
 */
module ChainTables {
  import opened Bytes
  import opened Text

  // ---- what the node reports ----

  datatype Vout = Vout(n: int, sats: int, addresses: seq<string>)

  /** A transaction as the node reports it; `verdict` is the classification of its raw bytes. */
  datatype ChainTx = ChainTx(txid: string, rawHex: string, verdict: string, vouts: seq<Vout>)
  datatype Block = Block(hash: string, time: int, txs: seq<ChainTx>)

  /** A branch from the genesis block; the index is the height. */
  type Chain = seq<Block>

  // ---- what the indexer makes of the node's texts ----

  /** Hashes and txids are trimmed and lower-cased, raw bytes and addresses trimmed. */
  function Tidy(s: string): string { Lower(Trim(s)) }

  function TidyVout(o: Vout): Vout {
    o.(addresses := seq(|o.addresses|, k requires 0 <= k < |o.addresses| => Trim(o.addresses[k])))
  }

  function TidyTx(tx: ChainTx): ChainTx {
    tx.(txid := Tidy(tx.txid), rawHex := Trim(tx.rawHex),
        vouts := seq(|tx.vouts|, j requires 0 <= j < |tx.vouts| => TidyVout(tx.vouts[j])))
  }

  function TidyBlock(b: Block): Block {
    b.(hash := Tidy(b.hash), txs := seq(|b.txs|, i requires 0 <= i < |b.txs| => TidyTx(b.txs[i])))
  }

  function TidyChain(c: Chain): (r: Chain)
    ensures |r| == |c|
  {
    seq(|c|, h requires 0 <= h < |c| => TidyBlock(c[h]))
  }

  /** A stored text read back and made tidy again is unchanged. */
  lemma {:induction false} TidyTwice(s: string)
    ensures Tidy(Tidy(s)) == Tidy(s)
  {
    var t := Trim(s);
    TrimmedEnds(s);
    LowerKeepsSpace(t);
    EndsNeedNoTrim(Lower(t));
    assert forall k | 0 <= k < |t| :: Lower(Lower(t))[k] == Lower(t)[k];
  }

  lemma {:induction false} TrimmedEnds(s: string)
    ensures var t := Trim(s); t != [] ==> !IsSpace(t[0]) && !IsSpace(t[|t| - 1])
    decreases |s|
  {
    if s != [] && IsSpace(s[0]) { TrimmedEnds(s[1..]); } else { RightKeepsFront(s); }
  }

  lemma {:induction false} RightKeepsFront(s: string)
    ensures var t := TrimRight(s); t <= s && (t != [] ==> !IsSpace(t[|t| - 1]))
  {
    if s != [] && IsSpace(s[|s| - 1]) { RightKeepsFront(s[..|s| - 1]); }
  }

  lemma {:induction false} LowerKeepsSpace(s: string)
    ensures forall k | 0 <= k < |s| :: IsSpace(Lower(s)[k]) <==> IsSpace(s[k])
  {
  }

  lemma {:induction false} EndsNeedNoTrim(s: string)
    requires s != [] ==> !IsSpace(s[0]) && !IsSpace(s[|s| - 1])
    ensures Trim(s) == s
  {
  }

  // ---- rows ----

  datatype BlockRow = BlockRow(hash: string, time: int, txCount: nat)
  datatype TxRow = TxRow(height: int, blockHash: string, time: int, verdict: string, valueOut: int, rawHex: string)
  datatype AddrKey = AddrKey(address: string, txid: string, vout: int)
  datatype AddrRow = AddrRow(sats: int, height: int)

  type TxTable = map<string, TxRow>
  type AddrTable = map<AddrKey, AddrRow>

  datatype Tables = Tables(blocks: map<int, BlockRow>, txs: TxTable, addresses: AddrTable)

  const EMPTY := Tables(map[], map[], map[])

  // ---- writing one block ----

  predicate IsTxid(s: string) { |s| == 64 && AllHex(s) }

  /** INSERT … ON CONFLICT DO NOTHING for the first n addresses of an output. */
  function InsertAddresses(m: AddrTable, txid: string, o: Vout, n: nat, height: int): AddrTable
    requires n <= |o.addresses|
  {
    if n == 0 then m else
    var prev := InsertAddresses(m, txid, o, n - 1, height);
    var key := AddrKey(o.addresses[n - 1], txid, o.n);
    if o.addresses[n - 1] == "" || key in prev then prev else prev[key := AddrRow(o.sats, height)]
  }

  function InsertVouts(m: AddrTable, tx: ChainTx, n: nat, height: int): AddrTable
    requires n <= |tx.vouts|
  {
    if n == 0 then m else
    InsertAddresses(InsertVouts(m, tx, n - 1, height), tx.txid, tx.vouts[n - 1], |tx.vouts[n - 1].addresses|, height)
  }

  function ValueOut(vouts: seq<Vout>, n: nat): int
    requires n <= |vouts|
  {
    if n == 0 then 0 else ValueOut(vouts, n - 1) + vouts[n - 1].sats
  }

  /** On conflict the position and value are replaced; the classification and raw bytes only
      when the new row has raw bytes. */
  function UpsertTx(m: TxTable, tx: ChainTx, b: Block, height: int): TxTable {
    var row := TxRow(height, b.hash, b.time, tx.verdict, ValueOut(tx.vouts, |tx.vouts|), tx.rawHex);
    m[tx.txid := if tx.txid in m && tx.rawHex == "" then row.(verdict := m[tx.txid].verdict, rawHex := m[tx.txid].rawHex) else row]
  }

  function IndexTx(t: Tables, tx: ChainTx, b: Block, height: int): Tables {
    if !IsTxid(tx.txid) then t
    else Tables(t.blocks, UpsertTx(t.txs, tx, b, height), InsertVouts(t.addresses, tx, |tx.vouts|, height))
  }

  function IndexTxs(t: Tables, b: Block, n: nat, height: int): Tables
    requires n <= |b.txs|
  {
    if n == 0 then t else IndexTx(IndexTxs(t, b, n - 1, height), b.txs[n - 1], b, height)
  }

  function PutBlock(t: Tables, b: Block, height: int): Tables {
    t.(blocks := t.blocks[height := BlockRow(b.hash, b.time, |b.txs|)])
  }

  function IndexBlock(t: Tables, b: Block, height: int): Tables {
    IndexTxs(PutBlock(t, b, height), b, |b.txs|, height)
  }

  /** The hash column is UNIQUE: writing the block fails when another height holds its hash. */
  predicate HashClash(t: Tables, b: Block, height: int) {
    exists h | h in t.blocks :: h != height && t.blocks[h].hash == b.hash
  }

  function Rollback(t: Tables, from: int): Tables {
    Tables(map h | h in t.blocks && h < from :: t.blocks[h],
           map k | k in t.txs && t.txs[k].height < from :: t.txs[k],
           map k | k in t.addresses && t.addresses[k].height < from :: t.addresses[k])
  }

  /** Indexing heights lo to hi of one branch into empty tables. */
  function Scratch(c: Chain, lo: int, hi: int): Tables
    requires 0 <= lo && hi < |c|
    decreases hi - lo
  {
    if hi < lo then EMPTY else IndexBlock(Scratch(c, lo, hi - 1), c[hi], hi)
  }

  // ---- branches ----

  function Txids(b: Block): set<string> { set i | 0 <= i < |b.txs| :: b.txs[i].txid }

  /** No txid appears in two blocks of the branch. */
  predicate UniqueTxids(c: Chain) {
    forall h, k | 0 <= h < k < |c| :: Txids(c[h]) !! Txids(c[k])
  }

  predicate ValidChain(c: Chain) {
    |c| >= 1 && UniqueTxids(c) && forall h | 0 <= h < |c| :: c[h].hash != ""
  }

  /** A block hash determines its height and the branch below it. */
  ghost predicate HashTree(cs: iset<Chain>) {
    forall c: Chain, d: Chain, h, k | c in cs && d in cs && 0 <= h < |c| && 0 <= k < |d| && c[h].hash == d[k].hash ::
      h == k && c[..h + 1] == d[..k + 1]
  }

  lemma {:induction false} ScratchOfPrefix(c: Chain, d: Chain, lo: int, hi: int)
    requires 0 <= lo && -1 <= hi < |c| && hi < |d| && c[..hi + 1] == d[..hi + 1]
    ensures Scratch(c, lo, hi) == Scratch(d, lo, hi)
    decreases hi - lo
  {
    if lo <= hi {
      assert c[hi] == c[..hi + 1][hi] == d[hi];
      assert c[..hi] == c[..hi + 1][..hi] == d[..hi];
      ScratchOfPrefix(c, d, lo, hi - 1);
    }
  }

  // ---- what one block changes ----

  /** Rows of transactions outside the block are untouched; rows of its transactions, if any,
      carry the given height. */
  ghost predicate OnlyTouches(t: Tables, u: Tables, ids: set<string>, height: int) {
    && (forall k | k !in ids :: (k in t.txs <==> k in u.txs) && (k in u.txs ==> u.txs[k] == t.txs[k]))
    && (forall k | k in u.txs && k in ids :: u.txs[k].height == height)
    && (forall k: AddrKey | k.txid !in ids :: (k in t.addresses <==> k in u.addresses) && (k in u.addresses ==> u.addresses[k] == t.addresses[k]))
    && (forall k | k in u.addresses && k.txid in ids :: u.addresses[k].height == height)
  }

  /** The tables hold no row of the given transactions. */
  ghost predicate NoneOf(t: Tables, ids: set<string>) {
    (forall k | k in t.txs :: k !in ids) && (forall k | k in t.addresses :: k.txid !in ids)
  }

  lemma {:induction false} AddressesTouchOnly(m: AddrTable, txid: string, o: Vout, n: nat, height: int)
    requires n <= |o.addresses|
    ensures var r := InsertAddresses(m, txid, o, n, height);
      && (forall k | k in m :: k in r && r[k] == m[k])
      && (forall k | k in r && k !in m :: k.txid == txid && r[k].height == height)
  {
    if n > 0 { AddressesTouchOnly(m, txid, o, n - 1, height); }
  }

  lemma {:induction false} VoutsTouchOnly(m: AddrTable, tx: ChainTx, n: nat, height: int)
    requires n <= |tx.vouts|
    ensures var r := InsertVouts(m, tx, n, height);
      && (forall k | k in m :: k in r && r[k] == m[k])
      && (forall k | k in r && k !in m :: k.txid == tx.txid && r[k].height == height)
  {
    if n > 0 {
      VoutsTouchOnly(m, tx, n - 1, height);
      AddressesTouchOnly(InsertVouts(m, tx, n - 1, height), tx.txid, tx.vouts[n - 1], |tx.vouts[n - 1].addresses|, height);
    }
  }

  lemma {:induction false} TxsTouchOnly(t: Tables, b: Block, n: nat, height: int)
    requires n <= |b.txs| && NoneOf(t, Txids(b))
    ensures IndexTxs(t, b, n, height).blocks == t.blocks
    ensures OnlyTouches(t, IndexTxs(t, b, n, height), Txids(b), height)
  {
    if n > 0 {
      TxsTouchOnly(t, b, n - 1, height);
      var prev, tx := IndexTxs(t, b, n - 1, height), b.txs[n - 1];
      assert tx.txid in Txids(b);
      VoutsTouchOnly(prev.addresses, tx, |tx.vouts|, height);
    }
  }

  lemma {:induction false} BlockTouchesOnly(t: Tables, b: Block, height: int)
    requires NoneOf(t, Txids(b))
    ensures IndexBlock(t, b, height).blocks == t.blocks[height := BlockRow(b.hash, b.time, |b.txs|)]
    ensures OnlyTouches(t, IndexBlock(t, b, height), Txids(b), height)
  {
    TxsTouchOnly(PutBlock(t, b, height), b, |b.txs|, height);
  }

  // ---- what a range holds ----

  /** Every row belongs to a height of the range, and to a transaction of the block there. */
  ghost predicate Within(t: Tables, c: Chain, lo: int, hi: int)
    requires 0 <= lo && hi < |c|
  {
    && (forall h :: h in t.blocks <==> lo <= h <= hi)
    && (forall h | h in t.blocks :: t.blocks[h] == BlockRow(c[h].hash, c[h].time, |c[h].txs|))
    && (forall k | k in t.txs :: lo <= t.txs[k].height <= hi && k in Txids(c[t.txs[k].height]))
    && (forall k | k in t.addresses :: lo <= t.addresses[k].height <= hi && k.txid in Txids(c[t.addresses[k].height]))
  }

  lemma {:induction false} NewBlockIsNew(t: Tables, c: Chain, lo: int, hi: int)
    requires UniqueTxids(c) && 0 <= lo && -1 <= hi < |c| - 1 && Within(t, c, lo, hi)
    ensures NoneOf(t, Txids(c[hi + 1]))
  {
  }

  lemma {:induction false} ScratchIsWithin(c: Chain, lo: int, hi: int)
    requires UniqueTxids(c) && 0 <= lo <= hi + 1 && hi < |c|
    ensures Within(Scratch(c, lo, hi), c, lo, hi)
    decreases hi - lo
  {
    if lo <= hi {
      var prev := Scratch(c, lo, hi - 1);
      ScratchIsWithin(c, lo, hi - 1);
      NewBlockIsNew(prev, c, lo, hi - 1);
      BlockTouchesOnly(prev, c[hi], hi);
      TouchedIsWithin(prev, IndexBlock(prev, c[hi], hi), c, lo, hi);
    }
  }

  lemma {:induction false} TouchedIsWithin(t: Tables, u: Tables, c: Chain, lo: int, hi: int)
    requires 0 <= lo <= hi < |c| && Within(t, c, lo, hi - 1)
    requires u.blocks == t.blocks[hi := BlockRow(c[hi].hash, c[hi].time, |c[hi].txs|)]
    requires OnlyTouches(t, u, Txids(c[hi]), hi)
    ensures Within(u, c, lo, hi)
  {
    forall k | k in u.txs ensures lo <= u.txs[k].height <= hi && k in Txids(c[u.txs[k].height]) {
      if k !in Txids(c[hi]) { assert u.txs[k] == t.txs[k]; }
    }
    forall k | k in u.addresses ensures lo <= u.addresses[k].height <= hi && k.txid in Txids(c[u.addresses[k].height]) {
      if k.txid !in Txids(c[hi]) { assert u.addresses[k] == t.addresses[k]; }
    }
  }

  lemma {:induction false} RollbackAbove(t: Tables, c: Chain, lo: int, hi: int, from: int)
    requires 0 <= lo && hi < |c| && hi < from && Within(t, c, lo, hi)
    ensures Rollback(t, from) == t
  {
    var r := Rollback(t, from);
    assert r.blocks == t.blocks;
    assert r.txs == t.txs;
    assert r.addresses == t.addresses;
  }

  lemma {:induction false} RollbackOfTouched(t: Tables, u: Tables, ids: set<string>, height: int, row: BlockRow, from: int)
    requires NoneOf(t, ids) && OnlyTouches(t, u, ids, height) && u.blocks == t.blocks[height := row]
    requires height !in t.blocks && from <= height
    ensures Rollback(u, from) == Rollback(t, from)
  {
    var r, s := Rollback(u, from), Rollback(t, from);
    assert r.blocks == s.blocks;
    forall k ensures (k in r.txs <==> k in s.txs) && (k in r.txs ==> r.txs[k] == s.txs[k]) {
      if k in ids { assert k !in r.txs && k !in s.txs; }
    }
    assert r.txs == s.txs;
    forall k ensures (k in r.addresses <==> k in s.addresses) && (k in r.addresses ==> r.addresses[k] == s.addresses[k]) {
      if k.txid in ids { assert k !in r.addresses && k !in s.addresses; }
    }
    assert r.addresses == s.addresses;
  }

  /** Rolling back from a height leaves exactly what indexing the branch up to the height below
      writes. */
  lemma {:induction false} RollbackUndoesIndexing(c: Chain, lo: int, hi: int, from: int)
    requires UniqueTxids(c) && 0 <= lo <= hi + 1 && hi < |c|
    ensures Rollback(Scratch(c, lo, hi), from) == Scratch(c, lo, if from <= hi then from - 1 else hi)
    decreases hi - lo
  {
    ScratchIsWithin(c, lo, hi);
    if hi < from {
      RollbackAbove(Scratch(c, lo, hi), c, lo, hi, from);
    } else if hi < lo {
      assert Rollback(EMPTY, from) == EMPTY;
    } else {
      var prev := Scratch(c, lo, hi - 1);
      ScratchIsWithin(c, lo, hi - 1);
      NewBlockIsNew(prev, c, lo, hi - 1);
      BlockTouchesOnly(prev, c[hi], hi);
      RollbackOfTouched(prev, IndexBlock(prev, c[hi], hi), Txids(c[hi]), hi, BlockRow(c[hi].hash, c[hi].time, |c[hi].txs|), from);
      RollbackUndoesIndexing(c, lo, hi - 1, from);
      if from <= hi - 1 {
      } else {
        assert from == hi;
      }
    }
  }

  // ---- what the tables say, without replaying the writes ----

  /** A txid is stored exactly when it is the hexadecimal text of 32 bytes. */
  lemma {:induction false} StoredTxids(s: string)
    ensures IsTxid(s) <==> HexDecode(s).Some? && |HexDecode(s).value| == 32
  {
    HexAccepts(s);
  }

  function Sum(xs: seq<int>): int { if xs == [] then 0 else xs[0] + Sum(xs[1..]) }

  function Sats(vouts: seq<Vout>): (xs: seq<int>)
    ensures |xs| == |vouts| && forall j | 0 <= j < |vouts| :: xs[j] == vouts[j].sats
  {
    seq(|vouts|, j requires 0 <= j < |vouts| => vouts[j].sats)
  }

  lemma {:induction false} SumSnoc(xs: seq<int>, x: int)
    ensures Sum(xs + [x]) == Sum(xs) + x
  {
    if xs == [] {
      assert xs + [x] == [x] && [x][1..] == [];
    } else {
      SumSnoc(xs[1..], x);
      assert (xs + [x])[1..] == xs[1..] + [x];
    }
  }

  lemma {:induction false} ValueOutIsSum(vouts: seq<Vout>, n: nat)
    requires n <= |vouts|
    ensures ValueOut(vouts, n) == Sum(Sats(vouts)[..n])
  {
    if n > 0 {
      ValueOutIsSum(vouts, n - 1);
      SumSnoc(Sats(vouts)[..n - 1], vouts[n - 1].sats);
      assert Sats(vouts)[..n] == Sats(vouts)[..n - 1] + [vouts[n - 1].sats];
    }
  }

  /** The last of the first n transactions listed under the txid. */
  function LastListing(b: Block, n: nat, id: string): (i: int)
    requires n <= |b.txs|
    ensures -1 <= i < n && (i >= 0 ==> b.txs[i].txid == id)
    ensures forall j | i < j < n :: b.txs[j].txid != id
  {
    if n == 0 then -1 else if b.txs[n - 1].txid == id then n - 1 else LastListing(b, n - 1, id)
  }

  /** The last of them that comes with raw bytes; without any, the first of them. */
  function BytesListing(b: Block, n: nat, id: string): (k: int)
    requires n <= |b.txs|
    ensures -1 <= k < n && (k == -1 <==> LastListing(b, n, id) == -1) && (k >= 0 ==> b.txs[k].txid == id)
    ensures k >= 0 && b.txs[k].rawHex != "" ==> forall j | k < j < n && b.txs[j].txid == id :: b.txs[j].rawHex == ""
    ensures k >= 0 && b.txs[k].rawHex == "" ==>
      (forall j | 0 <= j < n && b.txs[j].txid == id :: b.txs[j].rawHex == "") && forall j | 0 <= j < k :: b.txs[j].txid != id
  {
    if n == 0 then -1 else
    var before := BytesListing(b, n - 1, id);
    if b.txs[n - 1].txid == id && (before == -1 || b.txs[n - 1].rawHex != "") then n - 1 else before
  }

  /** The row of a txid listed in the block: place, time and value of its last listing, which is
      the sum of that listing's outputs; bytes and verdict of the last listing with bytes. */
  function BlockRowOf(b: Block, n: nat, id: string, height: int): TxRow
    requires n <= |b.txs| && LastListing(b, n, id) >= 0
  {
    var last, bytes := b.txs[LastListing(b, n, id)], b.txs[BytesListing(b, n, id)];
    TxRow(height, b.hash, b.time, bytes.verdict, Sum(Sats(last.vouts)), bytes.rawHex)
  }

  lemma {:induction false} IndexedTxRow(t: Tables, b: Block, n: nat, height: int, id: string)
    requires n <= |b.txs| && id !in t.txs
    ensures var u := IndexTxs(t, b, n, height);
      if IsTxid(id) && LastListing(b, n, id) >= 0 then id in u.txs && u.txs[id] == BlockRowOf(b, n, id, height) else id !in u.txs
  {
    hide InsertVouts, ValueOut, Sum, IsTxid;
    if n > 0 {
      IndexedTxRow(t, b, n - 1, height, id);
      var vouts := b.txs[n - 1].vouts;
      ValueOutIsSum(vouts, |vouts|);
      assert Sats(vouts)[..|vouts|] == Sats(vouts);
    }
  }

  /** The transaction is the only one of the block under its txid, which is well formed. */
  predicate OnlyListing(b: Block, i: nat) {
    i < |b.txs| && HexDecode(b.txs[i].txid).Some? && |HexDecode(b.txs[i].txid).value| == 32
    && forall j | 0 <= j < |b.txs| && j != i :: b.txs[j].txid != b.txs[i].txid
  }

  /** A later block of the branch leaves the rows of an earlier one alone. */
  lemma {:induction false} EarlierRowsStay(c: Chain, lo: int, hi: int, h: int, id: string)
    requires UniqueTxids(c) && 0 <= lo <= h < hi < |c| && id in Txids(c[h])
    ensures var t, u := Scratch(c, lo, hi - 1), Scratch(c, lo, hi);
      && (id in t.txs <==> id in u.txs) && (id in t.txs ==> u.txs[id] == t.txs[id])
      && (forall k | k in t.addresses && k.txid == id :: k in u.addresses && u.addresses[k] == t.addresses[k])
  {
    var prev := Scratch(c, lo, hi - 1);
    ScratchIsWithin(c, lo, hi - 1);
    NewBlockIsNew(prev, c, lo, hi - 1);
    BlockTouchesOnly(prev, c[hi], hi);
  }

  lemma {:induction false} NotYetIndexed(c: Chain, lo: int, hi: int, id: string)
    requires UniqueTxids(c) && 0 <= lo <= hi < |c| && id in Txids(c[hi])
    ensures var t := Scratch(c, lo, hi - 1);
      id !in t.txs && forall k | k in t.addresses :: k.txid != id
  {
    ScratchIsWithin(c, lo, hi - 1);
    NewBlockIsNew(Scratch(c, lo, hi - 1), c, lo, hi - 1);
  }

  /** Every txid listed in a block of the range has exactly the row that its own block gives it,
      if it is the text of 32 bytes, and none otherwise. */
  lemma {:induction false} ScratchTxRow(c: Chain, lo: int, hi: int, h: int, i: nat)
    requires UniqueTxids(c) && 0 <= lo <= h <= hi < |c| && i < |c[h].txs|
    ensures var t, b, id := Scratch(c, lo, hi), c[h], c[h].txs[i].txid;
      if HexDecode(id).Some? && |HexDecode(id).value| == 32 then id in t.txs && t.txs[id] == BlockRowOf(b, |b.txs|, id, h) else id !in t.txs
    decreases hi - lo
  {
    hide BlockRowOf, IsTxid, HexDecode;
    var id := c[h].txs[i].txid;
    assert id in Txids(c[h]);
    StoredTxids(id);
    if h == hi {
      NotYetIndexed(c, lo, hi, id);
      IndexedTxRow(PutBlock(Scratch(c, lo, hi - 1), c[hi], hi), c[hi], |c[hi].txs|, hi, id);
    } else {
      ScratchTxRow(c, lo, hi - 1, h, i);
      EarlierRowsStay(c, lo, hi, h, id);
    }
  }

  /** An output of the transaction that pays the address under a number no other output has. */
  predicate Pays(tx: ChainTx, j: nat, a: string) {
    && j < |tx.vouts| && a != "" && a in tx.vouts[j].addresses
    && forall k | 0 <= k < |tx.vouts| && k != j :: tx.vouts[k].n != tx.vouts[j].n
  }

  lemma {:induction false} InsertedAddress(m: AddrTable, txid: string, o: Vout, n: nat, height: int, a: string)
    requires n <= |o.addresses| && a != "" && AddrKey(a, txid, o.n) !in m
    ensures var r, key := InsertAddresses(m, txid, o, n, height), AddrKey(a, txid, o.n);
      if a in o.addresses[..n] then key in r && r[key] == AddrRow(o.sats, height) else key !in r
  {
    if n > 0 {
      InsertedAddress(m, txid, o, n - 1, height, a);
      assert o.addresses[..n] == o.addresses[..n - 1] + [o.addresses[n - 1]];
    }
  }

  lemma {:induction false} InsertedVout(m: AddrTable, tx: ChainTx, n: nat, height: int, j: nat, a: string)
    requires n <= |tx.vouts| && Pays(tx, j, a) && AddrKey(a, tx.txid, tx.vouts[j].n) !in m
    ensures var r, key := InsertVouts(m, tx, n, height), AddrKey(a, tx.txid, tx.vouts[j].n);
      if j < n then key in r && r[key] == AddrRow(tx.vouts[j].sats, height) else key !in r
  {
    if n > 0 {
      InsertedVout(m, tx, n - 1, height, j, a);
      var prev, o := InsertVouts(m, tx, n - 1, height), tx.vouts[n - 1];
      if n - 1 == j {
        InsertedAddress(prev, tx.txid, o, |o.addresses|, height, a);
        assert o.addresses[..|o.addresses|] == o.addresses;
      } else {
        OtherNumberStays(prev, tx.txid, o, |o.addresses|, height, AddrKey(a, tx.txid, tx.vouts[j].n));
      }
    }
  }

  lemma {:induction false} OtherNumberStays(m: AddrTable, txid: string, o: Vout, n: nat, height: int, key: AddrKey)
    requires n <= |o.addresses| && (key.vout != o.n || key.txid != txid)
    ensures var r := InsertAddresses(m, txid, o, n, height);
      (key in r <==> key in m) && (key in r ==> r[key] == m[key])
  {
    if n > 0 { OtherNumberStays(m, txid, o, n - 1, height, key); }
  }

  lemma {:induction false} OtherTxStays(m: AddrTable, tx: ChainTx, n: nat, height: int, key: AddrKey)
    requires n <= |tx.vouts| && key.txid != tx.txid
    ensures var r := InsertVouts(m, tx, n, height);
      (key in r <==> key in m) && (key in r ==> r[key] == m[key])
  {
    if n > 0 {
      OtherTxStays(m, tx, n - 1, height, key);
      OtherNumberStays(InsertVouts(m, tx, n - 1, height), tx.txid, tx.vouts[n - 1], |tx.vouts[n - 1].addresses|, height, key);
    }
  }

  lemma {:induction false} IndexedAddressRow(t: Tables, b: Block, n: nat, height: int, i: nat, j: nat, a: string)
    requires n <= |b.txs| && OnlyListing(b, i) && Pays(b.txs[i], j, a)
    requires AddrKey(a, b.txs[i].txid, b.txs[i].vouts[j].n) !in t.addresses
    ensures var u, key := IndexTxs(t, b, n, height), AddrKey(a, b.txs[i].txid, b.txs[i].vouts[j].n);
      if i < n then key in u.addresses && u.addresses[key] == AddrRow(b.txs[i].vouts[j].sats, height) else key !in u.addresses
  {
    StoredTxids(b.txs[i].txid);
    if n > 0 {
      IndexedAddressRow(t, b, n - 1, height, i, j, a);
      var prev, tx := IndexTxs(t, b, n - 1, height), b.txs[n - 1];
      if n - 1 == i {
        InsertedVout(prev.addresses, tx, |tx.vouts|, height, j, a);
      } else {
        OtherTxStays(prev.addresses, tx, |tx.vouts|, height, AddrKey(a, b.txs[i].txid, b.txs[i].vouts[j].n));
      }
    }
  }

  /** Every address an output of the range pays has the row of that output. */
  lemma {:induction false} ScratchAddressRow(c: Chain, lo: int, hi: int, h: int, i: nat, j: nat, a: string)
    requires UniqueTxids(c) && 0 <= lo <= h <= hi < |c| && OnlyListing(c[h], i) && Pays(c[h].txs[i], j, a)
    ensures var t, key := Scratch(c, lo, hi), AddrKey(a, c[h].txs[i].txid, c[h].txs[i].vouts[j].n);
      key in t.addresses && t.addresses[key] == AddrRow(c[h].txs[i].vouts[j].sats, h)
    decreases hi - lo
  {
    var id := c[h].txs[i].txid;
    assert id in Txids(c[h]);
    if h == hi {
      NotYetIndexed(c, lo, hi, id);
      IndexedAddressRow(PutBlock(Scratch(c, lo, hi - 1), c[hi], hi), c[hi], |c[hi].txs|, hi, i, j, a);
    } else {
      ScratchAddressRow(c, lo, hi - 1, h, i, j, a);
      EarlierRowsStay(c, lo, hi, h, id);
    }
  }

  // ---- from the node's own texts ----

  /** The tables that indexing a node's branch fills, read in terms of the texts the node sent:
      hash and txid trimmed and in lower case, raw bytes trimmed, everything else as it came. */
  lemma {:induction false} NodeTextsAreStored(c: Chain, lo: int, hi: int, h: int, i: nat)
    requires UniqueTxids(TidyChain(c)) && 0 <= lo <= h <= hi < |c| && OnlyListing(TidyBlock(c[h]), i)
    ensures var t, b, tx := Scratch(TidyChain(c), lo, hi), c[h], c[h].txs[i];
            var id := Lower(Trim(tx.txid));
      && h in t.blocks && t.blocks[h] == BlockRow(Lower(Trim(b.hash)), b.time, |b.txs|)
      && id in t.txs && t.txs[id] == TxRow(h, Lower(Trim(b.hash)), b.time, tx.verdict, Sum(Sats(tx.vouts)), Trim(tx.rawHex))
  {
    hide Trim, Lower, HexDecode;
    var tidy := TidyChain(c);
    ScratchIsWithin(tidy, lo, hi);
    ScratchTxRow(tidy, lo, hi, h, i);
    assert LastListing(tidy[h], |tidy[h].txs|, tidy[h].txs[i].txid) == i;
    assert BytesListing(tidy[h], |tidy[h].txs|, tidy[h].txs[i].txid) == i;
    assert Sats(tidy[h].txs[i].vouts) == Sats(c[h].txs[i].vouts);
  }

  /** The same of an address: trimmed, and stored unless nothing is left. */
  lemma {:induction false} NodeAddressIsStored(c: Chain, lo: int, hi: int, h: int, i: nat, j: nat, k: nat)
    requires UniqueTxids(TidyChain(c)) && 0 <= lo <= h <= hi < |c| && OnlyListing(TidyBlock(c[h]), i)
    requires j < |c[h].txs[i].vouts| && k < |c[h].txs[i].vouts[j].addresses|
    requires forall l | 0 <= l < |c[h].txs[i].vouts| && l != j :: c[h].txs[i].vouts[l].n != c[h].txs[i].vouts[j].n
    ensures var t, o := Scratch(TidyChain(c), lo, hi), c[h].txs[i].vouts[j];
            var key := AddrKey(Trim(o.addresses[k]), Lower(Trim(c[h].txs[i].txid)), o.n);
      if Trim(o.addresses[k]) == "" then key !in t.addresses else key in t.addresses && t.addresses[key] == AddrRow(o.sats, h)
  {
    hide Trim, Lower, HexDecode, IsTxid, Paid;
    var tidy := TidyChain(c);
    var a := Trim(c[h].txs[i].vouts[j].addresses[k]);
    assert tidy[h].txs[i].vouts[j].addresses[k] == a;
    if a != "" {
      ScratchAddressRow(tidy, lo, hi, h, i, j, a);
    } else {
      NoBlankAddress(tidy, lo, hi, AddrKey(a, tidy[h].txs[i].txid, tidy[h].txs[i].vouts[j].n));
    }
  }

  lemma {:induction false} NoBlankAddress(c: Chain, lo: int, hi: int, key: AddrKey)
    requires 0 <= lo && hi < |c| && key.address == ""
    ensures key !in Scratch(c, lo, hi).addresses
  {
    ScratchRowsAreReal(c, lo, hi);
  }

  // ---- no row without an output that pays it ----

  /** The row is that of an output of the transaction that lists the address. */
  predicate Paid(tx: ChainTx, n: nat, key: AddrKey, sats: int)
    requires n <= |tx.vouts|
  {
    && key.txid == tx.txid && key.address != ""
    && exists j | 0 <= j < n :: tx.vouts[j].n == key.vout && key.address in tx.vouts[j].addresses && sats == tx.vouts[j].sats
  }

  ghost predicate PaidInBlock(b: Block, n: nat, key: AddrKey, sats: int)
    requires n <= |b.txs|
  {
    exists i | 0 <= i < n :: Paid(b.txs[i], |b.txs[i].vouts|, key, sats)
  }

  lemma {:induction false} AddressesAreReal(m: AddrTable, txid: string, o: Vout, n: nat, height: int)
    requires n <= |o.addresses|
    ensures var r := InsertAddresses(m, txid, o, n, height);
      forall k | k in r :: (k in m && r[k] == m[k])
        || (k.txid == txid && k.vout == o.n && k.address != "" && k.address in o.addresses && r[k] == AddrRow(o.sats, height))
  {
    if n > 0 { AddressesAreReal(m, txid, o, n - 1, height); }
  }

  lemma {:induction false} VoutsAreReal(m: AddrTable, tx: ChainTx, n: nat, height: int)
    requires n <= |tx.vouts|
    ensures var r := InsertVouts(m, tx, n, height);
      forall k | k in r :: (k in m && r[k] == m[k]) || (Paid(tx, n, k, r[k].sats) && r[k].height == height)
  {
    if n > 0 {
      VoutsAreReal(m, tx, n - 1, height);
      var prev := InsertVouts(m, tx, n - 1, height);
      AddressesAreReal(prev, tx.txid, tx.vouts[n - 1], |tx.vouts[n - 1].addresses|, height);
    }
  }

  lemma {:induction false} BlockRowsAreReal(t: Tables, b: Block, n: nat, height: int)
    requires n <= |b.txs|
    ensures var u := IndexTxs(t, b, n, height);
      && (forall k | k in u.addresses :: (k in t.addresses && u.addresses[k] == t.addresses[k])
           || (IsTxid(k.txid) && PaidInBlock(b, n, k, u.addresses[k].sats) && u.addresses[k].height == height))
      && (forall id | id in u.txs :: id in t.txs || IsTxid(id))
  {
    hide IsTxid, Paid;
    if n > 0 {
      BlockRowsAreReal(t, b, n - 1, height);
      var prev, tx := IndexTxs(t, b, n - 1, height), b.txs[n - 1];
      VoutsAreReal(prev.addresses, tx, |tx.vouts|, height);
      forall k | k in IndexTxs(t, b, n, height).addresses && Paid(tx, |tx.vouts|, k, IndexTxs(t, b, n, height).addresses[k].sats)
        ensures PaidInBlock(b, n, k, IndexTxs(t, b, n, height).addresses[k].sats) && k.txid == tx.txid
      {
        PaidHasTxid(tx, |tx.vouts|, k, IndexTxs(t, b, n, height).addresses[k].sats);
      }
    }
  }

  lemma {:induction false} PaidHasTxid(tx: ChainTx, n: nat, key: AddrKey, sats: int)
    requires n <= |tx.vouts| && Paid(tx, n, key, sats)
    ensures key.txid == tx.txid
  {
  }

  /** Every address row is that of an output, in the block of its height, that pays the address,
      and every row belongs to a txid that is the text of 32 bytes. */
  lemma {:induction false} ScratchRowsAreReal(c: Chain, lo: int, hi: int)
    requires 0 <= lo && hi < |c|
    ensures var t := Scratch(c, lo, hi);
      && (forall k | k in t.addresses ::
            lo <= t.addresses[k].height <= hi && IsTxid(k.txid)
            && PaidInBlock(c[t.addresses[k].height], |c[t.addresses[k].height].txs|, k, t.addresses[k].sats))
      && (forall id | id in t.txs :: IsTxid(id))
    decreases hi - lo
  {
    hide IsTxid, PaidInBlock;
    if lo <= hi {
      ScratchRowsAreReal(c, lo, hi - 1);
      BlockRowsAreReal(PutBlock(Scratch(c, lo, hi - 1), c[hi], hi), c[hi], |c[hi].txs|, hi);
    }
  }
}
