/**
 Merging transaction rows by txid: a map and an order list in the code, one list of rows in the
 reference. Amounts are reals, times are seconds with 0 for none.
 */
module RecordMerge {
  import opened Text

  /** Evidence texts, each filled by the first row that has one. */
  datatype Evidence = Evidence(header: string, merkle: string, note: string, blockHash: string)

  datatype TxRecord = TxRecord(
    txid: string, direction: string, amount: real, rawHex: string, evidence: Evidence, spvBlockHeight: int,
    address: string, fee: real, confirmations: int, blockHeight: int, pqHint: bool, pqVerified: bool,
    source: string, seenAt: int)

  /** The text compared without regard to case and surrounding space. */
  function Tag(s: string): string { Lower(Trim(s)) }

  predicate Blank(s: string) { Trim(s) == "" }

  function DirectionRank(dir: string): int {
    if Tag(dir) == "out" then 3 else if Tag(dir) == "in" then 2 else 1
  }

  predicate ManualOut(t: TxRecord) { Tag(t.source) == "manual" && Tag(t.direction) == "out" }

  function Max(a: int, b: int): int { if b > a then b else a }
  function FirstText(prev: string, t: string): string { if prev == "" && t != "" then t else prev }

  // ---- one row into another ----

  /** Send metadata recorded by the wallet itself comes first. */
  function AfterManualHint(prev: TxRecord, t: TxRecord): TxRecord {
    if !ManualOut(t) then prev else
    prev.(direction := "out",
          amount := if t.amount > 0.0 then t.amount else prev.amount,
          address := if !Blank(t.address) then t.address else prev.address)
  }

  function AfterCounters(prev: TxRecord, t: TxRecord): TxRecord {
    prev.(confirmations := Max(prev.confirmations, t.confirmations),
          blockHeight := Max(prev.blockHeight, t.blockHeight),
          pqHint := prev.pqHint || t.pqHint,
          pqVerified := prev.pqVerified || t.pqVerified)
  }

  /** `sent` says the row was recorded by the wallet as its own send before this merge. */
  function AfterFilling(prev: TxRecord, t: TxRecord, sent: bool): TxRecord {
    var p := if sent then prev else
      prev.(amount := if t.amount != 0.0 && prev.amount == 0.0 then t.amount else prev.amount,
            address := FirstText(prev.address, t.address));
    p.(rawHex := FirstText(p.rawHex, t.rawHex),
       evidence := Evidence(FirstText(p.evidence.header, t.evidence.header), FirstText(p.evidence.merkle, t.evidence.merkle),
                            FirstText(p.evidence.note, t.evidence.note), FirstText(p.evidence.blockHash, t.evidence.blockHash)),
       spvBlockHeight := Max(p.spvBlockHeight, t.spvBlockHeight))
  }

  predicate CorrectsOut(prev: TxRecord, t: TxRecord, sent: bool) {
    && !sent && Tag(t.source) == "spv" && Tag(prev.source) == "spv" && Tag(t.direction) == "in" && Tag(prev.direction) == "out"
    && !(!Blank(prev.address) && prev.amount > 0.0)
  }

  function AfterDirection(prev: TxRecord, t: TxRecord, sent: bool): TxRecord {
    if t.direction == "" || t.direction == "unknown" then prev
    else if CorrectsOut(prev, t, sent) then
      prev.(direction := "in",
            amount := if t.amount > 0.0 then t.amount else prev.amount,
            address := if !Blank(t.address) then t.address else prev.address)
    else if !Blank(prev.rawHex) && Blank(t.rawHex) then prev
    else if sent && Tag(t.source) != "manual" then prev
    else if DirectionRank(t.direction) >= DirectionRank(prev.direction) then prev.(direction := t.direction)
    else prev
  }

  /** The time is replaced on any of three conditions, looked at after the counters moved. */
  function AfterSeenAt(prev: TxRecord, t: TxRecord, sent: bool): TxRecord {
    var p := if t.source != "" && !sent then prev.(source := t.source) else prev;
    if || (p.seenAt == 0 && t.seenAt != 0)
       || (t.confirmations > p.confirmations && t.seenAt != 0)
       || (t.blockHeight > 0 && t.seenAt != 0 && p.blockHeight == 0)
    then p.(seenAt := t.seenAt) else p
  }

  function MergeRow(prev: TxRecord, t: TxRecord): TxRecord {
    var sent := ManualOut(prev);
    AfterSeenAt(AfterDirection(AfterFilling(AfterCounters(AfterManualHint(prev, t), t), t, sent), t, sent), t, sent)
  }

  // ---- the list of rows ----

  function Cleaned(t: TxRecord): TxRecord { t.(txid := NormalizeTxid(t.txid)) }

  function IndexOf(rows: seq<TxRecord>, id: string): (i: nat)
    ensures i <= |rows| && (i < |rows| ==> rows[i].txid == id)
    ensures forall j | 0 <= j < i :: rows[j].txid != id
  {
    if rows == [] || rows[0].txid == id then 0 else 1 + IndexOf(rows[1..], id)
  }

  /** A row already stored: a later duplicate replaces it in place. */
  function Put(rows: seq<TxRecord>, t: TxRecord): seq<TxRecord> {
    var id := NormalizeTxid(t.txid);
    if id == "" then rows else
    var i := IndexOf(rows, id);
    if i < |rows| then rows[i := Cleaned(t)] else rows + [Cleaned(t)]
  }

  /** A row that comes in is merged into its txid's row, or appended. */
  function Absorb(rows: seq<TxRecord>, t: TxRecord): seq<TxRecord> {
    var id := NormalizeTxid(t.txid);
    if id == "" then rows else
    var i := IndexOf(rows, id);
    if i < |rows| then rows[i := MergeRow(rows[i], Cleaned(t))] else rows + [Cleaned(t)]
  }

  function PutAll(ts: seq<TxRecord>): seq<TxRecord> {
    if ts == [] then [] else Put(PutAll(ts[..|ts| - 1]), ts[|ts| - 1])
  }

  function AbsorbAll(rows: seq<TxRecord>, ts: seq<TxRecord>): seq<TxRecord> {
    if ts == [] then rows else Absorb(AbsorbAll(rows, ts[..|ts| - 1]), ts[|ts| - 1])
  }

  function Merge(existing: seq<TxRecord>, incoming: seq<TxRecord>): seq<TxRecord> {
    AbsorbAll(PutAll(existing), incoming)
  }

  // ---- the code: a map and an order list ----

  /** The map and the order list stand for the list of rows. */
  ghost predicate Represents(byId: map<string, TxRecord>, order: seq<string>, rows: seq<TxRecord>) {
    && |order| == |rows|
    && (forall i | 0 <= i < |order| :: order[i] in byId && byId[order[i]] == rows[i] && rows[i].txid == order[i])
    && (forall i, j | 0 <= i < j < |order| :: order[i] != order[j])
    && (forall id | id in byId :: id in order)
  }

  lemma {:induction false} FoundAt(byId: map<string, TxRecord>, order: seq<string>, rows: seq<TxRecord>, id: string)
    requires Represents(byId, order, rows)
    ensures id in byId <==> IndexOf(rows, id) < |rows|
    ensures id in byId ==> order[IndexOf(rows, id)] == id && byId[id] == rows[IndexOf(rows, id)]
  {
  }

  lemma {:induction false} Stored(byId: map<string, TxRecord>, order: seq<string>, rows: seq<TxRecord>, i: nat, r: TxRecord)
    requires Represents(byId, order, rows) && i < |rows| && r.txid == order[i]
    ensures Represents(byId[r.txid := r], order, rows[i := r])
  {
  }

  lemma {:induction false} Appended(byId: map<string, TxRecord>, order: seq<string>, rows: seq<TxRecord>, r: TxRecord)
    requires Represents(byId, order, rows) && r.txid !in byId
    ensures Represents(byId[r.txid := r], order + [r.txid], rows + [r])
  {
  }

  /** The fields that the hint and the direction leave alone. */
  datatype Facts = Facts(txid: string, fee: real, confirmations: int, blockHeight: int, pqHint: bool, pqVerified: bool,
                         seenAt: int, spvBlockHeight: int)

  function FactsOf(r: TxRecord): Facts {
    Facts(r.txid, r.fee, r.confirmations, r.blockHeight, r.pqHint, r.pqVerified, r.seenAt, r.spvBlockHeight)
  }

  lemma {:induction false} HintFacts(prev: TxRecord, t: TxRecord)
    ensures FactsOf(AfterManualHint(prev, t)) == FactsOf(prev)
  {
  }

  lemma {:induction false} FillingFacts(prev: TxRecord, t: TxRecord, sent: bool)
    ensures FactsOf(AfterFilling(prev, t, sent)) == FactsOf(prev).(spvBlockHeight := Max(prev.spvBlockHeight, t.spvBlockHeight))
  {
  }

  lemma {:induction false} DirectionFacts(prev: TxRecord, t: TxRecord, sent: bool)
    ensures FactsOf(AfterDirection(prev, t, sent)) == FactsOf(prev)
  {
  }

  lemma {:induction false} SeenAtFacts(prev: TxRecord, t: TxRecord, sent: bool)
    requires prev.confirmations >= t.confirmations && prev.blockHeight >= t.blockHeight
    ensures FactsOf(AfterSeenAt(prev, t, sent)) == FactsOf(prev).(seenAt := if prev.seenAt != 0 then prev.seenAt else t.seenAt)
  {
  }

  /** What one merge does to these fields. The time changes only when none was set: the two
      conditions meant to prefer the time of a confirmation look at counters already moved. */
  lemma {:induction false} MergeRowFacts(prev: TxRecord, t: TxRecord)
    ensures FactsOf(MergeRow(prev, t)) ==
      Facts(prev.txid, prev.fee, Max(prev.confirmations, t.confirmations), Max(prev.blockHeight, t.blockHeight),
            prev.pqHint || t.pqHint, prev.pqVerified || t.pqVerified, if prev.seenAt != 0 then prev.seenAt else t.seenAt,
            Max(prev.spvBlockHeight, t.spvBlockHeight))
  {
    hide AfterManualHint, AfterFilling, AfterDirection, AfterSeenAt, ManualOut;
    var sent := ManualOut(prev);
    var p1 := AfterManualHint(prev, t);
    var p2 := AfterCounters(p1, t);
    var p3 := AfterFilling(p2, t, sent);
    var p4 := AfterDirection(p3, t, sent);
    HintFacts(prev, t);
    assert FactsOf(p2) == FactsOf(prev).(confirmations := Max(prev.confirmations, t.confirmations),
      blockHeight := Max(prev.blockHeight, t.blockHeight), pqHint := prev.pqHint || t.pqHint, pqVerified := prev.pqVerified || t.pqVerified);
    FillingFacts(p2, t, sent);
    DirectionFacts(p3, t, sent);
    SeenAtFacts(p4, t, sent);
  }

  lemma {:induction false} MergeKeepsTxid(prev: TxRecord, t: TxRecord)
    ensures MergeRow(prev, t).txid == prev.txid
  {
    hide MergeRow;
    MergeRowFacts(prev, t);
  }

  /** The field-by-field update, in the order of the code. */
  method UpdateRow(stored: TxRecord, t: TxRecord) returns (prev: TxRecord)
    ensures prev == MergeRow(stored, t)
  {
    hide Tag, Blank, AfterManualHint, AfterCounters, AfterFilling, AfterDirection, AfterSeenAt;
    var manualSendPersisted := Tag(stored.source) == "manual" && Tag(stored.direction) == "out";
    prev := HintRow(stored, t);
    prev := CountRow(prev, t);
    prev := FillRow(prev, t, manualSendPersisted);
    prev := DirectRow(prev, t, manualSendPersisted);
    prev := TimeRow(prev, t, manualSendPersisted);
  }

  method HintRow(row: TxRecord, t: TxRecord) returns (prev: TxRecord)
    ensures prev == AfterManualHint(row, t)
  {
    hide Tag, Blank;
    prev := row;
    var manualOutHint := Tag(t.source) == "manual" && Tag(t.direction) == "out";
    if manualOutHint {
      prev := prev.(direction := "out");
      if t.amount > 0.0 { prev := prev.(amount := t.amount); }
      if !Blank(t.address) { prev := prev.(address := t.address); }
    }
  }

  method CountRow(row: TxRecord, t: TxRecord) returns (prev: TxRecord)
    ensures prev == AfterCounters(row, t)
  {
    prev := row;
    if t.confirmations > prev.confirmations { prev := prev.(confirmations := t.confirmations); }
    if t.blockHeight > prev.blockHeight { prev := prev.(blockHeight := t.blockHeight); }
    if t.pqHint { prev := prev.(pqHint := true); }
    if t.pqVerified { prev := prev.(pqVerified := true); }
  }

  method FillRow(row: TxRecord, t: TxRecord, manualSendPersisted: bool) returns (prev: TxRecord)
    ensures prev == AfterFilling(row, t, manualSendPersisted)
  {
    hide FirstText;
    prev := row;
    if !manualSendPersisted {
      if t.amount != 0.0 && prev.amount == 0.0 { prev := prev.(amount := t.amount); }
      var address := FillText(prev.address, t.address);
      prev := prev.(address := address);
    }
    var rawHex := FillText(prev.rawHex, t.rawHex);
    var header := FillText(prev.evidence.header, t.evidence.header);
    var merkle := FillText(prev.evidence.merkle, t.evidence.merkle);
    var note := FillText(prev.evidence.note, t.evidence.note);
    var blockHash := FillText(prev.evidence.blockHash, t.evidence.blockHash);
    prev := prev.(rawHex := rawHex, evidence := Evidence(header, merkle, note, blockHash));
    if t.spvBlockHeight > prev.spvBlockHeight { prev := prev.(spvBlockHeight := t.spvBlockHeight); }
  }

  method FillText(prev: string, t: string) returns (r: string)
    ensures r == FirstText(prev, t)
  {
    r := prev;
    if prev == "" && t != "" { r := t; }
  }

  method TimeRow(row: TxRecord, t: TxRecord, manualSendPersisted: bool) returns (prev: TxRecord)
    ensures prev == AfterSeenAt(row, t, manualSendPersisted)
  {
    prev := row;
    if t.source != "" && !manualSendPersisted { prev := prev.(source := t.source); }
    if (prev.seenAt == 0 && t.seenAt != 0) ||
       (t.confirmations > prev.confirmations && t.seenAt != 0) ||
       (t.blockHeight > 0 && t.seenAt != 0 && prev.blockHeight == 0) {
      prev := prev.(seenAt := t.seenAt);
    }
  }

  method DirectRow(row: TxRecord, t: TxRecord, manualSendPersisted: bool) returns (prev: TxRecord)
    ensures prev == AfterDirection(row, t, manualSendPersisted)
  {
    hide Tag, Trim, Lower;
    prev := row;
    if t.direction != "" && t.direction != "unknown" {
      var restHint := Blank(t.rawHex);
      var enrichedFromRaw := !Blank(prev.rawHex);
      var spvInCorrectsOut := !manualSendPersisted && Tag(t.source) == "spv" && Tag(prev.source) == "spv" &&
        Tag(t.direction) == "in" && Tag(prev.direction) == "out";
      var prevHasConcreteOut := !Blank(prev.address) && prev.amount > 0.0;
      if spvInCorrectsOut && !prevHasConcreteOut {
        prev := prev.(direction := "in");
        if t.amount > 0.0 { prev := prev.(amount := t.amount); }
        if !Blank(t.address) { prev := prev.(address := t.address); }
      } else if enrichedFromRaw && restHint {
      } else if manualSendPersisted && Tag(t.source) != "manual" {
      } else if DirectionRank(t.direction) >= DirectionRank(prev.direction) {
        prev := prev.(direction := t.direction);
      }
    }
  }

  method LoadExisting(existing: seq<TxRecord>) returns (byId: map<string, TxRecord>, order: seq<string>)
    ensures Represents(byId, order, PutAll(existing))
  {
    hide NormalizeTxid, MergeRow;
    byId, order := map[], [];
    for k := 0 to |existing|
      invariant Represents(byId, order, PutAll(existing[..k]))
    {
      assert existing[..k + 1][..k] == existing[..k];
      ghost var rows := PutAll(existing[..k]);
      var id := NormalizeTxid(existing[k].txid);
      if id != "" {
        var t := existing[k].(txid := id);
        FoundAt(byId, order, rows, id);
        if id !in byId {
          Appended(byId, order, rows, t);
          order := order + [id];
        } else {
          Stored(byId, order, rows, IndexOf(rows, id), t);
        }
        byId := byId[id := t];
      }
    }
    assert existing[..|existing|] == existing;
  }

  method MergeTxRecords(existing: seq<TxRecord>, incoming: seq<TxRecord>) returns (out: seq<TxRecord>)
    ensures out == Merge(existing, incoming)
  {
    hide NormalizeTxid, MergeRow;
    var byId, order := LoadExisting(existing);
    ghost var base := PutAll(existing);
    for k := 0 to |incoming|
      invariant Represents(byId, order, AbsorbAll(base, incoming[..k]))
    {
      assert incoming[..k + 1][..k] == incoming[..k];
      ghost var rows := AbsorbAll(base, incoming[..k]);
      var id := NormalizeTxid(incoming[k].txid);
      if id != "" {
        var t := incoming[k].(txid := id);
        FoundAt(byId, order, rows, id);
        if id in byId {
          MergeKeepsTxid(byId[id], t);
          Stored(byId, order, rows, IndexOf(rows, id), MergeRow(byId[id], t));
          var row := UpdateRow(byId[id], t);
          byId := byId[id := row];
        } else {
          Appended(byId, order, rows, t);
          byId := byId[id := t];
          order := order + [id];
        }
      }
    }
    assert incoming[..|incoming|] == incoming;
    out := [];
    for k := 0 to |order|
      invariant out == AbsorbAll(base, incoming)[..k]
    {
      out := out + [byId[order[k]]];
    }
  }

  // ---- the rows of one txid ----

  /** The rows of one txid in the order they came. */
  function Seen(ts: seq<TxRecord>, id: string): seq<TxRecord> {
    if ts == [] then [] else
    var n := |ts| - 1;
    Seen(ts[..n], id) + if NormalizeTxid(ts[n].txid) == id then [Cleaned(ts[n])] else []
  }

  function Folded(rs: seq<TxRecord>): TxRecord
    requires rs != []
  {
    if |rs| == 1 then rs[0] else MergeRow(Folded(rs[..|rs| - 1]), rs[|rs| - 1])
  }

  lemma {:induction false} IndexIs(rows: seq<TxRecord>, id: string, k: nat)
    requires k <= |rows| && (k < |rows| ==> rows[k].txid == id) && forall j | 0 <= j < k :: rows[j].txid != id
    ensures IndexOf(rows, id) == k
  {
  }

  lemma {:induction false} FoldedSnoc(rs: seq<TxRecord>, t: TxRecord)
    ensures Folded(rs + [t]) == if rs == [] then t else MergeRow(Folded(rs), t)
  {
  }

  /** Each row of the list is what its own txid's rows make, whatever else came between. */
  lemma {:induction false} RowIsFolded(ts: seq<TxRecord>, id: string)
    requires id != ""
    ensures var rows := AbsorbAll([], ts); var i := IndexOf(rows, id);
      (i < |rows| <==> Seen(ts, id) != []) && (i < |rows| ==> rows[i] == Folded(Seen(ts, id)))
  {
    if ts != [] {
      var n := |ts| - 1;
      RowIsFolded(ts[..n], id);
      AbsorbOne(AbsorbAll([], ts[..n]), ts[n], id, Seen(ts[..n], id));
    }
  }

  lemma {:induction false} AbsorbOne(rows: seq<TxRecord>, t: TxRecord, id: string, seen: seq<TxRecord>)
    requires id != ""
    requires IndexOf(rows, id) < |rows| <==> seen != []
    requires IndexOf(rows, id) < |rows| ==> rows[IndexOf(rows, id)] == Folded(seen)
    ensures var rows' := Absorb(rows, t);
            var seen' := seen + if NormalizeTxid(t.txid) == id then [Cleaned(t)] else [];
            var i := IndexOf(rows', id);
      (i < |rows'| <==> seen' != []) && (i < |rows'| ==> rows'[i] == Folded(seen'))
  {
    hide NormalizeTxid, MergeRow;
    var other := NormalizeTxid(t.txid);
    var rows', i, k := Absorb(rows, t), IndexOf(rows, id), IndexOf(rows, other);
    if other == id {
      FoldedSnoc(seen, Cleaned(t));
      if i < |rows| { MergeKeepsTxid(rows[i], Cleaned(t)); }
      IndexIs(rows', id, i);
    } else {
      assert seen + [] == seen;
      if other != "" && k < |rows| { MergeKeepsTxid(rows[k], Cleaned(t)); }
      if other == "" || i < |rows| || k < |rows| { IndexIs(rows', id, i); } else { IndexIs(rows', id, |rows'|); }
    }
  }

  // ---- order of first appearance ----

  function FirstSeen(ts: seq<TxRecord>): seq<string> {
    if ts == [] then [] else
    var ids, id := FirstSeen(ts[..|ts| - 1]), NormalizeTxid(ts[|ts| - 1].txid);
    if id == "" || id in ids then ids else ids + [id]
  }

  function Txids(rows: seq<TxRecord>): (ids: seq<string>)
    ensures |ids| == |rows|
  {
    seq(|rows|, i requires 0 <= i < |rows| => rows[i].txid)
  }

  predicate Distinct(ids: seq<string>) { forall i, j | 0 <= i < j < |ids| :: ids[i] != ids[j] }

  lemma {:induction false} FirstSeenDistinct(ts: seq<TxRecord>)
    ensures Distinct(FirstSeen(ts)) && forall id | id in FirstSeen(ts) :: id != "" && NormalizeTxid(id) == id
  {
    hide NormalizeTxid;
    if ts != [] {
      FirstSeenDistinct(ts[..|ts| - 1]);
      NormalizeTwice(ts[|ts| - 1].txid);
    }
  }

  lemma {:induction false} InTxids(rows: seq<TxRecord>, id: string)
    ensures id in Txids(rows) <==> IndexOf(rows, id) < |rows|
  {
    var i := IndexOf(rows, id);
    if i < |rows| { assert Txids(rows)[i] == id; }
    if id in Txids(rows) {
      var k :| 0 <= k < |rows| && Txids(rows)[k] == id;
      assert rows[k].txid == id;
    }
  }

  /** The rows stand in the order in which their txids first came. */
  lemma {:induction false} OrderIsFirstSeen(ts: seq<TxRecord>)
    ensures Txids(AbsorbAll([], ts)) == FirstSeen(ts)
  {
    hide NormalizeTxid, MergeRow;
    if ts != [] {
      var n := |ts| - 1;
      OrderIsFirstSeen(ts[..n]);
      var rows, id := AbsorbAll([], ts[..n]), NormalizeTxid(ts[n].txid);
      InTxids(rows, id);
      var i := IndexOf(rows, id);
      if id != "" && i < |rows| { MergeKeepsTxid(rows[i], Cleaned(ts[n])); }
    }
  }

  // ---- runs of merges ----

  function Concat(batches: seq<seq<TxRecord>>): seq<TxRecord> {
    if batches == [] then [] else Concat(batches[..|batches| - 1]) + batches[|batches| - 1]
  }

  /** Each merge starts from what the one before stored. */
  function Merges(batches: seq<seq<TxRecord>>): seq<TxRecord> {
    if batches == [] then [] else Merge(Merges(batches[..|batches| - 1]), batches[|batches| - 1])
  }

  lemma {:induction false} AbsorbAllAppend(rows: seq<TxRecord>, ts: seq<TxRecord>, us: seq<TxRecord>)
    ensures AbsorbAll(rows, ts + us) == AbsorbAll(AbsorbAll(rows, ts), us)
  {
    if us == [] {
      assert ts + us == ts;
    } else {
      var n := |us| - 1;
      AbsorbAllAppend(rows, ts, us[..n]);
      assert (ts + us)[..|ts + us| - 1] == ts + us[..n];
    }
  }

  lemma {:induction false} LoadingStored(rows: seq<TxRecord>, k: nat)
    requires k <= |rows| && Distinct(Txids(rows))
    requires forall i | 0 <= i < |rows| :: rows[i].txid != "" && NormalizeTxid(rows[i].txid) == rows[i].txid
    ensures PutAll(rows[..k]) == rows[..k]
  {
    hide NormalizeTxid;
    if k > 0 {
      LoadingStored(rows, k - 1);
      assert rows[..k][..k - 1] == rows[..k - 1];
      IndexOfDistinct(rows, k - 1);
      IndexIs(rows[..k - 1], rows[k - 1].txid, k - 1);
      assert Cleaned(rows[k - 1]) == rows[k - 1];
    }
  }

  /** A run of merges is one merge of everything that ever came in. */
  lemma {:induction false} MergesAreOneMerge(batches: seq<seq<TxRecord>>)
    ensures Merges(batches) == AbsorbAll([], Concat(batches))
  {
    hide NormalizeTxid, MergeRow;
    if batches != [] {
      var n := |batches| - 1;
      var before := Concat(batches[..n]);
      MergesAreOneMerge(batches[..n]);
      var rows := AbsorbAll([], before);
      OrderIsFirstSeen(before);
      FirstSeenDistinct(before);
      forall i | 0 <= i < |rows| ensures rows[i].txid != "" && NormalizeTxid(rows[i].txid) == rows[i].txid {
        assert Txids(rows)[i] in FirstSeen(before);
      }
      LoadingStored(rows, |rows|);
      assert rows[..|rows|] == rows;
      AbsorbAllAppend([], before, batches[n]);
    }
  }

  /** After any merges: txids unique, normalised, in order of first appearance, and each row made
      from its own txid's rows alone. */
  lemma {:induction false} MergesKeepRows(batches: seq<seq<TxRecord>>, i: nat)
    requires i < |Merges(batches)|
    ensures var rows, all := Merges(batches), Concat(batches);
      && Txids(rows) == FirstSeen(all) && Distinct(Txids(rows))
      && rows[i].txid != "" && NormalizeTxid(rows[i].txid) == rows[i].txid
      && Seen(all, rows[i].txid) != [] && rows[i] == Folded(Seen(all, rows[i].txid))
  {
    hide NormalizeTxid, MergeRow;
    var rows, all := Merges(batches), Concat(batches);
    MergesAreOneMerge(batches);
    OrderIsFirstSeen(all);
    FirstSeenDistinct(all);
    var id := rows[i].txid;
    assert Txids(rows)[i] in FirstSeen(all);
    IndexOfDistinct(rows, i);
    RowIsFolded(all, id);
  }

  lemma {:induction false} IndexOfDistinct(rows: seq<TxRecord>, i: nat)
    requires i < |rows| && Distinct(Txids(rows))
    ensures IndexOf(rows, rows[i].txid) == i && forall j | 0 <= j < i :: rows[j].txid != rows[i].txid
  {
    forall j | 0 <= j < i ensures rows[j].txid != rows[i].txid { assert Txids(rows)[j] != Txids(rows)[i]; }
    IndexIs(rows, rows[i].txid, i);
  }

  // ---- what the rows of one txid make ----

  /** The counters of r are the largest that any of the rows has. */
  ghost predicate LargestCounters(r: TxRecord, rs: seq<TxRecord>) {
    && (forall x | x in rs :: x.confirmations <= r.confirmations && x.blockHeight <= r.blockHeight && x.spvBlockHeight <= r.spvBlockHeight)
    && (exists x :: x in rs && x.confirmations == r.confirmations)
    && (exists x :: x in rs && x.blockHeight == r.blockHeight)
    && (exists x :: x in rs && x.spvBlockHeight == r.spvBlockHeight)
  }

  /** A flag of r is set exactly when some row sets it. */
  ghost predicate AnyFlags(r: TxRecord, rs: seq<TxRecord>) {
    (r.pqHint <==> exists x :: x in rs && x.pqHint) && (r.pqVerified <==> exists x :: x in rs && x.pqVerified)
  }

  /** The first time that is set. */
  function FirstTime(rs: seq<TxRecord>): int {
    if rs == [] then 0 else
    var before := FirstTime(rs[..|rs| - 1]);
    if before != 0 then before else rs[|rs| - 1].seenAt
  }

  /** Counters are running maxima and flags running disjunctions. The time is the first one set:
      the two conditions meant to prefer the time of a confirmation look at counters that have
      already moved, so they never hold. */
  lemma {:induction false} FoldedFields(rs: seq<TxRecord>)
    requires rs != []
    ensures var r := Folded(rs);
      && LargestCounters(r, rs)
      && AnyFlags(r, rs)
      && r.seenAt == FirstTime(rs)
  {
    hide MergeRow, LargestCounters, AnyFlags;
    var n := |rs| - 1;
    assert rs == rs[..n] + [rs[n]];
    if n == 0 {
      OwnFields(rs[0]);
      assert rs == [rs[0]];
    } else {
      FoldedFields(rs[..n]);
      MergeRowFacts(Folded(rs[..n]), rs[n]);
      LargestSnoc(Folded(rs[..n]), rs[..n], rs[n], Folded(rs));
      AnySnoc(Folded(rs[..n]), rs[..n], rs[n], Folded(rs));
    }
  }

  lemma {:induction false} OwnFields(r: TxRecord)
    ensures LargestCounters(r, [r]) && AnyFlags(r, [r])
  {
  }

  lemma {:induction false} AnySnoc(prev: TxRecord, rs: seq<TxRecord>, t: TxRecord, r: TxRecord)
    requires AnyFlags(prev, rs)
    requires r.pqHint == (prev.pqHint || t.pqHint) && r.pqVerified == (prev.pqVerified || t.pqVerified)
    ensures AnyFlags(r, rs + [t])
  {
  }

  lemma {:induction false} LargestSnoc(prev: TxRecord, rs: seq<TxRecord>, t: TxRecord, r: TxRecord)
    requires LargestCounters(prev, rs)
    requires r.confirmations == Max(prev.confirmations, t.confirmations) && r.blockHeight == Max(prev.blockHeight, t.blockHeight)
    requires r.spvBlockHeight == Max(prev.spvBlockHeight, t.spvBlockHeight)
    ensures LargestCounters(r, rs + [t])
  {
  }

  // ---- the wallet's own sends ----

  /** A manual send row makes the merged row one, with its amount and address when it has them. */
  lemma {:induction false} ManualTakesOver(prev: TxRecord, t: TxRecord)
    requires ManualOut(t)
    ensures var r := MergeRow(prev, t);
      && ManualOut(r)
      && (t.amount > 0.0 ==> r.amount == t.amount) && (!Blank(t.address) ==> r.address == t.address)
  {
    hide Tag;
    OutTag();
    NotEmptyTag(t.source);
  }

  lemma {:induction false} OutTag()
    ensures Tag("out") == "out"
  {
  }

  lemma {:induction false} NotEmptyTag(s: string)
    requires Tag(s) == "manual"
    ensures s != ""
  {
  }

  /** Amount and address of a send row after further rows: only further manual sends count. */
  function Paid(amount: real, address: string, rs: seq<TxRecord>): (real, string) {
    if rs == [] then (amount, address) else
    var p, t := Paid(amount, address, rs[..|rs| - 1]), rs[|rs| - 1];
    if !ManualOut(t) then p
    else (if t.amount > 0.0 then t.amount else p.0, if !Blank(t.address) then t.address else p.1)
  }

  lemma {:induction false} SendRowKept(prev: TxRecord, t: TxRecord)
    requires ManualOut(prev)
    ensures var r := MergeRow(prev, t);
      && ManualOut(r) && r.source == prev.source
      && (r.amount, r.address) ==
         (if !ManualOut(t) then (prev.amount, prev.address)
          else (if t.amount > 0.0 then t.amount else prev.amount, if !Blank(t.address) then t.address else prev.address))
  {
    OutTag();
  }

  /** The direction text of a send row: only another manual send that goes out rewrites it, as it
      spells it, or as plain out when it comes without raw bytes to a row with some. */
  lemma {:induction false} SendDirection(prev: TxRecord, t: TxRecord)
    requires ManualOut(prev)
    ensures MergeRow(prev, t).direction ==
      if !ManualOut(t) then prev.direction else if Trim(t.rawHex) == "" && Trim(prev.rawHex) != "" then "out" else t.direction
  {
    assert Trim("") == "";
    OutTag();
    KnownOut(t.direction);
    hide Trim, Lower, AfterSeenAt;
    var p := AfterFilling(AfterCounters(AfterManualHint(prev, t), t), t, true);
    assert p.direction == AfterManualHint(prev, t).direction;
    TimeKeepsDirection(AfterDirection(p, t, true), t, true);
  }

  lemma {:induction false} KnownOut(dir: string)
    ensures Tag(dir) == "out" ==> dir != "" && dir != "unknown"
  {
    assert Tag("") == "";
    UnknownTag();
  }

  lemma {:induction false} TimeKeepsDirection(p: TxRecord, t: TxRecord, sent: bool)
    ensures AfterSeenAt(p, t, sent).direction == p.direction
  {
  }

  function FoldedInto(row: TxRecord, rs: seq<TxRecord>): TxRecord {
    if rs == [] then row else MergeRow(FoldedInto(row, rs[..|rs| - 1]), rs[|rs| - 1])
  }

  /** Once a row is a manual send it stays one, and its amount and address depend only on later
      manual sends. */
  lemma {:induction false} SendStaysSend(row: TxRecord, rs: seq<TxRecord>)
    requires ManualOut(row)
    ensures var r := FoldedInto(row, rs);
      ManualOut(r) && r.source == row.source && (r.amount, r.address) == Paid(row.amount, row.address, rs)
  {
    hide MergeRow, ManualOut;
    if rs != [] {
      var n := |rs| - 1;
      SendStaysSend(row, rs[..n]);
      SendRowKept(FoldedInto(row, rs[..n]), rs[n]);
    }
  }

  lemma {:induction false} FoldedSplits(rs: seq<TxRecord>, k: nat)
    requires 0 < k <= |rs|
    ensures Folded(rs) == FoldedInto(Folded(rs[..k]), rs[k..])
  {
    hide MergeRow;
    if k == |rs| {
      assert rs[..k] == rs && rs[k..] == [];
    } else {
      var n := |rs| - 1;
      FoldedSplits(rs[..n], k);
      assert rs[..n][..k] == rs[..k] && rs[k..][..n - k] == rs[..n][k..];
    }
  }

  /** A manual send that comes in makes its txid's row one, whatever the row was. */
  lemma {:induction false} SendArrives(rs: seq<TxRecord>)
    requires rs != [] && ManualOut(rs[|rs| - 1])
    ensures ManualOut(Folded(rs))
  {
    hide MergeRow, ManualOut;
    if |rs| > 1 { ManualTakesOver(Folded(rs[..|rs| - 1]), rs[|rs| - 1]); }
  }

  /** Over any merges: once the first k rows of a txid made its row a manual send, the stored row
      is one, and its amount and address depend only on the manual sends that came later. */
  lemma {:induction false} SendStaysSendInMerges(batches: seq<seq<TxRecord>>, i: nat, k: nat)
    requires i < |Merges(batches)| && 0 < k <= |Seen(Concat(batches), Merges(batches)[i].txid)|
    requires ManualOut(Folded(Seen(Concat(batches), Merges(batches)[i].txid)[..k]))
    ensures var r := Merges(batches)[i];
            var seen := Seen(Concat(batches), r.txid);
            var sent := Folded(seen[..k]);
      ManualOut(r) && r.source == sent.source && (r.amount, r.address) == Paid(sent.amount, sent.address, seen[k..])
  {
    hide MergeRow, ManualOut, Merges, Seen;
    var r := Merges(batches)[i];
    var seen := Seen(Concat(batches), r.txid);
    MergesKeepRows(batches, i);
    FoldedSplits(seen, k);
    SendStaysSend(Folded(seen[..k]), seen[k..]);
  }

  // ---- rows that are not the wallet's own sends ----

  predicate SaysIn(t: TxRecord) { Lower(Trim(t.source)) == "spv" && Lower(Trim(t.direction)) == "in" }
  predicate SaysOut(t: TxRecord) { Lower(Trim(t.source)) == "spv" && Lower(Trim(t.direction)) == "out" }

  /** An incoming SPV row corrects a stored one that says out without a payee and an amount, even
      after the incoming row has filled them in. */
  predicate Corrects(prev: TxRecord, t: TxRecord) {
    && SaysIn(t) && SaysOut(prev)
    && !(Trim(if prev.address == "" then t.address else prev.address) != "" && (if prev.amount == 0.0 then t.amount else prev.amount) > 0.0)
  }

  /** What one merge does to rows that are not manual sends: the first amount, address and texts
      stay, the last source stands, and the direction moves only to one at least as definite, from
      a row that is not without raw bytes while the stored one has some; a correction takes over
      direction, amount and address. */
  lemma {:induction false} PlainRowMerge(prev: TxRecord, t: TxRecord)
    requires !ManualOut(prev) && !ManualOut(t)
    ensures var r := MergeRow(prev, t);
            var known := t.direction != "" && t.direction != "unknown";
            var bare := Trim(t.rawHex) == "" && Trim(prev.rawHex) != "";
      && r.source == (if t.source != "" then t.source else prev.source)
      && (if Corrects(prev, t) then
            r.direction == "in"
            && r.amount == (if t.amount > 0.0 || prev.amount == 0.0 then t.amount else prev.amount)
            && r.address == (if Trim(t.address) != "" || prev.address == "" then t.address else prev.address)
          else
            r.amount == (if prev.amount != 0.0 then prev.amount else t.amount)
            && r.address == (if prev.address != "" then prev.address else t.address)
            && r.direction == if known && !bare && DirectionRank(prev.direction) <= DirectionRank(t.direction) then t.direction else prev.direction)
  {
    hide Trim, Lower, DirectionRank, AfterSeenAt, AfterDirection, ManualOut;
    var p := AfterFilling(AfterCounters(prev, t), t, false);
    var q := AfterDirection(p, t, false);
    assert AfterManualHint(prev, t) == prev && MergeRow(prev, t) == AfterSeenAt(q, t, false);
    TimedRow(q, t);
    BlankEmpty();
    DirectedRow(p, t);
  }

  lemma {:induction false} BlankEmpty()
    ensures Trim("") == ""
  {
  }

  lemma {:induction false} DirectedRow(p: TxRecord, t: TxRecord)
    ensures var q := AfterDirection(p, t, false);
            var corrects := SaysIn(t) && SaysOut(p) && !(Trim(p.address) != "" && p.amount > 0.0);
            var known := t.direction != "" && t.direction != "unknown";
            var bare := Trim(t.rawHex) == "" && Trim(p.rawHex) != "";
      && q.source == p.source
      && (if corrects then
            q.direction == "in" && q.amount == (if t.amount > 0.0 then t.amount else p.amount)
            && q.address == (if Trim(t.address) != "" then t.address else p.address)
          else
            q.amount == p.amount && q.address == p.address
            && q.direction == if known && !bare && DirectionRank(p.direction) <= DirectionRank(t.direction) then t.direction else p.direction)
  {
    KnownTag(t);
    hide Trim, Lower, DirectionRank;
  }

  lemma {:induction false} TimedRow(p: TxRecord, t: TxRecord)
    ensures var r := AfterSeenAt(p, t, false);
      && r.source == (if t.source != "" then t.source else p.source)
      && r.amount == p.amount && r.address == p.address && r.direction == p.direction
  {
  }

  /** A direction that says in is not one of the two that say nothing. */
  lemma {:induction false} KnownTag(t: TxRecord)
    ensures Tag(t.direction) == "in" ==> t.direction != "" && t.direction != "unknown"
  {
    assert Tag("") == "";
    assert |Tag("unknown")| == 7 by { UnknownTag(); }
  }

  lemma {:induction false} UnknownTag()
    ensures Tag("unknown") == "unknown"
  {
  }

  /** Out is more definite than in, and in than anything else, in any case and with space around. */
  lemma {:induction false} RankIs(dir: string)
    ensures DirectionRank(dir) == 3 <==> Lower(Trim(dir)) == "out"
    ensures DirectionRank(dir) == 2 <==> Lower(Trim(dir)) == "in"
    ensures 1 <= DirectionRank(dir) <= 3
  {
  }

  /** The first text that any row has in a field. */
  function FirstOf(rs: seq<TxRecord>, field: TxRecord -> string): string {
    if rs == [] then "" else if field(rs[0]) != "" then field(rs[0]) else FirstOf(rs[1..], field)
  }

  lemma {:induction false} FirstOfSnoc(rs: seq<TxRecord>, t: TxRecord, field: TxRecord -> string)
    ensures FirstOf(rs + [t], field) == if FirstOf(rs, field) != "" then FirstOf(rs, field) else field(t)
  {
    if rs == [] {
      assert rs + [t] == [t] && [t][1..] == [];
    } else {
      FirstOfSnoc(rs[1..], t, field);
      assert (rs + [t])[1..] == rs[1..] + [t];
    }
  }

  datatype Texts = Texts(rawHex: string, evidence: Evidence)

  function TextsOf(r: TxRecord): Texts { Texts(r.rawHex, r.evidence) }

  lemma {:induction false} DirectionKeepsTexts(p: TxRecord, t: TxRecord, sent: bool)
    ensures TextsOf(AfterDirection(p, t, sent)) == TextsOf(p)
  {
    hide Tag, Blank, DirectionRank;
  }

  lemma {:induction false} TimeKeepsTexts(p: TxRecord, t: TxRecord, sent: bool)
    ensures TextsOf(AfterSeenAt(p, t, sent)) == TextsOf(p)
  {
  }

  lemma {:induction false} HintKeepsTexts(prev: TxRecord, t: TxRecord)
    ensures TextsOf(AfterCounters(AfterManualHint(prev, t), t)) == TextsOf(prev)
  {
    hide ManualOut, Blank;
  }

  lemma {:induction false} MergeRowTexts(prev: TxRecord, t: TxRecord)
    ensures var r := MergeRow(prev, t);
      && r.rawHex == (if prev.rawHex != "" then prev.rawHex else t.rawHex)
      && r.evidence.header == (if prev.evidence.header != "" then prev.evidence.header else t.evidence.header)
      && r.evidence.merkle == (if prev.evidence.merkle != "" then prev.evidence.merkle else t.evidence.merkle)
      && r.evidence.note == (if prev.evidence.note != "" then prev.evidence.note else t.evidence.note)
      && r.evidence.blockHash == (if prev.evidence.blockHash != "" then prev.evidence.blockHash else t.evidence.blockHash)
  {
    hide AfterDirection, AfterSeenAt, AfterCounters, AfterManualHint, ManualOut;
    var sent := ManualOut(prev);
    var p := AfterCounters(AfterManualHint(prev, t), t);
    var q := AfterFilling(p, t, sent);
    HintKeepsTexts(prev, t);
    DirectionKeepsTexts(q, t, sent);
    TimeKeepsTexts(AfterDirection(q, t, sent), t, sent);
  }

  /** One text field of a folded row, when a merge keeps the first. */
  lemma {:induction false} FoldedText(rs: seq<TxRecord>, field: TxRecord -> string)
    requires rs != []
    requires forall prev: TxRecord, t: TxRecord :: field(MergeRow(prev, t)) == if field(prev) != "" then field(prev) else field(t)
    ensures field(Folded(rs)) == FirstOf(rs, field)
  {
    hide MergeRow;
    var n := |rs| - 1;
    if n == 0 {
      assert rs[1..] == [];
    } else {
      FoldedText(rs[..n], field);
      assert rs == rs[..n] + [rs[n]];
      FirstOfSnoc(rs[..n], rs[n], field);
    }
  }

  /** Raw bytes and evidence are, field by field, the first text that any row of the txid has. */
  lemma {:induction false} FoldedTexts(rs: seq<TxRecord>)
    requires rs != []
    ensures var r := Folded(rs);
      && r.rawHex == FirstOf(rs, (x: TxRecord) => x.rawHex)
      && r.evidence.header == FirstOf(rs, (x: TxRecord) => x.evidence.header)
      && r.evidence.merkle == FirstOf(rs, (x: TxRecord) => x.evidence.merkle)
      && r.evidence.note == FirstOf(rs, (x: TxRecord) => x.evidence.note)
      && r.evidence.blockHash == FirstOf(rs, (x: TxRecord) => x.evidence.blockHash)
  {
    hide MergeRow, Folded, FirstOf;
    forall prev: TxRecord, t: TxRecord
      ensures var r := MergeRow(prev, t);
        && r.rawHex == (if prev.rawHex != "" then prev.rawHex else t.rawHex)
        && r.evidence.header == (if prev.evidence.header != "" then prev.evidence.header else t.evidence.header)
        && r.evidence.merkle == (if prev.evidence.merkle != "" then prev.evidence.merkle else t.evidence.merkle)
        && r.evidence.note == (if prev.evidence.note != "" then prev.evidence.note else t.evidence.note)
        && r.evidence.blockHash == (if prev.evidence.blockHash != "" then prev.evidence.blockHash else t.evidence.blockHash)
    {
      MergeRowTexts(prev, t);
    }
    FoldedText(rs, (x: TxRecord) => x.rawHex);
    FoldedText(rs, (x: TxRecord) => x.evidence.header);
    FoldedText(rs, (x: TxRecord) => x.evidence.merkle);
    FoldedText(rs, (x: TxRecord) => x.evidence.note);
    FoldedText(rs, (x: TxRecord) => x.evidence.blockHash);
  }

  /** A send of the wallet is a row from "manual" that goes "out", in any case and spacing. */
  lemma {:induction false} ManualOutIs(t: TxRecord)
    ensures ManualOut(t) <==> Lower(Trim(t.source)) == "manual" && Lower(Trim(t.direction)) == "out"
  {
  }

  // ---- the promised time ----

  /** The time the comment in the code asks for: the incoming one when the stored row has none,
      when the incoming row is better confirmed, or when it brings the first block height. */
  function PromisedTime(prev: TxRecord, t: TxRecord): int {
    if t.seenAt != 0 && (prev.seenAt == 0 || t.confirmations > prev.confirmations || (t.blockHeight > 0 && prev.blockHeight == 0))
    then t.seenAt else prev.seenAt
  }

  /** The merged row has the promised time exactly when there is nothing to replace or to replace
      it with, or the incoming row is neither better confirmed nor the first with a height. */
  lemma {:induction false} PromisedTimeIff(prev: TxRecord, t: TxRecord)
    ensures MergeRow(prev, t).seenAt == PromisedTime(prev, t) <==>
      || prev.seenAt == 0 || t.seenAt == 0 || t.seenAt == prev.seenAt
      || (t.confirmations <= prev.confirmations && (t.blockHeight <= 0 || prev.blockHeight != 0))
  {
    hide MergeRow;
    MergeRowFacts(prev, t);
  }

  /** A row seen in the mempool at 100, confirmed by a block of time 900, keeps 100. */
  lemma {:induction false} ConfirmedTimeIsLost()
    ensures var prev := TxRecord("", "in", 1.0, "", Evidence("", "", "", ""), 0, "", 0.0, 0, 0, false, false, "memetracker", 100);
            var t := prev.(confirmations := 1, blockHeight := 5, source := "spv", seenAt := 900);
      PromisedTime(prev, t) == 900 && MergeRow(prev, t).seenAt == 100
  {
    hide MergeRow;
    var prev := TxRecord("", "in", 1.0, "", Evidence("", "", "", ""), 0, "", 0.0, 0, 0, false, false, "memetracker", 100);
    MergeRowFacts(prev, prev.(confirmations := 1, blockHeight := 5, source := "spv", seenAt := 900));
  }

  // ---- rows that are already stored ----

  lemma {:induction false} PutOne(rows: seq<TxRecord>, t: TxRecord, id: string, seen: seq<TxRecord>)
    requires id != "" && (IndexOf(rows, id) < |rows| <==> seen != [])
    requires IndexOf(rows, id) < |rows| ==> rows[IndexOf(rows, id)] == seen[|seen| - 1]
    ensures var rows' := Put(rows, t);
            var seen' := seen + if NormalizeTxid(t.txid) == id then [Cleaned(t)] else [];
            var i := IndexOf(rows', id);
      (i < |rows'| <==> seen' != []) && (i < |rows'| ==> rows'[i] == seen'[|seen'| - 1])
  {
    hide NormalizeTxid;
    var other := NormalizeTxid(t.txid);
    var rows', i, k := Put(rows, t), IndexOf(rows, id), IndexOf(rows, other);
    if other == id {
      IndexIs(rows', id, i);
    } else {
      assert seen + [] == seen;
      if other == "" || i < |rows| || k < |rows| { IndexIs(rows', id, i); } else { IndexIs(rows', id, |rows'|); }
    }
  }

  lemma {:induction false} PutTxids(rows: seq<TxRecord>, t: TxRecord)
    ensures var id := NormalizeTxid(t.txid);
      Txids(Put(rows, t)) == if id == "" || id in Txids(rows) then Txids(rows) else Txids(rows) + [id]
  {
    hide NormalizeTxid;
    InTxids(rows, NormalizeTxid(t.txid));
  }

  /** Of stored rows with one txid the last stands, in the place of the first. */
  lemma {:induction false} StoredIsLast(ts: seq<TxRecord>, id: string)
    requires id != ""
    ensures var rows := PutAll(ts);
            var i, seen := IndexOf(rows, id), Seen(ts, id);
      && (i < |rows| <==> seen != []) && (i < |rows| ==> rows[i] == seen[|seen| - 1])
      && Txids(rows) == FirstSeen(ts)
  {
    hide NormalizeTxid, Put, IndexOf;
    if ts != [] {
      var n := |ts| - 1;
      StoredIsLast(ts[..n], id);
      PutOne(PutAll(ts[..n]), ts[n], id, Seen(ts[..n], id));
      PutTxids(PutAll(ts[..n]), ts[n]);
    }
  }
}
