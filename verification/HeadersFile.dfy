/**
 The header file of the SPV node: a fixed header and fixed-length records in chain order.
 Truncation rolls the file back to a height in place.
 */
module HeadersFile {
  import opened Bytes
  import opened Text

  const HEADER_LEN := 8
  const REC_LEN := 148
  const MAX_HEIGHT := 200_000_000
  const MAGIC: seq<byte> := [0xa8, 0xf0, 0x11, 0xc5]

  datatype Refusal = HeightOutOfRange | TooSmall | BadMagic | BadVersion | NoRecords | StartsAbove
  datatype Outcome = Refused(why: Refusal) | Truncated(maxKept: u32, newSize: nat)

  // ---- layout ----

  /** Whole records; a partial one at the end is not counted. */
  function Count(data: seq<byte>): (n: nat)
    ensures n > 0 ==> HEADER_LEN + REC_LEN * n <= |data|
    ensures |data| < HEADER_LEN + REC_LEN * (n + 1)
  {
    if |data| < HEADER_LEN then 0 else (|data| - HEADER_LEN) / REC_LEN
  }

  function Offset(i: nat): nat { HEADER_LEN + REC_LEN * i }

  function Record(data: seq<byte>, i: nat): (r: seq<byte>)
    requires i < Count(data)
    ensures |r| == REC_LEN
  {
    data[Offset(i)..Offset(i + 1)]
  }

  function RecordHeight(rec: seq<byte>): u32
    requires |rec| == REC_LEN
  {
    GetU32(rec[32..36])
  }

  function Height(data: seq<byte>, i: nat): u32
    requires i < Count(data)
  {
    RecordHeight(Record(data, i))
  }

  datatype Entry = Entry(height: u32, bytes: seq<byte>)

  function Records(data: seq<byte>): (rs: seq<Entry>)
    ensures |rs| == Count(data)
  {
    seq(Count(data), i requires 0 <= i < Count(data) => Entry(Height(data, i), Record(data, i)))
  }

  predicate ValidHeader(data: seq<byte>) {
    |data| >= HEADER_LEN && data[..4] == MAGIC && 1 <= GetU32(data[4..8]) <= 3
  }

  // ---- specification ----

  /** How many records stand before the first one above the height, looking from i. */
  function KeptFrom(data: seq<byte>, keep: int, i: nat): (n: nat)
    requires i <= Count(data)
    ensures i <= n <= Count(data)
    ensures forall k | i <= k < n :: Height(data, k) <= keep
    ensures n < Count(data) ==> Height(data, n) > keep
    decreases Count(data) - i
  {
    if i == Count(data) || Height(data, i) > keep then i else KeptFrom(data, keep, i + 1)
  }

  function Kept(data: seq<byte>, keep: int): nat { KeptFrom(data, keep, 0) }

  /** The result of a truncation and the file afterwards. */
  function Truncation(data: seq<byte>, keep: int): (Outcome, seq<byte>) {
    if keep < 0 || keep > MAX_HEIGHT then (Refused(HeightOutOfRange), data)
    else if |data| < HEADER_LEN then (Refused(TooSmall), data)
    else if data[..4] != MAGIC then (Refused(BadMagic), data)
    else if !ValidHeader(data) then (Refused(BadVersion), data)
    else if Count(data) == 0 then (Refused(NoRecords), data)
    else if Height(data, 0) > keep then (Refused(StartsAbove), data)
    else var n := Kept(data, keep); (Truncated(Height(data, n - 1), Offset(n)), data[..Offset(n)])
  }

  function MaxHeight(data: seq<byte>, n: nat): int
    requires n <= Count(data)
  {
    if n == 0 then 0 else var m := MaxHeight(data, n - 1); if Height(data, n - 1) > m then Height(data, n - 1) else m
  }

  function Tip(data: seq<byte>): int { MaxHeight(data, Count(data)) }

  /** The first record at the height, from record i on. */
  function FindFrom(data: seq<byte>, want: int, i: nat): (r: Option<seq<byte>>)
    requires i <= Count(data)
    ensures r.Some? ==> |r.value| == REC_LEN
    decreases Count(data) - i
  {
    if i == Count(data) then None
    else if Height(data, i) == want then Some(Record(data, i))
    else FindFrom(data, want, i + 1)
  }

  function Find(data: seq<byte>, height: int): (r: Option<seq<byte>>)
    ensures r.Some? ==> |r.value| == REC_LEN
  {
    if height < 0 || height > MAX_HEIGHT then None else FindFrom(data, height, 0)
  }

  function HashAt(data: seq<byte>, height: int): string {
    match Find(data, height) case None => "" case Some(rec) => Lower(HexEncode(rec[..32]))
  }

  function HeaderAt(data: seq<byte>, height: int): string {
    match Find(data, height) case None => "" case Some(rec) => Lower(HexEncode(rec[68..148]))
  }

  // ---- the code ----

  class HeadersDb {
    var data: seq<byte>

    constructor (data: seq<byte>)
      ensures this.data == data
    {
      this.data := data;
    }

    method Truncate(keepHeight: int) returns (r: Outcome)
      modifies this
      ensures (r, data) == Truncation(old(data), keepHeight)
    {
      if keepHeight < 0 || keepHeight > MAX_HEIGHT { return Refused(HeightOutOfRange); }
      var size := |data|;
      if size < HEADER_LEN { return Refused(TooSmall); }
      if data[..4] != MAGIC { return Refused(BadMagic); }
      var ver := GetU32(data[4..8]);
      if ver < 1 || ver > 3 { return Refused(BadVersion); }
      var cut, maxKept, firstHeight := Scan(keepHeight);
      if firstHeight == None { return Refused(NoRecords); }
      if firstHeight.value > keepHeight { return Refused(StartsAbove); }
      data := data[..cut];
      return Truncated(maxKept, cut);
    }

    method Scan(keepHeight: int) returns (cut: nat, maxKept: u32, firstHeight: Option<u32>)
      requires |data| >= HEADER_LEN
      ensures cut == Offset(Kept(data, keepHeight))
      ensures firstHeight == if Count(data) == 0 then None else Some(Height(data, 0))
      ensures Kept(data, keepHeight) > 0 ==> maxKept == Height(data, Kept(data, keepHeight) - 1)
    {
      cut, maxKept, firstHeight := HEADER_LEN, 0, None;
      var off := HEADER_LEN;
      ghost var i := 0;
      while off + REC_LEN <= |data|
        invariant i <= Count(data) && off == cut == Offset(i)
        invariant KeptFrom(data, keepHeight, i) == Kept(data, keepHeight)
        invariant firstHeight == if i == 0 then None else Some(Height(data, 0))
        invariant i > 0 ==> maxKept == Height(data, i - 1)
      {
        var h := RecordHeight(data[off..off + REC_LEN]);
        if firstHeight == None { firstHeight := Some(h); }
        if h > keepHeight { break; }
        cut := off + REC_LEN;
        maxKept := h;
        off := off + REC_LEN;
        i := i + 1;
      }
    }

    method TipHeight() returns (r: int)
      ensures r == Tip(data)
    {
      if |data| < HEADER_LEN + REC_LEN { return 0; }
      var off, maxH := HEADER_LEN, 0;
      ghost var i := 0;
      while off + REC_LEN <= |data|
        invariant i <= Count(data) && off == Offset(i) && maxH == MaxHeight(data, i)
      {
        var h := RecordHeight(data[off..off + REC_LEN]);
        if h > maxH { maxH := h; }
        off := off + REC_LEN;
        i := i + 1;
      }
      return maxH;
    }

    method HashHexAtHeight(height: int) returns (r: string)
      ensures r == HashAt(data, height)
    {
      var rec := FindRecord(height);
      if rec == None { return ""; }
      return Lower(HexEncode(rec.value[0..32]));
    }

    method Header80HexAtHeight(height: int) returns (r: string)
      ensures r == HeaderAt(data, height)
    {
      var rec := FindRecord(height);
      if rec == None { return ""; }
      var headerOff := 32 + 4 + 32;
      return Lower(HexEncode(rec.value[headerOff..headerOff + 80]));
    }

    method FindRecord(height: int) returns (r: Option<seq<byte>>)
      ensures r == Find(data, height)
    {
      if height < 0 || height > MAX_HEIGHT { return None; }
      var off := HEADER_LEN;
      ghost var i := 0;
      while off + REC_LEN <= |data|
        invariant i <= Count(data) && off == Offset(i) && FindFrom(data, height, i) == Find(data, height)
      {
        var rec := data[off..off + REC_LEN];
        if RecordHeight(rec) == height { return Some(rec); }
        off := off + REC_LEN;
        i := i + 1;
      }
      return None;
    }
  }

  // ---- what truncation does ----

  predicate NonDecreasing(data: seq<byte>) {
    forall i, j | 0 <= i < j < Count(data) :: Height(data, i) <= Height(data, j)
  }

  function AtOrBelow(rs: seq<Entry>, keep: int): seq<Entry> {
    if rs == [] then [] else
    if rs[0].height <= keep then [rs[0]] + AtOrBelow(rs[1..], keep) else AtOrBelow(rs[1..], keep)
  }

  lemma {:induction false} CutRecords(data: seq<byte>, n: nat)
    requires n <= Count(data) && HEADER_LEN <= |data|
    ensures Count(data[..Offset(n)]) == n
    ensures forall i | 0 <= i < n :: Record(data[..Offset(n)], i) == Record(data, i)
  {
  }

  lemma {:induction false} NoneBelow(rs: seq<Entry>, keep: int)
    ensures AtOrBelow(rs, keep) == [] <==> forall i | 0 <= i < |rs| :: rs[i].height > keep
  {
    if rs != [] {
      NoneBelow(rs[1..], keep);
      assert forall i | 1 <= i < |rs| :: rs[i] == rs[1..][i - 1];
      assert forall i | 0 <= i < |rs| - 1 :: rs[1..][i] == rs[i + 1];
    }
  }

  /** A prefix at or below the height is all there is of that kind exactly when the rest is above. */
  lemma {:induction false} PrefixIsAllIff(rs: seq<Entry>, n: nat, keep: int)
    requires n <= |rs| && forall i | 0 <= i < n :: rs[i].height <= keep
    ensures AtOrBelow(rs, keep) == rs[..n] <==> forall i | n <= i < |rs| :: rs[i].height > keep
    decreases n
  {
    if n == 0 {
      NoneBelow(rs, keep);
    } else {
      PrefixIsAllIff(rs[1..], n - 1, keep);
      assert rs[..n] == [rs[0]] + rs[1..][..n - 1];
      assert forall i | n <= i < |rs| :: rs[i] == rs[1..][i - 1];
      assert forall i | n - 1 <= i < |rs| - 1 :: rs[1..][i] == rs[i + 1];
      assert AtOrBelow(rs, keep)[1..] == AtOrBelow(rs[1..], keep);
    }
  }

  lemma {:induction false} CutEntries(data: seq<byte>, n: nat)
    requires n <= Count(data) && HEADER_LEN <= |data|
    ensures Records(data[..Offset(n)]) == Records(data)[..n]
  {
    CutRecords(data, n);
  }

  /** No record at or below the height comes after one above it. */
  predicate NothingLowLater(data: seq<byte>, keep: int) {
    !exists i, j | 0 <= i < j < Count(data) :: Height(data, i) > keep >= Height(data, j)
  }

  /** Truncation keeps exactly the records at or below the height if and only if no record at or
      below it comes after one above it. */
  lemma {:induction false} KeepsExactlyIff(data: seq<byte>, keep: int)
    requires Truncation(data, keep).0.Truncated?
    ensures Records(Truncation(data, keep).1) == AtOrBelow(Records(data), keep) <==> NothingLowLater(data, keep)
  {
    var n, rs := Kept(data, keep), Records(data);
    CutEntries(data, n);
    assert forall i | 0 <= i < |rs| :: rs[i].height == Height(data, i);
    PrefixIsAllIff(rs, n, keep);
    if n < |rs| && NothingLowLater(data, keep) {
      forall j | n <= j < |rs| ensures rs[j].height > keep {
        if j > n { assert Height(data, n) > keep; }
      }
    }
  }

  lemma {:induction false} NonDecreasingKeepsExactly(data: seq<byte>, keep: int)
    requires NonDecreasing(data) && Truncation(data, keep).0.Truncated?
    ensures Records(Truncation(data, keep).1) == AtOrBelow(Records(data), keep)
  {
    KeepsExactlyIff(data, keep);
  }

  lemma {:induction false} MaxOfPrefix(data: seq<byte>, n: nat)
    requires NonDecreasing(data) && 0 < n <= Count(data)
    ensures MaxHeight(data, n) == Height(data, n - 1)
  {
    if n > 1 { MaxOfPrefix(data, n - 1); }
  }

  lemma {:induction false} CutStaysOrdered(data: seq<byte>, n: nat)
    requires NonDecreasing(data) && n <= Count(data) && HEADER_LEN <= |data|
    ensures NonDecreasing(data[..Offset(n)])
  {
    CutRecords(data, n);
    var cut := data[..Offset(n)];
    assert forall i | 0 <= i < n :: Height(cut, i) == Height(data, i);
  }

  /** The tip scan of the truncated file returns the reported height. */
  lemma {:induction false} TipIsReported(data: seq<byte>, keep: int)
    requires NonDecreasing(data) && Truncation(data, keep).0.Truncated?
    ensures Tip(Truncation(data, keep).1) == Truncation(data, keep).0.maxKept <= keep
  {
    var n := Kept(data, keep);
    CutRecords(data, n);
    CutStaysOrdered(data, n);
    MaxOfPrefix(data[..Offset(n)], n);
  }

  lemma {:induction false} FindInCut(data: seq<byte>, n: nat, want: int, i: nat)
    requires i <= n <= Count(data) && HEADER_LEN <= |data|
    requires Count(data[..Offset(n)]) == n
    requires forall k | 0 <= k < n :: Record(data[..Offset(n)], k) == Record(data, k)
    requires forall k | n <= k < Count(data) :: Height(data, k) != want
    ensures FindFrom(data[..Offset(n)], want, i) == FindFrom(data, want, i)
    decreases n - i
  {
    if i < n {
      assert Height(data[..Offset(n)], i) == Height(data, i);
      FindInCut(data, n, want, i + 1);
    } else {
      NotFoundAfter(data, want, n);
    }
  }

  lemma {:induction false} NotFoundAfter(data: seq<byte>, want: int, i: nat)
    requires i <= Count(data) && forall k | i <= k < Count(data) :: Height(data, k) != want
    ensures FindFrom(data, want, i) == None
    decreases Count(data) - i
  {
    if i < Count(data) { NotFoundAfter(data, want, i + 1); }
  }

  /** Lookups at or below the height are unchanged, and find nothing above it. */
  lemma {:induction false} LookupsAfterTruncation(data: seq<byte>, keep: int, height: int)
    requires NonDecreasing(data) && Truncation(data, keep).0.Truncated?
    ensures Find(Truncation(data, keep).1, height) == if height <= keep then Find(data, height) else None
    ensures HashAt(Truncation(data, keep).1, height) == if height <= keep then HashAt(data, height) else ""
    ensures HeaderAt(Truncation(data, keep).1, height) == if height <= keep then HeaderAt(data, height) else ""
  {
    var n := Kept(data, keep);
    var cut := data[..Offset(n)];
    CutRecords(data, n);
    if 0 <= height <= MAX_HEIGHT {
      if height <= keep {
        FindInCut(data, n, height, 0);
      } else {
        assert forall k | 0 <= k < n :: Height(cut, k) == Height(data, k);
        NotFoundAfter(cut, height, 0);
      }
    }
  }

  /** Truncating again to the same height reports the same and changes nothing, whatever the
      order of the heights. */
  lemma {:induction false} TruncatingTwice(data: seq<byte>, keep: int)
    requires Truncation(data, keep).0.Truncated?
    ensures Truncation(Truncation(data, keep).1, keep) == Truncation(data, keep)
  {
    var n := Kept(data, keep);
    var cut := data[..Offset(n)];
    CutRecords(data, n);
    assert cut[..4] == data[..4] && cut[4..8] == data[4..8];
    assert forall k | 0 <= k < n :: Height(cut, k) == Height(data, k);
    assert Kept(cut, keep) == n;
    assert cut[..Offset(n)] == cut;
  }

  // ---- a file out of order ----

  function RecordAt(height: u32): (rec: seq<byte>)
    ensures |rec| == REC_LEN
  {
    Zeros(32) + PutU32(height) + Zeros(112)
  }

  /** A file with records of heights 1, 3 and 2. */
  function OutOfOrder(): seq<byte> { [0xa8, 0xf0, 0x11, 0xc5] + PutU32(1) + RecordAt(1) + RecordAt(3) + RecordAt(2) }

  lemma {:induction false} HeightOfRecord(height: u32)
    ensures RecordHeight(RecordAt(height)) == height
  {
    U32RoundTrip(height, []);
    assert RecordAt(height)[32..36] == PutU32(height) == PutU32(height) + [];
  }

  /** Truncating it to height 2 is accepted and loses the record of height 2. */
  lemma {:induction false} LowRecordIsLost()
    ensures var data := OutOfOrder();
      && Truncation(data, 2).0 == Truncated(1, Offset(1)) && Count(Truncation(data, 2).1) == 1
      && Count(data) == 3 && Height(data, 2) == 2 && Find(data, 2).Some? && Find(Truncation(data, 2).1, 2) == None
  {
    hide RecordAt, RecordHeight, GetU32, PutU32;
    var data := OutOfOrder();
    assert |data| == Offset(3);
    assert Record(data, 0) == RecordAt(1) && Record(data, 1) == RecordAt(3) && Record(data, 2) == RecordAt(2);
    HeightOfRecord(1);
    HeightOfRecord(3);
    HeightOfRecord(2);
    U32RoundTrip(1, []);
    assert data[4..8] == PutU32(1) == PutU32(1) + [];
    assert KeptFrom(data, 2, 1) == 1;
    CutRecords(data, 1);
    NotFoundAfter(data[..Offset(1)], 2, 0);
    assert FindFrom(data, 2, 2) == Some(RecordAt(2));
    assert FindFrom(data, 2, 1) == FindFrom(data, 2, 2);
  }

  // ---- the layout of a record ----

  /** A record holds the block hash, the height, the chain work and the header, in this order. */
  lemma {:induction false} RecordReads(head: seq<byte>, hash: seq<byte>, height: u32, work: seq<byte>, header: seq<byte>)
    requires |head| == 8 && |hash| == 32 && |work| == 32 && |header| == 80 && height <= 200_000_000
    ensures var data := head + (hash + PutU32(height) + work + header);
      && Count(data) == 1 && Tip(data) == height
      && HashAt(data, height) == HexEncode(hash) && HeaderAt(data, height) == HexEncode(header)
  {
    hide HexEncode, PutU32, GetU32;
    var rec := hash + PutU32(height) + work + header;
    var data := head + rec;
    assert Record(data, 0) == rec;
    assert rec[32..36] == PutU32(height) == PutU32(height) + [] && rec[..32] == hash && rec[68..148] == header;
    U32RoundTrip(height, []);
    assert FindFrom(data, height, 0) == Some(rec);
    assert MaxHeight(data, 0) == 0 && MaxHeight(data, 1) == height;
    HexEncodeDigits(hash);
    HexEncodeDigits(header);
    LowerIsId(HexEncode(hash));
    LowerIsId(HexEncode(header));
  }

  // ---- what is refused, and what is found ----

  /** Truncation is refused exactly for heights and files outside these bounds, and then the file
      stays; otherwise its new size is reported. */
  lemma {:induction false} TruncationRefusedIff(data: seq<byte>, keep: int)
    ensures var (outcome, after) := Truncation(data, keep);
      && (outcome.Truncated? <==>
            && 0 <= keep <= 200_000_000 && |data| >= 8 + 148 && data[..4] == [0xa8, 0xf0, 0x11, 0xc5]
            && 1 <= GetU32(data[4..8]) <= 3 && GetU32(data[8 + 32..8 + 36]) <= keep)
      && (if outcome.Truncated? then after <= data && outcome.newSize == |after| else after == data)
      && (outcome == Refused(HeightOutOfRange) <==> !(0 <= keep <= 200_000_000))
      && (outcome == Refused(TooSmall) <==> 0 <= keep <= 200_000_000 && |data| < 8)
      && (outcome == Refused(BadMagic) <==> 0 <= keep <= 200_000_000 && |data| >= 8 && data[..4] != [0xa8, 0xf0, 0x11, 0xc5])
      && (outcome.Refused? && outcome.why == BadVersion <==>
            0 <= keep <= 200_000_000 && |data| >= 8 && data[..4] == [0xa8, 0xf0, 0x11, 0xc5] && !(1 <= GetU32(data[4..8]) <= 3))
      && (outcome.Refused? && outcome.why == StartsAbove ==> |data| >= 8 + 148 && GetU32(data[40..44]) > keep)
  {
    hide GetU32;
    if Count(data) > 0 { assert Record(data, 0)[32..36] == data[40..44]; }
  }

  /** A lookup finds the first record at the height. */
  lemma {:induction false} FindIsFirst(data: seq<byte>, want: int, from: nat, rec: seq<byte>)
    requires from <= Count(data)
    ensures FindFrom(data, want, from) == Some(rec) <==>
      exists i | from <= i < Count(data) :: Height(data, i) == want && Record(data, i) == rec && forall k | from <= k < i :: Height(data, k) != want
    decreases Count(data) - from
  {
    if from < Count(data) && Height(data, from) != want { FindIsFirst(data, want, from + 1, rec); }
  }
}
