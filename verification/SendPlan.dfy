/** The economics of a send. Signing and the carrier extension are outside programs: parameters here. */
module SendPlan {
  import opened Bytes
  import opened Text
  import opened Wire
  import opened TxCodec
  import opened LegacyTx
  import opened CoinSelection
  import BaseTx
  import Carrier

  const DUST := 100_000
  const MIN_RATE := 100_000
  const MAX_RATE := 100_000_000
  const MAX_I64 := 0x7fff_ffff_ffff_ffff

  // ---- fees ----

  /** The rate in range that is nearest to the configured one. */
  function ClampRate(k: int): (rate: int)
    ensures 100_000 <= rate <= 100_000_000 && (rate == k <==> 100_000 <= k <= 100_000_000)
    ensures (rate > 100_000 ==> rate <= k) && (rate < 100_000_000 ==> rate >= k)
  {
    if k < MIN_RATE then MIN_RATE else if k > MAX_RATE then MAX_RATE else k
  }

  function AtLeastOne(n: int): int { if n < 1 then 1 else n }

  function VbytesEstimate(inputs: int, outputs: int): int {
    180 * AtLeastOne(inputs) + 34 * AtLeastOne(outputs) + 10
  }

  /** Per thousand virtual bytes, rounded up. */
  function EconomicFee(vbytes: int, rate: nat): int { (AtLeastOne(vbytes) * rate + 999) / 1000 }

  /** A fee meets the rate for the size exactly when it is at least the economic fee. */
  lemma {:induction false} EconomicFeeIsLeast(vbytes: int, rate: nat, fee: int)
    ensures 1000 * fee >= AtLeastOne(vbytes) * rate <==> fee >= EconomicFee(vbytes, rate)
  {
    var due := AtLeastOne(vbytes) * rate;
    assert 1000 * ((due + 999) / 1000) >= due;
  }

  function SendFee(rate: nat, inputs: int, includeChange: bool, extraOutputs: int): int {
    var outs := 1 + (if includeChange then 1 else 0) + (if extraOutputs < 0 then 0 else extraOutputs);
    EconomicFee(VbytesEstimate(inputs, outs), rate)
  }

  /** Counts below one are taken as one, an absent change output as one output less, and negative
      extra outputs as none. */
  lemma {:induction false} FeeFloors(rate: nat, vbytes: int, inputs: int, extra: int, change: bool)
    ensures vbytes <= 1 ==> EconomicFee(vbytes, rate) == (rate + 999) / 1000
    ensures inputs <= 1 ==> VbytesEstimate(inputs, extra) == VbytesEstimate(1, extra)
    ensures extra <= 1 ==> VbytesEstimate(inputs, extra) == VbytesEstimate(inputs, 1)
    ensures VbytesEstimate(1, 1) == 224
    ensures extra >= 0 ==> SendFee(rate, inputs, false, extra + 1) == SendFee(rate, inputs, true, extra)
    ensures extra < 0 ==> SendFee(rate, inputs, change, extra) == SendFee(rate, inputs, change, 0)
  {
  }

  /** A further input never lowers the fee, and raises it by at most 180 bytes' worth, rounded up. */
  lemma {:induction false} FeePerInput(rate: nat, inputs: nat, extraOutputs: int)
    requires inputs >= 1
    ensures SendFee(rate, inputs, true, extraOutputs) <= SendFee(rate, inputs + 1, true, extraOutputs)
    ensures 1000 * (SendFee(rate, inputs + 1, true, extraOutputs) - SendFee(rate, inputs, true, extraOutputs)) < 180 * rate + 1000
  {
    var outs := 2 + (if extraOutputs < 0 then 0 else extraOutputs);
    var vb := VbytesEstimate(inputs, outs);
    assert VbytesEstimate(inputs + 1, outs) == vb + 180;
    assert (vb + 180) * rate == vb * rate + 180 * rate;
  }

  // ---- funding ----

  /** A send: amount, fee rate, and the carrier reserve. */
  datatype Terms = Terms(send: i64, rate: nat, carrierKoinu: int) {
    ghost predicate Valid() { send > 0 && rate > 0 && carrierKoinu >= DUST }
  }

  function Reserve(t: Terms, extra: int): int { if extra >= 2 then t.carrierKoinu else 0 }

  function Need(t: Terms, inputs: int, extra: int): int {
    t.send + SendFee(t.rate, inputs, true, extra) + Reserve(t, extra)
  }

  datatype Funding = Funding(coins: seq<Utxo>, sumIn: int, fee: int, changeOut: i64)

  /** Coins chosen for the need of one input that also cover the fee of all of them; change at
      or below the dust limit is left to the fee. */
  ghost predicate Funded(s: seq<Utxo>, t: Terms, extra: int, f: Funding) {
    && Descending(s) && FirstReaching(s, Need(t, 1, extra), |f.coins|) && f.coins == s[..|f.coins|]
    && f.sumIn == Total(f.coins) >= Need(t, |f.coins|, extra)
    && f.fee == SendFee(t.rate, |f.coins|, true, extra)
    && var change := f.sumIn - Need(t, |f.coins|, extra); f.changeOut == if change <= DUST then 0 else change
  }

  lemma {:induction false} NeedIsPositive(t: Terms, inputs: int, extra: int)
    requires t.Valid()
    ensures Need(t, inputs, extra) > 0
  {
  }

  /** The retry loop asks for the fee of more inputs only when the picks fall short of the need
      they were picked for, which selection rules out: the first attempt always decides. */
  method PickCoins(utxos: array<Utxo>, t: Terms, extra: int) returns (r: Option<Pick>)
    requires t.Valid()
    modifies utxos
    ensures multiset(utxos[..]) == multiset(old(utxos[..]))
    ensures r.None? <==> Spendable(old(utxos[..])) < Need(t, 1, extra)
    ensures r.Some? ==> Descending(utxos[..]) && FirstReaching(utxos[..], Need(t, 1, extra), |r.value.coins|)
    ensures r.Some? ==> r.value.coins == utxos[..|r.value.coins|] && r.value.sum == Total(r.value.coins)
    ensures r.Some? ==> NoFewerReach(old(utxos[..]), Need(t, 1, extra), |r.value.coins|)
  {
    hide SendFee, Total, Spendable;
    var selected, sumIn := [], 0;
    NeedIsPositive(t, 1, extra);
    for attempt := 0 to 12
      invariant attempt == 0 && selected == [] && utxos[..] == old(utxos[..])
    {
      var n := |selected|;
      if n == 0 { n := 1; }
      var need := t.send + SendFee(t.rate, n, true, extra);
      if extra >= 2 { need := need + t.carrierKoinu; }
      var picked := SelectUTXOs(utxos, need);
      if picked == None { return None; }
      selected, sumIn := picked.value.coins, picked.value.sum;
      if sumIn >= need { break; }
      assert false;
    }
    return Some(Pick(selected, sumIn));
  }

  /** Refused exactly when the coins cannot be spent to the need of one input, or those picked
      for it do not cover the fee of all of them. */
  method Fund(utxos: array<Utxo>, t: Terms, extra: int) returns (r: Option<Funding>)
    requires t.Valid() && Spendable(utxos[..]) <= MAX_I64
    modifies utxos
    ensures multiset(utxos[..]) == multiset(old(utxos[..]))
    ensures r.Some? ==> Funded(utxos[..], t, extra, r.value) && NoFewerReach(old(utxos[..]), Need(t, 1, extra), |r.value.coins|)
    ensures r.None? <==> Spendable(old(utxos[..])) < Need(t, 1, extra) || PicksFallShort(utxos[..], t, extra)
  {
    hide SendFee, Total, Spendable, NoFewerReach;
    var picked := PickCoins(utxos, t, extra);
    if picked == None { return None; }
    var selected, sumIn := picked.value.coins, picked.value.sum;
    var fee := SendFee(t.rate, |selected|, true, extra);
    var change := sumIn - t.send - fee;
    if extra >= 2 { change := change - t.carrierKoinu; }
    if change < 0 {
      assert FirstReaching(utxos[..], Need(t, 1, extra), |selected|);
      return None;
    }
    CoversOrFallsShort(utxos[..], t, extra, |selected|);
    TotalsOfPermutation(utxos[..], old(utxos[..]));
    PrefixWithinSpendable(utxos[..], |selected|);
    FeeIsNotNegative(t.rate, |selected|, extra);
    var changeOut := change;
    if change <= DUST { changeOut := 0; }
    return Some(Funding(selected, sumIn, fee, changeOut));
  }

  ghost predicate PicksFallShort(s: seq<Utxo>, t: Terms, extra: int) {
    exists n: nat :: FirstReaching(s, Need(t, 1, extra), n) && Total(s[..n]) < Need(t, n, extra)
  }

  /** The number of coins that first reaches a need is unique. */
  lemma {:induction false} CoversOrFallsShort(s: seq<Utxo>, t: Terms, extra: int, n: nat)
    requires FirstReaching(s, Need(t, 1, extra), n) && Total(s[..n]) >= Need(t, n, extra)
    ensures !PicksFallShort(s, t, extra)
  {
  }

  lemma {:induction false} FeeIsNotNegative(rate: nat, inputs: int, extra: int)
    ensures SendFee(rate, inputs, true, extra) >= 0
  {
  }

  // ---- templates ----

  /** The commitment of a hexadecimal digest, when it decodes to 32 bytes. */
  function Digest(pqCommitment: string): Option<seq<byte>> {
    var b := HexDecode(Trim(Lower(pqCommitment)));
    if b.Some? && |b.value| == 32 then b else None
  }

  /** A digest is 32 bytes, written in hexadecimal of either case, with space around allowed. */
  lemma {:induction false} DigestIff(text: string, d: seq<byte>)
    ensures Digest(text) == Some(d) <==> |d| == 32 && Lower(Trim(text)) == HexEncode(d)
  {
    LowerThenTrim(text);
    var hx := Lower(Trim(text));
    if HexDecode(hx).Some? {
      HexRoundTrip(hx);
      LowerTwice(Trim(text));
      HexDecodeEncode(HexDecode(hx).value);
    }
    HexDecodeEncode(d);
  }

  lemma {:induction false} LowerTwice(s: string)
    ensures Lower(Lower(s)) == Lower(s)
  {
    forall k | 0 <= k < |s| ensures Lower(Lower(s))[k] == Lower(s)[k] { LowerCharSpace(s[k]); }
  }

  function Outputs(recipientScript: seq<byte>, recipientValue: i64, changeScript: seq<byte>, changeValue: i64,
                   digest: Option<seq<byte>>): seq<TxOut> {
    [TxOut(recipientValue, recipientScript)]
    + (if changeValue > DUST then [TxOut(changeValue, changeScript)] else [])
    + (if digest.Some? then [TxOut(0, BaseTx.CommitmentScript(BaseTx.FLC1, digest.value))] else [])
  }

  method BuildUnsignedDogeP2PKH(selected: seq<Utxo>, recipientScript: seq<byte>, recipientValue: i64,
      changeScript: seq<byte>, changeValue: i64, pqCommitment: string)
    returns (r: Option<seq<byte>>)
    ensures r == if recipientValue <= 0 || !AllTxidsValid(selected) then None
      else Some(WriteTx(UnsignedTx(selected, Outputs(recipientScript, recipientValue, changeScript, changeValue, Digest(pqCommitment)), 0)))
  {
    if recipientValue <= 0 { return None; }
    var outputs := [TxOut(recipientValue, recipientScript)];
    if changeValue > DUST {
      outputs := outputs + [TxOut(changeValue, changeScript)];
    }
    var pqHex := Trim(Lower(pqCommitment));
    if pqHex != "" {
      var b := HexDecode(pqHex);
      if b.Some? && |b.value| == 32 {
        var scr: seq<byte> := [0x6a, 0x24];
        scr := scr + BaseTx.FLC1;
        scr := scr + b.value;
        outputs := outputs + [TxOut(0, scr)];
      }
    }
    assert outputs == Outputs(recipientScript, recipientValue, changeScript, changeValue, Digest(pqCommitment));
    r := SerializeUnsignedLegacyP2PKHTx(selected, outputs, 0);
  }

  // ---- the carrier value per part ----

  /** The wallet's count of parts from the hexadecimal texts of key and signature: the parts the
      payload needs when the texts decode, and one when a text has an odd length. */
  function EstimatedParts(pubHex: string, sigHex: string): (n: nat)
    ensures n >= 1 && ((|Trim(pubHex)| % 2 != 0 || |Trim(sigHex)| % 2 != 0) ==> n == 1)
    ensures var pk, sig := HexDecode(Trim(pubHex)), HexDecode(Trim(sigHex));
      pk.Some? && sig.Some? ==> n == Carrier.PartTotal(|pk.value + sig.value|)
  {
    var pub, sig := Trim(pubHex), Trim(sigHex);
    if |pub| % 2 != 0 || |sig| % 2 != 0 then 1 else Carrier.PartTotal(|pub| / 2 + |sig| / 2)
  }

  /** None when the change cannot fund every part at the dust limit and keep the dust limit. */
  function CarrierPerPart(changeOut: int, parts: nat, carrierKoinu: int): Option<int> {
    if changeOut <= DUST then None else
    var pt := if parts < 1 then 1 else parts;
    var maxTotal := changeOut - DUST;
    if maxTotal < 1 then None else
    var maxPer := maxTotal / pt;
    if maxPer < DUST then None
    else if carrierKoinu > maxPer then Some(maxPer) else Some(carrierKoinu)
  }

  /** The clamp finds the largest value up to the configured one that leaves at least the dust
      limit in the change, and refuses exactly when even the dust limit per part does not. */
  lemma {:induction false} ClampIsLargest(changeOut: int, pt: nat, carrierKoinu: int)
    requires carrierKoinu >= DUST && pt >= 1
    ensures var r := CarrierPerPart(changeOut, pt, carrierKoinu);
      && (r.None? <==> pt * DUST + DUST > changeOut)
      && (r.Some? ==> DUST <= r.value <= carrierKoinu && pt * r.value + DUST <= changeOut)
      && (r.Some? ==> forall v: int | r.value < v <= carrierKoinu :: pt * v + DUST > changeOut)
  {
    var r := CarrierPerPart(changeOut, pt, carrierKoinu);
    assert pt * DUST >= DUST;
    if changeOut > DUST {
      var maxTotal := changeOut - DUST;
      QuotientIsLargest(maxTotal, pt);
      if r.Some? && carrierKoinu <= maxTotal / pt { assert pt * carrierKoinu <= pt * (maxTotal / pt); }
    }
  }

  lemma {:induction false} QuotientIsLargest(x: int, d: int)
    requires d > 0
    ensures forall v: int :: d * v <= x <==> v <= x / d
  {
    forall v: int ensures d * v <= x <==> v <= x / d {
      assert x == d * (x / d) + x % d;
      if v <= x / d { assert d * v <= d * (x / d); } else { assert d * v >= d * (x / d + 1) == d * (x / d) + d; }
    }
  }

  // ---- the passes of a send ----

  /** What the signing programs report: the commitment, whether it is to a signature that can be
      revealed, and key and signature in hexadecimal. */
  datatype Pq = Pq(commitment: string, revealable: bool, pubHex: string, sigHex: string)

  datatype Options = Options(commit: bool, wantReveal: bool, carrierOff: bool, hasKeys: bool, commitOnlyFallback: bool)

  datatype Template = Template(funding: Funding, pq: Pq, raw: seq<byte>, carrier: bool)
  datatype Outcome = Insufficient | BadTxid | RevealImpossible | Built(template: Template)

  function Extra(o: Options, budget: bool): int {
    if !o.commit then 0 else if budget then 2 else 1
  }

  /** A template without a carrier pays the recipient, returns the change and carries the
      commitment. */
  ghost predicate PlainTemplate(t: Terms, o: Options, toScript: seq<byte>, changeScript: seq<byte>, p: Template) {
    && AllTxidsValid(p.funding.coins) && (!o.commit ==> p.pq.commitment == "")
    && p.raw == WriteTx(UnsignedTx(p.funding.coins,
                                   Outputs(toScript, t.send, changeScript, p.funding.changeOut, Digest(p.pq.commitment)), 0))
  }

  /** A send and the programs it calls. */
  datatype Job = Job(t: Terms, o: Options, toScript: seq<byte>, changeScript: seq<byte>,
                     sign: seq<byte> -> Pq, extend: (seq<byte>, Pq, int) -> Option<seq<byte>>) {

    predicate WantsCarrier() { o.wantReveal && !o.carrierOff }

    predicate Budgets() { o.commit && WantsCarrier() && o.hasKeys }

    function Plain(f: Funding, commitment: string): seq<byte>
      requires AllTxidsValid(f.coins)
    {
      WriteTx(UnsignedTx(f.coins, Outputs(toScript, t.send, changeScript, f.changeOut, Digest(commitment)), 0))
    }

    /** The template that is signed: with the change first when a carrier could be taken from it. */
    function SignedTemplate(f: Funding): seq<byte>
      requires AllTxidsValid(f.coins)
    {
      if WantsCarrier() && f.changeOut > DUST
      then WriteTx(UnsignedTx(f.coins, Outputs(changeScript, f.changeOut, toScript, t.send, None), 0))
      else Plain(f, "")
    }

    function Signature(f: Funding): Pq
      requires AllTxidsValid(f.coins)
    {
      if !o.commit then Pq("", false, "", "") else
      var pq := sign(SignedTemplate(f));
      pq.(revealable := pq.revealable && o.hasKeys)
    }

    /** The carrier transaction: only with a revealable signature, change for every part, and an
        extension that succeeds. */
    function CarrierTx(f: Funding): Option<seq<byte>>
      requires AllTxidsValid(f.coins)
    {
      var pq := Signature(f);
      if !o.commit || !WantsCarrier() || !pq.revealable then None else
      match CarrierPerPart(f.changeOut, EstimatedParts(pq.pubHex, pq.sigHex), t.carrierKoinu)
      case None => None
      case Some(eff) =>
        var extended := extend(SignedTemplate(f), pq, eff);
        if extended.Some? && |extended.value| > 80 then extended else None
    }

    function Made(f: Funding): Outcome {
      if !AllTxidsValid(f.coins) then BadTxid else
      match CarrierTx(f)
      case Some(raw) => Built(Template(f, Signature(f), raw, true))
      case None => Built(Template(f, Signature(f), Plain(f, Signature(f).commitment), false))
    }

    /** What one pass over the sorted coins comes to. */
    ghost predicate Passes(s: seq<Utxo>, budget: bool, r: Outcome) {
      if r == Insufficient then Spendable(s) < Need(t, 1, Extra(o, budget)) || PicksFallShort(s, t, Extra(o, budget))
      else exists f: Funding :: Funded(s, t, Extra(o, budget), f) && r == Made(f)
    }
  }

  lemma {:induction false} NoDigest()
    ensures Digest("") == None
  {
  }

  method SendPass(utxos: array<Utxo>, j: Job, budget: bool) returns (r: Outcome)
    requires j.t.Valid() && Spendable(utxos[..]) <= MAX_I64
    modifies utxos
    ensures multiset(utxos[..]) == multiset(old(utxos[..]))
    ensures j.Passes(utxos[..], budget, r) && r != RevealImpossible
    ensures r.Built? ==> NoFewerReach(old(utxos[..]), Need(j.t, 1, Extra(j.o, budget)), |r.template.funding.coins|)
  {
    hide SendFee, Total, Spendable, NoFewerReach, Job.Made, Funded, Need, PicksFallShort;
    ghost var before := utxos[..];
    var funding := Fund(utxos, j.t, Extra(j.o, budget));
    TotalsOfPermutation(before, utxos[..]);
    if funding == None { return Insufficient; }
    r := BuildPass(funding.value, j);
    BuiltFrom(funding.value, j);
  }

  lemma {:induction false} BuiltFrom(f: Funding, j: Job)
    ensures j.Made(f) == BadTxid || (j.Made(f).Built? && j.Made(f).template.funding == f)
  {
  }

  method BuildPass(f: Funding, j: Job) returns (r: Outcome)
    requires j.t.Valid()
    ensures r == j.Made(f)
  {
    hide WriteTx, UnsignedTx, Outputs, Digest, CarrierPerPart;
    var t, o := j.t, j.o;
    NoDigest();
    var base := BuildUnsignedDogeP2PKH(f.coins, j.toScript, t.send, j.changeScript, f.changeOut, "");
    if base == None { return BadTxid; }
    var carrierBase := base.value;
    if o.wantReveal && !o.carrierOff && f.changeOut > DUST {
      var swapped := BuildUnsignedDogeP2PKH(f.coins, j.changeScript, f.changeOut, j.toScript, t.send, "");
      if swapped.Some? { carrierBase := swapped.value; }
    }
    var pq := Pq("", false, "", "");
    if o.commit {
      pq := j.sign(carrierBase);
      pq := pq.(revealable := pq.revealable && o.hasKeys);
    }
    var unsigned := BuildUnsignedDogeP2PKH(f.coins, j.toScript, t.send, j.changeScript, f.changeOut, pq.commitment);
    if unsigned == None { return BadTxid; }
    if o.wantReveal && !o.carrierOff && o.commit && pq.revealable {
      var eff := CarrierPerPart(f.changeOut, EstimatedParts(pq.pubHex, pq.sigHex), t.carrierKoinu);
      if eff.Some? {
        var extended := j.extend(carrierBase, pq, eff.value);
        if extended.Some? && |extended.value| > 80 {
          return Built(Template(f, pq, extended.value, true));
        }
      }
    }
    return Built(Template(f, pq, unsigned.value, false));
  }

  /** What a send over the coins comes to: the first pass, made with the reserve when a carrier is
      wanted, stands unless it ended without the carrier it reserved for; then a second pass
      without the reserve decides, when commitment-only sends are allowed, and otherwise the send
      is refused. `coins` and `last` are the coins in the order each pass left them. */
  ghost predicate Ends(j: Job, coins: seq<Utxo>, first: Outcome, last: seq<Utxo>, r: Outcome) {
    && j.Passes(coins, j.Budgets(), first)
    && if !j.Budgets() || !first.Built? || first.template.carrier then r == first && coins == last
       else if j.o.commitOnlyFallback then j.Passes(last, false, r) && r != RevealImpossible
       else r == RevealImpossible
  }

  /** At most two passes: the first reserves for the carrier when one is wanted, the second, only
      when commitment-only sends are allowed and the first ended without a carrier, does without
      the reserve. `first` is what the first pass came to over `coins`. */
  method HandleSendPQSafe(utxos: array<Utxo>, j: Job) returns (r: Outcome, ghost first: Outcome, ghost coins: seq<Utxo>)
    requires j.t.Valid() && Spendable(utxos[..]) <= MAX_I64
    modifies utxos
    ensures multiset(utxos[..]) == multiset(coins) == multiset(old(utxos[..]))
    ensures first != RevealImpossible && Ends(j, coins, first, utxos[..], r)
  {
    hide SendFee, Spendable, NoFewerReach, Job.Made, Job.Passes;
    var o := j.o;
    ghost var before := utxos[..];
    first, coins := Insufficient, [];
    var useBudget := o.commit && o.wantReveal && !o.carrierOff && o.hasKeys;
    for econPass := 0 to 3
      invariant econPass <= 1 && multiset(utxos[..]) == multiset(before)
      invariant econPass == 0 ==> useBudget == j.Budgets()
      invariant econPass == 1 ==> !useBudget && j.Budgets() && first.Built? && !first.template.carrier && o.commitOnlyFallback
      invariant econPass == 1 ==> multiset(coins) == multiset(before) && j.Passes(coins, true, first)
    {
      TotalsOfPermutation(utxos[..], before);
      r := SendPass(utxos, j, useBudget);
      if econPass == 0 { first, coins := r, utxos[..]; }
      if !r.Built? { return; }
      if useBudget && !r.template.carrier {
        if o.wantReveal && !o.commitOnlyFallback { r := RevealImpossible; return; }
        useBudget := false;
      } else {
        return;
      }
    }
    assert false;
  }

  ghost predicate FundedResult(j: Job, f: Funding, r: Outcome) {
    && (r == BadTxid <==> !AllTxidsValid(f.coins))
    && (r != BadTxid ==> r.Built? && r.template.funding == f && (r.template.carrier <==> j.CarrierTx(f).Some?))
    && (r.Built? && !r.template.carrier ==> PlainTemplate(j.t, j.o, j.toScript, j.changeScript, r.template))
  }

  /** A pass refuses exactly when its coins do not fund it, is stopped by a txid exactly when they
      do and a chosen one has a txid that is not 32 bytes of hexadecimal digits, and otherwise
      ends with the chosen coins: with a carrier exactly when the extension gave one, and else
      with the plain template. */
  lemma {:induction false} PassIsDecided(s: seq<Utxo>, j: Job, budget: bool, r: Outcome)
    requires j.t.Valid() && Descending(s) && j.Passes(s, budget, r)
    ensures var extra := Extra(j.o, budget);
      && (r == Insufficient <==> Spendable(s) < Need(j.t, 1, extra) || PicksFallShort(s, j.t, extra))
      && (r != Insufficient ==> exists f: Funding :: Funded(s, j.t, extra, f) && FundedResult(j, f, r))
  {
    hide SendFee, WriteTx, Outputs, Digest;
    var extra := Extra(j.o, budget);
    if r != Insufficient {
      var f: Funding :| Funded(s, j.t, extra, f) && r == j.Made(f);
      CoversOrFallsShort(s, j.t, extra, |f.coins|);
      NeedIsPositive(j.t, 1, extra);
      PrefixWithinSpendable(s, |f.coins|);
    }
  }

  lemma {:induction false} EqualCoins(u: Utxo)
    ensures var s := [u, u, u];
      Total(s[..0]) == 0 && Total(s[..1]) == u.value && Total(s[..2]) == 2 * u.value && Total(s[..3]) == 3 * u.value
  {
    var s := [u, u, u];
    assert s[..0] == [] && s[..1] == [] + [u] && s[..2] == [u] + [u] && s[..3] == [u, u] + [u];
    SnocTotals([], u);
    SnocTotals([u], u);
    SnocTotals([u, u], u);
  }

  /** A send without the reserve is refused although the same coins fund it with the reserve: the
      first pass chooses three coins, the second two that do not cover the fee of two. */
  lemma {:induction false} FallbackRefused()
    ensures var t, u := Terms(1_000_000, 1_000_000, DUST), Utxo("a", 0, 700_000);
            var s := [u, u, u];
      && t.Valid() && Descending(s) && PicksFallShort(s, t, 1)
      && Funded(s, t, 2, Funding(s, 2_100_000, 686_000, 314_000))
  {
    hide Total;
    var t, u := Terms(1_000_000, 1_000_000, DUST), Utxo("a", 0, 700_000);
    var s := [u, u, u];
    EqualCoins(u);
    assert s[..3] == s;
    assert FirstReaching(s, Need(t, 1, 1), 2);
    assert FirstReaching(s, Need(t, 1, 2), 3);
  }

  // ---- what a finished send is ----

  lemma {:induction false} OutputsTotal(recipientScript: seq<byte>, recipientValue: i64, changeScript: seq<byte>, changeValue: i64,
                                        digest: Option<seq<byte>>)
    ensures BaseTx.TotalOut(Outputs(recipientScript, recipientValue, changeScript, changeValue, digest))
         == recipientValue + if changeValue > DUST then changeValue as int else 0
  {
    var outs := Outputs(recipientScript, recipientValue, changeScript, changeValue, digest);
    var commitment := if digest.Some? then [TxOut(0, BaseTx.CommitmentScript(BaseTx.FLC1, digest.value))] else [];
    assert BaseTx.TotalOut(commitment) == 0;
    if changeValue > DUST {
      assert outs[1..] == [TxOut(changeValue, changeScript)] + commitment;
      assert outs[1..][1..] == commitment;
    } else {
      assert outs[1..] == commitment;
    }
  }

  lemma {:induction false} OutputsValid(recipientScript: seq<byte>, recipientValue: i64, changeScript: seq<byte>, changeValue: i64,
                                        digest: Option<seq<byte>>)
    requires |recipientScript| == |changeScript| == 25 && (digest.Some? ==> |digest.value| == 32)
    ensures ValidOuts(Outputs(recipientScript, recipientValue, changeScript, changeValue, digest))
  {
  }

  /** Every send that ends without a carrier: whatever follows its bytes, the wallet's parsers
      find the chosen coins in order, the outputs, and the exact length; the coins' value is the
      amount sent, the change and a fee between the estimate and the estimate plus the dust limit. */
  lemma {:induction false} PlainSendConserves(s: seq<Utxo>, t: Terms, o: Options, toScript: seq<byte>, changeScript: seq<byte>,
                                              p: Template, rest: seq<byte>)
    requires t.Valid() && Funded(s, t, Extra(o, false), p.funding) && PlainTemplate(t, o, toScript, changeScript, p)
    requires |toScript| == |changeScript| == 25 && |s| < 0x1_0000_0000_0000_0000
    ensures var f := p.funding;
            var outs := Outputs(toScript, t.send, changeScript, f.changeOut, Digest(p.pq.commitment));
      && ParsePrevouts(p.raw + rest) == Some(WrittenOutpoints(f.coins))
      && ParseLegacyOutputs(p.raw + rest) == Some(outs)
      && WireLen(p.raw + rest) == Some(|p.raw|)
      && BaseTx.TotalOut(outs) == t.send + f.changeOut
      && f.fee <= Total(f.coins) - BaseTx.TotalOut(outs) <= f.fee + DUST
  {
    hide SendFee, WriteTx;
    var f, d := p.funding, Digest(p.pq.commitment);
    var outs := Outputs(toScript, t.send, changeScript, f.changeOut, d);
    NeedIsPositive(t, 1, Extra(o, false));
    assert f.coins != [];
    OutputsTotal(toScript, t.send, changeScript, f.changeOut, d);
    OutputsValid(toScript, t.send, changeScript, f.changeOut, d);
    TemplateReadsBack(f.coins, outs, 0, rest);
  }

  /** The wallet's parsers find these coins, in order, and these outputs. */
  ghost predicate ReadsAs(raw: seq<byte>, coins: seq<Utxo>, outs: seq<TxOut>) {
    AllTxidsValid(coins) && ParsePrevouts(raw) == Some(WrittenOutpoints(coins)) && ParseLegacyOutputs(raw) == Some(outs)
  }

  lemma {:induction false} PlainReadsAs(s: seq<Utxo>, j: Job, p: Template, rest: seq<byte>)
    requires j.t.Valid() && Funded(s, j.t, Extra(j.o, false), p.funding) && PlainTemplate(j.t, j.o, j.toScript, j.changeScript, p)
    requires |j.toScript| == |j.changeScript| == 25 && |s| < 0x1_0000_0000_0000_0000
    ensures var outs := Outputs(j.toScript, j.t.send, j.changeScript, p.funding.changeOut, Digest(p.pq.commitment));
      && ReadsAs(p.raw + rest, p.funding.coins, outs) && WireLen(p.raw + rest) == Some(|p.raw|)
      && p.funding.fee <= Total(p.funding.coins) - BaseTx.TotalOut(outs) <= p.funding.fee + DUST
  {
    hide SendFee, WriteTx, ParsePrevouts, ParseLegacyOutputs, WireLen, Outputs, Digest;
    PlainSendConserves(s, j.t, j.o, j.toScript, j.changeScript, p, rest);
  }

  /** The same of what a send returns, over the order its last pass left the coins in: a result
      without a carrier was funded without the reserve and reads back as a plain send. */
  lemma {:induction false} SendEndsConserved(j: Job, coins: seq<Utxo>, first: Outcome, last: seq<Utxo>, r: Outcome, rest: seq<byte>)
      returns (signed: seq<byte>)
    requires j.t.Valid() && Ends(j, coins, first, last, r) && r.Built? && !r.template.carrier
    requires |j.toScript| == |j.changeScript| == 25 && |last| < 0x1_0000_0000_0000_0000
    ensures var p := r.template;
            var f := p.funding;
            var outs := Outputs(j.toScript, j.t.send, j.changeScript, f.changeOut, Digest(p.pq.commitment));
      && Funded(last, j.t, Extra(j.o, false), f)
      && ReadsAs(p.raw + rest, f.coins, outs) && WireLen(p.raw + rest) == Some(|p.raw|)
      && f.fee <= Total(f.coins) - BaseTx.TotalOut(outs) <= f.fee + DUST
      && (if j.o.commit then p.pq == j.sign(signed).(revealable := p.pq.revealable) else p.pq.commitment == "")
      && ReadsAs(signed + rest, f.coins, if j.WantsCarrier() && f.changeOut > DUST then ChangeFirst(j, f.changeOut) else PaymentFirst(j, f.changeOut))
  {
    hide *;
    var p := PlainEnd(j, coins, first, last, r);
    PlainReadsAs(last, j, p, rest);
    signed := j.SignedTemplate(p.funding);
    FundedIsSpent(last, j.t, Extra(j.o, false), p.funding);
    SignedReadsBack(j, p.funding, rest);
  }

  /** The outputs of the plain template without the commitment. */
  function PaymentFirst(j: Job, change: i64): seq<TxOut> {
    [TxOut(j.t.send, j.toScript)] + if change > DUST then [TxOut(change, j.changeScript)] else []
  }

  lemma {:induction false} SignedReadsBack(j: Job, f: Funding, rest: seq<byte>)
    requires AllTxidsValid(f.coins) && |j.toScript| == |j.changeScript| == 25 && 0 < |f.coins| < 0x1_0000_0000_0000_0000
    ensures ReadsAs(j.SignedTemplate(f) + rest, f.coins,
                    if j.WantsCarrier() && f.changeOut > DUST then ChangeFirst(j, f.changeOut) else PaymentFirst(j, f.changeOut))
  {
    hide WriteTx;
    NoDigest();
    ChangeFirstOutputs(j, f.changeOut);
    assert Outputs(j.toScript, j.t.send, j.changeScript, f.changeOut, None) == PaymentFirst(j, f.changeOut);
    TemplateReadsBack(f.coins, if j.WantsCarrier() && f.changeOut > DUST then ChangeFirst(j, f.changeOut) else PaymentFirst(j, f.changeOut), 0, rest);
  }

  lemma {:induction false} PlainEnd(j: Job, coins: seq<Utxo>, first: Outcome, last: seq<Utxo>, r: Outcome) returns (p: Template)
    requires j.t.Valid() && Ends(j, coins, first, last, r) && r.Built? && !r.template.carrier
    ensures p == r.template && Funded(last, j.t, Extra(j.o, false), p.funding)
    ensures PlainTemplate(j.t, j.o, j.toScript, j.changeScript, p) && AllTxidsValid(p.funding.coins)
    ensures if j.o.commit then p.pq == j.sign(j.SignedTemplate(p.funding)).(revealable := p.pq.revealable) else p.pq.commitment == ""
  {
    hide Funded, PlainTemplate, Job.Made, SendFee, Extra;
    p := r.template;
    var f: Funding :| Funded(last, j.t, Extra(j.o, false), f) && r == j.Made(f);
    PlainMade(j, f);
  }

  lemma {:induction false} PlainMade(j: Job, f: Funding)
    requires j.Made(f).Built? && !j.Made(f).template.carrier
    ensures j.Made(f).template.funding == f && PlainTemplate(j.t, j.o, j.toScript, j.changeScript, j.Made(f).template)
    ensures AllTxidsValid(f.coins)
    ensures var pq := j.Made(f).template.pq;
      if j.o.commit then pq == j.sign(j.SignedTemplate(f)).(revealable := pq.revealable) else pq.commitment == ""
  {
    hide WriteTx, Outputs, Digest;
  }

  // ---- a send that ends with a carrier ----

  /** The outputs of the template that carries: the change first, then the recipient when the
      amount is above the dust limit. */
  function ChangeFirst(j: Job, change: i64): seq<TxOut> {
    [TxOut(change, j.changeScript)] + if j.t.send > DUST then [TxOut(j.t.send, j.toScript)] else []
  }

  lemma {:induction false} ChangeFirstOutputs(j: Job, change: i64)
    ensures Outputs(j.changeScript, change, j.toScript, j.t.send, None) == ChangeFirst(j, change)
  {
  }

  /** The bytes that were signed and extended: the template of the funding with the change first. */
  ghost predicate CarrierBase(j: Job, f: Funding, base: seq<byte>) {
    AllTxidsValid(f.coins) && base == WriteTx(UnsignedTx(f.coins, ChangeFirst(j, f.changeOut), 0))
  }

  lemma {:induction false} CarrierMade(j: Job, f: Funding) returns (base: seq<byte>, eff: int)
    requires j.Made(f).Built? && j.Made(f).template.carrier
    ensures var p := j.Made(f).template;
      && CarrierBase(j, f, base) && p.funding == f
      && j.o.commit && j.o.wantReveal && !j.o.carrierOff && j.o.hasKeys
      && p.pq == j.sign(base) && p.pq.revealable
      && f.changeOut > DUST && CarrierPerPart(f.changeOut, EstimatedParts(p.pq.pubHex, p.pq.sigHex), j.t.carrierKoinu) == Some(eff)
      && j.extend(base, p.pq, eff) == Some(p.raw) && |p.raw| > 80
  {
    hide WriteTx, Outputs, EstimatedParts;
    base := j.SignedTemplate(f);
    ChangeFirstOutputs(j, f.changeOut);
    eff := CarrierPerPart(f.changeOut, EstimatedParts(j.Signature(f).pubHex, j.Signature(f).sigHex), j.t.carrierKoinu).value;
  }

  /** A pass ends with a carrier exactly when one was wanted and committed to, the keys are there,
      the signature can be revealed, the change pays for the parts, and the extension of the
      signed bytes gave more than 80 bytes. */
  lemma {:induction false} CarrierIff(j: Job, f: Funding, base: seq<byte>)
    requires f.changeOut > DUST && CarrierBase(j, f, base)
    ensures var pq, made := j.sign(base), j.Made(f);
            var eff := CarrierPerPart(f.changeOut, EstimatedParts(pq.pubHex, pq.sigHex), j.t.carrierKoinu);
      made.Built? && (made.template.carrier <==>
        && j.o.commit && j.o.wantReveal && !j.o.carrierOff && j.o.hasKeys && pq.revealable && eff.Some?
        && j.extend(base, pq, eff.value).Some? && |j.extend(base, pq, eff.value).value| > 80)
  {
    hide WriteTx, Outputs, EstimatedParts;
    ChangeFirstOutputs(j, f.changeOut);
    var pq := j.sign(base);
    assert pq.revealable && j.o.hasKeys ==> pq.(revealable := pq.revealable && j.o.hasKeys) == pq;
  }

  /** Whatever the programs do, a send that ends with a carrier was signed over and extended from
      the same bytes, which the wallet's parsers read as the chosen coins and, in this order, the
      change and the payment; the value per part keeps the dust limit in the change. */
  lemma {:induction false} CarrierEndsOnBase(j: Job, coins: seq<Utxo>, first: Outcome, last: seq<Utxo>, r: Outcome, rest: seq<byte>)
      returns (budget: bool, base: seq<byte>, eff: int)
    requires j.t.Valid() && Ends(j, coins, first, last, r) && r.Built? && r.template.carrier
    requires |j.toScript| == |j.changeScript| == 25 && |last| < 0x1_0000_0000_0000_0000
    ensures var p := r.template;
            var f := p.funding;
            var n := EstimatedParts(p.pq.pubHex, p.pq.sigHex);
      && Funded(last, j.t, Extra(j.o, budget), f) && (budget ==> j.Budgets()) && CarrierBase(j, f, base)
      && ReadsAs(base + rest, f.coins, ChangeFirst(j, f.changeOut))
      && p.pq == j.sign(base) && p.pq.revealable && j.extend(base, p.pq, eff) == Some(p.raw)
      && DUST <= eff <= j.t.carrierKoinu && n * eff + DUST <= f.changeOut
      && Total(f.coins) - BaseTx.TotalOut(ChangeFirst(j, f.changeOut))
         == f.fee + (if budget then j.t.carrierKoinu else 0) + if j.t.send > DUST then 0 else j.t.send as int
  {
    hide *;
    var f;
    budget, f := CarrierEnd(j, coins, first, last, r);
    base, eff := CarrierMade(j, f);
    var n := EstimatedParts(r.template.pq.pubHex, r.template.pq.sigHex);
    FundedIsSpent(last, j.t, Extra(j.o, budget), f);
    TermsBound(j.t);
    ClampIsLargest(f.changeOut, n, j.t.carrierKoinu);
    BaseReadsBack(j, f, base, rest);
    ChangeFirstOutputs(j, f.changeOut);
    CarrierTemplate(last, j.t, j.o, budget, j.toScript, j.changeScript, f);
  }

  lemma {:induction false} TermsBound(t: Terms)
    requires t.Valid()
    ensures t.carrierKoinu >= DUST
  {
  }

  lemma {:induction false} FundedIsSpent(s: seq<Utxo>, t: Terms, extra: int, f: Funding)
    requires t.Valid() && Funded(s, t, extra, f)
    ensures 0 < |f.coins| <= |s|
  {
    hide SendFee;
    NeedIsPositive(t, 1, extra);
    assert Total([]) == 0;
  }

  lemma {:induction false} CarrierEnd(j: Job, coins: seq<Utxo>, first: Outcome, last: seq<Utxo>, r: Outcome) returns (budget: bool, f: Funding)
    requires j.t.Valid() && Ends(j, coins, first, last, r) && r.Built? && r.template.carrier
    ensures Funded(last, j.t, Extra(j.o, budget), f) && r == j.Made(f) && (budget ==> j.Budgets())
  {
    hide Funded, Job.Made, SendFee, Extra;
    budget := j.Budgets() && r == first && coins == last && j.Passes(last, true, r);
    f :| Funded(last, j.t, Extra(j.o, budget), f) && r == j.Made(f);
  }

  lemma {:induction false} BaseReadsBack(j: Job, f: Funding, base: seq<byte>, rest: seq<byte>)
    requires CarrierBase(j, f, base) && |j.toScript| == |j.changeScript| == 25 && 0 < |f.coins| < 0x1_0000_0000_0000_0000
    ensures ReadsAs(base + rest, f.coins, ChangeFirst(j, f.changeOut))
  {
    hide WriteTx;
    TemplateReadsBack(f.coins, ChangeFirst(j, f.changeOut), 0, rest);
  }

  /** What the extension is given besides the template: the digest and the number of parts, from
      texts that decode; nothing when one does not. */
  function Payload(pq: Pq): Option<(seq<byte>, byte)> {
    var digest, pk, sig := Digest(pq.commitment), HexDecode(Trim(pq.pubHex)), HexDecode(Trim(pq.sigHex));
    if digest == None || pk == None || sig == None || pk.value == [] || sig.value == [] then None
    else Some((digest.value, Carrier.PartCount(|pk.value + sig.value|)))
  }

  /** The extension program is the library's: on a written transaction it appends the commitment
      and the parts at the given value, paid from output 0. */
  ghost predicate IsExtension(extend: (seq<byte>, Pq, int) -> Option<seq<byte>>, spk: seq<byte>) {
    forall tx: Tx, pq: Pq, v: u64 | ValidTx(tx) :: extend(WriteTx(tx), pq, v) ==
      match Payload(pq)
      case None => None
      case Some(what) =>
        match BaseTx.AddedCarriers(tx, what.0, spk, v, what.1)
        case None => None
        case Some(extended) => Some(WriteTx(extended))
  }

  /** With the library's extension, reading the bytes of a send that ends with a carrier gives the
      recipient exactly the amount when it is above the dust limit, output 0 with the change less
      the carriers and still at least the dust limit, the commitment, and equal carriers. */
  lemma {:induction false} CarrierSendReadsBack(j: Job, coins: seq<Utxo>, first: Outcome, last: seq<Utxo>, r: Outcome, spk: seq<byte>, rest: seq<byte>)
      returns (n: nat, eff: i64)
    requires j.t.Valid() && Ends(j, coins, first, last, r) && r.Built? && r.template.carrier
    requires |j.toScript| == |j.changeScript| == 25 && |last| < 0x1_0000_0000_0000_0000
    requires IsExtension(j.extend, spk) && |spk| < 0x1_0000
    ensures var p := r.template;
            var left := p.funding.changeOut - n * eff;
      && Payload(p.pq).Some? && n == Payload(p.pq).value.1 > 0
      && DUST <= eff <= j.t.carrierKoinu && DUST <= left < 0x8000_0000_0000_0000
      && ReadsAs(p.raw + rest, p.funding.coins,
                 ChangeFirst(j, left) + [Committed(Payload(p.pq).value.0)] + BaseTx.CarrierOutputs(spk, eff, n))
  {
    hide *;
    var budget, base, value := CarrierEndsOnBase(j, coins, first, last, r, []);
    var p := r.template;
    FundedIsSpent(last, j.t, Extra(j.o, budget), p.funding);
    n, eff := ExtendedBase(j, p, base, value, spk, rest);
  }

  lemma {:induction false} ExtendedBase(j: Job, p: Template, base: seq<byte>, value: int, spk: seq<byte>, rest: seq<byte>) returns (n: nat, eff: i64)
    requires CarrierBase(j, p.funding, base) && |j.toScript| == |j.changeScript| == 25 && 0 < |p.funding.coins| < 0x1_0000_0000_0000_0000
    requires IsExtension(j.extend, spk) && |spk| < 0x1_0000 && j.extend(base, p.pq, value) == Some(p.raw)
    requires DUST <= value <= j.t.carrierKoinu && EstimatedParts(p.pq.pubHex, p.pq.sigHex) * value + DUST <= p.funding.changeOut
    ensures var left := p.funding.changeOut - n * eff;
      && Payload(p.pq).Some? && n == Payload(p.pq).value.1 > 0 && eff == value
      && DUST <= left < 0x8000_0000_0000_0000
      && ReadsAs(p.raw + rest, p.funding.coins,
                 ChangeFirst(j, left) + [Committed(Payload(p.pq).value.0)] + BaseTx.CarrierOutputs(spk, eff, n))
  {
    hide WriteTx, EstimatedParts, Payload, ReadsAs, BaseTx.AddedCarriers, BaseTx.Extend, BaseTx.CarrierOutputs;
    PartsBound(p.pq, value, p.funding.changeOut);
    eff := value;
    var tx := UnsignedTx(p.funding.coins, ChangeFirst(j, p.funding.changeOut), 0);
    UnsignedIsValid(p.funding.coins, ChangeFirst(j, p.funding.changeOut), 0);
    assert j.extend(WriteTx(tx), p.pq, value as u64).Some?;
    n := Payload(p.pq).value.1;
    var digest := Payload(p.pq).value.0;
    var extended := BaseTx.AddedCarriers(tx, digest, spk, value, n).value;
    PayloadDigest(p.pq);
    AtMostTimes(0, n, value);
    AddedAre(j, p.funding, digest, spk, eff, n, n * eff);
    AddedReadBack(p.funding.coins, extended, tx, rest);
  }

  lemma {:induction false} PayloadDigest(pq: Pq)
    requires Payload(pq).Some?
    ensures |Payload(pq).value.0| == 32
  {
  }

  /** The program makes at most as many parts as the wallet paid for. */
  lemma {:induction false} PartsBound(pq: Pq, value: int, change: int)
    requires value >= DUST && EstimatedParts(pq.pubHex, pq.sigHex) * value + DUST <= change
    ensures Payload(pq).Some? ==> Payload(pq).value.1 * value + DUST <= change
    ensures value <= change
  {
    hide EstimatedParts, HexDecode, Trim, Carrier.PartCount, Carrier.PartTotal, Digest;
    var parts := EstimatedParts(pq.pubHex, pq.sigHex);
    AtMostTimes(1, parts, value);
    if Payload(pq).Some? {
      CountWithin(|HexDecode(Trim(pq.pubHex)).value + HexDecode(Trim(pq.sigHex)).value|);
      AtMostTimes(Payload(pq).value.1, parts, value);
    }
  }

  lemma {:induction false} AtMostTimes(m: nat, n: nat, v: nat)
    requires m <= n
    ensures m * v <= n * v
  {
  }

  lemma {:induction false} CountWithin(fullLen: nat)
    ensures Carrier.PartCount(fullLen) <= Carrier.PartTotal(fullLen)
  {
  }

  lemma {:induction false} AddedAre(j: Job, f: Funding, digest: seq<byte>, spk: seq<byte>, eff: i64, n: byte, total: nat)
    requires AllTxidsValid(f.coins) && |digest| == 32 && eff >= DUST && total == n * eff && total + DUST <= f.changeOut
    requires |j.toScript| == |j.changeScript| == 25 && |spk| < 0x1_0000
    requires 0 < |f.coins| < 0x1_0000_0000_0000_0000
    ensures var tx := UnsignedTx(f.coins, ChangeFirst(j, f.changeOut), 0);
            var added := BaseTx.AddedCarriers(tx, digest, spk, eff, n);
      && (added.Some? <==> n > 0)
      && (added.Some? ==> ValidTx(added.value) && added.value.inputs == tx.inputs)
      && (added.Some? ==> added.value.outputs == ChangeFirst(j, f.changeOut - total) + [Committed(digest)] + BaseTx.CarrierOutputs(spk, eff, n))
  {
    hide UnsignedIns, BaseTx.TotalOut, BaseTx.Extend, BaseTx.CarrierOutputs, ValidTx, Signed64, Word64, BaseTx.CommitmentScript;
    var tx := UnsignedTx(f.coins, ChangeFirst(j, f.changeOut), 0);
    var carriers := BaseTx.CarrierOutputs(spk, eff, n);
    UnsignedIsValid(f.coins, ChangeFirst(j, f.changeOut), 0);
    WordsOf(f.changeOut, eff, total);
    BaseTx.CarrierTotal(spk, eff, n);
    ExtendedOutputs(j, tx, f.changeOut, digest, carriers, total);
    CarriersValid(spk, eff, n);
    BaseTx.ExtendIsValid(tx, digest, carriers);
    ExtendKeepsInputs(tx, digest, carriers);
  }

  /** The commitment that the extension appends. */
  function Committed(digest: seq<byte>): TxOut { TxOut(0, [0x6a, 0x24, 0x46, 0x4c, 0x43, 0x31] + digest) }

  lemma {:induction false} WordsOf(change: i64, eff: i64, total: nat)
    requires eff >= 0 && total <= change
    ensures Word64(change) == change && Word64(total) == total && Signed64(eff) == eff
    ensures Signed64(Word64(change - total)) == change - total
  {
    SignedRoundTrip(change - total, 0);
  }

  lemma {:induction false} CarriersValid(spk: seq<byte>, eff: i64, n: nat)
    requires |spk| < 0x1_0000
    ensures forall o | o in BaseTx.CarrierOutputs(spk, eff, n) :: ValidOut(o)
  {
  }

  lemma {:induction false} ExtendKeepsInputs(tx: Tx, digest: seq<byte>, carriers: seq<TxOut>)
    ensures BaseTx.Extend(tx, digest, carriers).inputs == tx.inputs
  {
  }

  lemma {:induction false} ExtendedOutputs(j: Job, tx: Tx, change: i64, digest: seq<byte>, carriers: seq<TxOut>, total: int)
    requires tx.outputs == ChangeFirst(j, change) && BaseTx.TotalOut(carriers) == total && Signed64(Word64(change - total)) == change - total
    ensures BaseTx.Extend(tx, digest, carriers).outputs == ChangeFirst(j, change - total) + [Committed(digest)] + carriers
  {
    hide BaseTx.TotalOut, BaseTx.Extend, Signed64, Word64;
    BaseTx.ExtensionFront(tx, digest, carriers);
    assert BaseTx.CommitmentScript(BaseTx.FLC1, digest) == Committed(digest).script;
  }

  lemma {:induction false} AddedReadBack(coins: seq<Utxo>, added: Tx, tx: Tx, rest: seq<byte>)
    requires AllTxidsValid(coins) && 0 < |coins| && tx.inputs == UnsignedIns(coins) && added.inputs == tx.inputs && ValidTx(added)
    ensures ReadsAs(WriteTx(added) + rest, coins, added.outputs)
  {
    hide WriteTx;
    PrefixParsersReadBack(added, rest);
    WriteTxShape(added, rest);
    UnsignedOutpoints(coins);
  }

  // ---- the fee against the signed size ----

  lemma {:induction false} InputBytes(ins: seq<TxIn>)
    requires forall i | i in ins :: |i.prevTxid| == 32 && |i.scriptSig| <= 108
    ensures |WriteMany(WriteIn, ins)| <= 149 * |ins|
  {
    if ins != [] {
      OneInputBytes(ins[0]);
      InputBytes(ins[1..]);
    }
  }

  lemma {:induction false} OneInputBytes(i: TxIn)
    requires |i.prevTxid| == 32 && |i.scriptSig| <= 108
    ensures |WriteIn(i)| <= 149
  {
  }

  lemma {:induction false} OutputBytes(outs: seq<TxOut>)
    requires forall o | o in outs :: |o.script| < 0xfd
    ensures |WriteMany(WriteOut, outs)| == 9 * |outs| + ScriptBytes(outs)
  {
    if outs != [] { OutputBytes(outs[1..]); }
  }

  function ScriptBytes(outs: seq<TxOut>): nat {
    if outs == [] then 0 else |outs[0].script| + ScriptBytes(outs[1..])
  }

  lemma {:induction false} TemplateScriptBytes(toScript: seq<byte>, send: i64, changeScript: seq<byte>, changeOut: i64, d: Option<seq<byte>>)
    requires |toScript| == |changeScript| == 25 && (d.Some? ==> |d.value| == 32)
    ensures var outs := Outputs(toScript, send, changeScript, changeOut, d);
      1 <= |outs| <= 3 && 9 * |outs| + ScriptBytes(outs) <= 68 + if d.Some? then 47 else 0
  {
    var outs := Outputs(toScript, send, changeScript, changeOut, d);
    var commitment := if d.Some? then [TxOut(0, BaseTx.CommitmentScript(BaseTx.FLC1, d.value))] else [];
    assert ScriptBytes(commitment) == if d.Some? then 38 else 0;
    if changeOut > DUST {
      assert outs[1..] == [TxOut(changeOut, changeScript)] + commitment;
      assert outs[1..][1..] == commitment;
    } else {
      assert outs[1..] == commitment;
    }
  }

  lemma {:induction false} VarIntBytes(v: nat)
    ensures |WriteVarInt(v)| <= 9 && (v < 0xfd ==> |WriteVarInt(v)| == 1)
  {
  }

  /** The estimate is an upper bound on the signed size: signature scripts of up to 108 bytes,
      with the change and the commitment counted or not. */
  lemma {:induction false} EstimateCoversSigned(tx: Tx, toScript: seq<byte>, send: i64, changeScript: seq<byte>, changeOut: i64, d: Option<seq<byte>>)
    requires |toScript| == |changeScript| == 25 && (d.Some? ==> |d.value| == 32) && |tx.inputs| > 0
    requires tx.outputs == Outputs(toScript, send, changeScript, changeOut, d)
    requires forall i | i in tx.inputs :: |i.prevTxid| == 32 && |i.scriptSig| <= 108
    ensures |WriteTx(tx)| <= VbytesEstimate(|tx.inputs|, if d.Some? then 3 else 2)
  {
    hide WriteVarInt, Outputs, WriteMany;
    InputBytes(tx.inputs);
    TemplateScriptBytes(toScript, send, changeScript, changeOut, d);
    ShortScripts(toScript, send, changeScript, changeOut, d);
    OutputBytes(tx.outputs);
    VarIntBytes(|tx.inputs|);
    VarIntBytes(|tx.outputs|);
    PartsOfTx(tx);
  }

  lemma {:induction false} PartsOfTx(tx: Tx)
    ensures |WriteTx(tx)| == 8 + |WriteVarInt(|tx.inputs|)| + |WriteMany(WriteIn, tx.inputs)|
                               + |WriteVarInt(|tx.outputs|)| + |WriteMany(WriteOut, tx.outputs)|
  {
    hide WriteMany;
  }

  lemma {:induction false} ShortScripts(toScript: seq<byte>, send: i64, changeScript: seq<byte>, changeOut: i64, d: Option<seq<byte>>)
    requires |toScript| == |changeScript| == 25 && (d.Some? ==> |d.value| == 32)
    ensures forall o | o in Outputs(toScript, send, changeScript, changeOut, d) :: |o.script| < 0xfd
  {
  }

  /** A plain send pays at least the rate for its signed bytes. */
  lemma {:induction false} FeeMeetsRate(s: seq<Utxo>, t: Terms, o: Options, toScript: seq<byte>, changeScript: seq<byte>, p: Template, signed: Tx)
    requires t.Valid() && Funded(s, t, Extra(o, false), p.funding) && PlainTemplate(t, o, toScript, changeScript, p)
    requires |toScript| == |changeScript| == 25 && |s| < 0x1_0000_0000_0000_0000
    requires |signed.inputs| == |p.funding.coins|
    requires signed.outputs == Outputs(toScript, t.send, changeScript, p.funding.changeOut, Digest(p.pq.commitment))
    requires forall i | i in signed.inputs :: |i.prevTxid| == 32 && |i.scriptSig| <= 108
    ensures 1000 * (Total(p.funding.coins) - BaseTx.TotalOut(signed.outputs)) >= t.rate * |WriteTx(signed)|
  {
    var f, d := p.funding, Digest(p.pq.commitment);
    PlainSendConserves(s, t, o, toScript, changeScript, p, []);
    NeedIsPositive(t, 1, Extra(o, false));
    EstimateCoversSigned(signed, toScript, t.send, changeScript, f.changeOut, d);
    FeeOfEstimate(t.rate, |f.coins|, Extra(o, false), |WriteTx(signed)|);
  }

  lemma {:induction false} FeeOfEstimate(rate: nat, inputs: nat, extra: nat, size: nat)
    requires size <= VbytesEstimate(inputs, 2 + extra)
    ensures 1000 * SendFee(rate, inputs, true, extra) >= rate * size
  {
    var vb := VbytesEstimate(inputs, 2 + extra);
    EconomicFeeIsLeast(vb, rate, SendFee(rate, inputs, true, extra));
    assert vb * rate >= size * rate == rate * size;
  }

  // ---- what the carrier template is ----

  /** The template handed to the carrier extension, in a pass with or without the reserve, has the
      change first. It pays the recipient only when the amount is above the dust limit, and its
      fee includes the whole reserve of the pass, since the extension takes the carriers out of
      the change again. */
  lemma {:induction false} CarrierTemplate(s: seq<Utxo>, t: Terms, o: Options, budget: bool, toScript: seq<byte>, changeScript: seq<byte>, f: Funding)
    requires t.Valid() && Funded(s, t, Extra(o, budget), f) && f.changeOut > DUST
    ensures var outs := Outputs(changeScript, f.changeOut, toScript, t.send, None);
      && outs[0] == TxOut(f.changeOut, changeScript)
      && (|outs| == 2 <==> t.send > DUST) && (|outs| == 2 ==> outs[1] == TxOut(t.send, toScript))
      && Total(f.coins) - BaseTx.TotalOut(outs)
         == f.fee + (if o.commit && budget then t.carrierKoinu else 0) + if t.send > DUST then 0 else t.send as int
  {
    hide SendFee;
    OutputsTotal(changeScript, f.changeOut, toScript, t.send, None);
  }

  /** The extension moves the carriers' value out of the change, so the extended transaction pays
      the whole reserve of its pass as fee, on top of the estimate, and nothing more when its pass
      was made without one. */
  lemma {:induction false} CarrierSendPaysReserve(s: seq<Utxo>, t: Terms, o: Options, budget: bool, toScript: seq<byte>, changeScript: seq<byte>,
                                                  f: Funding, digest: seq<byte>, carriers: seq<TxOut>)
    requires t.Valid() && Funded(s, t, Extra(o, budget), f) && f.changeOut > DUST && AllTxidsValid(f.coins)
    requires 0 <= BaseTx.TotalOut(carriers) <= f.changeOut
    ensures var base := UnsignedTx(f.coins, Outputs(changeScript, f.changeOut, toScript, t.send, None), 0);
      Total(f.coins) - BaseTx.TotalOut(BaseTx.Extend(base, digest, carriers).outputs)
      == f.fee + (if o.commit && budget then t.carrierKoinu else 0) + if t.send > DUST then 0 else t.send as int
  {
    hide SendFee, Funded;
    CarrierTemplate(s, t, o, budget, toScript, changeScript, f);
    BaseTx.ExtendKeepsTotal(UnsignedTx(f.coins, Outputs(changeScript, f.changeOut, toScript, t.send, None), 0), digest, carriers);
  }

  const SMALL_SEND := Terms(50_000, 1_000_000, DUST)
  const COIN := Utxo("aa", 0, 10_000_000)
  const SMALL_FUNDING := Funding([COIN], 10_000_000, 326_000, 9_524_000)

  lemma {:induction false} SmallSendIsFunded()
    ensures SMALL_SEND.Valid() && Funded([COIN], SMALL_SEND, 2, SMALL_FUNDING)
  {
    hide Total;
    assert [COIN][..1] == [COIN] == [] + [COIN] && [COIN][..0] == [];
    SnocTotals([], COIN);
    EmptyTotal();
    assert FirstReaching([COIN], Need(SMALL_SEND, 1, 2), 1);
  }

  lemma {:induction false} EmptyTotal()
    ensures Total([]) == 0
  {
  }

  /** An amount of half the dust limit from one coin, with the reserve: the template and every
      extension of it pay the recipient nothing, and the fee is the estimate, the reserve and the
      amount. */
  lemma {:induction false} SmallPaymentIsLost(toScript: seq<byte>, changeScript: seq<byte>, digest: seq<byte>, carriers: seq<TxOut>)
    requires 0 <= BaseTx.TotalOut(carriers) <= 9_524_000
    ensures var base := UnsignedTx([COIN], Outputs(changeScript, 9_524_000, toScript, SMALL_SEND.send, None), 0);
            var sent := BaseTx.Extend(base, digest, carriers).outputs;
      && Funded([COIN], SMALL_SEND, 2, SMALL_FUNDING) && SMALL_FUNDING.changeOut > DUST >= SMALL_SEND.send
      && base.outputs == [TxOut(9_524_000, changeScript)]
      && sent == [TxOut(9_524_000 - BaseTx.TotalOut(carriers), changeScript), TxOut(0, BaseTx.CommitmentScript(BaseTx.FLC1, digest))] + carriers
      && Total([COIN]) - BaseTx.TotalOut(sent) == 326_000 + SMALL_SEND.carrierKoinu + SMALL_SEND.send
  {
    hide Total, BaseTx.TotalOut;
    SmallSendIsFunded();
    var o := Options(true, true, false, true, false);
    assert AllTxidsValid([COIN]);
    CarrierSendPaysReserve([COIN], SMALL_SEND, o, true, toScript, changeScript, SMALL_FUNDING, digest, carriers);
    var base := UnsignedTx([COIN], Outputs(changeScript, 9_524_000, toScript, SMALL_SEND.send, None), 0);
    BaseTx.ExtensionFront(base, digest, carriers);
    SignedRoundTrip(9_524_000 - BaseTx.TotalOut(carriers), 0);
  }

  /** With the clamped value the library never refuses for want of change,
      and leaves at least the dust limit in output 0. */
  lemma {:induction false} ClampedCarriersAreFunded(changeOut: i64, parts: nat, carrierKoinu: i64, spk: seq<byte>)
    requires carrierKoinu >= DUST && parts >= 1 && CarrierPerPart(changeOut, parts, carrierKoinu).Some?
    ensures var eff := CarrierPerPart(changeOut, parts, carrierKoinu).value;
      DUST <= eff <= carrierKoinu && BaseTx.TotalOut(BaseTx.CarrierOutputs(spk, eff, parts)) <= changeOut - DUST
  {
    ClampIsLargest(changeOut, parts, carrierKoinu);
    BaseTx.CarrierTotal(spk, CarrierPerPart(changeOut, parts, carrierKoinu).value, parts);
  }

  // ---- a refusal although the coins suffice ----

  /** Three coins that together cover the amount and the fee of spending all three are refused,
      because the two picked for the fee of one input do not cover the fee of two. */
  lemma {:induction false} RefusedThoughCovered()
    ensures var t := Terms(1_000_000, 1_000_000, DUST);
            var s := [Utxo("a", 0, 1_000_000), Utxo("b", 0, 400_000), Utxo("c", 0, 400_000)];
      && t.Valid() && Descending(s) && PicksFallShort(s, t, 0)
      && Spendable(s) >= Need(t, 1, 0) && Total(s) >= Need(t, 3, 0)
  {
    var t := Terms(1_000_000, 1_000_000, DUST);
    var s := [Utxo("a", 0, 1_000_000), Utxo("b", 0, 400_000), Utxo("c", 0, 400_000)];
    assert s[..0] == [] && s[..1] == [s[0]] && s[..2] == [s[0], s[1]];
    assert s[..2][..1] == s[..1] && s[..1][..0] == [];
    assert Total(s[..1]) == 1_000_000 && Total(s[..2]) == 1_400_000 && Total(s) == 1_800_000;
    PrefixWithinSpendable(s, 3);
    assert s[..3] == s;
    assert FirstReaching(s, Need(t, 1, 0), 2);
  }
}
