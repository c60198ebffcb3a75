/** Greedy coin selection: sort in place by value, largest first, and take a prefix. */
module CoinSelection {
  import opened Bytes
  import opened LegacyTx

  datatype Pick = Pick(coins: seq<Utxo>, sum: int)

  function Total(s: seq<Utxo>): int {
    if s == [] then 0 else Total(s[..|s| - 1]) + s[|s| - 1].value
  }

  /** What can be spent at all: coins of negative value never help. */
  function Spendable(s: seq<Utxo>): nat {
    if s == [] then 0
    else Spendable(s[..|s| - 1]) + Worth(s[|s| - 1])
  }

  function Worth(u: Utxo): nat { if u.value > 0 then u.value as int else 0 }

  predicate Descending(s: seq<Utxo>) {
    forall i, j | 0 <= i < j < |s| :: s[i].value >= s[j].value
  }

  /** n coins from the front reach the need and no fewer do. */
  predicate FirstReaching(s: seq<Utxo>, need: int, n: nat) {
    n <= |s| && Total(s[..n]) >= need && forall k | 0 <= k < n :: Total(s[..k]) < need
  }

  /** No choice of fewer than n of these coins reaches the need. */
  ghost predicate NoFewerReach(all: seq<Utxo>, need: int, n: nat) {
    forall q: seq<Utxo> | multiset(q) <= multiset(all) && |q| < n :: Total(q) < need
  }

  // ---- totals do not depend on order ----

  function Without(s: seq<Utxo>, i: nat): (r: seq<Utxo>)
    requires i < |s|
  {
    s[..i] + s[i + 1..]
  }

  lemma {:induction false} WithoutTotals(s: seq<Utxo>, i: nat)
    requires i < |s|
    ensures Total(s) == Total(Without(s, i)) + s[i].value
    ensures Spendable(s) == Spendable(Without(s, i)) + Worth(s[i])
  {
    var n := |s| - 1;
    if i == n {
      assert Without(s, i) == s[..n];
    } else {
      WithoutTotals(s[..n], i);
      assert Without(s, i) == Without(s[..n], i) + [s[n]];
      SnocTotals(Without(s[..n], i), s[n]);
    }
  }

  lemma {:induction false} SnocTotals(s: seq<Utxo>, u: Utxo)
    ensures Total(s + [u]) == Total(s) + u.value && Spendable(s + [u]) == Spendable(s) + Worth(u)
  {
  }

  lemma {:induction false} WithoutCoins(s: seq<Utxo>, i: nat)
    requires i < |s|
    ensures multiset(Without(s, i)) == multiset(s) - multiset{s[i]}
  {
    assert s == s[..i] + [s[i]] + s[i + 1..];
  }

  lemma {:induction false} TotalsOfPermutation(s: seq<Utxo>, t: seq<Utxo>)
    requires multiset(s) == multiset(t)
    ensures Total(s) == Total(t) && Spendable(s) == Spendable(t)
    decreases |s|
  {
    assert |s| == |multiset(s)| == |multiset(t)| == |t|;
    if s != [] {
      assert s[0] in multiset(t);
      var i :| 0 <= i < |t| && t[i] == s[0];
      WithoutTotals(s, 0);
      WithoutTotals(t, i);
      WithoutCoins(s, 0);
      WithoutCoins(t, i);
      TotalsOfPermutation(Without(s, 0), Without(t, i));
    }
  }

  // ---- greedy is best ----

  lemma {:induction false} TotalFromFront(s: seq<Utxo>, n: nat)
    requires 0 < n <= |s|
    ensures Total(s[..n]) == s[0].value + Total(s[1..][..n - 1])
  {
    hide Total, Spendable;
    WithoutTotals(s[..n], 0);
    assert Without(s[..n], 0) == s[1..][..n - 1];
  }

  /** The position in q to set against the largest coin: that coin itself when q has it. */
  lemma {:induction false} SetAside(q: seq<Utxo>, s: seq<Utxo>) returns (i: nat)
    requires q != [] && s != [] && Descending(s) && multiset(q) <= multiset(s)
    ensures i < |q| && q[i].value <= s[0].value && multiset(Without(q, i)) <= multiset(s[1..])
  {
    assert s == [s[0]] + s[1..];
    assert multiset(s) == multiset{s[0]} + multiset(s[1..]);
    if s[0] in q {
      i :| 0 <= i < |q| && q[i] == s[0];
    } else {
      i := 0;
      assert q[0] in multiset(q) && q[0] in multiset(s) && q[0] in s;
    }
    WithoutCoins(q, i);
  }

  /** As many coins from anywhere never total more than the same number from the front. */
  lemma {:induction false} FrontIsLargest(s: seq<Utxo>, q: seq<Utxo>)
    requires Descending(s) && multiset(q) <= multiset(s)
    ensures |q| <= |s| && Total(q) <= Total(s[..|q|])
    decreases |s|
  {
    if s != [] && q != [] {
      var i := SetAside(q, s);
      WithoutTotals(q, i);
      FrontIsLargest(s[1..], Without(q, i));
      TotalFromFront(s, |q|);
    }
  }

  lemma {:induction false} FirstReachingIsFewest(s: seq<Utxo>, need: int, n: nat)
    requires Descending(s) && FirstReaching(s, need, n)
    ensures NoFewerReach(s, need, n)
  {
    forall q: seq<Utxo> | multiset(q) <= multiset(s) && |q| < n ensures Total(q) < need {
      FrontIsLargest(s, q);
    }
  }

  // ---- when nothing reaches ----

  lemma {:induction false} PrefixWithinSpendable(s: seq<Utxo>, n: nat)
    requires n <= |s|
    ensures Total(s[..n]) <= Spendable(s[..n]) <= Spendable(s)
  {
    if n < |s| {
      PrefixWithinSpendable(s[..|s| - 1], n);
      assert s[..|s| - 1][..n] == s[..n];
    } else if s != [] {
      PrefixWithinSpendable(s[..n - 1], n - 1);
      assert s[..n] == s && s[..n - 1][..n - 1] == s[..n - 1];
    }
  }

  /** The coins of positive value are a prefix, and it totals all that can be spent. */
  lemma {:induction false} PositivePrefix(s: seq<Utxo>) returns (n: nat)
    requires Descending(s)
    ensures n <= |s| && Total(s[..n]) == Spendable(s)
  {
    if s == [] {
      n := 0;
    } else if s[|s| - 1].value > 0 {
      n := |s|;
      AllPositive(s);
      assert s[..n] == s;
    } else {
      n := PositivePrefix(s[..|s| - 1]);
      assert s[..|s| - 1][..n] == s[..n];
    }
  }

  lemma {:induction false} AllPositive(s: seq<Utxo>)
    requires forall i | 0 <= i < |s| :: s[i].value > 0
    ensures Total(s) == Spendable(s)
  {
    if s != [] { AllPositive(s[..|s| - 1]); }
  }

  /** No prefix reaches the need exactly when all that can be spent falls short of it. */
  lemma {:induction false} UnreachableIff(s: seq<Utxo>, need: int)
    requires Descending(s) && need > 0
    ensures (forall k | 0 <= k <= |s| :: Total(s[..k]) < need) <==> Spendable(s) < need
  {
    var n := PositivePrefix(s);
    forall k | 0 <= k <= |s| ensures Total(s[..k]) <= Spendable(s) { PrefixWithinSpendable(s, k); }
  }

  // ---- the in-place code ----

  method Swap(a: array<Utxo>, i: nat, j: nat)
    requires i < j < a.Length
    modifies a
    ensures a[..] == old(a[..])[i := old(a[j])][j := old(a[i])]
    ensures multiset(a[..]) == multiset(old(a[..]))
  {
    a[i], a[j] := a[j], a[i];
  }

  /** Sorted up to position i, except that the coin at j may still belong further left. */
  ghost predicate SortedButFor(s: seq<Utxo>, i: nat, j: nat) {
    i < |s| && j <= i && forall p, q | 0 <= p < q <= i && q != j :: s[p].value >= s[q].value
  }

  /** Stands for the library sort: any order that is descending by value. */
  method SortByValue(utxos: array<Utxo>)
    modifies utxos
    ensures Descending(utxos[..]) && multiset(utxos[..]) == multiset(old(utxos[..]))
  {
    for i := 0 to utxos.Length
      invariant Descending(utxos[..i]) && multiset(utxos[..]) == multiset(old(utxos[..]))
    {
      var j := i;
      while j > 0 && utxos[j - 1].value < utxos[j].value
        invariant SortedButFor(utxos[..], i, j) && multiset(utxos[..]) == multiset(old(utxos[..]))
      {
        Swap(utxos, j - 1, j);
        j := j - 1;
      }
    }
    assert utxos[..utxos.Length] == utxos[..];
  }

  lemma {:induction false} SameChoices(all: seq<Utxo>, s: seq<Utxo>, need: int)
    requires multiset(all) == multiset(s)
    ensures forall n: nat :: NoFewerReach(s, need, n) <==> NoFewerReach(all, need, n)
  {
  }

  /** Refuses exactly when the need is not positive or more than can be spent; otherwise the
      picks come from the front of the sorted coins and no choice of fewer coins would do. */
  method SelectUTXOs(utxos: array<Utxo>, need: int) returns (r: Option<Pick>)
    modifies utxos
    ensures multiset(utxos[..]) == multiset(old(utxos[..]))
    ensures r.None? <==> need <= 0 || Spendable(old(utxos[..])) < need
    ensures r.Some? ==> Descending(utxos[..]) && FirstReaching(utxos[..], need, |r.value.coins|)
    ensures r.Some? ==> r.value.coins == utxos[..|r.value.coins|] && r.value.sum == Total(r.value.coins)
    ensures r.Some? ==> NoFewerReach(old(utxos[..]), need, |r.value.coins|)
  {
    hide Spendable, Descending, NoFewerReach;
    if need <= 0 { return None; }
    SortByValue(utxos);
    ghost var s := utxos[..];
    TotalsOfPermutation(old(utxos[..]), s);
    UnreachableIff(s, need);
    SameChoices(old(utxos[..]), s, need);
    var pick, sum := [], 0;
    for k := 0 to utxos.Length
      invariant utxos[..] == s && pick == s[..k] && sum == Total(pick)
      invariant forall j | 0 <= j <= k :: Total(s[..j]) < need
    {
      pick := pick + [utxos[k]];
      sum := sum + utxos[k].value;
      assert s[..k + 1][..k] == s[..k];
      if sum >= need {
        FirstReachingIsFewest(s, need, k + 1);
        return Some(Pick(pick, sum));
      }
    }
    return None;
  }
}
