/**
 256-bit numbers in eight 32-bit limbs: the limb loops change the array in place, and each is
 tied to the number the limbs stand for.
 */
module Uint256 {
  import opened Bytes
  import opened Limbs

  const WIDTH := 8
  const BITS := 256

  predicate Sized(a: array<u32>) { a.Length == WIDTH }

  lemma {:induction false} Fits(s: seq<u32>)
    requires |s| == WIDTH
    ensures V(s) < Pow2(BITS)
  {
    Bound(s);
  }

  // ---- shifts ----

  /** The limbs after shifting left: whole limbs of zeros below, what passes limb 8 lost. */
  function ShiftedLeft(t: seq<u32>, n: nat): (r: seq<u32>)
    requires |t| == WIDTH
    ensures |r| == WIDTH
  {
    (Zeros(n / 32) + Shl(t, n % 32, 0))[..WIDTH]
  }

  /** Shifting right by n bits is shifting left by the bits that complete a limb and dropping
      one limb more. */
  function ShiftedRight(t: seq<u32>, n: nat): (r: seq<u32>)
    requires |t| == WIDTH
    ensures |r| == WIDTH
  {
    var k := if n / 32 < WIDTH then n / 32 else WIDTH;
    Shl(t[k..], 32 - n % 32, 0)[1..] + Zeros(k)
  }

  /** A left shift multiplies modulo 2^256, for every shift count. */
  lemma {:induction false} ShiftLeftMultiplies(t: seq<u32>, n: nat)
    requires |t| == WIDTH
    ensures V(ShiftedLeft(t, n)) == (V(t) * Pow2(n)) % Pow2(BITS)
  {
    hide Pow2;
    var k, s := n / 32, n % 32;
    var x := Zeros(k) + Shl(t, s, 0);
    SplitAt(x, WIDTH);
    Append(Zeros(k), Shl(t, s, 0));
    ZerosAreZero(k);
    ShlMultiplies(t, s, 0);
    Pow2Add(32 * k, s);
    TwoFactors(V(t), Pow2(s), Pow2(32 * k), Pow2(n));
  }

  lemma {:induction false} TwoFactors(v: nat, p: nat, q: nat, pq: nat)
    requires q * p == pq
    ensures q * (v * p + 0) == v * pq
  {
    MulAssoc(q, v, p);
    MulAssoc(v, q, p);
    assert q * v == v * q;
  }

  lemma {:induction false} DropLowest(t: seq<u32>, s: nat)
    requires s < 32
    ensures V(Shl(t, 32 - s, 0)[1..]) == V(t) / Pow2(s)
  {
    var r := Shl(t, 32 - s, 0);
    ShlMultiplies(t, 32 - s, 0);
    DivModUnique(V(r), LIMB, V(r[1..]), r[0]);
    Pow2Values();
    Pow2Add(32 - s, s);
    DivDiv(V(t) * Pow2(32 - s), Pow2(32 - s), Pow2(s));
    DivModUnique(V(t) * Pow2(32 - s), Pow2(32 - s), V(t), 0);
  }

  lemma {:induction false} DivBySmaller(v: nat, n: nat)
    requires v < Pow2(BITS) && n >= BITS
    ensures v / Pow2(n) == 0
  {
    Pow2Monotone(BITS, n);
    DivModUnique(v, Pow2(n), 0, v);
  }

  /** A right shift divides and rounds down, for every shift count. */
  lemma {:induction false} ShiftRightDivides(t: seq<u32>, n: nat)
    requires |t| == WIDTH
    ensures V(ShiftedRight(t, n)) == V(t) / Pow2(n)
  {
    hide Pow2;
    var k := if n / 32 < WIDTH then n / 32 else WIDTH;
    var s := n % 32;
    var high := Shl(t[k..], 32 - s, 0)[1..];
    Append(high, Zeros(k));
    ZerosAreZero(k);
    DropLowest(t[k..], s);
    Fits(t);
    if n / 32 < WIDTH {
      HighPart(t, k, s);
    } else {
      DivBySmaller(V(t), n);
      DivModUnique(0, Pow2(s), 0, 0);
    }
  }

  lemma {:induction false} HighPart(s: seq<u32>, w: nat, b: nat)
    requires w <= |s|
    ensures V(s) / Pow2(32 * w + b) == V(s[w..]) / Pow2(b)
  {
    SplitAt(s, w);
    Pow2Add(32 * w, b);
    DivDiv(V(s), Pow2(32 * w), Pow2(b));
  }

  // ---- the shift loops ----

  function ShlWords(t: seq<u32>, n: nat): (r: seq<nat>)
    ensures |r| == |t|
  {
    seq(|t|, i requires 0 <= i < |t| => ShlWord(t[i], n))
  }

  function ShrWords(t: seq<u32>, n: nat): (r: seq<nat>)
    ensures |r| == |t|
  {
    seq(|t|, i requires 0 <= i < |t| => ShrWord(t[i], n))
  }

  /** Limb j of the left-shift buffer once the first i words have been placed: each word's low
      part k limbs up, its high part one limb further. */
  function LeftLimb(low: seq<nat>, high: seq<nat>, k: nat, i: nat, j: nat): nat
    requires |low| == |high| == WIDTH && i <= WIDTH && j < WIDTH
  {
    (if k <= j < i + k then low[j - k] else 0) + (if k + 1 <= j < i + k + 1 then high[j - k - 1] else 0)
  }

  /** Limb j of the right-shift buffer once the first i words have been placed. */
  function RightLimb(low: seq<nat>, high: seq<nat>, k: nat, i: nat, j: nat): nat
    requires |low| == |high| == WIDTH && i <= WIDTH && j < WIDTH
  {
    (if j + k < i then high[j + k] else 0) + (if j + k + 1 < i then low[j + k + 1] else 0)
  }

  lemma {:induction false} LeftLimbsDone(t: seq<u32>, n: nat, j: nat)
    requires |t| == WIDTH && j < WIDTH
    ensures ShiftedLeft(t, n)[j] == LeftLimb(ShlWords(t, n % 32), ShrWords(t, 32 - n % 32), n / 32, WIDTH, j)
  {
    if j >= n / 32 { ShlAt(t, n % 32, 0, j - n / 32); }
  }

  lemma {:induction false} RightLimbsDone(t: seq<u32>, n: nat, j: nat)
    requires |t| == WIDTH && j < WIDTH
    ensures ShiftedRight(t, n)[j] == RightLimb(ShlWords(t, 32 - n % 32), ShrWords(t, n % 32), n / 32, WIDTH, j)
  {
    var k := if n / 32 < WIDTH then n / 32 else WIDTH;
    if j + k < WIDTH { ShlAt(t[k..], 32 - n % 32, 0, j + 1); }
  }

  /** A limb is added to by "or" when the two share no bit. */
  method OrInto(pn: array<u32>, at: nat, x: nat, n: nat)
    requires Sized(pn) && at < WIDTH && pn[at] as int + x < LIMB
    requires (pn[at] % Pow2(n) == 0 && x < Pow2(n)) || (x % Pow2(n) == 0 && pn[at] < Pow2(n))
    modifies pn
    ensures pn[..] == old(pn[..])[at := old(pn[at]) as int + x]
  {
    if pn[at] % Pow2(n) == 0 && x < Pow2(n) { OrDisjoint(pn[at], x, n); } else { OrDisjoint(x, pn[at], n); }
    pn[at] := BitOr(pn[at], x);
  }

  method Clear(pn: array<u32>)
    requires Sized(pn)
    modifies pn
    ensures forall j | 0 <= j < WIDTH :: pn[j] == 0
  {
    for i := 0 to WIDTH
      invariant forall j | 0 <= j < i :: pn[j] == 0
    {
      pn[i] := 0;
    }
  }

  /** The two parts of every word fit beside each other: the low parts are multiples of 2^n,
      the high parts below it. */
  ghost predicate Parts(low: seq<nat>, high: seq<nat>, n: nat) {
    && |low| == |high| == WIDTH
    && (forall i | 0 <= i < WIDTH :: low[i] % Pow2(n) == 0 && low[i] + Pow2(n) <= LIMB)
    && (forall i | 0 <= i < WIDTH :: high[i] < Pow2(n))
  }

  lemma {:induction false} WordParts(t: seq<u32>, n: nat)
    requires |t| == WIDTH && n <= 32
    ensures Parts(ShlWords(t, n), ShrWords(t, 32 - n), n)
    ensures n == 0 ==> forall i | 0 <= i < WIDTH :: ShrWords(t, 32)[i] == 0
    ensures n == 32 ==> forall i | 0 <= i < WIDTH :: ShlWords(t, 32)[i] == 0
  {
    forall i | 0 <= i < WIDTH
      ensures ShlWord(t[i], n) % Pow2(n) == 0 && ShlWord(t[i], n) + Pow2(n) <= LIMB && ShrWord(t[i], 32 - n) < Pow2(n)
    {
      WordSplits(t[i], n);
    }
    Pow2Values();
  }

  method PlaceLeft(pn: array<u32>, low: seq<nat>, high: seq<nat>, k: nat, s: nat, i: nat)
    requires Sized(pn) && s < 32 && i < WIDTH && Parts(low, high, s) && (s == 0 ==> high[i] == 0)
    requires forall j | 0 <= j < WIDTH :: pn[j] == LeftLimb(low, high, k, i, j)
    modifies pn
    ensures forall j | 0 <= j < WIDTH :: pn[j] == LeftLimb(low, high, k, i + 1, j)
  {
    if i + k + 1 < WIDTH && s != 0 {
      ModZero(Pow2(s));
      assert low[i] + Pow2(s) <= LIMB;
      OrInto(pn, i + k + 1, high[i], s);
    }
    if i + k < WIDTH {
      OrInto(pn, i + k, low[i], s);
    }
  }

  method PlaceRight(pn: array<u32>, low: seq<nat>, high: seq<nat>, k: nat, s: nat, i: nat)
    requires Sized(pn) && s < 32 && i < WIDTH && Parts(low, high, 32 - s) && (s == 0 ==> low[i] == 0)
    requires forall j | 0 <= j < WIDTH :: pn[j] == RightLimb(low, high, k, i, j)
    modifies pn
    ensures forall j | 0 <= j < WIDTH :: pn[j] == RightLimb(low, high, k, i + 1, j)
  {
    if i - k - 1 >= 0 && s != 0 {
      OrInto(pn, i - k - 1, low[i], 32 - s);
    }
    if i - k >= 0 {
      ModZero(Pow2(32 - s));
      assert low[i] + Pow2(32 - s) <= LIMB;
      OrInto(pn, i - k, high[i], 32 - s);
    }
  }

  lemma {:induction false} ModZero(p: nat)
    requires p > 0
    ensures 0 % p == 0
  {
    DivModUnique(0, p, 0, 0);
  }

  method ShiftLeft(pn: array<u32>, shift: nat)
    requires Sized(pn)
    modifies pn
    ensures pn[..] == ShiftedLeft(old(pn[..]), shift)
    ensures V(pn[..]) == (V(old(pn[..])) * Pow2(shift)) % Pow2(BITS)
  {
    ghost var was := pn[..];
    var k, s := shift / 32, shift % 32;
    var low, high := ShlWords(pn[..], s), ShrWords(pn[..], 32 - s);
    WordParts(was, s);
    Clear(pn);
    for i := 0 to WIDTH
      invariant forall j | 0 <= j < WIDTH :: pn[j] == LeftLimb(low, high, k, i, j)
    {
      PlaceLeft(pn, low, high, k, s, i);
    }
    forall j | 0 <= j < WIDTH ensures pn[j] == ShiftedLeft(was, shift)[j] { LeftLimbsDone(was, shift, j); }
    ShiftLeftMultiplies(was, shift);
  }

  method ShiftRight(pn: array<u32>, shift: nat)
    requires Sized(pn)
    modifies pn
    ensures pn[..] == ShiftedRight(old(pn[..]), shift)
    ensures V(pn[..]) == V(old(pn[..])) / Pow2(shift)
  {
    ghost var was := pn[..];
    var k, s := shift / 32, shift % 32;
    var low, high := ShlWords(pn[..], 32 - s), ShrWords(pn[..], s);
    WordParts(was, 32 - s);
    Clear(pn);
    for i := 0 to WIDTH
      invariant forall j | 0 <= j < WIDTH :: pn[j] == RightLimb(low, high, k, i, j)
    {
      PlaceRight(pn, low, high, k, s, i);
    }
    forall j | 0 <= j < WIDTH ensures pn[j] == ShiftedRight(was, shift)[j] { RightLimbsDone(was, shift, j); }
    ShiftRightDivides(was, shift);
  }

  // ---- complement, comparison, addition, subtraction ----

  lemma {:induction false} ComplementIsNoNegative(x: nat, y: nat)
    requires x + y == Pow2(BITS) - 1
    ensures (x + y) % Pow2(BITS) != 0
  {
    hide Pow2;
    Pow2Monotone(1, BITS);
    Pow2Step(0);
  }

  /** Named a negation, it inverts every bit: one's complement, for no number its negative
      modulo 2^256. */
  method Negate(pn: array<u32>)
    requires Sized(pn)
    modifies pn
    ensures V(pn[..]) == Pow2(BITS) - 1 - V(old(pn[..])) && (V(pn[..]) + V(old(pn[..]))) % Pow2(BITS) != 0
  {
    hide Pow2;
    ghost var was := pn[..];
    Pow2Step(0);
    for i := 0 to WIDTH
      invariant forall j | i <= j < WIDTH :: pn[j] == was[j]
      invariant V(pn[..i]) + V(was[..i]) == Pow2(32 * i) - 1
    {
      ghost var before := pn[..i];
      pn[i] := LIMB - 1 - pn[i];
      assert pn[..][..i] == before && pn[..][..i + 1] == pn[..i + 1];
      ComplementStep(pn[..], was, i);
    }
    assert pn[..WIDTH] == pn[..] && was[..WIDTH] == was;
    ComplementIsNoNegative(V(pn[..]), V(was));
  }

  lemma {:induction false} ComplementStep(s: seq<u32>, t: seq<u32>, i: nat)
    requires i < |s| && i < |t| && s[i] as int + t[i] as int == LIMB - 1
    requires V(s[..i]) + V(t[..i]) == Pow2(32 * i) - 1
    ensures V(s[..i + 1]) + V(t[..i + 1]) == Pow2(32 * (i + 1)) - 1
  {
    Snoc(s, i);
    Snoc(t, i);
    OneLimbMore(i);
    ScaleSum(Pow2(32 * i), s[i], t[i], LIMB, -1, 0);
  }

  method IsZero(a: array<u32>) returns (zero: bool)
    requires Sized(a)
    ensures zero <==> V(a[..]) == 0
  {
    ZeroIff(a[..]);
    for i := 0 to WIDTH
      invariant forall j | 0 <= j < i :: a[j] == 0
    {
      if a[i] != 0 { assert a[..][i] != 0; return false; }
    }
    return true;
  }

  method LessThan(a: array<u32>, b: array<u32>) returns (less: bool)
    requires Sized(a) && Sized(b)
    ensures less <==> V(a[..]) < V(b[..])
  {
    ghost var s, t := a[..], b[..];
    var i := WIDTH - 1;
    while i >= 0
      invariant -1 <= i < WIDTH && forall j | i < j < WIDTH :: s[j] == t[j]
    {
      if a[i] < b[i] {
        TopLimbDecides(s, t, i);
        return true;
      } else if a[i] > b[i] {
        TopLimbDecides(t, s, i);
        return false;
      }
      i := i - 1;
    }
    assert s == t;
    return false;
  }

  method Equal(a: array<u32>, b: array<u32>) returns (equal: bool)
    requires Sized(a) && Sized(b)
    ensures equal <==> V(a[..]) == V(b[..])
  {
    for i := 0 to WIDTH
      invariant forall j | 0 <= j < i :: a[j] == b[j]
    {
      if a[i] != b[i] {
        assert a[..][i] != b[..][i];
        if V(a[..]) == V(b[..]) { Injective(a[..], b[..]); }
        return false;
      }
    }
    assert a[..] == b[..];
    return true;
  }

  method LessThanOrEqual(a: array<u32>, b: array<u32>) returns (r: bool)
    requires Sized(a) && Sized(b)
    ensures r <==> V(a[..]) <= V(b[..])
  {
    r := LessThan(a, b);
    if !r { r := Equal(a, b); }
  }

  method GreaterThan(a: array<u32>, b: array<u32>) returns (r: bool)
    requires Sized(a) && Sized(b)
    ensures r <==> V(a[..]) > V(b[..])
  {
    r := LessThanOrEqual(a, b);
    r := !r;
  }

  method GreaterThanOrEqual(a: array<u32>, b: array<u32>) returns (r: bool)
    requires Sized(a) && Sized(b)
    ensures r <==> V(a[..]) >= V(b[..])
  {
    r := LessThan(a, b);
    r := !r;
  }

  method Zero() returns (x: array<u32>)
    ensures fresh(x) && Sized(x) && x[..] == Zeros(WIDTH) && V(x[..]) == 0
  {
    x := new u32[WIDTH](_ => 0);
    ZerosAreZero(WIDTH);
    assert x[..] == Zeros(WIDTH);
  }

  /** One limb of a sum: what is kept and carried add up to what was added. */
  lemma {:induction false} CarryStep(r: seq<u32>, a: seq<u32>, b: seq<u32>, i: nat, carry: nat, carry': nat)
    requires i < |r| && i < |a| && i < |b|
    requires V(r[..i]) + Pow2(32 * i) * carry == V(a[..i]) + V(b[..i])
    requires r[i] as int + LIMB * carry' == a[i] as int + b[i] as int + carry
    ensures V(r[..i + 1]) + Pow2(32 * (i + 1)) * carry' == V(a[..i + 1]) + V(b[..i + 1])
  {
    Snoc(r, i);
    Snoc(a, i);
    Snoc(b, i);
    OneLimbMore(i);
    ScaleSum(Pow2(32 * i), r[i], LIMB * carry', a[i], b[i], carry);
    MulAssoc(Pow2(32 * i), LIMB, carry');
    assert Pow2(32 * i) * LIMB == Pow2(32 * (i + 1));
  }

  lemma {:induction false} ScaleSum(p: int, r: int, c': int, x: int, y: int, c: int)
    requires r + c' == x + y + c
    ensures p * r + p * c' == p * x + p * y + p * c
  {
    assert p * (r + c') == p * (x + y + c);
  }

  method Add(a: array<u32>, b: array<u32>) returns (result: array<u32>)
    requires Sized(a) && Sized(b)
    ensures fresh(result) && Sized(result)
    ensures V(result[..]) == (V(a[..]) + V(b[..])) % Pow2(BITS)
  {
    hide Pow2;
    ghost var s, t := a[..], b[..];
    result := Zero();
    var carry: u64 := 0;
    for i := 0 to WIDTH
      invariant fresh(result) && Sized(result) && a[..] == s && b[..] == t && carry <= 1
      invariant V(result[..i]) + Pow2(32 * i) * carry == V(s[..i]) + V(t[..i])
    {
      ghost var before := result[..i];
      var sum: u64 := a[i] as int + b[i] as int + carry;
      result[i] := sum % LIMB;
      assert result[..][..i] == before && result[..][..i + 1] == result[..i + 1];
      CarryStep(result[..], s, t, i, carry, sum / LIMB);
      carry := sum / LIMB;
    }
    assert result[..WIDTH] == result[..] && s[..WIDTH] == s && t[..WIDTH] == t;
    Fits(result[..]);
    QuotientFirst(V(s) + V(t), Pow2(BITS), carry, V(result[..]));
  }

  /** 64-bit subtraction that wraps, as unsigned arithmetic does. */
  function Wrapped(x: int): u64 { x % 0x1_0000_0000_0000_0000 }

  /** NULL when b is larger; otherwise the exact difference. */
  method Sub(a: array<u32>, b: array<u32>) returns (result: array?<u32>)
    requires Sized(a) && Sized(b)
    ensures result == null <==> V(a[..]) < V(b[..])
    ensures result != null ==> fresh(result) && Sized(result) && V(result[..]) == V(a[..]) - V(b[..])
  {
    hide Pow2;
    var less := LessThan(a, b);
    if less { return null; }
    ghost var s, t := a[..], b[..];
    var r := Zero();
    var borrow: u64 := 0;
    for i := 0 to WIDTH
      invariant fresh(r) && Sized(r) && a[..] == s && b[..] == t && borrow <= 1
      invariant V(s[..i]) + Pow2(32 * i) * borrow == V(r[..i]) + V(t[..i])
    {
      ghost var before := r[..i];
      var diff := Wrapped(a[i] as int - b[i] as int - borrow);
      r[i] := diff % LIMB;
      assert r[..][..i] == before && r[..][..i + 1] == r[..i + 1];
      var borrow' := if diff > LIMB - 1 then 1 else 0;
      BorrowWord(a[i], b[i], borrow);
      BorrowStep(s, r[..], t, i, borrow, borrow');
      borrow := borrow';
    }
    assert r[..WIDTH] == r[..] && s[..WIDTH] == s && t[..WIDTH] == t;
    NoFinalBorrow(V(s), V(r[..]), V(t), Pow2(BITS), borrow) by { Fits(r[..]); }
    return r;
  }

  lemma {:induction false} BorrowWord(x: u32, y: u32, borrow: u64)
    requires borrow <= 1
    ensures var diff := Wrapped(x as int - y as int - borrow);
      x as int + LIMB * (if diff > LIMB - 1 then 1 else 0) == diff % LIMB + y as int + borrow
  {
    var d := x as int - y as int - borrow;
    if d < 0 { assert Wrapped(d) == d + 0x1_0000_0000_0000_0000; } else { assert Wrapped(d) == d; }
  }

  lemma {:induction false} NoFinalBorrow(x: nat, r: nat, y: nat, p: nat, borrow: nat)
    requires borrow <= 1 && r < p && y <= x && x + p * borrow == r + y
    ensures borrow == 0
  {
  }

  /** One limb of a difference. */
  lemma {:induction false} BorrowStep(a: seq<u32>, r: seq<u32>, b: seq<u32>, i: nat, borrow: nat, borrow': nat)
    requires i < |r| && i < |a| && i < |b|
    requires V(a[..i]) + Pow2(32 * i) * borrow == V(r[..i]) + V(b[..i])
    requires a[i] as int + LIMB * borrow' == r[i] as int + b[i] as int + borrow
    ensures V(a[..i + 1]) + Pow2(32 * (i + 1)) * borrow' == V(r[..i + 1]) + V(b[..i + 1])
  {
    CarryStep(a, r, b, i, borrow, borrow');
  }

  // ---- compact form ----

  function CompactSize(compact: u32): nat { compact / 0x100_0000 }
  function CompactField(compact: u32): nat { compact % 0x80_0000 }

  /** The number a compact word stands for, before it is cut to 256 bits: the 23-bit word times
      256^(size - 3), rounded down when the exponent is negative. */
  function CompactValue(compact: u32): nat {
    var size, word := CompactSize(compact), CompactField(compact);
    if size <= 3 then Quotient(word, Pow2(8 * (3 - size))) else word * Pow2(8 * (size - 3))
  }

  predicate CompactSign(compact: u32) { (compact / 0x80_0000) % 2 == 1 }

  /** A compact word is a size byte, a sign bit and a 23-bit field. */
  lemma {:induction false} CompactParts(compact: u32)
    ensures compact == 0x100_0000 * CompactSize(compact) + 0x80_0000 * (if CompactSign(compact) then 1 else 0) + CompactField(compact)
    ensures CompactSize(compact) < 0x100 && CompactField(compact) < 0x80_0000
  {
  }

  /** The byte-count tests recognise exactly the numbers of 2^256 and above. */
  lemma {:induction false} OverflowTests(size: nat, word: nat)
    requires 3 < size < 0x100 && word < Pow2(23)
    ensures (word != 0 && (size > 34 || (word > 0xff && size > 33) || (word > 0xffff && size > 32)))
       <==> word * Pow2(8 * (size - 3)) >= Pow2(BITS)
  {
    hide Pow2;
    Pow2Values();
    var e := 8 * (size - 3);
    if size > 34 {
      Pow2Monotone(BITS, e);
      ProductReaches(word, 1, Pow2(e), Pow2(BITS));
    } else if size > 33 {
      Pow2Add(8, 248);
      ProductReaches(word, 0x100, Pow2(248), Pow2(BITS));
    } else if size > 32 {
      Pow2Add(16, 240);
      ProductReaches(word, 0x1_0000, Pow2(240), Pow2(BITS));
    } else {
      Pow2Add(23, e);
      Pow2Monotone(23 + e, 255);
      Pow2Step(255);
      ProductBelow(word, Pow2(23), Pow2(e), Pow2(23 + e));
    }
  }

  lemma {:induction false} ProductReaches(word: nat, least: nat, p: nat, m: nat)
    requires p > 0 && least > 0 && m > 0 && (least * p == m || (least == 1 && p >= m))
    ensures word >= least <==> word * p >= m
  {
    if word >= least { MulMonotone(least, word, p); } else { MulMonotone(word, least - 1, p); Distribute(least, -1, p); }
  }

  lemma {:induction false} ProductBelow(word: nat, w: nat, p: nat, m: nat)
    requires word < w && w * p == m
    ensures word * p <= m
  {
    MulMonotone(word, w, p);
  }

  lemma {:induction false} ReplaceLowest(s: seq<u32>, x: u32)
    requires s != []
    ensures V(s) >= s[0] && V(s[0 := x]) == V(s) - s[0] + x
  {
    assert s[0 := x][1..] == s[1..];
  }

  method PutLowest(pn: array<u32>, x: u32)
    requires Sized(pn)
    modifies pn
    ensures V(pn[..]) == V(old(pn[..])) - old(pn[..])[0] + x
  {
    ghost var was := pn[..];
    pn[0] := x;
    assert pn[..] == was[0 := x];
    ReplaceLowest(was, x);
  }

  lemma {:induction false} ProductIsZero(word: nat, p: nat)
    requires p > 0
    ensures word * p == 0 <==> word == 0
  {
  }

  /** The number once the lowest limb is the word, shifted up by the bytes the size asks for. */
  function Placed(kept: nat, size: nat, word: nat): nat {
    if size <= 3 then kept + Quotient(word, Pow2(8 * (3 - size))) else ((kept + word) * Pow2(8 * (size - 3))) % Pow2(BITS)
  }

  /** On any number the word replaces only the lowest limb before the shift, so the result is
      the compact value (cut to 256 bits) only when the number was zero; for size at most 3 the
      upper limbs stay. */
  method SetCompact(pn: array<u32>, compact: u32) returns (negative: bool, overflow: bool)
    requires Sized(pn)
    modifies pn
    ensures V(old(pn[..])) >= old(pn[..])[0] as int
    ensures V(pn[..]) == Placed(V(old(pn[..])) - old(pn[..])[0], CompactSize(compact), CompactField(compact))
    ensures overflow <==> CompactValue(compact) >= Pow2(BITS)
    ensures negative <==> CompactSign(compact) && CompactValue(compact) != 0
  {
    hide Pow2;
    var size := compact / 0x100_0000;
    var word := BitAnd(compact, 0x7f_ffff);
    CompactFields(compact);
    ReplaceLowest(pn[..], 0);
    ghost var was, field := pn[..], word;
    SmallCompact(size, field);
    if size <= 3 {
      word := ShrWord(word, 8 * (3 - size));
      PutLowest(pn, word);
    } else {
      PutLowest(pn, word);
      ShiftLeft(pn, 8 * (size - 3));
      OverflowTests(size, word);
    }
    ProductIsZero(field, Pow2(if size <= 3 then 0 else 8 * (size - 3)));
    negative := word != 0 && BitAnd(compact, 0x80_0000) != 0;
    overflow := word != 0 && (size > 34 || (word > 0xff && size > 33) || (word > 0xffff && size > 32));
  }

  /** On a zeroed number the result is the compact value, cut to 256 bits. */
  lemma {:induction false} CompactOfZero(compact: u32)
    ensures V(Zeros(WIDTH)) == 0
    ensures Placed(V(Zeros(WIDTH)) - Zeros(WIDTH)[0], CompactSize(compact), CompactField(compact)) == CompactValue(compact) % Pow2(BITS)
  {
    hide Pow2;
    ZerosAreZero(WIDTH);
    CompactFields(compact);
    SmallCompact(CompactSize(compact), CompactField(compact));
  }

  lemma {:induction false} CompactFields(compact: u32)
    ensures BitAnd(compact, 0x7f_ffff) == CompactField(compact) < Pow2(23)
    ensures BitAnd(compact, 0x80_0000) != 0 <==> CompactSign(compact)
  {
    hide Pow2, BitAnd;
    Pow2Values();
    AndMask(compact, 23);
    AndBit(compact, 23);
  }

  lemma {:induction false} SmallCompact(size: nat, word: nat)
    requires word < Pow2(23)
    ensures size <= 3 ==>
      (var q := Quotient(word, Pow2(8 * (3 - size))); q <= word && q < LIMB && q < Pow2(BITS) && q % Pow2(BITS) == q)
  {
    hide Pow2;
    if size <= 3 {
      Pow2Monotone(23, 32);
      Pow2Values();
      Pow2Monotone(23, BITS);
      SmallQuotient(word, Pow2(8 * (3 - size)), Pow2(BITS));
    }
  }

  lemma {:induction false} SmallQuotient(word: nat, d: nat, m: nat)
    requires d > 0 && word < m
    ensures Quotient(word, d) <= word && Quotient(word, d) % m == Quotient(word, d)
  {
    DivAtMost(word, d);
    DivModUnique(Quotient(word, d), m, 0, Quotient(word, d));
  }

  // ---- long division ----

  /** Changing one limb changes the number by that limb's weight. */
  lemma {:induction false} AddAt(s: seq<u32>, w: nat, x: nat)
    requires w < |s| && s[w] as int + x < LIMB
    ensures V(s[w := s[w] as int + x]) == V(s) + Pow2(32 * w) * x
  {
    var r := s[w := s[w] as int + x];
    Append(s[..w], s[w..]);
    Append(r[..w], r[w..]);
    assert s[..w] + s[w..] == s && r[..w] + r[w..] == r && r[..w] == s[..w] && r[w..][1..] == s[w..][1..];
    assert V(r[w..]) == V(s[w..]) + x;
    DistributeLeft(Pow2(32 * w), V(s[w..]), x);
  }

  lemma {:induction false} DistributeLeft(p: int, a: int, b: int)
    ensures p * (a + b) == p * a + p * b
  {
  }

  /** Dividing by a power of two inside the lowest limb. */
  lemma {:induction false} ShiftWithinLimb(s: seq<u32>, b: nat)
    requires s != [] && b < 32
    ensures V(s) / Pow2(b) == s[0] / Pow2(b) + Pow2(32 - b) * V(s[1..])
    ensures Pow2(32 - b) % 2 == 0
  {
    hide Pow2;
    Pow2Step(31 - b);
    Pow2Add(b, 32 - b);
    Pow2Values();
    DivideSum(s[0], Pow2(b), Pow2(32 - b), V(s[1..]));
  }

  lemma {:induction false} DivideSum(x: nat, p: nat, q: nat, rest: nat)
    requires p > 0 && p * q == LIMB
    ensures (x + LIMB * rest) / p == x / p + q * rest
  {
    assert x == (x / p) * p + x % p;
    MulAssoc(p, q, rest);
    assert p * (q * rest) == (q * rest) * p;
    Distribute(x / p, q * rest, p);
    DivModUnique(x + LIMB * rest, p, x / p + q * rest, x % p);
  }

  /** Bit i of the number is bit i mod 32 of limb i / 32. */
  lemma {:induction false} BitOfLimb(s: seq<u32>, i: nat)
    requires i < 32 * |s|
    ensures (V(s) / Pow2(i)) % 2 == (s[i / 32] / Pow2(i % 32)) % 2
  {
    var w, b := i / 32, i % 32;
    HighPart(s, w, b);
    BitOfLowest(s[w..], b);
  }

  lemma {:induction false} BitOfLowest(s: seq<u32>, b: nat)
    requires s != [] && b < 32
    ensures (V(s) / Pow2(b)) % 2 == (s[0] / Pow2(b)) % 2
  {
    hide Pow2, V;
    ShiftWithinLimb(s, b);
    EvenTerm(s[0] / Pow2(b), Pow2(32 - b), V(s[1..]));
  }

  lemma {:induction false} EvenTerm(x: nat, q: nat, y: nat)
    requires q % 2 == 0
    ensures (x + q * y) % 2 == x % 2
  {
    MulAssoc(2, q / 2, y);
    assert x + q * y == 2 * ((q / 2) * y) + x;
  }

  /** A number whose low bits are clear has them clear in the limb they fall in. */
  lemma {:induction false} LimbAligned(s: seq<u32>, i: nat)
    requires i < 32 * |s| && V(s) % Pow2(i + 1) == 0
    ensures s[i / 32] % Pow2(i % 32 + 1) == 0
  {
    hide Pow2, V;
    var w, b := i / 32, i % 32;
    SplitAt(s, w);
    Pow2Add(b + 1, 32 * w);
    CancelFactor(V(s), Pow2(i + 1), Pow2(b + 1), Pow2(32 * w));
    LowLimbAligned(s[w..], b + 1, V(s) / Pow2(i + 1));
  }

  lemma {:induction false} CancelFactor(v: nat, d: nat, p: nat, q: nat)
    requires q > 0 && d > 0 && d == p * q && v % d == 0
    ensures v / q == (v / d) * p
  {
    var m := v / d;
    assert v == m * d;
    MulAssoc(m, p, q);
    DivModUnique(v, q, m * p, 0);
  }

  lemma {:induction false} LowLimbAligned(s: seq<u32>, n: nat, m: nat)
    requires s != [] && n <= 32 && V(s) == m * Pow2(n)
    ensures s[0] % Pow2(n) == 0
  {
    Pow2Add(32 - n, n);
    Pow2Values();
    MultipleMinusMultiple(s[0], V(s[1..]), Pow2(n), Pow2(32 - n), m);
  }

  lemma {:induction false} MultipleMinusMultiple(x: nat, rest: nat, p: nat, q: nat, m: nat)
    requires p > 0 && q * p == LIMB && x + LIMB * rest == m * p
    ensures x % p == 0
  {
    MulAssoc(rest, q, p);
    var k := rest * q;
    assert k * p == LIMB * rest;
    Distribute(m, -k, p);
    assert (-k) * p == -(k * p);
    DivModUnique(x, p, m - k, 0);
  }

  lemma {:induction false} RoomForBit(x: u32, b: nat)
    requires b < 32 && x % Pow2(b + 1) == 0
    ensures x as int + Pow2(b) < LIMB
  {
    Pow2Values();
    Pow2Add(b + 1, 31 - b);
    RoomBelow(x, Pow2(b + 1), Pow2(31 - b));
  }

  lemma {:induction false} RoomBelow(x: u32, p: nat, q: nat)
    requires p > 0 && q > 0 && p * q == LIMB && x % p == 0
    ensures x as int + p <= LIMB
  {
    var k := x / p;
    assert x == k * p;
    assert q * p == LIMB;
    if k >= q { MulMonotone(q, k, p); }
    MulMonotone(k + 1, q, p);
    Distribute(k, 1, p);
  }

  method SetBit(q: array<u32>, i: nat)
    requires Sized(q) && i < BITS && V(q[..]) % Pow2(i + 1) == 0
    modifies q
    ensures V(q[..]) == V(old(q[..])) + Pow2(i)
  {
    hide Pow2;
    ghost var was := q[..];
    var w, b := i / 32, i % 32;
    LimbAligned(was, i);
    RoomForBit(q[w], b);
    Pow2Step(b);
    OrDisjoint(q[w], Pow2(b), b + 1);
    q[w] := BitOr(q[w], Pow2(b));
    assert q[..] == was[w := was[w] as int + Pow2(b)];
    AddPower(was, w, b);
  }

  lemma {:induction false} AddPower(s: seq<u32>, w: nat, b: nat)
    requires w < |s| && s[w] as int + Pow2(b) < LIMB
    ensures V(s[w := s[w] as int + Pow2(b)]) == V(s) + Pow2(32 * w + b)
  {
    AddAt(s, w, Pow2(b));
    Pow2Add(32 * w, b);
  }

  /** Doubling loses nothing below 2^255; the bit of a comes in at the bottom. */
  method PullBit(remainder: array<u32>, a: array<u32>, i: nat)
    requires Sized(remainder) && Sized(a) && i < BITS && V(remainder[..]) < Pow2(255) && a != remainder
    modifies remainder
    ensures V(remainder[..]) == 2 * V(old(remainder[..])) + (V(a[..]) / Pow2(i)) % 2
  {
    hide Pow2;
    ghost var was := V(remainder[..]);
    ShiftLeft(remainder, 1);
    Pow2Step(0);
    Pow2Step(255);
    DivModUnique(was * 2, Pow2(BITS), 0, was * 2);
    BitOfLimb(a[..], i);
    AndBit(a[i / 32], i % 32);
    if BitAnd(a[i / 32], Pow2(i % 32)) != 0 {
      SetLowest(remainder, was);
    }
  }

  method SetLowest(remainder: array<u32>, ghost half: nat)
    requires Sized(remainder) && V(remainder[..]) == 2 * half
    modifies remainder
    ensures V(remainder[..]) == V(old(remainder[..])) + 1
  {
    hide Pow2;
    ghost var doubled := remainder[..];
    Pow2Step(0);
    LowLimbAligned(doubled, 1, half);
    RoomForBit(remainder[0], 0);
    OrDisjoint(remainder[0], 1, 1);
    remainder[0] := BitOr(remainder[0], 1);
    assert remainder[..] == doubled[0 := doubled[0] as int + 1];
    AddAt(doubled, 0, 1);
  }

  method TakeAway(remainder: array<u32>, b: array<u32>)
    requires Sized(remainder) && Sized(b) && V(b[..]) <= V(remainder[..])
    modifies remainder
    ensures V(remainder[..]) == V(old(remainder[..])) - V(old(b[..]))
  {
    var temp := Sub(remainder, b);
    ghost var difference := temp[..];
    for i := 0 to WIDTH
      invariant temp[..] == difference && forall j | 0 <= j < i :: remainder[j] == difference[j]
    {
      remainder[i] := temp[i];
    }
    assert remainder[..] == difference;
  }

  /** The long-division step on numbers: one more bit of the dividend, one more of the quotient. */
  lemma {:induction false} DivisionStep(x: nat, b: nat, bit: nat)
    requires b > 0 && bit < 2
    ensures var r := 2 * (x % b) + bit;
      if r >= b then (2 * x + bit) / b == 2 * (x / b) + 1 && (2 * x + bit) % b == r - b
      else (2 * x + bit) / b == 2 * (x / b) && (2 * x + bit) % b == r
  {
    var q, r := x / b, 2 * (x % b) + bit;
    assert x == q * b + x % b;
    MulAssoc(2, q, b);
    Distribute(2 * q, 1, b);
    if r >= b { DivModUnique(2 * x + bit, b, 2 * q + 1, r - b); } else { DivModUnique(2 * x + bit, b, 2 * q, r); }
  }

  /** The bits of a from i up are its bits from i + 1 up, doubled, and bit i. */
  lemma {:induction false} NextBit(a: nat, i: nat)
    ensures a / Pow2(i) == 2 * (a / Pow2(i + 1)) + (a / Pow2(i)) % 2
  {
    DivDiv(a, Pow2(i), 2);
    assert Pow2(i) * 2 == Pow2(i + 1);
  }

  /** The remainder of fewer than 256 leading bits is below 2^255, whatever the divisor. */
  lemma {:induction false} LeadingBitsFit(a: nat, b: nat, i: nat)
    requires a < Pow2(BITS) && b > 0 && i < BITS
    ensures (a / Pow2(i + 1)) % b < Pow2(255)
  {
    hide Pow2;
    Pow2Add(BITS - i - 1, i + 1);
    Pow2Monotone(BITS - i - 1, 255);
    QuotientBelow(a, Pow2(BITS - i - 1), Pow2(i + 1));
    RemainderAtMost(a / Pow2(i + 1), b);
  }

  lemma {:induction false} QuotientBelow(a: nat, p: nat, q: nat)
    requires q > 0 && a < p * q
    ensures a / q < p
  {
    var x := a / q;
    assert a == x * q + a % q;
    if x >= p { MulMonotone(p, x, q); }
  }

  lemma {:induction false} RemainderAtMost(x: nat, b: nat)
    requires b > 0
    ensures x % b <= x
  {
    assert x == (x / b) * b + x % b;
    MulMonotone(0, x / b, b);
  }

  lemma {:induction false} NextQuotient(p: nat, k: nat)
    requires p > 0
    ensures ((2 * p) * k) % (2 * p) == 0
    ensures p * (2 * k) == (2 * p) * k && p * (2 * k + 1) == (2 * p) * k + p
  {
    assert (2 * p) * k == k * (2 * p);
    DivModUnique((2 * p) * k, 2 * p, k, 0);
    MulAssoc(p, 2, k);
    DistributeLeft(p, 2 * k, 1);
  }

  /** NULL for a zero divisor; otherwise the quotient rounded down, also when the divisor is
      2^255 or more. */
  method Div(a: array<u32>, b: array<u32>) returns (quotient: array?<u32>)
    requires Sized(a) && Sized(b)
    ensures quotient == null <==> V(b[..]) == 0
    ensures quotient != null ==> fresh(quotient) && Sized(quotient) && V(quotient[..]) == V(a[..]) / V(b[..])
  {
    hide Pow2;
    var zero := IsZero(b);
    if zero { return null; }
    ghost var s, t := a[..], b[..];
    ghost var x, y := V(s), V(t);
    Fits(s);
    var q := Zero();
    var remainder := Zero();
    var i := BITS - 1;
    DivModUnique(x, Pow2(BITS), 0, x);
    DivModUnique(0, y, 0, 0);
    while i >= 0
      invariant -1 <= i < BITS && fresh(q) && fresh(remainder) && q != remainder && Sized(q) && Sized(remainder)
      invariant a[..] == s && b[..] == t
      invariant DividedTo(V(q[..]), V(remainder[..]), x, y, Pow2(i + 1))
    {
      LeadingBitsFit(x, y, i);
      NextBit(x, i);
      Pow2Step(i);
      DivideBit(q, remainder, a, b, i, Pow2(i), x / Pow2(i + 1));
      i := i - 1;
    }
    Pow2Step(0);
    return q;
  }

  /** The leading bits of x, those of weight p and above, have been divided by y. */
  ghost predicate DividedTo(q: nat, remainder: nat, x: nat, y: nat, p: nat)
    requires p > 0 && y > 0
  {
    remainder == (x / p) % y && q == p * ((x / p) / y)
  }

  method DivideBit(q: array<u32>, remainder: array<u32>, a: array<u32>, b: array<u32>, i: nat, ghost p: nat, ghost above: nat)
    requires Sized(q) && Sized(remainder) && Sized(a) && Sized(b) && i < BITS && V(b[..]) > 0
    requires q != remainder && q != a && q != b && remainder != a && remainder != b
    requires p == Pow2(i) && Pow2(i + 1) == 2 * p && above % V(b[..]) < Pow2(255)
    requires V(a[..]) / p == 2 * above + (V(a[..]) / p) % 2
    requires V(remainder[..]) == above % V(b[..]) && V(q[..]) == (2 * p) * (above / V(b[..]))
    modifies q, remainder
    ensures DividedTo(V(q[..]), V(remainder[..]), V(a[..]), V(b[..]), p)
  {
    hide Pow2;
    ghost var y := V(b[..]);
    DivisionStep(above, y, (V(a[..]) / p) % 2);
    NextQuotient(p, above / y);
    PullBit(remainder, a, i);
    var enough := GreaterThanOrEqual(remainder, b);
    if enough {
      TakeAway(remainder, b);
      SetBit(q, i);
    }
  }
}
