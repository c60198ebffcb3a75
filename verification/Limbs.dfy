/**
 Numbers in 32-bit limbs.

 Powers of two, "or" and "and" on naturals by their bits, the number that a list of limbs stands
 for (least significant first), and the shift of a whole list by less than a limb. Products are
 kept in small lemmas of their own, since the arithmetic is not linear.
 */
module Limbs {
  import opened Bytes

  const LIMB := 0x1_0000_0000

  function Pow2(n: nat): (p: nat)
    ensures p > 0
  {
    if n == 0 then 1 else 2 * Pow2(n - 1)
  }

  lemma {:induction false} Pow2Add(a: nat, b: nat)
    ensures Pow2(a + b) == Pow2(a) * Pow2(b)
  {
    if a > 0 {
      Pow2Add(a - 1, b);
      assert Pow2(a + b) == 2 * (Pow2(a - 1) * Pow2(b)) == Pow2(a) * Pow2(b);
    }
  }

  lemma {:induction false} Pow2Step(n: nat)
    ensures Pow2(0) == 1 && Pow2(n + 1) == 2 * Pow2(n)
  {
  }

  lemma {:induction false} Pow2Values()
    ensures Pow2(8) == 0x100 && Pow2(16) == 0x1_0000 && Pow2(23) == 0x80_0000 && Pow2(32) == LIMB
  {
    assert Pow2(4) == 16;
    Pow2Add(4, 4);
    Pow2Add(8, 8);
    Pow2Add(16, 4);
    assert Pow2(3) == 8;
    Pow2Add(20, 3);
    Pow2Add(16, 16);
  }

  lemma {:induction false} Pow2Monotone(a: nat, b: nat)
    requires a <= b
    ensures Pow2(a) <= Pow2(b)
  {
    if a < b { Pow2Monotone(a, b - 1); }
  }

  lemma {:induction false} MulMonotone(a: nat, b: nat, c: nat)
    requires a <= b
    ensures a * c <= b * c
  {
  }

  lemma {:induction false} MulAssoc(a: int, b: int, c: int)
    ensures a * (b * c) == (a * b) * c
  {
  }

  lemma {:induction false} Distribute(a: int, b: int, c: int)
    ensures (a + b) * c == a * c + b * c
  {
  }

  lemma {:induction false} SmallMultiple(k: int, d: int, r: int, r': int)
    requires 0 <= r < d && 0 <= r' < d && k * d == r' - r
    ensures k == 0
  {
    if k > 0 { MulMonotone(1, k, d); }
    if k < 0 { MulMonotone(1, -k, d); }
  }

  lemma {:induction false} QuotientFirst(x: int, d: int, q: int, r: int)
    requires 0 <= r < d && x == r + d * q
    ensures x / d == q && x % d == r
  {
    assert d * q == q * d;
    DivModUnique(x, d, q, r);
  }

  /** Division is determined by its defining equation. */
  lemma {:induction false} DivModUnique(x: int, d: int, q: int, r: int)
    requires 0 <= r < d && x == q * d + r
    ensures x / d == q && x % d == r
  {
    var q', r' := x / d, x % d;
    assert x == q' * d + r';
    Distribute(q, -q', d);
    assert (-q') * d == -(q' * d);
    SmallMultiple(q - q', d, r, r');
  }

  lemma {:induction false} DivDiv(x: nat, a: nat, b: nat)
    requires a > 0 && b > 0
    ensures a * b > 0 && x / (a * b) == (x / a) / b
  {
    var q, r := x / a, x % a;
    var q2, r2 := q / b, q % b;
    assert x == (q2 * b + r2) * a + r;
    Distribute(q2 * b, r2, a);
    MulAssoc(q2, b, a);
    assert b * a == a * b;
    MulMonotone(r2, b - 1, a);
    Distribute(b, -1, a);
    DivModUnique(x, a * b, q2, r2 * a + r);
  }

  function Quotient(x: nat, d: nat): nat
    requires d > 0
  {
    x / d
  }

  // ---- bit operations ----

  function BitOr(a: nat, b: nat): nat {
    if a == 0 then b else if b == 0 then a
    else (if a % 2 == 1 || b % 2 == 1 then 1 else 0) + 2 * BitOr(a / 2, b / 2)
  }

  function BitAnd(a: nat, b: nat): nat {
    if a == 0 || b == 0 then 0
    else (if a % 2 == 1 && b % 2 == 1 then 1 else 0) + 2 * BitAnd(a / 2, b / 2)
  }

  lemma {:induction false} HalfMultiple(a: nat, p: nat)
    requires p > 0 && a % (2 * p) == 0
    ensures a % 2 == 0 && (a / 2) % p == 0
  {
    var q := a / (2 * p);
    assert a == 2 * (q * p);
    DivModUnique(a / 2, p, q, 0);
  }

  /** Numbers that share no bit position are added by "or". */
  lemma {:induction false} OrDisjoint(a: nat, b: nat, n: nat)
    requires a % Pow2(n) == 0 && b < Pow2(n)
    ensures BitOr(a, b) == a + b && BitOr(b, a) == a + b
  {
    if a > 0 && b > 0 {
      HalfMultiple(a, Pow2(n - 1));
      OrDisjoint(a / 2, b / 2, n - 1);
    }
  }

  /** "And" with n ones keeps the remainder modulo 2^n. */
  lemma {:induction false} AndMask(a: nat, n: nat)
    ensures BitAnd(a, Pow2(n) - 1) == a % Pow2(n)
  {
    if n == 0 || a == 0 {
      if n > 0 { DivModUnique(0, Pow2(n), 0, 0); }
    } else {
      AndMask(a / 2, n - 1);
      LowBits(a, Pow2(n - 1));
      assert (Pow2(n) - 1) % 2 == 1 && (Pow2(n) - 1) / 2 == Pow2(n - 1) - 1;
    }
  }

  lemma {:induction false} LowBits(a: nat, p: nat)
    requires p > 0
    ensures a % (2 * p) == 2 * ((a / 2) % p) + a % 2
  {
    var q, r := (a / 2) / p, (a / 2) % p;
    assert a / 2 == q * p + r;
    MulAssoc(q, 2, p);
    MulAssoc(2, q, p);
    DivModUnique(a, 2 * p, q, 2 * r + a % 2);
  }

  /** "And" with a single bit tests that bit. */
  lemma {:induction false} AndBit(a: nat, n: nat)
    ensures BitAnd(a, Pow2(n)) != 0 <==> (a / Pow2(n)) % 2 == 1
  {
    if a == 0 {
      DivModUnique(0, Pow2(n), 0, 0);
    } else if n == 0 {
      assert BitAnd(a / 2, 0) == 0;
    } else {
      AndBit(a / 2, n - 1);
      DivDiv(a, 2, Pow2(n - 1));
      assert Pow2(n) % 2 == 0 && Pow2(n) / 2 == Pow2(n - 1);
    }
  }

  // ---- numbers in limbs ----

  /** The number with these limbs, least significant first. */
  function V(s: seq<u32>): nat {
    if s == [] then 0 else s[0] as int + LIMB * V(s[1..])
  }

  function Zeros(n: nat): (s: seq<u32>)
    ensures |s| == n && forall i | 0 <= i < n :: s[i] == 0
  {
    seq(n, _ => 0)
  }

  lemma {:induction false} OneLimbMore(n: nat)
    ensures Pow2(32 * (n + 1)) == LIMB * Pow2(32 * n)
  {
    Pow2Values();
    Pow2Add(32, 32 * n);
  }

  lemma {:induction false} Bound(s: seq<u32>)
    ensures V(s) < Pow2(32 * |s|)
  {
    if s != [] {
      Bound(s[1..]);
      OneLimbMore(|s| - 1);
    }
  }

  lemma {:induction false} Append(s: seq<u32>, t: seq<u32>)
    ensures V(s + t) == V(s) + Pow2(32 * |s|) * V(t)
  {
    if s == [] {
      assert s + t == t;
    } else {
      Append(s[1..], t);
      OneLimbMore(|s| - 1);
      assert (s + t)[1..] == s[1..] + t;
      MulAssoc(LIMB, Pow2(32 * (|s| - 1)), V(t));
      assert V(s + t) == s[0] as int + LIMB * V(s[1..] + t);
    }
  }

  lemma {:induction false} Snoc(s: seq<u32>, i: nat)
    requires i < |s|
    ensures V(s[..i + 1]) == V(s[..i]) + Pow2(32 * i) * s[i]
  {
    Append(s[..i], [s[i]]);
    assert s[..i + 1] == s[..i] + [s[i]];
    assert V([s[i]]) == s[i];
  }

  lemma {:induction false} ZerosAreZero(n: nat)
    ensures V(Zeros(n)) == 0
  {
    if n > 0 {
      ZerosAreZero(n - 1);
      assert Zeros(n)[1..] == Zeros(n - 1);
    }
  }

  /** The low limbs are the remainder and the high limbs the quotient. */
  lemma {:induction false} SplitAt(s: seq<u32>, k: nat)
    requires k <= |s|
    ensures V(s) == Pow2(32 * k) * V(s[k..]) + V(s[..k])
    ensures V(s[..k]) == V(s) % Pow2(32 * k) && V(s[k..]) == V(s) / Pow2(32 * k)
  {
    Append(s[..k], s[k..]);
    assert s[..k] + s[k..] == s;
    Bound(s[..k]);
    QuotientFirst(V(s), Pow2(32 * k), V(s[k..]), V(s[..k]));
  }

  /** Numbers of the same width are ordered by their most significant different limb. */
  lemma {:induction false} TopLimbDecides(s: seq<u32>, t: seq<u32>, i: nat)
    requires |s| == |t| && i < |s| && s[i + 1..] == t[i + 1..] && s[i] < t[i]
    ensures V(s) < V(t)
  {
    SplitAt(s, i);
    SplitAt(t, i);
    Bound(s[..i]);
    assert s[i..][1..] == s[i + 1..] && t[i..][1..] == t[i + 1..];
    HighDecides(Pow2(32 * i), V(s[i..]), V(t[i..]), V(s[..i]), V(t[..i]));
  }

  lemma {:induction false} HighDecides(p: nat, h: nat, h': nat, l: nat, l': nat)
    requires h < h' && l < p
    ensures p * h + l < p * h' + l'
  {
    MulMonotone(h + 1, h', p);
    Distribute(h, 1, p);
    assert p * h == h * p && p * h' == h' * p;
  }

  lemma {:induction false} Injective(s: seq<u32>, t: seq<u32>)
    requires |s| == |t| && V(s) == V(t)
    ensures s == t
  {
    if s != [] {
      DivModUnique(V(s), LIMB, V(s[1..]), s[0]);
      DivModUnique(V(t), LIMB, V(t[1..]), t[0]);
      Injective(s[1..], t[1..]);
      assert s == [s[0]] + s[1..] && t == [t[0]] + t[1..];
    }
  }

  lemma {:induction false} ZeroIff(s: seq<u32>)
    ensures V(s) == 0 <==> forall i | 0 <= i < |s| :: s[i] == 0
  {
    if forall i | 0 <= i < |s| :: s[i] == 0 {
      ZerosAreZero(|s|);
      assert s == Zeros(|s|);
    }
    if V(s) == 0 {
      ZerosAreZero(|s|);
      Injective(s, Zeros(|s|));
    }
  }

  // ---- shifting words ----

  /** What is left of a word shifted left by n, and of one shifted right by n. */
  function ShlWord(x: nat, n: nat): nat { (x * Pow2(n)) % LIMB }
  function ShrWord(x: nat, n: nat): nat { Quotient(x, Pow2(n)) }

  lemma {:induction false} DivAtMost(x: nat, d: nat)
    requires d > 0
    ensures x / d <= x
  {
    assert x == (x / d) * d + x % d;
    MulMonotone(1, d, x / d);
  }

  /** Shifting a word by n splits it: the bits that stay, aligned to n, and the n bits that leave. */
  lemma {:induction false} WordSplits(x: u32, n: nat)
    requires n <= 32
    ensures x * Pow2(n) == ShlWord(x, n) + LIMB * ShrWord(x, 32 - n)
    ensures ShlWord(x, n) % Pow2(n) == 0 && ShrWord(x, 32 - n) < Pow2(n)
    ensures ShlWord(x, n) + Pow2(n) <= LIMB
  {
    var p, q := Pow2(n), Pow2(32 - n);
    Pow2Add(n, 32 - n);
    Pow2Values();
    SplitProduct(x, p, q);
  }

  lemma {:induction false} SplitProduct(x: u32, p: nat, q: nat)
    requires p > 0 && q > 0 && p * q == LIMB
    ensures x * p == (x * p) % LIMB + LIMB * (x / q)
    ensures ((x * p) % LIMB) % p == 0 && x / q < p && (x * p) % LIMB + p <= LIMB
  {
    var h, r := x / q, x % q;
    assert x == h * q + r;
    Distribute(h * q, r, p);
    MulAssoc(h, q, p);
    MulMonotone(r, q - 1, p);
    Distribute(q, -1, p);
    DivModUnique(x * p, LIMB, h, r * p);
    DivModUnique(r * p, p, r, 0);
    if h >= p { MulMonotone(p, h, q); }
  }

  /** All limbs shifted left by n bits with c shifted in below; one limb longer. */
  function Shl(t: seq<u32>, n: nat, c: nat): (r: seq<u32>)
    requires n <= 32 && c < Pow2(n)
    ensures |r| == |t| + 1
  {
    Pow2Values();
    Pow2Monotone(n, 32);
    if t == [] then [c] else
    WordSplits(t[0], n);
    [ShlWord(t[0], n) + c] + Shl(t[1..], n, ShrWord(t[0], 32 - n))
  }

  lemma {:induction false} ShlMultiplies(t: seq<u32>, n: nat, c: nat)
    requires n <= 32 && c < Pow2(n)
    ensures V(Shl(t, n, c)) == V(t) * Pow2(n) + c
  {
    hide Pow2, ShlWord, ShrWord;
    var r := Shl(t, n, c);
    if t == [] {
      assert r[1..] == [];
    } else {
      WordSplits(t[0], n);
      ShlMultiplies(t[1..], n, ShrWord(t[0], 32 - n));
      assert r[1..] == Shl(t[1..], n, ShrWord(t[0], 32 - n));
      Distribute(t[0], LIMB * V(t[1..]), Pow2(n));
      MulAssoc(LIMB, V(t[1..]), Pow2(n));
    }
  }

  lemma {:induction false} ShlAt(t: seq<u32>, n: nat, c: nat, j: nat)
    requires n <= 32 && c < Pow2(n) && j <= |t|
    ensures Shl(t, n, c)[j] ==
      (if j < |t| then ShlWord(t[j], n) as int else 0) + (if j == 0 then c else ShrWord(t[j - 1], 32 - n) as int)
  {
    if t != [] && j > 0 {
      WordSplits(t[0], n);
      ShlAt(t[1..], n, ShrWord(t[0], 32 - n), j - 1);
    }
  }
}
