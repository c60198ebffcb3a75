/**
 Text helpers that the services share.

 Trimming and case folding of ASCII text, hexadecimal in both directions, and the normal form of
 a transaction id. Decoding accepts both cases of the digits and encoding writes lower case, so
 the two are inverse up to case.
 */
module Text {
  import opened Bytes

  predicate IsSpace(c: char) { c == ' ' || '\t' <= c <= '\r' }

  function TrimLeft(s: string): string {
    if s != [] && IsSpace(s[0]) then TrimLeft(s[1..]) else s
  }

  function TrimRight(s: string): string {
    if s != [] && IsSpace(s[|s| - 1]) then TrimRight(s[..|s| - 1]) else s
  }

  function Trim(s: string): string { TrimRight(TrimLeft(s)) }

  function LowerChar(c: char): char {
    if 'A' <= c <= 'Z' then c - 'A' + 'a' else c
  }

  function Lower(s: string): (r: string)
    ensures |r| == |s|
  {
    seq(|s|, i requires 0 <= i < |s| => LowerChar(s[i]))
  }

  predicate IsLowerHexDigit(c: char) { '0' <= c <= '9' || 'a' <= c <= 'f' }
  predicate IsHexDigit(c: char) { IsLowerHexDigit(LowerChar(c)) }

  function DigitChar(n: nat): (c: char)
    requires n < 16
    ensures IsLowerHexDigit(c)
  {
    if n < 10 then '0' + n as char else 'a' + (n - 10) as char
  }

  function DigitValue(c: char): (n: nat)
    requires IsHexDigit(c)
    ensures n < 16 && DigitChar(n) == LowerChar(c)
  {
    var d := LowerChar(c);
    if d <= '9' then (d - '0') as nat else 10 + (d - 'a') as nat
  }

  function HexEncode(b: seq<byte>): (s: string)
    ensures |s| == 2 * |b|
  {
    if b == [] then [] else [DigitChar(b[0] / 16), DigitChar(b[0] % 16)] + HexEncode(b[1..])
  }

  /** None for an odd length or a character that is not a hexadecimal digit. */
  function HexDecode(s: string): (r: Option<seq<byte>>)
    ensures r.Some? ==> |s| == 2 * |r.value|
  {
    if s == [] then Some([])
    else if |s| == 1 || !IsHexDigit(s[0]) || !IsHexDigit(s[1]) then None
    else
      var tail := HexDecode(s[2..]);
      if tail == None then None else Some([16 * DigitValue(s[0]) + DigitValue(s[1])] + tail.value)
  }

  lemma {:induction false} LowerPair(s: string)
    requires |s| >= 2
    ensures Lower(s) == [LowerChar(s[0]), LowerChar(s[1])] + Lower(s[2..])
  {
  }

  predicate AllHex(s: string) { forall k | 0 <= k < |s| :: IsHexDigit(s[k]) }

  /** Decoding accepts exactly the even-length strings of hexadecimal digits. */
  lemma {:induction false} HexAccepts(s: string)
    ensures HexDecode(s).Some? <==> |s| % 2 == 0 && AllHex(s)
  {
    hide IsHexDigit, DigitValue;
    if |s| >= 2 {
      HexAccepts(s[2..]);
      if AllHex(s[2..]) {
        forall k | 2 <= k < |s| ensures IsHexDigit(s[k]) <==> IsHexDigit(s[2..][k - 2]) {}
      }
    }
  }

  lemma {:induction false} EncodePair(hi: char, lo: char, tail: seq<byte>)
    requires IsHexDigit(hi) && IsHexDigit(lo)
    ensures HexEncode([16 * DigitValue(hi) + DigitValue(lo)] + tail) == [LowerChar(hi), LowerChar(lo)] + HexEncode(tail)
  {
    hide IsHexDigit, DigitValue, DigitChar, LowerChar;
    var b := [16 * DigitValue(hi) + DigitValue(lo)] + tail;
    assert b[0] / 16 == DigitValue(hi) && b[0] % 16 == DigitValue(lo) && b[1..] == tail;
  }

  /** Encoding what was decoded gives the text back in lower case. */
  lemma {:induction false} HexRoundTrip(s: string)
    requires HexDecode(s).Some?
    ensures HexEncode(HexDecode(s).value) == Lower(s)
  {
    if s != [] {
      HexRoundTrip(s[2..]);
      EncodePair(s[0], s[1], HexDecode(s[2..]).value);
      LowerPair(s);
    }
  }

  lemma {:induction false} HexDecodeEncode(b: seq<byte>)
    ensures HexDecode(HexEncode(b)) == Some(b)
  {
    if b != [] {
      HexDecodeEncode(b[1..]);
      assert HexEncode(b)[2..] == HexEncode(b[1..]);
      assert b == [b[0]] + b[1..];
    }
  }

  lemma {:induction false} HexEncodeAppend(a: seq<byte>, b: seq<byte>)
    ensures HexEncode(a + b) == HexEncode(a) + HexEncode(b)
  {
    if a == [] {
      assert a + b == b;
    } else {
      HexEncodeAppend(a[1..], b);
      assert (a + b)[1..] == a[1..] + b;
    }
  }

  lemma {:induction false} HexEncodeDigits(b: seq<byte>)
    ensures forall c | c in HexEncode(b) :: IsLowerHexDigit(c)
  {
    if b != [] { HexEncodeDigits(b[1..]); }
  }

  function Zeros(n: nat): (s: seq<byte>)
    ensures |s| == n
  {
    seq(n, _ => 0)
  }

  lemma {:induction false} HexEncodeZeros(n: nat)
    ensures HexEncode(Zeros(n)) == seq(2 * n, _ => '0')
    decreases n
  {
    if n > 0 {
      HexEncodeZeros(n - 1);
      assert Zeros(n)[1..] == Zeros(n - 1);
    }
  }

  // ---- txids ----

  /** `normalizeTxid`: 64 lower-case hexadecimal digits, or empty. */
  function NormalizeTxid(txid: string): (id: string) {
    var id := Lower(Trim(txid));
    if |id| == 64 && forall c | c in id :: IsLowerHexDigit(c) then id else ""
  }

  lemma {:induction false} TrimIsId(s: string)
    requires forall c | c in s :: !IsSpace(c)
    ensures Trim(s) == s
  {
  }

  lemma {:induction false} LowerIsId(s: string)
    requires forall c | c in s :: IsLowerHexDigit(c)
    ensures Lower(s) == s
  {
    forall k | 0 <= k < |s| ensures Lower(s)[k] == s[k] { assert s[k] in s; }
  }

  lemma {:induction false} NormalizedIsFixed(id: string)
    requires |id| == 64 && forall c | c in id :: IsLowerHexDigit(c)
    ensures NormalizeTxid(id) == id
  {
    TrimIsId(id);
    LowerIsId(id);
  }

  lemma {:induction false} NormalizeTwice(txid: string)
    ensures var id := NormalizeTxid(txid);
      id != "" ==> NormalizeTxid(id) == id
  {
    if NormalizeTxid(txid) != "" { NormalizedIsFixed(NormalizeTxid(txid)); }
  }

  lemma {:induction false} LowerCharSpace(c: char)
    ensures IsSpace(LowerChar(c)) <==> IsSpace(c)
    ensures LowerChar(LowerChar(c)) == LowerChar(c)
  {
  }

  lemma {:induction false} LowerSlice(s: string, i: nat, j: nat)
    requires i <= j <= |s|
    ensures Lower(s)[i..j] == Lower(s[i..j])
  {
  }

  lemma {:induction false} LowerTrimLeft(s: string)
    ensures TrimLeft(Lower(s)) == Lower(TrimLeft(s))
  {
    hide IsSpace, LowerChar;
    if s != [] {
      LowerCharSpace(s[0]);
      LowerTrimLeft(s[1..]);
      LowerSlice(s, 1, |s|);
      assert Lower(s)[1..] == Lower(s[1..]) && Lower(s)[0] == LowerChar(s[0]);
    }
  }

  lemma {:induction false} LowerTrimRight(s: string)
    ensures TrimRight(Lower(s)) == Lower(TrimRight(s))
  {
    hide IsSpace, LowerChar;
    if s != [] {
      LowerCharSpace(s[|s| - 1]);
      LowerTrimRight(s[..|s| - 1]);
      LowerSlice(s, 0, |s| - 1);
    }
  }

  /** Trimming and lower-casing go in either order. */
  lemma {:induction false} LowerThenTrim(s: string)
    ensures Trim(Lower(s)) == Lower(Trim(s))
  {
    LowerTrimLeft(s);
    LowerTrimRight(TrimLeft(s));
  }

  lemma {:induction false} LowerDigit(c: char)
    ensures IsHexDigit(LowerChar(c)) <==> IsHexDigit(c)
    ensures IsHexDigit(c) ==> DigitValue(LowerChar(c)) == DigitValue(c)
  {
    LowerCharSpace(c);
  }

  /** Decoding does not look at case. */
  lemma {:induction false} LowerDecodes(s: string)
    ensures HexDecode(Lower(s)) == HexDecode(s)
  {
    hide IsHexDigit, DigitValue, LowerChar, Lower;
    if |s| >= 2 {
      LowerDecodes(s[2..]);
      LowerPair(s);
      assert Lower(s)[2..] == Lower(s[2..]);
      LowerDigit(s[0]);
      LowerDigit(s[1]);
    }
  }

  // ---- the characters meant ----

  const UPPER := "ABCDEFGHIJKLMNOPQRSTUVWXYZ"
  const LOWER := "abcdefghijklmnopqrstuvwxyz"

  /** Lower-casing maps the 26 letters and nothing else. */
  lemma {:induction false} LowerIs(c: char)
    ensures if i :| 0 <= i < 26 && UPPER[i] == c then LowerChar(c) == LOWER[i] else LowerChar(c) == c
  {
    assert forall i | 0 <= i < 26 :: UPPER[i] == 'A' + i as char && LOWER[i] == 'a' + i as char;
    if 'A' <= c <= 'Z' { assert UPPER[(c - 'A') as int] == c; }
  }

  /** Hexadecimal digits are these, and stand for their position. */
  lemma {:induction false} DigitsAre(n: nat)
    requires n < 16
    ensures DigitChar(n) == "0123456789abcdef"[n] && DigitValue("0123456789abcdef"[n]) == n
  {
    assert DigitChar(n) == "0123456789abcdef"[n];
    DigitOf(n);
  }

  lemma {:induction false} DigitOf(n: nat)
    requires n < 16
    ensures IsHexDigit(DigitChar(n)) && DigitValue(DigitChar(n)) == n
  {
  }

  predicate Blanks(s: string) { forall c | c in s :: c == ' ' || c == '\t' || c == '\n' || c == 11 as char || c == 12 as char || c == '\r' }

  /** Trimming takes exactly the space at both ends. */
  lemma {:induction false} TrimIs(pre: string, mid: string, post: string)
    requires Blanks(pre) && Blanks(post) && (mid != [] ==> !Blanks([mid[0]]) && !Blanks([mid[|mid| - 1]]))
    ensures Trim(pre + mid + post) == mid
  {
    BlanksAre();
    assert pre + mid + post == pre + (mid + post);
    if mid == [] {
      assert mid + post == post && post + [] == post;
      TrimLeftOf(post, []);
      TrimLeftOf(pre, post);
    } else {
      TrimLeftOf(pre, mid + post);
      TrimRightOf(mid, post);
    }
  }

  lemma {:induction false} BlanksAre()
    ensures forall s: string :: Blanks(s) <==> forall c | c in s :: IsSpace(c)
    ensures forall c: char :: Blanks([c]) <==> IsSpace(c)
  {
    forall s: string ensures Blanks(s) <==> forall c | c in s :: IsSpace(c) {}
    forall c: char ensures Blanks([c]) <==> IsSpace(c) { assert c in [c]; }
  }

  lemma {:induction false} TrimLeftOf(pre: string, s: string)
    requires (forall c | c in pre :: IsSpace(c)) && (s != [] ==> !IsSpace(s[0]) || TrimLeft(s) == [])
    ensures TrimLeft(pre + s) == TrimLeft(s)
  {
    if pre == [] {
      assert pre + s == s;
    } else {
      TrimLeftOf(pre[1..], s);
      assert (pre + s)[1..] == pre[1..] + s;
    }
  }

  lemma {:induction false} TrimRightOf(mid: string, post: string)
    requires mid != [] && !IsSpace(mid[|mid| - 1]) && forall c | c in post :: IsSpace(c)
    ensures TrimRight(mid + post) == mid
  {
    if post == [] {
      assert mid + post == mid;
    } else {
      TrimRightOf(mid, post[..|post| - 1]);
      assert (mid + post)[..|mid + post| - 1] == mid + post[..|post| - 1];
    }
  }
}
