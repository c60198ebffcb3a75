/** Base58 on bytes: a decoder in chunks of ten, a dividing encoder, and the plain positional value between them. */
module Base58 {
  import opened Bytes

  // ---- digits ----

  /** The decoding table has 256 entries but lists only 128: the rest are zero. */
  function Table(v: byte): byte {
    if v < 49 then 255
    else if v <= 57 then v - 49
    else if v < 65 then 255
    else if v <= 72 then v - 56
    else if v < 74 then 255
    else if v <= 78 then v - 57
    else if v < 80 then 255
    else if v <= 90 then v - 58
    else if v < 97 then 255
    else if v <= 107 then v - 64
    else if v < 109 then 255
    else if v <= 122 then v - 65
    else if v < 128 then 255
    else 0
  }

  const ONE: byte := 49

  predicate IsDigit(v: byte) { v < 0x80 && Table(v) != 255 }
  predicate Ascii(s: seq<byte>) { forall i | 0 <= i < |s| :: s[i] < 0x80 }
  predicate AllDigits(s: seq<byte>) { forall i | 0 <= i < |s| :: IsDigit(s[i]) }

  /** The alphabet: '1' to '9', then 'A' to 'Z' without 'I' and 'O', then 'a' to 'z' without 'l'. */
  function DigitByte(d: nat): (v: byte)
    requires d < 58
    ensures IsDigit(v) && Table(v) == d
  {
    if d < 9 then d + 49
    else if d < 17 then d + 56
    else if d < 22 then d + 57
    else if d < 33 then d + 58
    else if d < 44 then d + 64
    else d + 65
  }

  const ALPHABET := "123456789" + "ABCDEFGH" + "JKLMN" + "PQRSTUVWXYZ" + "abcdefghijk" + "mnopqrstuvwxyz"

  /** The digits in the order of their values. */
  lemma {:induction false} AlphabetIs(d: nat)
    requires d < 58
    ensures |ALPHABET| == 58 && DigitByte(d) == ALPHABET[d] as int
  {
    assert forall i | 0 <= i < 9 :: ALPHABET[i] == '1' + i as char;
    assert forall i | 9 <= i < 17 :: ALPHABET[i] == 'A' + (i - 9) as char;
    assert forall i | 17 <= i < 22 :: ALPHABET[i] == 'J' + (i - 17) as char;
    assert forall i | 22 <= i < 33 :: ALPHABET[i] == 'P' + (i - 22) as char;
    assert forall i | 33 <= i < 44 :: ALPHABET[i] == 'a' + (i - 33) as char;
    assert forall i | 44 <= i < 58 :: ALPHABET[i] == 'm' + (i - 44) as char;
  }

  lemma {:induction false} DigitByteOfTable(v: byte)
    requires IsDigit(v)
    ensures Table(v) < 58 && DigitByte(Table(v)) == v
  {
  }

  // ---- positional values ----

  function Pow58(n: nat): (p: nat)
    ensures p > 0
  {
    if n == 0 then 1 else 58 * Pow58(n - 1)
  }

  /** The plain base-58 value of a string of digits. */
  function Value(s: seq<byte>): nat
    requires AllDigits(s)
  {
    if s == [] then 0 else 58 * Value(s[..|s| - 1]) + Table(s[|s| - 1])
  }

  lemma {:induction false} ValueSnoc(s: seq<byte>, d: byte)
    requires AllDigits(s) && IsDigit(d)
    ensures AllDigits(s + [d]) && Value(s + [d]) == 58 * Value(s) + Table(d)
  {
    assert (s + [d])[..|s|] == s;
  }

  lemma {:induction false} ValueAppend(s: seq<byte>, t: seq<byte>)
    requires AllDigits(s) && AllDigits(t)
    ensures AllDigits(s + t) && Value(s + t) == Value(s) * Pow58(|t|) + Value(t)
  {
    if t == [] {
      assert s + t == s;
    } else {
      hide Table, IsDigit, Value;
      var n := |t| - 1;
      ValueAppend(s, t[..n]);
      ValueSnoc(s + t[..n], t[n]);
      ValueSnoc(t[..n], t[n]);
      assert t[..n] + [t[n]] == t && s + t[..n] + [t[n]] == s + t;
      Scale(Value(s), Pow58(n));
    }
  }

  lemma {:induction false} Scale(v: nat, p: nat)
    ensures 58 * (v * p) == v * (58 * p)
  {
  }

  /** The digits of a number, without leading zeros. */
  function Digits(n: nat): (s: seq<byte>)
    ensures AllDigits(s)
  {
    if n == 0 then [] else Digits(n / 58) + [DigitByte(n % 58)]
  }

  lemma {:induction false} DigitsHaveValue(n: nat)
    ensures Value(Digits(n)) == n && (n > 0 ==> Digits(n) != [] && Digits(n)[0] != ONE)
  {
    if n > 0 {
      DigitsHaveValue(n / 58);
      assert Digits(n)[..|Digits(n)| - 1] == Digits(n / 58);
    }
  }

  /** Only one string without a leading '1' has a given value. */
  lemma {:induction false} DigitsOfValue(s: seq<byte>)
    requires AllDigits(s) && (s != [] ==> s[0] != ONE)
    ensures Digits(Value(s)) == s && (s != [] ==> Value(s) > 0)
  {
    if s != [] {
      var n := |s| - 1;
      DigitsOfValue(s[..n]);
      DigitByteOfTable(s[n]);
      LastDigit(Value(s[..n]), Table(s[n]));
      assert s == s[..n] + [s[n]];
    }
  }

  lemma {:induction false} LastDigit(v: nat, d: nat)
    requires d < 58
    ensures (58 * v + d) / 58 == v && (58 * v + d) % 58 == d
  {
  }

  /** The number with these big-endian bytes, and the least bytes of a number. */
  function BigEndian(b: seq<byte>): nat {
    if b == [] then 0 else 0x100 * BigEndian(b[..|b| - 1]) + b[|b| - 1]
  }

  function ToBytes(n: nat): seq<byte> {
    if n == 0 then [] else ToBytes(n / 0x100) + [n % 0x100]
  }

  lemma {:induction false} BytesHaveValue(n: nat)
    ensures BigEndian(ToBytes(n)) == n && (n > 0 ==> ToBytes(n) != [] && ToBytes(n)[0] != 0)
  {
    if n > 0 {
      BytesHaveValue(n / 0x100);
      assert ToBytes(n)[..|ToBytes(n)| - 1] == ToBytes(n / 0x100);
    }
  }

  lemma {:induction false} LastByte(v: nat, d: byte)
    ensures (0x100 * v + d) / 0x100 == v && (0x100 * v + d) % 0x100 == d
  {
  }

  lemma {:induction false} BytesOfValue(b: seq<byte>)
    requires b != [] ==> b[0] != 0
    ensures ToBytes(BigEndian(b)) == b && (b != [] ==> BigEndian(b) > 0)
  {
    if b != [] {
      BytesOfValue(b[..|b| - 1]);
      LastByte(BigEndian(b[..|b| - 1]), b[|b| - 1]);
      assert b == b[..|b| - 1] + [b[|b| - 1]];
    }
  }

  // ---- leading marks ----

  /** How often c stands at the front. */
  function Leading(s: seq<byte>, c: byte): (n: nat)
    ensures n <= |s| && (forall i | 0 <= i < n :: s[i] == c) && (n < |s| ==> s[n] != c)
  {
    if s == [] || s[0] != c then 0 else 1 + Leading(s[1..], c)
  }

  function Repeat(c: byte, n: nat): (s: seq<byte>)
    ensures |s| == n && forall i | 0 <= i < n :: s[i] == c
  {
    seq(n, _ => c)
  }

  lemma {:induction false} LeadingOf(c: byte, n: nat, rest: seq<byte>)
    requires rest == [] || rest[0] != c
    ensures Leading(Repeat(c, n) + rest, c) == n
  {
    var s := Repeat(c, n) + rest;
    if n == 0 {
      assert s == rest;
    } else {
      LeadingOf(c, n - 1, rest);
      assert s[1..] == Repeat(c, n - 1) + rest;
    }
  }

  lemma {:induction false} SplitLeading(s: seq<byte>, c: byte)
    ensures s == Repeat(c, Leading(s, c)) + s[Leading(s, c)..]
  {
  }

  lemma {:induction false} ValueOfOnes(n: nat)
    ensures Value(Repeat(ONE, n)) == 0
  {
    if n > 0 {
      ValueOfOnes(n - 1);
      assert Repeat(ONE, n)[..n - 1] == Repeat(ONE, n - 1);
    }
  }

  lemma {:induction false} BigEndianOfZeros(n: nat)
    ensures BigEndian(Repeat(0, n)) == 0
  {
    if n > 0 {
      BigEndianOfZeros(n - 1);
      assert Repeat(0, n)[..n - 1] == Repeat(0, n - 1);
    }
  }

  lemma {:induction false} BigEndianSkipsZeros(n: nat, b: seq<byte>)
    ensures BigEndian(Repeat(0, n) + b) == BigEndian(b)
  {
    var s := Repeat(0, n) + b;
    if b == [] {
      assert s == Repeat(0, n);
      BigEndianOfZeros(n);
    } else {
      assert s[..|s| - 1] == Repeat(0, n) + b[..|b| - 1];
      BigEndianSkipsZeros(n, b[..|b| - 1]);
    }
  }

  // ---- the chunk decoder ----

  predicate TwoByteRune(c: seq<byte>) { |c| >= 2 && 0xc2 <= c[0] <= 0xc3 && 0x80 <= c[1] < 0xc0 }

  /** These are the two bytes that UTF-8 writes for the characters from 128 to 255. */
  lemma {:induction false} RuneIs(a: byte, b: byte)
    ensures TwoByteRune([a, b]) <==> exists code: nat :: 128 <= code < 256 && a == 0xc0 + code / 64 && b == 0x80 + code % 64
  {
    if TwoByteRune([a, b]) {
      var code: nat := (a - 0xc0) as int * 64 + (b - 0x80);
      assert code / 64 == a - 0xc0 && code % 64 == b - 0x80;
    }
  }

  /** What the characters of a chunk add up to: an ASCII character must be a digit; a character
      of two bytes, up to 255, reads an unlisted table entry and counts as digit 0; any other
      character, or part of one, is refused. */
  function ChunkValue(c: seq<byte>, total: nat): Option<nat> {
    if c == [] then Some(total)
    else if c[0] < 0x80 then (if Table(c[0]) == 255 then None else ChunkValue(c[1..], total * 58 + Table(c[0])))
    else if TwoByteRune(c) then ChunkValue(c[2..], total * 58)
    else None
  }

  function ChunkSize(t: seq<byte>): nat { if |t| > 10 then 10 else |t| }

  function Shifted(answer: nat, n: nat, total: nat): nat { answer * Pow58(n) + total }

  function ReadChunks(t: seq<byte>, answer: nat): Option<nat> {
    if t == [] then Some(answer) else
    var n := ChunkSize(t);
    match ChunkValue(t[..n], 0)
    case None => None
    case Some(total) => ReadChunks(t[n..], Shifted(answer, n, total))
  }

  function Decode(b: seq<byte>): Option<seq<byte>> {
    match ReadChunks(b, 0)
    case None => None
    case Some(answer) => Some(Repeat(0, Leading(b, ONE)) + ToBytes(answer))
  }

  /** The plain reference: digits only, one positional value, a zero byte per leading '1'. */
  function PlainDecode(b: seq<byte>): Option<seq<byte>> {
    if AllDigits(b) then Some(Repeat(0, Leading(b, ONE)) + ToBytes(Value(b))) else None
  }

  // ---- what the chunk decoder accepts and reads ----

  /** Digits and whole two-byte characters of up to 255, nothing else. */
  predicate ChunkReadable(c: seq<byte>) {
    c != [] ==>
      if c[0] < 0x80 then IsDigit(c[0]) && ChunkReadable(c[1..]) else TwoByteRune(c) && ChunkReadable(c[2..])
  }

  /** A text whose pieces of ten bytes are all readable: no character is cut by a piece's end. */
  predicate ChunksReadable(t: seq<byte>) {
    t != [] ==> ChunkReadable(t[..ChunkSize(t)]) && ChunksReadable(t[ChunkSize(t)..])
  }

  /** A readable piece with every two-byte character replaced by the digit for 0. */
  function ChunkDigits(c: seq<byte>): (r: seq<byte>)
    requires ChunkReadable(c)
    ensures AllDigits(r) && |r| <= |c|
  {
    if c == [] then [] else if c[0] < 0x80 then [c[0]] + ChunkDigits(c[1..]) else [ONE] + ChunkDigits(c[2..])
  }

  /** A readable piece filled up in front to its byte length. */
  function Filled(c: seq<byte>): (r: seq<byte>)
    requires ChunkReadable(c)
    ensures AllDigits(r) && |r| == |c|
  {
    Repeat(ONE, |c| - |ChunkDigits(c)|) + ChunkDigits(c)
  }

  /** The digits a readable text stands for: those of its pieces, each filled up. */
  function AsDigits(t: seq<byte>): (r: seq<byte>)
    requires ChunksReadable(t)
    ensures AllDigits(r) && |r| == |t|
  {
    if t == [] then [] else
    var n := ChunkSize(t);
    Filled(t[..n]) + AsDigits(t[n..])
  }

  lemma {:induction false} ChunkReads(done: seq<byte>, c: seq<byte>)
    requires AllDigits(done)
    ensures ChunkValue(c, Value(done)) == if ChunkReadable(c) then Some(Value(done + ChunkDigits(c))) else None
    decreases |c|, 0
  {
    if c == [] {
      assert done + [] == done;
    } else if IsDigit(c[0]) {
      ChunkReadsOn(done, c[0], c[1..]);
    } else if TwoByteRune(c) {
      ChunkReadsOn(done, ONE, c[2..]);
    }
  }

  lemma {:induction false} ChunkReadsOn(done: seq<byte>, digit: byte, rest: seq<byte>)
    requires AllDigits(done) && IsDigit(digit)
    ensures ChunkValue(rest, Value(done) * 58 + Table(digit)) ==
      if ChunkReadable(rest) then Some(Value(done + ([digit] + ChunkDigits(rest)))) else None
    decreases |rest|, 1
  {
    assert (done + [digit])[..|done|] == done;
    ChunkReads(done + [digit], rest);
    if ChunkReadable(rest) { assert done + [digit] + ChunkDigits(rest) == done + ([digit] + ChunkDigits(rest)); }
  }

  /** Filling a piece up in front does not change what it adds up to. */
  lemma {:induction false} ReadsDigits(done: seq<byte>, c: seq<byte>)
    requires AllDigits(done)
    ensures ChunkValue(c, 0) == if ChunkReadable(c) then Some(Value(Filled(c))) else None
    ensures ChunkReadable(c) ==> AllDigits(done + Filled(c)) && Value(done + Filled(c)) == Shifted(Value(done), |c|, Value(Filled(c)))
  {
    ChunkReads([], c);
    if ChunkReadable(c) {
      var ds := ChunkDigits(c);
      assert [] + ds == ds;
      ValueOfOnes(|c| - |ds|);
      ValueAppend(Repeat(ONE, |c| - |ds|), ds);
      ValueAppend(done, Filled(c));
    }
  }

  lemma {:induction false} FirstChunk(t: seq<byte>, answer: nat)
    requires t != []
    ensures var n := ChunkSize(t); var c, rest := t[..n], t[n..];
      && 0 < n == |c| && (ChunksReadable(t) <==> ChunkReadable(c) && ChunksReadable(rest))
      && (ChunksReadable(t) ==> AsDigits(t) == Filled(c) + AsDigits(rest))
      && ReadChunks(t, answer) == match ChunkValue(c, 0) { case None => None case Some(total) => ReadChunks(rest, Shifted(answer, n, total)) }
  {
    hide ChunkReadable, Filled, ChunkValue, Shifted;
  }

  /** The text reads as its digits after those already done. */
  ghost predicate ReadsOn(done: seq<byte>, t: seq<byte>) {
    && (ChunksReadable(t) ==> AllDigits(done + AsDigits(t)))
    && (AllDigits(done) ==> ReadChunks(t, Value(done)) == if ChunksReadable(t) then Some(Value(done + AsDigits(t))) else None)
  }

  lemma {:induction false} ReadsOnStep(done: seq<byte>, c: seq<byte>, rest: seq<byte>, t: seq<byte>)
    requires AllDigits(done) && t != [] && c == t[..ChunkSize(t)] && rest == t[ChunkSize(t)..]
    requires ChunkReadable(c) ==> ReadsOn(done + Filled(c), rest)
    ensures ReadsOn(done, t)
  {
    hide Shifted, Value, AllDigits, Filled, AsDigits, ChunksReadable, ReadChunks, ChunkReadable, ChunkValue;
    FirstChunk(t, Value(done));
    ReadsDigits(done, c);
    if ChunkReadable(c) && ChunksReadable(rest) {
      assert done + Filled(c) + AsDigits(rest) == done + AsDigits(t);
    }
  }

  /** The decoder accepts exactly the readable texts, and reads the value of their digits. */
  lemma {:induction false} ChunksRead(done: seq<byte>, t: seq<byte>)
    requires AllDigits(done)
    ensures ReadsOn(done, t)
    decreases |t|
  {
    if t == [] {
      assert done + [] == done;
    } else {
      hide *;
      var n := ChunkSize(t);
      var c, rest := t[..n], t[n..];
      FirstChunk(t, Value(done));
      ReadsDigits(done, c);
      if ChunkReadable(c) { ChunksRead(done + Filled(c), rest); }
      ReadsOnStep(done, c, rest, t);
    }
  }

  lemma {:induction false} ChunkOfAscii(c: seq<byte>)
    requires Ascii(c)
    ensures ChunkReadable(c) <==> AllDigits(c)
    ensures ChunkReadable(c) ==> ChunkDigits(c) == c
    decreases |c|
  {
    if c != [] {
      ChunkOfAscii(c[1..]);
      assert c == [c[0]] + c[1..];
      DigitsSplit([c[0]], c[1..]);
    }
  }

  lemma {:induction false} ReadableAscii(t: seq<byte>)
    requires Ascii(t)
    ensures ChunksReadable(t) <==> AllDigits(t)
    ensures ChunksReadable(t) ==> AsDigits(t) == t
    decreases |t|
  {
    hide ChunkReadable, ChunkDigits, Table, IsDigit, Repeat;
    if t != [] {
      var n := ChunkSize(t);
      var c, rest := t[..n], t[n..];
      assert t == c + rest;
      DigitsSplit(c, rest);
      ChunkOfAscii(c);
      ReadableAscii(rest);
    }
  }

  lemma {:induction false} DigitsSplit(c: seq<byte>, rest: seq<byte>)
    ensures AllDigits(c + rest) <==> AllDigits(c) && AllDigits(rest)
    ensures Ascii(c + rest) <==> Ascii(c) && Ascii(rest)
  {
    var t := c + rest;
    assert forall i | 0 <= i < |c| :: t[i] == c[i];
    assert forall i | 0 <= i < |rest| :: t[|c| + i] == rest[i];
  }

  /** On readable texts the decoder gives the value of the digits they stand for, and it accepts
      no others. It agrees with the plain decoding exactly on ASCII texts and unreadable ones. */
  lemma {:induction false} DecodeIsPlain(b: seq<byte>)
    ensures Decode(b) ==
      if ChunksReadable(b) then Some(Repeat(0, Leading(b, ONE)) + ToBytes(Value(AsDigits(b)))) else None
    ensures Decode(b) == PlainDecode(b) <==> Ascii(b) || !ChunksReadable(b)
  {
    hide ChunksReadable, AsDigits, ToBytes, Leading, ReadChunks;
    ChunksRead([], b);
    if ChunksReadable(b) { assert [] + AsDigits(b) == AsDigits(b); }
    if Ascii(b) {
      ReadableAscii(b);
    } else {
      var i :| 0 <= i < |b| && b[i] >= 0x80;
      assert !IsDigit(b[i]);
    }
  }

  /** A character that the tenth byte of the text cuts in two is refused. */
  lemma {:induction false} CutCharacterIsRefused(s: seq<byte>, c0: byte, c1: byte, rest: seq<byte>)
    requires AllDigits(s) && |s| == 9 && TwoByteRune([c0, c1])
    ensures Decode(s + [c0, c1] + rest) == None
  {
    hide Decode;
    var t := s + [c0, c1] + rest;
    assert t[..10] == s + [c0];
    DigitsThenCut(s, c0);
    DecodeIsPlain(t);
  }

  lemma {:induction false} DigitsThenCut(s: seq<byte>, c: byte)
    requires AllDigits(s) && c >= 0x80
    ensures !ChunkReadable(s + [c])
  {
    hide Table;
    if s == [] {
      assert s + [c] == [c];
    } else {
      DigitsThenCut(s[1..], c);
      assert (s + [c])[1..] == s[1..] + [c] && (s + [c])[0] == s[0];
      assert IsDigit(s[0]);
    }
  }

  /** A two-byte character of up to 255 in front of a string without leading '1' changes nothing:
      the decoder accepts text that no encoder writes. */
  lemma {:induction false} ForeignPrefixIsIgnored(c0: byte, c1: byte, s: seq<byte>)
    requires TwoByteRune([c0, c1]) && AllDigits(s) && s != [] && s[0] != ONE
    ensures Decode([c0, c1] + s) == PlainDecode(s) && PlainDecode([c0, c1] + s) == None
  {
    hide ChunkReadable, ChunkDigits, ToBytes, Value, Decode, Leading;
    var t := [c0, c1] + s;
    var n := ChunkSize(t);
    var first, rest := s[..n - 2], s[n - 2..];
    assert s == first + rest && t[..n] == [c0, c1] + first && t[n..] == rest;
    ForeignChunk(c0, c1, first);
    ReadableAscii(rest);
    assert AsDigits(t) == Repeat(ONE, 2) + s;
    ValueOfOnes(2);
    ValueAppend(Repeat(ONE, 2), s);
    NoLeadingOne(t);
    NoLeadingOne(s);
    DecodeIsPlain(t);
    assert !IsDigit(t[0]);
  }

  lemma {:induction false} NoLeadingOne(s: seq<byte>)
    requires s != [] && s[0] != ONE
    ensures Leading(s, ONE) == 0
  {
  }

  lemma {:induction false} ForeignChunk(c0: byte, c1: byte, first: seq<byte>)
    requires TwoByteRune([c0, c1]) && AllDigits(first)
    ensures ChunkReadable([c0, c1] + first) && ChunkDigits([c0, c1] + first) == [ONE] + first
  {
    ChunkOfAscii(first);
    assert ([c0, c1] + first)[2..] == first;
  }

  // ---- the loops of the decoder ----

  lemma {:induction false} Powers()
    ensures Pow58(10) == 430804206899405824
  {
    assert Pow58(2) == 3364;
    assert Pow58(4) == 11316496;
    assert Pow58(6) == 38068692544;
    assert Pow58(8) == 128063081718016;
  }

  lemma {:induction false} Grow(total: nat, digit: nat, k: nat)
    requires total < Pow58(k) && digit < 58
    ensures total * 58 + digit < Pow58(k + 1)
  {
  }

  lemma {:induction false} PowMonotone(j: nat, k: nat)
    requires j <= k
    ensures Pow58(j) <= Pow58(k)
  {
    if j < k { PowMonotone(j, k - 1); }
  }

  /** One chunk: the accumulator stays below 58^10, inside 64 bits. */
  method DecodeChunk(c: seq<byte>) returns (r: Option<u64>)
    requires |c| <= 10
    ensures match r case None => ChunkValue(c, 0) == None case Some(total) => ChunkValue(c, 0) == Some(total)
    ensures r.Some? ==> r.value < Pow58(10)
  {
    var total: u64 := 0;
    var off := 0;
    Powers();
    while off < |c|
      invariant off <= |c| && total < Pow58(off) && ChunkValue(c, 0) == ChunkValue(c[off..], total)
    {
      ghost var rest := c[off..];
      PowMonotone(off + 1, 10);
      if c[off] < 0x80 {
        var tmp := Table(c[off]);
        if tmp == 255 { return None; }
        DigitByteOfTable(c[off]);
        Grow(total, tmp, off);
        total := total * 58 + tmp;
        off := off + 1;
        assert rest[1..] == c[off..];
      } else if off + 1 < |c| && 0xc2 <= c[off] <= 0xc3 && 0x80 <= c[off + 1] < 0xc0 {
        Grow(total, 0, off);
        PowMonotone(off + 1, off + 2);
        total := total * 58;
        off := off + 2;
        assert rest[2..] == c[off..];
      } else {
        return None;
      }
    }
    assert c[off..] == [];
    PowMonotone(off, 10);
    return Some(total);
  }

  method Base58Decode(b: seq<byte>) returns (r: Option<seq<byte>>)
    ensures r == Decode(b)
  {
    var answer: nat := 0;
    var t := b;
    while |t| > 0
      invariant ReadChunks(b, 0) == ReadChunks(t, answer)
      decreases |t|
    {
      var n := |t|;
      if n > 10 { n := 10; }
      var total := DecodeChunk(t[..n]);
      if total == None { return None; }
      answer := answer * Pow58(n) + total.value;
      t := t[n..];
    }
    var numZeros := 0;
    while numZeros < |b| && b[numZeros] == ONE
      invariant numZeros <= |b| && numZeros + Leading(b[numZeros..], ONE) == Leading(b, ONE)
    {
      assert b[numZeros..][1..] == b[numZeros + 1..];
      numZeros := numZeros + 1;
    }
    return Some(Repeat(0, numZeros) + ToBytes(answer));
  }

  // ---- the encoder ----

  function Encode(b: seq<byte>): (s: seq<byte>)
    ensures AllDigits(s)
  {
    if BigEndian(b) == 0 then [ONE] else Repeat(ONE, Leading(b, 0)) + Digits(BigEndian(b))
  }

  method ReverseInPlace(a: array<byte>)
    modifies a
    ensures a[..] == Reverse(old(a[..]))
  {
    ghost var s := a[..];
    var n := a.Length;
    var i, j := 0, n - 1;
    while i < j
      invariant 0 <= i <= j + 1 && j == n - 1 - i
      invariant forall k | 0 <= k < i :: a[k] == s[n - 1 - k] && a[n - 1 - k] == s[k]
      invariant forall k | i <= k <= j :: a[k] == s[k]
    {
      a[i], a[j] := a[j], a[i];
      i, j := i + 1, j - 1;
    }
    assert forall k | 0 <= k < n :: a[k] == s[n - 1 - k];
  }

  lemma {:induction false} ReverseSnoc(s: seq<byte>, c: byte)
    ensures Reverse(s + [c]) == [c] + Reverse(s)
  {
  }

  method Base58Encode(b: seq<byte>) returns (s: seq<byte>)
    ensures s == Encode(b)
  {
    var x := BigEndian(b);
    if x == 0 { return [ONE]; }
    ghost var all := Digits(x);
    var out := TakeDigits(x);
    out := AppendOnes(b, out, all);
    var a := new byte[|out|](k requires 0 <= k < |out| => out[k]);
    assert a[..] == out;
    ReverseInPlace(a);
    return a[..];
  }

  /** The digits, least significant first. */
  method TakeDigits(n: nat) returns (out: seq<byte>)
    ensures Reverse(out) == Digits(n)
  {
    var x := n;
    out := [];
    ghost var all := Digits(x);
    while x > 0
      invariant Digits(x) + Reverse(out) == all
    {
      ReverseSnoc(out, DigitByte(x % 58));
      ghost var higher, digit := Digits(x / 58), DigitByte(x % 58);
      assert higher + [digit] + Reverse(out) == higher + ([digit] + Reverse(out));
      out := out + [DigitByte(x % 58)];
      x := x / 58;
    }
    assert Reverse(out) == all;
  }

  lemma {:induction false} OneMore(i: nat, all: seq<byte>)
    ensures Repeat(ONE, i + 1) + all == [ONE] + (Repeat(ONE, i) + all)
  {
  }

  method AppendOnes(b: seq<byte>, digits: seq<byte>, ghost all: seq<byte>) returns (out: seq<byte>)
    requires Reverse(digits) == all
    ensures Reverse(out) == Repeat(ONE, Leading(b, 0)) + all
  {
    out := digits;
    var i := 0;
    assert Repeat(ONE, 0) + all == all;
    while i < |b| && b[i] == 0
      invariant i <= |b| && i + Leading(b[i..], 0) == Leading(b, 0)
      invariant Reverse(out) == Repeat(ONE, i) + all
    {
      assert b[i..][1..] == b[i + 1..];
      ReverseSnoc(out, ONE);
      OneMore(i, all);
      out := out + [ONE];
      i := i + 1;
    }
  }

  // ---- round trips ----

  /** Decoding undoes encoding exactly when some byte is not zero, or there is one zero byte. */
  lemma {:induction false} DecodeUndoesEncode(b: seq<byte>)
    ensures Decode(Encode(b)) == Some(b) <==> BigEndian(b) != 0 || b == [0]
  {
    var n := Leading(b, 0);
    var rest := b[n..];
    SplitLeading(b, 0);
    BigEndianSkipsZeros(n, rest);
    DecodeIsPlain(Encode(b));
    if BigEndian(b) == 0 {
      ValueOfOnes(1);
      assert Encode(b) == Repeat(ONE, 1) == Repeat(ONE, 1) + [];
      LeadingOf(ONE, 1, []);
      assert Repeat(0, 1) + ToBytes(0) == [0];
      assert Decode(Encode(b)) == Some([0]);
    } else {
      EncodedValue(n, BigEndian(b));
      BytesOfValue(rest);
    }
  }

  lemma {:induction false} EncodedValue(n: nat, x: nat)
    requires x > 0
    ensures var s := Repeat(ONE, n) + Digits(x);
      AllDigits(s) && Value(s) == x && Leading(s, ONE) == n
  {
    DigitsHaveValue(x);
    ValueOfOnes(n);
    ValueAppend(Repeat(ONE, n), Digits(x));
    LeadingOf(ONE, n, Digits(x));
  }

  /** Some byte is not zero exactly when the number is not. */
  lemma {:induction false} NonZeroIff(b: seq<byte>)
    ensures BigEndian(b) != 0 <==> exists i :: 0 <= i < |b| && b[i] != 0
  {
    var n := Leading(b, 0);
    SplitLeading(b, 0);
    BigEndianSkipsZeros(n, b[n..]);
    BytesOfValue(b[n..]);
    if n < |b| { assert b[n] != 0; }
  }

  /** Encoding undoes decoding on every string of digits whose value is not zero. */
  lemma {:induction false} EncodeUndoesDecode(s: seq<byte>)
    requires AllDigits(s) && Value(s) != 0
    ensures Decode(s).Some? && Encode(Decode(s).value) == s
  {
    hide Table, ToBytes, Pow58, Digits, ChunksReadable, Decode;
    var n, x := Leading(s, ONE), Value(s);
    DecodeIsPlain(s);
    SplitLeading(s, ONE);
    ValueOfOnes(n);
    ValueAppend(Repeat(ONE, n), s[n..]);
    DigitsOfValue(s[n..]);
    BytesHaveValue(x);
    LeadingOf(0, n, ToBytes(x));
    BigEndianSkipsZeros(n, ToBytes(x));
  }
}
