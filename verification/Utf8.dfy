/** UTF-8 as the streaming relay sees it: the encoding form, the head scan that applies
    Table 3-7 of the Unicode Standard (section 3.9), and the replacing incremental decoder
    (`codecs` with errors="replace") whose only state is an incomplete tail. */
module Utf8 {
  import opened Strings = Text

  type Byte = b: int | 0 <= b < 0x100

  /** The most one read of a pipe yields. */
  const READ_CHUNK: nat := 65536

  const REPLACEMENT: char := '\U{FFFD}'

  /** A Unicode scalar value: a code point that is not a surrogate. */
  predicate IsScalar(n: int) {
    0 <= n < 0xD800 || 0xE000 <= n < 0x11_0000
  }

  // ---------------------------------------------------------------- encoding form

  /** RFC 3629 section 3: the one byte sequence of a scalar value. */
  function EncodeScalar(n: int): (s: seq<Byte>)
    requires IsScalar(n)
    ensures 1 <= |s| <= 4
  {
    if n < 0x80 then [n]
    else if n < 0x800 then [0xC0 + n / 64, 0x80 + n % 64]
    else if n < 0x1_0000 then [0xE0 + n / 4096, 0x80 + n / 64 % 64, 0x80 + n % 64]
    else [0xF0 + n / 26_2144, 0x80 + n / 4096 % 64, 0x80 + n / 64 % 64, 0x80 + n % 64]
  }

  /** Earlier in byte order: the first difference decides. */
  ghost predicate Precedes(a: seq<Byte>, b: seq<Byte>) {
    exists k: nat | k < |a| && k < |b| :: a[..k] == b[..k] && a[k] < b[k]
  }

  lemma FirstDiffers(a: seq<Byte>, b: seq<Byte>, k: nat)
    requires k < |a| && k < |b| && a[k] < b[k] && forall i | 0 <= i < k :: a[i] == b[i]
    ensures Precedes(a, b)
  {
    assert a[..k] == b[..k];
  }

  /** Base-64 digits compare from the left. */
  lemma Base64Order(m: int, n: int)
    requires 0 <= m < n
    ensures m / 64 < n / 64 || (m / 64 == n / 64 && m % 64 < n % 64)
    ensures m / 64 / 64 == m / 4096 && m / 64 / 64 / 64 == m / 26_2144
    ensures n / 64 / 64 == n / 4096 && n / 64 / 64 / 64 == n / 26_2144
  {
  }

  function FirstByte(n: int): int
    requires IsScalar(n)
  {
    if n < 0x80 then n else if n < 0x800 then 0xC0 + n / 64
    else if n < 0x1_0000 then 0xE0 + n / 4096 else 0xF0 + n / 26_2144
  }

  lemma LongerLater(m: int, n: int)
    requires IsScalar(m) && IsScalar(n) && m < n && |EncodeScalar(m)| != |EncodeScalar(n)|
    ensures EncodeScalar(m)[0] < EncodeScalar(n)[0]
  {
    assert EncodeScalar(m)[0] == FirstByte(m) && EncodeScalar(n)[0] == FirstByte(n);
  }

  /** RFC 3629 section 1: byte order of the encodings is the order of the characters. */
  lemma EncodingKeepsOrder(m: int, n: int)
    requires IsScalar(m) && IsScalar(n) && m < n
    ensures Precedes(EncodeScalar(m), EncodeScalar(n))
  {
    var a, b := EncodeScalar(m), EncodeScalar(n);
    if |a| != |b| {
      LongerLater(m, n);
      FirstDiffers(a, b, 0);
    } else if |a| == 1 {
      FirstDiffers(a, b, 0);
    } else {
      Base64Order(m, n);
      if m / 64 == n / 64 {
        SameFront(m, n);
        FirstDiffers(a, b, |a| - 1);
      } else {
        OrderInFront(m, n);
      }
    }
  }

  lemma SameFront(m: int, n: int)
    requires IsScalar(m) && IsScalar(n) && |EncodeScalar(m)| == |EncodeScalar(n)| > 1
    requires m / 64 == n / 64 && m % 64 < n % 64 && m / 4096 == n / 4096 && m / 26_2144 == n / 26_2144
    ensures var (a, b) := (EncodeScalar(m), EncodeScalar(n));
            a[|a| - 1] < b[|a| - 1] && forall i | 0 <= i < |a| - 1 :: a[i] == b[i]
  {
  }

  /** The bytes before the last one, by the digits of n / 64. */
  lemma BytesByDigits(n: int)
    requires IsScalar(n)
    ensures var (s, f) := (EncodeScalar(n), n / 64);
            && (|s| == 2 ==> s[0] == 0xC0 + f)
            && (|s| == 3 ==> s[0] == 0xE0 + f / 64 && s[1] == 0x80 + f % 64)
            && (|s| == 4 ==> s[0] == 0xF0 + f / 64 / 64 && s[1] == 0x80 + f / 64 % 64 && s[2] == 0x80 + f % 64)
  {
    assert n / 64 / 64 == n / 4096 && n / 4096 / 64 == n / 26_2144;
  }

  /** Bytes `base + x` compare as their digits do. */
  lemma TwoBytesDecide(a: seq<Byte>, b: seq<Byte>, k: nat, x: int, y: int, base: int)
    requires k + 1 < |a| && k + 1 < |b| && (forall i | 0 <= i < k :: a[i] == b[i])
    requires a[k] == base + x && b[k] == base + y && (x < y || (x == y && a[k + 1] < b[k + 1]))
    ensures Precedes(a, b)
  {
    FirstDiffers(a, b, if x < y then k else k + 1);
  }

  lemma OrderInFront(m: int, n: int)
    requires IsScalar(m) && IsScalar(n) && |EncodeScalar(m)| == |EncodeScalar(n)| > 1 && m / 64 < n / 64
    ensures Precedes(EncodeScalar(m), EncodeScalar(n))
  {
    var a, b := EncodeScalar(m), EncodeScalar(n);
    BytesByDigits(m);
    BytesByDigits(n);
    hide EncodeScalar, Precedes;
    match |a|
    case 2 => FirstDiffers(a, b, 0);
    case 3 => OrderInThree(a, b, m / 64, n / 64);
    case _ => OrderInFour(a, b, m / 64, n / 64);
  }

  lemma OrderInThree(a: seq<Byte>, b: seq<Byte>, f: int, g: int)
    requires |a| == 3 && |b| == 3 && 0 <= f < g
    requires a[0] == 0xE0 + f / 64 && a[1] == 0x80 + f % 64 && b[0] == 0xE0 + g / 64 && b[1] == 0x80 + g % 64
    ensures Precedes(a, b)
  {
    hide Precedes;
    Base64Order(f, g);
    TwoBytesDecide(a, b, 0, f / 64, g / 64, 0xE0);
  }

  lemma OrderInFour(a: seq<Byte>, b: seq<Byte>, f: int, g: int)
    requires |a| == 4 && |b| == 4 && 0 <= f < g
    requires a[0] == 0xF0 + f / 64 / 64 && a[1] == 0x80 + f / 64 % 64 && a[2] == 0x80 + f % 64
    requires b[0] == 0xF0 + g / 64 / 64 && b[1] == 0x80 + g / 64 % 64 && b[2] == 0x80 + g % 64
    ensures Precedes(a, b)
  {
    hide Precedes;
    Base64Order(f, g);
    if f / 64 == g / 64 {
      FirstDiffers(a, b, 2);
    } else {
      Base64Order(f / 64, g / 64);
      TwoBytesDecide(a, b, 0, f / 64 / 64, g / 64 / 64, 0xF0);
    }
  }

  /** RFC 3629 sections 3 and 7: the ends of the four ranges, and the examples. */
  lemma EncodingExamples()
    ensures EncodeScalar(0) == [0] && EncodeScalar(0x7F) == [0x7F]
    ensures EncodeScalar(0x80) == [0xC2, 0x80] && EncodeScalar(0x7FF) == [0xDF, 0xBF]
    ensures EncodeScalar(0x800) == [0xE0, 0xA0, 0x80] && EncodeScalar(0xFFFF) == [0xEF, 0xBF, 0xBF]
    ensures EncodeScalar(0xD7FF) == [0xED, 0x9F, 0xBF] && EncodeScalar(0xE000) == [0xEE, 0x80, 0x80]
    ensures EncodeScalar(0x1_0000) == [0xF0, 0x90, 0x80, 0x80] && EncodeScalar(0x10_FFFF) == [0xF4, 0x8F, 0xBF, 0xBF]
    ensures EncodeScalar(0x2262) == [0xE2, 0x89, 0xA2] && EncodeScalar(0x391) == [0xCE, 0x91]
    ensures EncodeScalar(0x2_33B4) == [0xF0, 0xA3, 0x8E, 0xB4]
  {
  }

  function EncodeChar(c: char): (s: seq<Byte>)
    ensures 1 <= |s| <= 4
  {
    EncodeScalar(c as int)
  }

  function Encode(text: string): seq<Byte> {
    if text == "" then [] else EncodeChar(text[0]) + Encode(text[1..])
  }

  /** A sequence is well-formed when it encodes one scalar value. */
  ghost predicate WellFormed(s: seq<Byte>) {
    exists c: char :: s == EncodeChar(c)
  }

  /** A proper initial subsequence of a well-formed sequence. */
  ghost predicate Initial(s: seq<Byte>) {
    s != [] && exists c: char :: s < EncodeChar(c)
  }

  // ---------------------------------------------------------------- head scan

  /** What stands at the head of a byte sequence. */
  datatype Head =
    | Char(c: char, size: nat)   // a well-formed sequence of `size` bytes
    | Bad(size: nat)             // an ill-formed maximal subpart of `size` bytes
    | Partial                    // everything present may still become a character

  /** Length of the sequences that start with `b`; 0 for a byte that starts none. */
  function SequenceLength(b: Byte): nat {
    if b < 0x80 then 1
    else if 0xC2 <= b <= 0xDF then 2
    else if 0xE0 <= b <= 0xEF then 3
    else if 0xF0 <= b <= 0xF4 then 4
    else 0
  }

  predicate Continuation(b: Byte) { 0x80 <= b <= 0xBF }

  /** The restricted second-byte ranges of Table 3-7. */
  predicate SecondByte(first: Byte, b: Byte) {
    if first == 0xE0 then 0xA0 <= b <= 0xBF
    else if first == 0xED then 0x80 <= b <= 0x9F
    else if first == 0xF0 then 0x90 <= b <= 0xBF
    else if first == 0xF4 then 0x80 <= b <= 0x8F
    else Continuation(b)
  }

  /** Payload bits of a two-, three- and four-byte sequence (Table 3-6). */
  function Two(a: int, b: int): int { (a - 0xC0) * 64 + (b - 0x80) }

  function Three(a: int, b: int, c: int): int { (a - 0xE0) * 4096 + (b - 0x80) * 64 + (c - 0x80) }

  function Four(a: int, b: int, c: int, d: int): int {
    (a - 0xF0) * 26_2144 + (b - 0x80) * 4096 + (c - 0x80) * 64 + (d - 0x80)
  }

  function Scan(s: seq<Byte>): (h: Head)
    requires s != []
    ensures !h.Partial? ==> 1 <= h.size <= |s| && h.size <= 4
    ensures h.Partial? ==> |s| <= 3
  {
    var n := SequenceLength(s[0]);
    if n == 0 then Bad(1)
    else if n == 1 then Char(s[0] as char, 1)
    else if |s| == 1 then Partial
    else if !SecondByte(s[0], s[1]) then Bad(1)
    else if n == 2 then Char(Two(s[0], s[1]) as char, 2)
    else if |s| == 2 then Partial
    else if !Continuation(s[2]) then Bad(2)
    else if n == 3 then Char(Three(s[0], s[1], s[2]) as char, 3)
    else if |s| == 3 then Partial
    else if !Continuation(s[3]) then Bad(3)
    else Char(Four(s[0], s[1], s[2], s[3]) as char, 4)
  }

  /** Later bytes never change a decided head. */
  lemma ScanStable(a: seq<Byte>, b: seq<Byte>)
    requires a != []
    ensures !Scan(a).Partial? ==> Scan(a + b) == Scan(a)
  {
    assert forall i | 0 <= i < |a| :: (a + b)[i] == a[i];
  }

  // Base-64 digits of a number, and the number back from its digits.

  lemma Digits2(a: int, b: int)
    requires 0 <= b < 64
    ensures (a * 64 + b) / 64 == a && (a * 64 + b) % 64 == b
  {
  }

  lemma Digits3(a: int, b: int, c: int)
    requires 0 <= b < 64 && 0 <= c < 64
    ensures var n := a * 4096 + b * 64 + c; n / 4096 == a && n / 64 % 64 == b && n % 64 == c
  {
    Digits2(a * 64 + b, c);
    Digits2(a, b);
  }

  lemma Digits4(a: int, b: int, c: int, d: int)
    requires 0 <= b < 64 && 0 <= c < 64 && 0 <= d < 64
    ensures var n := a * 26_2144 + b * 4096 + c * 64 + d;
            n / 26_2144 == a && n / 4096 % 64 == b && n / 64 % 64 == c && n % 64 == d
  {
    Digits3(a * 64 + b, c, d);
    Digits2(a, b);
  }

  /** The scan accepts the encoding of every character ... */
  lemma ScanOfEncoding(c: char, rest: seq<Byte>)
    ensures Scan(EncodeChar(c) + rest) == Char(c, |EncodeChar(c)|)
  {
    var n, s := c as int, EncodeChar(c);
    assert forall i | 0 <= i < |s| :: (s + rest)[i] == s[i];
    if 0x800 <= n {
      assert n / 64 / 64 == n / 4096;
    }
    if 0x1_0000 <= n {
      assert n / 4096 / 64 == n / 26_2144;
    }
  }

  lemma TwoByteEncoding(s: seq<Byte>)
    requires s != [] && Scan(s).Char? && Scan(s).size == 2
    ensures EncodeChar(Scan(s).c) == [s[0], s[1]]
  {
    Digits2(s[0] - 0xC0, s[1] - 0x80);
  }

  lemma ThreeByteEncoding(s: seq<Byte>)
    requires s != [] && Scan(s).Char? && Scan(s).size == 3
    ensures EncodeChar(Scan(s).c) == [s[0], s[1], s[2]]
  {
    var n := Three(s[0], s[1], s[2]);
    assert Scan(s).c as int == n && 0x800 <= n < 0x1_0000;
    hide Scan, Three;
    Digits3(s[0] - 0xE0, s[1] - 0x80, s[2] - 0x80);
  }

  lemma FourByteEncoding(s: seq<Byte>)
    requires s != [] && Scan(s).Char? && Scan(s).size == 4
    ensures EncodeChar(Scan(s).c) == [s[0], s[1], s[2], s[3]]
  {
    var n := Four(s[0], s[1], s[2], s[3]);
    assert Scan(s).c as int == n >= 0x1_0000;
    hide Scan, Four;
    Digits4(s[0] - 0xF0, s[1] - 0x80, s[2] - 0x80, s[3] - 0x80);
  }

  /** ... and nothing but encodings: the converse of ScanOfEncoding. */
  lemma ScanCharIsEncoding(s: seq<Byte>)
    requires s != [] && Scan(s).Char?
    ensures s[..Scan(s).size] == EncodeChar(Scan(s).c)
  {
    if Scan(s).size == 1 {
    } else {
      hide EncodeChar;
      match Scan(s).size
      case 2 => TwoByteEncoding(s);
      case 3 => ThreeByteEncoding(s);
      case _ => FourByteEncoding(s);
    }
  }

  /** Some bytes that complete a partial head. */
  function Completion(s: seq<Byte>): seq<Byte>
    requires s != [] && Scan(s).Partial?
  {
    var second: Byte := if s[0] == 0xE0 then 0xA0 else if s[0] == 0xF0 then 0x90 else 0x80;
    var full := if |s| == 1 then [second, 0x80, 0x80] else if |s| == 2 then [0x80, 0x80] else [0x80];
    full[..SequenceLength(s[0]) - |s|]
  }

  lemma SomethingMissing(s: seq<Byte>)
    requires s != [] && Scan(s).Partial?
    ensures Completion(s) != []
  {
  }

  lemma CompletionCompletes(s: seq<Byte>)
    requires s != [] && Scan(s).Partial?
    ensures var full := s + Completion(s); Scan(full).Char? && Scan(full).size == |full|
  {
    var full := s + Completion(s);
    assert |full| == SequenceLength(s[0]);
    assert forall i | 0 <= i < |s| :: full[i] == s[i];
    assert forall i | 0 <= i < |Completion(s)| :: full[|s| + i] == Completion(s)[i];
    assert SecondByte(full[0], full[1]);
    assert |full| >= 3 ==> Continuation(full[2]);
    assert |full| >= 4 ==> Continuation(full[3]);
  }

  /** A head is kept waiting exactly when it is a proper initial subsequence of a character. */
  lemma PartialIffInitial(s: seq<Byte>)
    requires s != []
    ensures Scan(s).Partial? <==> Initial(s)
  {
    hide Scan, EncodeChar, Completion;
    if Scan(s).Partial? {
      var full := s + Completion(s);
      CompletionCompletes(s);
      SomethingMissing(s);
      ScanCharIsEncoding(full);
      assert full[..|full|] == full;
      assert s < EncodeChar(Scan(full).c);
    }
    forall c: char | s < EncodeChar(c) ensures Scan(s).Partial? {
      var e := EncodeChar(c);
      ScanOfEncoding(c, []);
      assert e + [] == e && s + e[|s|..] == e;
      ScanStable(s, e[|s|..]);
    }
  }

  /** Section 3.9 of the Unicode Standard, maximal subpart: an ill-formed head has no
      well-formed prefix, is a single byte or an initial subsequence, and no longer
      prefix is an initial subsequence. */
  lemma BadIsMaximalSubpart(s: seq<Byte>)
    requires s != [] && Scan(s).Bad?
    ensures forall k | 1 <= k <= |s| :: !WellFormed(s[..k])
    ensures Scan(s).size == 1 || Initial(s[..Scan(s).size])
    ensures forall k | Scan(s).size < k <= |s| :: !Initial(s[..k])
  {
    var n := Scan(s).size;
    forall c: char, k | 1 <= k <= |s| ensures s[..k] != EncodeChar(c) {
      assert s[..k] + s[k..] == s;
      ScanOfEncoding(c, s[k..]);
    }
    if n > 1 {
      PartialIffInitial(s[..n]);
    }
    forall k | n < k <= |s| ensures !Initial(s[..k]) {
      PartialIffInitial(s[..k]);
    }
  }

  // ---------------------------------------------------------------- decoding

  /** Decoded text and the bytes still waiting for more input. */
  datatype Decoded = Decoded(text: string, rest: seq<Byte>)

  function Prepend(c: char, d: Decoded): Decoded { Decoded([c] + d.text, d.rest) }

  /** One decode call over everything available: each ill-formed maximal subpart becomes one
      replacement character; an incomplete tail waits, or is replaced when `final`. */
  function Decode(s: seq<Byte>, final: bool): (d: Decoded)
    ensures |d.rest| <= 3
    ensures final ==> d.rest == []
  {
    if s == [] then Decoded("", [])
    else match Scan(s)
      case Char(c, n) => Prepend(c, Decode(s[n..], final))
      case Bad(n) => Prepend(REPLACEMENT, Decode(s[n..], final))
      case Partial => if final then Decoded([REPLACEMENT], []) else Decoded("", s)
  }

  /** The text of a complete byte sequence, as `bytes.decode("utf-8", "replace")`. */
  function Text(s: seq<Byte>): string { Decode(s, true).text }

  /** Decoding text that was encoded gives the text back. */
  lemma {:induction false} DecodeOfEncode(text: string, final: bool)
    ensures Decode(Encode(text), final) == Decoded(text, [])
  {
    if text != "" {
      var e := EncodeChar(text[0]);
      ScanOfEncoding(text[0], Encode(text[1..]));
      assert (e + Encode(text[1..]))[|e|..] == Encode(text[1..]);
      DecodeOfEncode(text[1..], final);
      assert [text[0]] + text[1..] == text;
    }
  }

  // The decoder by the encoding form alone: three laws, and that they leave no choice.

  /** A well-formed head is its character. */
  lemma DecodeWellFormedHead(c: char, rest: seq<Byte>, final: bool)
    ensures var d := Decode(rest, final);
            Decode(EncodeChar(c) + rest, final) == Decoded([c] + d.text, d.rest)
  {
    ScanOfEncoding(c, rest);
    assert (EncodeChar(c) + rest)[|EncodeChar(c)|..] == rest;
  }

  /** The maximal subpart of section 3.9 of the Unicode Standard at an ill-formed head: no prefix is
      well-formed, the whole cannot become so, and `n` bytes are the longest initial subsequence, or one
      byte if there is none. */
  ghost predicate IllFormedHead(s: seq<Byte>, n: nat) {
    && 1 <= n <= |s|
    && !Initial(s)
    && (forall k | 1 <= k <= |s| :: !WellFormed(s[..k]))
    && (n == 1 || Initial(s[..n]))
    && (forall k | n < k <= |s| :: !Initial(s[..k]))
  }

  lemma OneMaximalSubpart(s: seq<Byte>, m: nat, n: nat)
    requires IllFormedHead(s, m) && IllFormedHead(s, n)
    ensures m == n
  {
  }

  /** The scan finds the well-formed head or the maximal subpart. */
  lemma ScanFinds(s: seq<Byte>)
    requires s != []
    ensures Scan(s).Char? ==> WellFormed(s[..Scan(s).size])
    ensures Scan(s).Bad? ==> IllFormedHead(s, Scan(s).size)
  {
    PartialIffInitial(s);
    if Scan(s).Char? {
      ScanCharIsEncoding(s);
    }
    if Scan(s).Bad? {
      BadIsMaximalSubpart(s);
    }
  }

  lemma IllFormedIsBad(s: seq<Byte>, n: nat)
    requires IllFormedHead(s, n)
    ensures Scan(s) == Bad(n)
  {
    PartialIffInitial(s);
    ScanFinds(s);
    if Scan(s).Bad? {
      OneMaximalSubpart(s, Scan(s).size, n);
    }
  }

  /** The whole maximal subpart becomes one replacement character, and decoding goes on behind it. */
  lemma DecodeIllFormedHead(s: seq<Byte>, n: nat, final: bool)
    requires IllFormedHead(s, n)
    ensures var d := Decode(s[n..], final);
            Decode(s, final) == Decoded(['\U{FFFD}'] + d.text, d.rest)
  {
    IllFormedIsBad(s, n);
  }

  /** What may still become a character waits, or is one replacement character at the end. */
  lemma DecodeInitial(s: seq<Byte>, final: bool)
    requires Initial(s)
    ensures Decode(s, final) == if final then Decoded(['\U{FFFD}'], []) else Decoded("", s)
  {
    PartialIffInitial(s);
  }

  /** Every input falls under one of the laws. */
  lemma EveryHead(s: seq<Byte>) returns (n: nat)
    requires s != [] && !Initial(s)
    ensures 1 <= n <= |s| && (WellFormed(s[..n]) || IllFormedHead(s, n))
  {
    PartialIffInitial(s);
    ScanFinds(s);
    n := Scan(s).size;
  }

  type Decoder = (seq<Byte>, bool) -> Decoded

  /** The three laws, of any decoder. */
  ghost predicate Lawful(decode: Decoder) {
    && (forall final :: decode([], final) == Decoded("", []))
    && (forall c: char, rest, final ::
          decode(EncodeChar(c) + rest, final) == Decoded([c] + decode(rest, final).text, decode(rest, final).rest))
    && (forall s, n: nat, final | IllFormedHead(s, n) ::
          decode(s, final) == Decoded(['\U{FFFD}'] + decode(s[n..], final).text, decode(s[n..], final).rest))
    && (forall s, final | Initial(s) ::
          decode(s, final) == if final then Decoded(['\U{FFFD}'], []) else Decoded("", s))
  }

  lemma DecodeIsLawful()
    ensures Lawful((s, final) => Decode(s, final))
  {
    hide Decode, EncodeChar, Initial;
    var decode: Decoder := (s, final) => Decode(s, final);
    DecodeNothing();
    forall c: char, rest: seq<Byte>, final: bool
      ensures decode(EncodeChar(c) + rest, final) == Decoded([c] + decode(rest, final).text, decode(rest, final).rest)
    {
      DecodeWellFormedHead(c, rest, final);
    }
    forall s: seq<Byte>, n: nat, final: bool | IllFormedHead(s, n)
      ensures decode(s, final) == Decoded(['\U{FFFD}'] + decode(s[n..], final).text, decode(s[n..], final).rest)
    {
      DecodeIllFormedHead(s, n, final);
    }
    forall s: seq<Byte>, final: bool | Initial(s)
      ensures decode(s, final) == if final then Decoded(['\U{FFFD}'], []) else Decoded("", s)
    {
      DecodeInitial(s, final);
    }
  }

  lemma DecodeNothing()
    ensures forall final :: Decode([], final) == Decoded("", [])
  {
  }

  /** There is no other decoder with these laws. */
  lemma {:induction false} LawsDetermineDecode(decode: Decoder, s: seq<Byte>, final: bool)
    requires Lawful(decode)
    ensures decode(s, final) == Decode(s, final)
    decreases |s|
  {
    if s == [] {
      DecodeNothing();
    } else if Initial(s) {
      DecodeInitial(s, final);
    } else {
      var n := EveryHead(s);
      LawsDetermineDecode(decode, s[n..], final);
      if IllFormedHead(s, n) {
        hide Decode, IllFormedHead, Initial;
        DecodeIllFormedHead(s, n, final);
      } else {
        var c: char :| s[..n] == EncodeChar(c);
        assert s == EncodeChar(c) + s[n..];
        hide Decode, EncodeChar, IllFormedHead, Initial;
        DecodeWellFormedHead(c, s[n..], final);
      }
    }
  }

  /** The undecoded rest is a waiting initial subsequence and the text never depends on what
      comes later: decoding `a + b` is decoding `a`, then decoding its rest followed by `b`. */
  lemma {:induction false} DecodeConcat(a: seq<Byte>, b: seq<Byte>, final: bool)
    ensures var d := Decode(a, false);
            var e := Decode(d.rest + b, final);
            Decode(a + b, final) == Decoded(d.text + e.text, e.rest)
  {
    hide Scan;
    if a == [] {
      assert [] + b == b;
    } else if Scan(a).Partial? {
      assert "" + Decode(a + b, final).text == Decode(a + b, final).text;
    } else {
      ScanStable(a, b);
      var n := Scan(a).size;
      assert (a + b)[n..] == a[n..] + b;
      DecodeConcat(a[n..], b, final);
      var c := if Scan(a).Char? then Scan(a).c else REPLACEMENT;
      var d := Decode(a[n..], false);
      var e := Decode(d.rest + b, final);
      assert [c] + (d.text + e.text) == ([c] + d.text) + e.text;
    }
  }

  /** What an incremental decoder may hold between calls. */
  predicate Waiting(buffer: seq<Byte>) { buffer == [] || Scan(buffer).Partial? }

  lemma {:induction false} RestIsWaiting(s: seq<Byte>, final: bool)
    ensures Waiting(Decode(s, final).rest)
  {
    if s != [] && !Scan(s).Partial? {
      RestIsWaiting(s[Scan(s).size..], final);
    }
  }

  /** Nothing decodes from a waiting buffer, and flushing it yields at most one replacement
      character. */
  lemma WaitingFlush(buffer: seq<Byte>)
    requires Waiting(buffer)
    ensures |buffer| <= 3
    ensures Decode(buffer, false) == Decoded("", buffer)
    ensures Text(buffer) == if buffer == [] then "" else [REPLACEMENT]
  {
  }

  /** Every decoded character accounts for one to four bytes. */
  lemma {:induction false} DecodeBytesPerChar(s: seq<Byte>)
    ensures var d := Decode(s, false);
            |d.text| <= |s| - |d.rest| <= 4 * |d.text|
  {
    if s != [] && !Scan(s).Partial? {
      DecodeBytesPerChar(s[Scan(s).size..]);
    }
  }

  // ---------------------------------------------------------------- incremental decoding

  function Join(pieces: seq<seq<Byte>>): seq<Byte> {
    if pieces == [] then [] else pieces[0] + Join(pieces[1..])
  }

  /** The text an incremental decoder returns for each piece, starting from `buffer`. */
  function Feed(buffer: seq<Byte>, pieces: seq<seq<Byte>>): Decoded
    decreases |pieces|
  {
    if pieces == [] then Decoded("", buffer)
    else
      var d := Decode(buffer + pieces[0], false);
      var e := Feed(d.rest, pieces[1..]);
      Decoded(d.text + e.text, e.rest)
  }

  /** One more piece, with the result of the pieces after it already known. */
  lemma FeedStep(head: seq<Byte>, more: seq<Byte>, e: Decoded)
    requires e == Decode(Decode(head, false).rest + more, false)
    ensures Decode(head + more, false) == Decoded(Decode(head, false).text + e.text, e.rest)
  {
    DecodeConcat(head, more, false);
  }

  /** Cutting the input anywhere changes neither the text nor the waiting bytes. */
  lemma {:induction false} FeedIsDecode(buffer: seq<Byte>, pieces: seq<seq<Byte>>)
    requires Waiting(buffer)
    ensures Feed(buffer, pieces) == Decode(buffer + Join(pieces), false)
    decreases |pieces|
  {
    hide Scan, Decode;
    if pieces == [] {
      WaitingFlush(buffer);
      assert buffer + Join(pieces) == buffer;
    } else {
      var head, tail := buffer + pieces[0], pieces[1..];
      RestIsWaiting(head, false);
      var rest := Decode(head, false).rest;
      FeedIsDecode(rest, tail);
      FeedStep(head, Join(tail), Feed(rest, tail));
      assert buffer + Join(pieces) == head + Join(tail);
    }
  }

  /** Partition independence: feeding any cutting of the bytes to a fresh decoder and then
      flushing gives the text of decoding them in one call. */
  lemma PartitionIndependent(pieces: seq<seq<Byte>>)
    ensures var d := Feed([], pieces);
            d.text + Text(d.rest) == Text(Join(pieces)) && |d.rest| <= 3
  {
    FeedIsDecode([], pieces);
    assert [] + Join(pieces) == Join(pieces);
    DecodeConcat(Join(pieces), [], true);
    assert Join(pieces) + [] == Join(pieces);
    var d := Decode(Join(pieces), false);
    assert d.rest + [] == d.rest;
  }

  // ---------------------------------------------------------------- the prompt

  /** A character of a string that came from JSON: any code point, lone surrogates included. */
  type CodePoint = n: int | 0 <= n < 0x11_0000

  predicate Encodable(prompt: seq<CodePoint>) { forall i | 0 <= i < |prompt| :: IsScalar(prompt[i]) }

  /** `prompt.encode("utf-8")`, which raises on a surrogate. */
  function EncodeStrict(prompt: seq<CodePoint>): Option<seq<Byte>> {
    if prompt == [] then Some([])
    else if !IsScalar(prompt[0]) then None
    else
      var rest := EncodeStrict(prompt[1..]);
      if rest.None? then None else Some(EncodeScalar(prompt[0]) + rest.value)
  }

  /** The same with errors="replace", as a text-mode pipe encodes: a question mark for a surrogate. */
  function EncodeReplacing(prompt: seq<CodePoint>): seq<Byte> {
    if prompt == [] then []
    else (if IsScalar(prompt[0]) then EncodeScalar(prompt[0]) else ['?' as int]) + EncodeReplacing(prompt[1..])
  }

  /** The two transports hand the child the same bytes exactly when the prompt can be encoded. */
  lemma {:induction false} EncodingsAgree(prompt: seq<CodePoint>)
    ensures EncodeStrict(prompt) == (if Encodable(prompt) then Some(EncodeReplacing(prompt)) else None)
  {
    if prompt != [] {
      EncodingsAgree(prompt[1..]);
      if IsScalar(prompt[0]) {
        assert Encodable(prompt) <==> Encodable(prompt[1..]) by {
          assert prompt == [prompt[0]] + prompt[1..];
        }
      }
    }
  }

  /** Text-mode encoding goes character by character, and a surrogate becomes a question mark. */
  lemma {:induction false} ReplacingIsPointwise(a: seq<CodePoint>, b: seq<CodePoint>)
    ensures EncodeReplacing(a + b) == EncodeReplacing(a) + EncodeReplacing(b)
    ensures forall n: CodePoint :: EncodeReplacing([n]) == if 0xD800 <= n < 0xE000 then [0x3F] else EncodeScalar(n)
  {
    forall n: CodePoint
      ensures EncodeReplacing([n]) == if 0xD800 <= n < 0xE000 then [0x3F] else EncodeScalar(n)
    {
      assert [n][1..] == [];
    }
    if a == [] {
      assert a + b == b;
    } else {
      ReplacingIsPointwise(a[1..], b);
      Append(a, b);
      Regroup(if IsScalar(a[0]) then EncodeScalar(a[0]) else ['?' as int], EncodeReplacing(a[1..]), EncodeReplacing(b));
    }
  }

  /** The text of a string, with a stand-in for each surrogate. */
  function Shown(s: seq<CodePoint>): string {
    if s == [] then "" else [if IsScalar(s[0]) then s[0] as char else REPLACEMENT] + Shown(s[1..])
  }

  /** What the child reads of such a prompt decodes to the prompt. */
  lemma {:induction false} PromptArrives(prompt: seq<CodePoint>)
    requires Encodable(prompt)
    ensures Decode(EncodeReplacing(prompt), true) == Decoded(Shown(prompt), [])
  {
    PromptIsText(prompt);
    DecodeOfEncode(Shown(prompt), true);
  }

  lemma {:induction false} PromptIsText(prompt: seq<CodePoint>)
    requires Encodable(prompt)
    ensures EncodeReplacing(prompt) == Encode(Shown(prompt))
  {
    if prompt != [] {
      PromptIsText(prompt[1..]);
      var text := Shown(prompt);
      assert text[1..] == Shown(prompt[1..]);
    }
  }

  // ---------------------------------------------------------------- names of files and variables

  /** What the file system encoding (UTF-8 with surrogateescape) accepts: of the surrogates, only those
      that stand for an undecodable byte. */
  predicate FileSystemText(s: seq<CodePoint>) {
    forall i | 0 <= i < |s| :: IsScalar(s[i]) || 0xDC80 <= s[i] <= 0xDCFF
  }

  /** What may be passed as a path at all; anything else raises before any file is touched. */
  predicate FileSystemPath(s: seq<CodePoint>) { FileSystemText(s) && 0 !in s }
}
