/**
 Percent-encoded UTF-8, as printed by `quote(s, "!#$&+-.^_`|~", "utf-8")` and read according
 to section 3.2 of RFC 5987 (value-chars) and RFC 3629 (UTF-8, no overlong forms).
 */
module Percent {
  import opened Text

  // ---------------------------------------------------------------- UTF-8

  function Utf8(c: char): seq<Byte> {
    var n := c as int;
    if n < 0x80 then [n]
    else if n < 0x800 then [0xC0 + n / 64, 0x80 + n % 64]
    else if n < 0x10000 then [0xE0 + n / 4096, 0x80 + n / 64 % 64, 0x80 + n % 64]
    else [0xF0 + n / 262144, 0x80 + n / 4096 % 64, 0x80 + n / 64 % 64, 0x80 + n % 64]
  }

  function Utf8All(s: string): seq<Byte> {
    if s == "" then [] else Utf8(s[0]) + Utf8All(s[1..])
  }

  predicate Continues(b: seq<Byte>, i: nat) {
    i < |b| && 0x80 <= b[i] < 0xC0
  }

  /** The number `b[..n]` stands for, `lead` being the payload of the first octet. */
  function Payload(b: seq<Byte>, lead: nat, n: nat): Option<nat>
    requires 1 <= n
    decreases n
  {
    if n == 1 then Some(lead)
    else if !Continues(b, 1) then None
    else Payload(b[1..], lead * 64 + (b[1] - 0x80), n - 1)
  }

  /** The length announced by a leading octet; 0 when no sequence starts with it. */
  function Announced(b: Byte): nat {
    if b < 0x80 then 1
    else if b < 0xC0 then 0
    else if b < 0xE0 then 2
    else if b < 0xF0 then 3
    else if b < 0xF8 then 4
    else 0
  }

  function Lead(b: Byte): nat {
    if b < 0x80 then b
    else if b < 0xE0 then b % 0x20
    else if b < 0xF0 then b % 0x10
    else b % 8
  }

  /** The shortest form is the only one. */
  predicate Shortest(v: nat, n: nat) {
    if v < 0x80 then n == 1
    else if v < 0x800 then n == 2
    else if v < 0x10000 then n == 3 && !(0xD800 <= v < 0xE000)
    else n == 4 && v < 0x110000
  }

  /** Strict UTF-8 decoding. */
  function FromUtf8(b: seq<Byte>): Option<string>
    decreases |b|
  {
    if b == [] then Some("")
    else
      var n := Announced(b[0]);
      if n == 0 || n > |b| then None
      else
        var v := Payload(b, Lead(b[0]), n);
        if v.None? || !Shortest(v.value, n) then None
        else Prepend([v.value as char], FromUtf8(b[n..]))
  }

  lemma PayloadOne(b: seq<Byte>, lead: nat, x: nat, n: nat)
    requires n >= 2 && |b| >= 2 && b[1] == 0x80 + x && x < 64
    ensures Payload(b, lead, n) == Payload(b[1..], lead * 64 + x, n - 1)
  {
  }

  lemma Digits64(n: nat)
    ensures n / 64 * 64 + n % 64 == n
    ensures n / 4096 * 64 + n / 64 % 64 == n / 64
    ensures n / 262144 * 64 + n / 4096 % 64 == n / 4096
  {
  }

  lemma Payload2(b: seq<Byte>, n: nat)
    requires 0x80 <= n < 0x800 && |b| >= 2 && b[0] == 0xC0 + n / 64 && b[1] == 0x80 + n % 64
    ensures Announced(b[0]) == 2 && Payload(b, Lead(b[0]), 2) == Some(n)
  {
    Digits64(n);
    PayloadOne(b, n / 64, n % 64, 2);
  }

  lemma Payload3(b: seq<Byte>, n: nat)
    requires 0x800 <= n < 0x10000 && |b| >= 3
    requires b[0] == 0xE0 + n / 4096 && b[1] == 0x80 + n / 64 % 64 && b[2] == 0x80 + n % 64
    ensures Announced(b[0]) == 3 && Payload(b, Lead(b[0]), 3) == Some(n)
  {
    Digits64(n);
    PayloadOne(b, n / 4096, n / 64 % 64, 3);
    PayloadOne(b[1..], n / 64, n % 64, 2);
  }

  lemma Payload4(b: seq<Byte>, n: nat)
    requires 0x10000 <= n < 0x110000 && |b| >= 4
    requires b[0] == 0xF0 + n / 262144 && b[1] == 0x80 + n / 4096 % 64
    requires b[2] == 0x80 + n / 64 % 64 && b[3] == 0x80 + n % 64
    ensures Announced(b[0]) == 4 && Payload(b, Lead(b[0]), 4) == Some(n)
  {
    Digits64(n);
    PayloadOne(b, n / 262144, n / 4096 % 64, 4);
    PayloadOne(b[1..], n / 4096, n / 64 % 64, 3);
    PayloadOne(b[1..][1..], n / 64, n % 64, 2);
  }

  lemma HeadOfUtf8(c: char, tail: seq<Byte>)
    ensures var b := Utf8(c) + tail; var n := |Utf8(c)|;
            Announced(b[0]) == n && Payload(b, Lead(b[0]), n) == Some(c as int) && b[n..] == tail
  {
    var b, n := Utf8(c) + tail, c as int;
    if n < 0x80 {
    } else if n < 0x800 {
      Payload2(b, n);
    } else if n < 0x10000 {
      Payload3(b, n);
    } else {
      Payload4(b, n);
    }
  }

  lemma ShortestUtf8(c: char)
    ensures Shortest(c as int, |Utf8(c)|)
  {
  }

  lemma {:induction false} Utf8RoundTrip(s: string)
    ensures FromUtf8(Utf8All(s)) == Some(s)
  {
    if s != "" {
      HeadOfUtf8(s[0], Utf8All(s[1..]));
      ShortestUtf8(s[0]);
      Utf8RoundTrip(s[1..]);
      assert s == [s[0]] + s[1..];
    }
  }

  /** The bits of an octet below its mark. */
  function Bits(b: Byte, mark: int): int {
    b as int - mark
  }

  /** Each character is one to four octets: the first says how many and holds the highest bits, the
      others hold six bits each, highest first. */
  lemma Utf8Is(c: char)
    ensures var b, n := Utf8(c), c as int;
            && |b| == (if n < 0x80 then 1 else if n < 0x800 then 2 else if n < 0x10000 then 3 else 4)
            && (forall i :: 1 <= i < |b| ==> 0x80 <= b[i] < 0xC0)
            && (|b| == 1 ==> n == b[0])
            && (|b| == 2 ==> b[0] < 0xE0 && n == Bits(b[0], 0xC0) * 64 + Bits(b[1], 0x80))
            && (|b| == 3 ==>
                  b[0] < 0xF0 && n == Bits(b[0], 0xE0) * 4096 + Bits(b[1], 0x80) * 64 + Bits(b[2], 0x80))
            && (|b| == 4 ==>
                  n == Bits(b[0], 0xF0) * 262144 + Bits(b[1], 0x80) * 4096 + Bits(b[2], 0x80) * 64 + Bits(b[3], 0x80))
  {
    Digits64(c as int);
  }

  // ---------------------------------------------------------------- percent-encoding

  predicate Alnum(c: char) {
    'a' <= c <= 'z' || 'A' <= c <= 'Z' || '0' <= c <= '9'
  }

  const ATTR_CHARS_NONALNUM := "!#$&+-.^_`|~"

  predicate AttrChar(c: char) {
    Alnum(c) || c in ATTR_CHARS_NONALNUM
  }

  function HexDigit(v: int): char
    requires 0 <= v < 16
  {
    if v < 10 then '0' + v as char else 'A' + (v - 10) as char
  }

  predicate IsHex(c: char) {
    '0' <= c <= '9' || 'A' <= c <= 'F' || 'a' <= c <= 'f'
  }

  function HexValue(c: char): (v: int)
    requires IsHex(c)
    ensures 0 <= v < 16
  {
    if c <= '9' then c as int - '0' as int
    else if c <= 'F' then c as int - 'A' as int + 10
    else c as int - 'a' as int + 10
  }

  function QuoteByte(b: Byte): string {
    if b < 0x80 && AttrChar(b as char) then [b as char]
    else ['%', HexDigit(b / 16), HexDigit(b % 16)]
  }

  function QuoteBytes(b: seq<Byte>): string {
    if b == [] then "" else QuoteByte(b[0]) + QuoteBytes(b[1..])
  }

  function PercentEncode(s: string): string {
    QuoteBytes(Utf8All(s))
  }

  function UnquoteBytes(s: string): Option<seq<Byte>> {
    if s == "" then Some([])
    else if s[0] == '%' then
      if |s| < 3 || !IsHex(s[1]) || !IsHex(s[2]) then None
      else Prepend([HexValue(s[1]) * 16 + HexValue(s[2])], UnquoteBytes(s[3..]))
    else if AttrChar(s[0]) && s[0] as int < 0x80 then Prepend([s[0] as int], UnquoteBytes(s[1..]))
    else None
  }

  function PercentDecode(s: string): Option<string> {
    var b := UnquoteBytes(s);
    if b.None? then None else FromUtf8(b.value)
  }

  lemma HexRoundTrip(v: int)
    requires 0 <= v < 16
    ensures IsHex(HexDigit(v)) && HexValue(HexDigit(v)) == v && Alnum(HexDigit(v))
  {
  }

  /** The hexadecimal digits, in capitals. */
  lemma HexDigitsAre(v: int)
    requires 0 <= v < 16
    ensures HexDigit(v) == "0123456789ABCDEF"[v]
  {
  }

  /** An octet stays as it is exactly when it is a letter, a figure or one of twelve marks; any other
      is "%" and its two hexadecimal digits, the higher first. */
  lemma QuoteByteIs(b: Byte)
    ensures var c, q := b as char, QuoteByte(b);
            if 'a' <= c <= 'z' || 'A' <= c <= 'Z' || '0' <= c <= '9' || c in "!#$&+-.^_`|~" then q == [c]
            else && |q| == 3 && q[0] == '%'
                 && q[1] == "0123456789ABCDEF"[b / 16] && q[2] == "0123456789ABCDEF"[b % 16]
  {
    HexDigitsAre(b / 16);
    HexDigitsAre(b % 16);
    if b >= 0x80 {
      assert forall i :: 0 <= i < |ATTR_CHARS_NONALNUM| ==> ATTR_CHARS_NONALNUM[i] as int < 0x80;
    }
  }

  lemma UnquoteHead(b: Byte, tail: string)
    ensures UnquoteBytes(QuoteByte(b) + tail) == Prepend([b], UnquoteBytes(tail))
  {
    if b < 0x80 && AttrChar(b as char) {
      assert (QuoteByte(b) + tail)[1..] == tail;
    } else {
      HexRoundTrip(b / 16);
      HexRoundTrip(b % 16);
      assert (QuoteByte(b) + tail)[3..] == tail;
    }
  }

  lemma {:induction false} UnquoteQuoted(b: seq<Byte>)
    ensures UnquoteBytes(QuoteBytes(b)) == Some(b)
  {
    if b != [] {
      UnquoteHead(b[0], QuoteBytes(b[1..]));
      UnquoteQuoted(b[1..]);
      assert b == [b[0]] + b[1..];
    }
  }

  lemma PercentRoundTrip(s: string)
    ensures PercentDecode(PercentEncode(s)) == Some(s)
  {
    UnquoteQuoted(Utf8All(s));
    Utf8RoundTrip(s);
  }

  predicate ExtendedChar(c: char) {
    AttrChar(c) || c == '%'
  }

  /** Percent-encoded text is pure value-chars: nothing in it can end a parameter. */
  lemma {:induction false} EncodedChars(b: seq<Byte>)
    ensures forall i :: 0 <= i < |QuoteBytes(b)| ==> ExtendedChar(QuoteBytes(b)[i])
  {
    if b != [] {
      EncodedChars(b[1..]);
      HexRoundTrip(b[0] / 16);
      HexRoundTrip(b[0] % 16);
      assert forall i :: 0 <= i < |QuoteByte(b[0])| ==> ExtendedChar(QuoteByte(b[0])[i]);
    }
  }
}
