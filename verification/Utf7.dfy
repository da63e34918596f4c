/**
 Python's "utf-7" codec (RFC 2152), on which the IMAP mailbox-name codec is built:
 `s.encode("utf-7")` and the strict `b.decode("utf-7")`.
 */
module Utf7 {
  import opened Text
  import opened Base64Units

  const PLUS: Byte := 0x2B
  const DASH: Byte := 0x2D

  /** The base64 alphabet. */
  function ToBase64(d: Digit): Byte {
    if d < 26 then 0x41 + d
    else if d < 52 then 0x61 + (d - 26)
    else if d < 62 then 0x30 + (d - 52)
    else if d == 62 then PLUS
    else 0x2F
  }

  predicate IsBase64(b: Byte) {
    0x41 <= b <= 0x5A || 0x61 <= b <= 0x7A || 0x30 <= b <= 0x39 || b == PLUS || b == 0x2F
  }

  function FromBase64(b: Byte): Digit
    requires IsBase64(b)
  {
    if b == PLUS then 62
    else if b == 0x2F then 63
    else if b <= 0x39 then b - 0x30 + 52
    else if b <= 0x5A then b - 0x41
    else b - 0x61 + 26
  }

  function ToChars(ds: seq<Digit>): (r: seq<Byte>)
    ensures |r| == |ds|
  {
    seq(|ds|, i requires 0 <= i < |ds| => ToBase64(ds[i]))
  }

  function FromChars(b: seq<Byte>): (r: seq<Digit>)
    requires forall i :: 0 <= i < |b| ==> IsBase64(b[i])
    ensures |r| == |b|
  {
    seq(|b|, i requires 0 <= i < |b| => FromBase64(b[i]))
  }

  lemma CharRoundTrip(d: Digit)
    ensures IsBase64(ToBase64(d)) && FromBase64(ToBase64(d)) == d
    ensures ToBase64(d) != DASH && ToBase64(d) != 0x2C && 0x20 <= ToBase64(d) < 0x7F
  {
  }

  /** The alphabet as section "UTF-7 Definition" of RFC 2152 takes it from table 1 of RFC 1521. */
  const ALPHABET := "ABCDEFGHIJKLMNOPQRSTUVWXYZ" + "abcdefghijklmnopqrstuvwxyz" + "0123456789" + "+/"

  lemma LettersAre(i: nat)
    requires i < 26
    ensures "ABCDEFGHIJKLMNOPQRSTUVWXYZ"[i] as int == ToBase64(i)
    ensures "abcdefghijklmnopqrstuvwxyz"[i] as int == ToBase64(26 + i)
  {
  }

  lemma FiguresAre(i: nat)
    requires i < 10
    ensures "0123456789"[i] as int == ToBase64(52 + i)
  {
  }

  /** Every digit is written as the character at its place in the alphabet, and read from it. */
  lemma AlphabetIs(d: Digit)
    ensures |ALPHABET| == 64 && ToBase64(d) == ALPHABET[d] as int
    ensures IsBase64(ALPHABET[d] as int) && FromBase64(ALPHABET[d] as int) == d
  {
    CharRoundTrip(d);
    if d < 26 {
      LettersAre(d);
    } else if d < 52 {
      LettersAre(d - 26);
    } else if d < 62 {
      FiguresAre(d - 52);
    }
  }

  /** No other octet is read as a digit. */
  lemma OnlyTheAlphabet(b: Byte)
    ensures IsBase64(b) <==> exists d: Digit :: ALPHABET[d] as int == b
  {
    if IsBase64(b) {
      AlphabetIs(FromBase64(b));
      assert ALPHABET[FromBase64(b)] as int == b;
    } else if d: Digit :| ALPHABET[d] as int == b {
      AlphabetIs(d);
    }
  }

  lemma CharsRoundTrip(ds: seq<Digit>)
    ensures forall i :: 0 <= i < |ds| ==> IsBase64(ToChars(ds)[i]) && ToChars(ds)[i] == ToBase64(ds[i])
    ensures FromChars(ToChars(ds)) == ds
  {
    forall i | 0 <= i < |ds|
      ensures IsBase64(ToChars(ds)[i]) && FromBase64(ToChars(ds)[i]) == ds[i]
    {
      CharRoundTrip(ds[i]);
    }
  }

  // ---------------------------------------------------------------- UTF-16

  predicate IsHigh(w: Word) { 0xD800 <= w < 0xDC00 }

  predicate IsLow(w: Word) { 0xDC00 <= w < 0xE000 }

  function Utf16(c: Code): seq<Word> {
    if c < 0x10000 then [c]
    else [0xD800 + (c - 0x10000) / 0x400, 0xDC00 + (c - 0x10000) % 0x400]
  }

  /** Code points below 0x10000 are one unit. The others are a high and a low surrogate, which hold
      the upper and the lower ten bits of what exceeds 0x10000 (section 2.1 of RFC 2781). */
  lemma SurrogatesAre(c: Code)
    ensures c < 0x10000 ==> Utf16(c) == [c]
    ensures c >= 0x10000 ==>
              var u := Utf16(c);
              && |u| == 2 && 0xD800 <= u[0] <= 0xDBFF && 0xDC00 <= u[1] <= 0xDFFF
              && c - 0x10000 == (u[0] as int - 0xD800) * 0x400 + (u[1] as int - 0xDC00)
  {
  }

  function Utf16All(s: seq<Code>): seq<Word> {
    if s == [] then [] else Utf16(s[0]) + Utf16All(s[1..])
  }

  function JoinPair(high: Word, low: Word): Code
    requires IsHigh(high) && IsLow(low)
  {
    0x10000 + (high - 0xD800) * 0x400 + (low - 0xDC00)
  }

  /** Units back to code points; a surrogate without its other half stands for itself. */
  function Join(ws: seq<Word>): seq<Code>
    decreases |ws|
  {
    if ws == [] then []
    else if |ws| > 1 && IsHigh(ws[0]) && IsLow(ws[1]) then [JoinPair(ws[0], ws[1])] + Join(ws[2..])
    else [ws[0]] + Join(ws[1..])
  }

  lemma JoinUtf16(c: Code, rest: seq<Word>)
    requires Scalar(c)
    ensures Join(Utf16(c) + rest) == [c] + Join(rest)
  {
    if c < 0x10000 {
      assert (Utf16(c) + rest)[1..] == rest;
    } else {
      assert (Utf16(c) + rest)[2..] == rest;
    }
  }

  lemma {:induction false} JoinUtf16All(s: seq<Code>)
    requires AllScalar(s)
    ensures Join(Utf16All(s)) == s
    ensures |s| <= |Utf16All(s)|
    ensures s != [] ==> !IsHigh(Utf16All(s)[|Utf16All(s)| - 1])
  {
    if s != [] {
      JoinUtf16(s[0], Utf16All(s[1..]));
      JoinUtf16All(s[1..]);
      assert [s[0]] + s[1..] == s;
      var all := Utf16All(s);
      if s[1..] != [] {
        assert all[|all| - 1] == Utf16All(s[1..])[|Utf16All(s[1..])| - 1];
      } else {
        assert all == Utf16(s[0]);
      }
    }
  }

  // --------------------------------------------------------------- encoder

  /** TAB, LF and CR, which Python writes unencoded. */
  predicate DirectSpace(c: Code) {
    c == 0x09 || c == 0x0A || c == 0x0D
  }

  /** The code points Python's encoder writes as themselves. */
  predicate Direct(c: Code) {
    DirectSpace(c) || (0x20 <= c <= 0x7D && c != PLUS && c != 0x5C)
  }

  /** A run is closed by "-" at the end of the text and before what could be read as its continuation. */
  function Closing(rest: seq<Code>): seq<Byte> {
    if rest == [] || (rest[0] < 0x80 && (IsBase64(rest[0]) || rest[0] == DASH)) then [DASH] else []
  }

  function RunLength(s: seq<Code>): nat {
    PrefixLength(c => !Direct(c), s)
  }

  function Run(s: seq<Code>): seq<Byte> {
    [PLUS] + ToChars(Pack(Utf16All(s)))
  }

  /** Python's `s.encode("utf-7")`. */
  function Encode(s: seq<Code>): seq<Byte>
    decreases |s|
  {
    if s == [] then []
    else if s[0] == PLUS then [PLUS, DASH] + Encode(s[1..])
    else if Direct(s[0]) then [s[0]] + Encode(s[1..])
    else
      var n := RunLength(s);
      assert n > 0;
      Run(s[..n]) + Closing(s[n..]) + Encode(s[n..])
  }

  // --------------------------------------------------------------- decoder

  /** Python's strict `b.decode("utf-7")`; None stands for UnicodeDecodeError. */
  function Decode(b: seq<Byte>): Option<seq<Code>>
    decreases |b|, 0
  {
    if b == [] then Some([])
    else if b[0] != PLUS then
      if b[0] < 0x80 then Prepend([b[0]], Decode(b[1..])) else None
    else if |b| > 1 && b[1] == DASH then Prepend([PLUS], Decode(b[2..]))
    else
      var n := PrefixLength(IsBase64, b[1..]);
      if n == 0 then
        if |b| == 1 then Some([]) else None
      else
        DecodeRun(Unpack(FromChars(b[1..][..n])), b[1..][n..])
  }

  /** A run that holds `units`, followed by `rest`; one "-" after the run is absorbed. */
  function DecodeRun(units: Option<seq<Word>>, rest: seq<Byte>): Option<seq<Code>>
    decreases |rest|, 1
  {
    if units.None? then None
    else if rest == [] then
      if units.value != [] && IsHigh(units.value[|units.value| - 1]) then None else Some(Join(units.value))
    else
      Prepend(Join(units.value), Decode(if rest[0] == DASH then rest[1..] else rest))
  }

  lemma DecodeDirect(c: Byte, rest: seq<Byte>)
    requires c != PLUS && c < 0x80
    ensures Decode([c] + rest) == Prepend([c], Decode(rest))
  {
    assert ([c] + rest)[1..] == rest;
  }

  lemma DecodePlus(rest: seq<Byte>)
    ensures Decode([PLUS, DASH] + rest) == Prepend([PLUS], Decode(rest))
  {
    assert ([PLUS, DASH] + rest)[2..] == rest;
  }

  lemma DecodeDigits(ds: seq<Digit>, rest: seq<Byte>)
    requires ds != []
    requires rest == [] || !IsBase64(rest[0])
    ensures Decode([PLUS] + ToChars(ds) + rest) == DecodeRun(Unpack(ds), rest)
  {
    var b := [PLUS] + ToChars(ds) + rest;
    CharRoundTrip(ds[0]);
    CharsRoundTrip(ds);
    DigitsAhead(ToChars(ds), rest);
    DecodeShifted(b, |ds|);
  }

  lemma DigitsAhead(chars: seq<Byte>, rest: seq<Byte>)
    requires forall i :: 0 <= i < |chars| ==> IsBase64(chars[i])
    requires rest == [] || !IsBase64(rest[0])
    ensures var b := [PLUS] + chars + rest;
            && PrefixLength(IsBase64, b[1..]) == |chars|
            && b[1..][..|chars|] == chars && b[1..][|chars|..] == rest
  {
    var b := [PLUS] + chars + rest;
    assert b[1..] == chars + rest;
    PrefixLengthIs(IsBase64, b[1..], |chars|);
  }

  lemma DecodeShifted(b: seq<Byte>, n: nat)
    requires |b| > 1 && b[0] == PLUS && b[1] != DASH && n > 0 && n == PrefixLength(IsBase64, b[1..])
    ensures Decode(b) == DecodeRun(Unpack(FromChars(b[1..][..n])), b[1..][n..])
  {
  }

  lemma PackNonEmpty(s: seq<Code>)
    requires s != []
    ensures Pack(Utf16All(s)) != []
  {
    PackLength(Utf16All(s), Zero);
    assert |Utf16All(s)| >= |Utf16(s[0])| >= 1;
  }

  /** What follows a run is never read as part of it. */
  lemma AfterRun(rest: seq<Code>)
    requires rest == [] || Direct(rest[0])
    ensures var t := Closing(rest) + Encode(rest);
            && t != [] && !IsBase64(t[0])
            && (if t[0] == DASH then t[1..] else t) == Encode(rest)
  {
    if Closing(rest) == [] {
      assert Closing(rest) + Encode(rest) == Encode(rest);
      assert Encode(rest)[0] == rest[0];
    }
  }

  /** Decoding a run followed by anything that was encoded. */
  lemma DecodeEncodedRun(s: seq<Code>, rest: seq<Code>)
    requires s != [] && AllScalar(s)
    requires rest == [] || Direct(rest[0])
    ensures Decode(Run(s) + Closing(rest) + Encode(rest)) == Prepend(s, Decode(Encode(rest)))
  {
    var t := Closing(rest) + Encode(rest);
    AfterRun(rest);
    PackNonEmpty(s);
    DecodeDigits(Pack(Utf16All(s)), t);
    UnpackPack(Utf16All(s));
    JoinUtf16All(s);
    assert Run(s) + Closing(rest) + Encode(rest) == [PLUS] + ToChars(Pack(Utf16All(s))) + t;
  }

  lemma EncodeOneFirst(s: seq<Code>)
    requires s != [] && (s[0] == PLUS || Direct(s[0]))
    ensures Encode(s) == (if s[0] == PLUS then [PLUS, DASH] else [s[0]]) + Encode(s[1..])
  {
  }

  lemma DecodeOneFirst(c: Code, rest: seq<Byte>)
    requires c == PLUS || Direct(c)
    ensures Decode((if c == PLUS then [PLUS, DASH] else [c]) + rest) == Prepend([c], Decode(rest))
  {
    if c == PLUS {
      DecodePlus(rest);
    } else {
      DecodeDirect(c, rest);
    }
  }

  lemma EncodeRunFirst(s: seq<Code>)
    requires s != [] && s[0] != PLUS && !Direct(s[0])
    ensures var n := RunLength(s);
            n > 0 && Encode(s) == Run(s[..n]) + Closing(s[n..]) + Encode(s[n..])
  {
  }

  /** Python's codec is lossless on every text without lone surrogates. */
  lemma {:induction false} DecodeEncode(s: seq<Code>)
    requires AllScalar(s)
    ensures Decode(Encode(s)) == Some(s)
    decreases |s|
  {
    if s == [] {
    } else if s[0] == PLUS || Direct(s[0]) {
      DecodeEncode(s[1..]);
      EncodeOneFirst(s);
      DecodeOneFirst(s[0], Encode(s[1..]));
      assert [s[0]] + s[1..] == s;
    } else {
      var n := RunLength(s);
      DecodeEncode(s[n..]);
      DecodeEncodedRun(s[..n], s[n..]);
      EncodeRunFirst(s);
      assert s[..n] + s[n..] == s;
    }
  }
}
