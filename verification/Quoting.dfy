/**
 Quoted strings. Both the Sieve generator (modoboa/autoreply/models.py) and the
 Content-Disposition printer (modoboa/sievefilters/rfc6266.py) escape a text with two
 replacements over the whole string and wrap it in double quotes. The reader here is the
 quoted-string scanner of section 2.4.2 of RFC 5228, which is also that of section 2.2 of
 RFC 2616: a backslash makes the next character literal, a bare quote ends the string.
 */
module Quoting {
  import opened Text

  /** `s.replace(c, to)` for a one-character pattern. */
  function Replace(s: string, c: char, to: string): string {
    if s == "" then "" else (if s[0] == c then to else [s[0]]) + Replace(s[1..], c, to)
  }

  /** The two passes of the source: backslashes first, then quotes. */
  function EscapeString(value: string): string {
    Replace(Replace(value, '\\', "\\\\"), '"', "\\\"")
  }

  function EscapedChar(c: char): string {
    if c == '\\' then "\\\\" else if c == '"' then "\\\"" else [c]
  }

  /** The same text escaped in a single pass, character by character. */
  function Escaped(s: string): string {
    if s == "" then "" else EscapedChar(s[0]) + Escaped(s[1..])
  }

  predicate Plain(s: string) {
    forall i :: 0 <= i < |s| ==> s[i] != '\\' && s[i] != '"'
  }

  /** What a scanner read, and what it left unread. */
  datatype Scanned = Scanned(text: string, rest: string)

  function Push(c: char, r: Option<Scanned>): Option<Scanned> {
    if r.Some? then Some(Scanned([c] + r.value.text, r.value.rest)) else None
  }

  /** Reads a quoted string whose opening quote has been consumed. None: no closing quote. */
  function Scan(s: string): Option<Scanned> {
    if s == "" then None
    else if s[0] == '"' then Some(Scanned("", s[1..]))
    else if s[0] == '\\' then
      if |s| == 1 then None else Push(s[1], Scan(s[2..]))
    else Push(s[0], Scan(s[1..]))
  }

  // ---------------------------------------------------------------- two passes are one

  lemma {:induction false} ReplaceConcat(a: string, b: string, c: char, to: string)
    ensures Replace(a + b, c, to) == Replace(a, c, to) + Replace(b, c, to)
  {
    if a == "" {
      assert a + b == b;
    } else {
      assert (a + b)[0] == a[0] && (a + b)[1..] == a[1..] + b;
      ReplaceConcat(a[1..], b, c, to);
    }
  }

  lemma ReplaceChar(c: char)
    ensures Replace(if c == '\\' then "\\\\" else [c], '"', "\\\"") == EscapedChar(c)
  {
    if c == '\\' {
      assert "\\\\"[1..] == "\\" && "\\"[1..] == "";
    } else {
      assert [c][1..] == "";
    }
  }

  /** The order of the two passes is right: the backslashes that the second pass adds are not
      escaped again, and each character is escaped on its own. */
  lemma {:induction false} TwoPassesAreOne(s: string)
    ensures EscapeString(s) == Escaped(s)
  {
    if s != "" {
      var head := if s[0] == '\\' then "\\\\" else [s[0]];
      ReplaceConcat(head, Replace(s[1..], '\\', "\\\\"), '"', "\\\"");
      ReplaceChar(s[0]);
      TwoPassesAreOne(s[1..]);
    }
  }

  // ---------------------------------------------------------------- reading back

  lemma ScanHead(c: char, tail: string)
    ensures Scan(EscapedChar(c) + tail) == Push(c, Scan(tail))
  {
    if c == '\\' || c == '"' {
      assert (EscapedChar(c) + tail)[2..] == tail;
    } else {
      assert (EscapedChar(c) + tail)[1..] == tail;
    }
  }

  lemma {:induction false} ScanEscaped(s: string, rest: string)
    ensures Scan(Escaped(s) + "\"" + rest) == Some(Scanned(s, rest))
  {
    if s == "" {
      assert (Escaped(s) + "\"" + rest)[1..] == rest;
    } else {
      var tail := Escaped(s[1..]) + "\"" + rest;
      assert Escaped(s) + "\"" + rest == EscapedChar(s[0]) + tail;
      ScanHead(s[0], tail);
      ScanEscaped(s[1..], rest);
      assert [s[0]] + s[1..] == s;
    }
  }

  /** Whatever follows, a scanner started on an escaped text stops exactly at the closing quote
      and yields the text: no text can break out of its string. */
  lemma EscapeRoundTrip(s: string, rest: string)
    ensures Scan(EscapeString(s) + "\"" + rest) == Some(Scanned(s, rest))
  {
    TwoPassesAreOne(s);
    ScanEscaped(s, rest);
  }

  // ---------------------------------------------------------------- when escaping is needed

  lemma {:induction false} ScanShrinks(s: string)
    ensures Scan(s).Some? ==> |Scan(s).value.text| + 1 + |Scan(s).value.rest| <= |s|
    decreases |s|
  {
    if s != "" && s[0] != '"' {
      if s[0] != '\\' {
        ScanShrinks(s[1..]);
      } else if |s| > 1 {
        ScanShrinks(s[2..]);
      }
    }
  }

  lemma ScanBackslashShrinks(s: string)
    requires s != "" && s[0] == '\\' && Scan(s).Some?
    ensures |Scan(s).value.text| + 1 + |Scan(s).value.rest| < |s|
  {
    ScanShrinks(s[2..]);
  }

  lemma {:induction false} UnescapedOnlyPlain(s: string, rest: string)
    requires Scan(s + "\"" + rest) == Some(Scanned(s, rest))
    ensures Plain(s)
  {
    if s != "" {
      var whole := s + "\"" + rest;
      assert whole[0] == s[0];
      if s[0] == '\\' {
        ScanBackslashShrinks(whole);
      } else if s[0] != '"' {
        assert whole[1..] == s[1..] + "\"" + rest;
        PushInjective(s[0], Scan(whole[1..]), s, rest);
        UnescapedOnlyPlain(s[1..], rest);
        assert forall i :: 0 < i < |s| ==> s[i] == s[1..][i - 1];
      }
    }
  }

  lemma PushInjective(c: char, r: Option<Scanned>, s: string, rest: string)
    requires s != "" && Push(c, r) == Some(Scanned(s, rest))
    ensures r == Some(Scanned(s[1..], rest))
  {
    assert ([c] + r.value.text)[1..] == r.value.text;
  }

  lemma {:induction false} EscapedPlain(s: string)
    ensures Escaped(s) == s <==> Plain(s)
    ensures |Escaped(s)| >= |s|
  {
    if s != "" {
      EscapedPlain(s[1..]);
      assert s == [s[0]] + s[1..];
      assert Plain(s) <==> Plain(s[0..1]) && Plain(s[1..]) by { PlainSplit(s); }
      if s[0] == '\\' || s[0] == '"' {
        assert |Escaped(s)| > |s|;
      } else {
        assert Escaped(s)[1..] == Escaped(s[1..]);
      }
    }
  }

  lemma PlainSplit(s: string)
    requires s != ""
    ensures Plain(s) <==> Plain(s[0..1]) && Plain(s[1..])
  {
    assert forall i :: 0 < i < |s| ==> s[i] == s[1..][i - 1];
    if Plain(s[0..1]) && Plain(s[1..]) {
      assert s[0] == s[0..1][0];
    }
  }

  /** A text put between quotes as it is reads back exactly when escaping would not change it. */
  lemma EscapingIsNeeded(s: string, rest: string)
    ensures Scan(s + "\"" + rest) == Some(Scanned(s, rest)) <==> EscapeString(s) == s
  {
    TwoPassesAreOne(s);
    EscapedPlain(s);
    if Escaped(s) == s {
      ScanEscaped(s, rest);
    } else if Scan(s + "\"" + rest) == Some(Scanned(s, rest)) {
      UnescapedOnlyPlain(s, rest);
    }
  }
}
