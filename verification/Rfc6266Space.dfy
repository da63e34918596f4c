/**
 White space in the Content-Disposition header. A recipient may replace every run of linear
 white space by one space before it reads the field (section 2.2 of RFC 2616), which is why
 `build_header` asks `is_lws_safe`: the printed header is left alone by such a recipient.
 */
module Rfc6266Space {
  import opened Text
  import opened Strings
  import opened Quoting
  import opened Percent
  import opened Rfc6266

  /** Single spaces between words, none at the end, none at the start when `after` a space. */
  predicate Tidy(s: string, after: bool) {
    if s == "" then !after
    else if IsSpace(s[0]) then s[0] == ' ' && !after && Tidy(s[1..], true)
    else Tidy(s[1..], false)
  }

  // ---------------------------------------------------------------- tidy texts

  lemma {:induction false} TidyWord(word: string, tail: string, after: bool)
    requires NoSpace(word)
    ensures Tidy(word + tail, after) == Tidy(tail, after && word == "")
  {
    if word == "" {
      assert word + tail == tail;
    } else {
      var whole := word + tail;
      assert NotSpace(word[0]) && whole[0] == word[0] && whole[1..] == word[1..] + tail;
      TidyWord(word[1..], tail, false);
    }
  }

  lemma TidyWeakens(s: string)
    requires Tidy(s, true)
    ensures Tidy(s, false)
  {
  }

  lemma {:induction false} TidyAppend(a: string, b: string, after: bool)
    requires Tidy(a, after)
    ensures Tidy(a + b, after) == Tidy(b, false)
  {
    if a == "" {
      assert a + b == b;
    } else {
      assert (a + b)[0] == a[0] && (a + b)[1..] == a[1..] + b;
      TidyAppend(a[1..], b, IsSpace(a[0]));
    }
  }

  lemma TidySpace(tail: string)
    ensures Tidy(" " + tail, false) == Tidy(tail, true)
  {
    assert (" " + tail)[1..] == tail;
  }

  lemma {:induction false} TidyEscaped(s: string, after: bool)
    ensures Tidy(Escaped(s), after) == Tidy(s, after)
  {
    if s != "" {
      var tail := Escaped(s[1..]);
      TidyEscaped(s[1..], IsSpace(s[0]));
      if IsSpace(s[0]) {
        assert (EscapedChar(s[0]) + tail)[1..] == tail;
      } else {
        TidyWord(EscapedChar(s[0]), tail, after);
      }
    }
  }

  // ---------------------------------------------------------------- split and join

  lemma {:induction false} JoinIsTidy(words: seq<string>)
    requires Words(words) && words != []
    ensures Tidy(Join(words), true)
  {
    if |words| == 1 {
      TidyWord(words[0], "", true);
      assert words[0] + "" == words[0];
    } else {
      JoinIsTidy(words[1..]);
      TidyWord(words[0], " " + Join(words[1..]), true);
      TidySpace(Join(words[1..]));
      assert Join(words) == words[0] + (" " + Join(words[1..]));
    }
  }

  lemma FirstWord(s: string) returns (word: string, tail: string)
    requires Tidy(s, true)
    ensures s == word + tail && word != "" && NoSpace(word)
    ensures tail != "" ==> tail == " " + tail[1..] && Tidy(tail[1..], true)
  {
    var n := PrefixLength(NotSpace, s);
    word, tail := s[..n], s[n..];
    assert NotSpace(s[0]);
    TidyWord(word, tail, true);
    assert s == word + tail;
  }

  lemma {:induction false} TidyIsSafe(s: string)
    requires Tidy(s, true)
    ensures Join(Split(s)) == s && Split(s) != []
    decreases |s|
  {
    var word, tail := FirstWord(s);
    SplitWord(word, tail);
    if tail == "" {
      assert [word] + Split(tail) == [word];
    } else {
      TidyIsSafe(tail[1..]);
      SplitSpace(tail[1..]);
      JoinMore(word, Split(tail[1..]));
      assert word + " " + tail[1..] == s;
    }
  }

  lemma JoinMore(word: string, words: seq<string>)
    requires words != []
    ensures Join([word] + words) == word + " " + Join(words)
  {
    assert ([word] + words)[1..] == words;
  }

  /** What the test by splitting and joining accepts. */
  lemma SafeIsTidy(s: string)
    ensures IsLwsSafe(s) <==> s == "" || Tidy(s, true)
  {
    SplitGivesWords(s);
    if s == "" {
    } else if Tidy(s, true) {
      TidyIsSafe(s);
    } else if IsLwsSafe(s) {
      JoinIsTidy(Split(s));
    }
  }

  // ---------------------------------------------------------------- the header

  lemma TokenHasNoSpace(s: string)
    requires IsToken(s)
    ensures NoSpace(s)
  {
    forall i | 0 <= i < |s|
      ensures NotSpace(s[i])
    {
      assert IsTokenChar(s[i]);
    }
  }

  lemma TidyField(name: string, value: string, after: bool)
    requires name != "" && IsToken(name)
    ensures Tidy(Field(name, value), after) == Tidy(value, false)
  {
    TokenHasNoSpace(name);
    TidyWord("=", value, false);
    TidyWord(name, "=" + value, true);
    TidySpace(name + ("=" + value));
    TidyWord(";", " " + (name + ("=" + value)), after);
    assert Field(name, value) == ";" + (" " + (name + ("=" + value)));
  }

  lemma TidyExtended(filename: string, after: bool)
    ensures Tidy(Extended(filename), after)
  {
    var value := CHARSET + PercentEncode(filename);
    ExtendedName();
    TidyField(EXTENDED, value, after);
    ExtendedWord(filename);
    TokenHasNoSpace(value);
    TidyWord(value, "", false);
    assert value + "" == value;
  }

  lemma TidyQuoted(filename: string, more: string)
    requires filename == "" || Tidy(filename, true)
    ensures Tidy("\"" + EscapeString(filename) + "\"" + more, false) == Tidy(more, false)
  {
    var text := Escaped(filename);
    TwoPassesAreOne(filename);
    if filename != "" {
      TidyWeakens(filename);
    }
    TidyEscaped(filename, false);
    TidyWord("\"", text + ("\"" + more), false);
    TidyAppend(text, "\"" + more, false);
    TidyWord("\"", more, false);
    assert "\"" + text + "\"" + more == "\"" + (text + ("\"" + more));
  }

  lemma TidyAdded(filename: string, after: bool)
    ensures Tidy(Added(filename), after)
  {
    PlainName();
    if IsToken(filename) {
      TidyField(PLAIN, filename, after);
      TokenHasNoSpace(filename);
      TidyWord(filename, "", false);
      assert filename + "" == filename;
    } else if Quotable(filename) {
      var more := if EscapeString(filename) == filename then "" else Extended(filename);
      SafeIsTidy(filename);
      TidyQuoted(filename, more);
      TidyExtended(filename, false);
      TidyField(PLAIN, "\"" + EscapeString(filename) + "\"" + more, after);
    } else {
      TidyExtended(filename, after);
    }
  }

  /** Collapsing white space changes no header that the printer makes. */
  lemma HeaderIsLwsSafe(filename: string, disposition: string)
    requires IsToken(disposition)
    ensures IsLwsSafe(BuildHeader(filename, disposition).value)
  {
    BuiltOf(filename, disposition);
    TokenHasNoSpace(disposition);
    TidyWord(disposition, Added(filename), true);
    TidyAdded(filename, disposition == "");
    SafeIsTidy(disposition + Added(filename));
  }

  // ---------------------------------------------------------------- the final encode

  lemma TokenIsAscii(s: string)
    requires IsToken(s)
    ensures IsAscii(s)
  {
    forall i | 0 <= i < |s|
      ensures s[i] as int < 128
    {
      assert IsTokenChar(s[i]);
    }
  }

  lemma {:induction false} EscapedIsAscii(s: string)
    requires IsAscii(s)
    ensures IsAscii(Escaped(s))
  {
    if s != "" {
      EscapedIsAscii(s[1..]);
    }
  }

  lemma FieldIsAscii(name: string, value: string)
    requires IsToken(name) && IsAscii(value)
    ensures IsAscii(Field(name, value))
  {
    TokenIsAscii(name);
  }

  /** The header is US-ASCII, so its final `encode("iso-8859-1")` cannot fail. */
  lemma HeaderIsAscii(filename: string, disposition: string)
    requires IsToken(disposition)
    ensures var h := BuildHeader(filename, disposition).value; forall i :: 0 <= i < |h| ==> h[i] as int < 128
  {
    BuiltOf(filename, disposition);
    TokenIsAscii(disposition);
    PlainName();
    ExtendedName();
    ExtendedWord(filename);
    TokenIsAscii(CHARSET + PercentEncode(filename));
    FieldIsAscii(EXTENDED, CHARSET + PercentEncode(filename));
    if IsToken(filename) {
      TokenIsAscii(filename);
      FieldIsAscii(PLAIN, filename);
    } else if Quotable(filename) {
      TwoPassesAreOne(filename);
      EscapedIsAscii(filename);
      QuotedIsAscii(filename);
    }
  }

  lemma QuotedIsAscii(filename: string)
    requires Quotable(filename) && IsAscii(Escaped(filename)) && IsAscii(Extended(filename))
    ensures IsAscii(Added(filename))
  {
    TwoPassesAreOne(filename);
    PlainName();
    var more := if EscapeString(filename) == filename then "" else Extended(filename);
    FieldIsAscii(PLAIN, "\"" + EscapeString(filename) + "\"" + more);
  }
}
