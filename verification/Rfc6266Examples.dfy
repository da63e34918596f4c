/** Headers of three kinds, letter by letter. */
module Rfc6266Examples {
  import opened Text
  import opened Strings
  import opened Quoting
  import opened Percent
  import opened Rfc6266
  import opened Rfc6266Space

  lemma InlineIsToken()
    ensures IsToken("inline")
  {
  }

  /** A token is sent as it is. */
  lemma TokenExample()
    ensures BuildHeader("a.txt", "inline") == Some("inline; filename=a.txt")
  {
    InlineIsToken();
    BuiltOf("a.txt", "inline");
    NameIsToken();
    NameField();
  }

  lemma NameIsToken()
    ensures IsToken("a.txt")
  {
  }

  lemma NameField()
    ensures "inline" + Field(PLAIN, "a.txt") == "inline; filename=a.txt"
  {
    assert Field(PLAIN, "a.txt") == "; filename=a.txt";
  }

  /** A text with a space and a quote is sent between quotes, the quote behind a backslash, and again
      in the extended form. */
  lemma QuotedExample()
    ensures BuildHeader("a \"b", "inline") ==
            Some("inline" + ("; filename=\"a \\\"b\"" + ("; filename*=utf-8''" + "a%20%22b")))
  {
    QuotedIsQuotable();
    QuotedIsEscaped();
    QuotedIsEncoded();
    ExtendedField("a \"b", "a%20%22b");
    QuotedHeader("a \"b", "a \\\"b");
    PlainField();
  }

  lemma QuotedHeader(s: string, quoted: string)
    requires Quotable(s) && EscapeString(s) == quoted && quoted != s
    ensures BuildHeader(s, "inline") == Some("inline" + (Field(PLAIN, "\"" + quoted + "\"") + Extended(s)))
  {
    InlineIsToken();
    BuiltOf(s, "inline");
    FieldGrows(PLAIN, "\"" + quoted + "\"", Extended(s));
  }

  lemma PlainField()
    ensures Field(PLAIN, "\"" + "a \\\"b" + "\"") == "; filename=\"a \\\"b\""
  {
    assert "\"" + "a \\\"b" + "\"" == "\"a \\\"b\"";
    assert "; " + "filename" + ("=" + "\"a \\\"b\"") == "; filename=\"a \\\"b\"";
  }

  lemma ExtendedField(s: string, encoded: string)
    requires PercentEncode(s) == encoded
    ensures Extended(s) == "; filename*=utf-8''" + encoded
  {
    assert "; " + EXTENDED + ("=" + (CHARSET + encoded)) == ("; " + "filename*" + "=" + "utf-8''") + encoded;
    assert "; " + "filename*" + "=" + "utf-8''" == "; filename*=utf-8''";
  }

  lemma QuotedIsQuotable()
    ensures Quotable("a \"b")
  {
    var s := "a \"b";
    assert !IsTokenChar(s[1]);
    assert s[1..] == " \"b" && s[1..][1..] == "\"b" && "\"b"[1..] == "b" && "b"[1..] == "";
    assert Tidy("b", false) && Tidy("\"b", true);
    assert Tidy(" \"b", false);
    SafeIsTidy(s);
  }

  lemma QuotedIsEscaped()
    ensures EscapeString("a \"b") == "a \\\"b"
  {
    var s := "a \"b";
    TwoPassesAreOne(s);
    assert s[1..] == " \"b" && s[1..][1..] == "\"b" && "\"b"[1..] == "b" && "b"[1..] == "";
    assert Escaped("b") == "b";
    assert Escaped("\"b") == "\\\"b";
    assert Escaped(" \"b") == " \\\"b";
  }

  /** One more US-ASCII character in front. */
  lemma Encoded(c: char, s: string)
    requires c as int < 0x80
    ensures PercentEncode([c] + s) == QuoteByte(c as int) + PercentEncode(s)
  {
    assert ([c] + s)[1..] == s;
    assert Utf8(c) == [c as int];
    assert Utf8All([c] + s)[1..] == Utf8All(s);
  }

  lemma QuotedBytes()
    ensures QuoteByte(0x61) == "a" && QuoteByte(0x20) == "%20" && QuoteByte(0x22) == "%22" && QuoteByte(0x62) == "b"
  {
    QuoteByteIs(0x61);
    QuoteByteIs(0x20);
    QuoteByteIs(0x22);
    QuoteByteIs(0x62);
  }

  lemma QuotedIsEncoded()
    ensures PercentEncode("a \"b") == "a%20%22b"
  {
    Encoded('a', " \"b");
    Encoded(' ', "\"b");
    Encoded('"', "b");
    Encoded('b', "");
    QuotedBytes();
    EncodedText(PercentEncode(""));
  }

  lemma EncodedText(end: string)
    requires end == ""
    ensures "a" + ("%20" + ("%22" + ("b" + end))) == "a%20%22b"
    ensures ['a'] + " \"b" == "a \"b" && [' '] + "\"b" == " \"b" && ['"'] + "b" == "\"b" && ['b'] + "" == "b"
  {
  }

  /** A letter outside US-ASCII is sent in the extended form alone. */
  lemma AccentExample()
    ensures BuildHeader("\U{E9}", "inline") == Some("inline" + ("; filename*=utf-8''" + "%C3%A9"))
  {
    var s := "\U{E9}";
    InlineIsToken();
    BuiltOf(s, "inline");
    assert !IsTokenChar(s[0]);
    AccentEncoded();
    ExtendedField(s, "%C3%A9");
  }

  lemma AccentEncoded()
    ensures PercentEncode("\U{E9}") == "%C3%A9"
  {
    var s := "\U{E9}";
    assert s[1..] == "";
    assert Utf8(s[0]) == [0xC3, 0xA9];
    assert Utf8All(s) == [0xC3, 0xA9];
    QuoteByteIs(0xC3);
    QuoteByteIs(0xA9);
    var b: seq<Byte> := [0xC3, 0xA9];
    assert b[1..] == [0xA9] && b[1..][1..] == [];
    assert QuoteBytes(b[1..]) == "%A9";
  }
}
