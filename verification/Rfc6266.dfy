/**
 The Content-Disposition printer (modoboa/sievefilters/rfc6266.py) and a reader for what it
 prints: section 4.1 of RFC 6266, with the quoted strings of section 2.2 of RFC 2616 and the
 extended values of section 3.2 of RFC 5987.
 */
module Rfc6266 {
  import opened Text
  import opened Strings
  import opened Quoting
  import opened Percent

  predicate IsSeparator(c: char) {
    || c == '(' || c == ')' || c == '<' || c == '>' || c == '@' || c == ',' || c == ';' || c == ':'
    || c == '\\' || c == '"' || c == '/' || c == '[' || c == ']' || c == '?' || c == '='
    || c == '{' || c == '}' || c == ' ' || c == '\t'
  }

  predicate IsTokenChar(c: char) {
    31 < c as int < 127 && !IsSeparator(c)
  }

  /** As in the source, the empty text is a token. */
  predicate IsToken(s: string) {
    forall i :: 0 <= i < |s| ==> IsTokenChar(s[i])
  }

  predicate IsAscii(s: string) {
    forall i :: 0 <= i < |s| ==> s[i] as int < 128
  }

  predicate IsLwsSafe(s: string) {
    Join(Split(s)) == s
  }

  // ---------------------------------------------------------------- the printer

  predicate Quotable(filename: string) {
    !IsToken(filename) && IsAscii(filename) && IsLwsSafe(filename)
  }

  const PLAIN := "filename"
  const EXTENDED := "filename*"
  const CHARSET := "utf-8''"

  /** `f"; {name}={value}"`. */
  function Field(name: string, value: string): string {
    "; " + name + ("=" + value)
  }

  function Extended(filename: string): string {
    Field(EXTENDED, CHARSET + PercentEncode(filename))
  }

  /** `build_header(filename, disposition)`; None is the failed assertion on `disposition`. */
  function BuildHeader(filename: string, disposition: string): Option<string> {
    if disposition != "attachment" && !IsToken(disposition) then None
    else if IsToken(filename) then Some(disposition + Field(PLAIN, filename))
    else if IsAscii(filename) && IsLwsSafe(filename) then
      var quoted := EscapeString(filename);
      var rv := disposition + Field(PLAIN, "\"" + quoted + "\"");
      if quoted == filename then Some(rv) else Some(rv + Extended(filename))
    else Some(disposition + Extended(filename))
  }

  // ---------------------------------------------------------------- the reader

  /** A parameter with its value decoded. */
  datatype Parameter = Parameter(name: string, value: string)

  datatype Header = Header(disposition: string, parameters: seq<Parameter>)

  predicate IsControl(c: char) {
    c as int < 32 || c as int == 127
  }

  predicate HasControl(s: string) {
    exists i :: 0 <= i < |s| && IsControl(s[i])
  }

  predicate NotApostrophe(c: char) {
    c != '\''
  }

  function AfterApostrophe(s: string): Option<string> {
    var n := PrefixLength(NotApostrophe, s);
    if n == |s| then None else Some(s[n + 1..])
  }

  /** charset "'" [language] "'" value-chars; the only charset printed here is read. */
  function ExtendedValue(word: string): Option<string> {
    var n := PrefixLength(NotApostrophe, word);
    if word[..n] != "utf-8" && word[..n] != "UTF-8" then None
    else
      var language := AfterApostrophe(word);
      if language.None? then None
      else
        var chars := AfterApostrophe(language.value);
        if chars.None? then None else PercentDecode(chars.value)
  }

  /** The value at the start of `s`, decoded, and what follows it. A strict reader refuses
      an empty token and a control character in a quoted string, a lenient one does not. */
  function ReadValue(strict: bool, name: string, s: string): (r: Option<Scanned>)
    requires name != ""
    ensures r.Some? ==> |r.value.rest| <= |s|
  {
    if name[|name| - 1] == '*' then
      var n := PrefixLength(IsTokenChar, s);
      var value := ExtendedValue(s[..n]);
      if value.None? then None else Some(Scanned(value.value, s[n..]))
    else if s != "" && s[0] == '"' then
      ScanShrinks(s[1..]);
      var r := Scan(s[1..]);
      if r.None? || (strict && HasControl(r.value.text)) then None else r
    else
      var n := PrefixLength(IsTokenChar, s);
      if strict && n == 0 then None else Some(Scanned(s[..n], s[n..]))
  }

  predicate IsBlank(c: char) {
    c == ' ' || c == '\t'
  }

  /** *( ";" name "=" value ) up to the end of the header. */
  function ReadParameters(strict: bool, s: string): Option<seq<Parameter>>
    decreases |s|
  {
    if s == "" then Some([])
    else if s[0] != ';' then None
    else
      var t := s[1..][PrefixLength(IsBlank, s[1..])..];
      var n := PrefixLength(IsTokenChar, t);
      if n == 0 || n == |t| || t[n] != '=' then None
      else
        var r := ReadValue(strict, t[..n], t[n + 1..]);
        if r.None? then None
        else Prepend([Parameter(t[..n], r.value.text)], ReadParameters(strict, r.value.rest))
  }

  function Read(strict: bool, header: string): Option<Header> {
    var n := PrefixLength(IsTokenChar, header);
    var parameters := ReadParameters(strict, header[n..]);
    if (strict && n == 0) || parameters.None? then None
    else Some(Header(header[..n], parameters.value))
  }

  /** The separators, as section 2.2 of RFC 2616 lists them. */
  const SEPARATORS := "()<>@,;:\\\"/[]?={} \t"

  /** The characters of a token: US-ASCII without controls and separators. */
  lemma TokenCharsAre(c: char)
    ensures IsSeparator(c) <==> c in SEPARATORS
    ensures IsTokenChar(c) <==> 0x20 < c as int < 0x7F && c !in SEPARATORS
  {
    if IsSeparator(c) {
      SeparatorAt(c);
    }
    forall i | 0 <= i < |SEPARATORS| ensures IsSeparator(SEPARATORS[i]) {
    }
  }

  lemma SeparatorAt(c: char)
    requires IsSeparator(c)
    ensures c in SEPARATORS
  {
    var s := SEPARATORS;
    assert s[0] == '(' && s[1] == ')' && s[2] == '<' && s[3] == '>' && s[4] == '@' && s[5] == ',';
    assert s[6] == ';' && s[7] == ':' && s[8] == '\\' && s[9] == '"' && s[10] == '/' && s[11] == '[';
    assert s[12] == ']' && s[13] == '?' && s[14] == '=' && s[15] == '{' && s[16] == '}';
    assert s[17] == ' ' && s[18] == '\t';
  }

  // ---------------------------------------------------------------- reading one parameter

  lemma TokenFacts()
    ensures !IsTokenChar(';') && !IsTokenChar('=') && !IsTokenChar('"') && !IsTokenChar(' ')
    ensures !IsTokenChar('\t')
  {
  }

  lemma PlainName()
    ensures PLAIN != "" && IsToken(PLAIN) && PLAIN[|PLAIN| - 1] != '*'
  {
  }

  lemma ExtendedName()
    ensures EXTENDED != "" && IsToken(EXTENDED) && EXTENDED[|EXTENDED| - 1] == '*'
  {
  }

  lemma CharsetName()
    ensures |CHARSET| == 7 && IsToken(CHARSET)
  {
  }

  lemma AttachmentIsToken()
    ensures IsToken("attachment")
  {
  }

  lemma ExtendedIsToken(c: char)
    requires ExtendedChar(c)
    ensures IsTokenChar(c)
  {
  }

  /** A token stops at the end of the header or at the ";" of the next parameter. */
  lemma TokenEnds(word: string, rest: string)
    requires IsToken(word)
    requires rest == "" || !IsTokenChar(rest[0])
    ensures PrefixLength(IsTokenChar, word + rest) == |word|
    ensures (word + rest)[..|word|] == word && (word + rest)[|word|..] == rest
  {
    PrefixLengthIs(IsTokenChar, word + rest, |word|);
  }

  lemma ReadName(strict: bool, name: string, tail: string)
    requires name != "" && IsToken(name)
    ensures var r := ReadValue(strict, name, tail);
            ReadParameters(strict, Field(name, tail)) ==
            if r.None? then None
            else Prepend([Parameter(name, r.value.text)], ReadParameters(strict, r.value.rest))
  {
    var s, t := Field(name, tail), name + ("=" + tail);
    TokenFacts();
    assert s[1..] == " " + t;
    assert !IsBlank(name[0]) by { assert IsTokenChar(name[0]); }
    PrefixLengthIs(IsBlank, s[1..], 1);
    assert s[1..][1..] == t;
    TokenEnds(name, "=" + tail);
    assert t[|name| + 1..] == tail;
  }

  lemma CharsetIs(value: string)
    ensures ExtendedValue(CHARSET + value) == PercentDecode(value)
  {
    var word := CHARSET + value;
    PrefixLengthIs(NotApostrophe, word, 5);
    assert word[..5] == "utf-8";
    PrefixLengthIs(NotApostrophe, word[6..], 0);
    assert word[6..][1..] == value;
  }

  lemma ExtendedWord(filename: string)
    ensures IsToken(CHARSET + PercentEncode(filename))
  {
    var value := PercentEncode(filename);
    EncodedChars(Utf8All(filename));
    CharsetName();
    forall i | 0 <= i < |CHARSET + value|
      ensures IsTokenChar((CHARSET + value)[i])
    {
      if i < 7 {
        assert IsTokenChar(CHARSET[i]);
      } else {
        assert ExtendedChar(value[i - 7]);
        ExtendedIsToken(value[i - 7]);
      }
    }
  }

  lemma ReadLastField(strict: bool, name: string, tail: string, value: string)
    requires name != "" && IsToken(name)
    requires ReadValue(strict, name, tail) == Some(Scanned(value, ""))
    ensures ReadParameters(strict, Field(name, tail)) == Some([Parameter(name, value)])
  {
    ReadName(strict, name, tail);
    assert ReadParameters(strict, "") == Some([]);
    assert [Parameter(name, value)] + [] == [Parameter(name, value)];
  }

  lemma ReadExtendedValue(strict: bool, filename: string)
    ensures ReadValue(strict, EXTENDED, CHARSET + PercentEncode(filename)) == Some(Scanned(filename, ""))
  {
    var word := CHARSET + PercentEncode(filename);
    ExtendedName();
    ExtendedWord(filename);
    TokenEnds(word, "");
    assert word + "" == word;
    CharsetIs(PercentEncode(filename));
    PercentRoundTrip(filename);
  }

  /** The extended parameter alone, at the end of the header. */
  lemma ReadLast(strict: bool, filename: string)
    ensures ReadParameters(strict, Extended(filename)) == Some([Parameter(EXTENDED, filename)])
  {
    ExtendedName();
    ReadExtendedValue(strict, filename);
    ReadLastField(strict, EXTENDED, CHARSET + PercentEncode(filename), filename);
  }

  lemma ReadTokenValue(strict: bool, filename: string)
    requires IsToken(filename)
    ensures ReadValue(strict, PLAIN, filename) ==
            if strict && filename == "" then None else Some(Scanned(filename, ""))
  {
    PlainName();
    TokenFacts();
    TokenEnds(filename, "");
    assert filename + "" == filename;
    assert filename != "" ==> IsTokenChar(filename[0]);
  }

  lemma ReadToken(strict: bool, filename: string)
    requires IsToken(filename)
    ensures ReadParameters(strict, Field(PLAIN, filename)) ==
            if strict && filename == "" then None else Some([Parameter(PLAIN, filename)])
  {
    PlainName();
    ReadTokenValue(strict, filename);
    if strict && filename == "" {
      ReadName(strict, PLAIN, filename);
    } else {
      ReadLastField(strict, PLAIN, filename, filename);
    }
  }

  lemma ReadQuotedValue(strict: bool, filename: string, rest: string)
    ensures ReadValue(strict, PLAIN, "\"" + EscapeString(filename) + "\"" + rest) ==
            if strict && HasControl(filename) then None else Some(Scanned(filename, rest))
  {
    PlainName();
    EscapeRoundTrip(filename, rest);
    assert ("\"" + EscapeString(filename) + "\"" + rest)[1..] == EscapeString(filename) + "\"" + rest;
  }

  lemma ReadQuoted(strict: bool, filename: string, rest: string)
    ensures ReadParameters(strict, Field(PLAIN, "\"" + EscapeString(filename) + "\"" + rest)) ==
            if strict && HasControl(filename) then None
            else Prepend([Parameter(PLAIN, filename)], ReadParameters(strict, rest))
  {
    PlainName();
    ReadName(strict, PLAIN, "\"" + EscapeString(filename) + "\"" + rest);
    ReadQuotedValue(strict, filename, rest);
  }

  // ---------------------------------------------------------------- round trip

  /** The parameters the printer chooses to send. */
  function Sent(filename: string): seq<Parameter> {
    if IsToken(filename) then [Parameter(PLAIN, filename)]
    else if !(IsAscii(filename) && IsLwsSafe(filename)) then [Parameter(EXTENDED, filename)]
    else if EscapeString(filename) == filename then [Parameter(PLAIN, filename)]
    else [Parameter(PLAIN, filename), Parameter(EXTENDED, filename)]
  }

  /** The names a header cannot carry within the grammar. */
  predicate OutsideGrammar(filename: string) {
    filename == "" || (Quotable(filename) && HasControl(filename))
  }

  /** Everything the printer adds after the disposition. */
  function Added(filename: string): string {
    if IsToken(filename) then Field(PLAIN, filename)
    else if IsAscii(filename) && IsLwsSafe(filename) then
      Field(PLAIN, "\"" + EscapeString(filename) + "\""
                   + if EscapeString(filename) == filename then "" else Extended(filename))
    else Extended(filename)
  }

  lemma BuiltOf(filename: string, disposition: string)
    requires disposition == "attachment" || IsToken(disposition)
    ensures BuildHeader(filename, disposition) == Some(disposition + Added(filename))
  {
    var quoted := "\"" + EscapeString(filename) + "\"";
    FieldGrows(PLAIN, quoted, Extended(filename));
    assert quoted + "" == quoted;
    ConcatThree(disposition, Field(PLAIN, quoted), Extended(filename));
  }

  lemma FieldGrows(name: string, value: string, more: string)
    ensures Field(name, value) + more == Field(name, value + more)
  {
  }

  lemma ReadQuotable(strict: bool, filename: string)
    requires Quotable(filename)
    ensures ReadParameters(strict, Added(filename)) ==
            if strict && HasControl(filename) then None else Some(Sent(filename))
  {
    var first := [Parameter(PLAIN, filename)];
    if EscapeString(filename) == filename {
      ReadQuoted(strict, filename, "");
      NothingLeft(strict, first);
    } else {
      ReadQuoted(strict, filename, Extended(filename));
      ReadLast(strict, filename);
      assert first + [Parameter(EXTENDED, filename)] == Sent(filename);
    }
  }

  lemma NothingLeft(strict: bool, first: seq<Parameter>)
    ensures Prepend(first, ReadParameters(strict, "")) == Some(first)
  {
    assert first + [] == first;
  }

  lemma ReadAdded(strict: bool, filename: string)
    ensures ReadParameters(strict, Added(filename)) ==
            if strict && OutsideGrammar(filename) then None else Some(Sent(filename))
  {
    assert IsToken("");
    if IsToken(filename) {
      ReadToken(strict, filename);
    } else if Quotable(filename) {
      ReadQuotable(strict, filename);
    } else {
      ReadLast(strict, filename);
    }
  }

  lemma SentIs(filename: string)
    ensures Sent(filename) != []
    ensures forall p | p in Sent(filename) :: p.value == filename && (p.name == PLAIN || p.name == EXTENDED)
  {
  }

  lemma ReadsBack(strict: bool, filename: string, disposition: string)
    requires IsToken(disposition)
    ensures var h := BuildHeader(filename, disposition);
            && h.Some?
            && Read(strict, h.value) ==
               if strict && (disposition == "" || OutsideGrammar(filename)) then None
               else Some(Header(disposition, Sent(filename)))
  {
    BuiltOf(filename, disposition);
    ReadAdded(strict, filename);
    TokenFacts();
    assert Added(filename)[0] == ';';
    TokenEnds(disposition, Added(filename));
  }

  /** Every filename and every accepted disposition: the header reads back as that disposition,
      with one or two parameters, each of which decodes to exactly that filename. */
  lemma RoundTrip(filename: string, disposition: string)
    ensures var h := BuildHeader(filename, disposition);
            && (h.None? <==> !IsToken(disposition))
            && (h.Some? ==>
                  var r := Read(false, h.value);
                  && r.Some? && r.value.disposition == disposition && r.value.parameters != []
                  && forall p | p in r.value.parameters ::
                       p.value == filename && (p.name == "filename" || p.name == "filename*"))
  {
    AttachmentIsToken();
    if IsToken(disposition) {
      ReadsBack(false, filename, disposition);
      SentIs(filename);
    }
  }

  /** Which parameters are sent: the plain one exactly when the filename is a token, or US-ASCII with
      tidy white space; the extended one exactly when the plain one is not, or when the filename is
      no token and holds a quote or a backslash. The plain one comes first. */
  lemma SentExactly(filename: string)
    ensures var plain, extended := Parameter("filename", filename), Parameter("filename*", filename);
            var readable := (forall c :: c in filename ==> c as int < 128) && Join(Split(filename)) == filename;
            Sent(filename) ==
            if IsToken(filename) then [plain]
            else if !readable then [extended]
            else if '"' in filename || '\\' in filename then [plain, extended]
            else [plain]
  {
    AsciiIs(filename);
    EscapesExactly(filename);
  }

  lemma AsciiIs(s: string)
    ensures IsAscii(s) <==> forall c :: c in s ==> c as int < 128
  {
    assert forall i :: 0 <= i < |s| ==> s[i] in s;
  }

  lemma EscapesExactly(s: string)
    ensures EscapeString(s) != s <==> '"' in s || '\\' in s
  {
    TwoPassesAreOne(s);
    EscapedPlain(s);
    assert Plain(s) <==> '"' !in s && '\\' !in s;
  }

  /** The header follows the grammar exactly unless the filename is empty, or is sent between
      quotes although it holds a control character, which no quoted text may. */
  lemma GrammarIsKept(filename: string, disposition: string)
    requires IsToken(disposition) && disposition != ""
    ensures Read(true, BuildHeader(filename, disposition).value).Some? <==> !OutsideGrammar(filename)
  {
    ReadsBack(true, filename, disposition);
  }

  /** One filename outside the grammar: U+0001 is neither a token character nor white space. */
  lemma ControlIsSentQuoted()
    ensures OutsideGrammar("\U{1}") && !OutsideGrammar("\U{A}")
  {
    var s := "\U{1}";
    assert !IsTokenChar(s[0]);
    PrefixLengthIs(NotSpace, s, 1);
    assert s[..1] == s && s[1..] == "";
    assert Split(s) == [s];
    assert IsControl(s[0]);
    var t := "\U{A}";
    assert IsSpace(t[0]) && t[1..] == "";
    assert Join(Split(t)) == "" != t;
  }
}
