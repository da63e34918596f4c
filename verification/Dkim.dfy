/**
 DKIM records in the DNS (modoboa/dnstools/lib.py): a TXT record is a list of strings, printed
 by the resolver library each between double quotes, and is put together again by one
 replacement and one strip (`_get_record_type_value`); then its tags are checked and the
 public key is read (`check_dkim_syntax`, section 3.6.1 of RFC 6376).
 */
module Dkim {
  import opened Text
  import opened Strings

  // ---------------------------------------------------------------- reassembly

  function DecimalDigit(n: int): char
    requires 0 <= n < 10
  {
    '0' + n as char
  }

  /** One octet as the resolver prints it: quotes and backslashes behind a backslash, octets
      that are not printing US-ASCII as a backslash and three decimal digits. */
  function PrintedOctet(c: char): string {
    var n := c as int;
    if c == '"' || c == '\\' then ['\\', c]
    else if 0x20 <= n < 0x7F then [c]
    else ['\\', DecimalDigit(n / 100 % 10), DecimalDigit(n / 10 % 10), DecimalDigit(n % 10)]
  }

  function Printed(s: string): string {
    if s == "" then "" else PrintedOctet(s[0]) + Printed(s[1..])
  }

  function PrintedAll(chunks: seq<string>): seq<string> {
    seq(|chunks|, i requires 0 <= i < |chunks| => Printed(chunks[i]))
  }

  /** The text after the opening quote, the strings being printed: `c1" "c2" ... "cn"`. */
  function Body(printed: seq<string>): string
    requires printed != []
  {
    printed[0] + ("\"" + if |printed| == 1 then "" else " \"" + Body(printed[1..]))
  }

  function Quoted(printed: seq<string>): string
    requires printed != []
  {
    "\"" + Body(printed)
  }

  /** How the resolver prints a record of these strings of octets. */
  function Presentation(chunks: seq<string>): string
    requires chunks != []
  {
    Quoted(PrintedAll(chunks))
  }

  predicate Joint(s: string) {
    |s| >= 3 && s[0] == '"' && s[1] == ' ' && s[2] == '"'
  }

  /** `s.replace('" "', "")`: leftmost, non-overlapping. */
  function DropJoints(s: string): string {
    if s == "" then ""
    else if Joint(s) then DropJoints(s[3..])
    else [s[0]] + DropJoints(s[1..])
  }

  function Reassemble(record: string): string {
    Strip(DropJoints(record), '"')
  }

  predicate QuoteFree(chunks: seq<string>) {
    forall i :: 0 <= i < |chunks| ==> Free(chunks[i], '"')
  }

  lemma {:induction false} DropText(text: string, tail: string)
    requires Free(text, '"')
    ensures DropJoints(text + tail) == text + DropJoints(tail)
  {
    if text == "" {
      assert text + tail == tail;
    } else {
      assert (text + tail)[0] == text[0] && (text + tail)[1..] == text[1..] + tail;
      DropText(text[1..], tail);
    }
  }

  lemma DropJoint(tail: string)
    ensures DropJoints("\"" + (" \"" + tail)) == DropJoints(tail)
  {
    assert ("\"" + (" \"" + tail))[3..] == tail;
  }

  lemma DropLast()
    ensures DropJoints("\"" + "") == "\""
  {
    assert ("\"" + "")[1..] == "";
  }

  /** Inside the record every quote belongs to a joint, whatever the strings are. */
  lemma {:induction false} DropBody(chunks: seq<string>)
    requires chunks != [] && QuoteFree(chunks)
    ensures DropJoints(Body(chunks)) == Concat(chunks) + "\""
  {
    if |chunks| == 1 {
      DropText(chunks[0], "\"" + "");
      DropLast();
      assert Concat(chunks) == chunks[0] + "";
    } else {
      DropText(chunks[0], "\"" + (" \"" + Body(chunks[1..])));
      DropJoint(Body(chunks[1..]));
      DropBody(chunks[1..]);
      ConcatThree(chunks[0], Concat(chunks[1..]), "\"");
    }
  }

  lemma BodyOpens(chunks: seq<string>)
    requires chunks != [] && QuoteFree(chunks)
    ensures Joint(Quoted(chunks)) <==> chunks[0] == " "
  {
    var c, s := chunks[0], Quoted(chunks);
    if |c| >= 1 {
      assert s[1] == c[0];
      if |c| >= 2 { assert s[2] == c[1]; }
    }
  }

  lemma {:induction false} ConcatFree(chunks: seq<string>, c: char)
    requires forall i :: 0 <= i < |chunks| ==> Free(chunks[i], c)
    ensures Free(Concat(chunks), c)
  {
    if chunks != [] {
      ConcatFree(chunks[1..], c);
    }
  }

  lemma StripQuotes(s: string)
    requires Free(s, '"')
    ensures Strip("\"" + (s + "\""), '"') == s
    ensures StripRight("\"" + (s + "\""), '"') == if s == "" then "" else "\"" + s
  {
    var whole := "\"" + (s + "\"");
    assert whole[1..] == s + "\"";
    StripRightEnd(s, '"', 1);
    assert s + Run('"', 1) == s + "\"";
    if s == "" {
      assert s + "\"" == "\"" && "\""[1..] == "";
      assert StripLeft("\"", '"') == "";
      assert whole[..1] == "\"" && "\""[..0] == "";
    } else {
      assert (s + "\"")[0] == s[0] != '"';
      assert StripLeft(s + "\"", '"') == s + "\"";
      assert whole[..|whole| - 1] == "\"" + s;
    }
  }

  lemma ReassembleOther(chunks: seq<string>)
    requires chunks != [] && QuoteFree(chunks) && chunks[0] != " "
    ensures DropJoints(Quoted(chunks)) == "\"" + (Concat(chunks) + "\"")
    ensures Reassemble(Quoted(chunks)) == Concat(chunks)
  {
    BodyOpens(chunks);
    assert Quoted(chunks)[1..] == Body(chunks);
    DropBody(chunks);
    ConcatFree(chunks, '"');
    StripQuotes(Concat(chunks));
  }

  // ---------------------------------------------------------------- when it fails

  /** What is left of a record whose first string is a single space: the opening quote, the
      space and the closing quote are taken for a joint. */
  lemma DropSpaceFirst(chunks: seq<string>)
    requires chunks != [] && QuoteFree(chunks) && chunks[0] == " "
    ensures DropJoints(Quoted(chunks)) ==
            if |chunks| == 1 then "" else " " + DropJoints(Quoted(chunks[1..]))
  {
    BodyOpens(chunks);
    var left := Quoted(chunks)[3..];
    if |chunks| == 1 {
      assert left == "";
    } else {
      assert left == " " + Quoted(chunks[1..]);
      DropText(" ", Quoted(chunks[1..]));
    }
  }

  /** The strings after the leading single spaces are there, and all empty. */
  predicate BlankTail(chunks: seq<string>) {
    chunks != [] && if chunks[0] == " " then BlankTail(chunks[1..]) else Concat(chunks) == ""
  }

  predicate Reassembles(chunks: seq<string>) {
    chunks != [] && (chunks[0] != " " || BlankTail(chunks))
  }

  lemma {:induction false} StripRightSpace(s: string)
    ensures StripRight(" " + s, '"') == " " + StripRight(s, '"')
  {
    if s != "" && s[|s| - 1] == '"' {
      assert (" " + s)[..|s|] == " " + s[..|s| - 1];
      StripRightSpace(s[..|s| - 1]);
    }
  }

  lemma {:induction false} RightEnd(chunks: seq<string>)
    requires chunks != [] && QuoteFree(chunks)
    ensures StripRight(DropJoints(Quoted(chunks)), '"') == Concat(chunks) <==> BlankTail(chunks)
  {
    if chunks[0] != " " {
      ReassembleOther(chunks);
      ConcatFree(chunks, '"');
      StripQuotes(Concat(chunks));
    } else {
      DropSpaceFirst(chunks);
      if |chunks| > 1 {
        RightEnd(chunks[1..]);
        StripRightSpace(DropJoints(Quoted(chunks[1..])));
        AfterSpace(StripRight(DropJoints(Quoted(chunks[1..])), '"'), Concat(chunks[1..]));
      }
    }
  }

  lemma AfterSpace(a: string, b: string)
    ensures " " + a == " " + b <==> a == b
  {
    assert (" " + a)[1..] == a && (" " + b)[1..] == b;
  }

  lemma QuotedIsExact(chunks: seq<string>)
    requires chunks != [] && QuoteFree(chunks)
    ensures Reassemble(Quoted(chunks)) == Concat(chunks) <==> Reassembles(chunks)
  {
    if chunks[0] != " " {
      ReassembleOther(chunks);
    } else {
      DropSpaceFirst(chunks);
      RightEnd(chunks);
    }
  }

  // ---------------------------------------------------------------- printed octets

  lemma {:induction false} PrintedFree(s: string)
    requires Free(s, '"')
    ensures Free(Printed(s), '"')
  {
    if s != "" {
      PrintedFree(s[1..]);
    }
  }

  lemma PrintedAllFree(chunks: seq<string>)
    requires QuoteFree(chunks)
    ensures QuoteFree(PrintedAll(chunks))
  {
    forall i | 0 <= i < |chunks|
      ensures Free(PrintedAll(chunks)[i], '"')
    {
      PrintedFree(chunks[i]);
    }
  }

  /** How each octet is printed: itself; itself behind a backslash, for a quote or a backslash; or a
      backslash and its value in three decimal digits. */
  lemma PrintedOctetIs(c: char)
    requires c as int < 0x100
    ensures var p, n := PrintedOctet(c), c as int;
            if c == '"' then p == "\\\"" else if c == '\\' then p == "\\\\"
            else if 0x20 <= n < 0x7F then p == [c]
            else && |p| == 4 && p[0] == '\\'
                 && (forall i :: 1 <= i < 4 ==> '0' <= p[i] <= '9')
                 && n == (p[1] as int - '0' as int) * 100 + (p[2] as int - '0' as int) * 10
                         + (p[3] as int - '0' as int)
  {
  }

  lemma {:induction false} PrintedConcat(a: string, b: string)
    ensures Printed(a + b) == Printed(a) + Printed(b)
  {
    if a == "" {
      assert a + b == b;
    } else {
      assert (a + b)[0] == a[0] && (a + b)[1..] == a[1..] + b;
      PrintedConcat(a[1..], b);
    }
  }

  lemma PrintedRest(chunks: seq<string>)
    requires chunks != []
    ensures PrintedAll(chunks)[1..] == PrintedAll(chunks[1..])
  {
  }

  lemma {:induction false} PrintedText(chunks: seq<string>)
    ensures Concat(PrintedAll(chunks)) == Printed(Concat(chunks))
  {
    if chunks != [] {
      PrintedText(chunks[1..]);
      PrintedRest(chunks);
      PrintedConcat(chunks[0], Concat(chunks[1..]));
    }
  }

  lemma PrintedShort(s: string)
    ensures Printed(s) == "" <==> s == ""
    ensures Printed(s) == " " <==> s == " "
  {
    if s != "" {
      assert Printed(s) == PrintedOctet(s[0]) + Printed(s[1..]);
      if |s| > 1 {
        assert Printed(s[1..]) == PrintedOctet(s[1..][0]) + Printed(s[1..][1..]);
      } else {
        assert s[1..] == "";
      }
    }
  }

  lemma {:induction false} PrintedBlankTail(chunks: seq<string>)
    ensures BlankTail(PrintedAll(chunks)) <==> BlankTail(chunks)
  {
    if chunks != [] {
      PrintedShort(chunks[0]);
      PrintedRest(chunks);
      PrintedBlankTail(chunks[1..]);
      PrintedText(chunks);
      PrintedShort(Concat(chunks));
    }
  }

  /** An octet that is printed as itself. */
  predicate SelfPrinted(c: char) {
    0x20 <= c as int < 0x7F && c != '"' && c != '\\'
  }

  lemma {:induction false} PrintedPlain(s: string)
    ensures Printed(s) == s <==> forall i :: 0 <= i < |s| ==> SelfPrinted(s[i])
    ensures |Printed(s)| >= |s|
  {
    if s != "" {
      PrintedPlain(s[1..]);
      assert s == [s[0]] + s[1..];
      assert forall i :: 0 < i < |s| ==> s[i] == s[1..][i - 1];
      if SelfPrinted(s[0]) {
        assert Printed(s)[1..] == Printed(s[1..]);
      } else {
        assert |Printed(s)| > |s|;
      }
    }
  }

  /** For strings of any octets but quotes: the record, read back, is the concatenation of its
      strings as the resolver prints it, exactly under this condition on the first string. */
  lemma ReassemblyIsExact(chunks: seq<string>)
    requires chunks != [] && QuoteFree(chunks)
    ensures Reassemble(Presentation(chunks)) == Printed(Concat(chunks)) <==> Reassembles(chunks)
  {
    PrintedAllFree(chunks);
    QuotedIsExact(PrintedAll(chunks));
    PrintedText(chunks);
    PrintedShort(chunks[0]);
    PrintedBlankTail(chunks);
  }

  /** With plain octets only, what is read is the text itself. */
  lemma PlainReassembly(chunks: seq<string>)
    requires chunks != [] && chunks[0] != " "
    requires forall i :: 0 <= i < |Concat(chunks)| ==> SelfPrinted(Concat(chunks)[i])
    ensures Reassemble(Presentation(chunks)) == Concat(chunks)
  {
    ChunksFree(chunks);
    ReassemblyIsExact(chunks);
    PrintedPlain(Concat(chunks));
  }

  lemma {:induction false} ChunksFree(chunks: seq<string>)
    requires forall i :: 0 <= i < |Concat(chunks)| ==> SelfPrinted(Concat(chunks)[i])
    ensures QuoteFree(chunks)
  {
    if chunks != [] {
      var rest := Concat(chunks[1..]);
      assert forall i :: 0 <= i < |chunks[0]| ==> chunks[0][i] == Concat(chunks)[i];
      assert forall i :: 0 <= i < |rest| ==> rest[i] == Concat(chunks)[|chunks[0]| + i];
      ChunksFree(chunks[1..]);
    }
  }

  /** A record that is read with a stray quote: a space, then the rest. */
  lemma SpaceFirstIsLost()
    ensures Reassemble(Presentation([" ", "a"])) == " \"a" && Concat([" ", "a"]) == " a"
  {
    var rest := ["a"];
    assert "a"[1..] == "" && " "[1..] == "";
    assert Printed("a") == "a" && Printed(" ") == " ";
    assert PrintedAll([" ", "a"]) == [" ", "a"];
    ReassembleOther(rest);
    assert Concat(rest) == "a" + "";
    assert [" ", "a"][1..] == rest;
    DropSpaceFirst([" ", "a"]);
    StripRightSpace("\"" + ("a" + "\""));
    StripQuotes("a");
    assert Concat([" ", "a"]) == " " + Concat(rest);
  }

  // ---------------------------------------------------------------- looking for a record

  /** `_get_record_type_value`; no answer from the DNS is None. */
  method GetRecordTypeValue(records: Option<seq<string>>, rrType: string) returns (r: Option<string>)
    ensures records.None? ==> r == None
    ensures records.Some? && r == None ==>
              forall i :: 0 <= i < |records.value| ==>
                !StartsWith(Reassemble(records.value[i]), "v=" + rrType)
    ensures records.Some? && r.Some? ==>
              exists i :: 0 <= i < |records.value| && r.value == Reassemble(records.value[i])
                && StartsWith(r.value, "v=" + rrType)
                && forall j :: 0 <= j < i ==> !StartsWith(Reassemble(records.value[j]), "v=" + rrType)
  {
    if records.None? {
      return None;
    }
    var i := 0;
    while i < |records.value|
      invariant 0 <= i <= |records.value|
      invariant forall j :: 0 <= j < i ==> !StartsWith(Reassemble(records.value[j]), "v=" + rrType)
    {
      var value := Reassemble(records.value[i]);
      if StartsWith(value, "v=" + rrType) {
        return Some(value);
      }
      i := i + 1;
    }
    return None;
  }

  lemma SpaceStarts(chunks: seq<string>)
    requires chunks != [] && QuoteFree(chunks) && chunks[0] == " "
    ensures Concat(chunks)[0] == ' '
    ensures Reassemble(Quoted(chunks)) == "" || Reassemble(Quoted(chunks))[0] == ' '
  {
    DropSpaceFirst(chunks);
    if |chunks| > 1 {
      StripRightSpace(DropJoints(Quoted(chunks[1..])));
    }
  }

  lemma QuotedStarts(chunks: seq<string>, rrType: string)
    requires chunks != [] && QuoteFree(chunks)
    ensures var value := Reassemble(Quoted(chunks));
            && (StartsWith(value, "v=" + rrType) <==> StartsWith(Concat(chunks), "v=" + rrType))
            && (StartsWith(value, "v=" + rrType) ==> value == Concat(chunks))
  {
    if chunks[0] != " " {
      ReassembleOther(chunks);
    } else {
      SpaceStarts(chunks);
      NotSpaceStart(Reassemble(Quoted(chunks)), rrType);
      NotSpaceStart(Concat(chunks), rrType);
    }
  }

  lemma {:induction false} PrintedStarts(s: string, prefix: string)
    requires forall i :: 0 <= i < |prefix| ==> SelfPrinted(prefix[i])
    ensures StartsWith(Printed(s), prefix) <==> StartsWith(s, prefix)
  {
    if prefix != "" && s != "" {
      var p, q := Printed(s), prefix[1..];
      PrintedStarts(s[1..], q);
      if SelfPrinted(s[0]) {
        assert p[0] == s[0] && p[1..] == Printed(s[1..]);
        StartsOne(p, prefix);
        StartsOne(s, prefix);
      } else {
        assert p[0] == '\\';
        StartsOne(p, prefix);
        StartsOne(s, prefix);
      }
    }
  }

  lemma StartsOne(s: string, prefix: string)
    requires s != "" && prefix != ""
    ensures StartsWith(s, prefix) <==> s[0] == prefix[0] && StartsWith(s[1..], prefix[1..])
  {
    if |prefix| <= |s| {
      assert s[..|prefix|] == [s[0]] + s[1..][..|prefix| - 1];
      assert prefix == [prefix[0]] + prefix[1..];
    }
  }

  /** However a record is cut into strings, empty and single-space ones included, it is taken
      for a record of the type exactly when its text is one, and then it is read as its text. */
  lemma ChunksDoNotMatter(chunks: seq<string>, rrType: string)
    requires chunks != [] && QuoteFree(chunks)
    requires forall i :: 0 <= i < |rrType| ==> SelfPrinted(rrType[i])
    ensures var value := Reassemble(Presentation(chunks));
            && (StartsWith(value, "v=" + rrType) <==> StartsWith(Concat(chunks), "v=" + rrType))
            && (StartsWith(value, "v=" + rrType) ==> value == Printed(Concat(chunks)))
  {
    PrintedAllFree(chunks);
    QuotedStarts(PrintedAll(chunks), rrType);
    PrintedText(chunks);
    PrintedStarts(Concat(chunks), "v=" + rrType);
  }

  lemma NotSpaceStart(s: string, rrType: string)
    requires s == "" || s[0] == ' '
    ensures !StartsWith(s, "v=" + rrType)
  {
    assert ("v=" + rrType)[0] == 'v';
    assert s != "" ==> s[..|s|][0] == ' ';
  }
}
