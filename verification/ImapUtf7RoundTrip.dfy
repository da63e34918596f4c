/** What the mailbox-name codec promises: round trip, canonical form, size. */
module ImapUtf7RoundTrip {
  import opened Text
  import opened Base64Units
  import opened ImapUtf7
  import opened ImapUtf7Sections
  import Utf7

  /** What decoding makes of the encoded form of `s`. */
  function Surviving(s: seq<Code>): Option<seq<Code>>
    decreases |s|
  {
    if s == [] then Some([])
    else if !Shifted(s[0]) then Prepend([s[0]], Surviving(s[1..]))
    else
      var n := RunLength(s);
      assert n > 0;
      Concat(Survivor(s[..n]), Surviving(s[n..]))
  }

  /** Every TAB, LF and CR stands between two characters of its section. */
  predicate Tight(s: seq<Code>) {
    forall i :: 0 <= i < |s| && Utf7.DirectSpace(s[i]) ==>
      0 < i && Shifted(s[i - 1]) && i + 1 < |s| && Shifted(s[i + 1])
  }

  lemma ConcatPrepend<T>(a: seq<T>, b: Option<seq<T>>, c: Option<seq<T>>)
    ensures Prepend(a, Concat(b, c)) == Concat(Prepend(a, b), c)
  {
    if b.Some? && c.Some? {
      assert a + (b.value + c.value) == a + b.value + c.value;
    }
  }

  lemma ConcatTwice<T>(a: Option<seq<T>>, b: Option<seq<T>>, c: Option<seq<T>>)
    ensures Concat(a, Concat(b, c)) == Concat(Concat(a, b), c)
  {
    if a.Some? {
      ConcatPrepend(a.value, b, c);
    }
  }

  lemma DecodeAmp(rest: seq<Byte>)
    ensures Decode([AMP, DASH] + rest) == Prepend([AMP], Decode(rest))
  {
    DecodeSection([], rest);
    assert [AMP] + [] + [DASH] + rest == [AMP, DASH] + rest;
  }

  lemma DecodeEncodedSection(run: seq<Code>, tail: seq<Byte>)
    requires run != [] && AllShifted(run) && AllScalar(run)
    ensures Decode(Section(run) + tail) == Concat(Survivor(run), Decode(tail))
  {
    if Utf7.DirectSpace(run[0]) {
      SurvivorOfSpace(run);
    } else {
      SurvivorOfBase64(run);
    }
    PayloadOf(run);
    DecodeSection(ModifiedUtf7(run), tail);
  }

  /** Decoding an encoded name, with anything after it: every name ends in the ASCII state. */
  lemma {:induction false} DecodeEncodeThen(s: seq<Code>, tail: seq<Byte>)
    requires AllScalar(s)
    ensures Decode(Encode(s) + tail) == Concat(Surviving(s), Decode(tail))
    decreases |s|
  {
    if s == [] {
      assert Encode(s) + tail == tail;
      PrependNothing(Decode(tail));
    } else if !Shifted(s[0]) {
      DecodeEncodeThen(s[1..], tail);
      ConcatPrepend([s[0]], Surviving(s[1..]), Decode(tail));
      if s[0] == AMP {
        DecodeAmp(Encode(s[1..]) + tail);
        ConcatThree([AMP, DASH], Encode(s[1..]), tail);
      } else {
        DecodeLiteral(s[0], Encode(s[1..]) + tail);
        ConcatThree([s[0]], Encode(s[1..]), tail);
      }
    } else {
      var n := RunLength(s);
      DecodeEncodeThen(s[n..], tail);
      DecodeEncodedSection(s[..n], Encode(s[n..]) + tail);
      ConcatThree(Section(s[..n]), Encode(s[n..]), tail);
      ConcatTwice(Survivor(s[..n]), Surviving(s[n..]), Decode(tail));
    }
  }

  /** What decoding undoes, for every name. */
  lemma DecodeEncode(s: seq<Code>)
    requires AllScalar(s)
    ensures Decode(Encode(s)) == Surviving(s)
  {
    DecodeEncodeThen(s, []);
    assert Encode(s) + [] == Encode(s);
    if Surviving(s).Some? {
      assert Surviving(s).value + [] == Surviving(s).value;
    }
  }

  lemma SurvivorIs(run: seq<Code>)
    requires run != [] && AllShifted(run)
    ensures Survivor(run).Some? ==> |Survivor(run).value| <= |run|
    ensures Survivor(run) == Some(run) <==> !Utf7.DirectSpace(run[0]) && !EndsDirect(run)
  {
    if !Utf7.DirectSpace(run[0]) && EndsDirect(run) {
      var c := Closed(run);
      if |c| == |run| {
        assert c[|c| - 1] == DASH;
      }
    }
  }

  lemma TightUnshifted(s: seq<Code>)
    requires s != [] && !Shifted(s[0])
    ensures Tight(s) <==> Tight(s[1..])
  {
    var t := s[1..];
    if Tight(s) {
      forall i | 0 <= i < |t| && Utf7.DirectSpace(t[i])
        ensures 0 < i && Shifted(t[i - 1]) && i + 1 < |t| && Shifted(t[i + 1])
      {
        assert Utf7.DirectSpace(s[i + 1]);
      }
    }
    if Tight(t) {
      forall i | 0 <= i < |s| && Utf7.DirectSpace(s[i])
        ensures 0 < i && Shifted(s[i - 1]) && i + 1 < |s| && Shifted(s[i + 1])
      {
        assert Utf7.DirectSpace(t[i - 1]);
      }
    }
  }

  lemma TightRun(s: seq<Code>, n: nat)
    requires 0 < n <= |s| && AllShifted(s[..n]) && (n < |s| ==> !Shifted(s[n]))
    ensures Tight(s) <==> Tight(s[n..]) && !Utf7.DirectSpace(s[0]) && !Utf7.DirectSpace(s[n - 1])
  {
    var t := s[n..];
    assert forall i :: 0 <= i < n ==> s[..n][i] == s[i];
    if Tight(s) {
      forall i | 0 <= i < |t| && Utf7.DirectSpace(t[i])
        ensures 0 < i && Shifted(t[i - 1]) && i + 1 < |t| && Shifted(t[i + 1])
      {
        assert Utf7.DirectSpace(s[i + n]);
      }
    }
    if Tight(t) && !Utf7.DirectSpace(s[0]) && !Utf7.DirectSpace(s[n - 1]) {
      forall i | 0 <= i < |s| && Utf7.DirectSpace(s[i])
        ensures 0 < i && Shifted(s[i - 1]) && i + 1 < |s| && Shifted(s[i + 1])
      {
        if i >= n { assert Utf7.DirectSpace(t[i - n]); }
      }
    }
  }

  lemma {:induction false} SurvivingIs(s: seq<Code>)
    ensures Surviving(s).Some? ==> |Surviving(s).value| <= |s|
    ensures Surviving(s) == Some(s) <==> Tight(s)
    decreases |s|
  {
    if s == [] {
    } else if !Shifted(s[0]) {
      SurvivingIs(s[1..]);
      TightUnshifted(s);
      SplitEqual([s[0]], Surviving(s[1..]), [s[0]], s[1..]);
      assert s == [s[0]] + s[1..];
    } else {
      var n := RunLength(s);
      SurvivingIs(s[n..]);
      SurvivingRun(s, n, Surviving(s[n..]));
    }
  }

  /** A leading section and what survives of the rest. */
  lemma SurvivingRun(s: seq<Code>, n: nat, rest: Option<seq<Code>>)
    requires 0 < n <= |s| && AllShifted(s[..n]) && (n < |s| ==> !Shifted(s[n]))
    requires rest.Some? ==> |rest.value| <= |s[n..]|
    requires rest == Some(s[n..]) <==> Tight(s[n..])
    ensures Concat(Survivor(s[..n]), rest) == Some(s) <==> Tight(s)
    ensures Concat(Survivor(s[..n]), rest).Some? ==> |Concat(Survivor(s[..n]), rest).value| <= |s|
  {
    var run := s[..n];
    SurvivorIs(run);
    TightRun(s, n);
    assert run[|run| - 1] == s[n - 1];
    ConcatEqual(Survivor(run), rest, run, s[n..]);
    assert s == run + s[n..];
  }

  /** Two texts no longer than their counterparts concatenate to the same only when each is the same. */
  lemma SplitEqual(a: seq<Code>, b: Option<seq<Code>>, x: seq<Code>, y: seq<Code>)
    requires |a| <= |x| && (b.Some? ==> |b.value| <= |y|)
    ensures Prepend(a, b) == Some(x + y) <==> a == x && b == Some(y)
    ensures Prepend(a, b).Some? ==> |Prepend(a, b).value| <= |x + y|
  {
    if Prepend(a, b) == Some(x + y) {
      var all := a + b.value;
      assert |all| == |x + y|;
      assert a == all[..|a|] && b.value == all[|a|..];
      assert x == (x + y)[..|x|] && y == (x + y)[|x|..];
    }
  }

  lemma ConcatEqual(a: Option<seq<Code>>, b: Option<seq<Code>>, x: seq<Code>, y: seq<Code>)
    requires (a.Some? ==> |a.value| <= |x|) && (b.Some? ==> |b.value| <= |y|)
    ensures Concat(a, b) == Some(x + y) <==> a == Some(x) && b == Some(y)
    ensures Concat(a, b).Some? ==> |Concat(a, b).value| <= |x + y|
  {
    if a.Some? {
      SplitEqual(a.value, b, x, y);
    }
  }

  /** A name survives encoding and decoding exactly when no section starts or ends with TAB, LF or CR. */
  lemma RoundTrip(s: seq<Code>)
    requires AllScalar(s)
    ensures Decode(Encode(s)) == Some(s) <==> Tight(s)
  {
    DecodeEncode(s);
    SurvivingIs(s);
  }

  /** TAB, LF and CR. */
  predicate Lost(c: Code) {
    c == 0x09 || c == 0x0A || c == 0x0D
  }

  /** The promised domain: no TAB, LF or CR at all. */
  lemma RoundTripWithoutControls(s: seq<Code>)
    requires AllScalar(s)
    requires forall i :: 0 <= i < |s| ==> !Lost(s[i])
    ensures Decode(Encode(s)) == Some(s)
  {
    assert forall i :: 0 <= i < |s| ==> !Utf7.DirectSpace(s[i]);
    RoundTrip(s);
  }

  /** The names consisting of one TAB, one LF or one CR are encoded like "&" and come back as "&". */
  lemma TabIsLost(c: Code)
    requires Lost(c)
    ensures Encode([c]) == [0x26, 0x2D] && Decode(Encode([c])) == Some([0x26])
  {
    var s: seq<Code> := [c];
    EncodeOne(c);
    EncodeRun(s, []);
    assert s + [] == s;
    assert ModifiedUtf7(s) == [];
    DecodeAmp([]);
    assert [AMP, DASH] + [] == [AMP, DASH];
    assert [AMP as Code] + [] == [AMP];
  }

  lemma EncodeUnshifted(c: Code, rest: seq<Code>)
    requires !Shifted(c)
    ensures Encode([c] + rest) == (if c == AMP then [AMP, DASH] else [c]) + Encode(rest)
  {
    assert ([c] + rest)[1..] == rest;
  }

  /** Encoding distributes over a cut in front of a character that is not shifted. */
  lemma {:induction false} EncodeSplits(a: seq<Code>, t: seq<Code>)
    requires t != [] && !Shifted(t[0])
    ensures Encode(a + t) == Encode(a) + Encode(t)
    decreases |a|
  {
    if a == [] {
      assert a + t == t;
    } else if !Shifted(a[0]) {
      EncodeSplits(a[1..], t);
      UnshiftedSplits(a[0], a[1..], t);
      assert a == [a[0]] + a[1..];
    } else {
      var run, rest := FirstRun(a);
      EncodeSplits(rest, t);
      RunSplits(run, rest, t);
    }
  }

  lemma FirstRun(a: seq<Code>) returns (run: seq<Code>, rest: seq<Code>)
    requires a != [] && Shifted(a[0])
    ensures a == run + rest && run != [] && AllShifted(run) && (rest != [] ==> !Shifted(rest[0]))
  {
    var n := RunLength(a);
    run, rest := a[..n], a[n..];
  }

  lemma UnshiftedSplits(c: Code, rest: seq<Code>, t: seq<Code>)
    requires !Shifted(c) && Encode(rest + t) == Encode(rest) + Encode(t)
    ensures Encode([c] + rest + t) == Encode([c] + rest) + Encode(t)
  {
    ConcatThree([c], rest, t);
    EncodeUnshifted(c, rest);
    EncodeUnshifted(c, rest + t);
    ConcatThree(if c == AMP then [AMP, DASH] else [c], Encode(rest), Encode(t));
  }

  lemma RunSplits(run: seq<Code>, rest: seq<Code>, t: seq<Code>)
    requires AllShifted(run) && (rest != [] ==> !Shifted(rest[0])) && t != [] && !Shifted(t[0])
    requires Encode(rest + t) == Encode(rest) + Encode(t)
    ensures Encode(run + rest + t) == Encode(run + rest) + Encode(t)
  {
    ConcatThree(run, rest, t);
    EncodeRun(run, rest);
    EncodeRun(run, rest + t);
    ConcatThree(Pending(run), Encode(rest), Encode(t));
  }

  /** A printing US-ASCII character stands for itself wherever it is, and "&" is written "&-". */
  lemma PrintingStandsForItself(a: seq<Code>, c: Code, b: seq<Code>)
    requires 0x20 <= c <= 0x7E
    ensures Encode(a + ([c] + b)) == Encode(a) + ((if c == 0x26 then [0x26, 0x2D] else [c]) + Encode(b))
  {
    EncodeSplits(a, [c] + b);
    EncodeUnshifted(c, b);
  }

  /** Encoded names can be concatenated. */
  lemma ConcatenatedNames(a: seq<Code>, b: seq<Code>)
    requires AllScalar(a) && AllScalar(b) && Tight(a) && Tight(b)
    ensures Decode(Encode(a) + Encode(b)) == Some(a + b)
  {
    DecodeEncodeThen(a, Encode(b));
    SurvivingIs(a);
    RoundTrip(b);
  }

  /** No two names that survive share an encoded form. */
  lemma EncodeInjective(a: seq<Code>, b: seq<Code>)
    requires AllScalar(a) && AllScalar(b) && Tight(a) && Tight(b)
    requires Encode(a) == Encode(b)
    ensures a == b
  {
    RoundTrip(a);
    RoundTrip(b);
  }

  lemma ExamplePack()
    ensures Pack([0x53F0, 0x5317]) == [20, 63, 1, 19, 5, 48]
  {
    var units: seq<Word> := [0x53F0, 0x5317];
    assert units[1..] == [0x5317] && units[1..][1..] == [];
    assert PackFrom([], Two(3)) == [48];
    assert PackFrom([0x5317], Four(0)) == [1, 19, 5] + [48];
    assert PackFrom(units, Zero) == [20, 63] + [1, 19, 5, 48];
  }

  lemma ExampleRun()
    ensures Utf7.Run([0x53F0, 0x5317]) == [0x2B, 0x55, 0x2F, 0x42, 0x54, 0x46, 0x77]
  {
    var run: seq<Code> := [0x53F0, 0x5317];
    assert run[1..] == [0x5317] && run[1..][1..] == [];
    assert Utf7.Utf16All([0x5317]) == [0x5317] + [];
    assert Utf7.Utf16All(run) == [0x53F0, 0x5317];
    ExamplePack();
  }

  lemma ExampleEncoded()
    ensures Utf7.Encode([0x53F0, 0x5317]) == [0x2B, 0x55, 0x2F, 0x42, 0x54, 0x46, 0x77, 0x2D]
  {
    var run: seq<Code> := [0x53F0, 0x5317];
    ExampleRun();
    EncodeBase64End(run);
  }

  lemma ReplaceExample(b: seq<Byte>)
    requires b == [0x2B, 0x55, 0x2F, 0x42, 0x54, 0x46, 0x77, 0x2D]
    ensures Replace(Inner(b), SLASH, COMMA) == [0x55, 0x2C, 0x42, 0x54, 0x46, 0x77]
  {
  }

  /** The second section of the example in section 5.1.3 of RFC 3501, "&U,BTFw-". */
  lemma Rfc3501Example()
    ensures Section([0x53F0, 0x5317]) == [0x26, 0x55, 0x2C, 0x42, 0x54, 0x46, 0x77, 0x2D]
  {
    ExampleEncoded();
    ReplaceExample(Utf7.Encode([0x53F0, 0x5317]));
  }

  lemma AccentRun()
    ensures Utf7.Run([0xED]) == [0x2B, 0x41, 0x4F, 0x30]
  {
    var s: seq<Code> := [0xED];
    assert s[1..] == [];
    assert Utf7.Utf16All(s) == [0xED] + [];
    assert PackFrom([], Four(13)) == [52];
    assert [0xED as Word][1..] == [];
    assert Pack([0xED]) == [0, 14] + [52];
  }

  lemma AccentEncoded()
    ensures Utf7.Encode([0xED]) == [0x2B, 0x41, 0x4F, 0x30, 0x2D]
  {
    AccentRun();
    EncodeBase64End([0xED]);
  }

  /** "í" (U+00ED) is written "&AO0-", and "&AO0-" is read as "í". */
  lemma AccentExample()
    ensures Encode([0xED]) == [0x26, 0x41, 0x4F, 0x30, 0x2D]
    ensures Decode([0x26, 0x41, 0x4F, 0x30, 0x2D]) == Some([0xED])
  {
    AccentEncoded();
    AccentSection(Utf7.Encode([0xED]));
    OneSection([0xED]);
    RoundTripWithoutControls([0xED]);
  }

  /** Outside a section every octet but "&" is read as itself. */
  lemma PlainOctet(c: Byte, rest: seq<Byte>)
    requires c != 0x26
    ensures Decode([c] + rest) == Prepend([c], Decode(rest))
  {
    assert ([c] + rest)[1..] == rest;
  }

  /** A last section without its "-" is read as if it had one, unless it is empty: "&" alone is "+". */
  lemma OpenSection(p: seq<Byte>)
    requires 0x2D !in p
    ensures p != [] ==> Decode([0x26] + p) == Decode([0x26] + p + [0x2D])
    ensures Decode([0x26]) == Some([0x2B])
  {
    OpenIs(p);
    OpenIs([]);
    assert [AMP as Byte] + [] == [AMP];
    if p != [] { ClosedIs(p); }
    LonePlus([Utf7.PLUS] + Replace([], COMMA, SLASH) + [DASH]);
  }

  lemma OpenIs(p: seq<Byte>)
    requires 0x2D !in p
    ensures Decode([0x26] + p) == SectionText(p, false)
  {
    var b: seq<Byte> := [0x26] + p;
    assert b[1..] == p;
    PrefixLengthIs(c => c != DASH, p, |p|);
  }

  lemma ClosedIs(p: seq<Byte>)
    requires 0x2D !in p && p != []
    ensures Decode([0x26] + p + [0x2D]) == SectionText(p, false)
  {
    var b: seq<Byte> := [0x26] + p + [0x2D];
    assert b[1..] == p + [0x2D];
    PrefixLengthIs(c => c != DASH, b[1..], |p|);
    assert b[1..][..|p|] == p && b[1..][|p| + 1..] == [];
    ClosedText(SectionText(p, true));
  }

  lemma ClosedText(text: Option<seq<Code>>)
    ensures Concat(text, Some([])) == text
  {
    if text.Some? { assert text.value + [] == text.value; }
  }

  lemma LonePlus(b: seq<Byte>)
    requires b == [0x2B, 0x2D]
    ensures Utf7.Decode(b) == Some([0x2B])
  {
    assert b[1] == DASH && b[2..] == [];
    assert Utf7.Decode([]) == Some([]) && [Utf7.PLUS as Code] + [] == [Utf7.PLUS];
  }

  lemma OneSection(run: seq<Code>)
    requires run != [] && AllShifted(run)
    ensures Encode(run) == Section(run)
  {
    EncodeRun(run, []);
    assert run + [] == run && Pending(run) + [] == Pending(run);
  }

  lemma AccentSection(b: seq<Byte>)
    requires b == [0x2B, 0x41, 0x4F, 0x30, 0x2D]
    ensures [AMP] + Replace(Inner(b), SLASH, COMMA) + [DASH] == [0x26, 0x41, 0x4F, 0x30, 0x2D]
  {
  }

  // ------------------------------------------------------ canonical form, size

  predicate PrintingAscii(b: seq<Byte>) {
    forall i :: 0 <= i < |b| ==> 0x20 <= b[i] < 0x7F
  }

  lemma SectionPrinting(run: seq<Code>)
    requires run != [] && AllShifted(run)
    requires forall i :: 0 <= i < |run| ==> !Utf7.DirectSpace(run[i])
    ensures PrintingAscii(Section(run))
  {
    forall i | 0 <= i < |run| ensures !Utf7.Direct(run[i]) { ShiftedDirect(run[i]); }
    ShiftedDirect(run[0]);
    EncodeBase64End(run);
    RunOctets(run);
    PayloadPrinting(Utf7.Encode(run));
  }

  lemma PayloadPrinting(b: seq<Byte>)
    requires PrintingAscii(b)
    ensures PrintingAscii([AMP] + Replace(Inner(b), SLASH, COMMA) + [DASH])
  {
  }

  /** Without TAB, LF and CR the encoded name is printing US-ASCII. */
  lemma {:induction false} EncodePrinting(s: seq<Code>)
    requires forall i :: 0 <= i < |s| ==> !Lost(s[i])
    ensures PrintingAscii(Encode(s))
    decreases |s|
  {
    assert forall i :: 0 <= i < |s| ==> !Utf7.DirectSpace(s[i]);
    if s == [] {
    } else if !Shifted(s[0]) {
      EncodePrinting(s[1..]);
    } else {
      var n := RunLength(s);
      SectionPrinting(s[..n]);
      EncodePrinting(s[n..]);
    }
  }

  lemma {:induction false} Utf16Append(a: seq<Code>, b: seq<Code>)
    ensures |Utf7.Utf16All(a + b)| == |Utf7.Utf16All(a)| + |Utf7.Utf16All(b)|
    ensures |a| <= |Utf7.Utf16All(a)|
  {
    if a == [] {
      assert a + b == b;
    } else {
      Utf16Append(a[1..], b);
      assert (a + b)[1..] == a[1..] + b;
    }
  }

  lemma RunSize(run: seq<Code>)
    requires run != []
    ensures |Utf7.Run(run)| <= 4 * |Utf7.Utf16All(run)|
  {
    PackLength(Utf7.Utf16All(run), Zero);
    Utf16Append(run, []);
    assert run + [] == run;
  }

  lemma {:induction false} Utf7Size(s: seq<Code>)
    requires AllShifted(s)
    ensures |Utf7.Encode(s)| <= 4 * |Utf7.Utf16All(s)| + 1
    decreases |s|
  {
    if s == [] {
    } else if Utf7.DirectSpace(s[0]) {
      Utf7Size(s[1..]);
      EncodeDirect(s[0], s[1..]);
      assert [s[0]] + s[1..] == s;
    } else {
      var run, rest := SplitRun(s);
      ShiftedDirect(s[0]);
      RunSize(run);
      Utf16Append(run, rest);
      if rest == [] {
        EncodeBase64End(run);
        assert run + rest == run;
      } else {
        Utf7Size(rest);
        EncodeBase64Space(run, rest);
      }
    }
  }

  lemma SectionSize(run: seq<Code>)
    requires run != [] && AllShifted(run)
    ensures |Section(run)| <= 5 * |Utf7.Utf16All(run)|
  {
    Utf7Size(run);
    Utf16Append(run, []);
    assert run + [] == run;
  }

  lemma OneMoreUnit(s: seq<Code>)
    requires s != []
    ensures |Utf7.Utf16All(s)| >= 1 + |Utf7.Utf16All(s[1..])|
  {
  }

  lemma EncodedLength(s: seq<Code>)
    requires s != []
    ensures !Shifted(s[0]) ==> |Encode(s)| <= 2 + |Encode(s[1..])|
    ensures Shifted(s[0]) ==>
              var n := RunLength(s); n > 0 && |Encode(s)| == |Section(s[..n])| + |Encode(s[n..])|
  {
  }

  lemma UnitsOfRun(s: seq<Code>, n: nat)
    requires n <= |s|
    ensures |Utf7.Utf16All(s)| == |Utf7.Utf16All(s[..n])| + |Utf7.Utf16All(s[n..])|
  {
    Utf16Append(s[..n], s[n..]);
    assert s[..n] + s[n..] == s;
  }

  /** The encoded name is at most 5 times as long as the UTF-16 form, for every name. */
  lemma {:induction false} EncodeSize(s: seq<Code>)
    ensures |Encode(s)| <= 5 * |Utf7.Utf16All(s)|
    decreases |s|
  {
    if s == [] {
    } else if !Shifted(s[0]) {
      EncodeSize(s[1..]);
      EncodedLength(s);
      OneMoreUnit(s);
    } else {
      var n := RunLength(s);
      EncodedLength(s);
      SectionSize(s[..n]);
      EncodeSize(s[n..]);
      UnitsOfRun(s, n);
    }
  }
}
