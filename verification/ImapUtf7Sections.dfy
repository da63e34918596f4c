/** What a single base64 section of a mailbox name decodes to. */
module ImapUtf7Sections {
  import opened Text
  import opened Base64Units
  import opened ImapUtf7
  import Utf7

  predicate AllShifted(s: seq<Code>) {
    forall i :: 0 <= i < |s| ==> Shifted(s[i])
  }

  /** `s` ends with a character that Python writes unencoded. */
  predicate EndsDirect(s: seq<Code>) {
    s != [] && Utf7.DirectSpace(s[|s| - 1])
  }

  // ------------------------------------------------- the payload of a section

  /**
   The text whose UTF-7 form remains when the last octet of the UTF-7 form of `run` is replaced
   by "-". When `run` ends inside a base64 run nothing changes, since that octet is a "-".
   */
  function Closed(run: seq<Code>): seq<Code> {
    if !EndsDirect(run) then run
    else run[..|run| - 1] + if |run| >= 2 && !EndsDirect(run[..|run| - 1]) then [] else [DASH]
  }

  lemma ShiftedDirect(c: Code)
    requires Shifted(c)
    ensures c != Utf7.PLUS && c != DASH && c != COMMA
    ensures Utf7.Direct(c) <==> Utf7.DirectSpace(c)
    ensures Utf7.Direct(c) ==> !Utf7.IsBase64(c)
  {
  }

  lemma EncodeDirect(c: Code, rest: seq<Code>)
    requires Utf7.Direct(c)
    ensures Utf7.Encode([c] + rest) == [c] + Utf7.Encode(rest)
  {
    assert ([c] + rest)[1..] == rest;
  }

  lemma EncodeBase64(run: seq<Code>, rest: seq<Code>)
    requires run != [] && run[0] != Utf7.PLUS
    requires forall i :: 0 <= i < |run| ==> !Utf7.Direct(run[i])
    requires rest == [] || Utf7.Direct(rest[0])
    ensures Utf7.Encode(run + rest) == Utf7.Run(run) + Utf7.Closing(rest) + Utf7.Encode(rest)
  {
    PrefixLengthIs(c => !Utf7.Direct(c), run + rest, |run|);
    assert (run + rest)[..|run|] == run && (run + rest)[|run|..] == rest;
  }

  lemma EncodeBase64End(run: seq<Code>)
    requires run != [] && run[0] != Utf7.PLUS
    requires forall i :: 0 <= i < |run| ==> !Utf7.Direct(run[i])
    ensures Utf7.Encode(run) == Utf7.Run(run) + [DASH]
  {
    EncodeBase64(run, []);
    assert run + [] == run;
  }

  lemma EncodeBase64Space(run: seq<Code>, rest: seq<Code>)
    requires run != [] && run[0] != Utf7.PLUS
    requires forall i :: 0 <= i < |run| ==> !Utf7.Direct(run[i])
    requires rest != [] && Utf7.DirectSpace(rest[0])
    ensures Utf7.Encode(run + rest) == Utf7.Run(run) + Utf7.Encode(rest)
  {
    EncodeBase64(run, rest);
    assert Utf7.Closing(rest) == [];
    assert Utf7.Run(run) + [] == Utf7.Run(run);
  }

  /** The leading base64 run of a text of shifted characters. */
  lemma SplitRun(s: seq<Code>) returns (run: seq<Code>, rest: seq<Code>)
    requires s != [] && AllShifted(s) && !Utf7.DirectSpace(s[0])
    ensures run != [] && s == run + rest && AllShifted(run) && AllShifted(rest)
    ensures forall i :: 0 <= i < |run| ==> !Utf7.Direct(run[i])
    ensures rest == [] || Utf7.DirectSpace(rest[0])
  {
    var n := PrefixLength(c => !Utf7.Direct(c), s);
    forall i | 0 <= i < |s|
      ensures Utf7.Direct(s[i]) <==> Utf7.DirectSpace(s[i])
    {
      ShiftedDirect(s[i]);
    }
    run, rest := s[..n], s[n..];
  }

  lemma ClosedAfter(front: seq<Code>, rest: seq<Code>)
    requires rest != []
    requires |rest| >= 2 || !EndsDirect(rest)
    ensures Closed(front + rest) == front + Closed(rest)
  {
    var all := front + rest;
    assert all[|all| - 1] == rest[|rest| - 1];
    if EndsDirect(rest) {
      assert all[..|all| - 1] == front + rest[..|rest| - 1];
      assert EndsDirect(all[..|all| - 1]) <==> EndsDirect(rest[..|rest| - 1]);
    }
  }

  /** `b` with its last octet replaced by "-". */
  function Snip(b: seq<Byte>): seq<Byte>
    requires b != []
  {
    b[..|b| - 1] + [DASH]
  }

  lemma SnipAfter(front: seq<Byte>, rest: seq<Byte>)
    requires rest != []
    ensures Snip(front + rest) == front + Snip(rest)
  {
  }

  lemma EncodeNonEmpty(s: seq<Code>)
    requires s != []
    ensures Utf7.Encode(s) != []
  {
    if s[0] != Utf7.PLUS && !Utf7.Direct(s[0]) {
      assert Utf7.Run(s[..Utf7.RunLength(s)]) != [];
    }
  }

  lemma EncodeOne(c: Code)
    requires Utf7.Direct(c)
    ensures Utf7.Encode([c]) == [c]
  {
    EncodeDirect(c, []);
    assert [c] + [] == [c];
  }

  /** Replacing the last octet by "-" has the effect that `Closed` says. */
  lemma {:induction false} SnipEncode(s: seq<Code>)
    requires s != [] && AllShifted(s)
    ensures Utf7.Encode(s) != [] && Snip(Utf7.Encode(s)) == Utf7.Encode(Closed(s))
    decreases |s|
  {
    EncodeNonEmpty(s);
    if Utf7.DirectSpace(s[0]) {
      if |s| == 1 {
        SnipOne(s[0]);
      } else {
        SnipEncode(s[1..]);
        SnipDirect(s[0], s[1..]);
        assert [s[0]] + s[1..] == s;
      }
    } else {
      var run, rest := SplitRun(s);
      ShiftedDirect(s[0]);
      if rest == [] {
        SnipWhole(run);
        assert run + rest == run;
      } else if |rest| == 1 {
        SnipLone(run, rest[0]);
        assert rest == [rest[0]];
      } else {
        SnipEncode(rest);
        SnipLonger(run, rest);
      }
    }
  }

  lemma SnipOne(c: Code)
    requires Utf7.DirectSpace(c)
    ensures Utf7.Encode([c]) != [] && Snip(Utf7.Encode([c])) == Utf7.Encode(Closed([c]))
  {
    EncodeOne(c);
    EncodeOne(DASH);
    assert Closed([c]) == [DASH];
  }

  lemma SnipDirect(c: Code, rest: seq<Code>)
    requires Utf7.DirectSpace(c) && rest != []
    requires Utf7.Encode(rest) != [] && Snip(Utf7.Encode(rest)) == Utf7.Encode(Closed(rest))
    ensures Utf7.Encode([c] + rest) != [] && Snip(Utf7.Encode([c] + rest)) == Utf7.Encode(Closed([c] + rest))
  {
    EncodeDirect(c, rest);
    SnipAfter([c], Utf7.Encode(rest));
    EncodeDirect(c, Closed(rest));
    if |rest| >= 2 || !EndsDirect(rest) {
      ClosedAfter([c], rest);
    } else {
      assert ([c] + rest)[..1] == [c];
      assert Closed([c] + rest) == [c] + Closed(rest);
    }
  }

  lemma SnipWhole(run: seq<Code>)
    requires run != [] && AllShifted(run)
    requires forall i :: 0 <= i < |run| ==> !Utf7.Direct(run[i])
    ensures Utf7.Encode(run) != [] && Snip(Utf7.Encode(run)) == Utf7.Encode(Closed(run))
  {
    EncodeBase64End(run);
  }

  lemma ClosedLone(run: seq<Code>, c: Code)
    requires run != [] && !EndsDirect(run) && Utf7.DirectSpace(c)
    ensures Closed(run + [c]) == run
  {
    assert (run + [c])[..|run|] == run;
    assert run + [] == run;
  }

  lemma SnipLone(run: seq<Code>, c: Code)
    requires run != [] && AllShifted(run) && Utf7.DirectSpace(c)
    requires forall i :: 0 <= i < |run| ==> !Utf7.Direct(run[i])
    ensures Utf7.Encode(run + [c]) != [] && Snip(Utf7.Encode(run + [c])) == Utf7.Encode(Closed(run + [c]))
  {
    EncodeBase64Space(run, [c]);
    EncodeOne(c);
    EncodeBase64End(run);
    ClosedLone(run, c);
    SnipAfter(Utf7.Run(run), [c]);
    assert Snip([c]) == [DASH];
  }

  lemma SnipLonger(run: seq<Code>, rest: seq<Code>)
    requires run != [] && AllShifted(run) && |rest| >= 2 && Utf7.DirectSpace(rest[0])
    requires forall i :: 0 <= i < |run| ==> !Utf7.Direct(run[i])
    requires Utf7.Encode(rest) != [] && Snip(Utf7.Encode(rest)) == Utf7.Encode(Closed(rest))
    ensures Utf7.Encode(run + rest) != [] && Snip(Utf7.Encode(run + rest)) == Utf7.Encode(Closed(run + rest))
  {
    EncodeBase64Space(run, rest);
    SnipAfter(Utf7.Run(run), Utf7.Encode(rest));
    ClosedAfter(run, rest);
    assert Closed(rest)[0] == rest[0];
    EncodeBase64Space(run, Closed(rest));
  }

  // ------------------------------------------------------ one section decoded

  /** What one section decodes to. None stands for UnicodeDecodeError. */
  function Survivor(run: seq<Code>): Option<seq<Code>>
    requires run != []
  {
    if !Utf7.DirectSpace(run[0]) then Some(Closed(run))
    else if |run| == 1 || (|run| == 2 && Utf7.DirectSpace(run[1])) then Some([AMP])
    else None
  }

  predicate SectionOctets(b: seq<Byte>) {
    forall i :: 0 <= i < |b| ==> b[i] != COMMA && (b[i] == DASH ==> i == |b| - 1)
  }

  lemma RunOctets(run: seq<Code>)
    ensures forall i :: 0 <= i < |Utf7.Run(run)| ==>
      Utf7.Run(run)[i] != COMMA && Utf7.Run(run)[i] != DASH && 0x20 <= Utf7.Run(run)[i] < 0x7F
    ensures run != [] ==> |Utf7.Run(run)| >= 4
  {
    var ds := Pack(Utf7.Utf16All(run));
    PackLength(Utf7.Utf16All(run), Zero);
    forall i | 0 <= i < |ds|
      ensures Utf7.ToChars(ds)[i] == Utf7.ToBase64(ds[i])
      ensures Utf7.ToBase64(ds[i]) != COMMA && Utf7.ToBase64(ds[i]) != DASH && 0x20 <= Utf7.ToBase64(ds[i]) < 0x7F
    {
      Utf7.CharRoundTrip(ds[i]);
    }
    if run != [] {
      assert |Utf7.Utf16All(run)| >= |Utf7.Utf16(run[0])|;
    }
  }

  /** The only "-" in the UTF-7 form of a run is the one that ends it. */
  lemma {:induction false} EncodeOctets(s: seq<Code>)
    requires AllShifted(s)
    ensures SectionOctets(Utf7.Encode(s))
    decreases |s|
  {
    if s == [] {
    } else if Utf7.DirectSpace(s[0]) {
      EncodeOctets(s[1..]);
      EncodeDirect(s[0], s[1..]);
      assert [s[0]] + s[1..] == s;
    } else {
      var run, rest := SplitRun(s);
      ShiftedDirect(s[0]);
      RunOctets(run);
      if rest == [] {
        EncodeBase64End(run);
        assert run + rest == run;
      } else {
        EncodeOctets(rest);
        EncodeNonEmpty(rest);
        EncodeBase64Space(run, rest);
      }
    }
  }

  lemma ReplaceBack(b: seq<Byte>)
    requires COMMA !in b
    ensures Replace(Replace(b, SLASH, COMMA), COMMA, SLASH) == b
    ensures DASH !in b ==> DASH !in Replace(b, SLASH, COMMA)
  {
  }

  /** What the decoder hands to Python for an encoded run. */
  lemma PayloadOf(run: seq<Code>)
    requires AllShifted(run) && run != []
    ensures DASH !in ModifiedUtf7(run)
    ensures |ModifiedUtf7(run)| == |Inner(Utf7.Encode(run))|
    ensures ModifiedUnutf7(ModifiedUtf7(run)) == Utf7.Decode([Utf7.PLUS] + Inner(Utf7.Encode(run)) + [DASH])
  {
    EncodeOctets(run);
    ReplaceBack(Inner(Utf7.Encode(run)));
  }

  lemma InnerOf(b: seq<Byte>)
    requires |b| >= 2
    ensures [b[0]] + Inner(b) + [DASH] == Snip(b)
    ensures Inner(b) + [DASH] == Snip(b[1..])
  {
  }

  lemma ClosedScalar(run: seq<Code>)
    requires AllScalar(run)
    ensures AllScalar(Closed(run))
  {
  }

  lemma EncodeLong(s: seq<Code>)
    requires s != [] && AllShifted(s) && !Utf7.DirectSpace(s[0])
    ensures |Utf7.Encode(s)| >= 4 && Utf7.Encode(s)[0] == Utf7.PLUS
  {
    var run, rest := SplitRun(s);
    ShiftedDirect(s[0]);
    RunOctets(run);
    if rest == [] {
      EncodeBase64End(run);
      assert run + rest == run;
    } else {
      EncodeBase64Space(run, rest);
    }
  }

  /** A section that starts inside base64 comes back, up to how it ends. */
  lemma SurvivorOfBase64(run: seq<Code>)
    requires run != [] && AllShifted(run) && AllScalar(run) && !Utf7.DirectSpace(run[0])
    ensures SectionText(ModifiedUtf7(run), true) == Survivor(run)
  {
    var e := Utf7.Encode(run);
    PayloadOf(run);
    EncodeLong(run);
    InnerOf(e);
    SnipEncode(run);
    ClosedScalar(run);
    Utf7.DecodeEncode(Closed(run));
  }

  /** A "+" in front of a base64 run shifts every digit: Python finds one digit left over. */
  lemma StrayPlus(c: seq<Code>)
    requires c != [] && c[0] != Utf7.PLUS && !Utf7.Direct(c[0])
    ensures Utf7.Decode([Utf7.PLUS] + Utf7.Encode(c)) == None
  {
    var n := PrefixLength(x => !Utf7.Direct(x), c);
    var run, rest := c[..n], c[n..];
    assert c == run + rest && n > 0;
    EncodeBase64(run, rest);
    Utf7.AfterRun(rest);
    ConcatThree(Utf7.Run(run), Utf7.Closing(rest), Utf7.Encode(rest));
    StrayRun(run, Utf7.Closing(rest) + Utf7.Encode(rest));
  }

  lemma StrayRun(run: seq<Code>, t: seq<Byte>)
    requires t != [] && !Utf7.IsBase64(t[0])
    ensures Utf7.Decode([Utf7.PLUS] + (Utf7.Run(run) + t)) == None
  {
    StrayDigits(Pack(Utf7.Utf16All(run)), t);
    Misaligned(62, Utf7.Utf16All(run));
    ConcatThree([Utf7.PLUS], Utf7.Run(run), t);
  }

  lemma StrayDigits(ds: seq<Digit>, t: seq<Byte>)
    requires t == [] || !Utf7.IsBase64(t[0])
    ensures Utf7.Decode([Utf7.PLUS] + ([Utf7.PLUS] + Utf7.ToChars(ds)) + t) == Utf7.DecodeRun(Unpack([62] + ds), t)
  {
    Utf7.DecodeDigits([62] + ds, t);
    assert Utf7.ToChars([62] + ds) == [Utf7.PLUS] + Utf7.ToChars(ds);
  }

  lemma StrayPlusSpace(c: seq<Code>)
    requires c != [] && Utf7.DirectSpace(c[0])
    ensures Utf7.Decode([Utf7.PLUS] + Utf7.Encode(c)) == None
  {
    EncodeDirect(c[0], c[1..]);
    assert [c[0]] + c[1..] == c;
    var b := [Utf7.PLUS] + Utf7.Encode(c);
    assert b[1] == c[0] && b[1..][0] == c[0];
  }

  /** A section that starts with TAB, LF or CR never comes back. */
  lemma SurvivorOfSpace(run: seq<Code>)
    requires run != [] && AllShifted(run) && Utf7.DirectSpace(run[0])
    ensures SectionText(ModifiedUtf7(run), true) == Survivor(run)
  {
    var rest := run[1..];
    var e := Utf7.Encode(run);
    PayloadOf(run);
    EncodeDirect(run[0], rest);
    assert [run[0]] + rest == run;
    assert e == [run[0]] + Utf7.Encode(rest);
    if rest == [] {
    } else if |rest| == 1 && Utf7.DirectSpace(rest[0]) {
      EncodeOne(rest[0]);
      assert rest == [rest[0]];
    } else {
      SurvivorFails(run);
    }
  }

  lemma SurvivorFails(run: seq<Code>)
    requires |run| > 1 && AllShifted(run) && Utf7.DirectSpace(run[0])
    requires |run| > 2 || !Utf7.DirectSpace(run[1])
    ensures SectionText(ModifiedUtf7(run), true) == None
  {
    var rest := run[1..];
    var e := Utf7.Encode(run);
    PayloadOf(run);
    EncodeDirect(run[0], rest);
    assert [run[0]] + rest == run;
    EncodeTwo(rest);
    InnerOf(e);
    assert e[1..] == Utf7.Encode(rest);
    SnipEncode(rest);
    assert [Utf7.PLUS] + Inner(e) + [DASH] == [Utf7.PLUS] + Utf7.Encode(Closed(rest));
    assert Closed(rest) != [] && Closed(rest)[0] == rest[0];
    ShiftedDirect(rest[0]);
    if Utf7.DirectSpace(rest[0]) {
      StrayPlusSpace(Closed(rest));
    } else {
      StrayPlus(Closed(rest));
    }
  }

  lemma EncodeTwo(s: seq<Code>)
    requires s != [] && AllShifted(s)
    requires |s| > 1 || !Utf7.DirectSpace(s[0])
    ensures |Utf7.Encode(s)| >= 2
  {
    if Utf7.DirectSpace(s[0]) {
      EncodeDirect(s[0], s[1..]);
      EncodeNonEmpty(s[1..]);
      assert [s[0]] + s[1..] == s;
    } else {
      EncodeLong(s);
    }
  }
}
