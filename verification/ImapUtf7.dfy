/**
 The IMAP mailbox-name codec: modified UTF-7, section 5.1.3 of RFC 3501.
 */
module ImapUtf7 {
  import opened Text
  import Utf7

  const AMP: Byte := 0x26
  const DASH: Byte := 0x2D
  const SLASH: Byte := 0x2F
  const COMMA: Byte := 0x2C

  /** The characters that stand for themselves. */
  predicate Printable(c: Code) {
    0x20 <= c < 0x7F && c != AMP
  }

  /** The characters collected into a base64 section. */
  predicate Shifted(c: Code) {
    !Printable(c) && c != AMP
  }

  function Replace(b: seq<Byte>, from: Byte, to: Byte): (r: seq<Byte>)
    ensures |r| == |b|
  {
    seq(|b|, i requires 0 <= i < |b| => if b[i] == from then to else b[i])
  }

  /** Python's `b[1:-1]`. */
  function Inner(b: seq<Byte>): seq<Byte> {
    if |b| <= 2 then [] else b[1..|b| - 1]
  }

  function ModifiedUtf7(s: seq<Code>): seq<Byte> {
    Replace(Inner(Utf7.Encode(s)), SLASH, COMMA)
  }

  function ModifiedUnutf7(b: seq<Byte>): Option<seq<Code>> {
    Utf7.Decode([Utf7.PLUS] + Replace(b, COMMA, SLASH) + [DASH])
  }

  // ------------------------------------------------------- specification

  function Section(run: seq<Code>): seq<Byte> {
    [AMP] + ModifiedUtf7(run) + [DASH]
  }

  function RunLength(s: seq<Code>): nat {
    PrefixLength(Shifted, s)
  }

  /** The encoded name: one section for each maximal run of shifted characters. */
  function Encode(s: seq<Code>): seq<Byte>
    decreases |s|
  {
    if s == [] then []
    else if Printable(s[0]) then [s[0]] + Encode(s[1..])
    else if s[0] == AMP then [AMP, DASH] + Encode(s[1..])
    else
      var n := RunLength(s);
      assert n > 0;
      Section(s[..n]) + Encode(s[n..])
  }

  function Concat<T>(a: Option<seq<T>>, b: Option<seq<T>>): Option<seq<T>> {
    if a.None? then None else Prepend(a.value, b)
  }

  /** The text of a section with payload `p`; `closed` tells whether its "-" was seen. */
  function SectionText(p: seq<Byte>, closed: bool): Option<seq<Code>> {
    if closed && p == [] then Some([AMP]) else ModifiedUnutf7(p)
  }

  /** The decoded name; a section runs from "&" to the next "-" or to the end. */
  function Decode(b: seq<Byte>): Option<seq<Code>>
    decreases |b|
  {
    if b == [] then Some([])
    else if b[0] != AMP then Prepend([b[0]], Decode(b[1..]))
    else
      var n := PrefixLength(c => c != DASH, b[1..]);
      if n == |b| - 1 then SectionText(b[1..], false)
      else Concat(SectionText(b[1..][..n], true), Decode(b[1..][n + 1..]))
  }

  // -------------------------------------------------------------- encoder

  function Flatten<T>(chunks: seq<seq<T>>): seq<T> {
    if chunks == [] then [] else Flatten(chunks[..|chunks| - 1]) + chunks[|chunks| - 1]
  }

  lemma FlattenAppend<T>(chunks: seq<seq<T>>, chunk: seq<T>)
    ensures Flatten(chunks + [chunk]) == Flatten(chunks) + chunk
  {
    assert (chunks + [chunk])[..|chunks|] == chunks;
  }

  function Pending(run: seq<Code>): seq<Byte> {
    if run == [] then [] else Section(run)
  }

  lemma FlattenThree<T>(chunks: seq<seq<T>>, a: seq<T>, b: seq<T>, c: seq<T>)
    ensures Flatten(chunks + [a, b, c]) == Flatten(chunks) + (a + b + c)
  {
    FlattenAppend(chunks, a);
    FlattenAppend(chunks + [a], b);
    FlattenAppend(chunks + [a] + [b], c);
    assert chunks + [a, b, c] == chunks + [a] + [b] + [c];
    assert Flatten(chunks) + (a + b + c) == Flatten(chunks) + a + b + c;
  }

  /** The two lists that the encoder fills and empties: the output and the pending run. */
  class Lists {
    var r: seq<seq<Byte>>
    var pending: seq<Code>

    constructor ()
      ensures r == [] && pending == []
    {
      r, pending := [], [];
    }

    /** Write the pending run, if any, as one section. */
    method DoB64()
      modifies this
      ensures pending == []
      ensures Flatten(r) == old(Flatten(r)) + Pending(old(pending))
    {
      if pending != [] {
        FlattenThree(r, [AMP], ModifiedUtf7(pending), [DASH]);
        r := r + [[AMP], ModifiedUtf7(pending), [DASH]];
        pending := [];
      }
    }

    method Append(chunk: seq<Byte>)
      modifies this`r
      ensures Flatten(r) == old(Flatten(r)) + chunk
    {
      FlattenAppend(r, chunk);
      r := r + [chunk];
    }

    ghost predicate Valid()
      reads this
    {
      forall k :: 0 <= k < |pending| ==> Shifted(pending[k])
    }

    /** What the output becomes when `rest` follows. */
    ghost function Total(rest: seq<Code>): seq<Byte>
      reads this
    {
      Flatten(r) + Encode(pending + rest)
    }

    /** One round of the encoder's loop, on the first character of `s`. */
    method Take(c: Code, ghost s: seq<Code>)
      requires Valid() && s != [] && s[0] == c
      modifies this
      ensures Valid() && Total(s[1..]) == old(Total(s))
    {
      if Printable(c) {
        EncodeUnshifted(Flatten(r), pending, [c], s);
        DoB64();
        Append([c]);
      } else if c == AMP {
        EncodeUnshifted(Flatten(r), pending, [AMP, DASH], s);
        DoB64();
        Append([AMP, DASH]);
      } else {
        MoveOne(pending, s, 0);
        assert s[0..] == s;
        pending := pending + [c];
      }
    }
  }

  /** A pending run followed by a character that is not shifted, or by the end. */
  lemma EncodeRun(run: seq<Code>, rest: seq<Code>)
    requires forall i :: 0 <= i < |run| ==> Shifted(run[i])
    requires rest == [] || !Shifted(rest[0])
    ensures Encode(run + rest) == Pending(run) + Encode(rest)
  {
    if run == [] {
      assert run + rest == rest;
    } else {
      PrefixLengthIs(Shifted, run + rest, |run|);
      assert (run + rest)[..|run|] == run && (run + rest)[|run|..] == rest;
    }
  }

  /** One character outside the sections: `done` grows by the pending run and by `text`. */
  lemma EncodeUnshifted(done: seq<Byte>, run: seq<Code>, text: seq<Byte>, s: seq<Code>)
    requires forall i :: 0 <= i < |run| ==> Shifted(run[i])
    requires s != [] && !Shifted(s[0])
    requires text == if s[0] == AMP then [AMP, DASH] else [s[0]]
    ensures done + Encode(run + s) == done + Pending(run) + text + Encode([] + s[1..])
  {
    EncodeRun(run, s);
    assert [] + s[1..] == s[1..];
    ConcatThree(done, Pending(run), text + Encode(s[1..]));
    ConcatThree(done + Pending(run), text, Encode(s[1..]));
  }

  method Encoder(s: seq<Code>) returns (out: seq<Byte>, consumed: nat)
    ensures out == Encode(s) && consumed == |s|
  {
    var lists := new Lists();
    assert [] + s[0..] == s && [] + Encode(s) == Encode(s);
    for i := 0 to |s|
      invariant fresh(lists) && lists.Valid()
      invariant lists.Total(s[i..]) == Encode(s)
    {
      lists.Take(s[i], s[i..]);
    }
    EncodeRun(lists.pending, []);
    lists.DoB64();
    out := Flatten(lists.r);
    consumed := |s|;
  }

  // -------------------------------------------------------------- decoder

  lemma DecodeLiteral(c: Byte, rest: seq<Byte>)
    requires c != AMP
    ensures Decode([c] + rest) == Prepend([c], Decode(rest))
  {
    assert ([c] + rest)[1..] == rest;
  }

  lemma DecodeSection(p: seq<Byte>, rest: seq<Byte>)
    requires DASH !in p
    ensures Decode([AMP] + p + [DASH] + rest) == Concat(SectionText(p, true), Decode(rest))
  {
    var b := [AMP] + p + [DASH] + rest;
    assert b[1..] == p + [DASH] + rest;
    PrefixLengthIs(c => c != DASH, b[1..], |p|);
    assert b[1..][..|p|] == p;
    assert b[1..][|p| + 1..] == rest;
  }

  lemma DecodeOpen(p: seq<Byte>)
    requires DASH !in p
    ensures Decode([AMP] + p) == SectionText(p, false)
  {
    assert ([AMP] + p)[1..] == p;
    PrefixLengthIs(c => c != DASH, p, |p|);
  }

  /** The section being read, `decoded`, meets its "-". */
  lemma DecodeClose(decoded: seq<Byte>, b: seq<Byte>)
    requires decoded != [] && decoded[0] == AMP && DASH !in decoded
    requires b != [] && b[0] == DASH
    ensures Decode(decoded + b) == Concat(SectionText(decoded[1..], true), Decode([] + b[1..]))
  {
    DecodeSection(decoded[1..], b[1..]);
    assert decoded + b == [AMP] + decoded[1..] + [DASH] + b[1..];
    assert [] + b[1..] == b[1..];
  }

  lemma DecodeOutside(b: seq<Byte>)
    requires b != [] && b[0] != AMP
    ensures Decode([] + b) == Prepend([b[0]], Decode([] + b[1..]))
  {
    DecodeLiteral(b[0], b[1..]);
    assert [b[0]] + b[1..] == b && [] + b == b && [] + b[1..] == b[1..];
  }

  /** The decoder's state: the text so far, and the section being read with its "&". */
  class Reader {
    var r: seq<Code>
    var decoded: seq<Byte>

    constructor ()
      ensures r == [] && decoded == []
    {
      r, decoded := [], [];
    }

    ghost predicate Valid()
      reads this
    {
      DASH !in decoded && (decoded != [] ==> decoded[0] == AMP)
    }

    /** What the result becomes when `rest` follows. */
    ghost function Total(rest: seq<Byte>): Option<seq<Code>>
      reads this
    {
      Prepend(r, Decode(decoded + rest))
    }

    /** End a section; false stands for UnicodeDecodeError. */
    method Close(ghost b: seq<Byte>) returns (ok: bool)
      requires Valid() && decoded != [] && b != [] && b[0] == DASH
      modifies this
      ensures Valid() && if ok then Total(b[1..]) == old(Total(b)) else old(Total(b)) == None
    {
      DecodeClose(decoded, b);
      var piece := Some([AMP]);
      if |decoded| > 1 {
        piece := ModifiedUnutf7(decoded[1..]);
      }
      ok := piece.Some?;
      if ok {
        PrependTwice(r, piece.value, Decode([] + b[1..]));
        r, decoded := r + piece.value, [];
      }
    }

    /** One round of the decoder's loop, on the first byte of `b`. */
    method Take(c: Byte, ghost b: seq<Byte>) returns (ok: bool)
      requires Valid() && b != [] && b[0] == c
      modifies this
      ensures Valid() && if ok then Total(b[1..]) == old(Total(b)) else old(Total(b)) == None
    {
      ok := true;
      MoveOne(decoded, b, 0);
      assert b[0..] == b;
      if c == AMP && decoded == [] {
        decoded := [AMP];
      } else if c == DASH && decoded != [] {
        ok := Close(b);
      } else if decoded != [] {
        decoded := decoded + [c];
      } else {
        DecodeOutside(b);
        PrependTwice(r, [c], Decode([] + b[1..]));
        r := r + [c];
      }
    }
  }

  /** None stands for UnicodeDecodeError. */
  method Decoder(b: seq<Byte>) returns (out: Option<seq<Code>>, consumed: nat)
    ensures out == Decode(b) && consumed == |b|
  {
    consumed := |b|;
    var reader := new Reader();
    assert [] + b[0..] == b;
    PrependNothing(Decode(b));
    for i := 0 to |b|
      invariant fresh(reader) && reader.Valid()
      invariant reader.Total(b[i..]) == Decode(b)
    {
      var ok := reader.Take(b[i], b[i..]);
      if !ok { return None, |b|; }
    }
    assert reader.decoded + b[|b|..] == reader.decoded;
    if reader.decoded == [] {
      assert reader.r + [] == reader.r;
      return Some(reader.r), |b|;
    }
    DecodeOpen(reader.decoded[1..]);
    assert reader.decoded == [AMP] + reader.decoded[1..];
    out := Concat(Some(reader.r), ModifiedUnutf7(reader.decoded[1..]));
  }
}
