/** The Python string methods that the text-handling modules share. */
module Strings {
  import opened Text

  predicate Free(s: string, c: char) {
    forall i :: 0 <= i < |s| ==> s[i] != c
  }

  predicate StartsWith(s: string, prefix: string) {
    |prefix| <= |s| && s[..|prefix|] == prefix
  }

  /** `s.lstrip(c)` for one character. */
  function StripLeft(s: string, c: char): string {
    if s != "" && s[0] == c then StripLeft(s[1..], c) else s
  }

  /** `s.rstrip(c)`. */
  function StripRight(s: string, c: char): string {
    if s != "" && s[|s| - 1] == c then StripRight(s[..|s| - 1], c) else s
  }

  /** `s.strip(c)`. */
  function Strip(s: string, c: char): string {
    StripRight(StripLeft(s, c), c)
  }

  /** `s.split(c)`: one more part than there are separators. */
  function SplitOn(s: string, c: char): (parts: seq<string>)
    ensures parts != []
  {
    if s == "" then [""]
    else if s[0] == c then [""] + SplitOn(s[1..], c)
    else
      var rest := SplitOn(s[1..], c);
      [[s[0]] + rest[0]] + rest[1..]
  }

  /** `c.join(parts)`. */
  function JoinWith(parts: seq<string>, c: char): string {
    if parts == [] then ""
    else if |parts| == 1 then parts[0]
    else parts[0] + ([c] + JoinWith(parts[1..], c))
  }

  /** `"".join(parts)`. */
  function Concat(parts: seq<string>): string {
    if parts == [] then "" else parts[0] + Concat(parts[1..])
  }

  /** `s` without the character `c`. */
  function Without(s: string, c: char): string {
    if s == "" then "" else (if s[0] == c then "" else [s[0]]) + Without(s[1..], c)
  }

  // ---------------------------------------------------------------- split and join

  lemma SplitFirst(a: string, c: char, rest: seq<string>)
    requires rest != []
    ensures ([a + rest[0]] + rest[1..])[0] == a + rest[0] && ([a + rest[0]] + rest[1..])[1..] == rest[1..]
  {
  }

  /** Splitting cuts at the first separator. */
  lemma {:induction false} SplitAt(a: string, c: char, tail: string)
    requires Free(a, c)
    ensures SplitOn(a + [c] + tail, c) == [a] + SplitOn(tail, c)
  {
    var s := a + [c] + tail;
    if a == "" {
      assert s[1..] == tail;
    } else {
      assert s[0] == a[0] && s[1..] == a[1..] + [c] + tail;
      SplitAt(a[1..], c, tail);
      assert a == [a[0]] + a[1..];
    }
  }

  lemma {:induction false} SplitFree(a: string, c: char)
    requires Free(a, c)
    ensures SplitOn(a, c) == [a]
  {
    if a != "" {
      SplitFree(a[1..], c);
      assert a == [a[0]] + a[1..];
    }
  }

  lemma {:induction false} SplitOfJoin(parts: seq<string>, c: char)
    requires parts != [] && forall i :: 0 <= i < |parts| ==> Free(parts[i], c)
    ensures SplitOn(JoinWith(parts, c), c) == parts
  {
    if |parts| == 1 {
      SplitFree(parts[0], c);
    } else {
      SplitOfJoin(parts[1..], c);
      SplitAt(parts[0], c, JoinWith(parts[1..], c));
      assert parts[0] + ([c] + JoinWith(parts[1..], c)) == parts[0] + [c] + JoinWith(parts[1..], c);
      assert parts == [parts[0]] + parts[1..];
    }
  }

  // ---------------------------------------------------------------- strip

  lemma StripEnds(s: string, c: char)
    requires s != "" ==> s[0] != c && s[|s| - 1] != c
    ensures Strip(s, c) == s
  {
  }

  lemma {:induction false} StripRightEnd(s: string, c: char, n: nat)
    requires s == "" || s[|s| - 1] != c
    ensures StripRight(s + Run(c, n), c) == s
  {
    if n == 0 {
      assert s + Run(c, 0) == s;
    } else {
      assert (s + Run(c, n))[..|s| + n - 1] == s + Run(c, n - 1);
      StripRightEnd(s, c, n - 1);
    }
  }

  lemma {:induction false} StripLeftEnd(s: string, c: char, n: nat)
    requires s == "" || s[0] != c
    ensures StripLeft(Run(c, n) + s, c) == s
  {
    if n == 0 {
      assert Run(c, 0) + s == s;
    } else {
      assert (Run(c, n) + s)[1..] == Run(c, n - 1) + s;
      StripLeftEnd(s, c, n - 1);
    }
  }

  /** `n` times the character `c`. */
  function Run(c: char, n: nat): (r: string)
    ensures |r| == n && forall i :: 0 <= i < n ==> r[i] == c
  {
    seq(n, _ => c)
  }

  /** Stripping takes off exactly the surrounding run of `c`. */
  lemma StripAround(s: string, c: char, before: nat, after: nat)
    requires s != "" && s[0] != c && s[|s| - 1] != c
    ensures Strip(Run(c, before) + s + Run(c, after), c) == s
  {
    assert Run(c, before) + s + Run(c, after) == Run(c, before) + (s + Run(c, after));
    StripLeftEnd(s + Run(c, after), c, before);
    StripRightEnd(s, c, after);
  }

  lemma {:induction false} WithoutFree(s: string, c: char)
    requires Free(s, c)
    ensures Without(s, c) == s
  {
    if s != "" {
      WithoutFree(s[1..], c);
      assert s == [s[0]] + s[1..];
    }
  }

  lemma {:induction false} WithoutRun(c: char, n: nat)
    ensures Without(Run(c, n), c) == ""
  {
    if n > 0 {
      assert Run(c, n)[1..] == Run(c, n - 1);
      WithoutRun(c, n - 1);
    }
  }

  lemma {:induction false} WithoutConcat(a: string, b: string, c: char)
    ensures Without(a + b, c) == Without(a, c) + Without(b, c)
  {
    if a == "" {
      assert a + b == b;
    } else {
      assert (a + b)[0] == a[0] && (a + b)[1..] == a[1..] + b;
      WithoutConcat(a[1..], b, c);
    }
  }

  /** Joining the parts with nothing between removes the separators and nothing else. */
  lemma {:induction false} ConcatOfSplit(s: string, c: char)
    ensures Concat(SplitOn(s, c)) == Without(s, c)
  {
    if s != "" {
      var rest := SplitOn(s[1..], c);
      ConcatOfSplit(s[1..], c);
      if s[0] == c {
        assert ([""] + rest)[1..] == rest;
      } else {
        SplitFirst([s[0]], c, rest);
        assert ([s[0]] + rest[0]) + Concat(rest[1..]) == [s[0]] + (rest[0] + Concat(rest[1..]));
      }
    }
  }

  lemma {:induction false} PartsAreFree(s: string, c: char, q: char)
    requires Free(s, q)
    ensures forall i :: 0 <= i < |SplitOn(s, c)| ==> Free(SplitOn(s, c)[i], q)
  {
    if s != "" {
      PartsAreFree(s[1..], c, q);
    }
  }

  // ---------------------------------------------------------------- words

  /** The characters at which `str.split()` cuts: `str.isspace`. */
  predicate IsSpace(c: char) {
    var n := c as int;
    || 9 <= n <= 13 || 28 <= n <= 32 || n == 0x85 || n == 0xA0 || n == 0x1680 || 0x2000 <= n <= 0x200A
    || n == 0x2028 || n == 0x2029 || n == 0x202F || n == 0x205F || n == 0x3000
  }

  const ASCII_SPACES := "\t\n\U{B}\U{C}\r\U{1C}\U{1D}\U{1E}\U{1F} "
  const OTHER_SPACES := "\U{85}\U{A0}\U{1680}\U{2000}\U{2001}\U{2002}\U{2003}\U{2004}\U{2005}"
                        + "\U{2006}\U{2007}\U{2008}\U{2009}\U{200A}\U{2028}\U{2029}\U{202F}\U{205F}\U{3000}"

  /** The white space of Python's `str`, one by one. */
  lemma SpacesAre(c: char)
    ensures IsSpace(c) <==> c in ASCII_SPACES || c in OTHER_SPACES
  {
  }

  predicate NotSpace(c: char) {
    !IsSpace(c)
  }

  predicate NoSpace(s: string) {
    forall i :: 0 <= i < |s| ==> NotSpace(s[i])
  }

  /** `text.split()`. */
  function Split(s: string): seq<string>
    decreases |s|
  {
    if s == "" then []
    else if IsSpace(s[0]) then Split(s[1..])
    else
      var n := PrefixLength(NotSpace, s);
      [s[..n]] + Split(s[n..])
  }

  /** `" ".join(words)`. */
  function Join(words: seq<string>): string {
    if words == [] then ""
    else if |words| == 1 then words[0]
    else words[0] + " " + Join(words[1..])
  }

  predicate Words(words: seq<string>) {
    forall i :: 0 <= i < |words| ==> words[i] != "" && NoSpace(words[i])
  }

  lemma {:induction false} SplitGivesWords(s: string)
    ensures Words(Split(s))
    decreases |s|
  {
    if s != "" {
      if IsSpace(s[0]) {
        SplitGivesWords(s[1..]);
      } else {
        var n := PrefixLength(NotSpace, s);
        SplitGivesWords(s[n..]);
        assert NoSpace(s[..n]);
      }
    }
  }

  lemma SplitSpace(tail: string)
    ensures Split(" " + tail) == Split(tail)
  {
    assert (" " + tail)[1..] == tail;
  }

  lemma SplitWord(word: string, tail: string)
    requires word != "" && NoSpace(word)
    requires tail == "" || IsSpace(tail[0])
    ensures Split(word + tail) == [word] + Split(tail)
  {
    PrefixLengthIs(NotSpace, word + tail, |word|);
    assert NotSpace((word + tail)[0]) by { assert NotSpace(word[0]); }
    assert (word + tail)[..|word|] == word && (word + tail)[|word|..] == tail;
  }
}
