/** Values shared by the text codecs: code points, octets, and optional results. */
module Text {

  /** The result of an operation that Python may abort with an exception. */
  datatype Option<+T> = None | Some(value: T)

  /** A Unicode code point, one element of a Python `str`. */
  type Code = c: int | 0 <= c < 0x110000

  /** One element of a Python `bytes`. */
  type Byte = b: int | 0 <= b < 0x100

  /** A 16-bit unit of UTF-16. */
  type Word = w: int | 0 <= w < 0x10000

  /** A code point that is not a surrogate. */
  predicate Scalar(c: Code) {
    !(0xD800 <= c < 0xE000)
  }

  predicate AllScalar(s: seq<Code>) {
    forall i :: 0 <= i < |s| ==> Scalar(s[i])
  }

  /** `head` followed by the optional `tail`. */
  function Prepend<T>(head: seq<T>, tail: Option<seq<T>>): Option<seq<T>> {
    if tail.Some? then Some(head + tail.value) else None
  }

  lemma PrependTwice<T>(a: seq<T>, b: seq<T>, tail: Option<seq<T>>)
    ensures Prepend(a, Prepend(b, tail)) == Prepend(a + b, tail)
  {
    if tail.Some? {
      assert a + (b + tail.value) == a + b + tail.value;
    }
  }

  lemma PrependNothing<T>(tail: Option<seq<T>>)
    ensures Prepend([], tail) == tail
  {
    if tail.Some? { assert [] + tail.value == tail.value; }
  }

  lemma MoveOne<T>(taken: seq<T>, s: seq<T>, i: nat)
    requires i < |s|
    ensures taken + s[i..] == taken + [s[i]] + s[i + 1..]
    ensures s[i..] == [s[i]] + s[i + 1..] && s[i..][1..] == s[i + 1..]
  {
  }

  lemma ConcatThree<T>(a: seq<T>, b: seq<T>, c: seq<T>)
    ensures a + b + c == a + (b + c)
  {
  }

  /** The length of the longest prefix of `s` whose elements all satisfy `p`. */
  function PrefixLength<T>(p: T -> bool, s: seq<T>): (n: nat)
    ensures n <= |s|
    ensures forall i :: 0 <= i < n ==> p(s[i])
    ensures n < |s| ==> !p(s[n])
  {
    if s == [] || !p(s[0]) then 0 else 1 + PrefixLength(p, s[1..])
  }

  lemma PrefixLengthIs<T>(p: T -> bool, s: seq<T>, n: nat)
    requires n <= |s|
    requires forall i :: 0 <= i < n ==> p(s[i])
    requires n < |s| ==> !p(s[n])
    ensures PrefixLength(p, s) == n
  {
    assert PrefixLength(p, s) < |s| ==> !p(s[PrefixLength(p, s)]);
  }
}
