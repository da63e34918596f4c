/**
 Base64 over 16-bit units, as used inside a UTF-7 run (section "UTF-7 Definition",
 Rule 2, of RFC 2152): units are read as one string of bits, most significant first,
 cut into 6-bit digits, the last digit padded with zero bits and no "=" padding.
 */
module Base64Units {
  import opened Text

  type Digit = d: int | 0 <= d < 64

  type U2 = v: int | 0 <= v < 4
  type U4 = v: int | 0 <= v < 16

  /** The low bits of the last unit that do not fill a digit yet. */
  datatype Carry = Zero | Four(v4: U4) | Two(v2: U2)

  /** The digits of `units`, continuing after the held-back bits `k`. */
  function PackFrom(units: seq<Word>, k: Carry): seq<Digit>
    decreases units
  {
    if units == [] then
      match k
      case Zero => []
      case Four(v) => [v * 4]
      case Two(v) => [v * 16]
    else
      var w, rest := units[0], units[1..];
      match k
      case Zero => [w / 0x400, w / 0x10 % 64] + PackFrom(rest, Four(w % 0x10))
      case Four(v) => [v * 4 + w / 0x4000, w / 0x100 % 64, w / 4 % 64] + PackFrom(rest, Two(w % 4))
      case Two(v) => [v * 16 + w / 0x1000, w / 64 % 64, w % 64] + PackFrom(rest, Zero)
  }

  function Pack(units: seq<Word>): seq<Digit> {
    PackFrom(units, Zero)
  }

  /** The units in `ds`, continuing after `bits` undelivered bits of value `buf`. Fails when a
      whole digit is left over or when the padding is not zero. */
  function UnpackFrom(ds: seq<Digit>, buf: nat, bits: nat): Option<seq<Word>>
    requires bits < 16
  {
    if ds == [] then
      if bits >= 6 || buf != 0 then None else Some([])
    else
      var b, n := buf * 64 + ds[0], bits + 6;
      if n < 16 then UnpackFrom(ds[1..], b, n)
      else Prepend([TopUnit(b, n)], UnpackFrom(ds[1..], LowBits(b, n), n - 16))
  }

  /** The first 16 of `n` bits. */
  function TopUnit(b: nat, n: int): Word
    requires 16 <= n < 22
  {
    (if n == 16 then b else if n == 17 then b / 2 else if n == 18 then b / 4
     else if n == 19 then b / 8 else if n == 20 then b / 16 else b / 32) % 0x10000
  }

  /** The bits after the first 16 of `n`. */
  function LowBits(b: nat, n: int): nat
    requires 16 <= n < 22
  {
    if n == 16 then 0 else if n == 17 then b % 2 else if n == 18 then b % 4
    else if n == 19 then b % 8 else if n == 20 then b % 16 else b % 32
  }

  function Unpack(ds: seq<Digit>): Option<seq<Word>> {
    UnpackFrom(ds, 0, 0)
  }

  // ------------------------------------------------------------ round trip

  lemma Keep(d: Digit, rest: seq<Digit>, buf: nat, bits: nat)
    requires bits < 10
    ensures UnpackFrom([d] + rest, buf, bits) == UnpackFrom(rest, buf * 64 + d, bits + 6)
  {
    assert ([d] + rest)[1..] == rest;
  }

  lemma KeepTwo(d1: Digit, d2: Digit, rest: seq<Digit>, buf: nat, bits: nat)
    requires bits < 4
    ensures UnpackFrom([d1] + ([d2] + rest), buf, bits) == UnpackFrom(rest, (buf * 64 + d1) * 64 + d2, bits + 12)
  {
    Keep(d1, [d2] + rest, buf, bits);
    Keep(d2, rest, buf * 64 + d1, bits + 6);
  }

  lemma Deliver(d: Digit, rest: seq<Digit>, buf: nat, bits: nat, unit: Word, low: nat)
    requires 10 <= bits < 16
    requires TopUnit(buf * 64 + d, bits + 6) == unit && LowBits(buf * 64 + d, bits + 6) == low
    ensures UnpackFrom([d] + rest, buf, bits) == Prepend([unit], UnpackFrom(rest, low, bits - 10))
  {
    assert ([d] + rest)[1..] == rest;
  }

  /** Reading the digits that carry one unit, at each of the three positions. */
  lemma ReadAtZero(w: Word, rest: seq<Digit>)
    ensures UnpackFrom([w / 0x400, w / 0x10 % 64] + rest, 0, 0) == UnpackFrom(rest, w / 0x10, 12)
  {
    Keep(w / 0x400, [w / 0x10 % 64] + rest, 0, 0);
    Keep(w / 0x10 % 64, rest, w / 0x400, 6);
    assert [w / 0x400, w / 0x10 % 64] + rest == [w / 0x400] + ([w / 0x10 % 64] + rest);
  }

  lemma JoinFour(unit: Word, top: nat)
    requires top < 4
    ensures TopUnit(unit / 16 * 64 + (unit % 16 * 4 + top), 18) == unit
    ensures LowBits(unit / 16 * 64 + (unit % 16 * 4 + top), 18) == top
  {
    assert unit / 16 * 64 + (unit % 16 * 4 + top) == unit * 4 + top;
  }

  lemma ReadAtFour(unit: Word, d0: Digit, d1: Digit, d2: Digit, w: Word, rest: seq<Digit>)
    requires d0 == unit % 16 * 4 + w / 0x4000 && d1 == w / 0x100 % 64 && d2 == w / 4 % 64
    ensures UnpackFrom([d0, d1, d2] + rest, unit / 16, 12) == Prepend([unit], UnpackFrom(rest, w / 4, 14))
  {
    JoinFour(unit, w / 0x4000);
    Deliver(d0, [d1] + ([d2] + rest), unit / 16, 12, unit, w / 0x4000);
    ReadLowFour(d1, d2, w, rest);
    assert [d0, d1, d2] + rest == [d0] + ([d1] + ([d2] + rest));
  }

  lemma LowFour(w: Word)
    ensures w / 0x4000 * 64 + w / 0x100 % 64 == w / 0x100
    ensures w / 0x100 * 64 + w / 4 % 64 == w / 4
  {
    assert w / 0x100 / 64 == w / 0x4000;
    assert w / 4 / 64 == w / 0x100;
  }

  lemma LowTwo(w: Word)
    ensures w / 0x1000 * 64 + w / 64 % 64 == w / 64
    ensures w / 64 * 64 + w % 64 == w
  {
    assert w / 64 / 64 == w / 0x1000;
  }

  lemma ReadLowFour(d1: Digit, d2: Digit, w: Word, rest: seq<Digit>)
    requires d1 == w / 0x100 % 64 && d2 == w / 4 % 64
    ensures UnpackFrom([d1] + ([d2] + rest), w / 0x4000, 2) == UnpackFrom(rest, w / 4, 14)
  {
    LowFour(w);
    KeepTwo(d1, d2, rest, w / 0x4000, 2);
  }

  lemma JoinTwo(unit: Word, top: nat)
    requires top < 16
    ensures TopUnit(unit / 4 * 64 + (unit % 4 * 16 + top), 20) == unit
    ensures LowBits(unit / 4 * 64 + (unit % 4 * 16 + top), 20) == top
  {
    assert unit / 4 * 64 + (unit % 4 * 16 + top) == unit * 16 + top;
  }

  lemma ReadAtTwo(unit: Word, d0: Digit, d1: Digit, d2: Digit, w: Word, rest: seq<Digit>)
    requires d0 == unit % 4 * 16 + w / 0x1000 && d1 == w / 64 % 64 && d2 == w % 64
    ensures UnpackFrom([d0, d1, d2] + rest, unit / 4, 14)
         == Prepend([unit], Prepend([w], UnpackFrom(rest, 0, 0)))
  {
    JoinTwo(unit, w / 0x1000);
    Deliver(d0, [d1] + ([d2] + rest), unit / 4, 14, unit, w / 0x1000);
    ReadLowTwo(d1, d2, w, rest);
    assert [d0, d1, d2] + rest == [d0] + ([d1] + ([d2] + rest));
  }

  lemma ReadLowTwo(d1: Digit, d2: Digit, w: Word, rest: seq<Digit>)
    requires d1 == w / 64 % 64 && d2 == w % 64
    ensures UnpackFrom([d1] + ([d2] + rest), w / 0x1000, 4) == Prepend([w], UnpackFrom(rest, 0, 0))
  {
    LowTwo(w);
    Keep(d1, [d2] + rest, w / 0x1000, 4);
    Deliver(d2, rest, w / 64, 10, w, 0);
  }

  lemma {:induction false} UnpackAfterZero(units: seq<Word>)
    ensures UnpackFrom(PackFrom(units, Zero), 0, 0) == Some(units)
    decreases units, 1
  {
    if units != [] {
      var w := units[0];
      ReadAtZero(w, PackFrom(units[1..], Four(w % 16)));
      UnpackAfterFour(units[1..], w);
      assert [w] + units[1..] == units;
    }
  }

  lemma {:induction false} UnpackAfterFour(units: seq<Word>, unit: Word)
    ensures UnpackFrom(PackFrom(units, Four(unit % 16)), unit / 16, 12) == Some([unit] + units)
    decreases units, 0
  {
    if units == [] {
      JoinFour(unit, 0);
      Deliver(unit % 16 * 4, [], unit / 16, 12, unit, 0);
    } else {
      var w := units[0];
      ReadAtFour(unit, unit % 16 * 4 + w / 0x4000, w / 0x100 % 64, w / 4 % 64, w, PackFrom(units[1..], Two(w % 4)));
      UnpackAfterTwo(units[1..], w);
      assert [unit] + ([w] + units[1..]) == [unit] + units;
    }
  }

  lemma {:induction false} UnpackAfterTwo(units: seq<Word>, unit: Word)
    ensures UnpackFrom(PackFrom(units, Two(unit % 4)), unit / 4, 14) == Some([unit] + units)
    decreases units, 0
  {
    if units == [] {
      JoinTwo(unit, 0);
      Deliver(unit % 4 * 16, [], unit / 4, 14, unit, 0);
    } else {
      var w := units[0];
      ReadAtTwo(unit, unit % 4 * 16 + w / 0x1000, w / 64 % 64, w % 64, w, PackFrom(units[1..], Zero));
      UnpackAfterZero(units[1..]);
      assert [unit] + ([w] + units[1..]) == [unit] + units;
    }
  }

  /** Unpacking undoes packing, for every sequence of units. */
  lemma UnpackPack(units: seq<Word>)
    ensures Unpack(Pack(units)) == Some(units)
  {
    UnpackAfterZero(units);
  }

  // ------------------------------------------------- independent reading

  /** `ds` read as one number in base 64, after the digits already read as `acc`. */
  function Big(ds: seq<Digit>, acc: nat): nat {
    if ds == [] then acc else Big(ds[1..], acc * 64 + ds[0])
  }

  /** `units` read as one number in base 65536. */
  function BigUnits(units: seq<Word>, acc: nat): nat {
    if units == [] then acc else BigUnits(units[1..], acc * 0x10000 + units[0])
  }

  function Bits(k: Carry): nat {
    if k.Zero? then 0 else if k.Four? then 4 else 2
  }

  /** The weight of the zero bits that pad the last digit, for `n` more units after `k`. */
  function Padding(n: nat, k: Carry): nat {
    var last := if k.Zero? then n % 3 else if k.Four? then (n + 1) % 3 else (n + 2) % 3;
    if last == 0 then 1 else if last == 1 then 4 else 16
  }

  lemma {:induction false} PackLength(units: seq<Word>, k: Carry)
    ensures |PackFrom(units, k)| == (16 * |units| + Bits(k) + 5) / 6
    decreases units
  {
    if units != [] {
      var w := units[0];
      PackLength(units[1..], if k.Zero? then Four(w % 16) else if k.Four? then Two(w % 4) else Zero);
    }
  }

  lemma BigTwo(d0: Digit, d1: Digit, rest: seq<Digit>, acc: nat)
    ensures Big([d0, d1] + rest, acc) == Big(rest, (acc * 64 + d0) * 64 + d1)
  {
    assert ([d0, d1] + rest)[1..] == [d1] + rest;
    assert ([d1] + rest)[1..] == rest;
  }

  lemma BigThree(d0: Digit, d1: Digit, d2: Digit, rest: seq<Digit>, acc: nat)
    ensures Big([d0, d1, d2] + rest, acc) == Big(rest, ((acc * 64 + d0) * 64 + d1) * 64 + d2)
  {
    assert ([d0, d1, d2] + rest)[1..] == [d1, d2] + rest;
    BigTwo(d1, d2, rest, acc * 64 + d0);
  }

  lemma {:induction false} BigAfterZero(units: seq<Word>, acc: nat)
    ensures Big(PackFrom(units, Zero), acc) == BigUnits(units, acc) * Padding(|units|, Zero)
    decreases units
  {
    if units != [] {
      var w := units[0];
      BigTwo(w / 0x400, w / 0x10 % 64, PackFrom(units[1..], Four(w % 16)), acc);
      assert w / 0x10 / 64 == w / 0x400;
      BigAfterFour(units[1..], (acc * 64 + w / 0x400) * 64 + w / 0x10 % 64, w % 16, acc * 0x10000 + w);
    }
  }

  lemma {:induction false} BigAfterFour(units: seq<Word>, acc: nat, v: U4, all: nat)
    requires all == acc * 16 + v
    ensures Big(PackFrom(units, Four(v)), acc) == BigUnits(units, all) * Padding(|units|, Four(v))
    decreases units
  {
    if units != [] {
      var w := units[0];
      BigThree(v * 4 + w / 0x4000, w / 0x100 % 64, w / 4 % 64, PackFrom(units[1..], Two(w % 4)), acc);
      LowFour(w);
      BigAfterTwo(units[1..], ((acc * 64 + (v * 4 + w / 0x4000)) * 64 + w / 0x100 % 64) * 64 + w / 4 % 64,
                  w % 4, all * 0x10000 + w);
    }
  }

  lemma JoinAll(acc: nat, v: U2, w: Word)
    ensures ((acc * 64 + (v * 16 + w / 0x1000)) * 64 + w / 64 % 64) * 64 + w % 64 == (acc * 4 + v) * 0x10000 + w
  {
    LowTwo(w);
  }

  lemma {:induction false} BigAfterTwo(units: seq<Word>, acc: nat, v: U2, all: nat)
    requires all == acc * 4 + v
    ensures Big(PackFrom(units, Two(v)), acc) == BigUnits(units, all) * Padding(|units|, Two(v))
    decreases units
  {
    if units != [] {
      var w := units[0];
      var d0: Digit, d1: Digit, d2: Digit := v * 16 + w / 0x1000, w / 64 % 64, w % 64;
      JoinAll(acc, v, w);
      assert ((acc * 64 + d0) * 64 + d1) * 64 + d2 == all * 0x10000 + w;
      BigThree(d0, d1, d2, PackFrom(units[1..], Zero), acc);
      BigAfterZero(units[1..], all * 0x10000 + w);
      assert Padding(|units[1..]|, Zero) == Padding(|units|, Two(v));
    }
  }

  /** Packing rewrites the number in base 64 with the fewest zero bits of padding. */
  lemma PackIsBigEndian(units: seq<Word>)
    ensures |Pack(units)| == (16 * |units| + 5) / 6
    ensures Big(Pack(units), 0) == BigUnits(units, 0) * Padding(|units|, Zero)
  {
    PackLength(units, Zero);
    BigAfterZero(units, 0);
  }

  // ------------------------------------------------------ misaligned digits

  lemma {:induction false} Leftover(ds: seq<Digit>, buf: nat, bits: nat, q: int, r: nat)
    requires bits < 16 && bits + 6 * |ds| == 16 * q + r && 6 <= r < 16
    ensures UnpackFrom(ds, buf, bits) == None
    decreases ds
  {
    if ds != [] {
      var b, n := buf * 64 + ds[0], bits + 6;
      if n < 16 {
        Leftover(ds[1..], b, n, q, r);
      } else {
        Leftover(ds[1..], LowBits(b, n), n - 16, q - 1, r);
      }
    }
  }

  /** One digit in front of well-formed digits always leaves a whole digit over. */
  lemma Misaligned(d: Digit, units: seq<Word>)
    ensures Unpack([d] + Pack(units)) == None
  {
    PackLength(units, Zero);
    var r := 6 * (1 + |Pack(units)|) - 16 * |units|;
    assert 6 <= r < 16;
    Leftover([d] + Pack(units), 0, 0, |units|, r);
  }
}
