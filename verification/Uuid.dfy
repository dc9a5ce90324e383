/**
 User and conversation ids.  A UUID is 16 bytes; its canonical text is section 4 of RFC 9562:
 lowercase hexadecimal in groups of 8-4-4-4-12.
 */
module Uuid {
  type Id = u: seq<bv8> | |u| == 16 witness seq(16, i => 0 as bv8)

  function HexDigit(d: bv8): bv8
    requires d < 16
  {
    if d < 10 then 48 + d else 87 + d  // '0'.. and 'a'..
  }

  function HyphenBefore(i: nat): seq<bv8> {
    if i == 4 || i == 6 || i == 8 || i == 10 then [45] else []
  }

  /** The text of the bytes from position `i` on. */
  function TextFrom(u: Id, i: nat): seq<bv8>
    requires i <= 16
    decreases 16 - i
  {
    if i == 16 then []
    else HyphenBefore(i) + ([HexDigit(u[i] >> 4), HexDigit(u[i] & 15)] + TextFrom(u, i + 1))
  }

  function Text(u: Id): seq<bv8> {
    TextFrom(u, 0)
  }

  /** Byte by byte from the left: Go's order on strings and the database's order on ids. */
  predicate Less(a: seq<bv8>, b: seq<bv8>) {
    b != [] && (a == [] || a[0] < b[0] || (a[0] == b[0] && Less(a[1..], b[1..])))
  }

  lemma {:induction false} LessAfterPrefix(p: seq<bv8>, a: seq<bv8>, b: seq<bv8>)
    ensures Less(p + a, p + b) <==> Less(a, b)
  {
    if p == [] {
      assert p + a == a && p + b == b;
    } else {
      assert (p + a)[1..] == p[1..] + a && (p + b)[1..] == p[1..] + b;
      LessAfterPrefix(p[1..], a, b);
    }
  }

  /** Two hexadecimal digits order like the byte they stand for. */
  lemma HexPairOrder(x: bv8, y: bv8)
    ensures x < y <==>
              HexDigit(x >> 4) < HexDigit(y >> 4)
              || (HexDigit(x >> 4) == HexDigit(y >> 4) && HexDigit(x & 15) < HexDigit(y & 15))
    ensures HexDigit(x >> 4) == HexDigit(y >> 4) && HexDigit(x & 15) == HexDigit(y & 15) <==> x == y
  {
  }

  lemma LessCons(x: bv8, a: seq<bv8>, y: bv8, b: seq<bv8>)
    ensures Less([x] + a, [y] + b) <==> x < y || (x == y && Less(a, b))
  {
    assert ([x] + a)[1..] == a && ([y] + b)[1..] == b;
  }

  lemma LessPairs(h: bv8, l: bv8, a: seq<bv8>, h': bv8, l': bv8, b: seq<bv8>)
    ensures Less([h, l] + a, [h', l'] + b) <==> h < h' || (h == h' && (l < l' || (l == l' && Less(a, b))))
  {
    assert [h, l] + a == [h] + ([l] + a) && [h', l'] + b == [h'] + ([l'] + b);
    LessCons(h, [l] + a, h', [l'] + b);
    LessCons(l, a, l', b);
  }

  lemma {:induction false} TextFromOrder(u: Id, v: Id, i: nat)
    requires i <= 16
    ensures Less(TextFrom(u, i), TextFrom(v, i)) <==> Less(u[i..], v[i..])
    decreases 16 - i
  {
    if i < 16 {
      var pairU, pairV := [HexDigit(u[i] >> 4), HexDigit(u[i] & 15)], [HexDigit(v[i] >> 4), HexDigit(v[i] & 15)];
      var restU, restV := TextFrom(u, i + 1), TextFrom(v, i + 1);
      LessAfterPrefix(HyphenBefore(i), pairU + restU, pairV + restV);
      LessPairs(pairU[0], pairU[1], restU, pairV[0], pairV[1], restV);
      HexPairOrder(u[i], v[i]);
      TextFromOrder(u, v, i + 1);
      assert u[i..][1..] == u[i + 1..] && v[i..][1..] == v[i + 1..];
    }
  }

  /** Comparing the texts of two ids orders them exactly as their bytes do. */
  lemma TextOrder(u: Id, v: Id)
    ensures Less(Text(u), Text(v)) <==> Less(u, v)
  {
    TextFromOrder(u, v, 0);
    assert u[0..] == u && v[0..] == v;
  }

  lemma {:induction false} LessTotal(a: seq<bv8>, b: seq<bv8>)
    requires |a| == |b|
    ensures Less(a, b) || Less(b, a) <==> a != b
    ensures !(Less(a, b) && Less(b, a))
  {
    if a != [] {
      LessTotal(a[1..], b[1..]);
      assert a == [a[0]] + a[1..] && b == [b[0]] + b[1..];
    }
  }

  // ---------------------------------------------------------------- the shape of the text

  const HEX := "0123456789abcdef"

  lemma HexDigitIs(d: bv8)
    requires d < 16
    ensures HexDigit(d) as int == HEX[d] as int
  {
  }

  /** The bytes from a to b in hexadecimal, two digits each. */
  function Hex(u: Id, a: nat, b: nat): (text: seq<bv8>)
    requires a <= b <= 16
    ensures |text| == 2 * (b - a)
    decreases b - a
  {
    if a == b then [] else [HexDigit(u[a] >> 4), HexDigit(u[a] & 15)] + Hex(u, a + 1, b)
  }

  /** Each pair of digits is the byte it stands for, high half first. */
  lemma {:induction false} HexAt(u: Id, a: nat, b: nat, i: nat)
    requires a <= i < b <= 16
    ensures Hex(u, a, b)[2 * (i - a)] as int == HEX[u[i] >> 4] as int
    ensures Hex(u, a, b)[2 * (i - a) + 1] as int == HEX[u[i] & 15] as int
    decreases b - a
  {
    if i == a {
      HexDigitIs(u[i] >> 4);
      HexDigitIs(u[i] & 15);
    } else {
      HexAt(u, a + 1, b, i);
    }
  }

  lemma Regroup(pair: seq<bv8>, digits: seq<bv8>, rest: seq<bv8>)
    ensures pair + ([] + (digits + rest)) == (pair + digits) + rest
    ensures pair + [] == pair
  {
  }

  /** The text after some stretch. */
  function TextAfter(u: Id, b: nat): seq<bv8>
    requires b <= 16
  {
    if b == 16 then [] else TextFrom(u, b)
  }

  lemma TextStep(u: Id, i: nat)
    requires i < 16
    ensures TextFrom(u, i) == HyphenBefore(i) + ([HexDigit(u[i] >> 4), HexDigit(u[i] & 15)] + TextAfter(u, i + 1))
  {
  }

  /** A stretch without hyphens inside. */
  lemma {:induction false} Stretch(u: Id, a: nat, b: nat)
    requires a < b <= 16 && forall i :: a < i < b ==> HyphenBefore(i) == []
    ensures TextFrom(u, a) == HyphenBefore(a) + (Hex(u, a, b) + TextAfter(u, b))
    decreases b - a
  {
    var pair := [HexDigit(u[a] >> 4), HexDigit(u[a] & 15)];
    TextStep(u, a);
    assert Hex(u, a, b) == pair + Hex(u, a + 1, b);
    if a + 1 < b {
      Stretch(u, a + 1, b);
      Regroup(pair, Hex(u, a + 1, b), TextAfter(u, b));
    } else {
      Regroup(pair, [], []);
    }
  }

  lemma LastGroups(u: Id)
    ensures TextFrom(u, 8) == [45] + (Hex(u, 8, 10) + ([45] + Hex(u, 10, 16)))
  {
    Stretch(u, 8, 10);
    Stretch(u, 10, 16);
    assert Hex(u, 10, 16) + [] == Hex(u, 10, 16);
  }

  lemma MiddleGroups(u: Id, rest: seq<bv8>)
    requires rest == TextFrom(u, 8)
    ensures TextFrom(u, 4) == [45] + (Hex(u, 4, 6) + ([45] + (Hex(u, 6, 8) + rest)))
  {
    Stretch(u, 4, 6);
    Stretch(u, 6, 8);
  }

  lemma FirstGroup(u: Id, rest: seq<bv8>)
    requires rest == TextFrom(u, 4)
    ensures Text(u) == Hex(u, 0, 4) + rest
  {
    Stretch(u, 0, 4);
    assert [] + (Hex(u, 0, 4) + rest) == Hex(u, 0, 4) + rest;
  }

  /** The canonical text: groups of 8, 4, 4, 4 and 12 digits. */
  lemma TextShape(u: Id)
    ensures Text(u)
         == Hex(u, 0, 4) + ([45] + (Hex(u, 4, 6) + ([45] + (Hex(u, 6, 8) + ([45] + (Hex(u, 8, 10) + ([45] + Hex(u, 10, 16))))))))
  {
    LastGroups(u);
    MiddleGroups(u, TextFrom(u, 8));
    FirstGroup(u, TextFrom(u, 4));
  }
}
