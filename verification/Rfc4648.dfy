/** The base64 encodings of RFC 4648: the standard one of section 4 and the URL-safe one of section 5. */
module Rfc4648 {
  import opened Prelude

  type Bytes = seq<bv8>

  const PAD: bv8 := 61  // '='

  /** A 24-bit input group, formed by concatenating three 8-bit bytes. */
  function Group(a: bv8, b: bv8, c: bv8): bv24 {
    ((a as bv24) << 16) | ((b as bv24) << 8) | (c as bv24)
  }

  /** The four 6-bit groups that a 24-bit group is treated as. */
  function Sextets(v: bv24): (bv8, bv8, bv8, bv8) {
    (((v >> 18) & 63) as bv8, ((v >> 12) & 63) as bv8, ((v >> 6) & 63) as bv8, (v & 63) as bv8)
  }

  /** Table 1 (section 4) and Table 2 (section 5), as ASCII codes. */
  function Digit(x: bv8, url: bool): bv8
    requires x < 64
  {
    if x < 26 then 65 + x
    else if x < 52 then 71 + x
    else if x < 62 then x - 4
    else if x == 62 then (if url then 45 else 43)
    else (if url then 95 else 47)
  }

  function Value(c: bv8, url: bool): Option<bv8> {
    if 65 <= c <= 90 then Some(c - 65)
    else if 97 <= c <= 122 then Some(c - 71)
    else if 48 <= c <= 57 then Some(c + 4)
    else if c == (if url then 45 else 43) then Some(62)
    else if c == (if url then 95 else 47) then Some(63)
    else None
  }

  function Digits(a: bv8, b: bv8, c: bv8, url: bool): seq<bv8> {
    var v := Group(a, b, c);
    var (w, x, y, z) := Sextets(v);
    assert w < 64 && x < 64 && y < 64 && z < 64;
    [Digit(w, url), Digit(x, url), Digit(y, url), Digit(z, url)]
  }

  function Least(a: nat, b: nat): nat {
    if a <= b then a else b
  }

  function At(s: Bytes, i: nat): bv8 {
    if i < |s| then s[i] else 0
  }

  /** One group of up to three bytes: missing bytes count as zero, missing digits may be padded. */
  function EncodeGroup(s: Bytes, url: bool, padded: bool): Bytes
    requires 1 <= |s| <= 3
  {
    Digits(s[0], At(s, 1), At(s, 2), url)[..|s| + 1] + if padded then [PAD, PAD][..3 - |s|] else []
  }

  function Encode(s: Bytes, url: bool, padded: bool): Bytes {
    if s == [] then []
    else
      var k := Least(|s|, 3);
      EncodeGroup(s[..k], url, padded) + Encode(s[k..], url, padded)
  }

  /** Go's raw URL decoder: it skips line breaks, wants no padding and ignores spare bits. */
  function DecodeRawUrl(text: Bytes): Option<Bytes> {
    DecodeGroups(NoBreaks(text))
  }

  function NoBreaks(text: Bytes): Bytes {
    if text == [] then []
    else if text[0] == 10 || text[0] == 13 then NoBreaks(text[1..])
    else [text[0]] + NoBreaks(text[1..])
  }

  function DecodeGroups(text: Bytes): Option<Bytes> {
    if text == [] then Some([])
    else
      var n := if |text| < 4 then |text| else 4;
      match (Quantum(text[..n]), DecodeGroups(text[n..]))
      case (Some(bytes), Some(rest)) => Some(bytes + rest)
      case (_, _) => None
  }

  /** One group of digits; missing digits are only accepted from the third on. */
  function Quantum(text: Bytes): Option<Bytes>
    requires 1 <= |text| <= 4
  {
    if |text| == 1 then None
    else
      var y := if |text| > 2 then Value(text[2], true) else Some(0);
      var z := if |text| > 3 then Value(text[3], true) else Some(0);
      match (Value(text[0], true), Value(text[1], true), y, z)
      case (Some(w), Some(x), Some(y), Some(z)) => Some(Joined(w, x, y, z)[..|text| - 1])
      case (_, _, _, _) => None
  }

  function Joined(w: bv8, x: bv8, y: bv8, z: bv8): Bytes {
    [(w << 2) | (x >> 4), (x << 4) | (y >> 2), (y << 6) | z]
  }

  lemma DigitValue(x: bv8, url: bool)
    requires x < 64
    ensures Value(Digit(x, url), url) == Some(x)
    ensures Digit(x, url) != 10 && Digit(x, url) != 13
  {
  }

  lemma SextetsJoin(a: bv8, b: bv8, c: bv8)
    ensures
      var (w, x, y, z) := Sextets(Group(a, b, c));
      && w < 64 && x < 64 && y < 64 && z < 64
      && a == (w << 2) | (x >> 4) && b == (x << 4) | (y >> 2) && c == (y << 6) | z
      && (b == 0 && c == 0 ==> y == 0) && (c == 0 ==> z == 0)
  {
  }

  lemma QuantumOf(text: Bytes, k: nat, w: bv8, x: bv8, y: bv8, z: bv8)
    requires 1 <= k <= 3 && |text| == k + 1
    requires Value(text[0], true) == Some(w) && Value(text[1], true) == Some(x)
    requires if k > 1 then Value(text[2], true) == Some(y) else y == 0
    requires if k > 2 then Value(text[3], true) == Some(z) else z == 0
    ensures Quantum(text) == Some(Joined(w, x, y, z)[..k])
  {
  }

  lemma DigitsValues(a: bv8, b: bv8, c: bv8, w: bv8, x: bv8, y: bv8, z: bv8)
    requires (w, x, y, z) == Sextets(Group(a, b, c))
    ensures
      var text := Digits(a, b, c, true);
      && Value(text[0], true) == Some(w) && Value(text[1], true) == Some(x)
      && Value(text[2], true) == Some(y) && Value(text[3], true) == Some(z)
    ensures Joined(w, x, y, z) == [a, b, c]
    ensures (b == 0 && c == 0 ==> y == 0) && (c == 0 ==> z == 0)
  {
    SextetsJoin(a, b, c);
    DigitValue(w, true);
    DigitValue(x, true);
    DigitValue(y, true);
    DigitValue(z, true);
  }

  /** The first `k + 1` digits of a group stand for its first `k` bytes, if the others are 0. */
  lemma DigitsDecode(a: bv8, b: bv8, c: bv8, k: nat)
    requires k == 3 || (k == 2 && c == 0) || (k == 1 && b == 0 && c == 0)
    ensures Quantum(Digits(a, b, c, true)[..k + 1]) == Some([a, b, c][..k])
  {
    var (w, x, y, z) := Sextets(Group(a, b, c));
    DigitsValues(a, b, c, w, x, y, z);
    QuantumOf(Digits(a, b, c, true)[..k + 1], k, w, x, y, z);
  }

  /** URL-safe decoding undoes URL-safe encoding without padding, on all byte strings. */
  lemma {:induction false} DecodeEncode(s: Bytes)
    ensures DecodeRawUrl(Encode(s, true, false)) == Some(s)
  {
    EncodeNoBreaks(s);
    DecodeGroupsEncode(s);
  }

  lemma DecodeGroupsCons(four: Bytes, k: nat, bytes: Bytes, rest: Bytes)
    requires 1 <= k <= 3 && |four| == k + 1 && (k < 3 ==> rest == [])
    requires Quantum(four) == Some(bytes) && DecodeGroups(rest).Some?
    ensures DecodeGroups(four + rest) == Some(bytes + DecodeGroups(rest).value)
  {
    var n := if |four + rest| < 4 then |four + rest| else 4;
    assert (four + rest)[..n] == four && (four + rest)[n..] == rest;
  }

  lemma GroupDecodes(s: Bytes)
    requires 1 <= |s| <= 3
    ensures |EncodeGroup(s, true, false)| == |s| + 1 && Quantum(EncodeGroup(s, true, false)) == Some(s)
  {
    DigitsDecode(s[0], At(s, 1), At(s, 2), |s|);
    assert s == [s[0], At(s, 1), At(s, 2)][..|s|];
    assert EncodeGroup(s, true, false) == Digits(s[0], At(s, 1), At(s, 2), true)[..|s| + 1];
  }

  lemma {:induction false} DecodeGroupsEncode(s: Bytes)
    ensures DecodeGroups(Encode(s, true, false)) == Some(s)
  {
    if s != [] {
      var k := Least(|s|, 3);
      GroupDecodes(s[..k]);
      DecodeGroupsEncode(s[k..]);
      DecodeGroupsCons(EncodeGroup(s[..k], true, false), k, s[..k], Encode(s[k..], true, false));
      assert s == s[..k] + s[k..];
    }
  }

  ghost predicate Unbroken(text: Bytes) {
    forall c :: c in text ==> c != 10 && c != 13
  }

  lemma {:induction false} UnbrokenKept(text: Bytes)
    requires Unbroken(text)
    ensures NoBreaks(text) == text
  {
    if text != [] {
      assert text[0] in text && forall c :: c in text[1..] ==> c in text;
      UnbrokenKept(text[1..]);
      assert text == [text[0]] + text[1..];
    }
  }

  lemma DigitsUnbroken(a: bv8, b: bv8, c: bv8)
    ensures Unbroken(Digits(a, b, c, true))
  {
    var (w, x, y, z) := Sextets(Group(a, b, c));
    SextetsJoin(a, b, c);
    DigitValue(w, true);
    DigitValue(x, true);
    DigitValue(y, true);
    DigitValue(z, true);
  }

  lemma {:induction false} EncodeNoBreaks(s: Bytes)
    ensures NoBreaks(Encode(s, true, false)) == Encode(s, true, false)
  {
    EncodeUnbroken(s);
    UnbrokenKept(Encode(s, true, false));
  }

  lemma GroupUnbroken(s: Bytes)
    requires 1 <= |s| <= 3
    ensures Unbroken(EncodeGroup(s, true, false))
  {
    DigitsUnbroken(s[0], At(s, 1), At(s, 2));
    UnbrokenPrefix(Digits(s[0], At(s, 1), At(s, 2), true), |s| + 1);
    RawGroup(s);
  }

  lemma RawGroup(s: Bytes)
    requires 1 <= |s| <= 3
    ensures EncodeGroup(s, true, false) == Digits(s[0], At(s, 1), At(s, 2), true)[..|s| + 1]
  {
  }

  lemma UnbrokenPrefix(text: Bytes, n: nat)
    requires Unbroken(text) && n <= |text|
    ensures Unbroken(text[..n])
  {
    assert forall c :: c in text[..n] ==> c in text;
  }

  lemma {:induction false} EncodeUnbroken(s: Bytes)
    ensures Unbroken(Encode(s, true, false))
  {
    if s != [] {
      var k := Least(|s|, 3);
      GroupUnbroken(s[..k]);
      EncodeUnbroken(s[k..]);
    }
  }

  /** Raw encoding spends four digits on three bytes, and two or three on a remainder. */
  lemma {:induction false} EncodeLength(s: Bytes)
    ensures |Encode(s, true, false)| == |s| / 3 * 4 + (if |s| % 3 == 0 then 0 else |s| % 3 + 1)
  {
    if s != [] {
      EncodeLength(s[Least(|s|, 3)..]);
    }
  }

  /** Two digits hold one byte, whatever the spare bits of the second. */
  lemma TwoDigits(a: bv8, b: bv8, c: bv8)
    ensures Quantum(Digits(a, b, c, true)[..2]) == Some([a])
  {
    var (w, x, y, z) := Sextets(Group(a, b, c));
    DigitsValues(a, b, c, w, x, y, z);
    var text := Digits(a, b, c, true)[..2];
    assert text[0] == Digits(a, b, c, true)[0] && text[1] == Digits(a, b, c, true)[1];
    QuantumOf(text, 1, w, x, 0, 0);
    assert Joined(w, x, 0, 0)[0] == Joined(w, x, y, z)[0] == a;
    assert Joined(w, x, 0, 0)[..1] == [a];
  }

  /** The first ten digits of eight bytes hold the first seven of them. */
  lemma DigitsOfEight(s: Bytes)
    requires |s| == 8
    ensures |Encode(s, true, false)| == 11 && DecodeRawUrl(Encode(s, true, false)[..10]) == Some(s[..7])
  {
    var first, second := EncodeGroup(s[..3], true, false), EncodeGroup(s[3..6], true, false);
    var third := EncodeGroup(s[6..], true, false);
    EncodeLength(s);
    EightBytes(s);
    GroupDecodes(s[..3]);
    GroupDecodes(s[3..6]);
    GroupDecodes(s[6..]);
    var text := first + (second + third[..2]);
    assert Encode(s, true, false)[..10] == text;
    EncodeUnbroken(s);
    UnbrokenPrefix(Encode(s, true, false), 10);
    UnbrokenKept(text);
    RawGroup(s[6..]);
    TwoDigits(s[6], s[7], 0);
    assert third[..2] == Digits(s[6], s[7], 0, true)[..2];
    assert third[..2] + [] == third[..2] && DecodeGroups([]) == Some([]);
    DecodeGroupsCons(third[..2], 1, [s[6]], []);
    DecodeGroupsCons(second, 3, s[3..6], third[..2]);
    DecodeGroupsCons(first, 3, s[..3], second + third[..2]);
    assert s[..3] + (s[3..6] + ([s[6]] + [])) == s[..7];
  }

  lemma EightBytes(s: Bytes)
    requires |s| == 8
    ensures Encode(s, true, false)
         == EncodeGroup(s[..3], true, false) + (EncodeGroup(s[3..6], true, false) + EncodeGroup(s[6..], true, false))
  {
    assert s[3..][..3] == s[3..6] && s[3..][3..] == s[6..] && s[6..][..2] == s[6..] && s[6..][2..] == [];
    assert Encode(s[6..], true, false) == EncodeGroup(s[6..], true, false) + Encode([], true, false);
  }

  // ---------------------------------------------------------------- the tables

  /** Table 1 of RFC 4648, and Table 2 for the URL-safe alphabet: A to Z, a to z, 0 to 9 and two signs. */
  lemma DigitsOfTables(x: bv8, url: bool)
    requires x < 64
    ensures
      var c, n := Digit(x, url) as int, x as int;
      && (n <= 25 ==> c == 'A' as int + n)
      && (26 <= n <= 51 ==> c == 'a' as int + (n - 26))
      && (52 <= n <= 61 ==> c == '0' as int + (n - 52))
      && (n == 62 ==> c == if url then '-' as int else '+' as int)
      && (n == 63 ==> c == if url then '_' as int else '/' as int)
  {
  }

  // ---------------------------------------------------------------- what the decoder takes

  predicate IsDigit(c: bv8) {
    65 <= c <= 90 || 97 <= c <= 122 || 48 <= c <= 57 || c == 45 || c == 95
  }

  ghost predicate AllDigits(text: Bytes) {
    forall c :: c in text ==> IsDigit(c)
  }

  lemma DigitOfValue(c: bv8)
    ensures Value(c, true).Some? <==> IsDigit(c)
    ensures Value(c, true).Some? ==> Value(c, true).value < 64 && Digit(Value(c, true).value, true) == c
  {
  }

  lemma QuantumIff(text: Bytes)
    requires 1 <= |text| <= 4
    ensures Quantum(text).Some? <==> |text| > 1 && AllDigits(text)
    ensures Quantum(text).Some? ==> |Quantum(text).value| == |text| - 1
  {
    DigitOfValue(text[0]);
    if |text| > 1 { DigitOfValue(text[1]); }
    if |text| > 2 { DigitOfValue(text[2]); }
    if |text| > 3 { DigitOfValue(text[3]); }
  }

  lemma AllDigitsConcat(a: Bytes, b: Bytes)
    ensures AllDigits(a + b) <==> AllDigits(a) && AllDigits(b)
  {
    if AllDigits(a + b) {
      assert forall c :: c in a || c in b ==> c in a + b;
    }
  }

  lemma FirstGroup(four: Bytes, rest: Bytes)
    requires |four| == 4 || (1 <= |four| < 4 && rest == [])
    ensures DecodeGroups(four + rest).Some? <==> Quantum(four).Some? && DecodeGroups(rest).Some?
  {
    var n := if |four + rest| < 4 then |four + rest| else 4;
    assert (four + rest)[..n] == four && (four + rest)[n..] == rest;
  }

  predicate Fits(n: nat) {
    n % 4 != 1
  }

  lemma FourMore(n: nat)
    ensures Fits(4 + n) <==> Fits(n)
  {
  }

  lemma FirstFits(four: Bytes, rest: Bytes)
    requires |four| == 4 || (1 <= |four| < 4 && rest == [])
    requires DecodeGroups(rest).Some? <==> Fits(|rest|) && AllDigits(rest)
    ensures DecodeGroups(four + rest).Some? <==> Fits(|four + rest|) && AllDigits(four + rest)
  {
    FirstGroup(four, rest);
    QuantumIff(four);
    AllDigitsConcat(four, rest);
    FourMore(|rest|);
  }

  lemma {:induction false} GroupsIff(text: Bytes)
    ensures DecodeGroups(text).Some? <==> Fits(|text|) && AllDigits(text)
  {
    if text != [] {
      var n := if |text| < 4 then |text| else 4;
      GroupsIff(text[n..]);
      FirstFits(text[..n], text[n..]);
      assert text == text[..n] + text[n..];
    }
  }

  lemma {:induction false} NoBreaksConcat(a: Bytes, b: Bytes)
    ensures NoBreaks(a + b) == NoBreaks(a) + NoBreaks(b)
  {
    if a == [] {
      assert a + b == b;
    } else {
      assert (a + b)[1..] == a[1..] + b;
      NoBreaksConcat(a[1..], b);
    }
  }

  lemma {:induction false} NoBreaksCount(text: Bytes, c: bv8)
    ensures Count(NoBreaks(text), c) == if c == 10 || c == 13 then 0 else Count(text, c)
    ensures |NoBreaks(text)| == |text| - Count(text, 10) - Count(text, 13)
  {
    if text != [] {
      assert text == [text[0]] + text[1..];
      CountConcat([text[0]], text[1..], c);
      CountConcat([text[0]], text[1..], 10);
      CountConcat([text[0]], text[1..], 13);
      CountConcat([text[0]], NoBreaks(text[1..]), c);
      NoBreaksCount(text[1..], c);
    }
  }

  /** A text decodes if and only if it is digits and line breaks, and the digits are not one more than whole groups. */
  lemma DecodesIff(text: Bytes)
    ensures DecodeRawUrl(text).Some?
       <==> && (forall c :: c in text ==> IsDigit(c) || c == 10 || c == 13)
            && (|text| - Count(text, 10) - Count(text, 13)) % 4 != 1
  {
    GroupsIff(NoBreaks(text));
    NoBreaksCount(text, 10);
    forall c ensures c in NoBreaks(text) <==> c in text && c != 10 && c != 13 {
      NoBreaksCount(text, c);
      CountedIsIn(text, c);
      CountedIsIn(NoBreaks(text), c);
    }
  }

  /** A line break more, anywhere, decodes to the same. */
  lemma BreaksDoNotMatter(a: Bytes, c: bv8, b: Bytes)
    requires c == 10 || c == 13
    ensures DecodeRawUrl(a + [c] + b) == DecodeRawUrl(a + b)
  {
    NoBreaksConcat(a + [c], b);
    NoBreaksConcat(a, [c]);
    NoBreaksConcat(a, b);
    assert [c][1..] == [] && NoBreaks([c]) == [] && NoBreaks(a) + [] == NoBreaks(a);
  }

  lemma SextetsOfJoined(w: bv8, x: bv8, y: bv8, z: bv8)
    requires w < 64 && x < 64 && y < 64 && z < 64
    ensures var b := Joined(w, x, y, z); Sextets(Group(b[0], b[1], b[2])) == (w, x, y, z)
    ensures var b := Joined(w, x, y, z); Sextets(Group(b[0], b[1], 0)).0 == w && Sextets(Group(b[0], b[1], 0)).1 == x
    ensures var b := Joined(w, x, y, z); Sextets(Group(b[0], 0, 0)).0 == w
  {
  }

  /** What a group decodes to is encoded to the group again, but for the spare bits of its last digit. */
  lemma GroupReencodes(text: Bytes)
    requires 1 <= |text| <= 4 && Quantum(text).Some?
    ensures
      var group := EncodeGroup(Quantum(text).value, true, false);
      && |group| == |text| && (|text| == 4 ==> group == text)
      && forall i :: 0 <= i < |text| - 1 ==> group[i] == text[i]
  {
    QuantumIff(text);
    var y := if |text| > 2 then Value(text[2], true).value else 0;
    var z := if |text| > 3 then Value(text[3], true).value else 0;
    DigitOfValue(text[0]);
    DigitOfValue(text[1]);
    if |text| > 2 { DigitOfValue(text[2]); }
    if |text| > 3 { DigitOfValue(text[3]); }
    SextetsOfJoined(Value(text[0], true).value, Value(text[1], true).value, y, z);
  }

  /** Equal but for the last digit, and that too in whole groups. */
  ghost predicate SpareBitsApart(text: Bytes, again: Bytes) {
    && |again| == |text| && (|text| % 4 == 0 ==> again == text)
    && forall i :: 0 <= i < |text| - 1 ==> again[i] == text[i]
  }

  lemma EncodeCons(bytes: Bytes, rest: Bytes)
    requires |bytes| == 3 || (1 <= |bytes| <= 3 && rest == [])
    ensures Encode(bytes + rest, true, false) == EncodeGroup(bytes, true, false) + Encode(rest, true, false)
  {
    var k := Least(|bytes + rest|, 3);
    assert (bytes + rest)[..k] == bytes && (bytes + rest)[k..] == rest;
  }

  lemma SpareBitsCons(four: Bytes, group: Bytes, text: Bytes, again: Bytes)
    requires SpareBitsApart(four, group) && SpareBitsApart(text, again) && (|four| == 4 || text == [])
    ensures SpareBitsApart(four + text, group + again)
  {
  }

  lemma {:induction false} GroupsReencode(text: Bytes)
    requires DecodeGroups(text).Some?
    ensures SpareBitsApart(text, Encode(DecodeGroups(text).value, true, false))
  {
    if text != [] {
      var n := if |text| < 4 then |text| else 4;
      var bytes, rest := Quantum(text[..n]).value, DecodeGroups(text[n..]).value;
      QuantumIff(text[..n]);
      GroupReencodes(text[..n]);
      GroupsReencode(text[n..]);
      EncodeCons(bytes, rest);
      SpareBitsCons(text[..n], EncodeGroup(bytes, true, false), text[n..], Encode(rest, true, false));
      assert text == text[..n] + text[n..];
    }
  }

  /** What a text decodes to is encoded to the text again, but for its line breaks and the spare bits of its last digit. */
  lemma DecodedReencodes(text: Bytes)
    requires DecodeRawUrl(text).Some?
    ensures SpareBitsApart(NoBreaks(text), Encode(DecodeRawUrl(text).value, true, false))
  {
    GroupsReencode(NoBreaks(text));
  }
}
