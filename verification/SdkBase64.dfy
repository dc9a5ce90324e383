/**
 The hand-written base64 loops of sdk/src/client.ts, used where btoa and atob are missing.
 A string is a sequence of 16-bit code units; reading past its end gives NaN for charCodeAt
 and the empty string for charAt.  The UTF-8 pass after decoding is not modelled.
 */
module SdkBase64 {
  import opened Prelude
  import Rfc4648

  type Units = seq<bv16>

  /** base64Chars.charAt(i): 64 digits, then the padding sign, then nothing. */
  function CharAt(i: bv16): Units {
    if i < 26 then [65 + i]
    else if i < 52 then [71 + i]
    else if i < 62 then [i - 4]
    else if i == 62 then [43]
    else if i == 63 then [47]
    else if i == 64 then [61]
    else []
  }

  predicate InAlphabet(c: bv16) {
    65 <= c <= 90 || 97 <= c <= 122 || 48 <= c <= 57 || c == 43 || c == 47 || c == 61
  }

  /** base64Chars.indexOf of a character of the alphabet, or of the empty string. */
  function IndexOf(c: Option<bv16>): bv16
    requires c.Some? ==> InAlphabet(c.value)
  {
    match c
    case None => 0
    case Some(c) =>
      if 65 <= c <= 90 then c - 65
      else if 97 <= c <= 122 then c - 71
      else if 48 <= c <= 57 then c + 4
      else if c == 43 then 62
      else if c == 47 then 63
      else 64
  }

  function UnitAt(s: Units, i: nat): Option<bv16> {
    if i < |s| then Some(s[i]) else None
  }

  /** NaN counts as 0 in bit operations. */
  function Bits(c: Option<bv16>): bv16 {
    match c case None => 0 case Some(c) => c
  }

  // ---------------------------------------------------------------- encoding

  function First(chr1: bv16): bv16 {
    chr1 >> 2
  }

  function Second(chr1: bv16, chr2: bv16): bv16 {
    ((chr1 & 3) << 4) | (chr2 >> 4)
  }

  function Third(chr2: bv16, chr3: bv16): bv16 {
    ((chr2 & 15) << 2) | (chr3 >> 6)
  }

  function Fourth(chr3: bv16): bv16 {
    chr3 & 63
  }

  /** The four numbers a group of one, two or three characters is turned into. */
  function Numbers(chr1: bv16, chr2: Option<bv16>, chr3: Option<bv16>): (bv16, bv16, bv16, bv16) {
    (First(chr1),
     Second(chr1, Bits(chr2)),
     if chr2.None? then 64 else Third(Bits(chr2), Bits(chr3)),
     if chr2.None? || chr3.None? then 64 else Fourth(Bits(chr3)))
  }

  function Chars(e: (bv16, bv16, bv16, bv16)): Units {
    CharAt(e.0) + CharAt(e.1) + CharAt(e.2) + CharAt(e.3)
  }

  function EncodeGroup(chr1: bv16, chr2: Option<bv16>, chr3: Option<bv16>): Units {
    Chars(Numbers(chr1, chr2, chr3))
  }

  function Rest(s: Units, k: nat): (r: Units)
    ensures |r| == if k <= |s| then |s| - k else 0
    ensures forall c :: c in r ==> c in s
  {
    if k <= |s| then s[k..] else []
  }

  function Encoded(s: Units): Units
    decreases |s|
  {
    if s == [] then [] else EncodeGroup(s[0], UnitAt(s, 1), UnitAt(s, 2)) + Encoded(Rest(s, 3))
  }

  lemma EncodedFrom(s: Units, i: nat)
    requires i < |s|
    ensures Encoded(Rest(s, i)) == EncodeGroup(s[i], UnitAt(s, i + 1), UnitAt(s, i + 2)) + Encoded(Rest(s, i + 3))
  {
    assert Rest(Rest(s, i), 3) == Rest(s, i + 3);
  }

  /** The body of the loop for the characters it has read. */
  method EncodeThree(chr1: bv16, chr2: Option<bv16>, chr3: Option<bv16>) returns (chars: Units)
    ensures chars == EncodeGroup(chr1, chr2, chr3)
  {
    var enc1 := First(chr1);
    var enc2 := Second(chr1, Bits(chr2));
    var enc3 := Third(Bits(chr2), Bits(chr3));
    var enc4 := Fourth(Bits(chr3));
    if chr2.None? {
      enc3, enc4 := 64, 64;
    } else if chr3.None? {
      enc4 := 64;
    }
    chars := CharAt(enc1) + CharAt(enc2) + CharAt(enc3) + CharAt(enc4);
  }

  method Encode(str: Units) returns (output: Units)
    ensures output == Encoded(str)
  {
    output := [];
    var i := 0;
    while i < |str|
      invariant 0 <= i
      invariant output + Encoded(Rest(str, i)) == Encoded(str)
      decreases |str| - i
    {
      EncodedFrom(str, i);
      var chars := EncodeThree(str[i], UnitAt(str, i + 1), UnitAt(str, i + 2));
      i := i + 3;
      Associate(output, chars, Encoded(Rest(str, i)));
      output := output + chars;
    }
  }

  lemma Associate(a: Units, b: Units, c: Units)
    ensures (a + b) + c == a + (b + c)
  {
  }

  // ---------------------------------------------------------------- decoding

  /** str.replace(/[^A-Za-z0-9+/=]/g, '') */
  function Kept(s: Units): (r: Units)
    ensures forall c :: c in r ==> InAlphabet(c)
  {
    if s == [] then []
    else if InAlphabet(s[0]) then [s[0]] + Kept(s[1..])
    else Kept(s[1..])
  }

  function Chr1(enc1: bv16, enc2: bv16): bv16 {
    (enc1 << 2) | (enc2 >> 4)
  }

  function Chr2(enc2: bv16, enc3: bv16): bv16 {
    ((enc2 & 15) << 4) | (enc3 >> 2)
  }

  function Chr3(enc3: bv16, enc4: bv16): bv16 {
    ((enc3 & 3) << 6) | enc4
  }

  function DecodeGroup(enc1: bv16, enc2: bv16, enc3: bv16, enc4: bv16): Units {
    [Chr1(enc1, enc2)]
    + (if enc3 != 64 then [Chr2(enc2, enc3)] else [])
    + (if enc4 != 64 then [Chr3(enc3, enc4)] else [])
  }

  function Decoded(input: Units): Units
    requires forall c :: c in input ==> InAlphabet(c)
    decreases |input|
  {
    if input == [] then []
    else
      DecodeGroup(IndexOf(UnitAt(input, 0)), IndexOf(UnitAt(input, 1)), IndexOf(UnitAt(input, 2)), IndexOf(UnitAt(input, 3)))
      + Decoded(Rest(input, 4))
  }

  lemma DecodedFrom(s: Units, i: nat)
    requires i < |s| && forall c :: c in s ==> InAlphabet(c)
    ensures Decoded(Rest(s, i))
         == DecodeGroup(IndexOf(UnitAt(s, i)), IndexOf(UnitAt(s, i + 1)), IndexOf(UnitAt(s, i + 2)), IndexOf(UnitAt(s, i + 3)))
            + Decoded(Rest(s, i + 4))
  {
    assert Rest(Rest(s, i), 4) == Rest(s, i + 4);
  }

  /** The body of the loop for the four numbers it has looked up. */
  method DecodeFour(enc1: bv16, enc2: bv16, enc3: bv16, enc4: bv16) returns (chars: Units)
    ensures chars == DecodeGroup(enc1, enc2, enc3, enc4)
  {
    var chr1 := Chr1(enc1, enc2);
    var chr2 := Chr2(enc2, enc3);
    var chr3 := Chr3(enc3, enc4);
    chars := [chr1];
    if enc3 != 64 {
      chars := chars + [chr2];
    }
    if enc4 != 64 {
      chars := chars + [chr3];
    }
  }

  method Decode(str: Units) returns (output: Units)
    ensures output == Decoded(Kept(str))
  {
    output := [];
    var i := 0;
    var input := Kept(str);
    while i < |input|
      invariant 0 <= i
      invariant output + Decoded(Rest(input, i)) == Decoded(input)
      decreases |input| - i
    {
      DecodedFrom(input, i);
      var chars := DecodeFour(IndexOf(UnitAt(input, i)), IndexOf(UnitAt(input, i + 1)),
                              IndexOf(UnitAt(input, i + 2)), IndexOf(UnitAt(input, i + 3)));
      i := i + 4;
      Associate(output, chars, Decoded(Rest(input, i)));
      output := output + chars;
    }
  }

  // ---------------------------------------------------------------- the two undo each other

  ghost predicate Latin(s: Units) {
    forall c :: c in s ==> c < 256
  }

  lemma CharAtIndex(i: bv16)
    requires i <= 64
    ensures |CharAt(i)| == 1 && InAlphabet(CharAt(i)[0]) && IndexOf(Some(CharAt(i)[0])) == i
  {
  }

  function Group(a: bv16, b: Option<bv16>, c: Option<bv16>): Units {
    if b.None? then [a] else if c.None? then [a, b.value] else [a, b.value, c.value]
  }

  lemma FirstBack(a: bv16, b: bv16)
    requires a < 256 && b < 256
    ensures Chr1(First(a), Second(a, b)) == a
  {
  }

  lemma SecondBack(a: bv16, b: bv16, c: bv16)
    requires a < 256 && b < 256 && c < 256
    ensures Chr2(Second(a, b), Third(b, c)) == b && Third(b, c) != 64
  {
  }

  lemma ThirdBack(b: bv16, c: bv16)
    requires b < 256 && c < 256
    ensures Chr3(Third(b, c), Fourth(c)) == c && Fourth(c) != 64
  {
  }

  function DecodeNumbers(e: (bv16, bv16, bv16, bv16)): Units {
    DecodeGroup(e.0, e.1, e.2, e.3)
  }

  predicate Small(e: (bv16, bv16, bv16, bv16)) {
    e.0 <= 64 && e.1 <= 64 && e.2 <= 64 && e.3 <= 64
  }

  lemma NumbersSmall(a: bv16, b: Option<bv16>, c: Option<bv16>)
    requires a < 256 && Bits(b) < 256 && Bits(c) < 256
    ensures Small(Numbers(a, b, c))
  {
  }

  lemma CharsInAlphabet(e: (bv16, bv16, bv16, bv16))
    requires Small(e)
    ensures |Chars(e)| == 4 && forall d :: d in Chars(e) ==> InAlphabet(d)
    ensures forall i :: 0 <= i < 4 ==> IndexOf(Some(Chars(e)[i])) == [e.0, e.1, e.2, e.3][i]
  {
    CharAtIndex(e.0);
    CharAtIndex(e.1);
    CharAtIndex(e.2);
    CharAtIndex(e.3);
    assert Chars(e) == [CharAt(e.0)[0], CharAt(e.1)[0], CharAt(e.2)[0], CharAt(e.3)[0]];
  }

  /** Four alphabet characters are looked up as the numbers they were chosen for. */
  lemma FourDecode(four: Units, e: (bv16, bv16, bv16, bv16), rest: Units)
    requires |four| == 4 && forall d :: d in four ==> InAlphabet(d)
    requires forall i :: 0 <= i < 4 ==> IndexOf(Some(four[i])) == [e.0, e.1, e.2, e.3][i]
    requires forall c :: c in rest ==> InAlphabet(c)
    ensures Decoded(four + rest) == DecodeNumbers(e) + Decoded(rest)
  {
    assert Rest(four + rest, 4) == rest;
    var s := four + rest;
    assert UnitAt(s, 0) == Some(four[0]) && UnitAt(s, 1) == Some(four[1]);
    assert UnitAt(s, 2) == Some(four[2]) && UnitAt(s, 3) == Some(four[3]);
  }

  /** The bit arithmetic of a group, without the alphabet. */
  lemma GroupDecodes(a: bv16, b: Option<bv16>, c: Option<bv16>)
    requires a < 256 && Bits(b) < 256 && Bits(c) < 256 && (b.None? ==> c.None?)
    ensures DecodeNumbers(Numbers(a, b, c)) == Group(a, b, c)
  {
    FirstBack(a, Bits(b));
    SecondBack(a, Bits(b), Bits(c));
    ThirdBack(Bits(b), Bits(c));
  }

  lemma GroupThenRest(a: bv16, b: Option<bv16>, c: Option<bv16>, rest: Units)
    requires a < 256 && Bits(b) < 256 && Bits(c) < 256 && (b.None? ==> c.None?)
    requires forall c :: c in rest ==> InAlphabet(c)
    ensures |EncodeGroup(a, b, c)| == 4
    ensures forall d :: d in EncodeGroup(a, b, c) + rest ==> InAlphabet(d)
    ensures Decoded(EncodeGroup(a, b, c) + rest) == Group(a, b, c) + Decoded(rest)
  {
    NumbersSmall(a, b, c);
    CharsInAlphabet(Numbers(a, b, c));
    FourDecode(EncodeGroup(a, b, c), Numbers(a, b, c), rest);
    GroupDecodes(a, b, c);
  }

  ghost predicate DecodesTo(code: Units, s: Units) {
    (forall c :: c in code ==> InAlphabet(c)) && |code| % 4 == 0 && Decoded(code) == s
  }

  lemma GroupOfString(s: Units)
    requires s != []
    ensures s == Group(s[0], UnitAt(s, 1), UnitAt(s, 2)) + Rest(s, 3)
  {
  }

  lemma GroupPrepended(s: Units, code: Units)
    requires s != [] && Latin(s) && DecodesTo(code, Rest(s, 3))
    ensures DecodesTo(EncodeGroup(s[0], UnitAt(s, 1), UnitAt(s, 2)) + code, s)
  {
    var b, c := UnitAt(s, 1), UnitAt(s, 2);
    assert s[0] in s && (b.Some? ==> b.value in s) && (c.Some? ==> c.value in s);
    GroupThenRest(s[0], b, c, code);
    GroupOfString(s);
  }

  lemma {:induction false} DecodedEncoded(s: Units)
    requires Latin(s)
    ensures DecodesTo(Encoded(s), s)
    decreases |s|
  {
    if s != [] {
      DecodedEncoded(Rest(s, 3));
      GroupPrepended(s, Encoded(Rest(s, 3)));
    }
  }

  lemma {:induction false} KeptSelf(s: Units)
    requires forall c :: c in s ==> InAlphabet(c)
    ensures Kept(s) == s
  {
    if s != [] {
      assert s[0] in s && forall c :: c in s[1..] ==> c in s;
      KeptSelf(s[1..]);
      assert s == [s[0]] + s[1..];
    }
  }

  lemma {:induction false} KeptInsert(a: Units, junk: bv16, b: Units)
    requires !InAlphabet(junk)
    ensures Kept(a + [junk] + b) == Kept(a + b)
  {
    if a == [] {
      assert [] + [junk] + b == [junk] + b && ([junk] + b)[1..] == b && [] + b == b;
    } else {
      assert (a + [junk] + b)[1..] == a[1..] + [junk] + b && (a + b)[1..] == a[1..] + b;
      KeptInsert(a[1..], junk, b);
    }
  }

  /** The output decodes to itself as it stands: the encoder only produces alphabet characters. */
  lemma EncodedIsKept(s: Units)
    requires Latin(s)
    ensures Kept(Encoded(s)) == Encoded(s)
  {
    DecodedEncoded(s);
    KeptSelf(Encoded(s));
  }

  // ---------------------------------------------------------------- text without its padding

  lemma DigitIsNoPadding(i: bv16)
    requires i < 64
    ensures |CharAt(i)| == 1 && CharAt(i)[0] != 61 && InAlphabet(CharAt(i)[0]) && IndexOf(Some(CharAt(i)[0])) == i
  {
  }

  lemma SmallNumbers(a: bv16, b: bv16, c: bv16)
    requires a < 256 && b < 256 && c < 256
    ensures First(a) < 64 && Second(a, b) < 64 && Third(b, c) < 64 && Fourth(c) < 64
  {
  }

  lemma WholeGroup(a: bv16, b: bv16, c: bv16)
    requires a < 256 && b < 256 && c < 256
    ensures 61 !in EncodeGroup(a, Some(b), Some(c))
  {
    SmallNumbers(a, b, c);
    DigitIsNoPadding(First(a));
    DigitIsNoPadding(Second(a, b));
    DigitIsNoPadding(Third(b, c));
    DigitIsNoPadding(Fourth(c));
  }

  ghost predicate Yields(text: Units, s: Units) {
    (forall c :: c in text ==> InAlphabet(c)) && Decoded(text) == s
  }

  lemma DropPadding(digits: Units, padding: Units)
    requires 61 !in digits && (padding == [61] || padding == [61, 61])
    ensures Without(digits + padding, 61) == digits
  {
    WithoutConcat(digits, padding, 61);
    assert [61 as bv16, 61][..1] == [61] && [61 as bv16][..0] == [];
  }

  /** Two or three digits, and nothing after them. */
  lemma FewDigits(w: bv16, x: bv16, y: bv16)
    requires w < 64 && x < 64 && y < 64
    ensures
      var text := CharAt(w) + CharAt(x);
      && |text| == 2 && 61 !in text && (forall c :: c in text ==> InAlphabet(c)) && Decoded(text) == DecodeGroup(w, x, 0, 0)
    ensures
      var text := CharAt(w) + CharAt(x) + CharAt(y);
      && |text| == 3 && 61 !in text && (forall c :: c in text ==> InAlphabet(c)) && Decoded(text) == DecodeGroup(w, x, y, 0)
  {
    DigitIsNoPadding(w);
    DigitIsNoPadding(x);
    DigitIsNoPadding(y);
    var two, three := CharAt(w) + CharAt(x), CharAt(w) + CharAt(x) + CharAt(y);
    assert two == [CharAt(w)[0], CharAt(x)[0]] && three == [CharAt(w)[0], CharAt(x)[0], CharAt(y)[0]];
    assert Decoded(two) == DecodeGroup(w, x, 0, 0) + Decoded([]);
    assert Decoded(three) == DecodeGroup(w, x, y, 0) + Decoded([]);
  }

  lemma SpareBits(a: bv16, b: bv16)
    requires a < 256 && b < 256
    ensures DecodeGroup(First(a), Second(a, 0), 0, 0) == [a, 0, 0]
    ensures DecodeGroup(First(a), Second(a, b), Third(b, 0), 0) == [a, b, 0]
  {
    FirstBack(a, 0);
    FirstBack(a, b);
    SecondBack(a, b, 0);
    assert Chr2(Second(a, 0), 0) == 0 && Chr3(Third(b, 0), 0) == 0 && Chr3(0, 0) == 0;
  }

  lemma OneUnpadded(a: bv16)
    requires a < 256
    ensures Yields(Without(Encoded([a]), 61), [a, 0, 0])
  {
    var digits := CharAt(First(a)) + CharAt(Second(a, 0));
    SmallNumbers(a, 0, 0);
    FewDigits(First(a), Second(a, 0), 0);
    SpareBits(a, 0);
    assert EncodeGroup(a, None, None) == digits + [61, 61];
    assert Encoded([a]) == EncodeGroup(a, None, None) + Encoded([]);
    assert Encoded([a]) == digits + [61, 61];
    DropPadding(digits, [61, 61]);
  }

  lemma TwoUnpadded(a: bv16, b: bv16)
    requires a < 256 && b < 256
    ensures Yields(Without(Encoded([a, b]), 61), [a, b, 0])
  {
    var digits := CharAt(First(a)) + CharAt(Second(a, b)) + CharAt(Third(b, 0));
    SmallNumbers(a, b, 0);
    FewDigits(First(a), Second(a, b), Third(b, 0));
    SpareBits(a, b);
    assert EncodeGroup(a, Some(b), None) == digits + [61];
    assert Encoded([a, b]) == EncodeGroup(a, Some(b), None) + Encoded([]);
    assert Encoded([a, b]) == digits + [61];
    DropPadding(digits, [61]);
  }

  /** What fills a last group of one or two up to three. */
  function Fill(n: nat): Units {
    if n % 3 == 0 then [] else if n % 3 == 1 then [0, 0] else [0]
  }

  lemma FillLater(s: Units)
    requires |s| >= 3
    ensures s + Fill(|s|) == [s[0], s[1], s[2]] + (Rest(s, 3) + Fill(|s| - 3))
  {
    assert (|s| - 3) % 3 == |s| % 3;
    assert s == [s[0], s[1], s[2]] + Rest(s, 3);
  }

  lemma FirstUnpadded(s: Units, text: Units)
    requires |s| >= 3 && Latin(s) && text == Without(Encoded(Rest(s, 3)), 61) && Yields(text, Rest(s, 3) + Fill(|s| - 3))
    ensures Yields(Without(Encoded(s), 61), s + Fill(|s|))
  {
    assert s[0] in s && s[1] in s && s[2] in s;
    var group := EncodeGroup(s[0], Some(s[1]), Some(s[2]));
    WholeGroup(s[0], s[1], s[2]);
    assert Encoded(s) == group + Encoded(Rest(s, 3));
    WithoutConcat(group, Encoded(Rest(s, 3)), 61);
    GroupThenRest(s[0], Some(s[1]), Some(s[2]), text);
    FillLater(s);
  }

  lemma LastFilled(s: Units)
    requires 1 <= |s| <= 2
    ensures s == if |s| == 1 then [s[0]] else [s[0], s[1]]
    ensures s + Fill(|s|) == if |s| == 1 then [s[0], 0, 0] else [s[0], s[1], 0]
  {
  }

  lemma LastUnpadded(s: Units, filled: Units)
    requires 1 <= |s| <= 2 && Latin(s) && filled == s + Fill(|s|)
    ensures Yields(Without(Encoded(s), 61), filled)
  {
    LastFilled(s);
    if |s| == 1 {
      assert s[0] in s;
      OneUnpadded(s[0]);
    } else {
      assert s[0] in s && s[1] in s;
      TwoUnpadded(s[0], s[1]);
    }
  }

  /**
   Without its padding, as URL-safe encoders write it, a text does not decode to the string: a last
   group of one or two characters comes with NULs up to three.
   */
  lemma {:induction false} UnpaddedDecodes(s: Units)
    requires Latin(s)
    ensures Yields(Without(Encoded(s), 61), s + Fill(|s|))
    decreases |s|
  {
    if |s| >= 3 {
      UnpaddedDecodes(Rest(s, 3));
      FirstUnpadded(s, Without(Encoded(Rest(s, 3)), 61));
    } else if s != [] {
      LastUnpadded(s, s + Fill(|s|));
    }
  }

  /** Decoding the text without its padding gives the string back if and only if it has none to lose. */
  lemma UnpaddedIff(s: Units)
    requires Latin(s)
    ensures forall c :: c in Without(Encoded(s), 61) ==> InAlphabet(c)
    ensures Decoded(Without(Encoded(s), 61)) == s <==> |s| % 3 == 0
  {
    UnpaddedDecodes(s);
    assert s + [] == s;
  }

  datatype Insertion = Insertion(at: nat, unit: bv16)

  /** Single characters put in one after the other; positions past the end mean the end. */
  function WithInserted(s: Units, insertions: seq<Insertion>): Units {
    if insertions == [] then s
    else
      var t := WithInserted(s, insertions[..|insertions| - 1]);
      var last := insertions[|insertions| - 1];
      var at := if last.at <= |t| then last.at else |t|;
      t[..at] + [last.unit] + t[at..]
  }

  ghost predicate Foreign(insertions: seq<Insertion>) {
    forall i :: 0 <= i < |insertions| ==> !InAlphabet(insertions[i].unit)
  }

  lemma {:induction false} KeptWithInserted(s: Units, insertions: seq<Insertion>)
    requires Foreign(insertions)
    ensures Kept(WithInserted(s, insertions)) == Kept(s)
  {
    if insertions != [] {
      var init, last := insertions[..|insertions| - 1], insertions[|insertions| - 1];
      KeptWithInserted(s, init);
      var t := WithInserted(s, init);
      var at := if last.at <= |t| then last.at else |t|;
      KeptInsert(t[..at], last.unit, t[at..]);
      assert t[..at] + t[at..] == t;
    }
  }

  /** What was encoded is decoded again, however many foreign characters got in on the way, and wherever. */
  lemma RoundTrip(s: Units, insertions: seq<Insertion>)
    requires Latin(s) && Foreign(insertions)
    ensures Decoded(Kept(WithInserted(Encoded(s), insertions))) == s
  {
    KeptWithInserted(Encoded(s), insertions);
    EncodedIsKept(s);
    DecodedEncoded(s);
  }

  // ---------------------------------------------------------------- the standard

  function Each<A, B>(f: A -> B, s: seq<A>): (r: seq<B>)
    ensures |r| == |s| && forall i :: 0 <= i < |r| ==> r[i] == f(s[i])
  {
    if s == [] then [] else [f(s[0])] + Each(f, s[1..])
  }

  lemma EachAppend<A, B>(f: A -> B, a: seq<A>, b: seq<A>)
    ensures Each(f, a + b) == Each(f, a) + Each(f, b)
  {
    forall i | 0 <= i < |a| + |b| ensures Each(f, a + b)[i] == (Each(f, a) + Each(f, b))[i] {
    }
  }

  function Wide(byte: bv8): bv16 {
    byte as bv16
  }

  function Widen(bytes: Rfc4648.Bytes): (r: Units)
    ensures |r| == |bytes| && forall i :: 0 <= i < |r| ==> r[i] == Wide(bytes[i])
  {
    Each(Wide, bytes)
  }

  lemma CharAtIsStandard(x: bv8)
    requires x <= 64
    ensures CharAt(Wide(x)) == [Wide(StandardChar(x))]
  {
  }

  /** The bit arithmetic of the loop yields the 6-bit groups of the standard. */
  lemma FirstSextet(a: bv8, b: bv8, c: bv8)
    ensures First(Wide(a)) == Wide(Rfc4648.Sextets(Rfc4648.Group(a, b, c)).0) && Rfc4648.Sextets(Rfc4648.Group(a, b, c)).0 < 64
  {
  }

  lemma SecondSextet(a: bv8, b: bv8, c: bv8)
    ensures Second(Wide(a), Wide(b)) == Wide(Rfc4648.Sextets(Rfc4648.Group(a, b, c)).1)
    ensures Rfc4648.Sextets(Rfc4648.Group(a, b, c)).1 < 64
  {
  }

  lemma ThirdSextet(a: bv8, b: bv8, c: bv8)
    ensures Third(Wide(b), Wide(c)) == Wide(Rfc4648.Sextets(Rfc4648.Group(a, b, c)).2)
    ensures Rfc4648.Sextets(Rfc4648.Group(a, b, c)).2 < 64
  {
  }

  lemma FourthSextet(a: bv8, b: bv8, c: bv8)
    ensures Fourth(Wide(c)) == Wide(Rfc4648.Sextets(Rfc4648.Group(a, b, c)).3) && Rfc4648.Sextets(Rfc4648.Group(a, b, c)).3 < 64
  {
  }

  lemma WideZero()
    ensures Wide(0) == 0 && Wide(64) == 64
  {
  }

  lemma NumbersAreSextets(s: Rfc4648.Bytes, w: bv8, x: bv8, y: bv8, z: bv8)
    requires 1 <= |s| <= 3
    requires (w, x, y, z) == Rfc4648.Sextets(Rfc4648.Group(s[0], Rfc4648.At(s, 1), Rfc4648.At(s, 2)))
    ensures w < 64 && x < 64 && y < 64 && z < 64
    ensures Numbers(Wide(s[0]), Present(s, 1), Present(s, 2))
         == (Wide(w), Wide(x), Wide(if |s| > 1 then y else 64), Wide(if |s| > 2 then z else 64))
  {
    var a, b, c := s[0], Rfc4648.At(s, 1), Rfc4648.At(s, 2);
    WideZero();
    FirstSextet(a, b, c);
    SecondSextet(a, b, c);
    ThirdSextet(a, b, c);
    FourthSextet(a, b, c);
  }

  function Present(s: Rfc4648.Bytes, i: nat): Option<bv16> {
    if i < |s| then Some(Wide(s[i])) else None
  }

  /** The digit for a number below 64, and the padding sign for 64. */
  function StandardChar(x: bv8): bv8
    requires x <= 64
  {
    if x == 64 then Rfc4648.PAD else Rfc4648.Digit(x, false)
  }

  lemma CharsAreStandard(w: bv8, x: bv8, y: bv8, z: bv8)
    requires w <= 64 && x <= 64 && y <= 64 && z <= 64
    ensures Chars((Wide(w), Wide(x), Wide(y), Wide(z)))
         == Widen([StandardChar(w), StandardChar(x), StandardChar(y), StandardChar(z)])
  {
    CharAtIsStandard(w);
    CharAtIsStandard(x);
    CharAtIsStandard(y);
    CharAtIsStandard(z);
  }

  /** A group of the standard, once its four numbers are known. */
  lemma StandardGroup(s: Rfc4648.Bytes, w: bv8, x: bv8, y: bv8, z: bv8)
    requires 1 <= |s| <= 3 && w < 64 && x < 64 && y < 64 && z < 64
    requires (w, x, y, z) == Rfc4648.Sextets(Rfc4648.Group(s[0], Rfc4648.At(s, 1), Rfc4648.At(s, 2)))
    ensures Rfc4648.EncodeGroup(s, false, true)
         == [StandardChar(w), StandardChar(x), StandardChar(if |s| > 1 then y else 64), StandardChar(if |s| > 2 then z else 64)]
  {
  }

  lemma GroupIsStandard(s: Rfc4648.Bytes)
    requires 1 <= |s| <= 3
    ensures EncodeGroup(Wide(s[0]), Present(s, 1), Present(s, 2)) == Widen(Rfc4648.EncodeGroup(s, false, true))
  {
    var (w, x, y, z) := Rfc4648.Sextets(Rfc4648.Group(s[0], Rfc4648.At(s, 1), Rfc4648.At(s, 2)));
    NumbersAreSextets(s, w, x, y, z);
    StandardGroup(s, w, x, y, z);
    CharsAreStandard(w, x, if |s| > 1 then y else 64, if |s| > 2 then z else 64);
  }

  /** On byte strings the output is the padded base64 of section 4. */
  lemma {:induction false} EncodedIsStandard(bytes: Rfc4648.Bytes)
    ensures Encoded(Widen(bytes)) == Widen(Rfc4648.Encode(bytes, false, true))
  {
    if bytes != [] {
      var k := Rfc4648.Least(|bytes|, 3);
      var head, rest := bytes[..k], bytes[k..];
      GroupIsStandard(head);
      assert UnitAt(Widen(bytes), 1) == Present(head, 1) && UnitAt(Widen(bytes), 2) == Present(head, 2);
      assert Rest(Widen(bytes), 3) == Widen(rest);
      EncodedIsStandard(rest);
      EachAppend(Wide, Rfc4648.EncodeGroup(head, false, true), Rfc4648.Encode(rest, false, true));
    }
  }
}
