/**
 The invite tokens of crypto/invite.go.  The keyed HMAC-SHA256 is some function from byte
 strings to 32 bytes; entropy and
 the clock are arguments, the clock of Generate already cut to the 32 bits the token has room for.
 */
module InviteToken {
  import opened Prelude
  import opened Rfc4648

  type Digest = d: Bytes | |d| == 32 witness seq(32, i => 0 as bv8)
  type Entropy = e: Bytes | |e| == 8 witness seq(8, i => 0 as bv8)

  const SECOND := 1_000_000_000  // nanoseconds

  datatype Tokens = Tokens(mac: Bytes -> Digest, ttl: int)

  datatype Data = Data(inviter: Bytes, invitee: Bytes, createdAt: int)

  datatype Result = Ok(data: Data) | Invalid | Expired

  // ---------------------------------------------------------------- layout

  /** Big-endian. */
  function StampBytes(t: bv32): Bytes {
    [((t >> 24) & 255) as bv8, ((t >> 16) & 255) as bv8, ((t >> 8) & 255) as bv8, (t & 255) as bv8]
  }

  function StampOf(b: Bytes): bv32
    requires |b| == 4
  {
    ((b[0] as bv32) << 24) | ((b[1] as bv32) << 16) | ((b[2] as bv32) << 8) | (b[3] as bv32)
  }

  function Cut(name: Bytes): (r: Bytes)
    ensures |r| <= 255
  {
    if |name| > 255 then name[..255] else name
  }

  function Payload(entropy: Entropy, stamp: bv32, inviter: Bytes, invitee: Bytes): Bytes
    requires |inviter| <= 255
  {
    entropy + StampBytes(stamp) + [Octet(|inviter|)] + inviter + invitee
  }

  function Signature(g: Tokens, payload: Bytes): Bytes {
    g.mac(payload)[..16]
  }

  // ---------------------------------------------------------------- operations

  method Generate(g: Tokens, entropy: Entropy, unix: bv32, inviter: Bytes, invitee: Bytes) returns (token: Bytes)
    ensures
      var payload := Payload(entropy, unix, Cut(inviter), invitee);
      token == Encode(payload + Signature(g, payload), true, false)
  {
    var timestamp := StampBytes(unix);
    var inviterBytes := inviter;
    if |inviterBytes| > 255 {
      inviterBytes := inviterBytes[..255];
    }
    var payload := entropy;
    payload := payload + timestamp;
    payload := payload + [Octet(|inviterBytes|)];
    payload := payload + inviterBytes;
    payload := payload + invitee;
    var sig := g.mac(payload)[..16];
    token := Encode(payload + sig, true, false);
  }

  /** The checks on a decoded token, in the order of the code; no index can be out of range. */
  function VerifyBytes(g: Tokens, data: Bytes, now: int): Result {
    if |data| < 29 then Invalid
    else
      var payload, sig := data[..|data| - 16], data[|data| - 16..];
      if sig != Signature(g, payload) then Invalid
      else
        var createdAt := (StampOf(payload[8..12]) as int) * SECOND;
        if now - createdAt > g.ttl then Expired
        else
          var inviterLen := payload[12] as int;
          if 13 + inviterLen > |payload| then Invalid
          else Ok(Data(payload[13..13 + inviterLen], payload[13 + inviterLen..], createdAt))
  }

  function Verify(g: Tokens, token: Bytes, now: int): Result {
    match DecodeRawUrl(token)
    case None => Invalid
    case Some(data) => VerifyBytes(g, data, now)
  }

  function VerifyForRecipient(g: Tokens, token: Bytes, recipient: Bytes, now: int): Result {
    var r := Verify(g, token, now);
    if r.Ok? && r.data.invitee != recipient then Invalid else r
  }

  /** The first ten digits of the encoding of eight bytes. */
  function ShortCode(g: Tokens, token: Bytes): (code: Bytes)
    ensures |code| == 10
  {
    var encoded := Encode(g.mac(token)[..8], true, false);
    EncodeLength(g.mac(token)[..8]);
    if |encoded| > 10 then encoded[..10] else encoded
  }

  // ---------------------------------------------------------------- results

  lemma StampRoundTrip(t: bv32)
    ensures StampOf(StampBytes(t)) == t
  {
  }

  lemma StampBytesOf(b: Bytes)
    requires |b| == 4
    ensures StampBytes(StampOf(b)) == b
  {
  }

  lemma PayloadParts(entropy: Entropy, stamp: bv32, inviter: Bytes, invitee: Bytes)
    requires |inviter| <= 255
    ensures
      var p := Payload(entropy, stamp, inviter, invitee);
      && |p| == 13 + |inviter| + |invitee|
      && p[..8] == entropy && p[8..12] == StampBytes(stamp) && p[12] == Octet(|inviter|)
      && p[13..13 + |inviter|] == inviter && p[13 + |inviter|..] == invitee
  {
  }

  /** What a signed payload verifies to: its own fields, while the token is young enough. */
  lemma SignedVerifies(g: Tokens, entropy: Entropy, stamp: bv32, inviter: Bytes, invitee: Bytes, now: int)
    requires |inviter| <= 255
    ensures
      var p := Payload(entropy, stamp, inviter, invitee);
      VerifyBytes(g, p + Signature(g, p), now)
      == if now - (stamp as int) * SECOND > g.ttl then Expired else Ok(Data(inviter, invitee, (stamp as int) * SECOND))
  {
    var p := Payload(entropy, stamp, inviter, invitee);
    var data := p + Signature(g, p);
    assert data[..|data| - 16] == p && data[|data| - 16..] == Signature(g, p);
    PayloadParts(entropy, stamp, inviter, invitee);
    StampRoundTrip(stamp);
    OctetValue(|inviter|);
  }

  /** A generated token gives back the first 255 bytes of the inviter, the invitee and the second it was made in. */
  lemma GeneratedVerifies(g: Tokens, entropy: Entropy, unix: bv32, inviter: Bytes, invitee: Bytes, now: int)
    ensures
      var payload := Payload(entropy, unix, Cut(inviter), invitee);
      var token := Encode(payload + Signature(g, payload), true, false);
      var createdAt := (unix as int) * SECOND;
      && Verify(g, token, now) == (if now - createdAt > g.ttl then Expired else Ok(Data(Cut(inviter), invitee, createdAt)))
      && forall recipient :: VerifyForRecipient(g, token, recipient, now).Ok?
                             <==> now - createdAt <= g.ttl && recipient == invitee
  {
    var payload := Payload(entropy, unix, Cut(inviter), invitee);
    DecodeEncode(payload + Signature(g, payload));
    SignedVerifies(g, entropy, unix, Cut(inviter), invitee, now);
  }

  /** The token decodes to a signed payload of these fields, and is young enough. */
  ghost predicate SignedAs(g: Tokens, token: Bytes, now: int, d: Data, entropy: Entropy, stamp: bv32) {
    && |d.inviter| <= 255 && d.createdAt == (stamp as int) * SECOND && now - d.createdAt <= g.ttl
    && DecodeRawUrl(token) == Some(Payload(entropy, stamp, d.inviter, d.invitee)
                                   + Signature(g, Payload(entropy, stamp, d.inviter, d.invitee)))
  }

  lemma AcceptedPayload(g: Tokens, data: Bytes, now: int)
    requires VerifyBytes(g, data, now).Ok?
    ensures
      var (d, p) := (VerifyBytes(g, data, now).data, data[..|data| - 16]);
      && |d.inviter| <= 255 && d.createdAt == (StampOf(p[8..12]) as int) * SECOND && now - d.createdAt <= g.ttl
      && p == Payload(p[..8], StampOf(p[8..12]), d.inviter, d.invitee)
      && data == p + Signature(g, p)
  {
    var d, p := VerifyBytes(g, data, now).data, data[..|data| - 16];
    StampBytesOf(p[8..12]);
    OctetOfValue(p[12]);
    assert p == p[..8] + p[8..12] + [p[12]] + d.inviter + d.invitee;
  }

  /** Nothing but a signed payload verifies, and it verifies to just the fields it was made of. */
  lemma VerifiedIsSigned(g: Tokens, token: Bytes, now: int, d: Data)
    ensures Verify(g, token, now) == Ok(d) <==> exists entropy: Entropy, stamp: bv32 :: SignedAs(g, token, now, d, entropy, stamp)
  {
    if Verify(g, token, now) == Ok(d) {
      var data := DecodeRawUrl(token).value;
      AcceptedPayload(g, data, now);
      assert SignedAs(g, token, now, d, data[..|data| - 16][..8], StampOf(data[..|data| - 16][8..12]));
    }
    forall entropy: Entropy, stamp: bv32 | SignedAs(g, token, now, d, entropy, stamp) ensures Verify(g, token, now) == Ok(d) {
      SignedVerifies(g, entropy, stamp, d.inviter, d.invitee, now);
    }
  }

  // ---------------------------------------------------------------- byte by byte

  /** The 32 bits that four bytes stand for, the first of them the highest. */
  lemma StampBits(t: bv32)
    ensures var b := StampBytes(t);
            |b| == 4 && ((b[0] as bv32) << 24) | ((b[1] as bv32) << 16) | ((b[2] as bv32) << 8) | (b[3] as bv32) == t
  {
  }

  /**
   The bytes of a generated token: 8 of entropy, 4 of the second, 1 that counts the bytes of the
   inviter, those, the invitee, and the first 16 that the MAC makes of all of these.
   */
  lemma TokenBytes(g: Tokens, entropy: Entropy, unix: bv32, inviter: Bytes, invitee: Bytes)
    ensures
      var payload := Payload(entropy, unix, Cut(inviter), invitee);
      var n := if |inviter| > 255 then 255 else |inviter|;
      && DecodeRawUrl(Encode(payload + Signature(g, payload), true, false)) == Some(payload + g.mac(payload)[..16])
      && |payload| == 13 + n + |invitee|
      && payload[..8] == entropy
      && ((payload[8] as bv32) << 24) | ((payload[9] as bv32) << 16)
         | ((payload[10] as bv32) << 8) | (payload[11] as bv32) == unix
      && payload[12] as int == n
      && payload[13..13 + n] == inviter[..n]
      && payload[13 + n..] == invitee
  {
    var payload := Payload(entropy, unix, Cut(inviter), invitee);
    DecodeEncode(payload + Signature(g, payload));
    PayloadParts(entropy, unix, Cut(inviter), invitee);
    StampBits(unix);
    assert payload[8..12][0] == payload[8] && payload[8..12][1] == payload[9];
    assert payload[8..12][2] == payload[10] && payload[8..12][3] == payload[11];
    OctetValue(|Cut(inviter)|);
  }

  /** The last 16 bytes are what the MAC makes of all the bytes before them. */
  ghost predicate Sealed(g: Tokens, data: Bytes) {
    |data| >= 16 && data[|data| - 16..] == g.mac(data[..|data| - 16])[..16]
  }

  /** A text that verifies decodes to at least 29 bytes that are sealed. */
  lemma VerifiedIsSealed(g: Tokens, token: Bytes, now: int)
    requires Verify(g, token, now) != Invalid
    ensures DecodeRawUrl(token).Some? && |DecodeRawUrl(token).value| >= 29 && Sealed(g, DecodeRawUrl(token).value)
  {
  }

  lemma StampAt(data: Bytes, stamp: bv32)
    requires |data| >= 12
    requires ((data[8] as bv32) << 24) | ((data[9] as bv32) << 16) | ((data[10] as bv32) << 8) | (data[11] as bv32) == stamp
    ensures StampOf(data[8..12]) == stamp
  {
    var b := data[8..12];
    assert b[0] == data[8] && b[1] == data[9] && b[2] == data[10] && b[3] == data[11];
  }

  lemma Slices(data: Bytes, end: nat)
    requires 13 <= end <= |data|
    ensures data[..end][8..12] == data[8..12] && data[..end][12] == data[12]
    ensures var n := data[12] as int;
            13 + n <= end ==> data[..end][13..13 + n] == data[13..13 + n] && data[..end][13 + n..] == data[13 + n..end]
  {
  }

  lemma SealedBytes(g: Tokens, data: Bytes, now: int, createdAt: int)
    requires |data| >= 29 && Sealed(g, data) && createdAt == (StampOf(data[8..12]) as int) * 1_000_000_000
    ensures
      var n, end := data[12] as int, |data| - 16;
      VerifyBytes(g, data, now)
      == if now - createdAt > g.ttl then Expired
         else if 13 + n > end then Invalid
         else Ok(Data(data[13..13 + n], data[13 + n..end], createdAt))
  {
    Slices(data, |data| - 16);
  }

  /** What the bytes of a sealed payload verify to: expired by the age of the stamp, invalid only by the count of the inviter. */
  lemma SealedVerifies(g: Tokens, token: Bytes, data: Bytes, now: int, stamp: bv32, createdAt: int)
    requires DecodeRawUrl(token) == Some(data) && |data| >= 29 && Sealed(g, data) && createdAt == (stamp as int) * 1_000_000_000
    requires ((data[8] as bv32) << 24) | ((data[9] as bv32) << 16) | ((data[10] as bv32) << 8) | (data[11] as bv32) == stamp
    ensures
      var n, end := data[12] as int, |data| - 16;
      Verify(g, token, now)
      == if now - createdAt > g.ttl then Expired
         else if 13 + n > end then Invalid
         else Ok(Data(data[13..13 + n], data[13 + n..end], createdAt))
  {
    StampAt(data, stamp);
    SealedBytes(g, data, now, createdAt);
  }

  /** A token whose payload has been changed is refused, unless the MAC does not tell the payloads apart. */
  lemma TamperedIsInvalid(g: Tokens, signed: Bytes, changed: Bytes, recipient: Bytes, now: int)
    requires g.mac(signed)[..16] != g.mac(changed)[..16]
    ensures Verify(g, Encode(changed + g.mac(signed)[..16], true, false), now) == Invalid
    ensures VerifyForRecipient(g, Encode(changed + g.mac(signed)[..16], true, false), recipient, now) == Invalid
  {
    var data := changed + g.mac(signed)[..16];
    DecodeEncode(data);
    assert data[..|data| - 16] == changed && data[|data| - 16..] == g.mac(signed)[..16];
  }

  /** The code of a token is ten digits, which hold the first seven bytes that the MAC makes of it. */
  lemma ShortCodeBytes(g: Tokens, token: Bytes)
    ensures DecodeRawUrl(ShortCode(g, token)) == Some(g.mac(token)[..7])
  {
    var hash := g.mac(token)[..8];
    EncodeLength(hash);
    DigitsOfEight(hash);
    assert hash[..7] == g.mac(token)[..7];
  }
}
