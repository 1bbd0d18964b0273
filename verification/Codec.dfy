/** The wire format: message header, handshake payload and peer-list payload. */
module Codec {
  import opened Bytes

  const HANDSHAKE: byte := 1
  const PEER_LIST: byte := 2

  /** Type (1), payload size (4), timestamp (8). */
  const HEADER: nat := 13

  /** The clock counts nanoseconds in a signed 64-bit integer. */
  type Ticks = t: int | -TWO63 <= t < TWO63
  const TICKS_PER_MS: int := 1_000_000

  datatype Message = Message(kind: byte, payload: seq<byte>, timestamp: Ticks)

  /** `duration_cast` to milliseconds: division truncating toward zero. */
  function Millis(t: Ticks): (ms: int)
    ensures -TWO63 <= ms < TWO63
    ensures t >= 0 ==> 0 <= t - ms * TICKS_PER_MS < TICKS_PER_MS
    ensures t <= 0 ==> 0 <= ms * TICKS_PER_MS - t < TICKS_PER_MS
  {
    var n: int := t;
    if n >= 0 then n / TICKS_PER_MS else -((-n) / TICKS_PER_MS)
  }

  predicate ClockHolds(ms: int) {
    -TWO63 <= ms * TICKS_PER_MS < TWO63
  }

  /** A message as the receiver sees it: its time is cut to the millisecond. */
  function Canonical(m: Message): (r: Message)
    ensures r.kind == m.kind && r.payload == m.payload
    ensures Millis(r.timestamp) == Millis(m.timestamp)
  {
    m.(timestamp := Millis(m.timestamp) * TICKS_PER_MS)
  }

  function CanonicalAll(ms: seq<Message>): (r: seq<Message>)
    ensures |r| == |ms| && forall i :: 0 <= i < |ms| ==> r[i] == Canonical(ms[i])
  {
    seq(|ms|, i requires 0 <= i < |ms| => Canonical(ms[i]))
  }

  function Encode(m: Message): (s: seq<byte>)
    ensures |s| == HEADER + |m.payload|
  {
    [m.kind] + BigEndian(|m.payload|, 4) + BigEndian(Millis(m.timestamp), 8) + m.payload
  }

  datatype Outcome = Decoded(msg: Message) | TooShort | SizeMismatch | Undefined

  function DeclaredSize(data: seq<byte>): (n: nat)
    requires |data| >= HEADER
  {
    Value(data[1..5])
  }

  function DeclaredMillis(data: seq<byte>): int
    requires |data| >= HEADER
  {
    Signed64(Value(data[5..13]))
  }

  /** `13 + payloadSize` is a 32-bit sum. When it wraps, the guard passes and the
      payload is read past the end of the data; a time outside the clock overflows
      a signed integer. C++ leaves both undefined. */
  function Decode(data: seq<byte>): Outcome {
    if |data| < HEADER then TooShort
    else if |data| < (HEADER + DeclaredSize(data)) % TWO32 then SizeMismatch
    else if |data| < HEADER + DeclaredSize(data) || !ClockHolds(DeclaredMillis(data)) then Undefined
    else Decoded(Message(data[0], data[HEADER..HEADER + DeclaredSize(data)], DeclaredMillis(data) * TICKS_PER_MS))
  }

  method Serialize(m: Message) returns (result: seq<byte>)
    ensures result == Encode(m)
  {
    hide Millis, Signed64, BigEndian;
    result := [m.kind];
    var size := |m.payload| % TWO32;
    result := result + [(size / 0x100_0000) % 256];
    result := result + [(size / 0x1_0000) % 256];
    result := result + [(size / 0x100) % 256];
    result := result + [size % 256];
    assert result == [m.kind] + BigEndian(|m.payload|, 4) by { SizeBytes(|m.payload|); }
    ghost var head := result;
    var timestamp := Millis(m.timestamp);
    var i := 7;
    while i >= 0
      invariant -1 <= i <= 7
      invariant result == head + BigEndian(timestamp, 8)[..7 - i]
    {
      ShiftAndMask(timestamp, 8, 7 - i);
      result := result + [(timestamp / Pow256(i)) % 256];
      i := i - 1;
    }
    result := result + m.payload;
  }

  lemma SizeBytes(n: nat)
    ensures var s := n % TWO32;
            BigEndian(n, 4) == [(s / 0x100_0000) % 256, (s / 0x1_0000) % 256, (s / 0x100) % 256, s % 256]
  {
    Powers();
    var s := n % TWO32;
    SameBytes(n, s, 4);
    ShiftAndMask(s, 4, 0);
    ShiftAndMask(s, 4, 1);
    ShiftAndMask(s, 4, 2);
    ShiftAndMask(s, 4, 3);
  }

  method Deserialize(data: seq<byte>) returns (r: Outcome)
    ensures r == Decode(data)
  {
    hide Millis;
    if |data| < 13 {
      return TooShort;
    }
    var payloadSize: int :=
      data[1] as int * 0x100_0000 + data[2] as int * 0x1_0000 + data[3] as int * 0x100 + data[4] as int;
    assert payloadSize == DeclaredSize(data) by { ValueOfFour(data[1..5]); }
    if |data| < (13 + payloadSize) % TWO32 {
      return SizeMismatch;
    }
    var timestamp: int := 0;
    var i := 0;
    while i < 8
      invariant 0 <= i <= 8
      invariant timestamp == Signed64(Value(data[5..5 + i]))
    {
      assert data[5..5 + i + 1] == data[5..5 + i] + [data[5 + i]];
      timestamp := Signed64(timestamp * 256) + data[5 + i] as int;
      ShiftIn(Value(data[5..5 + i]), data[5 + i]);
      i := i + 1;
    }
    if |data| < 13 + payloadSize || !ClockHolds(timestamp) {
      return Undefined;
    }
    r := Decoded(Message(data[0], data[13..13 + payloadSize], timestamp * TICKS_PER_MS));
  }

  lemma SignedPeriod(n: int, k: int)
    ensures Signed64(n + TWO64 * k) == Signed64(n)
  {
    DivMod(n + TWO64 * k, TWO64, n / TWO64 + k, n % TWO64);
  }

  lemma ShiftIn(n: int, b: byte)
    ensures Signed64(Signed64(n) * 256) + b as int == Signed64(n * 256 + b as int)
  {
    var k := if n % TWO64 < TWO63 then n / TWO64 else n / TWO64 + 1;
    assert Signed64(n) * 256 == n * 256 + TWO64 * (-256 * k);
    SignedPeriod(n * 256, -256 * k);
    var q, r := n / (TWO64 / 256), n % (TWO64 / 256);
    assert n == (TWO64 / 256) * q + r;
    DivMod(n * 256, TWO64, q, 256 * r);
    DivMod(n * 256 + b as int, TWO64, q, 256 * r + b as int);
  }

  // ---- The codec laws

  lemma SignedRoundTrip(ms: int)
    requires -TWO63 <= ms < TWO63
    ensures Signed64(Value(BigEndian(ms, 8))) == ms
  {
    hide BigEndian, Value;
    Powers();
    ValueOfBigEndian(ms, 8);
  }

  lemma SameBytes(n: int, m: int, width: nat)
    requires n % Pow256(width) == m % Pow256(width)
    ensures BigEndian(n, width) == BigEndian(m, width)
  {
    ValueOfBigEndian(n, width);
    ValueOfBigEndian(m, width);
    BigEndianOfValue(BigEndian(n, width));
    BigEndianOfValue(BigEndian(m, width));
  }

  lemma StampBytes(stamp: seq<byte>)
    requires |stamp| == 8
    ensures BigEndian(Signed64(Value(stamp)), 8) == stamp
  {
    Powers();
    SameBytes(Signed64(Value(stamp)), Value(stamp), 8);
    BigEndianOfValue(stamp);
  }

  lemma HeaderOf(m: Message, rest: seq<byte>)
    ensures var d := Encode(m) + rest;
            && d[0] == m.kind && DeclaredSize(d) == |m.payload| % TWO32
            && DeclaredMillis(d) == Millis(m.timestamp)
            && d[HEADER..HEADER + |m.payload|] == m.payload
  {
    hide BigEndian, Value, Signed64;
    var d := Encode(m) + rest;
    assert d[1..5] == BigEndian(|m.payload|, 4);
    assert d[5..13] == BigEndian(Millis(m.timestamp), 8);
    Powers();
    ValueOfBigEndian(|m.payload|, 4);
    SignedRoundTrip(Millis(m.timestamp));
  }

  /** What the receiver gets back, for every message and whatever bytes follow. */
  lemma DecodeEncode(m: Message, rest: seq<byte>)
    ensures Decode(Encode(m) + rest) ==
            Decoded(Canonical(m).(payload := m.payload[..|m.payload| % TWO32]))
  {
    hide Encode, BigEndian, Value, Signed64, Millis;
    HeaderOf(m, rest);
    var d := Encode(m) + rest;
    var n := |m.payload| % TWO32;
    assert n <= |m.payload|;
    assert d[HEADER..HEADER + n] == d[HEADER..HEADER + |m.payload|][..n];
  }

  /** The message survives exactly when its payload fits the 32-bit size field. */
  lemma RoundTrip(m: Message, rest: seq<byte>)
    ensures Decode(Encode(m) + rest) == Decoded(Canonical(m)) <==> |m.payload| < TWO32
  {
    hide Encode, Decode, Millis;
    DecodeEncode(m, rest);
    if |m.payload| >= TWO32 {
      assert |m.payload[..|m.payload| % TWO32]| < |m.payload|;
    }
  }

  /** Whatever decodes re-encodes to precisely the bytes it was read from. */
  lemma DecodeIsExact(data: seq<byte>)
    requires Decode(data).Decoded?
    ensures HEADER + DeclaredSize(data) <= |data|
    ensures Encode(Decode(data).msg) == data[..HEADER + DeclaredSize(data)]
  {
    hide BigEndian, Value, Signed64;
    var m, size := Decode(data).msg, DeclaredSize(data);
    Powers();
    ValueBound(data[1..5]);
    BigEndianOfValue(data[1..5]);
    StampBytes(data[5..13]);
    assert Millis(m.timestamp) == DeclaredMillis(data);
    assert data[..HEADER + size] == [data[0]] + data[1..5] + data[5..13] + data[HEADER..HEADER + size];
  }

  /** The two exceptions and undefined behaviour, told apart without modular
      arithmetic: up to 2^32 - 14 declared bytes the guard is exact, beyond that it
      never rejects. */
  lemma DecodeFailures(data: seq<byte>)
    ensures Decode(data).TooShort? <==> |data| < HEADER
    ensures Decode(data).SizeMismatch? <==>
            |data| >= HEADER && DeclaredSize(data) <= TWO32 - 14 && |data| < HEADER + DeclaredSize(data)
    ensures Decode(data).Undefined? <==>
            && |data| >= HEADER
            && if |data| < HEADER + DeclaredSize(data) then DeclaredSize(data) >= TWO32 - 13
               else !ClockHolds(DeclaredMillis(data))
  {
    if |data| >= HEADER {
      Powers();
      ValueBound(data[1..5]);
    }
  }

  /** No encoding is a proper prefix of another. */
  lemma PrefixFree(a: Message, b: Message)
    requires |a.payload| < TWO32 && |b.payload| < TWO32
    requires Encode(a) <= Encode(b)
    ensures Encode(a) == Encode(b) && Canonical(a) == Canonical(b)
  {
    hide Encode, Decode;
    var rest := Encode(b)[|Encode(a)|..];
    assert Encode(a) + rest == Encode(b) == Encode(b) + [];
    RoundTrip(a, rest);
    RoundTrip(b, []);
  }

  /** Past 2^32 bytes the code is ambiguous: every such message has a shorter one
      whose encoding is a proper prefix of its own. */
  lemma OversizeIsAmbiguous(b: Message)
    requires |b.payload| >= TWO32
    ensures var a := b.(payload := b.payload[..|b.payload| % TWO32]);
            Encode(a) < Encode(b)
  {
    var n := |b.payload| % TWO32;
    var a := b.(payload := b.payload[..n]);
    Powers();
    SameBytes(n, |b.payload|, 4);
    assert Encode(b)[..|Encode(a)|] == Encode(a);
  }

  // ---- Handshake payload

  datatype Identity = Identity(id: Text, publicKey: seq<byte>)

  function BuildHandshake(who: Identity): seq<byte> {
    BigEndian(|who.id|, 2) + who.id + who.publicKey
  }

  /** The check that HandleMessage, HandleSessionMessage and the message handler of
      the command line all make on a handshake payload. */
  function ParseHandshake(payload: seq<byte>): Option<Identity> {
    if |payload| < 2 then None
    else var idLen := Value(payload[..2]);
      if |payload| < 2 + idLen then None
      else Some(Identity(payload[2..2 + idLen], payload[2 + idLen..]))
  }

  function HandshakeMessage(who: Identity, now: Ticks): Message {
    Message(HANDSHAKE, BuildHandshake(who), now)
  }

  method CreateHandshakeMessage(who: Identity, now: Ticks) returns (m: Message)
    ensures m == HandshakeMessage(who, now)
  {
    var idLen := |who.id| % 0x1_0000;
    var payload: seq<byte> := [(idLen / 256) % 256];
    payload := payload + [idLen % 256];
    assert payload == BigEndian(|who.id|, 2) by { LengthBytes(|who.id|); }
    payload := payload + who.id;
    payload := payload + who.publicKey;
    m := Message(HANDSHAKE, payload, now);
  }

  lemma LengthBytes(n: nat)
    ensures BigEndian(n, 2) == [((n % 0x1_0000) / 256) % 256, (n % 0x1_0000) % 256]
  {
    ShiftAndMask(n, 2, 0);
    ShiftAndMask(n, 2, 1);
    Powers();
    assert Pow256(0) == 1;
    DivTwice(n, 256);
    DivMod(n % 0x1_0000, 256, (n / 256) % 256, n % 256);
  }

  lemma LengthField(n: nat, rest: seq<byte>)
    requires n < 0x1_0000
    ensures Value((BigEndian(n, 2) + rest)[..2]) == n
    ensures (BigEndian(n, 2) + rest)[2..] == rest
  {
    hide BigEndian, Value;
    Powers();
    ValueOfBigEndian(n, 2);
    assert (BigEndian(n, 2) + rest)[..2] == BigEndian(n, 2);
  }

  /** What parsing makes of a built payload, for identities of any length. */
  lemma ParseBuild(who: Identity)
    ensures var n := |who.id| % 0x1_0000;
            ParseHandshake(BuildHandshake(who)) == Some(Identity(who.id[..n], who.id[n..] + who.publicKey))
  {
    hide BigEndian, Value;
    var p, n := BuildHandshake(who), |who.id| % 0x1_0000;
    Powers();
    assert p[..2] == BigEndian(|who.id|, 2);
    ValueOfBigEndian(|who.id|, 2);
    assert n <= |who.id|;
    assert p[2..2 + n] == who.id[..n];
    assert p[2 + n..] == who.id[n..] + who.publicKey;
  }

  /** Parsing undoes building exactly for ids under 65536 bytes ... */
  lemma HandshakeRoundTrip(who: Identity)
    ensures ParseHandshake(BuildHandshake(who)) == Some(who) <==> |who.id| < 0x1_0000
  {
    ParseBuild(who);
    if |who.id| < 0x1_0000 {
      assert who.id[..|who.id|] == who.id && who.id[|who.id|..] + who.publicKey == who.publicKey;
    } else {
      assert |who.id[..|who.id| % 0x1_0000]| < |who.id|;
    }
  }

  /** ... and building undoes parsing on every accepted payload, so the two are a
      bijection. */
  lemma HandshakeRebuild(payload: seq<byte>)
    requires ParseHandshake(payload).Some?
    ensures BuildHandshake(ParseHandshake(payload).value) == payload
    ensures |ParseHandshake(payload).value.id| < 0x1_0000
  {
    var n := Value(payload[..2]);
    Powers();
    ValueBound(payload[..2]);
    BigEndianOfValue(payload[..2]);
    assert payload == payload[..2] + payload[2..2 + n] + payload[2 + n..];
  }

  // ---- Peer-list payload

  function EncodeStrings(peers: seq<Text>): seq<byte> {
    if peers == [] then [] else BigEndian(|peers[0]|, 2) + peers[0] + EncodeStrings(peers[1..])
  }

  function EncodePeerList(peers: seq<Text>): seq<byte> {
    BigEndian(|peers|, 2) + EncodeStrings(peers)
  }

  method CreatePeerListMessage(peers: seq<Text>, now: Ticks) returns (m: Message)
    ensures m == Message(PEER_LIST, EncodePeerList(peers), now)
  {
    hide BigEndian;
    var peerCount := |peers| % 0x1_0000;
    var payload: seq<byte> := [(peerCount / 256) % 256, peerCount % 256];
    assert payload == BigEndian(|peers|, 2) by { LengthBytes(|peers|); }
    var i := 0;
    while i < |peers|
      invariant 0 <= i <= |peers|
      invariant payload + EncodeStrings(peers[i..]) == EncodePeerList(peers)
    {
      var len := |peers[i]| % 0x1_0000;
      assert [(len / 256) % 256, len % 256] == BigEndian(|peers[i]|, 2) by { LengthBytes(|peers[i]|); }
      assert peers[i..][1..] == peers[i + 1..];
      ghost var field, tail := BigEndian(|peers[i]|, 2) + peers[i], EncodeStrings(peers[i + 1..]);
      assert payload + (field + tail) == payload + field + tail;
      payload := payload + ([(len / 256) % 256, len % 256] + peers[i]);
      i := i + 1;
    }
    assert payload + [] == payload;
    m := Message(PEER_LIST, payload, now);
  }

  /** A decoder for the stated format: a count, then length-prefixed strings. */
  function DecodeStrings(count: nat, s: seq<byte>): (r: Option<seq<Text>>)
    ensures r.Some? ==> |r.value| == count && forall p :: p in r.value ==> |p| < 0x1_0000
  {
    if count == 0 then (if s == [] then Some([]) else None)
    else if |s| < 2 then None
    else
      var n := Value(s[..2]);
      ValueOfTwo(s[..2]);
      if |s| < 2 + n then None
      else match DecodeStrings(count - 1, s[2 + n..])
        case None => None
        case Some(rest) => Some([s[2..2 + n]] + rest)
  }

  function DecodePeerList(payload: seq<byte>): Option<seq<Text>> {
    if |payload| < 2 then None else DecodeStrings(Value(payload[..2]), payload[2..])
  }

  predicate FitsPeerList(peers: seq<Text>) {
    |peers| < 0x1_0000 && forall p :: p in peers ==> |p| < 0x1_0000
  }

  lemma FirstString(t: Text, rest: seq<byte>)
    requires |t| < 0x1_0000
    ensures var s := BigEndian(|t|, 2) + t + rest;
            Value(s[..2]) == |t| && s[2..2 + |t|] == t && s[2 + |t|..] == rest
  {
    hide BigEndian, Value;
    LengthField(|t|, t + rest);
    assert BigEndian(|t|, 2) + t + rest == BigEndian(|t|, 2) + (t + rest);
  }

  lemma {:induction false} DecodeStringsRoundTrip(peers: seq<Text>)
    requires forall p :: p in peers ==> |p| < 0x1_0000
    ensures DecodeStrings(|peers|, EncodeStrings(peers)) == Some(peers)
  {
    if peers != [] {
      DecodeStringsRoundTrip(peers[1..]);
      assert peers[0] in peers;
      FirstString(peers[0], EncodeStrings(peers[1..]));
      assert [peers[0]] + peers[1..] == peers;
    }
  }

  /** The payload can be decoded exactly when every 16-bit count is large enough. */
  lemma PeerListRoundTrip(peers: seq<Text>)
    ensures DecodePeerList(EncodePeerList(peers)) == Some(peers) <==> FitsPeerList(peers)
  {
    hide BigEndian, Value;
    var p := EncodePeerList(peers);
    ValueOfTwo(p[..2]);
    if FitsPeerList(peers) {
      DecodeStringsRoundTrip(peers);
      LengthField(|peers|, EncodeStrings(peers));
    }
  }

  lemma PeerListInjective(a: seq<Text>, b: seq<Text>)
    requires FitsPeerList(a) && FitsPeerList(b) && EncodePeerList(a) == EncodePeerList(b)
    ensures a == b
  {
    PeerListRoundTrip(a);
    PeerListRoundTrip(b);
  }

  function Copies<T>(x: T, n: nat): (s: seq<T>)
    ensures |s| == n && forall i :: 0 <= i < n ==> s[i] == x
  {
    if n == 0 then [] else [x] + Copies(x, n - 1)
  }

  lemma {:induction false} EmptyStrings(n: nat)
    ensures EncodeStrings(Copies<Text>([], n)) == Copies<byte>(0, 2 * n)
  {
    if n > 0 {
      EmptyStrings(n - 1);
      assert Copies<Text>([], n)[1..] == Copies<Text>([], n - 1);
      LengthBytes(0);
      assert EncodeStrings(Copies<Text>([], n)) == [0, 0] + [] + Copies<byte>(0, 2 * (n - 1));
    }
  }

  /** The bounds are needed: 65537 empty strings and one string of 131072 zero bytes
      give the same payload. */
  lemma PeerListCollision(many: seq<Text>, one: seq<Text>)
    requires many == Copies<Text>([], 65537) && one == [Copies<byte>(0, 131072)]
    ensures many != one && EncodePeerList(many) == EncodePeerList(one)
  {
    EmptyStrings(65537);
    LengthBytes(65537);
    LengthBytes(131072);
    LengthBytes(1);
    assert one[1..] == [];
    assert BigEndian(131072, 2) == [0, 0];
    assert EncodeStrings(one) == [0, 0] + Copies<byte>(0, 131072) + [];
    assert [0, 0] + Copies<byte>(0, 131072) + [] == Copies<byte>(0, 131074);
    assert BigEndian(65537, 2) == BigEndian(1, 2);
  }

  // ---- The bytes themselves

  lemma MillisValue(t: Ticks)
    ensures t >= 0 ==> Millis(t) == t as int / 1_000_000
    ensures t < 0 ==> Millis(t) == -((-(t as int)) / 1_000_000)
  {
  }

  /** Every byte of a message on the wire: type, size and milliseconds, the high byte of
      each first, and the payload. */
  lemma WireLayout(m: Message)
    ensures var e, n, stamp := Encode(m), |m.payload| % 0x1_0000_0000, Encode(m)[5..13];
            && |e| == 13 + |m.payload| && e[0] == m.kind && e[13..] == m.payload
            && e[1..5] == [(n / 0x100_0000) % 256, (n / 0x1_0000) % 256, (n / 0x100) % 256, n % 256]
            && forall i :: 0 <= i < 8 ==> stamp[i] == (Millis(m.timestamp) / Pow256(7 - i)) % 256
  {
    hide BigEndian, Millis;
    var e, ms := Encode(m), Millis(m.timestamp);
    SizeBytes(|m.payload|);
    assert e[1..5] == BigEndian(|m.payload|, 4);
    var stamp := e[5..13];
    assert stamp == BigEndian(ms, 8);
    forall i | 0 <= i < 8 ensures stamp[i] == (ms / Pow256(7 - i)) % 256 {
      ShiftAndMask(ms, 8, i);
    }
  }

  /** The two message types the program builds, byte by byte. */
  lemma HandshakeLayout(who: Identity, now: Ticks)
    ensures var m, n := HandshakeMessage(who, now), |who.id| % 0x1_0000;
            && m.kind == 1 && m.timestamp == now
            && m.payload == [(n / 256) % 256, n % 256] + who.id + who.publicKey
  {
    LengthBytes(|who.id|);
  }

  lemma PeerListLayout(first: Text, second: Text)
    requires |first| < 0x1_0000 && |second| < 0x1_0000
    ensures PEER_LIST == 2
    ensures EncodePeerList([first, second]) ==
            [0, 2] + (([|first| / 256, |first| % 256] + first) + ([|second| / 256, |second| % 256] + second))
  {
    hide BigEndian, EncodeStrings;
    ShortLength(2);
    ShortLength(|first|);
    ShortLength(|second|);
    TwoStrings(first, second);
  }

  lemma ShortLength(n: nat)
    requires n < 0x1_0000
    ensures BigEndian(n, 2) == [n / 256, n % 256]
  {
    hide BigEndian;
    LengthBytes(n);
  }

  lemma TwoStrings(first: Text, second: Text)
    ensures EncodeStrings([first, second]) ==
            (BigEndian(|first|, 2) + first) + (BigEndian(|second|, 2) + second)
  {
    hide BigEndian;
    var all := [first, second];
    assert all[1..] == [second] && [second][1..] == [];
    assert EncodeStrings([second]) == BigEndian(|second|, 2) + second + [];
  }
}
