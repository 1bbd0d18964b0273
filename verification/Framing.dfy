/** Session::Run: cutting the bytes of one connection into messages. */
module Framing {
  import opened Bytes
  import opened Codec

  /** Larger declared payloads end the session. */
  const LIMIT: nat := 10 * 1024 * 1024

  /** Why the read loop ended. `Overflow` is the undefined conversion of a time the
      clock cannot hold. */
  datatype Stop = EndOfStream | TooLarge | Overflow

  datatype Reading = Reading(messages: seq<Message>, stop: Stop, rest: seq<byte>)

  function Frames(stream: seq<byte>): Reading
    decreases |stream|
  {
    if |stream| < HEADER then Reading([], EndOfStream, stream)
    else
      var total := HEADER + DeclaredSize(stream);
      if DeclaredSize(stream) > LIMIT then Reading([], TooLarge, stream)
      else if |stream| < total then Reading([], EndOfStream, stream)
      else match Decode(stream[..total])
        case Decoded(m) => var r := Frames(stream[total..]); r.(messages := [m] + r.messages)
        case _ => Reading([], Overflow, stream)
  }

  datatype ReadResult = Got(msg: Message, rest: seq<byte>) | Ended(stop: Stop)

  /** One turn of the read loop, up to the handler call. */
  method ReadMessage(stream: seq<byte>) returns (r: ReadResult)
    ensures r.Ended? ==> Frames(stream) == Reading([], r.stop, stream)
    ensures r.Got? ==>
              && |r.rest| < |stream| && r.rest == stream[|stream| - |r.rest|..]
              && Frames(stream) == Frames(r.rest).(messages := [r.msg] + Frames(r.rest).messages)
  {
    hide Decode, Value, DeclaredMillis;
    if |stream| < 13 {
      return Ended(EndOfStream);
    }
    var payloadSize :=
      stream[1] as int * 0x100_0000 + stream[2] as int * 0x1_0000 + stream[3] as int * 0x100 + stream[4] as int;
    assert payloadSize == DeclaredSize(stream) by { ValueOfFour(stream[1..5]); }
    if payloadSize > 1024 * 1024 * 10 {
      return Ended(TooLarge);
    }
    if |stream| < 13 + payloadSize {
      return Ended(EndOfStream);
    }
    var outcome := Deserialize(stream[..13 + payloadSize]);
    if !outcome.Decoded? {
      return Ended(Overflow);
    }
    r := Got(outcome.msg, stream[13 + payloadSize..]);
  }

  function Flat(ms: seq<Message>): seq<byte> {
    if ms == [] then [] else Encode(ms[0]) + Flat(ms[1..])
  }

  predicate WithinLimit(ms: seq<Message>) {
    forall m :: m in ms ==> |m.payload| <= LIMIT
  }

  lemma FrameOne(m: Message, rest: seq<byte>)
    requires |m.payload| <= LIMIT
    ensures var r := Frames(rest);
            Frames(Encode(m) + rest) == r.(messages := [Canonical(m)] + r.messages)
  {
    hide Encode, BigEndian, Value, Canonical, DeclaredMillis, Millis;
    var s := Encode(m) + rest;
    HeaderOf(m, rest);
    assert s[..|Encode(m)|] == Encode(m) == Encode(m) + [];
    assert s[|Encode(m)|..] == rest;
    RoundTrip(m, []);
  }

  lemma {:induction false} FramesThenTail(ms: seq<Message>, tail: seq<byte>)
    requires WithinLimit(ms)
    ensures var r := Frames(tail);
            Frames(Flat(ms) + tail) == r.(messages := CanonicalAll(ms) + r.messages)
  {
    hide Frames, Encode, Canonical;
    if ms == [] {
      assert Flat(ms) + tail == tail;
      assert CanonicalAll(ms) + Frames(tail).messages == Frames(tail).messages;
    } else {
      assert ms[0] in ms;
      FramesThenTail(ms[1..], tail);
      FrameOne(ms[0], Flat(ms[1..]) + tail);
      assert Flat(ms) + tail == Encode(ms[0]) + (Flat(ms[1..]) + tail);
      assert [Canonical(ms[0])] + (CanonicalAll(ms[1..]) + Frames(tail).messages)
             == CanonicalAll(ms) + Frames(tail).messages;
    }
  }

  lemma PartialFrame(m: Message, part: seq<byte>)
    requires |m.payload| <= LIMIT && part < Encode(m)
    ensures Frames(part) == Reading([], EndOfStream, part)
  {
    hide Decode, Encode, BigEndian, Value;
    if |part| >= HEADER {
      HeaderOf(m, []);
      assert Encode(m) + [] == Encode(m);
      assert part[1..5] == Encode(m)[1..5];
    }
  }

  /** A list of messages followed by an unfinished one: exactly the list is delivered,
      then the read fails. */
  lemma FramingOfMessages(ms: seq<Message>, m: Message, part: seq<byte>)
    requires WithinLimit(ms) && |m.payload| <= LIMIT && part < Encode(m)
    ensures Frames(Flat(ms) + part) == Reading(CanonicalAll(ms), EndOfStream, part)
  {
    FramesThenTail(ms, part);
    PartialFrame(m, part);
    assert CanonicalAll(ms) + [] == CanonicalAll(ms);
  }

  /** A header declaring more than the limit stops the loop after exactly the earlier
      messages. */
  lemma FramingStopsAtOversize(ms: seq<Message>, bad: seq<byte>)
    requires WithinLimit(ms) && |bad| >= HEADER && DeclaredSize(bad) > LIMIT
    ensures Frames(Flat(ms) + bad) == Reading(CanonicalAll(ms), TooLarge, bad)
  {
    FramesThenTail(ms, bad);
    assert CanonicalAll(ms) + [] == CanonicalAll(ms);
  }

  /** How many of the messages lie whole within the first `n` bytes. */
  function WholeFrames(ms: seq<Message>, n: nat): (k: nat)
    ensures k <= |ms|
  {
    if ms == [] || n < |Encode(ms[0])| then 0
    else 1 + WholeFrames(ms[1..], n - |Encode(ms[0])|)
  }

  lemma NothingToRead()
    ensures Frames([]) == Reading([], EndOfStream, [])
  {
  }

  lemma CanonicalStep(ms: seq<Message>, k: nat)
    requires k + 1 <= |ms|
    ensures CanonicalAll(ms[..k + 1]) == [Canonical(ms[0])] + CanonicalAll(ms[1..][..k])
  {
    hide Canonical;
    assert ms[..k + 1] == [ms[0]] + ms[1..][..k];
  }

  /** Wherever the stream is cut, the messages that arrived whole are delivered. */
  lemma {:induction false} FramesOfPrefix(ms: seq<Message>, n: nat)
    requires WithinLimit(ms) && n <= |Flat(ms)|
    ensures Frames(Flat(ms)[..n]).messages == CanonicalAll(ms[..WholeFrames(ms, n)])
    decreases ms
  {
    hide Frames, Encode, Canonical, CanonicalAll;
    if ms == [] {
      NothingToRead();
    } else {
      assert ms[0] in ms;
      var e, tail := Encode(ms[0]), ms[1..];
      if n < |e| {
        assert Flat(ms)[..n] == e[..n] && e[..n] < e;
        PartialFrame(ms[0], e[..n]);
      } else {
        FramesOfPrefix(tail, n - |e|);
        FrameOne(ms[0], Flat(tail)[..n - |e|]);
        assert Flat(ms)[..n] == e + Flat(tail)[..n - |e|];
        CanonicalStep(ms, WholeFrames(tail, n - |e|));
      }
    }
  }

  ghost predicate Explains(stop: Stop, rest: seq<byte>) {
    match stop
    case EndOfStream =>
      |rest| < HEADER || (DeclaredSize(rest) <= LIMIT && |rest| < HEADER + DeclaredSize(rest))
    case TooLarge => |rest| >= HEADER && DeclaredSize(rest) > LIMIT
    case Overflow => |rest| >= HEADER && !ClockHolds(DeclaredMillis(rest))
  }

  lemma FrameStep(stream: seq<byte>) returns (tail: seq<byte>)
    ensures var r := Frames(stream);
            if r.messages == [] then r.rest == stream && Explains(r.stop, r.rest)
            else
              && stream == Encode(r.messages[0]) + tail && |r.messages[0].payload| <= LIMIT
              && Frames(tail) == r.(messages := r.messages[1..])
  {
    hide Encode, BigEndian, Value;
    tail := [];
    if |stream| >= HEADER && DeclaredSize(stream) <= LIMIT && |stream| >= HEADER + DeclaredSize(stream) {
      var total := HEADER + DeclaredSize(stream);
      var head := stream[..total];
      assert head[1..5] == stream[1..5] && head[5..13] == stream[5..13];
      DecodeFailures(head);
      if Decode(head).Decoded? {
        DecodeIsExact(head);
        tail := stream[total..];
        assert stream == head + tail;
      }
    }
  }

  /** The converse, for every byte stream: what was delivered re-encodes to precisely
      the bytes consumed, and the stop tells what is left over. */
  lemma {:induction false} FramesAreExact(stream: seq<byte>)
    ensures var r := Frames(stream);
            Flat(r.messages) + r.rest == stream && WithinLimit(r.messages) && Explains(r.stop, r.rest)
    decreases |stream|
  {
    hide Frames, Encode, Explains;
    var r := Frames(stream);
    var tail := FrameStep(stream);
    if r.messages == [] {
      assert [] + r.rest == stream;
    } else {
      FramesAreExact(tail);
      assert Encode(r.messages[0]) + (Flat(r.messages[1..]) + r.rest) == Flat(r.messages) + r.rest;
    }
  }

  /** The limit in bytes: a header that declares more ends the loop, and no other does so
      for this reason. */
  lemma StopsPastTenMegabytes(stream: seq<byte>)
    requires |stream| >= 13
    ensures var size := stream[1] as int * 0x100_0000 + stream[2] as int * 0x1_0000
                        + stream[3] as int * 0x100 + stream[4] as int;
            Frames(stream).messages == [] && Frames(stream).stop == TooLarge <==> size > 10_485_760
  {
    hide Decode, Value;
    ValueOfFour(stream[1..5]);
  }
}
