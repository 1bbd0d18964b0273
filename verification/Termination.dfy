/** Handshakes die out: how many one dial can cause, and exactly when that is bounded. */
module Termination {
  import opened Bytes
  import opened Codec
  import opened PeerStore
  import opened Nodes
  import opened Protocol

  /** Ids and keys that survive a handshake. Colons and equal ids are allowed here. */
  ghost predicate Sized(cfg: Config) {
    forall i :: 0 <= i < |cfg.ids| ==>
      |cfg.ids[i].id| < 0x1_0000 && 2 + |cfg.ids[i].id| + |cfg.ids[i].publicKey| < TWO32
  }

  /** The node that listens at `at` has, as its id, the very key under which it is dialled
      there, and an address can be read from it. */
  ghost predicate NamedByKey(cfg: Config, at: Endpoint) {
    && at in cfg.listens && cfg.listens[at] < |cfg.ids|
    && cfg.ids[cfg.listens[at]].id == PeerKey(at) && !ParseOrigin(PeerKey(at)).Unreadable?
  }

  ghost predicate Flying(cfg: Config, net: Net) {
    |net.nodes| == |cfg.ids| && GoodFlight(cfg, net)
  }

  // ---- Weights

  function Sum(w: Packet -> nat, ps: seq<Packet>): nat {
    if ps == [] then 0 else w(ps[0]) + Sum(w, ps[1..])
  }

  lemma {:induction false} SumAppend(w: Packet -> nat, a: seq<Packet>, b: seq<Packet>)
    ensures Sum(w, a + b) == Sum(w, a) + Sum(w, b)
  {
    if a == [] {
      assert a + b == b;
    } else {
      SumAppend(w, a[1..], b);
      assert (a + b)[1..] == a[1..] + b;
    }
  }

  lemma SumAdd(w: Packet -> nat, ps: seq<Packet>, p: Packet)
    ensures Sum(w, ps + [p]) == Sum(w, ps) + w(p)
  {
    SumAppend(w, ps, [p]);
    assert [p][1..] == [];
  }

  lemma SumWithout(w: Packet -> nat, ps: seq<Packet>, i: nat)
    requires i < |ps|
    ensures Sum(w, Without(ps, i)) == Sum(w, ps) - w(ps[i])
  {
    SumAppend(w, ps[..i], ps[i..]);
    assert ps[..i] + ps[i..] == ps;
    SumAppend(w, ps[..i], ps[i + 1..]);
  }

  /** A handshake on its way up can still cause a reply; one on its way down cannot. */
  function Weight(p: Packet): nat {
    if !IsHandshake(p.data) then 0 else if p.up then 2 else 1
  }

  function UpWeight(p: Packet): nat {
    if IsHandshake(p.data) && p.up then 1 else 0
  }

  function Measure(net: Net): nat {
    Sum(Weight, net.flight)
  }

  /** Replies that may still have to be sent. */
  function Pending(net: Net): nat {
    Sum(UpWeight, net.flight)
  }

  /** Handshakes that a step takes off a link. */
  function Consumed(net: Net, st: Step): nat {
    if (st.Deliver? || st.Lose?) && st.i < |net.flight| && IsHandshake(net.flight[st.i].data) then 1 else 0
  }

  function DialsIn(cfg: Config, st: Step): nat {
    if st.Dial? && st.a < |cfg.ids| then 1 else 0
  }

  // ---- One step

  /** What a delivered packet makes its target send: nothing, or its own handshake to the
      name that the packet came under, when that is also the id in the packet. */
  lemma OutOf(cfg: Config, net: Net, p: Packet, unset: uint16, now: Ticks)
    requires Sized(cfg) && Flying(cfg, net) && p in net.flight
    ensures p.link.src < |cfg.ids| && p.link.dst < |cfg.ids|
    ensures var out := Reacted(cfg, net, p, unset, now).out;
            || out == []
            || (&& IsHandshake(p.data) && !ParseOrigin(SenderName(cfg, p)).Unreadable?
                && SenderName(cfg, p) == cfg.ids[Source(p)].id
                && out == [ViaRouter(SenderName(cfg, p), Encode(HandshakeMessage(cfg.ids[Target(p)], now)))])
  {
    hide ParseOrigin, Decode, Encode, Learn, BuildHandshake, ParseHandshake;
    assert p.link in net.links && GoodLink(cfg, p.link) && Honest(cfg, p);
    HandshakeSurvives(cfg.ids[Source(p)], now);
  }

  /** Only a node named by its key replies to a reply. */
  lemma NoReplyToReply(cfg: Config, net: Net, p: Packet, unset: uint16, now: Ticks)
    requires Sized(cfg) && Flying(cfg, net) && p in net.flight && !p.up && (forall at :: !NamedByKey(cfg, at))
    ensures p.link.src < |cfg.ids| && p.link.dst < |cfg.ids|
    ensures Reacted(cfg, net, p, unset, now).out == []
  {
    hide ParseOrigin, PeerKey, Reacted, Honest, IsHandshake;
    OutOf(cfg, net, p, unset, now);
    assert GoodLink(cfg, p.link);
    var at :| at in cfg.listens && cfg.listens[at] == p.link.dst && p.link.key == PeerKey(at);
    assert !NamedByKey(cfg, at);
  }

  ghost function ReplyPacket(cfg: Config, p: Packet, via: Link, now: Ticks): Packet
    requires Target(p) < |cfg.ids|
  {
    Packet(via, false, Encode(HandshakeMessage(cfg.ids[Target(p)], now)))
  }

  /** The packets after a delivery: one fewer, and at most one reply, which is honest. */
  lemma DeliverFlight(cfg: Config, net: Net, i: nat, via: Link, unset: uint16, now: Ticks)
    requires Sized(cfg) && Flying(cfg, net) && i < |net.flight|
    ensures var p := net.flight[i];
            && p.link.src < |cfg.ids| && p.link.dst < |cfg.ids|
            && var net' := Delivered(cfg, net, i, via, unset, now);
            && Flying(cfg, net') && net'.dials == net.dials
            && var replied := net'.flight != Without(net.flight, i);
               && (replied ==> IsHandshake(p.data) && Reacted(cfg, net, p, unset, now).out != [])
               && net'.sent == net.sent + (if replied then 1 else 0)
               && net'.flight == Without(net.flight, i) + if replied then [ReplyPacket(cfg, p, via, now)] else []
  {
    hide ParseOrigin, Decode, Encode, IsHandshake, Reacted, GoodLink, BuildHandshake, Honest;
    var p := net.flight[i];
    OutOf(cfg, net, p, unset, now);
    var net' := Delivered(cfg, net, i, via, unset, now);
    var more := Routed(cfg, net, Target(p), Reacted(cfg, net, p, unset, now).out, via);
    assert Without(net.flight, i) + [] == Without(net.flight, i);
    if more == [] {
      FlightGrows(cfg, net, net', p);
    } else {
      var q := ReplyPacket(cfg, p, via, now);
      assert more == [q];
      assert |net'.flight| == |Without(net.flight, i)| + 1;
      ReplyHonest(cfg, p, via, now);
      FlightGrows(cfg, net, net', q);
    }
  }

  lemma ReplyHonest(cfg: Config, p: Packet, via: Link, now: Ticks)
    requires Sized(cfg) && Target(p) < |cfg.ids| && via.dst == Target(p)
    ensures Honest(cfg, ReplyPacket(cfg, p, via, now))
  {
    hide Encode, BuildHandshake;
    HandshakeSurvives(cfg.ids[Target(p)], now);
  }

  lemma DeliverMeasure(cfg: Config, net: Net, i: nat, via: Link, unset: uint16, now: Ticks)
    requires Sized(cfg) && Flying(cfg, net) && i < |net.flight| && (forall at :: !NamedByKey(cfg, at))
    ensures var p := net.flight[i];
            && p.link.src < |cfg.ids| && p.link.dst < |cfg.ids|
            && var net' := Delivered(cfg, net, i, via, unset, now);
            && Measure(net') + (if IsHandshake(p.data) then 1 else 0) <= Measure(net)
            && net'.sent + Pending(net') <= net.sent + Pending(net)
  {
    hide IsHandshake, Decode, Encode, Delivered, Reacted, GoodFlight, NamedByKey;
    var p := net.flight[i];
    DeliverFlight(cfg, net, i, via, unset, now);
    if !p.up {
      NoReplyToReply(cfg, net, p, unset, now);
    }
    var reply := ReplyPacket(cfg, p, via, now);
    SumWithout(Weight, net.flight, i);
    SumWithout(UpWeight, net.flight, i);
    SumAdd(Weight, Without(net.flight, i), reply);
    SumAdd(UpWeight, Without(net.flight, i), reply);
    assert Without(net.flight, i) + [] == Without(net.flight, i);
  }

  lemma DialFlying(cfg: Config, net: Net, a: nat, at: Endpoint, now: Ticks)
    requires Sized(cfg) && Flying(cfg, net) && a < |cfg.ids|
    ensures Flying(cfg, DialStep(cfg, net, a, at, now))
  {
    hide GoodFlight;
    DialKeepsFlight(cfg, net, a, at, now);
  }

  lemma NextFlying(cfg: Config, net: Net, st: Step)
    requires Sized(cfg) && Flying(cfg, net)
    ensures Flying(cfg, Next(cfg, net, st))
  {
    hide IsHandshake, Delivered, DialStep, HungUp, GoodLink;
    match st
    case Dial(a, at, now) => if a < |cfg.ids| { DialFlying(cfg, net, a, at, now); }
    case Deliver(i, via, unset, now) => if i < |net.flight| { DeliverFlight(cfg, net, i, via, unset, now); }
    case _ =>
  }

  /** Each handshake taken off a link lowers the measure; only a dial raises it. */
  lemma NextMeasure(cfg: Config, net: Net, st: Step)
    requires Sized(cfg) && Flying(cfg, net) && (forall at :: !NamedByKey(cfg, at))
    ensures var net' := Next(cfg, net, st);
            && net'.dials == net.dials + DialsIn(cfg, st)
            && Measure(net') + Consumed(net, st) <= Measure(net) + 2 * DialsIn(cfg, st)
            && net'.sent + Pending(net') <= net.sent + Pending(net) + 2 * DialsIn(cfg, st)
  {
    hide IsHandshake, Decode, Encode, PeerKey, HungUp, GoodLink, NamedByKey, Reacted;
    match st
    case Dial(a, at, now) =>
      if a < |cfg.ids| && at in cfg.listens && cfg.listens[at] < |cfg.ids| {
        var p := Packet(Link(a, PeerKey(at), cfg.listens[at]), true, Encode(HandshakeMessage(cfg.ids[a], now)));
        SumAdd(Weight, net.flight, p);
        SumAdd(UpWeight, net.flight, p);
      }
    case Deliver(i, via, unset, now) =>
      if i < |net.flight| {
        DeliverMeasure(cfg, net, i, via, unset, now);
      }
    case Lose(i) =>
      if i < |net.flight| {
        SumWithout(Weight, net.flight, i);
        SumWithout(UpWeight, net.flight, i);
      }
    case HangUp(a, key, now) =>
    case Chat(p) =>
      if p.link in net.links && IsChat(p.data) {
        SumAdd(Weight, net.flight, p);
        SumAdd(UpWeight, net.flight, p);
      }
  }

  // ---- Whole runs

  function ConsumedIn(cfg: Config, net: Net, steps: seq<Step>): nat
    requires |net.nodes| == |cfg.ids|
    decreases steps
  {
    if steps == [] then 0 else Consumed(net, steps[0]) + ConsumedIn(cfg, Next(cfg, net, steps[0]), steps[1..])
  }

  lemma {:induction false} RunMeasure(cfg: Config, net: Net, steps: seq<Step>)
    requires Sized(cfg) && Flying(cfg, net) && (forall at :: !NamedByKey(cfg, at))
    ensures var net' := Run(cfg, net, steps);
            && net'.dials >= net.dials
            && Measure(net') + ConsumedIn(cfg, net, steps) <= Measure(net) + 2 * (net'.dials - net.dials)
            && net'.sent + Pending(net') <= net.sent + Pending(net) + 2 * (net'.dials - net.dials)
    decreases steps
  {
    hide Next, GoodFlight, Measure, Pending, Consumed, DialsIn, NamedByKey;
    if steps != [] {
      NextMeasure(cfg, net, steps[0]);
      NextFlying(cfg, net, steps[0]);
      RunMeasure(cfg, Next(cfg, net, steps[0]), steps[1..]);
    }
  }

  /** Sent so far, still to be sent and taken off links: two per dial at most. */
  ghost predicate TwoPerDial(cfg: Config, steps: seq<Step>) {
    var net := Run(cfg, Initial(cfg), steps);
    && net.sent + Pending(net) <= 2 * net.dials
    && ConsumedIn(cfg, Initial(cfg), steps) + Measure(net) <= 2 * net.dials
  }

  lemma NobodyNamedByKey(cfg: Config)
    requires WellFormed(cfg)
    ensures Sized(cfg) && forall at :: !NamedByKey(cfg, at)
  {
    forall at ensures !NamedByKey(cfg, at) {
      OriginOfKey(at);
    }
  }

  /** Generated ids have no colon and keys do, so no node is named by its key: handshakes
      die out, with at most two per dial in every run. */
  lemma HandshakesDieOut(cfg: Config, steps: seq<Step>)
    requires WellFormed(cfg)
    ensures TwoPerDial(cfg, steps)
  {
    NobodyNamedByKey(cfg);
    RunMeasure(cfg, Initial(cfg), steps);
  }

  // ---- The exact condition

  function Echo(now: Ticks, via: Link, n: nat): seq<Step> {
    if n == 0 then [] else [Deliver(0, via, 0, now)] + Echo(now, via, n - 1)
  }

  function SelfLink(cfg: Config, at: Endpoint): Link
    requires at in cfg.listens
  {
    Link(cfg.listens[at], PeerKey(at), cfg.listens[at])
  }

  /** A node named by its key has dialled itself, and one handshake is on that link. */
  ghost predicate Echoing(cfg: Config, net: Net, at: Endpoint)
    requires at in cfg.listens && cfg.listens[at] < |cfg.ids|
  {
    var b := cfg.listens[at];
    && |net.nodes| == |cfg.ids| && PeerKey(at) in net.nodes[b].dealers && SelfLink(cfg, at) in net.links
    && |net.flight| == 1 && net.flight[0].link == SelfLink(cfg, at) && IsHandshake(net.flight[0].data)
    && Decode(net.flight[0].data).msg.payload == BuildHandshake(cfg.ids[b])
  }

  lemma EchoOnce(cfg: Config, net: Net, at: Endpoint, now: Ticks)
    requires Sized(cfg) && NamedByKey(cfg, at) && Echoing(cfg, net, at)
    ensures var net' := Next(cfg, net, Deliver(0, SelfLink(cfg, at), 0, now));
            Echoing(cfg, net', at) && net'.sent == net.sent + 1 && net'.dials == net.dials
  {
    hide Encode, PeerKey, ParseOrigin, BuildHandshake;
    HandshakeSurvives(cfg.ids[cfg.listens[at]], now);
  }

  lemma {:induction false} EchoForever(cfg: Config, net: Net, at: Endpoint, now: Ticks, n: nat)
    requires Sized(cfg) && NamedByKey(cfg, at) && Echoing(cfg, net, at)
    ensures var net' := Run(cfg, net, Echo(now, SelfLink(cfg, at), n));
            net'.sent == net.sent + n && net'.dials == net.dials
    decreases n
  {
    hide Next, PeerKey, ParseOrigin, IsHandshake, SelfLink;
    if n > 0 {
      var via := SelfLink(cfg, at);
      var steps := Echo(now, via, n);
      EchoOnce(cfg, net, at, now);
      assert steps[0] == Deliver(0, via, 0, now) && steps[1..] == Echo(now, via, n - 1);
      EchoForever(cfg, Next(cfg, net, steps[0]), at, now, n - 1);
    }
  }

  /** One dial of a node named by its key can cause any number of handshakes: the node
      dials itself and answers itself for ever. */
  lemma OneDialEchoes(cfg: Config, at: Endpoint, now: Ticks, n: nat)
    requires Sized(cfg) && NamedByKey(cfg, at)
    ensures var net := Run(cfg, Initial(cfg), [Dial(cfg.listens[at], at, now)] + Echo(now, SelfLink(cfg, at), n));
            net.dials == 1 && net.sent == n + 1
  {
    hide Encode, PeerKey, ParseOrigin, BuildHandshake;
    var b := cfg.listens[at];
    var steps := [Dial(b, at, now)] + Echo(now, SelfLink(cfg, at), n);
    var net := Next(cfg, Initial(cfg), Dial(b, at, now));
    HandshakeSurvives(cfg.ids[b], now);
    assert net.flight == [Packet(SelfLink(cfg, at), true, Encode(HandshakeMessage(cfg.ids[b], now)))];
    assert Echoing(cfg, net, at);
    EchoForever(cfg, net, at, now, n);
    assert steps[1..] == Echo(now, SelfLink(cfg, at), n);
  }

  /** Exactly when handshakes die out, for ids of any form: there are at most two per dial
      in every run if and only if no listening node is named by its own readable key. */
  lemma DieOutExactly(cfg: Config)
    requires Sized(cfg)
    ensures (forall steps :: TwoPerDial(cfg, steps)) <==> (forall at :: !NamedByKey(cfg, at))
  {
    hide Run, NamedByKey, Sized, Measure, ConsumedIn;
    if at :| NamedByKey(cfg, at) {
      NamedListens(cfg, at);
      OneDialEchoes(cfg, at, 0, 2);
      assert !TwoPerDial(cfg, [Dial(cfg.listens[at], at, 0)] + Echo(0, SelfLink(cfg, at), 2));
    } else {
      forall steps ensures TwoPerDial(cfg, steps) {
        RunMeasure(cfg, Initial(cfg), steps);
        NothingInFlight(cfg);
      }
    }
  }

  lemma NamedListens(cfg: Config, at: Endpoint)
    requires NamedByKey(cfg, at)
    ensures at in cfg.listens
  {
  }

  lemma NothingInFlight(cfg: Config)
    ensures var net := Initial(cfg); Measure(net) == 0 && Pending(net) == 0 && net.sent == 0 && net.dials == 0
  {
  }
}
