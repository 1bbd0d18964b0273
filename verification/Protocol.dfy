/** The dealer/router handshake among any number of nodes, over links that may lose,
    delay and reorder. A run is any sequence of steps; a step that is not possible in
    its state changes nothing. */
module Protocol {
  import opened Bytes
  import opened Codec
  import opened PeerStore
  import opened Nodes

  /** A connection that node `src` dialled under `key`, ending at the router of `dst`. */
  datatype Link = Link(src: nat, key: Text, dst: nat)

  /** A frame on a link: up from the dealer to the router, or back down. */
  datatype Packet = Packet(link: Link, up: bool, data: seq<byte>)

  /** Who the nodes are, and which node listens where. */
  datatype Config = Config(ids: seq<Identity>, listens: map<Endpoint, nat>)

  /** `links` remembers every dial that reached a node; `dials` and `sent` count the
      dials and the handshakes put on links. */
  datatype Net = Net(nodes: seq<Node>, flight: seq<Packet>, links: set<Link>, dials: nat, sent: nat)

  datatype Step =
    | Dial(a: nat, at: Endpoint, now: Ticks)
    | Deliver(i: nat, via: Link, unset: uint16, now: Ticks)
    | Lose(i: nat)
    | HangUp(a: nat, key: Text, now: Ticks)
    | Chat(packet: Packet)

  predicate IsHandshake(data: seq<byte>) {
    Decode(data).Decoded? && Decode(data).msg.kind == HANDSHAKE
  }

  /** Any other message: what SendMessage and BroadcastMessage put on a link. */
  predicate IsChat(data: seq<byte>) {
    Decode(data).Decoded? && !IsHandshake(data)
  }

  function Without(flight: seq<Packet>, i: nat): seq<Packet>
    requires i < |flight|
  {
    flight[..i] + flight[i + 1..]
  }

  /** The node a packet is for. */
  function Target(p: Packet): nat {
    if p.up then p.link.dst else p.link.src
  }

  function Source(p: Packet): nat {
    if p.up then p.link.src else p.link.dst
  }

  /** The sender name that reaches HandleMessage: the routing id of the dialling node at a
      router, the key of the socket at a dealer. */
  function SenderName(cfg: Config, p: Packet): Text
    requires p.link.src < |cfg.ids|
  {
    if p.up then cfg.ids[p.link.src].id else p.link.key
  }

  /** A router sends to the connection that has the wanted routing id; `via` picks one,
      and if it does not fit, nothing is sent. */
  function Routed(cfg: Config, net: Net, me: nat, out: seq<Output>, via: Link): seq<Packet> {
    if |out| == 1 && out[0].ViaRouter? && via in net.links && via.dst == me && via.src < |cfg.ids|
       && cfg.ids[via.src].id == out[0].id
    then [Packet(via, false, out[0].data)] else []
  }

  function Reacted(cfg: Config, net: Net, p: Packet, unset: uint16, now: Ticks): Reaction
    requires p.link.src < |cfg.ids| && Target(p) < |cfg.ids| && |net.nodes| == |cfg.ids|
  {
    if !p.up && p.link.key !in net.nodes[Target(p)].dealers then Reaction(net.nodes[Target(p)], [])
    else Receive(cfg.ids[Target(p)], net.nodes[Target(p)], SenderName(cfg, p), p.data, unset, now)
  }

  function Delivered(cfg: Config, net: Net, i: nat, via: Link, unset: uint16, now: Ticks): Net
    requires i < |net.flight| && |net.nodes| == |cfg.ids|
    requires net.flight[i].link.src < |cfg.ids| && Target(net.flight[i]) < |cfg.ids|
  {
    var p := net.flight[i];
    var r := Reacted(cfg, net, p, unset, now);
    var more := Routed(cfg, net, Target(p), r.out, via);
    net.(nodes := net.nodes[Target(p) := r.node], flight := Without(net.flight, i) + more, sent := net.sent + |more|)
  }

  function DialStep(cfg: Config, net: Net, a: nat, at: Endpoint, now: Ticks): Net
    requires a < |net.nodes| == |cfg.ids|
  {
    var r := Dialled(cfg.ids[a], net.nodes[a], at, now);
    var net' := net.(nodes := net.nodes[a := r.node], dials := net.dials + 1);
    if at in cfg.listens && cfg.listens[at] < |cfg.ids|
    then
      var link := Link(a, PeerKey(at), cfg.listens[at]);
      var packet := Packet(link, true, r.out[0].data);
      net'.(links := net.links + {link}, sent := net.sent + 1, flight := net.flight + [packet])
    else net'
  }

  function Next(cfg: Config, net: Net, st: Step): Net
    requires |net.nodes| == |cfg.ids|
  {
    match st
    case Dial(a, at, now) => if a < |cfg.ids| then DialStep(cfg, net, a, at, now) else net
    case Deliver(i, via, unset, now) =>
      if i < |net.flight| && net.flight[i].link.src < |cfg.ids| && Target(net.flight[i]) < |cfg.ids|
      then Delivered(cfg, net, i, via, unset, now) else net
    case Lose(i) => if i < |net.flight| then net.(flight := Without(net.flight, i)) else net
    case HangUp(a, key, now) =>
      if a < |cfg.ids| then net.(nodes := net.nodes[a := HungUp(net.nodes[a], key, now)]) else net
    case Chat(p) =>
      if p.link in net.links && IsChat(p.data) then net.(flight := net.flight + [p]) else net
  }

  function Run(cfg: Config, net: Net, steps: seq<Step>): (r: Net)
    requires |net.nodes| == |cfg.ids|
    ensures |r.nodes| == |cfg.ids|
    decreases steps
  {
    if steps == [] then net else Run(cfg, Next(cfg, net, steps[0]), steps[1..])
  }

  function Initial(cfg: Config): (net: Net)
    ensures |net.nodes| == |cfg.ids|
  {
    Net(seq(|cfg.ids|, _ => EMPTY_NODE), [], {}, 0, 0)
  }

  /** Ids as GeneratePeerId makes them, as far as the protocol cares: distinct, without a
      colon, and short enough for the 16-bit length; and payloads that fit a message. */
  ghost predicate WellFormed(cfg: Config) {
    && (forall i :: 0 <= i < |cfg.ids| ==>
          && |cfg.ids[i].id| < 0x1_0000 && COLON !in cfg.ids[i].id
          && 2 + |cfg.ids[i].id| + |cfg.ids[i].publicKey| < TWO32)
    && (forall i, j :: 0 <= i < j < |cfg.ids| ==> cfg.ids[i].id != cfg.ids[j].id)
  }

  // ---- Safety, under loss and reordering

  ghost predicate GoodLink(cfg: Config, l: Link) {
    && l.src < |cfg.ids| && l.dst < |cfg.ids|
    && exists at :: at in cfg.listens && cfg.listens[at] == l.dst && l.key == PeerKey(at)
  }

  /** Handshakes in flight are their sender's own. */
  ghost predicate Honest(cfg: Config, p: Packet)
    requires Source(p) < |cfg.ids|
  {
    IsHandshake(p.data) ==> Decode(p.data).msg.payload == BuildHandshake(cfg.ids[Source(p)])
  }

  ghost predicate GoodFlight(cfg: Config, net: Net) {
    && (forall l :: l in net.links ==> GoodLink(cfg, l))
    && (forall p :: p in net.flight ==> p.link in net.links && Honest(cfg, p))
  }

  /** The entry that node `a` holds for node `b` tells the truth: b's key, under b's id;
      if it was learned over a dealer, that dealer leads to b and the entry has the
      address read from its key; over the router, it has no address. */
  ghost predicate Truthful(cfg: Config, net: Net, a: nat, b: nat)
    requires |net.nodes| == |cfg.ids| && a < |cfg.ids| && b < |cfg.ids|
  {
    var n, who := net.nodes[a], cfg.ids[b];
    who.id in n.peers ==>
      && n.peers[who.id].id == who.id && n.peers[who.id].publicKey == who.publicKey
      && who.id in n.learned && (n.learned[who.id] == who.id ==> n.peers[who.id].address == [])
      && (n.learned[who.id] != who.id ==>
            && Link(a, n.learned[who.id], b) in net.links
            && ParseOrigin(n.learned[who.id]) == At(Endpoint(n.peers[who.id].address, n.peers[who.id].port)))
  }

  ghost predicate Truth(cfg: Config, net: Net)
    requires |net.nodes| == |cfg.ids|
  {
    && (forall a, b :: 0 <= a < |cfg.ids| && 0 <= b < |cfg.ids| ==> Truthful(cfg, net, a, b))
    && (forall a, id :: 0 <= a < |cfg.ids| && id in net.nodes[a].peers ==> IsNode(cfg, id))
  }

  ghost predicate IsNode(cfg: Config, id: Text) {
    exists b :: 0 <= b < |cfg.ids| && cfg.ids[b].id == id
  }

  predicate Knows(cfg: Config, net: Net, a: nat, b: nat)
    requires |net.nodes| == |cfg.ids| && a < |cfg.ids| && b < |cfg.ids|
  {
    cfg.ids[b].id in net.nodes[a].peers
  }

  /** Whoever replied to `a`, or is known to `a` over a dealer, already knows `a`. */
  ghost predicate RepliesAreLate(cfg: Config, net: Net)
    requires |net.nodes| == |cfg.ids| && GoodFlight(cfg, net)
  {
    && (forall p :: p in net.flight && !p.up && IsHandshake(p.data) ==> Knows(cfg, net, p.link.dst, p.link.src))
    && (forall a, b :: 0 <= a < |cfg.ids| && 0 <= b < |cfg.ids| && LearnedByDialling(cfg, net, a, b) ==>
          Knows(cfg, net, b, a))
  }

  predicate LearnedByDialling(cfg: Config, net: Net, a: nat, b: nat)
    requires |net.nodes| == |cfg.ids| && a < |cfg.ids| && b < |cfg.ids|
  {
    var n, id := net.nodes[a], cfg.ids[b].id;
    id in n.peers && id in n.learned && n.learned[id] != id
  }

  ghost predicate DealerKeysHaveColons(net: Net) {
    forall a, k :: 0 <= a < |net.nodes| && k in net.nodes[a].dealers ==> COLON in k
  }

  ghost predicate Inv(cfg: Config, net: Net) {
    && |net.nodes| == |cfg.ids|
    && GoodFlight(cfg, net) && Truth(cfg, net) && RepliesAreLate(cfg, net) && DealerKeysHaveColons(net)
  }

  // What a received packet does.

  lemma HandshakeSurvives(who: Identity, now: Ticks)
    requires |who.id| < 0x1_0000 && 2 + |who.id| + |who.publicKey| < TWO32
    ensures var data := Encode(HandshakeMessage(who, now));
            IsHandshake(data) && Decode(data).msg.payload == BuildHandshake(who)
    ensures ParseHandshake(BuildHandshake(who)) == Some(who)
  {
    hide Encode, Decode;
    var m := HandshakeMessage(who, now);
    RoundTrip(m, []);
    assert Encode(m) + [] == Encode(m);
    HandshakeRoundTrip(who);
  }

  lemma OwnHandshake(cfg: Config, i: nat, now: Ticks)
    requires WellFormed(cfg) && i < |cfg.ids|
    ensures var data := Encode(HandshakeMessage(cfg.ids[i], now));
            IsHandshake(data) && Decode(data).msg.payload == BuildHandshake(cfg.ids[i])
    ensures ParseHandshake(BuildHandshake(cfg.ids[i])) == Some(cfg.ids[i])
  {
    HandshakeSurvives(cfg.ids[i], now);
  }

  lemma KeyHasColon(cfg: Config, l: Link)
    requires GoodLink(cfg, l)
    ensures COLON in l.key
  {
    var at :| at in cfg.listens && cfg.listens[at] == l.dst && l.key == PeerKey(at);
    OriginOfKey(at);
  }

  /** A handshake: the receiver learns its true sender, unless the key of the dealer it
      came over cannot be read; and only a router replies. */
  lemma ReceiveHandshake(cfg: Config, net: Net, p: Packet, unset: uint16, now: Ticks)
    requires WellFormed(cfg) && Inv(cfg, net) && p in net.flight && IsHandshake(p.data)
    requires p.up || p.link.key in net.nodes[Target(p)].dealers
    ensures var r := Reacted(cfg, net, p, unset, now);
            var n, who := net.nodes[Target(p)], cfg.ids[Source(p)];
            if ParseOrigin(SenderName(cfg, p)).Unreadable? then r == Reaction(n, []) && !p.up
            else
              && r.node == Forward(Learn(n, SenderName(cfg, p), who, unset, now), who.id, Decode(p.data).msg)
              && r.out == if p.up then [ViaRouter(who.id, Encode(HandshakeMessage(cfg.ids[Target(p)], now)))] else []
  {
    hide ParseOrigin, Decode, Encode, Learn;
    assert p.link in net.links && Honest(cfg, p);
    OwnHandshake(cfg, Source(p), now);
    KeyHasColon(cfg, p.link);
    NoColonNoOrigin(SenderName(cfg, p));
  }

  lemma ReceiveOther(cfg: Config, net: Net, p: Packet, unset: uint16, now: Ticks)
    requires Inv(cfg, net) && p in net.flight
    requires !IsHandshake(p.data) || !(p.up || p.link.key in net.nodes[Target(p)].dealers)
    ensures var r := Reacted(cfg, net, p, unset, now);
            r.node.(log := []) == net.nodes[Target(p)].(log := []) && r.out == []
  {
    hide ParseOrigin, Decode, Encode, Learn;
    assert p.link in net.links;
  }

  predicate Learns(cfg: Config, net: Net, p: Packet)
    requires |net.nodes| == |cfg.ids| && p.link.src < |cfg.ids| && Target(p) < |cfg.ids|
  {
    && IsHandshake(p.data) && (p.up || p.link.key in net.nodes[Target(p)].dealers)
    && !ParseOrigin(SenderName(cfg, p)).Unreadable?
  }

  predicate Fits(cfg: Config, net: Net, p: Packet, via: Link)
    requires p.link.src < |cfg.ids|
  {
    via in net.links && via.dst == p.link.dst && via.src < |cfg.ids| && cfg.ids[via.src].id == cfg.ids[p.link.src].id
  }

  /** What the target's node is after learning. */
  ghost predicate LearnedFrom(cfg: Config, p: Packet, n: Node, n': Node)
    requires p.link.src < |cfg.ids| && Source(p) < |cfg.ids|
  {
    var who, sender := cfg.ids[Source(p)], SenderName(cfg, p);
    && who.id in n'.peers
    && var e := n'.peers[who.id];
       && e.id == who.id && e.publicKey == who.publicKey && e.isConnected
       && n'.peers == n.peers[who.id := e] && n'.learned == n.learned[who.id := sender] && n'.dealers == n.dealers
       && (if p.up then e.address == [] else ParseOrigin(sender) == At(Endpoint(e.address, e.port)))
  }

  lemma DeliverSummary(cfg: Config, net: Net, i: nat, via: Link, unset: uint16, now: Ticks)
    requires WellFormed(cfg) && Inv(cfg, net) && i < |net.flight|
    ensures var p := net.flight[i];
            var t := Target(p);
            && p.link in net.links && GoodLink(cfg, p.link)
            && var net' := Delivered(cfg, net, i, via, unset, now);
            && net'.nodes == net.nodes[t := net'.nodes[t]] && net'.links == net.links && net'.dials == net.dials
            && (Learns(cfg, net, p) ==> LearnedFrom(cfg, p, net.nodes[t], net'.nodes[t]))
            && (!Learns(cfg, net, p) ==> net'.nodes[t].(log := []) == net.nodes[t].(log := []))
            && var replied := Learns(cfg, net, p) && p.up && Fits(cfg, net, p, via);
               net'.sent == net.sent + (if replied then 1 else 0) &&
               net'.flight == Without(net.flight, i) +
                 if replied then [Packet(via, false, Encode(HandshakeMessage(cfg.ids[t], now)))] else []
  {
    hide Decode, Encode, ParseOrigin, IsHandshake, Truth, RepliesAreLate, Honest, ParseHandshake, BuildHandshake;
    var p := net.flight[i];
    assert p in net.flight && p.link in net.links;
    if IsHandshake(p.data) && (p.up || p.link.key in net.nodes[Target(p)].dealers) {
      ReceiveHandshake(cfg, net, p, unset, now);
      KeyHasColon(cfg, p.link);
      NoColonNoOrigin(SenderName(cfg, p));
    } else {
      ReceiveOther(cfg, net, p, unset, now);
    }
  }

  lemma DistinctIds(cfg: Config, i: nat, j: nat)
    requires WellFormed(cfg) && i < |cfg.ids| && j < |cfg.ids| && cfg.ids[i].id == cfg.ids[j].id
    ensures i == j
  {
  }

  lemma FlightGrows(cfg: Config, net: Net, net': Net, q: Packet)
    requires GoodFlight(cfg, net) && net'.links == net.links
    requires q.link in net.links && Source(q) < |cfg.ids| && Honest(cfg, q)
    requires forall p :: p in net'.flight ==> p in net.flight || p == q
    ensures GoodFlight(cfg, net')
  {
    hide GoodLink, Honest;
  }

  lemma ReplyIsHonest(cfg: Config, net: Net, p: Packet, via: Link, now: Ticks)
    requires WellFormed(cfg) && GoodFlight(cfg, net) && p in net.flight && Fits(cfg, net, p, via)
    ensures Honest(cfg, Packet(via, false, Encode(HandshakeMessage(cfg.ids[p.link.dst], now))))
  {
    hide Encode, BuildHandshake;
    OwnHandshake(cfg, p.link.dst, now);
  }

  lemma DeliverKeepsFlight(cfg: Config, net: Net, i: nat, via: Link, unset: uint16, now: Ticks)
    requires WellFormed(cfg) && Inv(cfg, net) && i < |net.flight|
    ensures net.flight[i].link.src < |cfg.ids| && Target(net.flight[i]) < |cfg.ids|
    ensures GoodFlight(cfg, Delivered(cfg, net, i, via, unset, now))
  {
    hide Decode, Encode, ParseOrigin, IsHandshake, Truth, RepliesAreLate, LearnedFrom, WellFormed, Honest,
      Reacted, Routed;
    DeliverSummary(cfg, net, i, via, unset, now);
    var p, net' := net.flight[i], Delivered(cfg, net, i, via, unset, now);
    if Learns(cfg, net, p) && p.up && Fits(cfg, net, p, via) {
      ReplyIsHonest(cfg, net, p, via, now);
      FlightGrows(cfg, net, net', Packet(via, false, Encode(HandshakeMessage(cfg.ids[p.link.dst], now))));
    } else {
      FlightGrows(cfg, net, net', p);
    }
  }

  lemma TruthOfPair(cfg: Config, net: Net, i: nat, via: Link, unset: uint16, now: Ticks, a: nat, b: nat)
    requires WellFormed(cfg) && Inv(cfg, net) && i < |net.flight| && a < |cfg.ids| && b < |cfg.ids|
    ensures net.flight[i].link.src < |cfg.ids| && Target(net.flight[i]) < |cfg.ids|
    ensures Truthful(cfg, Delivered(cfg, net, i, via, unset, now), a, b)
  {
    hide Decode, Encode, ParseOrigin, IsHandshake, RepliesAreLate, Honest, Reacted, Routed, Truth;
    DeliverSummary(cfg, net, i, via, unset, now);
    assert Truthful(cfg, net, a, b) by { TruthAt(cfg, net, a, b); }
    var p := net.flight[i];
    KeyHasColon(cfg, p.link);
    if a == Target(p) && Learns(cfg, net, p) && cfg.ids[b].id == cfg.ids[Source(p)].id {
      DistinctIds(cfg, b, Source(p));
    }
  }

  lemma TruthAt(cfg: Config, net: Net, a: nat, b: nat)
    requires |net.nodes| == |cfg.ids| && Truth(cfg, net) && a < |cfg.ids| && b < |cfg.ids|
    ensures Truthful(cfg, net, a, b)
  {
  }

  lemma EntriesAreNodes(cfg: Config, net: Net, i: nat, via: Link, unset: uint16, now: Ticks, a: nat, id: Text)
    requires WellFormed(cfg) && Inv(cfg, net) && i < |net.flight| && a < |cfg.ids|
    ensures net.flight[i].link.src < |cfg.ids| && Target(net.flight[i]) < |cfg.ids|
    ensures id in Delivered(cfg, net, i, via, unset, now).nodes[a].peers ==> IsNode(cfg, id)
  {
    hide Decode, Encode, ParseOrigin, IsHandshake, RepliesAreLate, Honest, Reacted, Routed, Truthful;
    DeliverSummary(cfg, net, i, via, unset, now);
    assert id in Delivered(cfg, net, i, via, unset, now).nodes[a].peers && id !in net.nodes[a].peers ==>
      id == cfg.ids[Source(net.flight[i])].id;
  }

  lemma DeliverKeepsTruth(cfg: Config, net: Net, i: nat, via: Link, unset: uint16, now: Ticks)
    requires WellFormed(cfg) && Inv(cfg, net) && i < |net.flight|
    ensures net.flight[i].link.src < |cfg.ids| && Target(net.flight[i]) < |cfg.ids|
    ensures Truth(cfg, Delivered(cfg, net, i, via, unset, now))
  {
    hide Decode, Encode, ParseOrigin, IsHandshake, RepliesAreLate, Honest, Delivered, Truthful, IsNode;
    DeliverSummary(cfg, net, i, via, unset, now);
    var net' := Delivered(cfg, net, i, via, unset, now);
    forall a, b | 0 <= a < |cfg.ids| && 0 <= b < |cfg.ids| ensures Truthful(cfg, net', a, b) {
      TruthOfPair(cfg, net, i, via, unset, now, a, b);
    }
    forall a, id | 0 <= a < |cfg.ids| && id in net'.nodes[a].peers ensures IsNode(cfg, id) {
      EntriesAreNodes(cfg, net, i, via, unset, now, a, id);
    }
  }

  lemma RepliesInFlight(cfg: Config, net: Net, i: nat, via: Link, unset: uint16, now: Ticks, q: Packet)
    requires WellFormed(cfg) && Inv(cfg, net) && i < |net.flight|
    ensures net.flight[i].link.src < |cfg.ids| && Target(net.flight[i]) < |cfg.ids|
    ensures var net' := Delivered(cfg, net, i, via, unset, now);
            q in net'.flight && !q.up && IsHandshake(q.data) ==>
              q.link.src < |cfg.ids| && q.link.dst < |cfg.ids| && Knows(cfg, net', q.link.dst, q.link.src)
  {
    hide Decode, Encode, ParseOrigin, IsHandshake, Honest, Reacted, Routed, Truth;
    DeliverSummary(cfg, net, i, via, unset, now);
    var p, net' := net.flight[i], Delivered(cfg, net, i, via, unset, now);
    if q in net'.flight && !q.up && IsHandshake(q.data) && q !in net.flight {
      DistinctIds(cfg, via.src, p.link.src);
    }
  }

  lemma DialledLate(cfg: Config, net: Net, i: nat, via: Link, unset: uint16, now: Ticks, a: nat, b: nat)
    requires WellFormed(cfg) && Inv(cfg, net) && i < |net.flight| && a < |cfg.ids| && b < |cfg.ids|
    ensures net.flight[i].link.src < |cfg.ids| && Target(net.flight[i]) < |cfg.ids|
    ensures var net' := Delivered(cfg, net, i, via, unset, now);
            LearnedByDialling(cfg, net', a, b) ==> Knows(cfg, net', b, a)
  {
    hide Decode, Encode, ParseOrigin, IsHandshake, Honest, Reacted, Routed, Truth;
    DeliverSummary(cfg, net, i, via, unset, now);
    var p, net' := net.flight[i], Delivered(cfg, net, i, via, unset, now);
    if LearnedByDialling(cfg, net', a, b) && !LearnedByDialling(cfg, net, a, b) {
      assert a == Target(p) && cfg.ids[b].id == cfg.ids[Source(p)].id;
      DistinctIds(cfg, b, Source(p));
      assert p in net.flight && !p.up;
    }
  }

  lemma DeliverKeepsReplies(cfg: Config, net: Net, i: nat, via: Link, unset: uint16, now: Ticks)
    requires WellFormed(cfg) && Inv(cfg, net) && i < |net.flight|
    ensures net.flight[i].link.src < |cfg.ids| && Target(net.flight[i]) < |cfg.ids|
    ensures var net' := Delivered(cfg, net, i, via, unset, now);
            GoodFlight(cfg, net') && RepliesAreLate(cfg, net')
  {
    hide Decode, Encode, ParseOrigin, IsHandshake, Honest, Reacted, Routed, Delivered, Truth, Knows, LearnedByDialling;
    DeliverSummary(cfg, net, i, via, unset, now);
    DeliverKeepsFlight(cfg, net, i, via, unset, now);
    var net' := Delivered(cfg, net, i, via, unset, now);
    forall q | q in net'.flight && !q.up && IsHandshake(q.data) ensures Knows(cfg, net', q.link.dst, q.link.src) {
      RepliesInFlight(cfg, net, i, via, unset, now, q);
    }
    forall a, b | 0 <= a < |cfg.ids| && 0 <= b < |cfg.ids| && LearnedByDialling(cfg, net', a, b)
      ensures Knows(cfg, net', b, a)
    {
      DialledLate(cfg, net, i, via, unset, now, a, b);
    }
  }

  lemma DeliverKeepsInv(cfg: Config, net: Net, i: nat, via: Link, unset: uint16, now: Ticks)
    requires WellFormed(cfg) && Inv(cfg, net) && i < |net.flight|
    ensures net.flight[i].link.src < |cfg.ids| && Target(net.flight[i]) < |cfg.ids|
    ensures Inv(cfg, Delivered(cfg, net, i, via, unset, now))
  {
    DeliverSummary(cfg, net, i, via, unset, now);
    DeliverKeepsFlight(cfg, net, i, via, unset, now);
    DeliverKeepsTruth(cfg, net, i, via, unset, now);
    DeliverKeepsReplies(cfg, net, i, via, unset, now);
    hide Decode, Encode, ParseOrigin, IsHandshake, Delivered, GoodFlight, Truth, RepliesAreLate;
  }

  lemma DialKeepsFlight(cfg: Config, net: Net, a: nat, at: Endpoint, now: Ticks)
    requires |net.nodes| == |cfg.ids| && GoodFlight(cfg, net) && a < |cfg.ids|
    requires |cfg.ids[a].id| < 0x1_0000 && 2 + |cfg.ids[a].id| + |cfg.ids[a].publicKey| < TWO32
    ensures GoodFlight(cfg, DialStep(cfg, net, a, at, now))
  {
    hide Decode, Encode, ParseOrigin, PeerKey, IsHandshake, BuildHandshake;
    HandshakeSurvives(cfg.ids[a], now);
  }

  lemma DialKeepsInv(cfg: Config, net: Net, a: nat, at: Endpoint, now: Ticks)
    requires WellFormed(cfg) && Inv(cfg, net) && a < |cfg.ids|
    ensures Inv(cfg, DialStep(cfg, net, a, at, now))
  {
    hide Decode, Encode, ParseOrigin, IsHandshake, PeerKey, Honest;
    var net' := DialStep(cfg, net, a, at, now);
    DialKeepsFlight(cfg, net, a, at, now);
    OriginOfKey(at);
    forall x, y | 0 <= x < |cfg.ids| && 0 <= y < |cfg.ids| ensures Truthful(cfg, net', x, y) {
      assert Truthful(cfg, net, x, y);
    }
    assert forall x, y :: 0 <= x < |cfg.ids| && 0 <= y < |cfg.ids| ==>
      LearnedByDialling(cfg, net', x, y) == LearnedByDialling(cfg, net, x, y) &&
      Knows(cfg, net', x, y) == Knows(cfg, net, x, y);
  }

  /** DisconnectPeer drops a dealer and touches no peer: its key has a colon. */
  lemma HangUpKeepsPeers(cfg: Config, net: Net, a: nat, key: Text, now: Ticks)
    requires WellFormed(cfg) && Inv(cfg, net) && a < |cfg.ids|
    ensures HungUp(net.nodes[a], key, now) == net.nodes[a].(dealers := net.nodes[a].dealers - {key})
  {
    assert key in net.nodes[a].peers ==> IsNode(cfg, key);
    assert IsNode(cfg, key) ==> COLON !in key;
    assert key !in net.nodes[a].dealers ==> net.nodes[a].dealers - {key} == net.nodes[a].dealers;
  }

  lemma HangUpKeepsInv(cfg: Config, net: Net, a: nat, key: Text, now: Ticks)
    requires WellFormed(cfg) && Inv(cfg, net) && a < |cfg.ids|
    ensures Inv(cfg, Next(cfg, net, HangUp(a, key, now)))
  {
    hide Decode, ParseOrigin, IsHandshake, HungUp;
    HangUpKeepsPeers(cfg, net, a, key, now);
    var net' := Next(cfg, net, HangUp(a, key, now));
    forall x, y | 0 <= x < |cfg.ids| && 0 <= y < |cfg.ids| ensures Truthful(cfg, net', x, y) {
      assert Truthful(cfg, net, x, y);
    }
    assert forall x, y :: 0 <= x < |cfg.ids| && 0 <= y < |cfg.ids| ==>
      LearnedByDialling(cfg, net', x, y) == LearnedByDialling(cfg, net, x, y) &&
      Knows(cfg, net', x, y) == Knows(cfg, net, x, y);
  }

  lemma TrafficKeepsInv(cfg: Config, net: Net, flight: seq<Packet>)
    requires Inv(cfg, net)
    requires forall p :: p in flight ==> p in net.flight || (p.link in net.links && !IsHandshake(p.data))
    ensures Inv(cfg, net.(flight := flight))
  {
    hide Decode, ParseOrigin, IsHandshake;
    var net' := net.(flight := flight);
    forall x, y | 0 <= x < |cfg.ids| && 0 <= y < |cfg.ids| ensures Truthful(cfg, net', x, y) {
      assert Truthful(cfg, net, x, y);
    }
    assert forall x, y :: 0 <= x < |cfg.ids| && 0 <= y < |cfg.ids| ==>
      LearnedByDialling(cfg, net', x, y) == LearnedByDialling(cfg, net, x, y) &&
      Knows(cfg, net', x, y) == Knows(cfg, net, x, y);
  }

  lemma NextKeepsInv(cfg: Config, net: Net, st: Step)
    requires WellFormed(cfg) && Inv(cfg, net)
    ensures Inv(cfg, Next(cfg, net, st))
  {
    hide Inv, Delivered, DialStep, HungUp, IsHandshake;
    match st
    case Dial(a, at, now) => if a < |cfg.ids| { DialKeepsInv(cfg, net, a, at, now); }
    case Deliver(i, via, unset, now) => if i < |net.flight| { DeliverKeepsInv(cfg, net, i, via, unset, now); }
    case Lose(i) => if i < |net.flight| { TrafficKeepsInv(cfg, net, Without(net.flight, i)); }
    case HangUp(a, key, now) => if a < |cfg.ids| { HangUpKeepsInv(cfg, net, a, key, now); }
    case Chat(p) => if p.link in net.links && IsChat(p.data) { TrafficKeepsInv(cfg, net, net.flight + [p]); }
  }

  lemma {:induction false} RunKeepsInv(cfg: Config, net: Net, steps: seq<Step>)
    requires WellFormed(cfg) && Inv(cfg, net)
    ensures Inv(cfg, Run(cfg, net, steps))
    decreases steps
  {
    hide Next;
    if steps != [] {
      NextKeepsInv(cfg, net, steps[0]);
      RunKeepsInv(cfg, Next(cfg, net, steps[0]), steps[1..]);
    }
  }

  lemma Reachable(cfg: Config, steps: seq<Step>)
    requires WellFormed(cfg)
    ensures Inv(cfg, Run(cfg, Initial(cfg), steps))
  {
    RunKeepsInv(cfg, Initial(cfg), steps);
  }

  /** Links are dials: each comes from a Dial step of the run, at the endpoint where its
      target listens. A key names one endpoint only, so that endpoint is unique. */
  ghost predicate DialledAt(cfg: Config, steps: seq<Step>, l: Link, at: Endpoint) {
    && at in cfg.listens && cfg.listens[at] == l.dst && l.key == PeerKey(at)
    && exists now :: Dial(l.src, at, now) in steps
  }

  lemma {:induction false} LinksAreDials(cfg: Config, net: Net, steps: seq<Step>, l: Link)
    requires |net.nodes| == |cfg.ids| && l in Run(cfg, net, steps).links && l !in net.links
    ensures exists at :: DialledAt(cfg, steps, l, at)
    decreases steps
  {
    hide PeerKey, Reacted, Routed, HungUp, IsChat;
    var st, rest := steps[0], steps[1..];
    var next := Next(cfg, net, st);
    assert steps == [st] + rest;
    if l in next.links {
      assert st in steps;
      assert DialledAt(cfg, steps, l, st.at);
    } else {
      LinksAreDials(cfg, next, rest, l);
      var at :| DialledAt(cfg, rest, l, at);
      var now :| Dial(l.src, at, now) in rest;
      assert Dial(l.src, at, now) in steps;
      assert DialledAt(cfg, steps, l, at);
    }
  }

  /** The entry that node `a` holds for node `b` after a run. */
  ghost predicate EntryIsTrue(cfg: Config, steps: seq<Step>, n: Node, a: nat, b: nat)
    requires b < |cfg.ids| && cfg.ids[b].id in n.peers
  {
    var id := cfg.ids[b].id;
    var e := n.peers[id];
    && e.id == id && e.publicKey == cfg.ids[b].publicKey && id in n.learned
    && (n.learned[id] == id ==> e.address == [])
    && (n.learned[id] != id ==> exists at :: LearnedAt(cfg, steps, Link(a, n.learned[id], b), e, at))
  }

  ghost predicate LearnedAt(cfg: Config, steps: seq<Step>, l: Link, e: PeerInfo, at: Endpoint) {
    && DialledAt(cfg, steps, l, at)
    && ParseOrigin(l.key) == At(Endpoint(e.address, e.port))
    && (COLON !in at.address ==> Endpoint(e.address, e.port) == at)
  }

  /** Peer table truth: in every run, an entry sits under its own id, belongs to a node,
      and has that node's real key; and if it was learned over a dealer, this node dialled
      it, at an endpoint where it listens. When the dialled address has no colon, the entry
      carries exactly the dialled endpoint. One learned over the router has no address. */
  lemma PeerTableTruth(cfg: Config, steps: seq<Step>, a: nat, id: Text)
    requires WellFormed(cfg) && a < |cfg.ids|
    ensures var n := Run(cfg, Initial(cfg), steps).nodes[a];
            id in n.peers ==> exists b: nat :: b < |cfg.ids| && cfg.ids[b].id == id && EntryIsTrue(cfg, steps, n, a, b)
  {
    Reachable(cfg, steps);
    var net := Run(cfg, Initial(cfg), steps);
    var n := net.nodes[a];
    hide Run, PeerKey, ParseOrigin, GoodFlight, RepliesAreLate;
    if id in n.peers {
      assert IsNode(cfg, id);
      var b :| 0 <= b < |cfg.ids| && cfg.ids[b].id == id;
      assert Truthful(cfg, net, a, b);
      if n.learned[id] != id {
        var l := Link(a, n.learned[id], b);
        LinksAreDials(cfg, Initial(cfg), steps, l);
        var at :| DialledAt(cfg, steps, l, at);
        OriginOfKey(at);
        assert LearnedAt(cfg, steps, l, n.peers[id], at);
      }
    }
  }

  /** Handshake ordering, whatever is lost or reordered: if `a` learned `b` by dialling,
      then `b` already has an entry for `a`, with a's true key. */
  lemma HandshakeOrder(cfg: Config, steps: seq<Step>, a: nat, b: nat)
    requires WellFormed(cfg) && a < |cfg.ids| && b < |cfg.ids|
    ensures var net := Run(cfg, Initial(cfg), steps);
            LearnedByDialling(cfg, net, a, b) ==>
              Knows(cfg, net, b, a) && net.nodes[b].peers[cfg.ids[a].id].publicKey == cfg.ids[a].publicKey
  {
    Reachable(cfg, steps);
    var net := Run(cfg, Initial(cfg), steps);
    hide Run, GoodFlight, ParseOrigin;
    if LearnedByDialling(cfg, net, a, b) {
      assert Knows(cfg, net, b, a);
      assert Truthful(cfg, net, b, a);
    }
  }

  /** Dealers are never found under a peer id: sending to a peer id over a dealer, or
      disconnecting one, does nothing in any reachable state. */
  lemma IdsNameNoDealer(cfg: Config, steps: seq<Step>, a: nat, b: nat, now: Ticks)
    requires WellFormed(cfg) && a < |cfg.ids| && b < |cfg.ids|
    ensures var n := Run(cfg, Initial(cfg), steps).nodes[a];
            cfg.ids[b].id !in n.dealers && HungUp(n, cfg.ids[b].id, now) == n
  {
    Reachable(cfg, steps);
  }
}
