/** Lossless runs of the handshake: when nothing is in flight, who knows whom. */
module Quiescence {
  import opened Bytes
  import opened Codec
  import opened PeerStore
  import opened Nodes
  import opened Protocol
  import opened Termination

  /** Nothing is lost, no dealer is dropped, and a reply goes back over the link that its
      handshake came by. */
  predicate LosslessStep(net: Net, st: Step) {
    match st
    case Lose(_) => false
    case HangUp(_, _, _) => false
    case Deliver(i, via, _, _) => i < |net.flight| ==> via == net.flight[i].link
    case _ => true
  }

  predicate Lossless(cfg: Config, net: Net, steps: seq<Step>)
    requires |net.nodes| == |cfg.ids|
    decreases steps
  {
    steps != [] ==> LosslessStep(net, steps[0]) && Lossless(cfg, Next(cfg, net, steps[0]), steps[1..])
  }

  predicate Connected(cfg: Config, net: Net, a: nat, b: nat)
    requires |net.nodes| == |cfg.ids| && a < |cfg.ids| && b < |cfg.ids|
  {
    Knows(cfg, net, a, b) && net.nodes[a].peers[cfg.ids[b].id].isConnected
  }

  /** HandleMessage can read an address from the key of this link. */
  predicate Readable(l: Link) {
    !ParseOrigin(l.key).Unreadable?
  }

  ghost predicate Underway(net: Net, l: Link, up: bool) {
    exists p :: p in net.flight && p.link == l && p.up == up && IsHandshake(p.data)
  }

  /** How far the handshake of a link has come. */
  ghost predicate Progress(cfg: Config, net: Net, l: Link)
    requires |net.nodes| == |cfg.ids| && l.src < |cfg.ids| && l.dst < |cfg.ids|
  {
    || Underway(net, l, true)
    || (Connected(cfg, net, l.dst, l.src) &&
        (Readable(l) ==> Connected(cfg, net, l.src, l.dst) || Underway(net, l, false)))
  }

  /** A way for `a` to learn `b`: b dialled a, or a dialled b under a readable key. */
  predicate Teaches(a: nat, b: nat, l: Link) {
    (l.src == b && l.dst == a) || (l.src == a && l.dst == b && Readable(l))
  }

  ghost predicate LinksProgress(cfg: Config, net: Net) {
    && |net.nodes| == |cfg.ids|
    && forall l :: l in net.links ==>
         && l.src < |cfg.ids| && l.dst < |cfg.ids| && l.key in net.nodes[l.src].dealers && Progress(cfg, net, l)
  }

  ghost predicate KnownByLink(cfg: Config, net: Net) {
    && |net.nodes| == |cfg.ids|
    && forall a, b :: 0 <= a < |cfg.ids| && 0 <= b < |cfg.ids| && Knows(cfg, net, a, b) ==>
         exists l :: l in net.links && Teaches(a, b, l)
  }

  lemma DialProgress(cfg: Config, net: Net, a: nat, at: Endpoint, now: Ticks)
    requires WellFormed(cfg) && LinksProgress(cfg, net) && KnownByLink(cfg, net) && a < |cfg.ids|
    ensures LinksProgress(cfg, DialStep(cfg, net, a, at, now)) && KnownByLink(cfg, DialStep(cfg, net, a, at, now))
  {
    hide Decode, Encode, ParseOrigin, IsHandshake, PeerKey;
    OwnHandshake(cfg, a, now);
    var net' := DialStep(cfg, net, a, at, now);
    forall l | l in net'.links
      ensures l.src < |cfg.ids| && l.dst < |cfg.ids| && l.key in net'.nodes[l.src].dealers && Progress(cfg, net', l)
    {
      if l in net.links {
        StillUnderway(net, net', l);
      } else {
        assert net'.flight[|net.flight|] in net'.flight;
        assert Underway(net', l, true);
      }
    }
    assert forall x, y :: 0 <= x < |cfg.ids| && 0 <= y < |cfg.ids| ==> Knows(cfg, net', x, y) == Knows(cfg, net, x, y);
  }

  lemma StillUnderway(net: Net, net': Net, l: Link)
    requires forall p :: p in net.flight && p.link == l && IsHandshake(p.data) ==> p in net'.flight
    ensures Underway(net, l, true) ==> Underway(net', l, true)
    ensures Underway(net, l, false) ==> Underway(net', l, false)
  {
    hide IsHandshake;
  }

  lemma DeliverProgress(cfg: Config, net: Net, i: nat, unset: uint16, now: Ticks)
    requires WellFormed(cfg) && Inv(cfg, net) && LinksProgress(cfg, net) && i < |net.flight|
    ensures net.flight[i].link.src < |cfg.ids| && Target(net.flight[i]) < |cfg.ids|
    ensures LinksProgress(cfg, Delivered(cfg, net, i, net.flight[i].link, unset, now))
  {
    hide Decode, Encode, ParseOrigin, IsHandshake, Truth, RepliesAreLate, GoodLink, Honest, Reacted, Routed, Progress;
    var p := net.flight[i];
    DeliverSummary(cfg, net, i, p.link, unset, now);
    var net' := Delivered(cfg, net, i, p.link, unset, now);
    forall l | l in net'.links
      ensures l.src < |cfg.ids| && l.dst < |cfg.ids| && l.key in net'.nodes[l.src].dealers && Progress(cfg, net', l)
    {
      LinkProgress(cfg, net, i, unset, now, l);
    }
  }

  lemma KeepsConnected(cfg: Config, net: Net, i: nat, via: Link, unset: uint16, now: Ticks, a: nat, b: nat)
    requires WellFormed(cfg) && Inv(cfg, net) && i < |net.flight| && a < |cfg.ids| && b < |cfg.ids|
    requires Connected(cfg, net, a, b)
    ensures net.flight[i].link.src < |cfg.ids| && Target(net.flight[i]) < |cfg.ids|
    ensures Connected(cfg, Delivered(cfg, net, i, via, unset, now), a, b)
  {
    hide Decode, Encode, ParseOrigin, IsHandshake, Truth, RepliesAreLate, Honest, Reacted, Routed;
    DeliverSummary(cfg, net, i, via, unset, now);
  }

  lemma UpReadable(cfg: Config, net: Net, p: Packet)
    requires WellFormed(cfg) && p.link.src < |cfg.ids| && p.up
    ensures ParseOrigin(SenderName(cfg, p)) == Nowhere
  {
    NoColonNoOrigin(SenderName(cfg, p));
  }

  lemma LinkProgress(cfg: Config, net: Net, i: nat, unset: uint16, now: Ticks, l: Link)
    requires WellFormed(cfg) && Inv(cfg, net) && LinksProgress(cfg, net) && i < |net.flight| && l in net.links
    ensures net.flight[i].link.src < |cfg.ids| && Target(net.flight[i]) < |cfg.ids|
    ensures Progress(cfg, Delivered(cfg, net, i, net.flight[i].link, unset, now), l)
  {
    hide Decode, Encode, ParseOrigin, IsHandshake, Truth, RepliesAreLate, GoodLink, Honest, Reacted, Routed,
      DealerKeysHaveColons;
    var p := net.flight[i];
    DeliverSummary(cfg, net, i, p.link, unset, now);
    var net' := Delivered(cfg, net, i, p.link, unset, now);
    if Connected(cfg, net, l.dst, l.src) {
      KeepsConnected(cfg, net, i, p.link, unset, now, l.dst, l.src);
    }
    if Connected(cfg, net, l.src, l.dst) {
      KeepsConnected(cfg, net, i, p.link, unset, now, l.src, l.dst);
    }
    if p.link != l || !IsHandshake(p.data) {
      StillUnderway(net, net', l);
    } else if p.up {
      UpReadable(cfg, net, p);
      assert Learns(cfg, net, p);
      OwnHandshake(cfg, l.dst, now);
      var reply := Packet(l, false, Encode(HandshakeMessage(cfg.ids[l.dst], now)));
      assert reply in net'.flight;
      assert Underway(net', l, false);
    } else {
      assert Readable(l) ==> Learns(cfg, net, p);
      if Underway(net, l, true) {
        assert Underway(net', l, true) by {
          var q :| q in net.flight && q.link == l && q.up && IsHandshake(q.data);
          assert q in net'.flight;
        }
      }
    }
  }

  lemma DeliverKnownByLink(cfg: Config, net: Net, i: nat, via: Link, unset: uint16, now: Ticks)
    requires WellFormed(cfg) && Inv(cfg, net) && KnownByLink(cfg, net) && i < |net.flight|
    ensures net.flight[i].link.src < |cfg.ids| && Target(net.flight[i]) < |cfg.ids|
    ensures KnownByLink(cfg, Delivered(cfg, net, i, via, unset, now))
  {
    hide Decode, Encode, ParseOrigin, IsHandshake, Truth, RepliesAreLate, Honest, Reacted, Routed;
    var p := net.flight[i];
    DeliverSummary(cfg, net, i, via, unset, now);
    var net' := Delivered(cfg, net, i, via, unset, now);
    forall a, b | 0 <= a < |cfg.ids| && 0 <= b < |cfg.ids| && Knows(cfg, net', a, b)
      ensures exists l :: l in net'.links && Teaches(a, b, l)
    {
      if Knows(cfg, net, a, b) {
        var l :| l in net.links && Teaches(a, b, l);
        assert l in net'.links;
      } else {
        DistinctIds(cfg, b, Source(p));
        assert Teaches(a, b, p.link);
      }
    }
  }

  lemma NextProgress(cfg: Config, net: Net, st: Step)
    requires WellFormed(cfg) && Inv(cfg, net) && LinksProgress(cfg, net) && KnownByLink(cfg, net)
    requires LosslessStep(net, st)
    ensures LinksProgress(cfg, Next(cfg, net, st)) && KnownByLink(cfg, Next(cfg, net, st))
  {
    hide Inv, Delivered, DialStep, HungUp, IsHandshake;
    match st
    case Dial(a, at, now) => if a < |cfg.ids| { DialProgress(cfg, net, a, at, now); }
    case Deliver(i, via, unset, now) =>
      if i < |net.flight| {
        DeliverProgress(cfg, net, i, unset, now);
        DeliverKnownByLink(cfg, net, i, via, unset, now);
      }
    case Chat(p) =>
      if p.link in net.links && IsChat(p.data) {
        ChatProgress(cfg, net, p);
      }
    case _ =>
  }

  lemma ChatProgress(cfg: Config, net: Net, p: Packet)
    requires LinksProgress(cfg, net) && KnownByLink(cfg, net)
    ensures var net' := net.(flight := net.flight + [p]); LinksProgress(cfg, net') && KnownByLink(cfg, net')
  {
    hide IsHandshake, ParseOrigin;
    var net' := net.(flight := net.flight + [p]);
    forall l | l in net'.links
      ensures l.src < |cfg.ids| && l.dst < |cfg.ids| && l.key in net'.nodes[l.src].dealers && Progress(cfg, net', l)
    {
      StillUnderway(net, net', l);
    }
    assert forall x, y :: 0 <= x < |cfg.ids| && 0 <= y < |cfg.ids| ==> Knows(cfg, net', x, y) == Knows(cfg, net, x, y);
  }

  lemma {:induction false} RunProgress(cfg: Config, net: Net, steps: seq<Step>)
    requires WellFormed(cfg) && Inv(cfg, net) && LinksProgress(cfg, net) && KnownByLink(cfg, net)
    requires Lossless(cfg, net, steps)
    ensures LinksProgress(cfg, Run(cfg, net, steps)) && KnownByLink(cfg, Run(cfg, net, steps))
    decreases steps
  {
    hide Next, GoodFlight, Truth, RepliesAreLate, LosslessStep;
    if steps != [] {
      NextKeepsInv(cfg, net, steps[0]);
      NextProgress(cfg, net, steps[0]);
      RunProgress(cfg, Next(cfg, net, steps[0]), steps[1..]);
    }
  }

  predicate Quiet(net: Net) {
    forall p :: p in net.flight ==> !IsHandshake(p.data)
  }

  /** Quiescence means mutual knowledge. In every lossless run of any number of nodes,
      whenever no handshake is in flight, the peer tables are exactly the dials: `a` shows
      `b` as connected if and only if b dialled a, or a dialled b under a key whose
      address can be read. */
  lemma QuiescenceMeansKnowledge(cfg: Config, steps: seq<Step>, a: nat, b: nat)
    requires WellFormed(cfg) && Lossless(cfg, Initial(cfg), steps) && a < |cfg.ids| && b < |cfg.ids|
    requires Quiet(Run(cfg, Initial(cfg), steps))
    ensures var net := Run(cfg, Initial(cfg), steps);
            Connected(cfg, net, a, b) <==> exists l :: l in net.links && Teaches(a, b, l)
  {
    Reachable(cfg, []);
    RunProgress(cfg, Initial(cfg), steps);
    hide Run, IsHandshake, ParseOrigin;
    var net := Run(cfg, Initial(cfg), steps);
    if l :| l in net.links && Teaches(a, b, l) {
      assert Progress(cfg, net, l);
    }
  }

  lemma {:induction false} LinksStay(cfg: Config, net: Net, steps: seq<Step>)
    requires |net.nodes| == |cfg.ids|
    ensures net.links <= Run(cfg, net, steps).links
    decreases steps
  {
    if steps != [] {
      LinksStay(cfg, Next(cfg, net, steps[0]), steps[1..]);
    }
  }

  lemma {:induction false} DialsAreLinks(cfg: Config, net: Net, steps: seq<Step>, a: nat, at: Endpoint, now: Ticks)
    requires |net.nodes| == |cfg.ids| && Dial(a, at, now) in steps
    requires a < |cfg.ids| && at in cfg.listens && cfg.listens[at] < |cfg.ids|
    ensures Link(a, PeerKey(at), cfg.listens[at]) in Run(cfg, net, steps).links
    decreases steps
  {
    var next := Next(cfg, net, steps[0]);
    if steps[0] == Dial(a, at, now) {
      LinksStay(cfg, next, steps[1..]);
    } else {
      DialsAreLinks(cfg, next, steps[1..], a, at, now);
    }
  }

  /** In particular every dial to an address without a colon has left both ends connected
      in each other's table. */
  lemma DialsAreMutual(cfg: Config, steps: seq<Step>, a: nat, at: Endpoint, now: Ticks)
    requires WellFormed(cfg) && Dial(a, at, now) in steps && a < |cfg.ids| && COLON !in at.address
    requires at in cfg.listens && cfg.listens[at] < |cfg.ids|
    ensures var net, b := Run(cfg, Initial(cfg), steps), cfg.listens[at];
            Lossless(cfg, Initial(cfg), steps) && Quiet(net) ==>
              Connected(cfg, net, a, b) && Connected(cfg, net, b, a)
  {
    hide Run, PeerKey, ParseOrigin, IsHandshake, Lossless;
    var b := cfg.listens[at];
    var l := Link(a, PeerKey(at), b);
    DialsAreLinks(cfg, Initial(cfg), steps, a, at, now);
    OriginOfKey(at);
    assert Teaches(a, b, l) && Teaches(b, a, l);
    if Lossless(cfg, Initial(cfg), steps) && Quiet(Run(cfg, Initial(cfg), steps)) {
      QuiescenceMeansKnowledge(cfg, steps, a, b);
      QuiescenceMeansKnowledge(cfg, steps, b, a);
    }
  }

  // ---- Quiescence is reached

  predicate OnlyDeliveries(steps: seq<Step>) {
    forall st :: st in steps ==> st.Deliver?
  }

  /** Delivering what is in flight reaches quiescence, in at most as many steps as the
      measure allows. */
  lemma {:induction false} QuietIsReached(cfg: Config, net: Net, now: Ticks) returns (more: seq<Step>)
    requires Sized(cfg) && Flying(cfg, net) && (forall at :: !NamedByKey(cfg, at))
    ensures OnlyDeliveries(more) && Lossless(cfg, net, more)
    ensures Quiet(Run(cfg, net, more)) && |more| <= Measure(net)
    decreases Measure(net)
  {
    hide IsHandshake, Delivered, GoodFlight, Measure, NamedByKey, Sized;
    if p :| p in net.flight && IsHandshake(p.data) {
      var i :| 0 <= i < |net.flight| && net.flight[i] == p;
      var st := Deliver(i, p.link, 0, now);
      DeliverMeasure(cfg, net, i, p.link, 0, now);
      DeliverFlight(cfg, net, i, p.link, 0, now);
      var rest := QuietIsReached(cfg, Next(cfg, net, st), now);
      more := [st] + rest;
      assert more[1..] == rest;
    } else {
      more := [];
    }
  }

  lemma {:induction false} RunThen(cfg: Config, net: Net, steps: seq<Step>, more: seq<Step>)
    requires |net.nodes| == |cfg.ids|
    ensures Run(cfg, net, steps + more) == Run(cfg, Run(cfg, net, steps), more)
    ensures Lossless(cfg, net, steps + more) <==>
            Lossless(cfg, net, steps) && Lossless(cfg, Run(cfg, net, steps), more)
    decreases steps
  {
    hide Next, LosslessStep;
    if steps == [] {
      assert steps + more == more;
    } else {
      NextKeepsSize(cfg, net, steps[0]);
      assert (steps + more)[1..] == steps[1..] + more;
      RunThen(cfg, Next(cfg, net, steps[0]), steps[1..], more);
    }
  }

  /** Every dial becomes mutual: any lossless run can be continued, by deliveries alone and
      by at most two for each dial so far, to one after which every node that was dialled
      at an address without a colon and the node that dialled it show each other as
      connected. */
  lemma DialsBecomeMutual(cfg: Config, steps: seq<Step>, now: Ticks) returns (more: seq<Step>)
    requires WellFormed(cfg) && Lossless(cfg, Initial(cfg), steps)
    ensures OnlyDeliveries(more) && |more| <= 2 * Run(cfg, Initial(cfg), steps).dials
    ensures Lossless(cfg, Initial(cfg), steps + more) && Quiet(Run(cfg, Initial(cfg), steps + more))
    ensures forall a: nat, at: Endpoint, t: Ticks ::
              Dial(a, at, t) in steps && a < |cfg.ids| && COLON !in at.address
              && at in cfg.listens && cfg.listens[at] < |cfg.ids| ==>
                var net, b := Run(cfg, Initial(cfg), steps + more), cfg.listens[at];
                Connected(cfg, net, a, b) && Connected(cfg, net, b, a)
  {
    var net := Run(cfg, Initial(cfg), steps);
    NobodyNamedByKey(cfg);
    Reachable(cfg, steps);
    HandshakesDieOut(cfg, steps);
    assert Measure(net) <= 2 * net.dials;
    hide Run, Lossless, Quiet, Inv, WellFormed, Measure, ConsumedIn, Connected;
    more := QuietIsReached(cfg, net, now);
    RunThen(cfg, Initial(cfg), steps, more);
    forall a: nat, at: Endpoint, t: Ticks |
        Dial(a, at, t) in steps && a < |cfg.ids| && COLON !in at.address
        && at in cfg.listens && cfg.listens[at] < |cfg.ids|
      ensures var end, b := Run(cfg, Initial(cfg), steps + more), cfg.listens[at];
              Connected(cfg, end, a, b) && Connected(cfg, end, b, a)
    {
      DialsAreMutual(cfg, steps + more, a, at, t);
    }
  }

  lemma ThreeSteps(cfg: Config, net: Net, x: Step, y: Step, z: Step)
    requires |net.nodes| == |cfg.ids|
    ensures var n1 := Next(cfg, net, x);
            |n1.nodes| == |cfg.ids| && var n2 := Next(cfg, n1, y);
            |n2.nodes| == |cfg.ids| && Run(cfg, net, [x, y, z]) == Next(cfg, n2, z)
            && (Lossless(cfg, net, [x, y, z]) <==> LosslessStep(net, x) && LosslessStep(n1, y) && LosslessStep(n2, z))
  {
    NextKeepsSize(cfg, net, x);
    var n1 := Next(cfg, net, x);
    NextKeepsSize(cfg, n1, y);
    var n2 := Next(cfg, n1, y);
    NextKeepsSize(cfg, n2, z);
    hide Next, LosslessStep;
    assert [x, y, z][1..] == [y, z] && [y, z][1..] == [z] && [z][1..] == [];
    var n3 := Next(cfg, n2, z);
    assert Run(cfg, n3, []) == n3 && Lossless(cfg, n3, []);
    assert Run(cfg, n2, [z]) == n3 && (Lossless(cfg, n2, [z]) <==> LosslessStep(n2, z));
    assert Run(cfg, n1, [y, z]) == n3;
    assert Lossless(cfg, n1, [y, z]) <==> LosslessStep(n1, y) && LosslessStep(n2, z);
  }

  lemma NextKeepsSize(cfg: Config, net: Net, st: Step)
    requires |net.nodes| == |cfg.ids|
    ensures |Next(cfg, net, st).nodes| == |cfg.ids|
  {
  }

  /** The condition on the key is needed: after a dial to an address that starts with two
      colons, and the delivery of all it causes, the dialled node shows the dialling one
      as connected, but not the other way round. */
  lemma UnreadableDialIsOneSided(cfg: Config, at: Endpoint, now: Ticks)
    requires WellFormed(cfg) && |cfg.ids| == 2 && cfg.listens == map[at := 1]
    requires |at.address| >= 2 && at.address[0] == at.address[1] == COLON
    ensures var l := Link(0, PeerKey(at), 1);
            var steps := [Dial(0, at, now), Deliver(0, l, 0, now), Deliver(0, l, 0, now)];
            var net := Run(cfg, Initial(cfg), steps);
            && Lossless(cfg, Initial(cfg), steps) && Quiet(net)
            && Connected(cfg, net, 1, 0) && !Connected(cfg, net, 0, 1)
  {
    hide Encode, Decode, ParseOrigin, PeerKey, IsHandshake, Delivered, LearnedFrom, Truth, RepliesAreLate,
      GoodFlight, Run, Lossless;
    var l := Link(0, PeerKey(at), 1);
    var d := Deliver(0, l, 0, now);
    var steps := [Dial(0, at, now), d, d];
    DoubleColonIsUnreadable(at);
    OwnHandshake(cfg, 0, now);
    OwnHandshake(cfg, 1, now);
    assert Run(cfg, Initial(cfg), []) == Initial(cfg) by { NoSteps(cfg); }
    Reachable(cfg, []);
    var net0 := Initial(cfg);
    ThreeSteps(cfg, net0, steps[0], d, d);
    var net1 := Next(cfg, net0, steps[0]);
    NextKeepsInv(cfg, net0, steps[0]);
    var up := Packet(l, true, Encode(HandshakeMessage(cfg.ids[0], now)));
    assert net1.flight == [up] && net1.links == {l};
    DeliverSummary(cfg, net1, 0, l, 0, now);
    UpReadable(cfg, net1, up);
    var net2 := Next(cfg, net1, d);
    NextKeepsInv(cfg, net1, d);
    var down := Packet(l, false, Encode(HandshakeMessage(cfg.ids[1], now)));
    assert net2.flight == [down] && net2.links == {l};
    DeliverSummary(cfg, net2, 0, l, 0, now);
    var net3 := Next(cfg, net2, d);
    assert net3.flight == [] && net3.links == {l};
    assert Teaches(1, 0, l) && !Teaches(0, 1, l);
    QuiescenceMeansKnowledge(cfg, steps, 1, 0);
    QuiescenceMeansKnowledge(cfg, steps, 0, 1);
  }

  lemma NoSteps(cfg: Config)
    ensures Run(cfg, Initial(cfg), []) == Initial(cfg)
  {
  }
}
