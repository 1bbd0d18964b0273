/** Chat messages on the dealer/router network: what a delivered packet makes the user
    see, and that no message is invented, doubled or, without losses, dropped. */
module Chats {
  import opened Bytes
  import opened Codec
  import opened PeerStore
  import opened Nodes
  import opened Protocol
  import opened Quiescence

  /** What the user at the target is given for a packet. */
  function Heard(cfg: Config, net: Net, p: Packet): seq<(Text, Message)>
    requires p.link.src < |cfg.ids| && Source(p) < |cfg.ids| && Target(p) < |net.nodes|
  {
    if !Decode(p.data).Decoded? || (!p.up && p.link.key !in net.nodes[Target(p)].dealers) then []
    else if !IsHandshake(p.data) then [(SenderName(cfg, p), Decode(p.data).msg)]
    else if ParseOrigin(SenderName(cfg, p)).Unreadable? then []
    else [(cfg.ids[Source(p)].id, Decode(p.data).msg)]
  }

  /** A delivered packet reaches the user of its target and no other: a chat message under
      the sender's name, a handshake under the sender's id. */
  lemma DeliverIsHeard(cfg: Config, net: Net, i: nat, via: Link, unset: uint16, now: Ticks)
    requires WellFormed(cfg) && Inv(cfg, net) && i < |net.flight|
    ensures var p := net.flight[i];
            && p.link.src < |cfg.ids| && p.link.dst < |cfg.ids|
            && var net' := Delivered(cfg, net, i, via, unset, now);
            && |net'.nodes| == |net.nodes|
            && net'.nodes[Target(p)].log == net.nodes[Target(p)].log + Heard(cfg, net, p)
            && forall a :: 0 <= a < |net.nodes| && a != Target(p) ==> net'.nodes[a] == net.nodes[a]
  {
    hide Encode, Decode, ParseOrigin, Truth, RepliesAreLate, Learn, BuildHandshake, ParseHandshake;
    var p := net.flight[i];
    assert p in net.flight && p.link in net.links && GoodLink(cfg, p.link);
    if IsHandshake(p.data) && (p.up || p.link.key in net.nodes[Target(p)].dealers) {
      ReceiveHandshake(cfg, net, p, unset, now);
      LearnKeepsLog(net.nodes[Target(p)], SenderName(cfg, p), cfg.ids[Source(p)], unset, now);
    }
  }

  lemma LearnKeepsLog(n: Node, sender: Text, who: Identity, unset: uint16, now: Ticks)
    ensures Learn(n, sender, who, unset, now).log == n.log
  {
  }

  // ---- Conservation

  /** A chat packet for node `a`, as its user will see it. */
  function ChatFor(cfg: Config, p: Packet, a: nat): multiset<(Text, Message)> {
    if IsChat(p.data) && Target(p) == a && p.link.src < |cfg.ids|
    then multiset{(SenderName(cfg, p), Decode(p.data).msg)} else multiset{}
  }

  function InFlight(cfg: Config, ps: seq<Packet>, a: nat): multiset<(Text, Message)> {
    if ps == [] then multiset{} else ChatFor(cfg, ps[0], a) + InFlight(cfg, ps[1..], a)
  }

  /** The chat messages that a user was given. */
  function ChatsIn(log: seq<(Text, Message)>): multiset<(Text, Message)> {
    if log == [] then multiset{}
    else
      var last := log[|log| - 1];
      ChatsIn(log[..|log| - 1]) + if last.1.kind == HANDSHAKE then multiset{} else multiset{last}
  }

  /** What one step puts on links for `a`. */
  function Put(cfg: Config, net: Net, st: Step, a: nat): multiset<(Text, Message)> {
    if st.Chat? && st.packet.link in net.links then ChatFor(cfg, st.packet, a) else multiset{}
  }

  /** The chat messages for `a` that the steps of a run put on links. */
  function Sent(cfg: Config, net: Net, steps: seq<Step>, a: nat): multiset<(Text, Message)>
    requires |net.nodes| == |cfg.ids|
    decreases steps
  {
    if steps == [] then multiset{} else Put(cfg, net, steps[0], a) + Sent(cfg, Next(cfg, net, steps[0]), steps[1..], a)
  }

  function Account(cfg: Config, net: Net, a: nat): multiset<(Text, Message)>
    requires a < |net.nodes|
  {
    ChatsIn(net.nodes[a].log) + InFlight(cfg, net.flight, a)
  }

  lemma {:induction false} InFlightAppend(cfg: Config, ps: seq<Packet>, qs: seq<Packet>, a: nat)
    ensures InFlight(cfg, ps + qs, a) == InFlight(cfg, ps, a) + InFlight(cfg, qs, a)
  {
    hide ChatFor;
    if ps == [] {
      assert ps + qs == qs;
    } else {
      InFlightAppend(cfg, ps[1..], qs, a);
      assert (ps + qs)[1..] == ps[1..] + qs;
    }
  }

  lemma InFlightOne(cfg: Config, p: Packet, a: nat)
    ensures InFlight(cfg, [p], a) == ChatFor(cfg, p, a)
  {
    assert [p][1..] == [];
  }

  lemma InFlightWithout(cfg: Config, ps: seq<Packet>, i: nat, a: nat)
    requires i < |ps|
    ensures InFlight(cfg, ps, a) == InFlight(cfg, Without(ps, i), a) + ChatFor(cfg, ps[i], a)
  {
    hide ChatFor;
    InFlightAppend(cfg, ps[..i], [ps[i]] + ps[i + 1..], a);
    InFlightAppend(cfg, [ps[i]], ps[i + 1..], a);
    InFlightAppend(cfg, ps[..i], ps[i + 1..], a);
    InFlightOne(cfg, ps[i], a);
    assert ps == ps[..i] + ([ps[i]] + ps[i + 1..]);
  }

  lemma ChatsAppend(log: seq<(Text, Message)>, more: seq<(Text, Message)>)
    requires |more| <= 1
    ensures ChatsIn(log + more) ==
            ChatsIn(log) + if more == [] || more[0].1.kind == HANDSHAKE then multiset{} else multiset{more[0]}
  {
    if more == [] {
      assert log + more == log;
    } else {
      assert (log + more)[..|log|] == log;
    }
  }

  /** The dealer of every link of a packet on its way down is still there. */
  ghost predicate NobodyHungUp(net: Net) {
    forall l :: l in net.links ==> l.src < |net.nodes| && l.key in net.nodes[l.src].dealers
  }

  lemma HeardIsChat(cfg: Config, net: Net, p: Packet, a: nat)
    requires |net.nodes| == |cfg.ids| && p.link.src < |cfg.ids| && p.link.dst < |cfg.ids|
    ensures var more := if Target(p) == a then Heard(cfg, net, p) else [];
            var heard := if more == [] || more[0].1.kind == HANDSHAKE then multiset{} else multiset{more[0]};
            && heard <= ChatFor(cfg, p, a)
            && (NobodyHungUp(net) && p.link in net.links ==> heard == ChatFor(cfg, p, a))
  {
    hide Decode, ParseOrigin;
  }

  lemma DeliverTakesOff(cfg: Config, net: Net, i: nat, via: Link, unset: uint16, now: Ticks, a: nat)
    requires WellFormed(cfg) && Inv(cfg, net) && i < |net.flight|
    ensures net.flight[i].link.src < |cfg.ids| && Target(net.flight[i]) < |cfg.ids|
    ensures InFlight(cfg, net.flight, a) ==
            InFlight(cfg, Delivered(cfg, net, i, via, unset, now).flight, a) + ChatFor(cfg, net.flight[i], a)
  {
    hide Decode, Encode, ParseOrigin, IsHandshake, Truth, RepliesAreLate, Honest, Reacted, Routed,
      InFlight, LearnedFrom, ChatFor, Learns;
    DeliverSummary(cfg, net, i, via, unset, now);
    var t := Target(net.flight[i]);
    var reply := Packet(via, false, Encode(HandshakeMessage(cfg.ids[t], now)));
    InFlightWithout(cfg, net.flight, i, a);
    OwnHandshake(cfg, t, now);
    NoChatIn(cfg, reply, a);
    InFlightAppend(cfg, Without(net.flight, i), [reply], a);
    InFlightOne(cfg, reply, a);
    assert Without(net.flight, i) + [] == Without(net.flight, i);
  }

  lemma DeliverHands(cfg: Config, net: Net, i: nat, via: Link, unset: uint16, now: Ticks, a: nat)
    requires WellFormed(cfg) && Inv(cfg, net) && i < |net.flight| && a < |cfg.ids|
    ensures net.flight[i].link.src < |cfg.ids| && Target(net.flight[i]) < |cfg.ids|
    ensures var net', p := Delivered(cfg, net, i, via, unset, now), net.flight[i];
            && ChatsIn(net'.nodes[a].log) <= ChatsIn(net.nodes[a].log) + ChatFor(cfg, p, a)
            && (NobodyHungUp(net) ==> ChatsIn(net'.nodes[a].log) == ChatsIn(net.nodes[a].log) + ChatFor(cfg, p, a))
  {
    hide Decode, ParseOrigin, IsHandshake, Truth, RepliesAreLate, GoodLink, Honest, Delivered, Heard, ChatsIn, ChatFor;
    DeliverIsHeard(cfg, net, i, via, unset, now);
    var p := net.flight[i];
    var more := if Target(p) == a then Heard(cfg, net, p) else [];
    assert p in net.flight && p.link in net.links;
    HeardAtMostOnce(cfg, net, p);
    assert net.nodes[a].log + [] == net.nodes[a].log;
    ChatsAppend(net.nodes[a].log, more);
    HeardIsChat(cfg, net, p, a);
  }

  /** Nothing comes in but what was put there; if nothing can be lost, all of it stays. */
  ghost predicate Conserves(
      before: multiset<(Text, Message)>, put: multiset<(Text, Message)>, after: multiset<(Text, Message)>, exact: bool)
  {
    after <= before + put && (exact ==> after == before + put)
  }

  ghost predicate StepConserves(cfg: Config, net: Net, st: Step, a: nat)
    requires |net.nodes| == |cfg.ids| && a < |cfg.ids|
  {
    NextKeepsSize(cfg, net, st);
    Conserves(Account(cfg, net, a), Put(cfg, net, st, a), Account(cfg, Next(cfg, net, st), a),
      NobodyHungUp(net) && LosslessStep(net, st))
  }

  lemma DeliverConserves(cfg: Config, net: Net, i: nat, via: Link, unset: uint16, now: Ticks, a: nat)
    requires WellFormed(cfg) && Inv(cfg, net) && a < |cfg.ids|
    ensures StepConserves(cfg, net, Deliver(i, via, unset, now), a)
  {
    hide Delivered, ChatsIn, InFlight, ChatFor, GoodFlight, Truth, RepliesAreLate, NobodyHungUp;
    if i < |net.flight| {
      DeliverTakesOff(cfg, net, i, via, unset, now, a);
      DeliverHands(cfg, net, i, via, unset, now, a);
    }
  }

  lemma HeardAtMostOnce(cfg: Config, net: Net, p: Packet)
    requires |net.nodes| == |cfg.ids| && p.link.src < |cfg.ids| && p.link.dst < |cfg.ids|
    ensures |Heard(cfg, net, p)| <= 1
  {
  }

  lemma NoChatIn(cfg: Config, p: Packet, a: nat)
    requires IsHandshake(p.data)
    ensures ChatFor(cfg, p, a) == multiset{}
  {
  }

  lemma PacketAdds(cfg: Config, net: Net, p: Packet, a: nat)
    ensures InFlight(cfg, net.flight + [p], a) == InFlight(cfg, net.flight, a) + ChatFor(cfg, p, a)
  {
    InFlightAppend(cfg, net.flight, [p], a);
    InFlightOne(cfg, p, a);
  }

  lemma DialConserves(cfg: Config, net: Net, b: nat, at: Endpoint, now: Ticks, a: nat)
    requires WellFormed(cfg) && |net.nodes| == |cfg.ids| && a < |cfg.ids|
    ensures StepConserves(cfg, net, Dial(b, at, now), a)
  {
    hide Encode, PeerKey, IsHandshake, ChatsIn, InFlight, ChatFor, NobodyHungUp;
    if b < |cfg.ids| && at in cfg.listens && cfg.listens[at] < |cfg.ids| {
      var p := Packet(Link(b, PeerKey(at), cfg.listens[at]), true, Encode(HandshakeMessage(cfg.ids[b], now)));
      OwnHandshake(cfg, b, now);
      NoChatIn(cfg, p, a);
      PacketAdds(cfg, net, p, a);
    }
  }

  lemma LoseConserves(cfg: Config, net: Net, i: nat, a: nat)
    requires |net.nodes| == |cfg.ids| && a < |cfg.ids|
    ensures StepConserves(cfg, net, Lose(i), a)
  {
    hide ChatsIn, InFlight, ChatFor, NobodyHungUp;
    if i < |net.flight| {
      InFlightWithout(cfg, net.flight, i, a);
    }
  }

  lemma HangUpConserves(cfg: Config, net: Net, b: nat, key: Text, now: Ticks, a: nat)
    requires |net.nodes| == |cfg.ids| && a < |cfg.ids|
    ensures StepConserves(cfg, net, HangUp(b, key, now), a)
  {
    hide ChatsIn, InFlight, NobodyHungUp, HungUp;
    if b < |cfg.ids| {
      HangUpEffect(net.nodes[b], key, now);
    }
  }

  lemma ChatConserves(cfg: Config, net: Net, p: Packet, a: nat)
    requires |net.nodes| == |cfg.ids| && a < |cfg.ids|
    ensures StepConserves(cfg, net, Chat(p), a)
  {
    hide ChatsIn, InFlight, ChatFor, IsChat, NobodyHungUp;
    PacketAdds(cfg, net, p, a);
    NotAChat(cfg, p, a);
  }

  lemma NextConserves(cfg: Config, net: Net, st: Step, a: nat)
    requires WellFormed(cfg) && Inv(cfg, net) && a < |cfg.ids|
    ensures |net.nodes| == |cfg.ids| && StepConserves(cfg, net, st, a)
  {
    hide StepConserves, WellFormed, GoodFlight, Truth, RepliesAreLate;
    match st
    case Dial(b, at, now) => DialConserves(cfg, net, b, at, now, a);
    case Deliver(i, via, unset, now) => DeliverConserves(cfg, net, i, via, unset, now, a);
    case Lose(i) => LoseConserves(cfg, net, i, a);
    case HangUp(b, key, now) => HangUpConserves(cfg, net, b, key, now, a);
    case Chat(p) => ChatConserves(cfg, net, p, a);
  }

  lemma NotAChat(cfg: Config, p: Packet, a: nat)
    ensures !IsChat(p.data) ==> ChatFor(cfg, p, a) == multiset{}
  {
  }

  lemma ConservesBoth(
      before: multiset<(Text, Message)>, put: multiset<(Text, Message)>, now: multiset<(Text, Message)>,
      more: multiset<(Text, Message)>, after: multiset<(Text, Message)>, first: bool, second: bool, exact: bool)
    requires Conserves(before, put, now, first) && Conserves(now, more, after, second) && (exact ==> first && second)
    ensures Conserves(before, put + more, after, exact)
  {
  }

  /** In every run, each chat message put on a link for a node is heard there at most once,
      under its sender's name, and nothing else is heard: what was heard and what is still
      on its way are among what was sent. Without losses they are exactly that. */
  lemma {:induction false} ChatsAreConserved(cfg: Config, net: Net, steps: seq<Step>, a: nat)
    requires WellFormed(cfg) && Inv(cfg, net) && a < |cfg.ids|
    ensures Conserves(Account(cfg, net, a), Sent(cfg, net, steps, a), Account(cfg, Run(cfg, net, steps), a),
              LinksProgress(cfg, net) && KnownByLink(cfg, net) && Lossless(cfg, net, steps))
    decreases steps
  {
    assert |net.nodes| == |cfg.ids|;
    var exact := LinksProgress(cfg, net) && KnownByLink(cfg, net) && Lossless(cfg, net, steps);
    if steps == [] {
      assert Account(cfg, net, a) + multiset{} == Account(cfg, net, a);
    } else {
      var st, next := steps[0], Next(cfg, net, steps[0]);
      NextKeepsSize(cfg, net, st);
      NextConserves(cfg, net, st, a);
      NextKeepsInv(cfg, net, st);
      if exact {
        NextProgress(cfg, net, st);
      }
      ChatsAreConserved(cfg, next, steps[1..], a);
      hide Next, Inv, Account, LosslessStep, Progress, KnownByLink, Put, Conserves;
      ConservesBoth(Account(cfg, net, a), Put(cfg, net, st, a), Account(cfg, next, a),
        Sent(cfg, next, steps[1..], a), Account(cfg, Run(cfg, next, steps[1..]), a),
        NobodyHungUp(net) && LosslessStep(net, st),
        LinksProgress(cfg, next) && KnownByLink(cfg, next) && Lossless(cfg, next, steps[1..]), exact);
    }
  }

  lemma StartsEmpty(cfg: Config, a: nat)
    requires WellFormed(cfg) && a < |cfg.ids|
    ensures var net := Initial(cfg);
            Inv(cfg, net) && LinksProgress(cfg, net) && KnownByLink(cfg, net) && Account(cfg, net, a) == multiset{}
  {
    Reachable(cfg, []);
    NoSteps(cfg);
  }

  /** From the start: without losses, and with no chat for `a` in flight, the user at `a` has
      been given every chat message sent to it, once each, and no other. */
  lemma EveryChatIsHeard(cfg: Config, steps: seq<Step>, a: nat)
    requires WellFormed(cfg) && a < |cfg.ids|
    ensures var net := Run(cfg, Initial(cfg), steps);
            && ChatsIn(net.nodes[a].log) <= Sent(cfg, Initial(cfg), steps, a)
            && (Lossless(cfg, Initial(cfg), steps) && InFlight(cfg, net.flight, a) == multiset{} ==>
                  ChatsIn(net.nodes[a].log) == Sent(cfg, Initial(cfg), steps, a))
  {
    StartsEmpty(cfg, a);
    hide Run, Sent, Lossless, Inv, LinksProgress, KnownByLink, ChatsIn, InFlight;
    ChatsAreConserved(cfg, Initial(cfg), steps, a);
    var net := Run(cfg, Initial(cfg), steps);
    assert ChatsIn(net.nodes[a].log) <= Account(cfg, net, a);
    assert multiset{} + Sent(cfg, Initial(cfg), steps, a) == Sent(cfg, Initial(cfg), steps, a);
  }

  // ---- A dropped dealer

  /** Hanging up drops the dealer, and what then arrives for it changes no node and is not
      answered. */
  lemma HungUpHearsNothing(cfg: Config, net: Net, i: nat, via: Link, unset: uint16, t: Ticks, now: Ticks)
    requires WellFormed(cfg) && Inv(cfg, net) && i < |net.flight| && !net.flight[i].up
    requires net.flight[i].link.src < |cfg.ids|
    ensures var l := net.flight[i].link;
            var net1 := Next(cfg, net, HangUp(l.src, l.key, t));
            && l.key !in net1.nodes[l.src].dealers
            && Next(cfg, net1, Deliver(i, via, unset, now)) == net1.(flight := Without(net.flight, i))
  {
    hide Decode, ParseOrigin, HungUp;
    var l := net.flight[i].link;
    HangUpEffect(net.nodes[l.src], l.key, t);
    var net1 := Next(cfg, net, HangUp(l.src, l.key, t));
    var net2 := Next(cfg, net1, Deliver(i, via, unset, now));
    assert net1.nodes[l.src := net1.nodes[l.src]] == net1.nodes;
    assert Without(net.flight, i) + [] == Without(net.flight, i);
  }
}
