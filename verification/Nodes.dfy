/** One node of the ZeroMQ network: its dealer sockets, its peer table, and what each
    call or received message makes it send. */
module Nodes {
  import opened Bytes
  import opened Codec
  import opened Numerals
  import opened PeerStore

  const COLON: byte := 58

  /** Dealer sockets are keyed by "address:port". */
  function PeerKey(at: Endpoint): Text {
    at.address + [COLON] + Decimal(at.port)
  }

  function FindColon(s: Text): (i: nat)
    ensures i <= |s| && COLON !in s[..i] && (i < |s| ==> s[i] == COLON)
  {
    if s == [] || s[0] == COLON then 0 else 1 + FindColon(s[1..])
  }

  /** Where HandleMessage takes a sender to be: nowhere in particular when its name has
      no colon, else what stands before and after the first one; `stoi` may throw. */
  datatype Origin = Nowhere | At(endpoint: Endpoint) | Unreadable

  function ParseOrigin(sender: Text): Origin {
    var i := FindColon(sender);
    if i == |sender| then Nowhere
    else match Stoi(sender[i + 1..])
      case Number(n) => At(Endpoint(sender[..i], n % 0x1_0000))
      case _ => Unreadable
  }

  lemma {:induction false} FindColonAt(a: Text, b: Text)
    requires COLON !in a
    ensures FindColon(a + [COLON] + b) == |a|
  {
    var s := a + [COLON] + b;
    if a != [] {
      assert a[0] in a && s[0] == a[0];
      FindColonAt(a[1..], b);
      assert s[1..] == a[1..] + [COLON] + b;
    }
  }

  /** The dialled address and port are recovered from the key exactly when the address
      has no colon. */
  lemma OriginOfKey(at: Endpoint)
    ensures ParseOrigin(PeerKey(at)) == At(at) <==> COLON !in at.address
    ensures COLON in PeerKey(at)
  {
    var key := PeerKey(at);
    assert key[|at.address|] == COLON;
    if COLON !in at.address {
      FindColonAt(at.address, Decimal(at.port));
      assert key[..|at.address|] == at.address && key[|at.address| + 1..] == Decimal(at.port);
      DecimalRoundTrip(at.port);
    } else {
      assert COLON !in key[..FindColon(key)];
    }
  }

  lemma NoColonInDecimal(n: nat)
    ensures COLON !in Decimal(n)
  {
    DecimalDigits(n);
  }

  lemma NoColonAfter(a: Text, b: Text, j: nat)
    requires COLON !in b && j < |a + [COLON] + b| && (a + [COLON] + b)[j] == COLON
    ensures j <= |a|
  {
  }

  /** A key names one endpoint only, colons or not: the port follows the last colon. */
  lemma PeerKeyInjective(x: Endpoint, y: Endpoint)
    requires PeerKey(x) == PeerKey(y)
    ensures x == y
  {
    hide Decimal;
    var key, i, j := PeerKey(x), |x.address|, |y.address|;
    NoColonInDecimal(x.port);
    NoColonInDecimal(y.port);
    assert key[i] == COLON && key[j] == COLON;
    assert key[i + 1..] == Decimal(x.port) && key[j + 1..] == Decimal(y.port);
    NoColonAfter(x.address, Decimal(x.port), j);
    NoColonAfter(y.address, Decimal(y.port), i);
    assert x.address == key[..i] && y.address == key[..j];
    DecimalRoundTrip(x.port);
    DecimalRoundTrip(y.port);
  }

  lemma NoColonNoOrigin(s: Text)
    ensures ParseOrigin(s) == Nowhere <==> COLON !in s
  {
    assert s[..|s|] == s;
  }

  // ---- Node state

  /** `learned` records, for each id in the table, the sender name under which it was
      last learned: the id itself over the router, a dealer key over a dealer. `log` is
      what the user handler was given. */
  datatype Node = Node(
    dealers: map<Text, Endpoint>, peers: PeerTable, learned: map<Text, Text>, log: seq<(Text, Message)>)

  datatype Output = ViaDealer(key: Text, data: seq<byte>) | ViaRouter(id: Text, data: seq<byte>)

  datatype Reaction = Reaction(node: Node, out: seq<Output>)

  const EMPTY_NODE := Node(map[], map[], map[], [])

  function Dialled(me: Identity, n: Node, at: Endpoint, now: Ticks): Reaction {
    Reaction(n.(dealers := n.dealers[PeerKey(at) := at]),
      [ViaDealer(PeerKey(at), Encode(HandshakeMessage(me, now)))])
  }

  function HungUp(n: Node, key: Text, now: Ticks): Node {
    if key in n.dealers
    then n.(dealers := n.dealers - {key}, peers := WithStatus(n.peers, key, false, now)) else n
  }

  /** A peer learned over the router has no address, and a port that is never set. */
  function EntryFor(who: Identity, origin: Origin, unset: uint16, now: Ticks): PeerInfo {
    match origin
    case At(e) => PeerInfo(who.id, e.address, e.port, who.publicKey, true, now)
    case _ => PeerInfo(who.id, [], unset, who.publicKey, true, now)
  }

  function Learn(n: Node, sender: Text, who: Identity, unset: uint16, now: Ticks): Node {
    n.(peers := WithStatus(n.peers[who.id := EntryFor(who, ParseOrigin(sender), unset, now)], who.id, true, now),
       learned := n.learned[who.id := sender])
  }

  function Forward(n: Node, id: Text, msg: Message): Node {
    n.(log := n.log + [(id, msg)])
  }

  function Reply(me: Identity, sender: Text, who: Identity, now: Ticks): seq<Output> {
    if sender == who.id then [ViaRouter(who.id, Encode(HandshakeMessage(me, now)))] else []
  }

  function Handle(me: Identity, n: Node, sender: Text, msg: Message, unset: uint16, now: Ticks): Reaction {
    if msg.kind != HANDSHAKE || ParseHandshake(msg.payload).None? then Reaction(Forward(n, sender, msg), [])
    else
      var who := ParseHandshake(msg.payload).value;
      if ParseOrigin(sender).Unreadable? then Reaction(n, [])
      else Reaction(Forward(Learn(n, sender, who, unset, now), who.id, msg), Reply(me, sender, who, now))
  }

  /** Deserialize, then HandleMessage; data that does not decode changes nothing. */
  function Receive(me: Identity, n: Node, sender: Text, data: seq<byte>, unset: uint16, now: Ticks): Reaction {
    match Decode(data)
    case Decoded(m) => Handle(me, n, sender, m, unset, now)
    case _ => Reaction(n, [])
  }

  /** Every message that HandleMessage gets through reaches the user handler, once. For a
      well-formed handshake, the id it is given is the id recorded in the table, and id
      and key there rebuild the payload; anything else leaves the table alone and comes
      under the sender's name. */
  lemma ForwardedOnce(me: Identity, n: Node, sender: Text, msg: Message, unset: uint16, now: Ticks)
    ensures var r := Handle(me, n, sender, msg, unset, now);
            var learns := msg.kind == HANDSHAKE && ParseHandshake(msg.payload).Some?;
            if learns && ParseOrigin(sender).Unreadable? then r == Reaction(n, [])
            else
              && |r.node.log| == |n.log| + 1 && n.log <= r.node.log
              && var (id, forwarded) := r.node.log[|n.log|];
                 && forwarded == msg
                 && if learns
                    then id in r.node.peers && r.node.peers[id].id == id && r.node.peers[id].isConnected
                         && BuildHandshake(Identity(id, r.node.peers[id].publicKey)) == msg.payload
                         && (r.out != [] <==> id == sender)
                    else id == sender && r.node.peers == n.peers && r.out == []
  {
    hide ParseOrigin, ParseHandshake, BuildHandshake, Encode;
    if msg.kind == HANDSHAKE && ParseHandshake(msg.payload).Some? {
      HandshakeRebuild(msg.payload);
    }
  }

  /** From bytes to the user: every frame that holds a message other than a well-formed
      handshake reaches the user as that message, under the sender's name, and has no
      other effect. */
  lemma ChatReachesUser(
      me: Identity, n: Node, sender: Text, m: Message, rest: seq<byte>, unset: uint16, now: Ticks)
    requires (m.kind != 1 || ParseHandshake(m.payload).None?) && |m.payload| < TWO32
    ensures Receive(me, n, sender, Encode(m) + rest, unset, now) ==
            Reaction(n.(log := n.log + [(sender, Canonical(m))]), [])
  {
    hide Encode, Decode, ParseHandshake;
    RoundTrip(m, rest);
  }

  /** A handshake frame: the sender is entered under the id it gives, at the address read
      from the sender's name or at none, everything else stays, the user is told, and only
      a sender that calls itself by its id is answered, with our own identity. */
  lemma HandshakeReachesTable(
      me: Identity, n: Node, sender: Text, who: Identity, rest: seq<byte>, unset: uint16, at: Ticks, now: Ticks)
    requires |who.id| < 0x1_0000 && 2 + |who.id| + |who.publicKey| < TWO32
    requires !ParseOrigin(sender).Unreadable?
    ensures var m := HandshakeMessage(who, at);
            var r := Receive(me, n, sender, Encode(m) + rest, unset, now);
            var entry := match ParseOrigin(sender)
              case At(e) => PeerInfo(who.id, e.address, e.port, who.publicKey, true, now)
              case _ => PeerInfo(who.id, [], unset, who.publicKey, true, now);
            && r.node.peers == n.peers[who.id := entry] && r.node.learned == n.learned[who.id := sender]
            && r.node.dealers == n.dealers && r.node.log == n.log + [(who.id, Canonical(m))]
            && r.out == if sender == who.id then [ViaRouter(who.id, Encode(HandshakeMessage(me, now)))] else []
  {
    hide Encode, Decode, ParseOrigin, ParseHandshake;
    var m := HandshakeMessage(who, at);
    RoundTrip(m, rest);
    HandshakeRoundTrip(who);
  }

  /** A frame that does not decode, or a handshake from a name with an unreadable port,
      changes nothing and is not answered. */
  lemma RejectedFrame(me: Identity, n: Node, sender: Text, data: seq<byte>, unset: uint16, now: Ticks)
    requires || !Decode(data).Decoded?
             || (&& Decode(data).msg.kind == 1 && ParseHandshake(Decode(data).msg.payload).Some?
                 && ParseOrigin(sender).Unreadable?)
    ensures Receive(me, n, sender, data, unset, now) == Reaction(n, [])
  {
    hide Decode, ParseOrigin, ParseHandshake;
  }

  /** Dialling stores one dealer and sends one frame over it, which decodes to our
      handshake; the peer table is left alone. */
  lemma DialEffect(me: Identity, n: Node, at: Endpoint, now: Ticks)
    requires |me.id| < 0x1_0000 && 2 + |me.id| + |me.publicKey| < TWO32
    ensures var r, key := Dialled(me, n, at, now), PeerKey(at);
            && r.node == n.(dealers := r.node.dealers) && r.node.dealers == n.dealers[key := at]
            && |r.out| == 1 && r.out[0].ViaDealer? && r.out[0].key == key
            && Decode(r.out[0].data) == Decoded(Canonical(HandshakeMessage(me, now)))
            && ParseHandshake(Decode(r.out[0].data).msg.payload) == Some(me)
  {
    hide Encode, Decode, PeerKey, ParseHandshake;
    var m := HandshakeMessage(me, now);
    RoundTrip(m, []);
    assert Encode(m) + [] == Encode(m);
    HandshakeRoundTrip(me);
  }

  /** Hanging up drops that dealer only, and shows a peer of the same name as offline. */
  lemma HangUpEffect(n: Node, key: Text, now: Ticks)
    ensures var n' := HungUp(n, key, now);
            && n'.dealers.Keys == n.dealers.Keys - {key} && n'.peers.Keys == n.peers.Keys
            && (forall k :: k in n'.dealers ==> n'.dealers[k] == n.dealers[k])
            && (forall k :: k in n.peers && !(k == key && key in n.dealers) ==> n'.peers[k] == n.peers[k])
            && (key in n.dealers && key in n.peers ==>
                  n'.peers[key] == n.peers[key].(isConnected := false, lastSeen := now))
            && n'.learned == n.learned && n'.log == n.log
  {
  }

  /** The name of a sender is split at its first colon; the port is cut to 16 bits. */
  lemma OriginAtFirstColon(address: Text, port: Text)
    requires COLON !in address
    ensures ParseOrigin(address + [COLON] + port) ==
            match Stoi(port) case Number(n) => At(Endpoint(address, n % 0x1_0000)) case _ => Unreadable
  {
    var s := address + [COLON] + port;
    FindColonAt(address, port);
    assert s[..|address|] == address && s[|address| + 1..] == port;
  }

  /** A key in characters: "h:5000". */
  lemma KeyText()
    ensures PeerKey(Endpoint([104], 5000)) == [104, 58, 53, 48, 48, 48]
  {
    assert Decimal(5) == [53] && Decimal(50) == [53, 48] && Decimal(500) == [53, 48, 48];
  }

  /** An address that starts with two colons cannot be read back from its key, so the
      reply of a peer dialled there is thrown away. */
  lemma DoubleColonIsUnreadable(at: Endpoint)
    requires |at.address| >= 2 && at.address[0] == at.address[1] == COLON
    ensures ParseOrigin(PeerKey(at)) == Unreadable
  {
    hide Decimal;
    var key := PeerKey(at);
    assert key[0] == COLON && key[1] == COLON;
    assert FindColon(key) == 0;
    var s := key[1..];
    assert s[0] == COLON && SkipSpace(s) == s && DigitPrefix(s, 10) == 0;
  }

  /** Ids as GeneratePeerId prints them, eight bytes in hexadecimal, meet what the
      protocol and the peer file ask of an id. */
  lemma GeneratedIdsQualify(hash: seq<byte>)
    requires |hash| >= 8
    ensures var id := HexKey(hash[..8]);
            |id| == 16 && COLON !in id && Plain(id)
  {
    HexKeyShape(hash[..8]);
  }

  lemma {:induction false} HexKeyShape(key: seq<byte>)
    ensures |HexKey(key)| == 2 * |key|
    ensures forall c :: c in HexKey(key) ==> 48 <= c <= 57 || 97 <= c <= 102
  {
    if key != [] {
      HexKeyShape(key[1..]);
    }
  }

  // ---- The same as an object

  class NetworkManager {
    const me: Identity
    const peerManager: PeerManager
    var dealerSockets: map<Text, Endpoint>
    var log: seq<(Text, Message)>
    var out: seq<Output>
    ghost var learned: map<Text, Text>

    ghost function State(): Node
      reads this, peerManager
    {
      Node(dealerSockets, peerManager.peers, learned, log)
    }

    constructor (me: Identity, peerManager: PeerManager)
      ensures this.me == me && this.peerManager == peerManager && out == []
      ensures State() == EMPTY_NODE.(peers := peerManager.peers)
    {
      this.me, this.peerManager := me, peerManager;
      dealerSockets, log, out, learned := map[], [], [], map[];
    }

    /** `connects` and `sends` say whether the socket accepts; an error while connecting
        is thrown on, one while sending is reported and dropped. */
    method ConnectToPeer(address: Text, port: uint16, now: Ticks, connects: bool, sends: bool) returns (threw: bool)
      modifies this
      ensures threw == !connects
      ensures threw ==> State() == old(State()) && out == old(out)
      ensures !threw ==>
        var r := Dialled(me, old(State()), Endpoint(address, port), now);
        State() == r.node && out == old(out) + if sends then r.out else []
    {
      hide Encode, BuildHandshake, Decimal;
      if !connects {
        return true;
      }
      var peerKey := address + [COLON] + Decimal(port);
      dealerSockets := dealerSockets[peerKey := Endpoint(address, port)];
      var handshake := CreateHandshakeMessage(me, now);
      SendToPeer(peerKey, handshake, sends);
      threw := false;
    }

    method DisconnectPeer(peerId: Text, now: Ticks)
      modifies this, peerManager
      ensures State() == HungUp(old(State()), peerId, now) && out == old(out)
    {
      if peerId in dealerSockets {
        dealerSockets := dealerSockets - {peerId};
        peerManager.UpdatePeerStatus(peerId, false, now);
      }
    }

    /** The body of SendToPeer, within its caller's critical section. */
    method SendToPeer(peerId: Text, message: Message, sends: bool)
      modifies this`out
      ensures out == old(out) + if peerId in dealerSockets && sends then [ViaDealer(peerId, Encode(message))] else []
    {
      if peerId in dealerSockets {
        var data := Serialize(message);
        if sends {
          out := out + [ViaDealer(peerId, data)];
        }
      }
    }

    /** Nothing leaves when there is no router socket, or it cannot reach the peer. */
    method SendViaRouter(peerId: Text, message: Message, sends: bool)
      modifies this`out
      ensures out == old(out) + if sends then [ViaRouter(peerId, Encode(message))] else []
    {
      if sends {
        var data := Serialize(message);
        out := out + [ViaRouter(peerId, data)];
      }
    }

    /** One copy over every dealer, and one over the router to every peer the table shows
        as connected, in the order of the two walks, as far as the sockets take them. */
    method BroadcastMessage(message: Message, dealerOrder: seq<Text>, peerOrder: seq<Text>, sends: Output -> bool)
      requires Enumerates(dealerOrder, dealerSockets.Keys) && Enumerates(peerOrder, peerManager.peers.Keys)
      modifies this`out
      ensures out == old(out) + OverDealers(dealerOrder, Encode(message), sends)
                     + OverRouter(peerManager.peers, peerOrder, Encode(message), sends)
    {
      SendOverDealers(message, dealerOrder, sends);
      SendOverRouter(message, peerOrder, sends);
    }

    /** The first loop of BroadcastMessage. */
    method SendOverDealers(message: Message, order: seq<Text>, sends: Output -> bool)
      requires Enumerates(order, dealerSockets.Keys)
      modifies this`out
      ensures out == old(out) + OverDealers(order, Encode(message), sends)
    {
      hide Encode, OverDealers, Enumerates;
      var data := Serialize(message);
      var i := 0;
      assert OverDealers(order[..0], data, sends) == [] by { NothingOverDealers(data, sends); }
      while i < |order|
        invariant 0 <= i <= |order|
        invariant out == old(out) + OverDealers(order[..i], data, sends)
      {
        assert order[i] in dealerSockets by { InWalk(order, dealerSockets.Keys, i); }
        OverDealersStep(order, i, data, sends);
        SendToPeer(order[i], message, sends(ViaDealer(order[i], data)));
        i := i + 1;
      }
      assert order[..i] == order;
    }

    /** The second loop of BroadcastMessage. */
    method SendOverRouter(message: Message, order: seq<Text>, sends: Output -> bool)
      requires Enumerates(order, peerManager.peers.Keys)
      modifies this`out
      ensures out == old(out) + OverRouter(peerManager.peers, order, Encode(message), sends)
    {
      hide Encode;
      var data := Serialize(message);
      var j := 0;
      while j < |order|
        invariant 0 <= j <= |order|
        invariant out == old(out) + OverRouter(peerManager.peers, order[..j], data, sends)
      {
        assert order[j] in order;
        assert order[..j + 1][..j] == order[..j];
        var peer := peerManager.peers[order[j]];
        if peer.isConnected {
          SendViaRouter(peer.id, message, sends(ViaRouter(peer.id, data)));
        }
        j := j + 1;
      }
      assert order[..j] == order;
    }

    /** What RouteMessages and PollMessages do with one received frame. */
    method ReceiveFrame(sender: Text, data: seq<byte>, unset: uint16, now: Ticks, sends: bool)
      modifies this, peerManager
      ensures var r := Receive(me, old(State()), sender, data, unset, now);
              State() == r.node && out == old(out) + if sends then r.out else []
    {
      hide Decode, ParseOrigin;
      var outcome := Deserialize(data);
      if outcome.Decoded? {
        HandleMessage(sender, outcome.msg, unset, now, sends);
      }
    }

    method HandleMessage(sender: Text, msg: Message, unset: uint16, now: Ticks, sends: bool)
      modifies this, peerManager
      ensures var r := Handle(me, old(State()), sender, msg, unset, now);
              State() == r.node && out == old(out) + if sends then r.out else []
    {
      hide ParseOrigin, Encode, BuildHandshake, Value;
      var actualPeerId := sender;
      if msg.kind == HANDSHAKE {
        var payload := msg.payload;
        if |payload| >= 2 {
          var idLen := payload[0] as int * 256 + payload[1] as int;
          assert idLen == Value(payload[..2]) by { ValueOfTwo(payload[..2]); }
          if |payload| >= 2 + idLen {
            var who := Identity(payload[2..2 + idLen], payload[2 + idLen..]);
            if ParseOrigin(sender).Unreadable? {
              return;
            }
            LearnPeer(sender, who, unset, now);
            if sender == who.id {
              var response := CreateHandshakeMessage(me, now);
              SendViaRouter(who.id, response, sends);
            }
            actualPeerId := who.id;
          }
        }
      }
      log := log + [(actualPeerId, msg)];
    }

    method LearnPeer(sender: Text, who: Identity, unset: uint16, now: Ticks)
      requires !ParseOrigin(sender).Unreadable?
      modifies this`learned, peerManager
      ensures State() == Learn(old(State()), sender, who, unset, now)
    {
      peerManager.AddPeer(EntryFor(who, ParseOrigin(sender), unset, now));
      learned := learned[who.id := sender];
      peerManager.UpdatePeerStatus(who.id, true, now);
    }
  }

  ghost function Taken(o: Output, sends: Output -> bool): seq<Output> {
    if sends(o) then [o] else []
  }

  ghost function OverDealers(order: seq<Text>, data: seq<byte>, sends: Output -> bool): seq<Output> {
    if order == [] then []
    else OverDealers(order[..|order| - 1], data, sends) + Taken(ViaDealer(order[|order| - 1], data), sends)
  }

  ghost function OverRouter(peers: PeerTable, order: seq<Text>, data: seq<byte>, sends: Output -> bool): seq<Output>
    requires forall k :: k in order ==> k in peers
  {
    if order == [] then []
    else
      var last := peers[order[|order| - 1]];
      OverRouter(peers, order[..|order| - 1], data, sends)
      + if last.isConnected then Taken(ViaRouter(last.id, data), sends) else []
  }

  lemma InWalk(order: seq<Text>, keys: set<Text>, i: nat)
    requires Enumerates(order, keys) && i < |order|
    ensures order[i] in keys
  {
    assert order[i] in order;
  }

  lemma NothingOverDealers(data: seq<byte>, sends: Output -> bool)
    ensures OverDealers([], data, sends) == []
  {
  }

  lemma OverDealersStep(order: seq<Text>, i: nat, data: seq<byte>, sends: Output -> bool)
    requires i < |order|
    ensures OverDealers(order[..i + 1], data, sends) ==
            OverDealers(order[..i], data, sends) + Taken(ViaDealer(order[i], data), sends)
  {
    assert order[..i + 1][..i] == order[..i];
  }

  /** A broadcast sends one copy over every dealer that takes it ... */
  lemma {:induction false} OneCopyPerDealer(order: seq<Text>, data: seq<byte>, sends: Output -> bool, key: Text)
    requires forall i, j :: 0 <= i < j < |order| ==> order[i] != order[j]
    ensures multiset(OverDealers(order, data, sends))[ViaDealer(key, data)] ==
            if key in order && sends(ViaDealer(key, data)) then 1 else 0
  {
    if order != [] {
      var init, last := order[..|order| - 1], order[|order| - 1];
      OneCopyPerDealer(init, data, sends, key);
      assert order == init + [last];
    }
  }

  /** ... and one over the router to exactly the peers shown as connected that it reaches. */
  lemma {:induction false} OneCopyPerPeer(
      peers: PeerTable, order: seq<Text>, data: seq<byte>, sends: Output -> bool, id: Text)
    requires Keyed(peers) && (forall k :: k in order ==> k in peers)
    requires forall i, j :: 0 <= i < j < |order| ==> order[i] != order[j]
    ensures multiset(OverRouter(peers, order, data, sends))[ViaRouter(id, data)] ==
            if id in order && peers[id].isConnected && sends(ViaRouter(id, data)) then 1 else 0
  {
    if order != [] {
      var init, last := order[..|order| - 1], order[|order| - 1];
      assert order == init + [last];
      OneCopyPerPeer(peers, init, data, sends, id);
      var before := OverRouter(peers, init, data, sends);
      var more := if peers[last].isConnected then Taken(ViaRouter(last, data), sends) else [];
      assert OverRouter(peers, order, data, sends) == before + more;
      assert multiset(before + more) == multiset(before) + multiset(more);
    }
  }

  /** Nothing else is sent: what goes over the dealers goes to a dealer of the walk, and
      what goes over the router to a peer of the walk, with the same bytes. */
  lemma {:induction false} NothingElseIsSent(
      peers: PeerTable, dealerOrder: seq<Text>, peerOrder: seq<Text>, data: seq<byte>, sends: Output -> bool)
    requires Keyed(peers) && forall k :: k in peerOrder ==> k in peers
    ensures forall o :: o in OverDealers(dealerOrder, data, sends) ==>
              o.ViaDealer? && o.key in dealerOrder && o.data == data
    ensures forall o :: o in OverRouter(peers, peerOrder, data, sends) ==>
              o.ViaRouter? && o.id in peerOrder && o.data == data
    decreases |dealerOrder| + |peerOrder|
  {
    if dealerOrder != [] {
      NothingElseIsSent(peers, dealerOrder[..|dealerOrder| - 1], [], data, sends);
    }
    if peerOrder != [] {
      NothingElseIsSent(peers, [], peerOrder[..|peerOrder| - 1], data, sends);
    }
  }
}
