/** The coroutine network manager: sessions, their registry, the peer table and the
    messages handed to the user. One event is one handler call or one API call; an
    event sequence is any interleaving of them over any number of sessions. */
module Sessions {
  import opened Bytes
  import opened Codec
  import opened Framing
  import opened PeerStore

  /** What one session holds, and every message written to its socket so far. */
  datatype Conn = Conn(peerId: Text, outgoing: bool, sent: seq<Message>)

  datatype Delivery<S> = Delivery(session: S, peerId: Text, msg: Message)

  datatype Hub<!S(==)> = Hub(
    conns: map<S, Conn>, registry: map<Text, S>, peers: PeerTable, log: seq<Delivery<S>>)

  datatype Event<S> =
    | Accept(session: S)
    | Dial(session: S, now: Ticks)
    | Receive(session: S, msg: Message, endpoint: Option<Endpoint>, now: Ticks)
    | Fail(session: S, now: Ticks)
    | Disconnect(id: Text, now: Ticks)
    | Send(id: Text, msg: Message)
    | Broadcast(msg: Message)

  /** AddPeer, unless asking the socket for its endpoint throws, and then the connection
      handler. */
  function Learnt(peers: PeerTable, who: Identity, endpoint: Option<Endpoint>, now: Ticks): PeerTable {
    var added := match endpoint
      case None => peers
      case Some(e) => peers[who.id := PeerInfo(who.id, e.address, e.port, who.publicKey, true, now)];
    WithStatus(added, who.id, true, now)
  }

  function Bind<S>(me: Identity, h: Hub<S>, s: S, who: Identity, endpoint: Option<Endpoint>, now: Ticks): Hub<S>
    requires s in h.conns
  {
    var c := h.conns[s];
    var c' := c.(peerId := who.id, sent := if c.outgoing then c.sent else c.sent + [HandshakeMessage(me, now)]);
    Hub(h.conns[s := c'], h.registry[who.id := s], Learnt(h.peers, who, endpoint, now), h.log)
  }

  function Handled<S>(me: Identity, h: Hub<S>, s: S, msg: Message, endpoint: Option<Endpoint>, now: Ticks): Hub<S>
    requires s in h.conns
  {
    if msg.kind == HANDSHAKE && h.conns[s].peerId == [] && ParseHandshake(msg.payload).Some?
    then Bind(me, h, s, ParseHandshake(msg.payload).value, endpoint, now)
    else h
  }

  function Forwarded<S>(h: Hub<S>, s: S, msg: Message): Hub<S>
    requires s in h.conns
  {
    if h.conns[s].peerId == [] then h else h.(log := h.log + [Delivery(s, h.conns[s].peerId, msg)])
  }

  function Registrations<S>(h: Hub<S>, s: S): set<Text> {
    set k | k in h.registry && h.registry[k] == s
  }

  function Step<S>(me: Identity, h: Hub<S>, e: Event<S>): Hub<S> {
    match e
    case Accept(s) => if s in h.conns then h else h.(conns := h.conns[s := Conn([], false, [])])
    case Dial(s, now) =>
      if s in h.conns then h else h.(conns := h.conns[s := Conn([], true, [HandshakeMessage(me, now)])])
    case Receive(s, msg, endpoint, now) =>
      if s !in h.conns then h else Forwarded(Handled(me, h, s, msg, endpoint, now), s, msg)
    case Fail(s, now) =>
      if s !in h.conns || h.conns[s].peerId == [] then h
      else h.(peers := WithStatus(h.peers, h.conns[s].peerId, false, now))
    case Disconnect(id, now) =>
      if id !in h.registry then h
      else h.(registry := h.registry - {id}, peers := WithStatus(h.peers, id, false, now))
    case Send(id, msg) =>
      if id !in h.registry || h.registry[id] !in h.conns then h
      else var s := h.registry[id]; h.(conns := h.conns[s := h.conns[s].(sent := h.conns[s].sent + [msg])])
    case Broadcast(msg) =>
      h.(conns := map s | s in h.conns ::
        h.conns[s].(sent := h.conns[s].sent + Copies(msg, |Registrations(h, s)|)))
  }

  function Run<S>(me: Identity, h: Hub<S>, events: seq<Event<S>>): Hub<S>
    decreases events
  {
    if events == [] then h else Run(me, Step(me, h, events[0]), events[1..])
  }

  // ---- What each event does, and what it leaves alone

  /** A new session is unbound. A dialled one is outgoing and has sent our handshake; an
      accepted one has sent nothing. */
  lemma NewSession<S>(me: Identity, h: Hub<S>, s: S, t: Ticks)
    ensures var a, d := Step(me, h, Accept(s)), Step(me, h, Dial(s, t));
            if s in h.conns then a == d == h
            else
              && a == h.(conns := a.conns) && a.conns == h.conns[s := Conn([], false, [])]
              && d == h.(conns := d.conns) && d.conns == h.conns[s := Conn([], true, [HandshakeMessage(me, t)])]
  {
  }

  /** A message that does not bind its session goes to the user under the session's id, if
      it has one, and has no other effect. One that does binds and registers that session
      under the id it carries, enters it in the table, is answered on an accepted session,
      and touches no other session, registration or peer. */
  lemma ReceiveEffect<S>(me: Identity, h: Hub<S>, s: S, msg: Message, endpoint: Option<Endpoint>, now: Ticks)
    requires s in h.conns
    ensures var h', c := Step(me, h, Receive(s, msg, endpoint, now)), h.conns[s];
            if msg.kind != 1 || c.peerId != [] || ParseHandshake(msg.payload).None?
            then h' == h.(log := h.log + if c.peerId == [] then [] else [Delivery(s, c.peerId, msg)])
            else
              var who := ParseHandshake(msg.payload).value;
              var answer := if c.outgoing then [] else [HandshakeMessage(me, now)];
              && h'.conns == h.conns[s := Conn(who.id, c.outgoing, c.sent + answer)]
              && h'.registry == h.registry[who.id := s]
              && (forall k :: k != who.id ==> (k in h'.peers <==> k in h.peers))
              && (forall k :: k in h.peers && k != who.id ==> h'.peers[k] == h.peers[k])
              && (who.id in h'.peers <==> endpoint.Some? || who.id in h.peers)
              && (who.id in h'.peers ==>
                    h'.peers[who.id] ==
                    if endpoint.Some?
                    then PeerInfo(who.id, endpoint.value.address, endpoint.value.port, who.publicKey, true, now)
                    else h.peers[who.id].(isConnected := true, lastSeen := now))
              && h'.log == h.log + if who.id == [] then [] else [Delivery(s, who.id, msg)]
  {
    hide ParseHandshake, HandshakeMessage;
    assert h.log + [] == h.log && h.conns[s].sent + [] == h.conns[s].sent;
  }

  /** SendMessage writes the message on the session registered under that id, and on no
      other. */
  lemma SendEffect<S>(me: Identity, h: Hub<S>, id: Text, msg: Message)
    requires Inv(me, h)
    ensures var h' := Step(me, h, Send(id, msg));
            && h' == h.(conns := h'.conns) && h'.conns.Keys == h.conns.Keys
            && forall s :: s in h.conns ==> h'.conns[s] == h.conns[s].(sent :=
                 h.conns[s].sent + if id in h.registry && h.registry[id] == s then [msg] else [])
  {
  }

  /** BroadcastMessage writes and does nothing else; how much, BroadcastOnce says. */
  lemma BroadcastEffect<S>(me: Identity, h: Hub<S>, msg: Message)
    ensures var h' := Step(me, h, Broadcast(msg));
            && h' == h.(conns := h'.conns) && h'.conns.Keys == h.conns.Keys
            && forall s :: s in h.conns ==> h'.conns[s] == h.conns[s].(sent := h'.conns[s].sent)
  {
  }

  /** Errors and disconnects touch no session, and no peer but the one concerned. */
  lemma OfflineEffect<S>(me: Identity, h: Hub<S>, s: S, id: Text, now: Ticks)
    ensures var f, d := Step(me, h, Fail(s, now)), Step(me, h, Disconnect(id, now));
            && f == h.(peers := f.peers) && d == h.(peers := d.peers, registry := d.registry)
            && d.registry == h.registry - {id} && f.peers.Keys == d.peers.Keys == h.peers.Keys
            && (forall k :: k in h.peers ==>
                  f.peers[k] ==
                  if s in h.conns && h.conns[s].peerId == k != []
                  then h.peers[k].(isConnected := false, lastSeen := now) else h.peers[k])
            && (forall k :: k in h.peers ==>
                  d.peers[k] ==
                  if k == id && id in h.registry
                  then h.peers[k].(isConnected := false, lastSeen := now) else h.peers[k])
  {
    assert id !in h.registry ==> h.registry - {id} == h.registry;
  }

  // ---- What every run keeps

  ghost predicate IsHandshakeOf(m: Message, me: Identity) {
    m.kind == HANDSHAKE && m.payload == BuildHandshake(me)
  }

  /** Registered sessions exist, carry the id they are registered under, and have
      already been sent our handshake. */
  ghost predicate Registered<S>(h: Hub<S>) {
    forall k :: k in h.registry ==>
      && h.registry[k] in h.conns
      && (k != [] ==> h.conns[h.registry[k]].peerId == k)
      && h.conns[h.registry[k]].sent != []
  }

  /** Our handshake is the first thing on every connection that carries anything, and
      a dialled connection always carries it. */
  ghost predicate HandshakeFirst<S>(me: Identity, h: Hub<S>) {
    forall s :: s in h.conns ==>
      && (h.conns[s].sent != [] ==> IsHandshakeOf(h.conns[s].sent[0], me))
      && (h.conns[s].outgoing ==> h.conns[s].sent != [])
  }

  /** A peer shown as connected has a registered session. */
  ghost predicate ConnectedIsRegistered<S>(h: Hub<S>) {
    forall id :: id in h.peers && id != [] && h.peers[id].isConnected ==> id in h.registry
  }

  ghost predicate Inv<S>(me: Identity, h: Hub<S>) {
    Registered(h) && HandshakeFirst(me, h) && ConnectedIsRegistered(h)
  }

  /** Before Start: no session, and no peer (from a file, say) marked connected. */
  ghost predicate Initial<S>(h: Hub<S>) {
    && h.conns == map[] && h.registry == map[] && h.log == []
    && forall id :: id in h.peers ==> !h.peers[id].isConnected
  }

  lemma BindKeepsInv<S>(me: Identity, h: Hub<S>, s: S, who: Identity, endpoint: Option<Endpoint>, now: Ticks)
    requires Inv(me, h) && s in h.conns && h.conns[s].peerId == []
    ensures Inv(me, Bind(me, h, s, who, endpoint, now))
  {
  }

  lemma ReceiveKeepsInv<S>(me: Identity, h: Hub<S>, e: Event<S>)
    requires Inv(me, h) && e.Receive?
    ensures Inv(me, Step(me, h, e))
  {
    hide ParseHandshake, Learnt, HandshakeMessage;
    if e.session in h.conns && h.conns[e.session].peerId == [] && ParseHandshake(e.msg.payload).Some? {
      BindKeepsInv(me, h, e.session, ParseHandshake(e.msg.payload).value, e.endpoint, e.now);
    }
  }

  lemma BroadcastKeepsInv<S>(me: Identity, h: Hub<S>, msg: Message)
    requires Inv(me, h)
    ensures Inv(me, Step(me, h, Broadcast(msg)))
  {
  }

  lemma SendKeepsInv<S>(me: Identity, h: Hub<S>, id: Text, msg: Message)
    requires Inv(me, h)
    ensures Inv(me, Step(me, h, Send(id, msg)))
  {
  }

  lemma StepKeepsInv<S>(me: Identity, h: Hub<S>, e: Event<S>)
    requires Inv(me, h)
    ensures Inv(me, Step(me, h, e))
  {
    match e
    case Receive(_, _, _, _) => ReceiveKeepsInv(me, h, e);
    case Send(id, msg) => SendKeepsInv(me, h, id, msg);
    case Broadcast(msg) => BroadcastKeepsInv(me, h, msg);
    case _ =>
  }

  lemma {:induction false} RunKeepsInv<S>(me: Identity, h: Hub<S>, events: seq<Event<S>>)
    requires Inv(me, h)
    ensures Inv(me, Run(me, h, events))
    decreases events
  {
    if events != [] {
      StepKeepsInv(me, h, events[0]);
      RunKeepsInv(me, Step(me, h, events[0]), events[1..]);
    }
  }

  /** Every reachable state: connected peers are registered, registered sessions carry
      their id, so that different ids name different sessions, and our handshake opens
      every connection. */
  lemma ReachableStates<S>(me: Identity, h: Hub<S>, events: seq<Event<S>>)
    requires Initial(h)
    ensures var h' := Run(me, h, events);
            Inv(me, h') && forall j, k :: j in h'.registry && k in h'.registry && j != [] && k != [] && j != k ==>
              h'.registry[j] != h'.registry[k]
  {
    RunKeepsInv(me, h, events);
  }

  lemma StepKeepsPeerId<S>(me: Identity, h: Hub<S>, e: Event<S>, s: S)
    requires s in h.conns && h.conns[s].peerId != []
    ensures s in Step(me, h, e).conns && Step(me, h, e).conns[s].peerId == h.conns[s].peerId
  {
    hide ParseHandshake, HandshakeMessage, Learnt, WithStatus;
  }

  /** Once bound, a session keeps its peer id for the rest of the run. */
  lemma {:induction false} PeerIdNeverChanges<S>(me: Identity, h: Hub<S>, events: seq<Event<S>>, s: S)
    requires s in h.conns && h.conns[s].peerId != []
    ensures s in Run(me, h, events).conns && Run(me, h, events).conns[s].peerId == h.conns[s].peerId
    decreases events
  {
    hide Step;
    if events != [] {
      StepKeepsPeerId(me, h, events[0], s);
      PeerIdNeverChanges(me, Step(me, h, events[0]), events[1..], s);
    }
  }

  /** What the first well-formed handshake of a session leaves behind: the session is
      bound and registered under the sender's id, the table has the sender's key at the
      remote endpoint, and an accepted session has answered with a message that decodes
      to our own identity. */
  lemma HandshakeEffect<S>(me: Identity, h: Hub<S>, s: S, msg: Message, who: Identity, at: Endpoint, now: Ticks)
    requires s in h.conns && h.conns[s].peerId == []
    requires msg.kind == HANDSHAKE && msg.payload == BuildHandshake(who) && |who.id| < 0x1_0000
    requires |me.id| < 0x1_0000 && 2 + |me.id| + |me.publicKey| < TWO32
    ensures var h' := Step(me, h, Receive(s, msg, Some(at), now));
            && h'.conns[s].peerId == who.id && who.id in h'.registry && h'.registry[who.id] == s
            && h'.peers == h.peers[who.id := PeerInfo(who.id, at.address, at.port, who.publicKey, true, now)]
            && h.conns[s].sent <= h'.conns[s].sent
            && var answer := h'.conns[s].sent[|h.conns[s].sent|..];
               if h.conns[s].outgoing then answer == []
               else |answer| == 1 && Decode(Encode(answer[0])).Decoded?
                    && ParseHandshake(Decode(Encode(answer[0])).msg.payload) == Some(me)
  {
    hide Encode, Decode, ParseHandshake;
    HandshakeRoundTrip(who);
    HandshakeRoundTrip(me);
    var reply := HandshakeMessage(me, now);
    RoundTrip(reply, []);
    assert Encode(reply) + [] == Encode(reply);
    var h' := Step(me, h, Receive(s, msg, Some(at), now));
    var answer := h'.conns[s].sent[|h.conns[s].sent|..];
    assert !h.conns[s].outgoing ==> answer == [reply];
  }

  /** An error on a session, or a disconnect by id, shows the peer as offline; only the
      latter unregisters it. */
  lemma OfflineAfterwards<S>(me: Identity, h: Hub<S>, s: S, id: Text, now: Ticks)
    requires s in h.conns && h.conns[s].peerId == id != [] && id in h.registry
    ensures var failed, dropped := Step(me, h, Fail(s, now)), Step(me, h, Disconnect(id, now));
            && (id in h.peers ==> !failed.peers[id].isConnected && !dropped.peers[id].isConnected)
            && failed.registry == h.registry && dropped.registry == h.registry - {id}
            && forall k :: k in h.peers && k != id ==> failed.peers[k] == dropped.peers[k] == h.peers[k]
  {
  }

  lemma StepAppends<S>(me: Identity, h: Hub<S>, e: Event<S>, s: S)
    requires s in h.conns
    ensures s in Step(me, h, e).conns && h.conns[s].sent <= Step(me, h, e).conns[s].sent
  {
    hide ParseHandshake, HandshakeMessage, Learnt, WithStatus;
  }

  /** Nothing written to a socket is ever taken back. */
  lemma {:induction false} WritesOnlyAppend<S>(me: Identity, h: Hub<S>, events: seq<Event<S>>, s: S)
    requires s in h.conns
    ensures s in Run(me, h, events).conns && h.conns[s].sent <= Run(me, h, events).conns[s].sent
    decreases events
  {
    hide Step;
    if events != [] {
      StepAppends(me, h, events[0], s);
      WritesOnlyAppend(me, Step(me, h, events[0]), events[1..], s);
    }
  }

  // ---- Handshakes, each way

  /** One dial and one accept: whatever else the two nodes hold, after the two deliveries
      each has written exactly one handshake on the connection, each session carries the
      other node's id, and each table has the other node's key and endpoint. */
  lemma HandshakeExchange<S, T>(
      alice: Identity, a: Hub<S>, sa: S, atB: Endpoint, bob: Identity, b: Hub<T>, sb: T, atA: Endpoint,
      t: Ticks, u: Ticks, v: Ticks)
    requires sa !in a.conns && sb !in b.conns
    requires |alice.id| < 0x1_0000 && |bob.id| < 0x1_0000
    ensures var a1, b1 := Step(alice, a, Dial(sa, t)), Step(bob, b, Accept(sb));
            && |a1.conns[sa].sent| == 1
            && var b2 := Step(bob, b1, Receive(sb, Canonical(a1.conns[sa].sent[0]), Some(atA), u));
            && |b2.conns[sb].sent| == 1
            && var a2 := Step(alice, a1, Receive(sa, Canonical(b2.conns[sb].sent[0]), Some(atB), v));
            && a2.conns[sa] == Conn(bob.id, true, [HandshakeMessage(alice, t)])
            && b2.conns[sb] == Conn(alice.id, false, [HandshakeMessage(bob, u)])
            && a2.registry == a.registry[bob.id := sa] && b2.registry == b.registry[alice.id := sb]
            && a2.peers == a.peers[bob.id := PeerInfo(bob.id, atB.address, atB.port, bob.publicKey, true, v)]
            && b2.peers == b.peers[alice.id := PeerInfo(alice.id, atA.address, atA.port, alice.publicKey, true, u)]
  {
    hide ParseHandshake, BuildHandshake, Canonical, Step;
    HandshakeRoundTrip(alice);
    HandshakeRoundTrip(bob);
    NewSession(alice, a, sa, t);
    NewSession(bob, b, sb, t);
    var a1, b1 := Step(alice, a, Dial(sa, t)), Step(bob, b, Accept(sb));
    var hello := Canonical(HandshakeMessage(alice, t));
    BindingHandshake(bob, b1, sb, alice, hello, atA, u);
    BindingHandshake(alice, a1, sa, bob, Canonical(HandshakeMessage(bob, u)), atB, v);
  }

  lemma BindingHandshake<S>(me: Identity, h: Hub<S>, s: S, who: Identity, msg: Message, at: Endpoint, now: Ticks)
    requires s in h.conns && h.conns[s].peerId == [] && msg.kind == HANDSHAKE
    requires ParseHandshake(msg.payload) == Some(who)
    ensures var h', c := Step(me, h, Receive(s, msg, Some(at), now)), h.conns[s];
            && s in h'.conns && h'.registry == h.registry[who.id := s]
            && h'.conns[s] == Conn(who.id, c.outgoing, c.sent + if c.outgoing then [] else [HandshakeMessage(me, now)])
            && h'.peers == h.peers[who.id := PeerInfo(who.id, at.address, at.port, who.publicKey, true, now)]
  {
    hide ParseHandshake, HandshakeMessage;
  }

  /** A session has been written to exactly if it was dialled or is bound, and all but the
      first message are the user's own. */
  ghost predicate OneHandshakeEach<S>(h: Hub<S>, msgs: set<Message>) {
    forall s :: s in h.conns ==>
      && (h.conns[s].sent != [] <==> h.conns[s].outgoing || h.conns[s].peerId != [])
      && forall i :: 1 <= i < |h.conns[s].sent| ==> h.conns[s].sent[i] in msgs
  }

  ghost predicate UserSends<S(!new)>(events: seq<Event<S>>, msgs: set<Message>) {
    forall e :: e in events && (e.Send? || e.Broadcast?) ==> e.msg in msgs
  }

  lemma BroadcastKeepsOne<S>(me: Identity, h: Hub<S>, msg: Message, msgs: set<Message>)
    requires Inv(me, h) && [] !in h.registry && OneHandshakeEach(h, msgs) && msg in msgs
    ensures OneHandshakeEach(Step(me, h, Broadcast(msg)), msgs)
  {
    hide HandshakeFirst, ConnectedIsRegistered;
    forall s | s in h.conns && Registrations(h, s) != {} ensures h.conns[s].sent != [] {
      var k :| k in Registrations(h, s);
    }
  }

  lemma ReceiveKeepsOne<S>(
      me: Identity, h: Hub<S>, s: S, msg: Message, endpoint: Option<Endpoint>, now: Ticks, msgs: set<Message>)
    requires [] !in h.registry && OneHandshakeEach(h, msgs)
    requires msg.kind == HANDSHAKE && ParseHandshake(msg.payload).Some? ==> ParseHandshake(msg.payload).value.id != []
    ensures var h' := Step(me, h, Receive(s, msg, endpoint, now));
            [] !in h'.registry && OneHandshakeEach(h', msgs)
  {
    hide ParseHandshake, HandshakeMessage, Learnt;
  }

  lemma StepKeepsOne<S(!new)>(me: Identity, h: Hub<S>, e: Event<S>, msgs: set<Message>)
    requires Inv(me, h) && [] !in h.registry && OneHandshakeEach(h, msgs)
    requires NoEmptyIds([e]) && UserSends([e], msgs)
    ensures [] !in Step(me, h, e).registry && OneHandshakeEach(Step(me, h, e), msgs)
  {
    hide ParseHandshake, HandshakeMessage, Learnt, WithStatus, HandshakeFirst, ConnectedIsRegistered;
    assert e in [e];
    match e
    case Broadcast(msg) => BroadcastKeepsOne(me, h, msg, msgs);
    case Receive(s, msg, endpoint, now) => ReceiveKeepsOne(me, h, s, msg, endpoint, now, msgs);
    case _ =>
  }

  lemma {:induction false} RunKeepsOne<S(!new)>(me: Identity, h: Hub<S>, events: seq<Event<S>>, msgs: set<Message>)
    requires Inv(me, h) && [] !in h.registry && OneHandshakeEach(h, msgs)
    requires NoEmptyIds(events) && UserSends(events, msgs)
    ensures OneHandshakeEach(Run(me, h, events), msgs)
    decreases events
  {
    hide Step, Inv, OneHandshakeEach;
    if events != [] {
      assert events[0] in events && forall e :: e in events[1..] ==> e in events;
      StepKeepsInv(me, h, events[0]);
      StepKeepsOne(me, h, events[0], msgs);
      RunKeepsOne(me, Step(me, h, events[0]), events[1..], msgs);
    }
  }

  /** At most one handshake is written on a session in any run without empty ids: the first
      message is ours, there is one exactly if the session was dialled or is bound, and
      everything after it was sent by the user. */
  lemma OneHandshakePerSession<S(!new)>(me: Identity, h: Hub<S>, events: seq<Event<S>>, msgs: set<Message>, s: S)
    requires Initial(h) && NoEmptyIds(events) && UserSends(events, msgs)
    ensures s in Run(me, h, events).conns ==>
              var c := Run(me, h, events).conns[s];
              && (c.sent != [] <==> c.outgoing || c.peerId != [])
              && (c.sent != [] ==> IsHandshakeOf(c.sent[0], me))
              && forall i :: 1 <= i < |c.sent| ==> c.sent[i] in msgs
  {
    RunKeepsInv(me, h, events);
    RunKeepsOne(me, h, events, msgs);
  }

  /** Empty ids are the exception: an accepted session is answered every time. */
  lemma {:induction false} EmptyIdsAreAnswered<S>(me: Identity, h: Hub<S>, s: S, msg: Message, now: Ticks, n: nat)
    requires s in h.conns && !h.conns[s].outgoing && h.conns[s].peerId == []
    requires msg.kind == HANDSHAKE && msg.payload == BuildHandshake(Identity([], []))
    ensures var h' := Run(me, h, seq(n, _ => Receive(s, msg, None, now)));
            s in h'.conns && h'.conns[s].sent == h.conns[s].sent + Copies(HandshakeMessage(me, now), n)
    decreases n
  {
    hide ParseHandshake, HandshakeMessage, BuildHandshake;
    var e := Receive(s, msg, None, now);
    if n > 0 {
      HandshakeRoundTrip(Identity([], []));
      var h1 := Step(me, h, e);
      assert seq(n, _ => e)[1..] == seq(n - 1, _ => e);
      EmptyIdsAreAnswered(me, h1, s, msg, now, n - 1);
      assert h1.conns[s].sent == h.conns[s].sent + [HandshakeMessage(me, now)];
      var reply := HandshakeMessage(me, now);
      assert Copies(reply, n) == [reply] + Copies(reply, n - 1);
    }
  }

  // ---- Broadcast

  /** The one way to be registered twice: under the empty id, and under the id that a
      second handshake then bound. */
  predicate DoublyRegistered<S(==)>(h: Hub<S>) {
    && [] in h.registry && h.registry[[]] in h.conns
    && var s := h.registry[[]];
       var id := h.conns[s].peerId;
       id != [] && id in h.registry && h.registry[id] == s
  }

  lemma RegistrationsOf<S>(me: Identity, h: Hub<S>, s: S)
    requires Inv(me, h) && s in h.conns
    ensures Registrations(h, s) <= {[], h.conns[s].peerId}
  {
  }

  lemma AtMostOne(keys: set<Text>, k: Text)
    requires keys <= {k}
    ensures |keys| <= 1 && (|keys| == 1 <==> k in keys)
  {
    if k in keys {
      assert keys == {k};
    } else {
      assert keys == {};
    }
  }

  /** A broadcast writes one copy to each registered session, and nothing to any other,
      exactly when no session is registered twice. */
  lemma BroadcastOnce<S>(me: Identity, h: Hub<S>, msg: Message)
    requires Inv(me, h)
    ensures !DoublyRegistered(h) <==>
            forall s :: s in h.conns ==>
              Step(me, h, Broadcast(msg)).conns[s].sent ==
              h.conns[s].sent + if s in h.registry.Values then [msg] else []
  {
    hide HandshakeFirst, ConnectedIsRegistered;
    var h' := Step(me, h, Broadcast(msg));
    if DoublyRegistered(h) {
      var s := h.registry[[]];
      var id := h.conns[s].peerId;
      assert {[], id} <= Registrations(h, s);
      RegistrationsOf(me, h, s);
      assert Registrations(h, s) == {[], id};
      assert |h'.conns[s].sent| == |h.conns[s].sent| + 2;
    } else {
      forall s | s in h.conns
        ensures h'.conns[s].sent == h.conns[s].sent + if s in h.registry.Values then [msg] else []
      {
        RegistrationsOf(me, h, s);
        var keys, id := Registrations(h, s), h.conns[s].peerId;
        if s in h.registry.Values {
          var k :| k in h.registry && h.registry[k] == s;
          assert k in keys;
        } else {
          assert keys == {};
        }
        AtMostOne(keys, if [] in keys then [] else id);
      }
    }
  }

  /** Without handshakes that carry an empty id, nobody is ever registered twice. */
  ghost predicate NoEmptyIds<S(!new)>(events: seq<Event<S>>) {
    forall e :: e in events && e.Receive? && e.msg.kind == HANDSHAKE && ParseHandshake(e.msg.payload).Some? ==>
      ParseHandshake(e.msg.payload).value.id != []
  }

  lemma {:induction false} NoEmptyRegistration<S(!new)>(me: Identity, h: Hub<S>, events: seq<Event<S>>)
    requires [] !in h.registry && NoEmptyIds(events)
    ensures [] !in Run(me, h, events).registry && !DoublyRegistered(Run(me, h, events))
    decreases events
  {
    if events != [] {
      assert events[0] in events;
      NoEmptyRegistration(me, Step(me, h, events[0]), events[1..]);
    }
  }

  /** In such runs a broadcast puts one copy on each registered session and nothing
      elsewhere. */
  lemma BroadcastAfterRun<S(!new)>(me: Identity, h: Hub<S>, events: seq<Event<S>>, msg: Message)
    requires Initial(h) && NoEmptyIds(events)
    ensures var h' := Run(me, h, events);
            forall s :: s in h'.conns ==>
              Step(me, h', Broadcast(msg)).conns[s].sent ==
              h'.conns[s].sent + if s in h'.registry.Values then [msg] else []
  {
    hide Run, Step, Inv, DoublyRegistered;
    ReachableStates(me, h, events);
    NoEmptyRegistration(me, h, events);
    BroadcastOnce(me, Run(me, h, events), msg);
  }

  /** With them, it can happen: an incoming session that first sends an empty id. */
  lemma DoubleRegistrationIsReachable(me: Identity, h: Hub<nat>, first: Message, second: Message)
    requires Initial(h)
    requires first.kind == HANDSHAKE && first.payload == BuildHandshake(Identity([], []))
    requires second.kind == HANDSHAKE && second.payload == BuildHandshake(Identity([97], []))
    ensures DoublyRegistered(Run(me, h, [Accept(0), Receive(0, first, None, 0), Receive(0, second, None, 0)]))
  {
    hide BuildHandshake, ParseHandshake;
    HandshakeRoundTrip(Identity([], []));
    HandshakeRoundTrip(Identity([97], []));
    var e1, e2, e3: Event<nat> := Accept(0), Receive(0, first, None, 0), Receive(0, second, None, 0);
    var h1 := Step(me, h, e1);
    var h2 := Step(me, h1, e2);
    var h3 := Step(me, h2, e3);
    assert h2.conns[0].peerId == [] && h2.registry == map[[] := 0];
    assert h3.conns[0].peerId == [97] && h3.registry == map[[] := 0, [97] := 0];
    assert [e1, e2, e3][1..] == [e2, e3] && [e2, e3][1..] == [e3] && [e3][1..] == [];
    assert Run(me, h3, []) == h3;
    assert Run(me, h2, [e3]) == h3;
    assert Run(me, h1, [e2, e3]) == h3;
  }

  // ---- What the user handler sees

  predicate Opens(m: Message) {
    m.kind == HANDSHAKE && ParseHandshake(m.payload).Some? && ParseHandshake(m.payload).value.id != []
  }

  /** Position of the first well-formed handshake with a non-empty id. */
  function FirstOpening(ms: seq<Message>): (i: nat)
    ensures i <= |ms| && (i < |ms| ==> Opens(ms[i]))
    ensures forall j :: 0 <= j < i ==> !Opens(ms[j])
  {
    if ms == [] || Opens(ms[0]) then 0 else 1 + FirstOpening(ms[1..])
  }

  function AllUnder<S>(s: S, id: Text, ms: seq<Message>): (r: seq<Delivery<S>>)
    ensures |r| == |ms| && forall i :: 0 <= i < |ms| ==> r[i] == Delivery(s, id, ms[i])
  {
    seq(|ms|, i requires 0 <= i < |ms| => Delivery(s, id, ms[i]))
  }

  /** The suffix from the first opening handshake, all under the id it carries. */
  function Visible<S>(s: S, ms: seq<Message>): seq<Delivery<S>> {
    var i := FirstOpening(ms);
    if i == |ms| then [] else AllUnder(s, ParseHandshake(ms[i].payload).value.id, ms[i..])
  }

  function Received<S(==)>(events: seq<Event<S>>, s: S): seq<Message> {
    if events == [] then []
    else if events[0].Receive? && events[0].session == s then [events[0].msg] + Received(events[1..], s)
    else Received(events[1..], s)
  }

  function LogOf<S(==)>(log: seq<Delivery<S>>, s: S): seq<Delivery<S>> {
    if log == [] then []
    else
      var last := log[|log| - 1];
      LogOf(log[..|log| - 1], s) + if last.session == s then [last] else []
  }

  lemma LogAppend<S>(log: seq<Delivery<S>>, d: Delivery<S>, s: S)
    ensures LogOf(log + [d], s) == LogOf(log, s) + if d.session == s then [d] else []
  {
    assert (log + [d])[..|log|] == log;
  }

  lemma OtherEvents<S>(me: Identity, h: Hub<S>, e: Event<S>, s: S)
    requires s in h.conns && !(e.Receive? && e.session == s)
    ensures var h' := Step(me, h, e);
            s in h'.conns && h'.conns[s].peerId == h.conns[s].peerId && LogOf(h'.log, s) == LogOf(h.log, s)
  {
    if e.Receive? && e.session in h.conns {
      var h1 := Handled(me, h, e.session, e.msg, e.endpoint, e.now);
      LogAppend(h.log, Delivery(e.session, h1.conns[e.session].peerId, e.msg), s);
    }
  }

  lemma OwnEvent<S>(me: Identity, h: Hub<S>, e: Event<S>, s: S)
    requires s in h.conns && e.Receive? && e.session == s
    ensures var h' := Step(me, h, e);
            var id := if h.conns[s].peerId == [] && Opens(e.msg)
                      then ParseHandshake(e.msg.payload).value.id else h.conns[s].peerId;
            && s in h'.conns && h'.conns[s].peerId == id
            && LogOf(h'.log, s) == LogOf(h.log, s) + if id == [] then [] else [Delivery(s, id, e.msg)]
  {
    var h1 := Handled(me, h, s, e.msg, e.endpoint, e.now);
    LogAppend(h.log, Delivery(s, h1.conns[s].peerId, e.msg), s);
  }

  lemma AllUnderStep<S>(log: seq<Delivery<S>>, s: S, id: Text, m: Message, ms: seq<Message>)
    ensures log + [Delivery(s, id, m)] + AllUnder(s, id, ms) == log + AllUnder(s, id, [m] + ms)
  {
    assert AllUnder(s, id, [m] + ms) == [Delivery(s, id, m)] + AllUnder(s, id, ms);
  }

  /** From the moment it is bound, everything a session receives reaches the user under
      its id, in order, whatever the other sessions do. */
  lemma {:induction false} BoundSessionDeliversAll<S>(me: Identity, h: Hub<S>, events: seq<Event<S>>, s: S)
    requires s in h.conns && h.conns[s].peerId != []
    ensures LogOf(Run(me, h, events).log, s) ==
            LogOf(h.log, s) + AllUnder(s, h.conns[s].peerId, Received(events, s))
    decreases events
  {
    hide Step, Opens, LogOf, AllUnder, ParseHandshake;
    var id := h.conns[s].peerId;
    if events != [] {
      var e, h' := events[0], Step(me, h, events[0]);
      if e.Receive? && e.session == s {
        OwnEvent(me, h, e, s);
        BoundSessionDeliversAll(me, h', events[1..], s);
        AllUnderStep(LogOf(h.log, s), s, id, e.msg, Received(events[1..], s));
      } else {
        OtherEvents(me, h, e, s);
        BoundSessionDeliversAll(me, h', events[1..], s);
      }
    } else {
      assert LogOf(h.log, s) + [] == LogOf(h.log, s);
    }
  }

  lemma VisibleStep<S>(s: S, m: Message, ms: seq<Message>)
    ensures Visible(s, [m] + ms) ==
            if Opens(m) then AllUnder(s, ParseHandshake(m.payload).value.id, [m] + ms) else Visible(s, ms)
  {
    hide Opens;
    assert ([m] + ms)[1..] == ms && ([m] + ms)[0..] == [m] + ms;
    if !Opens(m) {
      var i := FirstOpening(ms);
      assert ([m] + ms)[i + 1..] == ms[i..];
    }
  }

  /** The user handler sees exactly the suffix of a session's messages that starts at
      the first opening handshake, in order and under that id. */
  lemma {:induction false} UserSeesSuffix<S>(me: Identity, h: Hub<S>, events: seq<Event<S>>, s: S)
    requires s in h.conns && h.conns[s].peerId == []
    ensures LogOf(Run(me, h, events).log, s) == LogOf(h.log, s) + Visible(s, Received(events, s))
    decreases events
  {
    hide Step, Opens, LogOf, Visible, ParseHandshake, AllUnder;
    if events == [] {
      NothingVisible(s);
      assert LogOf(h.log, s) + [] == LogOf(h.log, s);
    } else {
      var e, h', rest := events[0], Step(me, h, events[0]), Received(events[1..], s);
      if e.Receive? && e.session == s {
        OwnEvent(me, h, e, s);
        VisibleStep(s, e.msg, rest);
        if Opens(e.msg) {
          OpeningIdIsNonEmpty(e.msg);
          BoundSessionDeliversAll(me, h', events[1..], s);
          var id := ParseHandshake(e.msg.payload).value.id;
          AllUnderStep(LogOf(h.log, s), s, id, e.msg, rest);
        } else {
          UserSeesSuffix(me, h', events[1..], s);
        }
      } else {
        OtherEvents(me, h, e, s);
        UserSeesSuffix(me, h', events[1..], s);
      }
    }
  }

  lemma NothingVisible<S>(s: S)
    ensures Visible(s, []) == []
  {
  }

  lemma OpeningIdIsNonEmpty(m: Message)
    requires Opens(m)
    ensures ParseHandshake(m.payload).Some? && ParseHandshake(m.payload).value.id != []
  {
  }

  // ---- End to end

  /** From bytes to the user: the messages of a stream, cut anywhere, as the handler
      sees them. */
  lemma EndToEnd<S>(me: Identity, h: Hub<S>, events: seq<Event<S>>, s: S, ms: seq<Message>, n: nat)
    requires s in h.conns && h.conns[s].peerId == []
    requires WithinLimit(ms) && n <= |Flat(ms)|
    requires Received(events, s) == Frames(Flat(ms)[..n]).messages
    ensures LogOf(Run(me, h, events).log, s) ==
            LogOf(h.log, s) + Visible(s, CanonicalAll(ms[..WholeFrames(ms, n)]))
  {
    hide Frames, Visible;
    UserSeesSuffix(me, h, events, s);
    FramesOfPrefix(ms, n);
  }

  lemma OwnHandshakeOpens(me: Identity, m: Message)
    requires IsHandshakeOf(m, me) && me.id != [] && |me.id| < 0x1_0000
    ensures Opens(Canonical(m)) && ParseHandshake(Canonical(m).payload).value == me
  {
    HandshakeRoundTrip(me);
  }

  /** Two nodes: at any point of any run of the sender, and however much of what it wrote
      on a session has arrived, the receiver's user has seen every whole message of it,
      in order, under the sender's id. Nothing is dropped, because the sender's handshake
      is always first. */
  lemma NothingIsDropped<S, T>(
      alice: Identity, a: Hub<S>, aEvents: seq<Event<S>>, sa: S,
      bob: Identity, b: Hub<T>, bEvents: seq<Event<T>>, sb: T, n: nat)
    requires Inv(alice, a) && alice.id != [] && |alice.id| < 0x1_0000
    requires sb in b.conns && b.conns[sb].peerId == []
    ensures var a' := Run(alice, a, aEvents);
            sa in a'.conns ==>
              var sent := a'.conns[sa].sent;
              WithinLimit(sent) && n <= |Flat(sent)| && Received(bEvents, sb) == Frames(Flat(sent)[..n]).messages ==>
                LogOf(Run(bob, b, bEvents).log, sb) ==
                LogOf(b.log, sb) + AllUnder(sb, alice.id, CanonicalAll(sent[..WholeFrames(sent, n)]))
  {
    RunKeepsInv(alice, a, aEvents);
    if sa in Run(alice, a, aEvents).conns {
      hide Frames, Run, LogOf, Inv;
      var sent := Run(alice, a, aEvents).conns[sa].sent;
      if WithinLimit(sent) && n <= |Flat(sent)| && Received(bEvents, sb) == Frames(Flat(sent)[..n]).messages {
        FirstIsHandshake(alice, Run(alice, a, aEvents), sa);
        EndToEnd(bob, b, bEvents, sb, sent, n);
        VisibleFromHandshake(alice, sb, sent, WholeFrames(sent, n));
      }
    }
  }

  lemma FirstIsHandshake<S>(me: Identity, h: Hub<S>, s: S)
    requires Inv(me, h) && s in h.conns
    ensures h.conns[s].sent != [] ==> IsHandshakeOf(h.conns[s].sent[0], me)
  {
  }

  lemma VisibleFromHandshake<S>(who: Identity, s: S, sent: seq<Message>, k: nat)
    requires who.id != [] && |who.id| < 0x1_0000 && k <= |sent| && (sent != [] ==> IsHandshakeOf(sent[0], who))
    ensures Visible(s, CanonicalAll(sent[..k])) == AllUnder(s, who.id, CanonicalAll(sent[..k]))
  {
    hide Visible, Opens, ParseHandshake, Canonical, IsHandshakeOf;
    var seen := CanonicalAll(sent[..k]);
    if seen == [] {
      NothingVisible(s);
    } else {
      OwnHandshakeOpens(who, sent[0]);
      VisibleStep(s, seen[0], seen[1..]);
      assert [seen[0]] + seen[1..] == seen;
    }
  }
}
