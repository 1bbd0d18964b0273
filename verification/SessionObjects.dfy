/** The session machine as the objects of the source: a Session per connection and the
    manager that owns the registry. Every method is proved to take exactly the step
    that module Sessions reasons about. */
module SessionObjects {
  import opened Bytes
  import opened Codec
  import opened Framing
  import opened PeerStore
  import opened Sessions

  /** What the surroundings give each handler call: the remote endpoint and the time. */
  type Environment = nat -> (Option<Endpoint>, Ticks)

  class Session {
    var peerId: Text
    const outgoing: bool
    var sent: seq<Message>
    var open: bool

    constructor (outgoing: bool)
      ensures peerId == [] && this.outgoing == outgoing && sent == [] && open
    {
      peerId, this.outgoing, sent, open := [], outgoing, [], true;
    }

    /** One write of a whole message. */
    method SendMessage(message: Message)
      modifies this`sent
      ensures sent == old(sent) + [message]
    {
      sent := sent + [message];
    }
  }

  class NetworkManager {
    const me: Identity
    const peerManager: PeerManager
    var sessions: map<Text, Session>
    var log: seq<Delivery<Session>>
    ghost var live: set<Session>

    ghost predicate Valid()
      reads this
    {
      forall k :: k in sessions ==> sessions[k] in live
    }

    ghost function Conns(): map<Session, Conn>
      reads this`live, live
    {
      map s | s in live :: Conn(s.peerId, s.outgoing, s.sent)
    }

    ghost function State(): Hub<Session>
      reads this, live, peerManager
    {
      Hub(Conns(), sessions, peerManager.peers, log)
    }

    constructor (me: Identity, peerManager: PeerManager)
      ensures Valid() && this.me == me && this.peerManager == peerManager
      ensures State() == Hub(map[], map[], peerManager.peers, [])
    {
      this.me, this.peerManager := me, peerManager;
      sessions, log, live := map[], [], {};
    }

    method AcceptSession() returns (session: Session)
      requires Valid()
      modifies this`live
      ensures Valid() && fresh(session) && live == old(live) + {session} && session.open
      ensures State() == Step(me, old(State()), Accept(session))
    {
      session := new Session(false);
      live := live + {session};
    }

    method ConnectToPeer(now: Ticks) returns (session: Session)
      requires Valid()
      modifies this`live
      ensures Valid() && fresh(session) && live == old(live) + {session} && session.open
      ensures State() == Step(me, old(State()), Dial(session, now))
    {
      session := new Session(true);
      var handshake := CreateHandshakeMessage(me, now);
      session.SendMessage(handshake);
      assert session.sent == [HandshakeMessage(me, now)];
      live := live + {session};
    }

    method HandleSessionMessage(session: Session, msg: Message, endpoint: Option<Endpoint>, now: Ticks)
      requires Valid() && session in live
      modifies this`sessions, this`log, session`peerId, session`sent, peerManager
      ensures Valid()
      ensures State() == Step(me, old(State()), Receive(session, msg, endpoint, now))
    {
      hide Handled;
      HandleHandshake(session, msg, endpoint, now);
      if session.peerId != [] {
        log := log + [Delivery(session, session.peerId, msg)];
      }
    }

    /** The first half of HandleSessionMessage: a handshake on an unbound session. */
    method HandleHandshake(session: Session, msg: Message, endpoint: Option<Endpoint>, now: Ticks)
      requires Valid() && session in live
      modifies this`sessions, session`peerId, session`sent, peerManager
      ensures Valid()
      ensures State() == Handled(me, old(State()), session, msg, endpoint, now)
    {
      hide BuildHandshake, Value, Bind;
      if msg.kind == HANDSHAKE && session.peerId == [] {
        var payload := msg.payload;
        if |payload| >= 2 {
          var idLen := payload[0] as int * 256 + payload[1] as int;
          assert idLen == Value(payload[..2]) by { ValueOfTwo(payload[..2]); }
          if |payload| >= 2 + idLen {
            BindSession(session, Identity(payload[2..2 + idLen], payload[2 + idLen..]), endpoint, now);
          }
        }
      }
    }

    method BindSession(session: Session, who: Identity, endpoint: Option<Endpoint>, now: Ticks)
      requires Valid() && session in live
      modifies this`sessions, session`peerId, session`sent, peerManager
      ensures Valid()
      ensures State() == Bind(me, old(State()), session, who, endpoint, now)
    {
      hide HandshakeMessage, Learnt, Conns;
      Register(session, who.id);
      UpdatePeerInfo(who, endpoint, now);
      Reply(session, now);
    }

    method Register(session: Session, peerId: Text)
      requires Valid() && session in live
      modifies this`sessions, session`peerId
      ensures Valid() && sessions == old(sessions)[peerId := session] && session in old(Conns())
      ensures Conns() == old(Conns())[session := old(Conns())[session].(peerId := peerId)]
    {
      session.peerId := peerId;
      sessions := sessions[peerId := session];
    }

    /** An accepted session answers; a dialled one has sent its handshake already. */
    method Reply(session: Session, now: Ticks)
      requires session in live
      modifies session`sent
      ensures var c := old(Conns())[session];
              var sent := if c.outgoing then c.sent else c.sent + [HandshakeMessage(me, now)];
              Conns() == old(Conns())[session := c.(sent := sent)]
    {
      if !session.outgoing {
        var response := CreateHandshakeMessage(me, now);
        session.SendMessage(response);
      }
    }

    method UpdatePeerInfo(who: Identity, endpoint: Option<Endpoint>, now: Ticks)
      modifies peerManager
      ensures peerManager.peers == Learnt(old(peerManager.peers), who, endpoint, now)
    {
      if endpoint.Some? {
        peerManager.AddPeer(PeerInfo(who.id, endpoint.value.address, endpoint.value.port, who.publicKey, true, now));
      }
      ConnectionHandler(who.id, true, now);
    }

    /** The handler the command line installs; what it displays is not modelled. */
    method ConnectionHandler(peerId: Text, connected: bool, now: Ticks)
      modifies peerManager
      ensures peerManager.peers == WithStatus(old(peerManager.peers), peerId, connected, now)
    {
      peerManager.UpdatePeerStatus(peerId, connected, now);
    }

    method HandleError(session: Session, now: Ticks)
      requires Valid() && session in live
      modifies session`open, peerManager
      ensures Valid() && !session.open
      ensures State() == Step(me, old(State()), Fail(session, now))
    {
      if session.peerId != [] {
        ConnectionHandler(session.peerId, false, now);
      }
      session.open := false;
    }

    method DisconnectPeer(peerId: Text, now: Ticks)
      requires Valid()
      modifies this`sessions, peerManager
      ensures Valid()
      ensures State() == Step(me, old(State()), Disconnect(peerId, now))
    {
      if peerId in sessions {
        sessions := sessions - {peerId};
        ConnectionHandler(peerId, false, now);
      }
    }

    method SendMessage(peerId: Text, message: Message)
      requires Valid()
      modifies live`sent
      ensures Valid()
      ensures State() == Step(me, old(State()), Send(peerId, message))
    {
      if peerId in sessions {
        var session := sessions[peerId];
        session.SendMessage(message);
      }
    }

    method BroadcastMessage(message: Message, order: seq<Text>)
      requires Valid() && Enumerates(order, sessions.Keys)
      modifies live`sent
      ensures Valid()
      ensures State() == Step(me, old(State()), Broadcast(message))
    {
      hide Count, Targets, Registrations, Copies;
      ghost var after := Step(me, State(), Broadcast(message));
      var targets := SnapshotSessions(order);
      SendAll(targets, message);
      forall s | s in live ensures Count(targets, s) == |Registrations(old(State()), s)| {
        CountIsRegistrations(old(State()), order, s);
      }
      assert State().conns == after.conns;
    }

    /** The first loop of BroadcastMessage, under the lock. */
    method SnapshotSessions(order: seq<Text>) returns (targets: seq<Session>)
      requires Valid() && Enumerates(order, sessions.Keys)
      ensures targets == Targets(sessions, order)
      ensures forall t :: t in targets ==> t in live
    {
      targets := [];
      var i := 0;
      while i < |order|
        invariant 0 <= i <= |order|
        invariant targets == Targets(sessions, order[..i])
      {
        assert order[..i + 1] == order[..i] + [order[i]];
        targets := targets + [sessions[order[i]]];
        i := i + 1;
      }
      assert order[..i] == order;
    }

    /** The second loop, after the lock is released. */
    method SendAll(targets: seq<Session>, message: Message)
      requires forall t :: t in targets ==> t in live
      modifies live`sent
      ensures forall s :: s in live ==> s.sent == old(s.sent) + Copies(message, Count(targets, s))
    {
      hide Count, Copies;
      var j := 0;
      forall s ensures Count(targets[..0], s) == 0 && Copies(message, 0) == [] {
        NoneCounted(s);
      }
      while j < |targets|
        invariant 0 <= j <= |targets|
        invariant forall s :: s in live ==> s.sent == old(s.sent) + Copies(message, Count(targets[..j], s))
      {
        var t := targets[j];
        forall s ensures Count(targets[..j + 1], s) == Count(targets[..j], s) + if s == t then 1 else 0 {
          CountStep(targets, j, s);
        }
        assert Copies(message, Count(targets[..j], t)) + [message] == Copies(message, Count(targets[..j], t) + 1);
        t.SendMessage(message);
        j := j + 1;
      }
      assert targets[..j] == targets;
    }

    /** Session::Run: read, frame and handle until the stream ends. The environment gives
        each handler call its endpoint and time; `k` counts the calls. */
    method RunSession(session: Session, stream: seq<byte>, env: Environment) returns (stop: Stop, k: nat)
      requires Valid() && session in live
      modifies this`sessions, this`log, session`peerId, session`sent, peerManager
      ensures Valid() && stop == Frames(stream).stop && k == |Frames(stream).messages|
      ensures State() == Run(me, old(State()), Receives(session, Frames(stream).messages, 0, env))
    {
      hide Step, Frames, Receives, Run;
      var rest := stream;
      k := 0;
      while true
        invariant Valid() && session in live
        invariant Frames(rest).stop == Frames(stream).stop
        invariant k + |Frames(rest).messages| == |Frames(stream).messages|
        invariant Run(me, State(), Receives(session, Frames(rest).messages, k, env)) ==
                  Run(me, old(State()), Receives(session, Frames(stream).messages, 0, env))
        decreases |rest|
      {
        var read := ReadMessage(rest);
        if read.Ended? {
          NothingReceived(me, State(), session, k, env);
          return read.stop, k;
        }
        ghost var ahead := Frames(rest).messages;
        ReceivesStep(me, State(), session, ahead, k, env);
        rest := read.rest;
        assert ahead[1..] == Frames(rest).messages;
        HandleSessionMessage(session, read.msg, env(k).0, env(k).1);
        k := k + 1;
      }
    }

    /** Session::Start: run, and handle the error that ended it. An unbound session hands
        the user exactly the visible part of its stream. */
    method Start(session: Session, stream: seq<byte>, env: Environment) returns (stop: Stop)
      requires Valid() && session in live
      modifies this`sessions, this`log, session, peerManager
      ensures Valid() && stop == Frames(stream).stop && (stop != Overflow ==> !session.open)
      ensures stop != Overflow ==>
        var ms := Frames(stream).messages;
        State() == Step(me, Run(me, old(State()), Receives(session, ms, 0, env)), Fail(session, env(|ms|).1))
      ensures stop != Overflow && old(session.peerId) == [] ==>
        LogOf(log, session) == old(LogOf(log, session)) + Visible(session, Frames(stream).messages)
    {
      hide Step, Frames, Run, Receives, LogOf, Visible;
      var k;
      stop, k := RunSession(session, stream, env);
      if stop == Overflow {
        return;
      }
      HandleError(session, env(k).1);
      if old(session.peerId) == [] {
        StreamReachesUser(me, old(State()), session, stream, env);
      }
    }
  }

  /** The handler calls that a list of messages on one session gives rise to. */
  ghost function Receives(s: Session, ms: seq<Message>, k: nat, env: Environment): seq<Event<Session>> {
    if ms == [] then [] else [Receive(s, ms[0], env(k).0, env(k).1)] + Receives(s, ms[1..], k + 1, env)
  }

  lemma {:induction false} ReceivedOfReceives(s: Session, ms: seq<Message>, k: nat, env: Environment)
    ensures Received(Receives(s, ms, k, env), s) == ms
  {
    if ms != [] {
      ReceivedOfReceives(s, ms[1..], k + 1, env);
      assert Receives(s, ms, k, env)[1..] == Receives(s, ms[1..], k + 1, env);
      assert [ms[0]] + ms[1..] == ms;
    }
  }

  lemma NothingReceived(me: Identity, h: Hub<Session>, s: Session, k: nat, env: Environment)
    ensures Run(me, h, Receives(s, [], k, env)) == h
  {
  }

  /** The i-th call gets the i-th message, endpoint and time. */
  lemma {:induction false} ReceivesAt(s: Session, ms: seq<Message>, k: nat, env: Environment, i: nat)
    requires i < |ms|
    ensures |Receives(s, ms, k, env)| == |ms|
    ensures Receives(s, ms, k, env)[i] == Receive(s, ms[i], env(k + i).0, env(k + i).1)
  {
    if |ms| > 1 {
      ReceivesAt(s, ms[1..], k + 1, env, if i > 0 then i - 1 else 0);
    }
  }

  /** What the read loop of an unbound session hands to the user, from the bytes alone. */
  lemma StreamReachesUser(me: Identity, h: Hub<Session>, s: Session, stream: seq<byte>, env: Environment)
    requires s in h.conns && h.conns[s].peerId == []
    ensures var ms := Frames(stream).messages;
            var h' := Step(me, Run(me, h, Receives(s, ms, 0, env)), Fail(s, env(|ms|).1));
            LogOf(h'.log, s) == LogOf(h.log, s) + Visible(s, ms)
  {
    hide Frames, Visible, LogOf, Run;
    var ms := Frames(stream).messages;
    ReceivedOfReceives(s, ms, 0, env);
    UserSeesSuffix(me, h, Receives(s, ms, 0, env), s);
  }

  /** The same for a sender's messages: every whole one within any cut of their stream,
      from the first opening handshake on. */
  lemma MessagesReachUser(
      me: Identity, h: Hub<Session>, s: Session, sent: seq<Message>, n: nat, env: Environment)
    requires s in h.conns && h.conns[s].peerId == [] && WithinLimit(sent) && n <= |Flat(sent)|
    ensures var events := Receives(s, Frames(Flat(sent)[..n]).messages, 0, env);
            LogOf(Run(me, h, events).log, s) == LogOf(h.log, s) + Visible(s, CanonicalAll(sent[..WholeFrames(sent, n)]))
  {
    hide Frames, Visible, LogOf, Run, Flat;
    var ms := Frames(Flat(sent)[..n]).messages;
    ReceivedOfReceives(s, ms, 0, env);
    EndToEnd(me, h, Receives(s, ms, 0, env), s, sent, n);
  }

  lemma ReceivesStep(me: Identity, h: Hub<Session>, s: Session, ms: seq<Message>, k: nat, env: Environment)
    requires ms != []
    ensures Run(me, h, Receives(s, ms, k, env)) ==
            Run(me, Step(me, h, Receive(s, ms[0], env(k).0, env(k).1)), Receives(s, ms[1..], k + 1, env))
  {
    var es := Receives(s, ms, k, env);
    assert es[1..] == Receives(s, ms[1..], k + 1, env);
  }

  ghost function Targets(sessions: map<Text, Session>, order: seq<Text>): seq<Session>
    requires forall k :: k in order ==> k in sessions
  {
    seq(|order|, i requires 0 <= i < |order| => sessions[order[i]])
  }

  ghost function Count(targets: seq<Session>, s: Session): nat {
    if targets == [] then 0
    else Count(targets[..|targets| - 1], s) + if targets[|targets| - 1] == s then 1 else 0
  }

  lemma NoneCounted(s: Session)
    ensures Count([], s) == 0
  {
  }

  lemma CountStep(targets: seq<Session>, j: nat, s: Session)
    requires j < |targets|
    ensures Count(targets[..j + 1], s) == Count(targets[..j], s) + if s == targets[j] then 1 else 0
  {
    assert targets[..j + 1][..j] == targets[..j];
  }

  ghost function KeysTo(sessions: map<Text, Session>, order: seq<Text>, s: Session): set<Text>
    requires forall k :: k in order ==> k in sessions
  {
    set k | k in order && sessions[k] == s
  }

  lemma KeysToStep(sessions: map<Text, Session>, init: seq<Text>, last: Text, s: Session)
    requires last in sessions && (forall k :: k in init ==> k in sessions) && last !in init
    ensures |KeysTo(sessions, init + [last], s)| == |KeysTo(sessions, init, s)| + if sessions[last] == s then 1 else 0
  {
    var before := KeysTo(sessions, init, s);
    assert KeysTo(sessions, init + [last], s) == if sessions[last] == s then before + {last} else before;
  }

  lemma {:induction false} CountIsKeys(sessions: map<Text, Session>, order: seq<Text>, s: Session)
    requires forall k :: k in order ==> k in sessions
    requires forall i, j :: 0 <= i < j < |order| ==> order[i] != order[j]
    ensures Count(Targets(sessions, order), s) == |KeysTo(sessions, order, s)|
  {
    if order == [] {
      assert KeysTo(sessions, order, s) == {};
    } else {
      hide KeysTo;
      var init, last := order[..|order| - 1], order[|order| - 1];
      assert order == init + [last];
      assert Targets(sessions, order)[..|order| - 1] == Targets(sessions, init);
      CountIsKeys(sessions, init, s);
      KeysToStep(sessions, init, last, s);
    }
  }

  lemma CountIsRegistrations(h: Hub<Session>, order: seq<Text>, s: Session)
    requires Enumerates(order, h.registry.Keys)
    ensures Count(Targets(h.registry, order), s) == |Registrations(h, s)|
  {
    CountIsKeys(h.registry, order, s);
    assert Registrations(h, s) == KeysTo(h.registry, order, s);
  }
}
