/** The mutexes of the running program and the order in which its threads take them.
    A call is reduced to the locks it takes and gives back; any number of threads run
    any calls under any schedule. */
module Locks {

  datatype Mutex = Sockets | Peers | DisplayQueue
  datatype Op = Acquire(m: Mutex) | Release(m: Mutex)

  /** One execution of HandleMessage: whether it adds a peer, whether a connection
      handler is installed, and whether a message is displayed for the user. */
  datatype Handling = Handling(learnsPeer: bool, notifies: bool, displays: bool)

  datatype Call =
    | ConnectToPeer(connects: bool)             // false: the socket throws first
    | DisconnectPeer(found: bool, notifies: bool)
    | SendMessage
    | BroadcastMessage(dealers: nat)
    | GetConnectedPeers
    | Stop
    | RouteOnce(handled: Handling)              // one message of the router thread
    | PollOnce(received: seq<Handling>)         // one round of the poller thread
    | DisplayRound(waits: nat, shown: nat)      // one round of the display thread
    | QueueDisplay
    | TableCall                                 // any method of PeerManager

  function Briefly(m: Mutex): seq<Op> {
    [Acquire(m), Release(m)]
  }

  function Times(ops: seq<Op>, n: nat): seq<Op> {
    if n == 0 then [] else ops + Times(ops, n - 1)
  }

  /** AddPeer; UpdatePeerStatus and a line on the display from the connection handler;
      another line from the message handler. */
  function HandleMessage(h: Handling): seq<Op> {
    (if h.learnsPeer then Briefly(Peers) else [])
    + (if h.learnsPeer && h.notifies then Briefly(Peers) + Briefly(DisplayQueue) else [])
    + (if h.displays then Briefly(DisplayQueue) else [])
  }

  function PollEach(received: seq<Handling>): seq<Op> {
    if received == [] then []
    else [Acquire(Sockets)] + HandleMessage(received[0]) + [Release(Sockets)] + PollEach(received[1..])
  }

  /** SendToPeer called by a method that holds the sockets mutex: it locks again as
      written (`nested`), or runs within its caller's critical section. */
  function InnerSend(nested: bool): seq<Op> {
    if nested then Briefly(Sockets) else []
  }

  function Code(c: Call, nested: bool): seq<Op> {
    match c
    case ConnectToPeer(connects) =>
      [Acquire(Sockets)] + (if connects then InnerSend(nested) else []) + [Release(Sockets)]
    case DisconnectPeer(found, notifies) =>
      [Acquire(Sockets)]
      + (if found && notifies then Briefly(Peers) + Briefly(DisplayQueue) else [])
      + [Release(Sockets)]
    case SendMessage => Briefly(Sockets)
    case BroadcastMessage(dealers) =>
      [Acquire(Sockets)] + Times(InnerSend(nested), dealers) + Briefly(Peers) + [Release(Sockets)]
    case GetConnectedPeers => [Acquire(Sockets)] + Briefly(Peers) + [Release(Sockets)]
    case Stop => Briefly(Sockets)
    case RouteOnce(h) => HandleMessage(h)
    case PollOnce(received) => Briefly(Sockets) + PollEach(received)
    case DisplayRound(waits, shown) =>
      [Acquire(DisplayQueue)]
      + Times([Release(DisplayQueue), Acquire(DisplayQueue)], waits + shown)
      + [Release(DisplayQueue)]
    case QueueDisplay => Briefly(DisplayQueue)
    case TableCall => Briefly(Peers)
  }

  function Program(calls: seq<Call>, nested: bool): seq<Op> {
    if calls == [] then [] else Code(calls[0], nested) + Program(calls[1..], nested)
  }

  // ---- Lock order

  /** The only nestings: the peer table or the display inside the sockets mutex. */
  predicate Nests(outer: Mutex, inner: Mutex) {
    outer == Sockets && inner != Sockets
  }

  datatype Trace = OutOfOrder | Holding(held: set<Mutex>)

  function After(held: set<Mutex>, ops: seq<Op>): Trace
    decreases ops
  {
    if ops == [] then Holding(held)
    else match ops[0]
      case Acquire(m) =>
        if forall h :: h in held ==> Nests(h, m) then After(held + {m}, ops[1..]) else OutOfOrder
      case Release(m) => if m in held then After(held - {m}, ops[1..]) else OutOfOrder
  }

  lemma {:induction false} AfterAppend(held: set<Mutex>, a: seq<Op>, b: seq<Op>)
    ensures After(held, a + b) ==
            match After(held, a) case OutOfOrder => OutOfOrder case Holding(h) => After(h, b)
    decreases a
  {
    if a == [] {
      assert a + b == b;
    } else {
      assert (a + b)[0] == a[0] && (a + b)[1..] == a[1..] + b;
      match a[0]
      case Acquire(m) => AfterAppend(held + {m}, a[1..], b);
      case Release(m) => AfterAppend(held - {m}, a[1..], b);
    }
  }

  lemma AfterBriefly(held: set<Mutex>, m: Mutex)
    requires forall h :: h in held ==> Nests(h, m)
    requires m !in held
    ensures After(held, Briefly(m)) == Holding(held)
  {
    var ops := Briefly(m);
    assert ops[1..] == [Release(m)] && ops[1..][1..] == [];
    assert held + {m} - {m} == held;
    assert After(held + {m}, ops[1..]) == After(held, []);
  }

  lemma {:induction false} AfterTimes(held: set<Mutex>, ops: seq<Op>, n: nat)
    requires After(held, ops) == Holding(held)
    ensures After(held, Times(ops, n)) == Holding(held)
  {
    if n > 0 {
      AfterTimes(held, ops, n - 1);
      AfterAppend(held, ops, Times(ops, n - 1));
    }
  }

  lemma AfterBracket(m: Mutex, body: seq<Op>)
    requires After({m}, body) == Holding({m})
    ensures After({}, [Acquire(m)] + body + [Release(m)]) == Holding({})
  {
    AfterAppend({}, [Acquire(m)] + body, [Release(m)]);
    AfterAppend({}, [Acquire(m)], body);
    assert {} + {m} == {m} && {m} - {m} == {};
    assert [Acquire(m)][1..] == [] && [Release(m)][1..] == [];
  }

  lemma AfterHandle(held: set<Mutex>, h: Handling)
    requires held <= {Sockets}
    ensures After(held, HandleMessage(h)) == Holding(held)
  {
    AfterBriefly(held, Peers);
    AfterBriefly(held, DisplayQueue);
    var a := if h.learnsPeer then Briefly(Peers) else [];
    var b := if h.learnsPeer && h.notifies then Briefly(Peers) + Briefly(DisplayQueue) else [];
    var c := if h.displays then Briefly(DisplayQueue) else [];
    AfterAppend(held, Briefly(Peers), Briefly(DisplayQueue));
    AfterAppend(held, a, b);
    AfterAppend(held, a + b, c);
  }

  lemma {:induction false} AfterPollEach(received: seq<Handling>)
    ensures After({}, PollEach(received)) == Holding({})
  {
    if received != [] {
      var body := HandleMessage(received[0]);
      AfterHandle({Sockets}, received[0]);
      AfterBracket(Sockets, body);
      AfterPollEach(received[1..]);
      AfterAppend({}, [Acquire(Sockets)] + body + [Release(Sockets)], PollEach(received[1..]));
    }
  }

  /** The calls whose path goes through SendToPeer with the mutex already held. */
  predicate Relocks(c: Call) {
    (c.ConnectToPeer? && c.connects) || (c.BroadcastMessage? && c.dealers > 0)
  }

  lemma InlinedIsOrdered(c: Call)
    ensures After({}, Code(c, false)) == Holding({})
  {
    NothingTaken({Sockets});
    hide After, Taken, Briefly, PollEach, HandleMessage, Times;
    AfterBriefly({}, Sockets);
    AfterBriefly({}, Peers);
    AfterBriefly({}, DisplayQueue);
    AfterBriefly({Sockets}, Peers);
    AfterBriefly({Sockets}, DisplayQueue);
    match c
    case ConnectToPeer(connects) => AfterBracket(Sockets, []);
      assert Code(c, false) == [Acquire(Sockets)] + [] + [Release(Sockets)];
    case DisconnectPeer(found, notifies) =>
      AfterAppend({Sockets}, Briefly(Peers), Briefly(DisplayQueue));
      AfterBracket(Sockets, if found && notifies then Briefly(Peers) + Briefly(DisplayQueue) else []);
    case BroadcastMessage(dealers) =>
      AfterTimes({Sockets}, [], dealers);
      AfterAppend({Sockets}, Times([], dealers), Briefly(Peers));
      AfterBracket(Sockets, Times([], dealers) + Briefly(Peers));
      assert Code(c, false) == [Acquire(Sockets)] + (Times([], dealers) + Briefly(Peers)) + [Release(Sockets)];
    case GetConnectedPeers => AfterBracket(Sockets, Briefly(Peers));
    case RouteOnce(h) => AfterHandle({}, h);
    case PollOnce(received) =>
      AfterPollEach(received);
      AfterAppend({}, Briefly(Sockets), PollEach(received));
    case DisplayRound(waits, shown) =>
      RoundTakes(waits + shown);
      AfterBracket(DisplayQueue, Times([Release(DisplayQueue), Acquire(DisplayQueue)], waits + shown));
    case _ =>
  }

  /** A call that locks again starts by taking the sockets mutex twice. */
  lemma RelockShape(c: Call)
    requires Relocks(c)
    ensures |Code(c, true)| >= 2 && Code(c, true)[..2] == [Acquire(Sockets), Acquire(Sockets)]
  {
    if c.BroadcastMessage? {
      assert Times(Briefly(Sockets), c.dealers)[0] == Acquire(Sockets);
    }
  }

  /** Every call respects the order when SendToPeer runs within its caller's lock; as
      written, exactly the calls that lock again do not. */
  lemma LockOrder(c: Call, nested: bool)
    ensures After({}, Code(c, nested)) == Holding({}) <==> !(nested && Relocks(c))
  {
    InlinedIsOrdered(c);
    if nested && Relocks(c) {
      RelockShape(c);
      var ops := Code(c, true);
      assert ops[0] == ops[..2][0] && ops[1] == ops[..2][1];
      assert ops[1..][0] == Acquire(Sockets);
      assert Sockets in {} + {Sockets} && !Nests(Sockets, Sockets);
    } else if nested {
      if c.BroadcastMessage? {
        assert Times(InnerSend(true), 0) == Times(InnerSend(false), 0);
      }
      assert Code(c, true) == Code(c, false);
    }
  }

  // ---- Which locks are taken, and under which

  /** Every acquisition, with what is held at that moment. */
  function Taken(held: set<Mutex>, ops: seq<Op>): multiset<(set<Mutex>, Mutex)>
    decreases ops
  {
    if ops == [] then multiset{}
    else match ops[0]
      case Acquire(m) => multiset{(held, m)} + Taken(held + {m}, ops[1..])
      case Release(m) => Taken(held - {m}, ops[1..])
  }

  lemma {:induction false} TakenAppend(held: set<Mutex>, a: seq<Op>, b: seq<Op>)
    requires After(held, a) == Holding(held)
    ensures Taken(held, a + b) == Taken(held, a) + Taken(held, b)
  {
    TakenThen(held, a, b, held);
  }

  lemma {:induction false} TakenThen(held: set<Mutex>, a: seq<Op>, b: seq<Op>, later: set<Mutex>)
    requires After(held, a) == Holding(later)
    ensures Taken(held, a + b) == Taken(held, a) + Taken(later, b)
    decreases a
  {
    if a == [] {
      assert a + b == b;
    } else {
      assert (a + b)[0] == a[0] && (a + b)[1..] == a[1..] + b;
      match a[0]
      case Acquire(m) => TakenThen(held + {m}, a[1..], b, later);
      case Release(m) => TakenThen(held - {m}, a[1..], b, later);
    }
  }

  lemma TakenBriefly(held: set<Mutex>, m: Mutex)
    requires m !in held
    ensures Taken(held, Briefly(m)) == multiset{(held, m)}
  {
    var ops := Briefly(m);
    assert ops[1..] == [Release(m)] && ops[1..][1..] == [];
    assert Taken(held + {m}, ops[1..]) == Taken(held + {m} - {m}, []);
  }

  lemma TakenBracket(m: Mutex, body: seq<Op>)
    requires After({m}, body) == Holding({m})
    ensures Taken({}, [Acquire(m)] + body + [Release(m)]) == multiset{({}, m)} + Taken({m}, body)
  {
    var ops := [Acquire(m)] + body + [Release(m)];
    assert ops[1..] == body + [Release(m)] && {} + {m} == {m};
    TakenAppend({m}, body, [Release(m)]);
    assert [Release(m)][1..] == [];
    assert Taken({m}, [Release(m)]) == Taken({m} - {m}, []);
  }

  /** HandleMessage: the peer table when a peer is learned and again when its status is set;
      the display when that is announced and when a message is shown. */
  function TakenInHandle(held: set<Mutex>, h: Handling): multiset<(set<Mutex>, Mutex)> {
    (if h.learnsPeer then multiset{(held, Peers)} else multiset{})
    + (if h.learnsPeer && h.notifies then multiset{(held, Peers), (held, DisplayQueue)} else multiset{})
    + (if h.displays then multiset{(held, DisplayQueue)} else multiset{})
  }

  lemma NothingTaken(held: set<Mutex>)
    ensures Taken(held, []) == multiset{} && After(held, []) == Holding(held)
  {
  }

  lemma HandleTakes(held: set<Mutex>, h: Handling)
    requires held <= {Sockets}
    ensures Taken(held, HandleMessage(h)) == TakenInHandle(held, h)
  {
    NothingTaken(held);
    hide Taken, After, Briefly;
    TakenBriefly(held, Peers);
    TakenBriefly(held, DisplayQueue);
    AfterBriefly(held, Peers);
    AfterBriefly(held, DisplayQueue);
    var a := if h.learnsPeer then Briefly(Peers) else [];
    var b := if h.learnsPeer && h.notifies then Briefly(Peers) + Briefly(DisplayQueue) else [];
    var c := if h.displays then Briefly(DisplayQueue) else [];
    TakenAppend(held, Briefly(Peers), Briefly(DisplayQueue));
    AfterAppend(held, Briefly(Peers), Briefly(DisplayQueue));
    TakenAppend(held, a, b);
    AfterAppend(held, a, b);
    TakenAppend(held, a + b, c);
  }

  function TakenInPoll(received: seq<Handling>): multiset<(set<Mutex>, Mutex)> {
    if received == [] then multiset{}
    else multiset{({}, Sockets)} + TakenInHandle({Sockets}, received[0]) + TakenInPoll(received[1..])
  }

  lemma {:induction false} PollTakes(received: seq<Handling>)
    ensures Taken({}, PollEach(received)) == TakenInPoll(received)
  {
    if received != [] {
      var body := HandleMessage(received[0]);
      AfterHandle({Sockets}, received[0]);
      HandleTakes({Sockets}, received[0]);
      AfterBracket(Sockets, body);
      TakenBracket(Sockets, body);
      PollTakes(received[1..]);
      TakenAppend({}, [Acquire(Sockets)] + body + [Release(Sockets)], PollEach(received[1..]));
    }
  }

  lemma {:induction false} RoundTakes(n: nat)
    ensures var again := [Release(DisplayQueue), Acquire(DisplayQueue)];
            && After({DisplayQueue}, Times(again, n)) == Holding({DisplayQueue})
            && Taken({DisplayQueue}, Times(again, n)) == multiset{}[({}, DisplayQueue) := n]
  {
    var again := [Release(DisplayQueue), Acquire(DisplayQueue)];
    assert again[1..] == [Acquire(DisplayQueue)] && again[1..][1..] == [];
    assert {DisplayQueue} - {DisplayQueue} == {} && {} + {DisplayQueue} == {DisplayQueue};
    assert After({}, again[1..]) == After({DisplayQueue}, []);
    assert Taken({}, again[1..]) == multiset{({}, DisplayQueue)};
    if n > 0 {
      RoundTakes(n - 1);
      AfterAppend({DisplayQueue}, again, Times(again, n - 1));
      TakenAppend({DisplayQueue}, again, Times(again, n - 1));
    }
  }

  /** The locks of every call, each with the locks it is taken under, when SendToPeer runs
      within its caller's lock. */
  function TakenBy(c: Call): multiset<(set<Mutex>, Mutex)> {
    match c
    case ConnectToPeer(_) => multiset{({}, Sockets)}
    case DisconnectPeer(found, notifies) =>
      if found && notifies then multiset{({}, Sockets), ({Sockets}, Peers), ({Sockets}, DisplayQueue)}
      else multiset{({}, Sockets)}
    case SendMessage => multiset{({}, Sockets)}
    case BroadcastMessage(_) => multiset{({}, Sockets), ({Sockets}, Peers)}
    case GetConnectedPeers => multiset{({}, Sockets), ({Sockets}, Peers)}
    case Stop => multiset{({}, Sockets)}
    case RouteOnce(h) => TakenInHandle({}, h)
    case PollOnce(received) => multiset{({}, Sockets)} + TakenInPoll(received)
    case DisplayRound(waits, shown) => multiset{}[({}, DisplayQueue) := 1 + waits + shown]
    case QueueDisplay => multiset{({}, DisplayQueue)}
    case TableCall => multiset{({}, Peers)}
  }

  lemma LocksTaken(c: Call)
    ensures Taken({}, Code(c, false)) == TakenBy(c)
  {
    hide Taken, After, PollEach, HandleMessage, TakenInPoll, TakenInHandle, Times;
    match c
    case ConnectToPeer(connects) =>
      DisconnectTakes(false);
      assert Code(c, false) == [Acquire(Sockets)] + [] + [Release(Sockets)];
    case SendMessage => TakenBriefly({}, Sockets);
    case Stop => TakenBriefly({}, Sockets);
    case QueueDisplay => TakenBriefly({}, DisplayQueue);
    case TableCall => TakenBriefly({}, Peers);
    case DisconnectPeer(found, notifies) => DisconnectTakes(found && notifies);
    case BroadcastMessage(dealers) =>
      TimesNothing(dealers);
      TableInSockets();
      assert Code(c, false) == [Acquire(Sockets)] + Briefly(Peers) + [Release(Sockets)];
    case GetConnectedPeers => TableInSockets();
    case RouteOnce(h) => HandleTakes({}, h);
    case PollOnce(received) =>
      AfterBriefly({}, Sockets);
      TakenBriefly({}, Sockets);
      PollTakes(received);
      TakenAppend({}, Briefly(Sockets), PollEach(received));
    case DisplayRound(waits, shown) =>
      RoundTakes(waits + shown);
      TakenBracket(DisplayQueue, Times([Release(DisplayQueue), Acquire(DisplayQueue)], waits + shown));
  }

  lemma TableInSockets()
    ensures Taken({}, [Acquire(Sockets)] + Briefly(Peers) + [Release(Sockets)]) ==
            multiset{({}, Sockets), ({Sockets}, Peers)}
  {
    AfterBriefly({Sockets}, Peers);
    TakenBriefly({Sockets}, Peers);
    TakenBracket(Sockets, Briefly(Peers));
  }

  lemma DisconnectTakes(told: bool)
    ensures var body := if told then Briefly(Peers) + Briefly(DisplayQueue) else [];
            Taken({}, [Acquire(Sockets)] + body + [Release(Sockets)]) ==
            if told then multiset{({}, Sockets), ({Sockets}, Peers), ({Sockets}, DisplayQueue)}
            else multiset{({}, Sockets)}
  {
    AfterBriefly({Sockets}, Peers);
    AfterBriefly({Sockets}, DisplayQueue);
    TakenBriefly({Sockets}, Peers);
    TakenBriefly({Sockets}, DisplayQueue);
    AfterAppend({Sockets}, Briefly(Peers), Briefly(DisplayQueue));
    TakenAppend({Sockets}, Briefly(Peers), Briefly(DisplayQueue));
    TakenBracket(Sockets, if told then Briefly(Peers) + Briefly(DisplayQueue) else []);
  }

  lemma {:induction false} TimesNothing(n: nat)
    ensures Times([], n) == []
  {
    if n > 0 {
      TimesNothing(n - 1);
    }
  }

  lemma NestedInHandle(h: Handling)
    ensures ({Sockets}, Peers) in TakenInHandle({Sockets}, h) <==> h.learnsPeer
    ensures ({Sockets}, DisplayQueue) in TakenInHandle({Sockets}, h) <==> (h.learnsPeer && h.notifies) || h.displays
  {
  }

  lemma {:induction false} NestedInPoll(received: seq<Handling>)
    ensures ({Sockets}, Peers) in TakenInPoll(received) <==> exists h :: h in received && h.learnsPeer
    ensures ({Sockets}, DisplayQueue) in TakenInPoll(received) <==>
            exists h :: h in received && ((h.learnsPeer && h.notifies) || h.displays)
  {
    hide TakenInHandle;
    if received != [] {
      NestedInHandle(received[0]);
      NestedInPoll(received[1..]);
      assert received == [received[0]] + received[1..];
    }
  }

  /** The two nestings are real, and these are the calls that reach them. */
  lemma NestingCalls(c: Call)
    ensures ({Sockets}, Peers) in Taken({}, Code(c, false)) <==>
            || c.BroadcastMessage? || c.GetConnectedPeers? || (c.DisconnectPeer? && c.found && c.notifies)
            || (c.PollOnce? && exists h :: h in c.received && h.learnsPeer)
    ensures ({Sockets}, DisplayQueue) in Taken({}, Code(c, false)) <==>
            || (c.DisconnectPeer? && c.found && c.notifies)
            || (c.PollOnce? && exists h :: h in c.received && ((h.learnsPeer && h.notifies) || h.displays))
  {
    hide Taken, Code;
    LocksTaken(c);
    if c.PollOnce? {
      NestedInPoll(c.received);
    }
  }

  lemma {:induction false} ProgramIsOrdered(calls: seq<Call>, nested: bool)
    requires forall c :: c in calls ==> !(nested && Relocks(c))
    ensures After({}, Program(calls, nested)) == Holding({})
  {
    if calls != [] {
      assert calls[0] in calls;
      LockOrder(calls[0], nested);
      ProgramIsOrdered(calls[1..], nested);
      AfterAppend({}, Code(calls[0], nested), Program(calls[1..], nested));
    }
  }

  function TakenByAll(calls: seq<Call>): multiset<(set<Mutex>, Mutex)> {
    if calls == [] then multiset{} else TakenBy(calls[0]) + TakenByAll(calls[1..])
  }

  /** A thread takes the locks of all its calls. */
  lemma {:induction false} ProgramTakes(calls: seq<Call>)
    ensures Taken({}, Program(calls, false)) == TakenByAll(calls)
  {
    hide Code, TakenBy;
    if calls != [] {
      LockOrder(calls[0], false);
      LocksTaken(calls[0]);
      ProgramTakes(calls[1..]);
      TakenAppend({}, Code(calls[0], false), Program(calls[1..], false));
    }
  }

  // ---- Threads

  /** What each thread still has to do, and which thread holds each mutex. */
  datatype System = System(todo: seq<seq<Op>>, owner: map<Mutex, nat>)

  predicate CanStep(s: System, t: nat) {
    t < |s.todo| && s.todo[t] != [] && (s.todo[t][0].Acquire? ==> s.todo[t][0].m !in s.owner)
  }

  /** A thread that cannot step stays where it is. A release only gives back a mutex its
      own thread holds. */
  function Step(s: System, t: nat): System {
    if !CanStep(s, t) then s
    else
      var op := s.todo[t][0];
      System(s.todo[t := s.todo[t][1..]],
        if op.Acquire? then s.owner[op.m := t]
        else if op.m in s.owner && s.owner[op.m] == t then s.owner - {op.m}
        else s.owner)
  }

  function Run(s: System, schedule: seq<nat>): System
    decreases schedule
  {
    if schedule == [] then s else Run(Step(s, schedule[0]), schedule[1..])
  }

  function Launch(programs: seq<seq<Op>>): System {
    System(programs, map[])
  }

  function Held(s: System, t: nat): set<Mutex> {
    set m | m in s.owner && s.owner[m] == t
  }

  ghost predicate Ordered(s: System) {
    && (forall m :: m in s.owner ==> s.owner[m] < |s.todo|)
    && (forall t: nat :: t < |s.todo| ==> After(Held(s, t), s.todo[t]) == Holding({}))
  }

  lemma StepKeepsOrdered(s: System, t: nat)
    requires Ordered(s)
    ensures Ordered(Step(s, t))
  {
    if CanStep(s, t) {
      var s', m := Step(s, t), s.todo[t][0].m;
      assert After(Held(s, t), s.todo[t]) == Holding({});
      assert Held(s', t) == if s.todo[t][0].Acquire? then Held(s, t) + {m} else Held(s, t) - {m};
      forall u: nat | u < |s'.todo| ensures After(Held(s', u), s'.todo[u]) == Holding({}) {
        if u != t {
          assert s.todo[t][0].Release? ==> m in Held(s, t);
          assert Held(s', u) == Held(s, u);
        }
      }
    }
  }

  lemma {:induction false} RunKeepsOrdered(s: System, schedule: seq<nat>)
    requires Ordered(s)
    ensures Ordered(Run(s, schedule)) && |Run(s, schedule).todo| == |s.todo|
    decreases schedule
  {
    if schedule != [] {
      StepKeepsOrdered(s, schedule[0]);
      RunKeepsOrdered(Step(s, schedule[0]), schedule[1..]);
    }
  }

  /** Thread `t` is about to take a mutex that thread `u` holds. */
  predicate WaitsFor(s: System, t: nat, u: nat) {
    t < |s.todo| && s.todo[t] != [] && s.todo[t][0].Acquire? &&
    s.todo[t][0].m in s.owner && s.owner[s.todo[t][0].m] == u
  }

  /** Waiting never chains past one thread: whoever a waiting thread waits for holds the
      sockets mutex only, and whoever that one waits for can go on. */
  lemma WaitChainsAreShort(s: System, t: nat, u: nat, v: nat)
    requires Ordered(s) && WaitsFor(s, t, u) && WaitsFor(s, u, v)
    ensures CanStep(s, v)
  {
    var m, n := s.todo[t][0].m, s.todo[u][0].m;
    assert m in Held(s, u) && n in Held(s, v);
    assert After(Held(s, u), s.todo[u]) == Holding({});
    assert Nests(m, n);
    assert After(Held(s, v), s.todo[v]) == Holding({});
  }

  ghost predicate WaitPath(s: System, path: seq<nat>) {
    forall i :: 0 <= i < |path| - 1 ==> WaitsFor(s, path[i], path[i + 1])
  }

  lemma WaitPathsAreShort(s: System, path: seq<nat>)
    requires Ordered(s) && WaitPath(s, path)
    ensures |path| <= 3 && (|path| >= 2 ==> path[0] != path[|path| - 1])
  {
    if |path| >= 2 {
      assert WaitsFor(s, path[0], path[0 + 1]);
      if |path| >= 3 {
        assert WaitsFor(s, path[1], path[1 + 1]);
        WaitChainsAreShort(s, path[0], path[1], path[2]);
        assert |path| >= 4 ==> WaitsFor(s, path[2], path[2 + 1]);
      } else if path[0] == path[1] {
        WaitChainsAreShort(s, path[0], path[0], path[0]);
      }
    }
  }

  predicate Finished(s: System) {
    forall t :: 0 <= t < |s.todo| ==> s.todo[t] == []
  }

  lemma SomeoneCanStep(s: System) returns (t: nat)
    requires Ordered(s) && !Finished(s)
    ensures CanStep(s, t)
  {
    t :| t < |s.todo| && s.todo[t] != [];
    if !CanStep(s, t) {
      var m := s.todo[t][0].m;
      var u := s.owner[m];
      assert WaitsFor(s, t, u);
      assert m in Held(s, u) && After(Held(s, u), s.todo[u]) == Holding({});
      if CanStep(s, u) {
        t := u;
      } else {
        assert WaitsFor(s, u, s.owner[s.todo[u][0].m]);
        WaitChainsAreShort(s, t, u, s.owner[s.todo[u][0].m]);
        t := s.owner[s.todo[u][0].m];
      }
    }
  }

  function Total(todo: seq<seq<Op>>): nat {
    if todo == [] then 0 else |todo[0]| + Total(todo[1..])
  }

  lemma {:induction false} TotalDrops(todo: seq<seq<Op>>, t: nat)
    requires t < |todo| && todo[t] != []
    ensures Total(todo[t := todo[t][1..]]) == Total(todo) - 1
  {
    var todo' := todo[t := todo[t][1..]];
    if t == 0 {
      assert todo'[1..] == todo[1..];
    } else {
      TotalDrops(todo[1..], t - 1);
      assert todo'[1..] == todo[1..][t - 1 := todo[t][1..]];
    }
  }

  lemma {:induction false} CanFinish(s: System) returns (schedule: seq<nat>)
    requires Ordered(s)
    ensures Finished(Run(s, schedule))
    decreases Total(s.todo)
  {
    if Finished(s) {
      schedule := [];
    } else {
      var t := SomeoneCanStep(s);
      TotalDrops(s.todo, t);
      StepKeepsOrdered(s, t);
      var rest := CanFinish(Step(s, t));
      schedule := [t] + rest;
      assert schedule[1..] == rest;
    }
  }

  function Programs(threads: seq<seq<Call>>, nested: bool): (ps: seq<seq<Op>>)
    ensures |ps| == |threads| && forall t :: 0 <= t < |threads| ==> ps[t] == Program(threads[t], nested)
  {
    seq(|threads|, t requires 0 <= t < |threads| => Program(threads[t], nested))
  }

  /** The calls that keep the lock order: all of them when SendToPeer runs within its
      caller's lock; as written, those off the two paths through it. */
  ghost predicate KeepsOrder(threads: seq<seq<Call>>, nested: bool) {
    forall t, c :: 0 <= t < |threads| && c in threads[t] ==> !(nested && Relocks(c))
  }

  lemma ReachableIsOrdered(threads: seq<seq<Call>>, nested: bool, schedule: seq<nat>)
    requires KeepsOrder(threads, nested)
    ensures Ordered(Run(Launch(Programs(threads, nested)), schedule))
  {
    var start := Launch(Programs(threads, nested));
    forall t: nat | t < |start.todo| ensures After(Held(start, t), start.todo[t]) == Holding({}) {
      ProgramIsOrdered(threads[t], nested);
      assert Held(start, t) == {};
    }
    RunKeepsOrdered(start, schedule);
  }

  /** No cyclic wait, of any length, in any state that any threads reach under any
      schedule: a chain of waiting threads has at most three, all different. */
  lemma NoCyclicWait(threads: seq<seq<Call>>, nested: bool, schedule: seq<nat>, path: seq<nat>)
    requires KeepsOrder(threads, nested)
    ensures WaitPath(Run(Launch(Programs(threads, nested)), schedule), path) ==>
              |path| <= 3 && forall i, j :: 0 <= i < j < |path| ==> path[i] != path[j]
  {
    ReachableIsOrdered(threads, nested, schedule);
    var s := Run(Launch(Programs(threads, nested)), schedule);
    if WaitPath(s, path) {
      WaitPathsAreShort(s, path);
      if |path| == 3 {
        WaitPathsAreShort(s, path[..2]);
        WaitPathsAreShort(s, path[1..]);
      }
    }
  }

  /** No deadlock: whatever the threads call and however they were scheduled so far, some
      thread can go on until all have finished, and they can all finish. */
  lemma NoDeadlock(threads: seq<seq<Call>>, nested: bool, schedule: seq<nat>)
    requires KeepsOrder(threads, nested)
    ensures var s := Run(Launch(Programs(threads, nested)), schedule);
            && (Finished(s) || exists t: nat :: CanStep(s, t))
            && exists rest: seq<nat> :: Finished(Run(s, rest))
  {
    ReachableIsOrdered(threads, nested, schedule);
    var s := Run(Launch(Programs(threads, nested)), schedule);
    if !Finished(s) {
      var t := SomeoneCanStep(s);
    }
    var rest := CanFinish(s);
  }

  // ---- The second lock

  function Twice(rest: seq<Op>): (ops: seq<Op>)
    ensures |ops| == |rest| + 2 && ops[0] == ops[1] == Acquire(Sockets) && ops[2..] == rest
  {
    [Acquire(Sockets), Acquire(Sockets)] + rest
  }

  ghost predicate EndsWith(ops: seq<Op>, tail: seq<Op>) {
    |ops| >= |tail| && ops[|ops| - |tail|..] == tail
  }

  /** Thread `t` has yet to lock the sockets mutex twice in a row before `rest`, or has
      locked it once and still holds it. */
  ghost predicate Doomed(s: System, t: nat, rest: seq<Op>) {
    && t < |s.todo|
    && (|| EndsWith(s.todo[t], Twice(rest))
        || (s.todo[t] == [Acquire(Sockets)] + rest && Sockets in s.owner && s.owner[Sockets] == t))
  }

  lemma DoomedStep(s: System, u: nat, t: nat, rest: seq<Op>)
    requires Doomed(s, t, rest)
    ensures Doomed(Step(s, u), t, rest)
  {
    var ops := s.todo[t];
    if u == t && CanStep(s, t) {
      if |ops| == |rest| + 2 {
        assert ops == Twice(rest);
        assert ops[1..] == [Acquire(Sockets)] + rest;
      } else {
        assert EndsWith(ops, Twice(rest));
        var k := |ops| - |Twice(rest)|;
        assert ops[1..][k - 1..] == ops[k..];
      }
    }
  }

  lemma {:induction false} DoomedForever(s: System, schedule: seq<nat>, t: nat, rest: seq<Op>)
    requires Doomed(s, t, rest)
    ensures Doomed(Run(s, schedule), t, rest) && Run(s, schedule).todo[t] != []
    decreases schedule
  {
    if schedule != [] {
      DoomedStep(s, schedule[0], t, rest);
      DoomedForever(Step(s, schedule[0]), schedule[1..], t, rest);
    }
  }

  lemma EndsWithAppend(a: seq<Op>, b: seq<Op>, tail: seq<Op>)
    requires EndsWith(b, tail)
    ensures EndsWith(a + b, tail)
  {
    assert (a + b)[|a| + |b| - |tail|..] == b[|b| - |tail|..];
  }

  lemma StartsTwice(a: seq<Op>, b: seq<Op>)
    requires |a| >= 2 && a[..2] == [Acquire(Sockets), Acquire(Sockets)]
    ensures EndsWith(a + b, Twice(a[2..] + b))
  {
    assert a == a[..2] + a[2..];
    assert a + b == Twice(a[2..] + b);
  }

  lemma {:induction false} RelockInProgram(calls: seq<Call>, c: Call) returns (rest: seq<Op>)
    requires c in calls && Relocks(c)
    ensures EndsWith(Program(calls, true), Twice(rest))
  {
    hide Code, EndsWith, Relocks;
    var code, tail := Code(calls[0], true), Program(calls[1..], true);
    if calls[0] == c {
      RelockShape(c);
      StartsTwice(code, tail);
      rest := code[2..] + tail;
    } else {
      rest := RelockInProgram(calls[1..], c);
      EndsWithAppend(code, tail, Twice(rest));
    }
  }

  /** As written, a thread that takes one of those paths never returns, under any
      schedule and whatever the other threads do. */
  lemma RelockNeverReturns(threads: seq<seq<Call>>, t: nat, c: Call, schedule: seq<nat>)
    requires t < |threads| && c in threads[t] && Relocks(c)
    ensures var s := Run(Launch(Programs(threads, true)), schedule);
            t < |s.todo| && s.todo[t] != []
  {
    var rest := RelockInProgram(threads[t], c);
    DoomedForever(Launch(Programs(threads, true)), schedule, t, rest);
  }

  /** So the threads of the program as written can all finish exactly when none of them
      connects to a peer or broadcasts over a dealer. */
  lemma FinishesAsWritten(threads: seq<seq<Call>>)
    ensures (exists schedule :: Finished(Run(Launch(Programs(threads, true)), schedule))) <==>
            forall t, c :: 0 <= t < |threads| && c in threads[t] ==> !Relocks(c)
  {
    if t, c :| 0 <= t < |threads| && c in threads[t] && Relocks(c) {
      forall schedule ensures !Finished(Run(Launch(Programs(threads, true)), schedule)) {
        RelockNeverReturns(threads, t, c, schedule);
      }
    } else {
      NoDeadlock(threads, true, []);
    }
  }
}
