/** The display queue: any number of producers, one display thread, one mutex and one
    condition variable. An action is one atomic step of one thread; an action that is
    not enabled changes nothing, so every action sequence is an interleaving. */
module Display {

  datatype Owner = Free | ByDisplay | ByProducer(p: nat)

  /** Where the display thread is in its loop. */
  datatype DisplayPc<T> =
    | Top                  // about to test `running`
    | Locking              // about to take the lock
    | Testing              // in wait, lock held, about to test the predicate
    | Committed            // predicate was false, lock still held
    | Blocked              // asleep on the condition variable
    | Woken                // notified, has to take the lock again
    | Draining             // inner loop, lock held
    | Popped(item: T)      // item taken, lock held
    | Showing(item: T)     // item taken, lock released
    | Relocking            // item shown, about to take the lock
    | Exited

  /** Where a producer is in queueDisplay; a producer not in the map is outside it. */
  datatype ProducerPc<T> = Locked(item: T) | Pushed | Unlocked

  datatype State<T> = State(
    owner: Owner, display: DisplayPc<T>, producers: map<nat, ProducerPc<T>>, queue: seq<T>,
    running: bool, pendingStops: nat, pushed: seq<T>, shown: seq<T>)

  datatype Action<T> =
    | Advance              // the next step of the display thread
    | SpuriousWakeup
    | Lock(p: nat, item: T)
    | Push(p: nat)
    | Unlock(p: nat)
    | Notify(p: nat)
    | Quit                 // HandleQuit clears `running` and notifies nobody
    | StopBegin            // Stop clears `running` ...
    | StopNotify           // ... and then notifies

  function Initial<T>(): State<T> {
    State(Free, Top, map[], [], true, 0, [], [])
  }

  function Advanced<T>(s: State<T>): State<T> {
    match s.display
    case Top => s.(display := if s.running then Locking else Exited)
    case Locking => if s.owner.Free? then s.(owner := ByDisplay, display := Testing) else s
    case Testing => s.(display := if s.queue != [] || !s.running then Draining else Committed)
    case Committed => s.(owner := Free, display := Blocked)
    case Blocked => s
    case Woken => if s.owner.Free? then s.(owner := ByDisplay, display := Testing) else s
    case Draining =>
      if s.queue == [] then s.(owner := Free, display := Top)
      else s.(display := Popped(s.queue[0]), queue := s.queue[1..])
    case Popped(item) => s.(owner := Free, display := Showing(item))
    case Showing(item) => s.(display := Relocking, shown := s.shown + [item])
    case Relocking => if s.owner.Free? then s.(owner := ByDisplay, display := Draining) else s
    case Exited => s
  }

  function Wake<T>(s: State<T>): State<T> {
    if s.display.Blocked? then s.(display := Woken) else s
  }

  function Step<T>(s: State<T>, a: Action<T>): State<T> {
    match a
    case Advance => Advanced(s)
    case SpuriousWakeup => Wake(s)
    case Lock(p, item) =>
      if s.owner.Free? && p !in s.producers
      then s.(owner := ByProducer(p), producers := s.producers[p := Locked(item)]) else s
    case Push(p) =>
      if p in s.producers && s.producers[p].Locked?
      then
        var item := s.producers[p].item;
        s.(queue := s.queue + [item], pushed := s.pushed + [item], producers := s.producers[p := Pushed])
      else s
    case Unlock(p) =>
      if p in s.producers && s.producers[p].Pushed?
      then s.(owner := Free, producers := s.producers[p := Unlocked]) else s
    case Notify(p) =>
      if p in s.producers && s.producers[p].Unlocked?
      then Wake(s.(producers := s.producers - {p})) else s
    case Quit => s.(running := false)
    case StopBegin => s.(running := false, pendingStops := s.pendingStops + 1)
    case StopNotify => if s.pendingStops > 0 then Wake(s.(pendingStops := s.pendingStops - 1)) else s
  }

  function Run<T>(s: State<T>, actions: seq<Action<T>>): State<T>
    decreases actions
  {
    if actions == [] then s else Run(Step(s, actions[0]), actions[1..])
  }

  // ---- Invariants

  function InHand<T>(d: DisplayPc<T>): seq<T> {
    match d
    case Popped(item) => [item]
    case Showing(item) => [item]
    case _ => []
  }

  predicate DisplayHolds<T>(d: DisplayPc<T>) {
    d.Testing? || d.Committed? || d.Draining? || d.Popped?
  }

  predicate ProducerHolds<T>(pc: ProducerPc<T>) {
    pc.Locked? || pc.Pushed?
  }

  /** The mutex is held by exactly the thread that is inside a critical section. */
  ghost predicate MutualExclusion<T>(s: State<T>) {
    && (s.owner == ByDisplay <==> DisplayHolds(s.display))
    && (forall p :: p in s.producers ==> (s.owner == ByProducer(p) <==> ProducerHolds(s.producers[p])))
    && (s.owner.ByProducer? ==> s.owner.p in s.producers)
  }

  /** What was pushed is what was shown, then the item in hand, then the queue. */
  ghost predicate Conserved<T>(s: State<T>) {
    s.pushed == s.shown + InHand(s.display) + s.queue
  }

  ghost predicate WakeupDue<T>(s: State<T>) {
    exists p :: p in s.producers && (s.producers[p].Pushed? || s.producers[p].Unlocked?)
  }

  ghost predicate Inv<T>(s: State<T>) {
    && MutualExclusion(s)
    && Conserved(s)
    && (s.display.Committed? ==> s.queue == [])
    && (s.display.Blocked? && s.queue != [] ==> WakeupDue(s))
    && (s.display.Exited? || s.pendingStops > 0 ==> !s.running)
  }

  lemma AdvanceKeepsInv<T>(s: State<T>)
    requires Inv(s)
    ensures Inv(Advanced(s))
  {
    AdvanceConserves(s);
  }

  lemma AdvanceConserves<T>(s: State<T>)
    requires Conserved(s)
    ensures Conserved(Advanced(s))
  {
    if s.display.Draining? && s.queue != [] {
      assert s.queue == [s.queue[0]] + s.queue[1..];
    }
  }

  lemma PushKeepsInv<T>(s: State<T>, p: nat)
    requires Inv(s)
    ensures Inv(Step(s, Action<T>.Push(p)))
  {
    if p in s.producers && s.producers[p].Locked? {
      var s' := Step(s, Action<T>.Push(p));
      assert s'.producers[p].Pushed?;
      assert Conserved(s');
    }
  }

  lemma StepKeepsInv<T>(s: State<T>, a: Action<T>)
    requires Inv(s)
    ensures Inv(Step(s, a))
  {
    match a
    case Advance => AdvanceKeepsInv(s);
    case Push(p) => PushKeepsInv(s, p);
    case Unlock(p) =>
      if p in s.producers && s.producers[p].Pushed? {
        assert Step(s, a).producers[p].Unlocked?;
      }
    case Lock(p, item) => LockKeepsInv(s, p, item);
    case Notify(p) => NotifyKeepsInv(s, p);
    case _ =>
  }

  lemma LockKeepsInv<T>(s: State<T>, p: nat, item: T)
    requires Inv(s)
    ensures Inv(Step(s, Lock(p, item)))
  {
    if WakeupDue(s) {
      var q :| q in s.producers && (s.producers[q].Pushed? || s.producers[q].Unlocked?);
      assert q in Step(s, Lock(p, item)).producers;
      assert WakeupDue(Step(s, Lock(p, item)));
    }
  }

  lemma NotifyKeepsInv<T>(s: State<T>, p: nat)
    requires Inv(s)
    ensures Inv(Step(s, Action<T>.Notify(p)))
  {
  }

  lemma {:induction false} RunKeepsInv<T>(s: State<T>, actions: seq<Action<T>>)
    requires Inv(s)
    ensures Inv(Run(s, actions))
    decreases actions
  {
    if actions != [] {
      StepKeepsInv(s, actions[0]);
      RunKeepsInv(Step(s, actions[0]), actions[1..]);
    }
  }

  // ---- The guarantees

  /** In every interleaving nothing is lost, reordered or shown twice; when the thread
      has exited, what was not shown is a suffix of the pushes. */
  lemma DisplayOrder<T>(actions: seq<Action<T>>)
    ensures var s := Run(Initial(), actions);
            && s.pushed == s.shown + InHand(s.display) + s.queue
            && (s.display.Exited? ==> s.pushed == s.shown + s.queue)
  {
    RunKeepsInv(Initial(), actions);
    var s := Run(Initial(), actions);
    assert s.shown + [] == s.shown;
  }

  /** No push is lost to sleep: while the thread is blocked with work queued, some
      producer has pushed and not yet notified, and its own next steps wake the thread.
      When the mutex is free, that producer is past its unlock. */
  lemma NoPushIsLost<T>(actions: seq<Action<T>>)
    ensures var s := Run(Initial(), actions);
            s.display.Blocked? && s.queue != [] ==>
              exists p :: p in s.producers && (s.producers[p].Pushed? || s.producers[p].Unlocked?) &&
                (s.owner.Free? ==> s.producers[p].Unlocked?) &&
                Step(Step(s, Action<T>.Unlock(p)), Action<T>.Notify(p)).display.Woken?
  {
    RunKeepsInv(Initial(), actions);
    var s := Run(Initial(), actions);
    if s.display.Blocked? && s.queue != [] {
      var p :| p in s.producers && (s.producers[p].Pushed? || s.producers[p].Unlocked?);
      assert Step(Step(s, Action<T>.Unlock(p)), Action<T>.Notify(p)).display.Woken?;
    }
  }

  function AdvancedBy<T>(s: State<T>, n: nat): State<T>
    decreases n
  {
    if n == 0 then s else AdvancedBy(Advanced(s), n - 1)
  }

  function Rank<T>(s: State<T>): nat {
    8 * |s.queue| + match s.display
      case Popped(_) => 7
      case Showing(_) => 6
      case Relocking => 5
      case Top => 4
      case Locking => 3
      case Woken => 3
      case Testing => 2
      case Draining => 1
      case _ => 0
  }

  /** Past the outer loop's test, or there with `running` set. */
  predicate InTheLoop<T>(s: State<T>) {
    !s.display.Exited? && (s.display.Top? ==> s.running)
  }

  lemma {:induction false} DrainsFrom<T>(s: State<T>) returns (n: nat)
    requires Inv(s) && InTheLoop(s) && s.producers == map[]
    ensures AdvancedBy(s, n).shown == s.pushed && AdvancedBy(s, n).queue == []
    decreases Rank(s)
  {
    if s.queue == [] && InHand(s.display) == [] {
      n := 0;
      assert s.shown + [] + [] == s.shown;
    } else {
      AdvanceKeepsInv(s);
      n := DrainsFrom(Advanced(s));
      n := n + 1;
    }
  }

  lemma {:induction false} NothingMoreIsShown<T>(s: State<T>, n: nat)
    requires s.display.Exited? || (s.display.Top? && !s.running)
    ensures AdvancedBy(s, n).shown == s.shown && AdvancedBy(s, n).queue == s.queue
    decreases n
  {
    if n > 0 {
      NothingMoreIsShown(Advanced(s), n - 1);
    }
  }

  /** Once the producers are outside queueDisplay, the thread's own steps alone show
      everything that was ever pushed, whether it was told to stop or not, exactly unless
      it has left its loop, or is about to, with something queued. */
  lemma EverythingIsShown<T>(actions: seq<Action<T>>)
    ensures var s := Run(Initial(), actions);
            s.producers == map[] ==>
              ((exists n :: AdvancedBy(s, n).shown == s.pushed && AdvancedBy(s, n).queue == []) <==>
               InTheLoop(s) || s.queue == [])
  {
    RunKeepsInv(Initial(), actions);
    var s := Run(Initial(), actions);
    if s.producers == map[] {
      if InTheLoop(s) {
        var n := DrainsFrom(s);
      } else if s.queue == [] {
        assert s.shown + [] + [] == s.shown;
        assert AdvancedBy(s, 0).shown == s.pushed;
      } else {
        forall n: nat ensures AdvancedBy(s, n).queue != [] {
          NothingMoreIsShown(s, n);
        }
      }
    }
  }

  // ---- queueDisplay and wake-ups

  /** A call of queueDisplay that nothing interrupts adds its item at the end of the queue,
      lets go of the mutex, wakes the thread if it sleeps, and does nothing else. */
  lemma QueueDisplayEffect<T>(s: State<T>, p: nat, item: T)
    requires s.owner.Free? && p !in s.producers
    ensures Run(s, [Lock(p, item), Push(p), Unlock(p), Notify(p)]) ==
            s.(queue := s.queue + [item], pushed := s.pushed + [item],
               display := if s.display.Blocked? then Woken else s.display)
  {
    var lock, push, unlock, notify := Lock(p, item), Action<T>.Push(p), Action<T>.Unlock(p), Action<T>.Notify(p);
    TwoThenRun(s, lock, push, [unlock, notify]);
    assert [lock, push, unlock, notify] == [lock, push] + [unlock, notify];
    TwoThenRun(Step(Step(s, lock), push), unlock, notify, []);
    assert [unlock, notify] + [] == [unlock, notify];
    assert s.producers[p := Locked(item)][p := Pushed][p := Unlocked] - {p} == s.producers;
  }

  lemma TwoThenRun<T>(s: State<T>, a: Action<T>, b: Action<T>, rest: seq<Action<T>>)
    ensures Run(s, [a, b] + rest) == Run(Step(Step(s, a), b), rest)
  {
    assert ([a, b] + rest)[1..] == [b] + rest && ([b] + rest)[1..] == rest;
  }

  /** What was pushed grows by the item of a producer that pushes, and by nothing else; what
      was shown by the item the display thread shows. */
  lemma HistoryEffect<T>(s: State<T>, a: Action<T>)
    ensures Step(s, a).pushed == s.pushed +
              if a.Push? && a.p in s.producers && s.producers[a.p].Locked? then [s.producers[a.p].item] else []
    ensures Step(s, a).shown == s.shown + if a.Advance? && s.display.Showing? then [s.display.item] else []
  {
  }

  /** A spurious wake-up with nothing to do puts the thread back to sleep where it was. */
  lemma SpuriousWakeupIsHarmless<T>(s: State<T>)
    requires Inv(s) && s.display.Blocked? && s.owner.Free? && s.queue == [] && s.running
    ensures Step(s, Action<T>.SpuriousWakeup).display.Woken?
    ensures AdvancedBy(Step(s, Action<T>.SpuriousWakeup), 3) == s
  {
    var s1 := Step(s, Action<T>.SpuriousWakeup);
    assert AdvancedBy(s1, 3) == AdvancedBy(Advanced(s1), 2);
    assert AdvancedBy(Advanced(s1), 2) == AdvancedBy(Advanced(Advanced(s1)), 1);
    assert AdvancedBy(Advanced(Advanced(s1)), 1) == AdvancedBy(Advanced(Advanced(Advanced(s1))), 0);
  }

  // ---- Stop

  function ExitRank<T>(s: State<T>): nat {
    8 * |s.queue| + match s.display
      case Popped(_) => 7
      case Showing(_) => 6
      case Relocking => 5
      case Locking => 4
      case Woken => 4
      case Testing => 3
      case Draining => 2
      case Top => 1
      case _ => 0
  }

  lemma {:induction false} ExitsFrom<T>(s: State<T>) returns (n: nat)
    requires Inv(s) && !s.running && !s.owner.ByProducer? && !s.display.Committed? && !s.display.Blocked?
    ensures AdvancedBy(s, n).display.Exited?
    decreases ExitRank(s)
  {
    if s.display.Exited? {
      n := 0;
    } else {
      AdvanceKeepsInv(s);
      n := ExitsFrom(Advanced(s));
      n := n + 1;
    }
  }

  ghost predicate WakesNobody<T(!new)>(actions: seq<Action<T>>) {
    forall a :: a in actions ==> !a.SpuriousWakeup? && !a.Notify? && !a.StopNotify?
  }

  /** Past its test, the thread sleeps until somebody wakes it, whatever else happens. */
  lemma {:induction false} SleepsUntilWoken<T(!new)>(s: State<T>, actions: seq<Action<T>>)
    requires (s.display.Committed? || s.display.Blocked?) && WakesNobody(actions)
    ensures Run(s, actions).display.Committed? || Run(s, actions).display.Blocked?
    decreases actions
  {
    if actions != [] {
      assert actions[0] in actions;
      SleepsUntilWoken(Step(s, actions[0]), actions[1..]);
    }
  }

  lemma {:induction false} SleepsOn<T>(s: State<T>, n: nat)
    requires s.display.Committed? || s.display.Blocked?
    ensures !AdvancedBy(s, n).display.Exited?
    decreases n
  {
    if n > 0 {
      SleepsOn(Advanced(s), n - 1);
    }
  }

  function Advances<T>(n: nat): seq<Action<T>> {
    if n == 0 then [] else [Advance] + Advances(n - 1)
  }

  lemma {:induction false} AdvancesRun<T(!new)>(s: State<T>, n: nat)
    ensures Run(s, Advances(n)) == AdvancedBy(s, n) && WakesNobody<T>(Advances(n))
    decreases n
  {
    if n > 0 {
      AdvancesRun(Advanced(s), n - 1);
      assert Advances<T>(n)[1..] == Advances(n - 1);
    }
  }

  /** A producer inside its critical section leaves it by its own next steps. */
  lemma ProducerLeaves<T>(s: State<T>)
    requires Inv(s) && s.owner.ByProducer?
    ensures var p := s.owner.p;
            var s' := Step(Step(s, Action<T>.Push(p)), Action<T>.Unlock(p));
            Inv(s') && s'.owner.Free? && s'.display == s.display && s'.running == s.running
  {
    StepKeepsInv(s, Action<T>.Push(s.owner.p));
    StepKeepsInv(Step(s, Action<T>.Push(s.owner.p)), Action<T>.Unlock(s.owner.p));
  }

  /** From any state that is not asleep or about to be, the thread can end with no help
      from a wake-up. */
  lemma EndsUnaided<T(!new)>(s: State<T>) returns (after: seq<Action<T>>)
    requires Inv(s) && !s.running && !s.display.Committed? && !s.display.Blocked?
    ensures WakesNobody(after) && Run(s, after).display.Exited?
  {
    hide Run, Inv, Step;
    if s.owner.ByProducer? {
      var push, unlock := Action<T>.Push(s.owner.p), Action<T>.Unlock(s.owner.p);
      var s' := Step(Step(s, push), unlock);
      ProducerLeaves(s);
      var n := ExitsFrom(s');
      AdvancesRun(s', n);
      TwoThenRun(s, push, unlock, Advances(n));
      after := [push, unlock] + Advances(n);
    } else {
      var n := ExitsFrom(s);
      AdvancesRun(s, n);
      after := Advances(n);
    }
  }

  /** Told to stop, it ends without a wake-up unless it sleeps or is about to. */
  lemma EndsExactly<T(!new)>(s: State<T>)
    requires Inv(s) && !s.running
    ensures (exists after :: WakesNobody(after) && Run(s, after).display.Exited?) <==>
            !s.display.Committed? && !s.display.Blocked?
  {
    hide Run, Inv;
    if s.display.Committed? || s.display.Blocked? {
      forall after | WakesNobody(after) ensures !Run(s, after).display.Exited? {
        SleepsUntilWoken(s, after);
      }
    } else {
      var after := EndsUnaided(s);
    }
  }

  /** When Stop is seen: in every reachable state in which Stop is about to notify, the
      thread can end without a further wake-up exactly when the notify does not fall
      between the thread's test and its sleep. If no producer holds the mutex, its own
      steps are then enough. */
  lemma StopIsSeen<T(!new)>(before: seq<Action<T>>)
    ensures var s := Run(Initial(), before);
            var s' := Step(s, Action<T>.StopNotify);
            s.pendingStops > 0 ==>
              && ((exists after :: WakesNobody(after) && Run(s', after).display.Exited?) <==> !s.display.Committed?)
              && (!s.owner.ByProducer? ==>
                    ((exists n: nat :: AdvancedBy(s', n).display.Exited?) <==> !s.display.Committed?))
  {
    RunKeepsInv(Initial(), before);
    var s := Run(Initial(), before);
    var s' := Step(s, Action<T>.StopNotify);
    if s.pendingStops > 0 {
      StepKeepsInv(s, Action<T>.StopNotify);
      EndsExactly(s');
      if s.display.Committed? {
        forall n: nat ensures !AdvancedBy(s', n).display.Exited? {
          SleepsOn(s', n);
        }
      } else if !s.owner.ByProducer? {
        var n := ExitsFrom(s');
      }
    }
  }

  /** The whole of Stop, with nothing in between: it ends the thread exactly when the
      thread is not past its test. */
  lemma StopAtOnce<T(!new)>(before: seq<Action<T>>)
    ensures var s := Run(Initial(), before);
            var s' := Step(Step(s, Action<T>.StopBegin), Action<T>.StopNotify);
            (exists after :: WakesNobody(after) && Run(s', after).display.Exited?) <==> !s.display.Committed?
  {
    RunKeepsInv(Initial(), before);
    var s := Run(Initial(), before);
    StepKeepsInv(s, Action<T>.StopBegin);
    StepKeepsInv(Step(s, Action<T>.StopBegin), Action<T>.StopNotify);
    EndsExactly(Step(Step(s, Action<T>.StopBegin), Action<T>.StopNotify));
  }

  /** HandleQuit notifies nobody: it is seen exactly when the thread is neither asleep nor
      past its test. */
  lemma QuitIsSeen<T(!new)>(before: seq<Action<T>>)
    ensures var s := Run(Initial(), before);
            (exists after :: WakesNobody(after) && Run(Step(s, Action<T>.Quit), after).display.Exited?) <==>
            !s.display.Committed? && !s.display.Blocked?
  {
    RunKeepsInv(Initial(), before);
    var s := Run(Initial(), before);
    StepKeepsInv(s, Action<T>.Quit);
    EndsExactly(Step(s, Action<T>.Quit));
  }

  /** The missed case is reachable: Stop clears `running` without the lock, between the
      test and the sleep, and then nothing is left to wake the thread. */
  lemma StopCanBeMissed<T>()
    ensures var s := Run(Initial<T>(), [Advance, Advance, Advance, StopBegin, StopNotify, Advance]);
            s.display.Blocked? && !s.running && s.pendingStops == 0 && s.producers == map[]
  {
    var s0 := Initial<T>();
    var s3 := s0.(owner := ByDisplay, display := Committed);
    assert Step(Step(Step(s0, Advance), Advance), Advance) == s3;
    var s4 := s3.(running := false);
    assert Step(Step(s3, StopBegin), StopNotify) == s4;
    var as6: seq<Action<T>> := [Advance, Advance, Advance, StopBegin, StopNotify, Advance];
    assert as6[1..] == [Advance, Advance, StopBegin, StopNotify, Advance];
    assert as6[1..][1..] == [Advance, StopBegin, StopNotify, Advance];
    assert as6[1..][1..][1..] == [StopBegin, StopNotify, Advance];
    var as3: seq<Action<T>> := [StopBegin, StopNotify, Advance];
    assert as3[1..] == [StopNotify, Advance] && as3[1..][1..] == [Advance] && as3[1..][1..][1..] == [];
    assert Run(s3, as3) == Step(s4, Advance);
    assert Run(s0, as6) == Run(s3, as3);
  }
}
