/**
 What every run of event delivery guarantees, and two wakeups the code does lose.
 */
module EventGuarantees {
  import opened Basics
  import opened EventQueues
  import opened EventDelivery

  /**
   In every reachable state and for every session: what its connections dequeued followed by what is
   queued is what passed its filter, each dequeued event went to the connection owning the queue at
   that moment, and a listed session was offered exactly the fan-outs since it joined.
   */
  lemma NothingLostOrDuplicated(w: World, i: nat)
    requires Reachable(w) && i < |w.sessions|
    ensures var s := w.sessions[i];
            && Messages(s.delivered) + s.q.events == Passed(s.log)
            && (forall k | 0 <= k < |s.delivered| :: s.delivered[k].owner == Some(s.delivered[k].conn))
            && (s.listed ==> s.joined <= w.Served(i) <= |w.fanned| && Fanned(s.log) == w.fanned[s.joined..w.Served(i)])
    ensures w.sent == w.fanned + w.global.events
  {
    ReachableInv(w);
    assert SInv(w.sessions[i]) && Fed(w.sessions[i], w.fanned, w.Served(i));
  }

  /** No call of dequeue_event, on any queue in any run, reaches DL_DELETE with an empty list. */
  lemma NeverDequeuesFromEmpty(w: World, step: Step)
    requires Reachable(w) && Enabled(w, step)
    ensures StepOutcome(w, step) != Crash
  {
    ReachableInv(w);
    StepKeeps(w, step);
  }

  /** A consumer blocked with no wakeup pending is recorded and has nothing to read; a woken one has a reason. */
  lemma ConsumerWakeup(w: World)
    requires Reachable(w) && w.consumer == Consumer.Waiting
    ensures CONSUMER in w.global.asleep ==> w.global.waiting == Yes && w.global.events == []
    ensures CONSUMER in w.global.asleep || (CONSUMER in w.global.woken && (w.global.events != [] || w.global.exiting))
  {
    ReachableInv(w);
    assert CONSUMER in w.global.Waiters();
  }

  /** So a producer always wakes a blocked consumer, and so does exit_event_queue. */
  lemma BlockedConsumerIsWoken(w: World, m: Message)
    requires Reachable(w) && w.consumer == Consumer.Waiting
    ensures CONSUMER in Next(w, Send(m)).global.woken && CONSUMER in Next(w, ExitGlobal).global.woken
  {
    ConsumerWakeup(w);
    ReachableInv(w);
  }

  /** On a session queue an admitted event wakes the sleeping owner exactly when is_waiting is HPD_YES. */
  lemma OwnerWokenIff(s: Session, m: Message, c: ConnId)
    requires WaitersSound(s) && s.q.owner == Some(c) && Reader(Some(c)) in s.q.asleep && Admits(s.q, m, false)
    ensures Reader(Some(c)) in Offer(s.q, m, false).woken <==> s.q.waiting == Yes
  {
    assert Reader(Some(c)) !in s.q.woken;
  }

  /**
   In every reachable state, crowded or not: a sleeping owner recorded as HPD_YES has nothing to read, so an
   event can only sit under a sleeping owner after something else overwrote the record; and the next admitted
   event wakes that owner exactly when the record still stands.
   */
  lemma RecordedOwnerHasNothing(w: World, i: nat, m: Message, c: ConnId)
    requires Reachable(w) && i < |w.sessions|
    requires w.sessions[i].q.owner == Some(c) && Reader(Some(c)) in w.sessions[i].q.asleep
    ensures w.sessions[i].q.waiting == Yes ==> w.sessions[i].q.events == []
    ensures Admits(w.sessions[i].q, m, false) ==>
              (Reader(Some(c)) in Offer(w.sessions[i].q, m, false).woken <==> w.sessions[i].q.waiting == Yes)
  {
    ReachableInv(w);
    assert SInv(w.sessions[i]);
    if Admits(w.sessions[i].q, m, false) {
      OwnerWokenIff(w.sessions[i], m, c);
    }
  }

  /** That is the case whenever no two threads ever waited on this session at once. */
  lemma SoleWaiterIsWoken(w: World, i: nat, m: Message, c: ConnId)
    requires Reachable(w) && i < |w.sessions| && !w.sessions[i].crowded
    requires w.sessions[i].q.owner == Some(c) && Reader(Some(c)) in w.sessions[i].q.asleep
    requires Admits(w.sessions[i].q, m, false)
    ensures Reader(Some(c)) in Offer(w.sessions[i].q, m, false).woken
  {
    ReachableInv(w);
    assert SInv(w.sessions[i]);
    OwnerWokenIff(w.sessions[i], m, c);
  }

  /**
   In every reachable state: a connection set up anew owns the queue, and it ends another's wait for the
   timeout exactly when that wait is what is recorded, which it is when no two threads ever waited at once.
   */
  lemma ReturningClientEndsWait(w: World, i: nat, c: ConnId, c': ConnId)
    requires Reachable(w) && i < |w.sessions| && SEnabled(w.sessions[i], SSetUp(c'))
    ensures var s, s' := w.sessions[i], SNext(w.sessions[i], SSetUp(c'));
            && s'.q.owner == Some(c') && s'.q.events == s.q.events
            && (Closer(c) in s.q.asleep ==>
                  && (Closer(c) in s'.q.woken <==> s.q.waiting == ForTimeout)
                  && (!s.crowded ==> Closer(c) in s'.q.woken))
  {
    ReachableInv(w);
    var s := w.sessions[i];
    assert SInv(s);
    assert Closer(c) in s.q.asleep ==> Closer(c) in s.q.Waiters() && Closer(c) !in s.q.woken;
  }

  /** exit_event_queue wakes a session's sleeping reader exactly when it is recorded, as a lone waiter is. */
  lemma ExitWakesReader(w: World, i: nat, c: ConnId)
    requires Reachable(w) && i < |w.sessions| && Reader(Some(c)) in w.sessions[i].q.asleep
    ensures var s, s' := w.sessions[i], SNext(w.sessions[i], SExit);
            && s'.q.exiting && s'.q.events == s.q.events
            && (Reader(Some(c)) in s'.q.woken <==> s.q.waiting == Yes)
            && (!s.crowded ==> Reader(Some(c)) in s'.q.woken)
  {
    ReachableInv(w);
    var s := w.sessions[i];
    assert SInv(s);
    assert Reader(Some(c)) in s.q.Waiters() && Reader(Some(c)) !in s.q.woken;
  }

  /**
   What a reader gets in a reachable state: it sleeps exactly when it comes to an empty queue, and gets the first
   event exactly when its connection owns the queue, there is one, and the queue is not exiting.
   */
  lemma ReaderGets(w: World, i: nat, c: ConnId, step: SessionStep)
    requires Reachable(w) && i < |w.sessions| && SEnabled(w.sessions[i], step)
    requires step == SReadStart(c) || step == SReadResume(c)
    ensures var s, r := w.sessions[i], SOutcome(w.sessions[i], step);
            && (r == Slept <==> step.SReadStart? && s.q.events == [])
            && (r.Got? <==> s.q.owner == Some(c) && !s.q.exiting && s.q.events != [])
            && (r.Got? ==> r.message == s.q.events[0]
                           && SNext(s, step).delivered == s.delivered + [Delivery(c, Some(c), s.q.events[0])])
  {
    ReachableInv(w);
    assert SInv(w.sessions[i]);
  }

  lemma Extend(w: World, step: Step)
    requires Reachable(w) && Enabled(w, step)
    ensures Reachable(Next(w, step))
  {
    var ws, steps :| IsRun(ws, steps) && ws[|ws| - 1] == w;
    assert IsRun(ws + [Next(w, step)], steps + [step]);
  }

  lemma Start()
    ensures Reachable(INIT)
  {
    assert IsRun([INIT], []);
  }

  /** One step of a run with a single session and an idle consumer. */
  lemma ExtendSession(s: Session, step: SessionStep, s': Session)
    requires Reachable(INIT.(sessions := [s])) && SEnabled(s, step) && !step.SFan? && s' == SNext(s, step)
    ensures Reachable(INIT.(sessions := [s']))
  {
    hide SNext, SEnabled, Reachable;
    Extend(INIT.(sessions := [s]), InSession(0, step));
    assert [s][0 := s'] == [s'];
  }

  /** A session with one subscription that connection 2 has taken over from connection 1. */
  function TakenOver(events: seq<Message>, waiting: Waiting, asleep: set<Waiter>, woken: set<Waiter>,
                     delivered: seq<Delivery>, log: seq<Entry>): Session
  {
    Session(Queue(events, [ServiceId("/a", true)], false, waiting, false, Some(2), asleep, woken),
            true, 0, {1, 2}, delivered, [Toggled("/a")] + log, true)
  }

  const ONE: Waiter := Reader(Some(1))
  const TWO: Waiter := Reader(Some(2))
  const EVENT: Message := Message("/a", "on")

  /** Both readers asleep at once. */
  const TWO_ASLEEP := TakenOver([], Yes, {ONE, TWO}, {}, [], [])

  /** The one session before the takeover, with connection 1 asleep in dequeue_event. */
  const ONE_ASLEEP := Session(Queue([], [ServiceId("/a", true)], false, Yes, false, Some(1), {ONE}, {}),
                              true, 0, {1}, [], [Toggled("/a")], false)

  lemma SubscribedSession()
    ensures Reachable(INIT.(sessions := [SNext(NewSession(0), SToggle("/a"))]))
  {
    Start();
    Extend(INIT, Join);
    assert INIT.sessions + [NewSession(0)] == [NewSession(0)];
    hide SNext, Reachable;
    ExtendSession(NewSession(0), SToggle("/a"), SNext(NewSession(0), SToggle("/a")));
  }

  lemma OneAsleep()
    ensures Reachable(INIT.(sessions := [ONE_ASLEEP]))
  {
    SubscribedSession();
    hide Reachable;
    var s1 := SNext(NewSession(0), SToggle("/a"));
    var s2 := SNext(s1, SSetUp(1));
    ExtendSession(s1, SSetUp(1), s2);
    ExtendSession(s2, SReadStart(1), ONE_ASLEEP);
  }

  lemma TakeoverLeavesTwoAsleep()
    ensures Reachable(INIT.(sessions := [TWO_ASLEEP]))
  {
    OneAsleep();
    hide Reachable;
    var s4 := SNext(ONE_ASLEEP, SSetUp(2));
    ExtendSession(ONE_ASLEEP, SSetUp(2), s4);
    assert TWO_ASLEEP == SNext(s4, SReadStart(2));
    ExtendSession(s4, SReadStart(2), TWO_ASLEEP);
  }

  /** What an event does to the taken-over session. */
  lemma Noticed(waiting: Waiting, asleep: set<Waiter>, woken: set<Waiter>, delivered: seq<Delivery>, log: seq<Entry>)
    ensures SNext(TakenOver([], waiting, asleep, woken, delivered, log), SNotice(EVENT))
            == TakenOver([EVENT], waiting, if waiting == Yes then {} else asleep,
                         if waiting == Yes then woken + asleep else woken, delivered, log + [Notice(EVENT)])
  {
    var q := TakenOver([], waiting, asleep, woken, delivered, log).q;
    assert q.services[0].url == EVENT.id && Subscribed(q.services, EVENT.id);
    assert [] + [EVENT] == [EVENT];
  }

  /** The owner reads the event and goes back to sleep, while the displaced reader is still on its way. */
  lemma OwnerSleepsAgain(log: seq<Entry>)
    ensures var d := [Delivery(2, Some(2), EVENT)];
            && SNext(TakenOver([EVENT], Yes, {}, {ONE, TWO}, [], log), SReadResume(2))
               == TakenOver([], No, {}, {ONE}, d, log)
            && SNext(TakenOver([], No, {}, {ONE}, d, log), SReadStart(2)) == TakenOver([], Yes, {TWO}, {ONE}, d, log)
            && SNext(TakenOver([], Yes, {TWO}, {ONE}, d, log), SReadResume(1)) == TakenOver([], No, {TWO}, {}, d, log)
  {
  }

  /**
   A takeover can lose a wakeup: the displaced reader, resuming after the new owner went back to
   sleep, clears is_waiting, and the next event is queued without waking the owner.
   */
  lemma TakeoverLosesWakeup()
    ensures exists s :: Reachable(INIT.(sessions := [s])) && s.q.events != [] && s.q.woken == {}
                        && s.q.owner == Some(2) && Reader(Some(2)) in s.q.asleep
  {
    TakeoverLeavesTwoAsleep();
    hide SNext, Reachable;
    var log, d := [Notice(EVENT)], [Delivery(2, Some(2), EVENT)];
    Noticed(Yes, {ONE, TWO}, {}, [], []);
    OwnerSleepsAgain(log);
    Noticed(No, {TWO}, {}, d, log);
    assert [] + log == log && {} + {ONE, TWO} == {ONE, TWO};
    ExtendSession(TWO_ASLEEP, SNotice(EVENT), TakenOver([EVENT], Yes, {}, {ONE, TWO}, [], log));
    ExtendSession(TakenOver([EVENT], Yes, {}, {ONE, TWO}, [], log), SReadResume(2),
                  TakenOver([], No, {}, {ONE}, d, log));
    ExtendSession(TakenOver([], No, {}, {ONE}, d, log), SReadStart(2), TakenOver([], Yes, {TWO}, {ONE}, d, log));
    ExtendSession(TakenOver([], Yes, {TWO}, {ONE}, d, log), SReadResume(1), TakenOver([], No, {TWO}, {}, d, log));
    ExtendSession(TakenOver([], No, {TWO}, {}, d, log), SNotice(EVENT),
                  TakenOver([EVENT], No, {TWO}, {}, d, log + log));
  }

  /** A consumer that is busy when exit_event_queue runs goes to sleep on the empty queue all the same. */
  lemma BusyConsumerMissesExit()
    ensures exists w :: Reachable(w) && w.global.exiting && CONSUMER in w.global.asleep
  {
    Start();
    var w1 := Next(INIT, ExitGlobal);
    Extend(INIT, ExitGlobal);
    Extend(w1, ConsumerStart);
    assert CONSUMER in Next(w1, ConsumerStart).global.asleep;
  }
}
