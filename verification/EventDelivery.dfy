/**
 Event delivery as a step system: producers put events on the global queue, one consumer thread
 fans each of them out to the sessions in list order, and connections read their session's queue
 and take it over from each other.  Every step is one critical section.
 */
module EventDelivery {
  import opened Basics
  import opened EventQueues

  // ---------------------------------------------------------------- one session and its history

  /** What happened to a session: events offered to it, and changes of its subscriptions. */
  datatype Entry =
    | FannedOut(message: Message)
    | Notice(message: Message)
    | Toggled(url: string)
    | LogToggled

  datatype Filter = Filter(urls: set<string>, sendLog: bool) {
    predicate Passes(m: Message) {
      if m.id == "Log" then sendLog else m.id in urls
    }
  }

  /** The subscriptions a history leads to, from the subscription calls alone. */
  function FilterAfter(log: seq<Entry>): Filter {
    if log == [] then Filter({}, false)
    else
      var f := FilterAfter(log[..|log| - 1]);
      match log[|log| - 1]
      case Toggled(u) => f.(urls := if u in f.urls then f.urls - {u} else f.urls + {u})
      case LogToggled => f.(sendLog := !f.sendLog)
      case _ => f
  }

  /** The offered events that passed the filter of their moment, in order. */
  function Passed(log: seq<Entry>): seq<Message> {
    if log == [] then []
    else
      var before, e := log[..|log| - 1], log[|log| - 1];
      if (e.FannedOut? || e.Notice?) && FilterAfter(before).Passes(e.message) then Passed(before) + [e.message]
      else Passed(before)
  }

  /** The events the consumer thread offered, passed or not. */
  function Fanned(log: seq<Entry>): seq<Message> {
    if log == [] then []
    else if log[|log| - 1].FannedOut? then Fanned(log[..|log| - 1]) + [log[|log| - 1].message]
    else Fanned(log[..|log| - 1])
  }

  datatype Delivery = Delivery(conn: ConnId, owner: Option<ConnId>, message: Message)

  function Messages(ds: seq<Delivery>): seq<Message> {
    seq(|ds|, i requires 0 <= i < |ds| => ds[i].message)
  }

  /**
   A session: its queue, whether it is in the list, how many fan-outs had begun when it joined, the
   connection ids handed to it, what its connections dequeued, and its history.  crowded records
   that at some time two threads were waiting on its condition variable at once.
   */
  datatype Session = Session(q: Queue, listed: bool, joined: nat, conns: set<ConnId>,
                             delivered: seq<Delivery>, log: seq<Entry>, crowded: bool)

  function NewSession(joined: nat): Session {
    Session(EMPTY, true, joined, {}, [], [], false)
  }

  function AddEntry(s: Session, e: Entry, q: Queue): Session {
    s.(q := q, log := s.log + [e])
  }

  /** A reader's section: an event it got is delivered to it. */
  function AfterRead(s: Session, c: ConnId, r: (Queue, Outcome)): Session {
    var s' := s.(q := r.0, crowded := s.crowded || (r.1 == Slept && s.q.Waiters() != {}));
    if r.1.Got? then s'.(delivered := s.delivered + [Delivery(c, s.q.owner, r.1.message)]) else s'
  }

  datatype SessionStep =
    | SFan(message: Message)
    | SNotice(message: Message)
    | SToggle(url: string)
    | SToggleLog
    | SMark(url: string, available: bool)
    | SSetUp(conn: ConnId)
    | SReadStart(conn: ConnId)
    | SReadResume(conn: ConnId)
    | SCloseStart(conn: ConnId)
    | SCloseResume(conn: ConnId)
    | SExit

  /** Which sections can run: connection ids are fresh, and a connection has at most one call in flight. */
  predicate SEnabled(s: Session, step: SessionStep) {
    match step
    case SSetUp(c) => c !in s.conns
    case SReadStart(c) => c in s.conns && Reader(Some(c)) !in s.q.Waiters()
    case SReadResume(c) => Reader(Some(c)) in s.q.woken
    case SCloseStart(c) => c in s.conns && Reader(Some(c)) !in s.q.Waiters() && Closer(c) !in s.q.Waiters()
    case SCloseResume(c) => Closer(c) in s.q.woken
    case _ => true
  }

  /** What the section returned to its caller. */
  function SOutcome(s: Session, step: SessionStep): Outcome {
    match step
    case SReadStart(c) => DequeueStart(s.q, Some(c), false).1
    case SReadResume(c) => DequeueResume(s.q, Some(c), false).1
    case _ => Refused
  }

  function SNext(s: Session, step: SessionStep): Session {
    match step
    case SFan(m) => AddEntry(s, FannedOut(m), Offer(s.q, m, false))
    case SNotice(m) => AddEntry(s, Notice(m), Offer(s.q, m, false))
    case SToggle(u) => AddEntry(s, Toggled(u), Toggle(s.q, u))
    case SToggleLog => AddEntry(s, LogToggled, ToggleLog(s.q))
    case SMark(u, a) => s.(q := SetAvailability(s.q, u, a))
    case SSetUp(c) => s.(q := SetUp(s.q, c), conns := s.conns + {c})
    case SReadStart(c) => AfterRead(s, c, DequeueStart(s.q, Some(c), false))
    case SReadResume(c) => AfterRead(s, c, DequeueResume(s.q, Some(c), false))
    case SCloseStart(c) => s.(q := CloserStart(s.q, c), crowded := s.crowded || s.q.Waiters() != {})
    case SCloseResume(c) => s.(q := CloserResume(s.q, c))
    case SExit => s.(q := Exit(s.q), listed := false)
  }

  /** The queue's subscriptions are those of the history. */
  ghost predicate FilterAgrees(s: Session) {
    && NoRepeat(s.q.services)
    && Filter(Urls(s.q.services), s.q.sendLog) == FilterAfter(s.log)
  }

  /** Delivered followed by queued is exactly what passed. */
  ghost predicate Conserved(s: Session) {
    Messages(s.delivered) + s.q.events == Passed(s.log)
  }

  ghost predicate OnlyOwners(s: Session) {
    forall i | 0 <= i < |s.delivered| :: s.delivered[i].owner == Some(s.delivered[i].conn)
  }

  /** Waiting threads act for connections of this session; a woken owner finds an event or the exit flag. */
  ghost predicate WaitersSound(s: Session) {
    && (s.conns != {} <==> s.q.owner.Some?)
    && (s.q.owner.Some? ==> s.q.owner.value in s.conns)
    && (forall w | w in s.q.Waiters() ::
          if w.Reader? then w.conn.Some? && w.conn.value in s.conns else w.closing in s.conns)
    && s.q.asleep !! s.q.woken
    && (Reader(s.q.owner) in s.q.woken ==> s.q.events != [] || s.q.exiting)
  }

  /** As long as no two threads ever waited at once, a sleeping reader is recorded and has nothing to read. */
  ghost predicate NotLost(s: Session) {
    !s.crowded ==>
      && (forall v, w | v in s.q.Waiters() && w in s.q.Waiters() :: v == w)
      && (forall w | w in s.q.asleep && w.Reader? && w.conn == s.q.owner ::
            s.q.waiting == Yes && s.q.events == [])
  }

  /** While HPD_YES is recorded nobody sleeps on a queued event. */
  ghost predicate YesMeansEmpty(s: Session) {
    s.q.waiting == Yes ==> s.q.owner.Some? && (s.q.events == [] || s.q.asleep == {})
  }

  /** As long as no two threads ever waited at once, is_waiting says exactly who waits. */
  ghost predicate Recorded(s: Session) {
    !s.crowded ==>
      && (s.q.Waiters() == {} ==> s.q.waiting == No)
      && (forall w | w in s.q.Waiters() :: s.q.waiting == if w.Reader? then Yes else ForTimeout)
  }

  ghost predicate SInv(s: Session) {
    && FilterAgrees(s) && Conserved(s) && OnlyOwners(s) && WaitersSound(s)
    && NotLost(s) && YesMeansEmpty(s) && Recorded(s)
  }

  // ---------------------------------------------------------------- every section keeps the invariant

  lemma LogSnoc(log: seq<Entry>, e: Entry)
    ensures (log + [e])[..|log + [e]| - 1] == log && (log + [e])[|log|] == e
  {
  }

  lemma AdmitsIffPasses(s: Session, m: Message)
    requires FilterAgrees(s)
    ensures Admits(s.q, m, false) <==> FilterAfter(s.log).Passes(m)
  {
    SubscribedUrls(s.q.services, m.id);
  }

  lemma ToggleKeepsFilter(s: Session, u: string)
    requires FilterAgrees(s)
    ensures FilterAgrees(SNext(s, SToggle(u)))
  {
    LogSnoc(s.log, Toggled(u));
    SubscribedUrls(s.q.services, u);
    if Subscribed(s.q.services, u) {
      RemoveFirstUrls(s.q.services, u);
    } else {
      UrlsAppend(s.q.services, ServiceId(u, true));
    }
  }

  lemma ToggleLogKeepsFilter(s: Session)
    requires FilterAgrees(s)
    ensures FilterAgrees(SNext(s, SToggleLog))
  {
    LogSnoc(s.log, LogToggled);
  }

  lemma MarkKeepsFilter(s: Session, u: string, a: bool)
    requires FilterAgrees(s)
    ensures FilterAgrees(SNext(s, SMark(u, a)))
  {
    MarkFirstUrls(s.q.services, u, a);
  }

  lemma OfferKeepsFilter(s: Session, e: Entry)
    requires FilterAgrees(s) && (e.FannedOut? || e.Notice?)
    ensures FilterAgrees(AddEntry(s, e, Offer(s.q, e.message, false)))
  {
    LogSnoc(s.log, e);
  }

  /** A section that leaves the subscriptions and the history alone keeps the filter. */
  lemma SameFilter(s: Session, s': Session)
    requires FilterAgrees(s)
    requires s'.q.services == s.q.services && s'.q.sendLog == s.q.sendLog && s'.log == s.log
    ensures FilterAgrees(s')
  {
  }

  lemma KeepsFilter(s: Session, step: SessionStep)
    requires FilterAgrees(s)
    ensures FilterAgrees(SNext(s, step))
  {
    hide FilterAgrees, Offer, FilterAfter, Urls, NoRepeat;
    match step
    case SToggle(u) => ToggleKeepsFilter(s, u);
    case SToggleLog => ToggleLogKeepsFilter(s);
    case SMark(u, a) => MarkKeepsFilter(s, u, a);
    case SFan(m) => OfferKeepsFilter(s, FannedOut(m));
    case SNotice(m) => OfferKeepsFilter(s, Notice(m));
    case _ => SameFilter(s, SNext(s, step));
  }

  lemma KeepsConserved(s: Session, step: SessionStep)
    requires FilterAgrees(s) && Conserved(s)
    ensures Conserved(SNext(s, step))
  {
    hide FilterAgrees, Conserved, Offer, RemoveFirst;
    match step
    case SFan(m) => OfferConserves(s, FannedOut(m));
    case SNotice(m) => OfferConserves(s, Notice(m));
    case SToggle(u) => ToggleConserves(s, Toggled(u), Toggle(s.q, u));
    case SToggleLog => ToggleConserves(s, LogToggled, ToggleLog(s.q));
    case SReadStart(c) => ReadConserves(s, c, DequeueStart(s.q, Some(c), false));
    case SReadResume(c) => ReadConserves(s, c, DequeueResume(s.q, Some(c), false));
    case _ => SameConserves(s, SNext(s, step));
  }

  lemma ToggleConserves(s: Session, e: Entry, q: Queue)
    requires Conserved(s) && (e.Toggled? || e.LogToggled?) && q.events == s.q.events
    ensures Conserved(AddEntry(s, e, q))
  {
    LogSnoc(s.log, e);
  }

  lemma SameConserves(s: Session, s': Session)
    requires Conserved(s) && s'.delivered == s.delivered && s'.q.events == s.q.events && s'.log == s.log
    ensures Conserved(s')
  {
  }

  lemma OfferConserves(s: Session, e: Entry)
    requires FilterAgrees(s) && Conserved(s) && (e.FannedOut? || e.Notice?)
    ensures Conserved(AddEntry(s, e, Offer(s.q, e.message, false)))
  {
    LogSnoc(s.log, e);
    AdmitsIffPasses(s, e.message);
    assert Messages(s.delivered) + (s.q.events + [e.message]) == (Messages(s.delivered) + s.q.events) + [e.message];
  }

  /** A section that removes an event hands over the first one. */
  lemma ReadConserves(s: Session, c: ConnId, r: (Queue, Outcome))
    requires Conserved(s)
    requires if r.1.Got? then s.q.events != [] && r.1.message == s.q.events[0] && r.0.events == s.q.events[1..]
             else r.0.events == s.q.events
    ensures Conserved(AfterRead(s, c, r))
  {
    if r.1.Got? {
      var d := Delivery(c, s.q.owner, r.1.message);
      assert Messages(s.delivered + [d]) == Messages(s.delivered) + [d.message];
      assert s.q.events == [d.message] + r.0.events;
    }
  }

  lemma KeepsOwners(s: Session, step: SessionStep)
    requires OnlyOwners(s)
    ensures OnlyOwners(SNext(s, step))
  {
  }

  lemma KeepsWaiters(s: Session, step: SessionStep)
    requires WaitersSound(s) && SEnabled(s, step)
    ensures WaitersSound(SNext(s, step))
  {
    hide WaitersSound, SNext, SEnabled;
    if step.SReadStart? || step.SReadResume? {
      ReadKeepsWaiters(s, step);
    } else if step.SFan? || step.SNotice? {
      OfferKeepsWaiters(s, step);
    } else {
      OtherKeepsWaiters(s, step);
    }
  }

  lemma ReadKeepsWaiters(s: Session, step: SessionStep)
    requires WaitersSound(s) && SEnabled(s, step) && (step.SReadStart? || step.SReadResume?)
    ensures WaitersSound(SNext(s, step))
  {
  }

  lemma OfferKeepsWaiters(s: Session, step: SessionStep)
    requires WaitersSound(s) && SEnabled(s, step) && (step.SFan? || step.SNotice?)
    ensures WaitersSound(SNext(s, step))
  {
    hide Admits;
  }

  lemma OtherKeepsWaiters(s: Session, step: SessionStep)
    requires WaitersSound(s) && SEnabled(s, step)
    requires !step.SReadStart? && !step.SReadResume? && !step.SFan? && !step.SNotice?
    ensures WaitersSound(SNext(s, step))
  {
  }

  lemma KeepsNotLost(s: Session, step: SessionStep)
    requires WaitersSound(s) && NotLost(s) && SEnabled(s, step)
    ensures NotLost(SNext(s, step))
  {
    hide WaitersSound, NotLost, SNext, SEnabled;
    if step.SReadResume? || step.SCloseResume? {
      ResumeKeepsNotLost(s, step);
    } else if step.SFan? || step.SNotice? {
      OfferKeepsNotLost(s, step);
    } else {
      OtherKeepsNotLost(s, step);
    }
  }

  lemma ResumeKeepsNotLost(s: Session, step: SessionStep)
    requires WaitersSound(s) && NotLost(s) && SEnabled(s, step) && (step.SReadResume? || step.SCloseResume?)
    ensures NotLost(SNext(s, step))
  {
    var x := if step.SReadResume? then Reader(Some(step.conn)) else Closer(step.conn);
    var s' := SNext(s, step);
    assert s'.crowded == s.crowded && s'.q.Waiters() == s.q.Waiters() - {x};
    if !s.crowded {
      forall w | w in s.q.Waiters() ensures w == x {
        OneWaiter(s, w, x);
      }
      assert s'.q.Waiters() == {};
    }
  }

  lemma OfferKeepsNotLost(s: Session, step: SessionStep)
    requires WaitersSound(s) && NotLost(s) && SEnabled(s, step) && (step.SFan? || step.SNotice?)
    ensures NotLost(SNext(s, step))
  {
    hide Admits;
    var s' := SNext(s, step);
    assert s'.q.Waiters() == s.q.Waiters() && s'.crowded == s.crowded;
    if !s.crowded {
      forall v, w | v in s'.q.Waiters() && w in s'.q.Waiters() ensures v == w {
        OneWaiter(s, v, w);
      }
    }
  }

  lemma OtherKeepsNotLost(s: Session, step: SessionStep)
    requires WaitersSound(s) && NotLost(s) && SEnabled(s, step)
    requires !step.SReadResume? && !step.SCloseResume? && !step.SFan? && !step.SNotice?
    ensures NotLost(SNext(s, step))
  {
  }

  lemma OneWaiter(s: Session, v: Waiter, w: Waiter)
    requires NotLost(s) && !s.crowded && v in s.q.Waiters() && w in s.q.Waiters()
    ensures v == w
  {
  }

  lemma KeepsRecorded(s: Session, step: SessionStep)
    requires WaitersSound(s) && NotLost(s) && Recorded(s) && SEnabled(s, step)
    ensures Recorded(SNext(s, step))
  {
    hide WaitersSound, NotLost, Recorded, SNext, SEnabled;
    if step.SReadResume? || step.SCloseResume? {
      ResumeKeepsRecorded(s, step);
    } else if step.SReadStart? || step.SCloseStart? {
      StartKeepsRecorded(s, step);
    } else {
      SameWaiters(s, step);
      SameRecorded(s, SNext(s, step));
    }
  }

  lemma ResumeKeepsRecorded(s: Session, step: SessionStep)
    requires WaitersSound(s) && NotLost(s) && SEnabled(s, step) && (step.SReadResume? || step.SCloseResume?)
    ensures Recorded(SNext(s, step))
  {
    var x := if step.SReadResume? then Reader(Some(step.conn)) else Closer(step.conn);
    var s' := SNext(s, step);
    assert s'.crowded == s.crowded && s'.q.waiting == No && s'.q.asleep == s.q.asleep && s'.q.woken == s.q.woken - {x};
    if !s.crowded {
      forall w | w in s.q.Waiters() ensures w == x {
        OneWaiter(s, w, x);
      }
      assert x in s.q.woken && x !in s.q.asleep;
      assert s'.q.Waiters() == s.q.Waiters() - {x};
      assert s'.q.Waiters() == {};
    }
  }

  lemma StartKeepsRecorded(s: Session, step: SessionStep)
    requires Recorded(s) && (step.SReadStart? || step.SCloseStart?)
    ensures Recorded(SNext(s, step))
  {
    var s' := SNext(s, step);
    if step.SReadStart? && s.q.events != [] {
      SameRecorded(s, s');
    } else if !s'.crowded {
      assert s.q.Waiters() == {};
    }
  }

  lemma SameWaiters(s: Session, step: SessionStep)
    requires !step.SReadResume? && !step.SCloseResume? && !step.SReadStart? && !step.SCloseStart?
    ensures SNext(s, step).q.Waiters() == s.q.Waiters()
    ensures SNext(s, step).q.waiting == s.q.waiting && SNext(s, step).crowded == s.crowded
  {
    hide Admits;
  }

  lemma SameRecorded(s: Session, s': Session)
    requires Recorded(s) && s'.q.Waiters() == s.q.Waiters() && s'.q.waiting == s.q.waiting && s'.crowded == s.crowded
    ensures Recorded(s')
  {
  }

  lemma KeepsYesMeansEmpty(s: Session, step: SessionStep)
    requires WaitersSound(s) && YesMeansEmpty(s) && SEnabled(s, step)
    ensures YesMeansEmpty(SNext(s, step))
  {
  }

  lemma SessionStepKeeps(s: Session, step: SessionStep)
    requires SInv(s) && SEnabled(s, step)
    ensures SInv(SNext(s, step)) && SOutcome(s, step) != Crash
  {
    KeepsFilter(s, step);
    KeepsConserved(s, step);
    KeepsOwners(s, step);
    KeepsWaiters(s, step);
    KeepsNotLost(s, step);
    KeepsYesMeansEmpty(s, step);
    KeepsRecorded(s, step);
  }

  // ---------------------------------------------------------------- the whole daemon

  /**
   The consumer thread: at the top of its loop, inside pthread_cond_wait, holding an event it has
   dequeued, holding the list mutex with the sessions before next already served, or returned.
   */
  datatype Consumer = Top | Waiting | Holding(message: Message) | Fanning(message: Message, next: nat) | Stopped

  /** sent: what producers queued.  fanned: what the consumer dequeued, in order. */
  datatype World = World(global: Queue, consumer: Consumer, sessions: seq<Session>, sent: seq<Message>,
                         fanned: seq<Message>)
  {
    /** The fan-outs that have taken the list mutex. */
    function Begun(): nat {
      if consumer.Holding? && fanned != [] then |fanned| - 1 else |fanned|
    }

    /** How many fan-outs have served session i. */
    function Served(i: nat): nat {
      if consumer.Fanning? && consumer.next <= i && fanned != [] then |fanned| - 1 else Begun()
    }
  }

  const CONSUMER: Waiter := Reader(None)

  const INIT := World(EMPTY.(sendLog := true), Top, [], [], [])

  datatype Step =
    | Send(message: Message)
    | ConsumerStart
    | ConsumerResume
    | FanBegin
    | FanOne
    | FanEnd
    | Join
    | InSession(i: nat, step: SessionStep)
    | ExitGlobal

  predicate Enabled(w: World, step: Step) {
    match step
    case Send(_) => w.consumer != Stopped
    case ConsumerStart => w.consumer == Top
    case ConsumerResume => w.consumer == Waiting && CONSUMER in w.global.woken
    case FanBegin => w.consumer.Holding?
    case FanOne => w.consumer.Fanning? && w.consumer.next < |w.sessions|
    case FanEnd => w.consumer.Fanning? && w.consumer.next == |w.sessions|
    case Join => !w.consumer.Fanning?
    case InSession(i, s) =>
      i < |w.sessions| && SEnabled(w.sessions[i], s) && !s.SFan? && (s.SExit? ==> !w.consumer.Fanning?)
    case ExitGlobal => w.consumer != Stopped
  }

  /** The consumer loop after dequeue_event. */
  function AfterDequeue(w: World, r: (Queue, Outcome)): World {
    match r.1
    case Slept => w.(global := r.0, consumer := Waiting)
    case Got(m) => w.(global := r.0, consumer := Holding(m), fanned := w.fanned + [m])
    case _ => w.(global := r.0, consumer := Stopped)
  }

  function Next(w: World, step: Step): World
    requires Enabled(w, step)
  {
    match step
    case Send(m) => w.(global := Offer(w.global, m, true), sent := w.sent + [m])
    case ConsumerStart => AfterDequeue(w, DequeueStart(w.global, None, true))
    case ConsumerResume => AfterDequeue(w, DequeueResume(w.global, None, true))
    case FanBegin => w.(consumer := Fanning(w.consumer.message, 0))
    case FanOne =>
      var i, m := w.consumer.next, w.consumer.message;
      var ss := if w.sessions[i].listed then w.sessions[i := SNext(w.sessions[i], SFan(m))] else w.sessions;
      w.(sessions := ss, consumer := Fanning(m, i + 1))
    case FanEnd => w.(consumer := Top)
    case Join => w.(sessions := w.sessions + [NewSession(w.Begun())])
    case InSession(i, s) => w.(sessions := w.sessions[i := SNext(w.sessions[i], s)])
    case ExitGlobal => w.(global := Exit(w.global))
  }

  /** What dequeue_event did in this step, for the steps that run it. */
  function StepOutcome(w: World, step: Step): Outcome
    requires Enabled(w, step)
  {
    match step
    case ConsumerStart => DequeueStart(w.global, None, true).1
    case ConsumerResume => DequeueResume(w.global, None, true).1
    case InSession(i, s) => SOutcome(w.sessions[i], s)
    case _ => Refused
  }

  /** A run: the worlds between the steps, from the initial one. */
  ghost predicate IsRun(ws: seq<World>, steps: seq<Step>) {
    && |ws| == |steps| + 1 && ws[0] == INIT
    && forall k | 0 <= k < |steps| :: Enabled(ws[k], steps[k]) && ws[k + 1] == Next(ws[k], steps[k])
  }

  ghost predicate Reachable(w: World) {
    exists ws, steps :: IsRun(ws, steps) && ws[|ws| - 1] == w
  }

  /** Everything sent was dequeued by the consumer or is queued. */
  ghost predicate GlobalConserved(w: World) {
    w.sent == w.fanned + w.global.events
  }

  /** The consumer is the only thread that waits on the global queue; asleep it is recorded and has nothing to read. */
  ghost predicate NoLostWakeup(w: World) {
    && w.global.sendLog
    && w.global.asleep !! w.global.woken
    && w.global.Waiters() == (if w.consumer == Waiting then {CONSUMER} else {})
    && (CONSUMER in w.global.asleep ==> w.global.waiting == Yes && w.global.events == [])
    && (CONSUMER in w.global.woken ==> w.global.events != [] || w.global.exiting)
  }

  /** A listed session was offered exactly the fan-outs that began since it joined, in order. */
  ghost predicate FannedToAll(w: World) {
    && (w.consumer.Holding? || w.consumer.Fanning? ==> w.fanned != [] && w.fanned[|w.fanned| - 1] == w.consumer.message)
    && (w.consumer.Fanning? ==> w.consumer.next <= |w.sessions|)
    && forall i | 0 <= i < |w.sessions| :: Fed(w.sessions[i], w.fanned, w.Served(i))
  }

  /** A session taken off the list keeps what it had been offered until then. */
  ghost predicate Fed(s: Session, fanned: seq<Message>, served: nat) {
    && served <= |fanned| && s.joined <= |fanned|
    && if s.listed then s.joined <= served && Fanned(s.log) == fanned[s.joined..served]
       else Fanned(s.log) <= fanned[s.joined..]
  }

  ghost predicate SessionsSound(w: World) {
    forall i | 0 <= i < |w.sessions| :: SInv(w.sessions[i])
  }

  ghost predicate Inv(w: World) {
    GlobalConserved(w) && NoLostWakeup(w) && FannedToAll(w) && SessionsSound(w)
  }

  lemma FedMore(s: Session, fanned: seq<Message>, served: nat, m: Message)
    requires Fed(s, fanned, served)
    ensures Fed(s, fanned + [m], served)
  {
    assert s.listed ==> (fanned + [m])[s.joined..served] == fanned[s.joined..served];
    assert fanned[s.joined..] <= (fanned + [m])[s.joined..];
  }

  lemma FedNext(s: Session, fanned: seq<Message>)
    requires fanned != [] && Fed(s, fanned, |fanned| - 1)
    ensures s.listed ==> Fed(SNext(s, SFan(fanned[|fanned| - 1])), fanned, |fanned|)
    ensures !s.listed ==> Fed(s, fanned, |fanned|)
  {
    var m := fanned[|fanned| - 1];
    LogSnoc(s.log, FannedOut(m));
    assert s.listed ==> fanned[s.joined..] == fanned[s.joined..|fanned| - 1] + [m];
  }

  lemma FedOther(s: Session, step: SessionStep, fanned: seq<Message>, served: nat)
    requires Fed(s, fanned, served) && !step.SFan?
    ensures Fed(SNext(s, step), fanned, served)
  {
    match step
    case SNotice(m) => LogSnoc(s.log, Notice(m));
    case SToggle(u) => LogSnoc(s.log, Toggled(u));
    case SToggleLog => LogSnoc(s.log, LogToggled);
    case SExit =>
      assert fanned[s.joined..] == if s.listed then fanned[s.joined..served] + fanned[served..] else fanned[s.joined..];
    case _ =>
  }

  lemma KeepsFanned(w: World, step: Step)
    requires FannedToAll(w) && Enabled(w, step)
    ensures FannedToAll(Next(w, step))
  {
    hide Fed, SNext, Fanned, Take, Offer, SEnabled;
    var w' := Next(w, step);
    forall i | 0 <= i < |w'.sessions| ensures Fed(w'.sessions[i], w'.fanned, w'.Served(i)) {
      if i < |w.sessions| {
        assert Fed(w.sessions[i], w.fanned, w.Served(i));
        if w'.fanned != w.fanned {
          FedMore(w.sessions[i], w.fanned, w.Served(i), w'.fanned[|w.fanned|]);
        } else if step.FanOne? && i == w.consumer.next {
          FedNext(w.sessions[i], w.fanned);
        } else if step.InSession? && step.i == i {
          FedOther(w.sessions[i], step.step, w.fanned, w.Served(i));
        }
      } else {
        FedNew(w.fanned, w.Begun());
      }
    }
  }

  lemma FedNew(fanned: seq<Message>, served: nat)
    requires served <= |fanned|
    ensures Fed(NewSession(served), fanned, served)
  {
  }

  lemma KeepsGlobal(w: World, step: Step)
    requires GlobalConserved(w) && NoLostWakeup(w) && Enabled(w, step)
    ensures GlobalConserved(Next(w, step)) && NoLostWakeup(Next(w, step)) && StepGlobalOutcome(w, step) != Crash
  {
    KeepsGlobalConserved(w, step);
    hide SNext, SEnabled, SOutcome, GlobalConserved;
  }

  lemma KeepsGlobalConserved(w: World, step: Step)
    requires GlobalConserved(w) && NoLostWakeup(w) && Enabled(w, step)
    ensures GlobalConserved(Next(w, step))
  {
    hide SNext, SEnabled, SOutcome;
    var w' := Next(w, step);
    if step.Send? {
      assert w.sent + [step.message] == w.fanned + (w.global.events + [step.message]);
    } else if w'.fanned != w.fanned {
      assert w.global.events == [w.global.events[0]] + w.global.events[1..];
    }
  }

  /** What dequeue_event on the global queue did in this step. */
  function StepGlobalOutcome(w: World, step: Step): Outcome
    requires Enabled(w, step)
  {
    if step.InSession? then Refused else StepOutcome(w, step)
  }

  lemma KeepsSessions(w: World, step: Step)
    requires SessionsSound(w) && Enabled(w, step)
    ensures SessionsSound(Next(w, step)) && (step.InSession? ==> StepOutcome(w, step) != Crash)
  {
    hide SInv, SNext, SEnabled, SOutcome, Take, Offer;
    if step.InSession? {
      SessionStepKeeps(w.sessions[step.i], step.step);
    } else if step.FanOne? {
      FanEnabled(w.sessions[w.consumer.next], w.consumer.message);
      SessionStepKeeps(w.sessions[w.consumer.next], SFan(w.consumer.message));
    } else if step.Join? {
      NewSound(w.Begun());
    }
  }

  lemma FanEnabled(s: Session, m: Message)
    ensures SEnabled(s, SFan(m))
  {
  }

  lemma NewSound(joined: nat)
    ensures SInv(NewSession(joined))
  {
  }

  lemma StepKeeps(w: World, step: Step)
    requires Inv(w) && Enabled(w, step)
    ensures Inv(Next(w, step)) && StepOutcome(w, step) != Crash
  {
    hide GlobalConserved, NoLostWakeup, FannedToAll, SessionsSound, Enabled, Next, StepOutcome;
    KeepsGlobal(w, step);
    KeepsFanned(w, step);
    KeepsSessions(w, step);
  }

  lemma {:induction false} RunKeeps(ws: seq<World>, steps: seq<Step>, k: nat)
    requires IsRun(ws, steps) && k < |ws|
    ensures Inv(ws[k])
  {
    if k > 0 {
      RunKeeps(ws, steps, k - 1);
      StepKeeps(ws[k - 1], steps[k - 1]);
    }
  }

  lemma ReachableInv(w: World)
    requires Reachable(w)
    ensures Inv(w)
  {
    var ws, steps :| IsRun(ws, steps) && ws[|ws| - 1] == w;
    RunKeeps(ws, steps, |ws| - 1);
  }
}
