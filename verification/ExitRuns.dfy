/**
 What exit_event_queue does to the consumer thread: the runs that follow the call on the global queue
 when nothing is sent any more.
 */
module ExitRuns {
  import opened EventQueues
  import opened EventDelivery
  import opened EventGuarantees

  /** A step in which no producer runs and exit_event_queue is not called again. */
  predicate Quiet(step: Step) {
    !step.Send? && !step.ExitGlobal?
  }

  /** w' can be reached from w by quiet steps. */
  ghost predicate Leads(w: World, w': World) {
    exists ws, steps :: QuietRun(ws, steps) && ws[0] == w && ws[|ws| - 1] == w'
  }

  ghost predicate QuietRun(ws: seq<World>, steps: seq<Step>) {
    && |ws| == |steps| + 1
    && forall k | 0 <= k < |steps| :: Quiet(steps[k]) && Enabled(ws[k], steps[k]) && ws[k + 1] == Next(ws[k], steps[k])
  }

  predicate Asleep(w: World) {
    CONSUMER in w.global.asleep
  }

  /** What the caller of exit_event_queue can check: the consumer waits, or an event is queued. */
  predicate StopsAtExit(w: World) {
    w.consumer == Consumer.Waiting || w.global.events != []
  }

  /** Where the consumer can be after the call, when it is going to stop and when it is not. */
  ghost predicate Fated(w: World, stops: bool) {
    && w.global.exiting && (w.consumer != Consumer.Waiting ==> CONSUMER !in w.global.Waiters())
    && (w.consumer.Fanning? ==> w.consumer.next <= |w.sessions|)
    && if stops then
         && !Asleep(w)
         && (w.consumer == Consumer.Waiting ==> CONSUMER in w.global.woken)
         && (w.consumer == Stopped || w.consumer == Consumer.Waiting || w.global.events != [])
       else
         && w.consumer != Stopped && w.global.events == []
         && (w.consumer == Consumer.Waiting ==> Asleep(w) && CONSUMER !in w.global.woken)
  }

  lemma ExitDecides(w: World)
    requires Reachable(w) && w.consumer != Stopped
    ensures Fated(Next(w, ExitGlobal), StopsAtExit(w))
  {
    ReachableInv(w);
    if w.consumer == Consumer.Waiting {
      BlockedConsumerIsWoken(w, Message("", ""));
    }
    assert CONSUMER in w.global.asleep ==> CONSUMER in w.global.Waiters();
  }

  lemma FateKept(w: World, step: Step, stops: bool)
    requires Fated(w, stops) && Quiet(step) && Enabled(w, step)
    ensures Fated(Next(w, step), stops)
  {
    hide SNext, SEnabled;
  }

  lemma {:induction false} RunFated(ws: seq<World>, steps: seq<Step>, k: nat, stops: bool)
    requires QuietRun(ws, steps) && k < |ws| && Fated(ws[0], stops)
    ensures Fated(ws[k], stops)
  {
    if k > 0 {
      RunFated(ws, steps, k - 1, stops);
      FateKept(ws[k - 1], steps[k - 1], stops);
    }
  }

  lemma LeadsFated(w: World, w': World, stops: bool)
    requires Leads(w, w') && Fated(w, stops)
    ensures Fated(w', stops)
  {
    var ws, steps :| QuietRun(ws, steps) && ws[0] == w && ws[|ws| - 1] == w';
    RunFated(ws, steps, |ws| - 1, stops);
  }

  lemma LeadsNowhere(w: World)
    ensures Leads(w, w)
  {
    assert QuietRun([w], []);
  }

  lemma LeadsOn(w: World, w': World, step: Step)
    requires Leads(w, w') && Quiet(step) && Enabled(w', step)
    ensures Leads(w, Next(w', step))
  {
    var ws, steps :| QuietRun(ws, steps) && ws[0] == w && ws[|ws| - 1] == w';
    var next := Next(w', step);
    hide Next, Enabled;
    assert QuietRun(ws + [next], steps + [step]);
  }

  /** The consumer has stopped, or sleeps. */
  predicate Settled(w: World) {
    w.consumer == Stopped || Asleep(w)
  }

  /** The consumer's own steps that are left until it is back at the top of its loop, and the one from there. */
  function Left(w: World): nat {
    match w.consumer
    case Holding(_) => |w.sessions| + 3
    case Fanning(_, n) => if n <= |w.sessions| then |w.sessions| - n + 2 else 2
    case Top => 1
    case Waiting => 1
    case Stopped => 0
  }

  /** The consumer's next step. */
  function Turn(w: World): Step {
    match w.consumer
    case Holding(_) => FanBegin
    case Fanning(_, n) => if n < |w.sessions| then FanOne else FanEnd
    case Top => ConsumerStart
    case _ => ConsumerResume
  }

  /** An unsettled consumer can take its turn, which brings it nearer to the end. */
  lemma TurnAdvances(w: World, stops: bool)
    requires Fated(w, stops) && !Settled(w)
    ensures Enabled(w, Turn(w)) && Quiet(Turn(w))
    ensures Settled(Next(w, Turn(w))) || Left(Next(w, Turn(w))) < Left(w)
  {
    hide SNext, SEnabled;
  }

  /** So it settles, whatever happened since the call, once it alone is scheduled. */
  lemma {:induction false} Settles(w0: World, w: World, stops: bool) returns (w': World)
    requires Leads(w0, w) && Fated(w, stops)
    ensures Leads(w0, w') && Settled(w') && Fated(w', stops)
    decreases Left(w)
  {
    w' := w;
    if !Settled(w) {
      TurnAdvances(w, stops);
      FateKept(w, Turn(w), stops);
      LeadsOn(w0, w, Turn(w));
      var next := Next(w, Turn(w));
      hide Next, Fated, Left, Enabled;
      if Settled(next) {
        w' := next;
      } else {
        w' := Settles(w0, next, stops);
      }
    }
  }

  /**
   With no producer running after exit_event_queue, the consumer comes to stop exactly when at the call it
   was waiting or an event was queued, and then it never sleeps on the way; otherwise it comes to sleep
   and never stops.  Wherever the run has got to, the consumer's own steps take it there.
   */
  lemma ExitStopsConsumerIff(w: World)
    requires Reachable(w) && w.consumer != Stopped
    ensures (exists v :: Leads(Next(w, ExitGlobal), v) && v.consumer == Stopped) <==> StopsAtExit(w)
    ensures (exists v :: Leads(Next(w, ExitGlobal), v) && Asleep(v)) <==> !StopsAtExit(w)
    ensures forall v | Leads(Next(w, ExitGlobal), v) ::
              exists v' :: Leads(v, v') && if StopsAtExit(w) then v'.consumer == Stopped else Asleep(v')
  {
    var w1, stops := Next(w, ExitGlobal), StopsAtExit(w);
    ReachableInv(w);
    ExitDecides(w);
    LeadsNowhere(w1);
    hide Next, StopsAtExit, Leads;
    forall v | Leads(w1, v)
      ensures Fated(v, stops) && exists v' :: Leads(v, v') && if stops then v'.consumer == Stopped else Asleep(v')
    {
      LeadsFated(w1, v, stops);
      LeadsNowhere(v);
      var v' := Settles(v, v, stops);
    }
  }
}
