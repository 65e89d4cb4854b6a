/**
 When a session times out while other VPSs send requests and replies: the shared alarm as a function of
 the ticks, wakeups and messages alone, and the session's timeout as its k-th served alarm.
 */
module SessionTraffic {
  import opened Basics
  import opened Sessions
  import opened SessionRuns

  /** Every message is in range and for another VPS than v. */
  ghost predicate Foreign(steps: seq<Step>, v: nat, n: nat) {
    forall i | 0 <= i < |steps| :: ForeignStep(steps[i], v, n)
  }

  predicate ForeignStep(step: Step, v: nat, n: nat) {
    step.Wakeup? && step.input.Some? ==> step.input.value.vps != v && step.input.value.vps < n
  }

  /** One step of the manager and what it sends. */
  function Do(m: Manager, step: Step): (r: (Manager, seq<Output>))
    requires step.Wakeup? && step.input.Some? ==> step.input.value.vps < |m.table|
    ensures |r.0.table| == |m.table|
  {
    match step
    case TimerTick => (Tick(m), [])
    case Wakeup(input) => Wake(m, input)
  }

  ghost function Play(m: Manager, steps: seq<Step>, v: nat): (m': Manager)
    requires Foreign(steps, v, |m.table|)
    ensures |m'.table| == |m.table|
  {
    if steps == [] then m else Do(Play(m, steps[..|steps| - 1], v), steps[|steps| - 1]).0
  }

  /** What the last of the steps sends. */
  ghost function LastSent(m: Manager, steps: seq<Step>, v: nat): seq<Output>
    requires steps != [] && Foreign(steps, v, |m.table|)
  {
    Do(Play(m, steps[..|steps| - 1], v), steps[|steps| - 1]).1
  }

  // ---------------------------------------------------------------- the alarm, from the steps alone

  /** countdown and signal of the alarm, and how often it has been served. */
  datatype Alarm = Alarm(countdown: nat, signal: bool, served: nat)

  predicate IsRequest(step: Step) {
    step.Wakeup? && step.input.Some? && step.input.value.Request?
  }

  /** What a request sets the countdown to. */
  function Restart(step: Step): nat
    requires IsRequest(step)
  {
    if IsLong(step.input.value.payload) then LONG_TICKS else AGE_TICKS
  }

  /** A wakeup serves a signalled alarm, and a served one is set again for as long as a session stays open. */
  function Alarmed(a: Alarm, step: Step): Alarm {
    if step.TimerTick? then Alarm(TickAlarm(a.countdown, a.signal).0, TickAlarm(a.countdown, a.signal).1, a.served)
    else if a.signal then Alarm(AGE_TICKS, false, a.served + 1)
    else if IsRequest(step) then a.(countdown := Restart(step))
    else a
  }

  function Alarms(a: Alarm, steps: seq<Step>): Alarm {
    if steps == [] then a else Alarmed(Alarms(a, steps[..|steps| - 1]), steps[|steps| - 1])
  }

  function AlarmOf(m: Manager): Alarm {
    Alarm(m.countdown, m.signal, 0)
  }

  /** The ticks since the last request, and what that request, or the start, set the countdown to. */
  function TicksSince(steps: seq<Step>): nat {
    if steps == [] || IsRequest(steps[|steps| - 1]) then 0
    else TicksSince(steps[..|steps| - 1]) + if steps[|steps| - 1].TimerTick? then 1 else 0
  }

  function Period(c: nat, steps: seq<Step>): nat {
    if steps == [] then c
    else if IsRequest(steps[|steps| - 1]) then Restart(steps[|steps| - 1])
    else Period(c, steps[..|steps| - 1])
  }

  /** At some point a whole countdown had passed without a request from any VPS. */
  function Elapsed(c: nat, steps: seq<Step>): bool {
    steps != [] && (Elapsed(c, steps[..|steps| - 1]) || TicksSince(steps) >= Period(c, steps))
  }

  /** An alarm that counts down is signalled, or has been served, exactly when a whole countdown passed undisturbed. */
  lemma {:induction false} SignalledIff(c: nat, j: nat, steps: seq<Step>)
    requires c > 0
    ensures var a := Alarms(Alarm(c, false, j), steps);
            && a.served >= j
            && (a.signal || a.served > j <==> Elapsed(c, steps))
            && (!Elapsed(c, steps) ==> a.countdown > 0 && a.countdown + TicksSince(steps) == Period(c, steps))
  {
    if steps != [] {
      SignalledIff(c, j, steps[..|steps| - 1]);
    }
  }

  // ---------------------------------------------------------------- one session under that alarm

  /** What the manager's alarm and v's entry have to do with the alarm of the steps. */
  ghost predicate Tracks(m: Manager, v: nat, k: nat, a: Alarm) {
    && v < |m.table|
    && if a.served < k then m.table[v] == k - a.served && m.countdown == a.countdown && m.signal == a.signal
       else m.table[v] == 0
  }

  lemma ReceiveElse(m: Manager, v: nat, i: Input)
    requires v < |m.table| && i.vps < |m.table| && i.vps != v
    ensures var (m', outs) := Receive(m, i);
            && |m'.table| == |m.table| && m'.table[v] == m.table[v] && m'.signal == m.signal && Timeout(v) !in outs
            && m'.countdown == if IsRequest(Wakeup(Some(i))) then Restart(Wakeup(Some(i))) else m.countdown
  {
  }

  lemma AgeOne(m: Manager, v: nat)
    requires v < |m.table|
    ensures var (m', outs) := Age(m);
            && |m'.table| == |m.table| && !m'.signal
            && m'.table[v] == (if m.signal && m.table[v] > 0 then m.table[v] - 1 else m.table[v])
            && (m.signal && m.table[v] > 1 ==> m'.countdown == AGE_TICKS)
            && (!m.signal ==> m'.countdown == m.countdown)
            && (Timeout(v) in outs <==> m.signal && m.table[v] == 1)
  {
    ExpiredHas(m.table, |m.table|, v);
  }

  /** One step: the entry ages with the alarm, and the timeout is sent when it reaches the k-th. */
  lemma StepTracks(m: Manager, v: nat, k: nat, a: Alarm, step: Step)
    requires k > 0 && Tracks(m, v, k, a) && ForeignStep(step, v, |m.table|)
    ensures Tracks(Do(m, step).0, v, k, Alarmed(a, step))
    ensures Timeout(v) in Do(m, step).1 <==> a.served == k - 1 && Alarmed(a, step).served == k
  {
    if step.Wakeup? {
      var (m1, o1) := if step.input.Some? then Receive(m, step.input.value) else (m, []);
      if step.input.Some? {
        ReceiveElse(m, v, step.input.value);
      }
      AgeOne(m1, v);
      hide Receive, Age;
      assert Do(m, step) == (Age(m1).0, o1 + Age(m1).1);
    }
  }

  lemma {:induction false} PlayTracks(m: Manager, v: nat, steps: seq<Step>)
    requires IsOpen(m, v) && Foreign(steps, v, |m.table|)
    ensures Tracks(Play(m, steps, v), v, m.table[v], Alarms(AlarmOf(m), steps))
  {
    if steps != [] {
      var before, last := steps[..|steps| - 1], steps[|steps| - 1];
      PlayTracks(m, v, before);
      assert ForeignStep(last, v, |m.table|);
      StepTracks(Play(m, before, v), v, m.table[v], Alarms(AlarmOf(m), before), last);
    }
  }

  /**
   Under any ticks, wakeups and messages of other VPSs an open session of value k sends its TIMEOUT in the
   step that serves the k-th alarm, and in no other; until then it is open with k less the alarms served.
   */
  lemma TimesOutAtServedAlarm(m: Manager, v: nat, steps: seq<Step>)
    requires IsOpen(m, v) && Foreign(steps, v, |m.table|)
    ensures var k, served := m.table[v], Alarms(AlarmOf(m), steps).served;
            && Play(m, steps, v).table[v] == (if served < k then k - served else 0)
            && (steps != [] ==>
                  (Timeout(v) in LastSent(m, steps, v)
                   <==> Alarms(AlarmOf(m), steps[..|steps| - 1]).served == k - 1 && served == k))
  {
    PlayTracks(m, v, steps);
    if steps != [] {
      var before, last := steps[..|steps| - 1], steps[|steps| - 1];
      PlayTracks(m, v, before);
      assert ForeignStep(last, v, |m.table|);
      StepTracks(Play(m, before, v), v, m.table[v], Alarms(AlarmOf(m), before), last);
    }
  }

  /** So it keeps its value exactly as long as no countdown passes without a request from any VPS, or none is served. */
  lemma {:induction false} KeepsValueIff(m: Manager, v: nat, steps: seq<Step>)
    requires IsOpen(m, v) && !m.signal && m.countdown > 0 && Foreign(steps, v, |m.table|)
    requires steps != [] && steps[|steps| - 1] == Wakeup(None)
    ensures Play(m, steps, v).table[v] == m.table[v] <==> !Elapsed(m.countdown, steps)
  {
    TimesOutAtServedAlarm(m, v, steps);
    SignalledIff(m.countdown, 0, steps);
  }
}
