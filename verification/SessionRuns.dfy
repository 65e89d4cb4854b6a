/**
 Runs of the session manager and the timer: how many answers a VPS can get, when an open session is
 being counted down, and exactly when its TIMEOUT is sent.
 */
module SessionRuns {
  import opened Basics
  import opened Sessions

  /**
   The manager with what it received and sent so far.  overlaps lists the VPS of every request that
   found its session still open.
   */
  datatype State = State(m: Manager, received: seq<Input>, sent: seq<Output>, overlaps: seq<nat>)

  datatype Step = Wakeup(input: Option<Input>) | TimerTick

  function Init(vps: nat): State {
    State(Manager(seq(vps, i => 0), 0, false), [], [], [])
  }

  predicate Enabled(s: State, step: Step) {
    step.Wakeup? && step.input.Some? ==> step.input.value.vps < |s.m.table|
  }

  predicate IsOpen(m: Manager, v: nat) {
    v < |m.table| && m.table[v] != 0
  }

  function Next(s: State, step: Step): State
    requires Enabled(s, step)
  {
    match step
    case TimerTick => s.(m := Tick(s.m))
    case Wakeup(None) => s.(m := Wake(s.m, None).0, sent := s.sent + Wake(s.m, None).1)
    case Wakeup(Some(i)) =>
      State(Wake(s.m, Some(i)).0, s.received + [i], s.sent + Wake(s.m, Some(i)).1,
            if i.Request? && IsOpen(s.m, i.vps) then s.overlaps + [i.vps] else s.overlaps)
  }

  ghost predicate IsRun(ss: seq<State>, steps: seq<Step>) {
    && |ss| == |steps| + 1 && (exists vps :: ss[0] == Init(vps))
    && forall k | 0 <= k < |steps| :: Enabled(ss[k], steps[k]) && ss[k + 1] == Next(ss[k], steps[k])
  }

  ghost predicate Reachable(s: State) {
    exists ss, steps :: IsRun(ss, steps) && ss[|ss| - 1] == s
  }

  // ---------------------------------------------------------------- counting answers

  function Bit(b: bool): nat {
    if b then 1 else 0
  }

  function Requests(ins: seq<Input>, v: nat): nat {
    if ins == [] then 0 else Requests(ins[..|ins| - 1], v) + Bit(ins[|ins| - 1].Request? && ins[|ins| - 1].vps == v)
  }

  function Replies(ins: seq<Input>, v: nat): nat {
    if ins == [] then 0 else Replies(ins[..|ins| - 1], v) + Bit(ins[|ins| - 1].Reply? && ins[|ins| - 1].vps == v)
  }

  /** Replies and timeouts sent on output v+2. */
  function Answers(outs: seq<Output>, v: nat): nat {
    if outs == [] then 0
    else Answers(outs[..|outs| - 1], v)
         + Bit((outs[|outs| - 1].Answer? || outs[|outs| - 1].Timeout?) && outs[|outs| - 1].vps == v)
  }

  /** Replies passed on to the session's task, and replies broadcast on UDP. */
  function Passed(outs: seq<Output>, v: nat): nat {
    if outs == [] then 0
    else Passed(outs[..|outs| - 1], v)
         + Bit((outs[|outs| - 1].Answer? || outs[|outs| - 1].Udp?) && outs[|outs| - 1].vps == v)
  }

  function Occurrences(vs: seq<nat>, v: nat): nat {
    if vs == [] then 0 else Occurrences(vs[..|vs| - 1], v) + Bit(vs[|vs| - 1] == v)
  }

  lemma {:induction false} Concats(a: seq<Output>, b: seq<Output>, v: nat)
    ensures Answers(a + b, v) == Answers(a, v) + Answers(b, v)
    ensures Passed(a + b, v) == Passed(a, v) + Passed(b, v)
  {
    if b == [] {
      assert a + b == a;
    } else {
      var c := b[..|b| - 1];
      assert (a + b)[..|a + b| - 1] == a + c && (a + b)[|a + b| - 1] == b[|b| - 1];
      Concats(a, c, v);
    }
  }

  lemma {:induction false} ExpiredCount(table: seq<nat>, n: nat, v: nat)
    requires n <= |table|
    ensures Answers(Expired(table, n), v) == Bit(v < n && table[v] == 1)
    ensures Passed(Expired(table, n), v) == 0
  {
    if n > 0 {
      ExpiredCount(table, n - 1, v);
      var last: seq<Output> := if table[n - 1] == 1 then [Timeout(n - 1)] else [];
      Concats(Expired(table, n - 1), last, v);
      assert last != [] ==> last[..0] == [];
    }
  }

  /** Requests from v = answers to v + 1 if v's session is open + requests that found it open. */
  ghost predicate Balanced(s: State, v: nat) {
    && Requests(s.received, v) == Answers(s.sent, v) + Bit(IsOpen(s.m, v)) + Occurrences(s.overlaps, v)
    && Replies(s.received, v) == Passed(s.sent, v)
  }

  ghost predicate Armed(m: Manager) {
    (exists v: nat :: IsOpen(m, v)) ==> m.countdown > 0 || m.signal
  }

  lemma AgeBalanced(s: State, v: nat)
    requires Balanced(s, v)
    ensures Balanced(s.(m := Age(s.m).0, sent := s.sent + Age(s.m).1), v)
  {
    Concats(s.sent, Age(s.m).1, v);
    ExpiredCount(s.m.table, |s.m.table|, v);
  }

  lemma {:induction false} CountOne(s: State, i: Input, o: Output, v: nat)
    ensures Requests(s.received + [i], v) == Requests(s.received, v) + Bit(i.Request? && i.vps == v)
    ensures Replies(s.received + [i], v) == Replies(s.received, v) + Bit(i.Reply? && i.vps == v)
    ensures Answers(s.sent + [o], v) == Answers(s.sent, v) + Bit((o.Answer? || o.Timeout?) && o.vps == v)
    ensures Passed(s.sent + [o], v) == Passed(s.sent, v) + Bit((o.Answer? || o.Udp?) && o.vps == v)
    ensures Occurrences(s.overlaps + [i.vps], v) == Occurrences(s.overlaps, v) + Bit(i.vps == v)
  {
    assert (s.received + [i])[..|s.received|] == s.received;
    assert (s.sent + [o])[..|s.sent|] == s.sent;
    assert (s.overlaps + [i.vps])[..|s.overlaps|] == s.overlaps;
  }

  /** A message opens or closes its own session and produces one output for its VPS. */
  lemma ReceiveEffect(m: Manager, i: Input, v: nat)
    requires i.vps < |m.table|
    ensures IsOpen(Receive(m, i).0, v) == if i.vps == v then i.Request? else IsOpen(m, v)
    ensures var outs := Receive(m, i).1;
            && |outs| == 1 && outs[0].vps == i.vps
            && (outs[0].Forward? <==> i.Request?)
            && (outs[0].Answer? <==> i.Reply? && IsOpen(m, i.vps))
            && (outs[0].Udp? <==> i.Reply? && !IsOpen(m, i.vps))
  {
  }

  lemma ReceiveBalanced(s: State, i: Input, v: nat)
    requires Balanced(s, v) && i.vps < |s.m.table|
    ensures var (m, outs) := Receive(s.m, i);
            Balanced(State(m, s.received + [i], s.sent + outs,
                           if i.Request? && IsOpen(s.m, i.vps) then s.overlaps + [i.vps] else s.overlaps), v)
  {
    hide Requests, Replies, Answers, Passed, Occurrences, Receive;
    ReceiveEffect(s.m, i, v);
    var outs := Receive(s.m, i).1;
    assert outs == [outs[0]];
    CountOne(s, i, outs[0], v);
  }

  lemma StepBalanced(s: State, step: Step, v: nat)
    requires Balanced(s, v) && Enabled(s, step)
    ensures Balanced(Next(s, step), v)
  {
    hide Balanced, Receive, Age;
    match step
    case TimerTick => TickBalanced(s, v);
    case Wakeup(None) =>
      AgeBalanced(s, v);
      assert [] + Age(s.m).1 == Age(s.m).1;
    case Wakeup(Some(i)) =>
      ReceiveBalanced(s, i, v);
      var (m, outs) := Receive(s.m, i);
      AgeBalanced(State(m, s.received + [i], s.sent + outs,
                        if i.Request? && IsOpen(s.m, i.vps) then s.overlaps + [i.vps] else s.overlaps), v);
      assert (s.sent + outs) + Age(m).1 == s.sent + (outs + Age(m).1);
  }

  lemma TickBalanced(s: State, v: nat)
    requires Balanced(s, v)
    ensures Balanced(s.(m := Tick(s.m)), v)
  {
  }

  lemma AgeArmed(m: Manager)
    requires Armed(m)
    ensures Armed(Age(m).0)
  {
    var m' := Age(m).0;
    if v: nat :| IsOpen(m', v) {
      assert IsOpen(m, v);
      assert m.signal ==> m.table[v] > 1;
    }
  }

  lemma ReceiveArmed(m: Manager, i: Input)
    requires Armed(m) && i.vps < |m.table|
    ensures Armed(Receive(m, i).0)
  {
    var m' := Receive(m, i).0;
    if v: nat :| i.Reply? && IsOpen(m', v) {
      assert IsOpen(m, v);
    }
  }

  lemma StepArmed(s: State, step: Step)
    requires Armed(s.m) && Enabled(s, step)
    ensures Armed(Next(s, step).m)
  {
    hide Receive, Age;
    match step
    case TimerTick =>
      if v: nat :| IsOpen(Tick(s.m), v) {
        assert IsOpen(s.m, v);
      }
    case Wakeup(None) => AgeArmed(s.m);
    case Wakeup(Some(i)) =>
      ReceiveArmed(s.m, i);
      AgeArmed(Receive(s.m, i).0);
  }

  lemma {:induction false} RunKeeps(ss: seq<State>, steps: seq<Step>, k: nat, v: nat)
    requires IsRun(ss, steps) && k < |ss|
    ensures Balanced(ss[k], v) && Armed(ss[k].m)
  {
    if k > 0 {
      RunKeeps(ss, steps, k - 1, v);
      hide Balanced, Armed, Next;
      StepBalanced(ss[k - 1], steps[k - 1], v);
      StepArmed(ss[k - 1], steps[k - 1]);
    }
  }

  /**
   For every VPS and every run: answers plus one for an open session never exceed the requests, with
   equality exactly when no request found its session open; every reply went to the session or to UDP.
   */
  lemma {:induction false} AnswersNeverExceedRequests(s: State, v: nat)
    requires Reachable(s)
    ensures Answers(s.sent, v) + Bit(IsOpen(s.m, v)) <= Requests(s.received, v)
    ensures Answers(s.sent, v) + Bit(IsOpen(s.m, v)) == Requests(s.received, v) <==> v !in s.overlaps
    ensures Replies(s.received, v) == Passed(s.sent, v)
  {
    var ss, steps :| IsRun(ss, steps) && ss[|ss| - 1] == s;
    RunKeeps(ss, steps, |ss| - 1, v);
    OccursIff(s.overlaps, v);
  }

  lemma {:induction false} OccursIff(vs: seq<nat>, v: nat)
    ensures Occurrences(vs, v) == 0 <==> v !in vs
  {
    if vs != [] {
      OccursIff(vs[..|vs| - 1], v);
      assert vs == vs[..|vs| - 1] + [vs[|vs| - 1]];
    }
  }

  /** In every reachable state an open session's alarm is counting down or signalled. */
  lemma OpenSessionIsCountedDown(s: State, v: nat)
    requires Reachable(s) && IsOpen(s.m, v)
    ensures s.m.countdown > 0 || s.m.signal
  {
    var ss, steps :| IsRun(ss, steps) && ss[|ss| - 1] == s;
    RunKeeps(ss, steps, |ss| - 1, v);
  }

  /** A message for a VPS beyond the table changes nothing: its wakeup does what one without a message does. */
  lemma OutOfRangeIgnored(m: Manager, i: Input)
    requires i.vps > |m.table|
    ensures Wake(m, Some(i)) == Wake(m, None)
  {
  }

  // ---------------------------------------------------------------- what the texts are

  const PREFIX: string := "0TIME"

  /** The replies received for v, and the requests received from it without a leading "0TIME". */
  function ReplyTexts(ins: seq<Input>, v: nat): seq<string> {
    if ins == [] then []
    else
      var i := ins[|ins| - 1];
      ReplyTexts(ins[..|ins| - 1], v) + if i.Reply? && i.vps == v then [i.payload] else []
  }

  function RequestTexts(ins: seq<Input>, v: nat): seq<string> {
    if ins == [] then []
    else
      var i := ins[|ins| - 1];
      RequestTexts(ins[..|ins| - 1], v)
      + if i.Request? && i.vps == v then [if PREFIX <= i.payload then i.payload[5..] else i.payload] else []
  }

  /** What was sent on with v's replies, to its session's output or on UDP, and with its requests. */
  function AnswerTexts(outs: seq<Output>, v: nat): seq<string> {
    if outs == [] then []
    else
      var o := outs[|outs| - 1];
      AnswerTexts(outs[..|outs| - 1], v) + if (o.Answer? || o.Udp?) && o.vps == v then [o.payload] else []
  }

  function ForwardTexts(outs: seq<Output>, v: nat): seq<string> {
    if outs == [] then []
    else
      var o := outs[|outs| - 1];
      ForwardTexts(outs[..|outs| - 1], v) + if o.Forward? && o.vps == v then [o.payload] else []
  }

  ghost predicate TextsKept(s: State, v: nat) {
    ReplyTexts(s.received, v) == AnswerTexts(s.sent, v) && RequestTexts(s.received, v) == ForwardTexts(s.sent, v)
  }

  lemma {:induction false} TextsConcat(a: seq<Output>, b: seq<Output>, v: nat)
    ensures AnswerTexts(a + b, v) == AnswerTexts(a, v) + AnswerTexts(b, v)
    ensures ForwardTexts(a + b, v) == ForwardTexts(a, v) + ForwardTexts(b, v)
  {
    if b == [] {
      assert a + b == a;
    } else {
      var c := b[..|b| - 1];
      assert (a + b)[..|a + b| - 1] == a + c && (a + b)[|a + b| - 1] == b[|b| - 1];
      TextsConcat(a, c, v);
    }
  }

  /** A timeout carries no text of a reply or a request. */
  lemma {:induction false} ExpiredTexts(table: seq<nat>, n: nat, v: nat)
    requires n <= |table|
    ensures AnswerTexts(Expired(table, n), v) == [] && ForwardTexts(Expired(table, n), v) == []
  {
    if n > 0 {
      ExpiredTexts(table, n - 1, v);
      var last: seq<Output> := if table[n - 1] == 1 then [Timeout(n - 1)] else [];
      TextsConcat(Expired(table, n - 1), last, v);
      assert last != [] ==> last[..0] == [];
    }
  }

  /** The one output of a message carries its text, of a long request without its keyword. */
  lemma {:induction false} ReceiveTexts(m: Manager, i: Input, ins: seq<Input>, v: nat)
    requires i.vps < |m.table|
    ensures var outs := Receive(m, i).1;
            && ReplyTexts(ins + [i], v) == ReplyTexts(ins, v) + AnswerTexts(outs, v)
            && RequestTexts(ins + [i], v) == RequestTexts(ins, v) + ForwardTexts(outs, v)
  {
    assert (ins + [i])[..|ins|] == ins;
    var outs := Receive(m, i).1;
    assert |outs| == 1 && outs[..0] == [];
  }

  lemma {:induction false} AgeTexts(m: Manager, v: nat)
    ensures AnswerTexts(Age(m).1, v) == [] && ForwardTexts(Age(m).1, v) == []
  {
    ExpiredTexts(m.table, |m.table|, v);
  }

  lemma {:induction false} NoTexts(v: nat)
    ensures AnswerTexts([], v) == [] && ForwardTexts([], v) == []
  {
  }

  lemma {:induction false} SentTexts(sent: seq<Output>, o1: seq<Output>, o2: seq<Output>, v: nat)
    requires AnswerTexts(o2, v) == [] && ForwardTexts(o2, v) == []
    ensures AnswerTexts(sent + (o1 + o2), v) == AnswerTexts(sent, v) + AnswerTexts(o1, v)
    ensures ForwardTexts(sent + (o1 + o2), v) == ForwardTexts(sent, v) + ForwardTexts(o1, v)
  {
    hide AnswerTexts, ForwardTexts;
    TextsConcat(o1, o2, v);
    TextsConcat(sent, o1 + o2, v);
  }

  lemma {:induction false} StepTexts(s: State, step: Step, v: nat)
    requires TextsKept(s, v) && Enabled(s, step)
    ensures TextsKept(Next(s, step), v)
  {
    hide Aged, Expired, SomeAbove;
    if step.Wakeup? {
      var (m1, o1) := if step.input.Some? then Receive(s.m, step.input.value) else (s.m, []);
      NoTexts(v);
      if step.input.Some? {
        ReceiveTexts(s.m, step.input.value, s.received, v);
      }
      AgeTexts(m1, v);
      hide Receive, Age, ReplyTexts, RequestTexts, AnswerTexts, ForwardTexts;
      SentTexts(s.sent, o1, Age(m1).1, v);
    }
  }

  /**
   For every VPS and every run: the texts passed on for replies to v, to its session or on UDP, are those of the
   replies received for it, in order; and those of its forwarded requests are the texts of its requests, in
   order, without a leading "0TIME".
   */
  lemma {:induction false} TextsPassOn(ss: seq<State>, steps: seq<Step>, k: nat, v: nat)
    requires IsRun(ss, steps) && k < |ss|
    ensures ReplyTexts(ss[k].received, v) == AnswerTexts(ss[k].sent, v)
    ensures RequestTexts(ss[k].received, v) == ForwardTexts(ss[k].sent, v)
  {
    if k > 0 {
      TextsPassOn(ss, steps, k - 1, v);
      hide Next, ReplyTexts, RequestTexts, AnswerTexts, ForwardTexts;
      StepTexts(ss[k - 1], steps[k - 1], v);
    }
  }

  // ---------------------------------------------------------------- when the timeout is sent

  /** One timer tick whose alarm, if it expires, is served before the next tick. */
  function Serve(m: Manager): (Manager, seq<Output>) {
    Wake(Tick(m), None)
  }

  /** What is sent at the t-th tick from m on, when no message arrives. */
  function SentAt(m: Manager, t: nat): seq<Output>
    requires t > 0
    decreases t
  {
    if t == 1 then Serve(m).1 else SentAt(Serve(m).0, t - 1)
  }

  lemma {:induction false} ExpiredHas(table: seq<nat>, n: nat, v: nat)
    requires n <= |table|
    ensures Timeout(v) in Expired(table, n) <==> v < n && table[v] == 1
  {
    if n > 0 {
      ExpiredHas(table, n - 1, v);
    }
  }

  lemma ServeEffect(m: Manager)
    requires !m.signal
    ensures m.countdown != 1 ==> Serve(m) == (m.(countdown := if m.countdown == 0 then 0 else m.countdown - 1), [])
    ensures m.countdown == 1 ==>
              Serve(m) == (Manager(Aged(m.table), if SomeAbove(m.table, |m.table|, 1) then AGE_TICKS else 0, false),
                           Expired(m.table, |m.table|))
  {
    var outs := Age(Tick(m)).1;
    assert Serve(m).1 == [] + outs && [] + outs == outs;
  }

  /** A closed session never times out. */
  lemma {:induction false} ClosedNeverTimesOut(m: Manager, v: nat, t: nat)
    requires !m.signal && v < |m.table| && m.table[v] == 0 && t > 0
    ensures Timeout(v) !in SentAt(m, t)
    decreases t
  {
    ServeEffect(m);
    ExpiredHas(m.table, |m.table|, v);
    if t > 1 {
      ClosedNeverTimesOut(Serve(m).0, v, t - 1);
    }
  }

  /**
   From countdown c with no signal pending and no further message, an entry of value k sends its
   TIMEOUT at tick c + 10 * (k - 1) and at no other.
   */
  lemma {:induction false} TimesOutExactly(m: Manager, v: nat, t: nat)
    requires !m.signal && m.countdown > 0 && IsOpen(m, v) && t > 0
    ensures Timeout(v) in SentAt(m, t) <==> t == m.countdown + AGE_TICKS * (m.table[v] - 1)
    decreases t
  {
    ServeEffect(m);
    ExpiredHas(m.table, |m.table|, v);
    var m' := Serve(m).0;
    if t > 1 {
      if m.countdown == 1 && m.table[v] == 1 {
        ClosedNeverTimesOut(m', v, t - 1);
      } else {
        TimesOutExactly(m', v, t - 1);
      }
    }
  }

  /** A normal request is timed out after 150 ticks and a 0TIME request after 3140 when no alarm is pending. */
  lemma {:induction false} RequestTimesOut(m: Manager, v: nat, payload: string, t: nat)
    requires !m.signal && v < |m.table| && t > 0
    ensures Timeout(v) in SentAt(Wake(m, Some(Request(v, payload))).0, t)
            <==> t == if IsLong(payload) then 3140 else 150
  {
    TimesOutExactly(Wake(m, Some(Request(v, payload))).0, v, t);
  }

  /** When an alarm is pending at the request, its wakeup ages the new entry too: 140 ticks, 0TIME or not. */
  lemma {:induction false} PendingAlarmShortensTimeout(m: Manager, v: nat, payload: string, t: nat)
    requires m.signal && v < |m.table| && t > 0
    ensures Timeout(v) in SentAt(Wake(m, Some(Request(v, payload))).0, t) <==> t == 140
  {
    var m1 := Receive(m, Request(v, payload)).0;
    assert m1.table[v] > 1;
    TimesOutExactly(Wake(m, Some(Request(v, payload))).0, v, t);
  }

  /** n rounds of a tick, served, followed by a request from w. */
  function Busy(m: Manager, w: nat, payload: string, n: nat): (r: (Manager, seq<Output>))
    requires w < |m.table|
    ensures |r.0.table| == |m.table|
  {
    if n == 0 then (m, [])
    else
      var (m1, o1) := Busy(m, w, payload, n - 1);
      var (m2, o2) := Serve(m1);
      var (m3, o3) := Wake(m2, Some(Request(w, payload)));
      (m3, o1 + o2 + o3)
  }

  /** The alarm is shared: requests from another VPS, one a tick, keep a session open for ever. */
  lemma {:induction false} BusyNeighbourPostponesTimeout(m: Manager, v: nat, w: nat, payload: string, n: nat)
    requires !m.signal && m.countdown > 1 && v != w && IsOpen(m, v) && w < |m.table|
    ensures var (m', outs) := Busy(m, w, payload, n);
            && m'.table == (if n == 0 then m.table else m.table[w := SESSION_TIMEOUT])
            && !m'.signal && m'.countdown > 1 && Timeout(v) !in outs
  {
    if n > 0 {
      BusyNeighbourPostponesTimeout(m, v, w, payload, n - 1);
      var m1 := Busy(m, w, payload, n - 1).0;
      ServeEffect(m1);
    }
  }
}
