/**
 sessionmanager.c and timemanager.c: a table of sessions, one entry per VPS, that is aged by one
 shared countdown alarm.  The functions say what one wakeup and one timer tick do; the classes
 update the arrays in place; the runs and the timing of timeouts follow.
 */
module Sessions {
  import opened Basics

  const SESSION_TIMEOUT: nat := 15
  const AGE_TICKS: nat := 10
  const LONG_TICKS: nat := 3000
  const KEYWORD: seq<char> := "0TIME"

  /** A message at the session manager: on In1 from a task, on In2 towards one. */
  datatype Input = Request(vps: nat, payload: string) | Reply(vps: nat, payload: string)

  /** What the session manager sends: Out1, output vps+2 with a reply or a TIMEOUT, or UDP. */
  datatype Output =
    | Forward(vps: nat, payload: string)
    | Answer(vps: nat, payload: string)
    | Timeout(vps: nat)
    | Udp(vps: nat, payload: string)

  /** The session table, and this task's entries of AlarmCountdown and AlarmSignal. */
  datatype Manager = Manager(table: seq<nat>, countdown: nat, signal: bool)

  predicate IsLong(payload: string) {
    KEYWORD <= payload
  }

  /** The sanity check tests VPS > MAX_VPS, so VPS == MAX_VPS is out of the table and not caught. */
  predicate InRange(m: Manager, input: Input) {
    input.vps != |m.table|
  }

  /** The receive branch of a wakeup. */
  function Receive(m: Manager, input: Input): (Manager, seq<Output>)
    requires InRange(m, input)
  {
    if input.vps > |m.table| then (m, [])
    else
      match input
      case Request(v, p) =>
        if IsLong(p)
        then (m.(table := m.table[v := SESSION_TIMEOUT], countdown := LONG_TICKS), [Forward(v, p[|KEYWORD|..])])
        else (m.(table := m.table[v := SESSION_TIMEOUT], countdown := AGE_TICKS), [Forward(v, p)])
      case Reply(v, p) =>
        if m.table[v] != 0 then (m.(table := m.table[v := 0]), [Answer(v, p)]) else (m, [Udp(v, p)])
  }

  /** The table after the alarm loop. */
  function Aged(table: seq<nat>): seq<nat> {
    seq(|table|, i requires 0 <= i < |table| => if table[i] == 0 then 0 else table[i] - 1)
  }

  /** The timeouts the alarm loop sends for the entries below n. */
  function Expired(table: seq<nat>, n: nat): seq<Output>
    requires n <= |table|
  {
    if n == 0 then [] else Expired(table, n - 1) + if table[n - 1] == 1 then [Timeout(n - 1)] else []
  }

  predicate SomeAbove(table: seq<nat>, n: nat, k: nat)
    requires n <= |table|
  {
    exists i | 0 <= i < n :: table[i] > k
  }

  /** The alarm branch of a wakeup: skipped unless the signal is set, which it clears. */
  function Age(m: Manager): (Manager, seq<Output>) {
    if !m.signal then (m, [])
    else
      (Manager(Aged(m.table), if SomeAbove(m.table, |m.table|, 1) then AGE_TICKS else m.countdown, false),
       Expired(m.table, |m.table|))
  }

  /** One wakeup: the message if there is one, then the alarm. */
  function Wake(m: Manager, input: Option<Input>): (Manager, seq<Output>)
    requires input.Some? ==> InRange(m, input.value)
  {
    var (m1, o1) := if input.Some? then Receive(m, input.value) else (m, []);
    var (m2, o2) := Age(m1);
    (m2, o1 + o2)
  }

  /** One pass of the timer loop over an alarm: new countdown, new signal. */
  function TickAlarm(countdown: nat, signal: bool): (nat, bool) {
    if countdown == 0 then (0, signal)
    else if countdown <= 1 then (0, true)
    else (countdown - 1, signal)
  }

  function Tick(m: Manager): Manager {
    var (c, s) := TickAlarm(m.countdown, m.signal);
    m.(countdown := c, signal := s)
  }

  // ---------------------------------------------------------------- the arrays, updated in place

  class TimeManager {
    var countdown: array<nat>
    var signal: array<bool>

    ghost predicate Valid()
      reads this
    {
      countdown.Length == signal.Length
    }

    constructor (tasks: nat)
      ensures Valid() && countdown.Length == tasks && fresh(countdown) && fresh(signal)
      ensures forall t | 0 <= t < tasks :: countdown[t] == 0 && !signal[t]
    {
      countdown := new nat[tasks](i => 0);
      signal := new bool[tasks](i => false);
    }

    /** One pass of the timer loop: every task's alarm ticks once. */
    method Pass()
      requires Valid()
      modifies countdown, signal
      ensures forall t | 0 <= t < countdown.Length ::
                (countdown[t], signal[t]) == TickAlarm(old(countdown[t]), old(signal[t]))
    {
      for i := 0 to countdown.Length
        invariant forall t | 0 <= t < i :: (countdown[t], signal[t]) == TickAlarm(old(countdown[t]), old(signal[t]))
        invariant forall t | i <= t < countdown.Length ::
                    countdown[t] == old(countdown[t]) && signal[t] == old(signal[t])
      {
        if countdown[i] != 0 {
          if countdown[i] <= 1 {
            signal[i] := true;
            countdown[i] := 0;
          } else {
            countdown[i] := countdown[i] - 1;
          }
        }
      }
    }

    method AlarmSet(task: nat, time: nat)
      requires Valid() && task < countdown.Length
      modifies countdown
      ensures countdown[..] == old(countdown[..])[task := time]
    {
      countdown[task] := time;
    }

    method AlarmTestAndReset(task: nat) returns (was: bool)
      requires Valid() && task < signal.Length
      modifies signal
      ensures was == old(signal[task]) && signal[..] == old(signal[..])[task := false]
    {
      was := signal[task];
      if was {
        signal[task] := false;
      }
    }
  }

  class SessionManager {
    var table: array<nat>
    const time: TimeManager
    const task: nat
    var sent: seq<Output>

    ghost predicate Valid()
      reads this, time
    {
      time.Valid() && task < time.signal.Length && table != time.countdown
    }

    ghost function Value(): Manager
      requires Valid()
      reads this, time, table, time.countdown, time.signal
    {
      Manager(table[..], time.countdown[task], time.signal[task])
    }

    constructor (vps: nat, time: TimeManager, task: nat)
      requires time.Valid() && task < time.signal.Length
      ensures Valid() && this.time == time && this.task == task && fresh(table) && sent == []
      ensures table[..] == seq(vps, i => 0)
    {
      table := new nat[vps](i => 0);
      this.time, this.task, sent := time, task, [];
    }

    method OnMessage(input: Input)
      requires Valid() && InRange(Value(), input)
      modifies this`sent, table, time.countdown
      ensures Value() == Receive(old(Value()), input).0 && sent == old(sent) + Receive(old(Value()), input).1
    {
      var v := input.vps;
      if v > table.Length {
        return;
      }
      match input
      case Request(_, p) =>
        table[v] := SESSION_TIMEOUT;
        if !(KEYWORD <= p) {
          time.AlarmSet(task, AGE_TICKS);
          sent := sent + [Forward(v, p)];
        } else {
          time.AlarmSet(task, LONG_TICKS);
          sent := sent + [Forward(v, p[|KEYWORD|..])];
        }
      case Reply(_, p) =>
        if table[v] != 0 {
          table[v] := 0;
          sent := sent + [Answer(v, p)];
        } else {
          sent := sent + [Udp(v, p)];
        }
    }

    method OnAlarm()
      requires Valid()
      modifies this`sent, table, time.countdown, time.signal
      ensures Value() == Age(old(Value())).0 && sent == old(sent) + Age(old(Value())).1
    {
      var alarm := time.AlarmTestAndReset(task);
      if alarm {
        ghost var t := table[..];
        for i := 0 to table.Length
          invariant Valid() && time.signal[task] == false
          invariant forall j | 0 <= j < i :: table[j] == Aged(t)[j]
          invariant forall j | i <= j < table.Length :: table[j] == t[j]
          invariant sent == old(sent) + Expired(t, i)
          invariant time.countdown[task] == if SomeAbove(t, i, 1) then AGE_TICKS else old(time.countdown[task])
        {
          if table[i] != 0 {
            if table[i] <= 1 {
              sent := sent + [Timeout(i)];
              table[i] := 0;
            } else {
              table[i] := table[i] - 1;
              time.AlarmSet(task, AGE_TICKS);
            }
          }
        }
      }
    }

    method Wakeup(input: Option<Input>)
      requires Valid() && (input.Some? ==> InRange(Value(), input.value))
      modifies this`sent, table, time.countdown, time.signal
      ensures Value() == Wake(old(Value()), input).0 && sent == old(sent) + Wake(old(Value()), input).1
    {
      if input.Some? {
        OnMessage(input.value);
      }
      OnAlarm();
    }
  }
}
