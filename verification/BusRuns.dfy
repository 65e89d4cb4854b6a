/**
 Runs of the task bus: tasks post messages, the handler wakes for a message or for its retry alarm,
 and the alarm counts down.  A wakeup that finds the alarm signalled does not queue the message.
 */
module BusRuns {
  import opened Basics
  import opened MessageBus

  /**
   pending is the message in the handler's context while it is occupied.  posted, accepted,
   overflowed, lost and handed record what became of every message; inbox is what the tasks' contexts hold.
   */
  datatype Bus = Bus(slots: Slots, pending: Option<Context>, countdown: nat, signal: bool,
                     posted: seq<Context>, accepted: seq<Context>, overflowed: seq<Context>, lost: seq<Context>,
                     handed: seq<Handover>, inbox: map<nat, Context>)

  const RETRY_TICKS: nat := 2

  function Init(size: nat): Bus {
    Bus(seq(size, i => None), None, 0, false, [], [], [], [], [], map[])
  }

  datatype Step = Post(message: Context) | Wake(lock: nat -> bool) | Tick

  predicate Enabled(table: Table, b: Bus, step: Step) {
    match step
    case Post(m) => b.pending == None && Routable(table, m)
    case Wake(_) => b.pending.Some? || b.signal
    case Tick => true
  }

  /** The wakeup up to its delivery loop. */
  function Take(b: Bus): Bus {
    var b' := b.(pending := None, signal := false);
    if b.pending == None then b'
    else if b.signal then b'.(lost := b.lost + [b.pending.value])
    else if Full(b.slots) then b'.(overflowed := b.overflowed + [b.pending.value])
    else b'.(slots := Add(b.slots, b.pending.value), accepted := b.accepted + [b.pending.value])
  }

  /** The delivery loop. */
  ghost function Deliver(table: Table, t: Bus, lock: nat -> bool): Bus
    requires AllRoutable(table, t.slots)
  {
    t.(slots := Left(t.slots, lock), handed := t.handed + Handed(table, t.slots, lock, |t.slots|),
       inbox := Inboxes(t.inbox, Handed(table, t.slots, lock, |t.slots|)),
       countdown := if Refused(t.slots, lock, |t.slots|) then RETRY_TICKS else t.countdown)
  }

  /** The timer's tick for the handler's alarm. */
  function Ticked(b: Bus): Bus {
    if b.countdown == 0 then b
    else if b.countdown <= 1 then b.(countdown := 0, signal := true)
    else b.(countdown := b.countdown - 1)
  }

  ghost function Next(table: Table, b: Bus, step: Step): Bus
    requires AllRoutable(table, b.slots) && AllRoutable(table, [b.pending])
  {
    match step
    case Post(m) => b.(pending := Some(m), posted := b.posted + [m])
    case Wake(lock) =>
      TakeRoutable(table, b);
      Deliver(table, Take(b), lock)
    case Tick => Ticked(b)
  }

  lemma TakeRoutable(table: Table, b: Bus)
    requires AllRoutable(table, b.slots) && AllRoutable(table, [b.pending])
    ensures AllRoutable(table, Take(b).slots)
  {
    if b.pending.Some? {
      assert [b.pending][0].Some?;
      AddRoutable(table, b.slots, b.pending.value);
    }
  }

  /** The messages in the slots below n. */
  ghost function InSlots(slots: Slots, n: nat): multiset<Context>
    requires n <= |slots|
  {
    if n == 0 then multiset{}
    else if slots[n - 1].Some? then InSlots(slots, n - 1) + multiset{slots[n - 1].value}
    else InSlots(slots, n - 1)
  }

  ghost function Sources(hs: seq<Handover>): multiset<Context> {
    if hs == [] then multiset{} else Sources(hs[..|hs| - 1]) + multiset{hs[|hs| - 1].message}
  }

  ghost function Pending(b: Bus): multiset<Context> {
    if b.pending.Some? then multiset{b.pending.value} else multiset{}
  }

  /** Every posted message is pending, accepted, lost to an alarm wakeup, or dropped by a full queue. */
  ghost predicate PostsConserved(b: Bus) {
    multiset(b.posted) == Pending(b) + multiset(b.accepted) + multiset(b.lost) + multiset(b.overflowed)
  }

  /** Accepted messages are those handed over and those still in slots. */
  ghost predicate AcceptedConserved(b: Bus) {
    multiset(b.accepted) == Sources(b.handed) + InSlots(b.slots, |b.slots|)
  }

  ghost predicate RoutedRight(table: Table, b: Bus) {
    && AllRoutable(table, b.slots) && AllRoutable(table, [b.pending])
    && forall i | 0 <= i < |b.handed| ::
         Routable(table, b.handed[i].message) && b.handed[i].port == Route(table, b.handed[i].message)
  }

  /** A message waiting in a slot has its retry alarm counting down or signalled. */
  ghost predicate RetryArmed(b: Bus) {
    && b.countdown <= RETRY_TICKS
    && ((exists i | 0 <= i < |b.slots| :: b.slots[i].Some?) ==> b.countdown > 0 || b.signal)
  }

  /** Every task's context is what the last hand-over to it brought. */
  ghost predicate Arrived(b: Bus) {
    Reached(map[], b.inbox, b.handed)
  }

  ghost predicate Inv(table: Table, b: Bus) {
    PostsConserved(b) && AcceptedConserved(b) && RoutedRight(table, b) && RetryArmed(b) && Arrived(b)
  }

  lemma {:induction false} SourcesConcat(a: seq<Handover>, b: seq<Handover>)
    ensures Sources(a + b) == Sources(a) + Sources(b)
  {
    if b == [] {
      assert a + b == a;
    } else {
      assert (a + b)[..|a + b| - 1] == a + b[..|b| - 1];
      SourcesConcat(a, b[..|b| - 1]);
    }
  }

  /** A drain splits the slots' messages into the handed over and the left. */
  lemma {:induction false} DrainConserves(table: Table, s: Slots, lock: nat -> bool, n: nat)
    requires n <= |s| && AllRoutable(table, s)
    ensures InSlots(s, n) == Sources(Handed(table, s, lock, n)) + InSlots(Left(s, lock), n)
  {
    if n > 0 {
      DrainConserves(table, s, lock, n - 1);
      LeftStep(s, lock, n);
      hide Left, InSlots;
      if s[n - 1].Some? && lock(n - 1) {
        SourcesStep(Handed(table, s, lock, n - 1), Handover(s[n - 1].value, Route(table, s[n - 1].value)));
      }
    }
  }

  lemma {:induction false} SourcesStep(hs: seq<Handover>, h: Handover)
    ensures Sources(hs + [h]) == Sources(hs) + multiset{h.message}
  {
    assert (hs + [h])[..|hs|] == hs;
  }

  /** The last of the slots below n goes to the handed over or to the left. */
  lemma LeftStep(s: Slots, lock: nat -> bool, n: nat)
    requires 0 < n <= |s|
    ensures s[n - 1] == None ==>
              InSlots(s, n) == InSlots(s, n - 1) && InSlots(Left(s, lock), n) == InSlots(Left(s, lock), n - 1)
    ensures s[n - 1].Some? ==> InSlots(s, n) == InSlots(s, n - 1) + multiset{s[n - 1].value}
    ensures s[n - 1].Some? ==>
              InSlots(Left(s, lock), n)
              == InSlots(Left(s, lock), n - 1) + if lock(n - 1) then multiset{} else multiset{s[n - 1].value}
  {
  }

  lemma {:induction false} HandedRight(table: Table, s: Slots, lock: nat -> bool, n: nat)
    requires n <= |s| && AllRoutable(table, s)
    ensures forall i | 0 <= i < |Handed(table, s, lock, n)| ::
              var h := Handed(table, s, lock, n)[i]; Routable(table, h.message) && h.port == Route(table, h.message)
  {
    if n > 0 {
      HandedRight(table, s, lock, n - 1);
    }
  }

  /** A message added to a queue that is not full is one more message in it. */
  lemma {:induction false} AddInSlots(s: Slots, m: Context) returns (k: nat)
    requires !Full(s)
    ensures k < |s| && s[k] == None && Add(s, m) == s[k := Some(m)]
    ensures InSlots(Add(s, m), |s|) == InSlots(s, |s|) + multiset{m}
  {
    k := 0;
    while s[k].Some?
      invariant k < |s| && forall i | 0 <= i < k :: s[i].Some?
      decreases |s| - k
    {
      k := k + 1;
    }
    AddAt(s, m, k);
    InSlotsPut(s, k, m, |s|);
  }

  lemma {:induction false} InSlotsPut(s: Slots, k: nat, m: Context, n: nat)
    requires k < |s| && s[k] == None && n <= |s|
    ensures InSlots(s[k := Some(m)], n) == InSlots(s, n) + if k < n then multiset{m} else multiset{}
  {
    if n > 0 {
      InSlotsPut(s, k, m, n - 1);
    }
  }

  lemma TakePosts(b: Bus)
    requires PostsConserved(b)
    ensures PostsConserved(Take(b))
  {
  }

  lemma TakeAccepted(b: Bus)
    requires AcceptedConserved(b)
    ensures AcceptedConserved(Take(b))
  {
    if b.pending.Some? && !b.signal && !Full(b.slots) {
      hide Add, InSlots, Sources;
      var k := AddInSlots(b.slots, b.pending.value);
    }
  }

  lemma DeliverAccepted(table: Table, t: Bus, lock: nat -> bool)
    requires AllRoutable(table, t.slots) && AcceptedConserved(t)
    ensures AcceptedConserved(Deliver(table, t, lock))
  {
    hide Handed, InSlots, Sources;
    DrainConserves(table, t.slots, lock, |t.slots|);
    SourcesConcat(t.handed, Handed(table, t.slots, lock, |t.slots|));
  }

  lemma DeliverRouted(table: Table, t: Bus, lock: nat -> bool)
    requires RoutedRight(table, t)
    ensures RoutedRight(table, Deliver(table, t, lock))
  {
    hide Handed;
    HandedRight(table, t.slots, lock, |t.slots|);
  }

  lemma DeliverArmed(table: Table, t: Bus, lock: nat -> bool)
    requires AllRoutable(table, t.slots) && t.countdown <= RETRY_TICKS
    ensures RetryArmed(Deliver(table, t, lock))
  {
    hide Handed;
    var b' := Deliver(table, t, lock);
    if i :| 0 <= i < |b'.slots| && b'.slots[i].Some? {
      assert t.slots[i].Some? && !lock(i);
    }
  }

  lemma TakeRouted(table: Table, b: Bus)
    requires RoutedRight(table, b)
    ensures RoutedRight(table, Take(b))
  {
    hide Routable, Add;
    TakeRoutable(table, b);
  }

  lemma DeliverArrived(table: Table, t: Bus, lock: nat -> bool)
    requires AllRoutable(table, t.slots) && Arrived(t)
    ensures Arrived(Deliver(table, t, lock))
  {
    hide Handed, Inboxes, Reached;
    var hs := Handed(table, t.slots, lock, |t.slots|);
    InboxesReach(t.inbox, hs);
    ReachedThen(map[], t.inbox, Inboxes(t.inbox, hs), t.handed, hs);
  }

  lemma DeliverPosts(table: Table, t: Bus, lock: nat -> bool)
    requires AllRoutable(table, t.slots) && PostsConserved(t)
    ensures PostsConserved(Deliver(table, t, lock))
  {
  }

  /** The invariant between the two halves of a wakeup: the retry may not be armed yet. */
  ghost predicate Taken(table: Table, t: Bus) {
    PostsConserved(t) && AcceptedConserved(t) && RoutedRight(table, t) && t.countdown <= RETRY_TICKS && Arrived(t)
  }

  lemma TakeKeeps(table: Table, b: Bus)
    requires Inv(table, b)
    ensures Taken(table, Take(b))
  {
    hide Take, PostsConserved, AcceptedConserved, RoutedRight, Reached;
    TakePosts(b);
    TakeAccepted(b);
    TakeRouted(table, b);
    TakeSame(b);
  }

  lemma TakeSame(b: Bus)
    ensures Take(b).countdown == b.countdown && Take(b).inbox == b.inbox && Take(b).handed == b.handed
  {
  }

  lemma DeliverKeeps(table: Table, t: Bus, lock: nat -> bool)
    requires Taken(table, t)
    ensures AllRoutable(table, t.slots) && Inv(table, Deliver(table, t, lock))
  {
    assert AllRoutable(table, t.slots);
    hide Deliver, Handed, PostsConserved, AcceptedConserved, RoutedRight, RetryArmed, Arrived;
    DeliverRouted(table, t, lock);
    DeliverPosts(table, t, lock);
    DeliverAccepted(table, t, lock);
    DeliverArmed(table, t, lock);
    DeliverArrived(table, t, lock);
  }

  lemma WakeKeeps(table: Table, b: Bus, lock: nat -> bool)
    requires Inv(table, b) && (b.pending.Some? || b.signal)
    ensures AllRoutable(table, Take(b).slots) && Inv(table, Deliver(table, Take(b), lock))
  {
    hide Inv, Taken, Take, Deliver;
    TakeKeeps(table, b);
    DeliverKeeps(table, Take(b), lock);
  }

  lemma PostKeeps(table: Table, b: Bus, m: Context)
    requires Inv(table, b) && b.pending == None && Routable(table, m)
    ensures Inv(table, b.(pending := Some(m), posted := b.posted + [m]))
  {
    var b' := b.(pending := Some(m), posted := b.posted + [m]);
    SameAccepted(b, b');
    PostConserved(b, m);
    hide AcceptedConserved, PostsConserved;
  }

  lemma PostConserved(b: Bus, m: Context)
    requires PostsConserved(b) && b.pending == None
    ensures PostsConserved(b.(pending := Some(m), posted := b.posted + [m]))
  {
    assert multiset(b.posted + [m]) == multiset(b.posted) + multiset{m};
  }

  lemma TickKeeps(table: Table, b: Bus, countdown: nat, signal: bool)
    requires Inv(table, b) && countdown <= b.countdown && (b.countdown > 0 || b.signal ==> countdown > 0 || signal)
    ensures Inv(table, b.(countdown := countdown, signal := signal))
  {
    SameAccepted(b, b.(countdown := countdown, signal := signal));
    hide AcceptedConserved;
  }

  lemma StepKeeps(table: Table, b: Bus, step: Step)
    requires Inv(table, b) && Enabled(table, b, step)
    ensures Inv(table, Next(table, b, step))
  {
    assert RoutedRight(table, b);
    hide Inv, Take, Deliver, Routable, Ticked;
    match step
    case Post(m) => PostKeeps(table, b, m);
    case Wake(lock) => WakeKeeps(table, b, lock);
    case Tick => TickedKeeps(table, b);
  }

  lemma TickedKeeps(table: Table, b: Bus)
    requires Inv(table, b)
    ensures Inv(table, Ticked(b))
  {
    hide Inv;
    TickKeeps(table, b, Ticked(b).countdown, Ticked(b).signal);
  }

  lemma SameAccepted(b: Bus, b': Bus)
    requires AcceptedConserved(b) && b'.accepted == b.accepted && b'.handed == b.handed && b'.slots == b.slots
    ensures AcceptedConserved(b')
  {
  }

  ghost predicate IsRun(table: Table, bs: seq<Bus>, steps: seq<Step>) {
    && |bs| == |steps| + 1 && (exists size :: bs[0] == Init(size))
    && forall k | 0 <= k < |steps| ::
         && AllRoutable(table, bs[k].slots) && AllRoutable(table, [bs[k].pending])
         && Enabled(table, bs[k], steps[k]) && bs[k + 1] == Next(table, bs[k], steps[k])
  }

  ghost predicate Reachable(table: Table, b: Bus) {
    exists bs, steps :: IsRun(table, bs, steps) && bs[|bs| - 1] == b
  }

  lemma {:induction false} InSlotsFree(s: Slots, n: nat)
    requires n <= |s| && forall i | 0 <= i < n :: s[i] == None
    ensures InSlots(s, n) == multiset{}
  {
    if n > 0 {
      InSlotsFree(s, n - 1);
    }
  }

  lemma InitInv(table: Table, size: nat)
    ensures Inv(table, Init(size))
  {
    InSlotsFree(Init(size).slots, size);
  }

  lemma {:induction false} RunKeeps(table: Table, bs: seq<Bus>, steps: seq<Step>, k: nat)
    requires IsRun(table, bs, steps) && k < |bs|
    ensures Inv(table, bs[k])
  {
    hide Inv, Next, Enabled, Init;
    if k == 0 {
      var size :| bs[0] == Init(size);
      InitInv(table, size);
    } else {
      RunKeeps(table, bs, steps, k - 1);
      StepKeeps(table, bs[k - 1], steps[k - 1]);
    }
  }

  /**
   In every run: accepted messages are those handed over plus those in slots, each hand-over went to
   the table entry of the message's own sender and output, and a waiting message has its retry armed
   at most two ticks ahead.
   */
  lemma DeliveredExactlyOnce(table: Table, b: Bus)
    requires Reachable(table, b)
    ensures multiset(b.accepted) == Sources(b.handed) + InSlots(b.slots, |b.slots|)
    ensures multiset(b.posted) == Pending(b) + multiset(b.accepted) + multiset(b.lost) + multiset(b.overflowed)
    ensures forall i | 0 <= i < |b.handed| ::
              Routable(table, b.handed[i].message) && b.handed[i].port == Route(table, b.handed[i].message)
    ensures (exists i | 0 <= i < |b.slots| :: b.slots[i].Some?) ==> 0 < b.countdown <= RETRY_TICKS || b.signal
  {
    var bs, steps :| IsRun(table, bs, steps) && bs[|bs| - 1] == b;
    RunKeeps(table, bs, steps, |bs| - 1);
  }

  /** In every run: a task's context holds the port and the data of the last message handed to it. */
  lemma DataArrives(table: Table, b: Bus)
    requires Reachable(table, b)
    ensures Reached(map[], b.inbox, b.handed)
  {
    var bs, steps :| IsRun(table, bs, steps) && bs[|bs| - 1] == b;
    RunKeeps(table, bs, steps, |bs| - 1);
  }

  lemma {:induction false} SourcesCount(hs: seq<Handover>, i: nat, j: nat)
    requires i < j < |hs| && hs[i].message == hs[j].message
    ensures Sources(hs)[hs[i].message] >= 2
  {
    var m := hs[i].message;
    if j < |hs| - 1 {
      SourcesCount(hs[..|hs| - 1], i, j);
    } else {
      SourcesHas(hs[..j], i);
    }
  }

  lemma {:induction false} SourcesHas(hs: seq<Handover>, i: nat)
    requires i < |hs|
    ensures Sources(hs)[hs[i].message] >= 1
  {
    if i < |hs| - 1 {
      SourcesHas(hs[..|hs| - 1], i);
    }
  }

  lemma {:induction false} NoRepeatCount<E>(s: seq<E>, x: E)
    requires forall i, j | 0 <= i < j < |s| :: s[i] != s[j]
    ensures multiset(s)[x] <= 1
  {
    if s != [] {
      NoRepeatCount(s[1..], x);
      assert s == [s[0]] + s[1..];
      assert s[0] !in s[1..];
    }
  }

  /** So when no message is posted twice, none is handed over twice, however often it was retried. */
  lemma NeverHandedTwice(table: Table, b: Bus, i: nat, j: nat)
    requires Reachable(table, b)
    requires forall k, l | 0 <= k < l < |b.posted| :: b.posted[k] != b.posted[l]
    requires i < j < |b.handed|
    ensures b.handed[i].message != b.handed[j].message
  {
    DeliveredExactlyOnce(table, b);
    var m := b.handed[i].message;
    NoRepeatCount(b.posted, m);
    if m == b.handed[j].message {
      SourcesCount(b.handed, i, j);
    }
  }

  /**
   A wakeup accepts the pending message exactly when the alarm is not signalled and a slot is free, drops it
   to the alarm exactly when that is signalled, and otherwise reports an overflow.
   */
  lemma AcceptedIff(b: Bus)
    requires b.pending.Some?
    ensures Take(b).accepted == b.accepted + [b.pending.value] <==> !b.signal && !Full(b.slots)
    ensures Take(b).lost == b.lost + [b.pending.value] <==> b.signal
    ensures Take(b).overflowed == b.overflowed + [b.pending.value] <==> !b.signal && Full(b.slots)
  {
    assert |b.accepted + [b.pending.value]| != |b.accepted| && |b.lost + [b.pending.value]| != |b.lost|;
    assert |b.overflowed + [b.pending.value]| != |b.overflowed|;
  }

  /**
   A wakeup leaves the alarm unsignalled and the context free; when a message stays in a slot the retry is
   signalled by exactly the second tick after it.
   */
  lemma RetryIsTwoTicks(table: Table, b: Bus, lock: nat -> bool)
    requires AllRoutable(table, b.slots) && AllRoutable(table, [b.pending])
    ensures var b1 := Next(table, b, Wake(lock));
            && !b1.signal && b1.pending == None
            && ((exists i | 0 <= i < |b1.slots| :: b1.slots[i].Some?) ==>
                  !Ticked(b1).signal && Ticked(Ticked(b1)).signal)
  {
    TakeRoutable(table, b);
    var t := Take(b);
    assert !t.signal && t.pending == None;
    hide Take, Handed, Inboxes;
    LeftRefused(t.slots, lock);
  }

  /** A message that stays in its slot was refused. */
  lemma LeftRefused(s: Slots, lock: nat -> bool)
    ensures (exists i | 0 <= i < |s| :: Left(s, lock)[i].Some?) ==> Refused(s, lock, |s|)
  {
    if i :| 0 <= i < |s| && Left(s, lock)[i].Some? {
      assert s[i].Some? && !lock(i);
    }
  }

  lemma Extend(table: Table, b: Bus, step: Step)
    requires Reachable(table, b) && AllRoutable(table, b.slots) && AllRoutable(table, [b.pending])
    requires Enabled(table, b, step)
    ensures Reachable(table, Next(table, b, step))
  {
    var bs, steps :| IsRun(table, bs, steps) && bs[|bs| - 1] == b;
    var b' := Next(table, b, step);
    hide Next;
    assert IsRun(table, bs + [b'], steps + [step]);
  }

  /** A message posted while the retry alarm is signalled is dropped unqueued, with every slot free after it. */
  lemma AlarmDropsMessage(table: Table, m: Context)
    requires Routable(table, m)
    ensures exists b ::
              Reachable(table, b) && b.lost == [m] && b.overflowed == [] && |b.slots| == 1 && b.slots[0] == None
  {
    var b0 := Init(1);
    assert IsRun(table, [b0], []);
    assert b0.slots == [None];
    Extend(table, b0, Post(m));
    var b1 := Next(table, b0, Post(m));
    var busy := (i: nat) => false;
    var free := (i: nat) => true;
    Extend(table, b1, Wake(busy));
    var b2 := Next(table, b1, Wake(busy));
    assert Add([None], m) == [Some(m)] && Take(b1).slots == [Some(m)];
    assert b2.slots == [Some(m)] && b2.countdown == RETRY_TICKS by {
      assert Take(b1).slots[0].Some? && !busy(0);
    }
    Extend(table, b2, Tick);
    var b3 := Next(table, b2, Tick);
    Extend(table, b3, Tick);
    var b4 := Next(table, b3, Tick);
    Extend(table, b4, Post(m));
    var b5 := Next(table, b4, Post(m));
    assert b5.signal && b5.slots == [Some(m)];
    Extend(table, b5, Wake(free));
    var b6 := Next(table, b5, Wake(free));
    assert Reachable(table, b6);
  }
}
