/**
 The task bus of msghandler.c: a table of slots that the handler drains without ever blocking, a
 routing table, and a retry alarm.  The functions say what adding and draining do to the slots;
 MsgHandler does it in place with the cursor currentmsg; the runs are at the end.
 */
module MessageBus {
  import opened Basics

  /** A receiving task and its input port: one entry of msg_table. */
  datatype Port = Port(task: nat, input: nat)

  /** The part of struct Context that travels: sender[TaskID], sender[InputID], sender[OutputID] and holder. */
  datatype Context = Context(task: nat, input: nat, output: nat, holder: nat)

  const UNUSED: nat := 0

  type Slots = seq<Option<Context>>

  type Table = seq<seq<Port>>

  /** A message names a task of the table and one of its outputs, which count from 1. */
  predicate Routable(table: Table, m: Context) {
    m.task < |table| && 1 <= m.output <= |table[m.task]|
  }

  function Route(table: Table, m: Context): Port
    requires Routable(table, m)
  {
    table[m.task][m.output - 1]
  }

  /** One delivery: the message as its sender posted it, and the port it was handed to. */
  datatype Handover = Handover(message: Context, port: Port)

  ghost predicate AllRoutable(table: Table, slots: Slots) {
    forall i | 0 <= i < |slots| && slots[i].Some? :: Routable(table, slots[i].value)
  }

  predicate Full(slots: Slots) {
    forall i | 0 <= i < |slots| :: slots[i].Some?
  }

  /** queue_add: the first free slot takes the message; a full queue drops it. */
  function Add(slots: Slots, m: Context): Slots {
    if slots == [] then []
    else if slots[0] == None then [Some(m)] + slots[1..]
    else [slots[0]] + Add(slots[1..], m)
  }

  /** What a drain leaves when lock(i) says whether the trylock for slot i succeeds. */
  function Left(slots: Slots, lock: nat -> bool): Slots {
    seq(|slots|, i requires 0 <= i < |slots| => if lock(i) then None else slots[i])
  }

  /** The slots c of a drain of s that has dealt with the slots below n. */
  ghost predicate Partly(c: Slots, s: Slots, lock: nat -> bool, n: nat) {
    |c| == |s| && forall i | 0 <= i < |s| :: c[i] == if i < n && lock(i) then None else s[i]
  }

  /** The deliveries a drain of the slots below n makes, in order. */
  ghost function Handed(table: Table, slots: Slots, lock: nat -> bool, n: nat): seq<Handover>
    requires n <= |slots| && AllRoutable(table, slots)
  {
    if n == 0 then []
    else
      var before := Handed(table, slots, lock, n - 1);
      if slots[n - 1].Some? && lock(n - 1)
      then before + [Handover(slots[n - 1].value, Route(table, slots[n - 1].value))]
      else before
  }

  /** The occupied slots below n, in order. */
  ghost function Occupied(slots: Slots, n: nat): seq<nat>
    requires n <= |slots|
  {
    if n == 0 then [] else if slots[n - 1].Some? then Occupied(slots, n - 1) + [n - 1] else Occupied(slots, n - 1)
  }

  /** Some occupied slot's receiver was locked, so the retry alarm was requested. */
  ghost predicate Refused(slots: Slots, lock: nat -> bool, n: nat)
    requires n <= |slots|
  {
    exists i | 0 <= i < n :: slots[i].Some? && !lock(i)
  }

  /** The context a receiving task finds after a delivery. */
  function Received(h: Handover): Context {
    Context(h.port.task, h.port.input, UNUSED, h.message.holder)
  }

  /** Every task's context after the deliveries hs, the last one to a task winning. */
  function Inboxes(inbox: map<nat, Context>, hs: seq<Handover>): map<nat, Context> {
    if hs == [] then inbox
    else Inboxes(inbox, hs[..|hs| - 1])[hs[|hs| - 1].port.task := Received(hs[|hs| - 1])]
  }

  /**
   What reaches the tasks by the deliveries hs: a task holds the port and the data of the last message handed
   to it, as its sender posted it, and a task that was handed nothing holds what it held.
   */
  ghost predicate Reached(before: map<nat, Context>, after: map<nat, Context>, hs: seq<Handover>) {
    && (forall i | 0 <= i < |hs| && LastTo(hs, i) ::
          var p := hs[i].port;
          p.task in after && after[p.task] == Context(p.task, p.input, UNUSED, hs[i].message.holder))
    && forall t | Untouched(hs, t) :: (t in after <==> t in before) && (t in before ==> after[t] == before[t])
  }

  /** No delivery after the i-th goes to the same task. */
  ghost predicate LastTo(hs: seq<Handover>, i: nat)
    requires i < |hs|
  {
    forall j | i < j < |hs| :: hs[j].port.task != hs[i].port.task
  }

  ghost predicate Untouched(hs: seq<Handover>, t: nat) {
    forall j | 0 <= j < |hs| :: hs[j].port.task != t
  }

  lemma {:induction false} LastReaches(inbox: map<nat, Context>, hs: seq<Handover>, i: nat)
    requires i < |hs| && LastTo(hs, i)
    ensures var p := hs[i].port;
            p.task in Inboxes(inbox, hs)
            && Inboxes(inbox, hs)[p.task] == Context(p.task, p.input, UNUSED, hs[i].message.holder)
  {
    if i < |hs| - 1 {
      var before := hs[..|hs| - 1];
      assert hs[|hs| - 1].port.task != hs[i].port.task;
      assert LastTo(before, i) by {
        assert forall j | i < j < |before| :: before[j] == hs[j];
      }
      LastReaches(inbox, before, i);
    }
  }

  lemma {:induction false} OthersHold(inbox: map<nat, Context>, hs: seq<Handover>, t: nat)
    requires Untouched(hs, t)
    ensures t in Inboxes(inbox, hs) <==> t in inbox
    ensures t in inbox ==> Inboxes(inbox, hs)[t] == inbox[t]
  {
    if hs != [] {
      var before := hs[..|hs| - 1];
      assert hs[|hs| - 1].port.task != t;
      assert Untouched(before, t) by {
        assert forall j | 0 <= j < |before| :: before[j] == hs[j];
      }
      OthersHold(inbox, before, t);
    }
  }

  lemma {:induction false} InboxesReach(inbox: map<nat, Context>, hs: seq<Handover>)
    ensures Reached(inbox, Inboxes(inbox, hs), hs)
  {
    hide Inboxes, LastTo, Untouched;
    forall i | 0 <= i < |hs| && LastTo(hs, i)
      ensures hs[i].port.task in Inboxes(inbox, hs)
              && Inboxes(inbox, hs)[hs[i].port.task]
                 == Context(hs[i].port.task, hs[i].port.input, UNUSED, hs[i].message.holder)
    {
      LastReaches(inbox, hs, i);
    }
    forall t | Untouched(hs, t)
      ensures (t in Inboxes(inbox, hs) <==> t in inbox) && (t in inbox ==> Inboxes(inbox, hs)[t] == inbox[t])
    {
      OthersHold(inbox, hs, t);
    }
  }

  /** Deliveries one after the other. */
  lemma ReachedThen(a: map<nat, Context>, b: map<nat, Context>, c: map<nat, Context>,
                    hs: seq<Handover>, us: seq<Handover>)
    requires Reached(a, b, hs) && Reached(b, c, us)
    ensures Reached(a, c, hs + us)
  {
    var all := hs + us;
    forall i | 0 <= i < |all| && LastTo(all, i)
      ensures all[i].port.task in c
              && c[all[i].port.task] == Context(all[i].port.task, all[i].port.input, UNUSED, all[i].message.holder)
    {
      if i < |hs| {
        forall j | 0 <= j < |us| ensures us[j].port.task != hs[i].port.task {
          assert all[|hs| + j] == us[j];
        }
        forall j | i < j < |hs| ensures hs[j].port.task != hs[i].port.task {
          assert all[j] == hs[j];
        }
        assert LastTo(hs, i) && Untouched(us, hs[i].port.task);
      } else {
        forall j | i - |hs| < j < |us| ensures us[j].port.task != us[i - |hs|].port.task {
          assert all[|hs| + j] == us[j];
        }
        assert LastTo(us, i - |hs|);
      }
    }
    forall t | Untouched(all, t) ensures (t in c <==> t in a) && (t in a ==> c[t] == a[t]) {
      assert forall j | 0 <= j < |hs| :: all[j] == hs[j];
      assert forall j | 0 <= j < |us| :: all[|hs| + j] == us[j];
      assert Untouched(hs, t) && Untouched(us, t);
    }
  }

  /** The occupied slots below n are visited in order, each once. */
  lemma {:induction false} OccupiedIff(slots: Slots, n: nat)
    requires n <= |slots|
    ensures forall i | 0 <= i < |slots| :: i in Occupied(slots, n) <==> i < n && slots[i].Some?
    ensures forall i | i in Occupied(slots, n) :: i < n
    ensures forall j, k | 0 <= j < k < |Occupied(slots, n)| :: Occupied(slots, n)[j] < Occupied(slots, n)[k]
  {
    if n > 0 {
      OccupiedIff(slots, n - 1);
      var o := Occupied(slots, n - 1);
      assert forall k | 0 <= k < |o| :: o[k] in o;
    }
  }

  /** The slots whose message a drain can hand over. */
  function Unlocked(slots: Slots, lock: nat -> bool): Slots {
    seq(|slots|, i requires 0 <= i < |slots| => if lock(i) then slots[i] else None)
  }

  /** A drain hands over the messages of the unlocked occupied slots, in slot order. */
  lemma {:induction false} HandedInOrder(table: Table, slots: Slots, lock: nat -> bool, n: nat)
    requires n <= |slots| && AllRoutable(table, slots)
    ensures var o := Occupied(Unlocked(slots, lock), n);
            && |Handed(table, slots, lock, n)| == |o|
            && forall k | 0 <= k < |o| :: o[k] < n && slots[o[k]] == Some(Handed(table, slots, lock, n)[k].message)
  {
    if n > 0 {
      HandedInOrder(table, slots, lock, n - 1);
    }
  }

  /** Free slots between a and b change nothing of what a drain does. */
  lemma {:induction false} Skip(table: Table, slots: Slots, lock: nat -> bool, a: nat, b: nat)
    requires a <= b <= |slots| && AllRoutable(table, slots)
    requires forall i | a <= i < b :: slots[i] == None
    ensures Handed(table, slots, lock, b) == Handed(table, slots, lock, a)
    ensures Occupied(slots, b) == Occupied(slots, a)
    ensures Refused(slots, lock, b) == Refused(slots, lock, a)
  {
    if a < b {
      Skip(table, slots, lock, a, b - 1);
    }
  }

  /** The handler's fields when a drain starts. */
  datatype Before = Before(slots: Slots, handed: seq<Handover>, inbox: map<nat, Context>,
                           retry: bool, visited: seq<nat>)

  /** A drain that started from b has dealt with the slots below n and come to s. */
  ghost predicate DrainedTo(table: Table, b: Before, s: Before, lock: nat -> bool, n: nat) {
    && n <= |b.slots| && AllRoutable(table, b.slots) && Partly(s.slots, b.slots, lock, n)
    && s.handed == b.handed + Handed(table, b.slots, lock, n)
    && s.inbox == Inboxes(b.inbox, Handed(table, b.slots, lock, n))
    && s.retry == (b.retry || Refused(b.slots, lock, n))
    && s.visited == b.visited + Occupied(b.slots, n)
  }

  class MsgHandler {
    var queue: array<bool>
    var slot: array<Context>
    var currentmsg: int
    var context: Context
    var table: Table
    var inbox: map<nat, Context>
    var retry: bool
    ghost var handed: seq<Handover>
    ghost var visited: seq<nat>

    ghost predicate Valid()
      reads this
    {
      queue.Length == slot.Length
    }

    ghost function Contents(): Slots
      requires Valid()
      reads this, queue, slot
    {
      seq(slot.Length, i requires 0 <= i < slot.Length == queue.Length reads this, queue, slot =>
        if queue[i] then Some(slot[i]) else None)
    }

    /** The handler before its first message: every slot free. */
    constructor (size: nat, table: Table)
      ensures Valid() && fresh(queue) && fresh(slot)
      ensures Contents() == seq(size, i => None) && currentmsg == -1
      ensures this.table == table && inbox == map[] && handed == [] && visited == [] && !retry
    {
      queue := new bool[size](i => false);
      slot := new Context[size](i => Context(0, 0, 0, 0));
      currentmsg, context, this.table, inbox, retry := -1, Context(0, 0, 0, 0), table, map[], false;
      handed, visited := [], [];
    }

    /** insert_msg_table_entry */
    method InsertEntry(sender: nat, output: nat, port: Port)
      requires Valid() && sender < |table| && 1 <= output <= |table[sender]|
      modifies this`table
      ensures table == old(table)[sender := old(table)[sender][output - 1 := port]]
      ensures forall m | Routable(table, m) ::
                Route(table, m) == if m.task == sender && m.output == output then port else Route(old(table), m)
    {
      table := table[sender := table[sender][output - 1 := port]];
    }

    /** queue_add */
    method QueueAdd() returns (overflow: bool)
      requires Valid()
      modifies queue, slot
      ensures overflow == Full(old(Contents()))
      ensures Contents() == Add(old(Contents()), context)
    {
      ghost var s := Contents();
      var counter := 0;
      while counter < queue.Length
        invariant counter <= queue.Length && Contents() == s
        invariant forall i | 0 <= i < counter :: queue[i]
      {
        if !queue[counter] {
          slot[counter] := context;
          queue[counter] := true;
          AddAt(s, context, counter);
          assert Contents() == s[counter := Some(context)];
          assert s[counter] == None;
          return false;
        }
        counter := counter + 1;
      }
      AddFull(s, context);
      return true;
    }

    /** queue_nextmsg: moves currentmsg to the next occupied slot and copies it to the context. */
    method QueueNext() returns (found: bool)
      requires Valid() && -1 <= currentmsg < slot.Length
      modifies this`currentmsg, this`context
      ensures found ==> old(currentmsg) < currentmsg < slot.Length && queue[currentmsg] && context == slot[currentmsg]
      ensures found ==> forall i | old(currentmsg) < i < currentmsg :: !queue[i]
      ensures !found ==> currentmsg == -1 && forall i | old(currentmsg) < i < slot.Length :: !queue[i]
    {
      currentmsg := currentmsg + 1;
      while currentmsg < slot.Length
        invariant old(currentmsg) < currentmsg <= slot.Length
        invariant forall i | old(currentmsg) < i < currentmsg :: !queue[i]
      {
        if !queue[currentmsg] {
          currentmsg := currentmsg + 1;
        } else {
          context := slot[currentmsg];
          return true;
        }
      }
      currentmsg := -1;
      return false;
    }

    /** The body of the delivery loop for the message in the context. */
    method TryDeliver(lock: nat -> bool)
      requires Valid() && 0 <= currentmsg < slot.Length && queue[currentmsg] && context == slot[currentmsg]
      requires Routable(table, context)
      modifies queue, this`context, this`inbox, this`retry, this`handed
      ensures Contents() == if lock(currentmsg) then old(Contents())[currentmsg := None] else old(Contents())
      ensures var h := Handover(slot[currentmsg], Route(table, slot[currentmsg]));
              && handed == (if lock(currentmsg) then old(handed) + [h] else old(handed))
              && inbox == if lock(currentmsg)
                          then old(inbox)[h.port.task := Context(h.port.task, h.port.input, UNUSED, h.message.holder)]
                          else old(inbox)
      ensures retry == (old(retry) || !lock(currentmsg))
    {
      var port := Route(table, context);
      context := Context(port.task, port.input, UNUSED, context.holder);
      if lock(currentmsg) {
        inbox := inbox[port.task := context];
        queue[currentmsg] := false;
        handed := handed + [Handover(slot[currentmsg], port)];
      } else {
        retry := true;
      }
    }

    /** A drain that started from b has dealt with the slots below n. */
    ghost predicate Drained(b: Before, lock: nat -> bool, n: nat)
      reads this, queue, slot
    {
      && Valid() && |b.slots| == slot.Length
      && DrainedTo(table, b, Before(Contents(), handed, inbox, retry, visited), lock, n)
    }

    /** The delivery loop's body for the occupied slot currentmsg. */
    method Visit(ghost b: Before, lock: nat -> bool)
      requires 0 <= currentmsg && Drained(b, lock, currentmsg) && currentmsg < slot.Length
      requires queue[currentmsg] && context == slot[currentmsg]
      modifies queue, this`context, this`inbox, this`retry, this`handed, this`visited
      ensures Drained(b, lock, currentmsg + 1)
    {
      hide DrainedTo;
      ghost var n, s := currentmsg, Before(Contents(), handed, inbox, retry, visited);
      SlotRoutable(table, b, s, lock, n);
      visited := visited + [currentmsg];
      TryDeliver(lock);
      DrainStep(table, b, s, Before(Contents(), handed, inbox, retry, visited), lock, n);
    }

    /** The cursor is at the next occupied slot from n on, or there is none and the drain is done. */
    ghost predicate Found(b: Before, lock: nat -> bool, n: nat, found: bool)
      reads this, queue, slot
    {
      if found then
        && n <= currentmsg < slot.Length && Drained(b, lock, currentmsg)
        && queue[currentmsg] && context == slot[currentmsg]
      else currentmsg == -1 && Drained(b, lock, slot.Length)
    }

    /** queue_nextmsg during a drain that has dealt with the slots below n. */
    method NextFrom(ghost b: Before, lock: nat -> bool, ghost n: nat) returns (found: bool)
      requires Drained(b, lock, n) && currentmsg == n - 1
      modifies this`currentmsg, this`context
      ensures Found(b, lock, n, found)
    {
      hide Handed, Occupied, Refused, Inboxes;
      ghost var c := Contents();
      found := QueueNext();
      ghost var n' := if found then currentmsg else slot.Length;
      forall i | n <= i < n' ensures b.slots[i] == None {
        assert !queue[i] && c[i] == None;
        assert c[i] == b.slots[i];
      }
      Skip(table, b.slots, lock, n, n');
    }

    /** One wakeup's delivery loop: every occupied slot is tried once and nothing blocks. */
    method Drain(lock: nat -> bool)
      requires Valid() && currentmsg == -1 && AllRoutable(table, Contents())
      modifies queue, this`currentmsg, this`context, this`inbox, this`retry, this`handed, this`visited
      ensures Valid() && currentmsg == -1
      ensures var s := old(Contents());
              && Contents() == Left(s, lock)
              && handed == old(handed) + Handed(table, s, lock, |s|)
              && inbox == Inboxes(old(inbox), Handed(table, s, lock, |s|))
              && Reached(old(inbox), inbox, Handed(table, s, lock, |s|))
              && retry == (old(retry) || Refused(s, lock, |s|))
              && visited == old(visited) + Occupied(s, |s|)
    {
      ghost var b := Before(Contents(), handed, inbox, retry, visited);
      ghost var n := 0;
      NoneDrained(table, b.slots, lock, inbox);
      hide Handed, Occupied, Refused, Inboxes, Reached;
      var found := NextFrom(b, lock, 0);
      while found
        invariant n <= slot.Length && Found(b, lock, n, found)
        decreases slot.Length - n, found
      {
        Visit(b, lock);
        n := currentmsg + 1;
        found := NextFrom(b, lock, n);
      }
      PartlyDone(Contents(), b.slots, lock);
      InboxesReach(b.inbox, Handed(table, b.slots, lock, |b.slots|));
    }

    /**
     msgHandler from one wakeup to the next wait.  Only a wakeup without the alarm needs a message in the
     context: after a delivery attempt the context is left with its output unused.
     */
    method Wakeup(alarm: bool, lock: nat -> bool) returns (overflow: bool)
      requires Valid() && currentmsg == -1 && AllRoutable(table, Contents()) && (!alarm ==> Routable(table, context))
      modifies queue, slot, this`currentmsg, this`context, this`inbox, this`retry, this`handed, this`visited
      ensures Valid() && currentmsg == -1 && overflow == (!alarm && Full(old(Contents())))
      ensures var s := Queued(old(Contents()), alarm, old(context));
              && AllRoutable(table, s)
              && Contents() == Left(s, lock)
              && handed == old(handed) + Handed(table, s, lock, |s|)
              && inbox == Inboxes(old(inbox), Handed(table, s, lock, |s|))
              && Reached(old(inbox), inbox, Handed(table, s, lock, |s|))
              && retry == (old(retry) || Refused(s, lock, |s|))
              && visited == old(visited) + Occupied(s, |s|)
    {
      hide Handed, Occupied, Refused, Inboxes, Reached;
      overflow := false;
      if !alarm {
        AddRoutable(table, Contents(), context);
        overflow := QueueAdd();
      }
      Drain(lock);
    }
  }

  /** The slots a wakeup drains: the alarm's wakeup skips queue_add. */
  function Queued(slots: Slots, alarm: bool, m: Context): Slots {
    if alarm then slots else Add(slots, m)
  }

  lemma {:induction false} AddRoutable(table: Table, slots: Slots, m: Context)
    requires AllRoutable(table, slots) && Routable(table, m)
    ensures AllRoutable(table, Add(slots, m)) && |Add(slots, m)| == |slots|
  {
    if slots != [] && slots[0].Some? {
      AddRoutable(table, slots[1..], m);
    }
  }

  lemma SlotRoutable(table: Table, b: Before, s: Before, lock: nat -> bool, n: nat)
    requires DrainedTo(table, b, s, lock, n) && n < |s.slots| && s.slots[n].Some?
    ensures |s.slots| == |b.slots| && Routable(table, s.slots[n].value)
  {
    assert s.slots[n] == b.slots[n];
  }

  /** One delivery attempt takes a drain one slot further. */
  lemma DrainStep(table: Table, b: Before, s: Before, s': Before, lock: nat -> bool, n: nat)
    requires DrainedTo(table, b, s, lock, n) && n < |s.slots| && s.slots[n].Some? && Routable(table, s.slots[n].value)
    requires var h := Handover(s.slots[n].value, Route(table, s.slots[n].value));
             if lock(n) then s' == Before(s.slots[n := None], s.handed + [h], s.inbox[h.port.task := Received(h)],
                                          s.retry, s.visited + [n])
             else s' == s.(retry := true, visited := s.visited + [n])
    ensures DrainedTo(table, b, s', lock, n + 1)
  {
    hide Handed, Occupied, Refused, Inboxes;
    assert s.slots[n] == b.slots[n];
    HandedStep(table, b.slots, lock, n);
    RefusedStep(b.slots, lock, n);
    Assoc(b.visited, Occupied(b.slots, n), [n]);
    if lock(n) {
      var h := Handover(s.slots[n].value, Route(table, s.slots[n].value));
      Assoc(b.handed, Handed(table, b.slots, lock, n), [h]);
      InboxesStep(b.inbox, Handed(table, b.slots, lock, n), h);
    }
  }

  lemma {:induction false} NoneDrained(table: Table, s: Slots, lock: nat -> bool, inbox: map<nat, Context>)
    requires AllRoutable(table, s)
    ensures Partly(s, s, lock, 0) && Handed(table, s, lock, 0) == [] && Inboxes(inbox, []) == inbox
    ensures !Refused(s, lock, 0) && Occupied(s, 0) == []
  {
  }

  lemma PartlyDone(c: Slots, s: Slots, lock: nat -> bool)
    requires Partly(c, s, lock, |s|)
    ensures c == Left(s, lock)
  {
  }

  lemma HandedStep(table: Table, s: Slots, lock: nat -> bool, n: nat)
    requires n < |s| && AllRoutable(table, s) && s[n].Some?
    ensures Handed(table, s, lock, n + 1)
            == if lock(n) then Handed(table, s, lock, n) + [Handover(s[n].value, Route(table, s[n].value))]
               else Handed(table, s, lock, n)
    ensures Occupied(s, n + 1) == Occupied(s, n) + [n]
  {
  }

  lemma RefusedStep(s: Slots, lock: nat -> bool, n: nat)
    requires n < |s| && s[n].Some?
    ensures Refused(s, lock, n + 1) <==> Refused(s, lock, n) || !lock(n)
  {
  }

  lemma {:induction false} InboxesStep(inbox: map<nat, Context>, hs: seq<Handover>, h: Handover)
    ensures Inboxes(inbox, hs + [h]) == Inboxes(inbox, hs)[h.port.task := Received(h)]
  {
    assert (hs + [h])[..|hs|] == hs;
  }

  lemma {:induction false} AddAt(s: Slots, m: Context, k: nat)
    requires k < |s| && s[k] == None && forall i | 0 <= i < k :: s[i].Some?
    ensures Add(s, m) == s[k := Some(m)]
  {
    if k > 0 {
      AddAt(s[1..], m, k - 1);
    }
  }

  lemma {:induction false} AddFull(s: Slots, m: Context)
    requires Full(s)
    ensures Add(s, m) == s
  {
    if s != [] {
      AddFull(s[1..], m);
    }
  }
}
