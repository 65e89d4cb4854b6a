/**
 The EventQueue structure of hpd_events.c with its fields updated in place, each call proved
 against the section function it performs.  Events are heap objects: what a session queue holds
 are copies of its own.
 */
module EventQueueObject {
  import opened Basics
  import opened EventQueues

  class Event {
    var id: string
    var data: string

    constructor (id: string, data: string)
      ensures this.id == id && this.data == data
    {
      this.id, this.data := id, data;
    }

    function Value(): Message
      reads this
    {
      Message(id, data)
    }
  }

  class EventQueue {
    var events: seq<Event>
    var services: seq<ServiceId>
    var sendLog: bool
    var waiting: Waiting
    var exiting: bool
    var owner: Option<ConnId>
    var asleep: set<Waiter>
    var woken: set<Waiter>

    /** The queue's value. */
    ghost function Value(): Queue
      reads this, events
    {
      Queue(seq(|events|, i requires 0 <= i < |events| reads this, events => events[i].Value()),
            services, sendLog, waiting, exiting, owner, asleep, woken)
    }

    constructor ()
      ensures Value() == EMPTY && events == []
    {
      events, services, sendLog, waiting, exiting, owner, asleep, woken := [], [], false, No, false, None, {}, {};
    }

    method BroadcastWakeup()
      modifies this
      ensures Value() == Broadcast(old(Value())) && events == old(events)
    {
      woken, asleep := woken + asleep, {};
    }

    /** DL_FOREACH over the subscriptions, with a break at the first match. */
    method FindService(url: string) returns (k: nat)
      ensures k <= |services| && (k < |services| <==> Subscribed(services, url))
      ensures (forall i | 0 <= i < k :: services[i].url != url) && (k < |services| ==> services[k].url == url)
    {
      k := 0;
      while k < |services| && services[k].url != url
        invariant k <= |services|
        invariant forall i | 0 <= i < k :: services[i].url != url
      {
        k := k + 1;
      }
    }

    /** queue_event: a session queue appends a fresh copy, the global queue the event itself. */
    method QueueEvent(event: Event, isGlobal: bool)
      modifies this
      ensures Value() == Offer(old(Value()), old(event.Value()), isGlobal)
      ensures old(events) <= events && |events| <= |old(events)| + 1
      ensures |events| > |old(events)| ==>
                if isGlobal then events[|old(events)|] == event else fresh(events[|old(events)|])
    {
      if event.id == "Log" && !sendLog {
        return;
      } else if !isGlobal && event.id != "Log" {
        var k := FindService(event.id);
        if k == |services| {
          return;
        }
      }
      var e := event;
      if !isGlobal {
        e := new Event(event.id, event.data);
      }
      events := events + [e];
      if waiting == Yes && (isGlobal || owner.Some?) {
        BroadcastWakeup();
      }
    }

    /** dequeue_event after its wait; the crash it can come to is excluded by what it requires. */
    method FinishDequeue(conn: Option<ConnId>, isGlobal: bool) returns (e: Event?)
      requires Take(Value(), conn, isGlobal).1 != Crash
      modifies this
      ensures Value() == Take(old(Value()), conn, isGlobal).0
      ensures var r := Take(old(Value()), conn, isGlobal).1;
              if e == null then r == Refused && events == old(events)
              else r == Got(e.Value()) && old(events) == [e] + events
    {
      if conn.Some? && !isGlobal {
        if owner != conn {
          return null;
        }
      }
      if exiting {
        return null;
      }
      e := events[0];
      events := events[1..];
    }

    /** dequeue_event up to its wait. */
    method StartDequeue(conn: Option<ConnId>, isGlobal: bool) returns (slept: bool, e: Event?)
      requires DequeueStart(Value(), conn, isGlobal).1 != Crash
      modifies this
      ensures Value() == DequeueStart(old(Value()), conn, isGlobal).0
      ensures var r := DequeueStart(old(Value()), conn, isGlobal).1;
              slept == (r == Slept) && (if e == null then r == Slept || r == Refused else r == Got(e.Value()))
      ensures if e == null then events == old(events) else old(events) == [e] + events
    {
      slept, e := events == [], null;
      if slept {
        waiting, asleep := Yes, asleep + {Reader(conn)};
      } else {
        e := FinishDequeue(conn, isGlobal);
      }
    }

    /** dequeue_event from a broadcast on. */
    method ResumeDequeue(conn: Option<ConnId>, isGlobal: bool) returns (e: Event?)
      requires Reader(conn) in woken && DequeueResume(Value(), conn, isGlobal).1 != Crash
      modifies this
      ensures Value() == DequeueResume(old(Value()), conn, isGlobal).0
      ensures var r := DequeueResume(old(Value()), conn, isGlobal).1;
              if e == null then r == Refused && events == old(events)
              else r == Got(e.Value()) && old(events) == [e] + events
    {
      waiting, woken := No, woken - {Reader(conn)};
      e := FinishDequeue(conn, isGlobal);
    }

    method StartClose(conn: ConnId)
      modifies this
      ensures Value() == CloserStart(old(Value()), conn) && events == old(events)
    {
      waiting, asleep := ForTimeout, asleep + {Closer(conn)};
    }

    method ResumeClose(conn: ConnId)
      modifies this
      ensures Value() == CloserResume(old(Value()), conn) && events == old(events)
    {
      waiting, woken := No, woken - {Closer(conn)};
    }

    method ExitQueue()
      modifies this
      ensures Value() == Exit(old(Value())) && events == old(events)
    {
      exiting := true;
      if waiting == Yes {
        BroadcastWakeup();
      }
    }

    method SetUpConnection(conn: ConnId)
      modifies this
      ensures Value() == SetUp(old(Value()), conn) && events == old(events)
    {
      if waiting == ForTimeout && owner.Some? {
        owner := Some(conn);
        BroadcastWakeup();
      } else {
        owner := Some(conn);
      }
    }

    method SubscribeToLogEvents()
      modifies this
      ensures Value() == ToggleLog(old(Value())) && events == old(events)
    {
      sendLog := !sendLog;
    }

    method SubscribeToService(url: string)
      modifies this
      ensures Value() == Toggle(old(Value()), url) && events == old(events)
    {
      var k := FindService(url);
      if k == |services| {
        services := services + [ServiceId(url, true)];
      } else {
        RemoveFirstAt(services, url, k);
        services := services[..k] + services[k + 1..];
      }
    }

    method SetServiceAvailability(url: string, available: bool) returns (found: bool)
      modifies this
      ensures Value() == SetAvailability(old(Value()), url, available) && events == old(events)
      ensures found <==> Subscribed(old(services), url)
    {
      var k := FindService(url);
      MarkFirstAt(services, url, available, k);
      found := k < |services|;
      if found {
        services := services[k := services[k].(available := available)];
      }
    }
  }

  lemma {:induction false} RemoveFirstAt(s: seq<ServiceId>, url: string, k: nat)
    requires k < |s| && s[k].url == url && forall i | 0 <= i < k :: s[i].url != url
    ensures RemoveFirst(s, url) == s[..k] + s[k + 1..]
  {
    if k > 0 {
      RemoveFirstAt(s[1..], url, k - 1);
      assert s[..k] + s[k + 1..] == [s[0]] + (s[1..][..k - 1] + s[1..][k..]);
    }
  }

  lemma {:induction false} MarkFirstAt(s: seq<ServiceId>, url: string, a: bool, k: nat)
    requires k <= |s| && (k < |s| ==> s[k].url == url) && forall i | 0 <= i < k :: s[i].url != url
    ensures MarkFirst(s, url, a) == if k < |s| then s[k := s[k].(available := a)] else s
  {
    if s != [] {
      if k == 0 {
        assert s[0 := s[0].(available := a)] == [s[0].(available := a)] + s[1..];
      } else {
        MarkFirstAt(s[1..], url, a, k - 1);
        assert s == [s[0]] + s[1..];
      }
    }
  }

  /** The sessions' values, for sessions that share no event with each other or with e. */
  ghost predicate Separate(queues: seq<EventQueue>, e: Event)
    reads queues
  {
    && (forall i, j | 0 <= i < j < |queues| :: queues[i] != queues[j])
    && forall i | 0 <= i < |queues| :: e !in queues[i].events
  }

  /**
   One round of consume_global_event_queue: every listed session is offered the event once, in list
   order; destroying the original afterwards changes none of the copies.
   */
  method FanOut(queues: seq<EventQueue>, e: Event)
    requires Separate(queues, e)
    modifies queues, e
    ensures forall i | 0 <= i < |queues| :: queues[i].Value() == Offer(old(queues[i].Value()), old(e.Value()), false)
    ensures Separate(queues, e)
  {
    hide Offer;
    var n := 0;
    while n < |queues|
      invariant n <= |queues| && e.Value() == old(e.Value())
      invariant forall i | 0 <= i < n :: queues[i].Value() == Offer(old(queues[i].Value()), old(e.Value()), false)
      invariant forall i | n <= i < |queues| :: queues[i].Value() == old(queues[i].Value())
      invariant Separate(queues, e)
      modifies queues
    {
      queues[n].QueueEvent(e, false);
      n := n + 1;
    }
    e.id, e.data := "", "";
  }
}
