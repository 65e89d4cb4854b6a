/**
 The critical sections of hpd_events.c and hpd_server_sent_events.c on one event queue, as
 functions on the queue's value.  A call that blocks in pthread_cond_wait is two sections: the
 one that falls asleep and the one that resumes after a broadcast.
 */
module EventQueues {
  import opened Basics

  type ConnId = nat

  datatype Message = Message(id: string, data: string)

  datatype ServiceId = ServiceId(url: string, available: bool)

  /** is_waiting: HPD_NO, HPD_YES and HPD_WAIT_FOR_TIMEOUT. */
  datatype Waiting = No | Yes | ForTimeout

  /** A thread inside dequeue_event, or inside wait_for_timeout, on behalf of a connection. */
  datatype Waiter = Reader(conn: Option<ConnId>) | Closer(closing: ConnId)

  /** asleep and woken are the threads inside pthread_cond_wait: without and with a wakeup pending. */
  datatype Queue = Queue(events: seq<Message>, services: seq<ServiceId>, sendLog: bool, waiting: Waiting,
                         exiting: bool, owner: Option<ConnId>, asleep: set<Waiter>, woken: set<Waiter>)
  {
    function Waiters(): set<Waiter> {
      asleep + woken
    }
  }

  const EMPTY := Queue([], [], false, No, false, None, {}, {})

  /** What one section of dequeue_event did; Crash is a NULL dereference or a failed assert. */
  datatype Outcome = Slept | Refused | Got(message: Message) | Crash

  predicate Subscribed(services: seq<ServiceId>, url: string) {
    exists i | 0 <= i < |services| :: services[i].url == url
  }

  predicate Admits(q: Queue, m: Message, isGlobal: bool) {
    if m.id == "Log" then q.sendLog else isGlobal || Subscribed(q.services, m.id)
  }

  function Broadcast(q: Queue): Queue {
    q.(asleep := {}, woken := q.woken + q.asleep)
  }

  /** queue_event */
  function Offer(q: Queue, m: Message, isGlobal: bool): Queue {
    if !Admits(q, m, isGlobal) then q
    else
      var q' := q.(events := q.events + [m]);
      if q.waiting == Yes && (isGlobal || q.owner.Some?) then Broadcast(q') else q'
  }

  /** The part of dequeue_event after the wait. */
  function Take(q: Queue, conn: Option<ConnId>, isGlobal: bool): (Queue, Outcome) {
    if conn.Some? && !isGlobal && q.owner == None then (q, Crash)
    else if conn.Some? && !isGlobal && q.owner != conn then (q, Refused)
    else if q.exiting then (q, Refused)
    else if q.events == [] then (q, Crash)
    else (q.(events := q.events[1..]), Got(q.events[0]))
  }

  /** dequeue_event up to its wait, or to its end when it does not wait. */
  function DequeueStart(q: Queue, conn: Option<ConnId>, isGlobal: bool): (Queue, Outcome) {
    if q.events == [] then (q.(waiting := Yes, asleep := q.asleep + {Reader(conn)}), Slept)
    else Take(q, conn, isGlobal)
  }

  /** dequeue_event from its wait on. */
  function DequeueResume(q: Queue, conn: Option<ConnId>, isGlobal: bool): (Queue, Outcome) {
    Take(q.(waiting := No, woken := q.woken - {Reader(conn)}), conn, isGlobal)
  }

  /** wait_for_timeout up to its wait, and from a broadcast on. */
  function CloserStart(q: Queue, conn: ConnId): Queue {
    q.(waiting := ForTimeout, asleep := q.asleep + {Closer(conn)})
  }

  function CloserResume(q: Queue, conn: ConnId): Queue {
    q.(waiting := No, woken := q.woken - {Closer(conn)})
  }

  /** exit_event_queue */
  function Exit(q: Queue): Queue {
    var q' := q.(exiting := true);
    if q.waiting == Yes then Broadcast(q') else q'
  }

  /** set_up_server_sent_event_connection: is_waiting > HPD_NO holds only for HPD_WAIT_FOR_TIMEOUT. */
  function SetUp(q: Queue, conn: ConnId): Queue {
    if q.waiting == ForTimeout && q.owner.Some? then Broadcast(q.(owner := Some(conn)))
    else q.(owner := Some(conn))
  }

  /** remove_service_id_from_queue: the first entry with that URL goes. */
  function RemoveFirst(services: seq<ServiceId>, url: string): seq<ServiceId> {
    if services == [] then []
    else if services[0].url == url then services[1..]
    else [services[0]] + RemoveFirst(services[1..], url)
  }

  /** set_availability_of_service: the first entry with that URL is marked. */
  function MarkFirst(services: seq<ServiceId>, url: string, available: bool): seq<ServiceId> {
    if services == [] then []
    else if services[0].url == url then [services[0].(available := available)] + services[1..]
    else [services[0]] + MarkFirst(services[1..], url, available)
  }

  /** subscribe_to_service: subscribe when not subscribed, unsubscribe otherwise. */
  function Toggle(q: Queue, url: string): Queue {
    q.(services := if Subscribed(q.services, url) then RemoveFirst(q.services, url)
                   else q.services + [ServiceId(url, true)])
  }

  /** subscribe_to_log_events */
  function ToggleLog(q: Queue): Queue {
    q.(sendLog := !q.sendLog)
  }

  function SetAvailability(q: Queue, url: string, available: bool): Queue {
    q.(services := MarkFirst(q.services, url, available))
  }

  // ---------------------------------------------------------------- the subscription list as a set

  ghost function Urls(services: seq<ServiceId>): set<string> {
    set i | 0 <= i < |services| :: services[i].url
  }

  ghost predicate NoRepeat(services: seq<ServiceId>) {
    forall i, j | 0 <= i < j < |services| :: services[i].url != services[j].url
  }

  lemma SubscribedUrls(services: seq<ServiceId>, url: string)
    ensures Subscribed(services, url) <==> url in Urls(services)
  {
  }

  lemma UrlsCons(s: ServiceId, services: seq<ServiceId>)
    ensures Urls([s] + services) == {s.url} + Urls(services)
    ensures NoRepeat([s] + services) <==> s.url !in Urls(services) && NoRepeat(services)
  {
    ConsUrls(s, services);
    ConsNoRepeat(s, services);
  }

  lemma ConsUrls(s: ServiceId, services: seq<ServiceId>)
    ensures Urls([s] + services) == {s.url} + Urls(services)
  {
    var t := [s] + services;
    assert t[0] == s && forall i | 0 <= i < |services| :: t[i + 1] == services[i];
    forall u | u in Urls(services) ensures u in Urls(t) {
      var i :| 0 <= i < |services| && services[i].url == u;
      assert t[i + 1].url == u;
    }
    forall u | u in Urls(t) ensures u in {s.url} + Urls(services) {
      var i :| 0 <= i < |t| && t[i].url == u;
      assert i > 0 ==> services[i - 1].url == u;
    }
  }

  lemma ConsNoRepeat(s: ServiceId, services: seq<ServiceId>)
    ensures NoRepeat([s] + services) <==> s.url !in Urls(services) && NoRepeat(services)
  {
    var t := [s] + services;
    assert t[0] == s && forall i | 0 <= i < |services| :: t[i + 1] == services[i];
    if s.url in Urls(services) {
      var i :| 0 <= i < |services| && services[i].url == s.url;
      assert t[0].url == t[i + 1].url;
    }
    if NoRepeat(t) {
      forall i, j | 0 <= i < j < |services| ensures services[i].url != services[j].url {
        assert t[i + 1] == services[i] && t[j + 1] == services[j];
      }
    }
  }

  lemma UrlsAppend(services: seq<ServiceId>, s: ServiceId)
    requires NoRepeat(services) && s.url !in Urls(services)
    ensures Urls(services + [s]) == Urls(services) + {s.url} && NoRepeat(services + [s])
  {
    var t := services + [s];
    forall u | u in Urls(services) + {s.url} ensures u in Urls(t) {
      if u == s.url {
        assert t[|services|].url == u;
      } else {
        var i :| 0 <= i < |services| && services[i].url == u;
        assert t[i].url == u;
      }
    }
  }

  /** Removing the first entry of a repeat-free list removes the URL and nothing else. */
  lemma {:induction false} RemoveFirstUrls(services: seq<ServiceId>, url: string)
    requires NoRepeat(services)
    ensures Urls(RemoveFirst(services, url)) == Urls(services) - {url} && NoRepeat(RemoveFirst(services, url))
  {
    if services != [] {
      var s, rest := services[0], services[1..];
      assert services == [s] + rest;
      UrlsCons(s, rest);
      if s.url != url {
        RemoveFirstUrls(rest, url);
        UrlsCons(s, RemoveFirst(rest, url));
      }
    }
  }

  lemma {:induction false} MarkFirstUrls(services: seq<ServiceId>, url: string, available: bool)
    ensures Urls(MarkFirst(services, url, available)) == Urls(services)
    ensures NoRepeat(MarkFirst(services, url, available)) <==> NoRepeat(services)
  {
    if services != [] {
      var s, rest := services[0], services[1..];
      assert services == [s] + rest;
      UrlsCons(s, rest);
      if s.url == url {
        UrlsCons(s.(available := available), rest);
      } else {
        MarkFirstUrls(rest, url, available);
        UrlsCons(s, MarkFirst(rest, url, available));
      }
    }
  }

  // ---------------------------------------------------------------- availability

  /** What a queue records about a service; None when it is not subscribed. */
  function Availability(services: seq<ServiceId>, url: string): Option<bool> {
    if services == [] then None
    else if services[0].url == url then Some(services[0].available)
    else Availability(services[1..], url)
  }

  lemma {:induction false} SubscribedAvailability(services: seq<ServiceId>, url: string)
    ensures Availability(services, url).Some? <==> url in Urls(services)
  {
    if services != [] {
      assert services == [services[0]] + services[1..];
      UrlsCons(services[0], services[1..]);
      SubscribedAvailability(services[1..], url);
    }
  }

  /** Marking changes what is recorded about that service, if it is subscribed, and about no other. */
  lemma {:induction false} MarkAvailability(services: seq<ServiceId>, url: string, available: bool, x: string)
    ensures Availability(MarkFirst(services, url, available), x)
            == if x == url && Availability(services, x).Some? then Some(available) else Availability(services, x)
  {
    if services != [] {
      var s, rest := services[0], services[1..];
      assert ([s.(available := available)] + rest)[1..] == rest;
      assert ([s] + MarkFirst(rest, url, available))[1..] == MarkFirst(rest, url, available);
      MarkAvailability(rest, url, available, x);
    }
  }

  /** So a notice is recorded for its service, if that is subscribed, and for no other. */
  lemma {:induction false} NoticeRecorded(q: Queue, url: string, available: bool, x: string)
    ensures var q' := SetAvailability(q, url, available);
            && Availability(q'.services, x)
               == (if x == url && Subscribed(q.services, url) then Some(available) else Availability(q.services, x))
            && q'.(services := q.services) == q && Urls(q'.services) == Urls(q.services)
  {
    SubscribedUrls(q.services, url);
    SubscribedAvailability(q.services, url);
    MarkAvailability(q.services, url, available, x);
    MarkFirstUrls(q.services, url, available);
  }

  lemma {:induction false} AppendAvailability(services: seq<ServiceId>, s: ServiceId, x: string)
    ensures Availability(services + [s], x)
            == if Availability(services, x) == None && x == s.url then Some(s.available) else Availability(services, x)
  {
    if services == [] {
      assert services + [s] == [s];
    } else {
      assert (services + [s])[1..] == services[1..] + [s];
      AppendAvailability(services[1..], s, x);
    }
  }

  lemma {:induction false} RemoveAvailability(services: seq<ServiceId>, url: string, x: string)
    requires NoRepeat(services)
    ensures Availability(RemoveFirst(services, url), x) == if x == url then None else Availability(services, x)
  {
    if services != [] {
      var s, rest := services[0], services[1..];
      assert services == [s] + rest;
      UrlsCons(s, rest);
      SubscribedAvailability(rest, x);
      if s.url != url {
        assert ([s] + RemoveFirst(rest, url))[1..] == RemoveFirst(rest, url);
        RemoveAvailability(rest, url, x);
      }
    }
  }

  /** A request for a service subscribes it as available, or takes it out; other services stay as they were. */
  lemma {:induction false} ToggleAvailability(q: Queue, url: string, x: string)
    requires NoRepeat(q.services)
    ensures Availability(Toggle(q, url).services, x)
            == if x != url then Availability(q.services, x)
               else if Availability(q.services, x) == None then Some(true) else None
  {
    SubscribedAvailability(q.services, url);
    SubscribedUrls(q.services, url);
    AppendAvailability(q.services, ServiceId(url, true), x);
    RemoveAvailability(q.services, url, x);
  }
}
