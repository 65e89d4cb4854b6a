# Home-automation bridge: a verified model

The repository is a C bridge between home devices and the network, built from threads, queues, timers
and intrusive linked lists. This project models its five parts that carry the hard properties and proves
those properties for every input, every run and every reachable state.

**Lists** (`StableSort`, `Utlist`, `DoublyLinked`). `LL_SORT`, `DL_SORT` and `CDL_SORT` are one bottom-up merge
sort over heap nodes; `Utlist` runs it on `next` and `prev` fields, one method per nested loop of the
macro, and proves the result a sorted, stable rearrangement with the shape of its list kind restored, the
exact number of passes and of comparisons in each. `StableSort` holds the order theory and shows that
such a result is unique, so the three macros agree. `DoublyLinked` (DList.dfy) has the `DL_*` macros against a
ghost sequence, including `DL_DELETE(head, head)` and deletion during `DL_FOREACH_SAFE`.

**Events** (`EventQueues`, `EventQueueObject`, `EventDelivery`, `EventGuarantees`, `ExitRuns`). Every mutex-protected section
is one step, and a call that waits on a condition variable is two. `EventQueues` says what each section
does to a queue's value, the class `EventQueue` does it in place with private copies of events, and
`EventDelivery` is the step system of producers, the consumer thread, listed sessions and connections
that take sessions over. A session carries the history of what was offered to it and of its subscription
calls; what it should have delivered is computed from that history alone. `ExitRuns` follows the consumer
after `exit_event_queue`.

**Bus and sessions** (`MessageBus`, `BusRuns`, `Sessions`, `SessionRuns`, `SessionTraffic`). The slot queue with its cursor,
routing table and retry alarm; the session table aged by one shared countdown alarm; the timer loop. The
number of slots, of tasks and of VPSs are parameters. Array-updating classes are proved against functions,
and the runs are built from those functions. `SessionTraffic` times a session under any other VPSs' messages.

**Registry and teardown** (`Urls`, `Registry`, `RegistryServer`, `RegistryRuns`, `DeviceHeap`, `Teardown`,
`TeardownRuns`). The server's service list and the XML tree under any sequence of register and unregister
calls, service URLs as keys, and the two destructors that call each other. Their heap maps allocated addresses
to cells and `free` takes an address out, so that every read and write of a cell is proved to be of an allocated
one. `TeardownRuns` is about any sequence of creations and destructions on the whole heap.

**Codecs and log** (`HexCodec`, `EventText`, `LogFile`). The hex codec with decoding in place, the printed
event and its `strtok` parser, and the log file that overwrites itself from a fixed offset.

## Where the code does something its callers would not expect

Each is proved from a concrete run or as an exact condition.

- A takeover can lose a wakeup. `set_up_server_sent_event_connection` changes the owner without waking the
  old reader (its test `is_waiting > HPD_NO` holds only for `HPD_WAIT_FOR_TIMEOUT`, since `HPD_YES` is the
  smaller constant), and a resuming reader clears `is_waiting`; so an event can sit in the queue while the
  owner sleeps (`TakeoverLosesWakeup`). An admitted event wakes the sleeping owner exactly when `is_waiting` is
  `HPD_YES` (`OwnerWokenIff`), while that is recorded no sleeping owner has an event queued
  (`RecordedOwnerHasNothing`), and it is recorded as long as no two threads ever waited on the session at once.
- `exit_event_queue` does not always stop the consumer: a busy one goes to sleep on the empty queue
  (`BusyConsumerMissesExit`). With no producer running any more it stops exactly when at the call it was
  waiting or an event was queued (`ExitStopsConsumerIff`).
- A message posted while the bus's retry alarm is signalled is neither queued nor reported
  (`AlarmDropsMessage`); a wakeup accepts its message exactly when no alarm is signalled and a slot is free.
- The session alarm is shared: another VPS's requests can keep a session open for ever
  (`BusyNeighbourPostponesTimeout`). Under any traffic a session of value k times out in the step that serves
  the k-th alarm, and an alarm comes exactly when a whole countdown passes without a request from any VPS
  (`TimesOutAtServedAlarm`, `SignalledIff`). A pending alarm shortens both kinds of timeout to 140 ticks.
- A '/' in a device type, device ID or service type lets a service share its URL with one whose keys hold none
  (`SharesUrlIff`); registering both and removing either then takes the wrong one off the list while the XML tree
  loses the right one (`SlashSeparatesStores`, `UnregisterKeepsIff`).
- `create_service_struct` returns a service that its device refused as a duplicate; destroying either of the two
  frees the device under the other (`DuplicateLosesDevice`, with the exact condition in `FreesAnothersDeviceIff`).
- `binary_to_hexbinary` writes its terminator n bytes behind the digits and truncates the length it returns to
  eight bits. So what it sends by that length is decoded to the same bytes exactly up to 127 of them
  (`EncodeSendDecode`), what it leaves as a C string exactly for n <= 1 or when a NUL already stood at one of the
  two bytes behind the digits (`EncodeThenDecode`), and a decoded string is encoded back by that length exactly
  below 256 hex digits (`DecodeThenEncode`). Two bytes can come back as three, and 128 as none (`RoundTripsFail`).
- The log's position is bounded by `max_log_size` + 1 rather than `max_log_size`: the newline is not counted.
- A restarted daemon finds its header again exactly when the date in it is one line of at most 247 characters; with
  any other it would write over the header (`ReopenIff`, `HeaderSurvivesIff`). `get_date` gives ten.
- A printed event is parsed back exactly when neither the data nor the id contains '<'.

## Model

| member | source | states |
|---|---|---|
| Utlist.Sort | hpbridge/hpdaemon/utlist.h:102-284 | For each of the three list kinds and any comparator that is a total preorder, the list comes back in its own shape, sorted, holding the original nodes with equal ones in their original order; exactly max(1, ceil(log2 n)) passes, each comparing exactly as often as its merges do and fewer than n times |
| Utlist.Pass | hpbridge/hpdaemon/utlist.h:112-154 | One pass merges neighbouring runs of length insize pairwise, leaves a closed list of the same nodes, makes at most one merge exactly when the runs pair up to the whole list, and compares as often as those merges do |
| Utlist.MergeRuns | hpbridge/hpdaemon/utlist.h:124-148 | The inner loop moves two adjacent runs onto the output as their stable merge, leaving every unread node's links alone, and compares once for every node taken while both runs have some left |
| Utlist.Advance | hpbridge/hpdaemon/utlist.h:118-123 | The step over a run counts min(insize, nodes left) nodes and stops on the node after them, reading the old head as the end of a circular list |
| Utlist.PassClose | hpbridge/hpdaemon/utlist.h:149-150 | Setting the tail's next, and for two-way lists the head's prev, completes the invariant of the list kind |
| StableSort.MergeSorted | hpbridge/hpdaemon/utlist.h:124-148 | Merging two sorted runs by cmp(p, q) <= 0 gives a sorted run |
| StableSort.MergeStable | hpbridge/hpdaemon/utlist.h:124-148 | Elements that compare equal keep their order across a merge, those of the first run before those of the second |
| StableSort.PassRuns | hpbridge/hpdaemon/utlist.h:112-154 | A pass over sorted runs of length k leaves sorted runs of length 2k |
| StableSort.PassStable | hpbridge/hpdaemon/utlist.h:112-154 | A pass keeps the order of every class of equal elements |
| StableSort.PassMultiset | hpbridge/hpdaemon/utlist.h:112-154 | A pass neither loses nor repeats an element |
| StableSort.MergeCost | hpbridge/hpdaemon/utlist.h:124-148 | A merge of n > 0 nodes compares fewer than n times |
| StableSort.PassCost | hpbridge/hpdaemon/utlist.h:112-154 | A pass over n > 0 nodes compares fewer than n times |
| StableSort.StableSortUnique | hpbridge/hpdaemon/utlist.h:158-284 | Two sorted stable rearrangements of one list are equal, so the doubly linked and circular sorts give the element order of the singly linked one |
| StableSort.CeilLog2Unique | hpbridge/hpdaemon/utlist.h:152-154 | The pass count a doubling run length leads to is the rounded-up binary logarithm |
| DoublyLinked.Prepend | hpbridge/hpdaemon/utlist.h:400-410 | The list becomes add followed by the old list, with head's prev the tail and every other prev inverting next |
| DoublyLinked.Append | hpbridge/hpdaemon/utlist.h:412-424 | The list becomes the old list followed by add, invariant kept |
| DoublyLinked.Concat | hpbridge/hpdaemon/utlist.h:426-439 | Disjoint lists become their concatenation, either of them possibly empty |
| DoublyLinked.Delete | hpbridge/hpdaemon/utlist.h:441-457 | Any node leaves the list, the others keep their order, and the deleted node keeps its own links |
| DoublyLinked.DeleteHead | hpbridge/hpdaemon/hpd_events.c:411 | DL_DELETE(head, head), where the macro re-reads the head it has assigned, still removes just the first node |
| DoublyLinked.Search | hpbridge/hpdaemon/utlist.h:460-469 | The first node that satisfies the test, or null exactly when none does |
| DoublyLinked.DeleteWhere | hpbridge/hpdaemon/utlist.h:463-465 | Deleting the current node inside the safe loop visits every original node once, in order, and leaves exactly those the test spares |
| EventQueues.RemoveFirstUrls | hpbridge/hpdaemon/hpd_events.c:513-534 | On a subscription list without repeats, removing the first entry of a URL unsubscribes that URL and nothing else |
| EventQueues.MarkFirstUrls | hpbridge/hpdaemon/hpd_events.c:547-577 | Marking availability changes no subscription |
| EventQueues.NoticeRecorded | hpbridge/hpdaemon/hpd_events.c:547-577 | A notice is recorded for its service when that is subscribed, and changes nothing else |
| EventQueues.ToggleAvailability | hpbridge/hpdaemon/hpd_server_sent_events.c:420-474 | A request subscribes its service as available or takes it out, and leaves what is recorded of others |
| EventQueueObject.EventQueue.QueueEvent | hpbridge/hpdaemon/hpd_events.c:312-360 | In place, an event is admitted by the log switch or the subscriptions; a session queue appends a fresh copy, the global queue the event itself; waiters are woken only when recorded as HPD_YES and, on a session queue, owned |
| EventQueueObject.EventQueue.FindService | hpbridge/hpdaemon/hpd_events.c:461-481 | The position of the first subscription with the URL, or the end exactly when not subscribed |
| EventQueueObject.EventQueue.StartDequeue | hpbridge/hpdaemon/hpd_events.c:373-392 | The section up to the wait: it goes to sleep recorded as HPD_YES when nothing is queued, else it takes the first event, is refused for a stranger's connection or on exit |
| EventQueueObject.EventQueue.ResumeDequeue | hpbridge/hpdaemon/hpd_events.c:386-416 | The section after a wakeup clears is_waiting and takes the first event unless the connection lost the queue or the queue is exiting |
| EventQueueObject.EventQueue.ExitQueue | hpbridge/hpdaemon/hpd_events.c:236-251 | The exit flag is set and recorded waiters are woken, nothing else changes |
| EventQueueObject.EventQueue.StartClose | hpbridge/hpdaemon/hpd_events.c:425-450 | The closing connection's wait overwrites whatever waiting state was recorded |
| EventQueueObject.EventQueue.SetUpConnection | hpbridge/hpdaemon/hpd_server_sent_events.c:547-593 | The new connection owns the queue; waiters are woken exactly when a wait for the timeout is recorded |
| EventQueueObject.EventQueue.SubscribeToService | hpbridge/hpdaemon/hpd_server_sent_events.c:420-474 | A request for a URL subscribes it or, when subscribed, takes its first entry out |
| EventQueueObject.EventQueue.SubscribeToLogEvents | hpbridge/hpdaemon/hpd_server_sent_events.c:488-535 | A request switches log events over and touches nothing else |
| EventQueueObject.EventQueue.SetServiceAvailability | hpbridge/hpdaemon/hpd_events.c:547-577 | The first entry of the URL is marked; the result says whether there was one |
| EventQueueObject.FanOut | hpbridge/hpdaemon/hpd_server_sent_events.c:132-162 | Every listed session is offered the event exactly once with the event's original contents, and destroying the original afterwards changes no queued copy |
| EventDelivery.SessionStepKeeps | hpbridge/hpdaemon/hpd_server_sent_events.c:337-593 | Every section on a session keeps its invariant (subscriptions as in the history, delivered plus queued as passed, owners only, waiters sound) and none crashes |
| EventDelivery.KeepsConserved | hpbridge/hpdaemon/hpd_events.c:312-416 | No section of queueing, reading or subscribing loses, repeats or reorders an event that passed the filter |
| EventDelivery.KeepsRecorded | hpbridge/hpdaemon/hpd_events.c:373-450 | As long as no two threads ever waited on a session at once, is_waiting says exactly who waits: nobody, a reader, or a closer |
| EventDelivery.KeepsFanned | hpbridge/hpdaemon/hpd_server_sent_events.c:132-162 | Under sessions joining and leaving whenever no fan-out holds the list mutex, each listed session has been offered exactly the fan-outs begun since it joined |
| EventDelivery.KeepsGlobal | hpbridge/hpdaemon/hpd_events.c:236-416 | Every step keeps the global queue's conservation and its no-lost-wakeup invariant |
| EventDelivery.ReachableInv | hpbridge/hpdaemon/hpd_server_sent_events.c:132-681 | All invariants hold in every state any run reaches |
| EventGuarantees.NothingLostOrDuplicated | hpbridge/hpdaemon/hpd_server_sent_events.c:132-162 | In every reachable state, what a session's connections dequeued followed by what it still holds is, in order, what was offered and passed the filter of its moment; each event went to the connection owning the queue then; what producers sent is what the consumer took plus what is queued |
| EventGuarantees.NeverDequeuesFromEmpty | hpbridge/hpdaemon/hpd_events.c:374-416 | No call of dequeue_event on any queue in any run reaches the delete with an empty list or compares against a missing owner |
| EventGuarantees.ConsumerWakeup | hpbridge/hpdaemon/hpd_events.c:384-413 | A consumer blocked with no wakeup pending implies is_waiting is HPD_YES and the queue is empty; a woken one finds an event or the exit flag |
| EventGuarantees.BlockedConsumerIsWoken | hpbridge/hpdaemon/hpd_events.c:347-355 | Any producer and exit_event_queue leave a blocked consumer with a wakeup pending |
| EventGuarantees.OwnerWokenIff | hpbridge/hpdaemon/hpd_events.c:345-356 | An admitted event wakes the sleeping owner exactly when is_waiting is HPD_YES |
| EventGuarantees.RecordedOwnerHasNothing | hpbridge/hpdaemon/hpd_events.c:345-413 | In every reachable state, whatever was taken over: a sleeping owner with HPD_YES recorded has an empty queue, and an admitted event wakes a sleeping owner exactly when HPD_YES is recorded |
| EventGuarantees.SoleWaiterIsWoken | hpbridge/hpdaemon/hpd_events.c:345-356 | In every run in which no two threads waited on the session at once, an admitted event wakes its sleeping owner |
| EventGuarantees.ReturningClientEndsWait | hpbridge/hpdaemon/hpd_server_sent_events.c:560-570 | In every reachable state a connection set up anew owns the queue, and ends another's wait for the timeout exactly when that wait is recorded, which it always is when no two threads ever waited at once |
| EventGuarantees.ReaderGets | hpbridge/hpdaemon/hpd_events.c:374-416 | In every reachable state a reader sleeps exactly when it comes to an empty queue, and is delivered the first event exactly when its connection owns the queue, there is one, and the queue is not exiting |
| EventGuarantees.ExitWakesReader | hpbridge/hpdaemon/hpd_events.c:236-251 | In every reachable state exiting wakes a sleeping reader exactly when HPD_YES is recorded, so always when no two threads ever waited at once |
| EventGuarantees.TakeoverLosesWakeup | hpbridge/hpdaemon/hpd_server_sent_events.c:560-570 | A run with one takeover that ends with an event queued, the owner asleep and no wakeup pending |
| EventGuarantees.BusyConsumerMissesExit | hpbridge/hpdaemon/hpd_events.c:236-251 | A run after which the exit flag is set and the consumer sleeps with no wakeup pending |
| ExitRuns.ExitStopsConsumerIff | hpbridge/hpdaemon/hpd_events.c:236-251 | Over every run after the call in which no producer and no second exit call runs: the consumer comes to stop exactly when at the call it was waiting or an event was queued, comes to sleep exactly otherwise, and from wherever such a run has got to its own steps take it there |
| ExitRuns.FateKept | hpbridge/hpdaemon/hpd_server_sent_events.c:132-162 | No step of the consumer, of a session or of a connection changes which of the two it will be |
| ExitRuns.TurnAdvances | hpbridge/hpdaemon/hpd_server_sent_events.c:132-162 | A consumer that has neither stopped nor fallen asleep can take a step, and each brings it nearer to one of them |
| MessageBus.MsgHandler.QueueAdd | ihaplite/msghandler.c:260-279 | The first free slot takes the message; overflow is reported exactly when every slot is occupied, and then nothing changes |
| MessageBus.MsgHandler.QueueNext | ihaplite/msghandler.c:233-258 | The cursor moves to the next occupied slot, passing over free ones only, and back to -1 exactly when there is none |
| MessageBus.MsgHandler.TryDeliver | ihaplite/msghandler.c:170-220 | When the receiver's trylock succeeds its context gets the routed port, an unused output and the message's data, and the slot is freed; otherwise the slot and all contexts stay as they were and the retry alarm is requested |
| MessageBus.MsgHandler.Drain | ihaplite/msghandler.c:122-224 | A drain ends, visits every occupied slot once in order, and leaves occupied exactly the slots whose trylock failed, contents unchanged; each task that was handed something holds the port and data of the last message handed to it, and the others what they held |
| MessageBus.MsgHandler.Wakeup | ihaplite/msghandler.c:101-226 | One wakeup queues the message in the context unless the alarm is signalled, then drains with the same effect on the receivers; with the alarm it needs no message there, which is how a pure retry runs |
| MessageBus.MsgHandler.InsertEntry | ihaplite/msghandler.c:371-375 | Messages of that sender and output go to the new port, all others where they went before |
| MessageBus.AddAt | ihaplite/msghandler.c:260-279 | Adding changes only the first free slot |
| MessageBus.InboxesReach | ihaplite/msghandler.c:185-195 | After any deliveries a task's context holds the port and the data of the last message handed to it, as its sender posted it |
| MessageBus.HandedInOrder | ihaplite/msghandler.c:122-224 | A drain hands over the messages of exactly the unlocked occupied slots, in slot order |
| MessageBus.OccupiedIff | ihaplite/msghandler.c:233-258 | The slots visited are exactly the occupied ones, in increasing order |
| BusRuns.DeliveredExactlyOnce | ihaplite/msghandler.c:80-286 | In every run, accepted messages are those handed over plus those in slots, every post is pending, accepted, overflowed or dropped by an alarm wakeup, each hand-over went to the table entry of the original sender and output, and a waiting message has its retry at most two ticks away or signalled |
| BusRuns.DataArrives | ihaplite/msghandler.c:175-195 | In every run each task's context holds the port, an unused output and the data of the last message handed to it, and nothing when it was handed none |
| BusRuns.RetryIsTwoTicks | ihaplite/msghandler.c:216-220 | A wakeup leaves the alarm unsignalled; when a message stays in a slot the retry is signalled by exactly the second tick |
| BusRuns.NeverHandedTwice | ihaplite/msghandler.c:122-224 | However often delivery is retried, no message is handed over twice |
| BusRuns.AcceptedIff | ihaplite/msghandler.c:114-121 | A wakeup accepts the pending message exactly when no alarm is signalled and a slot is free, loses it to the alarm exactly when that is signalled, and reports an overflow otherwise |
| BusRuns.AlarmDropsMessage | ihaplite/msghandler.c:114-121 | For any routable message, a run that drops it without an overflow although a slot becomes free in the same wakeup |
| BusRuns.DrainConserves | ihaplite/msghandler.c:122-224 | A drain splits the slots' messages into those handed over and those left |
| BusRuns.HandedRight | ihaplite/msghandler.c:175-193 | Every hand-over of a drain goes where the routing table sends the message's own sender and output |
| Sessions.TimeManager.Pass | ihaplite/timemanager.c:55-85 | One tick counts every running alarm down, signals those that reach zero, and keeps stopped ones stopped |
| Sessions.TimeManager.AlarmTestAndReset | ihaplite/timemanager.c:97-104 | The signal is reported and cleared, for that task alone |
| Sessions.SessionManager.OnMessage | ihaplite/sessionmanager.c:98-187 | A request opens its session, restarts the shared alarm at 10, or at 3000 for 0TIME, and is forwarded; a reply is passed on to its open session's output, which closes, and to UDP otherwise; a VPS beyond the table is dropped |
| Sessions.SessionManager.OnAlarm | ihaplite/sessionmanager.c:189-251 | A served alarm ages every open entry by one, sends a TIMEOUT for exactly those at their last count, and rearms exactly when an entry stays open |
| Sessions.SessionManager.Wakeup | ihaplite/sessionmanager.c:95-251 | One wakeup is the message branch followed by the alarm branch |
| SessionRuns.AnswersNeverExceedRequests | ihaplite/sessionmanager.c:116-249 | For every VPS and run, replies and timeouts on its output plus one for an open session never exceed its requests, with equality exactly when no request found the session open; every reply goes to the session or to UDP |
| SessionRuns.ReceiveEffect | ihaplite/sessionmanager.c:116-183 | A message in range yields one output for its own VPS and changes no other session: a reply is answered exactly when the session is open and goes to UDP exactly when it is closed |
| SessionRuns.TextsPassOn | ihaplite/sessionmanager.c:133-181 | In every run and for every VPS, the texts sent to its output or on UDP for replies are those of the replies received for it, in order, and the texts forwarded are those of its requests, in order, without a leading 0TIME |
| SessionRuns.OutOfRangeIgnored | ihaplite/sessionmanager.c:119-155 | A message for a VPS beyond the table has no effect |
| SessionRuns.OpenSessionIsCountedDown | ihaplite/sessionmanager.c:128-251 | In every reachable state an open session's alarm is counting down or signalled |
| SessionRuns.TimesOutExactly | ihaplite/sessionmanager.c:189-251 | From countdown c with no signal pending and no further message, an entry of value k sends its TIMEOUT at tick c + 10(k-1) and at no other tick |
| SessionRuns.RequestTimesOut | ihaplite/sessionmanager.c:128-137 | With no alarm pending, a request times out after exactly 150 ticks, or 3140 for 0TIME |
| SessionRuns.PendingAlarmShortensTimeout | ihaplite/sessionmanager.c:128-251 | With an alarm pending at the request, both kinds time out after exactly 140 ticks |
| SessionRuns.ClosedNeverTimesOut | ihaplite/sessionmanager.c:208-214 | A closed session sends no TIMEOUT at any later tick |
| SessionRuns.BusyNeighbourPostponesTimeout | ihaplite/sessionmanager.c:128-137 | Under one request a tick from another VPS, an open session is never aged, for any number of ticks |
| SessionTraffic.TimesOutAtServedAlarm | ihaplite/sessionmanager.c:128-251 | Under any sequence of ticks, wakeups and messages for other VPSs, an open session of value k sends its TIMEOUT in exactly the step that serves the k-th alarm of that sequence, and before that its value is k less the alarms served |
| SessionTraffic.SignalledIff | ihaplite/timemanager.c:57-85 | An alarm counting down is signalled or served by the end of a sequence exactly when at some point of it a whole countdown had passed since the last request from any VPS |
| SessionTraffic.KeepsValueIff | ihaplite/sessionmanager.c:128-251 | Up to a wakeup, an open session keeps its value exactly as long as no whole countdown passes without a request from any VPS |
| SessionTraffic.StepTracks | ihaplite/sessionmanager.c:95-251 | One step of the manager agrees with the alarm computed from the steps alone, as far as an open session depends on it |
| Urls.ParseUrl | hpbridge/hpdaemon/hpd_services.c:179-184 | Cutting a printed URL at its first four slashes gives back the four keys when the first three hold no slash |
| Urls.ParseUrlIff | hpbridge/hpdaemon/hpd_services.c:179-184 | A printed URL reads back as its own keys exactly when device type, device ID and service type hold no slash |
| Urls.Reprint | hpbridge/hpdaemon/hpd_services.c:179-184 | Whatever the keys, those read off their URL hold no slash where it matters and print the same URL |
| Urls.SharesUrlIff | hpbridge/hpdaemon/hpd_services.c:179-184 | A key shares its URL with a different plain key exactly when it is not plain itself |
| Urls.UrlInjective | hpbridge/hpdaemon/hpd_services.c:179-184 | URLs are equal exactly when they read back as the same keys; plain keys have equal URLs exactly when they are equal, so of two keys that share a URL one is not plain |
| Urls.SlashCollides | hpbridge/hpdaemon/hpd_services.c:179-184 | Every service has a twin with plain keys and the same URL, and the twin is another service exactly when the keys hold a slash |
| Registry.RegisterKeeps | hpbridge/hpdaemon/hpd_web_server.c:143-219 | Whatever the keys, a register call keeps list and XML tree equal and duplicate-free and registers just that service |
| Registry.UnregisterKeepsIff | hpbridge/hpdaemon/hpd_web_server.c:228-286 | An unregister call of a registered service keeps the stores together exactly when the first listed service with its URL has its four keys; then it removes just that service |
| Registry.LookupsAgree | hpbridge/hpdaemon/hpd_services.c:701-716 | On plain keys, looking up by URL and by the four keys gives the same entry |
| Registry.StoresAgree | hpbridge/hpdaemon/hpd_web_server.c:143-286 | After any sequence of calls on plain keys, list and tree hold the same services, exactly those registered and not unregistered since, without duplicates, one node per device, and both lookups agree |
| RegistryRuns.CodesTell | hpbridge/hpdaemon/hpd_web_server.c:143-286 | After any calls on plain keys, registering reports success, a registered service or the missing HTTPS server, and unregistering success or an unregistered service, exactly by whether the key is live and the device secure |
| RegistryRuns.ListIsLive | hpbridge/hpdaemon/hpd_http_web_server.c:345-393 | After any calls on plain keys the list is exactly the services registered and not unregistered since, those very services, in the order they came |
| RegistryRuns.TreeIsLive | hpbridge/hpdaemon/hpd_xml.c:228-505 | After any calls on plain keys the tree has a node for every device ever registered, in that order, holding the entries of its live services, in their order |
| Registry.AddXmlEffect | hpbridge/hpdaemon/hpd_xml.c:338-396 | Adding a service to the tree makes that key present and no other, with one node per device type and ID |
| Registry.RemoveXmlEffect | hpbridge/hpdaemon/hpd_xml.c:489-505 | Removing a service takes out that key and no other |
| Registry.SharedUrlSeparatesStores | hpbridge/hpdaemon/hpd_http_web_server.c:374-393 | Registering any two services that share a URL and unregistering the second leaves list and tree with different services |
| Registry.SlashSeparatesStores | hpbridge/hpdaemon/hpd_http_web_server.c:374-393 | For every service for an unsecure device: registering it and its twin, in either order, and unregistering the second keeps list and tree together exactly when its keys hold no slash |
| RegistryServer.Server.FindByKey | hpbridge/hpdaemon/hpd_http_web_server.c:464-521 | The first listed service with the four keys, or the end when there is none |
| RegistryServer.Server.FindByUrl | hpbridge/hpdaemon/hpd_http_web_server.c:374-393 | The first listed service with the URL, or the end when there is none |
| RegistryServer.Server.FindDevice | hpbridge/hpdaemon/hpd_xml.c:268-284 | The first node of the device type and ID, or the end |
| RegistryServer.Server.FindService | hpbridge/hpdaemon/hpd_xml.c:163-329 | The first device node that has the service among its children and the first such child, or the end |
| RegistryServer.Server.AddService | hpbridge/hpdaemon/hpd_xml.c:228-396 | The nested searches and edits in place have the effect on the tree whose consequences the registry lemmas prove |
| RegistryServer.Server.RemoveService | hpbridge/hpdaemon/hpd_xml.c:489-505 | The first matching child goes; the result says whether there was one |
| RegistryServer.Server.RegisterService | hpbridge/hpdaemon/hpd_web_server.c:143-219 | The call in place has the registry's effect on both stores and its error code for a secure device or a registered service |
| RegistryServer.Server.UnregisterService | hpbridge/hpdaemon/hpd_web_server.c:228-286 | The call in place removes by URL from the list and by keys from the tree, and reports a service that is not registered |
| Teardown.Memory.AddServiceToDevice | hpbridge/hpdaemon/hpd_services.c:613-639 | A service is refused exactly when its URL is on the device's list, and then nothing has changed and its new element is freed; else that element goes last and other lists' cells are untouched |
| Teardown.Memory.RemoveServiceFromDevice | hpbridge/hpdaemon/hpd_services.c:651-672 | The first element with the service's type and ID leaves the list and is freed, every access on the way being of an allocated cell; no other element is freed and no cell of another list changes |
| Teardown.Memory.DestroyService | hpbridge/hpdaemon/hpd_services.c:223-285 | Through both destructors, with every access of an allocated cell: a registered service changes nothing; otherwise exactly the service and the first element with its name are freed, and the device exactly when that emptied its list; where every service had a device before, one loses it exactly when that happens and another allocated service, listed or not, has the device |
| Teardown.Memory.DestroyDevice | hpbridge/hpdaemon/hpd_services.c:483-538 | With every access of an allocated cell, exactly the services and elements up to the first registered one are freed, once each, and the device exactly when there is none; another service loses its device exactly when an unlisted one has it |
| Teardown.Memory.CreateService | hpbridge/hpdaemon/hpd_services.c:66-209 | A new service keeps its device pointer even when the device refuses it as a duplicate; the list stays duplicate-free |
| Teardown.Memory.DeleteElement | hpbridge/hpdaemon/utlist.h:441-457 | DL_DELETE on the heap: any element leaves the list, its own cell and all cells of other lists as they were |
| Teardown.Memory.AppendElement | hpbridge/hpdaemon/utlist.h:412-424 | DL_APPEND on the heap: the element goes last, cells of other lists as they were |
| DeviceHeap.UnlinkedIsList | hpbridge/hpdaemon/utlist.h:441-457 | The deletion's assignments leave the list without that element, linked both ways |
| DeviceHeap.AppendedIsList | hpbridge/hpdaemon/utlist.h:412-424 | The append's assignments leave the list with that element last, linked both ways |
| Teardown.DestroysItsOwn | hpbridge/hpdaemon/hpd_services.c:223-285 | A service on its device's duplicate-free list: its destruction frees exactly that service and its own element, and the device exactly when it was the last one; otherwise the list is what it was without it |
| Teardown.FreesAnothersDeviceIff | hpbridge/hpdaemon/hpd_services.c:223-285 | Where every allocated service had its device, destroying one takes the device from another exactly when the list held one element, with the destroyed service's name, and another allocated service, listed or not, has the device |
| Teardown.DeviceFreesAnothersIff | hpbridge/hpdaemon/hpd_services.c:483-538 | Destroying a device takes it from a service exactly when no listed service is registered and some allocated service of it is not on its list |
| Teardown.TeardownKeepsAnchored | hpbridge/hpdaemon/hpd_services.c:223-538 | Where every service of the device is on its list, neither destructor leaves a service without its device |
| Teardown.DuplicateLosesDevice | hpbridge/hpdaemon/hpd_services.c:66-285 | For any type and ID used twice on any new device: destroying either of the two services leaves the other allocated with its device freed |
| TeardownRuns.ServicesKeepDevicesIff | hpbridge/hpdaemon/hpd_services.c:66-672 | In any run of creating and destroying devices and services, every allocated service keeps an allocated device throughout exactly when no call destroys a device, or the last listed service of one, from under another allocated service |
| TeardownRuns.ListsAt | hpbridge/hpdaemon/hpd_services.c:66-672 | After any such run every allocated device has a well formed, duplicate-free list of its own allocated services, and no two lists share an element |
| TeardownRuns.UnrefusedStayListed | hpbridge/hpdaemon/hpd_services.c:66-672 | In any such run in which no creation is refused, every allocated service is at all times on the list of its own allocated device |
| TeardownRuns.CallKeepsWhole | hpbridge/hpdaemon/hpd_services.c:66-672 | Each call keeps all lists well formed and apart, and changes its own device's alone |
| TeardownRuns.CallAnchoredIff | hpbridge/hpdaemon/hpd_services.c:223-538 | A call leaves some service without its device exactly under a condition that can be checked before it |
| TeardownRuns.Perform | hpbridge/hpdaemon/hpd_services.c:66-672 | The calls in place are the steps of these runs |
| TeardownRuns.ListUnique | hpbridge/hpdaemon/utlist.h:400-465 | A list head stands for one sequence of elements and services only |
| HexCodec.HexToBinary | ihaplite/auxfunctions.c:36-61 | The output is the decoding of the string that was in the input before the call, also when both are one buffer and the output does not run ahead; each byte is what its two characters' hex digits say, any other character being passed over; nothing outside the output is written |
| HexCodec.DecodedMeans | ihaplite/auxfunctions.c:43-56 | A byte is the value of both digits, of the one digit when only one of the two characters is one, and 0 when neither is |
| HexCodec.BinaryToHex | ihaplite/auxfunctions.c:63-86 | Two upper-case digits for each byte, the returned length reduced to eight bits, the terminator n bytes beyond the digits, nothing else written; read as a C string the output is just the digits exactly when n is 0 or a NUL stood behind them already |
| HexCodec.DecodeEncode | ihaplite/auxfunctions.c:36-86 | Given all 2n digits of an encoding, whatever length was returned, the decoder gives back the bytes exactly when there are fewer than 256 |
| HexCodec.DecodeByLengthIff | ihaplite/auxfunctions.c:36-86 | Decoding as many characters as the encoder returns gives back the bytes exactly when there are at most 127 |
| HexCodec.DecodeByStringIff | ihaplite/auxfunctions.c:36-86 | Decoding the C string the encoder leaves gives back n bytes exactly when n is at most 1 or one of the two bytes behind the digits was a NUL before |
| HexCodec.RoundTripsFail | ihaplite/auxfunctions.c:84-85 | Any two bytes encoded into a buffer of digits come back as three, and any 128 bytes sent by length come back as none |
| HexCodec.EncodeSendDecode | ihaplite/tcpserver.c:146-162 | Both functions in a row, with the returned number of characters sent in between: the same bytes come back exactly for n <= 127 |
| HexCodec.EncodeThenDecode | ihaplite/auxfunctions.c:36-86 | Both functions in a row on one text buffer: the same bytes come back exactly for n <= 1 or a NUL that stood at one of the two places behind the digits |
| HexCodec.EncodedStringIff | ihaplite/auxfunctions.c:84-85 | A buffer that starts with an encoding is, read as a C string, just that encoding exactly when a NUL follows it |
| HexCodec.EncodeDecode | ihaplite/auxfunctions.c:36-86 | All digits of the encoding of what was decoded are the string in upper case exactly when it is an even number, below 512, of hex digits |
| HexCodec.EncodeByLengthIff | ihaplite/auxfunctions.c:36-86 | With the length the encoder returns, the string comes back in upper case exactly when it is an even number, below 256, of hex digits |
| HexCodec.DecodeThenEncode | ihaplite/auxfunctions.c:36-86 | The same of the two functions in a row on buffers |
| HexCodec.PairOfChars | ihaplite/auxfunctions.c:43-53 | The two digits written for a byte are read back as that byte |
| EventText.ParsePrint | hpclientSD/HP_client.c:243-257 | Parsing a printed event returns its data and id exactly when neither contains the delimiter |
| EventText.TokAt | hpclientSD/HP_client.c:246-251 | strtok on a non-empty clean text followed by a delimiter returns that text and continues behind the delimiter |
| EventText.Strtok | hpclientSD/HP_client.c:246-251 | In place: leading delimiters are passed over, the token ends in its own NUL, the rest of the text is untouched behind it |
| EventText.ParseEvent | hpclientSD/HP_client.c:243-257 | The parser on its buffer gives what parsing the text that was there gives |
| LogFile.FileShape | hpbridge/hpdaemon/hpd_log.c:198-239 | After any messages the file is the untouched header, the lines since the last wrap, and what that wrap found beyond them; the position is the end of those lines |
| LogFile.SinceIsSuffix | hpbridge/hpdaemon/hpd_log.c:227-239 | The lines since the last wrap are the latest messages, in order |
| LogFile.PositionBoundIff | hpbridge/hpdaemon/hpd_log.c:227-239 | One write stays within max_log_size + 1 exactly when the message fits where it is written |
| LogFile.PositionBounded | hpbridge/hpdaemon/hpd_log.c:198-239 | In every run whose messages fit behind the header, the position never exceeds max_log_size + 1 |
| LogFile.HpdLog.Log | hpbridge/hpdaemon/hpd_log.c:167-218 | In place, a message at or below the level is written at the position or at the header's end; otherwise the error code says why and nothing changes; the file stays what its messages make of the file first opened |
| LogFile.HpdLog.SetPositionForNewMessage | hpbridge/hpdaemon/hpd_log.c:227-239 | The position goes back behind the header exactly when position plus message exceeds the maximum |
| LogFile.HpdLog.constructor | hpbridge/hpdaemon/hpd_log.c:50-87 | A new file holds the header; in an existing one the log goes on behind three lines as fgets reads them |
| LogFile.AfterLine | hpbridge/hpdaemon/hpd_log.c:69-76 | fgets reads at least a character and at most 255, no newline before the last one, and stops at the end of the file, at 255, or behind a newline |
| LogFile.ReopenIff | hpbridge/hpdaemon/hpd_log.c:50-81 | Reopening a file that starts with a header goes on exactly behind it if and only if the date holds no newline and at most 247 characters |
| LogFile.HeaderSurvivesIff | hpbridge/hpdaemon/hpd_log.c:50-239 | Over any number of restarts, each with any maximum and any messages, the header is never overwritten if and only if its date is such |

## Left out

- Sockets, `select`, curl, libmicrohttpd callbacks, GnuTLS, Avahi, libconfig and UUID generation are foreign calls: connection ids are fresh and registration succeeds, by assumption.
- The mxml library: the tree holds device and service nodes with type and ID attributes; parameters, descriptions, values and saving to disk add no property of the stores.
- `wait_for_timeout` running out and destroying the queue: lookup, wait and destroy are separate lock regions, so delivery claims cover runs before a queue is destroyed. A wait ends with a broadcast only; there are no spurious wakeups.
- EventDelivery.NewSession: a session joins with no connection id; reading a queue no connection was ever set up for is not a step.
- The unlock of a mutex that is not held in `subscribe_to_service`: the toggle is one atomic step. Shutdown is followed for the consumer thread alone.
- EventQueueObject.EventQueue: the event and subscription lists are `seq` fields; that `DL_APPEND` and `DL_DELETE` do to linked nodes what these updates do to the sequence is proved in `DoublyLinked` and not repeated here.
- RegistryServer.Server: the same holds for the service list; the XML tree is a sequence of device nodes.
- Utlist.Sort: does not model overflow of the `int` run size, and says nothing of comparators that are not total preorders. The `LL_*` and `CDL_*` macros other than the sorts are easy members of the same kind.
- MessageBus.MsgHandler.Wakeup: a receiver's consumption of its `holder` is not modelled; delivery is counted at the hand-over. Senders name an existing table entry, as the code demands of them.
- MessageBus.MsgHandler: `msg_table` is a sequence of sequences, since only whole entries are replaced.
- BusRuns.NeverHandedTwice: messages are told apart by sender, output and holder; for messages posted twice the multiset statement of `DeliveredExactlyOnce` is the claim.
- SessionRuns.TimesOutExactly: the time of a timeout assumes that an alarm is served before the next tick.
- Sessions.SessionManager.OnMessage: `VPS == MAX_VPS` passes the code's check (it tests `>`) and indexes past the table; it is excluded by precondition.
- Registry.StoresAgree: covers the server for unsecure devices; the HTTPS list is the same code again, and the loops that register all services of a device repeat the single calls.
- Registry.Unregister: a service that is removed from the list but missing in the tree is reported as an XML error; failures of mDNS and of file output are not modelled.
- Teardown.Memory.DestroyDevice: frees of strings and parameters are left out, since `service->type` belongs to the caller. Whether a service is registered is a set of keys; the server's own list and its pointers are not on this heap. `malloc` succeeds, with any address that is not allocated.
- HexCodec.BinaryToHex: more than 255 bytes are excluded, as the eight-bit counter would never reach them.
- EventText.ParseEvent: a missing or short token is a null dereference or a read past the token in the code; the model returns no result there. Allocation of the two copies is not modelled.
- LogFile.HpdLog.Log: the message comes formatted; the clock, formatting of fields and write errors other than a missing file are left out. Messages are single lines of bytes, and the size is compared without overflow.
- `zigbee.c` frames and `vps2addr.c` are fixed layouts and a small table; superseded copies of daemon files, examples, phidget code and scripts are not modelled.
