# Verification model of the MQTT-SN gateway

A Dafny model of the parts of the Paho MQTT-SN gateway whose correctness is not visible from one function: the 2-3 tree,
topic matching and the topic registry, the LoRaLink frame parser, the event queue shared by several tasks, the path of a
PUBLISH to a sleeping client, the aggregator's message id table, and the packet codecs.

Code that changes objects in place is modelled by classes and methods. Each method is tied to a function on plain values
(sequences, maps, records), and the main results are lemmas about those functions over all inputs or over all runs.

| module | models |
|---|---|
| `SortedItems`, `Tree23` | the 2-3 tree: nodes in the heap, ten repairs, insertion, removal, search |
| `TopicMatch` | the gateway's and the client library's topic matchers, and the wildcard rules of MQTT 3.1.1, section 4.7.1 |
| `TopicRegistry` | a client's topics: linked list, topic id counter, lookups, erasure of normal topics |
| `Sequences`, `LinkedList`, `TopicIdMap`, `MessageIdTable` | the doubly linked message tables: open requests of a client, packet ids of the aggregator |
| `LoRaLink` | the byte-stuffed serial frames, their resumable parser and their writer |
| `Que`, `EventQueue` | the bounded queue, and the mutex and semaphore protocol on top of it |
| `SleepPath`, `ClientRuns` | packet event queue, sleep queue, REGACK list and send queue of one client: handlers, status, and what runs keep |
| `ClientLaws` | what each event sends to the broker and to the client, where a PUBLISH ends up, and the status, counted over runs |
| `WakeUp`, `WakeOrder` | what a sleeping client gets when it wakes, and in which order |
| `RegackList`, `ClientPath` | the same client as an object over linked lists, method by method |
| `Translation` | a client's PUBLISH to the broker and back |
| `Bytes`, `MqttPacket`, `SnPacket`, `SnWriter` | MQTT and MQTT-SN packets as bytes |
| `ByteLevel` | handlers and codecs together: from the broker's stream to the client's datagram, and there and back |

Results that are not what one might expect:

- The gateway's matcher does not match a parent level against a filter that ends in `+/#` (`TopicMatch.ParentUnderPlusDiffers`);
  that is the only difference from the standard's rules for well-formed filters (`TopicMatch.GatewayMatchIsMatches`).
- START does not clear a pending escape in the LoRaLink parser, so the frame after an interrupted escape is lost
  (`LoRaLink.PendingEscapeLosesFrame`).
- Stored order survives a wake-up exactly when no packet is sent at once behind one that must wait for a REGACK
  (`WakeOrder.WakeCompletes`, by topics `WakeOrder.InOrderByTopics`); two stored packets on one topic without an id change places
  (`WakeOrder.SecondOvertakesFirst`).
- Packets that come in between a PINGREQ and its handling are handled before the older stored ones; the order of arrival is kept
  exactly when there are none (`WakeOrder.StoredBehindLater`).
- A REGACK that never comes leaves its PUBLISH waiting, across clean sessions too; when the eight-bit counter comes round, the REGACK
  of a newer REGISTER sends the old packet (`ClientRuns.StaleSentFirst`). A new PUBLISH goes out with the first REGACK for its message
  id exactly when none waits under it, else behind those that do (`ClientRuns.RegisterThenPublish`; for a wake-up
  `WakeOrder.WakeAnswers`).
- A clean CONNECT erases the topics of packets that still wait, and is the only step that does (`ClientRuns.KnownStep`).
- A PUBLISH gets from the broker's stream to the client unchanged exactly with a payload of at most 1015 bytes other than 248
  (`ByteLevel.BrokerToClient`), and so does one from the client and back (`ByteLevel.ThereAndBackInBytes`).
- The PINGREQ that a wake-up holds goes to the broker exactly when the eight-bit count of waiting packets passes 0
  (`WakeOrder.WakePing`; when none waits from before, exactly when some packet had to wait), over any run exactly when a REGACK
  leaves that count at 0 (`ClientRuns.HeldPingreq`): after a wake-up in which every topic is known it stays held.
- A PUBLISH of QoS 0 to 2 with message id 0 on an unknown topic id reaches the broker with the empty topic
  (`Translation.NamelessPublish`); of those on unknown ids no other reaches it (`Translation.BrokerGetsNames`).
- Packet ids of the aggregator collide exactly after a whole number of periods of 65534 ids (`MessageIdTable.SameIdIff`).
- `TopicIdMap::erase` decrements its count even when the message id is not there; no caller does that
  (`TopicIdMap.TopicIdMap.Erase`).
- MQTT-SN packets with a body of 254 bytes are written with a length that is two short (`SnPacket.RoundTrip`), and into a buffer
  of 255 or 256 bytes past its end, as nothing else is (`SnWriter.OverrunIff`); a message id set in a long REGISTER overwrites its
  topic id (`SnPacket.LongRegisterPatch`).

`dafny verify dfyconfig.toml` checks the whole project.

## Model

| member | source | states |
|---|---|---|
| `Tree23.Tree23.Add` | MQTTSNGateway/src/MQTTSNGWProcess.h:379-445 | the map becomes the old one with the key updated; the tree stays sorted with all leaves at one depth, grows by at most one level, and no active node is left |
| `Tree23.Tree23.Remove` | MQTTSNGateway/src/MQTTSNGWProcess.h:447-531 | the map becomes the old one without the key, present or not, in a leaf or an inner node; balance, order and node kinds as for insertion |
| `Tree23.Tree23.Find` | MQTTSNGateway/src/MQTTSNGWProcess.h:533-582 | the answer is membership in the map, within log2(n + 1) iterations |
| `Tree23.Tree23.GetVal` | MQTTSNGateway/src/MQTTSNGWProcess.h:584-635 | the answer is the stored value or none, within log2(n + 1) iterations |
| `Tree23.AddTo` | MQTTSNGateway/src/MQTTSNGWProcess.h:385-445 | the recursive insertion gives a balanced tree of the same height or one active node over two such trees, with the items of the sorted insertion |
| `Tree23.AddMidle3` | MQTTSNGateway/src/MQTTSNGWProcess.h:688-700 | an active middle child of a 3-node becomes an active node over two nodes, items and order kept |
| `Tree23.RemoveFrom` | MQTTSNGateway/src/MQTTSNGWProcess.h:456-531 | the recursive removal gives a balanced tree of the same height or one delete-active node over a tree one level lower, without the key |
| `Tree23.RemoveMax` | MQTTSNGateway/src/MQTTSNGWProcess.h:702-734 | takes exactly the last item out of a subtree and leaves a shrunk or balanced one |
| `Tree23.RemoveLeft2` | MQTTSNGateway/src/MQTTSNGWProcess.h:736-764 | a delete-active left child of a 2-node is absorbed: balance and items kept, at most one level lost |
| `Tree23.RemoveRight2` | MQTTSNGateway/src/MQTTSNGWProcess.h:766-794 | the same for the right child |
| `Tree23.RemoveLeft3` | MQTTSNGateway/src/MQTTSNGWProcess.h:796-825 | the same under a 3-node, where no level is lost |
| `Tree23.RemoveMidle3` | MQTTSNGateway/src/MQTTSNGWProcess.h:827-855 | the same for the middle child |
| `Tree23.RemoveRight3` | MQTTSNGateway/src/MQTTSNGWProcess.h:857-885 | the same for the right child of a 3-node |
| `Tree23.DepthBoundsSize` | MQTTSNGateway/src/MQTTSNGWProcess.h:379-885 | a tree of h levels holds at least 2^h - 1 keys |
| `Tree23.NoActiveNode` | MQTTSNGateway/src/MQTTSNGWProcess.h:379-531 | a balanced tree reaches no INSERT_ACTIVE and no DELETE_ACTIVE node |
| `SortedItems.PutIsUpdate` | MQTTSNGateway/src/MQTTSNGWProcess.h:385-445 | sorted insertion is the update of the stored map |
| `SortedItems.DropIsRemoval` | MQTTSNGateway/src/MQTTSNGWProcess.h:456-531 | sorted removal is the removal of the key from the stored map |
| `TopicMatch.IsMatch` | MQTTSNGateway/src/MQTTSNGWTopic.cpp:75-165 | for all strings the loop ends and decides the level-by-level match of the two strings split at '/' |
| `TopicMatch.SplitJoins` | MQTTSNGateway/src/MQTTSNGWTopic.cpp:75-110 | the levels joined by '/' are the string again, and none holds one |
| `TopicMatch.GatewayMatchIsMatches` | MQTTSNGateway/src/MQTTSNGWTopic.cpp:75-165 | for well-formed filters: a match under section 4.7.1 of MQTT 3.1.1, except exactly the parent level under "+/#" |
| `TopicMatch.ParentUnderPlusDiffers` | MQTTSNGateway/src/MQTTSNGWTopic.cpp:147-157 | "+/#" does not match "finance", which the standard does |
| `TopicMatch.IsTopicMatched` | MQTTSNClient/src/MQTTSNClient.h:416-445 | for well-formed filters the character walk is the standard's match restricted to names with enough levels and no empty level under a wildcard; for all strings it ends |
| `TopicMatch.MatchersCompared` | MQTTSNClient/src/MQTTSNClient.h:416-445 | exactly when the two matchers agree, for every well-formed filter and every name |
| `TopicRegistry.EveryRegistry` | MQTTSNGateway/src/MQTTSNGWTopic.cpp:226-362 | after every sequence of additions and erasures: distinct names, at most 50 topics, normal ids a contiguous run of the counter; every topic is found by its name and every normal topic by its id |
| `TopicRegistry.LookupsInverse` | MQTTSNGateway/src/MQTTSNGWTopic.cpp:193-223 | lookup by name and lookup by id are inverse on normal topics |
| `TopicRegistry.IdRunClosedForm` | MQTTSNGateway/src/MQTTSNGWTopic.cpp:308-311 | the id k places after another is determined modulo 65534, across the wrap |
| `TopicRegistry.IdRunDistinct` | MQTTSNGateway/src/MQTTSNGWTopic.cpp:308-311 | ids of a run no longer than the period are distinct |
| `TopicRegistry.AddedRegular` | MQTTSNGateway/src/MQTTSNGWTopic.cpp:243-306 | adding a topic keeps the registry's invariant, at the bound and for a known name too |
| `TopicRegistry.Topics.Add` | MQTTSNGateway/src/MQTTSNGWTopic.cpp:243-306 | the list is extended by one topic with the next id, or the topic of that name is returned, or none when full |
| `TopicRegistry.Topics.GetTopicByName` | MQTTSNGateway/src/MQTTSNGWTopic.cpp:193-208 | the first topic of that name |
| `TopicRegistry.Topics.GetTopicById` | MQTTSNGateway/src/MQTTSNGWTopic.cpp:210-223 | the first topic of that type and id |
| `TopicRegistry.Topics.Match` | MQTTSNGateway/src/MQTTSNGWTopic.cpp:313-331 | the first topic whose name matches as a filter, or none if none does |
| `TopicRegistry.Topics.EraseNormal` | MQTTSNGateway/src/MQTTSNGWTopic.cpp:333-362 | exactly the topics that are not normal stay, in order, with a right count and intact links |
| `TopicRegistry.PredefinedAppend` | MQTTSNGateway/src/MQTTSNGWTopic.cpp:333-362 | what stays is decided topic by topic and keeps its order |
| `TopicRegistry.PredefinedOne` | MQTTSNGateway/src/MQTTSNGWTopic.cpp:333-362 | a topic is erased exactly when it is normal |
| `TopicIdMap.TableIsHistory` | MQTTSNGateway/src/MQTTSNGWTopic.cpp:459-549 | over every run the table holds, for each message id, exactly the latest unanswered recorded request, one entry each, at most 21 |
| `TopicIdMap.ReplyOverRun` | MQTTSNGateway/src/MQTTSNGWTopic.cpp:397-502 | after every run an acknowledgement is answered for the latest request with its message id that was taken and not answered, if there is one, and only once: with 0 for a normal topic whose name contains '#' or '+', otherwise with the topic id of that request; one is taken with at most 20 open and a topic id, or for a short topic |
| `TopicIdMap.TopicIdMap.Add` | MQTTSNGateway/src/MQTTSNGWTopic.cpp:473-502 | records a request behind all others, replacing one with its message id; refused when full or without a topic id |
| `TopicIdMap.TopicIdMap.Erase` | MQTTSNGateway/src/MQTTSNGWTopic.cpp:504-535 | unlinks the request with a message id; the count stays right exactly when there was one |
| `TopicIdMap.TopicIdMap.ClearAll` | MQTTSNGateway/src/MQTTSNGWTopic.cpp:537-549 | no request is left and the count is right again, whatever it was |
| `TopicIdMap.TopicIdMap.Acknowledge` | MQTTSNGateway/src/MQTTGWPublishHandler.cpp:199-217 | a PUBACK goes on only for an open request, with its topic id, or 0 for a wildcard filter, and closes it; SUBACK does the same |
| `LinkedList.Links.Unlink` | MQTTSNGateway/src/MQTTSNGWTopic.cpp:511-527 | unlinking any node keeps both chains and both ends |
| `LinkedList.Links.UnlinkFromHead` | MQTTSNGateway/src/MQTTSNGWMessageIdTable.cpp:142-179 | the same for the other arrangement of the branches |
| `MessageIdTable.AnswerIsRouted` | MQTTSNGateway/src/MQTTGWSubscribeHandler.cpp:75-97 | in every run that issues at most 65534 ids while an answer is due, the answer reaches the client that sent the request, with its own message id |
| `MessageIdTable.RoutedIsDue` | MQTTSNGateway/src/MQTTGWSubscribeHandler.cpp:75-97 | every routed answer belongs to exactly one request, which gets no second one |
| `MessageIdTable.RepeatIsDue` | MQTTSNGateway/src/MQTTSNGWSubscribeHandler.cpp:206-275 | a duplicate request goes out under the packet id it was first given, while its answer is due |
| `MessageIdTable.TableIsAlwaysDue` | MQTTSNGateway/src/MQTTSNGWMessageIdTable.cpp:48-190 | over such runs the table holds exactly the requests whose answer is due, with distinct packet ids, at most one per client and message id, at most 501 |
| `MessageIdTable.AcceptedIff` | MQTTSNGateway/src/MQTTSNGWMessageIdTable.cpp:48-88 | over such runs a request is forwarded if and only if at most 500 answers are due and none for the same client and message id |
| `MessageIdTable.IdsInOrder` | MQTTSNGateway/src/MQTTSNGWClient.cpp:336-344 | packet ids go from 1 to 65534 and start again |
| `MessageIdTable.HurriedClash` | MQTTSNGateway/src/MQTTSNGWClient.cpp:336-344 | the bound is tight: with 65534 further ids two clients hold the same packet id |
| `MessageIdTable.SameIdIff` | MQTTSNGateway/src/MQTTSNGWClient.cpp:336-344 | two requests are given the same packet id if and only if the number of ids issued between them is a multiple of 65534 |
| `MessageIdTable.MessageIdTable.Add` | MQTTSNGateway/src/MQTTSNGWMessageIdTable.cpp:48-88 | a new entry under the next packet id, none when the table is full or knows the request; no id is used up then |
| `MessageIdTable.MessageIdTable.GetClientMsgId` | MQTTSNGateway/src/MQTTSNGWMessageIdTable.cpp:118-132 | returns and removes exactly the first entry with a packet id |
| `MessageIdTable.MessageIdTable.Erase` | MQTTSNGateway/src/MQTTSNGWMessageIdTable.cpp:134-140 | removes exactly the first entry with a packet id, if any |
| `MessageIdTable.MessageIdTable.TranslateRequest` | MQTTSNGateway/src/MQTTSNGWSubscribeHandler.cpp:206-240 | the packet id of an aggregated request: a new one, that of the first sending for a duplicate, or 0 when it is not sent |
| `LoRaLink.FramesReceived` | MQTTSNGateway/src/linux/loralink/SensorNetwork.cpp:281-382 | from every parser state without a pending escape, every sequence of stuffed frames is received as sent, wherever receives time out; error exactly for a wrong checksum |
| `LoRaLink.ReceivedIffNoEscape` | MQTTSNGateway/src/linux/loralink/SensorNetwork.cpp:286-312 | a frame is received if and only if no escape was pending before its START |
| `LoRaLink.PendingEscapeLosesFrame` | MQTTSNGateway/src/linux/loralink/SensorNetwork.cpp:286-312 | with a pending escape no frame is delivered, for every frame and every placement of timeouts |
| `LoRaLink.FrameReader.ReadApiFrame` | MQTTSNGateway/src/linux/loralink/SensorNetwork.cpp:281-382 | one call takes the parser state to the one the byte-wise function gives, and leaves the rest of the input |
| `LoRaLink.StuffingInverts` | MQTTSNGateway/src/linux/loralink/SensorNetwork.cpp:435-443 | unstuffing undoes stuffing, and no START, XON or XOFF byte goes out inside a frame |
| `LoRaLink.BodyLayout` | MQTTSNGateway/src/linux/loralink/SensorNetwork.cpp:314-382 | a received frame by position: length, address, signal strength, noise, payload type, payload, and the last byte, which is right exactly when the sum is 0xff |
| `LoRaLink.LineCodes` | MQTTSNGateway/src/linux/loralink/SensorNetwork.cpp:435-443 | the four bytes with a meaning on the line and the pairs they go out as |
| `LoRaLink.FrameOpens` | MQTTSNGateway/src/linux/loralink/SensorNetwork.cpp:286-300 | START begins a frame in every parser state, holds none until its end, and touches nothing else, the escape flag included |
| `LoRaLink.FrameWriter.Send` | MQTTSNGateway/src/linux/loralink/SensorNetwork.cpp:384-420 | what goes out is START, which occurs nowhere else, and a frame that unstuffed reads: a length that counts the bytes behind it, address, payload type, payload, and a byte that brings the sum to 0xff |
| `LoRaLink.FrameWriter.Unicast` | MQTTSNGateway/src/linux/loralink/SensorNetwork.cpp:230-232 | the payload is cut to its length modulo 256 |
| `LoRaLink.FrameWriter.Broadcast` | MQTTSNGateway/src/linux/loralink/SensorNetwork.cpp:224-228 | the same, to the broadcast address |
| `Que.Que.Post` | MQTTSNGateway/src/MQTTSNGWProcess.h:210-239 | appends unless full, and returns the new size or 0 |
| `Que.Que.Pop` | MQTTSNGateway/src/MQTTSNGWProcess.h:177-194 | drops the front element; the forward chain stays intact |
| `EventQueue.EveryInterleaving` | MQTTSNGateway/src/MQTTSNGateway.cpp:455-511 | for any number of producers and any interleaving: the queue is no longer than the semaphore count plus the posts and takes in progress; consumed followed by queued events are the accepted ones in order; the bound holds |
| `EventQueue.EnqueueStep` | MQTTSNGateway/src/MQTTSNGateway.cpp:497-511 | a producer with the mutex gets its event to the end of the queue if and only if there is no bound or room below it; otherwise it is refused |
| `EventQueue.AcceptedOverRun` | MQTTSNGateway/src/MQTTSNGWProcess.h:210-239 | over every interleaving the accepted and the refused events are exactly those that found room and those that did not, in order; with no bound none is refused |
| `EventQueue.EveryPost` | MQTTSNGateway/src/MQTTSNGateway.cpp:455-511 | from the start the events posted are those consumed, queued, refused, or still in the hands of a producer |
| `EventQueue.TakeStep` | MQTTSNGateway/src/MQTTSNGateway.cpp:473-495 | the consumer takes the front event, and none only from an empty queue, where a timed call returns a timeout and the other waits again |
| `EventQueue.CheckStep` | MQTTSNGateway/src/MQTTSNGateway.cpp:455-484 | the consumer sleeps on the semaphore exactly when it saw an empty queue, and a token wakes it |
| `EventQueue.TimedStep` | MQTTSNGateway/src/MQTTSNGateway.cpp:455-495 | a call stays a timed one, or not, until it returns, and only a timed one gives up its wait |
| `EventQueue.NoLostWakeup` | MQTTSNGateway/src/MQTTSNGateway.cpp:455-471 | a consumer asleep while an event waits is about to be woken by that event's producer |
| `EventQueue.Delivery` | MQTTSNGateway/src/MQTTSNGateway.cpp:455-511 | from every reachable state with a waiting event there is a schedule of at most eight steps, none of which anything can block, that hands the front event to the consumer |
| `EventQueue.FrontArrives` | MQTTSNGateway/src/MQTTSNGateway.cpp:455-511 | whatever other tasks do in between, the front event has been handed to the waiting consumer once consumer and mutex holders have made more than Distance steps and three for each time a producer got the mutex |
| `SleepPath.EveryRun` | MQTTSNGateway/src/MQTTSNGWPacketHandleTask.cpp:97-181 | over every run, with topics coming in by SUBSCRIBE, REGISTER and predefined PUBLISH, each offered PUBLISH is in exactly one place: event queue, sleep queue, REGACK list, send queue or discard ledger; the sleep queue never exceeds 20 |
| `SleepPath.PublishHeld` | MQTTSNGateway/src/MQTTGWPublishHandler.cpp:38-188 | every branch of the PUBLISH handler puts the message in exactly one place |
| `ClientLaws.PublishPlaced` | MQTTSNGateway/src/MQTTGWPublishHandler.cpp:38-188 | exactly when a PUBLISH is put in the sleep queue, on the REGACK list with a new topic, or thrown away |
| `ClientLaws.AcksOverRun` | MQTTSNGateway/src/MQTTGWPublishHandler.cpp:56-63 | over every run the broker gets one PUBACK for each PUBLISH of QoS 1, and one PUBREC for each of QoS 2, that came while the client slept or is not asked for in a clean session, under its message id, and no other |
| `ClientLaws.BrokerLedger` | MQTTSNGateway/src/MQTTSNGWConnectionHandler.cpp:69-312 | over every run exactly which steps send PUBACK, PUBREC, PINGREQ, CONNECT and DISCONNECT to the broker; DISCONNECT exactly for one of the client without a duration |
| `ClientLaws.ClientLedger` | MQTTSNGateway/src/MQTTSNGWConnectionHandler.cpp:69-312 | over every run exactly which steps send PUBLISH, REGISTER, CONNACK, WILLTOPICREQ, PINGRESP and DISCONNECT to the client, and with which fields |
| `ClientLaws.EventOffered` | MQTTSNGateway/src/MQTTSNGateway.cpp:497-511 | an event stands behind the others exactly when there is no bound or room; a PUBLISH without room is lost |
| `ClientLaws.TopicComes` | MQTTSNGateway/src/MQTTSNGWTopic.cpp:243-306 | a topic the client brings is added under its id, or under the next one, exactly when its name is new and there are fewer than 50 |
| `ClientLaws.StatusStep` | MQTTSNGateway/src/MQTTSNGWClient.cpp:225-284 | the status behind every event |
| `ClientLaws.ActiveOverRun` | MQTTSNGateway/src/MQTTSNGWClient.cpp:225-284 | over every run a client becomes active only by a CONNECT out of its sleep or another task, and stays so until a CONNECT, a DISCONNECT of either side, or another task |
| `WakeUp.StoredInOrder` | MQTTSNGateway/src/MQTTSNGWConnectionHandler.cpp:299-312 | draining ends with an empty sleep queue; what the event queue takes goes there in stored order, the rest is discarded |
| `WakeUp.FatesMet` | MQTTSNGateway/src/MQTTGWPublishHandler.cpp:80-186 | any packets handled one after the other: which are sent at once, which wait for a REGACK, which are refused or lost, with topic ids, acknowledgements and discards, by the topics at the start and the names registered on the way |
| `WakeUp.RegistersSent` | MQTTSNGateway/src/MQTTGWPublishHandler.cpp:133-166 | exactly one REGISTER goes out for each packet put on the REGACK list, with its message id and the id and name of the topic added for it |
| `WakeUp.WakeDelivers` | MQTTSNGateway/src/MQTTSNGWConnectionHandler.cpp:280-312 | a PINGREQ of a sleeping client, on any stored packets: those in the event queue and then the stored ones, as far as the queue takes them, meet these fates, and those on topics without an id are announced |
| `ClientLaws.ConnectHandled` | MQTTSNGateway/src/MQTTSNGWConnectionHandler.cpp:77-88 | the state after the CONNECT of a sleeping or awake client: active, CONNACK sent, everything stored in the event queue as far as that takes it, nothing else changed |
| `ClientLaws.ConnectDelivers` | MQTTSNGateway/src/MQTTSNGWConnectionHandler.cpp:77-88 | such a CONNECT delivers what is stored as a PINGREQ does |
| `ClientLaws.ConnectAnew` | MQTTSNGateway/src/MQTTSNGWConnectionHandler.cpp:90-156 | the state after the CONNECT of any other client: clean flag of the packet, normal topics erased exactly for a clean session, WILLTOPICREQ exactly with a will, otherwise CONNECT to the broker |
| `ClientLaws.CleanOverRun` | MQTTSNGateway/src/MQTTSNGWConnectionHandler.cpp:117-132 | over every run nothing but such a CONNECT changes whether the session is clean |
| `WakeOrder.FateAt` | MQTTSNGateway/src/MQTTGWPublishHandler.cpp:92-166 | the fate of a packet depends on the topics at the start and the names of the packets before it that wait, and on nothing else |
| `WakeOrder.AtOnceIff` | MQTTSNGateway/src/MQTTGWPublishHandler.cpp:86-104 | a packet is sent at once if and only if its topic is short or known, or one before it waits on the same topic |
| `WakeOrder.InOrderIff` | MQTTSNGateway/src/MQTTGWPublishHandler.cpp:92-166 | packets get to the client in their own order if and only if none is sent at once behind one that must wait |
| `WakeOrder.InOrderByTopics` | MQTTSNGateway/src/MQTTGWPublishHandler.cpp:92-166 | the same by the topics: behind one that waits, none on a short, a known or the same topic |
| `WakeOrder.KnownTopics` | MQTTSNGateway/src/MQTTGWPublishHandler.cpp:86-104 | with an id for every topic all packets are sent at once and in order |
| `WakeOrder.SameTopicOvertakes` | MQTTSNGateway/src/MQTTGWPublishHandler.cpp:92-166 | a further packet on the topic of one that waits is always sent before it |
| `WakeOrder.SecondOvertakesFirst` | MQTTSNGateway/src/MQTTGWPublishHandler.cpp:133-166 | the input where order is lost: of two stored packets on one subscribed topic without an id the second is sent with the id the first still registers |
| `WakeOrder.WakeAnswers` | MQTTSNGateway/src/MQTTSNGWPublishHandler.cpp:226-261 | what each REGACK of a wake-up sends, whatever waits from before: the oldest packet that waits under its message id, or its own if there is none; what is left waiting under every id; all send their own if and only if the next message ids are free |
| `WakeOrder.WakeCompletes` | MQTTSNGateway/src/MQTTSNGWPublishHandler.cpp:226-261 | with the next message ids free, after the REGACKs for what waits every packet that is not lost has reached the client, in an order that is the stored one if and only if none overtakes |
| `WakeOrder.WakePing` | MQTTSNGateway/src/MQTTSNGWPublishHandler.cpp:250-260 | in a wake-up the held PINGREQ goes to the broker if and only if its REGACKs take the eight-bit count through 0; when none waits from before, if and only if some packet had to wait |
| `WakeOrder.IdsSince` | MQTTSNGateway/src/MQTTSNGWClient.cpp:346-354 | the packets that a wake-up makes wait, at most 50, get the next eight-bit message ids one after the other, past 255 to 1, all different |
| `WakeOrder.StoredBehindLater` | MQTTSNGateway/src/MQTTSNGWConnectionHandler.cpp:299-312 | packets are handled in the order of their arrival if and only if no PUBLISH stands behind the PINGREQ, whatever else is in the event queue |
| `WakeOrder.SleepCycle` | MQTTSNGateway/src/MQTTGWPublishHandler.cpp:38-76 | DISCONNECT with a duration, up to 20 publishes on any topics, PINGREQ: acknowledgements to the broker as they arrive, then each packet that the event queue takes meets its fate |
| `ClientRuns.RegisterThenPublish` | MQTTSNGateway/src/MQTTSNGWPublishHandler.cpp:226-261 | over any run, each REGACK with the message id of a REGISTER sends one packet: first those that waited under that id before, oldest first, then the PUBLISH of that REGISTER; so the first one sends it exactly when none waited |
| `ClientRuns.StaleSentFirst` | MQTTSNGateway/src/MQTTSNGWPublishHandler.cpp:226-261 | the failing input: one stale packet under the id that the counter gives next is sent in place of the new one, which is left waiting |
| `ClientRuns.RegisterFirst` | MQTTSNGateway/src/MQTTGWPublishHandler.cpp:133-166 | the REGISTER goes out at once, its PUBLISH waits with the same topic id, and the topic resolves to that id |
| `ClientRuns.SameIdQueue` | MQTTSNGateway/src/MQTTSNGWPublishHandler.cpp:226-261 | over any run the packets that wait under one message id are a queue: a REGACK takes the oldest, nothing else takes any |
| `ClientRuns.KnownStep` | MQTTSNGateway/src/MQTTSNGWConnectionHandler.cpp:117-132 | while the id of every waiting packet is that of a registered topic, exactly a clean CONNECT of a client that is not asleep, with packets waiting, ends this; then none has a topic |
| `ClientRuns.KnownOverRun` | MQTTSNGateway/src/MQTTGWPublishHandler.cpp:133-166 | over any run without that step the id of every waiting packet is registered |
| `ClientRuns.PingStep` | MQTTSNGateway/src/MQTTSNGWConnectionHandler.cpp:280-297 | exactly which steps send a PINGREQ to the broker and after which one is held |
| `ClientRuns.HeldPingreq` | MQTTSNGateway/src/MQTTSNGWPublishHandler.cpp:250-260 | over any run without another PINGREQ, a held one is sent once if some REGACK leaves the eight-bit count at 0, and is still held if none does |
| `ClientRuns.AsleepUntil` | MQTTSNGateway/src/MQTTSNGWClient.cpp:225-284 | a client stops being asleep exactly by its CONNECT, PINGREQ or DISCONNECT, a DISCONNECT of the broker, or another task |
| `ClientRuns.AsleepFrom` | MQTTSNGateway/src/MQTTSNGWClient.cpp:225-284 | a client falls asleep exactly by a DISCONNECT with a duration, the PINGRESP after a wake-up, or another task |
| `ClientRuns.AsleepOverRun` | MQTTSNGateway/src/MQTTGWPublishHandler.cpp:38-76 | over any run in which the sleep does not end no PUBLISH is sent to the client and no stored one is lost or moved |
| `SleepPath.StepRegular` | MQTTSNGateway/src/MQTTGWPublishHandler.cpp:106-166 | no event breaks the invariant of the topic registry, those by which the client adds topics included |
| `ClientPath.ClientPath.OnPublish` | MQTTSNGateway/src/MQTTGWPublishHandler.cpp:38-188 | the linked queues, wait list and topics after a broker PUBLISH, as `ClientLaws.PublishPlaced` and the two ledgers spell it out |
| `ClientPath.ClientPath.OnRegack` | MQTTSNGateway/src/MQTTSNGWPublishHandler.cpp:226-261 | the first waiting packet with the message id goes to the client; a held PINGREQ goes out when the eight-bit count is zero |
| `RegackList.RegackList.SetPacket` | MQTTSNGateway/src/MQTTSNGWClient.cpp:622-644 | appends to the linked list; its count is the length modulo 256 |
| `RegackList.RegackList.GetPacket` | MQTTSNGateway/src/MQTTSNGWClient.cpp:646-658 | the first packet with the message id, or none |
| `RegackList.RegackList.Erase` | MQTTSNGateway/src/MQTTSNGWClient.cpp:660-689 | unlinks exactly the first packet with the message id, if any; links and count stay right |
| `ClientPath.ClientPath.SendStoredPublish` | MQTTSNGateway/src/MQTTSNGWConnectionHandler.cpp:299-312 | the pop-and-post loop over the two linked queues ends and does what `WakeUp.StoredInOrder` describes |
| `ClientPath.ClientPath.OnConnect` | MQTTSNGateway/src/MQTTSNGWConnectionHandler.cpp:69-156 | the linked structures after a CONNECT, as `ClientLaws.ConnectHandled` and `ClientLaws.ConnectAnew` spell it out |
| `ClientPath.ClientPath.OfferEvent` | MQTTSNGateway/src/MQTTSNGateway.cpp:497-511 | any task's event goes behind the others, or is lost when the queue is full: a step of the runs above |
| `ClientPath.ClientPath.HandleFront` | MQTTSNGateway/src/MQTTSNGWPacketHandleTask.cpp:97-181 | one turn of the packet task on the linked structures is one step of the runs above: handler first, then status |
| `Translation.ThereAndBack` | MQTTSNGateway/src/MQTTSNGWPublishHandler.cpp:62-145 | a client's PUBLISH comes back with dup, retain, payload, QoS (-1 as 0) and, at QoS 1 and 2, message id; with its topic reference exactly for short topics and names longer than two, unless the name of a gateway-wide topic is taken |
| `Translation.FoundByName` | MQTTSNGateway/src/MQTTSNGWPublishHandler.cpp:66-90 | a topic id that is found, of the client or gateway-wide, names a topic of the client afterwards, which has that id exactly when the name was not taken |
| `Translation.FoundIff` | MQTTSNGateway/src/MQTTSNGWPublishHandler.cpp:82-90 | an id is found if and only if a topic of the client has it, or a gateway-wide one and the client has fewer than 50; under the name of the first such topic |
| `Translation.LookupAdds` | MQTTSNGateway/src/MQTTSNGWPublishHandler.cpp:82-90 | the lookup adds the gateway-wide topic to the client's under its id, unless its name is taken; nothing else changes |
| `Translation.PublishAnswered` | MQTTSNGateway/src/MQTTSNGWPublishHandler.cpp:92-128 | exactly which PUBLISH gets a negative PUBACK, with its topic id and message id, which is dropped, and with which fields all others go to the broker |
| `Translation.BrokerGetsNames` | MQTTSNGateway/src/MQTTSNGWPublishHandler.cpp:62-128 | over every run of the registry: a PUBLISH on an unknown topic id gets to the broker, without a topic, if and only if it has message id 0 and QoS 0 to 2; one on a known id has a topic unless one came in under the empty name |
| `Translation.NamelessPublish` | MQTTSNGateway/src/MQTTSNGWPublishHandler.cpp:62-128 | such a PUBLISH does reach the broker, with the empty topic |
| `ByteLevel.ClientReadsIff` | MQTTSNGateway/src/MQTTSNGWPacket.cpp:215-223 | the client reads a PUBLISH from the gateway as it was meant if and only if the payload has at most 1015 bytes and not 248 |
| `ByteLevel.GatewayReadsIff` | MQTTSNGateway/src/MQTTSNGWPacket.cpp:95-105 | the gateway reads a client's PUBLISH as it was sent for the same payloads and no others |
| `ByteLevel.CarriedIsRead` | MQTTSNGateway/src/MQTTGWPacket.cpp:404-433 | the message id at QoS 0 is all that a PUBLISH loses on its way to the broker |
| `ByteLevel.BrokerToClient` | MQTTSNGateway/src/MQTTGWPublishHandler.cpp:38-188 | a PUBLISH is taken off the broker's stream with all fields exactly below 128^3 bytes; handled for an active client it is sent with those fields and its topic's id, and read by the client exactly for these payloads |
| `ByteLevel.ThereAndBackInBytes` | MQTTSNGateway/src/MQTTSNGWPublishHandler.cpp:62-145 | from the client's datagram to the broker's stream and back to a datagram: read whole by gateway, broker and client exactly for these payloads, with the fields of `Translation.ThereAndBack` |
| `MqttPacket.LengthReadBack` | MQTTSNGateway/src/MQTTGWPacket.cpp:40-54 | every remaining length is read back, whatever follows, if and only if it fits in the digits allowed |
| `MqttPacket.PrefixFree` | MQTTSNGateway/src/MQTTGWPacket.cpp:40-54 | no length code is the beginning of another |
| `MqttPacket.DigitsValue` | MQTTSNGateway/src/MQTTGWPacket.cpp:40-54 | the digits, least significant first, stand for the length, and exactly the last one has no continuation bit |
| `MqttPacket.StreamRecovered` | MQTTSNGateway/src/MQTTGWPacket.cpp:183-233 | packets written one behind the other are taken off the stream one by one |
| `MqttPacket.PublishRoundTrip` | MQTTSNGateway/src/MQTTGWPacket.cpp:404-433 | a PUBLISH comes off the stream with all its fields and the rest untouched below 128^3 bytes, and is refused with code -2 from there on |
| `MqttPacket.PublishBytes` | MQTTSNGateway/src/MQTTGWPacket.cpp:404-433 | every byte of a PUBLISH by its position and number |
| `MqttPacket.CutShort` | MQTTSNGateway/src/MQTTGWPacket.cpp:183-233 | every proper beginning of a packet is refused: with -1 while its length is incomplete, with -2 while its body is |
| `MqttPacket.EncodeLength` | MQTTSNGateway/src/MQTTGWPacket.cpp:40-54 | the loop writes the digits of the length and nothing else |
| `MqttPacket.MqttGwPacket.SetPublish` | MQTTSNGateway/src/MQTTGWPacket.cpp:404-433 | the object is the packet that the decoding function reads back |
| `MqttPacket.MqttGwPacket.Recv` | MQTTSNGateway/src/MQTTGWPacket.cpp:183-233 | the object holds the packet at the front of the stream, or the result is an error code |
| `MqttPacket.MqttGwPacket.GetPublish` | MQTTSNGateway/src/MQTTGWPacket.cpp:282-305 | the fields read are those of the decoding function |
| `MqttPacket.MqttGwPacket.GetPacketData` | MQTTSNGateway/src/MQTTGWPacket.cpp:473-481 | the buffer starts with the packet as it goes on the wire, the rest is unchanged |
| `SnPacket.RoundTrip` | MQTTSNPacket/src/MQTTSNDeserializePublish.c:36-225 | PUBLISH, REGISTER, REGACK, PUBACK, acknowledgements, SUBSCRIBE and SUBACK are read back as written if and only if the body does not have 254 bytes and the whole at most 65535 |
| `SnPacket.LengthIsWritten` | MQTTSNPacket/src/MQTTSNPacket.c:54-80 | the computed length is the number of bytes written exactly for bodies of other than 254 bytes |
| `SnPacket.UnframedFramed` | MQTTSNPacket/src/MQTTSNPacket.c:65-116 | a reader sees the body that was written, or when it does not fit a shorter one or none |
| `SnPacket.FrameBytes` | MQTTSNPacket/src/MQTTSNPacket.c:54-80 | the bytes of the length in front of every body |
| `SnPacket.PublishBytes` | MQTTSNPacket/src/MQTTSNSerializePublish.c:54-104 | every byte of a PUBLISH by its position and number |
| `SnPacket.SubscribeBytes` | MQTTSNPacket/src/MQTTSNSubscribeClient.c:51-94 | the same for SUBSCRIBE |
| `SnPacket.OtherBytes` | MQTTSNPacket/src/MQTTSNSerializePublish.c:106-253 | the same for REGISTER, REGACK, PUBACK, the acknowledgements and SUBACK |
| `SnPacket.PatchIsRewrite` | MQTTSNGateway/src/MQTTSNGWPacket.cpp:520-569 | setting a message id in an encoded packet gives the packet written with that id |
| `SnPacket.IndexByType` | MQTTSNGateway/src/MQTTSNGWPacket.cpp:520-569 | where the message id of each packet type is looked for, in both forms of the length, UNSUBSCRIBE and UNSUBACK included |
| `SnPacket.LongRegisterPatch` | MQTTSNGateway/src/MQTTSNGWPacket.cpp:520-569 | in a long REGISTER it gives the packet written with that topic id, which is the wanted one only if both ids are already that number |
| `SnPacket.SetMsgId` | MQTTSNGateway/src/MQTTSNGWPacket.cpp:520-569 | exactly the two bytes at the index for the packet type change |
| `SnWriter.SerializePublish` | MQTTSNPacket/src/MQTTSNSerializePublish.c:54-104 | a buffer that is too short is left alone, any other starts with the framed packet and keeps its rest |
| `SnWriter.SerializeRegister` | MQTTSNPacket/src/MQTTSNSerializePublish.c:226-253 | the same for REGISTER |
| `SnWriter.SerializeSubscribe` | MQTTSNPacket/src/MQTTSNSubscribeClient.c:51-94 | the same for SUBSCRIBE |
| `SnWriter.SerializeSuback` | MQTTSNPacket/src/MQTTSNSubscribeServer.c:88-117 | the same for SUBACK |
| `SnWriter.SerializeIdAck` | MQTTSNPacket/src/MQTTSNSerializePublish.c:106-130 | the same for PUBACK and REGACK |
| `SnWriter.SerializeAck` | MQTTSNPacket/src/MQTTSNSerializePublish.c:143-164 | the same for PUBREC, PUBREL and PUBCOMP |
| `SnWriter.OverrunIff` | MQTTSNPacket/src/MQTTSNSerializePublish.c:54-104 | more bytes are written than the buffer has exactly for a body of 254 bytes in a buffer of 255 or 256 |
| `SnWriter.WrittenIsRead` | MQTTSNPacket/src/MQTTSNSerializePublish.c:54-290 | what a writer puts in a buffer is read back as the same packet exactly when its length could be written |
| `SnWriter.DeserializePublish` | MQTTSNPacket/src/MQTTSNDeserializePublish.c:36-86 | the moving-pointer reader gives what the parsing function gives |

## Left out

- LoRaLink.FrameReader.ReadApiFrame: a payload byte beyond index 255 is dropped, because the source writes it past the end of its buffer.
- LoRaLink.FrameWriter.Send: takes at most 255 payload bytes; with more the eight-bit loop counter of the source never reaches the length. The wait for the modem's answer is I/O.
- SnWriter.SerializePublish: where the source writes past the end of the buffer (SnWriter.OverrunIff) the memory behind it is part of the model's array, so what it overwrites there is not said; the same holds for REGISTER and SUBSCRIBE.
- SnWriter.DeserializePublish: a length of up to three bytes more than the buffer holds is refused; the source compares the buffer with the length without its own one or three bytes, so it accepts these and reads behind the buffer. It also reads on behind a body too short for its fields.
- ByteLevel.ClientReadsIff: a PUBLISH that does not fit in the buffer of setPUBLISH gives no datagram; the source takes the error code for a length and copies that much memory. A topic name of the broker has at least two characters.
- SnPacket.RoundTrip: readers of bodies too short for their fields give no packet, where the source reads on behind the body; the readers other than that of PUBLISH are modelled on values, without the moving pointer.
- SnPacket.SetMsgId: asks for a buffer that reaches to the message id, where the source writes behind a truncated packet.
- MqttPacket.MqttGwPacket.GetPublish: a packet shorter than its own topic length gives none, where the source computes a negative payload length.
- SleepPath.EveryRun: of SUBSCRIBE, REGISTER and a client's PUBLISH only what they do to the topics is an event, not their replies; handlers are atomic; a task that posts while the sleep queue is being drained is ordered before or after the drain. The send queue is a history: taking packets from it is I/O.
- WakeUp.FatesMet: as for ClientPath.ClientPath.OnPublish below, the branch for sessions that are not clean registers the topic name as it is meant; so do all results of WakeUp and WakeOrder that rest on it.
- ClientRuns.RegisterFirst: the same.
- ClientRuns.RegisterThenPublish: the same.
- ClientLaws.PublishPlaced: the same.
- ClientLaws.ClientLedger: the same.
- ClientPath.ClientPath.OnPublish: topic ids are a datatype and not a union, so the branch for sessions that are not clean registers the topic name as it is meant; in the source the assignment of id 0 before it overwrites part of the name's pointer. A short topic of fewer than two characters keeps its length.
- TopicMatch.GatewayMatchIsMatches: the rule of section 4.7.2 about names that begin with '$' is not implemented by either matcher and not part of the statement.
- TopicRegistry.EveryRegistry: predefined ids come from configuration and need not be distinct; nothing is claimed about lookups by predefined id beyond the first match.
- TopicIdMap.TopicIdMap.Add: the wildcard test looks at the whole topic name; the source searches up to a NUL byte, which a name of given length need not have.
- EventQueue.FrontArrives: producers that keep taking the mutex put the event off, as nothing in the source makes the mutex fair.
- MessageIdTable.AnswerIsRouted: for SUBSCRIBE and UNSUBSCRIBE; setting a message id in an MQTT PUBLISH writes over its topic and is not part of this model.
- EventQueue.EveryInterleaving: an unlocked read of the size is one step that sees the count before or after a post, and timeouts may come at any time.
- Memory management, allocation failure and the use of freed nodes; the source's three doubly linked lists share one model.
- The shared-memory ring buffer of the log, the aggregator's topic tables, forwarders, the will handshake and aggregated QoS 2: their lists or claims do not hold as written.
- Sockets, TLS, serial ports, clocks, configuration, logging and packet printing: I/O.
- The codecs of CONNECT, will, search and ping packets: they would add easy members only.
