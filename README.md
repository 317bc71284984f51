# snom-messaging in Dafny

A model of the store-and-forward text-message gateway for Snom DECT base stations. The base stations
send XML documents over UDP. Each datagram may hold several documents separated by NUL characters.

The gateway hands every document to a chain of drivers, in registration order, until one of them
claims it:

- **The message store** (`MessageSystem`, module `MessageStore`):
  - queues every inbound text message (a `request` of type `job`) and acknowledges it;
  - forwards queued messages to their recipients and re-sends them every 60 seconds;
  - drops a message when a delivery report (a `response` of type `job` with status 1) names its
    internal id, or when it is older than seven days.
- **The roaming monitor** (`RoamingMonitor`, module `Roaming`): records on which base station each
  handset was last seen.
- **The consumer** (`ConsumerDriver`, module `Consumer`): claims the system-information, login and
  alarm requests no one else uses.

The modules:

- `Frames`: a decoded document (`Frame`), addresses, and how a driver call ends (`DriverResult`:
  returned a boolean, or raised).
- `Codec`:
  - literal `str.replace`, and the document skeletons it fills;
  - ten-digit zero padding (`"{:010}".format`) and `int()` on the text of an element.
- `Skeletons`: the literal text of the two document templates.
- `Messages`: `Message.__init__`, the acknowledgment `get_messageresponse` and the forwarding
  request `get_message`.
- `Udp`: `UdpServer` with its last origin, its driver list and the datagrams it hands to the
  transport (`sent`, a log of `sendto`); `send_dgram`'s address rule; the NUL split.
- `MessageStore`: the status table, `process`, and one tick of `process_outbox`.
- `Roaming`: the location table, `get_addr` and `process`.
- `Consumer`: `ConsumerDriver.process`.
- `Dispatch`: `datagram_received` (split, parse, the driver chain), driver registration, and `main`'s
  setup.

Each stateful operation is a method on the class the source has, with these exceptions, all for
one reason: the type of the registered drivers is defined in `Dispatch`, after the driver classes.
- `datagram_received` is `Dispatch.DatagramReceived`, which takes the server as a parameter.
- The constructors `MessageSystem.__init__`, `RoamingMonitor.__init__` and `ConsumerDriver.__init__`
  register the new driver with the server. In the model the class constructors only set the fields,
  and the registration is done by `Dispatch.NewMessageSystem`, `Dispatch.NewRoamingMonitor` and
  `Dispatch.NewConsumerDriver`, which construct the driver and then register it.

Each method is proved against
a pure function of the old state:
- `StoreProcess`, `Retried`, `RetryDocs` and `Purged` for the message store;
- `RoamingProcess` for the roaming monitor;
- `ChainLength`, `AfterChain`, `ChainAcks`, `Parsed` and `RunFrames` for the dispatcher.

The lemmas state the source's promises about those functions.

## Model

| member | source | states |
|---|---|---|
| Messages.NewMessage | messagesystem.py:14-35 | A message exists exactly when all eight looked-up elements exist. It is created at `now`, never sent (`lastSendTry` 0), carries the drawn internal id, and copies each field from its element. |
| Messages.InternalIdTextDigits | messagesystem.py:127 | The `externalid` of a forwarded message is exactly ten decimal digits, holds no `{`, and `int()` of it gives back the internal id. |
| Codec.TenDigitRoundTrip | messagesystem.py:209 | For every id below 10^10, zero padding to ten digits gives ten digits, and parsing them gives the id back. |
| Messages.AckShape | messagesystem.py:47-86 | When no field holds a `{`, the acknowledgment is the template with the fields in their slots: sender and recipient swapped, the sender's `externalid`, date and timestamp echoed, an empty body. |
| Messages.RequestShape | messagesystem.py:88-135 | When no field holds a `{`, the forwarding request is the template with its slots filled: the ten-digit internal id, date, timestamp, body, sender name/number/location, and recipient. |
| Messages.AckReplacements | messagesystem.py:79-85 | When no field value holds a `{` (`AckFieldsPlain`), the seven sequential replacements of the acknowledgment equal filling every placeholder of its skeleton at once. |
| Messages.RequestReplacements | messagesystem.py:127-134 | When no field value holds a `{` (`RequestFieldsPlain`), the eight sequential replacements of the forwarding request equal filling every placeholder of its skeleton at once. |
| Messages.AckEndsWithNul | messagesystem.py:78-86 | The acknowledgment ends with a NUL, whatever the fields hold. |
| Messages.RequestEndsWithNul | messagesystem.py:126-135 | The forwarding request ends with a NUL, whatever the fields hold. |
| Messages.GetMessageResponseAsWritten | messagesystem.py:79-85 | The encoder as written fails exactly when one of the seven fields it fills in has no text. |
| Messages.GetMessageAsWritten | messagesystem.py:127-134 | The encoder as written fails exactly when one of the fields it fills in, the body included, has no text. |
| Messages.EmptyTextFinding | messagesystem.py:127-134 | When every field has text, the encoders as written agree with the corrected ones. A message without body text makes `get_message` fail. |
| MessageStore.RemoveFromQueue | messagesystem.py:146-149 | The status table says "remove" for status 1 only. Status 11 and unknown codes keep the message. |
| MessageStore.FirstWithId | messagesystem.py:228-229 | The position found is that of the first queued message with the given internal id, or the queue length when there is none. |
| MessageStore.RemoveFirstEffect | messagesystem.py:227-234 | Removal with no match leaves the queue unchanged. Otherwise it deletes exactly the first match and keeps the order of the rest. It never adds a message and removes at most one. |
| MessageStore.StoreJobRequest | messagesystem.py:184-197 | A job request appends exactly one new message at the end, answers with exactly one acknowledgment, and returns True. A missing element raises and leaves the queue unchanged. |
| MessageStore.StoreDeclines | messagesystem.py:184-238 | `process` returns False exactly for frames that are neither job requests nor job responses. It then changes nothing and sends nothing. |
| MessageStore.StoreResponseWithoutJobdata | messagesystem.py:199-236 | A job response without `jobdata` returns True, leaves the queue unchanged and sends nothing. |
| MessageStore.StoreDeliveryReport | messagesystem.py:199-236 | A job response with job data returns True. With status 1 the first message with that internal id is removed; any other status keeps the queue. |
| MessageStore.StoreShrinksOnlyOnDelivery | messagesystem.py:208-236 | The queue shrinks only for a job response with job data and status 1, and then by exactly the first match of its `externalid`. |
| MessageStore.ConfirmationRemovesForwarded | messagesystem.py:209-232 | A status-1 report whose `externalid` is the ten-digit id the gateway sent removes exactly that message. This is the id round trip end to end. |
| MessageStore.MessageSystem.constructor | messagesystem.py:151-159 | A new store has an empty queue and sends through the given server. |
| MessageStore.MessageSystem.RemoveConfirmed | messagesystem.py:227-234 | The `for`/`break`/`else` loop leaves the queue as `RemoveFirst`. It reports whether any message matched, which decides the "unknown message" warning. |
| MessageStore.MessageSystem.Process | messagesystem.py:172-238 | The queue and the result are those of `StoreProcess`. The only datagram sent is the acknowledgment, to the last origin (corrected `send_dgram`; as written the destination is None, snom_messaging.py:86). |
| MessageStore.RetryEffect | messagesystem.py:248-252 | The retry pass keeps the queue's length and order. A message more than 60 s past its last attempt gets `lastSendTry = now`; the others are untouched. |
| MessageStore.RetryDocsOfDue | messagesystem.py:248-251 | The documents re-sent are exactly the forwarding requests of the due messages. |
| MessageStore.DueMessagesMembers | messagesystem.py:249 | The due messages are exactly the queued messages more than 60 s past their last attempt. |
| MessageStore.RetrySettles | messagesystem.py:248-252 | Right after a retry pass at `now`, nothing is due at `now`, and a second pass changes nothing. |
| MessageStore.TransmissionsTo | messagesystem.py:251 | With no last origin the retries send nothing. Otherwise each document goes, in order, to the last origin (corrected `send_dgram`). |
| MessageStore.MessageSystem.RetryOne | messagesystem.py:249-252 | One step of the retry loop: the message at `i` is touched and its request sent when it is due; nothing else changes. |
| MessageStore.MessageSystem.RetryPass | messagesystem.py:248-252 | With the corrected `get_message`: the queue becomes `Retried` of the old queue. The datagrams sent are the forwarding requests of the due messages, in queue order. |
| MessageStore.FirstUnsendable | messagesystem.py:248-251 | The position of the first due message whose `get_message` as written raises, or the queue length when there is none. Every message before it is sendable or not due. |
| MessageStore.MessageSystem.RetryOneAsWritten | messagesystem.py:249-252 | One round of the loop as written raises exactly when the message is due and `get_message` as written fails; it then changes nothing and sends nothing. Otherwise it does what `RetryOne` does. |
| MessageStore.MessageSystem.RetryPassAsWritten | messagesystem.py:248-252 | The pass as written stamps and forwards the due messages before the first unsendable one and leaves the rest untouched. It reports that the exception leaves `process_outbox` exactly when such a message exists. |
| MessageStore.RetryAsWrittenAgrees | messagesystem.py:248-252 | When every queued message can be encoded, the pass as written runs to the end and does what the corrected one does. |
| MessageStore.RetryDeathFinding | messagesystem.py:248-252 | Two due messages, the first with an empty body: the pass as written raises at once and forwards and stamps nothing; the corrected pass forwards both. |
| MessageStore.PurgedEffect | messagesystem.py:255-258 | The purge keeps exactly the messages at most seven days old, as a subsequence of the queue. |
| MessageStore.PurgedIdempotent | messagesystem.py:255-258 | Purging twice at the same instant is purging once. |
| MessageStore.MessageSystem.PurgePass | messagesystem.py:255-258 | The corrected purge loop leaves exactly `Purged` of the old queue. |
| MessageStore.MessageSystem.PurgePassAsWritten | messagesystem.py:255-258 | The purge loop as written, which removes while iterating, leaves `SkipPurge` of the old queue. |
| MessageStore.SkipPurgeSafe | messagesystem.py:255-258 | The loop as written still never removes a message at most seven days old, and leaves a subsequence. |
| MessageStore.SkipPurgeAgrees | messagesystem.py:255-258 | When no two adjacent messages are both stale, the loop as written and the corrected one agree. |
| MessageStore.PurgeSkipFinding | messagesystem.py:255-258 | With two stale messages in a row, the loop as written keeps the second; the corrected purge removes both. |
| MessageStore.MessageSystem.ProcessOutboxTick | messagesystem.py:246-258 | One tick with the corrected `get_message` and the corrected purge (`PurgePass`, not the loop at messagesystem.py:255-258 that skips) leaves `Purged(Retried(queue))` and sends the due messages' requests. |
| MessageStore.MessageSystem.ProcessOutboxTickAsWritten | messagesystem.py:246-258 | One tick as written: when the retry pass raises, the task ends with the queue as `RetryPassAsWritten` left it and no purge; otherwise the queue becomes `SkipPurge(Retried(queue))`. |
| MessageStore.TickEffect | messagesystem.py:248-258 | After a tick no queued message is stale or due, and every message at most seven days old is still there, touched if it was due. |
| Roaming.RoamingMonitor.constructor | roaming.py:10-14 | The location table starts empty. |
| Roaming.RoamingMonitor.GetAddr | roaming.py:20-23 | `get_addr` gives the recorded base station exactly when the number is in the table, and None otherwise. |
| Roaming.RoamingMonitor.Process | roaming.py:25-67 | The loop over the sender addresses and the login branch leave the table and the result as `RoamingProcess` says. |
| Roaming.RoamingNeverClaims | roaming.py:67 | The monitor never claims a frame. When it raises, the table is unchanged. |
| Roaming.SysinfoEffect | roaming.py:26-42 | After a system-information frame, every listed handset maps to (`addr`, `now`). No entry is deleted, and unlisted handsets keep their entries. |
| Roaming.LoginEffect | roaming.py:56-63 | A login with status "1" and a sender address records the handset at (`addr`, `now`), known or not. Every other handset is unchanged. |
| Roaming.LogoutEffect | roaming.py:50-55 | A login with status "0" and a sender address forgets the handset if it was known. Every other handset is unchanged. |
| Roaming.LoginOtherStatus | roaming.py:44-67 | A login whose status is neither "0" nor "1" leaves the table unchanged and returns False. It raises only when the `senderdata` element is missing, because the address is looked up before the status is tested. |
| Roaming.LoginRaises | roaming.py:47-63 | A login raises exactly when its `logindata/status` or its `senderdata` element is missing, or when the status is "0" or "1" and there is no `address` element. |
| Roaming.RoamingUnchanged | roaming.py:44-63 | Another login status, and any frame that is neither a system-information nor a login request, leave the table unchanged. |
| Roaming.TimesMonotone | roaming.py:36-63 | Recorded times never run ahead of the clock. A handset that stays in the table never sees its time decrease. |
| Consumer.SquelchClassifies | consumer.py:22-131 | The consumer claims exactly the system-information, login and alarm requests. It raises exactly on a request without a type, and declines everything else. |
| Consumer.SquelchDeclinesJobs | consumer.py:131 | Job requests and job responses are declined. |
| Udp.OutAddr | snom_messaging.py:77-83 | The destination is the given address when there is one, else the last origin. There is none only when both are missing. |
| Udp.Transmit | snom_messaging.py:77-86 | `send_dgram` (corrected) sends nothing exactly when there is no last origin and no address. Otherwise it sends the datagram once, to `OutAddr`. |
| Udp.TransmitAsWritten | snom_messaging.py:77-86 | `send_dgram` as written sends under the same condition, but to the `addr` argument, None by default. |
| Udp.SendDgramDestinationFinding | snom_messaging.py:80-86 | With an explicit address the two agree. Without one, the code as written passes None as the destination where the last origin was meant. |
| Udp.UdpServer.constructor | snom_messaging.py:22-25 | A new server has no last origin, no drivers and has sent nothing. |
| Udp.UdpServer.RegisterDriver | snom_messaging.py:67-69 | Registration appends the driver at the end of the chain and changes nothing else. |
| Udp.UdpServer.SendDgram | snom_messaging.py:71-86 | The transport receives `Transmit(lastConnection, addr, dgram)` (corrected destination). |
| Udp.UdpServer.SendDgramAsWritten | snom_messaging.py:71-86 | The transport receives `TransmitAsWritten(lastConnection, addr, dgram)`. |
| Udp.Split | snom_messaging.py:43 | `split` always gives at least one piece. |
| Udp.SplitJoin | snom_messaging.py:43 | Splitting on NUL loses nothing: joining the pieces with NUL gives the payload back. |
| Udp.SplitPiecesPlain | snom_messaging.py:43 | No piece that splitting on NUL produces holds a NUL. |
| Dispatch.StepResultIgnoresState | snom_messaging.py:53 | Whether a driver claims a frame depends on the kind of driver and on the frame, not on its state. |
| Dispatch.ChainSpec | snom_messaging.py:50-62 | Drivers are called in registration order. The first True ends the chain. False and exceptions pass the frame on. The frame is claimed exactly when some driver returns True; otherwise every driver was called and the warning fires. |
| Dispatch.AfterChainKeepsRest | snom_messaging.py:50-59 | Drivers after the claiming one keep their state, and so does a driver that raised. |
| Dispatch.Offer | snom_messaging.py:52-59 | One `driver.process` call changes that driver's state as `Step` says and every other driver's not at all. |
| Dispatch.DispatchFrame | snom_messaging.py:50-62 | The loop over the drivers leaves the states and sends the acknowledgments given by `Dispatched` for the frame. It reports a claim exactly when `Claimed` holds. |
| Dispatch.ParsedOrder | snom_messaging.py:43-47 | Every dispatched frame is the parse of a non-empty piece, and the frames go out in piece order. |
| Dispatch.ParsedComplete | snom_messaging.py:43-49 | Without a parse error, every non-empty piece is dispatched. |
| Dispatch.ParsedStops | snom_messaging.py:49 | After a parse error, no piece from the failing one on is dispatched. |
| Dispatch.ParsedFailureStays | snom_messaging.py:49 | Once a piece has failed to parse, later pieces change nothing. |
| Dispatch.DatagramReceived | snom_messaging.py:31-62 | The last origin is set first. The frames of the datagram then go through the chain one after the other, up to the first parse error, and acknowledgments go to the sender (corrected `send_dgram`). |
| Dispatch.NewMessageSystem | messagesystem.py:151-161 | A new store registers itself at the end of the chain, sends through that server, and keeps the drivers distinct. |
| Dispatch.NewRoamingMonitor | roaming.py:10-14 | A new monitor with an empty table registers itself at the end of the chain. |
| Dispatch.NewConsumerDriver | consumer.py:14-20 | The consumer registers itself at the end of the chain. |
| Dispatch.Setup | snom_messaging.py:100-101 | `main` builds the chain message store, then consumer. |
| Dispatch.DeployedChain | snom_messaging.py:100-101 | On `main`'s chain: a job request or job response that the store does not raise on is the store's, and the consumer is not called. A system-information, login or alarm request passes the store and is the consumer's. A frame that is neither a request nor a job response (a response without a `type` included) is claimed by no one. |

## Left out

- `MessageSystem.__init__` reads an undefined name, `roaming_monitor` (messagesystem.py:166). The
  constructor would raise NameError as written. The model builds the store without that line, as
  if it did not exist.
- `RoamingMonitor` is never created by `main`, and `get_addr` is never called: retries go to the
  last origin. The model keeps both as written and wires nothing more up.
- The message store's self-registration and its background task: the registration is
  `Dispatch.NewMessageSystem`. The `create_task` / `while True` / `asyncio.sleep(1)` loop
  (messagesystem.py:163-164, 246, 260-261) is one call of `ProcessOutboxTick` (or
  `ProcessOutboxTickAsWritten`) per tick.
- Time: `time.time()` is the parameter `now`, one instant per datagram and per tick. The source reads
  the clock anew for every message, so a tick that spans a second boundary can differ from the model
  by that second.
- `random.randrange`: the drawn internal id is a parameter (`id`, `idFor`).
- XML parsing: `ET.fromstring` is the `parse` parameter of `DatagramReceived`, None where it raises.
  ElementTree lookups are reduced to the paths the drivers read (`Frame.texts`). `find("./jobdata")`
  being truthy is `Frame.hasJobdata`.
- UTF-8 decoding of the datagram and encoding of outgoing documents: payloads are strings of
  characters.
- `int()` is `Codec.ParseInt`: an optional sign and ASCII decimal digits. Surrounding whitespace,
  `_` separators and non-ASCII decimal digits (Unicode category Nd, such as Arabic-Indic digits),
  which Python also accepts, are not modelled; a text with them is treated as a failed parse (the
  driver raises).
- Logging, `_prettyprint_mlstring`, the "no driver is interested" warning text and the
  "unknown message" warning are output only. Whether each fires is stated: `Claimed` and
  `RemoveConfirmed`'s `found`.
- `connection_made`, `error_received`, socket setup, `loop.run_forever` and the no-op `close()`
  methods.
- server.py, a standalone debug tool that duplicates the two templates.
- Messages.AckShape: stated only when no field value holds a `{`. Sequential literal replacement can
  otherwise fill a placeholder that a value brought in. `AckEndsWithNul` and `RequestEndsWithNul`
  hold without this condition.
- Messages.RequestShape: the same condition as `AckShape`.
- Dispatch.DispatchFrame: requires the drivers to be wired as `main` wires them (`Wired`): no object
  registered twice, and each store registered with the server it sends through. Registering one
  driver object twice is not modelled.
- MessageStore.MessageSystem.RetryPass: uses the corrected `get_message`. As written, a due message
  with an empty text field raises TypeError there and ends the `process_outbox` task for good; that
  is `RetryPassAsWritten` and `ProcessOutboxTickAsWritten`, whose `died` result marks it. The model
  has no loop over ticks, because datagrams arrive between them, so that no later tick runs is
  stated only through `died`.
- MessageStore.MessageSystem.ProcessOutboxTick: uses the corrected purge, `PurgePass`; the purge
  loop as written is `PurgePassAsWritten`.
- The acknowledgment raising after the message was queued (messagesystem.py:190-194 with a field
  without text) is covered only through `GetMessageResponseAsWritten`. The corrected store never
  raises there.

## Findings

| source | as written | input that shows it | evidently intended | confidence | as-written member | corrected member |
|---|---|---|---|---|---|---|
| messagesystem.py:255-258 | `self._queue.remove(message)` inside `for message in self._queue` shifts the list under the iterator, so the message after each removed one is never examined | a queue of two messages both older than seven days: the second stays until the next tick | remove every message older than seven days in one pass | not executed | MessageStore.PurgeSkipFinding | MessageStore.MessageSystem.PurgePass |
| snom_messaging.py:86 | `sendto(..., addr)` passes the `addr` argument, None by default, instead of the computed `out_addr` | `send_dgram(doc)` after any datagram was received: the destination is None instead of the last origin | send to `out_addr`; what the asyncio transport does with a None destination is outside the model, which only logs the `sendto` call | not executed | Udp.SendDgramDestinationFinding | Udp.UdpServer.SendDgram |
| messagesystem.py:79-85, 127-134 | `str.replace` with the `.text` of an empty element (None) raises TypeError | a job request with an empty `<messageuui/>`: the message is queued and acknowledged; at its first retry `get_message` raises inside `process_outbox`, which ends the outbox task created at messagesystem.py:164, so the due messages after it are not forwarded and no later retry or purge runs | an empty element contributes empty text | not executed | MessageStore.RetryDeathFinding | Messages.GetMessage |
