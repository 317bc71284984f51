/** `MessageSystem` of messagesystem.py: the queue of text messages waiting for delivery, the
    handling of inbound job requests and delivery reports, and one tick of the outbox loop. */
module MessageStore {
  import opened Frames
  import opened Codec
  import opened Messages
  import opened Udp

  // ---------------------------------------------------------------------------------------------
  // Status codes

  /** `_snom_message_status`: status code -> (log text, whether the message leaves the queue). */
  const StatusTable: map<int, (string, bool)> :=
    map[1 := ("Message delivered", true), 11 := ("User absent", false)]

  /** Whether a delivery report with this status removes its message: only a known code whose entry
      says so; unknown codes keep the message. */
  function RemoveFromQueue(status: int): (remove: bool)
    ensures remove <==> status == 1
  {
    status in StatusTable && StatusTable[status].1
  }

  // ---------------------------------------------------------------------------------------------
  // Removing a confirmed message

  /** The position of the first queued message with internal id `id`, or `|q|` when there is none. */
  function FirstWithId(q: seq<Message>, id: int): (i: nat)
    ensures i <= |q|
    ensures i < |q| ==> q[i].internalExtId == id
    ensures forall j | 0 <= j < i :: q[j].internalExtId != id
  {
    if q == [] then 0
    else if q[0].internalExtId == id then 0
    else 1 + FirstWithId(q[1..], id)
  }

  /** The queue after the `for ... break ... else` search of `process`: the first message with the id
      is removed, or nothing when no message has it. */
  function RemoveFirst(q: seq<Message>, id: int): seq<Message>
  {
    var i := FirstWithId(q, id);
    if i == |q| then q else q[..i] + q[i + 1..]
  }

  /** Removing a confirmed message takes out exactly one message, the first with the id, and keeps
      the others in their order; without a match the queue is unchanged. */
  lemma RemoveFirstEffect(q: seq<Message>, id: int)
    ensures (forall j | 0 <= j < |q| :: q[j].internalExtId != id) ==> RemoveFirst(q, id) == q
    ensures forall i | 0 <= i < |q| && q[i].internalExtId == id
                         && (forall j | 0 <= j < i :: q[j].internalExtId != id) ::
              RemoveFirst(q, id) == q[..i] + q[i + 1..]
    ensures multiset(RemoveFirst(q, id)) <= multiset(q)
    ensures |RemoveFirst(q, id)| >= |q| - 1
    ensures forall m | m in q && m.internalExtId != id :: m in RemoveFirst(q, id)
  {
    var i := FirstWithId(q, id);
    if i < |q| {
      assert q == q[..i] + [q[i]] + q[i + 1..];
      forall m | m in q && m.internalExtId != id ensures m in RemoveFirst(q, id) {
        var k :| 0 <= k < |q| && q[k] == m;
        if k < i {
          assert m == q[..i][k];
        } else {
          assert m == q[i + 1..][k - i - 1];
        }
      }
    }
  }

  // ---------------------------------------------------------------------------------------------
  // process

  /** `int(frame.find(path).text)`; None where Python raises. */
  function IntAt(f: Frame, path: string): Option<int>
  {
    var t := TextAt(f, path);
    if t.None? then None else ParseInt(t.value)
  }

  /** What `process` leaves behind: the new queue, the acknowledgment it sends (if any) and how
      the call ends. */
  datatype StoreStep = StoreStep(queue: seq<Message>, ack: Option<string>, result: DriverResult)

  /** `MessageSystem.process(xml_message, addr)` on queue `q` at time `now`, where `id` is the
      internal id drawn for a new message. The encoders are the corrected ones: a field without text
      fills its placeholder with nothing. */
  function StoreProcess(q: seq<Message>, f: Frame, now: real, id: InternalId): StoreStep
  {
    var isRequest := TypeIs(f, "request", "job");
    if isRequest.None? then StoreStep(q, None, Raised)
    else if isRequest.value then
      var m := NewMessage(f, now, id);
      if m.None? then StoreStep(q, None, Raised)
      else StoreStep(q + [m.value], Some(GetMessageResponse(m.value)), Returned(true))
    else
      var isResponse := TypeIs(f, "response", "job");
      if isResponse.None? then StoreStep(q, None, Raised)
      else if !isResponse.value then StoreStep(q, None, Returned(false))
      else if !f.hasJobdata then StoreStep(q, None, Returned(true))
      else
        var extId := IntAt(f, "externalid");
        if extId.None? then StoreStep(q, None, Raised)
        else
          var status := IntAt(f, "jobdata/status");
          if status.None? then StoreStep(q, None, Raised)
          else if RemoveFromQueue(status.value) then StoreStep(RemoveFirst(q, extId.value), None, Returned(true))
          else StoreStep(q, None, Returned(true))
  }

  /** An inbound job request appends exactly one message, built from the frame, at the end of the
      queue, answers with its acknowledgment and claims the frame; a request missing one of the
      elements the message is built from raises before anything changes. */
  lemma StoreJobRequest(q: seq<Message>, f: Frame, now: real, id: InternalId)
    requires TypeIs(f, "request", "job") == Some(true)
    ensures var s := StoreProcess(q, f, now, id);
      match NewMessage(f, now, id)
      case None => s == StoreStep(q, None, Raised)
      case Some(m) =>
        && |s.queue| == |q| + 1 && s.queue[..|q|] == q && s.queue[|q|] == m
        && m.created == now && m.lastSendTry == 0.0 && m.internalExtId == id
        && s.ack == Some(GetMessageResponse(m)) && s.result == Returned(true)
  {
    var s := StoreProcess(q, f, now, id);
    if NewMessage(f, now, id).Some? {
      assert s.queue[..|q|] == q;
    }
  }

  /** `process` declines a frame exactly when it is neither a job request nor a job response, and
      then changes nothing. */
  lemma StoreDeclines(q: seq<Message>, f: Frame, now: real, id: InternalId)
    ensures StoreProcess(q, f, now, id).result == Returned(false) <==>
      TypeIs(f, "request", "job") == Some(false) && TypeIs(f, "response", "job") == Some(false)
    ensures StoreProcess(q, f, now, id).result == Returned(false) ==>
      StoreProcess(q, f, now, id) == StoreStep(q, None, Returned(false))
  {
  }

  /** A job response with job data is a delivery report: its `externalid` and `jobdata/status` are read
      as integers, the first message with that internal id leaves the queue when the status says so,
      and the frame is claimed whatever the status. */
  lemma StoreDeliveryReport(q: seq<Message>, f: Frame, now: real, id: InternalId, extId: int, status: int)
    requires TypeIs(f, "request", "job") == Some(false) && TypeIs(f, "response", "job") == Some(true)
    requires f.hasJobdata && IntAt(f, "externalid") == Some(extId)
    requires IntAt(f, "jobdata/status") == Some(status)
    ensures StoreProcess(q, f, now, id) ==
      StoreStep(if status == 1 then RemoveFirst(q, extId) else q, None, Returned(true))
  {
  }

  /** A job response without job data (the base stations' bare reception confirmations) is claimed
      and changes nothing: neither `externalid` nor a status is read. */
  lemma StoreResponseWithoutJobdata(q: seq<Message>, f: Frame, now: real, id: InternalId)
    requires TypeIs(f, "response", "job") == Some(true) && !f.hasJobdata
    ensures StoreProcess(q, f, now, id) == StoreStep(q, None, Returned(true))
  {
    assert TypeIs(f, "request", "job") == Some(false);
  }

  /** The queue only ever shrinks on a delivery report with status 1, and then by exactly one
      message, the first with the reported id. */
  lemma StoreShrinksOnlyOnDelivery(q: seq<Message>, f: Frame, now: real, id: InternalId)
    ensures var s := StoreProcess(q, f, now, id);
      |s.queue| < |q| ==>
        && TypeIs(f, "response", "job") == Some(true) && f.hasJobdata
        && IntAt(f, "jobdata/status") == Some(1)
        && IntAt(f, "externalid").Some?
        && s.queue == RemoveFirst(q, IntAt(f, "externalid").value)
        && |s.queue| == |q| - 1
  {
    var e := IntAt(f, "externalid");
    var st := IntAt(f, "jobdata/status");
    if TypeIs(f, "request", "job") == Some(false) && TypeIs(f, "response", "job") == Some(true)
       && f.hasJobdata && e.Some? && st.Some?
    {
      StoreDeliveryReport(q, f, now, id, e.value, st.value);
      RemoveFirstEffect(q, e.value);
    }
  }

  /** The internal id survives the round trip through the forwarded request: a delivery report with
      status "1" that echoes the `externalid` of `get_message` for the queued message `q[i]` removes
      exactly that message, provided no earlier message drew the same id. */
  lemma ConfirmationRemovesForwarded(q: seq<Message>, i: nat, f: Frame, now: real, id: InternalId)
    requires i < |q| && forall j | 0 <= j < i :: q[j].internalExtId != q[i].internalExtId
    requires TypeIs(f, "request", "job") == Some(false) && TypeIs(f, "response", "job") == Some(true)
    requires f.hasJobdata
    requires TextAt(f, "externalid") == Some(Some(InternalIdText(q[i])))
    requires TextAt(f, "jobdata/status") == Some(Some("1"))
    ensures StoreProcess(q, f, now, id) == StoreStep(q[..i] + q[i + 1..], None, Returned(true))
  {
    assert IntAt(f, "externalid") == Some(q[i].internalExtId) by {
      InternalIdTextDigits(q[i]);
    }
    assert IntAt(f, "jobdata/status") == Some(1) by {
      assert DigitsValue("1") == 1 by {
        assert "1"[..0] == "";
      }
    }
    StoreDeliveryReport(q, f, now, id, q[i].internalExtId, 1);
    RemoveFirstEffect(q, q[i].internalExtId);
  }

  // ---------------------------------------------------------------------------------------------
  // The outbox

  /** Seconds after the last attempt before a message is sent again. */
  const RetryInterval: real := 60.0
  /** `7*24*60*60`: the age in seconds after which an undelivered message is dropped. */
  const MaxAge: real := 604800.0

  /** The retry test: more than `RetryInterval` seconds since the last attempt. */
  predicate Due(m: Message, now: real)
  {
    now - m.lastSendTry > RetryInterval
  }

  /** The purge test: older than `MaxAge` seconds. */
  predicate Stale(m: Message, now: real)
  {
    now - m.created > MaxAge
  }

  /** One message after the retry pass: a due message records the attempt. */
  function Touch(m: Message, now: real): Message
  {
    if Due(m, now) then m.(lastSendTry := now) else m
  }

  /** The queue after the retry pass. */
  function Retried(q: seq<Message>, now: real): seq<Message>
  {
    seq(|q|, i requires 0 <= i < |q| => Touch(q[i], now))
  }

  /** The messages the retry pass sends, in queue order. */
  function DueMessages(q: seq<Message>, now: real): seq<Message>
  {
    if q == [] then []
    else (if Due(q[0], now) then [q[0]] else []) + DueMessages(q[1..], now)
  }

  /** The forwarded requests of the messages `ms`, in order. */
  function Forwards(ms: seq<Message>): seq<string>
  {
    seq(|ms|, i requires 0 <= i < |ms| => GetMessage(ms[i]))
  }

  lemma ForwardsAppend(a: seq<Message>, b: seq<Message>)
    ensures Forwards(a + b) == Forwards(a) + Forwards(b)
  {
  }

  /** The documents the retry pass hands to `send_dgram`, in queue order. */
  function RetryDocs(q: seq<Message>, now: real): seq<string>
  {
    Forwards(DueMessages(q, now))
  }

  /** What the transport receives when `send_dgram(doc)` is called for each document in turn, with
      no explicit destination. */
  function Transmissions(lastConnection: Option<Addr>, docs: seq<string>): seq<Datagram>
  {
    if docs == [] then [] else Transmit(lastConnection, None, docs[0]) + Transmissions(lastConnection, docs[1..])
  }

  lemma {:induction false} TransmissionsAppend(last: Option<Addr>, a: seq<string>, b: seq<string>)
    ensures Transmissions(last, a + b) == Transmissions(last, a) + Transmissions(last, b)
  {
    if a != [] {
      assert (a + b)[0] == a[0] && (a + b)[1..] == a[1..] + b;
      TransmissionsAppend(last, a[1..], b);
    } else {
      assert a + b == b;
    }
  }

  /** Nothing reaches the transport before the first datagram arrived; afterwards every document goes,
      in order, to the last origin. */
  lemma {:induction false} TransmissionsTo(last: Option<Addr>, docs: seq<string>)
    ensures last.None? ==> Transmissions(last, docs) == []
    ensures last.Some? ==> |Transmissions(last, docs)| == |docs|
    ensures last.Some? ==> forall i | 0 <= i < |docs| :: Transmissions(last, docs)[i] == Datagram(docs[i], last)
  {
    if docs != [] {
      TransmissionsTo(last, docs[1..]);
    }
  }

  /** The retry pass sends a message exactly when it is due and records the attempt on exactly those
      messages; a message at or under the interval is untouched, and no message joins or leaves the
      queue or changes anything but the time of its last attempt. */
  lemma RetryEffect(q: seq<Message>, now: real)
    ensures |Retried(q, now)| == |q|
    ensures forall i | 0 <= i < |q| && Due(q[i], now) :: Retried(q, now)[i] == q[i].(lastSendTry := now)
    ensures forall i | 0 <= i < |q| && !Due(q[i], now) :: Retried(q, now)[i] == q[i]
    ensures forall i | 0 <= i < |q| :: Retried(q, now)[i].(lastSendTry := 0.0) == q[i].(lastSendTry := 0.0)
  {
  }

  /** The documents sent are the forwarded requests of the due messages: each due message is sent
      and each document sent belongs to a due message. */
  lemma RetryDocsOfDue(q: seq<Message>, now: real)
    ensures |RetryDocs(q, now)| <= |q|
    ensures forall m | m in q && Due(m, now) :: GetMessage(m) in RetryDocs(q, now)
    ensures forall d | d in RetryDocs(q, now) :: exists m | m in q :: Due(m, now) && d == GetMessage(m)
  {
    DueMessagesMembers(q, now);
    ForwardsMembers(DueMessages(q, now));
  }

  /** Each message's forwarded request is among the forwards, and nothing else is. */
  lemma ForwardsMembers(ms: seq<Message>)
    ensures forall m | m in ms :: GetMessage(m) in Forwards(ms)
    ensures forall d | d in Forwards(ms) :: exists m | m in ms :: d == GetMessage(m)
  {
    forall m | m in ms ensures GetMessage(m) in Forwards(ms) {
      var k :| 0 <= k < |ms| && ms[k] == m;
      assert Forwards(ms)[k] == GetMessage(m);
    }
    forall d | d in Forwards(ms) ensures exists m | m in ms :: d == GetMessage(m) {
      var k :| 0 <= k < |ms| && Forwards(ms)[k] == d;
      assert ms[k] in ms;
    }
  }

  /** The message `m` if it is due, as a list of zero or one messages. */
  function DueOne(m: Message, now: real): seq<Message>
  {
    if Due(m, now) then [m] else []
  }

  // The steps of the retry loop, one lemma each, so that the loop itself only chains equalities.

  /** The queue when the retry loop has passed the first `i` messages. */
  function RetriedUpTo(q: seq<Message>, i: nat, now: real): seq<Message>
  {
    seq(|q|, j requires 0 <= j < |q| => if j < i then Touch(q[j], now) else q[j])
  }

  lemma RetriedUpToStep(q: seq<Message>, i: nat, now: real)
    requires i < |q|
    ensures RetriedUpTo(q, i, now)[i] == q[i]
    ensures RetriedUpTo(q, i + 1, now) == RetriedUpTo(q, i, now)[i := Touch(q[i], now)]
  {
  }

  lemma RetriedUpToEnds(q: seq<Message>, now: real)
    ensures RetriedUpTo(q, 0, now) == q
    ensures RetriedUpTo(q, |q|, now) == Retried(q, now)
  {
  }

  lemma DueMessagesStep(q: seq<Message>, i: nat, done: seq<Message>, now: real)
    requires i < |q| && done + DueMessages(q[i..], now) == DueMessages(q, now)
    ensures (done + DueOne(q[i], now)) + DueMessages(q[i + 1..], now) == DueMessages(q, now)
  {
    assert q[i..][0] == q[i] && q[i..][1..] == q[i + 1..];
  }

  lemma DueMessagesEnds(q: seq<Message>, done: seq<Message>, now: real)
    requires done + DueMessages(q[|q|..], now) == DueMessages(q, now)
    ensures done == DueMessages(q, now)
  {
    assert q[|q|..] == [];
  }

  lemma SentStep(sent0: seq<Datagram>, last: Option<Addr>, done: seq<string>, due: seq<string>)
    ensures sent0 + Transmissions(last, done) + Transmissions(last, due) == sent0 + Transmissions(last, done + due)
  {
    TransmissionsAppend(last, done, due);
  }

  /** The due messages are exactly the members of the queue that are due. */
  lemma {:induction false} DueMessagesMembers(q: seq<Message>, now: real)
    ensures |DueMessages(q, now)| <= |q|
    ensures forall m | m in DueMessages(q, now) :: m in q && Due(m, now)
    ensures forall m | m in q && Due(m, now) :: m in DueMessages(q, now)
  {
    if q != [] {
      DueMessagesMembers(q[1..], now);
      forall m | m in q && Due(m, now) ensures m in DueMessages(q, now) {
        if m != q[0] {
          assert m in q[1..];
        }
      }
    }
  }

  /** A second retry pass at the same instant sends nothing and changes nothing. */
  lemma {:induction false} RetrySettles(q: seq<Message>, now: real)
    ensures RetryDocs(Retried(q, now), now) == []
    ensures Retried(Retried(q, now), now) == Retried(q, now)
  {
    var r := Retried(q, now);
    forall i | 0 <= i < |r| ensures !Due(r[i], now) {
    }
    NoneDue(r, now);
  }

  lemma {:induction false} NoneDue(q: seq<Message>, now: real)
    requires forall i | 0 <= i < |q| :: !Due(q[i], now)
    ensures DueMessages(q, now) == []
  {
    if q != [] {
      NoneDue(q[1..], now);
    }
  }

  /** A message on which the retry loop as written raises: it is due, and `get_message` hands
      `str.replace` a None because one of its text fields is empty (messagesystem.py:249-251). */
  predicate Unsendable(m: Message, now: real)
  {
    Due(m, now) && GetMessageAsWritten(m).None?
  }

  /** The position where the retry loop as written raises, or the length of the queue when it runs
      through. */
  function FirstUnsendable(q: seq<Message>, now: real): (k: nat)
    ensures k <= |q|
    ensures forall j | 0 <= j < k :: !Unsendable(q[j], now)
    ensures k < |q| ==> Unsendable(q[k], now)
    decreases |q|
  {
    if q == [] then 0
    else if Unsendable(q[0], now) then 0
    else 1 + FirstUnsendable(q[1..], now)
  }

  lemma {:induction false} DueMessagesAppend(a: seq<Message>, b: seq<Message>, now: real)
    ensures DueMessages(a + b, now) == DueMessages(a, now) + DueMessages(b, now)
  {
    if a == [] {
      assert a + b == b;
    } else {
      assert (a + b)[0] == a[0] && (a + b)[1..] == a[1..] + b;
      DueMessagesAppend(a[1..], b, now);
      var h := if Due(a[0], now) then [a[0]] else [];
      assert DueMessages(a + b, now) == h + DueMessages(a[1..] + b, now);
      assert DueMessages(a, now) == h + DueMessages(a[1..], now);
      assert h + (DueMessages(a[1..], now) + DueMessages(b, now)) == (h + DueMessages(a[1..], now)) + DueMessages(b, now);
    }
  }

  lemma DueMessagesSnoc(q: seq<Message>, i: nat, now: real)
    requires i < |q|
    ensures DueMessages(q[..i + 1], now) == DueMessages(q[..i], now) + DueOne(q[i], now)
  {
    assert q[..i + 1] == q[..i] + [q[i]];
    DueMessagesAppend(q[..i], [q[i]], now);
    assert [q[i]][1..] == [];
  }

  /** When every message can be encoded, the retry loop as written runs through and does what the
      corrected one does. */
  lemma RetryAsWrittenAgrees(q: seq<Message>, now: real)
    requires forall j | 0 <= j < |q| :: GetMessageAsWritten(q[j]).Some?
    ensures FirstUnsendable(q, now) == |q|
    ensures RetriedUpTo(q, FirstUnsendable(q, now), now) == Retried(q, now)
    ensures DueMessages(q[..FirstUnsendable(q, now)], now) == DueMessages(q, now)
  {
    var k := FirstUnsendable(q, now);
    assert k < |q| ==> GetMessageAsWritten(q[k]).Some?;
    RetriedUpToEnds(q, now);
    assert q[..|q|] == q;
  }

  /** Two due messages, the first with an empty body: the corrected pass forwards both, the pass as
      written raises on the first, forwards nothing and stamps nothing, and since the exception ends
      the outbox task, the second is never forwarded. */
  lemma RetryDeathFinding(a: Message, b: Message, now: real)
    requires Due(a, now) && a.message.None? && Due(b, now)
    ensures FirstUnsendable([a, b], now) == 0
    ensures DueMessages([a, b][..0], now) == [] && RetriedUpTo([a, b], 0, now) == [a, b]
    ensures RetryDocs([a, b], now) == [GetMessage(a), GetMessage(b)]
  {
    EmptyTextFinding(a);
    assert Unsendable(a, now);
    assert [a, b][1..] == [b] && [b][1..] == [];
    assert DueMessages([b], now) == [b];
    assert DueMessages([a, b], now) == [a, b];
    RetriedUpToEnds([a, b], now);
  }

  /** The queue after the purge pass as evidently intended: the messages not older than `MaxAge`. */
  function Purged(q: seq<Message>, now: real): seq<Message>
  {
    if q == [] then []
    else (if Stale(q[0], now) then [] else [q[0]]) + Purged(q[1..], now)
  }

  /** `a` is `b` with some elements left out, the rest in their order. */
  predicate SubsequenceOf(a: seq<Message>, b: seq<Message>)
    decreases |b|
  {
    if a == [] then true
    else if b == [] then false
    else if a[0] == b[0] then SubsequenceOf(a[1..], b[1..])
    else SubsequenceOf(a, b[1..])
  }

  lemma {:induction false} SubsequenceSkip(a: seq<Message>, x: Message, b: seq<Message>)
    requires SubsequenceOf(a, b)
    ensures SubsequenceOf(a, [x] + b)
    decreases |b|, 1
  {
    if a != [] {
      assert ([x] + b)[0] == x && ([x] + b)[1..] == b;
      if a[0] == x {
        SubsequenceTail(a, b);
      }
    }
  }

  lemma {:induction false} SubsequenceTail(a: seq<Message>, b: seq<Message>)
    requires a != [] && SubsequenceOf(a, b)
    ensures SubsequenceOf(a[1..], b)
    decreases |b|, 0
  {
    assert b != [];
    if a[0] == b[0] {
      if a[1..] != [] {
        SubsequenceSkip(a[1..], b[0], b[1..]);
        assert [b[0]] + b[1..] == b;
      }
    } else {
      SubsequenceTail(a, b[1..]);
      if a[1..] != [] {
        SubsequenceSkip(a[1..], b[0], b[1..]);
        assert [b[0]] + b[1..] == b;
      }
    }
  }

  /** The purge pass keeps exactly the messages not older than `MaxAge`, in their order. */
  lemma {:induction false} PurgedEffect(q: seq<Message>, now: real)
    ensures forall m | m in Purged(q, now) :: m in q && !Stale(m, now)
    ensures forall m | m in q && !Stale(m, now) :: m in Purged(q, now)
    ensures SubsequenceOf(Purged(q, now), q)
  {
    if q != [] {
      PurgedEffect(q[1..], now);
      var r := Purged(q, now);
      if Stale(q[0], now) {
        assert r == Purged(q[1..], now);
        SubsequenceSkip(r, q[0], q[1..]);
        assert [q[0]] + q[1..] == q;
      } else {
        assert r[0] == q[0] && r[1..] == Purged(q[1..], now);
      }
      forall m | m in q && !Stale(m, now) ensures m in r {
        if m != q[0] {
          assert m in q[1..];
        }
      }
    }
  }

  /** Purging twice at the same instant is purging once. */
  lemma {:induction false} PurgedIdempotent(q: seq<Message>, now: real)
    ensures Purged(Purged(q, now), now) == Purged(q, now)
  {
    if q != [] {
      PurgedIdempotent(q[1..], now);
      var p := Purged(q[1..], now);
      if !Stale(q[0], now) {
        assert ([q[0]] + p)[0] == q[0] && ([q[0]] + p)[1..] == p;
      } else {
        assert Purged(q, now) == p;
      }
    }
  }

  /** The queue after the purge pass as written (messagesystem.py:255-258): removing the current
      element while a `for` loop iterates over the list shifts the next element into the slot the
      iterator has already passed, so the element right after each removed one is never examined. */
  function SkipPurge(q: seq<Message>, now: real): seq<Message>
  {
    if q == [] then []
    else if !Stale(q[0], now) then [q[0]] + SkipPurge(q[1..], now)
    else if |q| == 1 then []
    else [q[1]] + SkipPurge(q[2..], now)
  }

  /** The as-written pass removes a stale message: the list closes up over it, and the message
      that slides into its place is passed over. */
  lemma SkipPurgeDropStep(done: seq<Message>, rest: seq<Message>, now: real)
    requires rest != [] && Stale(rest[0], now)
    ensures (done + rest)[..|done|] + (done + rest)[|done| + 1..] == done + rest[1..]
    ensures |rest| == 1 ==> done + rest[1..] == done && done + SkipPurge(rest, now) == done
    ensures |rest| > 1 ==> done + rest[1..] == (done + [rest[1]]) + rest[2..]
    ensures |rest| > 1 ==> done + SkipPurge(rest, now) == (done + [rest[1]]) + SkipPurge(rest[2..], now)
  {
    CloseUp(done, rest);
    if |rest| > 1 {
      MoveFirst(done, rest[1..]);
      SkipPurgeDrops(done, rest, now);
    }
  }

  /** Removing the first element of `rest` from `done + rest` leaves `done + rest[1..]`. */
  lemma CloseUp<T>(done: seq<T>, rest: seq<T>)
    requires rest != []
    ensures (done + rest)[..|done|] + (done + rest)[|done| + 1..] == done + rest[1..]
  {
    assert (done + rest)[..|done|] == done && (done + rest)[|done| + 1..] == rest[1..];
  }

  /** Moving the first element of `rest` over to the end of `done`. */
  lemma MoveFirst<T>(done: seq<T>, rest: seq<T>)
    requires rest != []
    ensures done + rest == (done + [rest[0]]) + rest[1..]
  {
    assert rest == [rest[0]] + rest[1..];
  }

  lemma SkipPurgeDrops(done: seq<Message>, rest: seq<Message>, now: real)
    requires |rest| > 1 && Stale(rest[0], now)
    ensures done + SkipPurge(rest, now) == (done + [rest[1]]) + SkipPurge(rest[2..], now)
  {
    var tail := SkipPurge(rest[2..], now);
    assert SkipPurge(rest, now) == [rest[1]] + tail;
    assert done + ([rest[1]] + tail) == (done + [rest[1]]) + tail;
  }

  /** The as-written pass keeps a message that is not stale and moves on. */
  lemma SkipPurgeKeepStep(done: seq<Message>, rest: seq<Message>, now: real)
    requires rest != [] && !Stale(rest[0], now)
    ensures done + rest == (done + [rest[0]]) + rest[1..]
    ensures done + SkipPurge(rest, now) == (done + [rest[0]]) + SkipPurge(rest[1..], now)
  {
    MoveFirst(done, rest);
    var tail := SkipPurge(rest[1..], now);
    assert SkipPurge(rest, now) == [rest[0]] + tail;
    assert done + ([rest[0]] + tail) == (done + [rest[0]]) + tail;
  }

  /** The pass as written still never drops a message that is not older than `MaxAge`, and keeps the
      order of the messages it keeps. */
  lemma {:induction false} SkipPurgeSafe(q: seq<Message>, now: real)
    ensures forall m | m in q && !Stale(m, now) :: m in SkipPurge(q, now)
    ensures SubsequenceOf(SkipPurge(q, now), q)
  {
    if q != [] {
      var r := SkipPurge(q, now);
      if !Stale(q[0], now) {
        SkipPurgeSafe(q[1..], now);
        assert r[0] == q[0] && r[1..] == SkipPurge(q[1..], now);
        forall m | m in q && !Stale(m, now) ensures m in r {
          if m != q[0] {
            assert m in q[1..];
          }
        }
      } else if |q| > 1 {
        SkipPurgeSafe(q[2..], now);
        assert r[0] == q[1] && r[1..] == SkipPurge(q[2..], now);
        assert q == [q[0], q[1]] + q[2..];
        forall m | m in q && !Stale(m, now) ensures m in r {
          if m != q[1] {
            assert m in q[2..];
          }
        }
        // q[1] is kept: match it against q[1] (or already q[0] when they are equal)
        if q[0] == q[1] {
          assert SubsequenceOf(r, q[1..]) by {
            assert q[1..][0] == q[1] && q[1..][1..] == q[2..];
          }
          SubsequenceSkip(r, q[0], q[1..]);
          assert [q[0]] + q[1..] == q;
        } else {
          assert SubsequenceOf(r, q[1..]) by {
            assert q[1..][0] == q[1] && q[1..][1..] == q[2..];
          }
        }
      }
    }
  }

  /** Where no two stale messages stand next to each other, the pass as written purges what was
      intended. */
  lemma {:induction false} SkipPurgeAgrees(q: seq<Message>, now: real)
    requires forall i | 0 <= i < |q| - 1 :: !(Stale(q[i], now) && Stale(q[i + 1], now))
    ensures SkipPurge(q, now) == Purged(q, now)
  {
    if q != [] {
      if !Stale(q[0], now) {
        SkipPurgeAgrees(q[1..], now);
      } else if |q| > 1 {
        assert !Stale(q[1], now);
        SkipPurgeAgrees(q[2..], now);
        assert Purged(q[1..], now) == [q[1]] + Purged(q[2..], now) by {
          assert q[1..][0] == q[1] && q[1..][1..] == q[2..];
        }
      }
    }
  }

  /** Two stale messages in a row: the pass as written keeps the second one. */
  lemma PurgeSkipFinding(a: Message, b: Message, now: real)
    requires Stale(a, now) && Stale(b, now)
    ensures SkipPurge([a, b], now) == [b]
    ensures Purged([a, b], now) == []
  {
    assert [a, b][1..] == [b] && [b][1..] == [];
    assert Purged([b], now) == [];
  }

  // ---------------------------------------------------------------------------------------------
  // The object

  class MessageSystem<D> {
    /** `_udp_server`: the server that acknowledgments and forwarded requests go through. */
    const udp: UdpServer<D>
    /** `_queue`: the messages not yet confirmed, oldest first. */
    var queue: seq<Message>

    /** The state `__init__` sets up; its registration with the server is in module Dispatch. */
    constructor (server: UdpServer<D>)
      ensures udp == server && queue == []
    {
      udp := server;
      queue := [];
    }

    /** The `for msg in self._queue: ... break / else` search of `process`: removes the first
        message with the id; `found` tells whether one had it (the warning is logged otherwise). */
    method RemoveConfirmed(extId: int) returns (found: bool)
      modifies this
      ensures queue == RemoveFirst(old(queue), extId)
      ensures found <==> exists i | 0 <= i < |old(queue)| :: old(queue)[i].internalExtId == extId
    {
      var i := 0;
      while i < |queue|
        invariant 0 <= i <= |queue| && queue == old(queue)
        invariant forall j | 0 <= j < i :: queue[j].internalExtId != extId
      {
        if queue[i].internalExtId == extId {
          queue := queue[..i] + queue[i + 1..];
          return true;
        }
        i := i + 1;
      }
      return false;
    }

    /** `process(xml_message, addr)` at time `now`, with `id` the internal id drawn for a new
        message: the new queue, the acknowledgment sent and the result are those of `StoreProcess`. */
    method Process(f: Frame, now: real, id: InternalId) returns (r: DriverResult)
      modifies this, udp
      ensures var s := StoreProcess(old(queue), f, now, id);
        && queue == s.queue && r == s.result
        && udp.sent == old(udp.sent) + (if s.ack.Some? then Transmit(old(udp.lastConnection), None, s.ack.value) else [])
      ensures udp.lastConnection == old(udp.lastConnection) && udp.drivers == old(udp.drivers)
    {
      var isRequest := TypeIs(f, "request", "job");
      if isRequest.None? {
        return Raised;
      }
      if isRequest.value {
        var m := NewMessage(f, now, id);
        if m.None? {
          return Raised;
        }
        queue := queue + [m.value];
        udp.SendDgram(GetMessageResponse(m.value), None);
        return Returned(true);
      }
      var isResponse := TypeIs(f, "response", "job");
      if isResponse.None? {
        return Raised;
      }
      if !isResponse.value {
        return Returned(false);
      }
      if f.hasJobdata {
        var extId := IntAt(f, "externalid");
        if extId.None? {
          return Raised;
        }
        var status := IntAt(f, "jobdata/status");
        if status.None? {
          return Raised;
        }
        if RemoveFromQueue(status.value) {
          var found := RemoveConfirmed(extId.value);
        }
      }
      return Returned(true);
    }

    /** The body of the retry loop for the message at position `i`: a due message is forwarded
        through the last origin and records `now` as its last attempt. */
    method RetryOne(i: nat, now: real) returns (ghost due: seq<Message>)
      requires i < |queue|
      modifies this, udp
      ensures due == DueOne(old(queue)[i], now)
      ensures queue == old(queue)[i := Touch(old(queue)[i], now)]
      ensures udp.sent == old(udp.sent) + Transmissions(old(udp.lastConnection), Forwards(due))
      ensures udp.lastConnection == old(udp.lastConnection) && udp.drivers == old(udp.drivers)
    {
      due := [];
      if Due(queue[i], now) {
        udp.SendDgram(GetMessage(queue[i]), None);
        due := [queue[i]];
        assert Forwards(due) == [GetMessage(queue[i])];
        queue := queue[i := queue[i].(lastSendTry := now)];
      }
    }

    /** The retry pass of `process_outbox`: every due message is forwarded again, through the last
        origin, and records `now` as its last attempt. */
    method RetryPass(now: real)
      modifies this, udp
      ensures queue == Retried(old(queue), now)
      ensures udp.sent == old(udp.sent) + Transmissions(old(udp.lastConnection), RetryDocs(old(queue), now))
      ensures udp.lastConnection == old(udp.lastConnection) && udp.drivers == old(udp.drivers)
    {
      ghost var q0, sent0, last := queue, udp.sent, udp.lastConnection;
      ghost var done: seq<Message> := [];
      RetriedUpToEnds(q0, now);
      assert done + DueMessages(q0[0..], now) == DueMessages(q0, now) by {
        assert q0[0..] == q0;
      }
      var i := 0;
      while i < |queue|
        invariant 0 <= i <= |q0| && queue == RetriedUpTo(q0, i, now)
        invariant done + DueMessages(q0[i..], now) == DueMessages(q0, now)
        invariant udp.sent == sent0 + Transmissions(last, Forwards(done))
        invariant udp.lastConnection == last && udp.drivers == old(udp.drivers)
      {
        RetriedUpToStep(q0, i, now);
        DueMessagesStep(q0, i, done, now);
        ghost var due := RetryOne(i, now);
        ForwardsAppend(done, due);
        SentStep(sent0, last, Forwards(done), Forwards(due));
        done := done + due;
        i := i + 1;
      }
      DueMessagesEnds(q0, done, now);
    }

    /** One round of the retry loop as written: a due message is encoded by `get_message` as written,
        which raises on an empty text field; otherwise it is sent and stamped as in `RetryOne`. */
    method RetryOneAsWritten(i: nat, now: real) returns (raised: bool, ghost due: seq<Message>)
      requires i < |queue|
      modifies this, udp
      ensures raised <==> Unsendable(old(queue)[i], now)
      ensures raised ==> queue == old(queue) && udp.sent == old(udp.sent)
      ensures !raised ==> due == DueOne(old(queue)[i], now)
      ensures !raised ==> queue == old(queue)[i := Touch(old(queue)[i], now)]
      ensures !raised ==> udp.sent == old(udp.sent) + Transmissions(old(udp.lastConnection), Forwards(due))
      ensures udp.lastConnection == old(udp.lastConnection) && udp.drivers == old(udp.drivers)
    {
      raised, due := false, [];
      if Due(queue[i], now) {
        var doc := GetMessageAsWritten(queue[i]);
        if doc.None? {
          return true, [];
        }
        EmptyTextFinding(queue[i]);
        udp.SendDgram(doc.value, None);
        due := [queue[i]];
        assert Forwards(due) == [GetMessage(queue[i])];
        queue := queue[i := queue[i].(lastSendTry := now)];
      }
    }

    /** The retry pass as written: it stops at the first due message whose `get_message` raises.
        The messages before it were sent and stamped, the rest were not, and `died` tells that the
        exception has left `process_outbox`. */
    method RetryPassAsWritten(now: real) returns (died: bool)
      modifies this, udp
      ensures died <==> FirstUnsendable(old(queue), now) < |old(queue)|
      ensures queue == RetriedUpTo(old(queue), FirstUnsendable(old(queue), now), now)
      ensures udp.sent == old(udp.sent) + Transmissions(old(udp.lastConnection),
        Forwards(DueMessages(old(queue)[..FirstUnsendable(old(queue), now)], now)))
      ensures udp.lastConnection == old(udp.lastConnection) && udp.drivers == old(udp.drivers)
    {
      ghost var q0, sent0, last := queue, udp.sent, udp.lastConnection;
      ghost var done: seq<Message> := [];
      RetriedUpToEnds(q0, now);
      assert q0[..0] == [];
      var i := 0;
      while i < |queue|
        invariant 0 <= i <= |q0| && queue == RetriedUpTo(q0, i, now)
        invariant forall j | 0 <= j < i :: !Unsendable(q0[j], now)
        invariant done == DueMessages(q0[..i], now)
        invariant udp.sent == sent0 + Transmissions(last, Forwards(done))
        invariant udp.lastConnection == last && udp.drivers == old(udp.drivers)
      {
        RetriedUpToStep(q0, i, now);
        var raised;
        ghost var due;
        raised, due := RetryOneAsWritten(i, now);
        if raised {
          return true;
        }
        DueMessagesSnoc(q0, i, now);
        ForwardsAppend(done, due);
        SentStep(sent0, last, Forwards(done), Forwards(due));
        done := done + due;
        i := i + 1;
      }
      return false;
    }

    /** One tick of `process_outbox` as written: the retry pass and, if it did not raise, the purge
        pass that skips the message after each removed one. */
    method ProcessOutboxTickAsWritten(now: real) returns (died: bool)
      modifies this, udp
      ensures died <==> FirstUnsendable(old(queue), now) < |old(queue)|
      ensures died ==> queue == RetriedUpTo(old(queue), FirstUnsendable(old(queue), now), now)
      ensures !died ==> queue == SkipPurge(Retried(old(queue), now), now)
      ensures udp.sent == old(udp.sent) + Transmissions(old(udp.lastConnection),
        Forwards(DueMessages(old(queue)[..FirstUnsendable(old(queue), now)], now)))
      ensures udp.lastConnection == old(udp.lastConnection) && udp.drivers == old(udp.drivers)
    {
      died := RetryPassAsWritten(now);
      if !died {
        RetriedUpToEnds(old(queue), now);
        PurgePassAsWritten(now);
      }
    }

    /** The purge pass as evidently intended: every message older than `MaxAge` leaves the queue. */
    method PurgePass(now: real)
      modifies this
      ensures queue == Purged(old(queue), now)
    {
      var kept := [];
      var i := 0;
      while i < |queue|
        invariant 0 <= i <= |queue| && queue == old(queue)
        invariant kept + Purged(queue[i..], now) == Purged(queue, now)
      {
        assert queue[i..][1..] == queue[i + 1..];
        if !Stale(queue[i], now) {
          kept := kept + [queue[i]];
        }
        i := i + 1;
      }
      assert queue[i..] == [];
      queue := kept;
    }

    /** The purge pass as written: `self._queue.remove(message)` inside `for message in self._queue`;
        the iterator's position `i` moves on past the element that slid into the removed one's place. */
    method PurgePassAsWritten(now: real)
      modifies this
      ensures queue == SkipPurge(old(queue), now)
    {
      // `done` is the part the iterator has passed, `rest` the part still ahead of it.
      ghost var done: seq<Message>, rest := [], queue;
      ghost var q0 := queue;
      var i := 0;
      while i < |queue|
        invariant queue == done + rest
        invariant done + SkipPurge(rest, now) == SkipPurge(q0, now)
        invariant i == |done| || (i == |done| + 1 && rest == [])
        decreases |queue| + 1 - i
      {
        assert queue[i] == rest[0];
        if Stale(queue[i], now) {
          SkipPurgeDropStep(done, rest, now);
          queue := queue[..i] + queue[i + 1..];
          if |rest| > 1 {
            done, rest := done + [rest[1]], rest[2..];
          } else {
            rest := [];
          }
        } else {
          SkipPurgeKeepStep(done, rest, now);
          done, rest := done + [rest[0]], rest[1..];
        }
        i := i + 1;
      }
    }

    /** One tick of `process_outbox`: the retry pass, then the purge pass. */
    method ProcessOutboxTick(now: real)
      modifies this, udp
      ensures queue == Purged(Retried(old(queue), now), now)
      ensures udp.sent == old(udp.sent) + Transmissions(old(udp.lastConnection), RetryDocs(old(queue), now))
      ensures udp.lastConnection == old(udp.lastConnection) && udp.drivers == old(udp.drivers)
    {
      RetryPass(now);
      PurgePass(now);
    }
  }

  /** After a tick no message in the queue is older than `MaxAge` or due for another attempt at the
      same instant, and every message not older than `MaxAge` is still there, with its last attempt
      recorded when it was due. */
  lemma TickEffect(q: seq<Message>, now: real)
    ensures forall m | m in Purged(Retried(q, now), now) :: !Stale(m, now) && !Due(m, now)
    ensures forall m | m in q && !Stale(m, now) :: Touch(m, now) in Purged(Retried(q, now), now)
  {
    var r := Retried(q, now);
    PurgedEffect(r, now);
    forall m | m in q && !Stale(m, now) ensures Touch(m, now) in Purged(r, now) {
      var k :| 0 <= k < |q| && q[k] == m;
      assert r[k] == Touch(m, now);
    }
    forall m | m in Purged(r, now) ensures !Due(m, now) {
      var k :| 0 <= k < |r| && r[k] == m;
    }
  }
}
