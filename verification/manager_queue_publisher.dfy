/**
 * The "order submitted" event sent to the manager review queue: the message body,
 * the broker envelope built around it, and the single send.
 */
module ManagerQueuePublisher {
  import opened Wrappers

  /** The event body. */
  datatype OrderSubmittedMessage = OrderSubmittedMessage(orderId: string, tenantId: string, createdAt: int)

  /**
   * The broker message. The JSON serialisation of the body is not modelled: `body`
   * is the record that gets serialised.
   */
  datatype Envelope = Envelope(
    body: OrderSubmittedMessage,
    contentType: string,
    messageId: string,
    correlationId: string,
    subject: string,
    sessionId: Option<string>
  )

  const JsonContentType: string := "application/json"
  const SubmittedSubject: string := "OrderSubmitted"

  /** The deduplication key: tenant id and order id joined by a colon. */
  function DedupId(tenantId: string, orderId: string): string {
    tenantId + ":" + orderId
  }

  /** Position of the last colon in `s`, if any. */
  function LastColon(s: string): (r: Option<nat>)
    ensures r.Some? ==> r.value < |s| && s[r.value] == ':'
    ensures r.Some? ==> forall j | r.value < j < |s| :: s[j] != ':'
    ensures r.None? <==> forall j | 0 <= j < |s| :: s[j] != ':'
  {
    if |s| == 0 then None
    else if s[|s| - 1] == ':' then Some(|s| - 1)
    else LastColon(s[..|s| - 1])
  }

  /** Reads a deduplication key back into tenant id and order id, splitting at the last colon. */
  function SplitDedupId(id: string): (r: Option<(string, string)>)
    ensures r.Some? ==> ':' !in r.value.1
  {
    match LastColon(id)
    case None => None
    case Some(i) => Some((id[..i], id[i + 1..]))
  }

  /** For a colon-free order id, splitting the key gives back the tenant id and the order id. */
  lemma SplitInvertsDedupId(tenantId: string, orderId: string)
    ensures ':' !in orderId ==> SplitDedupId(DedupId(tenantId, orderId)) == Some((tenantId, orderId))
  {
    if ':' !in orderId {
      var id := DedupId(tenantId, orderId);
      var n := |tenantId|;
      assert id[n] == ':';
      forall j | n < j < |id| ensures id[j] != ':' {
        assert id[j] == orderId[j - n - 1];
      }
      var r := LastColon(id);
      assert r == Some(n);
      assert id[..n] == tenantId && id[n + 1..] == orderId;
    }
  }

  /** Every key that splits is the key of what it splits into. */
  lemma DedupIdInvertsSplit(id: string)
    requires SplitDedupId(id).Some?
    ensures DedupId(SplitDedupId(id).value.0, SplitDedupId(id).value.1) == id
  {
    var i := LastColon(id).value;
    assert id == id[..i] + ":" + id[i + 1..];
  }

  /** With colon-free order ids, two keys are equal exactly when tenant and order ids both are. */
  lemma DedupIdIdentifiesOrder(t1: string, o1: string, t2: string, o2: string)
    requires ':' !in o1 && ':' !in o2
    ensures DedupId(t1, o1) == DedupId(t2, o2) <==> t1 == t2 && o1 == o2
  {
    if DedupId(t1, o1) == DedupId(t2, o2) {
      SplitInvertsDedupId(t1, o1);
      SplitInvertsDedupId(t2, o2);
    }
  }

  /** Without that restriction the key is ambiguous: a colon may sit in either id. */
  lemma DedupIdAmbiguousForColonIds()
    ensures DedupId("a:b", "c") == DedupId("a", "b:c")
  {
  }

  /** The envelope `PublishOrderSubmittedAsync` wraps around the message. */
  function BuildEnvelope(msg: OrderSubmittedMessage): (e: Envelope)
    ensures e.body == msg
    ensures e.contentType == "application/json" && e.subject == "OrderSubmitted"
    ensures e.correlationId == msg.orderId
    ensures e.messageId == msg.tenantId + ":" + msg.orderId
    ensures e.sessionId.None?
    ensures ':' !in msg.orderId ==> SplitDedupId(e.messageId) == Some((msg.tenantId, msg.orderId))
  {
    var e := Envelope(
      body := msg,
      contentType := JsonContentType,
      messageId := DedupId(msg.tenantId, msg.orderId),
      correlationId := msg.orderId,
      subject := SubmittedSubject,
      sessionId := None
    );
    SplitInvertsDedupId(msg.tenantId, msg.orderId);
    e
  }

  /** Re-publishing the same order reuses its deduplication key, whatever its creation time. */
  lemma RepublishReusesDedupId(m1: OrderSubmittedMessage, m2: OrderSubmittedMessage)
    requires m1.tenantId == m2.tenantId && m1.orderId == m2.orderId
    ensures BuildEnvelope(m1).messageId == BuildEnvelope(m2).messageId
  {
  }

  /** The queue after a publish call, and whether the send threw. */
  datatype Sent = Sent(queue: seq<Envelope>, thrown: bool)

  /**
   * `PublishOrderSubmittedAsync`: one send of the envelope. `sendFails` stands for the
   * broker rejecting or not answering the send, which surfaces as an exception.
   */
  function PublishOrderSubmitted(queue: seq<Envelope>, msg: OrderSubmittedMessage, sendFails: bool): (r: Sent)
    ensures r.thrown <==> sendFails
    ensures r.thrown ==> r.queue == queue
    ensures !r.thrown ==> |r.queue| == |queue| + 1 && r.queue[..|queue|] == queue
    ensures !r.thrown ==> r.queue[|queue|].body == msg && r.queue[|queue|].correlationId == msg.orderId
    ensures !r.thrown ==> r.queue[|queue|] == BuildEnvelope(msg)
  {
    if sendFails then Sent(queue, true)
    else Sent(queue + [BuildEnvelope(msg)], false)
  }
}
