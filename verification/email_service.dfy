/** The batch dispatch pipeline of the email service and its send history.

    The service keeps three pieces of state: the global history of delivered
    emails, the same history indexed by sender, and the last status written
    for each recipient. A batch walks its recipients in order; each one is
    resolved in the nonprofit registry, its message is rendered from the
    template, the transport is called, and only a 2xx answer adds a record to
    the history. */
module EmailService {
  import opened Text
  import opened Entities
  import opened Results
  import opened Transport

  const NamePlaceholder: string := "{name}"
  const AddressPlaceholder: string := "{address}"

  const InProgressStatus: string := "IN_PROGRESS"
  const SentStatus: string := "SENT"
  const FailedStatus: string := "FAILED"

  /** The status written for a recipient missing from the registry. */
  function NotRegisteredStatus(receiverId: string): string
  {
    "Nonprofit not registered with email ID: " + receiverId
  }

  datatype State = State(
    sentEmailsBySender: map<string, seq<SentEmail>>,
    sentEmails: seq<SentEmail>,
    emailStatus: map<string, string>)

  /** The service as constructed: every collection empty. */
  const Initial: State := State(map[], [], map[])

  /** The message for one recipient: first every `{name}` is replaced by the
      nonprofit's name, then every `{address}` in that result by its address. */
  function Render(template: string, np: Nonprofit): string
  {
    ReplaceAll(ReplaceAll(template, NamePlaceholder, np.name), AddressPlaceholder, np.address)
  }

  /** What happened to one recipient of a batch. */
  datatype Attempt = NotRegistered | Failed | Sent(email: SentEmail)

  /** Resolve, render and hand to the transport one recipient of `req`. */
  function Try(req: EmailRequest, receiverId: string, registry: map<string, Nonprofit>, send: Send): Attempt
  {
    if receiverId !in registry then
      NotRegistered
    else
      var message := Render(req.emailBody, registry[receiverId]);
      if Delivers(send(req.senderId, receiverId, req.subject, message)) then
        Sent(SentEmail(req.senderId, receiverId, req.subject, message, SentStatus))
      else
        Failed
  }

  /** The final status string an attempt leaves for its recipient. */
  function StatusText(a: Attempt, receiverId: string): string
  {
    match a
    case NotRegistered => NotRegisteredStatus(receiverId)
    case Failed => FailedStatus
    case Sent(_) => SentStatus
  }

  /** The bucket of sender `s`, or the empty list when it has none. */
  function Bucket(svc: State, s: string): seq<SentEmail>
  {
    if s in svc.sentEmailsBySender then svc.sentEmailsBySender[s] else []
  }

  /** The entries of `history` sent by `s`, in history order. */
  function SentBy(history: seq<SentEmail>, s: string): (r: seq<SentEmail>)
    ensures |r| <= |history|
    ensures forall e :: e in r ==> e in history && e.senderId == s
  {
    if |history| == 0 then []
    else
      var last := history[|history| - 1];
      SentBy(history[..|history| - 1], s) + (if last.senderId == s then [last] else [])
  }

  /** Append one delivered email to the global list and to its sender's
      bucket, creating the bucket on the sender's first delivery. */
  function Record(svc: State, e: SentEmail): (r: State)
    ensures r.sentEmails == svc.sentEmails + [e]
    ensures r.sentEmailsBySender.Keys == svc.sentEmailsBySender.Keys + {e.senderId}
    ensures Bucket(r, e.senderId) == Bucket(svc, e.senderId) + [e]
    ensures forall s :: s != e.senderId ==> Bucket(r, s) == Bucket(svc, s)
    ensures r.emailStatus == svc.emailStatus
  {
    svc.(sentEmailsBySender := svc.sentEmailsBySender[e.senderId := Bucket(svc, e.senderId) + [e]],
         sentEmails := svc.sentEmails + [e])
  }

  /** One iteration of the dispatch loop. */
  function Step(svc: State, req: EmailRequest, receiverId: string, registry: map<string, Nonprofit>, send: Send): (r: State)
    // an unregistered recipient only gets the explanatory status
    ensures receiverId !in registry ==>
      && r.sentEmails == svc.sentEmails
      && r.sentEmailsBySender == svc.sentEmailsBySender
      && r.emailStatus == svc.emailStatus[receiverId := NotRegisteredStatus(receiverId)]
    // a transport failure, answer or exception, records nothing
    ensures (receiverId in registry
      && !Delivers(send(req.senderId, receiverId, req.subject, Render(req.emailBody, registry[receiverId])))) ==>
      && r.sentEmails == svc.sentEmails
      && r.sentEmailsBySender == svc.sentEmailsBySender
      && r.emailStatus == svc.emailStatus[receiverId := FailedStatus]
    // a delivery appends the same record to the global list and the sender's bucket
    ensures (receiverId in registry
      && Delivers(send(req.senderId, receiverId, req.subject, Render(req.emailBody, registry[receiverId])))) ==>
      var e := SentEmail(req.senderId, receiverId, req.subject, Render(req.emailBody, registry[receiverId]), SentStatus);
      && r.sentEmails == svc.sentEmails + [e]
      && r.sentEmailsBySender.Keys == svc.sentEmailsBySender.Keys + {req.senderId}
      && Bucket(r, req.senderId) == Bucket(svc, req.senderId) + [e]
      && (forall s :: s != req.senderId ==> Bucket(r, s) == Bucket(svc, s))
      && r.emailStatus == svc.emailStatus[receiverId := SentStatus]
  {
    match Try(req, receiverId, registry, send)
    case NotRegistered =>
      svc.(emailStatus := svc.emailStatus[receiverId := NotRegisteredStatus(receiverId)])
    case Failed =>
      var marked := svc.emailStatus[receiverId := InProgressStatus];
      svc.(emailStatus := marked[receiverId := FailedStatus])
    case Sent(e) =>
      var marked := svc.emailStatus[receiverId := InProgressStatus];
      Record(svc, e).(emailStatus := marked[receiverId := SentStatus])
  }

  /** The dispatch loop over the remaining recipients `ids`. The history only
      ever grows: what was there stays a prefix. */
  function SendEach(svc: State, req: EmailRequest, ids: seq<string>, registry: map<string, Nonprofit>, send: Send): (r: State)
    ensures svc.sentEmails <= r.sentEmails
    decreases |ids|
  {
    if |ids| == 0 then svc
    else SendEach(Step(svc, req, ids[0], registry, send), req, ids[1..], registry, send)
  }

  /** `sendEmails`: dispatch every recipient of the request, in order. The
      global list grows by exactly the delivered records and the sender's
      bucket by the same records; the bucket index is kept. */
  function SendEmails(svc: State, req: EmailRequest, registry: map<string, Nonprofit>, send: Send): (r: State)
    ensures r.sentEmails == svc.sentEmails + Delivered(req, req.receiverIds, registry, send)
    ensures BucketsIndexHistory(svc) ==>
      && BucketsIndexHistory(r)
      && Bucket(r, req.senderId) == Bucket(svc, req.senderId) + Delivered(req, req.receiverIds, registry, send)
  {
    SendAppendsDelivered(svc, req, req.receiverIds, registry, send);
    SendKeepsIndexWhenIndexed(svc, req, registry, send);
    SendEach(svc, req, req.receiverIds, registry, send)
  }

  lemma SendKeepsIndexWhenIndexed(svc: State, req: EmailRequest, registry: map<string, Nonprofit>, send: Send)
    ensures var r := SendEach(svc, req, req.receiverIds, registry, send);
      BucketsIndexHistory(svc) ==>
        && BucketsIndexHistory(r)
        && Bucket(r, req.senderId) == Bucket(svc, req.senderId) + Delivered(req, req.receiverIds, registry, send)
  {
    if BucketsIndexHistory(svc) {
      SendKeepsIndex(svc, req, req.receiverIds, registry, send);
      SendAppendsToBucket(svc, req, req.receiverIds, registry, send, req.senderId);
    }
  }

  /** `getSentEmails`: the whole global history, in insertion order. */
  function GetSentEmails(svc: State): (r: seq<SentEmail>)
    ensures r == svc.sentEmails
  {
    svc.sentEmails
  }

  /** `getSentEmailsBySender`: a copy of the sender's bucket. A sender without
      a bucket makes the source copy a null list, which faults. */
  function GetSentEmailsBySender(svc: State, senderId: string): (r: Result<seq<SentEmail>>)
    ensures r.Failure? <==> senderId !in svc.sentEmailsBySender
    ensures r.Success? ==> r.value == svc.sentEmailsBySender[senderId]
  {
    if senderId in svc.sentEmailsBySender then Success(svc.sentEmailsBySender[senderId])
    else Failure(NullPointerException)
  }

  // ---------------------------------------------------------------------
  // Reference: the records a batch should add, computed without any state
  // ---------------------------------------------------------------------

  /** The records a batch to `ids` delivers: one per registered recipient the
      transport accepts, in the order of `ids`, duplicates included. */
  function Delivered(req: EmailRequest, ids: seq<string>, registry: map<string, Nonprofit>, send: Send): (d: seq<SentEmail>)
    ensures |d| <= |ids|
    ensures forall e :: e in d ==>
      && e.senderId == req.senderId
      && e.subject == req.subject
      && e.status == SentStatus
      && e.recipient in ids
      && e.recipient in registry
      && e.message == Render(req.emailBody, registry[e.recipient])
    decreases |ids|
  {
    if |ids| == 0 then []
    else
      var first := match Try(req, ids[0], registry, send)
        case Sent(e) => [e]
        case _ => [];
      first + Delivered(req, ids[1..], registry, send)
  }

  /** The registered recipients among `ids`, in order. */
  function RegisteredIn(ids: seq<string>, registry: map<string, Nonprofit>): (r: seq<string>)
    ensures forall k :: k in r <==> k in ids && k in registry
    decreases |ids|
  {
    if |ids| == 0 then []
    else (if ids[0] in registry then [ids[0]] else []) + RegisteredIn(ids[1..], registry)
  }

  /** The recipients of a list of records. */
  function Recipients(d: seq<SentEmail>): (r: seq<string>)
    ensures |r| == |d|
    ensures forall i :: 0 <= i < |d| ==> r[i] == d[i].recipient
  {
    seq(|d|, i requires 0 <= i < |d| => d[i].recipient)
  }

  /** Every bucket equals the global history filtered by its sender, and a
      bucket exists exactly for the senders with at least one delivery. */
  ghost predicate BucketsIndexHistory(svc: State)
  {
    && (forall s :: Bucket(svc, s) == SentBy(svc.sentEmails, s))
    && (forall s :: s in svc.sentEmailsBySender ==> svc.sentEmailsBySender[s] != [])
  }

  // ---------------------------------------------------------------------
  // Lemmas
  // ---------------------------------------------------------------------

  /** Filtering distributes over an append of one entry. */
  lemma SentByAppend(h: seq<SentEmail>, e: SentEmail, s: string)
    ensures SentBy(h + [e], s) == SentBy(h, s) + (if e.senderId == s then [e] else [])
  {
    assert (h + [e])[..|h|] == h;
  }

  /** The new service satisfies the index invariant. */
  lemma InitialIndexed()
    ensures BucketsIndexHistory(Initial)
  {
  }

  /** One dispatch step keeps the buckets equal to the filtered history. */
  lemma StepKeepsIndex(svc: State, req: EmailRequest, receiverId: string, registry: map<string, Nonprofit>, send: Send)
    requires BucketsIndexHistory(svc)
    ensures BucketsIndexHistory(Step(svc, req, receiverId, registry, send))
  {
    var r := Step(svc, req, receiverId, registry, send);
    match Try(req, receiverId, registry, send)
    case Sent(e) =>
      forall s
        ensures Bucket(r, s) == SentBy(r.sentEmails, s)
      {
        SentByAppend(svc.sentEmails, e, s);
      }
    case _ =>
  }

  /** A whole batch keeps the buckets equal to the filtered history. */
  lemma {:induction false} SendKeepsIndex(svc: State, req: EmailRequest, ids: seq<string>, registry: map<string, Nonprofit>, send: Send)
    requires BucketsIndexHistory(svc)
    ensures BucketsIndexHistory(SendEach(svc, req, ids, registry, send))
    decreases |ids|
  {
    if |ids| > 0 {
      StepKeepsIndex(svc, req, ids[0], registry, send);
      SendKeepsIndex(Step(svc, req, ids[0], registry, send), req, ids[1..], registry, send);
    }
  }

  /** A batch extends the global history by exactly the delivered records,
      in recipient order. */
  lemma {:induction false} SendAppendsDelivered(svc: State, req: EmailRequest, ids: seq<string>, registry: map<string, Nonprofit>, send: Send)
    ensures SendEach(svc, req, ids, registry, send).sentEmails == svc.sentEmails + Delivered(req, ids, registry, send)
    decreases |ids|
  {
    if |ids| > 0 {
      var next := Step(svc, req, ids[0], registry, send);
      SendAppendsDelivered(next, req, ids[1..], registry, send);
    }
  }

  /** A batch extends each sender's bucket by its delivered records; only the
      request's sender gains any. */
  lemma SendAppendsToBucket(svc: State, req: EmailRequest, ids: seq<string>, registry: map<string, Nonprofit>, send: Send, s: string)
    requires BucketsIndexHistory(svc)
    ensures Bucket(SendEach(svc, req, ids, registry, send), s)
      == Bucket(svc, s) + (if s == req.senderId then Delivered(req, ids, registry, send) else [])
  {
    var d := Delivered(req, ids, registry, send);
    SendKeepsIndex(svc, req, ids, registry, send);
    SendAppendsDelivered(svc, req, ids, registry, send);
    SentByConcat(svc.sentEmails, d, s);
    SentByOwnSender(d, req.senderId, s);
  }

  /** Filtering distributes over concatenation. */
  lemma {:induction false} SentByConcat(h: seq<SentEmail>, d: seq<SentEmail>, s: string)
    ensures SentBy(h + d, s) == SentBy(h, s) + SentBy(d, s)
    decreases |d|
  {
    if |d| > 0 {
      var d' := d[..|d| - 1];
      var e := d[|d| - 1];
      assert d == d' + [e];
      assert h + d == (h + d') + [e];
      SentByConcat(h, d', s);
      SentByAppend(h + d', e, s);
      SentByAppend(d', e, s);
    } else {
      assert h + d == h;
    }
  }

  /** Records all sent by `sender` filter to themselves for `sender` and to
      nothing for anyone else. */
  lemma {:induction false} SentByOwnSender(d: seq<SentEmail>, sender: string, s: string)
    requires forall e :: e in d ==> e.senderId == sender
    ensures SentBy(d, s) == (if s == sender then d else [])
    decreases |d|
  {
    if |d| > 0 {
      var d' := d[..|d| - 1];
      var last := d[|d| - 1];
      assert last.senderId == sender by {
        assert last in d;
      }
      assert SentBy(d', s) == (if s == sender then d' else []) by {
        forall e | e in d'
          ensures e.senderId == sender
        {
          assert e in d;
        }
        SentByOwnSender(d', sender, s);
      }
      assert d == d' + [last];
    }
  }

  /** The final status of every recipient of the batch is the outcome of its
      own attempt, never IN_PROGRESS; recipients outside the batch keep
      theirs. */
  lemma {:induction false} SendStatus(svc: State, req: EmailRequest, ids: seq<string>, registry: map<string, Nonprofit>, send: Send, k: string)
    ensures var r := SendEach(svc, req, ids, registry, send);
      && (k in ids ==> k in r.emailStatus && r.emailStatus[k] == StatusText(Try(req, k, registry, send), k))
      && (k in ids ==> k in r.emailStatus && r.emailStatus[k] != InProgressStatus)
      && (k !in ids ==> (k in r.emailStatus <==> k in svc.emailStatus))
      && (k !in ids && k in svc.emailStatus ==> r.emailStatus[k] == svc.emailStatus[k])
    decreases |ids|
  {
    if |ids| > 0 {
      var next := Step(svc, req, ids[0], registry, send);
      SendStatus(next, req, ids[1..], registry, send, k);
      assert k in ids <==> k == ids[0] || k in ids[1..];
    }
    var st := StatusText(Try(req, k, registry, send), k);
    assert st != InProgressStatus by {
      if Try(req, k, registry, send).NotRegistered? {
        assert |NotRegisteredStatus(k)| > |InProgressStatus|;
      }
    }
  }

  /** Two batches one after the other with the same request fields act as
      one batch over both recipient lists. */
  lemma {:induction false} SendConcat(svc: State, req: EmailRequest, a: seq<string>, b: seq<string>, registry: map<string, Nonprofit>, send: Send)
    ensures SendEach(svc, req, a + b, registry, send)
      == SendEach(SendEach(svc, req, a, registry, send), req, b, registry, send)
    decreases |a|
  {
    if |a| > 0 {
      assert (a + b)[0] == a[0];
      assert (a + b)[1..] == a[1..] + b;
      SendConcat(Step(svc, req, a[0], registry, send), req, a[1..], b, registry, send);
    } else {
      assert a + b == b;
    }
  }

  /** A batch whose recipients are all unregistered leaves the history and
      every bucket as they were. */
  lemma {:induction false} UnregisteredBatchRecordsNothing(svc: State, req: EmailRequest, ids: seq<string>, registry: map<string, Nonprofit>, send: Send)
    requires forall k :: k in ids ==> k !in registry
    ensures SendEach(svc, req, ids, registry, send).sentEmails == svc.sentEmails
    ensures SendEach(svc, req, ids, registry, send).sentEmailsBySender == svc.sentEmailsBySender
    decreases |ids|
  {
    if |ids| > 0 {
      assert ids[0] in ids;
      assert forall k :: k in ids[1..] ==> k in ids;
      UnregisteredBatchRecordsNothing(Step(svc, req, ids[0], registry, send), req, ids[1..], registry, send);
    }
  }

  /** With the mock transport every registered recipient is delivered: the
      recorded recipients are exactly the registered ids, in order. */
  lemma {:induction false} MockDeliversEveryRegistered(req: EmailRequest, ids: seq<string>, registry: map<string, Nonprofit>)
    ensures Recipients(Delivered(req, ids, registry, MockSend)) == RegisteredIn(ids, registry)
    decreases |ids|
  {
    if |ids| > 0 {
      MockDeliversEveryRegistered(req, ids[1..], registry);
      var first := match Try(req, ids[0], registry, MockSend)
        case Sent(e) => [e]
        case _ => [];
      RecipientsConcat(first, Delivered(req, ids[1..], registry, MockSend));
    }
  }

  lemma RecipientsConcat(a: seq<SentEmail>, b: seq<SentEmail>)
    ensures Recipients(a + b) == Recipients(a) + Recipients(b)
  {
  }

  /** Under the index invariant, the per-sender read is the global history
      filtered by that sender, and it faults exactly when that filter is
      empty. */
  lemma BySenderIsFilteredHistory(svc: State, s: string)
    requires BucketsIndexHistory(svc)
    ensures GetSentEmailsBySender(svc, s)
      == if SentBy(svc.sentEmails, s) == [] then Failure(NullPointerException)
         else Success(SentBy(svc.sentEmails, s))
  {
    assert Bucket(svc, s) == SentBy(svc.sentEmails, s);
  }
}
