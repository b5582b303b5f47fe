/** The REST controller: it owns the nonprofit registry, keyed by email, and
    hands batches and history reads to the email service. HTTP is reduced to
    a status and a body. */
module NonprofitController {
  import opened Entities
  import opened Results
  import opened Transport
  import EmailService

  datatype HttpStatus = Ok | Created | Conflict

  datatype Response<+T> = Response(status: HttpStatus, body: T)

  datatype Controller = Controller(
    nonprofitEmailMapper: map<string, Nonprofit>,
    emailService: EmailService.State)

  /** The controller as constructed: no nonprofits, a new email service. */
  const Initial: Controller := Controller(map[], EmailService.Initial)

  /** Every registry entry is stored under its own email, and the service's
      buckets index its history. */
  ghost predicate Valid(c: Controller)
  {
    && (forall k :: k in c.nonprofitEmailMapper ==> c.nonprofitEmailMapper[k].email == k)
    && EmailService.BucketsIndexHistory(c.emailService)
  }

  /** `POST /nonprofits`: register `np` under its email unless that email is
      taken. A taken email is a conflict and the existing record is kept. */
  function CreateNonprofit(c: Controller, np: Nonprofit): (r: (Controller, Response<string>))
    ensures np.email in c.nonprofitEmailMapper ==>
      && r.0 == c
      && r.1 == Response(Conflict, "Nonprofit with email " + np.email + " already exists")
    ensures np.email !in c.nonprofitEmailMapper ==>
      && r.1 == Response(Created, "Nonprofit with email " + np.email + " added successfully")
      && np.email in r.0.nonprofitEmailMapper
      && r.0.nonprofitEmailMapper[np.email] == np
    ensures r.0.nonprofitEmailMapper.Keys == c.nonprofitEmailMapper.Keys + {np.email}
    ensures forall k :: k in c.nonprofitEmailMapper ==> k in r.0.nonprofitEmailMapper && r.0.nonprofitEmailMapper[k] == c.nonprofitEmailMapper[k]
    ensures r.0.emailService == c.emailService
  {
    var emailId := np.email;
    if emailId in c.nonprofitEmailMapper then
      (c, Response(Conflict, "Nonprofit with email " + np.email + " already exists"))
    else
      (c.(nonprofitEmailMapper := c.nonprofitEmailMapper[emailId := np]),
       Response(Created, "Nonprofit with email " + np.email + " added successfully"))
  }

  /** `POST /send-emails`: run the batch against the registry, then always
      acknowledge. The registry is only read; the history grows by the
      delivered records. */
  function SendEmails(c: Controller, req: EmailRequest, send: Send): (r: (Controller, Response<string>))
    ensures r.1 == Response(Ok, "Email sending initiated")
    ensures r.0.nonprofitEmailMapper == c.nonprofitEmailMapper
    ensures r.0.emailService.sentEmails
      == c.emailService.sentEmails + EmailService.Delivered(req, req.receiverIds, c.nonprofitEmailMapper, send)
  {
    EmailService.SendAppendsDelivered(c.emailService, req, req.receiverIds, c.nonprofitEmailMapper, send);
    var svc := EmailService.SendEmails(c.emailService, req, c.nonprofitEmailMapper, send);
    (c.(emailService := svc), Response(Ok, "Email sending initiated"))
  }

  /** `GET /sent-emails`: the whole history with status OK. */
  function GetSentEmails(c: Controller): (r: Response<seq<SentEmail>>)
    ensures r == Response(Ok, c.emailService.sentEmails)
  {
    Response(Ok, EmailService.GetSentEmails(c.emailService))
  }

  /** `GET /sent-emails/{senderId}`: the sender's bucket with status OK; the
      service's fault on a sender without a bucket propagates. */
  function GetSentEmailsBySender(c: Controller, senderId: string): (r: Result<Response<seq<SentEmail>>>)
    ensures r.Failure? <==> senderId !in c.emailService.sentEmailsBySender
    ensures r.Success? ==> r.value == Response(Ok, c.emailService.sentEmailsBySender[senderId])
  {
    match EmailService.GetSentEmailsBySender(c.emailService, senderId)
    case Success(emails) => Success(Response(Ok, emails))
    case Failure(f) => Failure(f)
  }

  /** Registering the same email twice: the second call is a conflict and
      changes nothing, whatever the second record holds. */
  lemma DuplicateRegistrationChangesNothing(c: Controller, first: Nonprofit, second: Nonprofit)
    requires first.email == second.email
    ensures var c1 := CreateNonprofit(c, first).0;
      && CreateNonprofit(c1, second)
        == (c1, Response(Conflict, "Nonprofit with email " + second.email + " already exists"))
      && (first.email !in c.nonprofitEmailMapper ==> c1.nonprofitEmailMapper[first.email] == first)
  {
  }

  lemma InitialValid()
    ensures Valid(Initial)
  {
    EmailService.InitialIndexed();
  }

  /** Registration keeps the controller valid. */
  lemma CreateKeepsValid(c: Controller, np: Nonprofit)
    requires Valid(c)
    ensures Valid(CreateNonprofit(c, np).0)
  {
  }

  /** A batch keeps the controller valid, and it extends the sender's bucket
      by exactly the records it adds to the global history. */
  lemma SendKeepsValid(c: Controller, req: EmailRequest, send: Send)
    requires Valid(c)
    ensures Valid(SendEmails(c, req, send).0)
    ensures var c' := SendEmails(c, req, send).0;
      EmailService.Bucket(c'.emailService, req.senderId)
        == EmailService.Bucket(c.emailService, req.senderId)
           + EmailService.Delivered(req, req.receiverIds, c.nonprofitEmailMapper, send)
  {
    EmailService.SendKeepsIndex(c.emailService, req, req.receiverIds, c.nonprofitEmailMapper, send);
    EmailService.SendAppendsToBucket(c.emailService, req, req.receiverIds, c.nonprofitEmailMapper, send, req.senderId);
  }

  /** On a valid controller, the per-sender endpoint answers the global
      history filtered by that sender, and faults exactly when the sender
      has delivered nothing. */
  lemma BySenderEndpointIsFilteredHistory(c: Controller, senderId: string)
    requires Valid(c)
    ensures GetSentEmailsBySender(c, senderId)
      == if EmailService.SentBy(c.emailService.sentEmails, senderId) == [] then Failure(NullPointerException)
         else Success(Response(Ok, EmailService.SentBy(c.emailService.sentEmails, senderId)))
  {
    EmailService.BySenderIsFilteredHistory(c.emailService, senderId);
  }
}
