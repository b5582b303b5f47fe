/** The integration scenarios of the service, replayed on the model. */
module Scenarios {
  import opened Text
  import opened Entities
  import opened Results
  import opened Transport
  import EmailService
  import opened NonprofitController

  const Lead: string := "Sending money to nonprofit "
  const Middle: string := " at address "

  /** A template with one `{name}` and then one `{address}`, and no other
      brace, renders to its literal text with the two values filled in. */
  lemma {:induction false} FillBothPlaceholders(lead: string, mid: string, np: Nonprofit)
    requires '{' !in lead && '{' !in mid && '{' !in np.name
    ensures EmailService.Render(lead + "{name}" + mid + "{address}", np)
         == lead + np.name + mid + np.address
  {
    var template := lead + "{name}" + mid + "{address}";
    assert template == lead + ("{name}" + (mid + "{address}"));
    NamePass(lead, mid, np.name);
    var once := lead + np.name + mid;
    assert '{' !in once;
    AddressPass(once, np.address);
  }

  /** The `{name}` pass: the name replaces its placeholder and the
      `{address}` placeholder is copied. */
  lemma {:induction false} NamePass(lead: string, mid: string, name: string)
    requires '{' !in lead && '{' !in mid
    ensures ReplaceAll(lead + ("{name}" + (mid + "{address}")), "{name}", name)
         == lead + name + mid + "{address}"
  {
    var rest := mid + "{address}";
    assert ReplaceAll(lead + ("{name}" + rest), "{name}", name) == lead + ReplaceAll("{name}" + rest, "{name}", name) by {
      ReplaceAllCopiesFreeText(lead, "{name}" + rest, "{name}", name);
    }
    assert ReplaceAll("{name}" + rest, "{name}", name) == name + ReplaceAll(rest, "{name}", name) by {
      ReplaceAllAtMatch(rest, "{name}", name);
    }
    assert ReplaceAll(rest, "{name}", name) == rest by {
      ReplaceAllCopiesFreeText(mid, "{address}", "{name}", name);
      AddressIsNotName(name);
    }
    assert lead + (name + rest) == lead + name + mid + "{address}";
  }

  /** `{address}` holds no `{name}`, so the name pass copies it. */
  lemma {:induction false} AddressIsNotName(name: string)
    ensures ReplaceAll("{address}", "{name}", name) == "{address}"
  {
    assert "{address}" == ['{'] + "address}";
    ReplaceAllCopiesNearMiss('{', "address}", "{name}", name);
  }

  /** The `{address}` pass over text whose only brace opens the placeholder
      at its end. */
  lemma {:induction false} AddressPass(prefix: string, address: string)
    requires '{' !in prefix
    ensures ReplaceAll(prefix + "{address}", "{address}", address) == prefix + address
  {
    assert prefix + "{address}" == prefix + ("{address}" + []);
    ReplaceAllCopiesFreeText(prefix, "{address}" + [], "{address}", address);
    ReplaceAllAtMatch([], "{address}", address);
    assert address + [] == address;
  }

  /** The placeholder template of the integration test renders with the
      nonprofit's stored name and address. */
  lemma {:induction false} TemplateRendering()
    ensures EmailService.Render(Lead + "{name}" + Middle + "{address}", Nonprofit("Org1", "Street 1", "org1@email.com"))
         == "Sending money to nonprofit Org1 at address Street 1"
  {
    var np := Nonprofit("Org1", "Street 1", "org1@email.com");
    assert EmailService.Render(Lead + "{name}" + Middle + "{address}", np) == Lead + np.name + Middle + np.address by {
      FillBothPlaceholders(Lead, Middle, np);
    }
    assert Lead + np.name + Middle + np.address == "Sending money to nonprofit Org1 at address Street 1";
  }

  /** The registry after registering two nonprofits with distinct emails
      on a new controller. */
  lemma {:induction false} TwoRegistrations(n1: Nonprofit, n2: Nonprofit)
    requires n1.email != n2.email
    ensures CreateNonprofit(CreateNonprofit(Initial, n1).0, n2).0
         == Controller(map[n1.email := n1, n2.email := n2], EmailService.Initial)
  {
  }

  /** A two-recipient batch through the mock transport delivers one record
      per recipient, in order, when both are registered. */
  lemma {:induction false} MockDeliversBoth(req: EmailRequest, registry: map<string, Nonprofit>)
    requires |req.receiverIds| == 2
    requires req.receiverIds[0] in registry && req.receiverIds[1] in registry
    ensures EmailService.Delivered(req, req.receiverIds, registry, MockSend) == [
      SentEmail(req.senderId, req.receiverIds[0], req.subject,
                EmailService.Render(req.emailBody, registry[req.receiverIds[0]]), "SENT"),
      SentEmail(req.senderId, req.receiverIds[1], req.subject,
                EmailService.Render(req.emailBody, registry[req.receiverIds[1]]), "SENT")]
  {
    var ids := req.receiverIds;
    assert ids[1..][0] == ids[1];
    assert |ids[1..][1..]| == 0;
  }

  /** Two registrations, one batch through the mock transport with a
      `{name}`/`{address}` template, then a read of the whole history: two
      SENT records in recipient order carrying each nonprofit's own name
      and address. */
  lemma {:induction false} TemplateBatchScenario(n1: Nonprofit, n2: Nonprofit, senderId: string, subject: string,
                                                 lead: string, mid: string)
    requires n1.email != n2.email
    requires '{' !in n1.name && '{' !in n2.name && '{' !in lead && '{' !in mid
    ensures
      var c := CreateNonprofit(CreateNonprofit(Initial, n1).0, n2).0;
      var req := EmailRequest(senderId, [n1.email, n2.email], subject, lead + "{name}" + mid + "{address}");
      GetSentEmails(SendEmails(c, req, MockSend).0) == Response(Ok, [
        SentEmail(senderId, n1.email, subject, lead + n1.name + mid + n1.address, "SENT"),
        SentEmail(senderId, n2.email, subject, lead + n2.name + mid + n2.address, "SENT")])
  {
    TwoRegistrations(n1, n2);
    var c := CreateNonprofit(CreateNonprofit(Initial, n1).0, n2).0;
    var req := EmailRequest(senderId, [n1.email, n2.email], subject, lead + "{name}" + mid + "{address}");
    MockDeliversBoth(req, c.nonprofitEmailMapper);
    FillBothPlaceholders(lead, mid, n1);
    FillBothPlaceholders(lead, mid, n2);
    assert c.nonprofitEmailMapper[n1.email] == n1 && c.nonprofitEmailMapper[n2.email] == n2;
    assert c.emailService.sentEmails == [];
    var d := EmailService.Delivered(req, req.receiverIds, c.nonprofitEmailMapper, MockSend);
    assert d == [SentEmail(senderId, n1.email, subject, lead + n1.name + mid + n1.address, "SENT"),
                 SentEmail(senderId, n2.email, subject, lead + n2.name + mid + n2.address, "SENT")];
    assert SendEmails(c, req, MockSend).0.emailService.sentEmails == [] + d;
    assert [] + d == d;
  }

  /** The integration test's own values. */
  lemma TemplateBatchWithTestValues()
    ensures
      var c := CreateNonprofit(CreateNonprofit(Initial, Nonprofit("Org1", "Street 1", "org1@email.com")).0,
                               Nonprofit("Org2", "Street 2", "org2@email.com")).0;
      var req := EmailRequest("adminX@temelio.com", ["org1@email.com", "org2@email.com"], "Test Subject",
                              Lead + "{name}" + Middle + "{address}");
      GetSentEmails(SendEmails(c, req, MockSend).0).body == [
        SentEmail("adminX@temelio.com", "org1@email.com", "Test Subject", Lead + "Org1" + Middle + "Street 1", "SENT"),
        SentEmail("adminX@temelio.com", "org2@email.com", "Test Subject", Lead + "Org2" + Middle + "Street 2", "SENT")]
  {
    TemplateBatchScenario(Nonprofit("Org1", "Street 1", "org1@email.com"), Nonprofit("Org2", "Street 2", "org2@email.com"),
                          "adminX@temelio.com", "Test Subject", Lead, Middle);
  }

  /** A body without an opening brace holds neither placeholder, so every
      recipient receives it verbatim. */
  lemma {:induction false} NoPlaceholder(body: string, np: Nonprofit)
    requires '{' !in body
    ensures EmailService.Render(body, np) == body
  {
    var named := ReplaceAll(body, EmailService.NamePlaceholder, np.name);
    assert body + [] == body;
    assert named == body by {
      assert EmailService.NamePlaceholder[0] == '{';
      ReplaceAllCopiesFreeText(body, [], EmailService.NamePlaceholder, np.name);
    }
    assert EmailService.AddressPlaceholder[0] == '{';
    ReplaceAllCopiesFreeText(body, [], EmailService.AddressPlaceholder, np.address);
  }

  /** A batch to an email nobody registered records nothing, still
      acknowledges, and leaves the explanatory status. */
  lemma {:induction false} UnregisteredRecipientScenario(c: Controller, req: EmailRequest, k: string)
    requires req.receiverIds == [k] && k !in c.nonprofitEmailMapper
    ensures
      var r := SendEmails(c, req, MockSend);
      && r.1 == Response(Ok, "Email sending initiated")
      && GetSentEmails(r.0) == GetSentEmails(c)
      && r.0.emailService.sentEmailsBySender == c.emailService.sentEmailsBySender
      && k in r.0.emailService.emailStatus
      && r.0.emailService.emailStatus[k] == "Nonprofit not registered with email ID: " + k
  {
    EmailService.UnregisteredBatchRecordsNothing(c.emailService, req, req.receiverIds, c.nonprofitEmailMapper, MockSend);
    EmailService.SendStatus(c.emailService, req, req.receiverIds, c.nonprofitEmailMapper, MockSend, k);
  }

  /** The duplicate registration of the integration test: the second
      attempt is a conflict and the first record stays. */
  lemma {:induction false} DuplicateRegistrationScenario(np: Nonprofit)
    ensures
      var r1 := CreateNonprofit(Initial, np);
      var r2 := CreateNonprofit(r1.0, np);
      && r1.1.status == Created
      && r2.1.status == Conflict
      && r2.0 == r1.0
      && r2.0.nonprofitEmailMapper == map[np.email := np]
  {
  }

  /** After two batches from a valid controller, a sender's bucket is its
      old bucket followed by what each batch it sent delivered. */
  lemma {:induction false} BucketAfterTwoBatches(c0: Controller, req1: EmailRequest, req2: EmailRequest, s: string)
    requires Valid(c0)
    ensures
      var c1 := SendEmails(c0, req1, MockSend).0;
      var c2 := SendEmails(c1, req2, MockSend).0;
      && Valid(c2)
      && c2.nonprofitEmailMapper == c0.nonprofitEmailMapper
      && EmailService.Bucket(c2.emailService, s)
         == EmailService.Bucket(c0.emailService, s)
            + (if s == req1.senderId then EmailService.Delivered(req1, req1.receiverIds, c0.nonprofitEmailMapper, MockSend) else [])
            + (if s == req2.senderId then EmailService.Delivered(req2, req2.receiverIds, c0.nonprofitEmailMapper, MockSend) else [])
  {
    var c1 := SendEmails(c0, req1, MockSend).0;
    SendKeepsValid(c0, req1, MockSend);
    SendKeepsValid(c1, req2, MockSend);
    EmailService.SendAppendsToBucket(c0.emailService, req1, req1.receiverIds, c0.nonprofitEmailMapper, MockSend, s);
    EmailService.SendAppendsToBucket(c1.emailService, req2, req2.receiverIds, c1.nonprofitEmailMapper, MockSend, s);
  }

  /** On a valid controller, a sender with a non-empty bucket is answered
      that bucket. */
  lemma {:induction false} EndpointAnswersBucket(c: Controller, s: string)
    requires Valid(c)
    requires EmailService.Bucket(c.emailService, s) != []
    ensures GetSentEmailsBySender(c, s) == Success(Response(Ok, EmailService.Bucket(c.emailService, s)))
  {
  }

  /** Four registrations with distinct emails on a new controller, as the
      per-sender test performs them. */
  function RegisterFour(n1: Nonprofit, n2: Nonprofit, n3: Nonprofit, n4: Nonprofit): Controller
  {
    CreateNonprofit(CreateNonprofit(CreateNonprofit(CreateNonprofit(Initial, n1).0, n2).0, n3).0, n4).0
  }

  /** After four registrations with distinct emails the controller is valid,
      has sent nothing, and stores each record under its email. */
  lemma {:induction false} FourRegistrations(n1: Nonprofit, n2: Nonprofit, n3: Nonprofit, n4: Nonprofit)
    requires n1.email != n2.email && n1.email != n3.email && n1.email != n4.email
    requires n2.email != n3.email && n2.email != n4.email && n3.email != n4.email
    ensures var c := RegisterFour(n1, n2, n3, n4);
      && Valid(c)
      && c.emailService == EmailService.Initial
      && c.nonprofitEmailMapper.Keys == {n1.email, n2.email, n3.email, n4.email}
      && c.nonprofitEmailMapper[n1.email] == n1 && c.nonprofitEmailMapper[n2.email] == n2
      && c.nonprofitEmailMapper[n3.email] == n3 && c.nonprofitEmailMapper[n4.email] == n4
  {
    var c1 := CreateNonprofit(Initial, n1).0;
    var c2 := CreateNonprofit(c1, n2).0;
    var c3 := CreateNonprofit(c2, n3).0;
    var c4 := CreateNonprofit(c3, n4).0;
    InitialValid();
    CreateKeepsValid(Initial, n1);
    CreateKeepsValid(c1, n2);
    CreateKeepsValid(c2, n3);
    CreateKeepsValid(c3, n4);
    assert c1.nonprofitEmailMapper.Keys == {n1.email};
    assert c2.nonprofitEmailMapper.Keys == {n1.email, n2.email};
    assert c3.nonprofitEmailMapper.Keys == {n1.email, n2.email, n3.email};
  }

  /** The per-sender scenario: four registrations, then one batch from each
      of two senders to two disjoint pairs of nonprofits. Each sender's
      endpoint answers exactly its own two records, in recipient order. */
  lemma {:induction false} TwoSendersScenario(n1: Nonprofit, n2: Nonprofit, n3: Nonprofit, n4: Nonprofit,
                                              req1: EmailRequest, req2: EmailRequest)
    requires n1.email != n2.email && n1.email != n3.email && n1.email != n4.email
    requires n2.email != n3.email && n2.email != n4.email && n3.email != n4.email
    requires req1.senderId != req2.senderId
    requires req1.receiverIds == [n1.email, n2.email] && req2.receiverIds == [n3.email, n4.email]
    ensures
      var c2 := SendEmails(SendEmails(RegisterFour(n1, n2, n3, n4), req1, MockSend).0, req2, MockSend).0;
      && GetSentEmailsBySender(c2, req1.senderId) == Success(Response(Ok, [
           SentEmail(req1.senderId, n1.email, req1.subject, EmailService.Render(req1.emailBody, n1), "SENT"),
           SentEmail(req1.senderId, n2.email, req1.subject, EmailService.Render(req1.emailBody, n2), "SENT")]))
      && GetSentEmailsBySender(c2, req2.senderId) == Success(Response(Ok, [
           SentEmail(req2.senderId, n3.email, req2.subject, EmailService.Render(req2.emailBody, n3), "SENT"),
           SentEmail(req2.senderId, n4.email, req2.subject, EmailService.Render(req2.emailBody, n4), "SENT")]))
  {
    var c0 := RegisterFour(n1, n2, n3, n4);
    var c2 := SendEmails(SendEmails(c0, req1, MockSend).0, req2, MockSend).0;
    FourRegistrations(n1, n2, n3, n4);
    BucketAfterTwoBatches(c0, req1, req2, req1.senderId);
    FirstSenderBucket(c0, req1, req2, n1, n2);
    SecondSenderBucket(c0, req1, req2, n3, n4);
    EndpointAnswersBucket(c2, req1.senderId);
    EndpointAnswersBucket(c2, req2.senderId);
  }

  /** In a sender's bucket that was empty, two batches leave exactly the
      records of the batch that sender sent. */
  lemma {:induction false} OwnBatchFillsBucket(c0: Controller, req1: EmailRequest, req2: EmailRequest, s: string, own: EmailRequest)
    requires Valid(c0)
    requires EmailService.Bucket(c0.emailService, s) == []
    requires req1.senderId != req2.senderId
    requires own == req1 || own == req2
    requires s == own.senderId
    ensures
      var c2 := SendEmails(SendEmails(c0, req1, MockSend).0, req2, MockSend).0;
      EmailService.Bucket(c2.emailService, s) == EmailService.Delivered(own, own.receiverIds, c0.nonprofitEmailMapper, MockSend)
  {
    var d := EmailService.Delivered(own, own.receiverIds, c0.nonprofitEmailMapper, MockSend);
    BucketAfterTwoBatches(c0, req1, req2, s);
    if own == req1 {
      assert [] + d + [] == d;
    } else {
      assert [] + [] + d == d;
    }
  }

  /** The first sender's bucket after the two batches of the two-sender
      scenario holds its own two records. */
  lemma {:induction false} FirstSenderBucket(c0: Controller, req1: EmailRequest, req2: EmailRequest, n1: Nonprofit, n2: Nonprofit)
    requires Valid(c0)
    requires n1.email in c0.nonprofitEmailMapper && c0.nonprofitEmailMapper[n1.email] == n1
    requires n2.email in c0.nonprofitEmailMapper && c0.nonprofitEmailMapper[n2.email] == n2
    requires c0.emailService == EmailService.Initial
    requires req1.senderId != req2.senderId
    requires req1.receiverIds == [n1.email, n2.email]
    ensures
      var c2 := SendEmails(SendEmails(c0, req1, MockSend).0, req2, MockSend).0;
      EmailService.Bucket(c2.emailService, req1.senderId) == [
        SentEmail(req1.senderId, n1.email, req1.subject, EmailService.Render(req1.emailBody, n1), "SENT"),
        SentEmail(req1.senderId, n2.email, req1.subject, EmailService.Render(req1.emailBody, n2), "SENT")]
  {
    var registry := c0.nonprofitEmailMapper;
    var c2 := SendEmails(SendEmails(c0, req1, MockSend).0, req2, MockSend).0;
    var d := EmailService.Delivered(req1, req1.receiverIds, registry, MockSend);
    assert EmailService.Bucket(c2.emailService, req1.senderId) == d by {
      OwnBatchFillsBucket(c0, req1, req2, req1.senderId, req1);
    }
    assert d == [
      SentEmail(req1.senderId, n1.email, req1.subject, EmailService.Render(req1.emailBody, n1), "SENT"),
      SentEmail(req1.senderId, n2.email, req1.subject, EmailService.Render(req1.emailBody, n2), "SENT")] by {
      DeliveredToTwo(req1, registry, n1, n2);
    }
  }

  /** The second sender's bucket after the two batches of the two-sender
      scenario holds its own two records. */
  lemma {:induction false} SecondSenderBucket(c0: Controller, req1: EmailRequest, req2: EmailRequest, n1: Nonprofit, n2: Nonprofit)
    requires Valid(c0)
    requires n1.email in c0.nonprofitEmailMapper && c0.nonprofitEmailMapper[n1.email] == n1
    requires n2.email in c0.nonprofitEmailMapper && c0.nonprofitEmailMapper[n2.email] == n2
    requires c0.emailService == EmailService.Initial
    requires req1.senderId != req2.senderId
    requires req2.receiverIds == [n1.email, n2.email]
    ensures
      var c2 := SendEmails(SendEmails(c0, req1, MockSend).0, req2, MockSend).0;
      EmailService.Bucket(c2.emailService, req2.senderId) == [
        SentEmail(req2.senderId, n1.email, req2.subject, EmailService.Render(req2.emailBody, n1), "SENT"),
        SentEmail(req2.senderId, n2.email, req2.subject, EmailService.Render(req2.emailBody, n2), "SENT")]
  {
    var registry := c0.nonprofitEmailMapper;
    var c2 := SendEmails(SendEmails(c0, req1, MockSend).0, req2, MockSend).0;
    var d := EmailService.Delivered(req2, req2.receiverIds, registry, MockSend);
    assert EmailService.Bucket(c2.emailService, req2.senderId) == d by {
      OwnBatchFillsBucket(c0, req1, req2, req2.senderId, req2);
    }
    assert d == [
      SentEmail(req2.senderId, n1.email, req2.subject, EmailService.Render(req2.emailBody, n1), "SENT"),
      SentEmail(req2.senderId, n2.email, req2.subject, EmailService.Render(req2.emailBody, n2), "SENT")] by {
      DeliveredToTwo(req2, registry, n1, n2);
    }
  }

  /** A batch to two registered nonprofits through the mock delivers to
      both, in order. */
  lemma {:induction false} DeliveredToTwo(req: EmailRequest, registry: map<string, Nonprofit>, a: Nonprofit, b: Nonprofit)
    requires req.receiverIds == [a.email, b.email]
    requires a.email in registry && registry[a.email] == a
    requires b.email in registry && registry[b.email] == b
    ensures EmailService.Delivered(req, req.receiverIds, registry, MockSend) == [
        SentEmail(req.senderId, a.email, req.subject, EmailService.Render(req.emailBody, a), "SENT"),
        SentEmail(req.senderId, b.email, req.subject, EmailService.Render(req.emailBody, b), "SENT")]
  {
    MockDeliversBoth(req, registry);
  }
}
