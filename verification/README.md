# Temelio outreach email service: a Dafny model

This project models the core of the Temelio API, a small service for
outreach email. Nonprofits register under their email address. A caller then
submits a batch: one sender, an ordered list of recipient emails, a subject
and a message template. The email service handles each recipient in turn:

- it looks the recipient up in the nonprofit registry;
- it renders the message, replacing `{name}` and then `{address}`;
- it hands the message to a mail transport;
- it records the email in its send history only when the transport answers
  with a 2xx status.

The history is kept twice: a global list, and a map from sender to that
sender's list. A third map holds the last status string written for each
recipient.

Everything is written as immutable datatypes and pure functions:

- `text.dfy` (module `Text`): literal replacement with the semantics of
  Java's `String.replace` on text of whole characters, with a characterisation by the pieces between
  matches.
- `entities.dfy` (module `Entities`): `Nonprofit`, `EmailRequest` and
  `SentEmail`.
- `results.dfy` (module `Results`): the fault path.
- `transport.dfy` (module `Transport`): the transport's answer (a status code
  or a thrown exception), the 2xx test, and the mock sender.
- `email_service.dfy` (module `EmailService`): the service state,
  per-recipient processing, the batch fold, the two reads, and a stateless
  reference (`Delivered`) for the records a batch adds. It also holds the
  invariant that every bucket equals the global history filtered by its
  sender.
- `nonprofit_controller.dfy` (module `NonprofitController`): the registry,
  insert-if-absent registration, and the pass-through endpoints.
- `scenarios.dfy` (module `Scenarios`): the integration tests' scenarios,
  stated for arbitrary nonprofits and senders in the same arrangement as
  the tests (two nonprofits for the template batch, four nonprofits in two
  disjoint pairs for the per-sender reads).

The transport is a parameter: a total function from (sender, recipient,
subject, message) to `Responded(code)` or `Threw`. This keeps every failure
branch of the dispatch loop reachable. The mock sender that ships with the
service is one such function: it always answers 200.

Three behaviours of the code are modelled as written, although a reader
might expect otherwise:

- `IN_PROGRESS` is written only after a recipient has been found in the
  registry, and it is always overwritten in the same iteration.
- The per-sender read faults for a sender that has no bucket. It does not
  return an empty list.
- Only deliveries reach the history. Transport failures and unregistered
  recipients appear only in the status map.

## Model

| member | source | states |
|---|---|---|
| `Text.ReplaceAll` | temelio-api/src/main/java/com/temelio/service/EmailService.java:34-36 | definition of one `replace` call, scanning left to right without overlap; characterised by `Text.ReplaceAllByPieces` |
| `Text.ReplaceAllVerbatim` | temelio-api/src/main/java/com/temelio/service/EmailService.java:34-36 | a template holding no occurrence of a placeholder comes out of that replacement unchanged |
| `Text.ReplaceAllByPieces` | temelio-api/src/main/java/com/temelio/service/EmailService.java:34-36 | every occurrence is replaced: cut the text at the matches a left-to-right non-overlapping scan finds, and the result is the same pieces joined by the replacement |
| `Text.ReplaceSkipsToMatch` | temelio-api/src/main/java/com/temelio/service/EmailService.java:34-36 | text before the first match is copied, the match becomes the replacement, and scanning resumes after the match (matches do not overlap) |
| `Text.ReplaceWithSelf` | temelio-api/src/main/java/com/temelio/service/EmailService.java:34-36 | replacing a target by itself returns the original text, for every target including the empty one |
| `Text.ReplaceAllCopiesFreeText` | temelio-api/src/main/java/com/temelio/service/EmailService.java:34-36 | text free of the target's first character is copied verbatim ahead of the rest of the result |
| `Text.ReplaceAllCopiesNearMiss` | temelio-api/src/main/java/com/temelio/service/EmailService.java:34-36 | a character that starts only a partial match is copied, not replaced |
| `Transport.Is2xx` | temelio-api/src/main/java/com/temelio/service/EmailService.java:41 | definition of the 2xx test: status codes 200 to 299; `Transport.Delivers` adds that a thrown exception is never a delivery, and `EmailService.Step` states what each outcome does |
| `Transport.MockSend` | temelio-api/src/main/java/com/temelio/service/MockEmailSenderService.java:12-14 | the shipped sender answers every call with a 2xx status |
| `EmailService.Render` | temelio-api/src/main/java/com/temelio/service/EmailService.java:34-36 | definition: the name pass, then the address pass over its result; characterised by `Scenarios.FillBothPlaceholders` and `Scenarios.NoPlaceholder` |
| `EmailService.Try` | temelio-api/src/main/java/com/temelio/service/EmailService.java:29-53 | definition of one recipient's outcome: not registered, failed (non-2xx answer or exception), or sent with its record; characterised by the three cases of `EmailService.Step` |
| `EmailService.Record` | temelio-api/src/main/java/com/temelio/service/EmailService.java:42-45 | a delivery appends the record to the global list and to the sender's bucket, creating the bucket on first use; no other bucket and no status changes |
| `EmailService.Step` | temelio-api/src/main/java/com/temelio/service/EmailService.java:29-56 | for one recipient: if unregistered, only the "not registered" status is written. On a non-2xx answer or an exception, nothing is recorded and the status is FAILED. On a 2xx answer, the record (sender, recipient, subject, rendered message, SENT) goes onto the global list and the sender's bucket, the sender's key is present in the bucket map afterwards and no other key is added, no other bucket changes, and the status is SENT |
| `EmailService.SendEmails` | temelio-api/src/main/java/com/temelio/service/EmailService.java:22-58 | a batch extends the global list by exactly the delivered records, in recipient order. From a state whose buckets index the history, it extends the sender's bucket by the same records and keeps the index |
| `EmailService.SendEach` | temelio-api/src/main/java/com/temelio/service/EmailService.java:28-57 | the dispatch loop only appends: the old history stays a prefix of the new one |
| `EmailService.Delivered` | temelio-api/src/main/java/com/temelio/service/EmailService.java:41-46 | every record a batch adds carries the request's sender and subject unaltered, status SENT, a registered recipient from the batch, and that nonprofit's rendered message. There are at most as many records as recipients |
| `EmailService.SendAppendsDelivered` | temelio-api/src/main/java/com/temelio/service/EmailService.java:28-57 | after a batch, the global list is the old list followed by one record per registered and delivered recipient, in recipient order, with duplicated ids giving duplicated records |
| `EmailService.SendAppendsToBucket` | temelio-api/src/main/java/com/temelio/service/EmailService.java:42-45 | a batch appends the same delivered records to the sender's bucket, and every other sender's bucket stays as it was |
| `EmailService.StepKeepsIndex` | temelio-api/src/main/java/com/temelio/service/EmailService.java:42-45 | one iteration keeps each bucket equal to the global list filtered by its sender, and keeps buckets existing only for senders with a delivery |
| `EmailService.SendKeepsIndex` | temelio-api/src/main/java/com/temelio/service/EmailService.java:28-57 | a whole batch keeps the bucket index invariant |
| `EmailService.InitialIndexed` | temelio-api/src/main/java/com/temelio/service/EmailService.java:13-15 | the service as constructed satisfies the bucket index invariant |
| `EmailService.SendStatus` | temelio-api/src/main/java/com/temelio/service/EmailService.java:28-57 | after a batch, each recipient's status is its own outcome (SENT, FAILED or the not-registered message), never IN_PROGRESS. Recipients outside the batch keep their previous status |
| `EmailService.SendConcat` | temelio-api/src/main/java/com/temelio/service/EmailService.java:28 | recipients are processed independently and in order: one batch over `a + b` equals a batch over `a` followed by one over `b` |
| `EmailService.UnregisteredBatchRecordsNothing` | temelio-api/src/main/java/com/temelio/service/EmailService.java:54-55 | a batch of unregistered recipients leaves the global list and every bucket unchanged |
| `EmailService.MockDeliversEveryRegistered` | temelio-api/src/main/java/com/temelio/service/EmailService.java:39-46 | with the shipped sender, the recorded recipients are exactly the registered ids of the batch, in order |
| `EmailService.GetSentEmails` | temelio-api/src/main/java/com/temelio/service/EmailService.java:60-62 | the read returns the global history in insertion order and changes no state |
| `EmailService.GetSentEmailsBySender` | temelio-api/src/main/java/com/temelio/service/EmailService.java:64-66 | the read faults exactly when the sender has no bucket; otherwise it returns the bucket |
| `EmailService.BySenderIsFilteredHistory` | temelio-api/src/main/java/com/temelio/service/EmailService.java:64-66 | under the index invariant, the per-sender read returns the global history filtered by that sender, and it faults exactly when that filter is empty |
| `NonprofitController.CreateNonprofit` | temelio-api/src/main/java/com/temelio/controller/NonprofitController.java:24-34 | a taken email gives CONFLICT with "... already exists" and an unchanged controller. A new email gives CREATED with "... added successfully" and adds `email ↦ nonprofit`; no other key changes, and the email service is untouched |
| `NonprofitController.DuplicateRegistrationChangesNothing` | temelio-api/src/main/java/com/temelio/controller/NonprofitController.java:26-29 | a second registration of the same email is a conflict that changes nothing, and the first record is not overwritten |
| `NonprofitController.CreateKeepsValid` | temelio-api/src/main/java/com/temelio/controller/NonprofitController.java:31 | registration keeps every registry entry stored under its own email |
| `NonprofitController.InitialValid` | temelio-api/src/main/java/com/temelio/controller/NonprofitController.java:16-22 | the controller as constructed is valid |
| `NonprofitController.SendEmails` | temelio-api/src/main/java/com/temelio/controller/NonprofitController.java:36-40 | the batch endpoint always answers OK "Email sending initiated" and never modifies the registry. The history grows by the delivered records |
| `NonprofitController.SendKeepsValid` | temelio-api/src/main/java/com/temelio/controller/NonprofitController.java:36-40 | the batch endpoint keeps the controller valid, and the sender's bucket grows by exactly the records the global list gains |
| `NonprofitController.GetSentEmails` | temelio-api/src/main/java/com/temelio/controller/NonprofitController.java:42-45 | the endpoint answers OK with exactly the service's global history |
| `NonprofitController.GetSentEmailsBySender` | temelio-api/src/main/java/com/temelio/controller/NonprofitController.java:47-50 | the endpoint answers OK with the sender's bucket, and the service's fault propagates when there is none |
| `NonprofitController.BySenderEndpointIsFilteredHistory` | temelio-api/src/main/java/com/temelio/controller/NonprofitController.java:47-50 | on a valid controller, the endpoint answers the global history filtered by the sender, or faults when that is empty |
| `Scenarios.FillBothPlaceholders` | temelio-api/src/main/java/com/temelio/service/EmailService.java:34-36 | a template with one `{name}` and then one `{address}`, and no other brace in the surrounding text or in the name, renders to its text with the nonprofit's name and address in their places |
| `Scenarios.NamePass` | temelio-api/src/main/java/com/temelio/service/EmailService.java:35 | the `{name}` pass fills the name and leaves the `{address}` placeholder for the second pass |
| `Scenarios.AddressPass` | temelio-api/src/main/java/com/temelio/service/EmailService.java:36 | the `{address}` pass fills the address |
| `Scenarios.NoPlaceholder` | temelio-api/src/test/java/com/temelio/controller/NonprofitControllerIT.java:141-148 | a body with no opening brace, such as the test's plain message, holds no placeholder and reaches every recipient verbatim |
| `Scenarios.TemplateRendering` | temelio-api/src/test/java/com/temelio/controller/NonprofitControllerIT.java:78-95 | the test template renders for Org1 as "Sending money to nonprofit Org1 at address Street 1" |
| `Scenarios.TemplateBatchScenario` | temelio-api/src/test/java/com/temelio/controller/NonprofitControllerIT.java:74-105 | two registrations and one templated batch through the mock give two SENT records, in recipient order, with each nonprofit's own name and address |
| `Scenarios.TemplateBatchWithTestValues` | temelio-api/src/test/java/com/temelio/controller/NonprofitControllerIT.java:76-102 | the same with the test's own values |
| `Scenarios.UnregisteredRecipientScenario` | temelio-api/src/main/java/com/temelio/service/EmailService.java:54-55 | a batch to an unregistered email records nothing, still acknowledges, and leaves the not-registered status |
| `Scenarios.DuplicateRegistrationScenario` | temelio-api/src/test/java/com/temelio/controller/NonprofitControllerIT.java:42-54 | registering one nonprofit twice gives CREATED, then CONFLICT, and one stored record |
| `Scenarios.TwoSendersScenario` | temelio-api/src/test/java/com/temelio/controller/NonprofitControllerIT.java:155-222 | after four registrations and two batches from two senders to disjoint pairs, each sender's endpoint answers exactly its own two records, in recipient order |
| `Scenarios.FourRegistrations` | temelio-api/src/test/java/com/temelio/controller/NonprofitControllerIT.java:157-161 | four registrations with distinct emails leave a valid controller that has sent nothing and stores exactly those four records under their emails |
| `Scenarios.FirstSenderBucket` | temelio-api/src/test/java/com/temelio/controller/NonprofitControllerIT.java:199-209 | the first sender's bucket holds its two records after both batches |
| `Scenarios.SecondSenderBucket` | temelio-api/src/test/java/com/temelio/controller/NonprofitControllerIT.java:211-221 | the second sender's bucket holds its two records after both batches |
| `Scenarios.BucketAfterTwoBatches` | temelio-api/src/main/java/com/temelio/service/EmailService.java:42-43 | after two batches, a sender's bucket is its old bucket followed by what each of its own batches delivered |
| `Scenarios.TwoRegistrations` | temelio-api/src/main/java/com/temelio/controller/NonprofitController.java:31 | two registrations with distinct emails on a new controller store both records under their emails |

## Left out

- Send dates: the `java.util.Date` of each record is wall-clock data. It is
  dropped, so the bucket copy and the global copy of a record are equal
  values. In the source they are two objects with separate dates.
- HTTP and Spring plumbing: annotations, request binding, JSON, and
  `ResponseEntity`. A status is reduced to `Ok | Created | Conflict`. The
  mapping of an escaping fault to a 500 response is not modelled: the fault
  itself is returned.
- Concurrency: the maps and lists are unsynchronised in the source. The model
  is single-threaded, and the two appends of a delivery are one step.
- Java nulls: names, addresses, emails, recipient ids, the recipient list
  and the request's `senderId`, `subject` and `emailBody` are never null in
  the model. In the source, a null name or address makes `replace` throw
  inside the `try` (status FAILED). A null `emailBody` does the same for
  every registered recipient: each ends FAILED and nothing is recorded. A
  null `senderId` files deliveries under a null bucket key. A null recipient
  list throws out of the batch.
- UTF-16: a model string is a sequence of Unicode scalar values, while a
  Java `String` is a sequence of UTF-16 code units. Strings holding a lone
  surrogate cannot be represented. An empty target, which Java inserts
  between the two halves of a surrogate pair, is inserted only between
  whole characters here. The service only replaces the non-empty ASCII
  targets `{name}` and `{address}`, where the two agree.
- Transport state: the transport is a function of its four arguments. A
  transport whose answer changes between identical calls is not modelled.
  `EmailService.SendStatus` relies on this when a batch names one recipient
  twice.
- The transport's response body, and the exception's type and message, are
  not modelled.
- `SentEmail.setStatus`: it is never called, and records are never changed
  after creation.
- `Nonprofit.java` is not part of this model. Its three fields (name, address,
  email) are those used by the service and the tests.
- The status map has no read endpoint. It is modelled as state and described
  by `EmailService.SendStatus`.
