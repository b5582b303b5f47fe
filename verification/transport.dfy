/** The mail transport called once per resolved recipient. Its answer is
    either an HTTP response with a status code or a thrown exception. */
module Transport {

  datatype TransportResult = Responded(statusCode: int) | Threw

  /** Spring's `is2xxSuccessful`: the status code is in the 200 series. */
  predicate Is2xx(code: int)
  {
    200 <= code < 300
  }

  /** A transport: (senderId, receiverId, subject, message) to its answer. */
  type Send = (string, string, string, string) -> TransportResult

  /** The answer counts as a delivery: a response in the 200 series. A thrown
      exception and any other status code are failures. */
  predicate Delivers(t: TransportResult)
  {
    t.Responded? && Is2xx(t.statusCode)
  }

  /** The mock sender shipped with the service: every call answers 200 OK. */
  function MockSend(senderId: string, receiverId: string, subject: string, emailBody: string): (t: TransportResult)
    ensures Delivers(t)
  {
    Responded(200)
  }
}
