/** The plain records of the service. None of them carries behaviour. */
module Entities {

  /** A registered organisation, keyed in the registry by its email. */
  datatype Nonprofit = Nonprofit(name: string, address: string, email: string)

  /** A batch send request: one sender, an ordered list of recipient emails
      (duplicates allowed), a subject and a body template. */
  datatype EmailRequest = EmailRequest(
    senderId: string,
    receiverIds: seq<string>,
    subject: string,
    emailBody: string)

  /** One entry of the send history. The wall-clock send date of the source
      is abstracted away. */
  datatype SentEmail = SentEmail(
    senderId: string,
    recipient: string,
    subject: string,
    message: string,
    status: string)
}
