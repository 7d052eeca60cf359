/** The snapshot value types: a calendar meeting and an unread mail item, each
    keyed by a stable identifier. Instants are whole UTC seconds. */
module Models {
  import opened Wrappers

  datatype Meeting = Meeting(
    id: string,
    subject: string,
    startUtc: int,
    endUtc: int,
    organizer: string,
    location: Option<string>,
    joinUrl: Option<string>)

  datatype MailItem = MailItem(
    id: string,
    subject: string,
    sender: string,
    sentUtc: int,
    preview: string)

  /** What one fetch from the directory source returns. */
  datatype Snapshot = Snapshot(meetings: seq<Meeting>, mails: seq<MailItem>)

  function MeetingId(m: Meeting): string { m.id }

  function MailId(m: MailItem): string { m.id }
}
