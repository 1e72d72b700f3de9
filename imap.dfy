/**
 * The shapes of the records the IMAP bridge sends to the client: one entry
 * of a LIST reply, and one fetched message. Payloads that the core only
 * passes through (the envelope, the body and its structure) are kept as the
 * JSON text they arrived as.
 */
module Imap {

  /** A payload the core stores and hands back without looking inside. */
  datatype Payload = Payload(json: string)

  /** One LIST entry: the mailbox name, its hierarchy delimiter and its attribute flags. */
  datatype ImapFolder = ImapFolder(name: string, delimiter: string, attributes: seq<string>)

  /** One message as the server reports it. */
  datatype ImapMessage = ImapMessage(
    body: Payload,
    bodyStructure: Payload,
    envelope: Payload,
    flags: seq<string>,
    internalDate: string,
    items: seq<string>,
    seqNum: int,
    size: int,
    uid: int)
}
