/**
 * The messages client and server exchange (Message.py in each program): a
 * JSON object with a type, a data string and whether a reply is expected.
 * The JSON encoding itself is not modelled; a message is its three fields.
 */
module Messages {

  /** {"type": kind, "data": data, "reply_required": replyRequired} */
  datatype Message = Message(kind: string, data: string, replyRequired: bool)

  /** createMessage("info", text, replyRequired) */
  function Info(text: string, replyRequired: bool): Message {
    Message("info", text, replyRequired)
  }
}
