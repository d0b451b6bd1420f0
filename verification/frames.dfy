/** What a socket consumer does in answer to a connect or a received frame:
    close, send to its own client, send an error frame, or publish an event to
    its room through the channel layer. */
module Frames {

  import opened Wrappers
  import opened Json

  datatype Out =
    | Close(code: int)
    | Send(frame: Json)
      /** `send_error(message)`; the frame layout belongs to the base consumer,
          which is not part of this model, so only the message and the
          offending value are kept. */
    | SendError(message: string, detail: Json)
      /** `group_send(room, {"type": "broadcast", "payload": payload, <sender key>: channel})`. */
    | GroupSend(payload: Json, senderChannel: Option<string>)
}
