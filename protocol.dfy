/** The messages exchanged between the client and the tunnel engine. */
module Protocol {
  import opened Php

  /** A stream id, chosen by the client. */
  type Sid = int

  /** A socket handle; PHP resource ids are handed out in increasing order. */
  type Sock = nat

  /** The status value reported for resolution, write and read failures. */
  const FAILURE: int := 5

  /**
   * One message record, by its `cmd` field. Payloads are the decoded bytes:
   * the base64 transport encoding is not part of this model.
   */
  datatype Message =
    | Connect(id: Sid, addr: string, port: int)
    | Sync(id: Sid, data: Bytes)
    | Status(id: Sid, value: int)
    | Stop
    | Unknown(cmd: string)
}
