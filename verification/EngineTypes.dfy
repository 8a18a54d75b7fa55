/** The values the AT engine works on (include/at.h, include/at_config.h and the structs of
    src/at.c), and the record of what an observer sees it do. */
module EngineTypes {
  import opened Common
  import opened Fmt
  import opened RxRing

  /** The compile-time configuration, as parameters. */
  datatype Config = Config(
    rxSize: nat, txSize: nat, lineMax: nat, respMax: nat, depth: nat, urcSize: nat,
    defaultTimeout: uint32, promptTimeout: uint32, echoCancel: bool)

  /** What the static assertions demand, and what the widths of the counters need beyond that. */
  predicate ConfigOk(c: Config) {
    && SizeOk(c.rxSize)
    && PowerOfTwo(c.txSize) && c.txSize <= 65536
    && 8 <= c.lineMax <= 65535
    && 1 <= c.respMax <= 255 && 1 <= c.depth <= 255 && 1 <= c.urcSize <= 255
  }

  datatype Status =
    | Ok | ErrCme | ErrCms | ErrGeneric | ErrTimeout | ErrBusy | ErrParam
    | ErrOverflow | ErrAborted | ErrIo | Pending

  /** A callback with its user pointer. */
  type Handler = nat

  /** at_cmd_desc_t; None is a null pointer. */
  datatype Desc = Desc(
    cmd: Option<CString>, body: Option<CString>, timeout: uint32, sms: bool, cb: Option<Handler>)

  /** cmd_entry_t; sms is AT_PROMPT_SMS. */
  datatype Entry = Entry(
    cmd: CString, body: CString, hasBody: bool, timeout: uint32, sms: bool, cb: Option<Handler>)

  datatype Response = Response(status: Status, errorCode: int, lines: seq<string>)

  datatype Urc = Urc(prefix: CString, handler: Handler)

  /** The engine calls a callback may make. */
  datatype Act =
    | Send(desc: Desc)
    | Register(prefix: Option<CString>, handler: Option<Handler>)
    | Deregister(prefix: Option<CString>)

  /** The world outside: what the successive callbacks do, and whether the successive platform
      writes succeed. Once a list is used up callbacks do nothing and writes succeed. */
  datatype World = World(callbacks: seq<seq<Act>>, writes: seq<bool>)

  /** How a received line is used. */
  datatype Fate =
    | Echo | Prompted | Final(status: Status, code: int) | Unsolicited(handler: Handler) | Kept | Ignored

  /** What happens, in order. */
  datatype Event =
    | Accepted(entry: Entry)                       // at_send took a command
    | Started(entry: Entry)                        // the engine begins to execute it
    | Wrote(bytes: string, ok: bool)               // at_platform_write
    | Arrived(b: char, stored: bool)               // at_feed got a byte; stored unless the ring was full
    | Received(b: char)                            // at_process took a byte from the ring
    | Line(text: string, fate: Fate)               // a line was dispatched
    | Ticked(ms: nat)
    | Listens                                      // the state becomes WAITING
    | Rearmed                                      // the countdown starts again, for the prompt
    | Completed(entry: Entry, response: Response)  // the command is reported
    | AbortCalled
    | ResetCalled
    | WasReset

  datatype Mode = Idle | Sending | Waiting | Prompt
}
