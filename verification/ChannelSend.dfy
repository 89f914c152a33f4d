/**
 * The sending half of a channel of libssh2/src/channel.c: re-entrant calls that write
 * data, send end of file, close the channel and start a process, each of which may
 * have to be called again.
 */
module ChannelSend {
  import opened Octets
  import opened ChannelBasics

  const ERROR_CHANNEL_REQUEST_DENIED := -22
  const ERROR_CHANNEL_CLOSED := -26
  const ERROR_CHANNEL_EOF_SENT := -27
  const ERROR_BAD_USE := -39
  const MAX_WRITE := 32700

  predicate IsError(rc: int) { rc < 0 && rc != ERROR_EAGAIN }

  /** The states a call can be left in. */
  datatype Stage = Idle | Created | Awaiting | End

  /** The sending state of a channel; `local` in the source, as this end is the source of the data. */
  datatype Half = Half(
    window: U32, packetSize: U32, eof: bool, close: bool, peerClosed: bool,
    writeStage: Stage, writeStream: int, bufwrite: nat,
    closeStage: Stage, processStage: Stage, request: string)

  /** What the peer gets. */
  datatype Message = Data(stream: int, bytes: Octets) | Eof | Close | Startup(request: string)

  /** The channel after a call, the code returned, and what went out on the wire. */
  datatype Called = Called(h: Half, rc: int, sent: seq<Message>)

  // ----- Writing -----

  /** Draining the socket before a write: the credit that came in, and what ended it. */
  datatype Inflow = Inflow(grants: seq<U32>, rc: int)

  /** Peer window adjustments as they come in. */
  function Granted(h: Half, grants: seq<U32>): Half
    decreases |grants|
  {
    if grants == [] then h else Granted(h.(window := Wrap32(h.window + grants[0])), grants[1..])
  }

  function Min(a: nat, b: nat): nat { if a < b then a else b }

  /** The call may be made: a retry brings at least the bytes the first call promised. */
  predicate WriteOk(h: Half, buf: Octets) { h.writeStage == Created ==> h.bufwrite <= |buf| }

  /** Sending the data packet that has been made. */
  function WriteSend(h: Half, buf: Octets, send: Send): Called
    requires h.bufwrite <= |buf|
  {
    match send
    case Again => Called(h, ERROR_EAGAIN, [])
    case Failed(error) => Called(h.(writeStage := Idle), error, [])
    case Sent => Called(h.(window := Wrap32(h.window - h.bufwrite), writeStage := Idle), h.bufwrite,
                        [Data(h.writeStream, buf[..h.bufwrite])])
  }

  /** `_libssh2_channel_write`. */
  function WriteCall(h: Half, stream: int, buf: Octets, inflow: Inflow, send: Send): Called
    requires WriteOk(h, buf)
  {
    if h.writeStage == Created then WriteSend(h, buf, send)
    else if h.close then Called(h, ERROR_CHANNEL_CLOSED, [])
    else if h.eof then Called(h, ERROR_CHANNEL_EOF_SENT, [])
    else
      var h' := Granted(h, inflow.grants);
      if IsError(inflow.rc) then Called(h', inflow.rc, [])
      else if h'.window == 0 then Called(h', if inflow.rc == ERROR_EAGAIN then ERROR_EAGAIN else 0, [])
      else
        var n := Min(Min(Min(|buf|, MAX_WRITE), h'.window), h'.packetSize);
        WriteSend(h'.(writeStage := Created, writeStream := stream, bufwrite := n), buf, send)
  }

  // ----- End of file and close -----

  /** `channel_send_eof`. */
  function EofCall(h: Half, send: Send): Called {
    match send
    case Again => Called(h, ERROR_EAGAIN, [])
    case Failed(_) => Called(h, ERROR_SOCKET_SEND, [])
    case Sent => Called(h.(eof := true), 0, [Eof])
  }

  /** One packet read from the transport while waiting: the code, and whether it closed channel or socket. */
  datatype Heard = Heard(rc: int, closes: bool, disconnects: bool)

  /** The wait for the peer's close; what is not there yet would block. */
  function Await(h: Half, rc: int, up: bool, heard: seq<Heard>): (Half, int)
    decreases |heard|
  {
    if h.peerClosed || rc != 0 || !up then (h, rc)
    else if heard == [] then (h, ERROR_EAGAIN)
    else
      var x := heard[0];
      Await(h.(peerClosed := h.peerClosed || x.closes), x.rc, up && !x.disconnects, heard[1..])
  }

  /** The part of `_libssh2_channel_close` after end of file has been seen to; `rc` is what that returned. */
  function CloseRest(h: Half, rc: int, send: Send, up: bool, heard: seq<Heard>): Called {
    var h1 := if h.closeStage == Idle then h.(closeStage := Created) else h;
    if h1.closeStage == Created && send == Again then Called(h1, ERROR_EAGAIN, []) else
    var sends := h1.closeStage == Created && send == Sent;
    var h2 := if sends then h1.(closeStage := Awaiting) else h1;
    var rc2 := if h1.closeStage != Created then rc else if send.Failed? then send.error else 0;
    var (h3, rc3) := if h2.closeStage == Awaiting then Await(h2, rc2, up, heard) else (h2, rc2);
    var h4 := if rc3 != ERROR_EAGAIN then h3.(close := true, closeStage := Idle) else h3;
    Called(h4, if rc3 >= 0 then 0 else rc3, if sends then [Close] else [])
  }

  /** `_libssh2_channel_close`. */
  function CloseCall(h: Half, eofSend: Send, send: Send, up: bool, heard: seq<Heard>): Called {
    if h.close then Called(h.(closeStage := Idle), 0, [])
    else if h.eof then CloseRest(h, 0, send, up, heard)
    else
      var e := EofCall(h, eofSend);
      if e.rc == ERROR_EAGAIN then e else
      var c := CloseRest(e.h, e.rc, send, up, heard);
      Called(c.h, c.rc, e.sent + c.sent)
  }

  // ----- Starting a process -----

  datatype Reply = Nothing | Broken(error: ErrorCode) | Answer(success: bool)

  /** `_libssh2_channel_process_startup`: what is sent is the request made first, whatever a retry names. */
  function StartupCall(h: Half, request: string, send: Send, reply: Reply): Called {
    if h.processStage == End then Called(h, ERROR_BAD_USE, []) else
    var h1 := if h.processStage == Idle then h.(processStage := Created, request := request) else h;
    if h1.processStage == Created && send == Again then Called(h1, ERROR_EAGAIN, []) else
    if h1.processStage == Created && send.Failed? then Called(h1.(processStage := End), send.error, []) else
    var sent := if h1.processStage == Created then [Startup(h1.request)] else [];
    match reply
    case Nothing => Called(h1.(processStage := Awaiting), ERROR_EAGAIN, sent)
    case Broken(error) => Called(h1.(processStage := End), error, sent)
    case Answer(success) =>
      Called(h1.(processStage := End), if success then 0 else ERROR_CHANNEL_REQUEST_DENIED, sent)
  }

  // ----- Runs -----

  datatype Event =
    | Write(stream: int, buf: Octets, inflow: Inflow, send: Send)
    | Grant(amount: U32)
    | SendEof(send: Send)
    | CloseIt(eofSend: Send, send: Send, up: bool, heard: seq<Heard>)
    | StartUp(request: string, send: Send, reply: Reply)
    | PeerCloses

  /** The call may be made. */
  predicate EventOk(h: Half, e: Event) { e.Write? ==> WriteOk(h, e.buf) }

  function Step(h: Half, e: Event): Called
    requires EventOk(h, e)
  {
    match e
    case Write(stream, buf, inflow, send) => WriteCall(h, stream, buf, inflow, send)
    case Grant(amount) => Called(h.(window := Wrap32(h.window + amount)), 0, [])
    case SendEof(send) => EofCall(h, send)
    case CloseIt(eofSend, send, up, heard) => CloseCall(h, eofSend, send, up, heard)
    case StartUp(request, send, reply) => StartupCall(h, request, send, reply)
    case PeerCloses => Called(h.(peerClosed := true), 0, [])
  }

  /** Every call of the run may be made. */
  ghost predicate RunOk(h: Half, es: seq<Event>)
    decreases |es|
  {
    es == [] || (EventOk(h, es[0]) && RunOk(Step(h, es[0]).h, es[1..]))
  }

  /** The channel after a run, and everything that went out. */
  function Run(h: Half, es: seq<Event>): (Half, seq<Message>)
    requires RunOk(h, es)
    decreases |es|
  {
    if es == [] then (h, []) else
      var c := Step(h, es[0]);
      var (h', sent) := Run(c.h, es[1..]);
      (h', c.sent + sent)
  }

  /** A channel that has just been opened. */
  function Fresh(window: U32, packetSize: U32): Half {
    Half(window, packetSize, false, false, false, Idle, 0, 0, Idle, Idle, "")
  }
}
