/** The sending calls of libssh2/src/channel.c as the code makes them, and a caller that loops on writes. */
module ChannelSender {
  import opened Octets
  import opened ChannelBasics
  import opened ChannelSend
  import opened ChannelSendRuns

  class Sender {
    var window: U32
    var packetSize: U32
    var eof: bool
    var close: bool
    var peerClosed: bool
    var writeStage: Stage
    var writeStream: int
    var bufwrite: nat
    var closeStage: Stage
    var processStage: Stage
    var request: string
    ghost var wire: seq<Message>
    ghost var granted: nat
    ghost var lawful: bool

    ghost function View(): Half
      reads this
    {
      Half(window, packetSize, eof, close, peerClosed, writeStage, writeStream, bufwrite, closeStage, processStage,
           request)
    }

    /**
     * State, wire and credit agree: at most one close and one startup request are out or
     * to come, end of file is recorded if and only if it is out, no data message is too
     * large, payload and window are in balance with the credit, exactly while all grants
     * have been lawful, and a write under way will not draw the window below zero.
     */
    ghost predicate Valid()
      reads this
    {
      Books(View(), wire, granted, lawful)
    }

    constructor (window: U32, packetSize: U32)
      ensures Valid() && View() == Fresh(window, packetSize) && wire == [] && granted == window && lawful
    {
      this.window, this.packetSize := window, packetSize;
      eof, close, peerClosed := false, false, false;
      writeStage, writeStream, bufwrite := Idle, 0, 0;
      closeStage, processStage, request := Idle, Idle, "";
      wire, granted, lawful := [], window, true;
      new;
      BooksOpen(window, packetSize);
    }

    /** `_libssh2_packet_add` of a window adjustment, outside of this channel's own calls. */
    method WindowAdjust(amount: U32)
      requires Valid()
      modifies this`window, this`granted, this`lawful
      ensures View() == Step(old(View()), Grant(amount)).h && granted == old(granted) + amount
      ensures lawful == (old(lawful) && old(window) + amount < TWO32)
      ensures old(window) + amount < TWO32 ==> Valid()
    {
      hide Books;
      ghost var h := View();
      if h.window + amount < TWO32 {
        KeepsBooks(h, Grant(amount), wire, granted, lawful);
        OneSum(amount);
        assert wire + [] == wire;
      }
      lawful := lawful && window + amount < TWO32;
      window := Wrap32(window + amount);
      granted := granted + amount;
    }

    /** The window adjustments met while draining the socket. */
    method TakeGrants(grants: seq<U32>)
      modifies this`window
      ensures View() == Granted(old(View()), grants)
    {
      for i := 0 to |grants|
        invariant Granted(View(), grants[i..]) == Granted(old(View()), grants)
      {
        assert grants[i..][1..] == grants[i + 1..];
        window := Wrap32(window + grants[i]);
      }
    }

    /** `_libssh2_channel_write`. */
    method Write(stream: int, buf: Octets, inflow: Inflow, send: Send) returns (rc: int)
      requires Valid() && WriteOk(View(), buf)
      modifies this
      ensures Valid()
      ensures var c := WriteCall(old(View()), stream, buf, inflow, send);
              View() == c.h && rc == c.rc && wire == old(wire) + c.sent
      ensures granted == old(granted) + Sum(GrantsOf(old(View()), ChannelSend.Write(stream, buf, inflow, send)))
      ensures lawful == (old(lawful) && Lawful(old(window), GrantsOf(old(View()), ChannelSend.Write(stream, buf, inflow, send))))
      // So the code returned says which bytes of the buffer have gone out.
      ensures Bytes(wire) == Bytes(old(wire)) + if rc < 0 then [] else buf[..rc]
    {
      hide WriteCall, Books, Bytes, Sum, GrantsOf, Lawful;
      ghost var h, e := View(), ChannelSend.Write(stream, buf, inflow, send);
      StagesOf(h, wire, granted, lawful);
      KeepsBooks(h, e, wire, granted, lawful);
      WriteResult(h, stream, buf, inflow, send);
      BytesAppend(wire, WriteCall(h, stream, buf, inflow, send).sent);
      NothingOn(stream);
      rc := WriteBody(stream, buf, inflow, send);
      granted := granted + Sum(GrantsOf(h, e));
      lawful := lawful && Lawful(h.window, GrantsOf(h, e));
    }

    method WriteBody(stream: int, buf: Octets, inflow: Inflow, send: Send) returns (rc: int)
      requires WriteOk(View(), buf) && Stages(View())
      modifies this
      ensures var c := WriteCall(old(View()), stream, buf, inflow, send);
              View() == c.h && rc == c.rc && wire == old(wire) + c.sent && granted == old(granted) && lawful == old(lawful)
    {
      hide Granted, Wrap32, WriteSend;
      var buflen := if |buf| > MAX_WRITE then MAX_WRITE else |buf|;
      if writeStage == Idle {
        if close {
          return ERROR_CHANNEL_CLOSED;
        } else if eof {
          return ERROR_CHANNEL_EOF_SENT;
        }
        TakeGrants(inflow.grants);
        if inflow.rc < 0 && inflow.rc != ERROR_EAGAIN {
          return inflow.rc;
        }
        if window <= 0 {
          return if inflow.rc == ERROR_EAGAIN then inflow.rc else 0;
        }
        bufwrite := buflen;
        writeStream := stream;
        if bufwrite > window {
          bufwrite := window;
        }
        if bufwrite > packetSize {
          bufwrite := packetSize;
        }
        writeStage := Created;
      }
      rc := SendData(buf, send);
    }

    /** The last part of `_libssh2_channel_write`: the data packet goes to the transport. */
    method SendData(buf: Octets, send: Send) returns (rc: int)
      requires bufwrite <= |buf|
      modifies this
      ensures var c := WriteSend(old(View()), buf, send);
              View() == c.h && rc == c.rc && wire == old(wire) + c.sent && granted == old(granted) && lawful == old(lawful)
    {
      match send
      case Again =>
        return ERROR_EAGAIN;
      case Failed(error) =>
        writeStage := Idle;
        return error;
      case Sent =>
        wire := wire + [Data(writeStream, buf[..bufwrite])];
        window := Wrap32(window - bufwrite);
        writeStage := Idle;
        return bufwrite;
    }

    /** `libssh2_channel_send_eof`. */
    method SendEof(send: Send) returns (rc: int)
      requires Valid()
      modifies this
      ensures Valid() && granted == old(granted) && lawful == old(lawful)
      ensures View() == old(View()).(eof := eof) && wire == old(wire) + if rc == 0 then [Eof] else []
      ensures rc == 0 <==> send == Sent
      ensures rc == ERROR_EAGAIN <==> send == Again
    {
      hide Books;
      ghost var h := View();
      KeepsBooks(h, ChannelSend.SendEof(send), wire, granted, lawful);
      NoSum();
      rc := EofBody(send);
    }

    method EofBody(send: Send) returns (rc: int)
      modifies this`eof, this`wire
      ensures var c := EofCall(old(View()), send);
              View() == c.h && rc == c.rc && wire == old(wire) + c.sent
    {
      match send
      case Again => return ERROR_EAGAIN;
      case Failed(_) => return ERROR_SOCKET_SEND;
      case Sent =>
        wire := wire + [Eof];
        eof := true;
        return 0;
    }

    /** The wait of `_libssh2_channel_close` for the peer. */
    method AwaitClose(rc: int, up: bool, heard: seq<Heard>) returns (rc': int)
      modifies this`peerClosed
      ensures (View(), rc') == Await(old(View()), rc, up, heard)
      // From a clean start, it ends without an error or the peer's close exactly when it is cut short.
      ensures rc == 0 && up && !old(peerClosed) ==> (rc' >= 0 && !peerClosed <==> exists k: nat :: CutShort(heard, k))
    {
      hide CutShort;
      if rc == 0 && up && !peerClosed {
        WaitCutShortIff(View(), heard);
      }
      rc' := rc;
      var up', i := up, 0;
      while !peerClosed && rc' == 0 && up'
        invariant 0 <= i <= |heard|
        invariant Await(View(), rc', up', heard[i..]) == Await(old(View()), rc, up, heard)
        decreases |heard| - i
      {
        if i == |heard| {
          return ERROR_EAGAIN;
        }
        assert heard[i..][1..] == heard[i + 1..];
        rc' := heard[i].rc;
        peerClosed := peerClosed || heard[i].closes;
        up' := up' && !heard[i].disconnects;
        i := i + 1;
      }
    }

    /** `_libssh2_channel_close`. */
    method CloseIt(eofSend: Send, send: Send, up: bool, heard: seq<Heard>) returns (rc: int)
      requires Valid()
      modifies this
      ensures Valid() && granted == old(granted) && lawful == old(lawful)
      ensures var c := CloseCall(old(View()), eofSend, send, up, heard);
              View() == c.h && rc == c.rc && wire == old(wire) + c.sent
      // Unless it has to be called again, the channel is closed; and no call ever sends a second close.
      ensures rc != ERROR_EAGAIN ==> close
      ensures old(Close in wire) ==> wire == old(wire) || wire == old(wire) + [Eof]
    {
      hide CloseCall, Books;
      ghost var h := View();
      StagesOf(h, wire, granted, lawful);
      KeepsBooks(h, ChannelSend.CloseIt(eofSend, send, up, heard), wire, granted, lawful);
      NoSum();
      CloseOutcome(h, eofSend, send, up, heard, wire, granted, lawful);
      rc := CloseBody(eofSend, send, up, heard);
    }

    method CloseBody(eofSend: Send, send: Send, up: bool, heard: seq<Heard>) returns (rc: int)
      requires Stages(View())
      modifies this
      ensures var c := CloseCall(old(View()), eofSend, send, up, heard);
              View() == c.h && rc == c.rc && wire == old(wire) + c.sent && granted == old(granted) && lawful == old(lawful)
    {
      hide CloseRest;
      rc := 0;
      if close {
        closeStage := Idle;
        return 0;
      }
      if !eof {
        rc := EofBody(eofSend);
        if rc == ERROR_EAGAIN {
          return;
        }
      }
      rc := FinishClose(rc, send, up, heard);
    }

    method FinishClose(rc0: int, send: Send, up: bool, heard: seq<Heard>) returns (rc: int)
      requires closeStage != End
      modifies this
      ensures var c := CloseRest(old(View()), rc0, send, up, heard);
              View() == c.h && rc == c.rc && wire == old(wire) + c.sent && granted == old(granted) && lawful == old(lawful)
    {
      hide Await;
      rc := rc0;
      if closeStage == Idle {
        closeStage := Created;
      }
      if closeStage == Created {
        match send
        case Again => return ERROR_EAGAIN;
        case Failed(error) => rc := error;
        case Sent =>
          rc := 0;
          wire := wire + [Close];
          closeStage := Awaiting;
      }
      if closeStage == Awaiting {
        rc := AwaitClose(rc, up, heard);
      }
      if rc != ERROR_EAGAIN {
        close := true;
        closeStage := Idle;
      }
      rc := if rc >= 0 then 0 else rc;
    }

    /** `_libssh2_channel_process_startup`. */
    method ProcessStartup(request: string, send: Send, reply: Reply) returns (rc: int)
      requires Valid()
      modifies this
      ensures Valid() && granted == old(granted) && lawful == old(lawful)
      ensures var c := StartupCall(old(View()), request, send, reply);
              View() == c.h && rc == c.rc && wire == old(wire) + c.sent
      // A request that is out is never sent again, and once one has come to an end, none starts.
      ensures old(Count(IsStartup(), wire)) > 0 ==> wire == old(wire)
      ensures old(processStage) == End ==> rc == ERROR_BAD_USE
    {
      hide StartupCall, Books, Count;
      ghost var h := View();
      KeepsBooks(h, ChannelSend.StartUp(request, send, reply), wire, granted, lawful);
      NoSum();
      StartupOutcome(h, request, send, reply, wire, granted, lawful);
      rc := StartupBody(request, send, reply);
    }

    method StartupBody(request: string, send: Send, reply: Reply) returns (rc: int)
      modifies this`processStage, this`request, this`wire
      ensures var c := StartupCall(old(View()), request, send, reply);
              View() == c.h && rc == c.rc && wire == old(wire) + c.sent
    {
      if processStage == End {
        return ERROR_BAD_USE;
      }
      if processStage == Idle {
        this.request := request;
        processStage := Created;
      }
      if processStage == Created {
        match send
        case Again => return ERROR_EAGAIN;
        case Failed(error) =>
          processStage := End;
          return error;
        case Sent =>
          wire := wire + [Startup(this.request)];
          processStage := Awaiting;
      }
      match reply
      case Nothing => return ERROR_EAGAIN;
      case Broken(error) =>
        processStage := End;
        return error;
      case Answer(success) =>
        processStage := End;
        if success {
          return 0;
        }
      rc := ERROR_CHANNEL_REQUEST_DENIED;
    }

    /** The write loop of the direct_tcpip example, for as many calls as `env` describes. */
    method WriteAll(stream: int, buf: Octets, env: seq<Meets>) returns (wr: nat, failed: bool)
      requires Valid() && writeStage == Idle
      modifies this
      ensures Valid()
      ensures var p := Pump(old(View()), stream, buf, 0, env);
              View() == p.h && wr == p.wr && failed == p.failed && wire == old(wire) + p.sent
      // So what went out is the buffer as far as it is counted as written, on the stream asked for.
      ensures wr <= |buf|
      ensures exists sent :: wire == old(wire) + sent && Bytes(sent) == buf[..wr] && AllOn(sent, stream)
    {
      hide WriteCall, Bytes, Pump, AllOn, Under, WriteOk, Books;
      StartIdle(View(), stream, buf[0..]);
      ghost var all := Pump(View(), stream, buf, 0, env);
      PumpExact(View(), stream, buf, 0, env);
      assert env[0..] == env && buf[0..all.wr] == buf[..all.wr];
      wr, failed := 0, false;
      var i := 0;
      ghost var sent := [];
      while wr < |buf| && i < |env|
        invariant 0 <= i <= |env| && wr <= |buf| && !failed
        invariant Valid() && WriteOk(View(), buf[wr..])
        invariant wire == old(wire) + sent && all == Onward(sent, Pump(View(), stream, buf, wr, env[i..]))
      {
        OnwardStep(View(), stream, buf, wr, env[i..], sent);
        ghost var now := WriteCall(View(), stream, buf[wr..], env[i].inflow, env[i].send).sent;
        assert env[i..][1..] == env[i + 1..];
        var rc := Write(stream, buf[wr..], env[i].inflow, env[i].send);
        sent := sent + now;
        i := i + 1;
        if rc == ERROR_EAGAIN {
          continue;
        }
        if rc < 0 {
          failed := true;
          return;
        }
        wr := wr + rc;
      }
      PumpStops(View(), stream, buf, wr, env[i..]);
    }
  }

  lemma StagesOf(h: Half, wire: seq<Message>, granted: nat, lawful: bool)
    requires Books(h, wire, granted, lawful)
    ensures Stages(h)
  {}

  /** What a call to close comes to, given the books. */
  lemma CloseOutcome(h: Half, eofSend: Send, send: Send, up: bool, heard: seq<Heard>,
                     wire: seq<Message>, granted: nat, lawful: bool)
    requires Books(h, wire, granted, lawful)
    ensures var c := CloseCall(h, eofSend, send, up, heard);
            && (c.rc != ERROR_EAGAIN ==> c.h.close)
            && (Close in wire ==> wire + c.sent == wire || wire + c.sent == wire + [Eof])
  {
    hide Await, Count, Small, Payload, Wrap32, CloseRest;
    CloseShape(h, eofSend, send, up, heard);
    var e := if h.eof then Called(h, 0, []) else EofCall(h, eofSend);
    RestCloses(e.h, e.rc, send, up, heard);
    if Close in wire {
      var i :| 0 <= i < |wire| && wire[i] == Close;
      CountMember(IsClose(), wire, i);
    }
  }

  lemma RestCloses(h: Half, rc: int, send: Send, up: bool, heard: seq<Heard>)
    ensures CloseRest(h, rc, send, up, heard).rc != ERROR_EAGAIN ==> CloseRest(h, rc, send, up, heard).h.close
  {
    hide Await;
  }

  lemma StartupOutcome(h: Half, request: string, send: Send, reply: Reply, wire: seq<Message>, granted: nat, lawful: bool)
    requires Books(h, wire, granted, lawful)
    ensures var c := StartupCall(h, request, send, reply);
            && (Count(IsStartup(), wire) > 0 ==> wire + c.sent == wire)
            && (h.processStage == End ==> c.rc == ERROR_BAD_USE)
  {
    hide Count, Small, Payload, Wrap32;
    StartupShape(h, request, send, reply);
  }

  lemma StartIdle(h: Half, stream: int, buf: Octets)
    requires h.writeStage == Idle
    ensures Under(h, stream) && WriteOk(h, buf)
  {}

  /** The rest of a loop that has sent these messages already. */
  ghost function Onward(sent: seq<Message>, p: Pumped): Pumped { p.(sent := sent + p.sent) }

  /** One call of the loop, seen from its start. */
  lemma OnwardStep(h: Half, stream: int, buf: Octets, wr: nat, env: seq<Meets>, sent: seq<Message>)
    requires wr < |buf| && WriteOk(h, buf[wr..]) && env != []
    ensures var c := WriteCall(h, stream, buf[wr..], env[0].inflow, env[0].send);
            var all := Onward(sent, Pump(h, stream, buf, wr, env));
            if IsError(c.rc) then all == Pumped(c.h, wr, sent + c.sent, true)
            else
              var wr' := if c.rc == ERROR_EAGAIN then wr else wr + c.rc;
              && wr' <= |buf| && WriteOk(c.h, buf[wr'..])
              && all == Onward(sent + c.sent, Pump(c.h, stream, buf, wr', env[1..]))
  {
    hide WriteCall, Bytes, Pump, WriteOk;
    PumpStep(h, stream, buf, wr, env);
    var c := WriteCall(h, stream, buf[wr..], env[0].inflow, env[0].send);
    if !IsError(c.rc) {
      var p' := Pump(c.h, stream, buf, if c.rc == ERROR_EAGAIN then wr else wr + c.rc, env[1..]);
      assert sent + (c.sent + p'.sent) == (sent + c.sent) + p'.sent;
    }
  }
}
