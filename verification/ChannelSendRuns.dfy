/** What holds over whole runs of the sending half, with calls blocking, failing and being retried at will. */
module ChannelSendRuns {
  import opened Octets
  import opened ChannelBasics
  import opened ChannelSend

  function DataSize(m: Message): nat { if m.Data? then |m.bytes| else 0 }

  function Payload(ms: seq<Message>): nat { if ms == [] then 0 else DataSize(ms[0]) + Payload(ms[1..]) }

  lemma {:induction false} PayloadAppend(xs: seq<Message>, ys: seq<Message>)
    ensures Payload(xs + ys) == Payload(xs) + Payload(ys)
  {
    if xs == [] {
      assert [] + ys == ys;
    } else {
      PayloadAppend(xs[1..], ys);
      assert (xs + ys)[1..] == xs[1..] + ys;
    }
  }

  // ----- The peer's credit -----

  /** The credit an event brings in. */
  function GrantsOf(h: Half, e: Event): seq<U32> {
    match e
    case Write(_, _, inflow, _) => if h.writeStage == Created || h.close || h.eof then [] else inflow.grants
    case Grant(amount) => [amount]
    case _ => []
  }

  /** Grants that never lift the window to 2^32, as section 5.2 of RFC 4254 demands of the peer. */
  ghost predicate Lawful(window: nat, grants: seq<U32>) { window + Sum(grants) < TWO32 }

  lemma {:induction false} GrantedWindow(h: Half, grants: seq<U32>)
    ensures var h' := Granted(h, grants);
            h' == h.(window := h'.window) && h'.window == Wrap32(h.window + Sum(grants))
            && (Lawful(h.window, grants) ==> h'.window == h.window + Sum(grants))
    decreases |grants|
  {
    hide Wrap32;
    WrapSmall(h.window);
    if grants == [] {
    } else {
      GrantedWindow(h.(window := Wrap32(h.window + grants[0])), grants[1..]);
      WrapAdd(Sum(grants[1..]), h.window + grants[0]);
      assert Sum(grants[1..]) + (h.window + grants[0]) == h.window + Sum(grants);
      if Lawful(h.window, grants) {
        WrapSmall(h.window + grants[0]);
        WrapSmall(h.window + Sum(grants));
      }
    }
  }

  /** A write under way was cut to fit the window and the packet size. */
  predicate Cut(h: Half) {
    h.writeStage == Created ==> h.bufwrite <= h.window && h.bufwrite <= h.packetSize && h.bufwrite <= MAX_WRITE
  }

  /** Every data message is within the packet size and the size that writes are cut to. */
  ghost predicate Small(ms: seq<Message>, packetSize: nat) {
    forall i :: 0 <= i < |ms| && ms[i].Data? ==> |ms[i].bytes| <= packetSize && |ms[i].bytes| <= MAX_WRITE
  }

  /** Calls other than writes send no data and leave windows and writes alone. */
  lemma Quiet(h: Half, e: Event)
    requires EventOk(h, e) && !e.Write? && !e.Grant?
    ensures var c := Step(h, e);
            && Control(c.sent) && c.h.window == h.window && c.h.packetSize == h.packetSize
            && c.h.writeStage == h.writeStage && c.h.bufwrite == h.bufwrite && GrantsOf(h, e) == []
  {
    hide CloseCall;
    if e.CloseIt? {
      CloseFrame(h, e.eofSend, e.send, e.up, e.heard);
    }
  }

  /**
   * One call keeps payload and window in balance with the credit, modulo 2^32 whatever
   * is granted, and exactly if and only if the grant is lawful.
   */
  lemma StepCredit(h: Half, e: Event)
    requires EventOk(h, e) && Cut(h)
    ensures var c := Step(h, e);
            && c.h.packetSize == h.packetSize && Small(c.sent, h.packetSize)
            && Payload(c.sent) + c.h.window == Wrap32(h.window + Sum(GrantsOf(h, e)))
            && (Balanced(h, e) <==> Lawful(h.window, GrantsOf(h, e)))
            && (!e.Grant? || Balanced(h, e) ==> Cut(c.h))
  {
    hide Wrap32, WriteCall, CloseCall, EofCall, StartupCall, WriteOk, Payload, Small, GrantsOf;
    LawfulWrap(h.window, GrantsOf(h, e));
    if e.Write? {
      WriteCredit(h, e.stream, e.buf, e.inflow, e.send);
    } else {
      WrapSmall(h.window);
      GrantOrNone(h, e);
      NoSum();
      NoPayload(h.packetSize);
      if e.Grant? {
        OneSum(e.amount);
      } else {
        Quiet(h, e);
        OnlyControl(Step(h, e).sent, h.packetSize);
      }
    }
  }

  lemma GrantOrNone(h: Half, e: Event)
    requires !e.Write?
    ensures GrantsOf(h, e) == if e.Grant? then [e.amount] else []
  {}

  lemma NoPayload(packetSize: nat)
    ensures Payload([]) == 0 && Small([], packetSize)
  {}

  /** The books of one call: payload sent and window left are the window before and the credit granted. */
  predicate Balanced(h: Half, e: Event)
    requires EventOk(h, e)
  {
    Payload(Step(h, e).sent) + Step(h, e).h.window == h.window + Sum(GrantsOf(h, e))
  }

  lemma LawfulWrap(window: U32, grants: seq<U32>)
    ensures Lawful(window, grants) <==> Wrap32(window + Sum(grants)) == window + Sum(grants)
  {
    hide Sum;
  }

  /** A write cuts to the window it finds, so that it stays in balance with it. */
  lemma WriteCredit(h: Half, stream: int, buf: Octets, inflow: Inflow, send: Send)
    requires WriteOk(h, buf) && Cut(h)
    ensures var c := WriteCall(h, stream, buf, inflow, send);
            && Cut(c.h) && c.h.packetSize == h.packetSize && Small(c.sent, h.packetSize)
            && Payload(c.sent) + c.h.window == Wrap32(h.window + Sum(GrantsOf(h, Write(stream, buf, inflow, send))))
  {
    hide Granted, Wrap32, WriteSend, Small, Sum, Payload;
    NoSum();
    NoPayload(h.packetSize);
    WrapSmall(h.window);
    if h.writeStage == Created {
      SendCredit(h, buf, send);
    } else if !h.close && !h.eof {
      GrantedWindow(h, inflow.grants);
      var h' := Granted(h, inflow.grants);
      if !IsError(inflow.rc) && h'.window != 0 {
        var n := Min(Min(Min(|buf|, MAX_WRITE), h'.window), h'.packetSize);
        SendCredit(h'.(writeStage := Created, writeStream := stream, bufwrite := n), buf, send);
      }
    }
  }

  lemma SendCredit(h: Half, buf: Octets, send: Send)
    requires h.writeStage == Created && h.bufwrite <= |buf| && Cut(h)
    ensures var c := WriteSend(h, buf, send);
            && Cut(c.h) && c.h.packetSize == h.packetSize && Small(c.sent, h.packetSize)
            && Payload(c.sent) + c.h.window == h.window
  {
    hide Wrap32, Payload;
    NoPayload(h.packetSize);
    WrapSmall(h.window - h.bufwrite);
    OnePayload(Data(h.writeStream, buf[..h.bufwrite]));
  }

  lemma OnePayload(m: Message)
    ensures Payload([m]) == DataSize(m)
  {
    assert [m][1..] == [];
  }

  ghost predicate Control(ms: seq<Message>) { forall i :: 0 <= i < |ms| ==> !ms[i].Data? }

  lemma {:induction false} OnlyControl(ms: seq<Message>, packetSize: nat)
    requires Control(ms)
    ensures Payload(ms) == 0 && Small(ms, packetSize)
  {
    if ms == [] {
    } else {
      OnlyControl(ms[1..], packetSize);
    }
  }

  lemma {:induction false} AwaitFrame(h: Half, rc: int, up: bool, heard: seq<Heard>)
    ensures var (h', rc') := Await(h, rc, up, heard);
            h' == h.(peerClosed := h'.peerClosed)
    decreases |heard|
  {
    if h.peerClosed || rc != 0 || !up || heard == [] {
    } else {
      var x := heard[0];
      AwaitFrame(h.(peerClosed := h.peerClosed || x.closes), x.rc, up && !x.disconnects, heard[1..]);
    }
  }

  /** Closing touches neither the window nor a write under way, and sends no data. */
  lemma CloseFrame(h: Half, eofSend: Send, send: Send, up: bool, heard: seq<Heard>)
    ensures var c := CloseCall(h, eofSend, send, up, heard);
            && Control(c.sent)
            && c.h.window == h.window && c.h.packetSize == h.packetSize && c.h.writeStage == h.writeStage
            && c.h.bufwrite == h.bufwrite && c.h.processStage == h.processStage && c.h.writeStream == h.writeStream
  {
    hide Await;
    var e := if h.eof then Called(h, 0, []) else EofCall(h, eofSend);
    RestFrame(e.h, e.rc, send, up, heard);
  }

  lemma RestFrame(h: Half, rc: int, send: Send, up: bool, heard: seq<Heard>)
    ensures var c := CloseRest(h, rc, send, up, heard);
            && Control(c.sent) && c.h.eof == h.eof
            && c.h.window == h.window && c.h.packetSize == h.packetSize && c.h.writeStage == h.writeStage
            && c.h.bufwrite == h.bufwrite && c.h.processStage == h.processStage && c.h.writeStream == h.writeStream
  {
    hide Await;
    var h1 := if h.closeStage == Idle then h.(closeStage := Created) else h;
    var h2 := if h1.closeStage == Created && send == Sent then h1.(closeStage := Awaiting) else h1;
    var rc2 := if h1.closeStage != Created then rc else if send.Failed? then send.error else 0;
    AwaitFrame(h2, rc2, up, heard);
  }

  /** All the credit a run brings in, each grant as section 5.2 of RFC 4254 allows. */
  ghost predicate LawfulRun(h: Half, es: seq<Event>)
    requires RunOk(h, es)
    decreases |es|
  {
    es == [] || (Lawful(h.window, GrantsOf(h, es[0])) && LawfulRun(Step(h, es[0]).h, es[1..]))
  }

  ghost function Credit(h: Half, es: seq<Event>): nat
    requires RunOk(h, es)
    decreases |es|
  {
    if es == [] then 0 else Sum(GrantsOf(h, es[0])) + Credit(Step(h, es[0]).h, es[1..])
  }

  /** Every call of the run keeps the books. */
  ghost predicate AllBalanced(h: Half, es: seq<Event>)
    requires RunOk(h, es)
    decreases |es|
  {
    es == [] || (Balanced(h, es[0]) && AllBalanced(Step(h, es[0]).h, es[1..]))
  }

  /**
   * Over every run, payload sent plus window left is the window at the start plus all
   * credit granted: data never exceeds the peer's credit. And no data message exceeds
   * the peer's packet size.
   */
  lemma {:induction false} RunCredit(h: Half, es: seq<Event>)
    requires RunOk(h, es) && Cut(h) && LawfulRun(h, es)
    ensures var (h', sent) := Run(h, es);
            && Payload(sent) + h'.window == h.window + Credit(h, es)
            && Small(sent, h.packetSize) && Cut(h')
    decreases |es|
  {
    hide Step, Cut, EventOk, GrantsOf, Sum, Payload, Lawful, Wrap32;
    if es == [] {
      NoPayload(h.packetSize);
    } else {
      StepCredit(h, es[0]);
      var c := Step(h, es[0]);
      RunCredit(c.h, es[1..]);
      PayloadAppend(c.sent, Run(c.h, es[1..]).1);
    }
  }

  /** Every call of a run keeps the books if and only if the peer's grants are lawful throughout. */
  lemma {:induction false} BalancedIffLawful(h: Half, es: seq<Event>)
    requires RunOk(h, es) && Cut(h)
    ensures AllBalanced(h, es) <==> LawfulRun(h, es)
    decreases |es|
  {
    hide Step, Cut, EventOk, GrantsOf, Balanced, Lawful, Wrap32;
    if es == [] {
    } else {
      StepCredit(h, es[0]);
      if Balanced(h, es[0]) {
        BalancedIffLawful(Step(h, es[0]).h, es[1..]);
      }
    }
  }

  /**
   * A grant in the middle of a write that is then sent: the write draws the window below
   * zero if and only if the grant wraps it below the bytes of the write. A lawful one
   * never does.
   */
  lemma UnderflowIff(h: Half, amount: U32, buf: Octets)
    requires h.writeStage == Created && h.bufwrite <= |buf| && Cut(h)
    ensures var h' := Step(h, Grant(amount)).h;
            var c := Step(h', Write(0, buf, Inflow([], 0), Sent));
            && (c.h.window + h.bufwrite == h'.window <==> h.bufwrite <= Wrap32(h.window + amount))
            && (Lawful(h.window, [amount]) ==> h.bufwrite <= Wrap32(h.window + amount))
  {
    hide Wrap32;
    var w := Wrap32(h.window + amount);
    OneSum(amount);
    LawfulWrap(h.window, [amount]);
    Underflow(w, h.bufwrite);
  }

  lemma Underflow(w: U32, n: nat)
    requires n < TWO32
    ensures Wrap32(w - n) + n == w <==> n <= w
  {}

  /** An input for which it happens: a write blocks, the peer grants too much, the write is called again. */
  lemma UnlawfulGrant(buf: Octets)
    requires |buf| == 1000
    ensures var h := Fresh(TWO32 - 1, 32768);
            var es := [Write(0, buf, Inflow([], ERROR_EAGAIN), Again), Grant(2),
                       Write(0, buf, Inflow([], ERROR_EAGAIN), Sent)];
            && RunOk(h, es) && !LawfulRun(h, es)
            && Run(h, es).1 == [Data(0, buf)] && Run(h, es).0.window == TWO32 - 999
  {
    hide Run, RunOk, Step;
    var h := Fresh(TWO32 - 1, 32768);
    var e1, e2 := Write(0, buf, Inflow([], ERROR_EAGAIN), Again), Grant(2);
    var e3 := Write(0, buf, Inflow([], ERROR_EAGAIN), Sent);
    BlockedFirst(h, buf);
    var h1 := h.(writeStage := Created, writeStream := 0, bufwrite := 1000);
    assert Step(h1, e2) == Called(h1.(window := 1), 0, []) by { OverGranted(h1); }
    var h2 := h1.(window := 1);
    SentAgain(h2, buf);
    ThreeCalls(h, e1, e2, e3);
    assert [] + [] + [Data(0, buf)] == [Data(0, buf)];
    assert !LawfulRun(h, [e1, e2, e3]) by {
      assert [e1] + [e2, e3] == [e1, e2, e3] && [e2] + [e3] == [e2, e3];
      LawfulCons(h, e1, [e2, e3]);
      LawfulCons(h1, e2, [e3]);
      assert !Lawful(h1.window, GrantsOf(h1, e2)) by { OneSum(2); }
    }
  }

  lemma OverGranted(h: Half)
    requires h.window == TWO32 - 1
    ensures Step(h, Grant(2)) == Called(h.(window := 1), 0, [])
  {}

  lemma BlockedFirst(h: Half, buf: Octets)
    requires h.writeStage == Idle && !h.close && !h.eof && |buf| <= MAX_WRITE && |buf| <= h.packetSize
    requires 0 < |buf| <= h.window
    ensures Step(h, Write(0, buf, Inflow([], ERROR_EAGAIN), Again))
            == Called(h.(writeStage := Created, writeStream := 0, bufwrite := |buf|), ERROR_EAGAIN, [])
  {}

  lemma SentAgain(h: Half, buf: Octets)
    requires h.writeStage == Created && h.bufwrite == |buf|
    ensures Step(h, Write(0, buf, Inflow([], ERROR_EAGAIN), Sent))
            == Called(h.(writeStage := Idle, window := Wrap32(h.window - |buf|)), |buf|, [Data(h.writeStream, buf)])
  {
    assert buf[..|buf|] == buf;
  }

  lemma LawfulCons(h: Half, e: Event, es: seq<Event>)
    requires RunOk(h, [e] + es)
    ensures EventOk(h, e) && RunOk(Step(h, e).h, es)
    ensures LawfulRun(h, [e] + es) <==> Lawful(h.window, GrantsOf(h, e)) && LawfulRun(Step(h, e).h, es)
  {
    hide Step, EventOk, GrantsOf, Lawful;
    assert ([e] + es)[1..] == es;
  }

  lemma NoCalls(h: Half)
    ensures RunOk(h, []) && Run(h, []) == (h, [])
  {}

  lemma RunCons(h: Half, e: Event, es: seq<Event>)
    requires EventOk(h, e) && RunOk(Step(h, e).h, es)
    ensures var c := Step(h, e);
            RunOk(h, [e] + es) && Run(h, [e] + es) == (Run(c.h, es).0, c.sent + Run(c.h, es).1)
  {
    hide Step, EventOk;
    assert ([e] + es)[1..] == es;
  }

  lemma OneCall(h: Half, e: Event)
    requires EventOk(h, e)
    ensures RunOk(h, [e]) && Run(h, [e]) == (Step(h, e).h, Step(h, e).sent)
  {
    hide Step, EventOk, Run, RunOk;
    NoCalls(Step(h, e).h);
    RunCons(h, e, []);
    assert [e] + [] == [e];
    assert Step(h, e).sent + [] == Step(h, e).sent;
  }

  lemma TwoCalls(h: Half, e1: Event, e2: Event)
    requires EventOk(h, e1) && EventOk(Step(h, e1).h, e2)
    ensures var c1 := Step(h, e1);
            var c2 := Step(c1.h, e2);
            RunOk(h, [e1, e2]) && Run(h, [e1, e2]) == (c2.h, c1.sent + c2.sent)
  {
    hide Step, EventOk, Run, RunOk;
    OneCall(Step(h, e1).h, e2);
    RunCons(h, e1, [e2]);
    assert [e1] + [e2] == [e1, e2];
  }

  lemma ThreeCalls(h: Half, e1: Event, e2: Event, e3: Event)
    requires EventOk(h, e1) && EventOk(Step(h, e1).h, e2) && EventOk(Step(Step(h, e1).h, e2).h, e3)
    ensures var c1 := Step(h, e1);
            var c2 := Step(c1.h, e2);
            var c3 := Step(c2.h, e3);
            RunOk(h, [e1, e2, e3]) && Run(h, [e1, e2, e3]) == (c3.h, c1.sent + c2.sent + c3.sent)
  {
    hide Step, EventOk, Run, RunOk;
    var c1 := Step(h, e1);
    var c2 := Step(c1.h, e2);
    TwoCalls(c1.h, e2, e3);
    RunCons(h, e1, [e2, e3]);
    assert [e1] + [e2, e3] == [e1, e2, e3];
    assert c1.sent + (c2.sent + Step(c2.h, e3).sent) == c1.sent + c2.sent + Step(c2.h, e3).sent;
  }

  // ----- A caller that loops -----

  /** The data bytes of messages, in order. */
  function Bytes(ms: seq<Message>): Octets {
    if ms == [] then [] else BytesOf(ms[0]) + Bytes(ms[1..])
  }

  function BytesOf(m: Message): Octets { if m.Data? then m.bytes else [] }

  lemma BytesCons(m: Message, ms: seq<Message>)
    ensures Bytes([m] + ms) == BytesOf(m) + Bytes(ms)
  {
    assert ([m] + ms)[1..] == ms;
  }

  lemma {:induction false} BytesAppend(xs: seq<Message>, ys: seq<Message>)
    ensures Bytes(xs + ys) == Bytes(xs) + Bytes(ys)
  {
    hide Bytes, BytesOf;
    if xs == [] {
      NothingOn(0);
      assert [] + ys == ys;
    } else {
      var m, t := xs[0], xs[1..];
      assert [m] + t == xs && [m] + (t + ys) == xs + ys;
      calc {
        Bytes(xs + ys);
        { BytesCons(m, t + ys); }
        BytesOf(m) + Bytes(t + ys);
        { BytesAppend(t, ys); }
        BytesOf(m) + (Bytes(t) + Bytes(ys));
        BytesOf(m) + Bytes(t) + Bytes(ys);
        { BytesCons(m, t); }
        Bytes(xs) + Bytes(ys);
      }
    }
  }

  ghost predicate AllOn(ms: seq<Message>, stream: int) {
    forall i :: 0 <= i < |ms| ==> ms[i].Data? && ms[i].stream == stream
  }

  /** A write under way is on this stream. */
  predicate Under(h: Half, stream: int) { h.writeStage == Created ==> h.writeStream == stream }

  /** What a write tells its caller is what it did: these bytes of the buffer went out, or none. */
  lemma WriteResult(h: Half, stream: int, buf: Octets, inflow: Inflow, send: Send)
    requires WriteOk(h, buf)
    ensures var c := WriteCall(h, stream, buf, inflow, send);
            && WriteOk(c.h, buf)
            && (c.rc < 0 ==> c.sent == [])
            && (c.rc >= 0 ==> c.rc <= |buf| && c.h.writeStage != Created && Bytes(c.sent) == buf[..c.rc])
            && (Under(h, stream) ==> Under(c.h, stream) && AllOn(c.sent, stream))
  {
    hide Granted, Wrap32, Bytes;
    GrantedWindow(h, inflow.grants);
    var h' := if h.writeStage == Created then h else Granted(h, inflow.grants);
    var n := if h.writeStage == Created then h.bufwrite else Min(Min(Min(|buf|, MAX_WRITE), h'.window), h'.packetSize);
    OneMessage(if h.writeStage == Created then h.writeStream else stream, buf[..n]);
  }

  lemma OneMessage(stream: int, bytes: Octets)
    ensures Bytes([]) == [] && Bytes([Data(stream, bytes)]) == bytes
  {
    assert [Data(stream, bytes)][1..] == [];
  }

  /** What one call of the loop meets. */
  datatype Meets = Meets(inflow: Inflow, send: Send)

  datatype Pumped = Pumped(h: Half, wr: nat, sent: seq<Message>, failed: bool)

  /** The caller's loop, as far as `env` goes: repeat on EAGAIN, stop on an error, else advance by what was written. */
  function Pump(h: Half, stream: int, buf: Octets, wr: nat, env: seq<Meets>): Pumped
    requires wr <= |buf| && WriteOk(h, buf[wr..])
    decreases |env|
  {
    if wr == |buf| || env == [] then Pumped(h, wr, [], false) else
    var c := WriteCall(h, stream, buf[wr..], env[0].inflow, env[0].send);
    WriteResult(h, stream, buf[wr..], env[0].inflow, env[0].send);
    if c.rc < 0 && c.rc != ERROR_EAGAIN then Pumped(c.h, wr, c.sent, true) else
    var p := Pump(c.h, stream, buf, if c.rc == ERROR_EAGAIN then wr else wr + c.rc, env[1..]);
    p.(sent := c.sent + p.sent)
  }

  /**
   * However the window, the packet size and the cap on writes cut it up, and however
   * often a call blocks, such a caller puts on the wire exactly the bytes it counts as
   * written: in order, each once, on its stream.
   */
  lemma {:induction false} PumpExact(h: Half, stream: int, buf: Octets, wr: nat, env: seq<Meets>)
    requires wr <= |buf| && WriteOk(h, buf[wr..]) && Under(h, stream)
    ensures var p := Pump(h, stream, buf, wr, env);
            && wr <= p.wr <= |buf| && Bytes(p.sent) == buf[wr..p.wr] && AllOn(p.sent, stream)
    decreases |env|
  {
    hide WriteCall, Bytes, Pump, WriteOk, Under, AllOn;
    if wr == |buf| || env == [] {
      PumpStops(h, stream, buf, wr, env);
      NothingOn(stream);
    } else {
      var c := WriteCall(h, stream, buf[wr..], env[0].inflow, env[0].send);
      WriteResult(h, stream, buf[wr..], env[0].inflow, env[0].send);
      PumpStep(h, stream, buf, wr, env);
      if IsError(c.rc) {
        NothingOn(stream);
      } else {
        var wr' := if c.rc == ERROR_EAGAIN then wr else wr + c.rc;
        PumpExact(c.h, stream, buf, wr', env[1..]);
        var p := Pump(c.h, stream, buf, wr', env[1..]);
        PumpJoin(buf, wr, wr', p.wr, c.sent, p.sent, stream);
      }
    }
  }

  lemma NothingOn(stream: int)
    ensures Bytes([]) == [] && AllOn([], stream)
  {}

  lemma PumpJoin(buf: Octets, a: nat, b: nat, c: nat, xs: seq<Message>, ys: seq<Message>, stream: int)
    requires a <= b <= c <= |buf| && AllOn(xs, stream) && AllOn(ys, stream)
    requires Bytes(xs) == buf[a..b] && Bytes(ys) == buf[b..c]
    ensures Bytes(xs + ys) == buf[a..c] && AllOn(xs + ys, stream)
  {
    hide Bytes;
    BytesAppend(xs, ys);
    assert buf[a..b] + buf[b..c] == buf[a..c];
  }

  lemma PumpStops(h: Half, stream: int, buf: Octets, wr: nat, env: seq<Meets>)
    requires wr <= |buf| && WriteOk(h, buf[wr..]) && (wr == |buf| || env == [])
    ensures Pump(h, stream, buf, wr, env) == Pumped(h, wr, [], false)
  {}

  /** One call of the loop. */
  lemma PumpStep(h: Half, stream: int, buf: Octets, wr: nat, env: seq<Meets>)
    requires wr < |buf| && WriteOk(h, buf[wr..]) && env != []
    ensures var c := WriteCall(h, stream, buf[wr..], env[0].inflow, env[0].send);
            var p := Pump(h, stream, buf, wr, env);
            if IsError(c.rc) then p == Pumped(c.h, wr, c.sent, true) && c.sent == []
            else
              var wr' := if c.rc == ERROR_EAGAIN then wr else wr + c.rc;
              && wr' <= |buf| && WriteOk(c.h, buf[wr'..])
              && Bytes(c.sent) == buf[wr..wr']
              && var p' := Pump(c.h, stream, buf, wr', env[1..]);
              p == p'.(sent := c.sent + p'.sent)
  {
    hide WriteCall, Bytes;
    WriteResult(h, stream, buf[wr..], env[0].inflow, env[0].send);
    var c := WriteCall(h, stream, buf[wr..], env[0].inflow, env[0].send);
    if c.rc == ERROR_EAGAIN {
      NothingOn(stream);
      assert buf[wr..wr] == [];
    } else if c.rc >= 0 {
      assert buf[wr..][..c.rc] == buf[wr..wr + c.rc];
    }
  }

  /** The calls that the loop makes. */
  function PumpCalls(h: Half, stream: int, buf: Octets, wr: nat, env: seq<Meets>): seq<Event>
    requires wr <= |buf| && WriteOk(h, buf[wr..])
    decreases |env|
  {
    if wr == |buf| || env == [] then [] else
    var c := WriteCall(h, stream, buf[wr..], env[0].inflow, env[0].send);
    WriteResult(h, stream, buf[wr..], env[0].inflow, env[0].send);
    [Write(stream, buf[wr..], env[0].inflow, env[0].send)] +
    if IsError(c.rc) then []
    else PumpCalls(c.h, stream, buf, if c.rc == ERROR_EAGAIN then wr else wr + c.rc, env[1..])
  }

  /** The loop is a run of the channel like any other. */
  lemma {:induction false} PumpIsRun(h: Half, stream: int, buf: Octets, wr: nat, env: seq<Meets>)
    requires wr <= |buf| && WriteOk(h, buf[wr..])
    ensures var p, es := Pump(h, stream, buf, wr, env), PumpCalls(h, stream, buf, wr, env);
            RunOk(h, es) && Run(h, es) == (p.h, p.sent)
    decreases |env|
  {
    hide WriteCall, Bytes, Pump, WriteOk, Run, RunOk;
    if wr == |buf| || env == [] {
      PumpStops(h, stream, buf, wr, env);
      NoCalls(h);
    } else {
      var b := buf[wr..];
      var e := Write(stream, b, env[0].inflow, env[0].send);
      var c := WriteCall(h, stream, b, env[0].inflow, env[0].send);
      PumpStep(h, stream, buf, wr, env);
      WriteResult(h, stream, b, env[0].inflow, env[0].send);
      if IsError(c.rc) {
        OneCall(h, e);
        assert [e] + [] == [e];
      } else {
        var wr' := if c.rc == ERROR_EAGAIN then wr else wr + c.rc;
        PumpIsRun(c.h, stream, buf, wr', env[1..]);
        RunCons(h, e, PumpCalls(c.h, stream, buf, wr', env[1..]));
      }
    }
  }

  /** A write that sends something writes at least a byte if and only if the packet size leaves room for one. */
  lemma WriteAdvances(h: Half, stream: int, buf: Octets, inflow: Inflow, send: Send)
    requires WriteOk(h, buf) && buf != [] && WriteCall(h, stream, buf, inflow, send).sent != []
    ensures var c := WriteCall(h, stream, buf, inflow, send);
            && |c.sent| == 1 && c.rc >= 0
            && (c.rc >= 1 <==> if h.writeStage == Created then h.bufwrite > 0 else h.packetSize > 0)
  {
    hide Granted, Wrap32;
    GrantedWindow(h, inflow.grants);
  }

  /** What a write leaves alone, as the loop sees it. */
  lemma WriteLeaves(h: Half, stream: int, buf: Octets, inflow: Inflow, send: Send)
    requires WriteOk(h, buf)
    ensures var c := WriteCall(h, stream, buf, inflow, send);
            && c.h.packetSize == h.packetSize && c.h.eof == h.eof && c.h.close == h.close
            && (c.h.writeStage == Created ==>
                  && c.rc == ERROR_EAGAIN
                  && (if h.writeStage == Created then c.h.bufwrite == h.bufwrite
                      else !h.eof && !h.close && (buf != [] ==> (c.h.bufwrite > 0 <==> h.packetSize > 0))))
  {
    hide Granted, Wrap32;
    GrantedWindow(h, inflow.grants);
  }

  /** A write under way has a byte to write. */
  predicate Fruitful(h: Half) { h.packetSize > 0 && (h.writeStage == Created ==> h.bufwrite > 0) }

  /**
   * With a packet size above zero every message that goes out takes the loop a byte
   * further at least, so that it ends after no more messages than it has bytes to write.
   */
  lemma {:induction false} PumpProgress(h: Half, stream: int, buf: Octets, wr: nat, env: seq<Meets>)
    requires wr <= |buf| && WriteOk(h, buf[wr..]) && Fruitful(h)
    ensures var p := Pump(h, stream, buf, wr, env);
            wr + |p.sent| <= p.wr <= |buf|
    decreases |env|
  {
    hide WriteCall, Bytes, Pump, WriteOk;
    if wr == |buf| || env == [] {
      PumpStops(h, stream, buf, wr, env);
    } else {
      var b := buf[wr..];
      var c := WriteCall(h, stream, b, env[0].inflow, env[0].send);
      PumpStep(h, stream, buf, wr, env);
      WriteResult(h, stream, b, env[0].inflow, env[0].send);
      WriteLeaves(h, stream, b, env[0].inflow, env[0].send);
      if c.sent != [] {
        WriteAdvances(h, stream, b, env[0].inflow, env[0].send);
      }
      if !IsError(c.rc) {
        PumpProgress(c.h, stream, buf, if c.rc == ERROR_EAGAIN then wr else wr + c.rc, env[1..]);
      }
    }
  }

  /** The loop can still get to the end of the buffer. */
  predicate Finishable(h: Half, left: nat) {
    left == 0 || (h.writeStage == Created && h.bufwrite == left) || (h.packetSize > 0 && !h.eof && !h.close)
  }

  /**
   * The loop comes to the end of its buffer in some environment if and only if it is
   * there, the write under way takes it there, or writes can still start and carry bytes.
   */
  lemma FinishesIff(h: Half, stream: int, buf: Octets, wr: nat)
    requires wr <= |buf| && WriteOk(h, buf[wr..]) && Stages(h)
    ensures (exists env :: Pump(h, stream, buf, wr, env).wr == |buf|) <==> Finishable(h, |buf| - wr)
  {
    hide Pump, Stages, WriteOk, Finishable;
    if Finishable(h, |buf| - wr) {
      var env := FinishingRun(h, stream, buf, wr);
    } else if env :| Pump(h, stream, buf, wr, env).wr == |buf| {
      NeverFinishes(h, stream, buf, wr, env);
    }
  }

  lemma {:induction false} FinishingRun(h: Half, stream: int, buf: Octets, wr: nat) returns (env: seq<Meets>)
    requires wr <= |buf| && WriteOk(h, buf[wr..]) && Stages(h)
    requires Finishable(h, |buf| - wr)
    ensures Pump(h, stream, buf, wr, env).wr == |buf|
    decreases |buf| - wr, h.writeStage == Created && h.bufwrite == 0
  {
    hide WriteCall, Bytes, Pump, WriteOk;
    if wr == |buf| {
      env := [];
      PumpStops(h, stream, buf, wr, env);
    } else {
      var b := buf[wr..];
      var x := Productive(h, stream, b);
      var c := WriteCall(h, stream, b, x.inflow, x.send);
      WriteResult(h, stream, b, x.inflow, x.send);
      WriteStages(h, stream, b, x.inflow, x.send);
      WriteLeaves(h, stream, b, x.inflow, x.send);
      PumpStep(h, stream, buf, wr, [x]);
      var rest := FinishingRun(c.h, stream, buf, wr + c.rc);
      env := [x] + rest;
      assert env[1..] == rest;
      PumpStep(h, stream, buf, wr, env);
    }
  }

  /** An environment in which the next write goes out with a byte at least, or with all that is left. */
  lemma Productive(h: Half, stream: int, buf: Octets) returns (x: Meets)
    requires WriteOk(h, buf) && buf != [] && Stages(h) && Finishable(h, |buf|)
    ensures var c := WriteCall(h, stream, buf, x.inflow, x.send);
            if h.writeStage == Created then c.rc == h.bufwrite else c.rc > 0
  {
    if h.writeStage == Created {
      x := Meets(Inflow([], 0), Sent);
    } else {
      var grants := if h.window == 0 then [1] else [];
      x := Meets(Inflow(grants, 0), Sent);
      assert Granted(h, grants).window > 0 by {
        assert [1][1..] == [];
      }
      GrantedWindow(h, grants);
    }
  }

  lemma {:induction false} NeverFinishes(h: Half, stream: int, buf: Octets, wr: nat, env: seq<Meets>)
    requires wr <= |buf| && WriteOk(h, buf[wr..]) && Stages(h)
    requires !Finishable(h, |buf| - wr)
    ensures Pump(h, stream, buf, wr, env).wr < |buf|
    decreases |env|
  {
    hide WriteCall, Bytes, Pump, WriteOk;
    if env == [] {
      PumpStops(h, stream, buf, wr, env);
    } else {
      var b := buf[wr..];
      var c := WriteCall(h, stream, b, env[0].inflow, env[0].send);
      PumpStep(h, stream, buf, wr, env);
      if !IsError(c.rc) {
        Barren(h, stream, b, env[0].inflow, env[0].send);
        NeverFinishes(c.h, stream, buf, if c.rc == ERROR_EAGAIN then wr else wr + c.rc, env[1..]);
      }
    }
  }

  /** Where the loop cannot finish, no call changes that. */
  lemma Barren(h: Half, stream: int, buf: Octets, inflow: Inflow, send: Send)
    requires WriteOk(h, buf) && Stages(h) && !Finishable(h, |buf|)
    ensures var c := WriteCall(h, stream, buf, inflow, send);
            && Stages(c.h)
            && (c.rc == ERROR_EAGAIN ==> !Finishable(c.h, |buf|))
            && (c.rc >= 0 ==> c.rc < |buf| && !Finishable(c.h, |buf| - c.rc))
  {
    hide Granted, Wrap32;
    GrantedWindow(h, inflow.grants);
  }

  /** An input for which the loop never moves: a peer that takes packets of no bytes. */
  lemma PumpStalls(window: U32, stream: int, buf: Octets, env: seq<Meets>)
    requires buf != []
    ensures Pump(Fresh(window, 0), stream, buf, 0, env).wr < |buf|
  {
    hide Pump;
    NeverFinishes(Fresh(window, 0), stream, buf, 0, env);
  }

  // ----- Return codes -----

  /** The bytes that a write takes on: no more than 32700, the window, or the packet size. */
  function TakenOn(buf: Octets, window: nat, packetSize: nat): nat {
    var a := if |buf| < 32700 then |buf| else 32700;
    var b := if window < packetSize then window else packetSize;
    if a < b then a else b
  }

  /**
   * What a write with none under way returns and sends. The window that counts is the one
   * with the grants that came in; with none of it left the code is what ended the draining.
   */
  lemma WriteCodes(h: Half, stream: int, buf: Octets, inflow: Inflow, send: Send)
    requires WriteOk(h, buf) && h.writeStage != Created
    ensures var c, w := WriteCall(h, stream, buf, inflow, send), Wrap32(h.window + Sum(inflow.grants));
            if h.close then c == Called(h, -26, [])
            else if h.eof then c == Called(h, -27, [])
            else if inflow.rc < 0 && inflow.rc != -37 then c == Called(h.(window := w), inflow.rc, [])
            else if w == 0 then c == Called(h.(window := 0), if inflow.rc == -37 then -37 else 0, [])
            else
              var n := TakenOn(buf, w, h.packetSize);
              match send
              case Again => c.rc == -37 && c.sent == [] && c.h.writeStage == Created && c.h.bufwrite == n
              case Failed(error) => c.rc == error && c.sent == [] && c.h.writeStage == Idle && c.h.window == w
              case Sent => c.rc == n && c.sent == [Data(stream, buf[..n])] && c.h.writeStage == Idle && c.h.window == w - n
  {
    hide Granted, Wrap32;
    GrantedWindow(h, inflow.grants);
    var w := Wrap32(h.window + Sum(inflow.grants));
    WrapSmall(w - TakenOn(buf, w, h.packetSize));
  }

  /** So it is to be called again, or has written nothing for good, exactly in these cases. */
  lemma WriteAgainIff(h: Half, stream: int, buf: Octets, inflow: Inflow, send: Send)
    requires WriteOk(h, buf) && h.writeStage != Created && !h.close && !h.eof && (inflow.rc >= 0 || inflow.rc == -37)
    ensures var c, w := WriteCall(h, stream, buf, inflow, send), Wrap32(h.window + Sum(inflow.grants));
            && (c.rc == -37 <==> (w == 0 && inflow.rc == -37) || (w > 0 && send == Again))
            && (c.rc == 0 && c.sent == [] <==> w == 0 && inflow.rc != -37)
  {
    hide WriteCall, Wrap32;
    WriteCodes(h, stream, buf, inflow, send);
  }

  /** What a write returns and sends that is called again. */
  lemma RetryCodes(h: Half, stream: int, buf: Octets, inflow: Inflow, send: Send)
    requires WriteOk(h, buf) && h.writeStage == Created
    ensures var c := WriteCall(h, stream, buf, inflow, send);
            match send
            case Again => c == Called(h, -37, [])
            case Failed(error) => c.rc == error && c.sent == [] && c.h.writeStage == Idle && c.h.window == h.window
            case Sent => c.rc == h.bufwrite && c.sent == [Data(h.writeStream, buf[..h.bufwrite])] && c.h.writeStage == Idle
  {}

  /** What sending end of file returns and does. */
  lemma EofCodes(h: Half, send: Send)
    ensures EofCall(h, send) == match send
                                case Sent => Called(h.(eof := true), 0, [Eof])
                                case Again => Called(h, -37, [])
                                case Failed(_) => Called(h, -7, [])
  {}

  /** What a close returns and does, short of the wait; end of file is out, or was seen to. */
  lemma CloseCodes(h: Half, eofSend: Send, send: Send, up: bool, heard: seq<Heard>)
    requires Stages(h)
    ensures var c := CloseCall(h, eofSend, send, up, heard);
            && (h.close ==> c.rc == 0 && c.h.close && c.sent == [])
            && (!h.close && !h.eof && eofSend == Again ==> c == Called(h, -37, []))
            && (!h.close && (h.eof || eofSend != Again) && h.closeStage != Awaiting ==>
                  && (send == Again ==> c.rc == -37 && c.h.closeStage == Created && !c.h.close)
                  && (send.Failed? ==> c.rc == send.error && c.h.close)
                  && (send == Sent && h.peerClosed ==> c.rc == 0 && c.h.close)
                  && (send == Sent && !h.peerClosed && up && heard == [] ==> c.rc == -37 && c.h.closeStage == Awaiting))
            && (!h.close && h.eof && h.closeStage == Awaiting && h.peerClosed ==> c.rc == 0 && c.h.close && c.sent == [])
  {}

  /** What starting a process returns: success if and only if the answer is. */
  lemma StartupCodes(h: Half, request: string, send: Send, reply: Reply)
    ensures var c := StartupCall(h, request, send, reply);
            if h.processStage == End then c == Called(h, -39, [])
            else if h.processStage != Awaiting && send == Again then c.rc == -37 && c.sent == []
            else if h.processStage != Awaiting && send.Failed? then
              c.rc == send.error && c.sent == [] && c.h.processStage == End
            else
              && c.sent == (if h.processStage == Awaiting then []
                            else [Startup(if h.processStage == Idle then request else h.request)])
              && (c.rc == 0 <==> reply == Answer(true))
              && (c.rc == -22 <== reply == Answer(false))
              && (c.rc == -37 <==> reply == Nothing)
              && (reply.Broken? ==> c.rc == reply.error)
              && (c.h.processStage == End <==> reply != Nothing)
  {}

  // ----- At most once -----

  function IsClose(): Message -> bool { (m: Message) => m.Close? }

  function IsStartup(): Message -> bool { (m: Message) => m.Startup? }

  function IsEof(): Message -> bool { (m: Message) => m.Eof? }

  function IsData(): Message -> bool { (m: Message) => m.Data? }

  /** Stages the calls can be in. */
  predicate Stages(h: Half) {
    && (h.writeStage == Idle || h.writeStage == Created) && h.closeStage != End
    && (h.closeStage == Awaiting ==> !h.close)
  }

  /** How many more of a kind the channel may send. */
  function ClosesLeft(h: Half): nat { if h.close || h.closeStage == Awaiting then 0 else 1 }

  function StartupsLeft(h: Half): nat { if h.processStage == Idle || h.processStage == Created then 1 else 0 }

  /** The end of file that a call to close sends. */
  function EofPart(h: Half, eofSend: Send): seq<Message> {
    if !h.close && !h.eof && eofSend == Sent then [Eof] else []
  }

  /** The close that it sends. */
  function ClosePart(h: Half, eofSend: Send, send: Send): seq<Message> {
    if (h.eof || eofSend != Again) && send == Sent && ClosesLeft(h) == 1 then [Close] else []
  }

  /** What the second part of a close sends, and what that does to the stages. */
  lemma RestShape(h: Half, rc: int, send: Send, up: bool, heard: seq<Heard>)
    requires Stages(h) && !h.close
    ensures var c := CloseRest(h, rc, send, up, heard);
            && Stages(c.h) && c.sent == (if send == Sent && ClosesLeft(h) == 1 then [Close] else [])
            && ClosesLeft(c.h) + |c.sent| <= ClosesLeft(h)
  {
    hide Await;
    var h1 := if h.closeStage == Idle then h.(closeStage := Created) else h;
    var h2 := if h1.closeStage == Created && send == Sent then h1.(closeStage := Awaiting) else h1;
    var rc2 := if h1.closeStage != Created then rc else if send.Failed? then send.error else 0;
    AwaitFrame(h2, rc2, up, heard);
  }

  /** What a close sends: end of file if there was none, and the close itself while one is left. */
  lemma CloseShape(h: Half, eofSend: Send, send: Send, up: bool, heard: seq<Heard>)
    requires Stages(h)
    ensures var c := CloseCall(h, eofSend, send, up, heard);
            && c.sent == EofPart(h, eofSend) + ClosePart(h, eofSend, send)
            && Stages(c.h) && c.h.eof == (h.eof || EofPart(h, eofSend) == [Eof]) && (h.close ==> c.h.close)
            && ClosesLeft(c.h) + |ClosePart(h, eofSend, send)| <= ClosesLeft(h)
  {
    hide CloseRest;
    if !h.close {
      var e := if h.eof then Called(h, 0, []) else EofCall(h, eofSend);
      RestShape(e.h, e.rc, send, up, heard);
      RestFrame(e.h, e.rc, send, up, heard);
      var c := CloseRest(e.h, e.rc, send, up, heard);
      assert [] + c.sent == c.sent;
      assert e.sent + [] == e.sent;
    }
  }

  lemma WriteStages(h: Half, stream: int, buf: Octets, inflow: Inflow, send: Send)
    requires WriteOk(h, buf) && Stages(h)
    ensures var c := WriteCall(h, stream, buf, inflow, send);
            && Stages(c.h) && c.h.close == h.close && c.h.closeStage == h.closeStage
            && c.h.processStage == h.processStage && c.h.eof == h.eof
            && (c.sent == [] || (|c.sent| == 1 && c.sent[0].Data?))
  {
    hide Granted, Wrap32;
    GrantedWindow(h, inflow.grants);
  }

  /** What the calls send that send at most one message. */
  lemma PlainCalls(h: Half, e: Event)
    requires !e.Write? && !e.CloseIt?
    ensures var c := Step(h, e);
            && c.h.writeStage == h.writeStage && c.h.closeStage == h.closeStage && c.h.close == h.close
            && |c.sent| <= 1 && c.h.eof == (h.eof || c.sent == [Eof])
            && (c.sent != [] ==> c.sent[0].Eof? || c.sent[0].Startup?)
            && StartupsLeft(c.h) + (if c.sent != [] && c.sent[0].Startup? then 1 else 0) <= StartupsLeft(h)
  {
    hide StartupCall, EofCall, Wrap32;
    if e.StartUp? {
      StartupShape(h, e.request, e.send, e.reply);
    } else if e.SendEof? {
      EofShape(h, e.send);
    }
  }

  lemma StartupShape(h: Half, request: string, send: Send, reply: Reply)
    ensures var c := StartupCall(h, request, send, reply);
            && c.h == h.(processStage := c.h.processStage, request := c.h.request)
            && c.h.request == (if h.processStage == Idle then request else h.request)
            && (c.sent == [] || c.sent == [Startup(c.h.request)])
            && StartupsLeft(c.h) + |c.sent| <= StartupsLeft(h)
  {}

  lemma EofShape(h: Half, send: Send)
    ensures var c := EofCall(h, send);
            c.h == h.(eof := c.h.eof) && c.h.eof == (h.eof || send == Sent) && c.sent == if send == Sent then [Eof] else []
  {}

  lemma CountFew(kind: Message -> bool, ms: seq<Message>)
    requires |ms| <= 1
    ensures Count(kind, ms) == if ms != [] && kind(ms[0]) then 1 else 0
  {
    if ms == [] {
      CountNone(kind);
    } else {
      CountOne(kind, ms[0]);
      assert ms == [ms[0]];
    }
  }

  /** What a close sends, counted. */
  lemma CountClose(kind: Message -> bool, h: Half, eofSend: Send, send: Send)
    ensures Count(kind, EofPart(h, eofSend) + ClosePart(h, eofSend, send))
            == (if EofPart(h, eofSend) == [Eof] && kind(Eof) then 1 else 0)
               + (if ClosePart(h, eofSend, send) == [Close] && kind(Close) then 1 else 0)
  {
    hide Count;
    CountAppend(kind, EofPart(h, eofSend), ClosePart(h, eofSend, send));
    CountFew(kind, EofPart(h, eofSend));
    CountFew(kind, ClosePart(h, eofSend, send));
  }

  /** Each call sends a close or a startup request only while one is left, and records end of file when it sends it. */
  lemma StepOnce(h: Half, e: Event)
    requires EventOk(h, e) && Stages(h)
    ensures var c := Step(h, e);
            && Stages(c.h) && (h.close ==> c.h.close)
            && Count(IsClose(), c.sent) + ClosesLeft(c.h) <= ClosesLeft(h)
            && Count(IsStartup(), c.sent) + StartupsLeft(c.h) <= StartupsLeft(h)
            && c.h.eof == (h.eof || Count(IsEof(), c.sent) > 0)
  {
    hide WriteCall, CloseCall, Count, EofCall, StartupCall, ClosePart, EofPart;
    if e.CloseIt? {
      CloseShape(h, e.eofSend, e.send, e.up, e.heard);
      CloseFrame(h, e.eofSend, e.send, e.up, e.heard);
      CountClose(IsClose(), h, e.eofSend, e.send);
      CountClose(IsStartup(), h, e.eofSend, e.send);
      CountClose(IsEof(), h, e.eofSend, e.send);
    } else {
      if e.Write? {
        WriteStages(h, e.stream, e.buf, e.inflow, e.send);
      } else {
        PlainCalls(h, e);
      }
      CountFew(IsClose(), Step(h, e).sent);
      CountFew(IsStartup(), Step(h, e).sent);
      CountFew(IsEof(), Step(h, e).sent);
    }
  }

  lemma {:induction false} RunOnce(h: Half, es: seq<Event>)
    requires RunOk(h, es) && Stages(h)
    ensures var (h', sent) := Run(h, es);
            && Stages(h')
            && Count(IsClose(), sent) + ClosesLeft(h') <= ClosesLeft(h)
            && Count(IsStartup(), sent) + StartupsLeft(h') <= StartupsLeft(h)
            && h'.eof == (h.eof || Count(IsEof(), sent) > 0)
    decreases |es|
  {
    hide Step, Stages, EventOk, Count;
    if es == [] {
      CountNone(IsClose());
      CountNone(IsStartup());
      CountNone(IsEof());
    } else {
      StepOnce(h, es[0]);
      var c := Step(h, es[0]);
      RunOnce(c.h, es[1..]);
      CountAppend(IsClose(), c.sent, Run(c.h, es[1..]).1);
      CountAppend(IsStartup(), c.sent, Run(c.h, es[1..]).1);
      CountAppend(IsEof(), c.sent, Run(c.h, es[1..]).1);
    }
  }

  /** A channel sends at most one close and at most one request to start a process, ever. */
  lemma AtMostOnce(window: U32, packetSize: U32, es: seq<Event>)
    requires RunOk(Fresh(window, packetSize), es)
    ensures var (h', sent) := Run(Fresh(window, packetSize), es);
            Count(IsClose(), sent) <= 1 && Count(IsStartup(), sent) <= 1
  {
    hide Run, Count;
    RunOnce(Fresh(window, packetSize), es);
  }

  // ----- Waiting for the peer's close -----

  /** Nothing that would end the wait is among the first `k` packets heard. */
  ghost predicate Uneventful(heard: seq<Heard>, k: nat)
    requires k <= |heard|
  {
    forall j :: 0 <= j < k ==> heard[j].rc == 0 && !heard[j].closes && !heard[j].disconnects
  }

  /** The wait for the peer's close ends, without an error, at packet `k`, which is not that close. */
  ghost predicate CutShort(heard: seq<Heard>, k: nat) {
    && k < |heard| && Uneventful(heard, k) && !heard[k].closes
    && (heard[k].rc > 0 || (heard[k].rc == 0 && heard[k].disconnects))
  }

  /**
   * A wait ends without an error and without the peer's close if and only if some other
   * packet comes first, of whatever kind and for whichever channel, or the socket is lost.
   */
  lemma {:induction false} WaitCutShortIff(h: Half, heard: seq<Heard>)
    requires !h.peerClosed
    ensures var (h', rc) := Await(h, 0, true, heard);
            && (rc >= 0 && !h'.peerClosed <==> exists k: nat :: CutShort(heard, k))
            && (rc > 0 && !h'.peerClosed <==> exists k: nat :: CutShort(heard, k) && heard[k].rc > 0)
    decreases |heard|
  {
    if heard == [] {
    } else {
      var x, t := heard[0], heard[1..];
      assert CutShort(heard, 0) <==> !x.closes && (x.rc > 0 || (x.rc == 0 && x.disconnects));
      if x.rc == 0 && !x.closes && !x.disconnects {
        WaitCutShortIff(h, t);
        CutShortLater(heard);
      } else {
        assert Await(h.(peerClosed := x.closes), x.rc, !x.disconnects, t) == (h.(peerClosed := x.closes), x.rc);
        CutShortNow(heard);
      }
    }
  }

  lemma CutShortLater(heard: seq<Heard>)
    requires heard != [] && heard[0].rc == 0 && !heard[0].closes && !heard[0].disconnects
    ensures (exists k: nat :: CutShort(heard, k)) <==> exists k: nat :: CutShort(heard[1..], k)
    ensures (exists k: nat :: CutShort(heard, k) && heard[k].rc > 0)
            <==> exists k: nat :: CutShort(heard[1..], k) && heard[1..][k].rc > 0
  {
    var t := heard[1..];
    forall k: nat
      ensures CutShort(t, k) <==> CutShort(heard, k + 1)
    {
      if k < |t| {
        assert t[k] == heard[k + 1];
        assert Uneventful(t, k) <==> Uneventful(heard, k + 1) by {
          assert forall j :: 0 <= j < k ==> t[j] == heard[j + 1];
          assert Uneventful(t, k) ==> forall j :: 1 <= j < k + 1 ==> heard[j] == t[j - 1];
        }
      }
    }
    assert !CutShort(heard, 0);
    if k: nat :| CutShort(heard, k) {
      assert CutShort(t, k - 1);
    }
    if k: nat :| CutShort(heard, k) && heard[k].rc > 0 {
      assert CutShort(t, k - 1) && t[k - 1].rc > 0;
    }
    if k: nat :| CutShort(t, k) {
      assert CutShort(heard, k + 1);
    }
    if k: nat :| CutShort(t, k) && t[k].rc > 0 {
      assert CutShort(heard, k + 1) && heard[k + 1].rc > 0;
    }
  }

  lemma CutShortNow(heard: seq<Heard>)
    requires heard != [] && !(heard[0].rc == 0 && !heard[0].closes && !heard[0].disconnects)
    ensures forall k: nat :: CutShort(heard, k) ==> k == 0
  {}

  /**
   * A close that waits, end of file being out, returns success and marks the channel
   * closed with no close from the peer if and only if its wait is cut short.
   */
  lemma CloseUnheardIff(h: Half, eofSend: Send, heard: seq<Heard>)
    requires Stages(h) && h.eof && !h.close && !h.peerClosed
    ensures var c := CloseCall(h, eofSend, Sent, true, heard);
            c.rc == 0 && c.h.close && !c.h.peerClosed <==> exists k: nat :: CutShort(heard, k)
  {
    hide Await, CutShort;
    var h2 := h.(closeStage := Awaiting);
    WaitCutShortIff(h2, heard);
    AwaitFrame(h2, 0, true, heard);
    assert CloseCall(h, eofSend, Sent, true, heard) == CloseRest(h, 0, Sent, true, heard);
  }

  /** An input for which it is: data arrives, for this or any other channel, before the peer's close. */
  lemma CloseUnheard(window: U32, packetSize: U32)
    ensures var c := CloseCall(Fresh(window, packetSize), Sent, Sent, true, [Heard(MSG_CHANNEL_DATA, false, false)]);
            c.rc == 0 && c.h.close && !c.h.peerClosed && c.sent == [Eof, Close]
  {
    hide Await, CutShort;
    var heard := [Heard(MSG_CHANNEL_DATA, false, false)];
    var h := Fresh(window, packetSize);
    var h1 := h.(eof := true);
    assert CutShort(heard, 0) by { OnlyData(heard); }
    CloseUnheardIff(h1, Sent, heard);
    CloseShape(h, Sent, Sent, true, heard);
    assert [Eof] + [Close] == [Eof, Close];
    assert EofCall(h, Sent) == Called(h1, 0, [Eof]);
    assert CloseCall(h1, Sent, Sent, true, heard) == CloseRest(h1, 0, Sent, true, heard);
  }

  lemma OnlyData(heard: seq<Heard>)
    requires |heard| == 1 && heard[0].rc > 0 && !heard[0].closes
    ensures CutShort(heard, 0)
  {}

  /** `SSH_MSG_CHANNEL_DATA`, which reading one from the transport returns. */
  const MSG_CHANNEL_DATA := 94

  // ----- What can still be sent -----

  /** Some run from here puts a message of the kind on the wire. */
  ghost predicate CanSend(h: Half, kind: Message -> bool) {
    exists es :: RunOk(h, es) && Count(kind, Run(h, es).1) > 0
  }

  lemma SendsNow(h: Half, e: Event, kind: Message -> bool, m: Message)
    requires EventOk(h, e) && m in Step(h, e).sent && kind(m)
    ensures CanSend(h, kind)
  {
    hide Step, EventOk, Run, RunOk, Count;
    OneCall(h, e);
    var i :| 0 <= i < |Step(h, e).sent| && Step(h, e).sent[i] == m;
    CountMember(kind, Step(h, e).sent, i);
    assert RunOk(h, [e]) && Count(kind, Run(h, [e]).1) > 0;
  }

  /** No write is under way and none can start. */
  predicate Barred(h: Half) { (h.eof || h.close) && h.writeStage != Created }

  /** No new write starts after end of file or close: what data a write sends then was under way. */
  lemma WriteData(h: Half, stream: int, buf: Octets, inflow: Inflow, send: Send)
    requires WriteOk(h, buf)
    ensures var c := WriteCall(h, stream, buf, inflow, send);
            && (h.eof || h.close ==> |c.sent| + Pending(c.h) <= Pending(h))
            && (Barred(h) ==> c.h == h && c.sent == [] && c.rc < 0)
  {}

  lemma StepBarred(h: Half, e: Event)
    requires EventOk(h, e) && Stages(h) && Barred(h)
    ensures Stages(Step(h, e).h) && Barred(Step(h, e).h) && Count(IsData(), Step(h, e).sent) == 0
  {
    hide WriteCall, CloseCall, EofCall, StartupCall, Count;
    StepOnce(h, e);
    if e.Write? {
      WriteData(h, e.stream, e.buf, e.inflow, e.send);
      CountNone(IsData());
    } else if e.Grant? {
      CountNone(IsData());
    } else {
      Quiet(h, e);
      CountWitness(IsData(), Step(h, e).sent);
    }
  }

  lemma {:induction false} RunBarred(h: Half, es: seq<Event>)
    requires RunOk(h, es) && Stages(h) && Barred(h)
    ensures Count(IsData(), Run(h, es).1) == 0
    decreases |es|
  {
    hide Step, EventOk, Stages, Barred, Count;
    if es == [] {
      CountNone(IsData());
    } else {
      StepBarred(h, es[0]);
      var c := Step(h, es[0]);
      RunBarred(c.h, es[1..]);
      CountAppend(IsData(), c.sent, Run(c.h, es[1..]).1);
    }
  }

  /** A write that goes out now, if none is barred. */
  lemma WriteNow(h: Half) returns (e: Event, m: Message)
    requires Stages(h) && !Barred(h)
    ensures EventOk(h, e) && m.Data? && m in Step(h, e).sent
  {
    if h.writeStage == Created {
      var buf := seq(h.bufwrite, _ => 0);
      e, m := Write(0, buf, Inflow([], 0), Sent), Data(h.writeStream, buf[..h.bufwrite]);
    } else {
      var grants := if h.window == 0 then [1] else [];
      e, m := Write(0, [], Inflow(grants, 0), Sent), Data(0, []);
      assert Granted(h, grants).window > 0 by {
        assert [1][1..] == [];
      }
      GrantedWindow(h, grants);
    }
  }

  /**
   * Exactly which messages some run can still send: end of file always, a close and a
   * startup request while one is left, and data unless no write is under way and the
   * channel has sent end of file or is closed.
   */
  lemma CanSendIff(h: Half)
    requires Stages(h)
    ensures CanSend(h, IsEof())
    ensures CanSend(h, IsClose()) <==> ClosesLeft(h) == 1
    ensures CanSend(h, IsStartup()) <==> StartupsLeft(h) == 1
    ensures CanSend(h, IsData()) <==> !Barred(h)
  {
    hide Run, RunOk, Count, CloseCall, WriteCall, Barred, Stages, Step;
    SimpleSends(h);
    if ClosesLeft(h) == 1 {
      CloseNow(h);
      SendsNow(h, CloseIt(Sent, Sent, false, []), IsClose(), Close);
    }
    if !Barred(h) {
      var e, m := WriteNow(h);
      SendsNow(h, e, IsData(), m);
    }
    forall es | RunOk(h, es)
      ensures Count(IsClose(), Run(h, es).1) > 0 ==> ClosesLeft(h) == 1
      ensures Count(IsStartup(), Run(h, es).1) > 0 ==> StartupsLeft(h) == 1
      ensures Barred(h) ==> Count(IsData(), Run(h, es).1) == 0
    {
      RunOnce(h, es);
      if Barred(h) {
        RunBarred(h, es);
      }
    }
  }

  lemma SimpleSends(h: Half)
    ensures CanSend(h, IsEof())
    ensures StartupsLeft(h) == 1 ==> CanSend(h, IsStartup())
  {
    hide Run, RunOk, Count, CanSend;
    SendsNow(h, SendEof(Sent), IsEof(), Eof);
    if StartupsLeft(h) == 1 {
      SendsNow(h, StartUp("", Sent, Nothing), IsStartup(), Startup(if h.processStage == Idle then "" else h.request));
    }
  }

  lemma CloseNow(h: Half)
    requires Stages(h) && ClosesLeft(h) == 1
    ensures Close in Step(h, CloseIt(Sent, Sent, false, [])).sent
  {
    hide CloseCall;
    CloseShape(h, Sent, Sent, false, []);
    var eofs := EofPart(h, Sent);
    assert (eofs + [Close])[|eofs|] == Close;
  }

  /**
   * Once a close is on the wire no other can follow it, but end of file can, a startup
   * request if none was sent, and data unless the channel is barred from it.
   */
  lemma AfterClose(h: Half, es: seq<Event>)
    requires RunOk(h, es) && Stages(h) && Count(IsClose(), Run(h, es).1) > 0
    ensures var h' := Run(h, es).0;
            && !CanSend(h', IsClose()) && CanSend(h', IsEof())
            && (CanSend(h', IsStartup()) <==> StartupsLeft(h') == 1)
            && (CanSend(h', IsData()) <==> !Barred(h'))
  {
    hide Run, RunOk, Count, CanSend, Barred, Stages;
    RunOnce(h, es);
    CanSendIff(Run(h, es).0);
  }

  /** A run in which new data and the end of file follow the close: the first end of file could not be sent. */
  lemma EofAfterClose(window: U32, packetSize: U32, buf: Octets)
    requires 0 < |buf| <= window && |buf| <= packetSize && |buf| <= MAX_WRITE
    ensures var h := Fresh(window, packetSize);
            var es := [CloseIt(Failed(-1), Sent, true, []), Write(0, buf, Inflow([], ERROR_EAGAIN), Sent),
                       CloseIt(Sent, Sent, true, [])];
            RunOk(h, es) && Run(h, es).1 == [Close, Data(0, buf), Eof]
  {
    hide Run, RunOk, CloseCall, WriteCall;
    var h := Fresh(window, packetSize);
    var e1 := CloseIt(Failed(-1), Sent, true, []);
    var e2 := Write(0, buf, Inflow([], ERROR_EAGAIN), Sent);
    var e3 := CloseIt(Sent, Sent, true, []);
    CloseShape(h, Failed(-1), Sent, true, []);
    CloseFrame(h, Failed(-1), Sent, true, []);
    var h1 := Step(h, e1).h;
    assert Step(h, e1).sent == [] + [Close] == [Close];
    assert !h1.close by { StillWaiting(h); }
    NewWrite(h1, buf);
    var h2 := Step(h1, e2).h;
    WriteStages(h1, 0, buf, Inflow([], ERROR_EAGAIN), Sent);
    CloseShape(h2, Sent, Sent, true, []);
    assert Step(h2, e3).sent == [Eof] + [] == [Eof];
    ThreeCalls(h, e1, e2, e3);
    assert [Close] + [Data(0, buf)] + [Eof] == [Close, Data(0, buf), Eof];
  }

  lemma StillWaiting(h: Half)
    requires !h.close && !h.eof && h.closeStage == Idle && !h.peerClosed
    ensures !CloseCall(h, Failed(-1), Sent, true, []).h.close
  {}

  lemma NewWrite(h: Half, buf: Octets)
    requires h.writeStage == Idle && !h.close && !h.eof
    requires 0 < |buf| <= h.window && |buf| <= h.packetSize && |buf| <= MAX_WRITE
    ensures WriteCall(h, 0, buf, Inflow([], ERROR_EAGAIN), Sent).sent == [Data(0, buf)]
  {
    assert buf[..|buf|] == buf;
  }

  // ----- Order -----

  /** Every close comes after an end of file, given that there was one before if `seen`. */
  predicate EofFirst(seen: bool, ms: seq<Message>)
    decreases |ms|
  {
    ms == [] || ((ms[0].Close? ==> seen) && EofFirst(seen || ms[0].Eof?, ms[1..]))
  }

  predicate Faultless(e: Event) {
    match e
    case SendEof(send) => !send.Failed?
    case CloseIt(eofSend, send, _, _) => !eofSend.Failed? && !send.Failed?
    case _ => true
  }

  lemma {:induction false} EofFirstAppend(seen: bool, xs: seq<Message>, ys: seq<Message>)
    ensures EofFirst(seen, xs + ys) <==>
            EofFirst(seen, xs) && EofFirst(seen || Count(IsEof(), xs) > 0, ys)
    decreases |xs|
  {
    if xs == [] {
      assert [] + ys == ys;
    } else {
      assert (xs + ys)[1..] == xs[1..] + ys;
      EofFirstAppend(seen || xs[0].Eof?, xs[1..], ys);
    }
  }

  lemma FewFirst(seen: bool, ms: seq<Message>)
    requires |ms| <= 1
    ensures EofFirst(seen, ms) <==> (ms != [] && ms[0].Close? ==> seen)
  {
    if ms == [] {
    } else {
      assert EofFirst(seen || ms[0].Eof?, ms[1..]);
    }
  }

  /** A call to close puts its end of file first: the close is out of order if and only if there is none. */
  lemma CloseFirst(h: Half, eofSend: Send, send: Send)
    ensures EofFirst(h.eof, EofPart(h, eofSend) + ClosePart(h, eofSend, send))
            <==> ClosePart(h, eofSend, send) == [] || h.eof || !eofSend.Failed?
  {
    hide EofFirst, Count;
    var eofs, closes := EofPart(h, eofSend), ClosePart(h, eofSend, send);
    EofFirstAppend(h.eof, eofs, closes);
    FewFirst(h.eof, eofs);
    FewFirst(h.eof || Count(IsEof(), eofs) > 0, closes);
    CountFew(IsEof(), eofs);
  }

  lemma StepEofFirst(h: Half, e: Event)
    requires EventOk(h, e) && Faultless(e) && Stages(h)
    ensures EofFirst(h.eof, Step(h, e).sent)
  {
    hide WriteCall, CloseCall, EofFirst, EofCall, StartupCall, EofPart, ClosePart;
    if e.CloseIt? {
      CloseShape(h, e.eofSend, e.send, e.up, e.heard);
      CloseFirst(h, e.eofSend, e.send);
    } else {
      if e.Write? {
        WriteStages(h, e.stream, e.buf, e.inflow, e.send);
      } else {
        PlainCalls(h, e);
      }
      FewFirst(h.eof, Step(h, e).sent);
    }
  }

  /** Without send errors, a channel that closes has sent end of file before. */
  lemma {:induction false} EofPrecedesClose(h: Half, es: seq<Event>)
    requires RunOk(h, es) && Stages(h) && forall i :: 0 <= i < |es| ==> Faultless(es[i])
    ensures EofFirst(h.eof, Run(h, es).1)
    decreases |es|
  {
    hide Step, EventOk, EofFirst, Stages, Faultless, Count;
    if es == [] {
      FewFirst(h.eof, []);
    } else {
      StepEofFirst(h, es[0]);
      StepOnce(h, es[0]);
      var c := Step(h, es[0]);
      EofPrecedesClose(c.h, es[1..]);
      EofFirstAppend(h.eof, c.sent, Run(c.h, es[1..]).1);
    }
  }

  /** A close goes out with no end of file before it if and only if sending that one failed. */
  lemma CloseWithoutEofIff(h: Half, eofSend: Send, send: Send, up: bool, heard: seq<Heard>)
    requires Stages(h) && Close in CloseCall(h, eofSend, send, up, heard).sent
    ensures EofFirst(h.eof, CloseCall(h, eofSend, send, up, heard).sent) <==> h.eof || !eofSend.Failed?
  {
    hide CloseCall, EofFirst;
    CloseShape(h, eofSend, send, up, heard);
    CloseFirst(h, eofSend, send);
  }

  /** How many data messages follow an end of file, given that there was one before if `seen`. */
  function DataAfterEof(seen: bool, ms: seq<Message>): nat
    decreases |ms|
  {
    if ms == [] then 0 else (if seen && ms[0].Data? then 1 else 0) + DataAfterEof(seen || ms[0].Eof?, ms[1..])
  }

  /** The data that may still follow: a write that was under way. */
  function Pending(h: Half): nat { if h.writeStage == Created then 1 else 0 }

  lemma {:induction false} DataAfterAppend(seen: bool, xs: seq<Message>, ys: seq<Message>)
    ensures DataAfterEof(seen, xs + ys)
            == DataAfterEof(seen, xs) + DataAfterEof(seen || Count(IsEof(), xs) > 0, ys)
    decreases |xs|
  {
    if xs == [] {
      assert [] + ys == ys;
    } else {
      assert (xs + ys)[1..] == xs[1..] + ys;
      DataAfterAppend(seen || xs[0].Eof?, xs[1..], ys);
    }
  }

  lemma FewAfter(seen: bool, ms: seq<Message>)
    requires |ms| <= 1
    ensures DataAfterEof(seen, ms) == if ms != [] && ms[0].Data? && seen then 1 else 0
  {
    if ms == [] {
    } else {
      assert DataAfterEof(seen || ms[0].Eof?, ms[1..]) == 0;
    }
  }

  lemma {:induction false} NoData(seen: bool, ms: seq<Message>)
    requires Control(ms)
    ensures DataAfterEof(seen, ms) == 0
    decreases |ms|
  {
    if ms == [] {
    } else {
      NoData(seen || ms[0].Eof?, ms[1..]);
    }
  }

  /** After end of file, all data counts. */
  lemma {:induction false} AllAfter(ms: seq<Message>)
    ensures DataAfterEof(true, ms) == Count(IsData(), ms)
  {
    if ms == [] {
    } else {
      AllAfter(ms[1..]);
    }
  }

  lemma StepData(h: Half, e: Event)
    requires EventOk(h, e) && Stages(h)
    ensures var c := Step(h, e);
            && (h.eof ==> DataAfterEof(true, c.sent) + Pending(c.h) <= Pending(h))
            && (!h.eof ==> DataAfterEof(false, c.sent) == 0)
            && (!h.eof && c.h.eof ==> c.h.writeStage == h.writeStage)
  {
    hide WriteCall, CloseCall, DataAfterEof, Stages, EofCall, StartupCall, WriteOk;
    if e.Write? {
      WriteStages(h, e.stream, e.buf, e.inflow, e.send);
      WriteData(h, e.stream, e.buf, e.inflow, e.send);
      FewAfter(h.eof, Step(h, e).sent);
    } else if e.Grant? {
      FewAfter(h.eof, []);
    } else {
      Quiet(h, e);
      NoData(h.eof, Step(h, e).sent);
    }
  }

  /**
   * Over every run, at most one data message follows the end of file: a write that was
   * under way when it was sent.
   */
  lemma {:induction false} DataStopsAtEof(h: Half, es: seq<Event>)
    requires RunOk(h, es) && Stages(h)
    ensures DataAfterEof(h.eof, Run(h, es).1) <= if h.eof then Pending(h) else 1
    decreases |es|
  {
    hide Step, EventOk, DataAfterEof, Stages, Count;
    if es == [] {
      FewAfter(h.eof, []);
    } else {
      StepData(h, es[0]);
      StepOnce(h, es[0]);
      var c := Step(h, es[0]);
      DataStopsAtEof(c.h, es[1..]);
      DataAfterAppend(h.eof, c.sent, Run(c.h, es[1..]).1);
    }
  }

  /** Data can follow the end of file if and only if a write was under way. */
  lemma DataAfterEofIff(h: Half)
    requires Stages(h) && h.eof
    ensures (exists es :: RunOk(h, es) && DataAfterEof(true, Run(h, es).1) > 0) <==> h.writeStage == Created
  {
    hide Run, RunOk, Count, DataAfterEof, Stages;
    CanSendIff(h);
    if h.writeStage == Created {
      var es :| RunOk(h, es) && Count(IsData(), Run(h, es).1) > 0;
      AllAfter(Run(h, es).1);
    } else if es :| RunOk(h, es) && DataAfterEof(true, Run(h, es).1) > 0 {
      AllAfter(Run(h, es).1);
    }
  }

  /** `SSH_MSG_CHANNEL_CLOSE`, which reading one from the transport returns. */
  const MSG_CHANNEL_CLOSE := 97

  /**
   * And it can follow even the close: a write that blocked, the close, the write again.
   * The write has to block before any of it is sent, as it does when the transport
   * exchanges keys anew; with a packet half sent the transport refuses any other.
   */
  lemma DataAfterClose(window: U32, packetSize: U32, buf: Octets)
    requires 0 < |buf| <= window && |buf| <= packetSize && |buf| <= MAX_WRITE
    ensures var h := Fresh(window, packetSize);
            var es := [Write(0, buf, Inflow([], ERROR_EAGAIN), Again),
                       CloseIt(Sent, Sent, true, [Heard(MSG_CHANNEL_CLOSE, true, false)]),
                       Write(0, buf, Inflow([], ERROR_EAGAIN), Sent)];
            RunOk(h, es) && Run(h, es).1 == [Eof, Close, Data(0, buf)] && Run(h, es).0.close
  {
    hide Run, RunOk, CloseCall;
    var h := Fresh(window, packetSize);
    var heard := [Heard(MSG_CHANNEL_CLOSE, true, false)];
    var e1, e2 := Write(0, buf, Inflow([], ERROR_EAGAIN), Again), CloseIt(Sent, Sent, true, heard);
    var e3 := Write(0, buf, Inflow([], ERROR_EAGAIN), Sent);
    BlockedFirst(h, buf);
    var h1 := Step(h, e1).h;
    CloseShape(h1, Sent, Sent, true, heard);
    CloseFrame(h1, Sent, Sent, true, heard);
    assert CloseCall(h1, Sent, Sent, true, heard).h.close by { HeardClose(h1, heard[0], heard); }
    var h2 := Step(h1, e2).h;
    assert Step(h1, e2).sent == [Eof] + [Close];
    SentAgain(h2, buf);
    ThreeCalls(h, e1, e2, e3);
    assert [] + ([Eof] + [Close]) + [Data(0, buf)] == [Eof, Close, Data(0, buf)];
  }

  lemma HeardClose(h: Half, x: Heard, heard: seq<Heard>)
    requires !h.close && !h.eof && h.closeStage == Idle && !h.peerClosed && x.rc > 0 && x.closes && heard == [x]
    ensures CloseCall(h, Sent, Sent, true, heard).h.close
  {
    var h1 := h.(eof := true);
    assert EofCall(h, Sent) == Called(h1, 0, [Eof]);
    var h2 := h1.(closeStage := Awaiting);
    assert Await(h2, 0, true, heard).1 == x.rc;
    assert CloseRest(h1, 0, Sent, true, heard).h.close;
  }

  // ----- The books of a channel -----

  /**
   * What a channel's state, the messages it has sent and the credit it was granted have to
   * do with each other; `lawful` says that no grant so far lifted the window to 2^32.
   */
  ghost predicate Books(h: Half, wire: seq<Message>, granted: nat, lawful: bool) {
    && Stages(h) && Cut(h) && Small(wire, h.packetSize)
    && Count(IsClose(), wire) + ClosesLeft(h) <= 1
    && Count(IsStartup(), wire) + StartupsLeft(h) <= 1
    && h.eof == (Count(IsEof(), wire) > 0)
    && Wrap32(Payload(wire) + h.window) == Wrap32(granted)
    && (lawful ==> Payload(wire) + h.window == granted)
  }

  lemma BooksOpen(window: U32, packetSize: U32)
    ensures Books(Fresh(window, packetSize), [], window, true)
  {
    CountNone(IsClose());
    CountNone(IsStartup());
    CountNone(IsEof());
  }

  /**
   * Every call keeps the books, and every grant that does not overrun the window; payload
   * and window match the credit exactly for as long as the grants are lawful.
   */
  lemma KeepsBooks(h: Half, e: Event, wire: seq<Message>, granted: nat, lawful: bool)
    requires Books(h, wire, granted, lawful) && EventOk(h, e) && (e.Grant? ==> h.window + e.amount < TWO32)
    ensures Books(Step(h, e).h, wire + Step(h, e).sent, granted + Sum(GrantsOf(h, e)),
                  lawful && Lawful(h.window, GrantsOf(h, e)))
  {
    hide Step, EventOk, Stages, Cut, Count, Sum, GrantsOf, Payload, Wrap32, ClosesLeft, StartupsLeft, Lawful;
    StepOnce(h, e);
    StepCredit(h, e);
    if e.Grant? {
      LawfulOne(h, e.amount);
    }
    var c := Step(h, e);
    CountAppend(IsClose(), wire, c.sent);
    CountAppend(IsStartup(), wire, c.sent);
    CountAppend(IsEof(), wire, c.sent);
    PayloadAppend(wire, c.sent);
    var sum := Sum(GrantsOf(h, e));
    WrapAdd(Payload(wire), h.window + sum);
    WrapBoth(Payload(wire) + h.window, granted, sum);
    assert Payload(wire) + (h.window + sum) == Payload(wire) + h.window + sum;
    assert Payload(wire + c.sent) + c.h.window == Payload(wire) + Wrap32(h.window + sum);
  }

  lemma LawfulOne(h: Half, amount: U32)
    requires h.window + amount < TWO32
    ensures Lawful(h.window, GrantsOf(h, Grant(amount)))
  {
    OneSum(amount);
  }
}
