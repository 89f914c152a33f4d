/** The receiving calls of libssh2/src/channel.c as the code makes them: loops over a list that they unlink packets from. */
module ChannelReader {
  import opened Octets
  import opened ChannelBasics
  import opened ChannelQueue
  import opened ChannelReceive
  import opened ChannelReceiveRuns
  import opened ChannelLedger

  /** A message waiting on the socket; a data message comes with what becomes of an adjustment it may cause. */
  datatype Incoming =
    | DataIn(payload: Octets, send: Send)
    | ResumeIn(payload: Octets, send: Send)  // ignored data whose adjustment blocked before
    | EofIn(id: U32)
    | CloseIn(id: U32)
    | OtherIn(payload: Octets)

  /** Ignored data that there is a channel for. */
  predicate Resumable(s: Session, d: Octets) { |d| >= 13 && Load32(d, 1) in s.chans }

  /** The event that a message is. */
  function EventOf(x: Incoming): Event {
    match x
    case DataIn(d, send) => Data(d, send)
    case ResumeIn(d, send) =>
      if |d| >= 13 then Event.Adjust(Load32(d, 1), Wrap32(|d| - 13), true, send) else Data([], send)
    case EofIn(id) => PeerEof(id)
    case CloseIn(id) => PeerClose(id)
    case OtherIn(payload) => Reply(payload)
  }

  /** The message cannot be dealt with at once and has to be taken up again. */
  predicate Blocks(s: Session, x: Incoming) {
    match x
    case DataIn(d, send) => Ignored(s, d) && IgnoreData(s.chans[Load32(d, 1)], d, send).rc == ERROR_EAGAIN
    case ResumeIn(d, send) =>
      Resumable(s, d) && AdjustCall(s.chans[Load32(d, 1)], Wrap32(|d| - 13), true, send).rc == ERROR_EAGAIN
    case _ => false
  }

  /** The session after draining the socket, and whether that stopped at a message that blocks. */
  datatype Emptied = Emptied(s: Session, blocked: bool)

  function ArriveEach(s: Session, xs: seq<Incoming>): Emptied
    requires AllValid(s.packets)
    decreases |xs|
  {
    if xs == [] then Emptied(s, false) else
      ArriveValid(s, xs[0]);
      var s' := Apply(s, EventOf(xs[0]));
      if Blocks(s, xs[0]) then Emptied(s', true) else ArriveEach(s', xs[1..])
  }

  // ----- What draining and reading come to -----

  function Events(xs: seq<Incoming>): seq<Event> { if xs == [] then [] else [EventOf(xs[0])] + Events(xs[1..]) }

  lemma {:induction false} EventsAt(xs: seq<Incoming>)
    ensures |Events(xs)| == |xs| && forall i :: 0 <= i < |xs| ==> Events(xs)[i] == EventOf(xs[i])
  {
    hide EventOf;
    if xs == [] {
    } else {
      EventsAt(xs[1..]);
    }
  }

  lemma EventsUnblocked(xs: seq<Incoming>)
    ensures AllUnblocked(Events(xs))
  {
    hide Events;
    EventsAt(xs);
  }

  lemma EventsCons(xs: seq<Incoming>, n: nat)
    requires 0 < n <= |xs|
    ensures Events(xs[..n]) == [EventOf(xs[0])] + Events(xs[1..][..n - 1])
  {
    hide EventOf;
    assert xs[..n][1..] == xs[1..][..n - 1];
  }

  /** The state that the first `n` messages lead to. */
  ghost function AfterFirst(s: Session, xs: seq<Incoming>, n: nat): Session
    requires Inv(s) && n <= |xs|
  {
    EventsUnblocked(xs[..n]);
    Run(s, Events(xs[..n]))
  }

  lemma AfterNext(s: Session, xs: seq<Incoming>, n: nat)
    requires Inv(s) && 0 < n <= |xs|
    ensures Inv(Apply(s, EventOf(xs[0]))) && AfterFirst(s, xs, n) == AfterFirst(Apply(s, EventOf(xs[0])), xs[1..], n - 1)
  {
    hide Apply, EventOf, Inv, Unblocked;
    var e, es := EventOf(xs[0]), Events(xs[1..][..n - 1]);
    EventsUnblocked(xs[..n]);
    EventsUnblocked(xs[1..][..n - 1]);
    EventsCons(xs, n);
    assert ([e] + es)[0] == e && ([e] + es)[1..] == es;
    InvValid(s);
    StepKeepsInv(s, e);
  }

  lemma AfterNone(s: Session, xs: seq<Incoming>)
    requires Inv(s)
    ensures AfterFirst(s, xs, 0) == s
  {}

  /** Message `n - 1` is the first that blocks, or none of the `n` does. */
  ghost predicate StopsAfter(s: Session, xs: seq<Incoming>, n: nat, blocked: bool)
    requires Inv(s) && n <= |xs|
  {
    && (forall i: nat :: i < n && !(blocked && i == n - 1) ==> !Blocks(AfterFirst(s, xs, i), xs[i]))
    && (blocked ==> n > 0 && Blocks(AfterFirst(s, xs, n - 1), xs[n - 1]))
    && (!blocked ==> n == |xs|)
  }

  /**
   * Draining the socket is a run of one event for each message: all of them, unless one
   * blocks, and then up to and including the first that does.
   */
  lemma {:induction false} DrainIsRun(s: Session, xs: seq<Incoming>) returns (n: nat)
    requires Inv(s)
    ensures AllValid(s.packets) && n <= |xs|
    ensures ArriveEach(s, xs).s == AfterFirst(s, xs, n) && StopsAfter(s, xs, n, ArriveEach(s, xs).blocked)
    decreases |xs|
  {
    hide Apply, EventOf, Inv, Blocks, AfterFirst;
    InvValid(s);
    AfterNone(s, xs);
    if xs == [] {
      n := 0;
    } else {
      AfterNext(s, xs, 1);
      var s', t := Apply(s, EventOf(xs[0])), xs[1..];
      AfterNone(s', t);
      InvValid(s');
      if Blocks(s, xs[0]) {
        n := 1;
      } else {
        var k := DrainIsRun(s', t);
        n := k + 1;
        AfterNext(s, xs, n);
        forall i: nat | 0 < i < n
          ensures AfterFirst(s, xs, i) == AfterFirst(s', t, i - 1) && xs[i] == t[i - 1]
        {
          AfterNext(s, xs, i);
        }
      }
    }
  }

  /** The message's adjustment, if it causes one, goes out at once. */
  predicate Prompt(x: Incoming) { x.DataIn? || x.ResumeIn? ==> x.send == Sent }

  ghost predicate AllPrompt(xs: seq<Incoming>) { forall i :: 0 <= i < |xs| ==> Prompt(xs[i]) }

  lemma PromptDoesNotBlock(s: Session, x: Incoming)
    requires Prompt(x)
    ensures !Blocks(s, x)
  {
    hide AdjustCall, Load32, Wrap32;
    if x.DataIn? && Ignored(s, x.payload) {
      var c, d := s.chans[Load32(x.payload, 1)], x.payload;
      var len := if c.readAvail + |d| - 13 >= c.window then Wrap32(c.window - c.readAvail) else |d| - 13;
      AdjustNotAgain(c.(window := Wrap32(c.window - len)), Wrap32(len), true, Sent);
    } else if x.ResumeIn? && Resumable(s, x.payload) {
      AdjustNotAgain(s.chans[Load32(x.payload, 1)], Wrap32(|x.payload| - 13), true, Sent);
    }
  }

  lemma {:induction false} PromptAll(s: Session, xs: seq<Incoming>)
    requires AllValid(s.packets) && AllPrompt(xs)
    ensures !ArriveEach(s, xs).blocked
    decreases |xs|
  {
    hide Apply, EventOf, Blocks;
    if xs == [] {
    } else {
      assert Prompt(xs[0]);
      PromptDoesNotBlock(s, xs[0]);
      ArriveValid(s, xs[0]);
      PromptAll(Apply(s, EventOf(xs[0])), xs[1..]);
    }
  }

  /** What happens in a call to read before anything is taken. */
  function ReadEvents(id: U32, buflen: nat, incoming: seq<Incoming>): seq<Event> {
    [Expand(id, buflen, Sent)] + Events(incoming)
  }

  /** A read in which adjustments go out at once and the peer keeps to its credit. */
  ghost predicate Smooth(s: Session, id: U32, buflen: nat, send: Send, incoming: seq<Incoming>, credit: nat) {
    && Inv(s) && id in s.chans && Ready(s.chans[id]) && send == Sent && AllPrompt(incoming)
    && s.chans[id].readAvail + credit == s.chans[id].window
    && AllSentFor(ReadEvents(id, buflen, incoming), id)
    && AllObey(s, ReadEvents(id, buflen, incoming), id, credit)
  }

  lemma {:induction false} NothingTaken(s: Session, es: seq<Event>, id: U32, stream: int)
    requires Inv(s) && AllUnblocked(es) && forall i :: 0 <= i < |es| ==> !es[i].Take?
    ensures Delivered(s, es, id, stream) == []
    decreases |es|
  {
    hide Apply, Inv, Unblocked;
    if es == [] {
    } else {
      InvValid(s);
      StepKeepsInv(s, es[0]);
      NothingTaken(Apply(s, es[0]), es[1..], id, stream);
      assert !es[0].Take?;
    }
  }

  /** The state in which a read takes what is queued. */
  lemma ReadReaches(s: Session, id: U32, buflen: nat, incoming: seq<Incoming>)
    requires Inv(s) && id in s.chans && AllPrompt(incoming)
    ensures AllUnblocked(ReadEvents(id, buflen, incoming))
    ensures var s1 := s.(chans := s.chans[id := ExpandCall(s.chans[id], buflen, Sent).c]);
            && AllValid(s1.packets) && !ArriveEach(s1, incoming).blocked
            && ArriveEach(s1, incoming).s == Run(s, ReadEvents(id, buflen, incoming))
  {
    hide ExpandCall, Inv, ArriveEach, Blocks, EventOf, Events;
    var e, s1 := Expand(id, buflen, Sent), s.(chans := s.chans[id := ExpandCall(s.chans[id], buflen, Sent).c]);
    InvValid(s);
    StepKeepsInv(s, e);
    assert Apply(s, e) == s1;
    EventsUnblocked(incoming);
    InvValid(s1);
    PromptAll(s1, incoming);
    var n := DrainIsRun(s1, incoming);
    assert incoming[..|incoming|] == incoming;
    var es := Events(incoming);
    assert ([e] + es)[0] == e && ([e] + es)[1..] == es;
  }

  lemma ReadLeaves(id: U32, buflen: nat, incoming: seq<Incoming>, stream: int, merge: bool)
    ensures var es := ReadEvents(id, buflen, incoming);
            AllLeave(es, id, stream, merge) && forall i :: 0 <= i < |es| ==> !es[i].Take?
  {
    hide Events;
    EventsAt(incoming);
  }

  lemma ExpandCarriesNothing(id: U32, buflen: nat, incoming: seq<Incoming>, ignoring: bool, m: Choice)
    ensures Carried(ReadEvents(id, buflen, incoming), id, ignoring, m) == Carried(Events(incoming), id, ignoring, m)
  {
    hide Events, EventOf;
    var e, es := Expand(id, buflen, Sent), Events(incoming);
    assert ([e] + es)[1..] == es && CarriedBy(e, id, ignoring, m) == [];
    assert [] + Carried(es, id, ignoring, m) == Carried(es, id, ignoring, m);
  }

  /**
   * A whole read: what it returns, then what stays queued for the stream, is what was
   * queued, then what all the messages met while draining carry to it, in order. And it
   * returns as much of that as it has room for.
   */
  lemma ReadDelivers(s: Session, id: U32, stream: int, buflen: nat, incoming: seq<Incoming>, credit: nat)
    requires Smooth(s, id, buflen, Sent, incoming, credit)
    ensures ReadInFull(s, id, stream, buflen, incoming)
  {
    hide ExpandCall, Inv, Ready, ArriveEach, Events, Queued, Wanted, Drain, AllObey, AllSentFor, Carried, Delivered, AllLeave,
      Run, AllUnblocked;
    var es, mode := ReadEvents(id, buflen, incoming), s.chans[id].mode;
    var m := ChoiceOf(s, id, stream);
    InvValid(s);
    ExpandSent(s.chans[id], buflen);
    ReadReaches(s, id, buflen, incoming);
    ReadLeaves(id, buflen, incoming, stream, mode.Merge?);
    NothingLost(s, es, id, stream, credit);
    NothingTaken(s, es, id, stream);
    ExpandCarriesNothing(id, buflen, incoming, mode.Ignore?, m);
    RunFifo(s, es, id, stream);
    var s2 := Run(s, es);
    InvValid(s2);
    assert [] + Queued(m, s2.packets) == Queued(m, s2.packets);
    assert ChoiceOf(s2, id, stream) == m;
    DrainFifo(m, s2.packets, buflen);
    DrainAmount(m, s2.packets, buflen);
  }

  lemma SmoothSent(s: Session, id: U32, buflen: nat, send: Send, incoming: seq<Incoming>, credit: nat)
    requires Smooth(s, id, buflen, send, incoming, credit)
    ensures send == Sent && id in s.chans
  {
    hide AllObey, AllSentFor;
  }

  /** What ReadDelivers says of a read. */
  ghost predicate ReadInFull(s: Session, id: U32, stream: int, buflen: nat, incoming: seq<Incoming>)
    requires id in s.chans
  {
    var s1 := s.(chans := s.chans[id := ExpandCall(s.chans[id], buflen, Sent).c]);
    && AllValid(s.packets) && AllValid(s1.packets) && ExpandCall(s.chans[id], buflen, Sent).rc == 0
    && var s2, m := ArriveEach(s1, incoming).s, ChoiceOf(s, id, stream);
    && !ArriveEach(s1, incoming).blocked && id in s2.chans && AllValid(s2.packets)
    && var all := Queued(m, s.packets) + Carried(Events(incoming), id, s.chans[id].mode.Ignore?, m);
    && all == Queued(m, s2.packets)
    && AllValid(TakeCall(s2, id, stream, buflen).packets)
    && all == Taken(s2, id, stream, buflen) + Queued(m, TakeCall(s2, id, stream, buflen).packets)
    && |Taken(s2, id, stream, buflen)| == if buflen < |all| then buflen else |all|
  }

  lemma ExpandSent(c: Chan, buflen: nat)
    ensures ExpandCall(c, buflen, Sent).rc == 0
  {
    hide AdjustCall, Wrap32;
    var lack := Wrap32(c.initial + buflen - c.window);
    AdjustNotAgain(c.(readPending := true), if lack < MINADJUST then MINADJUST else lack, false, Sent);
  }

  class Connection {
    var packets: seq<Packet>
    var chans: map<U32, Chan>

    constructor ()
      ensures View() == Session([], map[]) && Inv(View())
    {
      packets, chans := [], map[];
    }

    ghost function View(): Session
      reads this
    {
      Session(packets, chans)
    }

    /** `_libssh2_channel_receive_window_adjust`. */
    static method Adjust(c: Chan, amount: U32, force: bool, send: Send) returns (c': Chan, rc: int, told: seq<U32>)
      ensures Adjusted(c', rc, told) == AdjustCall(c, amount, force, send)
    {
      hide Wrap32;
      var adjustment := amount;
      c', told := c, [];
      if !c'.adjustPending {
        if !force && Wrap32(adjustment + c'.adjustQueue) < MINADJUST {
          c' := c'.(adjustQueue := Wrap32(c'.adjustQueue + adjustment));
          return c', 0, told;
        }
        if adjustment == 0 && c'.adjustQueue == 0 {
          return c', 0, told;
        }
        adjustment := Wrap32(adjustment + c'.adjustQueue);
        c' := c'.(adjustQueue := 0);
        c' := c'.(adjustPacket := adjustment, adjustPending := true);
      }
      if send == Again {
        return c', ERROR_EAGAIN, told;
      } else if send.Failed? {
        c' := c'.(adjustQueue := adjustment);
        return c', ERROR_SOCKET_SEND, told;
      }
      told := [c'.adjustPacket];
      c' := c'.(window := Wrap32(c'.window + adjustment), adjustPending := false);
      rc := 0;
    }

    /** `_libssh2_packet_add` of a data message; EAGAIN where an ignored one has to be taken up again. */
    method PacketAdd(d: Octets, send: Send) returns (rc: int)
      modifies this
      ensures View() == ArriveCall(old(View()), d, send)
      ensures rc == if Ignored(old(View()), d) && IgnoreData(old(chans[Load32(d, 1)]), d, send).rc == ERROR_EAGAIN
                    then ERROR_EAGAIN else 0
    {
      hide Load32, Wrap32, AdjustCall, Kept, IgnoreData;
      rc := 0;
      if !IsData(d) || |d| < HeadOf(d) || Load32(d, 1) !in chans {
        return;
      }
      var id, head := Load32(d, 1), HeadOf(d);
      var c := chans[id];
      if c.mode == Ignore && d[0] == MSG_EXTENDED_DATA {
        rc := IgnorePacket(id, d, send);
        return;
      }
      QueuePacket(id, d, head);
    }

    /** A data message that is not ignored: cut to what there is room for, and queued. */
    method QueuePacket(id: U32, d: Octets, head: nat)
      requires id in chans && head <= |d|
      modifies this
      ensures var c := old(chans[id]);
              if c.window <= c.readAvail then View() == old(View())
              else
                var n := Kept(c, |d| - head);
                && head + n <= |d|
                && View() == Session(old(packets) + [Packet(d[..head + n], head)],
                                     old(chans)[id := c.(eof := false, readAvail := Wrap32(c.readAvail + n))])
    {
      hide Wrap32;
      var c, datalen := chans[id], |d|;
      if c.packetSize < datalen - head {
        datalen := c.packetSize + head;
      }
      if c.window <= c.readAvail {
        return;
      }
      c := c.(eof := false);
      if c.readAvail + datalen - head > c.window {
        datalen := Wrap32(c.window - c.readAvail) + head;
      }
      RoomLeft(c);
      assert datalen - head == Kept(c, |d| - head);
      chans := chans[id := c.(readAvail := Wrap32(c.readAvail + (datalen - head)))];
      packets := packets + [Packet(d[..datalen], head)];
    }

    /** Extended data for a channel that ignores it. */
    method IgnorePacket(id: U32, d: Octets, send: Send) returns (rc: int)
      requires id in chans && |d| >= 13
      modifies this`chans
      ensures var a := IgnoreData(old(chans[id]), d, send);
              chans == old(chans)[id := a.c] && rc == if a.rc == ERROR_EAGAIN then ERROR_EAGAIN else 0
    {
      hide Wrap32, AdjustCall;
      var c, datalen := chans[id], |d|;
      if c.readAvail + datalen - 13 >= c.window {
        datalen := Wrap32(c.window - c.readAvail) + 13;
      }
      c := c.(window := Wrap32(c.window - (datalen - 13)));
      var told;
      c, rc, told := Adjust(c, Wrap32(datalen - 13), true, send);
      chans := chans[id := c];
      if rc != ERROR_EAGAIN {
        rc := 0;
      }
    }

    /** `_libssh2_packet_add` of an ignored message whose adjustment blocked, taken up again. */
    method ResumeIgnored(id: U32, d: Octets, send: Send) returns (rc: int)
      requires id in chans && |d| >= 13
      modifies this`chans
      ensures var a := AdjustCall(old(chans[id]), Wrap32(|d| - 13), true, send);
              chans == old(chans)[id := a.c] && rc == if a.rc == ERROR_EAGAIN then ERROR_EAGAIN else 0
      ensures AllValid(packets) ==>
                View() == Apply(old(View()), ChannelReceive.Event.Adjust(id, Wrap32(|d| - 13), true, send))
    {
      hide Wrap32, AdjustCall;
      var c, told;
      c, rc, told := Adjust(chans[id], Wrap32(|d| - 13), true, send);
      chans := chans[id := c];
      if rc != ERROR_EAGAIN {
        rc := 0;
      }
    }

    /** The first part of `_libssh2_channel_read`. */
    method Widen(id: U32, buflen: nat, send: Send) returns (rc: int)
      requires id in chans
      modifies this`chans
      ensures var a := ExpandCall(old(chans[id]), buflen, send);
              chans == old(chans)[id := a.c] && rc == a.rc
    {
      hide Wrap32, AdjustCall;
      var c := chans[id];
      rc := 0;
      if c.readPending || c.window < c.initial / 4 * 3 + buflen {
        var adjustment := Wrap32(c.initial + buflen - c.window);
        if adjustment < MINADJUST {
          adjustment := MINADJUST;
        }
        c := c.(readPending := true);
        var told;
        c, rc, told := Adjust(c, adjustment, false, send);
        if rc == 0 {
          c := c.(readPending := false);
        }
      }
      chans := chans[id := c];
    }

    /** `_libssh2_channel_read`; `incoming` is what the socket holds and `last` what it says when empty. */
    method Read(id: U32, stream: int, buflen: nat, send: Send, incoming: seq<Incoming>, last: int)
      returns (rc: int, buf: Octets)
      requires id in chans && AllValid(packets) && last <= 0
      modifies this
      ensures var a := ExpandCall(old(chans[id]), buflen, send);
              var s1 := Session(old(packets), old(chans)[id := a.c]);
              if a.rc != 0 then View() == s1 && rc == a.rc && buf == []
              else
                var s2 := ArriveEach(s1, incoming).s;
                var end := if ArriveEach(s1, incoming).blocked then ERROR_EAGAIN else last;
                if end < 0 && end != ERROR_EAGAIN then View() == s2 && rc == end && buf == []
                else
                  && id in s2.chans && AllValid(s2.packets)
                  && View() == TakeCall(s2, id, stream, buflen)
                  && buf == Taken(s2, id, stream, buflen)
                  && rc == if buf != [] then |buf|
                           else if s2.chans[id].eof || s2.chans[id].close || end != ERROR_EAGAIN then 0
                           else ERROR_EAGAIN
      // With adjustments sent at once and a peer within its credit: what is returned, then what stays
      // queued, is what was queued and what all the messages brought, as far as there is room.
      ensures forall credit: nat :: Smooth(old(View()), id, buflen, send, incoming, credit) ==>
                && var m := ChoiceOf(old(View()), id, stream);
                && AllValid(packets)
                && var all := Queued(m, old(packets)) + Carried(Events(incoming), id, old(chans[id].mode.Ignore?), m);
                && all == buf + Queued(m, packets)
                && (last == 0 || last == ERROR_EAGAIN ==> |buf| == if buflen < |all| then buflen else |all|)
    {
      hide ExpandCall, ArriveEach, TakeCall, Taken, Smooth, Queued, Carried, Events, Wanted;
      ghost var s0 := View();
      forall credit: nat | Smooth(s0, id, buflen, send, incoming, credit)
        ensures send == Sent && ReadInFull(s0, id, stream, buflen, incoming)
      {
        SmoothSent(s0, id, buflen, send, incoming, credit);
        ReadDelivers(s0, id, stream, buflen, incoming, credit);
      }
      rc := Widen(id, buflen, send);
      if rc != 0 {
        return rc, [];
      }
      ArriveAllowed(View(), incoming);
      var end := ReadSocket(incoming, last);
      if end < 0 && end != ERROR_EAGAIN {
        return end, [];
      }
      buf := TakePackets(id, stream, buflen);
      var c := chans[id];
      if buf == [] {
        if c.eof || c.close {
          return 0, [];
        } else if end != ERROR_EAGAIN {
          return 0, [];
        }
        return end, [];
      }
      rc := |buf|;
    }

    /** The last part of `_libssh2_channel_read`. */
    method TakePackets(id: U32, stream: int, buflen: nat) returns (buf: Octets)
      requires id in chans && AllValid(packets)
      modifies this
      ensures View() == TakeCall(old(View()), id, stream, buflen) && buf == Taken(old(View()), id, stream, buflen)
      ensures id in chans && chans[id].eof == old(chans[id].eof) && chans[id].close == old(chans[id].close)
    {
      hide Wrap32, Drain;
      NoneTaken(View(), id, stream, buflen);
      buf := Unlink(id, stream, buflen);
      if buf != [] {
        var c := chans[id];
        chans := chans[id := c.(readAvail := Wrap32(c.readAvail - |buf|), window := Wrap32(c.window - |buf|))];
      }
    }

    /** Draining the socket: message by message, until one blocks or there is none. */
    method ReadSocket(incoming: seq<Incoming>, last: int) returns (rc: int)
      requires AllValid(packets)
      modifies this
      ensures var d := ArriveEach(old(View()), incoming);
              View() == d.s && rc == if d.blocked then ERROR_EAGAIN else last
    {
      hide Apply, Blocks, EventOf;
      ghost var s0 := View();
      for i := 0 to |incoming|
        invariant AllValid(packets)
        invariant ArriveEach(View(), incoming[i..]) == ArriveEach(s0, incoming)
      {
        assert incoming[i..][0] == incoming[i] && incoming[i..][1..] == incoming[i + 1..];
        ArriveValid(View(), incoming[i]);
        rc := Receive(incoming[i]);
        if rc == ERROR_EAGAIN {
          return;
        }
      }
      rc := last;
    }

    /** `_libssh2_packet_add`, for the messages a channel receives. */
    method Receive(x: Incoming) returns (rc: int)
      requires AllValid(packets)
      modifies this
      ensures View() == Apply(old(View()), EventOf(x))
      ensures rc == if Blocks(old(View()), x) then ERROR_EAGAIN else 0
    {
      hide ArriveCall, AdjustCall, Load32, Wrap32, IgnoreData;
      rc := 0;
      match x
      case DataIn(d, send) =>
        rc := PacketAdd(d, send);
      case ResumeIn(d, send) =>
        NoDataIn(View(), send);
        if |d| >= 13 && Load32(d, 1) in chans {
          rc := ResumeIgnored(Load32(d, 1), d, send);
        }
      case EofIn(id) =>
        if id in chans {
          chans := chans[id := chans[id].(eof := true)];
        }
      case CloseIn(id) =>
        if id in chans {
          chans := chans[id := chans[id].(eof := true, close := true)];
        }
      case OtherIn(payload) =>
        if !IsData(payload) {
          packets := packets + [Packet(payload, 0)];
        }
    }

    /** The loop of `_libssh2_channel_read` over the packet list. */
    method Unlink(id: U32, stream: int, buflen: nat) returns (buf: Octets)
      requires id in chans && AllValid(packets)
      modifies this`packets
      ensures Drained(buf, packets) == Drain(ChoiceOf(old(View()), id, stream), old(packets), buflen)
    {
      hide Wanted, Load32, Drain, Reading, AllValid;
      ghost var r, all := ChoiceOf(View(), id, stream), Drain(ChoiceOf(View(), id, stream), packets, buflen);
      ghost var front, rest := [], packets;
      var merge := chans[id].mode == Merge;
      buf := [];
      var i := 0;
      ReadingStarts(r, packets, buflen);
      while i < |packets| && |buf| < buflen
        invariant i == |front| && packets == front + rest && |buf| <= buflen && AllValid(rest)
        invariant Reading(r, all, front, rest, buf, buflen)
        decreases |rest|
      {
        var p := packets[i];
        var want := buflen - |buf|;
        assert p == rest[0];
        TailValid(rest);
        TakenOff(front, rest);
        ReadingStep(r, all, front, rest, buf, buflen);
        if |p.data| < 5 || !Wanted(id, stream, merge, p.data) {
          if |p.data| < 5 { ShortUnwanted(id, stream, merge, p.data); }
          front, rest := front + [p], rest[1..];
          i := i + 1;
        } else {
          var unlink := want >= |p.data| - p.head;
          if unlink {
            want := |p.data| - p.head;
          }
          buf := buf + p.data[p.head..p.head + want];
          if unlink {
            packets := packets[..i] + packets[i + 1..];
            rest := rest[1..];
          } else {
            packets := packets[i := p.(head := p.head + want)];
            front, rest := front + [p.(head := p.head + want)], rest[1..];
            i := i + 1;
          }
        }
      }
      ReadingEnds(r, all, front, rest, buf, buflen);
    }

    /** `libssh2_channel_window_read_ex`: the bytes queued, by scanning. */
    method WindowRead(id: U32) returns (queued: nat)
      requires AllValid(packets)
      ensures queued == Scanned(View(), id)
    {
      hide Load32;
      queued := 0;
      for i := 0 to |packets|
        invariant queued + |Queued(Of(id), packets[i..])| == |Queued(Of(id), packets)|
      {
        assert packets[i..][0] == packets[i] && packets[i..][1..] == packets[i + 1..];
        if OfChannel(id, packets[i].data) {
          queued := queued + (|packets[i].data| - packets[i].head);
        }
      }
    }

    /** `libssh2_channel_eof`. */
    method Eof(id: U32) returns (eof: bool)
      requires id in chans
      ensures eof <==> AtEof(View(), id)
    {
      for i := 0 to |packets|
        invariant forall j :: 0 <= j < i ==> !OfChannel(id, packets[j].data)
      {
        if OfChannel(id, packets[i].data) {
          return false;
        }
      }
      eof := chans[id].eof;
    }

    /** `_libssh2_channel_flush`; on data too short to name its stream it gives up with what came before gone. */
    method Flush(id: U32, stream: int, send: Send) returns (rc: int, told: seq<U32>)
      requires id in chans && AllValid(packets)
      modifies this
      ensures id in chans
      ensures var f := FlushCall(old(View()), id, stream, send);
              if old(chans[id].flushPending || Clean(id, packets)) then View() == f.s && rc == f.rc && told == f.told
              else rc == -14 && told == [] && exists k :: GivenUp(old(View()), View(), id, stream, k)
    {
      hide FlushSettle, Clean, Others, Queued, Refund, Stuck;
      var c := chans[id];
      if !c.flushPending {
        var ok, refund, bytes;
        ghost var k;
        ok, refund, bytes, k := FlushLoop(id, stream);
        c := c.(flushRefund := refund % TWO64, flushBytes := bytes);
        if !ok {
          chans := chans[id := c];
          assert GivenUp(old(View()), View(), id, stream, k);
          return ERROR_PROTO, [];
        }
        c := c.(flushPending := true);
      }
      ghost var s1 := FlushScan(old(View()), id, stream);
      assert c == s1.chans[id] && packets == s1.packets;
      c, rc, told := Settle(c, send);
      chans := chans[id := c];
      assert chans == s1.chans[id := c];
    }

    /** The part of `_libssh2_channel_flush` after its loop. */
    static method Settle(c: Chan, send: Send) returns (c': Chan, rc: int, told: seq<U32>)
      ensures Adjusted(c', rc, told) == FlushSettle(c, send)
    {
      hide AdjustCall, Wrap32;
      c', rc, told := c, 0, [];
      c' := c'.(readAvail := Wrap32(c'.readAvail - c'.flushBytes));
      c' := c'.(window := Wrap32(c'.window - c'.flushBytes));
      if c'.flushRefund != 0 {
        AdjustFrame(c', Wrap32(c'.flushRefund), true, send);
        c', rc, told := Adjust(c', Wrap32(c'.flushRefund), true, send);
        if rc == ERROR_EAGAIN {
          return;
        }
      }
      c' := c'.(flushPending := false);
      rc := c'.flushBytes;
    }

    /** The loop of `_libssh2_channel_flush` over the packet list; not `ok` when it meets data too short, at `k`. */
    method FlushLoop(id: U32, stream: int) returns (ok: bool, refund: int, bytes: nat, ghost k: nat)
      requires AllValid(packets)
      modifies this`packets
      ensures ok <==> old(Clean(id, packets))
      ensures ok ==> var r := FlushedBy(id, stream);
                     && packets == Others(r, old(packets)) && refund == Refund(r, old(packets))
                     && bytes == |Queued(r, old(packets))|
      ensures !ok ==> && Stuck(id, old(packets), k)
                      && var r, ps := FlushedBy(id, stream), old(packets);
                      && packets == Others(r, ps[..k]) + ps[k..] && refund == Refund(r, ps[..k])
                      && bytes == |Queued(r, ps[..k])|
    {
      hide Load32, OfChannel, Flushable, TooShort, Others, Refund, Queued, Clean, AllValid, Stuck;
      ghost var r, ps := FlushedBy(id, stream), packets;
      refund, bytes := 0, 0;
      assert ps[0..] == ps && packets[..0] == [] && ps[..0] == [];
      FlushEnds(r);
      CleanStart(id, ps);
      var i := 0;
      k := 0;
      while i < |packets|
        invariant 0 <= i <= |packets| && 0 <= k <= |ps| && packets[i..] == ps[k..]
        invariant AllValid(ps[..k]) && Clean(id, ps[..k])
        invariant packets[..i] == Others(r, ps[..k]) && refund == Refund(r, ps[..k])
        invariant bytes == |Queued(r, ps[..k])|
        decreases |packets| - i
      {
        var p := packets[i];
        ghost var front, tail := packets[..i], packets[i + 1..];
        assert p == packets[i..][0] == ps[k..][0] == ps[k];
        assert tail == packets[i..][1..] == ps[k..][1..] == ps[k + 1..];
        CleanStep(id, ps, k);
        if TooShort(id, p.data) {
          assert packets == packets[..i] + packets[i..];
          return false, refund, bytes, k;
        }
        FlushStep(r, ps[..k], p);
        assert ps[..k] + [p] == ps[..k + 1];
        if Flushable(id, stream, p.data) {
          refund := refund + (|p.data| - 13);
          bytes := bytes + (|p.data| - p.head);
          packets := packets[..i] + packets[i + 1..];
          assert packets[i..] == tail && packets[..i] == front;
        } else {
          assert packets[..i + 1] == front + [p];
          i := i + 1;
        }
        k := k + 1;
      }
      assert ps[..k] == ps && packets[..i] == packets;
      ok := true;
    }
  }

  lemma CleanStart(id: U32, ps: seq<Packet>)
    ensures AllValid(ps[..0]) && Clean(id, ps[..0])
  {}

  /** One more packet of a queue looked at. */
  lemma CleanStep(id: U32, ps: seq<Packet>, k: nat)
    requires k < |ps| && AllValid(ps) && Clean(id, ps[..k])
    ensures ps[k].Valid() && AllValid(ps[..k])
    ensures if TooShort(id, ps[k].data) then Stuck(id, ps, k) && !Clean(id, ps)
            else AllValid(ps[..k + 1]) && Clean(id, ps[..k + 1])
  {
    hide TooShort;
    assert forall j :: 0 <= j < k ==> ps[..k + 1][j] == ps[..k][j];
  }

  /** Where a flush gives up: the first data too short to name its stream. */
  ghost predicate Stuck(id: U32, ps: seq<Packet>, k: nat) {
    k < |ps| && TooShort(id, ps[k].data) && Clean(id, ps[..k])
  }

  /** What giving up at packet `k` leaves. */
  ghost predicate GivenUp(s: Session, s': Session, id: U32, stream: int, k: nat)
    requires id in s.chans && AllValid(s.packets)
  {
    var r := FlushedBy(id, stream);
    && Stuck(id, s.packets, k)
    && s'.packets == Others(r, s.packets[..k]) + s.packets[k..]
    && s'.chans == s.chans[id := s.chans[id].(flushRefund := Refund(r, s.packets[..k]) % TWO64,
                                              flushBytes := |Queued(r, s.packets[..k])|)]
  }

  /** A read in progress: `front` is done with and `rest` is to come. */
  ghost predicate Reading(r: Choice, all: Drained, front: seq<Packet>, rest: seq<Packet>, buf: Octets, buflen: nat)
    requires AllValid(rest) && |buf| <= buflen
  {
    var d := Drain(r, rest, buflen - |buf|);
    all.out == buf + d.out && all.rest == front + d.rest
  }

  lemma TailValid(ps: seq<Packet>)
    requires AllValid(ps) && ps != []
    ensures ps[0].Valid() && AllValid(ps[1..])
  {}

  /** The list without, or with another, packet where the front ends. */
  lemma TakenOff(front: seq<Packet>, rest: seq<Packet>)
    requires rest != []
    ensures var ps, i := front + rest, |front|;
            && ps[..i] + ps[i + 1..] == front + rest[1..]
            && ps == (front + [rest[0]]) + rest[1..]
            && forall p: Packet :: ps[i := p] == (front + [p]) + rest[1..]
  {}

  lemma ReadingStarts(r: Choice, ps: seq<Packet>, buflen: nat)
    requires AllValid(ps)
    ensures Reading(r, Drain(r, ps, buflen), [], ps, [], buflen)
  {
    hide Drain;
  }

  lemma ReadingStep(r: Choice, all: Drained, front: seq<Packet>, rest: seq<Packet>, buf: Octets, buflen: nat)
    requires AllValid(rest) && |buf| < buflen && rest != [] && Reading(r, all, front, rest, buf, buflen)
    ensures var p, want := rest[0], buflen - |buf|;
            if !r(p.data) then Reading(r, all, front + [p], rest[1..], buf, buflen)
            else if want >= |p.data| - p.head then
              Reading(r, all, front, rest[1..], buf + p.data[p.head..p.head + (|p.data| - p.head)], buflen)
            else Reading(r, all, front + [p.(head := p.head + want)], rest[1..], buf + p.data[p.head..p.head + want], buflen)
  {
    hide Drain;
    var p, want := rest[0], buflen - |buf|;
    DrainStep(r, rest, want);
    if r(p.data) && want >= |p.data| - p.head {
      assert p.data[p.head..p.head + (|p.data| - p.head)] == p.Unread();
    } else if r(p.data) {
      assert p.data[p.head..p.head + want] == p.Unread()[..want];
      DrainEnds(r, rest[1..], 0);
    }
  }

  lemma ReadingEnds(r: Choice, all: Drained, front: seq<Packet>, rest: seq<Packet>, buf: Octets, buflen: nat)
    requires AllValid(rest) && |buf| <= buflen && Reading(r, all, front, rest, buf, buflen)
    requires rest == [] || |buf| == buflen
    ensures all == Drained(buf, front + rest)
  {
    hide Drain;
    DrainEnds(r, rest, buflen - |buf|);
  }

  lemma {:induction false} FlushStep(r: Choice, ps: seq<Packet>, p: Packet)
    requires AllValid(ps) && p.Valid()
    ensures AllValid(ps + [p])
    ensures if r(p.data) then
              && Others(r, ps + [p]) == Others(r, ps) && Refund(r, ps + [p]) == Refund(r, ps) + (|p.data| - 13)
              && |Queued(r, ps + [p])| == |Queued(r, ps)| + (|p.data| - p.head)
            else
              && Others(r, ps + [p]) == Others(r, ps) + [p] && Refund(r, ps + [p]) == Refund(r, ps)
              && Queued(r, ps + [p]) == Queued(r, ps)
  {
    hide Queued;
    QueuedAppend(r, ps, p);
    if ps == [] {
      assert [] + [p] == [p] && [p][1..] == [];
    } else {
      FlushStep(r, ps[1..], p);
      assert (ps + [p])[1..] == ps[1..] + [p];
    }
  }

  lemma FlushEnds(r: Choice)
    ensures Others(r, []) == [] && Refund(r, []) == 0 && Queued(r, []) == []
  {}

  lemma DrainStep(r: Choice, ps: seq<Packet>, want: nat)
    requires AllValid(ps) && ps != [] && want > 0
    ensures var p, d := ps[0], Drain(r, ps, want);
            if !r(p.data) then
              var d' := Drain(r, ps[1..], want);
              d.out == d'.out && d.rest == [p] + d'.rest
            else if want >= |p.Unread()| then
              var d' := Drain(r, ps[1..], want - |p.Unread()|);
              d.out == p.Unread() + d'.out && d.rest == d'.rest
            else d.out == p.Unread()[..want] && d.rest == [p.(head := p.head + want)] + ps[1..]
  {}

  lemma DrainEnds(r: Choice, ps: seq<Packet>, want: nat)
    requires AllValid(ps) && (ps == [] || want == 0)
    ensures Drain(r, ps, want) == Drained([], ps)
  {}

  lemma ShortUnwanted(id: U32, stream: int, merge: bool, d: Octets)
    requires |d| < 5
    ensures !Wanted(id, stream, merge, d)
  {}

  lemma NoDataIn(s: Session, send: Send)
    ensures ArriveCall(s, [], send) == s
  {}

  /** Arrivals keep the channels there are and the packets well formed. */
  lemma {:induction false} ArriveAllowed(s: Session, xs: seq<Incoming>)
    requires AllValid(s.packets)
    ensures AllValid(ArriveEach(s, xs).s.packets) && ArriveEach(s, xs).s.chans.Keys == s.chans.Keys
    decreases |xs|
  {
    hide Apply, Blocks, EventOf;
    if xs == [] {
    } else {
      ArriveValid(s, xs[0]);
      ArriveAllowed(Apply(s, EventOf(xs[0])), xs[1..]);
    }
  }

  lemma RoomLeft(c: Chan)
    ensures c.readAvail <= c.window ==> Wrap32(c.window - c.readAvail) == c.window - c.readAvail
  {}

  lemma ArriveValid(s: Session, x: Incoming)
    requires AllValid(s.packets)
    ensures var s' := Apply(s, EventOf(x));
            AllValid(s'.packets) && s'.chans.Keys == s.chans.Keys
  {
    hide ArriveCall, AdjustCall, Load32, Wrap32;
    if x.DataIn? {
      DataValid(s, x.payload, x.send);
    } else if x.ResumeIn? {
      NoDataIn(s, x.send);
    }
  }

  lemma DataValid(s: Session, d: Octets, send: Send)
    requires AllValid(s.packets)
    ensures AllValid(ArriveCall(s, d, send).packets) && ArriveCall(s, d, send).chans.Keys == s.chans.Keys
  {
    hide Load32, IgnoreData, Wrap32;
    if Accepted(s, d) {
      RoomLeft(s.chans[Load32(d, 1)]);
    }
  }

  lemma NoneTaken(s: Session, id: U32, stream: int, want: nat)
    requires id in s.chans && AllValid(s.packets)
    ensures Taken(s, id, stream, want) == [] ==>
              TakeCall(s, id, stream, want) == s.(packets := Drain(ChoiceOf(s, id, stream), s.packets, want).rest)
  {
    hide Drain;
    var c := s.chans[id];
    WrapSmall(c.readAvail);
    WrapSmall(c.window);
    if Taken(s, id, stream, want) == [] {
      assert s.chans[id := c] == s.chans;
    }
  }
}
