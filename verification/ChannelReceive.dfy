/**
 * The receiving half of the channels of libssh2/src/channel.c, with the arrival of
 * data in libssh2/src/packet.c: one session, many channels, one packet list.
 */
module ChannelReceive {
  import opened Octets
  import opened ChannelBasics
  import opened ChannelQueue

  const ERROR_PROTO := -14
  const MINADJUST := 1024

  /** How extended data is treated: kept apart, thrown away, or merged into the standard stream. */
  datatype Mode = Normal | Ignore | Merge

  /** The receiving state of a channel; `remote` in the source, as the peer is the source of the data. */
  datatype Chan = Chan(
    initial: U32, window: U32, packetSize: U32, mode: Mode, eof: bool, close: bool,
    readAvail: U32, readPending: bool,
    adjustQueue: U32, adjustPending: bool, adjustPacket: U32,
    flushPending: bool, flushRefund: nat, flushBytes: nat)

  /** The packets and channels of a session. */
  datatype Session = Session(packets: seq<Packet>, chans: map<U32, Chan>)

  // ----- Adjusting the receive window -----

  /** The channel after a call, the code returned, and the credit announced to the peer, if any. */
  datatype Adjusted = Adjusted(c: Chan, rc: int, told: seq<U32>)

  /** `_libssh2_channel_receive_window_adjust`. */
  function AdjustCall(c: Chan, adjustment: U32, force: bool, send: Send): Adjusted {
    if !c.adjustPending && !force && Wrap32(adjustment + c.adjustQueue) < MINADJUST then
      Adjusted(c.(adjustQueue := Wrap32(c.adjustQueue + adjustment)), 0, [])
    else if !c.adjustPending && adjustment == 0 && c.adjustQueue == 0 then
      Adjusted(c, 0, [])
    else
      // A pending adjustment is sent as it was encoded, but accounted for by the argument.
      var amount := if c.adjustPending then adjustment else Wrap32(adjustment + c.adjustQueue);
      var c' := if c.adjustPending then c else c.(adjustQueue := 0, adjustPending := true, adjustPacket := amount);
      match send
      case Again => Adjusted(c', ERROR_EAGAIN, [])
      case Failed(_) => Adjusted(c'.(adjustQueue := amount), ERROR_SOCKET_SEND, [])
      case Sent => Adjusted(c'.(window := Wrap32(c'.window + amount), adjustPending := false), 0, [c'.adjustPacket])
  }

  /** The window below which a read of `buflen` bytes asks for more. */
  function Threshold(c: Chan, buflen: nat): nat { c.initial / 4 * 3 + buflen }

  /** The first part of `_libssh2_channel_read`: widen the window when it has become too narrow. */
  function ExpandCall(c: Chan, buflen: nat, send: Send): Adjusted {
    if c.readPending || c.window < Threshold(c, buflen) then
      var lack := Wrap32(c.initial + buflen - c.window);
      var a := AdjustCall(c.(readPending := true), if lack < MINADJUST then MINADJUST else lack, false, send);
      if a.rc != 0 then a else a.(c := a.c.(readPending := false))
    else Adjusted(c, 0, [])
  }

  // ----- Arrivals -----

  /** Where the bytes of a data message start. */
  function HeadOf(d: Octets): nat
    requires d != []
  {
    if d[0] == MSG_EXTENDED_DATA then 13 else 9
  }

  predicate IsData(d: Octets) { d != [] && (d[0] == MSG_DATA || d[0] == MSG_EXTENDED_DATA) }

  /** A data message that is long enough and names a channel of the session. */
  predicate Accepted(s: Session, d: Octets) { IsData(d) && HeadOf(d) <= |d| && Load32(d, 1) in s.chans }

  /** Extended data for a channel that ignores it. */
  predicate Ignored(s: Session, d: Octets) {
    Accepted(s, d) && s.chans[Load32(d, 1)].mode.Ignore? && d[0] == MSG_EXTENDED_DATA
  }

  /** What ignoring it does: off the window, and straight back on. */
  function IgnoreData(c: Chan, d: Octets, send: Send): Adjusted
    requires |d| >= 13
  {
    var len := if c.readAvail + |d| - 13 >= c.window then Wrap32(c.window - c.readAvail) else |d| - 13;
    AdjustCall(c.(window := Wrap32(c.window - len)), Wrap32(len), true, send)
  }

  /** How many bytes of a data message are kept: no more than the packet size, nor than the window has room for. */
  function Kept(c: Chan, n: nat): nat {
    var n' := if c.packetSize < n then c.packetSize else n;
    if c.readAvail + n' > c.window then Wrap32(c.window - c.readAvail) else n'
  }

  /** `_libssh2_packet_add` of a data message. */
  function ArriveCall(s: Session, d: Octets, send: Send): Session {
    if !Accepted(s, d) then s else
    var id := Load32(d, 1);
    var c := s.chans[id];
    if Ignored(s, d) then s.(chans := s.chans[id := IgnoreData(c, d, send).c])
    else if c.window <= c.readAvail then s
    else
      var n := Kept(c, |d| - HeadOf(d));
      Session(s.packets + [Packet(d[..HeadOf(d) + n], HeadOf(d))],
              s.chans[id := c.(eof := false, readAvail := Wrap32(c.readAvail + n))])
  }

  // ----- Reading and flushing -----

  function ChoiceOf(s: Session, id: U32, stream: int): Choice
    requires id in s.chans
  {
    WantedBy(id, stream, s.chans[id].mode.Merge?)
  }

  /** The last part of `_libssh2_channel_read`: take what is queued. */
  function TakeCall(s: Session, id: U32, stream: int, want: nat): Session
    requires id in s.chans && AllValid(s.packets)
  {
    var d := Drain(ChoiceOf(s, id, stream), s.packets, want);
    var c := s.chans[id];
    Session(d.rest, s.chans[id := c.(readAvail := Wrap32(c.readAvail - |d.out|), window := Wrap32(c.window - |d.out|))])
  }

  function Taken(s: Session, id: U32, stream: int, want: nat): Octets
    requires id in s.chans && AllValid(s.packets)
  {
    Drain(ChoiceOf(s, id, stream), s.packets, want).out
  }

  /** What a flush gives back to the window, packet by packet: the packet less thirteen bytes. */
  function Refund(r: Choice, ps: seq<Packet>): int {
    if ps == [] then 0 else (if r(ps[0].data) then |ps[0].data| - 13 else 0) + Refund(r, ps[1..])
  }

  /** Extended data too short to name its stream, at which a flush gives up. */
  predicate TooShort(id: U32, d: Octets) { OfChannel(id, d) && d[0] == MSG_EXTENDED_DATA && |d| < 9 }

  ghost predicate Clean(id: U32, ps: seq<Packet>) { forall i :: 0 <= i < |ps| ==> !TooShort(id, ps[i].data) }

  const TWO64 := 0x1_0000_0000_0000_0000

  datatype Flushed = Flushed(s: Session, rc: int, told: seq<U32>)

  /** The scan of a flush that is not being retried. */
  function FlushScan(s: Session, id: U32, stream: int): Session
    requires id in s.chans && AllValid(s.packets)
  {
    var r := FlushedBy(id, stream);
    var c := s.chans[id];
    if c.flushPending then s else
    Session(Others(r, s.packets),
            s.chans[id := c.(flushPending := true, flushRefund := Refund(r, s.packets) % TWO64,
                             flushBytes := |Queued(r, s.packets)|)])
  }

  /** The rest of a flush, once the scan has been made. */
  function FlushSettle(c: Chan, send: Send): Adjusted {
    // These deductions are made again by every retry.
    var c' := c.(readAvail := Wrap32(c.readAvail - c.flushBytes), window := Wrap32(c.window - c.flushBytes));
    var a := if c'.flushRefund != 0 then AdjustCall(c', Wrap32(c'.flushRefund), true, send) else Adjusted(c', 0, []);
    if a.rc == ERROR_EAGAIN then a else Adjusted(a.c.(flushPending := false), c.flushBytes, a.told)
  }

  /** `_libssh2_channel_flush`, on a queue free of data too short to name its stream. */
  function FlushCall(s: Session, id: U32, stream: int, send: Send): Flushed
    requires id in s.chans && AllValid(s.packets)
  {
    var s' := FlushScan(s, id, stream);
    var a := FlushSettle(s'.chans[id], send);
    Flushed(s'.(chans := s'.chans[id := a.c]), a.rc, a.told)
  }

  /** `libssh2_channel_eof`. */
  predicate AtEof(s: Session, id: U32)
    requires id in s.chans
  {
    s.chans[id].eof && forall i :: 0 <= i < |s.packets| ==> !OfChannel(id, s.packets[i].data)
  }

  // ----- Runs -----

  datatype Event =
    | Data(payload: Octets, send: Send)
    | PeerEof(id: U32)
    | PeerClose(id: U32)
    | Reply(payload: Octets)
    | Expand(id: U32, buflen: nat, send: Send)
    | Take(id: U32, stream: int, buflen: nat)
    | Flush(id: U32, stream: int, send: Send)
    | Adjust(id: U32, amount: U32, force: bool, send: Send)
    | Open(id: U32, window: U32, packetSize: U32, mode: Mode)
    | Free(id: U32)

  function NewChan(window: U32, packetSize: U32, mode: Mode): Chan {
    Chan(window, window, packetSize, mode, false, false, 0, false, 0, false, 0, false, 0, 0)
  }

  function Apply(s: Session, e: Event): Session
    requires AllValid(s.packets)
  {
    match e
    case Data(payload, send) => ArriveCall(s, payload, send)
    case PeerEof(id) => if id !in s.chans then s else s.(chans := s.chans[id := s.chans[id].(eof := true)])
    case PeerClose(id) =>
      if id !in s.chans then s else s.(chans := s.chans[id := s.chans[id].(eof := true, close := true)])
    case Reply(payload) => if IsData(payload) then s else s.(packets := s.packets + [Packet(payload, 0)])
    case Expand(id, buflen, send) =>
      if id !in s.chans then s else s.(chans := s.chans[id := ExpandCall(s.chans[id], buflen, send).c])
    case Take(id, stream, buflen) => if id !in s.chans then s else TakeCall(s, id, stream, buflen)
    case Flush(id, stream, send) => if id !in s.chans then s else FlushCall(s, id, stream, send).s
    case Adjust(id, amount, force, send) =>
      if id !in s.chans then s else s.(chans := s.chans[id := AdjustCall(s.chans[id], amount, force, send).c])
    case Open(id, window, packetSize, mode) =>
      if id in s.chans then s else s.(chans := s.chans[id := NewChan(window, packetSize, mode)])
    case Free(id) => Session(Others(Of(id), s.packets), s.chans - {id})
  }

  // ----- The cached count -----

  /** A queued packet: framed as its message type says, and data only for channels there are. */
  predicate Sound(ids: set<U32>, p: Packet) {
    p.head <= |p.data| && (IsData(p.data) ==> HeadOf(p.data) <= p.head && Load32(p.data, 1) in ids)
  }

  function SoundFor(ids: set<U32>): Packet -> bool { p => Sound(ids, p) }

  /** What `libssh2_channel_window_read_ex` finds by scanning the queue. */
  function Scanned(s: Session, id: U32): nat
    requires AllValid(s.packets)
  {
    |Queued(Of(id), s.packets)|
  }

  ghost predicate Inv(s: Session) {
    && All(SoundFor(s.chans.Keys), s.packets) && AllValid(s.packets)
    && forall id :: id in s.chans ==> s.chans[id].readAvail == Scanned(s, id) && !s.chans[id].flushPending
  }

  lemma SoundStable(ids: set<U32>)
    ensures Stable(SoundFor(ids))
  {}

  lemma AdjustFrame(c: Chan, adjustment: U32, force: bool, send: Send)
    ensures var c' := AdjustCall(c, adjustment, force, send).c;
            && c'.readAvail == c.readAvail && c'.flushPending == c.flushPending && c'.mode == c.mode
            && c'.eof == c.eof && c'.close == c.close && c'.initial == c.initial && c'.readPending == c.readPending
            && c'.flushBytes == c.flushBytes && c'.flushRefund == c.flushRefund && c'.packetSize == c.packetSize
  {}

  lemma SetChanKeepsInv(s: Session, id: U32, c: Chan)
    requires Inv(s) && id in s.chans && c.readAvail == s.chans[id].readAvail && !c.flushPending
    ensures Inv(s.(chans := s.chans[id := c]))
  {
    assert s.chans[id := c].Keys == s.chans.Keys;
  }

  lemma TakeKeepsInv(s: Session, id: U32, stream: int, want: nat)
    requires Inv(s) && id in s.chans
    ensures Inv(TakeCall(s, id, stream, want))
  {
    hide Drain, Queued, Sound, OfChannel, Wanted;
    var r := ChoiceOf(s, id, stream);
    ChoicesOfChannel(id, stream, s.chans[id].mode.Merge?);
    DrainFifo(r, s.packets, want);
    SoundStable(s.chans.Keys);
    DrainKeeps(SoundFor(s.chans.Keys), r, s.packets, want);
    DrainWithin(r, Of(id), s.packets, want);
    forall other | other in s.chans && other != id
      ensures Queued(Of(other), Drain(r, s.packets, want).rest) == Queued(Of(other), s.packets)
    {
      DrainApart(r, Of(other), s.packets, want);
    }
    assert TakeCall(s, id, stream, want).chans.Keys == s.chans.Keys;
  }

  lemma FlushKeepsInv(s: Session, id: U32, stream: int, send: Send)
    requires Inv(s) && id in s.chans && send != Again
    ensures Inv(FlushCall(s, id, stream, send).s)
  {
    hide Queued, Sound, OfChannel, Flushable, Others, AdjustCall, Refund;
    var r := FlushedBy(id, stream);
    ChoicesOfChannel(id, stream, false);
    OthersKeep(SoundFor(s.chans.Keys), r, s.packets);
    OthersWithin(r, Of(id), s.packets);
    forall other | other in s.chans && other != id
      ensures Queued(Of(other), Others(r, s.packets)) == Queued(Of(other), s.packets)
    {
      QueuedApart(r, Of(other), s.packets);
    }
    var s' := FlushScan(s, id, stream);
    var c := s'.chans[id];
    var c' := c.(readAvail := Wrap32(c.readAvail - c.flushBytes), window := Wrap32(c.window - c.flushBytes));
    AdjustFrame(c', Wrap32(c'.flushRefund), true, send);
    AdjustNotAgain(c', Wrap32(c'.flushRefund), true, send);
    assert FlushCall(s, id, stream, send).s.chans.Keys == s.chans.Keys;
  }

  lemma AdjustNotAgain(c: Chan, adjustment: U32, force: bool, send: Send)
    requires send != Again
    ensures AdjustCall(c, adjustment, force, send).rc != ERROR_EAGAIN
    ensures send == Sent ==> AdjustCall(c, adjustment, force, send).rc == 0
  {}

  lemma AppendKeepsInv(s: Session, id: U32, p: Packet, c: Chan)
    requires Inv(s) && id in s.chans && Sound(s.chans.Keys, p) && OfChannel(id, p.data)
    requires c.readAvail == s.chans[id].readAvail + |p.Unread()| && !c.flushPending
    ensures Inv(Session(s.packets + [p], s.chans[id := c]))
  {
    hide Queued, Load32;
    forall other: U32
      ensures Queued(Of(other), s.packets + [p]) ==
              if other == id then Queued(Of(other), s.packets) + p.Unread() else Queued(Of(other), s.packets)
    {
      QueuedAppend(Of(other), s.packets, p);
    }
    assert s.chans[id := c].Keys == s.chans.Keys;
  }

  /** What an accepted message adds: a sound packet, and as much as there is room for. */
  lemma KeptPacket(s: Session, d: Octets)
    requires Accepted(s, d) && s.chans[Load32(d, 1)].readAvail < s.chans[Load32(d, 1)].window
    ensures var id := Load32(d, 1);
            var c := s.chans[id];
            var n := Kept(c, |d| - HeadOf(d));
            && HeadOf(d) + n <= |d| && c.readAvail + n <= c.window
            && var p := Packet(d[..HeadOf(d) + n], HeadOf(d));
            Sound(s.chans.Keys, p) && OfChannel(id, p.data) && |p.Unread()| == n
  {
    hide Load32;
    LoadPrefix(d, HeadOf(d) + Kept(s.chans[Load32(d, 1)], |d| - HeadOf(d)));
  }

  lemma ArriveKeepsInv(s: Session, d: Octets, send: Send)
    requires Inv(s)
    ensures Inv(ArriveCall(s, d, send))
  {
    hide Queued, AdjustCall, Load32, Kept, Sound, OfChannel, IgnoreData, Inv;
    if Accepted(s, d) {
      var id := Load32(d, 1);
      var c := s.chans[id];
      InvAt(s, id);
      if c.mode.Ignore? && d[0] == MSG_EXTENDED_DATA {
        HeadOfExtended(d);
        IgnoreFrame(c, d, send);
        SetChanKeepsInv(s, id, IgnoreData(c, d, send).c);
      } else if c.window > c.readAvail {
        KeptPacket(s, d);
        var n := Kept(c, |d| - HeadOf(d));
        AppendKeepsInv(s, id, Packet(d[..HeadOf(d) + n], HeadOf(d)), c.(eof := false, readAvail := Wrap32(c.readAvail + n)));
      }
    }
  }

  lemma InvAt(s: Session, id: U32)
    requires Inv(s) && id in s.chans
    ensures AllValid(s.packets) && s.chans[id].readAvail == Scanned(s, id) && !s.chans[id].flushPending
  {}

  lemma HeadOfExtended(d: Octets)
    requires d != [] && d[0] == MSG_EXTENDED_DATA
    ensures HeadOf(d) == 13
  {}

  lemma IgnoreFrame(c: Chan, d: Octets, send: Send)
    requires |d| >= 13
    ensures var c' := IgnoreData(c, d, send).c;
            c'.readAvail == c.readAvail && c'.flushPending == c.flushPending && c'.mode == c.mode
  {}

  lemma LoadPrefix(d: Octets, n: nat)
    requires 9 <= n <= |d|
    ensures Load32(d[..n], 1) == Load32(d, 1) && d[..n][0] == d[0]
    ensures Load32(d[..n], 5) == Load32(d, 5)
  {}

  lemma ReplyKeepsInv(s: Session, d: Octets)
    requires Inv(s) && !IsData(d)
    ensures Inv(s.(packets := s.packets + [Packet(d, 0)]))
  {
    hide Queued, Load32;
    forall id: U32
      ensures Queued(Of(id), s.packets + [Packet(d, 0)]) == Queued(Of(id), s.packets)
    {
      QueuedAppend(Of(id), s.packets, Packet(d, 0));
    }
  }

  lemma FreeKeepsInv(s: Session, id: U32)
    requires Inv(s)
    ensures Inv(Apply(s, Free(id)))
  {
    hide Queued, Load32, Others;
    var s' := Apply(s, Free(id));
    ChoicesOfChannel(id, 0, false);
    OthersKeep(SoundFor(s.chans.Keys), Of(id), s.packets);
    forall i | 0 <= i < |s'.packets|
      ensures Sound(s'.chans.Keys, s'.packets[i]) && s'.packets[i].Valid()
    {
      assert Sound(s.chans.Keys, s'.packets[i]) && !OfChannel(id, s'.packets[i].data);
    }
    forall other | other in s'.chans
      ensures Queued(Of(other), s'.packets) == Queued(Of(other), s.packets)
    {
      QueuedApart(Of(id), Of(other), s.packets);
    }
  }

  /** A channel there is not has nothing queued. */
  lemma {:induction false} NothingForStrangers(ids: set<U32>, id: U32, ps: seq<Packet>)
    requires All(SoundFor(ids), ps) && AllValid(ps) && id !in ids
    ensures Queued(Of(id), ps) == []
  {
    if ps == [] {
    } else {
      assert Sound(ids, ps[0]);
      NothingForStrangers(ids, id, ps[1..]);
    }
  }

  lemma OpenKeepsInv(s: Session, id: U32, c: Chan)
    requires Inv(s) && id !in s.chans && c.readAvail == 0 && !c.flushPending
    ensures Inv(s.(chans := s.chans[id := c]))
  {
    hide Queued, Load32;
    NothingForStrangers(s.chans.Keys, id, s.packets);
    var s' := s.(chans := s.chans[id := c]);
    forall i | 0 <= i < |s'.packets|
      ensures Sound(s'.chans.Keys, s'.packets[i])
    {
      assert Sound(s.chans.Keys, s.packets[i]);
    }
  }

  /** No flush is left to be retried. */
  predicate Unblocked(e: Event) { e.Flush? ==> e.send != Again }

  /** Every event keeps each channel's cached count equal to what a scan of the queue finds. */
  lemma StepKeepsInv(s: Session, e: Event)
    requires Inv(s) && Unblocked(e)
    ensures Inv(Apply(s, e))
  {
    hide ArriveCall, TakeCall, FlushCall, AdjustCall, NewChan, Scanned, All, AllValid;
    match e
    case Data(payload, send) => ArriveKeepsInv(s, payload, send);
    case PeerEof(id) => if id in s.chans { SetChanKeepsInv(s, id, s.chans[id].(eof := true)); }
    case PeerClose(id) => if id in s.chans { SetChanKeepsInv(s, id, s.chans[id].(eof := true, close := true)); }
    case Reply(payload) => if !IsData(payload) { ReplyKeepsInv(s, payload); }
    case Expand(id, buflen, send) =>
      if id in s.chans {
        ExpandFrame(s.chans[id], buflen, send);
        SetChanKeepsInv(s, id, ExpandCall(s.chans[id], buflen, send).c);
      }
    case Take(id, stream, buflen) => if id in s.chans { TakeKeepsInv(s, id, stream, buflen); }
    case Flush(id, stream, send) => if id in s.chans { FlushKeepsInv(s, id, stream, send); }
    case Adjust(id, amount, force, send) =>
      if id in s.chans {
        AdjustFrame(s.chans[id], amount, force, send);
        SetChanKeepsInv(s, id, AdjustCall(s.chans[id], amount, force, send).c);
      }
    case Open(id, window, packetSize, mode) =>
      if id !in s.chans {
        NewChanEmpty(window, packetSize, mode);
        OpenKeepsInv(s, id, NewChan(window, packetSize, mode));
      }
    case Free(id) => FreeKeepsInv(s, id);
  }

  lemma NewChanEmpty(window: U32, packetSize: U32, mode: Mode)
    ensures NewChan(window, packetSize, mode).readAvail == 0 && !NewChan(window, packetSize, mode).flushPending
  {}

  lemma ExpandFrame(c: Chan, buflen: nat, send: Send)
    ensures var c' := ExpandCall(c, buflen, send).c;
            c'.readAvail == c.readAvail && c'.flushPending == c.flushPending && c'.mode == c.mode
  {}
}
