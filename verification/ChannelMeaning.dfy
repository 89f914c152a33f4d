/**
 * The receiving half of a channel in other words: which messages a flush throws away, how
 * much of a message is kept, when end of file is reported, and what the calls return.
 */
module ChannelMeaning {
  import opened Octets
  import opened ChannelBasics
  import opened ChannelQueue
  import opened ChannelReceive
  import opened ChannelReceiveRuns
  import opened ChannelPair

  // ----- Flushing -----

  /**
   * A flush takes data of its own channel only: of stream 0 the standard data, of -1 all
   * extended data, of -2 everything, and of any other number that stream's.
   */
  lemma FlushedIff(id: U32, stream: int, other: U32, st: int, bytes: Octets)
    requires |bytes| < TWO32 && -0x8000_0000 <= st < 0x8000_0000
    ensures Flushable(id, stream, Encode(other, st, bytes))
            <==> other == id && (stream == -2 || (if st == 0 then stream == 0 else stream == -1 || stream == st))
  {
    hide Encode, Load32, Wrap32, ToInt;
    Encoded(other, st, bytes);
    if st != 0 {
      ToIntWrap(st);
    }
  }

  /** After a flush of everything nothing of the channel is queued, and end of file shows if the peer has sent it. */
  lemma FlushAllEmpties(s: Session, id: U32, send: Send)
    requires Inv(s) && id in s.chans && send != Again
    ensures var s' := FlushCall(s, id, -2, send).s;
            && id in s'.chans && (forall i :: 0 <= i < |s'.packets| ==> !OfChannel(id, s'.packets[i].data))
            && (AtEof(s', id) <==> s.chans[id].eof)
  {
    hide Queued, Others, AdjustCall, Refund, Load32, Wrap32, Flushable, OfChannel, Sound;
    var r := FlushedBy(id, -2);
    OthersKeep(SoundFor(s.chans.Keys), r, s.packets);
    var ps := Others(r, s.packets);
    assert FlushCall(s, id, -2, send).s.packets == ps;
    forall i | 0 <= i < |ps|
      ensures !OfChannel(id, ps[i].data)
    {
      assert Sound(s.chans.Keys, ps[i]) && !r(ps[i].data);
      if OfChannel(id, ps[i].data) {
        AllFlushable(s.chans.Keys, id, ps[i]);
      }
    }
    var c := FlushScan(s, id, -2).chans[id];
    var c' := c.(readAvail := Wrap32(c.readAvail - c.flushBytes), window := Wrap32(c.window - c.flushBytes));
    AdjustFrame(c', Wrap32(c'.flushRefund), true, send);
  }

  lemma AllFlushable(ids: set<U32>, id: U32, p: Packet)
    requires Sound(ids, p) && OfChannel(id, p.data)
    ensures Flushable(id, -2, p.data)
  {
    hide Load32;
  }

  /** A flush that does not block returns the number of bytes it threw away, even when giving them back failed. */
  lemma FlushReturns(s: Session, id: U32, stream: int, send: Send)
    requires Inv(s) && id in s.chans
    ensures var f := FlushCall(s, id, stream, send);
            && (send != Again ==> f.rc == |Queued(FlushedBy(id, stream), s.packets)|)
            && (f.rc == -37 || f.rc == |Queued(FlushedBy(id, stream), s.packets)|)
  {
    hide Queued, Others, AdjustCall, Refund, Flushable, Wrap32;
    var c := FlushScan(s, id, stream).chans[id];
    var c' := c.(readAvail := Wrap32(c.readAvail - c.flushBytes), window := Wrap32(c.window - c.flushBytes));
    if send != Again {
      AdjustNotAgain(c', Wrap32(c'.flushRefund), true, send);
    }
  }

  /** What an adjustment that has something to announce returns. */
  lemma AdjustCodes(c: Chan, amount: U32, send: Send)
    requires c.adjustPending || amount != 0 || c.adjustQueue != 0
    ensures AdjustCall(c, amount, true, send).rc == match send case Sent => 0 case Again => -37 case Failed(_) => -7
    ensures AdjustCall(c, amount, true, send).told != [] <==> send == Sent
  {
    hide Wrap32;
  }

  // ----- Arrivals -----

  /** Of a message as much is kept as the packet size allows and the window has room for. */
  lemma KeptIs(c: Chan, n: nat)
    requires c.readAvail <= c.window
    ensures Kept(c, n) <= n && Kept(c, n) <= c.packetSize && Kept(c, n) <= c.window - c.readAvail
    ensures Kept(c, n) == n || Kept(c, n) == c.packetSize || Kept(c, n) == c.window - c.readAvail
  {}

  /** Where a message goes: nowhere if its channel is unknown or full, else to the end of the queue, cut to what is kept. */
  lemma ArrivesAs(s: Session, id: U32, st: int, bytes: Octets)
    requires Inv(s) && |bytes| < TWO32
    ensures var s', d := ArriveCall(s, Encode(id, st, bytes), Sent), Encode(id, st, bytes);
            && (id !in s.chans ==> s' == s)
            && (id in s.chans && s.chans[id].readAvail >= s.chans[id].window && (st == 0 || !s.chans[id].mode.Ignore?) ==>
                  s' == s)
            && (id in s.chans && s.chans[id].readAvail < s.chans[id].window && (st == 0 || !s.chans[id].mode.Ignore?) ==>
                  && |s'.packets| == |s.packets| + 1 && s'.packets[..|s.packets|] == s.packets
                  && var p := s'.packets[|s.packets|];
                  && p.Valid() && p.Unread() == bytes[..Kept(s.chans[id], |bytes|)]
                  && !s'.chans[id].eof && !AtEof(s', id))
            && (id in s.chans && st != 0 && s.chans[id].mode.Ignore? ==> s'.packets == s.packets)
  {
    hide Encode, Load32, Wrap32, AdjustCall, Kept;
    var d := Encode(id, st, bytes);
    Encoded(id, st, bytes);
    if id in s.chans && s.chans[id].readAvail < s.chans[id].window && (st == 0 || !s.chans[id].mode.Ignore?) {
      KeptPacket(s, d);
      var n := Kept(s.chans[id], |bytes|);
      var h := HeadOf(d);
      assert |bytes| == |d| - h;
      assert d[..h + n][h..] == d[h..][..n];
    }
  }

  // ----- End of file -----

  /** End of file is reported if and only if the peer sent it and no data message of the channel is queued. */
  lemma EofIff(s: Session, id: U32)
    requires id in s.chans
    ensures AtEof(s, id) <==>
            s.chans[id].eof && forall i :: 0 <= i < |s.packets| ==>
              var d := s.packets[i].data; !(5 <= |d| && (d[0] == 94 || d[0] == 95) && Load32(d, 1) == id)
  {
    hide Load32;
  }

  /** Once nothing of the channel is queued, the peer's end of file shows, and so does its close. */
  lemma PeerEnds(s: Session, id: U32)
    requires AllValid(s.packets) && id in s.chans
    requires forall i :: 0 <= i < |s.packets| ==> !OfChannel(id, s.packets[i].data)
    ensures AtEof(Apply(s, PeerEof(id)), id) && AtEof(Apply(s, PeerClose(id)), id)
    ensures Apply(s, PeerClose(id)).chans[id].close && Apply(s, PeerEof(id)).chans[id].close == s.chans[id].close
  {
    hide OfChannel;
  }

  // ----- Opening and freeing -----

  /** A channel just opened has its whole window, and nothing else. */
  lemma JustOpened(s: Session, id: U32, window: U32, packetSize: U32, mode: Mode)
    requires AllValid(s.packets) && id !in s.chans
    ensures var s' := Apply(s, Open(id, window, packetSize, mode));
            && id in s'.chans && s'.packets == s.packets
            && var c := s'.chans[id];
            && c.initial == c.window == window && c.packetSize == packetSize && c.mode == mode && c.readAvail == 0
            && !c.eof && !c.close && !c.readPending && !c.adjustPending && c.adjustQueue == 0 && !c.flushPending
  {}

  /** Freeing a channel forgets it and its packets, and leaves the others alone. */
  lemma Freed(s: Session, id: U32)
    requires Inv(s)
    ensures var s' := Apply(s, Free(id));
            && id !in s'.chans && (forall i :: 0 <= i < |s'.packets| ==> !OfChannel(id, s'.packets[i].data))
            && forall other :: other in s.chans && other != id ==> other in s'.chans && s'.chans[other] == s.chans[other]
  {
    hide Others, OfChannel, Queued, Sound;
    OthersKeep(SoundFor(s.chans.Keys), Of(id), s.packets);
  }
}
