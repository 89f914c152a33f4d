/** What holds over whole runs of the receiving half, whatever arrives and whoever reads when. */
module ChannelReceiveRuns {
  import opened Octets
  import opened ChannelBasics
  import opened ChannelQueue
  import opened ChannelReceive

  ghost predicate AllUnblocked(es: seq<Event>) { forall i :: 0 <= i < |es| ==> Unblocked(es[i]) }

  /** The session after a run. In every state on the way, cached and scanned counts agree. */
  ghost function Run(s: Session, es: seq<Event>): (s': Session)
    requires Inv(s) && AllUnblocked(es)
    ensures Inv(s')
    decreases |es|
  {
    if es == [] then s else
      StepKeepsInv(s, es[0]);
      Run(Apply(s, es[0]), es[1..])
  }

  /** End of file is reported only when the peer sent it and nothing of the channel's is left to read. */
  lemma EofMeansDrained(s: Session, es: seq<Event>, id: U32)
    requires Inv(s) && AllUnblocked(es) && id in Run(s, es).chans
    ensures var s' := Run(s, es);
            && s'.chans[id].readAvail == Scanned(s', id)
            && (AtEof(s', id) ==>
                  s'.chans[id].eof && Scanned(s', id) == 0
                  && forall stream, merge :: Queued(WantedBy(id, stream, merge), s'.packets) == [])
  {
    hide Queued, Run, Load32;
    var s' := Run(s, es);
    if AtEof(s', id) {
      NothingChosen(Of(id), s'.packets);
      forall stream: int, merge: bool
        ensures Queued(WantedBy(id, stream, merge), s'.packets) == []
      {
        ChoicesOfChannel(id, stream, merge);
        NothingChosen(WantedBy(id, stream, merge), s'.packets);
      }
    }
  }

  lemma {:induction false} NothingChosen(r: Choice, ps: seq<Packet>)
    requires AllValid(ps) && forall i :: 0 <= i < |ps| ==> !r(ps[i].data)
    ensures Queued(r, ps) == []
  {
    if ps == [] {
    } else {
      NothingChosen(r, ps[1..]);
    }
  }

  /** No run queues data too short to name its stream, so no flush ever gives up on finding it. */
  lemma FlushNeverGivesUp(s: Session, es: seq<Event>, id: U32)
    requires Inv(s) && AllUnblocked(es)
    ensures Clean(id, Run(s, es).packets)
  {
    hide Run, Scanned, Load32;
    var s' := Run(s, es);
    forall i | 0 <= i < |s'.packets|
      ensures !TooShort(id, s'.packets[i].data)
    {
      assert Sound(s'.chans.Keys, s'.packets[i]);
    }
  }

  // ----- First in, first out -----

  /** Reads of these two streams take from different packets. */
  predicate SeparateStreams(merge: bool, a: int, b: int) { a != b && !(merge && (a == 0 || b == 0)) }

  /** The event takes nothing from the stream, unless by reading it. */
  predicate Leaves(e: Event, id: U32, stream: int, merge: bool) {
    match e
    case Take(i, st, _) => i != id || st == stream || SeparateStreams(merge, st, stream)
    case Flush(i, _, _) => i != id
    case Free(i) => i != id
    case _ => true
  }

  ghost predicate AllLeave(es: seq<Event>, id: U32, stream: int, merge: bool) {
    forall i :: 0 <= i < |es| ==> Unblocked(es[i]) && Leaves(es[i], id, stream, merge)
  }

  /** The bytes that an event adds to the chosen packets. */
  ghost function ArrivedBy(s: Session, e: Event, m: Choice): Octets
    requires AllValid(s.packets)
  {
    var ps, ps' := s.packets, Apply(s, e).packets;
    if e.Data? && |ps'| == |ps| + 1 && ps'[|ps|].Valid() && m(ps'[|ps|].data) then ps'[|ps|].Unread() else []
  }

  ghost function TakenBy(s: Session, e: Event, id: U32, stream: int): Octets
    requires AllValid(s.packets)
  {
    if e.Take? && e.id == id && e.stream == stream && id in s.chans then Taken(s, id, stream, e.buflen) else []
  }

  ghost function Arrived(s: Session, es: seq<Event>, m: Choice): Octets
    requires Inv(s) && AllUnblocked(es)
    decreases |es|
  {
    if es == [] then [] else
      StepKeepsInv(s, es[0]);
      ArrivedBy(s, es[0], m) + Arrived(Apply(s, es[0]), es[1..], m)
  }

  ghost function Delivered(s: Session, es: seq<Event>, id: U32, stream: int): Octets
    requires Inv(s) && AllUnblocked(es)
    decreases |es|
  {
    if es == [] then [] else
      StepKeepsInv(s, es[0]);
      TakenBy(s, es[0], id, stream) + Delivered(Apply(s, es[0]), es[1..], id, stream)
  }

  lemma StreamsApart(id: U32, a: int, b: int, merge: bool)
    requires SeparateStreams(merge, a, b)
    ensures Apart(WantedBy(id, a, merge), WantedBy(id, b, merge))
  {}

  lemma ChannelsApart(i: U32, j: U32, st: int, merge: bool, stream: int, merge': bool)
    requires i != j
    ensures Apart(WantedBy(i, st, merge), WantedBy(j, stream, merge'))
    ensures Apart(FlushedBy(i, st), WantedBy(j, stream, merge'))
    ensures Apart(Of(i), WantedBy(j, stream, merge'))
  {}

  lemma StepKeepsMode(s: Session, e: Event, id: U32)
    requires Inv(s) && id in s.chans && (e.Free? ==> e.id != id)
    ensures id in Apply(s, e).chans && Apply(s, e).chans[id].mode == s.chans[id].mode
  {
    hide Drain, Others, Queued, Refund, Kept, Load32, AdjustCall, IgnoreData, ExpandCall;
    match e
    case Data(d, send) =>
      if Accepted(s, d) && d[0] == MSG_EXTENDED_DATA {
        IgnoreFrame(s.chans[Load32(d, 1)], d, send);
      }
    case Expand(i, buflen, send) => if i in s.chans { ExpandFrame(s.chans[i], buflen, send); }
    case Adjust(i, amount, force, send) => if i in s.chans { AdjustFrame(s.chans[i], amount, force, send); }
    case Flush(i, stream, send) =>
      if i in s.chans {
        var c := FlushScan(s, i, stream).chans[i];
        var c' := c.(readAvail := Wrap32(c.readAvail - c.flushBytes), window := Wrap32(c.window - c.flushBytes));
        AdjustFrame(c', Wrap32(c'.flushRefund), true, send);
      }
    case _ =>
  }

  lemma TakeStepFifo(s: Session, i: U32, st: int, n: nat, id: U32, stream: int, merge: bool)
    requires Inv(s) && id in s.chans && merge == s.chans[id].mode.Merge? && i in s.chans
    requires Leaves(Take(i, st, n), id, stream, merge)
    ensures var m := WantedBy(id, stream, merge);
            && AllValid(TakeCall(s, i, st, n).packets)
            && Queued(m, s.packets) == TakenBy(s, Take(i, st, n), id, stream) + Queued(m, TakeCall(s, i, st, n).packets)
  {
    hide Drain, Queued, Wanted;
    var r, m := ChoiceOf(s, i, st), WantedBy(id, stream, merge);
    DrainFifo(r, s.packets, n);
    if i != id {
      ChannelsApart(i, id, st, s.chans[i].mode.Merge?, stream, merge);
      DrainApart(r, m, s.packets, n);
    } else if st != stream {
      StreamsApart(id, st, stream, merge);
      DrainApart(r, m, s.packets, n);
    }
  }

  lemma FlushStepFifo(s: Session, i: U32, st: int, send: Send, id: U32, stream: int, merge: bool)
    requires Inv(s) && i in s.chans && i != id
    ensures var m := WantedBy(id, stream, merge);
            && AllValid(FlushCall(s, i, st, send).s.packets)
            && Queued(m, FlushCall(s, i, st, send).s.packets) == Queued(m, s.packets)
  {
    hide Queued, Wanted, Flushable, AdjustCall, Others, Refund;
    ChannelsApart(i, id, st, false, stream, merge);
    QueuedApart(FlushedBy(i, st), WantedBy(id, stream, merge), s.packets);
  }

  lemma DataStepFifo(s: Session, d: Octets, send: Send, m: Choice)
    requires Inv(s)
    ensures AllValid(ArriveCall(s, d, send).packets)
    ensures Queued(m, s.packets) + ArrivedBy(s, Data(d, send), m) == Queued(m, ArriveCall(s, d, send).packets)
  {
    hide Queued, Load32, IgnoreData, Kept;
    ArriveKeepsInv(s, d, send);
    var ps, ps' := s.packets, ArriveCall(s, d, send).packets;
    if ps' != ps {
      var p := ps'[|ps|];
      assert ps' == ps + [p];
      QueuedAppend(m, ps, p);
    } else {
      assert Queued(m, ps) + [] == Queued(m, ps);
    }
  }

  /** Each event keeps the books of each stream balanced. */
  lemma StepFifo(s: Session, e: Event, id: U32, stream: int)
    requires Inv(s) && id in s.chans && Unblocked(e) && Leaves(e, id, stream, s.chans[id].mode.Merge?)
    ensures var m := ChoiceOf(s, id, stream);
            && AllValid(Apply(s, e).packets)
            && Queued(m, s.packets) + ArrivedBy(s, e, m) == TakenBy(s, e, id, stream) + Queued(m, Apply(s, e).packets)
  {
    hide Queued, Wanted, ArriveCall, TakeCall, FlushCall, ExpandCall, AdjustCall, IsData, Others, Taken;
    var merge := s.chans[id].mode.Merge?;
    var m := ChoiceOf(s, id, stream);
    assert Queued(m, s.packets) + [] == Queued(m, s.packets) && [] + Queued(m, s.packets) == Queued(m, s.packets);
    match e
    case Data(d, send) => DataStepFifo(s, d, send, m);
    case Take(i, st, n) => if i in s.chans { TakeStepFifo(s, i, st, n, id, stream, merge); }
    case Flush(i, st, send) => if i in s.chans { FlushStepFifo(s, i, st, send, id, stream, merge); }
    case Free(i) =>
      ChannelsApart(i, id, 0, false, stream, merge);
      QueuedApart(Of(i), m, s.packets);
    case Reply(d) =>
      if !IsData(d) {
        QueuedAppend(m, s.packets, Packet(d, 0));
        NotDataNotWanted(id, stream, merge, d);
      }
    case _ =>
  }

  lemma NotDataNotWanted(id: U32, stream: int, merge: bool, d: Octets)
    requires !IsData(d)
    ensures !WantedBy(id, stream, merge)(d)
  {}

  /**
   * Over every run, the bytes delivered from a stream, followed by those still queued
   * for it, are the bytes that were queued and arrived for it, in order. How the reads
   * were cut up, and what other channels and streams did in between, makes no difference.
   */
  lemma {:induction false} RunFifo(s: Session, es: seq<Event>, id: U32, stream: int)
    requires Inv(s) && id in s.chans && AllLeave(es, id, stream, s.chans[id].mode.Merge?)
    ensures AllUnblocked(es)
    ensures var m := ChoiceOf(s, id, stream);
            Queued(m, s.packets) + Arrived(s, es, m) == Delivered(s, es, id, stream) + Queued(m, Run(s, es).packets)
    ensures id in Run(s, es).chans && Run(s, es).chans[id].mode == s.chans[id].mode
    decreases |es|
  {
    InvValid(s);
    hide Queued, Apply, Wanted, ArrivedBy, TakenBy, Inv, Run, Arrived, Delivered;
    var m := ChoiceOf(s, id, stream);
    if es == [] {
      NoEvents(s, m, id, stream);
      assert Queued(m, s.packets) + [] == [] + Queued(m, s.packets);
    } else {
      var e, t := es[0], es[1..];
      assert Leaves(e, id, stream, s.chans[id].mode.Merge?) && Unblocked(e);
      StepKeepsInv(s, e);
      var s' := Apply(s, e);
      StepKeepsMode(s, e, id);
      StepFifo(s, e, id, stream);
      RunFifo(s', t, id, stream);
      InvValid(s');
      InvValid(Run(s', t));
      FirstEvent(s, es, m, id, stream);
      Balance(Queued(m, s.packets), ArrivedBy(s, e, m), TakenBy(s, e, id, stream), Queued(m, s'.packets),
              Arrived(s', t, m), Delivered(s', t, id, stream), Queued(m, Run(s', t).packets));
    }
  }

  lemma NoEvents(s: Session, m: Choice, id: U32, stream: int)
    requires Inv(s)
    ensures Run(s, []) == s && Arrived(s, [], m) == [] && Delivered(s, [], id, stream) == []
  {}

  lemma FirstEvent(s: Session, es: seq<Event>, m: Choice, id: U32, stream: int)
    requires Inv(s) && AllUnblocked(es) && es != []
    ensures var s' := Apply(s, es[0]);
            && Inv(s') && Run(s, es) == Run(s', es[1..])
            && Arrived(s, es, m) == ArrivedBy(s, es[0], m) + Arrived(s', es[1..], m)
            && Delivered(s, es, id, stream) == TakenBy(s, es[0], id, stream) + Delivered(s', es[1..], id, stream)
  {
    hide Apply, ArrivedBy, TakenBy, Inv;
    InvValid(s);
    StepKeepsInv(s, es[0]);
  }

  lemma Balance(q: Octets, a: Octets, d: Octets, q': Octets, a': Octets, d': Octets, r: Octets)
    requires q + a == d + q' && q' + a' == d' + r
    ensures q + (a + a') == (d + d') + r
  {
    assert q + (a + a') == (q + a) + a';
    assert (d + q') + a' == d + (q' + a');
    assert d + (d' + r) == (d + d') + r;
  }

  lemma InvValid(s: Session)
    requires Inv(s)
    ensures AllValid(s.packets)
  {}

  /** So once end of file is reported, every byte that arrived has been delivered. */
  lemma EofMeansDelivered(s: Session, es: seq<Event>, id: U32, stream: int)
    requires Inv(s) && id in s.chans && AllLeave(es, id, stream, s.chans[id].mode.Merge?)
    ensures AllUnblocked(es) && id in Run(s, es).chans
    ensures var m := ChoiceOf(s, id, stream);
            AtEof(Run(s, es), id) ==> Delivered(s, es, id, stream) == Queued(m, s.packets) + Arrived(s, es, m)
  {
    hide Queued, Wanted, Run, Arrived, Delivered, AtEof, Inv;
    RunFifo(s, es, id, stream);
    InvValid(s);
    if AtEof(Run(s, es), id) {
      EofMeansDrained(s, es, id);
      assert Delivered(s, es, id, stream) + [] == Delivered(s, es, id, stream);
    }
  }

  /** And two runs in which the same bytes arrive deliver the same bytes, as far as both have got. */
  lemma ChunkingIrrelevant(s: Session, es: seq<Event>, fs: seq<Event>, id: U32, stream: int)
    requires Inv(s) && id in s.chans
    requires AllLeave(es, id, stream, s.chans[id].mode.Merge?) && AllLeave(fs, id, stream, s.chans[id].mode.Merge?)
    requires AllUnblocked(es) && AllUnblocked(fs)
    requires Arrived(s, es, ChoiceOf(s, id, stream)) == Arrived(s, fs, ChoiceOf(s, id, stream))
    ensures var a, b := Delivered(s, es, id, stream), Delivered(s, fs, id, stream);
            if |a| <= |b| then a <= b else b <= a
  {
    hide Queued, Wanted, Run, Arrived, Delivered, Inv;
    InvValid(s);
    RunFifo(s, es, id, stream);
    RunFifo(s, fs, id, stream);
    var m := ChoiceOf(s, id, stream);
    var whole := Queued(m, s.packets) + Arrived(s, es, m);
    assert Delivered(s, es, id, stream) <= whole && Delivered(s, fs, id, stream) <= whole;
  }
}
