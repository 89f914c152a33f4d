/** The books of the receive window over whole runs: what was announced, what was used up, what is recorded. */
module ChannelLedger {
  import opened Octets
  import opened ChannelBasics
  import opened ChannelQueue
  import opened ChannelReceive
  import opened ChannelReceiveRuns
  import opened ChannelWindow

  predicate IgnoredFor(s: Session, d: Octets, id: U32) {
    Ignored(s, d) && Load32(d, 1) == id
  }

  /** The credit for channel `id` that an event announces to the peer. */
  ghost function ToldBy(s: Session, e: Event, id: U32): seq<U32>
    requires Inv(s) && id in s.chans
  {
    match e
    case Data(d, send) => if IgnoredFor(s, d, id) then IgnoreData(s.chans[id], d, send).told else []
    case Expand(i, buflen, send) => if i == id then ExpandCall(s.chans[id], buflen, send).told else []
    case Flush(i, stream, send) => if i == id then FlushCall(s, id, stream, send).told else []
    case Adjust(i, amount, force, send) => if i == id then AdjustCall(s.chans[id], amount, force, send).told else []
    case _ => []
  }

  /** The credit of channel `id` that an event uses up: bytes read, flushed or ignored. */
  ghost function SpentBy(s: Session, e: Event, id: U32): nat
    requires Inv(s) && id in s.chans
  {
    match e
    case Data(d, _) =>
      if !IgnoredFor(s, d, id) then 0
      else if s.chans[id].readAvail + |d| - 13 >= s.chans[id].window then
        Wrap32(s.chans[id].window - s.chans[id].readAvail)
      else |d| - 13
    case Take(i, stream, n) => if i == id then |Taken(s, id, stream, n)| else 0
    case Flush(i, stream, _) => if i == id then |Queued(FlushedBy(id, stream), s.packets)| else 0
    case _ => 0
  }

  /** Sends that the event makes for channel `id` go through at once, and the channel stays. */
  predicate SentFor(e: Event, id: U32) {
    match e
    case Data(_, send) => send == Sent
    case Expand(i, _, send) => i == id ==> send == Sent
    case Flush(i, _, send) => if i == id then send == Sent else send != Again
    case Adjust(i, _, _, send) => i == id ==> send == Sent
    case Free(i) => i != id
    case _ => true
  }

  predicate Ready(c: Chan) { !c.adjustPending && c.adjustQueue < MINADJUST }

  /** A deduction followed by an adjustment that is sent. */
  lemma SpendThenAdjust(c: Chan, spent: nat, amount: U32, force: bool)
    requires Ready(c)
    ensures var a := AdjustCall(c.(window := Wrap32(c.window - spent)), amount, force, Sent);
            && Ready(a.c) && a.rc == 0
            && Wrap32(a.c.window + spent) == Wrap32(c.window + Sum(a.told))
  {
    hide AdjustCall, Wrap32, Sum;
    var c' := c.(window := Wrap32(c.window - spent));
    AdjustSent(c', amount, force);
    var told := Sum(AdjustCall(c', amount, force, Sent).told);
    Spend(c.window, spent, told);
  }

  lemma Spend(w: U32, spent: nat, told: nat)
    ensures Wrap32(Wrap32(Wrap32(w - spent) + told) + spent) == Wrap32(w + told)
  {
    hide Wrap32;
    WrapAdd(told, w - spent);
    WrapAdd(spent, told + (w - spent));
    assert spent + (told + (w - spent)) == w + told;
  }

  lemma AdjustBooks(c: Chan, amount: U32, force: bool)
    requires Ready(c)
    ensures var a := AdjustCall(c, amount, force, Sent);
            Ready(a.c) && Wrap32(a.c.window) == Wrap32(c.window + Sum(a.told))
  {
    hide AdjustCall, Wrap32, Sum;
    WrapSmall(c.window);
    SpendThenAdjust(c, 0, amount, force);
  }

  lemma ExpandBooks(c: Chan, buflen: nat)
    requires Ready(c)
    ensures var a := ExpandCall(c, buflen, Sent);
            Ready(a.c) && Wrap32(a.c.window) == Wrap32(c.window + Sum(a.told))
  {
    hide AdjustCall, Wrap32, Sum;
    NoSum();
    if c.readPending || c.window < Threshold(c, buflen) {
      var lack := Wrap32(c.initial + buflen - c.window);
      var amount := if lack < MINADJUST then MINADJUST else lack;
      AdjustBooks(c.(readPending := true), amount, false);
      AdjustNotAgain(c.(readPending := true), amount, false, Sent);
    }
  }

  lemma FlushBooks(s: Session, id: U32, stream: int)
    requires Inv(s) && id in s.chans && Ready(s.chans[id])
    ensures var f := FlushCall(s, id, stream, Sent);
            && id in f.s.chans && Ready(f.s.chans[id])
            && Wrap32(f.s.chans[id].window + |Queued(FlushedBy(id, stream), s.packets)|)
               == Wrap32(s.chans[id].window + Sum(f.told))
  {
    hide Queued, Flushable, Others, AdjustCall, Refund, Wrap32, Sum;
    NoSum();
    var c := FlushScan(s, id, stream).chans[id];
    var c1 := c.(readAvail := Wrap32(c.readAvail - c.flushBytes));
    SpendThenAdjust(c1, c.flushBytes, Wrap32(c.flushRefund), true);
    Spend(c.window, c.flushBytes, 0);
    assert Wrap32(c.window - c.flushBytes) + 0 == Wrap32(c.window - c.flushBytes);
    WrapSmall(Wrap32(c.window - c.flushBytes));
    assert c.window + 0 == c.window;
  }

  /** Each event keeps the books of each channel balanced, modulo 2^32. */
  lemma StepBooks(s: Session, e: Event, id: U32)
    requires Inv(s) && id in s.chans && Ready(s.chans[id]) && SentFor(e, id)
    ensures var s' := Apply(s, e);
            && id in s'.chans && Ready(s'.chans[id])
            && Wrap32(s'.chans[id].window + SpentBy(s, e, id)) == Wrap32(s.chans[id].window + Sum(ToldBy(s, e, id)))
  {
    hide AdjustCall, Wrap32, Sum, Drain, Queued, ExpandCall, FlushCall, Kept, Load32, Others;
    NoSum();
    var c := s.chans[id];
    match e
    case Data(d, send) =>
      if IgnoredFor(s, d, id) {
        var len := SpentBy(s, e, id);
        SpendThenAdjust(c, len, Wrap32(len), true);
      }
    case Expand(i, buflen, _) => if i == id { ExpandBooks(c, buflen); }
    case Take(i, stream, n) =>
      if i == id {
        Spend(c.window, |Taken(s, id, stream, n)|, 0);
        WrapSmall(Wrap32(c.window - |Taken(s, id, stream, n)|));
      }
    case Flush(i, stream, send) =>
      if i == id { FlushBooks(s, id, stream); } else if i in s.chans { FlushOther(s, i, stream, send, id); }
    case Adjust(i, amount, force, _) => if i == id { AdjustBooks(c, amount, force); }
    case _ =>
  }

  lemma FlushOther(s: Session, i: U32, stream: int, send: Send, id: U32)
    requires Inv(s) && i in s.chans && id in s.chans && i != id
    ensures id in FlushCall(s, i, stream, send).s.chans && FlushCall(s, i, stream, send).s.chans[id] == s.chans[id]
  {
    hide AdjustCall, Queued, Others, Refund;
  }

  ghost predicate AllSentFor(es: seq<Event>, id: U32) { forall i :: 0 <= i < |es| ==> SentFor(es[i], id) }

  lemma SentUnblocked(e: Event, id: U32)
    requires SentFor(e, id)
    ensures Unblocked(e)
  {}

  ghost function Told(s: Session, es: seq<Event>, id: U32): nat
    requires Inv(s) && id in s.chans && Ready(s.chans[id]) && AllSentFor(es, id)
    decreases |es|
  {
    if es == [] then 0 else
      SentUnblocked(es[0], id);
      StepKeepsInv(s, es[0]);
      StepBooks(s, es[0], id);
      Sum(ToldBy(s, es[0], id)) + Told(Apply(s, es[0]), es[1..], id)
  }

  ghost function Spent(s: Session, es: seq<Event>, id: U32): nat
    requires Inv(s) && id in s.chans && Ready(s.chans[id]) && AllSentFor(es, id)
    decreases |es|
  {
    if es == [] then 0 else
      SentUnblocked(es[0], id);
      StepKeepsInv(s, es[0]);
      StepBooks(s, es[0], id);
      SpentBy(s, es[0], id) + Spent(Apply(s, es[0]), es[1..], id)
  }

  /**
   * Over every run in which the channel's adjustments are sent at once, its recorded
   * window is what it was, plus all credit announced, less all credit used up.
   */
  lemma {:induction false} RunBooks(s: Session, es: seq<Event>, id: U32)
    requires Inv(s) && id in s.chans && Ready(s.chans[id]) && AllSentFor(es, id)
    ensures AllUnblocked(es) && id in Run(s, es).chans
    ensures Run(s, es).chans[id].window == Wrap32(s.chans[id].window + Told(s, es, id) - Spent(s, es, id))
    decreases |es|
  {
    hide Apply, ToldBy, SpentBy, Inv, Wrap32, Sum, Ready;
    if es == [] {
      WrapSmall(s.chans[id].window);
    } else {
      var e, t := es[0], es[1..];
      assert SentFor(e, id);
      SentUnblocked(e, id);
      StepKeepsInv(s, e);
      StepBooks(s, e, id);
      InvValid(s);
      var s' := Apply(s, e);
      RunBooks(s', t, id);
      AllSentUnblocked(es, id);
      var told, spent := Sum(ToldBy(s, e, id)), SpentBy(s, e, id);
      WrapBoth(s'.chans[id].window + spent, s.chans[id].window + told, Told(s', t, id) - Spent(s', t, id) - spent);
    }
  }

  // ----- A peer that keeps to its credit -----

  /** A data message for the channel. */
  predicate DataFor(e: Event, id: U32) {
    e.Data? && IsData(e.payload) && HeadOf(e.payload) <= |e.payload| && Load32(e.payload, 1) == id
  }

  /** The credit that a message costs the peer. */
  function PaidBy(e: Event, id: U32): nat { if DataFor(e, id) then |e.payload| - HeadOf(e.payload) else 0 }

  /** The bytes that a message carries to the chosen packets of a channel. */
  function CarriedBy(e: Event, id: U32, ignoring: bool, m: Choice): Octets {
    if DataFor(e, id) && !(ignoring && e.payload[0] == MSG_EXTENDED_DATA) && m(e.payload)
    then e.payload[HeadOf(e.payload)..] else []
  }

  /**
   * The peer sends no more than its credit and the packet size allow, and what is
   * announced to it keeps the window below 2^32.
   */
  ghost predicate Obeys(s: Session, e: Event, id: U32, credit: nat)
    requires Inv(s) && id in s.chans
  {
    && PaidBy(e, id) <= credit && PaidBy(e, id) <= s.chans[id].packetSize
    && s.chans[id].window + Sum(ToldBy(s, e, id)) - SpentBy(s, e, id) < TWO32
  }

  /** What an event adds to the cached count: what the peer paid for, less what is used up. */
  lemma StepAvail(s: Session, e: Event, id: U32, credit: nat)
    requires Inv(s) && id in s.chans && SentFor(e, id)
    requires s.chans[id].readAvail + credit == s.chans[id].window && Obeys(s, e, id, credit)
    ensures var s' := Apply(s, e);
            && id in s'.chans && SpentBy(s, e, id) <= s.chans[id].window
            && s'.chans[id].readAvail == s.chans[id].readAvail + PaidBy(e, id) - SpentBy(s, e, id)
            && s'.chans[id].packetSize == s.chans[id].packetSize
  {
    hide AdjustCall, Wrap32, Sum, Drain, Queued, ExpandCall, FlushCall, ArriveCall, Load32, Others, ToldBy, IgnoreData;
    var c := s.chans[id];
    match e
    case Data(d, send) => DataAvail(s, d, send, id, credit);
    case Expand(i, buflen, send) => if i == id { ExpandKeeps(c, buflen, send); }
    case Take(i, stream, n) => if i == id { TakeAvail(s, id, stream, n); }
    case Flush(i, stream, send) =>
      if i == id { FlushAvail(s, id, stream, send); } else if i in s.chans { FlushOther(s, i, stream, send, id); }
    case Adjust(i, amount, force, send) => if i == id { AdjustFrame(c, amount, force, send); }
    case _ =>
  }

  lemma ExpandKeeps(c: Chan, buflen: nat, send: Send)
    ensures var c' := ExpandCall(c, buflen, send).c;
            c'.readAvail == c.readAvail && c'.packetSize == c.packetSize
  {
    hide AdjustCall, Wrap32;
    var lack := Wrap32(c.initial + buflen - c.window);
    AdjustFrame(c.(readPending := true), if lack < MINADJUST then MINADJUST else lack, false, send);
  }

  lemma TakeAvail(s: Session, id: U32, stream: int, n: nat)
    requires Inv(s) && id in s.chans
    ensures var taken := |Taken(s, id, stream, n)|;
            && taken <= s.chans[id].readAvail
            && TakeCall(s, id, stream, n).chans[id].readAvail == s.chans[id].readAvail - taken
  {
    hide Drain, Queued, Wanted, OfChannel;
    ChoicesOfChannel(id, stream, s.chans[id].mode.Merge?);
    DrainWithin(ChoiceOf(s, id, stream), Of(id), s.packets, n);
  }

  lemma FlushAvail(s: Session, id: U32, stream: int, send: Send)
    requires Inv(s) && id in s.chans && send != Again
    ensures var bytes, f := |Queued(FlushedBy(id, stream), s.packets)|, FlushCall(s, id, stream, send);
            && id in f.s.chans && bytes <= s.chans[id].readAvail
            && f.s.chans[id].readAvail == s.chans[id].readAvail - bytes
            && f.s.chans[id].packetSize == s.chans[id].packetSize
  {
    hide Queued, Flushable, OfChannel, Others, AdjustCall, Refund, Wrap32;
    ChoicesOfChannel(id, stream, false);
    OthersWithin(FlushedBy(id, stream), Of(id), s.packets);
    var c := FlushScan(s, id, stream).chans[id];
    WrapSmall(c.readAvail - c.flushBytes);
    var c' := c.(readAvail := Wrap32(c.readAvail - c.flushBytes), window := Wrap32(c.window - c.flushBytes));
    AdjustFrame(c', Wrap32(c'.flushRefund), true, send);
    AdjustNotAgain(c', Wrap32(c'.flushRefund), true, send);
  }

  /** A message within credit and packet size is ignored whole or kept whole. */
  lemma DataAvail(s: Session, d: Octets, send: Send, id: U32, credit: nat)
    requires Inv(s) && id in s.chans && send == Sent && s.chans[id].readAvail + credit == s.chans[id].window
    requires PaidBy(Data(d, send), id) <= credit && PaidBy(Data(d, send), id) <= s.chans[id].packetSize
    ensures var e := Data(d, send);
            && id in ArriveCall(s, d, send).chans && SpentBy(s, e, id) <= credit
            && var c, c' := s.chans[id], ArriveCall(s, d, send).chans[id];
            && c'.readAvail == c.readAvail + PaidBy(e, id) - SpentBy(s, e, id) && c'.packetSize == c.packetSize
  {
    hide Load32, Wrap32, AdjustCall;
    var c := s.chans[id];
    WrapSmall(c.window - c.readAvail);
    if DataFor(Data(d, send), id) {
      if Ignored(s, d) {
        var len := SpentBy(s, Data(d, send), id);
        AdjustFrame(c.(window := Wrap32(c.window - len)), Wrap32(len), true, send);
      } else {
        WrapSmall(c.readAvail + PaidBy(Data(d, send), id));
      }
    }
  }

  /** And what it carries arrives. */
  lemma DataCarried(s: Session, d: Octets, send: Send, id: U32, credit: nat, m: Choice)
    requires Inv(s) && id in s.chans && s.chans[id].readAvail + credit == s.chans[id].window
    requires PaidBy(Data(d, send), id) <= credit && PaidBy(Data(d, send), id) <= s.chans[id].packetSize
    requires Within(m, Of(id))
    ensures ArrivedBy(s, Data(d, send), m) == CarriedBy(Data(d, send), id, s.chans[id].mode.Ignore?, m)
  {
    hide Load32, Wrap32, IgnoreData;
    var ps, ps' := s.packets, ArriveCall(s, d, send).packets;
    if !Accepted(s, d) || Ignored(s, d) {
    } else {
      var i := Load32(d, 1);
      var c := s.chans[i];
      if c.window <= c.readAvail {
        assert i == id ==> d[HeadOf(d)..] == [];
      } else {
        KeptPacket(s, d);
        var n := Kept(c, |d| - HeadOf(d));
        var p := Packet(d[..HeadOf(d) + n], HeadOf(d));
        assert ps' == ps + [p] && ps'[|ps|] == p;
        if i == id {
          assert HeadOf(d) + n == |d| && d[..|d|] == d;
        } else {
          assert !OfChannel(id, p.data) && !OfChannel(id, d);
        }
      }
    }
  }

  /** One event: the room left in the window is the credit the peer has left. */
  lemma StepRoom(s: Session, e: Event, id: U32, credit: nat, m: Choice)
    requires Inv(s) && id in s.chans && Ready(s.chans[id]) && SentFor(e, id) && Within(m, Of(id))
    requires s.chans[id].readAvail + credit == s.chans[id].window && Obeys(s, e, id, credit)
    ensures var s' := Apply(s, e);
            && id in s'.chans && s'.chans[id].mode == s.chans[id].mode
            && s'.chans[id].readAvail + CreditAfter(s, e, id, credit) == s'.chans[id].window
            && ArrivedBy(s, e, m) == CarriedBy(e, id, s.chans[id].mode.Ignore?, m)
  {
    hide Apply, ToldBy, SpentBy, Sum, Wrap32, Within, PaidBy, CarriedBy, ArrivedBy;
    StepBooks(s, e, id);
    StepAvail(s, e, id, credit);
    StepKeepsMode(s, e, id);
    var w, spent, told := s.chans[id].window, SpentBy(s, e, id), Sum(ToldBy(s, e, id));
    Exactly(Apply(s, e).chans[id].window, w, spent, told);
    if e.Data? {
      DataCarried(s, e.payload, e.send, id, credit, m);
    } else {
      NothingCarried(s, e, id, s.chans[id].mode.Ignore?, m);
    }
  }

  lemma NothingCarried(s: Session, e: Event, id: U32, ignoring: bool, m: Choice)
    requires AllValid(s.packets) && !e.Data?
    ensures ArrivedBy(s, e, m) == [] && CarriedBy(e, id, ignoring, m) == []
  {
    hide Apply;
  }

  lemma Exactly(w': U32, w: U32, spent: nat, told: nat)
    requires Wrap32(w' + spent) == Wrap32(w + told) && spent <= w && w + told - spent < TWO32
    ensures w' == w + told - spent
  {
    hide Wrap32;
    WrapBoth(w' + spent, w + told, -(spent as int));
    WrapSmall(w');
    WrapSmall(w + told - spent);
  }

  /** The peer's credit after an event. */
  ghost function CreditAfter(s: Session, e: Event, id: U32, credit: nat): nat
    requires Inv(s) && id in s.chans && Obeys(s, e, id, credit)
  {
    credit - PaidBy(e, id) + Sum(ToldBy(s, e, id))
  }

  /** The peer keeps to its credit throughout the run. */
  ghost predicate AllObey(s: Session, es: seq<Event>, id: U32, credit: nat)
    requires Inv(s) && id in s.chans && Ready(s.chans[id]) && AllSentFor(es, id)
    decreases |es|
  {
    if es == [] then true else
      SentUnblocked(es[0], id);
      StepKeepsInv(s, es[0]);
      StepBooks(s, es[0], id);
      Obeys(s, es[0], id, credit) && AllObey(Apply(s, es[0]), es[1..], id, CreditAfter(s, es[0], id, credit))
  }

  function Paid(es: seq<Event>, id: U32): nat { if es == [] then 0 else PaidBy(es[0], id) + Paid(es[1..], id) }

  /** The bytes that the messages of a run carry to the chosen packets of a channel, in order. */
  function Carried(es: seq<Event>, id: U32, ignoring: bool, m: Choice): Octets {
    if es == [] then [] else CarriedBy(es[0], id, ignoring, m) + Carried(es[1..], id, ignoring, m)
  }

  /**
   * Over every run in which the channel's adjustments are sent at once and the peer keeps
   * to its credit and the packet size: the room left in the window is exactly the credit
   * the peer has left, and every byte it sent arrives.
   */
  lemma {:induction false} RunRoom(s: Session, es: seq<Event>, id: U32, credit: nat, m: Choice)
    requires Inv(s) && id in s.chans && Ready(s.chans[id]) && AllSentFor(es, id) && Within(m, Of(id))
    requires s.chans[id].readAvail + credit == s.chans[id].window && AllObey(s, es, id, credit)
    ensures AllUnblocked(es) && id in Run(s, es).chans
    ensures var c := Run(s, es).chans[id];
            c.readAvail + credit + Told(s, es, id) == c.window + Paid(es, id)
    ensures Arrived(s, es, m) == Carried(es, id, s.chans[id].mode.Ignore?, m)
    decreases |es|
  {
    hide Apply, ToldBy, SpentBy, Inv, Sum, Ready, Within, Obeys, PaidBy, CarriedBy, ArrivedBy;
    AllSentUnblocked(es, id);
    if es == [] {
    } else {
      var e, t := es[0], es[1..];
      assert SentFor(e, id);
      InvValid(s);
      StepKeepsInv(s, e);
      StepBooks(s, e, id);
      StepRoom(s, e, id, credit, m);
      RunRoom(Apply(s, e), t, id, CreditAfter(s, e, id, credit), m);
    }
  }

  lemma AllSentUnblocked(es: seq<Event>, id: U32)
    requires AllSentFor(es, id)
    ensures AllUnblocked(es)
  {
    forall i | 0 <= i < |es|
      ensures Unblocked(es[i])
    {
      SentUnblocked(es[i], id);
    }
  }

  /**
   * So nothing is lost between such a peer and the reader: the bytes delivered, then
   * those still queued, are those queued at the start, then those the peer sent.
   */
  lemma NothingLost(s: Session, es: seq<Event>, id: U32, stream: int, credit: nat)
    requires Inv(s) && id in s.chans && Ready(s.chans[id]) && AllSentFor(es, id)
    requires AllLeave(es, id, stream, s.chans[id].mode.Merge?)
    requires s.chans[id].readAvail + credit == s.chans[id].window && AllObey(s, es, id, credit)
    ensures AllUnblocked(es)
    ensures var m := ChoiceOf(s, id, stream);
            Queued(m, s.packets) + Carried(es, id, s.chans[id].mode.Ignore?, m)
            == Delivered(s, es, id, stream) + Queued(m, Run(s, es).packets)
  {
    hide Queued, Wanted, OfChannel, Run, Arrived, Delivered, Inv, Ready, AllObey, Carried, AllLeave, AllSentFor;
    InvValid(s);
    ChoicesOfChannel(id, stream, s.chans[id].mode.Merge?);
    RunRoom(s, es, id, credit, ChoiceOf(s, id, stream));
    RunFifo(s, es, id, stream);
  }
}
