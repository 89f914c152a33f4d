/** Flow control on the receiving side: what is announced to the peer, what is recorded, and how they can differ. */
module ChannelWindow {
  import opened Octets
  import opened ChannelBasics
  import opened ChannelQueue
  import opened ChannelReceive
  import opened ChannelReceiveRuns

  // ----- Adjustments that are sent at once -----

  /** One adjustment whose send goes through: asked for, announced and queued amounts balance. */
  lemma AdjustSent(c: Chan, amount: U32, force: bool)
    requires !c.adjustPending && c.adjustQueue < 1024
    ensures var a := AdjustCall(c, amount, force, Sent);
            && a.rc == 0 && !a.c.adjustPending && a.c.adjustQueue < 1024 && |a.told| <= 1
            && Sum(a.told) + a.c.adjustQueue == Wrap32(amount + c.adjustQueue)
            && a.c.window == Wrap32(c.window + Sum(a.told))
            && (!force && a.told != [] ==> a.told[0] >= 1024)
            && (force || Wrap32(amount + c.adjustQueue) >= 1024 ==> a.c.adjustQueue == 0)
  {
    hide Wrap32, Sum;
    NoSum();
    OneSum(Wrap32(amount + c.adjustQueue));
    WrapSmall(c.window);
    if c.adjustQueue == 0 && amount == 0 {
      WrapSmall(0);
    }
    assert c.adjustQueue + amount == amount + c.adjustQueue;
  }

  datatype Request = Request(amount: U32, force: bool)

  function Asked(rs: seq<Request>): nat { if rs == [] then 0 else rs[0].amount + Asked(rs[1..]) }

  lemma {:induction false} AskedAppend(xs: seq<Request>, ys: seq<Request>)
    ensures Asked(xs + ys) == Asked(xs) + Asked(ys)
  {
    if xs == [] {
      assert [] + ys == ys;
    } else {
      AskedAppend(xs[1..], ys);
      assert (xs + ys)[1..] == xs[1..] + ys;
    }
  }

  /** What was announced for a request, with whether it was forced. */
  function Announced(told: seq<U32>, force: bool): seq<Request> {
    if told == [] then [] else [Request(told[0], force)]
  }

  lemma AnnouncedSum(told: seq<U32>, force: bool)
    requires |told| <= 1
    ensures Asked(Announced(told, force)) == Sum(told)
  {
    if told == [] {
      NoSum();
    } else {
      OneSum(told[0]);
      assert told == [told[0]] && [Request(told[0], force)][1..] == [];
    }
  }

  /** The channel after a run of requests, and what was announced to the peer. */
  datatype Series = Series(c: Chan, told: seq<Request>)

  function Adjusting(c: Chan, rs: seq<Request>): Series
    decreases |rs|
  {
    if rs == [] then Series(c, []) else
      var a := AdjustCall(c, rs[0].amount, rs[0].force, Sent);
      var rest := Adjusting(a.c, rs[1..]);
      Series(rest.c, Announced(a.told, rs[0].force) + rest.told)
  }

  ghost predicate Ample(told: seq<Request>) {
    forall i :: 0 <= i < |told| && !told[i].force ==> told[i].amount >= 1024
  }

  lemma BooksAdd(amount: nat, q: nat, told: nat, q': nat, asked: nat, told': nat, q'': nat)
    requires told + q' == Wrap32(amount + q) && Wrap32(told' + q'') == Wrap32(asked + q')
    ensures Wrap32(told + told' + q'') == Wrap32(amount + asked + q)
  {
    hide Wrap32;
    WrapBoth(told' + q'', asked + q', told);
    WrapAdd(asked, amount + q);
    assert told' + q'' + told == told + told' + q'';
    assert asked + q' + told == asked + (told + q');
    assert asked + (amount + q) == amount + asked + q;
  }

  /**
   * Over every run of adjustments that are sent at once: what was asked for is what was
   * announced plus what is still queued, exactly while it stays below 2^32 and modulo
   * 2^32 in any case; the window grew by what was announced; the queue stays below 1024;
   * and every announcement that was not forced is of 1024 at least.
   */
  lemma {:induction false} AdjustRun(c: Chan, rs: seq<Request>)
    requires !c.adjustPending && c.adjustQueue < 1024
    ensures var a := Adjusting(c, rs);
            && !a.c.adjustPending && a.c.adjustQueue < 1024 && Ample(a.told)
            && Wrap32(Asked(a.told) + a.c.adjustQueue) == Wrap32(Asked(rs) + c.adjustQueue)
            && (Asked(rs) + c.adjustQueue < TWO32 ==> Asked(a.told) + a.c.adjustQueue == Asked(rs) + c.adjustQueue)
            && a.c.window == Wrap32(c.window + Asked(a.told))
    decreases |rs|
  {
    hide AdjustCall, Wrap32, Sum, Asked, Ample, Adjusting;
    if rs == [] {
      NoRequests(c);
      WrapSmall(c.window);
    } else {
      var r, t := rs[0], rs[1..];
      AdjustSent(c, r.amount, r.force);
      var a := AdjustCall(c, r.amount, r.force, Sent);
      AdjustRun(a.c, t);
      AdjustingStep(c, rs);
      var rest, now := Adjusting(a.c, t), Announced(a.told, r.force);
      AnnouncedSum(a.told, r.force);
      AskedAppend(now, rest.told);
      AmpleAppend(a.told, r.force, rest.told);
      BooksAdd(r.amount, c.adjustQueue, Sum(a.told), a.c.adjustQueue, Asked(t), Asked(rest.told), rest.c.adjustQueue);
      WrapAdd(Asked(rest.told), c.window + Sum(a.told));
      assert Asked(rest.told) + (c.window + Sum(a.told)) == c.window + Asked(now + rest.told);
      if Asked(rs) + c.adjustQueue < TWO32 {
        WrapSmall(r.amount + c.adjustQueue);
      }
    }
  }

  lemma NoRequests(c: Chan)
    ensures Adjusting(c, []) == Series(c, []) && Asked([]) == 0 && Ample([])
  {}

  lemma AdjustingStep(c: Chan, rs: seq<Request>)
    requires rs != []
    ensures var a := AdjustCall(c, rs[0].amount, rs[0].force, Sent);
            var rest := Adjusting(a.c, rs[1..]);
            && Adjusting(c, rs) == Series(rest.c, Announced(a.told, rs[0].force) + rest.told)
            && Asked(rs) == rs[0].amount + Asked(rs[1..])
  {
    hide AdjustCall;
  }

  lemma AmpleAppend(told: seq<U32>, force: bool, rest: seq<Request>)
    requires Ample(rest) && (!force && told != [] ==> told[0] >= MINADJUST)
    ensures Ample(Announced(told, force) + rest)
  {}

  // ----- Adjustments that are not -----

  /**
   * An adjustment that would block, retried: the peer is told the sum encoded first, the
   * window records the retry's argument. The two agree if and only if the argument is
   * that sum; with the same argument both times, if and only if nothing was queued.
   */
  lemma AdjustRetried(c: Chan, first: U32, force: bool, again: U32, force': bool)
    requires !c.adjustPending && AdjustCall(c, first, force, Again).rc == ERROR_EAGAIN
    ensures var a := AdjustCall(AdjustCall(c, first, force, Again).c, again, force', Sent);
            && a.rc == 0 && a.told == [Wrap32(first + c.adjustQueue)] && a.c.window == Wrap32(c.window + again)
            && (a.c.window == Wrap32(c.window + a.told[0]) <==> again == Wrap32(first + c.adjustQueue))
            && (again == first ==> (a.c.window == Wrap32(c.window + a.told[0]) <==> c.adjustQueue == 0))
  {
    var a := AdjustCall(AdjustCall(c, first, force, Again).c, again, force', Sent);
    WrapCancels(c.window, again, a.told[0]);
    if again == first {
      WrapCancels(first, 0, c.adjustQueue);
    }
  }

  lemma WrapCancels(w: U32, x: U32, y: U32)
    ensures Wrap32(w + x) == Wrap32(w + y) <==> x == y
  {}

  /**
   * After a send error the amount is queued and still pending. The next call announces
   * it, and records what it announces if and only if its own argument is that amount;
   * and as it leaves the amount queued, the call after that announces it again.
   */
  lemma AdjustFailed(c: Chan, first: U32, force: bool, failed: Send, next: U32, force': bool, third: U32)
    requires failed.Failed? && !c.adjustPending && AdjustCall(c, first, force, failed).rc == ERROR_SOCKET_SEND
    ensures var amount := Wrap32(first + c.adjustQueue);
            var b := AdjustCall(AdjustCall(c, first, force, failed).c, next, force', Sent);
            var d := AdjustCall(b.c, third, true, Sent);
            && b.told == [amount] && b.c.adjustQueue == amount && b.c.window == Wrap32(c.window + next)
            && (b.c.window == Wrap32(c.window + amount) <==> next == amount)
            && Sum(d.told) == Wrap32(third + amount) && d.c.window == Wrap32(b.c.window + Sum(d.told))
  {
    hide Wrap32, Sum;
    var amount := Wrap32(first + c.adjustQueue);
    WrapCancels(c.window, next, amount);
    var b := AdjustCall(AdjustCall(c, first, force, failed).c, next, force', Sent);
    ForcedTold(b.c, third);
  }

  /**
   * Data that a channel ignores, where giving its bytes back would block and is taken up
   * again: the code then gives back the whole message, though it may have taken off no
   * more than there was room for. The window records what is announced if and only if
   * the message's length is what was taken off and queued.
   */
  lemma IgnoreRetried(c: Chan, d: Octets)
    requires !c.adjustPending && |d| >= 13 && IgnoreData(c, d, Again).rc == ERROR_EAGAIN
    ensures var len := if c.readAvail + |d| - 13 >= c.window then Wrap32(c.window - c.readAvail) else |d| - 13;
            var a := AdjustCall(IgnoreData(c, d, Again).c, Wrap32(|d| - 13), true, Sent);
            && a.rc == 0 && a.told == [Wrap32(Wrap32(len) + c.adjustQueue)]
            && a.c.window == Wrap32(Wrap32(c.window - len) + Wrap32(|d| - 13))
            && (a.c.window == Wrap32(Wrap32(c.window - len) + a.told[0]) <==> Wrap32(|d| - 13) == a.told[0])
  {
    hide AdjustCall, Wrap32;
    var len := if c.readAvail + |d| - 13 >= c.window then Wrap32(c.window - c.readAvail) else |d| - 13;
    AdjustRetried(c.(window := Wrap32(c.window - len)), Wrap32(len), true, Wrap32(|d| - 13), true);
  }

  // ----- Reads -----

  /** No call is pending, and the window holds what is queued. */
  predicate Calm(c: Chan) {
    && c.readAvail <= c.window && c.adjustQueue < MINADJUST && c.window + c.adjustQueue < TWO32
    && !c.adjustPending && !c.readPending
  }

  ghost predicate AllCalm(s: Session) { Inv(s) && forall id :: id in s.chans ==> Calm(s.chans[id]) }

  function Max(a: nat, b: nat): nat { if a < b then b else a }

  /** The most a window is widened to. */
  function Ceiling(c: Chan, buflen: nat): nat { c.initial + buflen + 2 * MINADJUST - 1 }

  /**
   * The widening before a read: below three quarters of the initial window plus the buffer,
   * the window becomes the initial one plus the buffer, or grows by 1024 if that is more,
   * and by what was queued; and exactly that is announced.
   */
  lemma ExpandWindow(c: Chan, buflen: nat)
    requires Calm(c) && Ceiling(c, buflen) < TWO32
    ensures var a := ExpandCall(c, buflen, Sent);
            && a.rc == 0 && Calm(a.c) && a.c.initial == c.initial && a.c.mode == c.mode && a.c.readAvail == c.readAvail
            && Threshold(c, buflen) <= a.c.window
            && (if c.window < c.initial / 4 * 3 + buflen then
                  && a.c.window == Max(c.initial + buflen, c.window + 1024) + c.adjustQueue && a.c.adjustQueue == 0
                  && a.c.window <= c.initial + buflen + 2047 && Sum(a.told) == a.c.window - c.window
                else a.c.window == c.window && a.c.adjustQueue == c.adjustQueue && a.told == [])
  {
    hide AdjustCall, Wrap32, Sum;
    if c.window < Threshold(c, buflen) {
      WrapSmall(c.initial + buflen - c.window);
      var lack := Wrap32(c.initial + buflen - c.window);
      var amount := if lack < MINADJUST then MINADJUST else lack;
      var c1 := c.(readPending := true);
      AdjustSent(c1, amount, false);
      AdjustFrame(c1, amount, false, Sent);
      WrapSmall(amount + c.adjustQueue);
      WrapSmall(c.window + amount + c.adjustQueue);
    }
  }

  /**
   * A widening that blocks is taken up by the next read, whatever the window has become
   * by then: what was encoded first goes out, and only then is anything read.
   */
  lemma ExpandRetried(c: Chan, buflen: nat, again: nat)
    requires Calm(c) && Ceiling(c, buflen) < TWO32 && c.window < c.initial / 4 * 3 + buflen
    ensures var a := ExpandCall(c, buflen, Again);
            && a.rc == -37 && a.told == [] && a.c.readPending && a.c.window == c.window
            && var b := ExpandCall(a.c, again, Sent);
            b.rc == 0 && !b.c.readPending && !b.c.adjustPending
            && b.told == [Max(c.initial + buflen - c.window, 1024) + c.adjustQueue]
  {
    hide Wrap32;
    WrapSmall(c.initial + buflen - c.window);
    var lack := Max(c.initial + buflen - c.window, 1024);
    WrapSmall(lack + c.adjustQueue);
  }

  /** Data that a channel ignores leaves its window, and whatever was queued for it is added. */
  lemma IgnoreWindow(c: Chan, d: Octets)
    requires Calm(c) && |d| >= 13
    ensures var c' := IgnoreData(c, d, Sent).c;
            && Calm(c') && c'.initial == c.initial && c'.mode == c.mode && c'.readAvail == c.readAvail
            && c'.window == c.window + c.adjustQueue && c'.adjustQueue == 0
  {
    hide AdjustCall, Wrap32;
    WrapSmall(c.window - c.readAvail);
    var len := if c.readAvail + |d| - 13 >= c.window then Wrap32(c.window - c.readAvail) else |d| - 13;
    WrapSmall(c.window - len);
    WrapSmall(len);
    var c1 := c.(window := Wrap32(c.window - len));
    AdjustSent(c1, len, true);
    AdjustFrame(c1, len, true, Sent);
    WrapSmall(len + c.adjustQueue);
    WrapSmall(c.window + c.adjustQueue);
  }

  /** A run of data messages, each adjustment they cause being sent at once. */
  function ArriveAll(s: Session, ds: seq<Octets>): Session
    decreases |ds|
  {
    if ds == [] then s else ArriveAll(ArriveCall(s, ds[0], Sent), ds[1..])
  }

  /** What arrivals may do to a channel's window. */
  predicate Settled(c: Chan, c': Chan) {
    && Calm(c') && c'.initial == c.initial && c'.mode == c.mode
    && if c.mode.Ignore? then c.window <= c'.window && c'.window + c'.adjustQueue == c.window + c.adjustQueue
       else c'.window == c.window && c'.adjustQueue == c.adjustQueue
  }

  lemma ArriveSettles(s: Session, d: Octets)
    requires AllCalm(s)
    ensures var s' := ArriveCall(s, d, Sent);
            AllCalm(s') && s'.chans.Keys == s.chans.Keys
            && forall id :: id in s.chans ==> Settled(s.chans[id], s'.chans[id])
  {
    hide Inv, IgnoreData, Kept, Load32;
    ArriveKeepsInv(s, d, Sent);
    if Accepted(s, d) {
      var c := s.chans[Load32(d, 1)];
      if c.mode.Ignore? && d[0] == MSG_EXTENDED_DATA {
        IgnoreWindow(c, d);
      } else if c.readAvail < c.window {
        KeptPacket(s, d);
      }
    }
  }

  lemma {:induction false} ArrivalsSettle(s: Session, ds: seq<Octets>)
    requires AllCalm(s)
    ensures var s' := ArriveAll(s, ds);
            AllCalm(s') && s'.chans.Keys == s.chans.Keys
            && forall id :: id in s.chans ==> Settled(s.chans[id], s'.chans[id])
    decreases |ds|
  {
    hide ArriveCall, Inv;
    if ds == [] {
    } else {
      ArriveSettles(s, ds[0]);
      ArrivalsSettle(ArriveCall(s, ds[0], Sent), ds[1..]);
    }
  }

  function Expanded(s: Session, id: U32, buflen: nat): Session
    requires id in s.chans
  {
    s.(chans := s.chans[id := ExpandCall(s.chans[id], buflen, Sent).c])
  }

  /** What is queued for a read beforehand, as far as the read has room. */
  function Ahead(s: Session, id: U32, stream: int, buflen: nat): nat
    requires id in s.chans && AllValid(s.packets)
  {
    var n := |Queued(ChoiceOf(s, id, stream), s.packets)|;
    if buflen < n then buflen else n
  }

  /** On a channel that ignores extended data, queued adjustments may carry a read past its ceiling. */
  predicate Overruns(s: Session, id: U32, stream: int, buflen: nat)
    requires id in s.chans && AllValid(s.packets)
  {
    var c := s.chans[id];
    && c.mode.Ignore? && Threshold(c, buflen) <= c.window
    && c.window + c.adjustQueue > Max(c.window, Ceiling(c, buflen)) + Ahead(s, id, stream, buflen)
  }

  /** The bounds a read keeps to. */
  ghost predicate Bounded(s: Session, id: U32, stream: int, buflen: nat, window: nat)
    requires id in s.chans && AllValid(s.packets)
  {
    var c := s.chans[id];
    && c.initial / 4 * 3 <= window
    && window <= if Overruns(s, id, stream, buflen) then c.window + c.adjustQueue - Ahead(s, id, stream, buflen)
                 else Max(c.window, Ceiling(c, buflen))
  }

  lemma ExpandCalm(s: Session, id: U32, buflen: nat)
    requires AllCalm(s) && id in s.chans && Ceiling(s.chans[id], buflen) < TWO32
    ensures AllCalm(Expanded(s, id, buflen))
  {
    hide ExpandCall, Inv;
    InvAt(s, id);
    ExpandWindow(s.chans[id], buflen);
    ExpandFrame(s.chans[id], buflen, Sent);
    SetChanKeepsInv(s, id, ExpandCall(s.chans[id], buflen, Sent).c);
  }

  /** Taking bytes takes them off the window and the count alike, and neither runs below zero. */
  lemma TakeCalm(s: Session, id: U32, stream: int, buflen: nat)
    requires AllCalm(s) && id in s.chans
    ensures var s' := TakeCall(s, id, stream, buflen);
            && AllCalm(s') && s'.chans.Keys == s.chans.Keys
            && |Taken(s, id, stream, buflen)| <= buflen
            && s'.chans[id].window + |Taken(s, id, stream, buflen)| == s.chans[id].window
            && s'.chans[id].initial == s.chans[id].initial && s'.chans[id].mode == s.chans[id].mode
            && forall other :: other in s.chans && other != id ==> s'.chans[other] == s.chans[other]
  {
    hide Drain, Queued, Wanted, OfChannel;
    var r := ChoiceOf(s, id, stream);
    ChoicesOfChannel(id, stream, s.chans[id].mode.Merge?);
    DrainWithin(r, Of(id), s.packets, buflen);
    DrainAmount(r, s.packets, buflen);
    TakeKeepsInv(s, id, stream, buflen);
  }

  /** A whole call of `_libssh2_channel_read` whose adjustment goes out at once: widen, let data in, take. */
  ghost function ReadCall(s: Session, id: U32, stream: int, buflen: nat, ds: seq<Octets>): Session
    requires AllCalm(s) && id in s.chans && Ceiling(s.chans[id], buflen) < TWO32
  {
    ExpandCalm(s, id, buflen);
    var s1 := Expanded(s, id, buflen);
    ArrivalsSettle(s1, ds);
    TakeCall(ArriveAll(s1, ds), id, stream, buflen)
  }

  /** Arrivals only add to what is queued. */
  lemma {:induction false} QueueGrows(s: Session, ds: seq<Octets>, m: Choice)
    requires AllCalm(s)
    ensures AllCalm(ArriveAll(s, ds)) && |Queued(m, ArriveAll(s, ds).packets)| >= |Queued(m, s.packets)|
    decreases |ds|
  {
    hide ArriveCall, Queued, Calm;
    if ds == [] {
    } else {
      ArriveSettles(s, ds[0]);
      DataStepFifo(s, ds[0], Sent, m);
      QueueGrows(ArriveCall(s, ds[0], Sent), ds[1..], m);
    }
  }

  /** Taking leaves what was there less what was asked for and found. */
  lemma TakenAmount(s: Session, id: U32, stream: int, buflen: nat)
    requires id in s.chans && AllValid(s.packets)
    ensures |Taken(s, id, stream, buflen)| == Ahead(s, id, stream, buflen)
  {
    hide Drain, Queued;
    DrainAmount(ChoiceOf(s, id, stream), s.packets, buflen);
  }

  /** Arrivals after widening leave at least as much to take as there was before. */
  lemma AheadGrows(s: Session, id: U32, stream: int, buflen: nat, ds: seq<Octets>)
    requires AllCalm(s) && id in s.chans && Ceiling(s.chans[id], buflen) < TWO32
    ensures var s2 := ArriveAll(Expanded(s, id, buflen), ds);
            AllCalm(s2) && id in s2.chans && Ahead(s2, id, stream, buflen) >= Ahead(s, id, stream, buflen)
  {
    hide ExpandCall, ArriveAll, Queued, Inv, Calm;
    ExpandCalm(s, id, buflen);
    ExpandWindow(s.chans[id], buflen);
    var s1 := Expanded(s, id, buflen);
    ArrivalsSettle(s1, ds);
    QueueGrows(s1, ds, ChoiceOf(s, id, stream));
  }

  /**
   * After each read the window is at least three quarters of the initial one, and at most
   * what a read widens it to or what it was, unless the read overruns; every channel
   * stays calm.
   */
  lemma ReadKeepsWindow(s: Session, id: U32, stream: int, buflen: nat, ds: seq<Octets>)
    requires AllCalm(s) && id in s.chans && Ceiling(s.chans[id], buflen) < TWO32
    ensures var s' := ReadCall(s, id, stream, buflen, ds);
            && AllCalm(s') && s'.chans.Keys == s.chans.Keys
            && Bounded(s, id, stream, buflen, s'.chans[id].window)
            && forall other :: other in s.chans ==> s'.chans[other].initial == s.chans[other].initial
  {
    hide TakeCall, ArriveAll, ExpandCall, Inv, Calm, Ahead, Taken, Bounded;
    InvAt(s, id);
    var c := s.chans[id];
    ExpandCalm(s, id, buflen);
    ExpandWindow(c, buflen);
    var s1 := Expanded(s, id, buflen);
    ArrivalsSettle(s1, ds);
    AheadGrows(s, id, stream, buflen, ds);
    var s2 := ArriveAll(s1, ds);
    InvAt(s2, id);
    TakeCalm(s2, id, stream, buflen);
    TakenAmount(s2, id, stream, buflen);
    Settles(s, id, stream, buflen, s1.chans[id], s2.chans[id], Ahead(s2, id, stream, buflen));
  }

  /** The window a read ends with, from the one after widening, the one after arrivals and what was taken. */
  lemma Settles(s: Session, id: U32, stream: int, buflen: nat, c1: Chan, c2: Chan, taken: nat)
    requires id in s.chans && AllValid(s.packets) && Threshold(s.chans[id], buflen) <= c1.window
    requires var c := s.chans[id];
             if c.window < Threshold(c, buflen) then c1.window <= Ceiling(c, buflen) && c1.adjustQueue == 0
             else c1.window == c.window && c1.adjustQueue == c.adjustQueue
    requires c1.mode == s.chans[id].mode && Settled(c1, c2)
    requires Ahead(s, id, stream, buflen) <= taken <= buflen
    ensures taken <= c2.window && Bounded(s, id, stream, buflen, c2.window - taken)
  {
    hide Ahead, Calm;
  }

  /** The least there is of extended data for a channel. */
  function Notice(id: U32): Octets { [MSG_EXTENDED_DATA] + Store32(id) + [0, 0, 0, 1, 0, 0, 0, 0] }

  lemma NoticeFor(id: U32)
    ensures var d := Notice(id);
            |d| == 13 && d[0] == MSG_EXTENDED_DATA && Load32(d, 1) == id && IsData(d) && HeadOf(d) == 13
  {
    var d := Notice(id);
    assert d[1..5] == Store32(id);
    LoadStored(id, d, 1);
  }

  /** Where a read overruns, one empty message of extended data is enough to carry it all the way. */
  lemma OverrunHappens(s: Session, id: U32, stream: int, buflen: nat)
    requires AllCalm(s) && id in s.chans && Ceiling(s.chans[id], buflen) < TWO32
    requires Overruns(s, id, stream, buflen)
    ensures ReadCall(s, id, stream, buflen, [Notice(id)]).chans[id].window
            == s.chans[id].window + s.chans[id].adjustQueue - Ahead(s, id, stream, buflen)
  {
    hide AdjustCall, Queued, Drain, Load32, Wrap32, Notice, Store32, Inv, IgnoreData;
    var c, d := s.chans[id], Notice(id);
    NoticeFor(id);
    ExpandCalm(s, id, buflen);
    assert Expanded(s, id, buflen) == s by { assert s.chans[id := c] == s.chans; }
    ArrivalsSettle(s, [d]);
    var s2 := ArriveCall(s, d, Sent);
    assert ArriveAll(s, [d]) == s2 by { OneArrival(s, d); }
    IgnoreWindow(c, d);
    assert s2 == s.(chans := s.chans[id := IgnoreData(c, d, Sent).c]);
    assert ChoiceOf(s2, id, stream) == ChoiceOf(s, id, stream);
    InvAt(s2, id);
    TakenAmount(s2, id, stream, buflen);
    TakeCalm(s2, id, stream, buflen);
  }

  lemma OneArrival(s: Session, d: Octets)
    ensures ArriveAll(s, [d]) == ArriveCall(s, d, Sent)
  {
    hide ArriveCall;
    assert [d][1..] == [];
  }

  /**
   * Whatever arrives meanwhile, a read leaves the window at most what it was or what a
   * read widens it to, if and only if it does not overrun, which can be seen beforehand.
   */
  lemma WithinCeilingIff(s: Session, id: U32, stream: int, buflen: nat)
    requires AllCalm(s) && id in s.chans && Ceiling(s.chans[id], buflen) < TWO32
    ensures (forall ds :: ReadCall(s, id, stream, buflen, ds).chans[id].window
                          <= Max(s.chans[id].window, Ceiling(s.chans[id], buflen)))
            <==> !Overruns(s, id, stream, buflen)
  {
    InvAt(s, id);
    hide ReadCall, Ahead, AllCalm;
    if Overruns(s, id, stream, buflen) {
      OverrunHappens(s, id, stream, buflen);
    } else {
      forall ds
        ensures id in ReadCall(s, id, stream, buflen, ds).chans
        ensures ReadCall(s, id, stream, buflen, ds).chans[id].window
                <= Max(s.chans[id].window, Ceiling(s.chans[id], buflen))
      {
        ReadKeepsWindow(s, id, stream, buflen, ds);
      }
    }
  }

  /** A channel opened with a window of 1000, widened by force to a million, with 500 more queued. */
  function Widened(packetSize: U32): Chan {
    var c := AdjustCall(NewChan(1000, packetSize, Ignore), 999000, true, Sent).c;
    AdjustCall(c, 500, false, Sent).c
  }

  /** An input for which a read of ten bytes overruns: the window ends at 1000500. */
  lemma OverrunInput(id: U32, packetSize: U32)
    ensures var s := Session([], map[id := Widened(packetSize)]);
            && AllCalm(s) && Overruns(s, id, 0, 10)
            && ReadCall(s, id, 0, 10, [Notice(id)]).chans[id].window == 1000500
  {
    hide Notice, Load32, ReadCall;
    var c := Widened(packetSize);
    var s := Session([], map[id := c]);
    assert c.window == 1000000 && c.adjustQueue == 500 && c.initial == 1000 && c.readAvail == 0;
    assert Calm(c) && c.mode.Ignore?;
    assert Queued(Of(id), s.packets) == [] && Queued(ChoiceOf(s, id, 0), s.packets) == [];
    OverrunHappens(s, id, 0, 10);
  }

  datatype Reading = Reading(id: U32, stream: int, buflen: nat, arrivals: seq<Octets>)

  /** The sessions a run of reads, on whatever channels, goes through. */
  ghost function Sessions(s: Session, rs: seq<Reading>): seq<Session>
    requires AllCalm(s) && forall i :: 0 <= i < |rs| ==> Fits(s, rs[i])
    decreases |rs|
  {
    if rs == [] then [s] else
      var r := rs[0];
      assert Fits(s, r);
      OthersStillFit(s, rs);
      [s] + Sessions(ReadCall(s, r.id, r.stream, r.buflen, r.arrivals), rs[1..])
  }

  predicate Fits(s: Session, r: Reading) { r.id in s.chans && Ceiling(s.chans[r.id], r.buflen) < TWO32 }

  lemma OthersStillFit(s: Session, rs: seq<Reading>)
    requires AllCalm(s) && rs != [] && Fits(s, rs[0]) && forall i :: 0 <= i < |rs| ==> Fits(s, rs[i])
    ensures var r := rs[0];
            var s' := ReadCall(s, r.id, r.stream, r.buflen, r.arrivals);
            AllCalm(s') && forall i :: 0 <= i < |rs| - 1 ==> Fits(s', rs[1..][i])
  {
    hide ReadCall, AllCalm, Bounded;
    var r := rs[0];
    ReadKeepsWindow(s, r.id, r.stream, r.buflen, r.arrivals);
    var s' := ReadCall(s, r.id, r.stream, r.buflen, r.arrivals);
    forall i | 0 <= i < |rs| - 1
      ensures Fits(s', rs[1..][i])
    {
      assert Fits(s, rs[i + 1]);
    }
  }

  ghost predicate ReadWell(r: Reading, before: Session, after: Session) {
    && AllCalm(before) && AllCalm(after) && r.id in before.chans && r.id in after.chans
    && Bounded(before, r.id, r.stream, r.buflen, after.chans[r.id].window)
  }

  /** Throughout any run of reads, every read leaves its channel's window within bounds. */
  lemma {:induction false} ReadsKeepWindows(s: Session, rs: seq<Reading>)
    requires AllCalm(s) && forall i :: 0 <= i < |rs| ==> Fits(s, rs[i])
    ensures |Sessions(s, rs)| == |rs| + 1 && Sessions(s, rs)[0] == s
    ensures forall i :: 0 <= i < |rs| ==> ReadWell(rs[i], Sessions(s, rs)[i], Sessions(s, rs)[i + 1])
    decreases |rs|
  {
    hide ReadCall, AllCalm, Bounded;
    if rs == [] {
    } else {
      var r, t := rs[0], rs[1..];
      assert Fits(s, r);
      ReadKeepsWindow(s, r.id, r.stream, r.buflen, r.arrivals);
      var s' := ReadCall(s, r.id, r.stream, r.buflen, r.arrivals);
      OthersStillFit(s, rs);
      ReadsKeepWindows(s', t);
      var all, rest := Sessions(s, rs), Sessions(s', t);
      assert all == [s] + rest;
      forall i | 0 <= i < |rs|
        ensures ReadWell(rs[i], all[i], all[i + 1])
      {
        if i == 0 {
          assert all[1] == rest[0] == s';
        } else {
          assert ReadWell(t[i - 1], rest[i - 1], rest[i]);
        }
      }
    }
  }

  // ----- Flushes -----

  /** A flush that would block, called again and again: `k` calls that block. */
  ghost function Blocked(s: Session, id: U32, stream: int, k: nat): (s': Session)
    requires id in s.chans && AllValid(s.packets)
    ensures id in s'.chans && AllValid(s'.packets)
  {
    if k == 0 then s else
      var s' := Blocked(s, id, stream, k - 1);
      OthersValid(FlushedBy(id, stream), s'.packets);
      FlushCall(s', id, stream, Again).s
  }

  lemma {:induction false} OthersValid(r: Choice, ps: seq<Packet>)
    requires AllValid(ps)
    ensures AllValid(Others(r, ps))
  {
    if ps == [] {
    } else {
      OthersValid(r, ps[1..]);
    }
  }

  /** What a flush asks to have given back, as the adjustment it passes on. */
  function RefundOf(s: Session, id: U32, stream: int): U32 {
    Wrap32(Refund(FlushedBy(id, stream), s.packets) % TWO64)
  }

  /** The state that a flush with `k` blocked calls behind it is in. */
  ghost predicate StillBlocked(s: Session, s': Session, id: U32, stream: int, k: nat)
    requires id in s.chans && AllValid(s.packets)
  {
    var r := FlushedBy(id, stream);
    var bytes, c := |Queued(r, s.packets)|, s.chans[id];
    && id in s'.chans && s'.packets == Others(r, s.packets)
    && var c' := s'.chans[id];
    && c'.flushPending && c'.adjustPending && c'.flushBytes == bytes
    && c'.flushRefund == Refund(r, s.packets) % TWO64 && c'.flushRefund != 0
    && c'.readAvail == Wrap32(c.readAvail - k * bytes)
    && c'.window == Wrap32(c.window - k * bytes)
    && (!c.adjustPending ==> c'.adjustPacket == Wrap32(RefundOf(s, id, stream) + c.adjustQueue))
  }

  /** A forced adjustment that blocks: pending afterwards, with the amount encoded once. */
  lemma AgainLeavesPending(c: Chan, amount: U32)
    ensures var a := AdjustCall(c, amount, true, Again);
            if c.adjustPending then a.c == c && a.rc == ERROR_EAGAIN
            else a.rc == ERROR_EAGAIN ==>
                   a.c == c.(adjustQueue := 0, adjustPending := true, adjustPacket := Wrap32(amount + c.adjustQueue))
  {
    hide Wrap32;
  }

  lemma {:induction false} BlockedState(s: Session, id: U32, stream: int, k: nat)
    requires Inv(s) && id in s.chans && k > 0
    requires FlushCall(s, id, stream, Again).rc == ERROR_EAGAIN
    ensures StillBlocked(s, Blocked(s, id, stream, k), id, stream, k)
  {
    hide Queued, Flushable, Others, AdjustCall, Refund, Wrap32;
    var bytes := |Queued(FlushedBy(id, stream), s.packets)|;
    var s' := Blocked(s, id, stream, k - 1);
    var c := FlushScan(s', id, stream).chans[id];
    if k == 1 {
    } else {
      BlockedState(s, id, stream, k - 1);
      WrapAdd(-bytes, s.chans[id].readAvail - (k - 1) * bytes);
      WrapAdd(-bytes, s.chans[id].window - (k - 1) * bytes);
      assert k * bytes == (k - 1) * bytes + bytes;
    }
    var c' := c.(readAvail := Wrap32(c.readAvail - c.flushBytes), window := Wrap32(c.window - c.flushBytes));
    AgainLeavesPending(c', Wrap32(c'.flushRefund));
  }

  /** A pending adjustment that is sent: the argument is recorded, the amount encoded before announced. */
  lemma PendingSent(c: Chan, amount: U32)
    requires c.adjustPending
    ensures AdjustCall(c, amount, true, Sent)
            == Adjusted(c.(window := Wrap32(c.window + amount), adjustPending := false), 0, [c.adjustPacket])
  {
    hide Wrap32;
  }

  /** The state after the blocked calls and one that goes through. */
  lemma FlushFinishes(s: Session, id: U32, stream: int, k: nat)
    requires Inv(s) && id in s.chans && k > 0
    requires FlushCall(s, id, stream, Again).rc == ERROR_EAGAIN
    ensures var bytes := |Queued(FlushedBy(id, stream), s.packets)|;
            var f := FlushCall(Blocked(s, id, stream, k), id, stream, Sent);
            && id in f.s.chans && f.s.packets == Others(FlushedBy(id, stream), s.packets)
            && f.s.chans[id].readAvail == Wrap32(s.chans[id].readAvail - k * bytes - bytes)
            && f.s.chans[id].window == Wrap32(s.chans[id].window - k * bytes - bytes + RefundOf(s, id, stream))
            && (!s.chans[id].adjustPending ==>
                  f.told == [Wrap32(RefundOf(s, id, stream) + s.chans[id].adjustQueue)])
  {
    hide Queued, Flushable, Others, AdjustCall, Refund, Wrap32, Blocked;
    BlockedState(s, id, stream, k);
    var bytes, refund := |Queued(FlushedBy(id, stream), s.packets)|, RefundOf(s, id, stream);
    var c := Blocked(s, id, stream, k).chans[id];
    var c' := c.(readAvail := Wrap32(c.readAvail - c.flushBytes), window := Wrap32(c.window - c.flushBytes));
    PendingSent(c', refund);
    WrapAdd(-bytes, s.chans[id].readAvail - k * bytes);
    WrapAdd(-bytes, s.chans[id].window - k * bytes);
    WrapAdd(refund, s.chans[id].window - k * bytes - bytes);
  }

  /**
   * A flush that blocked `k` times before it went through has made its deductions `k`
   * times too often. The cached count is right if and only if that made no difference;
   * the window agrees with what was announced if and only if those deductions, and what
   * was queued and announced but not recorded, made none.
   */
  lemma FlushRetried(s: Session, id: U32, stream: int, k: nat)
    requires Inv(s) && id in s.chans && k > 0
    requires FlushCall(s, id, stream, Again).rc == ERROR_EAGAIN
    ensures var bytes := |Queued(FlushedBy(id, stream), s.packets)|;
            var c, refund := s.chans[id], RefundOf(s, id, stream);
            var f := FlushCall(Blocked(s, id, stream, k), id, stream, Sent);
            && AllValid(f.s.packets) && id in f.s.chans
            && var c' := f.s.chans[id];
            && c'.readAvail == Wrap32(Scanned(f.s, id) - k * bytes)
            && (c'.readAvail == Scanned(f.s, id) <==> (k * bytes) % TWO32 == 0)
            && (!c.adjustPending ==>
                  && f.told == [Wrap32(refund + c.adjustQueue)]
                  && c'.window == Wrap32(c.window - (k + 1) * bytes + refund)
                  && (Wrap32(c'.window + bytes) == Wrap32(c.window + Sum(f.told))
                      <==> (k * bytes + c.adjustQueue) % TWO32 == 0))
  {
    hide Queued, Flushable, Others, AdjustCall, Refund, Wrap32, Blocked, FlushCall, Sum;
    var r := FlushedBy(id, stream);
    var bytes, c, refund := |Queued(r, s.packets)|, s.chans[id], RefundOf(s, id, stream);
    FlushFinishes(s, id, stream, k);
    ChoicesOfChannel(id, stream, false);
    OthersWithin(r, Of(id), s.packets);
    WrapLess(c.readAvail - bytes, k * bytes);
    assert (k + 1) * bytes == k * bytes + bytes;
    if !c.adjustPending {
      OneSum(Wrap32(refund + c.adjustQueue));
      RetriedBooks(c.window, k * bytes, bytes, refund, c.adjustQueue);
    }
  }

  /** The books of a retried flush: `lost` was deducted too often, `queue` announced but not recorded. */
  lemma RetriedBooks(w: U32, lost: nat, bytes: nat, refund: U32, queue: U32)
    ensures Wrap32(Wrap32(w - lost - bytes + refund) + bytes) == Wrap32(w + Wrap32(refund + queue))
            <==> (lost + queue) % TWO32 == 0
  {
    hide Wrap32;
    var x := w + refund - lost;
    WrapAdd(bytes, w - lost - bytes + refund);
    WrapAdd(w, refund + queue);
    assert bytes + (w - lost - bytes + refund) == x;
    assert w + (refund + queue) == x + (lost + queue);
    WrapMoves(x, lost + queue);
  }

  lemma WrapMoves(x: int, y: nat)
    ensures Wrap32(x) == Wrap32(x + y) <==> y % TWO32 == 0
  {
    hide Wrap32;
    WrapAdd(y, x);
    WrapPlus(Wrap32(x), y);
  }

  lemma WrapLess(x: U32, y: nat)
    ensures Wrap32(x - y) == x <==> y % TWO32 == 0
  {}

  /** How much further into the flushed packets reading has got than thirteen bytes each. */
  function HeadSum(r: Choice, ps: seq<Packet>): int {
    if ps == [] then 0 else (if r(ps[0].data) then ps[0].head - 13 else 0) + HeadSum(r, ps[1..])
  }

  lemma {:induction false} RefundSplits(r: Choice, ps: seq<Packet>)
    requires AllValid(ps)
    ensures Refund(r, ps) == |Queued(r, ps)| + HeadSum(r, ps)
  {
    if ps == [] {
    } else {
      RefundSplits(r, ps[1..]);
    }
  }

  /**
   * A flush hands the peer back exactly the bytes it threw away, besides what was queued,
   * if and only if the flushed packets' unread parts start thirteen bytes in on average.
   */
  lemma FlushRefundsIff(s: Session, id: U32, stream: int)
    requires Inv(s) && id in s.chans && !s.chans[id].adjustPending
    requires |Queued(FlushedBy(id, stream), s.packets)| + s.chans[id].adjustQueue < TWO32
    ensures var r := FlushedBy(id, stream);
            var f := FlushCall(s, id, stream, Sent);
            Sum(f.told) + f.s.chans[id].adjustQueue == |Queued(r, s.packets)| + s.chans[id].adjustQueue
            <==> HeadSum(r, s.packets) % TWO32 == 0
  {
    hide Queued, Flushable, Others, AdjustCall, Refund, HeadSum, Wrap32, Sum;
    var r := FlushedBy(id, stream);
    RefundSplits(r, s.packets);
    NoSum();
    var bytes, heads, refund := |Queued(r, s.packets)|, HeadSum(r, s.packets), Refund(r, s.packets);
    var c := FlushScan(s, id, stream).chans[id];
    var c' := c.(readAvail := Wrap32(c.readAvail - c.flushBytes), window := Wrap32(c.window - c.flushBytes));
    var amount := Wrap32(refund % TWO64);
    ForcedTold(c', amount);
    Residues(refund, heads, bytes, c.adjustQueue);
    WrapAdd(c.adjustQueue, refund % TWO64);
  }

  lemma ForcedTold(c: Chan, amount: U32)
    requires !c.adjustPending
    ensures var a := AdjustCall(c, amount, true, Sent);
            && a.rc == 0 && a.c.adjustQueue == 0 && Sum(a.told) == Wrap32(amount + c.adjustQueue)
            && a.c.window == Wrap32(c.window + Sum(a.told))
  {
    hide Wrap32, Sum;
    NoSum();
    OneSum(Wrap32(amount + c.adjustQueue));
    WrapSmall(c.window);
    if amount == 0 && c.adjustQueue == 0 {
      WrapSmall(0);
    }
  }

  lemma Residues(refund: int, heads: int, bytes: nat, queue: nat)
    requires refund == bytes + heads && bytes + queue < TWO32
    ensures refund % TWO64 == 0 ==> (queue == bytes + queue <==> heads % TWO32 == 0)
    ensures Wrap32(queue + refund % TWO64) == bytes + queue <==> heads % TWO32 == 0
  {
    hide Wrap32;
    Halves(refund);
    WrapAdd(queue, refund % TWO64);
    WrapAdd(queue, refund);
    WrapPlus(bytes + queue, heads);
    if refund % TWO64 == 0 {
      WrapLess(0, bytes);
      WrapBoth(refund, 0, -(bytes as int));
      WrapPlus(0, heads);
    }
  }

  lemma Halves(x: int)
    ensures Wrap32(x % TWO64) == Wrap32(x)
    ensures x % TWO64 == 0 ==> Wrap32(x) == Wrap32(0)
  {
    hide Wrap32;
    var q, r := x / TWO64, x % TWO64;
    assert x == q * TWO64 + r;
    WrapMultiple(r, q * TWO32);
  }

  lemma WrapMultiple(r: int, m: int)
    ensures Wrap32(r + m * TWO32) == Wrap32(r)
  {}

  lemma WrapPlus(x: U32, h: int)
    ensures Wrap32(x + h) == x <==> h % TWO32 == 0
  {}

  /** Three bytes of standard data, unread: flushing them announces nearly 2^32 bytes of credit. */
  lemma FlushOfShortPacket(id: U32, payload: Octets, c: Chan)
    requires |payload| == 12 && payload[0] == MSG_DATA && Load32(payload, 1) == id
    requires c.readAvail == 3 && c.adjustQueue == 0 && !c.adjustPending && !c.flushPending
    ensures var s := Session([Packet(payload, 9)], map[id := c]);
            Inv(s) && FlushCall(s, id, 0, Sent).told == [TWO32 - 1]
  {
    hide Load32, Queued, Others, Refund, AdjustCall, Wrap32, Flushable, OfChannel;
    var p, r := Packet(payload, 9), FlushedBy(id, 0);
    var s := Session([p], map[id := c]);
    assert Of(id)(payload) && r(payload) by { ShortIsFlushed(id, payload); }
    SolePacket(Of(id), p);
    SolePacket(r, p);
    assert Inv(s);
    var c1 := c.(flushPending := true, flushRefund := -1 % TWO64, flushBytes := 3);
    assert FlushScan(s, id, 0).chans[id] == c1;
    var c2 := c1.(readAvail := Wrap32(c1.readAvail - 3), window := Wrap32(c1.window - 3));
    ForcedOnce(c2, TWO32 - 1);
    assert Wrap32(-1 % TWO64) == TWO32 - 1 by { MinusOne(); }
  }

  /** How it comes about: the bytes arrive on a channel just opened, and are flushed. */
  lemma ShortPacketReached(id: U32, payload: Octets, window: U32, packetSize: U32)
    requires |payload| == 12 && payload[0] == MSG_DATA && Load32(payload, 1) == id && window >= 3 && packetSize >= 3
    ensures var s := ArriveCall(Session([], map[id := NewChan(window, packetSize, Normal)]), payload, Sent);
            Inv(s) && id in s.chans && FlushCall(s, id, 0, Sent).told == [TWO32 - 1]
  {
    hide Load32, FlushCall, Inv;
    var c := NewChan(window, packetSize, Normal);
    var s := ArriveCall(Session([], map[id := c]), payload, Sent);
    assert payload[..12] == payload;
    assert Kept(c, 3) == 3;
    var c' := c.(readAvail := 3);
    assert s.packets == [] + [Packet(payload, 9)] == [Packet(payload, 9)];
    assert s.chans == map[id := c'];
    FlushOfShortPacket(id, payload, c');
  }

  lemma MinusOne()
    ensures Wrap32(-1 % TWO64) == TWO32 - 1
  {}

  lemma ForcedOnce(c: Chan, amount: U32)
    requires !c.adjustPending && c.adjustQueue == 0 && amount > 0
    ensures AdjustCall(c, amount, true, Sent).told == [amount] && AdjustCall(c, amount, true, Sent).rc == 0
  {}

  lemma ShortIsFlushed(id: U32, payload: Octets)
    requires |payload| == 12 && payload[0] == MSG_DATA && Load32(payload, 1) == id
    ensures OfChannel(id, payload) && Flushable(id, 0, payload)
  {
    hide Load32;
  }

  /** A queue of one packet. */
  lemma SolePacket(r: Choice, p: Packet)
    requires p.Valid() && r(p.data)
    ensures AllValid([p]) && Queued(r, [p]) == p.Unread() && Refund(r, [p]) == |p.data| - 13
  {
    assert [p][1..] == [];
    assert Queued(r, [p]) == p.Unread() + Queued(r, []);
    assert p.Unread() + [] == p.Unread();
  }
}
