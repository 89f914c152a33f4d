/**
 * Channel numbers: how libssh2/src/channel.c hands them out and finds channels by them,
 * in the session's list and in the queues of its listeners.
 */
module ChannelIds {
  import opened Octets
  import opened ChannelBasics

  /** A channel, as far as finding it goes: our number for it and the peer's. */
  datatype Channel = Channel(id: U32, peer: U32)

  /** A listener: connections queued, the count kept of them, and the most it takes (0 for any number). */
  datatype Listener = Listener(queue: seq<Channel>, size: int, maxsize: nat)

  datatype Registry = Registry(next: U32, channels: seq<Channel>, listeners: seq<Listener>)

  function Flat(ls: seq<Listener>): seq<Channel> { if ls == [] then [] else ls[0].queue + Flat(ls[1..]) }

  /** Every channel there is, in the order in which it is looked for. */
  function Live(r: Registry): seq<Channel> { r.channels + Flat(r.listeners) }

  function Has(id: U32): Channel -> bool { (c: Channel) => c.id == id }

  // ----- Handing out numbers -----

  function Highest(id: U32, cs: seq<Channel>): U32
    decreases |cs|
  {
    if cs == [] then id else Highest(if cs[0].id > id then cs[0].id else id, cs[1..])
  }

  /** The number `_libssh2_channel_nextid` hands out. */
  function NextId(r: Registry): U32 { Highest(r.next, r.channels) }

  function Issued(r: Registry): Registry { r.(next := Wrap32(NextId(r) + 1)) }

  lemma {:induction false} HighestIs(id: U32, cs: seq<Channel>)
    ensures Highest(id, cs) >= id && forall i :: 0 <= i < |cs| ==> cs[i].id <= Highest(id, cs)
    ensures Highest(id, cs) == id || exists i :: 0 <= i < |cs| && cs[i].id == Highest(id, cs)
    decreases |cs|
  {
    if cs == [] {
    } else {
      HighestIs(if cs[0].id > id then cs[0].id else id, cs[1..]);
      if Highest(id, cs) != id && cs[0].id != Highest(id, cs) {
        var i :| 0 <= i < |cs[1..]| && cs[1..][i].id == Highest(id, cs);
        assert cs[i + 1].id == Highest(id, cs);
      }
    }
  }

  ghost predicate Unlisted(cs: seq<Channel>, id: U32) { forall i :: 0 <= i < |cs| ==> cs[i].id != id }

  /** No channel has the number. */
  ghost predicate Free(r: Registry, id: U32) { Unlisted(Live(r), id) }

  lemma FreeParts(r: Registry, id: U32)
    ensures Free(r, id) <==> Unlisted(r.channels, id) && Unlisted(Flat(r.listeners), id)
  {
    hide Flat;
    var live, q := Live(r), Flat(r.listeners);
    assert forall i :: 0 <= i < |r.channels| ==> live[i] == r.channels[i];
    assert forall i :: 0 <= i < |q| ==> live[|r.channels| + i] == q[i];
    if Unlisted(r.channels, id) && Unlisted(q, id) {
      forall i | 0 <= i < |live|
        ensures live[i].id != id
      {
        assert live[i] == if i < |r.channels| then r.channels[i] else q[i - |r.channels|];
      }
    }
  }

  /**
   * The number handed out belongs to no channel if and only if all listed channels are
   * numbered below the counter and no queued one has the counter's own number.
   */
  lemma NextIdFreeIff(r: Registry)
    ensures Free(r, NextId(r)) <==>
            && (forall i :: 0 <= i < |r.channels| ==> r.channels[i].id < r.next)
            && (forall i :: 0 <= i < |Flat(r.listeners)| ==> Flat(r.listeners)[i].id != r.next)
  {
    hide Flat, Highest, Free;
    HighestIs(r.next, r.channels);
    FreeParts(r, NextId(r));
  }

  /** Once the counter has wrapped, the next number handed out is one in use. */
  lemma AfterWrap(r: Registry)
    requires r.next == 0 && r.channels != []
    ensures !Free(r, NextId(r))
  {
    NextIdFreeIff(r);
    assert r.channels[0].id >= r.next;
  }

  // ----- Runs -----

  datatype Event =
    | Open(peer: U32)                              // a channel of our own, listed while it is being opened
    | Drop(index: nat)                             // one that failed to open or was freed
    | Listen(maxsize: nat)
    | Queue(listener: nat, peer: U32, sent: bool)  // a connection comes in; `sent` if its confirmation went out at once
    | Accept(listener: nat)
    | Cancel(listener: nat)

  /** `packet_queue_listener`, for a connection that listener `l` is for. */
  function QueueCall(r: Registry, l: nat, peer: U32, sent: bool): Registry
    requires l < |r.listeners|
  {
    var x := r.listeners[l];
    if x.maxsize != 0 && x.maxsize <= x.size then r
    else if !sent then Issued(r)
    else Issued(r).(listeners := r.listeners[l := x.(queue := x.queue + [Channel(NextId(r), peer)], size := x.size + 1)])
  }

  /** `channel_forward_accept`. */
  function AcceptCall(r: Registry, l: nat): Registry
    requires l < |r.listeners|
  {
    var x := r.listeners[l];
    if x.queue == [] then r
    else r.(channels := r.channels + [x.queue[0]],
            listeners := r.listeners[l := x.(queue := x.queue[1..], size := x.size - 1)])
  }

  function Apply(r: Registry, e: Event): Registry {
    match e
    case Open(peer) => Issued(r).(channels := r.channels + [Channel(NextId(r), peer)])
    case Drop(i) => if i < |r.channels| then r.(channels := r.channels[..i] + r.channels[i + 1..]) else r
    case Listen(maxsize) => r.(listeners := r.listeners + [Listener([], 0, maxsize)])
    case Queue(l, peer, sent) => if l < |r.listeners| then QueueCall(r, l, peer, sent) else r
    case Accept(l) => if l < |r.listeners| then AcceptCall(r, l) else r
    case Cancel(l) =>
      if l < |r.listeners| then r.(listeners := r.listeners[..l] + r.listeners[l + 1..]) else r
  }

  predicate Issues(e: Event) { e.Open? || e.Queue? }

  /** Each number at most once, all below the counter, and each listener's count right. */
  ghost predicate Orderly(r: Registry) {
    && (forall id: U32 :: Count(Has(id), Live(r)) <= if id < r.next then 1 else 0)
    && forall i :: 0 <= i < |r.listeners| ==> r.listeners[i].size == |r.listeners[i].queue|
  }

  lemma FlatCons(l: Listener, ls: seq<Listener>)
    ensures Flat([l] + ls) == l.queue + Flat(ls)
  {
    assert ([l] + ls)[1..] == ls;
  }

  lemma {:induction false} FlatJoin(xs: seq<Listener>, ys: seq<Listener>)
    ensures Flat(xs + ys) == Flat(xs) + Flat(ys)
  {
    if xs == [] {
      assert [] + ys == ys;
    } else {
      hide Flat;
      FlatJoin(xs[1..], ys);
      FlatConsJoin(xs[0], xs[1..], ys);
      assert [xs[0]] + xs[1..] == xs;
    }
  }

  lemma FlatConsJoin(x: Listener, xs: seq<Listener>, ys: seq<Listener>)
    requires Flat(xs + ys) == Flat(xs) + Flat(ys)
    ensures Flat(([x] + xs) + ys) == Flat([x] + xs) + Flat(ys)
  {
    hide Flat;
    FlatCons(x, xs);
    FlatCons(x, xs + ys);
    assert ([x] + xs) + ys == [x] + (xs + ys);
  }

  lemma SplitAt(ls: seq<Listener>, l: nat)
    requires l < |ls|
    ensures ls[..l] + ([ls[l]] + ls[l + 1..]) == ls
  {}

  lemma FlatSplit(ls: seq<Listener>, l: nat)
    requires l < |ls|
    ensures Flat(ls) == Flat(ls[..l]) + (ls[l].queue + Flat(ls[l + 1..]))
  {
    hide Flat;
    var front, x, back := ls[..l], ls[l], ls[l + 1..];
    SplitAt(ls, l);
    calc {
      Flat(ls);
      Flat(front + ([x] + back));
      { FlatJoin(front, [x] + back); }
      Flat(front) + Flat([x] + back);
      { FlatCons(x, back); }
      Flat(front) + (x.queue + Flat(back));
    }
  }

  lemma FlatUpdate(ls: seq<Listener>, l: nat, x: Listener)
    requires l < |ls|
    ensures Flat(ls[l := x]) == Flat(ls[..l]) + (x.queue + Flat(ls[l + 1..]))
  {
    hide Flat;
    FlatSplit(ls[l := x], l);
    assert ls[l := x][..l] == ls[..l] && ls[l := x][l + 1..] == ls[l + 1..];
  }

  /** In an orderly registry the next number is the counter's, and nobody has it. */
  lemma NextIdNew(r: Registry)
    requires Orderly(r)
    ensures NextId(r) == r.next && Count(Has(r.next), Live(r)) == 0
  {
    hide Flat, Count, Highest;
    HighestIs(r.next, r.channels);
    forall i | 0 <= i < |r.channels|
      ensures r.channels[i].id < r.next
    {
      assert Live(r)[i] == r.channels[i];
      CountMember(Has(Live(r)[i].id), Live(r), i);
    }
  }

  /**
   * What an event does to the channels with a number: the counter's number may gain one
   * if the event hands out numbers, accepting moves nothing out of sight, and no other
   * number ever gains a channel.
   */
  lemma StepCount(r: Registry, e: Event, id: U32)
    requires NextId(r) == r.next
    ensures var n, n' := Count(Has(id), Live(r)), Count(Has(id), Live(Apply(r, e)));
            if e.Accept? then n' == n
            else n' <= n + (if Issues(e) && id == r.next then 1 else 0)
  {
    hide Count, Flat, NextId;
    var cs, ls := r.channels, r.listeners;
    CountAppend(Has(id), cs, Flat(ls));
    var r' := Apply(r, e);
    CountAppend(Has(id), r'.channels, Flat(r'.listeners));
    match e
    case Open(peer) =>
      CountAppend(Has(id), cs, [Channel(r.next, peer)]);
      CountOne(Has(id), Channel(r.next, peer));
    case Drop(i) =>
      if i < |cs| {
        CountSplit(cs, i, id);
        CountAppend(Has(id), cs[..i], cs[i + 1..]);
      }
    case Listen(maxsize) => NoneQueued(ls, maxsize);
    case Queue(l, peer, sent) =>
      if l < |ls| && r'.listeners != ls {
        QueueCount(r, l, peer, id);
      }
    case Accept(l) =>
      if l < |ls| && ls[l].queue != [] {
        AcceptCount(r, l, id);
      }
    case Cancel(l) =>
      if l < |ls| {
        FlatSplit(ls, l);
        FlatJoin(ls[..l], ls[l + 1..]);
        var a, q, b := Flat(ls[..l]), ls[l].queue, Flat(ls[l + 1..]);
        CountAppend(Has(id), a, q + b);
        CountAppend(Has(id), q, b);
        CountAppend(Has(id), a, b);
      }
  }

  lemma CountSplit(cs: seq<Channel>, i: nat, id: U32)
    requires i < |cs|
    ensures Count(Has(id), cs) == Count(Has(id), cs[..i]) + (if cs[i].id == id then 1 else 0) + Count(Has(id), cs[i + 1..])
  {
    hide Count;
    assert cs == cs[..i] + ([cs[i]] + cs[i + 1..]);
    CountAppend(Has(id), cs[..i], [cs[i]] + cs[i + 1..]);
    CountAppend(Has(id), [cs[i]], cs[i + 1..]);
    CountOne(Has(id), cs[i]);
  }

  lemma NoneQueued(ls: seq<Listener>, maxsize: nat)
    ensures Flat(ls + [Listener([], 0, maxsize)]) == Flat(ls)
  {
    FlatJoin(ls, [Listener([], 0, maxsize)]);
    assert [Listener([], 0, maxsize)][1..] == [];
  }

  lemma QueueCount(r: Registry, l: nat, peer: U32, id: U32)
    requires l < |r.listeners| && NextId(r) == r.next
    requires var x := r.listeners[l]; x.maxsize == 0 || x.maxsize > x.size
    ensures Count(Has(id), Flat(QueueCall(r, l, peer, true).listeners))
            == Count(Has(id), Flat(r.listeners)) + (if id == r.next then 1 else 0)
  {
    hide Count, Flat, NextId;
    var ls, x, c := r.listeners, r.listeners[l], Channel(r.next, peer);
    FlatSplit(ls, l);
    FlatUpdate(ls, l, x.(queue := x.queue + [c], size := x.size + 1));
    var a, b := Flat(ls[..l]), Flat(ls[l + 1..]);
    CountAppend(Has(id), a, x.queue + b);
    CountAppend(Has(id), x.queue, b);
    CountAppend(Has(id), a, (x.queue + [c]) + b);
    CountAppend(Has(id), x.queue + [c], b);
    CountAppend(Has(id), x.queue, [c]);
    CountOne(Has(id), c);
  }

  lemma AcceptCount(r: Registry, l: nat, id: U32)
    requires l < |r.listeners| && r.listeners[l].queue != []
    ensures var r' := AcceptCall(r, l);
            Count(Has(id), r'.channels) + Count(Has(id), Flat(r'.listeners))
            == Count(Has(id), r.channels) + Count(Has(id), Flat(r.listeners))
  {
    hide Count, Flat;
    var ls, q := r.listeners, r.listeners[l].queue;
    FlatSplit(ls, l);
    FlatUpdate(ls, l, ls[l].(queue := q[1..], size := ls[l].size - 1));
    var a, b := Flat(ls[..l]), Flat(ls[l + 1..]);
    CountAppend(Has(id), a, q + b);
    CountAppend(Has(id), q, b);
    CountAppend(Has(id), a, q[1..] + b);
    CountAppend(Has(id), q[1..], b);
    CountAppend(Has(id), r.channels, [q[0]]);
    assert q == [q[0]] + q[1..];
    CountAppend(Has(id), [q[0]], q[1..]);
  }

  /** Accepting loses no channel and makes none: it only moves the oldest one of the queue. */
  lemma AcceptConserves(r: Registry, l: nat)
    requires l < |r.listeners|
    ensures multiset(Live(AcceptCall(r, l))) == multiset(Live(r))
  {
    hide Flat;
    var ls, q := r.listeners, r.listeners[l].queue;
    if q != [] {
      FlatSplit(ls, l);
      FlatUpdate(ls, l, ls[l].(queue := q[1..], size := ls[l].size - 1));
      assert q == [q[0]] + q[1..];
    }
  }

  /** Every event leaves the registry orderly, while the counter has not reached its end. */
  lemma StepOrderly(r: Registry, e: Event)
    requires Orderly(r) && (Issues(e) ==> r.next + 1 < TWO32)
    ensures Orderly(Apply(r, e)) && Apply(r, e).next <= r.next + (if Issues(e) then 1 else 0)
  {
    hide Count, Flat, Live, NextId;
    NextIdNew(r);
    forall id: U32
      ensures Count(Has(id), Live(Apply(r, e))) <= if id < Apply(r, e).next then 1 else 0
    {
      StepCount(r, e, id);
    }
  }

  ghost function Run(r: Registry, es: seq<Event>): Registry
    decreases |es|
  {
    if es == [] then r else Run(Apply(r, es[0]), es[1..])
  }

  function Issuing(es: seq<Event>): nat { if es == [] then 0 else (if Issues(es[0]) then 1 else 0) + Issuing(es[1..]) }

  /**
   * Until 2^32 numbers have been handed out, over every run: the channels of the session
   * and of all its listeners have different numbers, and every listener's count is right.
   */
  lemma {:induction false} RunOrderly(r: Registry, es: seq<Event>)
    requires Orderly(r) && r.next + Issuing(es) < TWO32
    ensures Orderly(Run(r, es))
    decreases |es|
  {
    hide Apply, Orderly, Issues;
    if es == [] {
    } else {
      StepOrderly(r, es[0]);
      RunOrderly(Apply(r, es[0]), es[1..]);
    }
  }

  /** A listener with a limit has no more queued than that. */
  predicate Limited(r: Registry) {
    forall i :: 0 <= i < |r.listeners| ==>
      r.listeners[i].maxsize == 0 || |r.listeners[i].queue| <= r.listeners[i].maxsize
  }

  /** No event queues more for a listener than it takes. */
  lemma StepLimited(r: Registry, e: Event)
    requires Orderly(r) && Limited(r)
    ensures Limited(Apply(r, e))
  {
    hide Count, Flat, NextId, Live;
  }

  /** And no run does. */
  lemma {:induction false} RunLimited(r: Registry, es: seq<Event>)
    requires Orderly(r) && Limited(r) && r.next + Issuing(es) < TWO32
    ensures Limited(Run(r, es))
    decreases |es|
  {
    hide Apply, Orderly, Issues, Limited;
    if es == [] {
    } else {
      StepOrderly(r, es[0]);
      StepLimited(r, es[0]);
      RunLimited(Apply(r, es[0]), es[1..]);
    }
  }

  lemma {:induction false} RunJoin(r: Registry, es: seq<Event>, fs: seq<Event>)
    ensures Run(r, es + fs) == Run(Run(r, es), fs)
    decreases |es|
  {
    hide Apply;
    if es == [] {
      assert [] + fs == fs;
    } else {
      assert (es + fs)[1..] == es[1..] + fs;
      RunJoin(Apply(r, es[0]), es[1..], fs);
    }
  }

  lemma RunOne(r: Registry, e: Event)
    ensures Run(r, [e]) == Apply(r, e)
  {
    hide Apply;
    assert [e][1..] == [];
  }

  /** Opening a channel and dropping it again, `n` times. */
  function Churn(peer: U32, n: nat): seq<Event> { if n == 0 then [] else Churn(peer, n - 1) + [Open(peer), Drop(0)] }

  lemma {:induction false} ChurnRuns(peer: U32, n: nat)
    requires n < TWO32
    ensures Run(Registry(0, [], []), Churn(peer, n)) == Registry(n, [], [])
  {
    hide Run;
    var start := Registry(0, [], []);
    if n == 0 {
      NoEvents(start);
    } else {
      ChurnRuns(peer, n - 1);
      var r := Registry(n - 1, [], []);
      OpenDrop(r, peer);
      RunJoin(start, Churn(peer, n - 1), [Open(peer), Drop(0)]);
    }
  }

  lemma NoEvents(r: Registry)
    ensures Run(r, []) == r
  {}

  lemma OpenDrop(r: Registry, peer: U32)
    requires r.channels == [] && r.listeners == [] && r.next < TWO32 - 1
    ensures Run(r, [Open(peer), Drop(0)]) == Registry(r.next + 1, [], [])
  {
    hide Run, Apply;
    var r1 := Registry(r.next + 1, [Channel(r.next, peer)], []);
    OpenedFirst(r, peer);
    DroppedLast(r1);
    RunOne(r, Open(peer));
    RunOne(r1, Drop(0));
    RunJoin(r, [Open(peer)], [Drop(0)]);
    assert [Open(peer)] + [Drop(0)] == [Open(peer), Drop(0)];
  }

  lemma OpenedFirst(r: Registry, peer: U32)
    requires r.channels == [] && r.listeners == [] && r.next < TWO32 - 1
    ensures Apply(r, Open(peer)) == Registry(r.next + 1, [Channel(r.next, peer)], [])
  {
    assert NextId(r) == r.next;
  }

  lemma DroppedLast(r: Registry)
    requires |r.channels| == 1
    ensures Apply(r, Drop(0)) == Registry(r.next, [], r.listeners)
  {}

  /** A run that gets there: 2^32 - 1 channels opened and dropped, and one more opened. */
  lemma WrapReached(peer: U32)
    ensures var r := Run(Registry(0, [], []), Churn(peer, TWO32 - 1) + [Open(peer)]);
            r.next == 0 && r.channels == [Channel(TWO32 - 1, peer)] && !Free(r, NextId(r))
  {
    hide Run, Churn, Free, NextId;
    var r := Registry(TWO32 - 1, [], []);
    ChurnRuns(peer, TWO32 - 1);
    RunJoin(Registry(0, [], []), Churn(peer, TWO32 - 1), [Open(peer)]);
    RunOne(r, Open(peer));
    LastOpened(r, peer);
    AfterWrap(Apply(r, Open(peer)));
  }

  lemma LastOpened(r: Registry, peer: U32)
    requires r == Registry(TWO32 - 1, [], [])
    ensures Apply(r, Open(peer)) == Registry(0, [Channel(TWO32 - 1, peer)], [])
  {}

  lemma {:induction false} CountTwice(cs: seq<Channel>, i: nat, j: nat)
    requires i < j < |cs| && cs[i].id == cs[j].id
    ensures Count(Has(cs[i].id), cs) >= 2
  {
    if i == 0 {
      CountMember(Has(cs[1..][j - 1].id), cs[1..], j - 1);
    } else {
      CountTwice(cs[1..], i - 1, j - 1);
    }
  }

  /** In other words: no two live channels share a number. */
  lemma OrderlyDistinct(r: Registry, i: nat, j: nat)
    requires Orderly(r) && i < j < |Live(r)|
    ensures Live(r)[i].id != Live(r)[j].id
  {
    if Live(r)[i].id == Live(r)[j].id {
      CountTwice(Live(r), i, j);
    }
  }

  // ----- The code -----

  datatype Found = Nobody | Someone(channel: Channel)

  class Numbers {
    var next: U32
    var channels: seq<Channel>
    var listeners: seq<Listener>

    constructor ()
      ensures View() == Registry(0, [], []) && Orderly(View())
    {
      next, channels, listeners := 0, [], [];
    }

    ghost function View(): Registry
      reads this
    {
      Registry(next, channels, listeners)
    }

    /** `_libssh2_channel_nextid`. */
    method TakeNextId() returns (id: U32)
      modifies this`next
      ensures id == NextId(old(View())) && View() == Issued(old(View()))
    {
      id := next;
      for i := 0 to |channels|
        invariant Highest(id, channels[i..]) == NextId(old(View()))
      {
        assert channels[i..][0] == channels[i] && channels[i..][1..] == channels[i + 1..];
        if channels[i].id > id {
          id := channels[i].id;
        }
      }
      next := Wrap32(id + 1);
    }

    /** One loop of `_libssh2_channel_locate`: the first channel of a list that has the number. */
    static method Find(cs: seq<Channel>, id: U32) returns (i: nat)
      ensures i <= |cs| && Unlisted(cs[..i], id) && (i < |cs| ==> cs[i].id == id)
    {
      i := 0;
      while i < |cs| && cs[i].id != id
        invariant i <= |cs| && Unlisted(cs[..i], id)
      {
        i := i + 1;
      }
    }

    /** `_libssh2_channel_locate`: the session's list first, then each listener's queue. */
    method Locate(id: U32) returns (found: Found)
      ensures found.Someone? ==> found.channel in Live(View()) && found.channel.id == id
      ensures found.Nobody? <==> Free(View(), id)
      ensures Orderly(View()) && found.Someone? ==> forall c :: c in Live(View()) && c.id == id ==> c == found.channel
    {
      hide Orderly, Count, Unlisted, Flat;
      ghost var live := Live(View());
      var i := Find(channels, id);
      if i < |channels| {
        OnlyOne(View(), i);
        return Someone(channels[i]);
      }
      assert channels[..i] == channels;
      ghost var k := |channels|;
      assert live[..k] == channels && live[k..] == Flat(listeners) && listeners[0..] == listeners;
      for l := 0 to |listeners|
        invariant 0 <= k <= |live| && live[k..] == Flat(listeners[l..])
        invariant Unlisted(live[..k], id)
      {
        var queue := listeners[l].queue;
        FlatNext(listeners, l);
        i := Find(queue, id);
        if i < |queue| {
          assert live[k + i] == live[k..][i] == queue[i];
          OnlyOne(View(), k + i);
          return Someone(queue[i]);
        }
        assert queue[..i] == queue;
        UnlistedBoth(live, k, queue, id);
        k := k + |queue|;
      }
      FlatNone(listeners[|listeners|..]);
      assert live[..k] == live;
      return Nobody;
    }

    /** `packet_queue_listener`, for a connection that listener `l` is for; `sent` if its confirmation goes out at once. */
    method QueueConnection(l: nat, peer: U32, sent: bool) returns (queued: bool)
      requires l < |listeners|
      modifies this
      ensures View() == QueueCall(old(View()), l, peer, sent)
      // It joins the end of the queue if there is room and the confirmation goes out.
      ensures queued <==> sent && old(listeners[l].maxsize == 0 || listeners[l].size < listeners[l].maxsize)
      ensures channels == old(channels) && |listeners| == old(|listeners|)
      ensures listeners[l].queue == old(listeners[l].queue) + if queued then [Channel(NextId(old(View())), peer)] else []
    {
      var x := listeners[l];
      queued := false;
      if x.maxsize != 0 && x.maxsize <= x.size {
        return;
      }
      var id := TakeNextId();
      if sent {
        listeners := listeners[l := x.(queue := x.queue + [Channel(id, peer)], size := x.size + 1)];
        queued := true;
      }
    }

    /** `channel_forward_accept`, once the socket has been read. */
    method AcceptFrom(l: nat) returns (found: Found)
      requires l < |listeners|
      modifies this`channels, this`listeners
      ensures View() == AcceptCall(old(View()), l)
      // The oldest in the queue goes to the end of the session's list, and the rest stay in order.
      ensures old(listeners[l].queue) != [] ==>
                && channels == old(channels) + [old(listeners[l].queue[0])] && |listeners| == old(|listeners|)
                && listeners[l].queue == old(listeners[l].queue[1..]) && listeners[l].size == old(listeners[l].size) - 1
                && forall i :: 0 <= i < |listeners| && i != l ==> listeners[i] == old(listeners)[i]
      ensures found == if old(listeners[l].queue) == [] then Nobody else Someone(old(listeners[l].queue[0]))
    {
      var x := listeners[l];
      if x.queue == [] {
        return Nobody;
      }
      var channel := x.queue[0];
      listeners := listeners[l := x.(queue := x.queue[1..], size := x.size - 1)];
      channels := channels + [channel];
      found := Someone(channel);
    }
  }

  lemma FlatNext(ls: seq<Listener>, l: nat)
    requires l < |ls|
    ensures Flat(ls[l..]) == ls[l].queue + Flat(ls[l + 1..])
  {
    FlatCons(ls[l], ls[l + 1..]);
    assert ls[l..] == [ls[l]] + ls[l + 1..];
  }

  lemma FlatNone(ls: seq<Listener>)
    requires |ls| == 0
    ensures Flat(ls) == []
  {}

  lemma UnlistedBoth(live: seq<Channel>, k: nat, queue: seq<Channel>, id: U32)
    requires k <= |live| && queue <= live[k..] && Unlisted(live[..k], id) && Unlisted(queue, id)
    ensures k + |queue| <= |live| && Unlisted(live[..k + |queue|], id)
    ensures live[k + |queue|..] == live[k..][|queue|..]
  {
    var longer := live[..k + |queue|];
    forall i | 0 <= i < |longer|
      ensures longer[i].id != id
    {
      assert longer[i] == if i < k then live[..k][i] else queue[i - k];
    }
  }

  lemma OnlyOne(r: Registry, i: nat)
    requires i < |Live(r)|
    ensures Live(r)[i] in Live(r)
    ensures !Free(r, Live(r)[i].id)
    ensures Orderly(r) ==> forall c :: c in Live(r) && c.id == Live(r)[i].id ==> c == Live(r)[i]
  {
    hide Orderly, Live;
    if Orderly(r) {
      forall c | c in Live(r) && c.id == Live(r)[i].id
        ensures c == Live(r)[i]
      {
        var j :| 0 <= j < |Live(r)| && Live(r)[j] == c;
        if i < j {
          OrderlyDistinct(r, i, j);
        } else if j < i {
          OrderlyDistinct(r, j, i);
        }
      }
    }
  }
}
