/**
 * The two halves of libssh2/src/channel.c at the two ends of one channel: what one end
 * writes, the other end reads. Messages and announcements are under way for as long as
 * they like, and each end makes whatever calls it likes in between.
 */
module ChannelPair {
  import opened Octets
  import opened ChannelBasics
  import opened ChannelQueue
  import opened ChannelReceive
  import opened ChannelReceiveRuns
  import opened ChannelLedger
  import S = ChannelSend
  import R = ChannelSendRuns

  // ----- Messages -----

  /** The data packet that a write builds. */
  function Encode(id: U32, stream: int, bytes: Octets): Octets
    requires |bytes| < TWO32
  {
    (if stream == 0 then [MSG_DATA] + Store32(id) else [MSG_EXTENDED_DATA] + Store32(id) + Store32(Wrap32(stream)))
    + Store32(|bytes|) + bytes
  }

  predicate Sendable(m: S.Message) { m.Data? ==> |m.bytes| < TWO32 }

  /** What its arrival is at the other end, where the channel is `id`; a request leaves the receiving half alone. */
  function EventOf(id: U32, m: S.Message): Event
    requires Sendable(m)
  {
    match m
    case Data(stream, bytes) => Event.Data(Encode(id, stream, bytes), Sent)
    case Eof => PeerEof(id)
    case Close => PeerClose(id)
    case Startup(_) => Event.Data([], Sent)
  }

  lemma Encoded(id: U32, stream: int, bytes: Octets)
    requires |bytes| < TWO32
    ensures var d := Encode(id, stream, bytes);
            && IsData(d) && HeadOf(d) <= |d| && Load32(d, 1) == id && d[HeadOf(d)..] == bytes
            && d[0] == (if stream == 0 then MSG_DATA else MSG_EXTENDED_DATA)
            && (stream != 0 ==> 9 <= |d| && Load32(d, 5) == Wrap32(stream))
  {
    hide Store32, Load32, Wrap32;
    var d := Encode(id, stream, bytes);
    assert d[1..5] == Store32(id);
    LoadStored(id, d, 1);
    if stream != 0 {
      assert d[5..9] == Store32(Wrap32(stream));
      LoadStored(Wrap32(stream), d, 5);
    }
  }

  /** A message costs the peer the bytes it carries. */
  lemma EventCost(id: U32, m: S.Message)
    requires Sendable(m)
    ensures var e := EventOf(id, m);
            PaidBy(e, id) == R.DataSize(m) && SentFor(e, id) && (m.Data? <==> DataFor(e, id))
  {
    hide Encode, Load32;
    if m.Data? {
      Encoded(id, m.stream, m.bytes);
    }
  }

  // ----- Both ends -----

  /** The sending end, the receiving end, the messages under way and the credit under way back. */
  datatype Pair = Pair(h: S.Half, s: Session, flying: seq<S.Message>, grants: seq<U32>)

  datatype Act =
    | Sends(call: S.Event)  // the sending end makes a call, and may take in credit that has reached it
    | Arrives               // the first message under way reaches the receiving end
    | Local(event: Event)   // the receiving end reads, flushes, adjusts, or deals with other channels

  ghost predicate AllSendable(ms: seq<S.Message>) { forall i :: 0 <= i < |ms| ==> Sendable(ms[i]) }

  /** The credit that the sending end has or will have, once what is under way has arrived. */
  function Credit(p: Pair): nat { p.h.window + R.Payload(p.flying) + Sum(p.grants) }

  /** The ends agree: room in the receiving window is credit at the sending end or under way. */
  ghost predicate Linked(p: Pair, id: U32) {
    && Inv(p.s) && id in p.s.chans && Ready(p.s.chans[id])
    && R.Cut(p.h) && p.h.packetSize == p.s.chans[id].packetSize && R.Small(p.flying, p.h.packetSize)
    && p.s.chans[id].readAvail + Credit(p) == p.s.chans[id].window
  }

  /** What the receiving end announces keeps its window below 2^32. */
  ghost predicate Roomy(s: Session, e: Event, id: U32)
    requires Inv(s) && id in s.chans
  {
    s.chans[id].window + Sum(ToldBy(s, e, id)) - SpentBy(s, e, id) < TWO32
  }

  ghost predicate Allowed(p: Pair, a: Act, id: U32)
    requires Linked(p, id)
  {
    match a
    case Sends(e) => S.EventOk(p.h, e) && R.GrantsOf(p.h, e) <= p.grants
    case Arrives => p.flying != [] && Sendable(p.flying[0]) && Roomy(p.s, EventOf(id, p.flying[0]), id)
    case Local(e) => PaidBy(e, id) == 0 && SentFor(e, id) && Roomy(p.s, e, id)
  }

  ghost function Do(p: Pair, a: Act, id: U32): Pair
    requires Linked(p, id) && Allowed(p, a, id)
  {
    match a
    case Sends(e) =>
      var c := S.Step(p.h, e);
      Pair(c.h, p.s, p.flying + c.sent, p.grants[|R.GrantsOf(p.h, e)|..])
    case Arrives =>
      var e := EventOf(id, p.flying[0]);
      Pair(p.h, Apply(p.s, e), p.flying[1..], p.grants + ToldBy(p.s, e, id))
    case Local(e) => Pair(p.h, Apply(p.s, e), p.flying, p.grants + ToldBy(p.s, e, id))
  }

  /** A channel just opened: each end has what the other told it. */
  lemma PairOpens(id: U32, window: U32, packetSize: U32, mode: Mode)
    ensures Linked(Pair(S.Fresh(window, packetSize), Session([], map[id := NewChan(window, packetSize, mode)]), [], []), id)
  {
    NoSum();
    R.NoPayload(packetSize);
  }

  lemma SmallSendable(ms: seq<S.Message>, packetSize: nat)
    requires R.Small(ms, packetSize)
    ensures AllSendable(ms)
  {}

  /** A call at the sending end: its grants are lawful, since the receiving end announced them. */
  lemma SendsLinked(p: Pair, e: S.Event, id: U32)
    requires Linked(p, id) && Allowed(p, Sends(e), id)
    ensures Linked(Do(p, Sends(e), id), id) && Credit(Do(p, Sends(e), id)) == Credit(p)
  {
    hide S.Step, S.EventOk, R.GrantsOf, R.Payload, R.Cut, Inv, Sum, Wrap32, Ready, R.Small;
    var g := R.GrantsOf(p.h, e);
    var rest := p.grants[|g|..];
    assert p.grants == g + rest;
    SumAppend(g, rest);
    R.StepCredit(p.h, e);
    assert R.Lawful(p.h.window, g);
    R.PayloadAppend(p.flying, S.Step(p.h, e).sent);
    SmallAppend(p.flying, S.Step(p.h, e).sent, p.h.packetSize);
  }

  lemma SmallAppend(xs: seq<S.Message>, ys: seq<S.Message>, packetSize: nat)
    requires R.Small(xs, packetSize) && R.Small(ys, packetSize)
    ensures R.Small(xs + ys, packetSize)
  {}

  /** An event at the receiving end, within the credit of the sending end. */
  lemma EventLinked(p: Pair, e: Event, id: U32, flying: seq<S.Message>, m: Choice)
    requires Linked(p, id) && SentFor(e, id) && Roomy(p.s, e, id) && Within(m, Of(id))
    requires R.Payload(flying) + PaidBy(e, id) == R.Payload(p.flying) && PaidBy(e, id) <= p.h.packetSize
    requires R.Small(flying, p.h.packetSize)
    ensures var p' := Pair(p.h, Apply(p.s, e), flying, p.grants + ToldBy(p.s, e, id));
            && Obeys(p.s, e, id, Credit(p)) && Linked(p', id) && Credit(p') == CreditAfter(p.s, e, id, Credit(p))
            && p'.s.chans[id].mode == p.s.chans[id].mode
            && ArrivedBy(p.s, e, m) == CarriedBy(e, id, p.s.chans[id].mode.Ignore?, m)
  {
    hide Apply, ToldBy, SpentBy, Inv, Sum, PaidBy, CarriedBy, ArrivedBy, R.Payload, R.Cut, R.Small, Within;
    SentUnblocked(e, id);
    StepKeepsInv(p.s, e);
    StepBooks(p.s, e, id);
    StepAvail(p.s, e, id, Credit(p));
    StepRoom(p.s, e, id, Credit(p), m);
    SumAppend(p.grants, ToldBy(p.s, e, id));
  }

  /** Taking the first message off what is under way. */
  lemma FirstFlying(ms: seq<S.Message>, packetSize: nat)
    requires ms != [] && R.Small(ms, packetSize)
    ensures R.Payload(ms) == R.DataSize(ms[0]) + R.Payload(ms[1..])
    ensures R.Small(ms[1..], packetSize) && R.DataSize(ms[0]) <= packetSize
  {}

  /** The receiving end's event in an act, if there is one. */
  function EventsOf(p: Pair, a: Act, id: U32): seq<Event> {
    match a
    case Sends(_) => []
    case Arrives => if p.flying != [] && Sendable(p.flying[0]) then [EventOf(id, p.flying[0])] else []
    case Local(e) => [e]
  }

  /** Every act keeps the ends in agreement, and what arrives keeps within the credit. */
  lemma ActLinked(p: Pair, a: Act, id: U32, m: Choice)
    requires Linked(p, id) && Allowed(p, a, id) && Within(m, Of(id))
    ensures var p' := Do(p, a, id);
            && Linked(p', id) && p'.s.chans[id].mode == p.s.chans[id].mode
            && (a.Sends? ==> p'.s == p.s && Credit(p') == Credit(p))
            && (!a.Sends? ==>
                  && var e := EventsOf(p, a, id)[0];
                  && EventsOf(p, a, id) == [e] && p'.s == Apply(p.s, e) && SentFor(e, id)
                  && Obeys(p.s, e, id, Credit(p)) && Credit(p') == CreditAfter(p.s, e, id, Credit(p)))
  {
    hide Apply, ToldBy, SpentBy, PaidBy, Obeys, Inv, Within, R.Payload, R.Small, R.Cut, S.Step, S.EventOk, R.GrantsOf,
      Credit, Roomy, R.DataSize, Ready, EventOf;
    match a
    case Sends(e) => SendsLinked(p, e, id);
    case Arrives =>
      var e := EventOf(id, p.flying[0]);
      EventCost(id, p.flying[0]);
      FirstFlying(p.flying, p.h.packetSize);
      EventLinked(p, e, id, p.flying[1..], m);
    case Local(e) => EventLinked(p, e, id, p.flying, m);
  }

  // ----- Runs -----

  ghost predicate AllAllowed(p: Pair, acts: seq<Act>, id: U32)
    requires Linked(p, id)
    decreases |acts|
  {
    if acts == [] then true else
      Allowed(p, acts[0], id) &&
      (ActLinked(p, acts[0], id, Of(id));
       AllAllowed(Do(p, acts[0], id), acts[1..], id))
  }

  ghost function After(p: Pair, acts: seq<Act>, id: U32): Pair
    requires Linked(p, id) && AllAllowed(p, acts, id)
    decreases |acts|
  {
    if acts == [] then p else
      ActLinked(p, acts[0], id, Of(id));
      After(Do(p, acts[0], id), acts[1..], id)
  }

  /** What happens at the receiving end in a run. */
  ghost function Received(p: Pair, acts: seq<Act>, id: U32): seq<Event>
    requires Linked(p, id) && AllAllowed(p, acts, id)
    decreases |acts|
  {
    if acts == [] then [] else
      ActLinked(p, acts[0], id, Of(id));
      EventsOf(p, acts[0], id) + Received(Do(p, acts[0], id), acts[1..], id)
  }

  function SentIn(p: Pair, a: Act): seq<S.Message> {
    if a.Sends? && S.EventOk(p.h, a.call) then S.Step(p.h, a.call).sent else []
  }

  /** What the sending end sends in a run. */
  ghost function SentBy(p: Pair, acts: seq<Act>, id: U32): seq<S.Message>
    requires Linked(p, id) && AllAllowed(p, acts, id)
    decreases |acts|
  {
    if acts == [] then [] else
      ActLinked(p, acts[0], id, Of(id));
      SentIn(p, acts[0]) + SentBy(Do(p, acts[0], id), acts[1..], id)
  }

  lemma RunStep(p: Pair, acts: seq<Act>, id: U32)
    requires Linked(p, id) && AllAllowed(p, acts, id) && acts != []
    ensures Allowed(p, acts[0], id)
    ensures var p', t := Do(p, acts[0], id), acts[1..];
            && Linked(p', id) && AllAllowed(p', t, id) && After(p, acts, id) == After(p', t, id)
            && Received(p, acts, id) == EventsOf(p, acts[0], id) + Received(p', t, id)
            && SentBy(p, acts, id) == SentIn(p, acts[0]) + SentBy(p', t, id)
  {
    hide Allowed, Do, EventsOf, SentIn, Linked;
    ActLinked(p, acts[0], id, Of(id));
  }

  /**
   * Over every run of both ends: they stay in agreement, and what happens at the receiving
   * end is a run of its own in which the peer keeps to its credit.
   */
  lemma {:induction false} PairObeys(p: Pair, acts: seq<Act>, id: U32)
    requires Linked(p, id) && AllAllowed(p, acts, id)
    ensures var p', es := After(p, acts, id), Received(p, acts, id);
            && Linked(p', id) && AllSentFor(es, id) && AllUnblocked(es)
            && AllObey(p.s, es, id, Credit(p)) && Run(p.s, es) == p'.s
    decreases |acts|
  {
    hide Allowed, Do, EventsOf, Apply, Obeys, SentFor, Inv, Ready, Credit, ToldBy, SpentBy;
    if acts == [] {
      NothingDone(p, id);
    } else {
      RunStep(p, acts, id);
      var a, p' := acts[0], Do(p, acts[0], id);
      ActLinked(p, a, id, Of(id));
      PairObeys(p', acts[1..], id);
      var es := Received(p', acts[1..], id);
      if a.Sends? {
        assert EventsOf(p, a, id) == [] by { NoEventOf(p, a, id); }
        assert [] + es == es;
      } else {
        var e := EventsOf(p, a, id)[0];
        ObeyCons(p.s, e, es, id, Credit(p));
      }
    }
  }

  lemma NoEventOf(p: Pair, a: Act, id: U32)
    requires a.Sends?
    ensures EventsOf(p, a, id) == []
  {}

  lemma NothingDone(p: Pair, id: U32)
    requires Linked(p, id)
    ensures AllAllowed(p, [], id) && After(p, [], id) == p && Received(p, [], id) == [] && SentBy(p, [], id) == []
    ensures AllSentFor([], id) && AllUnblocked([]) && AllObey(p.s, [], id, Credit(p)) && Run(p.s, []) == p.s
  {}

  lemma ObeyCons(s: Session, e: Event, es: seq<Event>, id: U32, credit: nat)
    requires Inv(s) && id in s.chans && Ready(s.chans[id]) && SentFor(e, id) && Obeys(s, e, id, credit)
    requires Inv(Apply(s, e)) && id in Apply(s, e).chans && Ready(Apply(s, e).chans[id]) && AllSentFor(es, id)
    requires AllObey(Apply(s, e), es, id, CreditAfter(s, e, id, credit)) && AllUnblocked(es)
    ensures AllSentFor([e] + es, id) && AllUnblocked([e] + es)
    ensures AllObey(s, [e] + es, id, credit) && Run(s, [e] + es) == Run(Apply(s, e), es)
  {
    hide Apply, Obeys, SentFor, Inv, Ready, ToldBy, SpentBy;
    SentUnblocked(e, id);
    assert ([e] + es)[1..] == es;
  }

  // ----- Bytes -----

  /** The bytes that messages carry to the chosen packets of the channel, in order. */
  function Borne(ms: seq<S.Message>, id: U32, ignoring: bool, m: Choice): Octets
    requires AllSendable(ms)
  {
    if ms == [] then [] else CarriedBy(EventOf(id, ms[0]), id, ignoring, m) + Borne(ms[1..], id, ignoring, m)
  }

  lemma BorneCons(x: S.Message, ms: seq<S.Message>, id: U32, ignoring: bool, m: Choice)
    requires Sendable(x) && AllSendable(ms)
    ensures AllSendable([x] + ms)
    ensures Borne([x] + ms, id, ignoring, m) == CarriedBy(EventOf(id, x), id, ignoring, m) + Borne(ms, id, ignoring, m)
  {
    assert ([x] + ms)[1..] == ms;
  }

  lemma CarriedCons(e: Event, es: seq<Event>, id: U32, ignoring: bool, m: Choice)
    ensures Carried([e] + es, id, ignoring, m) == CarriedBy(e, id, ignoring, m) + Carried(es, id, ignoring, m)
  {
    assert ([e] + es)[1..] == es;
  }

  lemma UnpaidCarriesNothing(e: Event, id: U32, ignoring: bool, m: Choice)
    requires PaidBy(e, id) == 0
    ensures CarriedBy(e, id, ignoring, m) == []
  {
    hide Load32;
  }

  /** Every message sent is under way or has arrived, and they arrive in order. */
  lemma {:induction false} PairCarries(p: Pair, acts: seq<Act>, id: U32, ignoring: bool, m: Choice)
    requires Linked(p, id) && AllAllowed(p, acts, id)
    ensures var p', sent := After(p, acts, id), p.flying + SentBy(p, acts, id);
            && AllSendable(sent) && AllSendable(p'.flying)
            && Borne(sent, id, ignoring, m)
               == Carried(Received(p, acts, id), id, ignoring, m) + Borne(p'.flying, id, ignoring, m)
    decreases |acts|
  {
    hide Allowed, Do, EventsOf, SentIn, Linked, Borne, Carried, CarriedBy, EventOf;
    LinkedSendable(p, id);
    if acts == [] {
      NothingDone(p, id);
      NoneCarried(id, ignoring, m);
      assert p.flying + [] == p.flying;
      assert [] + Borne(p.flying, id, ignoring, m) == Borne(p.flying, id, ignoring, m);
    } else {
      RunStep(p, acts, id);
      var a, p', t := acts[0], Do(p, acts[0], id), acts[1..];
      PairCarries(p', t, id, ignoring, m);
      ActCarries(p, a, id, SentBy(p', t, id), Received(p', t, id), Borne(After(p', t, id).flying, id, ignoring, m), ignoring, m);
      assert p.flying + (SentIn(p, a) + SentBy(p', t, id)) == (p.flying + SentIn(p, a)) + SentBy(p', t, id);
    }
  }

  lemma LinkedSendable(p: Pair, id: U32)
    requires Linked(p, id)
    ensures AllSendable(p.flying)
  {
    hide Inv, Ready;
    SmallSendable(p.flying, p.h.packetSize);
  }

  lemma NoneCarried(id: U32, ignoring: bool, m: Choice)
    ensures Carried([], id, ignoring, m) == [] && Borne([], id, ignoring, m) == []
  {}

  /** One act, followed by a run that sends `sent`, receives `es` and leaves `left` under way. */
  lemma ActCarries(p: Pair, a: Act, id: U32, sent: seq<S.Message>, es: seq<Event>, left: Octets, ignoring: bool, m: Choice)
    requires Linked(p, id) && Allowed(p, a, id) && AllSendable(Do(p, a, id).flying + sent)
    requires Borne(Do(p, a, id).flying + sent, id, ignoring, m) == Carried(es, id, ignoring, m) + left
    ensures var all := (p.flying + SentIn(p, a)) + sent;
            && AllSendable(all)
            && Borne(all, id, ignoring, m) == Carried(EventsOf(p, a, id) + es, id, ignoring, m) + left
  {
    hide Linked, Borne, Carried, CarriedBy, Apply, Roomy, ToldBy, PaidBy, EventOf, S.Step, S.EventOk, R.GrantsOf;
    match a
    case Sends(e) => assert [] + es == es;
    case Arrives =>
      var x, rest := p.flying[0], p.flying[1..] + sent;
      assert (p.flying + []) + sent == [x] + rest;
      BorneCons(x, rest, id, ignoring, m);
      var e := EventOf(id, x);
      CarriedCons(e, es, id, ignoring, m);
      Together(CarriedBy(e, id, ignoring, m), Carried(es, id, ignoring, m), left);
    case Local(e) =>
      UnpaidCarriesNothing(e, id, ignoring, m);
      CarriedCons(e, es, id, ignoring, m);
      assert [] + Carried(es, id, ignoring, m) == Carried(es, id, ignoring, m);
      assert p.flying + [] == p.flying;
  }

  lemma Together(a: Octets, b: Octets, c: Octets)
    ensures a + (b + c) == (a + b) + c
  {}

  /** The last messages of some. */
  ghost predicate IsEnd(left: seq<S.Message>, all: seq<S.Message>) {
    |left| <= |all| && left == all[|all| - |left|..]
  }

  lemma EndOfTail(left: seq<S.Message>, all: seq<S.Message>)
    requires all != [] && IsEnd(left, all[1..])
    ensures IsEnd(left, all)
  {
    assert all[1..][|all| - 1 - |left|..] == all[|all| - |left|..];
  }

  lemma EndIsInt(left: seq<S.Message>, all: seq<S.Message>)
    requires IsEnd(left, all) && AllInt(all)
    ensures AllInt(left)
  {
    assert forall i :: 0 <= i < |left| ==> left[i] == all[|all| - |left| + i];
  }

  /** What an act does to the messages under way and those sent after. */
  lemma FlyingStep(p: Pair, a: Act, id: U32, sent: seq<S.Message>)
    requires Linked(p, id) && Allowed(p, a, id)
    ensures var all, all' := p.flying + (SentIn(p, a) + sent), Do(p, a, id).flying + sent;
            if a.Arrives? then all != [] && all' == all[1..] else all' == all
  {
    hide Linked, Apply, Roomy, ToldBy, PaidBy, EventOf, S.Step, S.EventOk, R.GrantsOf;
    assert [] + sent == sent;
    if a.Sends? {
      assert p.flying + (SentIn(p, a) + sent) == (p.flying + SentIn(p, a)) + sent;
    }
  }

  /** What is under way is the last that was sent. */
  lemma {:induction false} FlyingIsLast(p: Pair, acts: seq<Act>, id: U32)
    requires Linked(p, id) && AllAllowed(p, acts, id)
    ensures IsEnd(After(p, acts, id).flying, p.flying + SentBy(p, acts, id))
    decreases |acts|
  {
    hide Linked, Allowed, Do, SentIn, AllAllowed, After, SentBy, IsEnd;
    if acts == [] {
      NothingDone(p, id);
      assert IsEnd(p.flying, p.flying + []) by { WholeIsEnd(p.flying); }
    } else {
      RunStep(p, acts, id);
      var p', t := Do(p, acts[0], id), acts[1..];
      FlyingIsLast(p', t, id);
      FlyingStep(p, acts[0], id, SentBy(p', t, id));
      if acts[0].Arrives? {
        EndOfTail(After(p', t, id).flying, p.flying + SentBy(p, acts, id));
      }
    }
  }

  lemma WholeIsEnd(ms: seq<S.Message>)
    ensures IsEnd(ms, ms + [])
  {
    assert ms + [] == ms;
  }

  /** The bytes that messages hold for a stream, in order; a merged channel has everything on its standard stream. */
  function StreamBytes(ms: seq<S.Message>, stream: int, mode: Mode): Octets {
    if ms == [] then [] else (if OnStream(ms[0], stream, mode) then ms[0].bytes else []) + StreamBytes(ms[1..], stream, mode)
  }

  predicate OnStream(m: S.Message, stream: int, mode: Mode) {
    m.Data? && if m.stream == 0 then stream == 0
               else !mode.Ignore? && (if stream == 0 then mode.Merge? else m.stream == stream)
  }

  /** Streams are numbered by C integers. */
  predicate IntStream(m: S.Message) { m.Data? ==> -0x8000_0000 <= m.stream < 0x8000_0000 }

  ghost predicate AllInt(ms: seq<S.Message>) { forall i :: 0 <= i < |ms| ==> IntStream(ms[i]) }

  lemma ToIntWrap(n: int)
    requires -0x8000_0000 <= n < 0x8000_0000
    ensures ToInt(Wrap32(n)) == n
  {}

  lemma OneBorne(x: S.Message, id: U32, stream: int, mode: Mode)
    requires Sendable(x) && IntStream(x)
    ensures CarriedBy(EventOf(id, x), id, mode.Ignore?, WantedBy(id, stream, mode.Merge?))
            == if OnStream(x, stream, mode) then x.bytes else []
  {
    hide Encode, Load32, Wrap32, ToInt;
    if x.Data? {
      Encoded(id, x.stream, x.bytes);
      ToIntWrap(x.stream);
    }
  }

  lemma {:induction false} BorneIsStream(ms: seq<S.Message>, id: U32, stream: int, mode: Mode)
    requires AllSendable(ms) && AllInt(ms)
    ensures Borne(ms, id, mode.Ignore?, WantedBy(id, stream, mode.Merge?)) == StreamBytes(ms, stream, mode)
  {
    hide EventOf, CarriedBy, Wanted, OnStream;
    if ms == [] {
    } else {
      OneBorne(ms[0], id, stream, mode);
      BorneIsStream(ms[1..], id, stream, mode);
    }
  }

  /**
   * Over every run of both ends, and for every stream: the bytes delivered to the reader,
   * then those queued for it, then those under way to it, are exactly the bytes queued and
   * under way at the start, then those the sending end has sent. Nothing is lost, doubled
   * or out of order, however windows, packet sizes, blocked calls and reads cut it up.
   */
  lemma EndToEnd(p: Pair, acts: seq<Act>, id: U32, stream: int)
    requires Linked(p, id) && AllAllowed(p, acts, id)
    requires AllLeave(Received(p, acts, id), id, stream, p.s.chans[id].mode.Merge?)
    requires AllInt(p.flying + SentBy(p, acts, id))
    ensures AllUnblocked(Received(p, acts, id))
    ensures var p', m, mode := After(p, acts, id), ChoiceOf(p.s, id, stream), p.s.chans[id].mode;
            && AllValid(p.s.packets) && AllValid(p'.s.packets)
            && Queued(m, p.s.packets) + StreamBytes(p.flying + SentBy(p, acts, id), stream, mode)
               == Delivered(p.s, Received(p, acts, id), id, stream) + Queued(m, p'.s.packets)
                  + StreamBytes(p'.flying, stream, mode)
  {
    hide Queued, Wanted, Run, Delivered, Inv, Ready, AllObey, Carried, AllLeave, AllSentFor, After, Received, SentBy,
      AllAllowed, Borne, StreamBytes, Credit, R.Cut, R.Small, AllInt;
    var p', es, sent := After(p, acts, id), Received(p, acts, id), p.flying + SentBy(p, acts, id);
    var mode, m := p.s.chans[id].mode, ChoiceOf(p.s, id, stream);
    InvValid(p.s);
    PairObeys(p, acts, id);
    InvValid(p'.s);
    NothingLost(p.s, es, id, stream, Credit(p));
    PairCarries(p, acts, id, mode.Ignore?, m);
    BorneIsStream(sent, id, stream, mode);
    FlyingIsLast(p, acts, id);
    EndIsInt(p'.flying, sent);
    BorneIsStream(p'.flying, id, stream, mode);
    Together(Queued(m, p.s.packets), Carried(es, id, mode.Ignore?, m), StreamBytes(p'.flying, stream, mode));
  }

  // ----- A writer and a reader -----

  /** The calls of the sending end in a run. */
  function Calls(acts: seq<Act>): seq<S.Event> {
    if acts == [] then [] else (if acts[0].Sends? then [acts[0].call] else []) + Calls(acts[1..])
  }

  /** What happens at the sending end is a run of its own. */
  lemma {:induction false} PairSends(p: Pair, acts: seq<Act>, id: U32)
    requires Linked(p, id) && AllAllowed(p, acts, id)
    ensures S.RunOk(p.h, Calls(acts)) && S.Run(p.h, Calls(acts)) == (After(p, acts, id).h, SentBy(p, acts, id))
    decreases |acts|
  {
    hide Linked, Apply, Roomy, ToldBy, PaidBy, EventOf, S.Step, S.EventOk, R.GrantsOf, S.Run, S.RunOk;
    if acts == [] {
      NothingDone(p, id);
      R.NoCalls(p.h);
    } else {
      RunStep(p, acts, id);
      var p', t := Do(p, acts[0], id), acts[1..];
      PairSends(p', t, id);
      if acts[0].Sends? {
        R.RunCons(p.h, acts[0].call, Calls(t));
      } else {
        assert [] + Calls(t) == Calls(t) && [] + SentBy(p', t, id) == SentBy(p', t, id);
      }
    }
  }

  /** Messages that are all on one stream carry all their bytes to its readers, unless they are ignored. */
  lemma {:induction false} AllOnStream(ms: seq<S.Message>, stream: int, mode: Mode)
    requires R.AllOn(ms, stream) && (stream == 0 || !mode.Ignore?)
    ensures StreamBytes(ms, stream, mode) == R.Bytes(ms)
  {
    if ms == [] {
    } else {
      AllOnStream(ms[1..], stream, mode);
      assert ms[0].Data? && ms[0].stream == stream;
    }
  }

  /**
   * One end writes a buffer by looping on writes, while both ends do whatever else: what
   * the reader has been delivered, then what is queued for it and what is under way to it,
   * is exactly the part of the buffer that the writer counts as written.
   */
  lemma WrittenIsRead(p: Pair, acts: seq<Act>, id: U32, stream: int, buf: Octets, env: seq<R.Meets>)
    requires Linked(p, id) && AllAllowed(p, acts, id) && p.flying == [] && p.h.writeStage == S.Idle
    requires Calls(acts) == R.PumpCalls(p.h, stream, buf, 0, env)
    requires -0x8000_0000 <= stream < 0x8000_0000 && (stream == 0 || !p.s.chans[id].mode.Ignore?)
    requires AllLeave(Received(p, acts, id), id, stream, p.s.chans[id].mode.Merge?)
    requires AllValid(p.s.packets) && Queued(ChoiceOf(p.s, id, stream), p.s.packets) == []
    ensures AllUnblocked(Received(p, acts, id))
    ensures var p', m := After(p, acts, id), ChoiceOf(p.s, id, stream);
            && AllValid(p'.s.packets) && R.Pump(p.h, stream, buf, 0, env).wr <= |buf|
            && Delivered(p.s, Received(p, acts, id), id, stream) + Queued(m, p'.s.packets)
               + StreamBytes(p'.flying, stream, p.s.chans[id].mode)
               == buf[..R.Pump(p.h, stream, buf, 0, env).wr]
  {
    hide Queued, Wanted, Delivered, Inv, Ready, AllLeave, After, Received, SentBy, AllAllowed, StreamBytes, Credit,
      R.Cut, R.Small, R.Pump, R.PumpCalls, R.Bytes, S.Run, S.RunOk, Calls;
    PairSends(p, acts, id);
    R.PumpIsRun(p.h, stream, buf, 0, env);
    R.PumpExact(p.h, stream, buf, 0, env);
    var sent, mode := SentBy(p, acts, id), p.s.chans[id].mode;
    assert [] + sent == sent;
    AllOnStream(sent, stream, mode);
    assert AllInt(sent);
    EndToEnd(p, acts, id, stream);
    assert [] + StreamBytes(sent, stream, mode) == StreamBytes(sent, stream, mode);
  }
}
