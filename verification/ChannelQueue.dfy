/**
 * The one list of received packets that all channels of a session share, as
 * libssh2/src/channel.c reads from it and flushes it.
 */
module ChannelQueue {
  import opened Octets

  const MSG_DATA: Octet := 94
  const MSG_EXTENDED_DATA: Octet := 95

  /** `LIBSSH2_PACKET`: the payload, and where its unread part starts. */
  datatype Packet = Packet(data: Octets, head: nat) {
    predicate Valid() { head <= |data| }
    function Unread(): Octets
      requires Valid()
    {
      data[head..]
    }
  }

  ghost predicate AllValid(ps: seq<Packet>) { forall i :: 0 <= i < |ps| ==> ps[i].Valid() }

  // ----- Whose packet it is -----

  /** A data packet of the channel with this id, of whatever stream. */
  predicate OfChannel(id: U32, d: Octets) {
    5 <= |d| && (d[0] == MSG_DATA || d[0] == MSG_EXTENDED_DATA) && Load32(d, 1) == id
  }

  /** The conversion of a 32-bit code to `int`. */
  function ToInt(n: U32): int { if n < 0x8000_0000 then n else n - TWO32 }

  /** The test of `_libssh2_channel_read`: this packet has data for this read. */
  predicate Wanted(id: U32, stream: int, merge: bool, d: Octets) {
    && 5 <= |d| && Load32(d, 1) == id
    && (if stream != 0 then d[0] == MSG_EXTENDED_DATA && 9 <= |d| && stream == ToInt(Load32(d, 5))
        else d[0] == MSG_DATA || (d[0] == MSG_EXTENDED_DATA && merge))
  }

  const FLUSH_EXTENDED_DATA := -1
  const FLUSH_ALL := -2

  /** The test of `_libssh2_channel_flush`: this packet is to go. */
  predicate Flushable(id: U32, stream: int, d: Octets) {
    && OfChannel(id, d)
    && (if d[0] == MSG_DATA then stream == FLUSH_ALL || stream == 0
        else 9 <= |d| && (stream == FLUSH_ALL || stream == FLUSH_EXTENDED_DATA || stream == ToInt(Load32(d, 5))))
  }

  /** Any choice of packets by their payload. */
  type Choice = Octets -> bool

  function Of(id: U32): Choice { d => OfChannel(id, d) }

  function WantedBy(id: U32, stream: int, merge: bool): Choice { d => Wanted(id, stream, merge, d) }

  function FlushedBy(id: U32, stream: int): Choice { d => Flushable(id, stream, d) }

  ghost predicate Within(r: Choice, m: Choice) { forall d: Octets :: r(d) ==> m(d) }

  ghost predicate Apart(r: Choice, m: Choice) { forall d: Octets :: !(r(d) && m(d)) }

  // ----- What is queued -----

  /** The unread bytes of the chosen packets, in order. */
  function Queued(r: Choice, ps: seq<Packet>): Octets
    requires AllValid(ps)
  {
    if ps == [] then [] else if r(ps[0].data) then ps[0].Unread() + Queued(r, ps[1..]) else Queued(r, ps[1..])
  }

  /** The packets that are not chosen. */
  function Others(r: Choice, ps: seq<Packet>): seq<Packet> {
    if ps == [] then [] else if r(ps[0].data) then Others(r, ps[1..]) else [ps[0]] + Others(r, ps[1..])
  }

  /** What a read takes from the queue, and the queue it leaves. */
  datatype Drained = Drained(out: Octets, rest: seq<Packet>)

  /** Reading up to `want` bytes of the chosen packets: drained packets go, the last may be left half read. */
  function Drain(r: Choice, ps: seq<Packet>, want: nat): Drained
    requires AllValid(ps)
  {
    if ps == [] || want == 0 then Drained([], ps) else
    var p := ps[0];
    if !r(p.data) then
      var d := Drain(r, ps[1..], want);
      Drained(d.out, [p] + d.rest)
    else if want >= |p.Unread()| then
      var d := Drain(r, ps[1..], want - |p.Unread()|);
      Drained(p.Unread() + d.out, d.rest)
    else
      Drained(p.Unread()[..want], [p.(head := p.head + want)] + ps[1..])
  }

  lemma QueuedCons(r: Choice, p: Packet, ps: seq<Packet>)
    requires p.Valid() && AllValid(ps)
    ensures AllValid([p] + ps)
    ensures Queued(r, [p] + ps) == if r(p.data) then p.Unread() + Queued(r, ps) else Queued(r, ps)
    ensures Others(r, [p] + ps) == if r(p.data) then Others(r, ps) else [p] + Others(r, ps)
  {
    assert ([p] + ps)[1..] == ps;
  }

  /** First in, first out: what is taken, then what stays queued, is what was queued. */
  lemma {:induction false} DrainFifo(r: Choice, ps: seq<Packet>, want: nat)
    requires AllValid(ps)
    ensures var d := Drain(r, ps, want);
            && AllValid(d.rest)
            && d.out + Queued(r, d.rest) == Queued(r, ps)
            && Others(r, d.rest) == Others(r, ps)
  {
    hide Queued, Others;
    if ps != [] && want != 0 {
      var p, tail := ps[0], ps[1..];
      assert ps == [p] + tail;
      QueuedCons(r, p, tail);
      if !r(p.data) {
        DrainFifo(r, tail, want);
        QueuedCons(r, p, Drain(r, tail, want).rest);
      } else if want >= |p.Unread()| {
        var n := |p.Unread()|;
        DrainFifo(r, tail, want - n);
        var d := Drain(r, tail, want - n);
        assert p.Unread() + d.out + Queued(r, d.rest) == p.Unread() + (d.out + Queued(r, d.rest));
      } else {
        var p' := p.(head := p.head + want);
        QueuedCons(r, p', tail);
        assert p.Unread() == p.Unread()[..want] + p'.Unread();
        assert p.Unread()[..want] + (p'.Unread() + Queued(r, tail)) == p.Unread() + Queued(r, tail);
      }
    } else {
      assert [] + Queued(r, ps) == Queued(r, ps);
    }
  }

  /** A read takes as much as there is and as it has room for. */
  lemma {:induction false} DrainAmount(r: Choice, ps: seq<Packet>, want: nat)
    requires AllValid(ps)
    ensures |Drain(r, ps, want).out| == if want < |Queued(r, ps)| then want else |Queued(r, ps)|
  {
    if ps == [] || want == 0 {
    } else {
      if !r(ps[0].data) {
        DrainAmount(r, ps[1..], want);
      } else if want >= |ps[0].Unread()| {
        DrainAmount(r, ps[1..], want - |ps[0].Unread()|);
      }
    }
  }

  /** Packets chosen by no one here are left alone, so what they hold is left alone. */
  lemma {:induction false} QueuedApart(r: Choice, m: Choice, ps: seq<Packet>)
    requires AllValid(ps) && Apart(r, m)
    ensures AllValid(Others(r, ps)) && Queued(m, Others(r, ps)) == Queued(m, ps)
  {
    if ps == [] {
    } else {
      QueuedApart(r, m, ps[1..]);
      if !r(ps[0].data) {
        QueuedCons(m, ps[0], Others(r, ps[1..]));
      }
    }
  }

  lemma DrainApart(r: Choice, m: Choice, ps: seq<Packet>, want: nat)
    requires AllValid(ps) && Apart(r, m)
    ensures AllValid(Drain(r, ps, want).rest)
    ensures Queued(m, Drain(r, ps, want).rest) == Queued(m, ps)
  {
    hide Drain, Apart;
    DrainFifo(r, ps, want);
    QueuedApart(r, m, ps);
    QueuedApart(r, m, Drain(r, ps, want).rest);
  }

  /** Taking from part of a channel's packets takes that much from the channel. */
  lemma {:induction false} DrainWithin(r: Choice, m: Choice, ps: seq<Packet>, want: nat)
    requires AllValid(ps) && Within(r, m)
    ensures AllValid(Drain(r, ps, want).rest)
    ensures |Queued(m, Drain(r, ps, want).rest)| + |Drain(r, ps, want).out| == |Queued(m, ps)|
  {
    DrainFifo(r, ps, want);
    if ps == [] || want == 0 {
    } else {
      var p, tail := ps[0], ps[1..];
      if !r(p.data) {
        DrainWithin(r, m, tail, want);
        DrainFifo(r, tail, want);
        QueuedCons(m, p, Drain(r, tail, want).rest);
      } else if want >= |p.Unread()| {
        DrainWithin(r, m, tail, want - |p.Unread()|);
      } else {
        QueuedCons(m, p.(head := p.head + want), tail);
      }
    }
  }

  /** Removing part of a channel's packets takes that much from the channel. */
  lemma {:induction false} OthersWithin(r: Choice, m: Choice, ps: seq<Packet>)
    requires AllValid(ps) && Within(r, m)
    ensures AllValid(Others(r, ps))
    ensures |Queued(m, Others(r, ps))| + |Queued(r, ps)| == |Queued(m, ps)|
  {
    if ps == [] {
    } else {
      OthersWithin(r, m, ps[1..]);
      if !r(ps[0].data) {
        QueuedCons(m, ps[0], Others(r, ps[1..]));
      }
    }
  }

  lemma {:induction false} QueuedAppend(r: Choice, ps: seq<Packet>, p: Packet)
    requires AllValid(ps) && p.Valid()
    ensures AllValid(ps + [p])
    ensures Queued(r, ps + [p]) == if r(p.data) then Queued(r, ps) + p.Unread() else Queued(r, ps)
  {
    if ps == [] {
      assert [] + [p] == [p];
      QueuedCons(r, p, []);
    } else {
      QueuedAppend(r, ps[1..], p);
      assert (ps + [p])[1..] == ps[1..] + [p];
    }
  }

  // ----- Properties kept packet by packet -----

  /** A property of packets that reading part of a packet keeps. */
  ghost predicate Stable(good: Packet -> bool) {
    forall d: Octets, h: nat, h': nat :: good(Packet(d, h)) && h <= h' <= |d| ==> good(Packet(d, h'))
  }

  ghost predicate All(good: Packet -> bool, ps: seq<Packet>) { forall i :: 0 <= i < |ps| ==> good(ps[i]) }

  lemma {:induction false} DrainKeeps(good: Packet -> bool, r: Choice, ps: seq<Packet>, want: nat)
    requires AllValid(ps) && Stable(good) && All(good, ps)
    ensures All(good, Drain(r, ps, want).rest)
  {
    if ps == [] || want == 0 {
    } else {
      var p, tail := ps[0], ps[1..];
      if !r(p.data) {
        DrainKeeps(good, r, tail, want);
      } else if want >= |p.Unread()| {
        DrainKeeps(good, r, tail, want - |p.Unread()|);
      }
    }
  }

  lemma {:induction false} OthersKeep(good: Packet -> bool, r: Choice, ps: seq<Packet>)
    requires All(good, ps)
    ensures All(good, Others(r, ps))
    ensures forall i :: 0 <= i < |Others(r, ps)| ==> !r(Others(r, ps)[i].data)
  {
    if ps == [] {
    } else {
      OthersKeep(good, r, ps[1..]);
    }
  }

  /** What belongs to one channel belongs to no other. */
  lemma ChoicesOfChannel(id: U32, stream: int, merge: bool)
    ensures Within(WantedBy(id, stream, merge), Of(id))
    ensures Within(FlushedBy(id, stream), Of(id))
    ensures forall other: U32 :: other != id ==> Apart(WantedBy(id, stream, merge), Of(other))
                                                 && Apart(FlushedBy(id, stream), Of(other)) && Apart(Of(id), Of(other))
  {}
}
