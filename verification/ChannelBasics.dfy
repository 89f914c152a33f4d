/** What the receiving and the sending half of a channel have in common. */
module ChannelBasics {
  import opened Octets

  const ERROR_SOCKET_SEND := -7
  const ERROR_EAGAIN := -37

  /** What the transport returns for a failure. */
  type ErrorCode = rc: int | rc < 0 && rc != ERROR_EAGAIN witness -1

  /** What becomes of a message handed to the transport. */
  datatype Send = Sent | Again | Failed(error: ErrorCode)

  function Sum(xs: seq<U32>): nat { if xs == [] then 0 else xs[0] + Sum(xs[1..]) }

  lemma NoSum()
    ensures Sum([]) == 0
  {}

  lemma OneSum(x: U32)
    ensures Sum([x]) == x
  {
    assert [x][1..] == [];
  }

  lemma {:induction false} SumAppend(xs: seq<U32>, ys: seq<U32>)
    ensures Sum(xs + ys) == Sum(xs) + Sum(ys)
  {
    if xs == [] {
      assert [] + ys == ys;
    } else {
      SumAppend(xs[1..], ys);
      assert (xs + ys)[1..] == xs[1..] + ys;
    }
  }

  /** How many elements are of a kind. */
  function Count<T>(kind: T -> bool, xs: seq<T>): nat {
    if xs == [] then 0 else (if kind(xs[0]) then 1 else 0) + Count(kind, xs[1..])
  }

  lemma CountNone<T>(kind: T -> bool)
    ensures Count(kind, []) == 0
  {}

  lemma CountOne<T>(kind: T -> bool, x: T)
    ensures Count(kind, [x]) == if kind(x) then 1 else 0
  {
    assert [x][1..] == [];
  }

  lemma {:induction false} CountAppend<T>(kind: T -> bool, xs: seq<T>, ys: seq<T>)
    ensures Count(kind, xs + ys) == Count(kind, xs) + Count(kind, ys)
  {
    if xs == [] {
      assert [] + ys == ys;
    } else {
      CountAppend(kind, xs[1..], ys);
      assert (xs + ys)[1..] == xs[1..] + ys;
    }
  }

  /** Whatever is counted is there. */
  lemma {:induction false} CountMember<T>(kind: T -> bool, xs: seq<T>, i: nat)
    requires i < |xs| && kind(xs[i])
    ensures Count(kind, xs) >= 1
  {
    if i == 0 {
    } else {
      CountMember(kind, xs[1..], i - 1);
    }
  }

  lemma {:induction false} CountWitness<T>(kind: T -> bool, xs: seq<T>)
    requires forall i :: 0 <= i < |xs| ==> !kind(xs[i])
    ensures Count(kind, xs) == 0
  {
    if xs == [] {
    } else {
      CountWitness(kind, xs[1..]);
    }
  }
}
