/**
 * The identity list of an SSH agent, as libssh2/src/agent.c parses it out of the
 * agent's answer: the message type, a count, and that many records of a
 * length-prefixed key blob and a length-prefixed comment.
 */
module AgentIdentities {
  import opened Octets

  const IDENTITIES_ANSWER: Octet := 12
  const ERROR_AGENT_PROTOCOL := -42

  datatype Identity = Identity(blob: Octets, comment: Octets) {
    predicate Fits() { |blob| < TWO32 && |comment| < TWO32 }
  }

  // ----- The wire format -----

  function EncodeOne(x: Identity): Octets
    requires x.Fits()
  {
    Store32(|x.blob|) + x.blob + Store32(|x.comment|) + x.comment
  }

  ghost predicate AllFit(xs: seq<Identity>) { |xs| < TWO32 && forall i :: 0 <= i < |xs| ==> xs[i].Fits() }

  function EncodeAll(xs: seq<Identity>): Octets
    requires AllFit(xs)
  {
    if xs == [] then [] else EncodeOne(xs[0]) + EncodeAll(xs[1..])
  }

  /** The answer an agent holding `xs` gives. */
  function Answer(xs: seq<Identity>): Octets
    requires AllFit(xs)
  {
    [IDENTITIES_ANSWER] + Store32(|xs|) + EncodeAll(xs)
  }

  // ----- Reading records -----

  /** A record is complete at the front of `b`. */
  predicate Complete(b: Octets) {
    && 4 <= |b|
    && 4 + Load32(b, 0) + 4 <= |b|
    && 4 + Load32(b, 0) + 4 + Load32(b, 4 + Load32(b, 0)) <= |b|
  }

  function Size(b: Octets): (n: nat)
    requires Complete(b)
    ensures n <= |b|
  {
    4 + Load32(b, 0) + 4 + Load32(b, 4 + Load32(b, 0))
  }

  function First(b: Octets): Identity
    requires Complete(b)
  {
    var m := 4 + Load32(b, 0);
    Identity(b[4..m], b[m + 4..Size(b)])
  }

  /** The complete records at the front of `b`, but no more than `n`. */
  function Records(b: Octets, n: nat): (xs: seq<Identity>)
    ensures |xs| <= n && forall i :: 0 <= i < |xs| ==> xs[i].Fits()
  {
    if n == 0 || !Complete(b) then [] else [First(b)] + Records(b[Size(b)..], n - 1)
  }

  /** A complete record is the encoding of what is read from it. */
  lemma FirstEncoded(b: Octets)
    requires Complete(b)
    ensures First(b).Fits() && EncodeOne(First(b)) == b[..Size(b)]
  {
    hide Load32, Store32;
    var m := 4 + Load32(b, 0);
    StoreLoaded(b, 0);
    StoreLoaded(b, m);
    assert b[..Size(b)] == b[0..4] + b[4..m] + b[m..m + 4] + b[m + 4..Size(b)];
  }

  /** What starts with the encoding of a record is complete and reads back as that record. */
  lemma EncodedFirst(x: Identity, b: Octets)
    requires x.Fits() && EncodeOne(x) <= b
    ensures Complete(b) && Size(b) == |EncodeOne(x)| && First(b) == x
  {
    hide Load32, Store32;
    var e := EncodeOne(x);
    var m := 4 + |x.blob|;
    assert forall i :: 0 <= i < |e| ==> b[i] == e[i];
    assert b[0..4] == e[0..4] == Store32(|x.blob|);
    LoadStored(|x.blob|, b, 0);
    assert b[m..m + 4] == e[m..m + 4] == Store32(|x.comment|);
    LoadStored(|x.comment|, b, m);
    assert b[4..m] == e[4..m] == x.blob;
    assert b[m + 4..|e|] == e[m + 4..] == x.comment;
  }

  lemma {:induction false} RecordsEncoded(b: Octets, n: nat)
    requires n < TWO32
    ensures EncodeAll(Records(b, n)) <= b
  {
    hide Complete, Size, First, EncodeOne;
    if n == 0 || !Complete(b) {
    } else {
      FirstEncoded(b);
      var rest := b[Size(b)..];
      RecordsEncoded(rest, n - 1);
      var xs := Records(b, n);
      assert xs[1..] == Records(rest, n - 1);
      assert EncodeAll(xs) == b[..Size(b)] + EncodeAll(xs[1..]);
    }
  }

  /** Any list of records encoded at the front of `b` is where reading `b` starts. */
  lemma {:induction false} RecordsLongest(b: Octets, n: nat, xs: seq<Identity>)
    requires AllFit(xs) && |xs| <= n && EncodeAll(xs) <= b
    ensures xs <= Records(b, n)
  {
    hide Complete, Size, First, EncodeOne;
    if xs == [] {
    } else {
      var e := EncodeOne(xs[0]);
      assert e <= EncodeAll(xs) <= b;
      EncodedFirst(xs[0], b);
      assert EncodeAll(xs[1..]) == EncodeAll(xs)[|e|..] <= b[|e|..];
      RecordsLongest(b[|e|..], n - 1, xs[1..]);
    }
  }

  // ----- Answers -----

  /** The response opens with the answer of an agent that holds `xs`; anything may follow. */
  ghost predicate Answers(response: Octets, xs: seq<Identity>) { AllFit(xs) && Answer(xs) <= response }

  predicate HasHeader(response: Octets) { 5 <= |response| && response[0] == IDENTITIES_ANSWER }

  /** What a response holds, as far as it is complete. */
  function Held(response: Octets): seq<Identity> {
    if HasHeader(response) then Records(response[5..], Load32(response, 1)) else []
  }

  /** A response answers with `xs` if and only if that is what it holds, in full. */
  lemma AnswersIffHeld(response: Octets, xs: seq<Identity>)
    ensures Answers(response, xs) <==>
            HasHeader(response) && |Held(response)| == Load32(response, 1) && xs == Held(response)
  {
    hide Load32, Store32, Records, EncodeAll;
    if Answers(response, xs) {
      var a := Answer(xs);
      assert forall i :: 0 <= i < |a| ==> response[i] == a[i];
      assert response[1..5] == a[1..5] == Store32(|xs|);
      LoadStored(|xs|, response, 1);
      assert EncodeAll(xs) == a[5..] <= response[5..];
      RecordsLongest(response[5..], |xs|, xs);
    }
    if HasHeader(response) && |Held(response)| == Load32(response, 1) && xs == Held(response) {
      RecordsEncoded(response[5..], |xs|);
      StoreLoaded(response, 1);
      assert response == [response[0]] + response[1..5] + response[5..];
      assert Answer(xs) <= response;
    }
  }

  /** An answer in octets: one key, a blob of one octet and a comment of two. */
  lemma OneKey()
    ensures var response := [12, 0, 0, 0, 1, 0, 0, 0, 1, 65, 0, 0, 0, 2, 66, 67];
            Held(response) == [Identity([65], [66, 67])] && Answers(response, [Identity([65], [66, 67])])
  {
    hide Held, Records;
    var x := Identity([65], [66, 67]);
    var xs := [x];
    assert Store32(1) == [0, 0, 0, 1] && Store32(2) == [0, 0, 0, 2];
    assert EncodeOne(x) == [0, 0, 0, 1] + [65] + [0, 0, 0, 2] + [66, 67] == [0, 0, 0, 1, 65, 0, 0, 0, 2, 66, 67];
    assert xs[1..] == [] && EncodeAll(xs) == EncodeOne(x) + [];
    assert Answer(xs) == [12] + [0, 0, 0, 1] + [0, 0, 0, 1, 65, 0, 0, 0, 2, 66, 67];
    var response := [12, 0, 0, 0, 1, 0, 0, 0, 1, 65, 0, 0, 0, 2, 66, 67];
    assert Answer(xs) == response;
    AnswersIffHeld(response, xs);
  }

  // ----- The code -----

  class Agent {
    var identities: seq<Identity>

    constructor ()
      ensures identities == []
    {
      identities := [];
    }

    /** The parsing loop of `agent_list_identities` over the agent's response. */
    method ListIdentities(response: Octets) returns (rc: int)
      modifies this
      ensures identities == old(identities) + Held(response)
      ensures rc == 0 || rc == -42
      ensures rc == 0 <==> exists xs :: Answers(response, xs)
      ensures forall xs :: Answers(response, xs) ==> identities == old(identities) + xs
    {
      hide Answers, AllFit;
      forall xs
        ensures Answers(response, xs) <==>
                HasHeader(response) && |Held(response)| == Load32(response, 1) && xs == Held(response)
      {
        AnswersIffHeld(response, xs);
      }
      rc := Parse(response);
      assert rc == 0 ==> Answers(response, Held(response));
    }

    method Parse(response: Octets) returns (rc: int)
      modifies this
      ensures identities == old(identities) + Held(response)
      ensures rc == 0 || rc == -42
      ensures rc == 0 <==> HasHeader(response) && |Held(response)| == Load32(response, 1)
    {
      hide Load32;
      var len := |response|;
      var s := 0;
      len := len - 1;
      if len < 0 {
        return ERROR_AGENT_PROTOCOL;
      }
      if response[s] != IDENTITIES_ANSWER {
        return ERROR_AGENT_PROTOCOL;
      }
      s := s + 1;
      len := len - 4;
      if len < 0 {
        return ERROR_AGENT_PROTOCOL;
      }
      var num: int := Load32(response, s);
      s := s + 4;
      var total := num;
      ghost var before := identities;
      while num > 0
        invariant 0 <= num <= total && 5 <= s && 0 <= len && s + len == |response|
        invariant |before| + total - num == |identities|
        invariant identities + Records(response[s..], num) == before + Held(response)
      {
        ghost var b := response[s..];
        len := len - 4;
        if len < 0 {
          return ERROR_AGENT_PROTOCOL;
        }
        LoadTail(response, s, 0);
        var blobLen: int := Load32(response, s);
        s := s + 4;
        len := len - blobLen;
        if len < 0 {
          return ERROR_AGENT_PROTOCOL;
        }
        var blob := response[s..s + blobLen];
        s := s + blobLen;
        len := len - 4;
        if len < 0 {
          return ERROR_AGENT_PROTOCOL;
        }
        LoadTail(response, s - 4 - blobLen, 4 + blobLen);
        var commentLen: int := Load32(response, s);
        s := s + 4;
        if commentLen > len {
          return ERROR_AGENT_PROTOCOL;
        }
        len := len - commentLen;
        var comment := response[s..s + commentLen];
        s := s + commentLen;
        assert Identity(blob, comment) == First(b);
        assert response[s..] == b[Size(b)..];
        identities := identities + [Identity(blob, comment)];
        num := num - 1;
      }
      rc := 0;
    }
  }

  lemma LoadTail(b: Octets, s: nat, i: nat)
    requires s + i + 4 <= |b|
    ensures Load32(b[s..], i) == Load32(b, s + i)
  {}
}
