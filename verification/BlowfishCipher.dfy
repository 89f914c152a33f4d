/**
 * The Blowfish block cipher of libssh2/src/blowfish.c: a sixteen-round Feistel
 * network over arbitrary S-boxes and subkeys.
 */
module BlowfishCipher {
  import opened Bits

  type Word = bv32
  type Byte = bv8

  const SUBKEYS := 18
  const SBOX_WORDS := 1024

  /** The contents of `blf_ctx`: the four S-boxes laid end to end, and the subkeys. */
  datatype Tables = Tables(s: seq<Word>, p: seq<Word>) {
    predicate Valid() { |s| == SBOX_WORDS && |p| == SUBKEYS }
  }

  /** Byte `k` of a word, counted from the most significant. */
  function ByteOf(x: Word, k: nat): Byte
    requires k < 4
  {
    if k == 0 then ((x >> 24) & 0xFF) as Byte
    else if k == 1 then ((x >> 16) & 0xFF) as Byte
    else if k == 2 then ((x >> 8) & 0xFF) as Byte
    else (x & 0xFF) as Byte
  }

  /** The word of S-box `k` that byte `k` of `x` selects. */
  function BoxIndex(x: Word, k: nat): (i: nat)
    requires k < 4
    ensures 0x100 * k <= i < 0x100 * (k + 1)
  {
    0x100 * k + ByteOf(x, k) as int
  }

  function Combine(a: Word, b: Word, c: Word, d: Word): Word { Plus(Flipped(Plus(a, b), c), d) }

  /** The Feistel function `F(s, x)`. */
  function F(s: seq<Word>, x: Word): Word
    requires |s| == SBOX_WORDS
  {
    Combine(s[BoxIndex(x, 0)], s[BoxIndex(x, 1)], s[BoxIndex(x, 2)], s[BoxIndex(x, 3)])
  }

  /** The value the macro `BLFRND` gives to a half block `i`. */
  function Mixed(i: Word, f: Word, k: Word): Word { i ^ f ^ k }

  /** A pair of half blocks. */
  datatype Pair = Pair(l: Word, r: Word)

  /** One round of a Feistel network, followed by the conceptual swap of the two halves. */
  function Round(f: Word -> Word, k: Word, x: Pair): Pair {
    Pair(Mixed(x.r, f(x.l), k), x.l)
  }

  /** The first `n` rounds, under subkeys `ks[1]` to `ks[n]`, after whitening with `ks[0]`. */
  function Rounds(f: Word -> Word, ks: seq<Word>, n: nat, x: Pair): Pair
    requires n < |ks|
  {
    if n == 0 then Pair(x.l ^ ks[0], x.r) else Round(f, ks[n], Rounds(f, ks, n - 1, x))
  }

  lemma NoRounds(f: Word -> Word, ks: seq<Word>, x: Pair)
    requires |ks| > 0
    ensures Rounds(f, ks, 0, x) == Pair(x.l ^ ks[0], x.r)
  {}

  /** The whole network for any number of subkeys: whiten, rounds, undo the last swap, whiten. */
  function Network(f: Word -> Word, ks: seq<Word>, x: Pair): Pair
    requires |ks| >= 2
  {
    var y := Rounds(f, ks, |ks| - 2, x);
    Pair(y.r ^ ks[|ks| - 1], y.l)
  }

  function Reverse(ks: seq<Word>): (r: seq<Word>)
    ensures |r| == |ks|
    ensures forall i :: 0 <= i < |ks| ==> r[i] == ks[|ks| - 1 - i]
  {
    if ks == [] then [] else Reverse(ks[1..]) + [ks[0]]
  }

  function RoundFunction(s: seq<Word>): Word -> Word
    requires |s| == SBOX_WORDS
  {
    x => F(s, x)
  }

  function Enciphered(t: Tables, x: Pair): Pair
    requires t.Valid()
  {
    Network(RoundFunction(t.s), t.p, x)
  }

  function Deciphered(t: Tables, x: Pair): Pair
    requires t.Valid()
  {
    Network(RoundFunction(t.s), Reverse(t.p), x)
  }

  lemma XorTwice(a: Word, f: Word, k: Word)
    ensures Mixed(Mixed(a, f, k), f, k) == a
    ensures (a ^ k) ^ k == a
  {}

  /** Running the network over the reversed subkeys retraces its rounds, last round first. */
  lemma {:induction false} RoundsRetrace(f: Word -> Word, ks: seq<Word>, x: Pair, n: nat)
    requires |ks| >= 2 && n <= |ks| - 2
    ensures var y := Rounds(f, ks, |ks| - 2 - n, x);
            Rounds(f, Reverse(ks), n, Network(f, ks, x)) == Pair(y.r, y.l)
  {
    hide Mixed;
    if n == 0 {
      var y := Rounds(f, ks, |ks| - 2, x);
      XorTwice(y.r, 0, ks[|ks| - 1]);
    } else {
      RoundsRetrace(f, ks, x, n - 1);
      var m := |ks| - 2 - n;
      var before := Rounds(f, ks, m, x);
      assert Rounds(f, ks, m + 1, x) == Round(f, ks[m + 1], before);
      assert Reverse(ks)[n] == ks[m + 1];
      XorTwice(before.r, f(before.l), ks[m + 1]);
    }
  }

  /** Under reversed subkeys the network undoes itself, for every round function and round count. */
  lemma NetworkInverse(f: Word -> Word, ks: seq<Word>, x: Pair)
    requires |ks| >= 2
    ensures Network(f, Reverse(ks), Network(f, ks, x)) == x
  {
    hide Reverse;
    RoundsRetrace(f, ks, x, |ks| - 2);
    XorTwice(x.l, 0, ks[0]);
  }

  /** `Blowfish_encipher` and `Blowfish_decipher` are mutual inverses for every context. */
  lemma CipherInverse(t: Tables, x: Pair)
    requires t.Valid()
    ensures Deciphered(t, Enciphered(t, x)) == x
    ensures Enciphered(t, Deciphered(t, x)) == x
  {
    NetworkInverse(RoundFunction(t.s), t.p, x);
    NetworkInverse(RoundFunction(t.s), Reverse(t.p), x);
    assert Reverse(Reverse(t.p)) == t.p;
  }

  /** `blf_ctx`: the tables, in fixed-size buffers that the key schedule overwrites. */
  class Context {
    const s: array<Word>
    const p: array<Word>

    ghost predicate Valid()
      reads this
    {
      s.Length == SBOX_WORDS && p.Length == SUBKEYS && s != p
    }

    ghost function View(): (t: Tables)
      requires Valid()
      reads this, s, p
      ensures t.Valid()
    {
      Tables(s[..], p[..])
    }

    constructor (t: Tables)
      requires t.Valid()
      ensures Valid() && fresh(s) && fresh(p)
      ensures View() == t
    {
      s := new Word[SBOX_WORDS](i requires 0 <= i < SBOX_WORDS => t.s[i]);
      p := new Word[SUBKEYS](i requires 0 <= i < SUBKEYS => t.p[i]);
      new;
      assert s[..] == t.s;
      assert p[..] == t.p;
    }

    /** The macro `BLFRND(s, p, i, j, n)`: returns the new value of `i`. */
    method HalfRound(i: Word, j: Word, n: nat) returns (i': Word)
      requires Valid() && n < SUBKEYS
      ensures i' == Mixed(i, F(s[..], j), p[n])
    {
      var a, b, c, d := s[BoxIndex(j, 0)], s[BoxIndex(j, 1)], s[BoxIndex(j, 2)], s[BoxIndex(j, 3)];
      i' := Mixed(i, Combine(a, b, c, d), p[n]);
    }

    /** Two rounds under subkeys `m` and `n`, which are the next two of the order `ks` in use. */
    method DoubleRound(m: nat, n: nat, xl: Word, xr: Word,
                       ghost f: Word -> Word, ghost ks: seq<Word>, ghost k: nat, ghost x: Pair)
      returns (l: Word, r: Word)
      requires Valid() && m < SUBKEYS && n < SUBKEYS && f == RoundFunction(s[..])
      requires k + 2 < |ks| && ks[k + 1] == p[m] && ks[k + 2] == p[n]
      requires Pair(xl, xr) == Rounds(f, ks, k, x)
      ensures Pair(l, r) == Rounds(f, ks, k + 2, x)
    {
      r := HalfRound(xr, xl, m);
      assert Pair(r, xl) == Rounds(f, ks, k + 1, x);
      l := HalfRound(xl, r, n);
    }

    /** Eight rounds under the listed subkeys. */
    method EightRounds(js: seq<nat>, xl: Word, xr: Word,
                       ghost f: Word -> Word, ghost ks: seq<Word>, ghost k: nat, ghost x: Pair)
      returns (l: Word, r: Word)
      requires Valid() && f == RoundFunction(s[..]) && k + 8 < |ks|
      requires |js| == 8 && forall i :: 0 <= i < 8 ==> js[i] < SUBKEYS && ks[k + 1 + i] == p[js[i]]
      requires Pair(xl, xr) == Rounds(f, ks, k, x)
      ensures Pair(l, r) == Rounds(f, ks, k + 8, x)
    {
      l, r := DoubleRound(js[0], js[1], xl, xr, f, ks, k, x);
      l, r := DoubleRound(js[2], js[3], l, r, f, ks, k + 2, x);
      l, r := DoubleRound(js[4], js[5], l, r, f, ks, k + 4, x);
      l, r := DoubleRound(js[6], js[7], l, r, f, ks, k + 6, x);
    }

    /** A whole pass over the eighteen subkeys in the listed order. */
    method Pass(js: seq<nat>, xl: Word, xr: Word, ghost f: Word -> Word, ghost ks: seq<Word>)
      returns (l: Word, r: Word)
      requires Valid() && f == RoundFunction(s[..]) && |js| == |ks| == SUBKEYS
      requires forall i :: 0 <= i < SUBKEYS ==> js[i] < SUBKEYS && ks[i] == p[js[i]]
      ensures Pair(l, r) == Network(f, ks, Pair(xl, xr))
    {
      hide Rounds, RoundFunction;
      ghost var x, k := Pair(xl, xr), 0;
      l := xl ^ p[js[0]];
      NoRounds(f, ks, x);
      l, r := EightRounds(js[1..9], l, xr, f, ks, k, x);
      l, r := EightRounds(js[9..17], l, r, f, ks, k + 8, x);
      l, r := r ^ p[js[17]], l;
    }

    method Encipher(xl: Word, xr: Word) returns (l: Word, r: Word)
      requires Valid()
      ensures Pair(l, r) == Enciphered(View(), Pair(xl, xr))
    {
      l, r := Pass([0, 1, 2, 3, 4, 5, 6, 7, 8, 9, 10, 11, 12, 13, 14, 15, 16, 17],
                   xl, xr, RoundFunction(s[..]), p[..]);
    }

    method Decipher(xl: Word, xr: Word) returns (l: Word, r: Word)
      requires Valid()
      ensures Pair(l, r) == Deciphered(View(), Pair(xl, xr))
    {
      l, r := Pass([17, 16, 15, 14, 13, 12, 11, 10, 9, 8, 7, 6, 5, 4, 3, 2, 1, 0],
                   xl, xr, RoundFunction(s[..]), Reverse(p[..]));
    }
  }
}
