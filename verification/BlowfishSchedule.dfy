/**
 * The key schedules of libssh2/src/blowfish.c: byte streams read cyclically, and
 * 521 encipherments that overwrite the tables they are using.
 */
module BlowfishSchedule {
  import opened Arithmetic
  import opened BlowfishCipher
  import opened BlowfishModes

  // ----- Cyclic byte streams -----

  /** Byte `t` of the endless repetition of `data`. */
  function StreamByte(data: seq<Byte>, t: nat): Byte
    requires data != []
  {
    data[t % |data|]
  }

  /** The four stream bytes from `t` on, as a word. */
  function StreamWord(data: seq<Byte>, t: nat): Word
    requires data != []
  {
    Pack(StreamByte(data, t), StreamByte(data, t + 1), StreamByte(data, t + 2), StreamByte(data, t + 3))
  }

  /** A stored position stands for having consumed `t` bytes; the end of the data stands for its start. */
  ghost predicate Stands(current: nat, t: nat, n: nat)
    requires n > 0
  {
    (if current >= n then 0 else current) == t % n
  }

  function ShiftIn(w: Word, b: Byte): Word { (w << 8) | (b as Word) }

  lemma FourShifts(a: Byte, b: Byte, c: Byte, d: Byte)
    ensures ShiftIn(ShiftIn(ShiftIn(ShiftIn(0, a), b), c), d) == Pack(a, b, c, d)
  {}

  /** The first `i` bytes from `t` on, shifted into an empty word. */
  function Shifted(data: seq<Byte>, t: nat, i: nat): Word
    requires data != []
  {
    if i == 0 then 0 else ShiftIn(Shifted(data, t, i - 1), StreamByte(data, t + i - 1))
  }

  lemma ShiftedWord(data: seq<Byte>, t: nat, n: nat)
    requires data != [] && n == 4
    ensures Shifted(data, t, n) == StreamWord(data, t)
  {
    hide ShiftIn, Pack;
    var a, b, c, d := StreamByte(data, t), StreamByte(data, t + 1), StreamByte(data, t + 2), StreamByte(data, t + 3);
    assert Shifted(data, t, n - 3) == ShiftIn(0, a);
    assert Shifted(data, t, n - 2) == ShiftIn(ShiftIn(0, a), b);
    assert Shifted(data, t, n - 1) == ShiftIn(ShiftIn(ShiftIn(0, a), b), c);
    FourShifts(a, b, c, d);
  }

  /** `Blowfish_stream2word`: whatever the position stands for, the next four stream bytes. */
  method Stream2Word(data: seq<Byte>, current: nat, ghost t: nat) returns (word: Word, current': nat)
    requires data != [] && Stands(current, t, |data|)
    ensures word == StreamWord(data, t)
    ensures Stands(current', t + 4, |data|)
  {
    hide ShiftIn, Pack;
    var n: nat := 4;
    var j: nat := current;
    word := 0;
    for i: nat := 0 to n
      invariant word == Shifted(data, t, i)
      invariant Stands(j, t + i, |data|)
    {
      if j >= |data| {
        j := 0;
      }
      word := ShiftIn(word, data[j]);
      ModNext(t + i, |data|);
      j := j + 1;
    }
    ShiftedWord(data, t, n);
    current' := j;
  }

  // ----- The schedules on table values -----

  const PAIRS := 521
  const SUBKEY_PAIRS := 9

  function Mix(a: Word, b: Word): Word { a ^ b }

  /** The subkeys with the key stream mixed in. */
  function KeyMixed(t: Tables, key: seq<Byte>): (r: Tables)
    requires t.Valid() && key != []
    ensures r.Valid() && r.s == t.s
    ensures forall i :: 0 <= i < SUBKEYS ==> r.p[i] == Mix(t.p[i], StreamWord(key, 4 * i))
  {
    t.(p := seq(SUBKEYS, i requires 0 <= i < SUBKEYS => Mix(t.p[i], StreamWord(key, 4 * i))))
  }

  /** The tables with pair `k` overwritten: nine pairs of subkeys, then the S-boxes. */
  function Put(t: Tables, k: nat, x: Pair): (r: Tables)
    requires t.Valid() && k < PAIRS
    ensures r.Valid()
  {
    if k < SUBKEY_PAIRS then t.(p := t.p[2 * k := x.l][2 * k + 1 := x.r])
    else t.(s := t.s[2 * (k - 9) := x.l][2 * (k - 9) + 1 := x.r])
  }

  /** Tables being overwritten, and the block that is enciphered over and over. */
  datatype Progress = Progress(t: Tables, x: Pair)

  /** The first `n` encipherments of `Blowfish_expand0state`. */
  function Rewritten(t: Tables, n: nat): (r: Progress)
    requires t.Valid() && n <= PAIRS
    ensures r.t.Valid()
  {
    if n == 0 then Progress(t, Pair(0, 0)) else
      var was := Rewritten(t, n - 1);
      var x := Enciphered(was.t, was.x);
      Progress(Put(was.t, n - 1, x), x)
  }

  function MixPair(x: Pair, data: seq<Byte>, k: nat): Pair
    requires data != []
  {
    Pair(Mix(x.l, StreamWord(data, 8 * k)), Mix(x.r, StreamWord(data, 8 * k + 4)))
  }

  /** The first `n` encipherments of `Blowfish_expandstate`, each mixing in eight bytes of data first. */
  function RewrittenWith(t: Tables, data: seq<Byte>, n: nat): (r: Progress)
    requires t.Valid() && data != [] && n <= PAIRS
    ensures r.t.Valid()
  {
    if n == 0 then Progress(t, Pair(0, 0)) else
      var was := RewrittenWith(t, data, n - 1);
      var x := Enciphered(was.t, MixPair(was.x, data, n - 1));
      Progress(Put(was.t, n - 1, x), x)
  }

  function Expanded0(t: Tables, key: seq<Byte>): Tables
    requires t.Valid() && key != []
  {
    Rewritten(KeyMixed(t, key), PAIRS).t
  }

  function Expanded(t: Tables, data: seq<Byte>, key: seq<Byte>): Tables
    requires t.Valid() && data != [] && key != []
  {
    RewrittenWith(KeyMixed(t, key), data, PAIRS).t
  }

  // ----- What the schedules promise -----

  lemma MixZeros(x: Pair, data: seq<Byte>, k: nat)
    requires data != [] && forall i :: 0 <= i < |data| ==> data[i] == 0
    ensures MixPair(x, data, k) == x
  {
    assert StreamWord(data, 8 * k) == 0 && StreamWord(data, 8 * k + 4) == 0;
  }

  lemma {:induction false} RewrittenWithZeros(t: Tables, data: seq<Byte>, n: nat)
    requires t.Valid() && n <= PAIRS
    requires data != [] && forall i :: 0 <= i < |data| ==> data[i] == 0
    ensures RewrittenWith(t, data, n) == Rewritten(t, n)
  {
    hide Enciphered, MixPair, Put;
    if n == 0 {
    } else {
      RewrittenWithZeros(t, data, n - 1);
      MixZeros(Rewritten(t, n - 1).x, data, n - 1);
    }
  }

  /** `Blowfish_expandstate` over any all-zero data is `Blowfish_expand0state`. */
  lemma ExpandWithZeros(t: Tables, data: seq<Byte>, key: seq<Byte>)
    requires t.Valid() && key != []
    requires data != [] && forall i :: 0 <= i < |data| ==> data[i] == 0
    ensures Expanded(t, data, key) == Expanded0(t, key)
  {
    hide RewrittenWith, Rewritten;
    RewrittenWithZeros(KeyMixed(t, key), data, PAIRS);
  }

  /** The key bytes a schedule uses: `BLF_MAXUTILIZED`, four for each subkey. */
  const UTILIZED := 72

  ghost predicate SameStream(a: seq<Byte>, b: seq<Byte>, n: nat)
    requires a != [] && b != []
  {
    forall t: nat :: t < n ==> StreamByte(a, t) == StreamByte(b, t)
  }

  lemma MixCancels(a: Word, v: Word, w: Word)
    ensures Mix(a, v) == Mix(a, w) <==> v == w
  {
    assert (a ^ v) ^ a == v && (a ^ w) ^ a == w;
  }

  lemma SameWord(a: seq<Byte>, b: seq<Byte>, t: nat)
    requires a != [] && b != []
    ensures StreamWord(a, t) == StreamWord(b, t) <==>
            forall i :: t <= i < t + 4 ==> StreamByte(a, i) == StreamByte(b, i)
  {
    hide StreamByte, Pack, ByteOf;
    PackInverse(StreamByte(a, t), StreamByte(a, t + 1), StreamByte(a, t + 2), StreamByte(a, t + 3));
    PackInverse(StreamByte(b, t), StreamByte(b, t + 1), StreamByte(b, t + 2), StreamByte(b, t + 3));
    if StreamWord(a, t) != StreamWord(b, t) {
      assert StreamByte(a, t) != StreamByte(b, t) || StreamByte(a, t + 1) != StreamByte(b, t + 1)
             || StreamByte(a, t + 2) != StreamByte(b, t + 2) || StreamByte(a, t + 3) != StreamByte(b, t + 3);
    }
  }

  /** Two keys are mixed in alike if and only if their streams agree on the first 72 bytes. */
  lemma KeyMixedIffSameStream(t: Tables, a: seq<Byte>, b: seq<Byte>)
    requires t.Valid() && a != [] && b != []
    ensures KeyMixed(t, a) == KeyMixed(t, b) <==> SameStream(a, b, UTILIZED)
  {
    hide StreamByte, StreamWord, Mix;
    var x, y := KeyMixed(t, a), KeyMixed(t, b);
    forall i | 0 <= i < SUBKEYS
      ensures x.p[i] == y.p[i] <==> forall j :: 4 * i <= j < 4 * i + 4 ==> StreamByte(a, j) == StreamByte(b, j)
    {
      SameWord(a, b, 4 * i);
      MixCancels(t.p[i], StreamWord(a, 4 * i), StreamWord(b, 4 * i));
    }
    if x == y {
      forall j: nat | j < UTILIZED
        ensures StreamByte(a, j) == StreamByte(b, j)
      {
        assert x.p[j / 4] == y.p[j / 4];
      }
    } else {
      assert x.p != y.p;
    }
  }

  /** So keys that agree on those bytes give the same schedule: the rest of a long key is never used. */
  lemma LongKeysTruncate(t: Tables, data: seq<Byte>, key: seq<Byte>)
    requires t.Valid() && data != [] && |key| >= UTILIZED
    ensures Expanded0(t, key) == Expanded0(t, key[..UTILIZED])
    ensures Expanded(t, data, key) == Expanded(t, data, key[..UTILIZED])
  {
    hide Expanded0, Expanded;
    forall i: nat | i < UTILIZED
      ensures StreamByte(key, i) == StreamByte(key[..UTILIZED], i)
    {
      DivModUnique(i, |key|, 0, i);
    }
    SameStreamSameSchedule(t, data, key, key[..UTILIZED]);
  }

  /** A key written out `n` times. */
  function Copies(key: seq<Byte>, n: nat): seq<Byte> { if n == 0 then [] else key + Copies(key, n - 1) }

  lemma {:induction false} CopiesAt(key: seq<Byte>, n: nat, i: nat)
    requires key != [] && i < |Copies(key, n)|
    ensures Copies(key, n)[i] == key[i % |key|]
  {
    if n == 0 {
    } else if i < |key| {
      DivModUnique(i, |key|, 0, i);
    } else {
      CopiesAt(key, n - 1, i - |key|);
      ModLess(i, |key|);
    }
  }

  lemma {:induction false} CopiesSize(key: seq<Byte>, n: nat)
    ensures |Copies(key, n)| == n * |key|
  {
    if n == 0 {
    } else {
      CopiesSize(key, n - 1);
      assert n * |key| == (n - 1) * |key| + |key|;
    }
  }

  lemma ModLess(i: nat, k: nat)
    requires 0 < k <= i
    ensures (i - k) % k == i % k
  {
    var q, r := i / k, i % k;
    DivMod(i, k);
    assert (q - 1) * k == q * k - k;
    DivModUnique(i - k, k, q - 1, r);
  }

  /** Taking the remainder by a multiple first makes no difference. */
  lemma ModOfMultiple(i: nat, k: nat, n: nat, m: nat)
    requires k > 0 && n > 0 && m == n * k
    ensures m > 0 && (i % m) % k == i % k
  {
    MulMono(1, n, k);
    DivMod(i, m);
    DivMod(i % m, k);
    Regroup(i / m, n, k, (i % m) / k);
    DivModUnique(i, k, (i / m) * n + (i % m) / k, (i % m) % k);
  }

  lemma Regroup(q: nat, n: nat, k: nat, q': nat)
    ensures q * (n * k) + q' * k == (q * n + q') * k
  {}

  /** A key written out any number of times is the same key. */
  lemma KeysCycle(t: Tables, data: seq<Byte>, key: seq<Byte>, n: nat)
    requires t.Valid() && data != [] && key != [] && n > 0
    ensures Copies(key, n) != []
    ensures Expanded0(t, Copies(key, n)) == Expanded0(t, key)
    ensures Expanded(t, data, Copies(key, n)) == Expanded(t, data, key)
  {
    hide Expanded0, Expanded, Copies;
    var many := Copies(key, n);
    CopiesSize(key, n);
    MulMono(1, n, |key|);
    forall i: nat | i < UTILIZED
      ensures StreamByte(many, i) == StreamByte(key, i)
    {
      ModOfMultiple(i, |key|, n, |many|);
      DivMod(i, |many|);
      CopiesAt(key, n, i % |many|);
    }
    SameStreamSameSchedule(t, data, many, key);
  }

  lemma SameStreamSameSchedule(t: Tables, data: seq<Byte>, a: seq<Byte>, b: seq<Byte>)
    requires t.Valid() && data != [] && a != [] && b != [] && SameStream(a, b, UTILIZED)
    ensures Expanded0(t, a) == Expanded0(t, b)
    ensures Expanded(t, data, a) == Expanded(t, data, b)
  {
    hide RewrittenWith, Rewritten, KeyMixed, StreamByte;
    KeyMixedIffSameStream(t, a, b);
  }

  // ----- The code -----

  method MixKey(c: Context, key: seq<Byte>)
    requires c.Valid() && key != []
    modifies c.p
    ensures c.View() == KeyMixed(old(c.View()), key)
  {
    hide Stands, StreamWord, Mix;
    ghost var t := c.View();
    var j := 0;
    assert Stands(j, 0, |key|) by { StandsAtStart(|key|); }
    for i := 0 to SUBKEYS
      invariant Stands(j, 4 * i, |key|)
      invariant forall m :: 0 <= m < i ==> c.p[m] == Mix(t.p[m], StreamWord(key, 4 * m))
      invariant forall m :: i <= m < SUBKEYS ==> c.p[m] == t.p[m]
    {
      var temp;
      temp, j := Stream2Word(key, j, 4 * i);
      c.p[i] := Mix(c.p[i], temp);
    }
    assert c.p[..] == KeyMixed(t, key).p;
  }

  lemma StandsAtStart(n: nat)
    requires n > 0
    ensures Stands(0, 0, n)
  {}

  method PutPair(c: Context, k: nat, l: Word, r: Word)
    requires c.Valid() && k < PAIRS
    modifies c.s, c.p
    ensures c.View() == Put(old(c.View()), k, Pair(l, r))
  {
    if k < SUBKEY_PAIRS {
      c.p[2 * k] := l;
      c.p[2 * k + 1] := r;
    } else {
      c.s[2 * (k - 9)] := l;
      c.s[2 * (k - 9) + 1] := r;
    }
  }

  /** `Blowfish_expand0state`. */
  method ExpandState0(c: Context, key: seq<Byte>)
    requires c.Valid() && key != []
    modifies c.s, c.p
    ensures c.View() == Expanded0(old(c.View()), key)
  {
    hide Enciphered, Put, KeyMixed;
    ghost var t := KeyMixed(c.View(), key);
    MixKey(c, key);
    var l, r := 0, 0;
    var i := 0;
    while i < SUBKEYS
      invariant i <= SUBKEYS && i % 2 == 0
      invariant Rewritten(t, i / 2) == Progress(c.View(), Pair(l, r))
    {
      l, r := c.Encipher(l, r);
      PutPair(c, i / 2, l, r);
      i := i + 2;
    }
    var box := 0;
    while box < 4
      invariant 0 <= box <= 4
      invariant Rewritten(t, 9 + 128 * box) == Progress(c.View(), Pair(l, r))
    {
      var k := 0;
      while k < 256
        invariant 0 <= k <= 256 && k % 2 == 0
        invariant Rewritten(t, 9 + 128 * box + k / 2) == Progress(c.View(), Pair(l, r))
      {
        l, r := c.Encipher(l, r);
        PutPair(c, 9 + 128 * box + k / 2, l, r);
        k := k + 2;
      }
      box := box + 1;
    }
  }

  method MixData(l: Word, r: Word, data: seq<Byte>, j: nat, ghost k: nat) returns (l': Word, r': Word, j': nat)
    requires data != [] && Stands(j, 8 * k, |data|)
    ensures Pair(l', r') == MixPair(Pair(l, r), data, k)
    ensures Stands(j', 8 * (k + 1), |data|)
  {
    hide StreamWord, Mix, Stands;
    var temp;
    temp, j' := Stream2Word(data, j, 8 * k);
    l' := Mix(l, temp);
    temp, j' := Stream2Word(data, j', 8 * k + 4);
    r' := Mix(r, temp);
  }

  /** `Blowfish_expandstate`. */
  method ExpandState(c: Context, data: seq<Byte>, key: seq<Byte>)
    requires c.Valid() && data != [] && key != []
    modifies c.s, c.p
    ensures c.View() == Expanded(old(c.View()), data, key)
  {
    hide Enciphered, Put, KeyMixed, MixPair, Stands;
    ghost var t := KeyMixed(c.View(), key);
    MixKey(c, key);
    var j, l, r := 0, 0, 0;
    StandsAtStart(|data|);
    var i := 0;
    while i < SUBKEYS
      invariant i <= SUBKEYS && i % 2 == 0
      invariant Stands(j, 8 * (i / 2), |data|)
      invariant RewrittenWith(t, data, i / 2) == Progress(c.View(), Pair(l, r))
    {
      l, r, j := MixData(l, r, data, j, i / 2);
      l, r := c.Encipher(l, r);
      PutPair(c, i / 2, l, r);
      i := i + 2;
    }
    var box := 0;
    while box < 4
      invariant 0 <= box <= 4
      invariant Stands(j, 8 * (9 + 128 * box), |data|)
      invariant RewrittenWith(t, data, 9 + 128 * box) == Progress(c.View(), Pair(l, r))
    {
      var k := 0;
      while k < 256
        invariant 0 <= k <= 256 && k % 2 == 0
        invariant Stands(j, 8 * (9 + 128 * box + k / 2), |data|)
        invariant RewrittenWith(t, data, 9 + 128 * box + k / 2) == Progress(c.View(), Pair(l, r))
      {
        l, r, j := MixData(l, r, data, j, 9 + 128 * box + k / 2);
        l, r := c.Encipher(l, r);
        PutPair(c, 9 + 128 * box + k / 2, l, r);
        k := k + 2;
      }
      box := box + 1;
    }
  }
}
