/**
 * What the pieces of libssh2/src/blowfish.c compute, said in other words than theirs: bytes
 * and words as integers, exclusive-or by bits, the Feistel function by what each S-box word
 * does to it, the modes block by block, the schedules word by word, and values for given
 * tables.
 */
module BlowfishMeaning {
  import opened Bits
  import opened Octets
  import opened BlowfishCipher
  import opened BlowfishModes
  import opened BlowfishSchedule

  // ----- Bytes and words as integers -----

  /** Four bytes are packed most significant first. */
  lemma PackValue(a: Byte, b: Byte, c: Byte, d: Byte)
    ensures Val(Pack(a, b, c, d)) == Val8(a) * 0x100_0000 + Val8(b) * 0x1_0000 + Val8(c) * 0x100 + Val8(d)
  {
    hide Val, Val8;
    Packed(a, b, c, d);
  }

  lemma ByteRange(b: Byte)
    ensures 0 <= Val8(b) < 256
  {}

  lemma WordRange(w: Word)
    ensures 0 <= Val(w) < TWO32
  {}

  /** The bytes of a word are its base-256 digits, most significant first. */
  lemma ByteValue(x: Word)
    ensures Val8(ByteOf(x, 0)) == Val(x) / 0x100_0000
    ensures Val8(ByteOf(x, 1)) == Val(x) / 0x1_0000 % 256
    ensures Val8(ByteOf(x, 2)) == Val(x) / 0x100 % 256
    ensures Val8(ByteOf(x, 3)) == Val(x) % 256
  {
    hide ByteOf, Pack, Val, Val8;
    var a, b, c, d := ByteOf(x, 0), ByteOf(x, 1), ByteOf(x, 2), ByteOf(x, 3);
    UnpackInverse(x);
    PackValue(a, b, c, d);
    ByteRange(a);
    ByteRange(b);
    ByteRange(c);
    ByteRange(d);
    WordRange(x);
    Digits(Val(x), Val8(a), Val8(b), Val8(c), Val8(d));
  }

  // ----- Exclusive-or, bit by bit -----

  lemma XorByteBits(a: Byte, b: Byte, bit: Byte)
    requires bit & (bit - 1) == 0
    ensures Bit8(XorByte(a, b), bit) <==> Bit8(a, bit) != Bit8(b, bit)
  {
    hide Bit8;
    FlipByte(a, b, bit);
  }

  /** Blocks are mixed byte by byte, each bit being the parity of the two. */
  lemma XorBits(a: Block, b: Block, i: nat, bit: Byte)
    requires i < 8 && bit & (bit - 1) == 0
    ensures Bit8(Xor(a, b)[i], bit) <==> Bit8(a[i], bit) != Bit8(b[i], bit)
  {
    hide Bit8, XorByte;
    XorByteBits(a[i], b[i], bit);
  }

  lemma MixBits(a: Word, b: Word, bit: Word)
    requires bit & (bit - 1) == 0
    ensures Bit(Mix(a, b), bit) <==> Bit(a, bit) != Bit(b, bit)
  {
    hide Bit;
    Flip(a, b, bit);
  }

  /** A round mixes the half block with the Feistel function's value and the subkey. */
  lemma MixedBits(i: Word, f: Word, k: Word, bit: Word)
    requires bit & (bit - 1) == 0
    ensures Bit(Mixed(i, f, k), bit) <==> (Bit(i, bit) != (Bit(f, bit) != Bit(k, bit)))
  {
    hide Bit;
    Flip(i ^ f, k, bit);
    Flip(i, f, bit);
  }

  // ----- The Feistel function -----

  /** The word of S-box `k` that a half block selects: by its base-256 digit `k`. */
  function Selected(x: Word, k: nat): nat
    requires k < 4
  {
    var n := Val(x);
    if k == 0 then n / 0x100_0000
    else if k == 1 then 0x100 + n / 0x1_0000 % 256
    else if k == 2 then 0x200 + n / 0x100 % 256
    else 0x300 + n % 256
  }

  lemma SelectedIs(x: Word, k: nat)
    requires k < 4
    ensures Selected(x, k) == BoxIndex(x, k) && 0x100 * k <= Selected(x, k) < 0x100 * (k + 1)
  {
    hide ByteOf, Val;
    ByteValue(x);
  }

  lemma CombineParts(a: Word, b: Word, c: Word, d: Word)
    ensures Combine(a, b, 0, 0) == Plus(a, b)
    ensures Combine(a, b, c, 0) == Flipped(Combine(a, b, 0, 0), c)
    ensures Combine(a, b, c, d) == Plus(Combine(a, b, c, 0), d)
  {
    hide Plus, Flipped;
    PlusIs(Plus(a, b), 0);
    PlusIs(Flipped(Plus(a, b), c), 0);
  }

  /** The value from the four words selected. */
  lemma FeistelOf(s: seq<Word>, x: Word)
    requires |s| == SBOX_WORDS
    ensures forall k :: 0 <= k < 4 ==> 0x100 * k <= Selected(x, k) < 0x100 * (k + 1)
    ensures F(s, x) == Combine(s[Selected(x, 0)], s[Selected(x, 1)], s[Selected(x, 2)], s[Selected(x, 3)])
  {
    hide ByteOf, Combine, Selected;
    SelectedIs(x, 0);
    SelectedIs(x, 1);
    SelectedIs(x, 2);
    SelectedIs(x, 3);
  }

  /** What the first two words selected do: they are added, which for words is modulo 2^32. */
  lemma FeistelSum(s: seq<Word>, x: Word)
    requires |s| == SBOX_WORDS && Selected(x, 2) < |s| && Selected(x, 3) < |s|
    requires s[Selected(x, 2)] == 0 && s[Selected(x, 3)] == 0
    ensures Selected(x, 0) < |s| && Selected(x, 1) < |s|
    ensures F(s, x) == Plus(s[Selected(x, 0)], s[Selected(x, 1)])
  {
    hide F, Combine, Selected, Plus, Flipped;
    FeistelOf(s, x);
    CombineParts(s[Selected(x, 0)], s[Selected(x, 1)], 0, 0);
  }

  /** What the third does: it flips exactly its own bits. */
  lemma FeistelFlip(s: seq<Word>, x: Word, c: Word, bit: Word)
    requires |s| == SBOX_WORDS && bit & (bit - 1) == 0
    requires Selected(x, 2) < |s| && Selected(x, 3) < |s| && s[Selected(x, 3)] == 0
    ensures Bit(F(s[Selected(x, 2) := c], x), bit) <==> Bit(F(s[Selected(x, 2) := 0], x), bit) != Bit(c, bit)
  {
    hide F, Combine, Selected, Plus, Flipped, Bit;
    FeistelOf(s, x);
    FeistelOf(s[Selected(x, 2) := 0], x);
    FeistelOf(s[Selected(x, 2) := c], x);
    var a, b := s[Selected(x, 0)], s[Selected(x, 1)];
    CombineParts(a, b, c, 0);
    FlipsBits(Combine(a, b, 0, 0), c, bit);
  }

  /** What the fourth does: it is added. */
  lemma FeistelAdd(s: seq<Word>, x: Word, d: Word)
    requires |s| == SBOX_WORDS && Selected(x, 3) < |s|
    ensures F(s[Selected(x, 3) := d], x) == Plus(F(s[Selected(x, 3) := 0], x), d)
  {
    hide F, Combine, Selected, Plus, Flipped;
    FeistelOf(s, x);
    FeistelOf(s[Selected(x, 3) := 0], x);
    FeistelOf(s[Selected(x, 3) := d], x);
    var a, b, c := s[Selected(x, 0)], s[Selected(x, 1)], s[Selected(x, 2)];
    CombineParts(a, b, c, d);
  }

  lemma FlipsBits(a: Word, c: Word, bit: Word)
    requires bit & (bit - 1) == 0
    ensures Bit(Flipped(a, c), bit) <==> Bit(a, bit) != Bit(c, bit)
  {
    hide Bit;
    Flip(a, c, bit);
  }

  /** No other word of the S-boxes matters. */
  lemma FeistelOthers(s: seq<Word>, x: Word, i: nat, w: Word)
    requires |s| == SBOX_WORDS && i < SBOX_WORDS && forall k :: 0 <= k < 4 ==> i != Selected(x, k)
    ensures F(s[i := w], x) == F(s, x)
  {
    hide F, Combine, Selected;
    FeistelOf(s, x);
    FeistelOf(s[i := w], x);
  }

  // ----- A value -----

  /** Tables to have a value for: two words in each box, taken in turn, and eighteen subkeys. */
  function Sample(i: nat): Word {
    var odd := i % 2 == 1;
    if i < 0x100 then (if odd then 0x85a308d3 else 0x243f6a88)
    else if i < 0x200 then (if odd then 0x03707344 else 0x13198a2e)
    else if i < 0x300 then (if odd then 0x299f31d0 else 0xa4093822)
    else (if odd then 0xec4e6c89 else 0x082efa98)
  }

  function Boxes(): (s: seq<Word>)
    ensures |s| == SBOX_WORDS
  {
    seq(SBOX_WORDS, i requires 0 <= i < SBOX_WORDS => Sample(i))
  }

  function Subkeys(): (ks: seq<Word>)
    ensures |ks| == SUBKEYS
  {
    [0x452821e6, 0x38d01377, 0xbe5466cf, 0x34e90c6c, 0xc0ac29b7, 0xc97c50dd,
     0x3f84d5b5, 0xb5470917, 0x9216d5d9, 0x8979fb1b, 0xd1310ba6, 0x98dfb5ac,
     0x2ffd72db, 0xd01adfb7, 0xb8e1afed, 0x6a267e96, 0xba7c9045, 0xf12c7f99]
  }

  lemma SampleAt(x: Word, b0: nat, b1: nat, b2: nat, b3: nat)
    requires ByteOf(x, 0) as int == b0 && ByteOf(x, 1) as int == b1
    requires ByteOf(x, 2) as int == b2 && ByteOf(x, 3) as int == b3
    ensures F(Boxes(), x) == Combine(Sample(b0), Sample(0x100 + b1), Sample(0x200 + b2), Sample(0x300 + b3))
  {
    hide ByteOf, Combine, Sample;
  }

  /** One round of the sample: the four bytes of the left half, the Feistel value, the new left half. */
  lemma StepTo(n: nat, l: Word, r: Word, b0: nat, b1: nat, b2: nat, b3: nat, v: Word, l': Word)
    requires n < 16 && Rounds(RoundFunction(Boxes()), Subkeys(), n, Pair(0x01234567, 0x89abcdef)) == Pair(l, r)
    requires ByteOf(l, 0) as int == b0 && ByteOf(l, 1) as int == b1
    requires ByteOf(l, 2) as int == b2 && ByteOf(l, 3) as int == b3
    requires v == Combine(Sample(b0), Sample(0x100 + b1), Sample(0x200 + b2), Sample(0x300 + b3))
    requires l' == Mixed(r, v, Subkeys()[n + 1])
    ensures Rounds(RoundFunction(Boxes()), Subkeys(), n + 1, Pair(0x01234567, 0x89abcdef)) == Pair(l', l)
  {
    hide ByteOf, Combine, Sample, F, Mixed, Subkeys, Boxes;
    SampleAt(l, b0, b1, b2, b3);
  }

  /** What these tables make of one block. */
  lemma EncipheredValue()
    ensures Enciphered(Tables(Boxes(), Subkeys()), Pair(0x01234567, 0x89abcdef)) == Pair(0x56971cca, 0xc5c6fb08)
  {
    hide Rounds, RoundFunction, Boxes;
    NoRounds(RoundFunction(Boxes()), Subkeys(), Pair(0x01234567, 0x89abcdef));
    StepTo(0, 0x440b6481, 0x89abcdef, 68, 11, 100, 129, 0x6ff55277, 0xde8e8cef);
    StepTo(1, 0xde8e8cef, 0x440b6481, 222, 142, 140, 239, 0x7fa0391d, 0x85ff3b53);
    StepTo(2, 0x85ff3b53, 0xde8e8cef, 133, 255, 59, 83, 0x8cdaba50, 0x66bd3ad3);
    StepTo(3, 0x66bd3ad3, 0x85ff3b53, 102, 189, 58, 211, 0x6ff55277, 0x2aa64093);
    StepTo(4, 0x2aa64093, 0x66bd3ad3, 42, 166, 64, 147, 0x7fa0391d, 0xd0615313);
    StepTo(5, 0xd0615313, 0x2aa64093, 208, 97, 83, 19, 0xfa7f58a5, 0xef5dcd83);
    StepTo(6, 0xef5dcd83, 0xd0615313, 239, 93, 205, 131, 0x8cdaba50, 0xe9fce054);
    StepTo(7, 0xe9fce054, 0xef5dcd83, 233, 252, 224, 84, 0x44e4a5bb, 0x39afbde1);
    StepTo(8, 0x39afbde1, 0xe9fce054, 57, 175, 189, 225, 0x8cdaba50, 0xec5fa11f);
    StepTo(9, 0xec5fa11f, 0x39afbde1, 236, 95, 161, 31, 0xfa7f58a5, 0x12e1eee2);
    StepTo(10, 0x12e1eee2, 0xec5fa11f, 18, 225, 238, 226, 0x8bd5e086, 0xff55f435);
    StepTo(11, 0xff55f435, 0x12e1eee2, 255, 85, 244, 53, 0x1968b0be, 0x24742c87);
    StepTo(12, 0x24742c87, 0xff55f435, 36, 116, 44, 135, 0x7fa0391d, 0x50ef129f);
    StepTo(13, 0x50ef129f, 0x24742c87, 80, 239, 18, 159, 0x6ff55277, 0xf360d11d);
    StepTo(14, 0xf360d11d, 0x50ef129f, 243, 96, 209, 29, 0x9d720f5a, 0xa7bb6353);
    StepTo(15, 0xa7bb6353, 0xf360d11d, 167, 187, 99, 83, 0x8cdaba50, 0xc5c6fb08);
  }

  /** The same in bytes, as the modes have it. */
  lemma EncryptedValue()
    ensures EncryptBlock(Tables(Boxes(), Subkeys()), [0x01, 0x23, 0x45, 0x67, 0x89, 0xab, 0xcd, 0xef])
            == [0x56, 0x97, 0x1c, 0xca, 0xc5, 0xc6, 0xfb, 0x08]
  {
    hide Enciphered, Boxes, Subkeys;
    EncipheredValue();
    var b: Block := [0x01, 0x23, 0x45, 0x67, 0x89, 0xab, 0xcd, 0xef];
    assert PairOf(b) == Pair(0x01234567, 0x89abcdef) by { PackedSample(); }
    UnpackedSample();
  }

  lemma PackedSample()
    ensures Pack(0x01, 0x23, 0x45, 0x67) == 0x01234567 && Pack(0x89, 0xab, 0xcd, 0xef) == 0x89abcdef
  {}

  lemma UnpackedSample()
    ensures BytesOf(Pair(0x56971cca, 0xc5c6fb08)) == [0x56, 0x97, 0x1c, 0xca, 0xc5, 0xc6, 0xfb, 0x08]
  {}

  // ----- The modes, block by block -----

  /** The block at an offset, and the block before it, which for the first is the vector. */
  function At(d: seq<Byte>, n: nat): Block
    requires n + 8 <= |d|
  {
    d[n..n + 8]
  }

  function BeforeAt(iv: Block, d: seq<Byte>, n: nat): Block
    requires n <= |d| && (n == 0 || n >= 8)
  {
    if n == 0 then iv else At(d, n - 8)
  }

  lemma AtPrefix(d: seq<Byte>, m: nat, n: nat)
    requires n + 8 <= m <= |d|
    ensures At(d[..m], n) == At(d, n)
  {
    assert d[..m][n..n + 8] == d[n..n + 8];
  }

  lemma AtEnd(d: seq<Byte>, n: nat)
    requires n + 8 == |d|
    ensures At(d, n) == d[n..]
  {}

  lemma EcbLast(f: Block -> Block, d: seq<Byte>, m: nat)
    requires Blocks(d) && m + 8 == |d|
    ensures Ecb(f, d)[..m] == Ecb(f, d[..m]) && Ecb(f, d)[m..] == f(d[m..])
  {
    hide Ecb;
    EcbIs(f, d);
    var front: seq<Byte>, last: seq<Byte> := Ecb(f, d[..m]), f(d[m..]);
    Joined(front, last, Ecb(f, d), m);
  }

  lemma Joined(a: seq<Byte>, b: seq<Byte>, c: seq<Byte>, n: nat)
    requires c == a + b && n == |a|
    ensures c[..n] == a && c[n..] == b
  {}

  lemma EcbIs(f: Block -> Block, d: seq<Byte>)
    requires Blocks(d) && d != []
    ensures Ecb(f, d) == Ecb(f, d[..|d| - 8]) + f(d[|d| - 8..])
  {}

  /** ECB: each block on its own. */
  lemma {:induction false} EcbAt(f: Block -> Block, d: seq<Byte>, n: nat)
    requires Blocks(d) && n % 8 == 0 && n + 8 <= |d|
    ensures At(Ecb(f, d), n) == f(At(d, n))
  {
    hide Ecb, At;
    var m := |d| - 8;
    EcbLast(f, d, m);
    if n == m {
      AtEnd(d, n);
      AtEnd(Ecb(f, d), n);
    } else {
      EcbAt(f, d[..m], n);
      AtPrefix(d, m, n);
      AtPrefix(Ecb(f, d), m, n);
    }
  }

  lemma {:induction false} CbcEncryptAt(e: Block -> Block, iv: Block, d: seq<Byte>, n: nat)
    requires Blocks(d) && n % 8 == 0 && n + 8 <= |d|
    ensures var c := CbcEncrypt(e, iv, d);
            At(c, n) == e(Xor(At(d, n), BeforeAt(iv, c, n)))
  {
    hide Xor, CbcEncrypt, At, Chain;
    var m, c := |d| - 8, CbcEncrypt(e, iv, d);
    CbcEncryptLast(e, iv, d);
    if n == m {
      AtEnd(d, n);
      AtEnd(c, n);
      ChainIs(iv, c, n);
    } else {
      CbcEncryptAt(e, iv, d[..m], n);
      AtPrefix(d, m, n);
      AtPrefix(c, m, n);
      if n > 0 {
        AtPrefix(c, m, n - 8);
      }
    }
  }

  lemma ChainIs(iv: Block, c: seq<Byte>, n: nat)
    requires n % 8 == 0 && n <= |c|
    ensures Chain(iv, c, n) == BeforeAt(iv, c, n)
  {}

  /**
   * CBC: each ciphertext block is its plaintext block mixed with the ciphertext block
   * before it, the first with the vector, and encrypted; and decryption takes that apart.
   */
  lemma CbcBlocks(t: Tables, iv: Block, d: seq<Byte>, n: nat)
    requires t.Valid() && Blocks(d) && n % 8 == 0 && n + 8 <= |d|
    ensures var c := CbcEncrypt(Encryptor(t), iv, d);
            At(c, n) == EncryptBlock(t, Xor(At(d, n), BeforeAt(iv, c, n)))
    ensures At(CbcDecrypt(Decryptor(t), iv, d), n) == Xor(DecryptBlock(t, At(d, n)), BeforeAt(iv, d, n))
  {
    hide Xor, CbcEncrypt, CbcDecrypt, EncryptBlock, DecryptBlock, Chain;
    CbcEncryptAt(Encryptor(t), iv, d, n);
    CbcDecryptAt(Decryptor(t), iv, d, n);
    ChainIs(iv, d, n);
  }

  /** ECB of a context, block by block. */
  lemma EcbBlocks(t: Tables, d: seq<Byte>, n: nat)
    requires t.Valid() && Blocks(d) && n % 8 == 0 && n + 8 <= |d|
    ensures At(Ecb(Encryptor(t), d), n) == EncryptBlock(t, At(d, n))
    ensures At(Ecb(Decryptor(t), d), n) == DecryptBlock(t, At(d, n))
  {
    hide Ecb, EncryptBlock, DecryptBlock, At;
    EcbAt(Encryptor(t), d, n);
    EcbAt(Decryptor(t), d, n);
  }

  // ----- The schedules, word by word -----

  /** On blank subkeys, the key lies byte by byte, over and over. */
  lemma KeyLaidOut(s: seq<Word>, key: seq<Byte>, i: nat, k: nat)
    requires |s| == SBOX_WORDS && key != [] && i < SUBKEYS && k < 4
    ensures ByteOf(KeyMixed(Tables(s, seq(SUBKEYS, _ => 0)), key).p[i], k) == key[(4 * i + k) % |key|]
  {
    hide ByteOf, Pack, Mix;
    var w := StreamWord(key, 4 * i);
    PackInverse(StreamByte(key, 4 * i), StreamByte(key, 4 * i + 1), StreamByte(key, 4 * i + 2), StreamByte(key, 4 * i + 3));
    MixBlank(w);
  }

  lemma MixBlank(w: Word)
    ensures Mix(0, w) == w
  {
    Zeros(w, 0);
  }

  /** Eight bytes of the endless repetition of the data. */
  function Eight(data: seq<Byte>, t: nat): Block
    requires data != []
  {
    seq(8, i requires 0 <= i < 8 => data[(t + i) % |data|])
  }

  /** The data is mixed into the block eight bytes at a time, in order. */
  lemma DataMixedIn(x: Pair, data: seq<Byte>, k: nat)
    requires data != []
    ensures MixPair(x, data, k) == PairOf(Xor(BytesOf(x), Eight(data, 8 * k)))
  {
    hide ByteOf, Pack, XorByte, Mix;
    var d := Eight(data, 8 * k);
    MixBytes(x.l, d[0], d[1], d[2], d[3]);
    MixBytes(x.r, d[4], d[5], d[6], d[7]);
    assert StreamWord(data, 8 * k) == Pack(d[0], d[1], d[2], d[3]);
    assert StreamWord(data, 8 * k + 4) == Pack(d[4], d[5], d[6], d[7]);
  }

  lemma MixBytes(w: Word, a: Byte, b: Byte, c: Byte, d: Byte)
    ensures Mix(w, Pack(a, b, c, d))
            == Pack(XorByte(ByteOf(w, 0), a), XorByte(ByteOf(w, 1), b), XorByte(ByteOf(w, 2), c), XorByte(ByteOf(w, 3), d))
  {}

  /** All words that a schedule rewrites, in the order in which it does. */
  function Words(t: Tables): seq<Word> { t.p + t.s }

  lemma PutAt(t: Tables, k: nat, x: Pair, i: nat)
    requires t.Valid() && k < PAIRS && i < 2 * PAIRS
    ensures Words(Put(t, k, x))[i] == if i == 2 * k then x.l else if i == 2 * k + 1 then x.r else Words(t)[i]
  {}

  /**
   * The schedule without data: each encipherment is of the block before it, under the
   * tables as they then are, and its halves are the next two words, left half first. Words
   * not yet reached are as they were.
   */
  lemma {:induction false} RewrittenWords(t: Tables, n: nat, i: nat)
    requires t.Valid() && n <= PAIRS && i < 2 * PAIRS
    ensures n > 0 ==> Rewritten(t, n).x == Enciphered(Rewritten(t, n - 1).t, Rewritten(t, n - 1).x)
    ensures var w := Words(Rewritten(t, n).t)[i];
            if i >= 2 * n then w == Words(t)[i]
            else var x := Rewritten(t, i / 2 + 1).x; w == if i % 2 == 0 then x.l else x.r
  {
    hide Enciphered, Put, Words;
    if n == 0 {
    } else {
      RewrittenWords(t, n - 1, i);
      PutAt(Rewritten(t, n - 1).t, n - 1, Rewritten(t, n).x, i);
    }
  }

  /** The same with data: eight bytes of it are mixed into each block before it is enciphered. */
  lemma {:induction false} RewrittenWithWords(t: Tables, data: seq<Byte>, n: nat, i: nat)
    requires t.Valid() && data != [] && n <= PAIRS && i < 2 * PAIRS
    ensures n > 0 ==> var was := RewrittenWith(t, data, n - 1);
                      RewrittenWith(t, data, n).x
                      == Enciphered(was.t, PairOf(Xor(BytesOf(was.x), Eight(data, 8 * (n - 1)))))
    ensures var w := Words(RewrittenWith(t, data, n).t)[i];
            if i >= 2 * n then w == Words(t)[i]
            else var x := RewrittenWith(t, data, i / 2 + 1).x; w == if i % 2 == 0 then x.l else x.r
  {
    hide Enciphered, Put, Words, MixPair, Xor, Eight, PairOf, BytesOf;
    if n == 0 {
    } else {
      var was := RewrittenWith(t, data, n - 1);
      RewrittenWithWords(t, data, n - 1, i);
      PutAt(was.t, n - 1, RewrittenWith(t, data, n).x, i);
      DataMixedIn(was.x, data, n - 1);
    }
  }

  /** So the first two subkeys are the halves of the zero block enciphered under the mixed tables. */
  lemma FirstSubkeys(t: Tables, data: seq<Byte>, key: seq<Byte>)
    requires t.Valid() && data != [] && key != []
    ensures Expanded0(t, key).Valid() && Expanded(t, data, key).Valid()
    ensures var x := Enciphered(KeyMixed(t, key), Pair(0, 0));
            Expanded0(t, key).p[0] == x.l && Expanded0(t, key).p[1] == x.r
    ensures var x := Enciphered(KeyMixed(t, key), PairOf(Eight(data, 0)));
            Expanded(t, data, key).p[0] == x.l && Expanded(t, data, key).p[1] == x.r
  {
    hide Enciphered, KeyMixed, Rewritten, RewrittenWith, PairOf, Eight, XorByte;
    var m := KeyMixed(t, key);
    Started(m, data);
    RewrittenWords(m, PAIRS, 0);
    RewrittenWords(m, PAIRS, 1);
    RewrittenWords(m, 1, 0);
    RewrittenWithWords(m, data, PAIRS, 0);
    RewrittenWithWords(m, data, PAIRS, 1);
    RewrittenWithWords(m, data, 1, 0);
    BlankMixed(Eight(data, 0));
  }

  lemma Started(t: Tables, data: seq<Byte>)
    requires t.Valid() && data != []
    ensures Rewritten(t, 0) == RewrittenWith(t, data, 0) == Progress(t, Pair(0, 0))
  {}

  lemma BlankMixed(b: Block)
    ensures Xor(BytesOf(Pair(0, 0)), b) == b
  {
    assert BytesOf(Pair(0, 0)) == [0, 0, 0, 0, 0, 0, 0, 0];
    forall i | 0 <= i < 8
      ensures XorByte(0, b[i]) == b[i]
    {
      Zeros(0, b[i]);
    }
  }
}
