/**
 * The block modes of libssh2/src/blowfish.c, which rewrite a caller's buffer in
 * place, and the proof that each decryption restores what was encrypted.
 */
module BlowfishModes {
  import opened BlowfishCipher

  // ----- Blocks as bytes -----

  function Pack(a: Byte, b: Byte, c: Byte, d: Byte): Word {
    ((a as Word) << 24) | ((b as Word) << 16) | ((c as Word) << 8) | (d as Word)
  }

  type Block = b: seq<Byte> | |b| == 8 witness seq(8, _ => 0)

  function PairOf(b: Block): Pair {
    Pair(Pack(b[0], b[1], b[2], b[3]), Pack(b[4], b[5], b[6], b[7]))
  }

  function BytesOf(x: Pair): Block {
    [ByteOf(x.l, 0), ByteOf(x.l, 1), ByteOf(x.l, 2), ByteOf(x.l, 3),
     ByteOf(x.r, 0), ByteOf(x.r, 1), ByteOf(x.r, 2), ByteOf(x.r, 3)]
  }

  lemma PackInverse(a: Byte, b: Byte, c: Byte, d: Byte)
    ensures var w := Pack(a, b, c, d);
            ByteOf(w, 0) == a && ByteOf(w, 1) == b && ByteOf(w, 2) == c && ByteOf(w, 3) == d
  {}

  lemma UnpackInverse(w: Word)
    ensures Pack(ByteOf(w, 0), ByteOf(w, 1), ByteOf(w, 2), ByteOf(w, 3)) == w
  {}

  lemma BytesOfPair(b: Block)
    ensures BytesOf(PairOf(b)) == b
  {
    PackInverse(b[0], b[1], b[2], b[3]);
    PackInverse(b[4], b[5], b[6], b[7]);
  }

  lemma PairOfBytes(x: Pair)
    ensures PairOf(BytesOf(x)) == x
  {
    UnpackInverse(x.l);
    UnpackInverse(x.r);
  }

  function XorByte(a: Byte, b: Byte): Byte { a ^ b }

  lemma XorByteTwice(a: Byte, b: Byte)
    ensures XorByte(XorByte(a, b), b) == a
  {}

  function Xor(a: Block, b: Block): Block {
    seq(8, i requires 0 <= i < 8 => XorByte(a[i], b[i]))
  }

  lemma XorBlockTwice(a: Block, b: Block)
    ensures Xor(Xor(a, b), b) == a
  {
    forall i | 0 <= i < 8
      ensures Xor(Xor(a, b), b)[i] == a[i]
    {
      XorByteTwice(a[i], b[i]);
    }
  }

  function EncryptBlock(t: Tables, b: Block): Block
    requires t.Valid()
  {
    BytesOf(Enciphered(t, PairOf(b)))
  }

  function DecryptBlock(t: Tables, b: Block): Block
    requires t.Valid()
  {
    BytesOf(Deciphered(t, PairOf(b)))
  }

  lemma BlockInverse(t: Tables, b: Block)
    requires t.Valid()
    ensures DecryptBlock(t, EncryptBlock(t, b)) == b
    ensures EncryptBlock(t, DecryptBlock(t, b)) == b
  {
    var x := PairOf(b);
    PairOfBytes(Enciphered(t, x));
    PairOfBytes(Deciphered(t, x));
    CipherInverse(t, x);
    BytesOfPair(b);
  }

  /** The block permutation of a context, and its inverse. */
  function Encryptor(t: Tables): Block -> Block
    requires t.Valid()
  {
    b => EncryptBlock(t, b)
  }

  function Decryptor(t: Tables): Block -> Block
    requires t.Valid()
  {
    b => DecryptBlock(t, b)
  }

  ghost predicate Undoes(g: Block -> Block, f: Block -> Block) { forall b: Block :: g(f(b)) == b }

  lemma ContextUndoes(t: Tables)
    requires t.Valid()
    ensures Undoes(Decryptor(t), Encryptor(t)) && Undoes(Encryptor(t), Decryptor(t))
  {
    forall b: Block
      ensures Decryptor(t)(Encryptor(t)(b)) == b && Encryptor(t)(Decryptor(t)(b)) == b
    {
      BlockInverse(t, b);
    }
  }

  // ----- Electronic codebook -----

  ghost predicate Blocks(d: seq<Byte>) { |d| % 8 == 0 }

  /** Every block of `d` on its own. */
  function Ecb(f: Block -> Block, d: seq<Byte>): (r: seq<Byte>)
    requires Blocks(d)
    ensures |r| == |d|
  {
    if d == [] then [] else
      var n := |d| - 8;
      Ecb(f, d[..n]) + f(d[n..])
  }

  lemma EcbNothing(f: Block -> Block, d: seq<Byte>)
    ensures Ecb(f, d[..0]) == []
  {}

  lemma {:induction false} EcbUndone(g: Block -> Block, f: Block -> Block, d: seq<Byte>)
    requires Undoes(g, f) && Blocks(d)
    ensures Ecb(g, Ecb(f, d)) == d
  {
    if d == [] {
    } else {
      var n := |d| - 8;
      EcbUndone(g, f, d[..n]);
      var e := Ecb(f, d);
      assert e[..n] == Ecb(f, d[..n]) && e[n..] == f(d[n..]);
      assert d == d[..n] + d[n..];
    }
  }

  /** ECB decryption and encryption undo each other on any whole number of blocks. */
  lemma EcbRoundTrip(t: Tables, d: seq<Byte>)
    requires t.Valid() && Blocks(d)
    ensures Ecb(Decryptor(t), Ecb(Encryptor(t), d)) == d
    ensures Ecb(Encryptor(t), Ecb(Decryptor(t), d)) == d
  {
    ContextUndoes(t);
    EcbUndone(Decryptor(t), Encryptor(t), d);
    EcbUndone(Encryptor(t), Decryptor(t), d);
  }

  // ----- Cipher block chaining -----

  /** The block that chains into the block at `n`: the initialisation vector or the ciphertext block before. */
  function Chain(iv: Block, c: seq<Byte>, n: nat): Block
    requires n % 8 == 0 && n <= |c|
  {
    if n == 0 then iv else c[n - 8..n]
  }

  function CbcEncrypt(e: Block -> Block, iv: Block, d: seq<Byte>): (c: seq<Byte>)
    requires Blocks(d)
    ensures |c| == |d|
  {
    if d == [] then [] else
      var n := |d| - 8;
      var c := CbcEncrypt(e, iv, d[..n]);
      c + e(Xor(d[n..], Chain(iv, c, n)))
  }

  function CbcDecrypt(g: Block -> Block, iv: Block, c: seq<Byte>): (d: seq<Byte>)
    requires Blocks(c)
    ensures |d| == |c|
  {
    if c == [] then [] else
      var n := |c| - 8;
      CbcDecrypt(g, iv, c[..n]) + Xor(g(c[n..]), Chain(iv, c, n))
  }

  lemma CbcEncryptLast(e: Block -> Block, iv: Block, d: seq<Byte>)
    requires Blocks(d) && d != []
    ensures var n, c := |d| - 8, CbcEncrypt(e, iv, d);
            && c[..n] == CbcEncrypt(e, iv, d[..n]) && c[n..] == e(Xor(d[n..], Chain(iv, c, n)))
            && Chain(iv, c, n) == Chain(iv, c[..n], n)
  {
    hide Xor;
    var n, c, head := |d| - 8, CbcEncrypt(e, iv, d), CbcEncrypt(e, iv, d[..|d| - 8]);
    assert c[..n] == head;
    ChainOfPrefix(iv, c, n);
  }

  lemma ChainOfPrefix(iv: Block, c: seq<Byte>, n: nat)
    requires n % 8 == 0 && n <= |c|
    ensures Chain(iv, c[..n], n) == Chain(iv, c, n)
  {}

  lemma CbcDecryptLast(g: Block -> Block, iv: Block, c: seq<Byte>)
    requires Blocks(c) && c != []
    ensures var n, d := |c| - 8, CbcDecrypt(g, iv, c);
            d[..n] == CbcDecrypt(g, iv, c[..n]) && d[n..] == Xor(g(c[n..]), Chain(iv, c, n))
  {
    hide Xor;
  }

  /** Texts that agree before `n` and from `n` on are the same. */
  lemma Halved(a: seq<Byte>, b: seq<Byte>, n: nat)
    requires n <= |a| && n <= |b| && a[..n] == b[..n] && a[n..] == b[n..]
    ensures a == b
  {
    assert a == a[..n] + a[n..] && b == b[..n] + b[n..];
  }

  lemma {:induction false} CbcUndone(g: Block -> Block, e: Block -> Block, iv: Block, d: seq<Byte>)
    requires Undoes(g, e) && Blocks(d)
    ensures CbcDecrypt(g, iv, CbcEncrypt(e, iv, d)) == d
  {
    hide Xor, Chain, CbcEncrypt, CbcDecrypt, Undoes;
    if d == [] {
      NoBlocks(g, e, iv);
    } else {
      var n := |d| - 8;
      CbcUndone(g, e, iv, d[..n]);
      var c := CbcEncrypt(e, iv, d);
      CbcEncryptLast(e, iv, d);
      CbcDecryptLast(g, iv, c);
      Undone(g, e, Xor(d[n..], Chain(iv, c, n)));
      XorBlockTwice(d[n..], Chain(iv, c, n));
      Halved(CbcDecrypt(g, iv, c), d, n);
    }
  }

  lemma {:induction false} CbcRedone(g: Block -> Block, e: Block -> Block, iv: Block, c: seq<Byte>)
    requires Undoes(e, g) && Blocks(c)
    ensures CbcEncrypt(e, iv, CbcDecrypt(g, iv, c)) == c
  {
    hide Xor, Chain, CbcEncrypt, CbcDecrypt, Undoes;
    if c == [] {
      NoBlocks(g, e, iv);
    } else {
      var n := |c| - 8;
      CbcRedone(g, e, iv, c[..n]);
      var d := CbcDecrypt(g, iv, c);
      CbcDecryptLast(g, iv, c);
      var again := CbcEncrypt(e, iv, d);
      CbcEncryptLast(e, iv, d);
      ChainOfPrefix(iv, c, n);
      assert Chain(iv, again, n) == Chain(iv, c, n);
      Undone(e, g, c[n..]);
      XorBlockTwice(g(c[n..]), Chain(iv, c, n));
      Halved(again, c, n);
    }
  }

  lemma NoBlocks(g: Block -> Block, e: Block -> Block, iv: Block)
    ensures CbcEncrypt(e, iv, []) == [] && CbcDecrypt(g, iv, []) == []
  {}

  lemma Undone(g: Block -> Block, f: Block -> Block, b: Block)
    requires Undoes(g, f)
    ensures g(f(b)) == b
  {}

  /** CBC decryption restores exactly what CBC encryption encrypted, and conversely. */
  lemma CbcRoundTrip(t: Tables, iv: Block, d: seq<Byte>)
    requires t.Valid() && Blocks(d)
    ensures CbcDecrypt(Decryptor(t), iv, CbcEncrypt(Encryptor(t), iv, d)) == d
    ensures CbcEncrypt(Encryptor(t), iv, CbcDecrypt(Decryptor(t), iv, d)) == d
  {
    ContextUndoes(t);
    CbcUndone(Decryptor(t), Encryptor(t), iv, d);
    CbcRedone(Decryptor(t), Encryptor(t), iv, d);
  }

  lemma {:induction false} CbcDecryptPrefix(g: Block -> Block, iv: Block, c: seq<Byte>, n: nat)
    requires Blocks(c) && n % 8 == 0 && n <= |c|
    ensures CbcDecrypt(g, iv, c)[..n] == CbcDecrypt(g, iv, c[..n])
  {
    hide Xor, Chain, CbcDecrypt;
    if n < |c| {
      var m := |c| - 8;
      CbcDecryptPrefix(g, iv, c[..m], n);
      assert c[..m][..n] == c[..n];
      CbcDecryptLast(g, iv, c);
      assert CbcDecrypt(g, iv, c)[..n] == CbcDecrypt(g, iv, c)[..m][..n];
    } else {
      assert c[..n] == c;
    }
  }

  /** Block by block, decryption needs only that ciphertext block and the one before it. */
  lemma CbcDecryptAt(g: Block -> Block, iv: Block, c: seq<Byte>, n: nat)
    requires Blocks(c) && n % 8 == 0 && n + 8 <= |c|
    ensures CbcDecrypt(g, iv, c)[n..n + 8] == Xor(g(c[n..n + 8]), Chain(iv, c, n))
  {
    hide Xor, CbcDecrypt;
    CbcDecryptPrefix(g, iv, c, n + 8);
    var c' := c[..n + 8];
    CbcDecryptLast(g, iv, c');
    assert c'[n..] == c[n..n + 8];
    assert Chain(iv, c', n) == Chain(iv, c, n);
    assert CbcDecrypt(g, iv, c)[..n + 8][n..] == CbcDecrypt(g, iv, c)[n..n + 8];
  }

  // ----- The buffer-rewriting code -----

  function Splice(s: seq<Byte>, i: nat, b: Block): (r: seq<Byte>)
    requires i + 8 <= |s|
    ensures |r| == |s| && r[..i] == s[..i] && r[i..i + 8] == b && r[i + 8..] == s[i + 8..]
  {
    s[..i] + b + s[i + 8..]
  }

  method Store(data: array<Byte>, i: nat, l: Word, r: Word)
    requires i + 8 <= data.Length
    modifies data
    ensures data[..] == Splice(old(data[..]), i, BytesOf(Pair(l, r)))
  {
    data[i] := ByteOf(l, 0);
    data[i + 1] := ByteOf(l, 1);
    data[i + 2] := ByteOf(l, 2);
    data[i + 3] := ByteOf(l, 3);
    data[i + 4] := ByteOf(r, 0);
    data[i + 5] := ByteOf(r, 1);
    data[i + 6] := ByteOf(r, 2);
    data[i + 7] := ByteOf(r, 3);
  }

  method Load(data: array<Byte>, i: nat) returns (l: Word, r: Word)
    requires i + 8 <= data.Length
    ensures Pair(l, r) == PairOf(data[i..i + 8])
  {
    l := Pack(data[i], data[i + 1], data[i + 2], data[i + 3]);
    r := Pack(data[i + 4], data[i + 5], data[i + 6], data[i + 7]);
  }

  method EncryptInPlace(c: Context, data: array<Byte>, i: nat)
    requires c.Valid() && i + 8 <= data.Length
    modifies data
    ensures data[..] == Splice(old(data[..]), i, EncryptBlock(c.View(), old(data[i..i + 8])))
  {
    var l, r := Load(data, i);
    l, r := c.Encipher(l, r);
    Store(data, i, l, r);
  }

  method DecryptInPlace(c: Context, data: array<Byte>, i: nat)
    requires c.Valid() && i + 8 <= data.Length
    modifies data
    ensures data[..] == Splice(old(data[..]), i, DecryptBlock(c.View(), old(data[i..i + 8])))
  {
    var l, r := Load(data, i);
    l, r := c.Decipher(l, r);
    Store(data, i, l, r);
  }

  /** XOR eight bytes of `iv` into `data`; the two may be parts of one buffer. */
  method XorInPlace(data: array<Byte>, i: nat, iv: array<Byte>, k: nat)
    requires i + 8 <= data.Length && k + 8 <= iv.Length
    requires data == iv ==> k + 8 <= i || i + 8 <= k
    modifies data
    ensures data[..] == Splice(old(data[..]), i, Xor(old(data[i..i + 8]), old(iv[k..k + 8])))
  {
    for j := 0 to 8
      invariant forall m :: 0 <= m < data.Length && !(i <= m < i + j) ==> data[m] == old(data[m])
      invariant forall m :: i <= m < i + j ==> data[m] == XorByte(old(data[m]), old(iv[k + (m - i)]))
    {
      assert iv[k + j] == old(iv[k + j]);
      data[i + j] := XorByte(data[i + j], iv[k + j]);
    }
    ghost var x := Xor(old(data[i..i + 8]), old(iv[k..k + 8]));
    assert data[..] == Splice(old(data[..]), i, x);
  }

  /** `blf_ecb_encrypt`. */
  method EcbEncryptBuffer(c: Context, data: array<Byte>, len: nat)
    requires c.Valid() && len <= data.Length && len % 8 == 0
    modifies data
    ensures data[..len] == Ecb(Encryptor(c.View()), old(data[..len]))
    ensures data[len..] == old(data[len..])
  {
    hide EncryptBlock, Ecb;
    ghost var d, f := data[..], Encryptor(c.View());
    EcbNothing(f, d);
    var i := 0;
    while i < len
      invariant i <= len && i % 8 == 0
      invariant data[..i] == Ecb(f, d[..i])
      invariant data[i..] == d[i..]
    {
      ghost var was := data[..];
      EncryptInPlace(c, data, i);
      EcbStep(f, d, was, data[..], i);
      i := i + 8;
    }
  }

  /** `blf_ecb_decrypt`. */
  method EcbDecryptBuffer(c: Context, data: array<Byte>, len: nat)
    requires c.Valid() && len <= data.Length && len % 8 == 0
    modifies data
    ensures data[..len] == Ecb(Decryptor(c.View()), old(data[..len]))
    ensures data[len..] == old(data[len..])
  {
    hide DecryptBlock, Ecb;
    ghost var d, f := data[..], Decryptor(c.View());
    EcbNothing(f, d);
    var i := 0;
    while i < len
      invariant i <= len && i % 8 == 0
      invariant data[..i] == Ecb(f, d[..i])
      invariant data[i..] == d[i..]
    {
      ghost var was := data[..];
      DecryptInPlace(c, data, i);
      EcbStep(f, d, was, data[..], i);
      i := i + 8;
    }
  }

  /** One iteration of an ECB loop: blocks before `i` are done, the one at `i` is rewritten. */
  lemma EcbStep(f: Block -> Block, d: seq<Byte>, was: seq<Byte>, now: seq<Byte>, i: nat)
    requires i % 8 == 0 && i + 8 <= |d| == |was|
    requires was[..i] == Ecb(f, d[..i]) && was[i..] == d[i..]
    requires now == Splice(was, i, f(was[i..i + 8]))
    ensures now[..i + 8] == Ecb(f, d[..i + 8]) && now[i + 8..] == d[i + 8..]
  {
    SliceOfSuffix(was, d, i);
    var d' := d[..i + 8];
    assert d'[..i] == d[..i] && d'[i..] == d[i..i + 8];
    assert now[..i + 8] == now[..i] + now[i..i + 8];
  }

  /** Buffers that agree from `i` on agree on the block at `i` and after it. */
  lemma SliceOfSuffix(a: seq<Byte>, b: seq<Byte>, i: nat)
    requires i + 8 <= |a| && |a| == |b| && a[i..] == b[i..]
    ensures a[i..i + 8] == b[i..i + 8] && a[i + 8..] == b[i + 8..]
  {
    assert a[i..i + 8] == a[i..][..8] && b[i..i + 8] == b[i..][..8];
    assert a[i + 8..] == a[i..][8..] && b[i + 8..] == b[i..][8..];
  }

  /** Encryption of `d` has reached offset `i`: ciphertext before it, plaintext from it on. */
  ghost predicate EncryptedTo(e: Block -> Block, iv: Block, d: seq<Byte>, now: seq<Byte>, i: nat) {
    i % 8 == 0 && i <= |d| == |now| && now[..i] == CbcEncrypt(e, iv, d[..i]) && now[i..] == d[i..]
  }

  lemma CbcEncryptStep(e: Block -> Block, iv: Block, d: seq<Byte>, was: seq<Byte>, mixed: seq<Byte>, now: seq<Byte>, i: nat)
    requires EncryptedTo(e, iv, d, was, i) && i + 8 <= |d|
    requires mixed == Splice(was, i, Xor(was[i..i + 8], Chain(iv, was, i)))
    requires now == Splice(mixed, i, e(mixed[i..i + 8]))
    ensures EncryptedTo(e, iv, d, now, i + 8)
  {
    SliceOfSuffix(was, d, i);
    var d' := d[..i + 8];
    assert d'[..i] == d[..i] && d'[i..] == d[i..i + 8];
    assert now[..i] == was[..i];
    assert Chain(iv, was[..i], i) == Chain(iv, was, i);
    assert now[..i + 8] == now[..i] + now[i..i + 8];
  }

  /**
   * `blf_cbc_encrypt`: first block first, the vector moving on to the ciphertext block just
   * written. The vector given is at `iv[at..]`, anywhere but in the bytes being encrypted.
   */
  method CbcEncryptBuffer(c: Context, iv: array<Byte>, at: nat, data: array<Byte>, len: nat)
    requires c.Valid() && len <= data.Length && len % 8 == 0 && at + 8 <= iv.Length && (iv == data ==> len <= at)
    modifies data
    ensures data[..len] == CbcEncrypt(Encryptor(c.View()), old(iv[at..at + 8]), old(data[..len]))
    ensures data[len..] == old(data[len..])
  {
    hide EncryptBlock, EncryptedTo;
    ghost var d, e := data[..], Encryptor(c.View());
    ghost var iv0 := iv[at..at + 8];
    var from, k := iv, at;
    var i := 0;
    EncryptionStarts(e, iv0, d);
    while i < len
      invariant i <= len && i % 8 == 0
      invariant if i == 0 then from == iv && k == at && iv[at..at + 8] == iv0 else from == data && k == i - 8
      invariant EncryptedTo(e, iv0, d, data[..], i)
    {
      ghost var was := data[..];
      assert from[k..k + 8] == Chain(iv0, was, i);
      XorInPlace(data, i, from, k);
      ghost var mixed := data[..];
      EncryptInPlace(c, data, i);
      CbcEncryptStep(e, iv0, d, was, mixed, data[..], i);
      from, k := data, i;
      i := i + 8;
    }
    EncryptionEnds(e, iv0, d, data[..], len);
  }

  lemma EncryptionStarts(e: Block -> Block, iv: Block, d: seq<Byte>)
    ensures EncryptedTo(e, iv, d, d, 0)
  {}

  lemma EncryptionEnds(e: Block -> Block, iv: Block, d: seq<Byte>, now: seq<Byte>, i: nat)
    requires EncryptedTo(e, iv, d, now, i)
    ensures |d| == |now| && i % 8 == 0 && i <= |d| && now[..i] == CbcEncrypt(e, iv, d[..i]) && now[i..] == d[i..]
  {}

  /** Decryption of the first `len` bytes of `d` has come down to offset `i`. */
  ghost predicate DecryptedFrom(g: Block -> Block, iv: Block, d: seq<Byte>, len: nat, now: seq<Byte>, i: nat) {
    i % 8 == 0 && len % 8 == 0 && i <= len <= |d| == |now| && now[..i] == d[..i] &&
    now[i..len] == CbcDecrypt(g, iv, d[..len])[i..] && now[len..] == d[len..]
  }

  lemma CbcDecryptStep(g: Block -> Block, iv: Block, d: seq<Byte>, len: nat,
                       was: seq<Byte>, half: seq<Byte>, now: seq<Byte>, i: nat)
    requires DecryptedFrom(g, iv, d, len, was, i + 8)
    requires half == Splice(was, i, g(was[i..i + 8]))
    requires now == Splice(half, i, Xor(half[i..i + 8], Chain(iv, was, i)))
    ensures DecryptedFrom(g, iv, d, len, now, i)
  {
    hide Xor, CbcDecrypt, Splice;
    var c := d[..len];
    var plain := CbcDecrypt(g, iv, c);
    assert was[i..i + 8] == was[..i + 8][i..] == d[..i + 8][i..] == c[i..i + 8];
    assert was[..i] == was[..i + 8][..i] == d[..i + 8][..i] == c[..i];
    assert Chain(iv, was, i) == Chain(iv, was[..i], i) == Chain(iv, c, i);
    CbcDecryptAt(g, iv, c, i);
    assert now[i + 8..] == was[i + 8..];
    assert now[i + 8..len] == was[i + 8..len];
    assert now[i..len] == now[i..i + 8] + now[i + 8..len];
    assert plain[i..] == plain[i..i + 8] + plain[i + 8..];
    assert now[len..] == now[i + 8..][len - (i + 8)..];
    assert was[len..] == was[i + 8..][len - (i + 8)..];
  }

  lemma DecryptionStarts(g: Block -> Block, iv: Block, d: seq<Byte>, len: nat)
    requires len % 8 == 0 && len <= |d|
    ensures DecryptedFrom(g, iv, d, len, d, len)
  {}

  lemma DecryptionEnds(g: Block -> Block, iv: Block, d: seq<Byte>, len: nat, now: seq<Byte>)
    requires DecryptedFrom(g, iv, d, len, now, 0)
    ensures |d| == |now| && len % 8 == 0 && len <= |d|
    ensures now[..len] == CbcDecrypt(g, iv, d[..len]) && now[len..] == d[len..]
  {
    assert now[..len] == now[0..len];
  }

  /** One step of `blf_cbc_decrypt`: decipher the block at `i`, then mix in the vector at `from[at..]`. */
  method DecryptAndMix(c: Context, data: array<Byte>, i: nat, from: array<Byte>, at: nat,
                       ghost g: Block -> Block, ghost iv: Block, ghost d: seq<Byte>, ghost len: nat)
    requires c.Valid() && g == Decryptor(c.View())
    requires i % 8 == 0 && i + 8 <= data.Length
    requires at + 8 <= from.Length && (from == data ==> at + 8 <= i || i + 8 <= at)
    requires from[at..at + 8] == Chain(iv, data[..], i)
    requires DecryptedFrom(g, iv, d, len, data[..], i + 8)
    modifies data
    ensures DecryptedFrom(g, iv, d, len, data[..], i)
  {
    hide DecryptBlock, CbcDecrypt, Xor;
    ghost var was := data[..];
    DecryptInPlace(c, data, i);
    ghost var half := data[..];
    assert from[at..at + 8] == old(from[at..at + 8]);
    XorInPlace(data, i, from, at);
    CbcDecryptStep(g, iv, d, len, was, half, data[..], i);
  }

  /** What decryption leaves alone. */
  lemma DecryptionSpares(g: Block -> Block, iv: Block, d: seq<Byte>, len: nat, now: seq<Byte>, i: nat, at: nat)
    requires DecryptedFrom(g, iv, d, len, now, i) && len <= at && at + 8 <= |d|
    ensures |now| == |d| && now[at..at + 8] == d[at..at + 8]
  {
    hide CbcDecrypt;
    assert now[at..at + 8] == now[len..][at - len..at - len + 8];
    assert d[at..at + 8] == d[len..][at - len..at - len + 8];
  }

  /**
   * `blf_cbc_decrypt`: last block first, so that each block's predecessor is still
   * ciphertext. The vector is at `iv[at..]`, anywhere but in the bytes being decrypted.
   */
  method CbcDecryptBuffer(c: Context, iv: array<Byte>, at: nat, data: array<Byte>, len: nat)
    requires c.Valid() && 0 < len <= data.Length && len % 8 == 0 && at + 8 <= iv.Length && (iv == data ==> len <= at)
    modifies data
    ensures data[..len] == CbcDecrypt(Decryptor(c.View()), old(iv[at..at + 8]), old(data[..len]))
    ensures data[len..] == old(data[len..])
  {
    hide DecryptBlock, DecryptedFrom, CbcDecrypt;
    ghost var d, g := data[..], Decryptor(c.View());
    ghost var iv0 := iv[at..at + 8];
    DecryptionStarts(g, iv0, d, len);
    var i := len - 8;
    while i >= 8
      invariant 0 <= i <= len - 8 && i % 8 == 0
      invariant DecryptedFrom(g, iv0, d, len, data[..], i + 8)
    {
      DecryptAndMix(c, data, i, data, i - 8, g, iv0, d, len);
      i := i - 8;
    }
    if iv == data {
      DecryptionSpares(g, iv0, d, len, data[..], 8, at);
      assert data[..][at..at + 8] == data[at..at + 8];
    }
    DecryptAndMix(c, data, 0, iv, at, g, iv0, d, len);
    DecryptionEnds(g, iv0, d, len, data[..]);
  }

  /** The code in place: encrypting a buffer and decrypting it again leaves it as it was. */
  method CbcThereAndBack(c: Context, iv: array<Byte>, at: nat, data: array<Byte>, len: nat)
    requires c.Valid() && 0 < len <= data.Length && len % 8 == 0 && at + 8 <= iv.Length && (iv == data ==> len <= at)
    modifies data
    ensures data[..] == old(data[..])
  {
    hide EncryptBlock, DecryptBlock, CbcEncrypt, CbcDecrypt;
    ghost var t, iv0, d := c.View(), iv[at..at + 8], data[..len];
    CbcEncryptBuffer(c, iv, at, data, len);
    if iv == data {
      SameTail(data[..], old(data[..]), len, at);
    }
    assert iv[at..at + 8] == iv0;
    CbcDecryptBuffer(c, iv, at, data, len);
    CbcRoundTrip(t, iv0, d);
    assert data[..] == data[..len] + data[len..];
    assert old(data[..]) == old(data[..len]) + old(data[len..]);
  }

  lemma SameTail(a: seq<Byte>, b: seq<Byte>, len: nat, at: nat)
    requires |a| == |b| && len <= at && at + 8 <= |a| && a[len..] == b[len..]
    ensures a[at..at + 8] == b[at..at + 8]
  {
    assert a[at..at + 8] == a[len..][at - len..at - len + 8];
    assert b[at..at + 8] == b[len..][at - len..at - len + 8];
  }

  // ----- Words -----

  /** The first `n` pairs of words each through `f`, the rest untouched. */
  function EachPair(f: Pair -> Pair, d: seq<Word>, n: nat): (r: seq<Word>)
    requires 2 * n <= |d|
    ensures |r| == |d| && r[2 * n..] == d[2 * n..]
  {
    if n == 0 then d else
      var r := EachPair(f, d, n - 1);
      var y := f(Pair(d[2 * n - 2], d[2 * n - 1]));
      r[2 * n - 2 := y.l][2 * n - 1 := y.r]
  }

  lemma EachPairStep(f: Pair -> Pair, d: seq<Word>, n: nat)
    requires 2 * n <= |d|
    ensures n == 0 ==> EachPair(f, d, n) == d
    ensures 2 * n + 2 <= |d| ==>
              var r, y := EachPair(f, d, n), f(Pair(d[2 * n], d[2 * n + 1]));
              && r[2 * n] == d[2 * n] && r[2 * n + 1] == d[2 * n + 1]
              && EachPair(f, d, n + 1) == r[2 * n := y.l][2 * n + 1 := y.r]
  {
    var r := EachPair(f, d, n);
    if 2 * n + 2 <= |d| {
      assert r[2 * n] == r[2 * n..][0] && r[2 * n + 1] == r[2 * n..][1];
    }
  }

  lemma {:induction false} EachPairAt(f: Pair -> Pair, d: seq<Word>, n: nat, k: nat)
    requires 2 * n <= |d| && k < n
    ensures var r := EachPair(f, d, n);
            Pair(r[2 * k], r[2 * k + 1]) == f(Pair(d[2 * k], d[2 * k + 1]))
  {
    if k < n - 1 {
      EachPairAt(f, d, n - 1, k);
    }
  }

  /** `blf_dec` undoes `blf_enc`, and the other way round, for any number of blocks. */
  lemma WordsRoundTrip(t: Tables, d: seq<Word>, n: nat)
    requires t.Valid() && 2 * n <= |d|
    ensures EachPair(Decipherer(t), EachPair(Encipherer(t), d, n), n) == d
    ensures EachPair(Encipherer(t), EachPair(Decipherer(t), d, n), n) == d
  {
    hide Enciphered, Deciphered, EachPair;
    forall x: Pair
      ensures Deciphered(t, Enciphered(t, x)) == x && Enciphered(t, Deciphered(t, x)) == x
    {
      CipherInverse(t, x);
    }
    EachPairUndone(Decipherer(t), Encipherer(t), d, n);
    EachPairUndone(Encipherer(t), Decipherer(t), d, n);
  }

  function Encipherer(t: Tables): Pair -> Pair
    requires t.Valid()
  {
    x => Enciphered(t, x)
  }

  function Decipherer(t: Tables): Pair -> Pair
    requires t.Valid()
  {
    x => Deciphered(t, x)
  }

  lemma EachPairUndone(g: Pair -> Pair, f: Pair -> Pair, d: seq<Word>, n: nat)
    requires 2 * n <= |d| && forall x :: g(f(x)) == x
    ensures EachPair(g, EachPair(f, d, n), n) == d
  {
    hide EachPair;
    var e := EachPair(f, d, n);
    var r := EachPair(g, e, n);
    forall i | 0 <= i < |d|
      ensures r[i] == d[i]
    {
      if i < 2 * n {
        EachPairAt(f, d, n, i / 2);
        EachPairAt(g, e, n, i / 2);
      } else {
        assert r[i] == r[2 * n..][i - 2 * n] && d[i] == d[2 * n..][i - 2 * n];
      }
    }
  }

  /** `blf_enc`. */
  method EncryptWords(c: Context, data: array<Word>, blocks: nat)
    requires c.Valid() && 2 * blocks <= data.Length && data != c.s && data != c.p
    modifies data
    ensures data[..] == EachPair(Encipherer(c.View()), old(data[..]), blocks)
  {
    hide Enciphered, Deciphered, EachPair;
    ghost var t, d := c.View(), data[..];
    assert EachPair(Encipherer(t), d, 0) == d by { EachPairStep(Encipherer(t), d, 0); }
    for i := 0 to blocks
      invariant data[..] == EachPair(Encipherer(t), d, i)
      invariant c.View() == t
    {
      EachPairStep(Encipherer(t), d, i);
      var l, r := c.Encipher(data[2 * i], data[2 * i + 1]);
      data[2 * i] := l;
      data[2 * i + 1] := r;
    }
  }

  /** `blf_dec`. */
  method DecryptWords(c: Context, data: array<Word>, blocks: nat)
    requires c.Valid() && 2 * blocks <= data.Length && data != c.s && data != c.p
    modifies data
    ensures data[..] == EachPair(Decipherer(c.View()), old(data[..]), blocks)
  {
    hide Enciphered, Deciphered, EachPair;
    ghost var t, d := c.View(), data[..];
    assert EachPair(Decipherer(t), d, 0) == d by { EachPairStep(Decipherer(t), d, 0); }
    for i := 0 to blocks
      invariant data[..] == EachPair(Decipherer(t), d, i)
      invariant c.View() == t
    {
      EachPairStep(Decipherer(t), d, i);
      var l, r := c.Decipher(data[2 * i], data[2 * i + 1]);
      data[2 * i] := l;
      data[2 * i + 1] := r;
    }
  }
}
