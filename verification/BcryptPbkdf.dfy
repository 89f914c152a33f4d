/**
 * The key derivation of libssh2/src/bcrypt_pbkdf.c: PBKDF2 (section 5.2 of RFC 8018)
 * whose output bytes are dealt out over the key instead of laid end to end.
 */
module BcryptPbkdf {
  import Bits
  import opened Octets
  import opened Arithmetic
  import opened BlowfishModes
  import opened BlowfishCipher

  const HASHSIZE := 32
  const MAX_SALT := 0x10_0000

  type Digest = s: seq<Byte> | |s| == 64 witness seq(64, _ => 0)
  type Chunk = s: seq<Byte> | |s| == HASHSIZE witness seq(HASHSIZE, _ => 0)

  /** The two hashes the derivation is built from. */
  datatype Hashes = Hashes(sha512: seq<Byte> -> Digest, bcrypt: (Digest, Digest) -> Chunk)

  // ----- PBKDF2 -----

  /** A block counter as four bytes, most significant first. */
  function CountBytes(count: nat): seq<Byte> {
    [Bits.Byte(count / 0x100_0000 % 256), Bits.Byte(count / 0x1_0000 % 256),
     Bits.Byte(count / 0x100 % 256), Bits.Byte(count % 256)]
  }

  function XorChunk(a: Chunk, b: Chunk): Chunk {
    seq(HASHSIZE, i requires 0 <= i < HASHSIZE => XorByte(a[i], b[i]))
  }

  /** `U_i` of RFC 8018: each iteration hashes the one before. */
  function Iterate(h: Hashes, pass: seq<Byte>, salt: seq<Byte>, count: nat, i: nat): Chunk
    requires i >= 1
  {
    if i == 1 then h.bcrypt(h.sha512(pass), h.sha512(salt + CountBytes(count)))
    else h.bcrypt(h.sha512(pass), h.sha512(Iterate(h, pass, salt, count, i - 1)))
  }

  /** `T_count` of RFC 8018: the exclusive-or of `U_1` to `U_rounds`. */
  function OutputBlock(h: Hashes, pass: seq<Byte>, salt: seq<Byte>, count: nat, rounds: nat): Chunk
    requires rounds >= 1
  {
    if rounds == 1 then Iterate(h, pass, salt, count, 1)
    else XorChunk(OutputBlock(h, pass, salt, count, rounds - 1), Iterate(h, pass, salt, count, rounds))
  }

  /** The block of output that a round of the outer loop computes. */
  method ComputeBlock(h: Hashes, sha2pass: Digest, salt: seq<Byte>, count: nat, rounds: nat, ghost pass: seq<Byte>)
    returns (out: Chunk)
    requires rounds >= 1 && sha2pass == h.sha512(pass)
    ensures out == OutputBlock(h, pass, salt, count, rounds)
  {
    var sha2salt := h.sha512(salt + CountBytes(count));
    var tmpout := h.bcrypt(sha2pass, sha2salt);
    out := tmpout;
    for i := 1 to rounds
      invariant tmpout == Iterate(h, pass, salt, count, i)
      invariant out == OutputBlock(h, pass, salt, count, i)
    {
      sha2salt := h.sha512(tmpout);
      tmpout := h.bcrypt(sha2pass, sha2salt);
      out := XorChunk(out, tmpout);
    }
  }

  // ----- Dealing the bytes out -----

  /** How many blocks a key of `k` bytes takes; also the distance between bytes of one block. */
  function Stride(k: nat): (s: nat)
    requires k > 0
    ensures HASHSIZE * (s - 1) < k <= HASHSIZE * s && 1 <= s <= k
  {
    (k + HASHSIZE - 1) / HASHSIZE
  }

  /** How many of the key's bytes come from the block after `c` others. */
  function Column(k: nat, s: nat, c: nat): nat
    requires c < s <= k
  {
    (k - 1 - c) / s + 1
  }

  /** Row `i` of column `c` lies inside the key exactly when the column is longer than `i`. */
  lemma InColumn(k: nat, s: nat, c: nat, i: nat)
    requires c < s <= k
    ensures CellOf(i, c, s) < k <==> i < Column(k, s, c)
  {
    var q := (k - 1 - c) / s;
    DivMod(k - 1 - c, s);
    if i <= q {
      if i < q { MulGap(i, q, s); }
    } else {
      MulGap(q, i, s);
    }
  }

  /** How many bytes the first `c` blocks fill. */
  function Filled(k: nat, s: nat, c: nat): nat
    requires c <= s <= k
  {
    if c == 0 then 0 else Filled(k, s, c - 1) + Column(k, s, c - 1)
  }

  lemma FilledNext(k: nat, s: nat, c: nat)
    requires c < s <= k
    ensures Filled(k, s, 0) == 0 && Filled(k, s, c + 1) == Filled(k, s, c) + Column(k, s, c)
  {}

  /** Columns differ in length by at most one and never grow. */
  lemma ColumnShape(k: nat, s: nat, c: nat)
    requires c < s <= k
    ensures Column(k, s, c) == (k - 1) / s + if c <= (k - 1) % s then 1 else 0
    ensures 1 <= Column(k, s, c)
  {
    var q, b := (k - 1) / s, (k - 1) % s;
    DivMod(k - 1, s);
    if c <= b {
      DivModUnique(k - 1 - c, s, q, b - c);
    } else {
      assert q >= 1;
      assert (q - 1) * s == q * s - s;
      DivModUnique(k - 1 - c, s, q - 1, b + s - c);
    }
  }

  lemma ColumnsShrink(k: nat, s: nat, c: nat)
    requires c < s <= k
    ensures c + 1 < s ==> Column(k, s, c + 1) <= Column(k, s, c)
  {
    ColumnShape(k, s, c);
    if c + 1 < s {
      ColumnShape(k, s, c + 1);
    }
  }

  /** The first column is as long as the rounded-up quotient the code starts with. */
  lemma FirstColumn(k: nat, s: nat)
    requires 0 < s <= k
    ensures Column(k, s, 0) == (k + s - 1) / s
  {
    var q, r := (k - 1) / s, (k - 1) % s;
    DivMod(k - 1, s);
    assert (q + 1) * s == q * s + s;
    DivModUnique(k + s - 1, s, q + 1, r);
  }

  lemma {:induction false} FilledShape(k: nat, s: nat, c: nat)
    requires c <= s <= k && 0 < s
    ensures var q, b := (k - 1) / s, (k - 1) % s;
            Filled(k, s, c) == c * q + if c <= b then c else b + 1
  {
    if c == 0 {
    } else {
      FilledShape(k, s, c - 1);
      ColumnShape(k, s, c - 1);
      var q := (k - 1) / s;
      assert c * q == (c - 1) * q + q;
    }
  }

  /** The columns fill the key exactly when all of them are dealt out, and not before. */
  lemma FilledExactly(k: nat, s: nat, c: nat)
    requires c <= s <= k && 0 < s
    ensures Filled(k, s, c) <= k
    ensures Filled(k, s, c) == k <==> c == s
    ensures c < s ==> Filled(k, s, c) + Column(k, s, c) <= k
    decreases s - c
  {
    if c == s {
      FilledShape(k, s, s);
      DivMod(k - 1, s);
    } else {
      FilledExactly(k, s, c + 1);
      ColumnShape(k, s, c);
    }
  }

  /** A column never holds more bytes than a block has. */
  lemma ColumnFits(k: nat, c: nat)
    requires 0 < k <= HASHSIZE * HASHSIZE && c < Stride(k)
    ensures Column(k, Stride(k), c) <= HASHSIZE
  {
    var s := Stride(k);
    InColumn(k, s, c, HASHSIZE);
  }

  /** Rows and columns of the key: index `d` is row `d / s` of column `d % s`. */
  function Row(d: nat, s: nat): nat
    requires s > 0
  {
    d / s
  }

  function Lane(d: nat, s: nat): nat
    requires s > 0
  {
    d % s
  }

  function CellOf(i: nat, c: nat, s: nat): nat { i * s + c }

  lemma Cell(d: nat, i: nat, c: nat, s: nat)
    requires c < s
    ensures d == CellOf(i, c, s) <==> Row(d, s) == i && Lane(d, s) == c
  {
    DivMod(d, s);
    if d == i * s + c {
      DivModUnique(d, s, i, c);
    }
  }

  /** What a key of `k` bytes holds at index `d`. */
  function KeyByte(h: Hashes, pass: seq<Byte>, salt: seq<Byte>, rounds: nat, k: nat, d: nat): Byte
    requires rounds >= 1 && d < k <= HASHSIZE * HASHSIZE
  {
    var s := Stride(k);
    RowFits(k, d);
    OutputBlock(h, pass, salt, Lane(d, s) + 1, rounds)[Row(d, s)]
  }

  /** A column that holds a block's bytes holds what those key bytes should be. */
  lemma KeyBytesOf(h: Hashes, pass: seq<Byte>, salt: seq<Byte>, rounds: nat, k: nat, c: nat, out: Chunk)
    requires rounds >= 1 && 0 < k <= HASHSIZE * HASHSIZE
    requires out == OutputBlock(h, pass, salt, c + 1, rounds)
    ensures forall d: nat :: d < k && Lane(d, Stride(k)) == c ==>
              Row(d, Stride(k)) < HASHSIZE && KeyByte(h, pass, salt, rounds, k, d) == out[Row(d, Stride(k))]
  {
    hide Row, Lane, OutputBlock, Stride;
    forall d: nat | d < k && Lane(d, Stride(k)) == c
      ensures Row(d, Stride(k)) < HASHSIZE && KeyByte(h, pass, salt, rounds, k, d) == out[Row(d, Stride(k))]
    {
      RowFits(k, d);
    }
  }

  lemma RowFits(k: nat, d: nat)
    requires d < k <= HASHSIZE * HASHSIZE
    ensures Row(d, Stride(k)) < HASHSIZE && Lane(d, Stride(k)) < Stride(k)
  {
    var s := Stride(k);
    DivMod(d, s);
    if d / s >= HASHSIZE {
      MulMono(HASHSIZE, d / s, s);
      assert false;
    }
  }

  /** The blocks that the bytes of a subkey `[a, a + w)` come from. */
  ghost function BlocksUsed(k: nat, a: nat, w: nat): set<nat>
    requires 0 < k && a + w <= k
  {
    set d: nat | a <= d < a + w :: d % Stride(k) + 1
  }

  /**
   * The point of the dealing: a subkey needs every block if and only if it is at
   * least as long as there are blocks.
   */
  lemma SubkeyNeedsEveryBlock(k: nat, a: nat, w: nat)
    requires 0 < k && a + w <= k
    ensures (forall c: nat :: 1 <= c <= Stride(k) ==> c in BlocksUsed(k, a, w)) <==> w >= Stride(k)
  {
    var s := Stride(k);
    if w >= s {
      forall c: nat | 1 <= c <= s
        ensures c in BlocksUsed(k, a, w)
      {
        var d := SameResidue(a, s, c - 1);
      }
    } else {
      // The residue just before the window's first one is not in the window.
      var c := (a + w) % s + 1;
      DivMod(a + w, s);
      assert c !in BlocksUsed(k, a, w) by {
        forall d: nat | a <= d < a + w
          ensures d % s + 1 != c
        {
          CloseResidues(d, a + w, s);
        }
      }
    }
  }

  lemma SameResidue(a: nat, s: nat, r: nat) returns (d: nat)
    requires r < s
    ensures a <= d < a + s && d % s == r
  {
    var q, b := a / s, a % s;
    DivMod(a, s);
    if b <= r {
      d := q * s + r;
      DivModUnique(d, s, q, r);
    } else {
      d := (q + 1) * s + r;
      assert d == q * s + s + r;
      DivModUnique(d, s, q + 1, r);
    }
  }

  lemma CloseResidues(d: nat, e: nat, s: nat)
    requires d < e < d + s
    ensures d % s != e % s
  {
    DivMod(d, s);
    DivMod(e, s);
    var x: int := e / s - d / s;
    MultipleGap(x, s);
    assert x * s == (e / s) * s - (d / s) * s;
  }

  // ----- In other words -----

  /** The four bytes hashed after the salt are the block's number, as a big-endian integer. */
  lemma CountValue(count: nat)
    requires count < 0x1_0000_0000
    ensures var b := CountBytes(count);
            && |b| == 4
            && Bits.Val8(b[0]) * 0x100_0000 + Bits.Val8(b[1]) * 0x1_0000 + Bits.Val8(b[2]) * 0x100 + Bits.Val8(b[3]) == count
  {
    hide Bits.Val8, Bits.Byte;
    var d0, d1, d2, d3 := count / 0x100_0000 % 256, count / 0x1_0000 % 256, count / 0x100 % 256, count % 256;
    assert count / 0x100_0000 < 256;
    Digits(count, d0, d1, d2, d3);
    BytesBack(d0, d1, d2, d3);
  }

  lemma BytesBack(d0: nat, d1: nat, d2: nat, d3: nat)
    requires d0 < 256 && d1 < 256 && d2 < 256 && d3 < 256
    ensures Bits.Val8(Bits.Byte(d0)) == d0 && Bits.Val8(Bits.Byte(d1)) == d1
    ensures Bits.Val8(Bits.Byte(d2)) == d2 && Bits.Val8(Bits.Byte(d3)) == d3
  {
    hide Bits.Val8, Bits.Byte;
    Bits.ByteBack(d0);
    Bits.ByteBack(d1);
    Bits.ByteBack(d2);
    Bits.ByteBack(d3);
  }

  lemma CountOne()
    ensures CountBytes(1) == [0, 0, 0, 1]
  {
    hide Bits.Byte;
    Bits.ByteOne();
    var one := 1;
    assert one / 0x100_0000 % 256 == 0 && one / 0x1_0000 % 256 == 0 && one / 0x100 % 256 == 0 && one % 256 == 1;
  }

  /** How the hashes of a block hang together. */
  lemma ChainOfHashes(h: Hashes, pass: seq<Byte>, salt: seq<Byte>, count: nat, i: nat)
    requires i >= 1
    ensures Iterate(h, pass, salt, count, 1) == h.bcrypt(h.sha512(pass), h.sha512(salt + CountBytes(count)))
    ensures Iterate(h, pass, salt, count, i + 1)
            == h.bcrypt(h.sha512(pass), h.sha512(Iterate(h, pass, salt, count, i)))
  {
    hide CountBytes;
  }

  /** How many of the first `n` hashes of a block have a bit of a byte set. */
  function Ones(h: Hashes, pass: seq<Byte>, salt: seq<Byte>, count: nat, n: nat, j: nat, bit: Byte): nat
    requires j < HASHSIZE
  {
    if n == 0 then 0
    else Ones(h, pass, salt, count, n - 1, j, bit)
         + if Bits.Bit8(Iterate(h, pass, salt, count, n)[j], bit) then 1 else 0
  }

  /** A block is the exclusive-or of all its hashes: a bit is set if an odd number of them has it set. */
  lemma {:induction false} BlockParity(h: Hashes, pass: seq<Byte>, salt: seq<Byte>, count: nat, rounds: nat,
                                       j: nat, bit: Byte)
    requires rounds >= 1 && j < HASHSIZE && bit & (bit - 1) == 0
    ensures Bits.Bit8(OutputBlock(h, pass, salt, count, rounds)[j], bit)
            <==> Ones(h, pass, salt, count, rounds, j, bit) % 2 == 1
  {
    hide Bits.Bit8, Iterate, XorByte;
    if rounds == 1 {
      assert Ones(h, pass, salt, count, 0, j, bit) == 0;
    } else {
      BlockParity(h, pass, salt, count, rounds - 1, j, bit);
      var a, b := OutputBlock(h, pass, salt, count, rounds - 1)[j], Iterate(h, pass, salt, count, rounds)[j];
      assert OutputBlock(h, pass, salt, count, rounds)[j] == XorByte(a, b);
      MixedByte(a, b, bit);
    }
  }

  lemma MixedByte(a: Byte, b: Byte, bit: Byte)
    requires bit & (bit - 1) == 0
    ensures Bits.Bit8(XorByte(a, b), bit) <==> Bits.Bit8(a, bit) != Bits.Bit8(b, bit)
  {
    hide Bits.Bit8;
    Bits.FlipByte(a, b, bit);
  }

  /** Byte `i` of block `c + 1` lies at `i * s + c`, where `s` is a thirty-second of the key's length, rounded up. */
  lemma KeyAt(h: Hashes, pass: seq<Byte>, salt: seq<Byte>, rounds: nat, k: nat, s: nat, i: nat, c: nat)
    requires rounds >= 1 && 0 < k <= 1024 && s == (k + 31) / 32 && i < 32 && c < s && i * s + c < k
    ensures KeyByte(h, pass, salt, rounds, k, i * s + c) == OutputBlock(h, pass, salt, c + 1, rounds)[i]
  {
    hide OutputBlock;
    DivModUnique(i * s + c, s, i, c);
  }

  /** With one round, a key of up to 32 bytes is the front of one hash. */
  lemma ShortKey(h: Hashes, pass: seq<Byte>, salt: seq<Byte>, k: nat, d: nat)
    requires 0 < k <= 32 && d < k
    ensures KeyByte(h, pass, salt, 1, k, d) == h.bcrypt(h.sha512(pass), h.sha512(salt + [0, 0, 0, 1]))[d]
  {
    hide CountBytes, KeyByte;
    KeyAt(h, pass, salt, 1, k, 1, d, 0);
    assert d * 1 + 0 == d;
    CountOne();
  }

  // ----- The code -----

  ghost predicate Distinct(s: seq<nat>) { forall i, j :: 0 <= i < j < |s| ==> s[i] != s[j] }

  /** The scatter loop: byte `i` of a block goes to `i * stride + c`, until that leaves the key. */
  method Scatter(key: array<Byte>, k: nat, s: nat, amt: nat, c: nat, out: Chunk, ghost writes: seq<nat>)
    returns (i: nat, ghost writes': seq<nat>)
    requires c < s <= k <= key.Length && Column(k, s, c) <= amt && Column(k, s, c) <= HASHSIZE
    requires Distinct(writes) && forall d :: d in writes ==> Lane(d, s) < c
    modifies key
    ensures i == Column(k, s, c)
    ensures forall d :: 0 <= d < k && Lane(d, s) == c ==> Row(d, s) < HASHSIZE && key[d] == out[Row(d, s)]
    ensures forall d :: 0 <= d < key.Length && !(d < k && Lane(d, s) == c) ==> key[d] == old(key[d])
    ensures Distinct(writes') && |writes'| == |writes| + i
    ensures forall d: nat :: d in writes' <==> d in writes || (d < k && Lane(d, s) == c)
  {
    hide Row, Lane, CellOf, Column;
    writes' := writes;
    i := 0;
    InColumn(k, s, c, 0);
    while i < amt
      invariant 0 <= i <= Column(k, s, c)
      invariant forall d :: 0 <= d < k && Lane(d, s) == c && Row(d, s) < i ==> Row(d, s) < HASHSIZE && key[d] == out[Row(d, s)]
      invariant forall d :: 0 <= d < key.Length && !(d < k && Lane(d, s) == c && Row(d, s) < i) ==> key[d] == old(key[d])
      invariant Distinct(writes') && |writes'| == |writes| + i
      invariant forall d: nat :: d in writes' <==> d in writes || (d < k && Lane(d, s) == c && Row(d, s) < i)
    {
      var dest := CellOf(i, c, s);
      InColumn(k, s, c, i);
      if dest >= k {
        break;
      }
      forall d: nat
        ensures d == dest <==> Row(d, s) == i && Lane(d, s) == c
      {
        Cell(d, i, c, s);
      }
      key[dest] := out[i];
      writes' := writes' + [dest];
      i := i + 1;
    }
    forall d: nat | d < k && Lane(d, s) == c
      ensures Row(d, s) < Column(k, s, c)
    {
      Cell(d, Row(d, s), c, s);
      InColumn(k, s, c, Row(d, s));
    }
  }

  /** `bcrypt_pbkdf`. */
  method Derive(h: Hashes, pass: seq<Byte>, salt: seq<Byte>, key: array<Byte>, keylen: nat, rounds: nat)
    returns (rc: int, ghost blocks: nat, ghost writes: seq<nat>)
    requires keylen <= key.Length
    modifies key
    ensures rc == if rounds < 1 || pass == [] || salt == [] || keylen == 0
                     || keylen > 1024 || |salt| > 0x10_0000 then -1 else 0
    ensures rc != 0 ==> key[..] == old(key[..]) && writes == []
    ensures rc == 0 ==> forall d :: 0 <= d < keylen ==> key[d] == KeyByte(h, pass, salt, rounds, keylen, d)
    ensures key[keylen..] == old(key[keylen..])
    // One outer round for each block, and every index of the key written once.
    ensures rc == 0 ==> blocks == Stride(keylen)
    ensures rc == 0 ==> Distinct(writes) && forall d: nat :: d in writes <==> d < keylen
  {
    hide Row, Lane, Column, KeyByte, OutputBlock, Filled;
    blocks, writes := 0, [];
    if rounds < 1 {
      return -1, blocks, writes;
    }
    if pass == [] || salt == [] || keylen == 0 || keylen > HASHSIZE * HASHSIZE || |salt| > MAX_SALT {
      return -1, blocks, writes;
    }
    var stride := (keylen + HASHSIZE - 1) / HASHSIZE;
    var amt := (keylen + stride - 1) / stride;
    var left := keylen;
    var sha2pass := h.sha512(pass);
    var count := 1;
    FilledNext(keylen, stride, 0);
    FirstColumn(keylen, stride);
    while left > 0
      invariant 1 <= count <= stride + 1
      invariant blocks == count - 1
      invariant left == keylen - Filled(keylen, stride, count - 1)
      invariant count <= stride ==> Column(keylen, stride, count - 1) <= amt
      invariant forall d :: 0 <= d < keylen && Lane(d, stride) < count - 1 ==>
                  key[d] == KeyByte(h, pass, salt, rounds, keylen, d)
      invariant forall d :: keylen <= d < key.Length ==> key[d] == old(key[d])
      invariant Distinct(writes) && forall d: nat :: d in writes <==> d < keylen && Lane(d, stride) < count - 1
      decreases stride + 1 - count
    {
      ghost var c := count - 1;
      FilledExactly(keylen, stride, c);
      var out := ComputeBlock(h, sha2pass, salt, count, rounds, pass);
      amt := if amt < left then amt else left;
      ColumnFits(keylen, c);
      var i;
      i, writes := Scatter(key, keylen, stride, amt, count - 1, out, writes);
      ColumnsShrink(keylen, stride, c);
      FilledNext(keylen, stride, c);
      KeyBytesOf(h, pass, salt, rounds, keylen, c, out);
      left := left - i;
      count := count + 1;
      blocks := blocks + 1;
    }
    FilledExactly(keylen, stride, count - 1);
    forall d: nat | d < keylen
      ensures Lane(d, stride) < stride
    {
      RowFits(keylen, d);
    }
    rc := 0;
  }
}
