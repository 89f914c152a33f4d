/**
 * Known-host entries and the meaning of a lookup, for libssh2/src/knownhost.c.
 */
module KnownHostEntries {
  datatype Option<+T> = None | Some(value: T)

  const NONE := 0
  const ERROR_ALLOC := -6
  const ERROR_METHOD_NOT_SUPPORTED := -33
  const ERROR_INVAL := -34
  const ERROR_BUFFER_TOO_SMALL := -38
  const ERROR_KNOWN_HOSTS := -46

  // The three fields of a `typemask`: host format, key encoding, key type.
  datatype Mask = Mask(host: nat, enc: nat, key: nat)

  const TYPE_PLAIN := 1
  const TYPE_SHA1 := 2
  const TYPE_CUSTOM := 3

  const ENC_BASE64 := 2

  const KEY_RSA1 := 1
  const KEY_SSHRSA := 2
  const KEY_SSHDSS := 3
  const KEY_ECDSA_256 := 4
  const KEY_ECDSA_384 := 5
  const KEY_ECDSA_521 := 6
  const KEY_ED25519 := 7
  const KEY_UNKNOWN := 15

  /** The bit test `typemask & KEYENC_BASE64`. */
  predicate IsBase64(m: Mask) { m.enc / 2 % 2 == 1 }

  /** `struct known_host`. */
  datatype Entry = Entry(name: string, salt: string, mask: Mask, key: string,
                         typeName: Option<string>, comment: Option<string>)

  /** Base64 coding and HMAC-SHA1, which other files provide. */
  datatype Coding = Coding(encode: string -> string, decode: string -> Option<string>,
                           hmac: (string, string) -> string)

  const SHA_DIGEST_LENGTH := 20

  // ----- Adding -----

  /** The key that an argument and its length stand for. */
  function Given(key: string, keylen: nat): string
    requires keylen <= |key|
  {
    if keylen == 0 then key else key[..keylen]
  }

  datatype Made = Made(entry: Entry) | Refused(error: int)

  /** The entry that `knownhost_add` builds; `key` is the C string its argument points at. */
  function MakeEntry(c: Coding, host: string, salt: string, typeName: Option<string>,
                     key: string, keylen: nat, comment: Option<string>, mask: Mask): Made
    requires keylen <= |key|
  {
    if mask.key == 0 then Refused(ERROR_INVAL) else
    if mask.host != TYPE_PLAIN && mask.host != TYPE_CUSTOM && mask.host != TYPE_SHA1 then
      Refused(ERROR_METHOD_NOT_SUPPORTED) else
    var hashed := mask.host == TYPE_SHA1;
    var name := if hashed then c.decode(host) else Some(host);
    var salt' := if hashed then c.decode(salt) else Some("");
    if name.None? || salt'.None? then Refused(ERROR_INVAL) else
    // A length of 0 stands for that of the C string, in either encoding.
    var given := Given(key, keylen);
    var key' := if IsBase64(mask) then given else c.encode(given);
    if !IsBase64(mask) && key' == "" then Refused(ERROR_ALLOC) else
    Made(Entry(name.value, salt'.value, mask, key',
               if mask.key == KEY_UNKNOWN then typeName else None, comment))
  }

  // ----- What a lookup means -----

  const CHECK_MATCH := 0
  const CHECK_MISMATCH := 1
  const CHECK_NOTFOUND := 2
  const CHECK_FAILURE := 3

  /** What is asked about, once the key is in base64: host format, key type, key. */
  datatype Query = Query(kind: nat, keyType: nat, key: string)

  /** The entry is one for `host`. */
  predicate IsFor(c: Coding, q: Query, host: string, e: Entry) {
    || (e.mask.host == TYPE_PLAIN && q.kind == TYPE_PLAIN && e.name == host)
    || (e.mask.host == TYPE_CUSTOM && q.kind == TYPE_CUSTOM && e.name == host)
    || (e.mask.host == TYPE_SHA1 && q.kind == TYPE_PLAIN && |e.name| == SHA_DIGEST_LENGTH
        && c.hmac(e.salt, host) == e.name)
  }

  /** The entry is for `host` and its key type is acceptable. */
  predicate Relevant(c: Coding, q: Query, host: string, e: Entry) {
    IsFor(c, q, host, e) && q.keyType != KEY_UNKNOWN && (q.keyType == 0 || q.keyType == e.mask.key)
  }

  predicate Good(c: Coding, q: Query, host: string, e: Entry) { Relevant(c, q, host, e) && e.key == q.key }

  predicate Bad(c: Coding, q: Query, host: string, e: Entry) { Relevant(c, q, host, e) && e.key != q.key }

  ghost predicate Trusted(c: Coding, q: Query, hosts: seq<string>, es: seq<Entry>) {
    exists h, i :: 0 <= h < |hosts| && 0 <= i < |es| && Good(c, q, hosts[h], es[i])
  }

  ghost predicate Contradicted(c: Coding, q: Query, hosts: seq<string>, es: seq<Entry>) {
    exists h, i :: 0 <= h < |hosts| && 0 <= i < |es| && Bad(c, q, hosts[h], es[i])
  }

  /** The verdict on a key offered under any of the names `hosts`. */
  ghost function Verdict(c: Coding, q: Query, hosts: seq<string>, es: seq<Entry>): int {
    if Trusted(c, q, hosts, es) then CHECK_MATCH
    else if Contradicted(c, q, hosts, es) then CHECK_MISMATCH
    else CHECK_NOTFOUND
  }

  /** Adding entries never takes a match away, and never turns knowledge into ignorance. */
  lemma MoreEntries(c: Coding, q: Query, hosts: seq<string>, es: seq<Entry>, fs: seq<Entry>)
    requires forall e :: e in es ==> e in fs
    ensures Verdict(c, q, hosts, es) == CHECK_MATCH ==> Verdict(c, q, hosts, fs) == CHECK_MATCH
    ensures Verdict(c, q, hosts, fs) == CHECK_NOTFOUND ==> Verdict(c, q, hosts, es) == CHECK_NOTFOUND
  {
    hide Good, Bad;
    if Trusted(c, q, hosts, es) {
      var h, i :| 0 <= h < |hosts| && 0 <= i < |es| && Good(c, q, hosts[h], es[i]);
      assert es[i] in fs;
      var j :| 0 <= j < |fs| && fs[j] == es[i];
    }
    if Contradicted(c, q, hosts, es) {
      var h, i :| 0 <= h < |hosts| && 0 <= i < |es| && Bad(c, q, hosts[h], es[i]);
      assert es[i] in fs;
      var j :| 0 <= j < |fs| && fs[j] == es[i];
    }
  }

  /** So the verdict does not depend on the order of the entries, though the entry returned does. */
  lemma OrderIrrelevant(c: Coding, q: Query, hosts: seq<string>, es: seq<Entry>, fs: seq<Entry>)
    requires forall e :: e in es <==> e in fs
    ensures Verdict(c, q, hosts, es) == Verdict(c, q, hosts, fs)
  {
    MoreEntries(c, q, hosts, es, fs);
    MoreEntries(c, q, hosts, fs, es);
  }

  /** A verdict is about what the entries are for and their keys: any that look the same give the same. */
  lemma SameVerdict(c: Coding, q: Query, hosts: seq<string>, es: seq<Entry>, fs: seq<Entry>)
    requires |es| == |fs|
    requires forall h, i :: 0 <= h < |hosts| && 0 <= i < |es| ==>
               && (Good(c, q, hosts[h], es[i]) <==> Good(c, q, hosts[h], fs[i]))
               && (Bad(c, q, hosts[h], es[i]) <==> Bad(c, q, hosts[h], fs[i]))
    ensures Verdict(c, q, hosts, es) == Verdict(c, q, hosts, fs)
  {
    hide Good, Bad;
  }

  /** The key that is asked about, from what a caller passes: a base64 one is taken whole, whatever its length. */
  function AskedKey(c: Coding, key: string, keylen: nat, mask: Mask): string
    requires keylen <= |key|
  {
    if IsBase64(mask) then key else c.encode(Given(key, keylen))
  }

  /**
   * Adding a host and then asking for it with the same arguments finds that very entry
   * good if and only if its type is known and its key was not given by a part of a base64
   * string. If so the verdict is a match, under whichever of its names it was added.
   */
  lemma AddThenCheck(c: Coding, es: seq<Entry>, host: string, salt: string, typeName: Option<string>, key: string,
                     keylen: nat, comment: Option<string>, mask: Mask, hosts: seq<string>)
    requires mask.host == TYPE_PLAIN || mask.host == TYPE_CUSTOM
    requires keylen <= |key| && host in hosts
    requires MakeEntry(c, host, salt, typeName, key, keylen, comment, mask).Made?
    ensures var e := MakeEntry(c, host, salt, typeName, key, keylen, comment, mask).entry;
            var q := Query(mask.host, mask.key, AskedKey(c, key, keylen, mask));
            var whole := IsBase64(mask) ==> keylen == 0 || keylen == |key|;
            && (Good(c, q, host, e) <==> mask.key != KEY_UNKNOWN && whole)
            && (mask.key == KEY_UNKNOWN ==> Verdict(c, q, hosts, es + [e]) == CHECK_NOTFOUND)
            && (mask.key != KEY_UNKNOWN && whole ==> Verdict(c, q, hosts, es + [e]) == CHECK_MATCH)
  {
    var e := MakeEntry(c, host, salt, typeName, key, keylen, comment, mask).entry;
    var q := Query(mask.host, mask.key, AskedKey(c, key, keylen, mask));
    assert key[..|key|] == key;
    assert |key[..keylen]| == keylen;
    LastDecides(c, q, hosts, es, e, host);
  }

  /** The same for a host added under the hash of its name, if the hash is one of that name. */
  lemma AddHashedThenCheck(c: Coding, es: seq<Entry>, hash: string, salt: string, typeName: Option<string>, key: string,
                           keylen: nat, comment: Option<string>, mask: Mask, host: string, hosts: seq<string>)
    requires mask.host == TYPE_SHA1 && keylen <= |key| && host in hosts
    requires MakeEntry(c, hash, salt, typeName, key, keylen, comment, mask).Made?
    requires c.decode(hash) == Some(c.hmac(c.decode(salt).value, host)) && |c.decode(hash).value| == SHA_DIGEST_LENGTH
    ensures var e := MakeEntry(c, hash, salt, typeName, key, keylen, comment, mask).entry;
            var q := Query(TYPE_PLAIN, mask.key, AskedKey(c, key, keylen, mask));
            var whole := IsBase64(mask) ==> keylen == 0 || keylen == |key|;
            && (Good(c, q, host, e) <==> mask.key != KEY_UNKNOWN && whole)
            && (mask.key == KEY_UNKNOWN ==> Verdict(c, q, hosts, es + [e]) == CHECK_NOTFOUND)
            && (mask.key != KEY_UNKNOWN && whole ==> Verdict(c, q, hosts, es + [e]) == CHECK_MATCH)
  {
    var e := MakeEntry(c, hash, salt, typeName, key, keylen, comment, mask).entry;
    var q := Query(TYPE_PLAIN, mask.key, AskedKey(c, key, keylen, mask));
    assert key[..|key|] == key;
    assert |key[..keylen]| == keylen;
    LastDecides(c, q, hosts, es, e, host);
  }

  lemma LastDecides(c: Coding, q: Query, hosts: seq<string>, es: seq<Entry>, e: Entry, host: string)
    requires host in hosts
    ensures q.keyType == KEY_UNKNOWN ==> Verdict(c, q, hosts, es + [e]) == CHECK_NOTFOUND
    ensures Good(c, q, host, e) ==> Verdict(c, q, hosts, es + [e]) == CHECK_MATCH
  {
    hide IsFor;
    if Good(c, q, host, e) {
      var h :| 0 <= h < |hosts| && hosts[h] == host;
      assert Good(c, q, hosts[h], (es + [e])[|es|]);
    }
  }

  /** Position `(h, i)` comes before `(h', i')` when passes are made one after the other. */
  predicate Before(h: nat, i: nat, h': nat, i': nat) { h < h' || (h == h' && i < i') }

  /** Entry `i` under name `h` is the first good one, in pass-then-list order. */
  ghost predicate FirstGood(c: Coding, q: Query, hosts: seq<string>, es: seq<Entry>, h: nat, i: nat) {
    && h < |hosts| && i < |es| && Good(c, q, hosts[h], es[i])
    && forall h', i' :: 0 <= h' < |hosts| && 0 <= i' < |es| && Before(h', i', h, i) ==> !Good(c, q, hosts[h'], es[i'])
  }

  ghost predicate FirstBad(c: Coding, q: Query, hosts: seq<string>, es: seq<Entry>, h: nat, i: nat) {
    && h < |hosts| && i < |es| && Bad(c, q, hosts[h], es[i])
    && forall h', i' :: 0 <= h' < |hosts| && 0 <= i' < |es| && Before(h', i', h, i) ==> !Bad(c, q, hosts[h'], es[i'])
  }

  // ----- Names asked about -----

  const HOSTBUFF := 270

  /** `%d` of a non-negative number. */
  function Decimal(n: nat): string
  {
    if n < 10 then [('0' as int + n) as char] else Decimal(n / 10) + Decimal(n % 10)
  }

  function WithPort(host: string, port: nat): string { "[" + host + "]:" + Decimal(port) }

  function NamesAsked(host: string, port: int): seq<string> {
    if port >= 0 then [WithPort(host, port), host] else [host]
  }
}
