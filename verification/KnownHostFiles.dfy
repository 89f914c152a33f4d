/** Hashed entries, and whole files: writing every entry and reading the text back. */
module KnownHostFiles {
  import opened KnownHostEntries
  import opened KnownHostText
  import opened KnownHostRoundTrip

  // ----- Hashed entries -----

  /** Base64 text: nothing in it that could end a field of a line. */
  ghost predicate Unbroken(t: string) {
    NoneBlank(t) && OneLine(t) && forall i :: 0 <= i < |t| ==> t[i] != '|'
  }

  /** The base64 form of `s` decodes to `s` and can stand in a line. */
  ghost predicate Encodes(c: Coding, s: string, limit: nat) {
    var t := c.encode(s);
    && c.decode(t) == Some(s)
    && 0 < |t| < limit && Unbroken(t)
  }

  ghost predicate GoodHash(c: Coding, e: Entry) {
    && e.mask.host == TYPE_SHA1
    && Encodes(c, e.salt, 31) && Encodes(c, e.name, 255)
  }

  lemma FindBarIs(s: string, i: nat, b: nat)
    requires i <= b < |s| && s[b] == '|' && forall k :: i <= k < b ==> s[k] != '|'
    ensures FindBar(s, i) == b
  {}

  /** A hashed host part gives back the salt and the hash it was made of. */
  lemma HashedHostLine(c: Coding, e: Entry, rest: string, f: Fields)
    requires GoodHash(c, e) && 0 < f.keylen <= |f.key|
    requires e.mask.key == f.keyType && f.keyType != 0
    ensures var host := HostText(c, e);
            3 <= |host| && Hashed(c, host + rest, |host|, f)
              == Outcome([Entry(e.name, e.salt, Normal(e).mask, f.key[..f.keylen],
                                if f.keyType == KEY_UNKNOWN then f.typeName else None, f.comment)], NONE)
  {
    hide NoneBlank, OneLine;
    var s, n := c.encode(e.salt), c.encode(e.name);
    var host := HostText(c, e);
    var from := host + rest;
    var b := 3 + |s|;
    assert host == HASH_MAGIC + s + "|" + n;
    assert from[3..b] == s && from[b] == '|' && from[b + 1..b + 1 + |n|] == n;
    assert forall k :: 3 <= k < b ==> from[k] == from[3..b][k - 3];
    FindBarIs(from, 3, b);
  }

  /** Hashed entries with a good key part come back too, marked as base64. */
  lemma HashedComesBack(c: Coding, e: Entry)
    requires GoodHash(c, e) && TypeText(e).Some? && GoodKey(e)
    ensures ComesBack(c, e)
  {
    hide FieldsOf, KeyText, GoodKey, KeyTypeOf, ParseLine, TypeText, Hashed, HostText, GoodHash;
    var host, p := HostText(c, e), KeyText(e);
    GoodKeyFields(e);
    var f := FieldsOf(p, "\n");
    HashHost(c, e);
    LineSplits(c, host, p);
    var line := host + " " + p + "\n";
    assert line == host + (" " + p + "\n");
    HashedHostLine(c, e, " " + p + "\n", f);
    assert line[..3] == host[..3];
  }

  lemma HashHost(c: Coding, e: Entry)
    requires GoodHash(c, e) && TypeText(e).Some?
    ensures var host := HostText(c, e);
            && 3 <= |host| && NoneBlank(host) && OneLine(host) && host[0] != '#' && host[..3] == HASH_MAGIC
    ensures PrintLine(c, e).Line? && e.mask.key != 0
    ensures e.mask.host == TYPE_SHA1
  {
    assert HASH_MAGIC[0] == '|' && HASH_MAGIC[1] == '1' && HASH_MAGIC[2] == '|';
  }

  /** A hashed entry of a type that can be written, each text on one line, as base64 leaves it. */
  ghost predicate HashStorable(c: Coding, e: Entry) {
    && e.mask.host == TYPE_SHA1 && TypeText(e).Some? && OneLine(KeyText(e)) && OneLine(e.key)
    && Unbroken(c.encode(e.salt)) && Unbroken(c.encode(e.name))
  }

  /** The same entry under a plain name: what becomes of its key part does not depend on the host part. */
  function Named(e: Entry): Entry { e.(salt := "", mask := PlainMask(e.mask.key)) }

  lemma NamedText(e: Entry)
    ensures TypeText(Named(e)) == TypeText(e)
    ensures TypeText(e).Some? ==> KeyText(Named(e)) == KeyText(e) && (GoodKey(Named(e)) <==> GoodKey(e))
  {
    hide GoodComment, NoneBlank;
    assert TypeText(Named(e)) == TypeText(e);
    assert TypeText(e).Some? ==> KeyText(Named(e)) == KeyText(e);
  }

  /** A hashed entry read from a line has the key part of that line. */
  lemma HashedParsed(c: Coding, line: string, e: Entry)
    requires FullLine(line) && e in ParseLine(c, line).added && e.mask.host == TYPE_SHA1
    ensures exists p :: p != "" && !Blank(p[0]) && OneLine(p) && MIN_KEY <= |p|
                        && Named(e) == PlainEntry(e.name, FieldsOf(p, "\n"))
  {
    hide FieldsOf, ParseLine, IsLine, OneLine;
    var from, hostlen, p := LineShape(c, line, e);
    var f := FieldsOf(p, "\n");
    if hostlen > 2 && from[..3] != HASH_MAGIC {
      ScanShape(Names(from[..hostlen]), f, e);
      assert false;
    } else {
      HashedFields(c, from, hostlen, f, e);
    }
  }

  lemma HashedFields(c: Coding, from: string, hostlen: nat, f: Fields, e: Entry)
    requires 3 <= |from| && hostlen <= |from| && f.keylen <= |f.key| && e in Hashed(c, from, hostlen, f).added
    ensures Named(e) == PlainEntry(e.name, f)
  {}

  /** So its key part is good as far as reading makes sure of it. */
  lemma HashedKeyShape(c: Coding, e: Entry)
    requires HashStorable(c, e) && PrintLine(c, e).Line? && Normal(e) in ParseLine(c, PrintLine(c, e).text).added
    requires FullLine(PrintLine(c, e).text)
    ensures |KeyText(e)| >= MIN_KEY ==> GoodKey(e)
    ensures KeyText(e) != "" && !Blank(KeyText(e)[0])
  {
    hide ParseLine, FieldsOf, KeyTypeOf, PrintLine, PlainEntry, KeyText, TypeText, OneLine, NoneBlank, GoodComment;
    var line, n := PrintLine(c, e).text, Named(e);
    HashedParsed(c, line, Normal(e));
    assert Named(Normal(e)) == n;
    var p :| p != "" && !Blank(p[0]) && OneLine(p) && MIN_KEY <= |p| && n == PlainEntry(n.name, FieldsOf(p, "\n"));
    FieldsShape(p, n);
    NamedText(e);
    UnknownTypeText(n);
    TextStart(n);
  }

  /** The line of a hashed entry. */
  lemma HashedPrinted(c: Coding, e: Entry)
    requires HashStorable(c, e) && PrintLine(c, e).Line?
    ensures var host := HostText(c, e);
            && PrintLine(c, e).text == host + " " + KeyText(e) + "\n" && FullLine(PrintLine(c, e).text)
            && 3 <= |host| && NoneBlank(host) && OneLine(host) && host[0] != '#' && host[..3] == HASH_MAGIC
            && c.encode(e.name) != "" && c.encode(e.salt) != ""
  {
    hide KeyText, TypeText;
    assert HASH_MAGIC[0] == '|' && HASH_MAGIC[1] == '1' && HASH_MAGIC[2] == '|';
  }

  /** Where its host part comes apart, whatever it decodes to. */
  lemma HashedCut(c: Coding, e: Entry, rest: string, f: Fields)
    requires HashStorable(c, e) && f.keylen <= |f.key|
    requires Hashed(c, HostText(c, e) + rest, |HostText(c, e)|, f).added != []
    ensures var s, t := c.encode(e.salt), c.encode(e.name);
            && |s| < SALTBUF - 1 && |t| < HOSTBUF - 1 && c.decode(t).Some? && c.decode(s).Some?
            && var x := Hashed(c, HostText(c, e) + rest, |HostText(c, e)|, f).added[0];
            x.name == c.decode(t).value && x.salt == c.decode(s).value
  {
    hide NoneBlank, OneLine, TypeText, KeyText;
    var s, n := c.encode(e.salt), c.encode(e.name);
    var host := HostText(c, e);
    var from := host + rest;
    var b := 3 + |s|;
    assert host == HASH_MAGIC + s + "|" + n;
    assert from[3..b] == s && from[b] == '|' && from[b + 1..b + 1 + |n|] == n;
    assert forall k :: 3 <= k < b ==> from[k] == from[3..b][k - 3];
    FindBarIs(from, 3, b);
  }

  /** And only those that decode to what they were, and fit their buffers, come back. */
  lemma OnlyGoodHashComesBack(c: Coding, e: Entry)
    requires HashStorable(c, e) && ComesBack(c, e)
    ensures GoodHash(c, e) && GoodKey(e)
  {
    hide ParseLine, HostLine, PrintLine, GoodKey, KeyText, TypeText, HostText, Hashed, FieldsOf, IsLine;
    var line, host, p := PrintLine(c, e).text, HostText(c, e), KeyText(e);
    HashedPrinted(c, e);
    assert Normal(e) in ParseLine(c, line).added;
    HashedKeyShape(c, e);
    LineSplits(c, host, p);
    assert Normal(e) in HostLine(c, line, |host|, p, "\n").added;
    if |p| < MIN_KEY {
      ShortKey(c, line, |host|, p);
      assert false;
    }
    var f, rest := FieldsOf(p, "\n"), " " + p + "\n";
    assert line == host + rest && line[..3] == host[..3];
    assert HostLine(c, line, |host|, p, "\n") == Hashed(c, host + rest, |host|, f) by { HashedBranch(c, line, |host|, p); }
    HashedCut(c, e, rest, f);
  }

  lemma HashedBranch(c: Coding, from: string, hostlen: nat, p: string)
    requires 3 <= |from| && hostlen + |p| <= |from| && from[..3] == HASH_MAGIC && MIN_KEY <= |p|
    ensures HostLine(c, from, hostlen, p, "\n") == Hashed(c, from, hostlen, FieldsOf(p, "\n"))
  {
    hide Hashed, FieldsOf;
  }

  /**
   * A hashed entry comes back, marked as base64, if and only if its salt and hash decode to
   * what they were and fit their buffers, and its key part is good.
   */
  lemma HashedComesBackIff(c: Coding, e: Entry)
    requires HashStorable(c, e)
    ensures ComesBack(c, e) <==> GoodHash(c, e) && GoodKey(e)
  {
    hide ComesBack, GoodHash, GoodKey, KeyText, TypeText, OneLine, Unbroken;
    if ComesBack(c, e) {
      OnlyGoodHashComesBack(c, e);
    } else if GoodHash(c, e) && GoodKey(e) {
      HashedComesBack(c, e);
    }
  }

  // ----- Files -----

  const FILE_BUFFER := 4092

  datatype Written = Written(text: string, rc: int)

  const ERROR_FILE := -16

  /**
   * The line loop of `libssh2_knownhost_writefile`, on a disk with so much room: the text
   * written, up to the first entry that fails or the line that finds the disk full.
   */
  function WriteAll(c: Coding, es: seq<Entry>, room: nat): Written
    decreases |es|
  {
    if es == [] then Written("", NONE) else
    match PrintLine(c, es[0])
    case NoLine(error) => Written("", error)
    case Line(t) =>
      if |t| + 1 > FILE_BUFFER then Written("", ERROR_BUFFER_TOO_SMALL)
      else if |t| > room then Written(t[..room], ERROR_FILE)
      else
        var rest := WriteAll(c, es[1..], room - |t|);
        Written(t + rest.text, rest.rc)
  }

  /** How much `fgets` takes from `text` into a buffer of `size`: a line, or all there is room for. */
  function FgetsLength(text: string, size: nat): (n: nat)
    requires size >= 2
    ensures n <= |text| && n <= size - 1 && (text != "" ==> n > 0)
  {
    if text == "" then 0
    else if text[0] == '\n' || size == 2 then 1
    else 1 + FgetsLength(text[1..], size - 1)
  }

  /** The C string that a buffer holds. */
  function UpToNul(s: string): (r: string)
    ensures r <= s && (forall i :: 0 <= i < |r| ==> r[i] != '\0')
  {
    if s == "" || s[0] == '\0' then "" else [s[0]] + UpToNul(s[1..])
  }

  lemma {:induction false} NoNul(s: string)
    requires forall i :: 0 <= i < |s| ==> s[i] != '\0'
    ensures UpToNul(s) == s
  {
    if s == "" {
    } else {
      NoNul(s[1..]);
      assert s == [s[0]] + s[1..];
    }
  }

  /** The line loop of `libssh2_knownhost_readfile`: what is added, and the count of lines or the error. */
  function ReadAll(c: Coding, text: string): Outcome
    decreases |text|
  {
    if text == "" then Outcome([], 0) else
    var n := FgetsLength(text, FILE_BUFFER);
    var o := ParseLine(c, UpToNul(text[..n]));
    if o.rc != NONE then Outcome(o.added, ERROR_KNOWN_HOSTS) else
    var rest := ReadAll(c, text[n..]);
    Outcome(o.added + rest.added, if rest.rc < 0 then rest.rc else rest.rc + 1)
  }

  ghost predicate FullLine(line: string) { IsLine(line) && line != "" && line[|line| - 1] == '\n' }

  /** A line that fits the buffer is read in one go, whatever follows it. */
  lemma {:induction false} FgetsTakesLine(line: string, rest: string, size: nat)
    requires FullLine(line) && |line| <= size - 1
    ensures FgetsLength(line + rest, size) == |line|
  {
    var text := line + rest;
    assert text[0] == line[0];
    if |line| == 1 {
    } else {
      assert text[1..] == line[1..] + rest;
      FgetsTakesLine(line[1..], rest, size - 1);
    }
  }

  /** An entry whose line is a line, and reads back as that entry as far as a line keeps it. */
  ghost predicate Keeps(c: Coding, e: Entry) { ComesBack(c, e) && FullLine(PrintLine(c, e).text) }

  lemma NamedPrinted(c: Coding, e: Entry)
    requires e.mask.host != TYPE_SHA1 && TypeText(e).Some?
    ensures PrintLine(c, e) == Line(e.name + " " + KeyText(e) + "\n")
  {
    hide KeyText;
  }

  lemma GoodNameKeeps(c: Coding, e: Entry)
    requires Storable(e) && GoodName(e.name) && GoodKey(e)
    ensures Keeps(c, e)
  {
    hide KeyText, GoodKey, TypeText, ComesBack, PrintLine;
    ComesBackIffGood(c, e);
    NamedPrinted(c, e);
    PrintedIsLine(e);
  }

  lemma GoodHashKeeps(c: Coding, e: Entry)
    requires GoodHash(c, e) && TypeText(e).Some? && GoodKey(e) && OneLine(KeyText(e))
    ensures Keeps(c, e)
  {
    hide KeyText, GoodKey, TypeText, ComesBack, HostText, GoodHash;
    HashedComesBack(c, e);
    HashHost(c, e);
  }

  /** An entry, named or hashed and in whichever encoding it was added, whose parts are fit to be written. */
  ghost predicate Writable(c: Coding, e: Entry) {
    || (Storable(e) && GoodName(e.name) && GoodKey(e))
    || (GoodHash(c, e) && TypeText(e).Some? && GoodKey(e) && OneLine(KeyText(e)))
  }

  lemma WritableKeeps(c: Coding, e: Entry)
    requires Writable(c, e)
    ensures Keeps(c, e)
  {
    hide GoodName, GoodKey, Keeps, TypeText, KeyText, PrintLine;
    if e.mask.host == TYPE_SHA1 {
      GoodHashKeeps(c, e);
    } else {
      GoodNameKeeps(c, e);
    }
  }

  function Normals(es: seq<Entry>): seq<Entry> { if es == [] then [] else [Normal(es[0])] + Normals(es[1..]) }

  lemma {:induction false} NormalsAt(es: seq<Entry>)
    ensures |Normals(es)| == |es| && forall i :: 0 <= i < |es| ==> Normals(es)[i] == Normal(es[i])
  {
    hide Normal;
    if es == [] {
    } else {
      NormalsAt(es[1..]);
    }
  }

  /**
   * A file written whole from fit entries is read back entry by entry, in order, every
   * line counted: each entry as it was, but marked as base64 and its name as plain. So a
   * collection that had them marked so already comes back as it was.
   */
  lemma FileRoundTrip(c: Coding, es: seq<Entry>, room: nat)
    requires forall i :: 0 <= i < |es| ==> Writable(c, es[i])
    requires WriteAll(c, es, room).rc == NONE
    ensures ReadAll(c, WriteAll(c, es, room).text) == Outcome(Normals(es), |es|)
    ensures (forall i :: 0 <= i < |es| ==> es[i] == Normal(es[i])) ==> Normals(es) == es
  {
    hide Writable, Keeps, ReadAll, WriteAll, Normal;
    forall i | 0 <= i < |es|
      ensures Keeps(c, es[i])
    {
      WritableKeeps(c, es[i]);
    }
    KeptFile(c, es, room);
    NormalsAt(es);
  }

  lemma {:induction false} KeptFile(c: Coding, es: seq<Entry>, room: nat)
    requires forall i :: 0 <= i < |es| ==> Keeps(c, es[i])
    requires WriteAll(c, es, room).rc == NONE
    ensures ReadAll(c, WriteAll(c, es, room).text) == Outcome(Normals(es), |es|)
    decreases |es|
  {
    hide PrintLine, ParseLine, FgetsLength, Normal, UpToNul;
    if es == [] {
    } else {
      var line := PrintLine(c, es[0]).text;
      assert Keeps(c, es[0]);
      LineErrors(c, es[0]);
      var rest := WriteAll(c, es[1..], room - |line|);
      KeptFile(c, es[1..], room - |line|);
      ReadsLine(c, line, rest.text);
    }
  }

  /** Reading a text that starts with a line that fits. */
  lemma ReadsLine(c: Coding, line: string, rest: string)
    requires FullLine(line) && |line| < FILE_BUFFER && ParseLine(c, line).rc == NONE
    ensures var o, r := ParseLine(c, line), ReadAll(c, rest);
            ReadAll(c, line + rest) == Outcome(o.added + r.added, if r.rc < 0 then r.rc else r.rc + 1)
  {
    hide ParseLine, FgetsLength, UpToNul;
    var text := line + rest;
    FgetsTakesLine(line, rest, FILE_BUFFER);
    assert text[..|line|] == line && text[|line|..] == rest;
    NoNul(line);
  }

  /** What a line does not keep makes no difference to queries, but for custom names. */
  lemma NormalLooksSame(c: Coding, q: Query, host: string, e: Entry)
    requires e.mask.host == TYPE_PLAIN || e.mask.host == TYPE_SHA1
    ensures Good(c, q, host, Normal(e)) <==> Good(c, q, host, e)
    ensures Bad(c, q, host, Normal(e)) <==> Bad(c, q, host, e)
  {}

  /**
   * A collection read back from its own file gives every query the same verdict if and
   * only if it has no custom name in it.
   */
  lemma FileKeepsVerdictsIff(c: Coding, es: seq<Entry>, room: nat)
    requires forall i :: 0 <= i < |es| ==> Writable(c, es[i])
    requires WriteAll(c, es, room).rc == NONE
    ensures var back := ReadAll(c, WriteAll(c, es, room).text).added;
            (forall q, hosts :: Verdict(c, q, hosts, back) == Verdict(c, q, hosts, es))
            <==> forall i :: 0 <= i < |es| ==> es[i].mask.host != TYPE_CUSTOM
  {
    hide Verdict, ReadAll, WriteAll, Storable, GoodName, GoodKey, Encodes, KeyText, TypeText, OneLine, Normal, Normals;
    FileRoundTrip(c, es, room);
    NormalsAt(es);
    var back := Normals(es);
    if i :| 0 <= i < |es| && es[i].mask.host == TYPE_CUSTOM {
      CustomLost(c, es, i);
    } else {
      forall q, hosts
        ensures Verdict(c, q, hosts, back) == Verdict(c, q, hosts, es)
      {
        KeptVerdict(c, q, hosts, es);
      }
    }
  }

  lemma WritableHost(c: Coding, e: Entry)
    requires Writable(c, e)
    ensures e.mask.host == TYPE_PLAIN || e.mask.host == TYPE_CUSTOM || e.mask.host == TYPE_SHA1
  {
    hide GoodName, GoodKey, TypeText, KeyText, Encodes, OneLine;
  }

  lemma KeptVerdict(c: Coding, q: Query, hosts: seq<string>, es: seq<Entry>)
    requires forall i :: 0 <= i < |es| ==> Writable(c, es[i]) && es[i].mask.host != TYPE_CUSTOM
    ensures Verdict(c, q, hosts, Normals(es)) == Verdict(c, q, hosts, es)
  {
    hide Verdict, Good, Bad, Normal, Normals, Writable;
    NormalsAt(es);
    forall h, i | 0 <= h < |hosts| && 0 <= i < |es|
      ensures Good(c, q, hosts[h], Normals(es)[i]) <==> Good(c, q, hosts[h], es[i])
      ensures Bad(c, q, hosts[h], Normals(es)[i]) <==> Bad(c, q, hosts[h], es[i])
    {
      WritableHost(c, es[i]);
      NormalLooksSame(c, q, hosts[h], es[i]);
    }
    SameVerdict(c, q, hosts, Normals(es), es);
  }

  /** An entry under a custom name was found under that name, and no longer is. */
  lemma CustomLost(c: Coding, es: seq<Entry>, i: nat)
    requires i < |es| && es[i].mask.host == TYPE_CUSTOM
    ensures var q := Query(TYPE_CUSTOM, 0, es[i].key);
            && Verdict(c, q, [es[i].name], es) == CHECK_MATCH
            && Verdict(c, q, [es[i].name], Normals(es)) == CHECK_NOTFOUND
  {
    hide Normals;
    NormalsAt(es);
    var q, hosts := Query(TYPE_CUSTOM, 0, es[i].key), [es[i].name];
    assert Good(c, q, hosts[0], es[i]);
    forall j | 0 <= j < |es|
      ensures !Relevant(c, q, hosts[0], Normals(es)[j])
    {
      assert Normals(es)[j] == Normal(es[j]);
    }
  }

  /** The text of all lines, one after the other. */
  function TextOf(c: Coding, es: seq<Entry>): string {
    if es == [] then "" else (if PrintLine(c, es[0]).Line? then PrintLine(c, es[0]).text else "") + TextOf(c, es[1..])
  }

  /** A file is written whole if and only if every entry has a line that fits the buffer, and all fit the disk. */
  lemma {:induction false} WritesIffFits(c: Coding, es: seq<Entry>, room: nat)
    ensures WriteAll(c, es, room).rc == NONE <==>
            && (forall i :: 0 <= i < |es| ==> PrintLine(c, es[i]).Line? && |PrintLine(c, es[i]).text| < 4092)
            && |TextOf(c, es)| <= room
    ensures WriteAll(c, es, room).rc == NONE ==> WriteAll(c, es, room).text == TextOf(c, es)
    decreases |es|
  {
    hide PrintLine;
    if es == [] {
    } else {
      LineErrors(c, es[0]);
      assert es == [es[0]] + es[1..];
      if PrintLine(c, es[0]).Line? && |PrintLine(c, es[0]).text| <= room {
        WritesIffFits(c, es[1..], room - |PrintLine(c, es[0]).text|);
      }
    }
  }

  lemma LineErrors(c: Coding, e: Entry)
    ensures PrintLine(c, e).NoLine? ==> PrintLine(c, e).error != NONE
  {}
}
