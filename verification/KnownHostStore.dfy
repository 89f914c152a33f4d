/** The collection of known hosts of libssh2/src/knownhost.c, which its calls update in place. */
module KnownHostStore {
  import opened KnownHostEntries
  import opened KnownHostText
  import opened KnownHostRoundTrip
  import opened KnownHostFiles

  class KnownHosts {
    const coding: Coding
    var entries: seq<Entry>

    constructor (coding: Coding)
      ensures this.coding == coding && entries == []
    {
      this.coding := coding;
      entries := [];
    }

    /** `knownhost_add`. */
    method Add(host: string, salt: string, typeName: Option<string>, key: string, keylen: nat,
               comment: Option<string>, mask: Mask) returns (rc: int)
      requires keylen <= |key|
      modifies this
      ensures match MakeEntry(coding, host, salt, typeName, key, keylen, comment, mask)
              case Made(e) => rc == NONE && entries == old(entries) + [e]
              case Refused(error) => rc == error && entries == old(entries)
    {
      if mask.key == 0 {
        return ERROR_INVAL;
      }
      var name, plainSalt := "", "";
      if mask.host == TYPE_PLAIN || mask.host == TYPE_CUSTOM {
        name := host;
      } else if mask.host == TYPE_SHA1 {
        var decoded := coding.decode(host);
        if decoded.None? {
          return ERROR_INVAL;
        }
        name := decoded.value;
        decoded := coding.decode(salt);
        if decoded.None? {
          return ERROR_INVAL;
        }
        plainSalt := decoded.value;
      } else {
        return ERROR_METHOD_NOT_SUPPORTED;
      }
      var stored;
      if IsBase64(mask) {
        var len := keylen;
        if len == 0 {
          len := |key|;
        }
        stored := key[..len];
        assert key[..|key|] == key;
      } else {
        stored := coding.encode(Given(key, keylen));
        if stored == "" {
          return ERROR_ALLOC;
        }
      }
      var entry := Entry(name, plainSalt, mask, stored, None, None);
      if typeName.Some? && mask.key == KEY_UNKNOWN {
        entry := entry.(typeName := typeName);
      }
      if comment.Some? {
        entry := entry.(comment := comment);
      }
      entries := entries + [entry];
      rc := NONE;
    }

    /** One entry of the list in `knownhost_check`: is it for this host? */
    method MatchHost(q: Query, host: string, e: Entry) returns (matched: bool)
      ensures matched <==> IsFor(coding, q, host, e)
    {
      matched := false;
      if e.mask.host == TYPE_PLAIN {
        if q.kind == TYPE_PLAIN {
          matched := host == e.name;
        }
      } else if e.mask.host == TYPE_CUSTOM {
        if q.kind == TYPE_CUSTOM {
          matched := host == e.name;
        }
      } else if e.mask.host == TYPE_SHA1 {
        if q.kind == TYPE_PLAIN {
          if SHA_DIGEST_LENGTH == |e.name| {
            matched := coding.hmac(e.salt, host) == e.name;
          }
        }
      }
    }

    /** `knownhost_check`; `ext` is the index of the entry handed back. */
    method Check(hostp: string, port: int, key: string, keylen: nat, mask: Mask) returns (rc: int, ext: Option<nat>)
      requires keylen <= |key|
      ensures mask.host == 2 ==> rc == 1 && ext == None
      ensures var tooLong := port >= 0 && |WithPort(hostp, port)| >= 270;
              var asked := AskedKey(coding, key, keylen, mask);
              var noKey := !IsBase64(mask) && asked == "";
              mask.host != 2 ==>
                if tooLong || noKey then rc == 3 && ext == None
                else
                  var q := Query(mask.host, mask.key, asked);
                  var hosts := NamesAsked(hostp, port);
                  && rc == Verdict(coding, q, hosts, entries)
                  && (rc == 0 ==> ext.Some? && exists h :: FirstGood(coding, q, hosts, entries, h, ext.value))
                  && (rc == 1 ==> ext.Some? && exists h :: FirstBad(coding, q, hosts, entries, h, ext.value))
                  && (rc == 2 ==> ext == None)
    {
      if mask.host == TYPE_SHA1 {
        return CHECK_MISMATCH, None;
      }
      var host, numcheck;
      if port >= 0 {
        if |WithPort(hostp, port)| >= HOSTBUFF {
          return CHECK_FAILURE, None;
        }
        host := WithPort(hostp, port);
        numcheck := 2;
      } else {
        host := hostp;
        numcheck := 1;
      }
      var asked := key;
      if !IsBase64(mask) {
        asked := coding.encode(Given(key, keylen));
        if asked == "" {
          return CHECK_FAILURE, None;
        }
      }
      rc, ext := Search(hostp, host, numcheck, Query(mask.host, mask.key, asked), NamesAsked(hostp, port));
    }

    /** The search of `knownhost_check`: up to two passes over the list, left at the first good entry. */
    method Search(hostp: string, first: string, passes: nat, q: Query, ghost hosts: seq<string>)
      returns (rc: int, ext: Option<nat>)
      requires passes == |hosts| && 1 <= passes <= 2
      requires hosts[0] == first && hosts[passes - 1] == hostp
      ensures rc == Verdict(coding, q, hosts, entries)
      ensures rc == CHECK_MATCH ==> ext.Some? && exists h :: FirstGood(coding, q, hosts, entries, h, ext.value)
      ensures rc == CHECK_MISMATCH ==> ext.Some? && exists h :: FirstBad(coding, q, hosts, entries, h, ext.value)
      ensures rc == CHECK_NOTFOUND ==> ext == None
    {
      hide IsFor;
      var badkey: Option<nat> := None;
      ghost var badpass: nat := 0;
      rc, ext := CHECK_NOTFOUND, None;
      var host, numcheck := first, passes;
      var matched := false;
      while true
        invariant 1 <= numcheck <= passes && host == hosts[passes - numcheck] && !matched
        invariant rc == CHECK_NOTFOUND && ext == None
        invariant forall h, i :: 0 <= h < passes - numcheck && 0 <= i < |entries| ==> !Good(coding, q, hosts[h], entries[i])
        invariant badkey.Some? ==> FirstBad(coding, q, hosts, entries, badpass, badkey.value)
        invariant badkey.None? ==>
                    forall h, i :: 0 <= h < passes - numcheck && 0 <= i < |entries| ==> !Bad(coding, q, hosts[h], entries[i])
        decreases numcheck
      {
        ghost var pass: nat := passes - numcheck;
        var node := 0;
        while node < |entries|
          invariant 0 <= node <= |entries| && !matched
          invariant rc == CHECK_NOTFOUND && ext == None
          invariant forall i :: 0 <= i < node ==> !Good(coding, q, host, entries[i])
          invariant badkey.Some? ==> FirstBad(coding, q, hosts, entries, badpass, badkey.value)
          invariant badkey.None? ==>
                      && (forall h, i :: 0 <= h < pass && 0 <= i < |entries| ==> !Bad(coding, q, hosts[h], entries[i]))
                      && (forall i :: 0 <= i < node ==> !Bad(coding, q, host, entries[i]))
        {
          var e := entries[node];
          matched := MatchHost(q, host, e);
          if matched {
            if q.keyType != KEY_UNKNOWN && (q.keyType == 0 || q.keyType == e.mask.key) {
              if q.key == e.key {
                ext := Some(node);
                badkey := None;
                rc := CHECK_MATCH;
                assert FirstGood(coding, q, hosts, entries, pass, node);
                break;
              } else {
                if badkey == None {
                  badkey := Some(node);
                  badpass := pass;
                }
              }
            }
            matched := false;
          }
          node := node + 1;
        }
        host := hostp;
        if matched {
          break;
        }
        numcheck := numcheck - 1;
        if numcheck == 0 {
          break;
        }
      }
      if badkey.Some? {
        ext := badkey;
        rc := CHECK_MISMATCH;
      }
    }

    // ----- Reading lines -----

    method AddPlain(name: string, f: Fields) returns (rc: int)
      requires f.keylen <= |f.key| && f.keyType != 0
      modifies this
      ensures rc == NONE && entries == old(entries) + [PlainEntry(name, f)]
    {
      PlainEntryMade(coding, name, f);
      rc := Add(name, "", f.typeName, f.key, f.keylen, f.comment, PlainMask(f.keyType));
    }

    /** `oldstyle_hostline`: the list of names, scanned from its end. */
    method OldstyleHostline(host: string, f: Fields) returns (rc: int)
      requires f.keylen <= |f.key| && f.keyType != 0
      modifies this
      ensures Outcome(entries, rc) == Onto(old(entries), OldStyle(host, f))
    {
      hide Names, Scan;
      if |host| < 1 {
        return ERROR_METHOD_NOT_SUPPORTED;
      }
      rc := ScanNames(host, f);
    }

    method ScanNames(host: string, f: Fields) returns (rc: int)
      requires f.keylen <= |f.key| && f.keyType != 0
      modifies this
      ensures Outcome(entries, rc) == Onto(old(entries), Scan(Names(host), f))
    {
      hide Names, NamesTo, Scan, PlainEntry, LastStart, Onto;
      NamesToAll(host);
      ghost var all := Onto(entries, Scan(Names(host), f));
      ghost var end := |host|;
      var name, namelen := |host|, 0;
      rc := NONE;
      while name > 0
        invariant 0 <= name && 0 <= namelen && end == name + namelen <= |host| && (name == 0 ==> end == 0)
        // No name begins inside the part already collected.
        invariant name > 0 ==> LastStart(host, end - 1) == LastStart(host, name - 1)
        invariant rc == NONE && all == Onto(entries, Scan(NamesTo(host, end), f))
      {
        LastStartStep(host, name - 1);
        name := name - 1;
        namelen := namelen + 1;
        if name == 0 || host[name - 1] == ',' {
          NextName(host, end, name, f);
          var hostbuf := host[name..name + namelen];
          if namelen >= HOSTBUF - 1 {
            OntoNothing(entries, ERROR_METHOD_NOT_SUPPORTED);
            return ERROR_METHOD_NOT_SUPPORTED;
          }
          ghost var was := entries;
          rc := AddPlain(hostbuf, f);
          end := if name == 0 then 0 else name - 1;
          OntoNext(was, PlainEntry(hostbuf, f), Scan(NamesTo(host, end), f));
          namelen := 0;
          if name > 0 {
            name := name - 1;
          }
        }
      }
      NothingLeft(host, f);
      OntoNothing(entries, NONE);
    }

    /** `hashed_hostline`. */
    method HashedHostline(from: string, hostlen: nat, f: Fields) returns (rc: int)
      requires 3 <= |from| && hostlen <= |from| && f.keylen <= |f.key|
      modifies this
      ensures Outcome(entries, rc) == Onto(old(entries), Hashed(coding, from, hostlen, f))
    {
      var p := 3;
      while p < |from| && from[p] != '|'
        invariant 3 <= p <= |from| && FindBar(from, p) == FindBar(from, 3)
      {
        p := p + 1;
      }
      if p == |from| {
        return NONE;
      }
      var saltlen := p - 3;
      if saltlen >= SALTBUF - 1 {
        return ERROR_METHOD_NOT_SUPPORTED;
      }
      var hashlen := hostlen - 3 - (saltlen + 1);
      // As an unsigned length, a negative one is huge.
      if hashlen < 0 || hashlen >= HOSTBUF - 1 {
        return ERROR_METHOD_NOT_SUPPORTED;
      }
      rc := Add(from[p + 1..p + 1 + hashlen], from[3..p], f.typeName, f.key, f.keylen, f.comment,
                Mask(TYPE_SHA1, ENC_BASE64, f.keyType));
    }

    /** `hostline`: the key type, the key and the comment, then the host part. */
    method Hostline(from: string, hostlen: nat, p: string, tail: string) returns (rc: int)
      requires 0 < hostlen && hostlen + |p| <= |from|
      modifies this
      ensures Outcome(entries, rc) == Onto(old(entries), HostLine(coding, from, hostlen, p, tail))
    {
      hide OldStyle, Hashed, KeyTypeOf, SkipWord, SkipBlanks;
      if |p| < MIN_KEY {
        return ERROR_METHOD_NOT_SUPPORTED;
      }
      var f;
      if Digit(p[0]) {
        f := Fields(KEY_RSA1, None, p + tail, |p|, None);
      } else {
        var key := EndOfWord(p, 0);
        var typeName := p[..key];
        KeyTypeRange(typeName);
        key := EndOfBlanks(p, key);
        var comment := EndOfWord(p, key);
        var keylen := comment - key;
        if comment == |p| {
          f := Fields(KeyTypeOf(typeName), Some(typeName), p[key..] + tail, keylen, None);
        } else {
          comment := EndOfBlanks(p, comment);
          f := Fields(KeyTypeOf(typeName), Some(typeName), p[key..] + tail, keylen, Some(p[comment..]));
        }
      }
      if hostlen > 2 && from[..3] != HASH_MAGIC {
        rc := OldstyleHostline(from[..hostlen], f);
      } else {
        rc := HashedHostline(from, hostlen, f);
      }
    }

    /** The loops that move over blanks. */
    static method EndOfBlanks(s: string, i: nat) returns (r: nat)
      requires i <= |s|
      ensures r == SkipBlanks(s, i)
    {
      r := i;
      while r < |s| && Blank(s[r])
        invariant i <= r <= |s| && SkipBlanks(s, r) == SkipBlanks(s, i)
      {
        r := r + 1;
      }
    }

    /** The loops that move over a word. */
    static method EndOfWord(s: string, i: nat) returns (r: nat)
      requires i <= |s|
      ensures r == SkipWord(s, i)
    {
      r := i;
      while r < |s| && !Blank(s[r])
        invariant i <= r <= |s| && SkipWord(s, r) == SkipWord(s, i)
      {
        r := r + 1;
      }
    }

    /** `libssh2_knownhost_readline`. */
    method Readline(line: string) returns (rc: int)
      requires IsLine(line)
      modifies this
      ensures Outcome(entries, rc) == Onto(old(entries), ParseLine(coding, line))
    {
      hide HostLine, SkipWord, SkipBlanks;
      var hostp := EndOfBlanks(line, 0);
      if hostp == |line| || line[hostp] == '#' || line[hostp] == '\n' {
        return NONE;
      }
      var cp := EndOfWord(line, hostp);
      var hostlen := cp - hostp;
      var keyp := EndOfBlanks(line, cp);
      if keyp == |line| {
        return ERROR_METHOD_NOT_SUPPORTED;
      }
      cp := keyp;
      while cp < |line| && line[cp] != '\n'
        invariant keyp <= cp <= |line|
        invariant forall k :: keyp <= k < cp ==> line[k] != '\n'
      {
        cp := cp + 1;
      }
      rc := Hostline(line[hostp..], hostlen, line[keyp..cp], line[cp..]);
    }

    // ----- Files, as the text they hold -----

    /** `libssh2_knownhost_readfile`. */
    method Readfile(text: string) returns (num: int)
      modifies this
      ensures Outcome(entries, num) == Onto(old(entries), ReadAll(coding, text))
    {
      hide ParseLine, FgetsLength, IsLine, UpToNul;
      ghost var before := entries;
      var at := 0;
      num := 0;
      while at < |text|
        invariant 0 <= at <= |text| && 0 <= num
        invariant var all, rest := ReadAll(coding, text), ReadAll(coding, text[at..]);
                  && before + all.added == entries + rest.added
                  && all.rc == if rest.rc < 0 then rest.rc else num + rest.rc
      {
        var n := FgetsLength(text[at..], FILE_BUFFER);
        ChunkIsLine(text[at..], FILE_BUFFER);
        var rc := Readline(UpToNul(text[at..][..n]));
        assert text[at..][n..] == text[at + n..];
        if rc != NONE {
          num := ERROR_KNOWN_HOSTS;
          return;
        }
        num := num + 1;
        at := at + n;
      }
    }

    /** `knownhost_writeline`, into a buffer of `buflen`. */
    method Writeline(e: Entry, buflen: nat) returns (rc: int, buf: string, outlen: nat)
      ensures match PrintLine(coding, e)
              case NoLine(error) => rc == error && buf == ""
              case Line(t) =>
                && outlen == |t|
                && if |t| + 1 <= buflen then rc == 0 && buf == t else rc == -38 && buf == ""
    {
      rc, buf, outlen := NONE, "", 0;
      var t := TypeText(e);
      if t.None? {
        return ERROR_METHOD_NOT_SUPPORTED, "", 0;
      }
      var size := |e.key|;
      if t.value != "" {
        size := size + |t.value| + 1;
      }
      if e.comment.Some? {
        size := size + |e.comment.value| + 1;
      }
      var host := e.name;
      if e.mask.host == TYPE_SHA1 {
        var name, salt := coding.encode(e.name), coding.encode(e.salt);
        if name == "" || salt == "" {
          return ERROR_ALLOC, "", 0;
        }
        size := size + |salt| + |name| + 7;
        host := "|1|" + salt + "|" + name;
      } else {
        size := size + |e.name| + 3;
      }
      if size <= buflen {
        buf := host + " " + KeyText(e) + "\n";
      } else {
        rc := ERROR_BUFFER_TOO_SMALL;
      }
      outlen := size - 1;
    }

    /** `libssh2_knownhost_writefile`, on a disk with so much room. */
    method Writefile(room: nat) returns (rc: int, file: string)
      ensures Written(file, rc) == WriteAll(coding, entries, room)
    {
      hide PrintLine;
      rc, file := NONE, "";
      var left := room;
      for i := 0 to |entries|
        invariant rc == NONE && left >= 0
        invariant var all, rest := WriteAll(coding, entries, room), WriteAll(coding, entries[i..], left);
                  all.text == file + rest.text && all.rc == rest.rc
      {
        assert entries[i..][1..] == entries[i + 1..];
        var buffer, wrote;
        rc, buffer, wrote := Writeline(entries[i], FILE_BUFFER);
        LineErrors(coding, entries[i]);
        if rc != NONE {
          return;
        }
        var nwrote := if wrote <= left then wrote else left;
        file := file + buffer[..nwrote];
        left := left - nwrote;
        if nwrote != wrote {
          rc := ERROR_FILE;
          return;
        }
      }
    }
  }

  /** An outcome on top of the entries there were before. */
  ghost function Onto(before: seq<Entry>, o: Outcome): Outcome { Outcome(before + o.added, o.rc) }

  lemma OntoNothing(before: seq<Entry>, rc: int)
    ensures Onto(before, Outcome([], rc)) == Outcome(before, rc)
  {}

  lemma OntoNext(before: seq<Entry>, e: Entry, next: Outcome)
    ensures Onto(before, Outcome([e] + next.added, next.rc)) == Onto(before + [e], next)
  {}

  /** The names in the first `end` characters. */
  ghost function NamesTo(host: string, end: nat): seq<string>
    requires end <= |host|
  {
    if end == 0 then [] else
      var st := LastStart(host, end - 1);
      [host[st..end]] + if st == 0 then [] else NamesTo(host, st - 1)
  }

  lemma {:induction false} LastStartPart(host: string, end: nat, i: nat)
    requires i < end <= |host|
    ensures LastStart(host[..end], i) == LastStart(host, i)
  {
    if i == 0 {
    } else {
      LastStartPart(host, end, i - 1);
    }
  }

  lemma {:induction false} NamesToIs(host: string, end: nat)
    requires end <= |host|
    ensures NamesTo(host, end) == Names(host[..end])
  {
    hide LastStart, Names;
    if end == 0 {
      NoNames();
      assert host[..0] == "";
    } else {
      var part := host[..end];
      var st := LastStart(host, end - 1);
      LastStartPart(host, end, end - 1);
      NamesDef(part, st);
      assert part[st..] == host[st..end];
      if st > 0 {
        assert part[..st - 1] == host[..st - 1];
        NamesToIs(host, st - 1);
      }
    }
  }

  lemma NamesToAll(host: string)
    ensures NamesTo(host, |host|) == Names(host)
  {
    NamesToIs(host, |host|);
    assert host[..|host|] == host;
  }

  lemma LastStartStep(host: string, i: nat)
    requires i < |host|
    ensures LastStart(host, i) == if i == 0 || host[i - 1] == ',' then i else LastStart(host, i - 1)
  {}

  /** One round of the backward scan, where the last name before `end` starts at `st`. */
  lemma NextName(host: string, end: nat, st: nat, f: Fields)
    requires f.keylen <= |f.key| && st < end <= |host| && LastStart(host, end - 1) == st
    ensures var name, o := host[st..end], Scan(NamesTo(host, end), f);
            if |name| >= HOSTBUF - 1 then o == Outcome([], ERROR_METHOD_NOT_SUPPORTED)
            else var next := Scan(NamesTo(host, if st == 0 then 0 else st - 1), f);
              o == Outcome([PlainEntry(name, f)] + next.added, next.rc)
  {
    hide PlainEntry, LastStart;
    var names := NamesTo(host, end);
    assert names[0] == host[st..end];
    assert names[1..] == NamesTo(host, if st == 0 then 0 else st - 1);
  }

  lemma NothingLeft(host: string, f: Fields)
    requires f.keylen <= |f.key|
    ensures Scan(NamesTo(host, 0), f) == Outcome([], NONE)
  {}

  lemma PlainEntryMade(c: Coding, name: string, f: Fields)
    requires f.keylen <= |f.key| && f.keyType != 0
    ensures MakeEntry(c, name, "", f.typeName, f.key, f.keylen, f.comment, PlainMask(f.keyType)) == Made(PlainEntry(name, f))
  {}

  /** What `fgets` delivers, as the C string it is, is a line. */
  lemma ChunkIsLine(text: string, size: nat)
    requires size >= 2
    ensures IsLine(UpToNul(text[..FgetsLength(text, size)]))
  {
    hide FgetsLength, UpToNul;
    ChunkHasNewlineLast(text, size);
    var s := text[..FgetsLength(text, size)];
    var r := UpToNul(s);
    assert forall i :: 0 <= i < |r| ==> r[i] == s[i];
  }

  lemma {:induction false} ChunkHasNewlineLast(text: string, size: nat)
    requires size >= 2
    ensures forall i :: 0 <= i < FgetsLength(text, size) - 1 ==> text[i] != '\n'
  {
    if text == "" || text[0] == '\n' || size == 2 {
    } else {
      ChunkHasNewlineLast(text[1..], size - 1);
    }
  }
}
