/**
 * Known hosts in other words: the names asked about, what one entry makes of a query, the
 * text of lines for given types, and what becomes of lines, files and arguments that are
 * not as they should be.
 */
module KnownHostMeaning {
  import opened KnownHostEntries
  import opened KnownHostText
  import opened KnownHostRoundTrip
  import opened KnownHostFiles

  // ----- Ports -----

  predicate AllDigits(s: string) { forall i :: 0 <= i < |s| ==> '0' <= s[i] <= '9' }

  /** The value of decimal digits. */
  function Number(s: string): int {
    if s == "" then 0 else 10 * Number(s[..|s| - 1]) + (s[|s| - 1] as int - '0' as int)
  }

  /** A number as it is written: digits, the first of several not a zero. */
  predicate Numeral(s: string) { s != "" && AllDigits(s) && (|s| > 1 ==> s[0] != '0') }

  lemma NumberSnoc(s: string, c: char)
    ensures Number(s + [c]) == 10 * Number(s) + (c as int - '0' as int)
  {
    assert (s + [c])[..|s|] == s;
  }

  lemma {:induction false} NumeralValue(s: string)
    requires AllDigits(s)
    ensures Number(s) >= 0
    ensures Numeral(s) && s != "0" ==> Number(s) > 0
  {
    if s == "" {
    } else {
      NumeralValue(s[..|s| - 1]);
      if |s| > 1 && Numeral(s) {
        assert s[..|s| - 1][0] == s[0];
        assert s[..|s| - 1] != "0";
      } else if |s| == 1 {
        assert s[..0] == "";
        assert s != "0" ==> s[0] != '0';
      }
    }
  }

  lemma OneDigit(n: nat)
    requires n < 10
    ensures Decimal(n) == [('0' as int + n) as char] && Number(Decimal(n)) == n && Numeral(Decimal(n))
  {
    assert Decimal(n)[..0] == "";
  }

  /** What is written for a number is the numeral of that value. */
  lemma {:induction false} DecimalValue(n: nat)
    ensures Numeral(Decimal(n)) && Number(Decimal(n)) == n
    ensures n > 0 ==> Decimal(n)[0] != '0'
  {
    if n < 10 {
      OneDigit(n);
    } else {
      var front, c := Decimal(n / 10), ('0' as int + n % 10) as char;
      DecimalValue(n / 10);
      OneDigit(n % 10);
      assert Decimal(n) == front + [c];
      NumberSnoc(front, c);
    }
  }

  /** And there is no other. */
  lemma {:induction false} DecimalUnique(s: string)
    requires Numeral(s)
    ensures Number(s) >= 0 && s == Decimal(Number(s))
  {
    NumeralValue(s);
    var front, c := s[..|s| - 1], s[|s| - 1];
    assert s == front + [c];
    var d := c as int - '0' as int;
    NumberSnoc(front, c);
    if |s| == 1 {
      assert front == "";
      OneDigit(d);
    } else {
      assert front[0] == s[0];
      NumeralValue(front);
      assert front != "0";
      DecimalUnique(front);
      var m := Number(front);
      assert Number(s) == 10 * m + d && (10 * m + d) / 10 == m && (10 * m + d) % 10 == d;
      OneDigit(d);
    }
  }

  /** The name of a host with its port: the host in brackets, a colon, and the port in digits. */
  predicate NamesPort(name: string, host: string, port: int) {
    && |name| >= |host| + 3 && name[0] == '[' && name[1..1 + |host|] == host
    && name[1 + |host|] == ']' && name[2 + |host|] == ':'
    && Numeral(name[|host| + 3..]) && Number(name[|host| + 3..]) == port
  }

  lemma WithPortIff(host: string, port: nat, name: string)
    ensures name == WithPort(host, port) <==> NamesPort(name, host, port)
  {
    hide Number, Numeral, Decimal;
    var w, digits := WithPort(host, port), Decimal(port);
    assert w == "[" + host + "]:" + digits;
    assert w[0] == '[' && w[1..1 + |host|] == host && w[1 + |host|] == ']' && w[2 + |host|] == ':';
    assert w[|host| + 3..] == digits;
    DecimalValue(port);
    if NamesPort(name, host, port) {
      DecimalUnique(name[|host| + 3..]);
      assert name == [name[0]] + name[1..1 + |host|] + [name[1 + |host|]] + [name[2 + |host|]] + name[|host| + 3..];
    }
  }

  /** Two ports never ask for the same name. */
  lemma PortsDiffer(host: string, p: nat, q: nat)
    requires WithPort(host, p) == WithPort(host, q)
    ensures p == q
  {
    hide Number, Numeral, WithPort;
    WithPortIff(host, p, WithPort(host, p));
    WithPortIff(host, q, WithPort(host, p));
  }

  /**
   * A plain entry with the key and type asked for is good for a host and port if and only
   * if its name is the host's, or the host's with that port.
   */
  lemma GoodForPortIff(c: Coding, q: Query, host: string, port: int, e: Entry)
    requires e.mask.host == 1 && q.kind == 1 && q.key == e.key && q.keyType == e.mask.key && e.mask.key != 15
    ensures (exists i :: 0 <= i < |NamesAsked(host, port)| && Good(c, q, NamesAsked(host, port)[i], e))
            <==> e.name == host || (port >= 0 && NamesPort(e.name, host, port))
  {
    hide Number, Numeral, WithPort;
    var names := NamesAsked(host, port);
    assert forall h :: Good(c, q, h, e) <==> e.name == h;
    if port >= 0 {
      WithPortIff(host, port, e.name);
      assert names[0] == WithPort(host, port) && names[1] == host;
    } else {
      assert names[0] == host;
    }
  }

  // ----- Entries and queries -----

  /** Which kinds of names are for which kinds of queries, and which key types. */
  lemma KindsAndTypes(c: Coding, q: Query, host: string, e: Entry)
    ensures e.mask.host == 1 ==> (IsFor(c, q, host, e) <==> q.kind == 1 && e.name == host)
    ensures e.mask.host == 3 ==> (IsFor(c, q, host, e) <==> q.kind == 3 && e.name == host)
    ensures e.mask.host == 2 ==> (IsFor(c, q, host, e) <==> q.kind == 1 && |e.name| == 20 && c.hmac(e.salt, host) == e.name)
    ensures e.mask.host > 3 || e.mask.host == 0 ==> !IsFor(c, q, host, e)
    ensures Good(c, q, host, e) || Bad(c, q, host, e)
            <==> IsFor(c, q, host, e) && q.keyType != 15 && (q.keyType == 0 || q.keyType == e.mask.key)
    ensures Good(c, q, host, e) ==> e.key == q.key
    ensures Bad(c, q, host, e) ==> e.key != q.key
  {}

  /** One plain entry: the verdict on a key offered for its name. */
  lemma OneEntry(c: Coding, q: Query, e: Entry)
    requires e.mask.host == 1 && q.kind == 1 && e.mask.key != 15
    ensures q.keyType == e.mask.key || q.keyType == 0 ==>
              Verdict(c, q, [e.name], [e]) == if q.key == e.key then 0 else 1
    ensures q.keyType != e.mask.key && q.keyType != 0 ==> Verdict(c, q, [e.name], [e]) == 2
    ensures forall other :: other != e.name ==> Verdict(c, q, [other], [e]) == 2
  {
    var hosts, es := [e.name], [e];
    assert Good(c, q, hosts[0], es[0]) || Bad(c, q, hosts[0], es[0]) || Verdict(c, q, hosts, es) == 2;
  }

  /** The name with the port is asked for first: its entry is handed back before an earlier one of the plain name. */
  lemma PortFirst(c: Coding, q: Query, host: string, port: nat, e: Entry, f: Entry, h: nat, i: nat)
    requires Bad(c, q, host, e) && !Bad(c, q, WithPort(host, port), e) && Bad(c, q, WithPort(host, port), f)
    requires FirstBad(c, q, NamesAsked(host, port), [e, f], h, i)
    ensures i == 1
  {
    hide WithPort, Bad;
    var names, es := NamesAsked(host, port), [e, f];
    assert names[0] == WithPort(host, port) && es[1] == f;
    assert Before(0, 1, 1, 0);
  }

  /** And under one name the first of the list is: good or bad. */
  lemma ListFirst(c: Coding, q: Query, host: string, e: Entry, f: Entry, h: nat, i: nat)
    ensures Good(c, q, host, e) && Good(c, q, host, f) && FirstGood(c, q, [host], [e, f], h, i) ==> i == 0
    ensures Bad(c, q, host, e) && Bad(c, q, host, f) && FirstBad(c, q, [host], [e, f], h, i) ==> i == 0
  {
    hide Good, Bad;
    var names, es := [host], [e, f];
    assert names[0] == host && es[0] == e && Before(0, 0, 0, 1);
  }

  /** What is refused, and with which error. */
  lemma Refusals(c: Coding, host: string, salt: string, typeName: Option<string>, key: string, keylen: nat,
                 comment: Option<string>, mask: Mask)
    requires keylen <= |key|
    ensures var m := MakeEntry(c, host, salt, typeName, key, keylen, comment, mask);
            && (mask.key == 0 ==> m == Refused(-34))
            && (mask.key != 0 && (mask.host == 0 || mask.host > 3) ==> m == Refused(-33))
            && (mask.key != 0 && mask.host == 2 && (c.decode(host).None? || c.decode(salt).None?) ==> m == Refused(-34))
            && (m.Refused? && m.error == -6 ==> mask.enc / 2 % 2 == 0)
            && (m.Made? ==>
                  && m.entry.mask == mask && m.entry.comment == comment
                  && m.entry.typeName == (if mask.key == 15 then typeName else None)
                  && (mask.host != 2 ==> m.entry.name == host && m.entry.salt == "")
                  && (mask.enc == 2 && 0 < keylen ==> m.entry.key == key[..keylen])
                  && (mask.enc == 2 && keylen == 0 ==> m.entry.key == key)
                  && (mask.enc == 1 && 0 < keylen ==> m.entry.key == c.encode(key[..keylen])))
  {}

  // ----- Lines -----

  lemma BlanksAndDigits(c: char)
    ensures Blank(c) <==> c == ' ' || c == '\t'
    ensures Digit(c) <==> c in "0123456789"
  {
    assert "0123456789"[0] == '0' && "0123456789"[1] == '1' && "0123456789"[2] == '2' && "0123456789"[3] == '3';
    assert "0123456789"[4] == '4' && "0123456789"[5] == '5' && "0123456789"[6] == '6' && "0123456789"[7] == '7';
    assert "0123456789"[8] == '8' && "0123456789"[9] == '9';
  }

  /** The names of the key types, by number. */
  function TypeNamed(n: nat): string {
    match n
    case 2 => "ssh-rsa"
    case 3 => "ssh-dss"
    case 4 => "ecdsa-sha2-nistp256"
    case 5 => "ecdsa-sha2-nistp384"
    case 6 => "ecdsa-sha2-nistp521"
    case 7 => "ssh-ed25519"
    case _ => ""
  }

  /** The line of an entry of a named type: name, type, key and comment, a blank between each and the next. */
  lemma LineSays(c: Coding, e: Entry)
    requires e.mask.host == 1 && 2 <= e.mask.key <= 7
    ensures PrintLine(c, e) == Line(e.name + " " + TypeNamed(e.mask.key) + " " + e.key
                                    + (if e.comment.Some? then " " + e.comment.value else "") + "\n")
  {
    var t := TypeNamed(e.mask.key);
    assert TypeText(e) == Some(t);
    assert t != "" by { NamedTypes(e.mask.key); }
    var x := if e.comment.Some? then " " + e.comment.value else "";
    assert KeyText(e) == t + " " + e.key + x;
    assert e.name + " " + (t + " " + e.key + x) + "\n" == e.name + " " + t + " " + e.key + x + "\n";
  }

  lemma NamedTypes(n: nat)
    requires 2 <= n <= 7
    ensures TypeNamed(n) != ""
  {}

  /** That of an RSA key of version 1 has no type, that of an unknown type the one it came with, others have no line. */
  lemma OtherLines(c: Coding, e: Entry)
    requires e.mask.host == 1 && e.comment == None
    ensures e.mask.key == 1 ==> PrintLine(c, e) == Line(e.name + " " + e.key + "\n")
    ensures e.mask.key == 15 && e.typeName.Some? && e.typeName.value != "" ==>
              PrintLine(c, e) == Line(e.name + " " + e.typeName.value + " " + e.key + "\n")
    ensures e.mask.key == 15 && e.typeName.None? ==> PrintLine(c, e) == NoLine(-33)
    ensures e.mask.key == 0 || 7 < e.mask.key < 15 || e.mask.key > 15 ==> PrintLine(c, e) == NoLine(-33)
  {
    if e.mask.key == 1 {
      assert KeyText(e) == e.key;
    } else if e.mask.key == 15 && e.typeName.Some? && e.typeName.value != "" {
      var t := e.typeName.value;
      assert KeyText(e) == t + " " + e.key;
      assert e.name + " " + (t + " " + e.key) + "\n" == e.name + " " + t + " " + e.key + "\n";
    }
  }

  /** A hashed entry's host part: the mark, the salt, a bar and the hash, both in base64. */
  lemma HashedLineSays(c: Coding, e: Entry)
    requires e.mask.host == 2 && e.mask.key == 2 && e.comment == None && c.encode(e.name) != "" && c.encode(e.salt) != ""
    ensures PrintLine(c, e) == Line("|1|" + c.encode(e.salt) + "|" + c.encode(e.name) + " ssh-rsa " + e.key + "\n")
  {
    assert KeyText(e) == "ssh-rsa" + " " + e.key;
    assert " " + ("ssh-rsa" + " " + e.key) == " ssh-rsa " + e.key;
    var host := "|1|" + c.encode(e.salt) + "|" + c.encode(e.name);
    assert host + " " + KeyText(e) + "\n" == host + (" " + KeyText(e)) + "\n";
    assert host + " ssh-rsa " + e.key + "\n" == host + (" ssh-rsa " + e.key) + "\n";
  }

  /** If base64 fails there is no line. */
  lemma NoHashedLine(c: Coding, e: Entry)
    requires e.mask.host == 2 && e.mask.key == 2 && (c.encode(e.name) == "" || c.encode(e.salt) == "")
    ensures PrintLine(c, e) == NoLine(-6)
  {}

  /** A hashed host part is refused if the salt has 31 characters or more, or the hash 255. */
  lemma HashRefused(c: Coding, salt: string, hash: string, rest: string, f: Fields)
    requires f.keylen <= |f.key| && (forall i :: 0 <= i < |salt| ==> salt[i] != '|') && (|salt| >= 31 || |hash| >= 255)
    ensures var host := "|1|" + salt + "|" + hash;
            Hashed(c, host + rest, |host|, f) == Outcome([], -33)
  {
    var host := "|1|" + salt + "|" + hash;
    var from, b := host + rest, 3 + |salt|;
    assert from[3..b] == salt && from[b] == '|';
    assert forall k :: 3 <= k < b ==> from[k] == from[3..b][k - 3];
    FindBarIs(from, 3, b);
  }

  /** Blank lines and comments say nothing. */
  lemma SilentLines(c: Coding, line: string, i: nat)
    requires i <= |line| && (forall k :: 0 <= k < i ==> line[k] == ' ' || line[k] == '\t')
    requires i == |line| || line[i] == '#' || line[i] == '\n'
    ensures ParseLine(c, line) == Outcome([], 0)
  {
    hide HostLine;
    BlanksEnd(line, 0, i);
  }

  /** A line with nothing after its first word is an error. */
  lemma LoneWord(c: Coding, word: string)
    requires word != "" && NoneBlank(word) && word[0] != '#' && word[0] != '\n'
    ensures ParseLine(c, word) == Outcome([], -33)
  {
    hide HostLine;
    BlanksEnd(word, 0, 0);
    assert word[0..|word|] == word;
    WordEnds(word, 0, |word|);
    BlanksEnd(word, |word|, 0);
  }

  /** So is one whose key part has fewer than 20 characters. */
  lemma KeyTooShort(c: Coding, host: string, p: string)
    requires host != "" && NoneBlank(host) && OneLine(host) && host[0] != '#' && p != "" && !Blank(p[0]) && |p| < 20
    ensures ParseLine(c, host + " " + p + "\n") == Outcome([], -33)
  {
    hide ParseLine;
    LineSplits(c, host, p);
  }

  /** A name of one or two characters is taken for a hash, and without a bar in the line it vanishes without an error. */
  lemma ShortNameVanishes(c: Coding, host: string, p: string)
    requires 1 <= |host| <= 2 && NoneBlank(host) && OneLine(host) && host[0] != '#'
    requires |p| >= 20 && !Blank(p[0]) && forall i :: 0 <= i < |p| ==> p[i] != '|'
    ensures ParseLine(c, host + " " + p + "\n") == Outcome([], 0)
  {
    hide ParseLine, FieldsOf;
    LineSplits(c, host, p);
    var line := host + " " + p + "\n";
    assert forall k :: 3 <= k < |line| ==> line[k] != '|';
    NoBar(line, 3);
  }

  lemma NoBar(s: string, i: nat)
    requires i <= |s| && forall k :: i <= k < |s| ==> s[k] != '|'
    ensures FindBar(s, i) == |s|
  {}

  /** The newline at the end of a line makes no difference to where it comes apart. */
  lemma BareLineSplits(c: Coding, host: string, p: string)
    requires host != "" && NoneBlank(host) && OneLine(host) && host[0] != '#'
    requires p != "" && !Blank(p[0]) && p[|p| - 1] != '\n'
    ensures var line := host + " " + p;
            ParseLine(c, line) == HostLine(c, line, |host|, p, "")
  {
    hide SkipWord, SkipBlanks, HostLine;
    var line := host + " " + p;
    BlanksEnd(line, 0, 0);
    assert line[0..|host|] == host && line[|host|] == ' ' && line[|host| + 1] == p[0];
    WordEnds(line, 0, |host|);
    BlanksEnd(line, |host|, 1);
    assert line[|host| + 1..|line|] == p && line[|line| - 1] == p[|p| - 1];
    assert line[|line|..] == "" && line[0..] == line;
  }

  /** A name of 255 characters or more ends a list with an error, after the names taken before it. */
  lemma {:induction false} LongNameStops(names: seq<string>, f: Fields, k: nat)
    requires f.keylen <= |f.key| && k < |names| && |names[k]| >= 255
    requires forall i :: 0 <= i < k ==> |names[i]| < 255
    ensures var o := Scan(names, f);
            o.rc == -33 && |o.added| == k && forall i :: 0 <= i < k ==> o.added[i] == PlainEntry(names[i], f)
  {
    hide PlainEntry;
    if k == 0 {
    } else {
      LongNameStops(names[1..], f, k - 1);
    }
  }

  // ----- Files -----

  /** A NUL ends a C string. */
  lemma {:induction false} NulCuts(a: string, b: string)
    requires forall i :: 0 <= i < |a| ==> a[i] != '\0'
    ensures UpToNul(a + "\0" + b) == a
  {
    var s := a + "\0" + b;
    if a == "" {
      assert s[0] == '\0';
    } else {
      assert s[0] == a[0] && s[1..] == a[1..] + "\0" + b;
      NulCuts(a[1..], b);
    }
  }

  /** Without a newline in reach, reading takes all there is room for. */
  lemma {:induction false} FgetsFills(text: string, size: nat)
    requires size >= 2 && |text| >= size - 1 && forall i :: 0 <= i < size - 2 ==> text[i] != '\n'
    ensures FgetsLength(text, size) == size - 1
  {
    if size == 2 {
    } else {
      FgetsFills(text[1..], size - 1);
    }
  }

  /** A line that cannot be read ends the reading of a file with an error, after what came before. */
  lemma BadLineStops(c: Coding, line: string, rest: string)
    requires FullLine(line) && |line| < 4092 && ParseLine(c, line).rc != 0
    ensures ReadAll(c, line + rest) == Outcome(ParseLine(c, line).added, -46)
  {
    hide ParseLine, FgetsLength, UpToNul;
    var text := line + rest;
    FgetsTakesLine(line, rest, 4092);
    assert text[..|line|] == line && text[|line|..] == rest;
    NoNul(line);
  }

  /** What a full disk cuts off is the end: what is there is the front of the whole text. */
  lemma {:induction false} WrittenIsFront(c: Coding, es: seq<Entry>, room: nat)
    ensures WriteAll(c, es, room).text <= TextOf(c, es)
    ensures WriteAll(c, es, room).rc == -16 ==> |WriteAll(c, es, room).text| == room
    decreases |es|
  {
    hide PrintLine;
    if es == [] {
    } else if PrintLine(c, es[0]).Line? {
      var t := PrintLine(c, es[0]).text;
      if |t| <= room {
        WrittenIsFront(c, es[1..], room - |t|);
      } else {
        assert t[..room] <= t <= TextOf(c, es);
      }
    } else {
      NotFull(c, es[0]);
    }
  }

  lemma NotFull(c: Coding, e: Entry)
    ensures PrintLine(c, e).NoLine? ==> PrintLine(c, e).error != -16
  {}
}
