/**
 * Reading back what was written: exactly which entries survive a line, that files of
 * such entries survive whole, and what the backward scan over a list of names takes.
 */
module KnownHostRoundTrip {
  import opened KnownHostEntries
  import opened KnownHostText

  // ----- Lists of names -----

  /** The text of names taken backwards, put together again. */
  function Rebuilt(names: seq<string>): string {
    if names == [] then "" else if |names| == 1 then names[0] else Rebuilt(names[1..]) + "," + names[0]
  }

  lemma {:induction false} LastStartFacts(host: string, i: nat)
    requires i < |host|
    ensures var r := LastStart(host, i);
            (r > 0 ==> host[r - 1] == ',') && forall k :: r <= k < i ==> host[k] != ','
  {
    if i == 0 || host[i - 1] == ',' {
    } else {
      LastStartFacts(host, i - 1);
    }
  }

  lemma LastStartIs(host: string, i: nat, b: nat)
    requires b <= i < |host| && (b > 0 ==> host[b - 1] == ',')
    requires forall k :: b <= k < i ==> host[k] != ','
    ensures LastStart(host, i) == b
  {
    LastStartFacts(host, i);
  }

  lemma NamesDef(host: string, st: nat)
    requires host != "" && LastStart(host, |host| - 1) == st
    ensures Names(host) == [host[st..]] + if st == 0 then [] else Names(host[..st - 1])
  {
    hide LastStart;
  }

  /** One step of the backward scan: a last name, and what is left before its comma. */
  lemma NamesStep(host: string) returns (more: bool, front: string, last: string)
    requires host != ""
    ensures last != "" && forall i :: 0 <= i < |last| - 1 ==> last[i] != ','
    ensures if more then host == front + "," + last && Names(host) == [last] + Names(front)
            else host == last && Names(host) == [last]
  {
    hide LastStart, Names;
    var st := LastStart(host, |host| - 1);
    LastStartFacts(host, |host| - 1);
    NamesDef(host, st);
    last := host[st..];
    more := st > 0;
    front := if more then host[..st - 1] else "";
  }

  lemma RebuiltCons(names: seq<string>, last: string)
    ensures Rebuilt([last] + names) == if names == [] then last else Rebuilt(names) + "," + last
  {
    assert ([last] + names)[1..] == names;
  }

  /** Nothing is lost: the names taken make up the whole list, but for a comma before the first. */
  lemma {:induction false} NamesConserve(host: string)
    requires host != ""
    ensures host == Rebuilt(Names(host)) || host == "," + Rebuilt(Names(host))
    decreases |host|
  {
    hide Names, Rebuilt;
    var more, front, last := NamesStep(host);
    RebuiltCons([], last);
    assert [last] + [] == [last];
    if more {
      RebuiltCons(Names(front), last);
      if front == "" {
        NoNames();
      } else {
        SomeNames(front);
        NamesConserve(front);
      }
    }
  }

  lemma NoNames()
    ensures Names("") == []
  {}

  lemma SomeNames(host: string)
    requires host != ""
    ensures Names(host) != []
  {}

  ghost predicate ProperName(name: string) { name != "" && forall i :: 0 <= i < |name| ==> name[i] != ',' }

  function Joined(names: seq<string>): string {
    if names == [] then "" else if |names| == 1 then names[0]
    else Joined(names[..|names| - 1]) + "," + names[|names| - 1]
  }

  function Backwards(names: seq<string>): seq<string> {
    if names == [] then [] else [names[|names| - 1]] + Backwards(names[..|names| - 1])
  }

  lemma NamesOfSole(last: string)
    requires ProperName(last)
    ensures Names(last) == [last]
  {
    hide LastStart, Names;
    LastStartIs(last, |last| - 1, 0);
    NamesDef(last, 0);
    assert last[0..] == last;
  }

  lemma NamesOfSplit(front: string, last: string)
    requires ProperName(last)
    ensures Names(front + "," + last) == [last] + Names(front)
  {
    hide LastStart, Names;
    var host, b := front + "," + last, |front| + 1;
    assert forall k :: b <= k < |host| ==> host[k] == last[k - b];
    LastStartIs(host, |host| - 1, b);
    assert host[b..] == last && host[..b - 1] == front;
    NamesDef(host, b);
  }

  /** The scan of a comma-separated list takes exactly its names, last first. */
  lemma {:induction false} NamesOfJoined(names: seq<string>)
    requires forall i :: 0 <= i < |names| ==> ProperName(names[i])
    ensures Names(Joined(names)) == Backwards(names)
  {
    hide Names, ProperName;
    if names == [] {
      NoNames();
    } else {
      var n := |names| - 1;
      assert Backwards(names) == [names[n]] + Backwards(names[..n]);
      if n == 0 {
        NamesOfSole(names[0]);
        assert Backwards(names[..0]) == [];
      } else {
        NamesOfSplit(Joined(names[..n]), names[n]);
        NamesOfJoined(names[..n]);
      }
    }
  }

  lemma JoinedNotEmpty(names: seq<string>)
    requires names != [] && forall i :: 0 <= i < |names| ==> ProperName(names[i])
    ensures Joined(names) != ""
  {}

  lemma {:induction false} ScanAll(names: seq<string>, f: Fields)
    requires f.keylen <= |f.key|
    requires forall i :: 0 <= i < |names| ==> |names[i]| < HOSTBUF - 1
    ensures var o := Scan(names, f);
            && o.rc == NONE && |o.added| == |names|
            && forall i :: 0 <= i < |names| ==> o.added[i] == PlainEntry(names[i], f)
  {
    if names == [] {
    } else {
      ScanAll(names[1..], f);
    }
  }

  /** `oldstyle_hostline` adds one entry for each name of a list, last name first, all with the same key. */
  lemma ListLine(names: seq<string>, f: Fields)
    requires names != [] && f.keylen <= |f.key|
    requires forall i :: 0 <= i < |names| ==> ProperName(names[i]) && |names[i]| < HOSTBUF - 1
    ensures var o := OldStyle(Joined(names), f);
            && o.rc == NONE && |o.added| == |names|
            && forall i :: 0 <= i < |names| ==> o.added[i] == PlainEntry(names[|names| - 1 - i], f)
  {
    hide Names, Joined, Backwards, Scan, PlainEntry, ProperName;
    JoinedNotEmpty(names);
    NamesOfJoined(names);
    var back := Backwards(names);
    BackwardsAt(names);
    assert forall i :: 0 <= i < |back| ==> |back[i]| < HOSTBUF - 1;
    ScanAll(back, f);
  }

  lemma {:induction false} BackwardsAt(names: seq<string>)
    ensures |Backwards(names)| == |names|
    ensures forall i :: 0 <= i < |names| ==> Backwards(names)[i] == names[|names| - 1 - i]
  {
    if names == [] {
    } else {
      BackwardsAt(names[..|names| - 1]);
    }
  }

  // ----- One line -----

  /** A written line comes apart where its host part ends. */
  lemma LineSplits(c: Coding, host: string, p: string)
    requires host != "" && NoneBlank(host) && OneLine(host) && host[0] != '#'
    requires p != "" && !Blank(p[0])
    ensures var line := host + " " + p + "\n";
            ParseLine(c, line) == HostLine(c, line, |host|, p, "\n")
  {
    hide SkipWord, SkipBlanks, HostLine;
    var line := host + " " + p + "\n";
    BlanksEnd(line, 0, 0);
    assert line[0..|host|] == host && line[|host|] == ' ' && line[|host| + 1] == p[0];
    WordEnds(line, 0, |host|);
    BlanksEnd(line, |host|, 1);
    assert line[|host| + 1..|line| - 1] == p;
    assert line[|line| - 1..] == "\n";
    assert line[0..] == line;
  }

  /** A name without a blank, free of inner commas, is the only name its list holds. */
  lemma SoleName(name: string)
    requires name != ""
    ensures Names(name) == [name] <==> forall i :: 0 <= i < |name| - 1 ==> name[i] != ','
  {
    hide LastStart, Names;
    var st := LastStart(name, |name| - 1);
    LastStartFacts(name, |name| - 1);
    NamesDef(name, st);
    if Names(name) == [name] {
      assert Names(name)[0] == name[st..];
      assert |name[st..]| == |name| - st;
    }
  }

  /** The comment part of a key text. */
  function CommentText(comment: Option<string>): string {
    if comment.Some? then " " + comment.value else ""
  }

  ghost predicate GoodComment(comment: Option<string>) {
    comment.Some? && comment.value != "" ==> !Blank(comment.value[0])
  }

  /** A type name, a blank, a key and a comment text lie end to end in `p`. */
  ghost predicate Layout(p: string, t: string, key: string, x: string) {
    && |p| == |t| + 1 + |key| + |x| && p[0..|t|] == t && p[|t|] == ' '
    && p[|t| + 1..|t| + 1 + |key|] == key && p[|t| + 1 + |key|..] == x
  }

  /** Where such a text comes apart. */
  lemma TypedCuts(p: string, t: string, key: string, comment: Option<string>, x: string)
    requires NoneBlank(t) && key != "" && NoneBlank(key) && GoodComment(comment)
    requires x == CommentText(comment) && Layout(p, t, key, x)
    ensures SkipWord(p, 0) == |t| && SkipBlanks(p, |t|) == |t| + 1
    ensures SkipWord(p, |t| + 1) == |t| + 1 + |key|
    ensures comment.Some? ==> SkipBlanks(p, |t| + 1 + |key|) == |t| + 2 + |key|
  {
    hide SkipWord, SkipBlanks, NoneBlank;
    var k := |t| + 1;
    var m := k + |key|;
    WordEnds(p, 0, |t|);
    assert p[k] == key[0];
    NotBlankAt(key, 0);
    BlanksEnd(p, |t|, 1);
    assert x != "" ==> p[m] == x[0];
    WordEnds(p, k, |key|);
    if comment.Some? && comment.value != "" {
      assert p[m + 1] == x[1] == comment.value[0];
    }
    if comment.Some? {
      BlanksEnd(p, m, 1);
    }
  }

  /** The fields of a key text with a type name. */
  lemma TypedFields(t: string, key: string, comment: Option<string>, tail: string)
    requires t != "" && NoneBlank(t) && !Digit(t[0]) && key != "" && NoneBlank(key) && GoodComment(comment)
    ensures var p := t + " " + key + CommentText(comment);
            FieldsOf(p, tail) == Fields(KeyTypeOf(t), Some(t), key + CommentText(comment) + tail, |key|, comment)
  {
    hide KeyTypeOf, SkipWord, SkipBlanks, CommentText, NoneBlank, GoodComment;
    var x := CommentText(comment);
    var p := t + " " + key + x;
    TypedCuts(p, t, key, comment, x);
    CommentStarts(comment);
    assert p[..|t|] == t && p[0] == t[0];
    assert p[|t| + 1..] == key + x;
    if comment.Some? {
      assert p[|t| + 2 + |key|..] == comment.value;
    }
  }

  lemma CommentStarts(comment: Option<string>)
    ensures comment.Some? ==> CommentText(comment) == " " + comment.value
    ensures comment.None? ==> CommentText(comment) == ""
  {}

  lemma NotBlankAt(s: string, i: nat)
    requires NoneBlank(s) && i < |s|
    ensures !Blank(s[i])
  {}

  lemma WordEnds(s: string, i: nat, n: nat)
    requires i + n <= |s| && NoneBlank(s[i..i + n]) && (i + n < |s| ==> Blank(s[i + n]))
    ensures SkipWord(s, i) == i + n
  {
    assert forall k :: i <= k < i + n ==> s[k] == s[i..i + n][k - i];
  }

  lemma BlanksEnd(s: string, i: nat, n: nat)
    requires i + n <= |s| && (forall k :: i <= k < i + n ==> Blank(s[k])) && (i + n < |s| ==> !Blank(s[i + n]))
    ensures SkipBlanks(s, i) == i + n
  {}

  /** An entry under its plain or custom name, of a type that can be written, each text on one line. */
  ghost predicate Storable(e: Entry) {
    && (e.mask.host == TYPE_PLAIN || e.mask.host == TYPE_CUSTOM) && e.salt == ""
    && TypeText(e).Some?
    && OneLine(e.name) && OneLine(e.key) && OneLine(TypeText(e).value)
    && (e.comment.Some? ==> OneLine(e.comment.value))
  }

  /** What a line keeps of an entry: its key is marked as base64, and a custom name as a plain one. */
  function Normal(e: Entry): Entry {
    e.(mask := Mask(if e.mask.host == TYPE_SHA1 then TYPE_SHA1 else TYPE_PLAIN, ENC_BASE64, e.mask.key))
  }

  ghost predicate GoodName(name: string) {
    && 3 <= |name| <= 254 && NoneBlank(name) && name[0] != '#' && name[..3] != HASH_MAGIC
    && forall i :: 0 <= i < |name| - 1 ==> name[i] != ','
  }

  ghost predicate GoodKey(e: Entry)
    requires TypeText(e).Some?
  {
    if e.mask.key == KEY_RSA1 then
      e.typeName == None && e.comment == None && 20 <= |e.key| && Digit(e.key[0])
    else
      && e.key != "" && NoneBlank(e.key) && GoodComment(e.comment) && 20 <= |KeyText(e)|
      && if e.mask.key == KEY_UNKNOWN then
           var t := TypeText(e).value;
           t != "" && NoneBlank(t) && !Digit(t[0]) && KeyTypeOf(t) == KEY_UNKNOWN
         else e.typeName == None
  }

  /** The entry, written and read back, is the same entry. */
  ghost predicate Survives(c: Coding, e: Entry) {
    PrintLine(c, e).Line? && ParseLine(c, PrintLine(c, e).text) == Outcome([e], NONE)
  }

  /** The entry, written and read back, is the same but for what a line cannot keep. */
  ghost predicate ComesBack(c: Coding, e: Entry) {
    PrintLine(c, e).Line? && ParseLine(c, PrintLine(c, e).text) == Outcome([Normal(e)], NONE)
  }

  lemma KnownTypeNames(e: Entry)
    requires TypeText(e).Some? && e.mask.key != KEY_UNKNOWN && e.mask.key != KEY_RSA1
    ensures var t := TypeText(e).value;
            t != "" && NoneBlank(t) && !Digit(t[0]) && KeyTypeOf(t) == e.mask.key
  {
    assert "ssh-dss"[4] == 'd' && "ssh-rsa"[4] == 'r' && "ssh-ed25519"[4] == 'e';
    assert "ecdsa-sha2-nistp256"[0] == 'e' && "ecdsa-sha2-nistp384"[0] == 'e' && "ecdsa-sha2-nistp521"[0] == 'e';
    assert "ecdsa-sha2-nistp256"[16] == '2' && "ecdsa-sha2-nistp384"[16] == '3' && "ecdsa-sha2-nistp521"[16] == '5';
    assert "ssh-dss"[0] == 's' && "ssh-rsa"[0] == 's' && "ssh-ed25519"[0] == 's';
  }

  /** The key part of a good entry is read back as the entry's own fields. */
  lemma GoodKeyFields(e: Entry)
    requires TypeText(e).Some? && GoodKey(e)
    ensures var p := KeyText(e);
            p != "" && !Blank(p[0]) && MIN_KEY <= |p|
    ensures var f := FieldsOf(KeyText(e), "\n");
            && f.keyType == e.mask.key && 0 < f.keylen && f.key[..f.keylen] == e.key && f.comment == e.comment
            && (if f.keyType == KEY_UNKNOWN then f.typeName else None) == e.typeName
  {
    hide KeyTypeOf;
    var p, t := KeyText(e), TypeText(e).value;
    if e.mask.key == KEY_RSA1 {
      assert p == e.key;
      assert (p + "\n")[..|p|] == p;
    } else {
      if e.mask.key != KEY_UNKNOWN {
        KnownTypeNames(e);
      }
      assert p == t + " " + e.key + CommentText(e.comment);
      TypedFields(t, e.key, e.comment, "\n");
      assert (e.key + CommentText(e.comment) + "\n")[..|e.key|] == e.key;
    }
  }

  lemma PlainPrinted(c: Coding, e: Entry)
    requires e.mask.host == TYPE_PLAIN && TypeText(e).Some?
    ensures PrintLine(c, e) == Line(e.name + " " + KeyText(e) + "\n")
  {
    hide KeyText;
  }

  /** A line with one good name adds the one entry. */
  lemma PlainHostLine(c: Coding, name: string, p: string)
    requires GoodName(name) && MIN_KEY <= |p|
    ensures HostLine(c, name + " " + p + "\n", |name|, p, "\n") == Outcome([PlainEntry(name, FieldsOf(p, "\n"))], NONE)
  {
    hide FieldsOf, Names, PlainEntry;
    var line := name + " " + p + "\n";
    assert line[..3] == name[..3];
    assert line[..|name|] == name;
    SoleName(name);
    var f := FieldsOf(p, "\n");
    assert [name][1..] == [];
    assert Scan([name], f).added == [PlainEntry(name, f)];
  }

  /** Good plain entries survive. */
  lemma GoodSurvives(c: Coding, e: Entry)
    requires Storable(e) && e == Normal(e) && GoodName(e.name) && GoodKey(e)
    ensures Survives(c, e)
  {
    hide FieldsOf, KeyText, GoodKey, KeyTypeOf, HostLine, ParseLine, PrintLine, TypeText;
    var p := KeyText(e);
    GoodKeyFields(e);
    PlainPrinted(c, e);
    LineSplits(c, e.name, p);
    PlainHostLine(c, e.name, p);
  }

  // ----- And only they do -----

  /** What every plain entry read from a line is like. */
  ghost predicate PlainShape(f: Fields, e: Entry)
    requires f.keylen <= |f.key|
  {
    && e == PlainEntry(e.name, f)
    && |e.name| <= 254
  }

  lemma {:induction false} ScanShape(names: seq<string>, f: Fields, e: Entry)
    requires f.keylen <= |f.key| && e in Scan(names, f).added
    ensures PlainShape(f, e) && e.name in names
  {
    if names == [] || |names[0]| >= HOSTBUF - 1 || e == PlainEntry(names[0], f) {
    } else {
      ScanShape(names[1..], f, e);
    }
  }

  /** The fields of a key part, as far as a plain entry shows them. */
  lemma FieldsShape(p: string, e: Entry)
    requires p != "" && !Blank(p[0]) && OneLine(p) && OneLine(e.key)
    requires e == PlainEntry(e.name, FieldsOf(p, "\n"))
    ensures if e.mask.key == KEY_RSA1 then
              e.typeName == None && e.comment == None && e.key == p && Digit(p[0])
            else
              && e.key != "" && NoneBlank(e.key) && GoodComment(e.comment)
              && if e.mask.key == KEY_UNKNOWN then
                   && e.typeName.Some?
                   && var t := e.typeName.value;
                   t != "" && NoneBlank(t) && !Digit(t[0]) && KeyTypeOf(t) == KEY_UNKNOWN
                 else e.typeName == None
  {
    hide KeyTypeOf;
    KeyTypeRange(p[..SkipWord(p, 0)]);
    if Digit(p[0]) {
      assert (p + "\n")[..|p|] == p;
    } else {
      var t := SkipWord(p, 0);
      var k := SkipBlanks(p, t);
      var m := SkipWord(p, k);
      var f := FieldsOf(p, "\n");
      assert p[..t][0] == p[0];
      assert f.key == p[k..] + "\n";
      assert f.key[|p| - k] == '\n';
      assert m > k;
      assert e.key == p[k..m];
      assert NoneBlank(p[k..m]);
      if m < |p| {
        var b := SkipBlanks(p, m);
        assert b < |p| ==> p[b..][0] == p[b];
      }
    }
  }

  lemma KeyTypeRange(t: string)
    ensures KeyTypeOf(t) != KEY_RSA1 && KeyTypeOf(t) != 0
  {}

  /** The hashed branch never yields a plain entry. */
  lemma HashedShape(c: Coding, from: string, hostlen: nat, f: Fields, e: Entry)
    requires 3 <= |from| && hostlen <= |from| && f.keylen <= |f.key| && e in Hashed(c, from, hostlen, f).added
    ensures e.mask.host == TYPE_SHA1
  {}

  /** Names from a list hold no blank, and no comma but at their end. */
  lemma {:induction false} NamesShape(host: string, n: string)
    requires NoneBlank(host) && n in Names(host)
    ensures n != "" && NoneBlank(n) && forall i :: 0 <= i < |n| - 1 ==> n[i] != ','
    decreases |host|
  {
    hide Names;
    if host == "" {
      NoNames();
    } else {
      var more, front, last := NamesStep(host);
      if more {
        assert forall i :: 0 <= i < |front| ==> front[i] == host[i];
        assert forall i :: 0 <= i < |last| ==> last[i] == host[|front| + 1 + i];
        if n != last {
          NamesShape(front, n);
        }
      }
    }
  }

  /** Where a line with an entry in it comes apart. */
  lemma LineShape(c: Coding, line: string, e: Entry) returns (from: string, hostlen: nat, p: string)
    requires IsLine(line) && line != "" && line[|line| - 1] == '\n' && e in ParseLine(c, line).added
    ensures 0 < hostlen && hostlen + |p| <= |from| && MIN_KEY <= |p| && NoneBlank(from[..hostlen])
    ensures p != "" && !Blank(p[0]) && OneLine(p) && e in HostLine(c, from, hostlen, p, "\n").added
    ensures from == line[SkipBlanks(line, 0)..] && from[0] != '#'
  {
    hide HostLine;
    var i := SkipBlanks(line, 0);
    var j := SkipWord(line, i);
    var k := SkipBlanks(line, j);
    from, hostlen, p := line[i..], j - i, line[k..|line| - 1];
    assert line[|line| - 1..] == "\n";
    if |p| < MIN_KEY {
      ShortKey(c, from, hostlen, p);
    }
  }

  lemma ShortKey(c: Coding, from: string, hostlen: nat, p: string)
    requires hostlen + |p| <= |from| && |p| < MIN_KEY
    ensures HostLine(c, from, hostlen, p, "\n").added == []
  {}

  /** The shape of any plain entry that a newline-terminated line yields. */
  lemma PlainParsed(c: Coding, line: string, e: Entry)
    requires IsLine(line) && line != "" && line[|line| - 1] == '\n'
    requires e in ParseLine(c, line).added && e.mask.host == TYPE_PLAIN && OneLine(e.key)
    ensures 1 <= |e.name| <= 254 && NoneBlank(e.name) && forall i :: 0 <= i < |e.name| - 1 ==> e.name[i] != ','
    ensures exists p :: p != "" && !Blank(p[0]) && OneLine(p) && MIN_KEY <= |p| && e == PlainEntry(e.name, FieldsOf(p, "\n"))
    ensures line[SkipBlanks(line, 0)] != '#'
  {
    hide FieldsOf, ParseLine;
    var from, hostlen, p := LineShape(c, line, e);
    var f := FieldsOf(p, "\n");
    if hostlen > 2 && from[..3] != HASH_MAGIC {
      var host := from[..hostlen];
      ScanShape(Names(host), f, e);
      NamesShape(host, e.name);
    } else {
      HashedShape(c, from, hostlen, f, e);
      assert false;
    }
  }

  /**
   * An entry comes back, but for its encoding and the kind of its name, if and only if its
   * name and its key part are good, which the caller can see from the entry.
   */
  lemma ComesBackIffGood(c: Coding, e: Entry)
    requires Storable(e)
    ensures ComesBack(c, e) <==> GoodName(e.name) && GoodKey(e)
  {
    hide GoodKey, GoodName, ParseLine, PrintLine, TypeText;
    NormalLine(c, e);
    if ComesBack(c, e) {
      OnlyGoodSurvive(c, Normal(e));
    } else if GoodName(e.name) && GoodKey(e) {
      GoodSurvives(c, Normal(e));
    }
  }

  /** It comes back as itself if and only if, besides, its key is marked as base64 and its name as plain. */
  lemma SurvivesIffGood(c: Coding, e: Entry)
    requires Storable(e)
    ensures Survives(c, e) <==> e == Normal(e) && GoodName(e.name) && GoodKey(e)
  {
    hide GoodKey, GoodName, ParseLine, PrintLine, Storable;
    ComesBackIffGood(c, e);
    if Survives(c, e) {
      ParsedNormal(c, PrintLine(c, e).text, e);
    }
  }

  /** The line of an entry does not show what a line cannot keep. */
  lemma NormalLine(c: Coding, e: Entry)
    ensures PrintLine(c, Normal(e)) == PrintLine(c, e) && TypeText(Normal(e)) == TypeText(e)
    ensures Storable(e) ==> Storable(Normal(e))
    ensures TypeText(e).Some? ==> (GoodKey(Normal(e)) <==> GoodKey(e))
  {
    hide GoodComment, NoneBlank;
    var n := Normal(e);
    assert TypeText(n) == TypeText(e);
    assert TypeText(e).Some? ==> KeyText(n) == KeyText(e);
    assert HostText(c, n) == HostText(c, e);
  }

  /** Whatever is read from a line is normal. */
  lemma ParsedNormal(c: Coding, line: string, e: Entry)
    requires e in ParseLine(c, line).added
    ensures e == Normal(e)
  {
    hide HostLine, SkipWord, SkipBlanks, Normal;
    var i := SkipBlanks(line, 0);
    var j := SkipWord(line, i);
    var k := SkipBlanks(line, j);
    var n := if line[|line| - 1] == '\n' then |line| - 1 else |line|;
    HostLineNormal(c, line[i..], j - i, line[k..n], line[n..], e);
  }

  lemma HostLineNormal(c: Coding, from: string, hostlen: nat, p: string, tail: string, e: Entry)
    requires hostlen + |p| <= |from| && e in HostLine(c, from, hostlen, p, tail).added
    ensures e == Normal(e)
  {
    hide FieldsOf, Names;
    var f := FieldsOf(p, tail);
    if hostlen > 2 && from[..3] != HASH_MAGIC {
      ScanShape(Names(from[..hostlen]), f, e);
    }
  }

  /** What reading a line makes sure of already. */
  lemma SurvivorShape(c: Coding, e: Entry)
    requires Storable(e) && e == Normal(e) && Survives(c, e)
    ensures e.name != "" && |e.name| <= 254 && NoneBlank(e.name) && e.name[0] != '#'
    ensures forall i :: 0 <= i < |e.name| - 1 ==> e.name[i] != ','
    ensures |KeyText(e)| >= MIN_KEY ==> GoodKey(e)
    ensures KeyText(e) != "" && !Blank(KeyText(e)[0])
  {
    hide ParseLine, FieldsOf, KeyTypeOf, HostLine, SkipBlanks, PrintLine, PlainEntry, KeyText, TypeText;
    var line := PrintLine(c, e).text;
    PlainPrinted(c, e);
    assert e in ParseLine(c, line).added;
    PrintedIsLine(e);
    PlainParsed(c, line, e);
    var p :| p != "" && !Blank(p[0]) && OneLine(p) && MIN_KEY <= |p| && e == PlainEntry(e.name, FieldsOf(p, "\n"));
    FieldsShape(p, e);
    BlanksEnd(line, 0, 0);
    assert line[0] == e.name[0];
    UnknownTypeText(e);
    TextStart(e);
  }

  lemma UnknownTypeText(e: Entry)
    ensures e.mask.key == KEY_UNKNOWN ==> TypeText(e) == e.typeName
  {}

  lemma OnlyGoodSurvive(c: Coding, e: Entry)
    requires Storable(e) && e == Normal(e) && Survives(c, e)
    ensures GoodName(e.name) && GoodKey(e)
  {
    hide ParseLine, HostLine, PrintLine, GoodKey, KeyText, TypeText;
    SurvivorShape(c, e);
    PlainPrinted(c, e);
    var kt := KeyText(e);
    var line := e.name + " " + kt + "\n";
    LineSplits(c, e.name, kt);
    assert e in HostLine(c, line, |e.name|, kt, "\n").added;
    if |kt| < MIN_KEY {
      ShortKey(c, line, |e.name|, kt);
      assert false;
    }
    if |e.name| < 3 || e.name[..3] == HASH_MAGIC {
      assert |e.name| >= 3 ==> line[..3] == e.name[..3];
      NotPlain(c, line, |e.name|, kt, e);
      assert false;
    }
  }

  lemma PrintedIsLine(e: Entry)
    requires Storable(e)
    ensures IsLine(e.name + " " + KeyText(e) + "\n")
  {
    hide TypeText;
    assert OneLine(KeyText(e));
  }

  lemma TextStart(e: Entry)
    requires TypeText(e).Some? && (e.mask.key == KEY_RSA1 ==> e.key != "" && Digit(e.key[0]))
    requires e.mask.key == KEY_UNKNOWN ==> e.typeName.Some? && e.typeName.value != "" && NoneBlank(e.typeName.value)
    ensures KeyText(e) != "" && !Blank(KeyText(e)[0])
  {
    hide KeyTypeOf;
    if e.mask.key != KEY_RSA1 {
      assert KeyText(e)[0] == TypeText(e).value[0];
    }
  }

  lemma NotPlain(c: Coding, from: string, hostlen: nat, p: string, e: Entry)
    requires hostlen + |p| <= |from| && (hostlen < 3 || from[..3] == HASH_MAGIC)
    requires e in HostLine(c, from, hostlen, p, "\n").added
    ensures e.mask.host == TYPE_SHA1
  {
    hide FieldsOf;
    HashedShape(c, from, hostlen, FieldsOf(p, "\n"), e);
  }
}
