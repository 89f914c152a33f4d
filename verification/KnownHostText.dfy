/**
 * The text form of known hosts: what libssh2/src/knownhost.c reads from a line, and
 * what it writes for an entry.
 */
module KnownHostText {
  import opened KnownHostEntries

  // ----- Scanning -----

  predicate Blank(c: char) { c == ' ' || c == '\t' }

  predicate Digit(c: char) { '0' <= c <= '9' }

  /** The first position from `i` on that is not a blank. */
  function SkipBlanks(s: string, i: nat): (r: nat)
    requires i <= |s|
    ensures i <= r <= |s| && (r < |s| ==> !Blank(s[r]))
    ensures forall k :: i <= k < r ==> Blank(s[k])
    decreases |s| - i
  {
    if i < |s| && Blank(s[i]) then SkipBlanks(s, i + 1) else i
  }

  /** The first position from `i` on that is a blank. */
  function SkipWord(s: string, i: nat): (r: nat)
    requires i <= |s|
    ensures i <= r <= |s| && (r < |s| ==> Blank(s[r]))
    ensures forall k :: i <= k < r ==> !Blank(s[k])
    decreases |s| - i
  {
    if i < |s| && !Blank(s[i]) then SkipWord(s, i + 1) else i
  }

  /** A line as a file yields it: a newline only at its end, and no NUL. */
  ghost predicate IsLine(s: string) { forall i :: 0 <= i < |s| ==> s[i] != '\0' && (s[i] == '\n' ==> i == |s| - 1) }

  ghost predicate NoneBlank(s: string) { forall i :: 0 <= i < |s| ==> !Blank(s[i]) }

  ghost predicate OneLine(s: string) { forall i :: 0 <= i < |s| ==> s[i] != '\0' && s[i] != '\n' }

  // ----- The key part of a line -----

  /** What `hostline` finds in the key part; `key` is the C string from the key on, `keylen` the key's length. */
  datatype Fields = Fields(keyType: nat, typeName: Option<string>, key: string, keylen: nat, comment: Option<string>)

  /** The test `!strncmp(name, known, strlen(name))`. */
  predicate Abbreviates(name: string, known: string) { name <= known }

  function KeyTypeOf(name: string): nat {
    if Abbreviates(name, "ssh-dss") then KEY_SSHDSS
    else if Abbreviates(name, "ssh-rsa") then KEY_SSHRSA
    else if Abbreviates(name, "ecdsa-sha2-nistp256") then KEY_ECDSA_256
    else if Abbreviates(name, "ecdsa-sha2-nistp384") then KEY_ECDSA_384
    else if Abbreviates(name, "ecdsa-sha2-nistp521") then KEY_ECDSA_521
    else if Abbreviates(name, "ssh-ed25519") then KEY_ED25519
    else KEY_UNKNOWN
  }

  /** The fields of the key part `p`, which `tail` (a newline or nothing) follows in the line. */
  function FieldsOf(p: string, tail: string): (f: Fields)
    requires p != ""
    ensures f.keylen <= |f.key|
  {
    if Digit(p[0]) then Fields(KEY_RSA1, None, p + tail, |p|, None) else
    var t := SkipWord(p, 0);
    var k := SkipBlanks(p, t);
    var m := SkipWord(p, k);
    Fields(KeyTypeOf(p[..t]), Some(p[..t]), p[k..] + tail, m - k,
           if m == |p| then None else Some(p[SkipBlanks(p, m)..]))
  }

  // ----- Host names -----

  /** What a line adds to the collection, and the code returned. */
  datatype Outcome = Outcome(added: seq<Entry>, rc: int)

  const HOSTBUF := 256
  const SALTBUF := 32

  function PlainMask(keyType: nat): Mask { Mask(TYPE_PLAIN, ENC_BASE64, keyType) }

  /** The entry for a plain name with the fields of a line. */
  function PlainEntry(name: string, f: Fields): Entry
    requires f.keylen <= |f.key|
  {
    Entry(name, "", PlainMask(f.keyType), if f.keylen == 0 then f.key else f.key[..f.keylen],
          if f.keyType == KEY_UNKNOWN then f.typeName else None, f.comment)
  }

  /** Where the last name of a list begins, looking from `i` down. */
  function LastStart(host: string, i: nat): (r: nat)
    requires i < |host|
    ensures r <= i
  {
    if i == 0 || host[i - 1] == ',' then i else LastStart(host, i - 1)
  }

  /** The names that scanning `host` backwards takes, in the order it takes them. */
  function Names(host: string): seq<string> {
    if host == "" then [] else
      var st := LastStart(host, |host| - 1);
      [host[st..]] + if st == 0 then [] else Names(host[..st - 1])
  }

  /** The entries for those names, up to the first that does not fit the buffer. */
  function Scan(names: seq<string>, f: Fields): Outcome
    requires f.keylen <= |f.key|
  {
    if names == [] then Outcome([], NONE)
    else if |names[0]| >= HOSTBUF - 1 then Outcome([], ERROR_METHOD_NOT_SUPPORTED)
    else
      var rest := Scan(names[1..], f);
      Outcome([PlainEntry(names[0], f)] + rest.added, rest.rc)
  }

  /** `oldstyle_hostline`. */
  function OldStyle(host: string, f: Fields): Outcome
    requires f.keylen <= |f.key|
  {
    if host == "" then Outcome([], ERROR_METHOD_NOT_SUPPORTED) else Scan(Names(host), f)
  }

  /** The first bar from `i` on, or the end of the text. */
  function FindBar(s: string, i: nat): (r: nat)
    requires i <= |s|
    ensures i <= r <= |s| && (r < |s| ==> s[r] == '|')
    ensures forall k :: i <= k < r ==> s[k] != '|'
    decreases |s| - i
  {
    if i < |s| && s[i] != '|' then FindBar(s, i + 1) else i
  }

  /**
   * `hashed_hostline`, where `from` is the line from the host part on. The search for
   * the bar is not confined to the host part, and a length that would come out
   * negative comes out too large instead.
   */
  function Hashed(c: Coding, from: string, hostlen: nat, f: Fields): Outcome
    requires 3 <= |from| && hostlen <= |from| && f.keylen <= |f.key|
  {
    var bar := FindBar(from, 3);
    if bar == |from| then Outcome([], NONE) else
    var saltlen := bar - 3;
    var hashlen := hostlen - 3 - (saltlen + 1);
    if saltlen >= SALTBUF - 1 || hashlen < 0 || hashlen >= HOSTBUF - 1 then
      Outcome([], ERROR_METHOD_NOT_SUPPORTED)
    else
      match MakeEntry(c, from[bar + 1..bar + 1 + hashlen], from[3..bar], f.typeName, f.key, f.keylen, f.comment,
                      Mask(TYPE_SHA1, ENC_BASE64, f.keyType))
      case Made(e) => Outcome([e], NONE)
      case Refused(error) => Outcome([], error)
  }

  const MIN_KEY := 20

  const HASH_MAGIC := "|1|"

  /** `hostline`. */
  function HostLine(c: Coding, from: string, hostlen: nat, p: string, tail: string): Outcome
    requires hostlen + |p| <= |from|
  {
    if |p| < MIN_KEY then Outcome([], ERROR_METHOD_NOT_SUPPORTED) else
    var f := FieldsOf(p, tail);
    if hostlen > 2 && from[..3] != HASH_MAGIC then OldStyle(from[..hostlen], f) else Hashed(c, from, hostlen, f)
  }

  /** `libssh2_knownhost_readline`. */
  function ParseLine(c: Coding, line: string): Outcome {
    var i := SkipBlanks(line, 0);
    if i == |line| || line[i] == '#' || line[i] == '\n' then Outcome([], NONE) else
    var j := SkipWord(line, i);
    var k := SkipBlanks(line, j);
    if k == |line| then Outcome([], ERROR_METHOD_NOT_SUPPORTED) else
    var n := if line[|line| - 1] == '\n' then |line| - 1 else |line|;
    HostLine(c, line[i..], j - i, line[k..n], line[n..])
  }

  // ----- Writing -----

  /** The type name a line carries; `None` where the entry cannot be written, empty where it carries none. */
  function TypeText(e: Entry): Option<string> {
    if e.mask.key == KEY_RSA1 then Some("")
    else if e.mask.key == KEY_SSHRSA then Some("ssh-rsa")
    else if e.mask.key == KEY_SSHDSS then Some("ssh-dss")
    else if e.mask.key == KEY_ECDSA_256 then Some("ecdsa-sha2-nistp256")
    else if e.mask.key == KEY_ECDSA_384 then Some("ecdsa-sha2-nistp384")
    else if e.mask.key == KEY_ECDSA_521 then Some("ecdsa-sha2-nistp521")
    else if e.mask.key == KEY_ED25519 then Some("ssh-ed25519")
    else if e.mask.key == KEY_UNKNOWN then e.typeName
    else None
  }

  function KeyText(e: Entry): string
    requires TypeText(e).Some?
  {
    var t := TypeText(e).value;
    (if t != "" then t + " " else "") + e.key + if e.comment.Some? then " " + e.comment.value else ""
  }

  function HostText(c: Coding, e: Entry): string {
    if e.mask.host == TYPE_SHA1 then HASH_MAGIC + c.encode(e.salt) + "|" + c.encode(e.name) else e.name
  }

  datatype Printed = Line(text: string) | NoLine(error: int)

  /** The line `knownhost_writeline` makes, given room for it. */
  function PrintLine(c: Coding, e: Entry): Printed {
    if TypeText(e).None? then NoLine(ERROR_METHOD_NOT_SUPPORTED)
    else if e.mask.host == TYPE_SHA1 && (c.encode(e.name) == "" || c.encode(e.salt) == "") then NoLine(ERROR_ALLOC)
    else Line(HostText(c, e) + " " + KeyText(e) + "\n")
  }
}
