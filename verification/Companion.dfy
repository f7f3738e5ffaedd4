/** Companion files: the frontmatter writer, its reader, and the digest comparison of `src/companion.c`. */
module Companion {
  import opened Wrappers
  import opened CompanionSpec
  import Sha256Spec
  import Sha256Stream

  // ----- writing -----

  /** `strrchr` on the path: what follows the last slash */
  method BaseName(path: string) returns (name: string, ghost dir: string)
    ensures path == dir + name && '/' !in name && (dir == "" || dir[|dir| - 1] == '/')
  {
    var i := |path|;
    while i > 0 && path[i - 1] != '/'
      invariant 0 <= i <= |path| && '/' !in path[i..]
    {
      i := i - 1;
      assert path[i..] == [path[i]] + path[i + 1..];
    }
    name, dir := path[i..], path[..i];
  }

  method HexText(hash: seq<bv8>) returns (hex: string)
    ensures hex == Hex(hash)
  {
    hide HexByte;
    hex := "";
    var i := 0;
    assert hash[0..] == hash;
    while i < |hash|
      invariant 0 <= i <= |hash| && hex + Hex(hash[i..]) == Hex(hash)
    {
      assert hash[i..][0] == hash[i] && hash[i..][1..] == hash[i + 1..];
      assert hex + (HexByte(hash[i]) + Hex(hash[i + 1..])) == hex + HexByte(hash[i]) + Hex(hash[i + 1..]);
      hex := hex + HexByte(hash[i]);
      i := i + 1;
    }
    assert hash[i..] == [] && hex + "" == hex;
  }

  method Digest(source: seq<bv8>) returns (hash: seq<bv8>)
    ensures hash == Sha256Spec.Sha256(source)
  {
    hide Sha256Spec.Sha256;
    var ctx := new Sha256Stream.Sha256Ctx();
    ctx.Update(source);
    hash := ctx.Final();
    assert [] + source == source;
  }

  /** `emit_frontmatter`, with the time of the call as a parameter */
  method EmitFrontmatter(path: string, source: seq<bv8>, time: string)
    returns (text: string, ghost name: string, ghost dir: string)
    ensures path == dir + name && '/' !in name && (dir == "" || dir[|dir| - 1] == '/')
    ensures text == Frontmatter(name, Hex(Sha256Spec.Sha256(source)), time)
  {
    var base;
    base, dir := BaseName(path);
    name := base;
    var hash := Digest(source);
    var hex := HexText(hash);
    text := Frontmatter(base, hex, time);
  }

  // ----- reading -----

  method SkipBlanks(t: string, p: nat) returns (q: nat)
    requires p <= |t|
    ensures p <= q <= |t| && t[q..] == DropBlanks(t[p..])
  {
    q := p;
    while q < |t| && (t[q] == ' ' || t[q] == '\t')
      invariant p <= q <= |t| && DropBlanks(t[q..]) == DropBlanks(t[p..])
    {
      assert t[q..][1..] == t[q + 1..];
      q := q + 1;
    }
    assert q < |t| ==> t[q..][0] == t[q];
  }

  method SkipSpaces(t: string) returns (q: nat)
    ensures q <= |t| && t[q..] == DropSpaces(t)
  {
    q := 0;
    assert t[0..] == t;
    while q < |t| && (t[q] == ' ' || t[q] == '\t' || t[q] == '\r' || t[q] == '\n')
      invariant 0 <= q <= |t| && DropSpaces(t[q..]) == DropSpaces(t)
    {
      assert t[q..][1..] == t[q + 1..];
      q := q + 1;
    }
    assert q < |t| ==> t[q..][0] == t[q];
  }

  method SkipLine(t: string, p: nat) returns (q: nat)
    requires p <= |t|
    ensures p <= q <= |t| && t[q..] == NextLine(t[p..]) && (p < |t| ==> p < q)
  {
    q := p;
    while q < |t| && t[q] != '\n'
      invariant p <= q <= |t| && NextLine(t[q..]) == NextLine(t[p..])
    {
      assert t[q..][1..] == t[q + 1..];
      q := q + 1;
    }
    if q < |t| {
      assert t[q..][1..] == t[q + 1..];
      q := q + 1;
    }
  }

  /** The copy stops here. */
  predicate Stops(t: string, quote: Option<char>, room: nat) {
    t == "" || t[0] == '\n' || t[0] == '\r' || room == 0 || (quote.Some? && t[0] == quote.value)
  }

  lemma TakenStep(done: string, t: string, quote: Option<char>, room: nat)
    ensures Stops(t, quote, room) ==> done + Taken(t, quote, room) == done
    ensures !Stops(t, quote, room) ==> done + Taken(t, quote, room) == done + [t[0]] + Taken(t[1..], quote, room - 1)
  {
    if !Stops(t, quote, room) {
      assert done + ([t[0]] + Taken(t[1..], quote, room - 1)) == done + [t[0]] + Taken(t[1..], quote, room - 1);
    }
  }

  /** Copy the value at `p` into the buffer. */
  method CopyValue(t: string, p: nat, quote: Option<char>, buf: array<char>) returns (n: nat)
    requires p <= |t| && buf.Length > 0
    modifies buf
    ensures n < buf.Length && buf[n] == '\0' && buf[..n] == Taken(t[p..], quote, buf.Length - 1)
  {
    hide Taken;
    ghost var whole := Taken(t[p..], quote, buf.Length - 1);
    n := 0;
    var q := p;
    assert buf[..0] + whole == whole;
    while q < |t| && t[q] != '\n' && t[q] != '\r' && n < buf.Length - 1 && !(quote.Some? && t[q] == quote.value)
      invariant p <= q <= |t| && 0 <= n <= buf.Length - 1
      invariant buf[..n] + Taken(t[q..], quote, buf.Length - 1 - n) == whole
    {
      ghost var done := buf[..n];
      TakenStep(done, t[q..], quote, buf.Length - 1 - n);
      assert t[q..][1..] == t[q + 1..];
      buf[n] := t[q];
      assert buf[..n + 1] == done + [t[q]];
      n := n + 1;
      q := q + 1;
    }
    ghost var done := buf[..n];
    TakenStep(done, t[q..], quote, buf.Length - 1 - n);
    buf[n] := '\0';
    assert buf[..n] == done;
  }

  method ReadValue(t: string, p: nat, buf: array<char>) returns (n: nat)
    requires p <= |t| && buf.Length > 0
    modifies buf
    ensures n < buf.Length && buf[n] == '\0' && buf[..n] == ValueOf(t[p..], buf.Length)
  {
    var q := SkipBlanks(t, p);
    hide Taken, DropBlanks;
    assert q < |t| ==> t[q..][0] == t[q] && t[q..][1..] == t[q + 1..];
    if q < |t| && (t[q] == '"' || t[q] == '\'') {
      n := CopyValue(t, q + 1, Some(t[q]), buf);
    } else {
      n := CopyValue(t, q, None, buf);
    }
  }

  method StartsWith(t: string, p: nat, w: string) returns (r: bool)
    requires p <= |t|
    ensures r == (|t| - p >= |w| && t[p..][..|w|] == w)
  {
    if |t| - p < |w| { return false; }
    assert t[p..][..|w|] == t[p..p + |w|];
    return t[p..p + |w|] == w;
  }

  /** The line at `p`: whether it has the key, and the line behind it. */
  method TryLine(text: string, p: nat, key: string) returns (at: Option<nat>, next: nat)
    requires p < |text|
    ensures var u := DropBlanks(text[p..]);
            && (at.Some? <==> HasKey(u, key))
            && (at.Some? ==> at.value <= |text| && text[at.value..] == u[|key| + 1..])
            && p < next <= |text| && text[next..] == NextLine(u) && (u == "" ==> next == |text|)
  {
    hide DropBlanks, NextLine;
    var q := SkipBlanks(text, p);
    var has := StartsWith(text, q, key);
    next := SkipLine(text, q);
    ghost var u := text[q..];
    at := None;
    if has && q + |key| < |text| && text[q + |key|] == ':' {
      assert u[|key| + 1..] == text[q + |key| + 1..];
      at := Some(q + |key| + 1);
    }
    assert q == |text| ==> next == q;
  }

  lemma ScanStep(t: string, key: string, size: nat)
    requires size > 0 && t != "" && !Dashes(t)
    ensures var u := DropBlanks(t);
            ScanLines(t, key, size) ==
              if HasKey(u, key) then Some(ValueOf(u[|key| + 1..], size)) else ScanLines(NextLine(u), key, size)
  {
    hide ValueOf, HasKey;
  }

  /** The lines from `p` on. */
  method ScanFields(text: string, start: nat, key: string, buf: array<char>) returns (found: bool, n: nat)
    requires buf.Length > 0 && buf[0] == '\0' && start <= |text|
    modifies buf
    ensures n < buf.Length && buf[n] == '\0'
    ensures found == ScanLines(text[start..], key, buf.Length).Some?
    ensures found ==> buf[..n] == ScanLines(text[start..], key, buf.Length).value
  {
    hide DropBlanks, NextLine, ValueOf, ScanLines, HasKey;
    var p, size := start, buf.Length;
    while p < |text|
      invariant 0 <= p <= |text| && buf[0] == '\0'
      invariant ScanLines(text[p..], key, size) == ScanLines(text[start..], key, size)
    {
      var dashes := StartsWith(text, p, "---");
      if dashes { ScanEnd(text[p..], key, size); return false, 0; }
      ScanStep(text[p..], key, size);
      var at, next := TryLine(text, p, key);
      if at.Some? {
        n := ReadValue(text, at.value, buf);
        return true, n;
      }
      p := next;
    }
    ScanEnd(text[p..], key, size);
    return false, 0;
  }

  lemma ScanEnd(t: string, key: string, size: nat)
    requires size > 0 && (t == "" || Dashes(t))
    ensures ScanLines(t, key, size).None?
  {
  }

  /** `extract_frontmatter_field` */
  method ExtractField(text: string, key: string, buf: array<char>) returns (found: bool, n: nat)
    requires buf.Length > 0
    modifies buf
    ensures n < buf.Length && buf[n] == '\0'
    ensures found == Extract(text, key, buf.Length).Some?
    ensures found ==> buf[..n] == Extract(text, key, buf.Length).value
  {
    hide DropSpaces, NextLine, ScanLines;
    buf[0] := '\0';
    var p := SkipSpaces(text);
    var dashes := StartsWith(text, p, "---");
    if !dashes { return false, 0; }
    assert text[p..][3..] == text[p + 3..];
    p := SkipLine(text, p + 3);
    found, n := ScanFields(text, p, key, buf);
  }

  // ----- verifying -----

  /** The directory part of a path, with its slash. */
  function DirLen(path: string): (n: nat)
    ensures n <= |path|
  {
    if path == "" || path[|path| - 1] == '/' then |path| else DirLen(path[..|path| - 1])
  }

  lemma {:induction false} DirOf(path: string, dir: string, name: string)
    requires path == dir + name && '/' !in name && (dir == "" || dir[|dir| - 1] == '/')
    ensures DirLen(path) == |dir| && path[..|dir|] == dir
    decreases |name|
  {
    if name == "" {
      assert path == dir;
    } else {
      assert path[|path| - 1] == name[|name| - 1];
      assert path[..|path| - 1] == dir + name[..|name| - 1];
      DirOf(path[..|path| - 1], dir, name[..|name| - 1]);
    }
  }

  /** Where the source lies: beside the companion file, unless that path is too long. */
  function SourcePath(path: string, name: string): Option<string> {
    var dir := path[..DirLen(path)];
    if dir != "" && |dir| + |name| >= PATH_BUF then None else Some(dir + name)
  }

  /** The verdict on a companion file: 0 for a match, 1 for a mismatch, 2 for a file that cannot be read, a
      missing field or a path that is too long. */
  function Verdict(path: string, text: Option<string>, files: string -> Option<seq<bv8>>): int {
    if text.None? then 2
    else if Extract(text.value, FILE_KEY, PATH_BUF).None? || Extract(text.value, HASH_KEY, HASH_BUF).None? then 2
    else
      Judged(SourcePath(path, Extract(text.value, FILE_KEY, PATH_BUF).value),
             Extract(text.value, HASH_KEY, HASH_BUF).value, files)
  }

  function Judged(path: Option<string>, expected: string, files: string -> Option<seq<bv8>>): int {
    if path.None? || files(path.value).None? then 2
    else if expected == Hex(Sha256Spec.Sha256(files(path.value).value)) then 0
    else 1
  }

  /** `verify_companion` on a companion file and the files that can be read; `text` is nothing when the
      companion file cannot be read. */
  method VerifyCompanion(path: string, text: Option<string>, files: string -> Option<seq<bv8>>) returns (code: int)
    ensures code == Verdict(path, text, files)
  {
    hide Extract, Hex, Sha256Spec.Sha256, DirLen;
    if text.None? { return 2; }
    var file := new char[PATH_BUF];
    var expected := new char[HASH_BUF];
    var found, m := ExtractField(text.value, FILE_KEY, file);
    if !found { return 2; }
    var name := file[..m];
    var n;
    found, n := ExtractField(text.value, HASH_KEY, expected);
    if !found { return 2; }
    var last, dir := BaseName(path);
    DirOf(path, dir, last);
    var dirLen := |path| - |last|;
    if dirLen > 0 && dirLen + |name| >= PATH_BUF { return 2; }
    var source := files(path[..dirLen] + name);
    if source.None? { return 2; }
    var hash := Digest(source.value);
    var actual := HexText(hash);
    return if expected[..n] == actual then 0 else 1;
  }

  /** Main theorem: for every base name without line breaks, verifying an emitted companion file, whatever
      its body, looks for the source beside it under the name that reads back, and reports a match exactly
      when the digest of what it finds is the digest of the source; a missing source gives 2. */
  lemma VerdictOnEmitted(path: string, name: string, source: seq<bv8>, time: string, body: string,
                         files: string -> Option<seq<bv8>>)
    requires forall i | 0 <= i < |name| :: name[i] != '\n'
    ensures var text := Frontmatter(name, Hex(Sha256Spec.Sha256(source)), time) + body;
            var read := Extract(text, FILE_KEY, PATH_BUF);
            && read.Some? && (read.value == name <==> Fits(name, PATH_BUF))
            && Verdict(path, Some(text), files) ==
               match SourcePath(path, read.value)
               case None => 2
               case Some(p) =>
                 if files(p).None? then 2
                 else if Sha256Spec.Sha256(source) == Sha256Spec.Sha256(files(p).value) then 0
                 else 1
  {
    var d := Sha256Spec.Sha256(source);
    hide Sha256Spec.Sha256;
    HexFits(d);
    HashReadsBack(name, Hex(d), time, body);
    NameFound(name, Hex(d), time, body);
    NameReadsBack(name, Hex(d), time, body);
    hide Hex, Extract, Frontmatter, SourcePath;
    var text := Frontmatter(name, Hex(d), time) + body;
    var p := SourcePath(path, Extract(text, FILE_KEY, PATH_BUF).value);
    if p.Some? && files(p.value).Some? { HexInjective(d, Sha256Spec.Sha256(files(p.value).value)); }
  }

  /** Round trip: a companion file beside its source, under names that fit, is verified against that
      source. */
  lemma VerifiesItsSource(dir: string, name: string, own: string, source: seq<bv8>, time: string, body: string,
                          files: string -> Option<seq<bv8>>)
    requires '/' !in own && (dir == "" || dir[|dir| - 1] == '/') && files(dir + name) == Some(source)
    requires Fits(name, PATH_BUF) && |dir| + |name| < PATH_BUF
    ensures Verdict(dir + own, Some(Frontmatter(name, Hex(Sha256Spec.Sha256(source)), time) + body), files) == 0
  {
    hide Sha256Spec.Sha256, Hex, Extract, Frontmatter, SourcePath, Verdict, Fits;
    Beside(dir, name, own);
    assert forall i | 0 <= i < |name| :: name[i] != '\n' by { FitsLine(name, PATH_BUF); }
    VerdictOnEmitted(dir + own, name, source, time, body, files);
  }

  lemma FitsLine(name: string, size: nat)
    requires Fits(name, size)
    ensures forall i | 0 <= i < |name| :: name[i] != '\n'
  {}

  lemma Beside(dir: string, name: string, own: string)
    requires '/' !in own && (dir == "" || dir[|dir| - 1] == '/') && |dir| + |name| < PATH_BUF
    ensures SourcePath(dir + own, name) == Some(dir + name)
  {
    DirOf(dir + own, dir, own);
    hide DirLen;
  }

  /** The name field is always found. */
  lemma NameFound(name: string, hash: string, time: string, rest: string)
    ensures Extract(Frontmatter(name, hash, time) + rest, FILE_KEY, PATH_BUF).Some?
  {
    KeysAreKeys();
    hide Field, Extract, ScanLines, Taken;
    var x := AfterName(hash, time) + rest;
    assert Frontmatter(name, hash, time) + rest == "---\n" + (Field(FILE_KEY, name) + x);
    OpenFrontmatter(Field(FILE_KEY, name) + x, FILE_KEY, PATH_BUF);
    FieldFound(FILE_KEY, name, x, PATH_BUF);
  }
}
