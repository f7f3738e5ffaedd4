/** The lock file writer and reader of `src/pkg.c` with their scanning loops. */
module Pkg {
  import opened Wrappers
  import opened Chars
  import opened Decimals
  import opened PkgResolve
  import opened PkgLockFile

  // ----- scanning -----

  lemma Tail(t: string, p: nat)
    requires p < |t|
    ensures t[p..] != "" && t[p..][0] == t[p] && t[p..][1..] == t[p + 1..]
  {
  }

  method SkipBlanks(t: string, p: nat) returns (q: nat)
    requires p <= |t|
    ensures p <= q <= |t| && t[q..] == SkipWs(t[p..])
  {
    q := p;
    while q < |t| && (t[q] == ' ' || t[q] == '\t')
      invariant p <= q <= |t| && SkipWs(t[q..]) == SkipWs(t[p..])
    {
      Tail(t, q);
      q := q + 1;
    }
    if q < |t| { Tail(t, q); }
  }

  method DigitsEnd(t: string, p: nat) returns (q: nat)
    requires p <= |t|
    ensures q == p + DigitRun(t[p..]) && q <= |t|
  {
    q := p;
    while q < |t| && IsDigit(t[q])
      invariant p <= q <= |t| && q - p + DigitRun(t[q..]) == DigitRun(t[p..])
    {
      Tail(t, q);
      q := q + 1;
    }
    if q < |t| { Tail(t, q); }
  }

  method KeyEnd(t: string, p: nat) returns (q: nat)
    requires p <= |t|
    ensures q == p + KeyRun(t[p..]) && q <= |t|
  {
    q := p;
    while q < |t| && t[q] != ' ' && t[q] != '\t' && t[q] != '='
      invariant p <= q <= |t| && q - p + KeyRun(t[q..]) == KeyRun(t[p..])
    {
      Tail(t, q);
      q := q + 1;
    }
    if q < |t| { Tail(t, q); }
  }

  method UntilEnd(t: string, p: nat, stop: set<char>) returns (q: nat)
    requires p <= |t|
    ensures q == p + Until(t[p..], stop) && q <= |t|
  {
    q := p;
    while q < |t| && t[q] !in stop
      invariant p <= q <= |t| && q - p + Until(t[q..], stop) == Until(t[p..], stop)
    {
      Tail(t, q);
      q := q + 1;
    }
    if q < |t| { Tail(t, q); }
  }

  method TrimEnd(t: string) returns (r: string)
    ensures r == Trimmed(t)
  {
    var e := |t|;
    assert t[..e] == t;
    while e > 0 && (t[e - 1] == ' ' || t[e - 1] == '\t')
      invariant 0 <= e <= |t| && Trimmed(t[..e]) == Trimmed(t)
    {
      assert t[..e][..e - 1] == t[..e - 1];
      e := e - 1;
    }
    r := t[..e];
  }

  // ----- versions -----

  /** One number of a version, and what follows it. */
  method NumberAt(t: string, p: nat) returns (n: Option<nat>, q: nat)
    requires p <= |t|
    ensures p <= q <= |t|
    ensures ReadNumber(t[p..]) == match n case None => None case Some(k) => Some((k, t[q..]))
  {
    q := DigitsEnd(t, p);
    hide DigitRun, Value;
    if q == p { return None, q; }
    assert t[p..][..q - p] == t[p..q] && t[p..][q - p..] == t[q..];
    var k := ParseDecimal(t[p..q]);
    n := Some(k);
  }

  /** `pkg_version_parse` */
  method VersionParse(t: string) returns (v: Option<Version>)
    ensures v == ParseVersion(t)
  {
    hide ReadNumber;
    assert t[0..] == t;
    var major, p := NumberAt(t, 0);
    if major.None? || p >= |t| || t[p] != '.' { return None; }
    Tail(t, p);
    var minor, q := NumberAt(t, p + 1);
    if minor.None? || q >= |t| || t[q] != '.' { return None; }
    Tail(t, q);
    var patch, r := NumberAt(t, q + 1);
    if patch.None? { return None; }
    if r < |t| { Tail(t, r); }
    if r < |t| && t[r] != '"' && t[r] != '\n' && t[r] != '\r' && t[r] != ' ' { return None; }
    return Some(Version(major.value, minor.value, patch.value));
  }

  // ----- pairs and sections -----

  method ValueAt(t: string, p: nat) returns (v: string)
    requires p <= |t|
    ensures v == KvValue(t[p..])
  {
    if p < |t| { Tail(t, p); }
    if p < |t| && t[p] == '"' {
      var q := UntilEnd(t, p + 1, {'"'});
      hide Until;
      assert t[p + 1..][..q - (p + 1)] == t[p + 1..q];
      v := t[p + 1..q];
    } else {
      var q := UntilEnd(t, p, {'\n', '\r', '#'});
      hide Until;
      assert t[p..][..q - p] == t[p..q];
      v := TrimEnd(t[p..q]);
    }
    if |v| >= MAX_LINE { v := v[..MAX_LINE - 1]; }
  }

  /** `parse_kv` */
  method PairOf(line: string) returns (kv: Option<(string, string)>)
    ensures kv == ParseKv(line)
  {
    hide KvValue;
    assert line[0..] == line;
    var p := SkipBlanks(line, 0);
    if p < |line| { Tail(line, p); }
    if p == |line| || line[p] == '#' || line[p] == '[' { return None; }
    var q := KeyEnd(line, p);
    assert line[p..][..q - p] == line[p..q] && line[p..][q - p..] == line[q..];
    hide KeyRun;
    if q == p || q - p >= MAX_NAME { return None; }
    hide SkipWs;
    var v := ValueBehind(line, q);
    kv := match v case None => None case Some(w) => Some((line[p..q], w));
  }

  /** The equals sign behind the key and the value behind it. */
  method ValueBehind(line: string, q: nat) returns (v: Option<string>)
    requires q <= |line|
    ensures v == var u := SkipWs(line[q..]); if u == "" || u[0] != '=' then None else Some(KvValue(SkipWs(u[1..])))
  {
    hide KvValue, SkipWs;
    var r := SkipBlanks(line, q);
    if r < |line| { Tail(line, r); }
    if r == |line| || line[r] != '=' { return None; }
    var s := SkipBlanks(line, r + 1);
    var w := ValueAt(line, s);
    return Some(w);
  }

  /** `parse_section` */
  method SectionOf(line: string) returns (r: bool)
    ensures r == IsResolved(line)
  {
    assert line[0..] == line;
    var p := SkipBlanks(line, 0);
    hide SkipWs;
    if p < |line| { Tail(line, p); }
    if p == |line| || line[p] != '[' { return false; }
    var q := UntilEnd(line, p + 1, {']'});
    hide Until;
    if q == |line| { return false; }
    assert line[p + 1..][..q - (p + 1)] == line[p + 1..q];
    return line[p + 1..q] == "resolved";
  }

  // ----- the lock file -----

  /** `pkg_lock_write` */
  method LockWrite(lock: PkgLock) returns (text: string)
    requires lock.Valid()
    ensures text == LockText(lock.View())
  {
    hide LineOf;
    ghost var all := lock.View();
    var lines := "";
    var i := 0;
    assert all[0..] == all;
    while i < lock.count
      invariant 0 <= i <= lock.count && lines + LinesOf(all[i..]) == LinesOf(all)
    {
      assert all[i..][0] == lock.entries[i] && all[i..][1..] == all[i + 1..];
      var l := LineOf(lock.entries[i]);
      assert lines + (l + LinesOf(all[i + 1..])) == lines + l + LinesOf(all[i + 1..]);
      lines := lines + l;
      i := i + 1;
    }
    assert all[i..] == [] && lines + "" == lines;
    hide LinesOf;
    text := COMMENT_1 + "\n" + (COMMENT_2 + "\n" + ("" + "\n" + (SECTION + "\n" + lines)));
  }

  method ChunkEnd(t: string, p: nat) returns (q: nat)
    requires p < |t|
    ensures q == p + Chunk(t[p..], MAX_LINE - 1) && p < q <= |t|
  {
    q := p;
    var more := true;
    while more && q < |t| && q - p < MAX_LINE - 1
      invariant p <= q <= |t| && q - p <= MAX_LINE - 1 && (q == p ==> more)
      invariant more ==> q - p + Chunk(t[q..], MAX_LINE - 1 - (q - p)) == Chunk(t[p..], MAX_LINE - 1)
      invariant !more ==> q - p == Chunk(t[p..], MAX_LINE - 1)
      decreases |t| - q, more
    {
      Tail(t, q);
      if t[q] == '\n' { more := false; }
      q := q + 1;
    }
  }

  /** What a line means. */
  method Interpret(raw: string) returns (m: Meaning)
    ensures m == MeaningOf(raw)
  {
    var line := raw;
    if |line| > 0 && line[|line| - 1] == '\n' { line := line[..|line| - 1]; }
    if |line| > 0 && line[|line| - 1] == '\r' { line := line[..|line| - 1]; }
    assert line == Stripped(raw) && line[0..] == line;
    var p := SkipBlanks(line, 0);
    var t := line[p..];
    hide SkipWs, ParseKv, IsResolved, Stripped;
    if t == "" || t[0] == '#' { return Nothing; }
    if t[0] == '[' {
      var r := SectionOf(t);
      return Header(r);
    }
    var kv := PairOf(t);
    return match kv case None => Nothing case Some((k, v)) => Pair(k, v);
  }

  /** One line of the reader. */
  lemma ReadStep(t: string, resolved: bool, lock: seq<Entry>)
    requires t != ""
    ensures var n := Chunk(t, MAX_LINE - 1);
            var m := MeaningOf(t[..n]);
            && (m.Nothing? || (m.Pair? && !resolved)
               ==> ReadFrom(t, resolved, lock) == ReadFrom(t[n..], resolved, lock))
            && (m.Header? ==> ReadFrom(t, resolved, lock) == ReadFrom(t[n..], m.resolved, lock))
            && (m.Pair? && resolved ==>
                  ReadFrom(t, resolved, lock) ==
                  if |lock| >= MAX_DEPS || ParseVersion(m.value).None? then None
                  else ReadFrom(t[n..], resolved, lock + [Entry(m.key, ParseVersion(m.value).value)]))
  {
    hide MeaningOf, Chunk, ParseVersion;
  }

  lemma ReadEnd(resolved: bool, lock: seq<Entry>)
    ensures ReadFrom("", resolved, lock) == Some(lock)
  {
  }

  /** `pkg_lock_read`: whatever the lock held is dropped first */
  method LockReadInto(text: string, lock: PkgLock) returns (ok: bool)
    requires lock.Valid()
    modifies lock, lock.entries
    ensures lock.Valid() && ok == LockRead(text).Some? && (ok ==> lock.View() == LockRead(text).value)
  {
    hide ReadFrom, MeaningOf, Chunk, ParseVersion;
    var p, resolved := 0, false;
    lock.count := 0;
    assert text[0..] == text && lock.View() == [];
    while p < |text|
      invariant 0 <= p <= |text| && lock.Valid() && ReadFrom(text[p..], resolved, lock.View()) == LockRead(text)
    {
      ghost var before, rest := lock.View(), text[p..];
      ReadStep(rest, resolved, before);
      var q := ChunkEnd(text, p);
      assert rest[..q - p] == text[p..q] && rest[q - p..] == text[q..];
      var m := Interpret(text[p..q]);
      if m.Header? {
        resolved := m.resolved;
      } else if m.Pair? && resolved {
        if lock.count >= MAX_DEPS { return false; }
        var v := VersionParse(m.value);
        if v.None? { return false; }
        lock.entries[lock.count] := Entry(m.key, v.value);
        lock.count := lock.count + 1;
        assert lock.View() == before + [Entry(m.key, v.value)];
      }
      p := q;
    }
    assert text[p..] == "";
    ReadEnd(resolved, lock.View());
    return true;
  }
}
