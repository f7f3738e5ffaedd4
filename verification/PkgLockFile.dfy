/** The lock file: what `pkg_lock_write` prints and `pkg_lock_read` reads. */
module PkgLockFile {
  import opened Wrappers
  import opened Chars
  import opened Decimals
  import opened PkgResolve

  const MAX_NAME: nat := 64
  const MAX_VERSION: nat := 32
  const MAX_LINE: nat := 512

  // ----- versions -----

  function VersionText(v: Version): string {
    Decimal(v.major) + "." + Decimal(v.minor) + "." + Decimal(v.patch)
  }

  /** `pkg_version_fmt` into a buffer of 32 bytes */
  function Formatted(v: Version): string {
    var t := VersionText(v);
    if |t| < MAX_VERSION then t else t[..MAX_VERSION - 1]
  }

  function DigitRun(t: string): (n: nat)
    ensures n <= |t| && Digits(t[..n]) && (n < |t| ==> !IsDigit(t[n]))
  {
    if t != "" && IsDigit(t[0]) then
      var n := 1 + DigitRun(t[1..]);
      assert forall i | 0 < i < n :: t[i] == t[1..][i - 1];
      n
    else 0
  }

  /** A number at the start of a text: its value and what follows it. */
  function ReadNumber(t: string): Option<(nat, string)> {
    var n := DigitRun(t);
    if n == 0 then None else Some((Value(t[..n]), t[n..]))
  }

  predicate EndsVersion(t: string) { t == "" || t[0] == '"' || t[0] == '\n' || t[0] == '\r' || t[0] == ' ' }

  predicate IsDot(t: string) { t != "" && t[0] == '.' }

  /** `pkg_version_parse` */
  function ParseVersion(t: string): Option<Version> {
    match ReadNumber(t)
    case None => None
    case Some((major, t1)) =>
      if !IsDot(t1) then None
      else
        match ReadNumber(t1[1..])
        case None => None
        case Some((minor, t2)) =>
          if !IsDot(t2) then None
          else
            match ReadNumber(t2[1..])
            case None => None
            case Some((patch, t3)) => if EndsVersion(t3) then Some(Version(major, minor, patch)) else None
  }

  lemma {:induction false} DigitRunIs(d: string, rest: string)
    requires Digits(d) && (rest == "" || !IsDigit(rest[0]))
    ensures DigitRun(d + rest) == |d|
  {
    var t := d + rest;
    if d == "" {
      assert t == rest;
    } else {
      assert IsDigit(d[0]) && t[0] == d[0] && t[1..] == d[1..] + rest;
      DigitRunIs(d[1..], rest);
    }
  }

  lemma NumberReads(n: nat, rest: string)
    requires rest == "" || !IsDigit(rest[0])
    ensures ReadNumber(Decimal(n) + rest) == Some((n, rest))
  {
    DecimalValue(n);
    var d := Decimal(n);
    hide Decimal, Value;
    DigitRunIs(d, rest);
    assert (d + rest)[..|d|] == d && (d + rest)[|d|..] == rest;
  }

  /** Every printed version reads back when it is printed in full. */
  lemma VersionReads(v: Version)
    ensures ParseVersion(VersionText(v)) == Some(v)
  {
    hide Decimal, ReadNumber;
    var t2 := Decimal(v.patch) + "";
    var t1 := Decimal(v.minor) + ("." + t2);
    assert VersionText(v) == Decimal(v.major) + ("." + t1);
    NumberReads(v.major, "." + t1);
    assert ("." + t1)[1..] == t1;
    NumberReads(v.minor, "." + t2);
    assert ("." + t2)[1..] == t2;
    NumberReads(v.patch, "");
  }

  predicate Numeral(a: string, n: nat) { a != "" && Digits(a) && Value(a) == n }

  /** Three numerals with dots between them, and then the end of the text, a quote or white space. */
  predicate Written(t: string, v: Version, a: string, b: string, c: string, rest: string) {
    && Numeral(a, v.major) && Numeral(b, v.minor) && Numeral(c, v.patch)
    && t == a + ("." + (b + ("." + (c + rest)))) && (rest == "" || rest[0] in {'"', '\n', '\r', ' '})
  }

  lemma NumeralReads(a: string, n: nat, rest: string)
    requires Numeral(a, n) && (rest == "" || !IsDigit(rest[0]))
    ensures ReadNumber(a + rest) == Some((n, rest))
  {
    hide Value;
    DigitRunIs(a, rest);
    assert (a + rest)[..|a|] == a && (a + rest)[|a|..] == rest;
  }

  lemma ReadNumeral(t: string) returns (a: string)
    requires ReadNumber(t).Some?
    ensures Numeral(a, ReadNumber(t).value.0) && t == a + ReadNumber(t).value.1
  {
    hide Value, DigitRun;
    a := t[..DigitRun(t)];
  }

  /** A text is read as a version if and only if it is written so. */
  lemma VersionIff(t: string, v: Version)
    ensures ParseVersion(t) == Some(v) <==> exists a, b, c, rest :: Written(t, v, a, b, c, rest)
  {
    if ParseVersion(t) == Some(v) { ParsedWritten(t, v); }
    hide ParseVersion;
    if exists a, b, c, rest :: Written(t, v, a, b, c, rest) {
      var a, b, c, rest :| Written(t, v, a, b, c, rest);
      hide Written;
      WrittenParses(t, v, a, b, c, rest);
    }
  }

  lemma ParsedWritten(t: string, v: Version)
    requires ParseVersion(t) == Some(v)
    ensures exists a, b, c, rest :: Written(t, v, a, b, c, rest)
  {
    hide ReadNumber, Numeral;
    var t1 := ReadNumber(t).value.1;
    var t2 := ReadNumber(t1[1..]).value.1;
    var a := ReadNumeral(t);
    var b := ReadNumeral(t1[1..]);
    var c := ReadNumeral(t2[1..]);
    assert t1 == "." + t1[1..] && t2 == "." + t2[1..];
    assert Written(t, v, a, b, c, ReadNumber(t2[1..]).value.1);
  }

  lemma WrittenParses(t: string, v: Version, a: string, b: string, c: string, rest: string)
    requires Written(t, v, a, b, c, rest)
    ensures ParseVersion(t) == Some(v)
  {
    hide ReadNumber, Numeral;
    var t2 := c + rest;
    var t1 := b + ("." + t2);
    NumeralReads(a, v.major, "." + t1);
    NumeralReads(b, v.minor, "." + t2);
    NumeralReads(c, v.patch, rest);
    assert ("." + t1)[1..] == t1 && ("." + t2)[1..] == t2;
  }

  /** Text without the characters that may end a version early. */
  predicate OnlyDigitsAndDots(t: string) { forall i | 0 <= i < |t| :: IsDigit(t[i]) || t[i] == '.' }

  lemma NumberLength(t: string)
    requires ReadNumber(t).Some?
    ensures var (n, rest) := ReadNumber(t).value;
            && |rest| <= |t| && rest == t[|t| - |rest|..] && |Decimal(n)| <= |t| - |rest|
  {
    var k := DigitRun(t);
    DecimalShortest(t[..k]);
    hide Decimal, Value, DigitRun;
  }

  /** What reads as a version is at least as long as the version's own text. */
  lemma ParsedLength(t: string)
    requires ParseVersion(t).Some? && OnlyDigitsAndDots(t)
    ensures |VersionText(ParseVersion(t).value)| <= |t|
  {
    var (major, t1) := ReadNumber(t).value;
    var (minor, t2) := ReadNumber(t1[1..]).value;
    var (patch, t3) := ReadNumber(t2[1..]).value;
    NumberLength(t);
    NumberLength(t1[1..]);
    NumberLength(t2[1..]);
    hide ReadNumber, Decimal;
  }

  lemma VersionChars(v: Version)
    ensures OnlyDigitsAndDots(VersionText(v))
  {
    DecimalValue(v.major);
    DecimalValue(v.minor);
    DecimalValue(v.patch);
    var a, b, c := Decimal(v.major), Decimal(v.minor), Decimal(v.patch);
    hide Decimal, Value;
    var t := a + "." + b + "." + c;
    forall i | 0 <= i < |t| ensures IsDigit(t[i]) || t[i] == '.' {
      if i < |a| { assert t[i] == a[i]; }
      else if |a| < i <= |a| + |b| { assert t[i] == b[i - |a| - 1]; }
      else if |a| + |b| + 1 < i { assert t[i] == c[i - |a| - |b| - 2]; }
    }
  }

  /** A version reads back from the format buffer exactly when its text fits. */
  lemma FormattedReads(v: Version)
    ensures ParseVersion(Formatted(v)) == Some(v) <==> |VersionText(v)| < MAX_VERSION
  {
    VersionReads(v);
    VersionChars(v);
    var t := Formatted(v);
    hide ParseVersion, VersionText;
    if |VersionText(v)| >= MAX_VERSION && ParseVersion(t).Some? {
      ParsedLength(t);
    }
  }

  // ----- lines -----

  predicate IsBlank(c: char) { c == ' ' || c == '\t' }

  function SkipWs(t: string): (r: string)
    ensures |r| <= |t|
  {
    if t != "" && IsBlank(t[0]) then SkipWs(t[1..]) else t
  }

  /** What one `fgets` into the line buffer reads. */
  function Chunk(t: string, room: nat): (n: nat)
    ensures n <= |t| && n <= room && (t != "" && room > 0 ==> n > 0)
  {
    if t == "" || room == 0 then 0 else if t[0] == '\n' then 1 else 1 + Chunk(t[1..], room - 1)
  }

  function DropLast(t: string, c: char): (r: string)
    ensures |r| <= |t|
  {
    if t != "" && t[|t| - 1] == c then t[..|t| - 1] else t
  }

  function Stripped(t: string): string { DropLast(DropLast(t, '\n'), '\r') }

  function KeyRun(t: string): (n: nat)
    ensures n <= |t|
  {
    if t != "" && t[0] != ' ' && t[0] != '\t' && t[0] != '=' then 1 + KeyRun(t[1..]) else 0
  }

  function Until(t: string, stop: set<char>): (n: nat)
    ensures n <= |t|
  {
    if t != "" && t[0] !in stop then 1 + Until(t[1..], stop) else 0
  }

  function Trimmed(t: string): string
    decreases |t|
  {
    if t != "" && IsBlank(t[|t| - 1]) then Trimmed(t[..|t| - 1]) else t
  }

  function Clipped(v: string): string { if |v| >= MAX_LINE then v[..MAX_LINE - 1] else v }

  /** The value behind the equals sign: quoted, or bare up to a comment. */
  function KvValue(t: string): string {
    if t != "" && t[0] == '"' then Clipped(t[1..][..Until(t[1..], {'"'})])
    else Clipped(Trimmed(t[..Until(t, {'\n', '\r', '#'})]))
  }

  /** `parse_kv` */
  function ParseKv(line: string): Option<(string, string)> {
    var t := SkipWs(line);
    if t == "" || t[0] == '#' || t[0] == '[' then None
    else
      var n := KeyRun(t);
      if n == 0 || n >= MAX_NAME then None
      else
        var u := SkipWs(t[n..]);
        if u == "" || u[0] != '=' then None else Some((t[..n], KvValue(SkipWs(u[1..]))))
  }

  /** `parse_section`, as far as the reader cares: whether the header is `[resolved]` */
  predicate IsResolved(line: string) {
    var t := SkipWs(line);
    && t != "" && t[0] == '['
    && Until(t[1..], {']'}) < |t| - 1 && t[1..][..Until(t[1..], {']'})] == "resolved"
  }

  // ----- the file -----

  function LineOf(e: Entry): string { e.name + " = \"" + Formatted(e.version) + "\"\n" }

  function LinesOf(lock: seq<Entry>): string {
    if lock == [] then "" else LineOf(lock[0]) + LinesOf(lock[1..])
  }

  const COMMENT_1 := "# pkg.lock — " + ("auto-generated by " + "tkc pkg resolve")
  const COMMENT_2 := "# Do not edit manually."
  const SECTION := "[resolved]"

  /** `pkg_lock_write` */
  function LockText(lock: seq<Entry>): string {
    COMMENT_1 + "\n" + (COMMENT_2 + "\n" + ("" + "\n" + (SECTION + "\n" + LinesOf(lock))))
  }

  /** What a line means to the reader. */
  datatype Meaning = Nothing | Header(resolved: bool) | Pair(key: string, value: string)

  function MeaningOf(raw: string): Meaning {
    var t := SkipWs(Stripped(raw));
    if t == "" || t[0] == '#' then Nothing
    else if t[0] == '[' then Header(IsResolved(t))
    else match ParseKv(t) case None => Nothing case Some((k, v)) => Pair(k, v)
  }

  /** `pkg_lock_read` from here on */
  function ReadFrom(t: string, resolved: bool, lock: seq<Entry>): Option<seq<Entry>>
    decreases |t|
  {
    if t == "" then Some(lock)
    else
      var n := Chunk(t, MAX_LINE - 1);
      match MeaningOf(t[..n])
      case Nothing => ReadFrom(t[n..], resolved, lock)
      case Header(r) => ReadFrom(t[n..], r, lock)
      case Pair(k, v) =>
        if !resolved then ReadFrom(t[n..], resolved, lock)
        else if |lock| >= MAX_DEPS then None
        else
          match ParseVersion(v)
          case None => None
          case Some(version) => ReadFrom(t[n..], resolved, lock + [Entry(k, version)])
  }

  function LockRead(t: string): Option<seq<Entry>> { ReadFrom(t, false, []) }

  // ----- round trip -----

  /** A name as the manifest parser produces them. */
  predicate IsName(n: string) {
    && 0 < |n| < MAX_NAME && n[0] != '#' && n[0] != '['
    && forall i | 0 <= i < |n| :: n[i] != ' ' && n[i] != '\t' && n[i] != '=' && n[i] != '\n'
  }

  lemma {:induction false} KeyRunIs(n: string, rest: string)
    requires rest != "" && rest[0] == ' ' && forall i | 0 <= i < |n| :: n[i] != ' ' && n[i] != '\t' && n[i] != '='
    ensures KeyRun(n + rest) == |n|
  {
    var t := n + rest;
    if n == "" {
      assert t == rest;
    } else {
      assert t[0] == n[0] && t[1..] == n[1..] + rest;
      KeyRunIs(n[1..], rest);
    }
  }

  lemma {:induction false} UntilIs(v: string, rest: string, stop: set<char>)
    requires rest != "" && rest[0] in stop && forall i | 0 <= i < |v| :: v[i] !in stop
    ensures Until(v + rest, stop) == |v|
  {
    var t := v + rest;
    if v == "" {
      assert t == rest;
    } else {
      assert t[0] == v[0] && t[1..] == v[1..] + rest;
      UntilIs(v[1..], rest, stop);
    }
  }

  lemma {:induction false} ChunkIs(l: string, rest: string, room: nat)
    requires |l| + 1 <= room && forall i | 0 <= i < |l| :: l[i] != '\n'
    ensures Chunk(l + "\n" + rest, room) == |l| + 1
  {
    var t := l + "\n" + rest;
    if l != "" {
      assert t[0] == l[0] && t[1..] == l[1..] + "\n" + rest;
      ChunkIs(l[1..], rest, room - 1);
    }
  }

  lemma SkipNone(t: string)
    requires t != "" && !IsBlank(t[0])
    ensures SkipWs(t) == t && SkipWs(" " + t) == t
  {
    assert (" " + t)[1..] == t;
  }

  lemma QuotedReads(v: string)
    requires |v| < MAX_LINE && '"' !in v
    ensures KvValue("\"" + (v + "\"")) == v
  {
    var q := "\"" + (v + "\"");
    assert q[1..] == v + "\"";
    UntilIs(v, "\"", {'"'});
    hide Until;
    assert (v + "\"")[..|v|] == v;
  }

  /** A written pair is parsed to its key and value. */
  lemma KvReads(n: string, v: string)
    requires IsName(n) && |v| < MAX_LINE && '"' !in v
    ensures ParseKv(n + " = \"" + v + "\"") == Some((n, v))
  {
    var q := "\"" + (v + "\"");
    var u := " " + ("=" + (" " + q));
    var t := n + " = \"" + v + "\"";
    assert t == n + u;
    KeyRunIs(n, u);
    assert t[..|n|] == n && t[|n|..] == u && t[0] == n[0];
    SkipNone(t);
    SkipNone("=" + (" " + q));
    SkipNone(q);
    assert ("=" + (" " + q))[1..] == " " + q;
    QuotedReads(v);
    hide SkipWs, KeyRun, Until, KvValue;
  }

  /** The printed version has no quote or line break and fits its buffer. */
  lemma FormattedChars(v: Version)
    ensures |Formatted(v)| < MAX_VERSION && OnlyDigitsAndDots(Formatted(v))
  {
    VersionChars(v);
    hide VersionText;
  }

  lemma LineMeaning(e: Entry)
    requires IsName(e.name)
    ensures MeaningOf(LineOf(e)) == Pair(e.name, Formatted(e.version))
  {
    FormattedChars(e.version);
    var v := Formatted(e.version);
    hide Formatted;
    var l := e.name + " = \"" + v + "\"";
    assert LineOf(e) == l + "\n";
    assert DropLast(l + "\n", '\n') == l;
    assert l[|l| - 1] == '"';
    assert l[0] == e.name[0];
    assert Stripped(LineOf(e)) == l;
    assert SkipWs(l) == l;
    KvReads(e.name, v);
    hide ParseKv, IsResolved, Stripped, LineOf;
  }

  lemma LineChunk(e: Entry, rest: string)
    requires IsName(e.name)
    ensures Chunk(LineOf(e) + rest, MAX_LINE - 1) == |LineOf(e)|
  {
    FormattedChars(e.version);
    var v := Formatted(e.version);
    hide Formatted;
    var l := e.name + " = \"" + v + "\"";
    assert LineOf(e) + rest == l + "\n" + rest;
    forall i | 0 <= i < |l| ensures l[i] != '\n' {
      if i < |e.name| { assert l[i] == e.name[i]; }
      else if |e.name| + 4 <= i < |e.name| + 4 + |v| { assert l[i] == v[i - |e.name| - 4]; }
    }
    ChunkIs(l, rest, MAX_LINE - 1);
  }

  /** Reading one written line. */
  lemma LineReads(e: Entry, rest: string, lock: seq<Entry>)
    requires IsName(e.name) && |lock| < MAX_DEPS
    ensures ReadFrom(LineOf(e) + rest, true, lock) ==
            match ParseVersion(Formatted(e.version))
            case None => None
            case Some(w) => ReadFrom(rest, true, lock + [Entry(e.name, w)])
  {
    LineChunk(e, rest);
    LineMeaning(e);
    var l := LineOf(e);
    assert l != "";
    hide LineOf, Chunk, MeaningOf, ParseVersion, Formatted;
    assert (l + rest)[..|l|] == l && (l + rest)[|l|..] == rest;
  }

  lemma {:induction false} ReadAppends(t: string, resolved: bool, lock: seq<Entry>)
    ensures ReadFrom(t, resolved, lock).Some? ==> lock <= ReadFrom(t, resolved, lock).value
    decreases |t|
  {
    hide MeaningOf, ParseVersion, Chunk;
    if t != "" {
      var n := Chunk(t, MAX_LINE - 1);
      match MeaningOf(t[..n])
      case Nothing => ReadAppends(t[n..], resolved, lock);
      case Header(r) => ReadAppends(t[n..], r, lock);
      case Pair(k, v) =>
        if !resolved {
          ReadAppends(t[n..], resolved, lock);
        } else if |lock| < MAX_DEPS && ParseVersion(v).Some? {
          ReadAppends(t[n..], resolved, lock + [Entry(k, ParseVersion(v).value)]);
        }
    }
  }

  predicate AllFit(lock: seq<Entry>) { forall i | 0 <= i < |lock| :: |VersionText(lock[i].version)| < MAX_VERSION }

  predicate AllNamed(lock: seq<Entry>) { forall i | 0 <= i < |lock| :: IsName(lock[i].name) }

  /** Reading the lines of `lock` behind `done` restores both. */
  predicate Restores(lock: seq<Entry>, done: seq<Entry>) {
    ReadFrom(LinesOf(lock), true, done) == Some(done + lock)
  }

  lemma Rejoined(done: seq<Entry>, lock: seq<Entry>)
    requires lock != []
    ensures done + lock == done + [lock[0]] + lock[1..]
  {
  }

  lemma Departs(done: seq<Entry>, lock: seq<Entry>, e: Entry, r: seq<Entry>)
    requires lock != [] && e != lock[0] && done + [e] <= r
    ensures r != done + lock
  {
    assert r[|done|] == (done + [e])[|done|] == e;
    assert (done + lock)[|done|] == lock[0];
  }

  lemma RestoresFirst(lock: seq<Entry>, done: seq<Entry>)
    requires lock != [] && IsName(lock[0].name) && |done| < MAX_DEPS
    ensures Restores(lock, done) <==>
            ParseVersion(Formatted(lock[0].version)) == Some(lock[0].version) && Restores(lock[1..], done + [lock[0]])
  {
    var e, rest := lock[0], LinesOf(lock[1..]);
    assert LinesOf(lock) == LineOf(e) + rest;
    hide ReadFrom, LinesOf, LineOf, ParseVersion, Formatted, IsName;
    LineReads(e, rest, done);
    var r := ReadFrom(LinesOf(lock), true, done);
    match ParseVersion(Formatted(e.version))
    case None =>
      assert r.None?;
    case Some(w) =>
      if w == e.version {
        assert r == ReadFrom(rest, true, done + [e]);
        Rejoined(done, lock);
      } else {
        ReadAppends(rest, true, done + [Entry(e.name, w)]);
        if r.Some? { Departs(done, lock, Entry(e.name, w), r.value); }
      }
  }

  lemma {:induction false} LinesRead(lock: seq<Entry>, done: seq<Entry>)
    requires AllNamed(lock) && |done| + |lock| <= MAX_DEPS
    ensures Restores(lock, done) <==> AllFit(lock)
    decreases |lock|
  {
    hide VersionText, IsName;
    if lock == [] {
      assert done + lock == done;
    } else {
      hide Restores, ParseVersion, Formatted;
      RestoresFirst(lock, done);
      FormattedReads(lock[0].version);
      FitFirst(lock);
      hide AllFit;
      LinesRead(lock[1..], done + [lock[0]]);
    }
  }

  lemma FitFirst(lock: seq<Entry>)
    requires lock != []
    ensures AllFit(lock) <==> |VersionText(lock[0].version)| < MAX_VERSION && AllFit(lock[1..])
  {
    hide VersionText;
    if AllFit(lock[1..]) && |VersionText(lock[0].version)| < MAX_VERSION {
      forall i | 0 <= i < |lock| ensures |VersionText(lock[i].version)| < MAX_VERSION {
        if i > 0 { assert lock[i] == lock[1..][i - 1]; }
      }
    }
  }

  /** A line that adds nothing. */
  lemma LinePassed(l: string, rest: string, resolved: bool, r: bool)
    requires |l| < MAX_LINE - 1 && (forall i | 0 <= i < |l| :: l[i] != '\n')
    requires (MeaningOf(l + "\n") == Nothing && r == resolved) || MeaningOf(l + "\n") == Header(r)
    ensures ReadFrom(l + "\n" + rest, resolved, []) == ReadFrom(rest, r, [])
  {
    ChunkIs(l, rest, MAX_LINE - 1);
    hide MeaningOf, Chunk;
    var t := l + "\n" + rest;
    assert t[..|l| + 1] == l + "\n" && t[|l| + 1..] == rest;
  }

  /** Main theorem: a lock with parser-produced names is restored by writing and reading exactly when every
      version fits the format buffer. */
  lemma LockRoundTrip(lock: seq<Entry>)
    requires AllNamed(lock) && |lock| <= MAX_DEPS
    ensures LockRead(LockText(lock)) == Some(lock) <==> AllFit(lock)
  {
    var body := LinesOf(lock);
    PreambleRead(body);
    LinesRead(lock, []);
    hide ReadFrom, LinesOf;
    assert [] + lock == lock;
  }

  lemma DecimalGrows(n: nat)
    ensures |Decimal(10 * n + 10)| == |Decimal(n + 1)| + 1
  {}

  lemma TenDigits()
    ensures |Decimal(1000000000)| == 10
  {
    assert |Decimal(1)| == 1;
    hide Decimal;
    DecimalGrows(0);
    DecimalGrows(9);
    DecimalGrows(99);
    DecimalGrows(999);
    DecimalGrows(9999);
    DecimalGrows(99999);
    DecimalGrows(999999);
    DecimalGrows(9999999);
    DecimalGrows(99999999);
  }

  /** `1000000000.1000000000.1000000000`: the numbers fit 32-bit integers, the text has 32 characters and is
      cut, and a lock with that version is not restored. */
  lemma LargeVersion(name: string)
    requires IsName(name)
    ensures var v := Version(1000000000, 1000000000, 1000000000);
            var lock := [Entry(name, v)];
            |VersionText(v)| == MAX_VERSION && ParseVersion(Formatted(v)) != Some(v)
              && LockRead(LockText(lock)) != Some(lock)
  {
    var v := Version(1000000000, 1000000000, 1000000000);
    TenDigits();
    hide Decimal, ParseVersion, Formatted, LockRead, LockText;
    assert |VersionText(v)| == 32;
    FormattedReads(v);
    LockRoundTrip([Entry(name, v)]);
    assert !AllFit([Entry(name, v)]) by { assert [Entry(name, v)][0].version == v; }
  }

  lemma PreambleRead(body: string)
    ensures ReadFrom(COMMENT_1 + "\n" + (COMMENT_2 + "\n" + ("" + "\n" + (SECTION + "\n" + body))), false, [])
            == ReadFrom(body, true, [])
  {
    hide ReadFrom, MeaningOf;
    FirstComment();
    SecondComment();
    SectionMeaning();
    EmptyMeaning();
    CommentPassed(COMMENT_1, COMMENT_2 + "\n" + ("" + "\n" + (SECTION + "\n" + body)));
    CommentPassed(COMMENT_2, "" + "\n" + (SECTION + "\n" + body));
    LinePassed("", SECTION + "\n" + body, false, false);
    LinePassed(SECTION, body, false, true);
  }

  predicate IsComment(l: string) {
    l != "" && l[0] == '#' && |l| < MAX_LINE - 1 && forall i | 0 <= i < |l| :: l[i] != '\n'
  }

  predicate OneLine(l: string) { forall i | 0 <= i < |l| :: l[i] != '\n' }

  lemma FirstComment()
    ensures IsComment(COMMENT_1)
  {
    var a, b, c := "# pkg.lock — ", "auto-generated by ", "tkc pkg resolve";
    assert OneLine(a) && OneLine(b) && OneLine(c);
    assert OneLine(b + c);
    assert OneLine(a + (b + c));
    assert (a + (b + c))[0] == a[0];
  }

  lemma SecondComment()
    ensures IsComment(COMMENT_2)
  {
  }

  lemma EmptyMeaning()
    ensures MeaningOf("" + "\n") == Nothing
  {
  }

  lemma CommentPassed(l: string, rest: string)
    requires IsComment(l)
    ensures ReadFrom(l + "\n" + rest, false, []) == ReadFrom(rest, false, [])
  {
    assert MeaningOf(l + "\n") == Nothing by {
      assert DropLast(l + "\n", '\n') == l;
      assert Stripped(l + "\n")[..1] == "#" || |l| == 1;
    }
    LinePassed(l, rest, false, false);
  }

  lemma SectionResolved()
    ensures IsResolved(SECTION) && SkipWs(SECTION) == SECTION
  {
    var l, w := SECTION, "resolved";
    SkipNone(l);
    assert l[1..] == w + "]";
    UntilIs(w, "]", {']'});
    assert (w + "]")[..|w|] == w;
    hide Until, SkipWs;
  }

  lemma StripLine(l: string)
    requires l != "" && l[|l| - 1] != '\r'
    ensures Stripped(l + "\n") == l
  {
    assert DropLast(l + "\n", '\n') == l;
  }

  lemma SectionMeaning()
    ensures MeaningOf(SECTION + "\n") == Header(true)
    ensures |SECTION| < MAX_LINE - 1 && forall i | 0 <= i < |SECTION| :: SECTION[i] != '\n'
  {
    hide IsResolved, Stripped, SkipWs, ParseKv;
    SectionResolved();
    StripLine(SECTION);
    HeaderMeaning(SECTION);
  }

  lemma HeaderMeaning(l: string)
    requires l != "" && l[0] == '[' && Stripped(l + "\n") == l && SkipWs(l) == l && IsResolved(l)
    ensures MeaningOf(l + "\n") == Header(true)
  {
    hide IsResolved, Stripped, SkipWs, ParseKv;
  }
}
