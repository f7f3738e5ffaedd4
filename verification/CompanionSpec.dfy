/** The frontmatter of companion files: what `emit_frontmatter` writes and what its reader finds. */
module CompanionSpec {
  import opened Wrappers

  const PATH_BUF: nat := 280
  const HASH_BUF: nat := 128

  const FILE_KEY := "source_file"
  const HASH_KEY := "source_hash"

  // ----- writing -----

  function HexDigit(n: nat): char
    requires n < 16
  {
    if n < 10 then '0' + n as char else 'a' + (n - 10) as char
  }

  function HexByte(b: bv8): (r: string)
    ensures |r| == 2
  {
    var n := b as nat;
    [HexDigit(n / 16), HexDigit(n % 16)]
  }

  /** `%02x` for every byte */
  function Hex(bytes: seq<bv8>): (r: string)
    ensures |r| == 2 * |bytes|
  {
    if bytes == [] then "" else HexByte(bytes[0]) + Hex(bytes[1..])
  }

  /** The text of a quoted field. */
  function Field(key: string, value: string): string {
    key + ": \"" + value + "\"\n"
  }

  function Frontmatter(name: string, hash: string, time: string): string {
    "---\n" + (Field(FILE_KEY, name) + (Field(HASH_KEY, hash) +
    (Field("compiler_version", "0.3.0") + (Field("generated_at", time) + (Field("format_version", "1.0") + "---\n")))))
  }

  // ----- reading -----

  predicate IsBlank(c: char) { c == ' ' || c == '\t' }

  predicate IsSpace(c: char) { c == ' ' || c == '\t' || c == '\r' || c == '\n' }

  function DropBlanks(t: string): (r: string)
    ensures |r| <= |t| && (r != "" ==> !IsBlank(r[0]))
  {
    if t != "" && IsBlank(t[0]) then DropBlanks(t[1..]) else t
  }

  function DropSpaces(t: string): (r: string)
    ensures |r| <= |t|
  {
    if t != "" && IsSpace(t[0]) then DropSpaces(t[1..]) else t
  }

  /** Behind the end of the line. */
  function NextLine(t: string): (r: string)
    ensures |r| <= |t| && (t != "" ==> |r| < |t|)
  {
    if t == "" then "" else if t[0] == '\n' then t[1..] else NextLine(t[1..])
  }

  /** The value up to the quote, the end of the line or the end of the buffer. */
  function Taken(t: string, quote: Option<char>, room: nat): string {
    if t == "" || t[0] == '\n' || t[0] == '\r' || room == 0 || (quote.Some? && t[0] == quote.value) then ""
    else [t[0]] + Taken(t[1..], quote, room - 1)
  }

  function ValueOf(t: string, size: nat): string
    requires size > 0
  {
    var u := DropBlanks(t);
    if u != "" && (u[0] == '"' || u[0] == '\'') then Taken(u[1..], Some(u[0]), size - 1) else Taken(u, None, size - 1)
  }

  predicate Dashes(t: string) { |t| >= 3 && t[..3] == "---" }

  predicate HasKey(t: string, key: string) { |t| > |key| && t[..|key|] == key && t[|key|] == ':' }

  /** The first line with the key, up to the closing dashes. */
  function ScanLines(t: string, key: string, size: nat): Option<string>
    requires size > 0
    decreases |t|
  {
    if t == "" || Dashes(t) then None
    else
      var u := DropBlanks(t);
      if HasKey(u, key) then Some(ValueOf(u[|key| + 1..], size))
      else if u == "" then None
      else ScanLines(NextLine(u), key, size)
  }

  /** `extract_frontmatter_field` */
  function Extract(t: string, key: string, size: nat): Option<string>
    requires size > 0
  {
    var u := DropSpaces(t);
    if Dashes(u) then ScanLines(NextLine(u[3..]), key, size) else None
  }

  // ----- round trip -----

  predicate Ends(c: char) { c == '"' || c == '\n' || c == '\r' }

  /** A value that the reader can give back from a quoted field and a buffer of `size`. */
  predicate Fits(v: string, size: nat) {
    |v| < size && forall i | 0 <= i < |v| :: !Ends(v[i])
  }

  /** Reading up to the quote gives the value exactly when it fits. */
  lemma {:induction false} TakenFits(v: string, rest: string, room: nat)
    ensures Taken(v + "\"" + rest, Some('"'), room) == v <==> Fits(v, room + 1)
  {
    var t := v + "\"" + rest;
    if v == "" {
      assert t[0] == '"';
    } else {
      assert t[0] == v[0];
      assert t[1..] == v[1..] + "\"" + rest;
      if !Ends(v[0]) && room > 0 {
        TakenFits(v[1..], rest, room - 1);
        FitsTail(v, room);
        assert v == [v[0]] + v[1..];
      }
    }
  }

  lemma FitsTail(v: string, room: nat)
    requires v != "" && !Ends(v[0]) && room > 0
    ensures Fits(v, room + 1) <==> Fits(v[1..], room)
  {
    if Fits(v[1..], room) {
      forall i | 0 <= i < |v| ensures !Ends(v[i]) { if i > 0 { assert v[i] == v[1..][i - 1]; } }
    }
  }

  lemma {:induction false} NextLineOver(l: string, rest: string)
    requires forall i | 0 <= i < |l| :: l[i] != '\n'
    ensures NextLine(l + "\n" + rest) == rest
  {
    var t := l + "\n" + rest;
    if l == "" {
      assert t[1..] == rest;
    } else {
      assert t[0] == l[0] && t[1..] == l[1..] + "\n" + rest;
      NextLineOver(l[1..], rest);
    }
  }

  /** A key as the writer uses them. */
  predicate IsKey(key: string) {
    key != "" && !IsBlank(key[0]) && key[0] != '-' && forall i | 0 <= i < |key| :: key[i] != '\n'
  }

  lemma FieldHead(key: string, v: string, rest: string)
    requires IsKey(key)
    ensures var t := Field(key, v) + rest;
            && t != "" && !Dashes(t) && DropBlanks(t) == t && HasKey(t, key)
            && t[|key| + 1..] == " \"" + (v + "\"" + ("\n" + rest))
  {
    var t := Field(key, v) + rest;
    assert t[0] == key[0];
    assert t[..|key|] == key && t[|key|] == ':';
    assert t[|key| + 1..] == " \"" + (v + "\"" + ("\n" + rest));
  }

  lemma QuotedValue(x: string, size: nat)
    requires size > 0
    ensures ValueOf(" \"" + x, size) == Taken(x, Some('"'), size - 1)
  {
    var t := " \"" + x;
    assert t[1..] == "\"" + x;
    assert DropBlanks(t[1..]) == t[1..];
    assert t[1..][1..] == x;
  }

  /** The field with the key is found and its value read. */
  lemma FieldFound(key: string, v: string, rest: string, size: nat)
    requires IsKey(key) && size > 0
    ensures ScanLines(Field(key, v) + rest, key, size) == Some(Taken(v + "\"" + ("\n" + rest), Some('"'), size - 1))
  {
    FieldHead(key, v, rest);
    QuotedValue(v + "\"" + ("\n" + rest), size);
    hide Field, Taken, ValueOf, Dashes, HasKey;
  }

  /** A field with another key of the same length is passed over. */
  lemma FieldPassed(key: string, v: string, rest: string, other: string, size: nat)
    requires IsKey(key) && size > 0 && |other| == |key| && other != key && forall i | 0 <= i < |v| :: v[i] != '\n'
    ensures ScanLines(Field(key, v) + rest, other, size) == ScanLines(rest, other, size)
  {
    var t := Field(key, v) + rest;
    FieldHead(key, v, rest);
    assert !HasKey(t, other);
    var l := key + ": \"" + v + "\"";
    assert t == l + "\n" + rest;
    forall i | 0 <= i < |l| ensures l[i] != '\n' {
      assert i < |key| ==> l[i] == key[i];
      assert |key| + 3 <= i < |key| + 3 + |v| ==> l[i] == v[i - |key| - 3];
    }
    NextLineOver(l, rest);
    hide Field, Dashes, HasKey, NextLine;
  }

  lemma OpenFrontmatter(x: string, key: string, size: nat)
    requires size > 0
    ensures Extract("---\n" + x, key, size) == ScanLines(x, key, size)
  {
    var t := "---\n" + x;
    assert DropSpaces(t) == t;
    assert t[..3] == "---";
    assert t[3..] == "" + "\n" + x;
    NextLineOver("", x);
  }

  /** What follows the first field. */
  function AfterName(hash: string, time: string): string {
    Field(HASH_KEY, hash) +
    (Field("compiler_version", "0.3.0") + (Field("generated_at", time) + (Field("format_version", "1.0") + "---\n")))
  }

  /** What follows the second. */
  function AfterHash(time: string): string {
    Field("compiler_version", "0.3.0") + (Field("generated_at", time) + (Field("format_version", "1.0") + "---\n"))
  }

  lemma KeysAreKeys()
    ensures IsKey(FILE_KEY) && IsKey(HASH_KEY) && |FILE_KEY| == |HASH_KEY| && FILE_KEY != HASH_KEY
  {
    assert FILE_KEY[7] != HASH_KEY[7];
  }

  /** Main theorem on the name, whatever follows the frontmatter: `source_file` reads back as written
      exactly when the base name has no quote or line break and fits the reader's buffer. */
  lemma NameReadsBack(name: string, hash: string, time: string, rest: string)
    ensures Extract(Frontmatter(name, hash, time) + rest, FILE_KEY, PATH_BUF) == Some(name) <==> Fits(name, PATH_BUF)
  {
    KeysAreKeys();
    hide Field, Extract, ScanLines, Taken, Fits;
    var x := AfterName(hash, time) + rest;
    assert Frontmatter(name, hash, time) + rest == "---\n" + (Field(FILE_KEY, name) + x);
    OpenFrontmatter(Field(FILE_KEY, name) + x, FILE_KEY, PATH_BUF);
    FieldFound(FILE_KEY, name, x, PATH_BUF);
    TakenFits(name, "\n" + x, PATH_BUF - 1);
  }

  /** Main theorem on the hash: behind a base name without line breaks it reads back as written. */
  lemma HashReadsBack(name: string, hash: string, time: string, rest: string)
    requires (forall i | 0 <= i < |name| :: name[i] != '\n') && Fits(hash, HASH_BUF)
    ensures Extract(Frontmatter(name, hash, time) + rest, HASH_KEY, HASH_BUF) == Some(hash)
  {
    KeysAreKeys();
    hide Field, Extract, ScanLines, Taken, Fits;
    var x := AfterHash(time) + rest;
    var y := Field(HASH_KEY, hash) + x;
    assert AfterName(hash, time) + rest == y;
    assert Frontmatter(name, hash, time) + rest == "---\n" + (Field(FILE_KEY, name) + y);
    OpenFrontmatter(Field(FILE_KEY, name) + y, HASH_KEY, HASH_BUF);
    FieldPassed(FILE_KEY, name, y, HASH_KEY, HASH_BUF);
    FieldFound(HASH_KEY, hash, x, HASH_BUF);
    TakenFits(hash, "\n" + x, HASH_BUF - 1);
  }

  // ----- hexadecimal digests -----

  function Nibble(c: char): nat {
    if '0' <= c <= '9' then (c - '0') as nat else if 'a' <= c <= 'f' then (c - 'a') as nat + 10 else 0
  }

  lemma HexDigitNibble(n: nat)
    requires n < 16
    ensures Nibble(HexDigit(n)) == n && !Ends(HexDigit(n))
  {
  }

  lemma ByteDigits(b: bv8)
    ensures Nibble(HexByte(b)[0]) * 16 + Nibble(HexByte(b)[1]) == b as nat
    ensures !Ends(HexByte(b)[0]) && !Ends(HexByte(b)[1])
  {
    var n := b as nat;
    HexDigitNibble(n / 16);
    HexDigitNibble(n % 16);
    hide HexDigit, Nibble;
  }

  lemma ByteInjective(a: bv8, b: bv8)
    requires HexByte(a) == HexByte(b)
    ensures a == b
  {
    ByteDigits(a);
    ByteDigits(b);
    hide HexByte, Nibble;
    assert (a as nat) as bv8 == (b as nat) as bv8;
  }

  /** Equal digests and only those have equal text. */
  lemma {:induction false} HexInjective(a: seq<bv8>, b: seq<bv8>)
    requires |a| == |b|
    ensures Hex(a) == Hex(b) <==> a == b
  {
    if a != [] && Hex(a) == Hex(b) {
      hide HexByte;
      assert Hex(a)[..2] == HexByte(a[0]) && Hex(b)[..2] == HexByte(b[0]);
      assert Hex(a)[2..] == Hex(a[1..]) && Hex(b)[2..] == Hex(b[1..]);
      hide Hex;
      ByteInjective(a[0], b[0]);
      HexInjective(a[1..], b[1..]);
      assert a == [a[0]] + a[1..] && b == [b[0]] + b[1..];
    }
  }

  lemma {:induction false} HexFits(a: seq<bv8>)
    ensures forall i | 0 <= i < |Hex(a)| :: !Ends(Hex(a)[i])
  {
    if a != [] {
      ByteDigits(a[0]);
      hide HexByte, Nibble;
      HexFits(a[1..]);
    }
  }
}
