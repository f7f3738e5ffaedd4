/** What `compress_text` and `decompress_text` compute, as functions of the text still to be read. */
module CompressSpec {
  import opened Wrappers
  import opened Chars
  import opened CompressTable
  import opened Decimals

  const MAGIC := "TK:P"
  const MAX_DICT_WORDS: nat := 256
  const MAX_WORD_LEN: nat := 128

  // ----- characters -----

  predicate IsSpace(c: char) { c == ' ' || '\t' <= c <= '\r' }

  /** The character sets that the scanning loops run over. */
  datatype Class = HolderC | SpaceC | AlnumC | DigitC | SolidC

  predicate In(c: char, cls: Class) {
    match cls
    case HolderC => IsUpper(c) || IsDigit(c) || c == '_'
    case SpaceC => IsSpace(c)
    case AlnumC => IsLetter(c) || IsDigit(c)
    case DigitC => IsDigit(c)
    case SolidC => !IsSpace(c)
  }

  /** The end of the longest run of `cls` characters from `i`. */
  function Run(s: string, i: nat, cls: Class): (e: nat)
    requires i <= |s|
    ensures i <= e <= |s|
    ensures forall k | i <= k < e :: In(s[k], cls)
    ensures e < |s| ==> !In(s[e], cls)
    decreases |s| - i
  {
    if i < |s| && In(s[i], cls) then Run(s, i + 1, cls) else i
  }

  function ToLower(c: char): char {
    if IsUpper(c) then c + ('a' - 'A') else c
  }

  function Lower(w: string): (r: string)
    ensures |r| == |w| && forall i | 0 <= i < |w| :: r[i] == ToLower(w[i])
  {
    seq(|w|, i requires 0 <= i < |w| => ToLower(w[i]))
  }

  // ----- placeholders -----

  /** `is_placeholder_start` at the start of `s` */
  predicate StartsHolder(s: string) {
    && |s| >= 2 && s[0] == '$' && IsUpper(s[1])
    && Run(s, 2, HolderC) != 2 && IsDigit(s[Run(s, 2, HolderC) - 1])
  }

  // ----- table and dictionary -----

  function FindWord(w: string, i: nat): (r: Option<nat>)
    requires i <= SIZE
    ensures r.Some? ==> i <= r.value < SIZE && RowAt(r.value).word == w
    ensures r.None? ==> forall j | i <= j < SIZE :: RowAt(j).word != w
    decreases SIZE - i
  {
    if i == SIZE then None else if RowAt(i).word == w then Some(i) else FindWord(w, i + 1)
  }

  /** `abbr_for_word`: the row of a word, letter case aside */
  function AbbrFor(w: string): (r: Option<nat>)
    ensures r.Some? ==> r.value < SIZE
  {
    if |w| == 0 || |w| > MAX_WORD_LEN then None else FindWord(Lower(w), 0)
  }

  function FindAbbr(a: string, i: nat): (r: Option<nat>)
    requires i <= SIZE
    ensures r.Some? ==> i <= r.value < SIZE && RowAt(r.value).abbr == a
    ensures r.None? ==> forall j | i <= j < SIZE :: RowAt(j).abbr != a
    decreases SIZE - i
  {
    if i == SIZE then None else if RowAt(i).abbr == a then Some(i) else FindAbbr(a, i + 1)
  }

  /** The part of a word that the dictionary keeps. */
  function Kept(w: string): string { if |w| < MAX_WORD_LEN then w else w[..MAX_WORD_LEN] }

  function Learn(dict: seq<string>, w: string): seq<string> {
    if |dict| < MAX_DICT_WORDS then dict + [Kept(w)] else dict
  }

  /** The first entry equal to `w`, letter case aside. */
  function Lookup(dict: seq<string>, w: string, i: nat): (r: Option<nat>)
    requires i <= |dict|
    ensures r.Some? ==> i <= r.value < |dict| && Lower(dict[r.value]) == Lower(w)
    ensures r.None? ==> forall j | i <= j < |dict| :: Lower(dict[j]) != Lower(w)
    decreases |dict| - i
  {
    if i == |dict| then None else if Lower(dict[i]) == Lower(w) then Some(i) else Lookup(dict, w, i + 1)
  }

  /** The entry a word refers back to; words of fewer than four letters do not. */
  function Reference(dict: seq<string>, w: string): (r: Option<nat>)
    ensures r.Some? ==> r.value < |dict| && Lower(dict[r.value]) == Lower(Kept(w)) && |Kept(w)| >= 4
  {
    if |Kept(w)| >= 4 then Lookup(dict, Kept(w), 0) else None
  }

  // ----- compression -----

  /** What stands at the start of a text. */
  datatype Atom = Holder | Gap | Term | Mark

  function AtomOf(s: string): Atom
    requires s != ""
  {
    if StartsHolder(s) then Holder
    else if IsSpace(s[0]) then Gap
    else if IsLetter(s[0]) then Term
    else Mark
  }

  /** Its length. */
  function Extent(s: string): (n: nat)
    requires s != ""
    ensures 0 < n <= |s|
  {
    match AtomOf(s)
    case Holder => Run(s, 1, HolderC)
    case Gap => Run(s, 0, SpaceC)
    case Term => Run(s, 0, AlnumC)
    case Mark => 1
  }

  /** The character a run of white space becomes. */
  function Collapsed(g: string): char
    requires g != ""
  {
    if '\n' in g then '\n' else g[0]
  }

  /** A word in the code, and the dictionary behind it. */
  function CodedWord(w: string, dict: seq<string>): string {
    if AbbrFor(w).Some? then RowAt(AbbrFor(w).value).abbr
    else if Reference(dict, w).Some? then "@R" + Decimal(Reference(dict, w).value + 1)
    else w
  }

  function GrownWord(w: string, dict: seq<string>): seq<string> {
    if AbbrFor(w).None? && Reference(dict, w).None? then Learn(dict, w) else dict
  }

  function Coded(s: string, dict: seq<string>): string
    requires s != ""
  {
    var t := s[..Extent(s)];
    match AtomOf(s)
    case Gap => [Collapsed(t)]
    case Term => CodedWord(t, dict)
    case _ => t
  }

  /** The dictionary behind the first atom. */
  function Grown(s: string, dict: seq<string>): seq<string>
    requires s != ""
  {
    if AtomOf(s).Term? then GrownWord(s[..Extent(s)], dict) else dict
  }

  function Comp(s: string, dict: seq<string>): string
    decreases |s|
  {
    if s == "" then "" else Coded(s, dict) + Comp(s[Extent(s)..], Grown(s, dict))
  }

  /** `compress_text` */
  function Compressed(s: string): string {
    if s == "" then "" else MAGIC + Comp(s, [])
  }

  // ----- decompression -----

  /** What the decoder does at one position: how far it reads, what it writes (nothing for a reference
      without an entry), and the word it learns. */
  datatype Unit = Unit(n: nat, text: Option<string>, word: Option<string>)

  function UnitOf(c: string, dict: seq<string>): (u: Unit)
    requires c != ""
    ensures 0 < u.n <= |c|
  {
    if StartsHolder(c) then var n := Run(c, 1, HolderC); Unit(n, Some(c[..n]), None)
    else if c[0] == '@' && |c| > 1 && c[1] == 'R' then
      var n := Run(c, 2, DigitC);
      var k := Value(c[2..n]);
      Unit(n, if 1 <= k <= |dict| then Some(dict[k - 1]) else None, None)
    else if c[0] == '~' then
      var n := Run(c, 0, SolidC);
      Unit(n, Some(Expanded(c[..n])), None)
    else if IsSpace(c[0]) then Unit(1, Some(c[..1]), None)
    else if IsLetter(c[0]) then var n := Run(c, 0, AlnumC); Unit(n, Some(c[..n]), Some(c[..n]))
    else Unit(1, Some(c[..1]), None)
  }

  /** A tilde sequence: its word, or itself when the table does not have it. */
  function Expanded(a: string): string {
    if |a| < 16 && FindAbbr(a, 0).Some? then RowAt(FindAbbr(a, 0).value).word else a
  }

  function Decomp(c: string, dict: seq<string>, out: string, cap: nat): string
    decreases |c|
  {
    if c == "" then out
    else
      var u := UnitOf(c, dict);
      match u.text
      case None => Decomp(c[u.n..], dict, out, cap)
      case Some(t) =>
        if |out| + |t| + 1 > cap then out
        else Decomp(c[u.n..], if u.word.Some? then Learn(dict, u.word.value) else dict, out + t, cap)
  }

  /** `decompress_text` */
  function Decompressed(c: string, cap: nat): string {
    if c == "" then ""
    else if |c| < |MAGIC| || c[..|MAGIC|] != MAGIC then
      if cap == 0 then "" else if |c| + 1 <= cap then c else c[..cap - 1]
    else Decomp(c[|MAGIC|..], [], "", cap)
  }
}
