/** The abbreviation table of `src/compress.c`. */
module CompressTable {
  import opened Chars

  const SIZE: nat := 44

  datatype Row = Row(word: string, abbr: string)

  /** Row `i` of the table. */
  function RowAt(i: nat): Row
    requires i < SIZE
  {
    match i
    case 0 => Row("the", "~t")
    case 1 => Row("and", "~a")
    case 2 => Row("that", "~th")
    case 3 => Row("this", "~ts")
    case 4 => Row("with", "~w")
    case 5 => Row("from", "~f")
    case 6 => Row("have", "~hv")
    case 7 => Row("they", "~ty")
    case 8 => Row("will", "~wl")
    case 9 => Row("been", "~bn")
    case 10 => Row("were", "~wr")
    case 11 => Row("your", "~yr")
    case 12 => Row("which", "~wh")
    case 13 => Row("their", "~tr")
    case 14 => Row("there", "~te")
    case 15 => Row("about", "~ab")
    case 16 => Row("would", "~wo")
    case 17 => Row("could", "~co")
    case 18 => Row("should", "~sh")
    case 19 => Row("please", "~pl")
    case 20 => Row("thank", "~tn")
    case 21 => Row("hello", "~hl")
    case 22 => Row("world", "~wrd")
    case 23 => Row("message", "~ms")
    case 24 => Row("address", "~ad")
    case 25 => Row("company", "~cp")
    case 26 => Row("subject", "~sb")
    case 27 => Row("request", "~rq")
    case 28 => Row("response", "~rs")
    case 29 => Row("following", "~fl")
    case 30 => Row("attached", "~at")
    case 31 => Row("regards", "~rg")
    case 32 => Row("sincerely", "~sc")
    case 33 => Row("customer", "~cu")
    case 34 => Row("account", "~ac")
    case 35 => Row("between", "~bt")
    case 36 => Row("because", "~bc")
    case 37 => Row("through", "~tg")
    case 38 => Row("important", "~im")
    case 39 => Row("received", "~rc")
    case 40 => Row("provided", "~pv")
    case 41 => Row("according", "~ag")
    case 42 => Row("therefore", "~tf")
    case _ => Row("however", "~hw")
  }

  predicate AllLower(s: string) { forall i | 0 <= i < |s| :: IsLower(s[i]) }

  /** The row of an abbreviation, from its letters. */
  function Slot(a: string): nat
    requires |a| >= 2
  {
    if |a| == 2 then SlotShort(a[1]) else SlotLong(a[1], a[2], |a| == 4)
  }

  function SlotShort(c: char): nat {
    if c == 't' then 0
    else if c == 'a' then 1
    else if c == 'w' then 4
    else if c == 'f' then 5
    else SIZE
  }

  function SlotLong(c: char, d: char, four: bool): nat {
    if c == 'a' then
      (if d == 'b' then 15 else if d == 'd' then 24 else if d == 't' then 30 else if d == 'c' then 34 else 41)
    else if c == 'b' then (if d == 'n' then 9 else if d == 't' then 35 else 36)
    else if c == 'c' then (if d == 'o' then 17 else if d == 'p' then 25 else 33)
    else if c == 'f' then 29
    else if c == 'h' then (if d == 'v' then 6 else if d == 'l' then 21 else 43)
    else if c == 'i' then 38
    else if c == 'm' then 23
    else if c == 'p' then (if d == 'l' then 19 else 40)
    else if c == 'r' then (if d == 'q' then 27 else if d == 's' then 28 else if d == 'g' then 31 else 39)
    else if c == 's' then (if d == 'h' then 18 else if d == 'b' then 26 else 32)
    else if c == 't' then
      (if d == 'h' then 2 else if d == 's' then 3 else if d == 'y' then 7 else if d == 'r' then 13
       else if d == 'e' then 14 else if d == 'n' then 20 else if d == 'g' then 37 else 42)
    else if c == 'w' then
      (if d == 'r' && four then 22 else if d == 'l' then 8 else if d == 'r' then 10 else if d == 'h' then 12 else 16)
    else if c == 'y' then 11
    else SIZE
  }

  lemma WordForm0(i: nat)
    requires 0 <= i < 6
    ensures AllLower(RowAt(i).word) && 3 <= |RowAt(i).word| <= 9
  {
  }

  lemma WordForm1(i: nat)
    requires 6 <= i < 12
    ensures AllLower(RowAt(i).word) && 3 <= |RowAt(i).word| <= 9
  {
  }

  lemma WordForm2(i: nat)
    requires 12 <= i < 18
    ensures AllLower(RowAt(i).word) && 3 <= |RowAt(i).word| <= 9
  {
  }

  lemma WordForm3(i: nat)
    requires 18 <= i < 23
    ensures AllLower(RowAt(i).word) && 3 <= |RowAt(i).word| <= 9
  {
  }

  lemma WordForm4(i: nat)
    requires 23 <= i < 28
    ensures AllLower(RowAt(i).word) && 3 <= |RowAt(i).word| <= 9
  {
  }

  lemma WordForm5(i: nat)
    requires 28 <= i < 33
    ensures AllLower(RowAt(i).word) && 3 <= |RowAt(i).word| <= 9
  {
  }

  lemma WordForm6(i: nat)
    requires 33 <= i < 38
    ensures AllLower(RowAt(i).word) && 3 <= |RowAt(i).word| <= 9
  {
  }

  lemma WordForm7(i: nat)
    requires 38 <= i < 44
    ensures AllLower(RowAt(i).word) && 3 <= |RowAt(i).word| <= 9
  {
  }

  lemma WordForm(i: nat)
    requires i < SIZE
    ensures AllLower(RowAt(i).word) && 3 <= |RowAt(i).word| <= 9
  {
    hide RowAt, AllLower, Slot;
    if i < 6 { WordForm0(i); }
    else if i < 12 { WordForm1(i); }
    else if i < 18 { WordForm2(i); }
    else if i < 23 { WordForm3(i); }
    else if i < 28 { WordForm4(i); }
    else if i < 33 { WordForm5(i); }
    else if i < 38 { WordForm6(i); }
    else { WordForm7(i); }
  }

  lemma AbbrForm0(i: nat)
    requires 0 <= i < 22
    ensures var a := RowAt(i).abbr;
            2 <= |a| <= 4 && |a| < |RowAt(i).word| && a[0] == '~' && AllLower(a[1..])
  {
  }

  lemma AbbrForm1(i: nat)
    requires 22 <= i < 44
    ensures var a := RowAt(i).abbr;
            2 <= |a| <= 4 && |a| < |RowAt(i).word| && a[0] == '~' && AllLower(a[1..])
  {
  }

  lemma AbbrForm(i: nat)
    requires i < SIZE
    ensures var a := RowAt(i).abbr;
            2 <= |a| <= 4 && |a| < |RowAt(i).word| && a[0] == '~' && AllLower(a[1..])
  {
    hide RowAt, AllLower, Slot;
    if i < 22 { AbbrForm0(i); } else { AbbrForm1(i); }
  }

  lemma AbbrSlot0(i: nat)
    requires 0 <= i < 22
    ensures |RowAt(i).abbr| >= 2 && Slot(RowAt(i).abbr) == i
  {
  }

  lemma AbbrSlot1(i: nat)
    requires 22 <= i < 44
    ensures |RowAt(i).abbr| >= 2 && Slot(RowAt(i).abbr) == i
  {
  }

  lemma AbbrSlot(i: nat)
    requires i < SIZE
    ensures |RowAt(i).abbr| >= 2 && Slot(RowAt(i).abbr) == i
  {
    hide RowAt, AllLower, Slot;
    if i < 22 { AbbrSlot0(i); } else { AbbrSlot1(i); }
  }

  /** Every row has a lower-case word, and a shorter tilde abbreviation of its own. */
  lemma RowForm(i: nat)
    requires i < SIZE
    ensures var r := RowAt(i);
            && AllLower(r.word) && 3 <= |r.word| <= 9
            && 2 <= |r.abbr| <= 4 && r.abbr[0] == '~' && AllLower(r.abbr[1..]) && |r.abbr| < |r.word|
  {
    hide RowAt, AllLower;
    WordForm(i);
    AbbrForm(i);
  }

  /** No two rows share an abbreviation. */
  lemma AbbrUnique(i: nat, j: nat)
    requires i < SIZE && j < SIZE && RowAt(i).abbr == RowAt(j).abbr
    ensures i == j
  {
    AbbrSlot(i);
    AbbrSlot(j);
    hide RowAt, Slot;
  }

  // ----- where the abbreviations come from -----

  /** A tilde, the first letter of the word, and up to two of its other letters. */
  predicate Abbreviates(a: string, w: string) {
    && 2 <= |a| <= 4 && a[0] == '~' && w != "" && a[1] == w[0]
    && (|a| > 2 ==> HasLetter(w, a[2])) && (|a| > 3 ==> HasLetter(w, a[3]))
  }

  /** A letter of the word behind the first, among the first nine. */
  predicate HasLetter(w: string, c: char) {
    || (|w| > 1 && w[1] == c) || (|w| > 2 && w[2] == c) || (|w| > 3 && w[3] == c) || (|w| > 4 && w[4] == c)
    || (|w| > 5 && w[5] == c) || (|w| > 6 && w[6] == c) || (|w| > 7 && w[7] == c) || (|w| > 8 && w[8] == c)
  }

  lemma Letters0(i: nat)
    requires 0 <= i < 6
    ensures Abbreviates(RowAt(i).abbr, RowAt(i).word)
  {}

  lemma Letters1(i: nat)
    requires 6 <= i < 12
    ensures Abbreviates(RowAt(i).abbr, RowAt(i).word)
  {}

  lemma Letters2(i: nat)
    requires 12 <= i < 18
    ensures Abbreviates(RowAt(i).abbr, RowAt(i).word)
  {}

  lemma Letters3(i: nat)
    requires 18 <= i < 23
    ensures Abbreviates(RowAt(i).abbr, RowAt(i).word)
  {}

  lemma Letters4(i: nat)
    requires 23 <= i < 28
    ensures Abbreviates(RowAt(i).abbr, RowAt(i).word)
  {}

  lemma Letters5(i: nat)
    requires 28 <= i < 33
    ensures Abbreviates(RowAt(i).abbr, RowAt(i).word)
  {}

  lemma Letters6(i: nat)
    requires 33 <= i < 38
    ensures Abbreviates(RowAt(i).abbr, RowAt(i).word)
  {}

  lemma Letters7(i: nat)
    requires 38 <= i < 44
    ensures Abbreviates(RowAt(i).abbr, RowAt(i).word)
  {}

  /** Every abbreviation is made of letters of its word. */
  lemma AbbrLetters(i: nat)
    requires i < SIZE
    ensures Abbreviates(RowAt(i).abbr, RowAt(i).word)
  {
    hide RowAt, Abbreviates;
    if i < 6 { Letters0(i); }
    else if i < 12 { Letters1(i); }
    else if i < 18 { Letters2(i); }
    else if i < 23 { Letters3(i); }
    else if i < 28 { Letters4(i); }
    else if i < 33 { Letters5(i); }
    else if i < 38 { Letters6(i); }
    else { Letters7(i); }
  }
}
