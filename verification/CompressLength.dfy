/**
 How long the code of a text is.  `src/compress.h` asks the caller for `len + 16` bytes; the code of some
 texts is longer, and this module says exactly which.
 */
module CompressLength {
  import opened Wrappers
  import opened Chars
  import opened CompressTable
  import opened Decimals
  import opened CompressSpec

  /** The first atom is a word of four letters and its entry has a number of three digits: the only atom
      whose code is longer than itself. */
  predicate LongReference(s: string, dict: seq<string>)
    requires s != ""
  {
    var t := s[..Extent(s)];
    AtomOf(s).Term? && |t| == 4 && AbbrFor(t).None? && Reference(dict, t).Some? && Reference(dict, t).value + 1 >= 100
  }

  function Longer(s: string, dict: seq<string>): nat
    requires s != ""
  {
    if LongReference(s, dict) then 1 else 0
  }

  /** The digits of an entry number. */
  function Places(k: nat): nat { if k < 10 then 1 else if k < 100 then 2 else 3 }

  /** What is saved at the first atom: of white space all but one character, of a table word what its
      abbreviation is shorter, of a repeated word all but the sign, the `R` and the digits. */
  function Shorter(s: string, dict: seq<string>): nat
    requires s != ""
  {
    var n := Extent(s);
    var t := s[..n];
    match AtomOf(s)
    case Gap => n - 1
    case Term =>
      if AbbrFor(t).Some? then
        (var r := RowAt(AbbrFor(t).value); if |r.word| > |r.abbr| then |r.word| - |r.abbr| else 0)
      else if Reference(dict, t).Some? && n > 2 + Places(Reference(dict, t).value + 1) then
        n - 2 - Places(Reference(dict, t).value + 1)
      else 0
    case _ => 0
  }

  /** The long references of a text. */
  function Longs(s: string, dict: seq<string>): nat
    decreases |s|
  {
    if s == "" then 0 else Longer(s, dict) + Longs(s[Extent(s)..], Grown(s, dict))
  }

  /** What the other atoms of a text save. */
  function Saved(s: string, dict: seq<string>): nat
    decreases |s|
  {
    if s == "" then 0 else Shorter(s, dict) + Saved(s[Extent(s)..], Grown(s, dict))
  }

  /** The dictionary behind the text. */
  function Final(s: string, dict: seq<string>): seq<string>
    decreases |s|
  {
    if s == "" then dict else Final(s[Extent(s)..], Grown(s, dict))
  }

  lemma DecimalDigits(n: nat)
    requires n < 1000
    ensures |Decimal(n)| == Places(n)
  {
    if n >= 100 {
      assert |Decimal(n / 10 / 10)| == 1;
      assert |Decimal(n / 10)| == 2;
    } else if n >= 10 {
      assert |Decimal(n / 10)| == 1;
    }
  }

  lemma AtomGrowth(s: string, dict: seq<string>)
    requires s != "" && |dict| <= MAX_DICT_WORDS
    ensures |Coded(s, dict)| + Shorter(s, dict) == Extent(s) + Longer(s, dict) && |Grown(s, dict)| <= MAX_DICT_WORDS
  {
    var t := s[..Extent(s)];
    hide StartsHolder, Run;
    if AtomOf(s).Term? && AbbrFor(t).Some? {
      RowForm(AbbrFor(t).value);
      assert |Lower(t)| == |t|;
      hide RowAt;
    } else if AtomOf(s).Term? && Reference(dict, t).Some? {
      DecimalDigits(Reference(dict, t).value + 1);
      hide Decimal;
    }
  }

  lemma CompParts(s: string, dict: seq<string>)
    requires s != ""
    ensures |Comp(s, dict)| == |Coded(s, dict)| + |Comp(s[Extent(s)..], Grown(s, dict))|
  {
    hide Coded, Grown, Extent;
  }

  /** Exact growth: the long references against what the other atoms save. */
  lemma {:induction false} Growth(s: string, dict: seq<string>)
    requires |dict| <= MAX_DICT_WORDS
    ensures |Comp(s, dict)| + Saved(s, dict) == |s| + Longs(s, dict)
    decreases |s|
  {
    if s != "" {
      hide Coded, Grown, Extent, Longer, Shorter, Comp;
      CompParts(s, dict);
      AtomGrowth(s, dict);
      Growth(s[Extent(s)..], Grown(s, dict));
    }
  }

  /** The documented buffer holds the code and its NUL if and only if the text has fewer than twelve long
      references more than its other atoms save bytes. */
  lemma FitsIff(s: string)
    ensures |Compressed(s)| < |s| + 16 <==> Longs(s, []) < Saved(s, []) + 12
  {
    hide Comp, Longs, Saved;
    Growth(s, []);
    if s == "" { NothingLong([]); }
  }

  lemma NothingLong(dict: seq<string>)
    ensures Longs("", dict) == 0 && Saved("", dict) == 0
  {}

  /** Four bytes of prefix and a quarter of the text more are always enough room. */
  lemma CompressedLength(s: string)
    ensures |Compressed(s)| <= 4 + |s| + |s| / 4
  {
    hide Comp, Longs, Saved;
    Growth(s, []);
    LongsBound(s, []);
  }

  lemma {:induction false} LongsBound(s: string, dict: seq<string>)
    ensures 4 * Longs(s, dict) <= |s|
    decreases |s|
  {
    if s != "" {
      assert 4 * Longer(s, dict) <= Extent(s) by { hide Extent, Grown, AtomOf, AbbrFor, Reference; }
      hide Extent, Grown, Longer;
      LongsBound(s[Extent(s)..], Grown(s, dict));
    }
  }

  // ----- small dictionaries -----

  lemma GrownLonger(s: string, dict: seq<string>)
    requires s != ""
    ensures |Grown(s, dict)| >= |dict|
  {
    hide Extent, AtomOf, AbbrFor, Reference;
  }

  lemma {:induction false} FinalLonger(s: string, dict: seq<string>)
    ensures |Final(s, dict)| >= |dict|
    decreases |s|
  {
    hide Extent, Grown;
    if s != "" {
      GrownLonger(s, dict);
      FinalLonger(s[Extent(s)..], Grown(s, dict));
    }
  }

  lemma {:induction false} NoLongs(s: string, dict: seq<string>)
    requires |Final(s, dict)| < 100
    ensures Longs(s, dict) == 0
    decreases |s|
  {
    if s != "" {
      FinalLonger(s, dict);
      assert Longer(s, dict) == 0 by { hide Extent, Final, Grown, AtomOf, AbbrFor; }
      hide Extent, Grown, Longer;
      NoLongs(s[Extent(s)..], Grown(s, dict));
    }
  }

  /** A text that puts fewer than a hundred words into the dictionary needs four bytes more at most. */
  lemma FewWords(s: string)
    requires |Final(s, [])| < 100
    ensures |Compressed(s)| <= |s| + 4
  {
    hide Comp, Longs, Saved, Final;
    Growth(s, []);
    NoLongs(s, []);
  }

  // ----- texts that outgrow the documented buffer -----

  /** `z100`, `z101`, ...: a hundred different words of four letters. */
  function Word(i: nat): string
    requires i < 100
  {
    "z" + Decimal(100 + i)
  }

  lemma WordForm(i: nat)
    requires i < 100
    ensures |Word(i)| == 4 && Word(i)[0] == 'z' && forall k | 1 <= k < 4 :: IsDigit(Word(i)[k])
  {
    var d := Decimal(100 + i);
    DecimalDigits(100 + i);
    DecimalValue(100 + i);
    hide Decimal, Value;
    assert forall k | 1 <= k < 4 :: Word(i)[k] == d[k - 1];
  }

  /** The words are in lower case and differ from each other. */
  lemma WordLower(i: nat)
    requires i < 100
    ensures Lower(Word(i)) == Word(i) && Kept(Word(i)) == Word(i)
  {
    WordForm(i);
    hide Word;
  }

  lemma WordsDiffer(i: nat, j: nat)
    requires i < 100 && j < 100 && Word(i) == Word(j)
    ensures i == j
  {
    DecimalValue(100 + i);
    DecimalValue(100 + j);
    assert Word(i)[1..] == Decimal(100 + i) && Word(j)[1..] == Decimal(100 + j);
    hide Decimal, Value;
  }

  /** A word with a digit is not in the table. */
  lemma WordNew(i: nat)
    requires i < 100
    ensures AbbrFor(Word(i)) == None
  {
    WordForm(i);
    WordLower(i);
    hide Word;
    var w := Word(i);
    forall j | 0 <= j < SIZE ensures RowAt(j).word != w {
      RowForm(j);
      hide RowAt;
      assert !AllLower(w) by { assert IsDigit(w[1]); }
    }
    hide RowAt;
  }

  function Words(n: nat): seq<string>
    requires n <= 100
  {
    seq(n, i requires 0 <= i < n => Word(i))
  }

  /** The first occurrence of a word is new, the last word of a hundred has the number 100. */
  lemma FirstTime(i: nat)
    requires i < 100
    ensures Reference(Words(i), Word(i)) == None && Learn(Words(i), Word(i)) == Words(i + 1)
  {
    WordLower(i);
    hide Word, Kept, Lower;
    forall j | 0 <= j < i ensures Lower(Words(i)[j]) != Lower(Word(i)) {
      WordLower(j);
      if Word(j) == Word(i) { WordsDiffer(j, i); }
    }
  }

  lemma Again()
    ensures Reference(Words(100), Word(99)) == Some(99)
  {
    WordLower(99);
    WordForm(99);
    hide Word, Kept, Lower;
    var r := Lookup(Words(100), Word(99), 0);
    assert Words(100)[99] == Word(99);
    if r.Some? {
      WordLower(r.value);
      WordsDiffer(r.value, 99);
    }
  }

  /** A word and a blank in front of a text. */
  function Before(i: nat, rest: string): string
    requires i < 100
  {
    Word(i) + (" " + rest)
  }

  lemma WordAtom(i: nat, rest: string)
    requires i < 100
    ensures var s := Before(i, rest);
            s != "" && AtomOf(s) == Term && Extent(s) == 4 && s[..4] == Word(i) && s[4..] == " " + rest
  {
    var s := Before(i, rest);
    WordForm(i);
    hide Word;
    assert s[0] == 'z' && s[4] == ' ' && forall k | 1 <= k < 4 :: s[k] == Word(i)[k];
    var e := Run(s, 0, AlnumC);
    assert e == 4 by { hide Run; }
  }

  lemma BlankAtom(rest: string)
    requires rest == "" || rest[0] == 'z'
    ensures var s := " " + rest; s != "" && AtomOf(s) == Gap && Extent(s) == 1 && s[1..] == rest
  {
    var s := " " + rest;
    var e := Run(s, 0, SpaceC);
    if rest != "" { assert s[1] == 'z'; }
    assert e == 1 by { hide Run; }
  }

  lemma BlankStep(rest: string, dict: seq<string>)
    requires rest == "" || rest[0] == 'z'
    ensures Longs(" " + rest, dict) == Longs(rest, dict) && Saved(" " + rest, dict) == Saved(rest, dict)
  {
    var s := " " + rest;
    BlankAtom(rest);
    hide AtomOf, Extent;
    assert Grown(s, dict) == dict && Longer(s, dict) == 0 && Shorter(s, dict) == 0;
    hide Grown, Longer, Shorter, Coded;
  }

  /** A word that is new to the dictionary adds nothing to either side. */
  lemma NewStep(i: nat, rest: string)
    requires i < 100 && (rest == "" || rest[0] == 'z')
    ensures Longs(Before(i, rest), Words(i)) == Longs(rest, Words(i + 1))
    ensures Saved(Before(i, rest), Words(i)) == Saved(rest, Words(i + 1))
  {
    var s, dict, dict' := Before(i, rest), Words(i), Words(i + 1);
    WordAtom(i, rest);
    WordForm(i);
    WordNew(i);
    FirstTime(i);
    hide Word, AtomOf, Extent, AbbrFor, Reference, Learn, Words, Before;
    assert Grown(s, dict) == dict' && Longer(s, dict) == 0 && Shorter(s, dict) == 0;
    hide Grown, Longer, Shorter, Coded;
    BlankStep(rest, dict');
  }

  /** The hundredth word again is a long reference. */
  lemma AgainStep(rest: string)
    requires rest == "" || rest[0] == 'z'
    ensures Longs(Before(99, rest), Words(100)) == 1 + Longs(rest, Words(100))
    ensures Saved(Before(99, rest), Words(100)) == Saved(rest, Words(100))
  {
    var s, dict := Before(99, rest), Words(100);
    WordAtom(99, rest);
    WordForm(99);
    WordNew(99);
    Again();
    DecimalDigits(100);
    hide Word, AtomOf, Extent, AbbrFor, Reference, Learn, Words, Before, Decimal;
    assert Grown(s, dict) == dict && Longer(s, dict) == 1 && Shorter(s, dict) == 0;
    hide Grown, Longer, Shorter, Coded;
    BlankStep(rest, dict);
  }

  /** The words from `i` on, then the last of them `m` times more. */
  function Listing(i: nat, m: nat): (s: string)
    requires i <= 100
    decreases 100 - i, m
  {
    if i < 100 then Before(i, Listing(i + 1, m)) else if m > 0 then Before(99, Listing(100, m - 1)) else ""
  }

  lemma ListingHead(i: nat, m: nat)
    requires i <= 100
    ensures Listing(i, m) == "" || Listing(i, m)[0] == 'z'
  {
    if i < 100 { WordForm(i); } else { WordForm(99); }
    hide Word;
  }

  lemma {:induction false} ListingLength(i: nat, m: nat)
    requires i <= 100
    ensures Longs(Listing(i, m), Words(i)) == m && Saved(Listing(i, m), Words(i)) == 0
    decreases 100 - i, m
  {
    hide Longs, Saved, Before, Words;
    if i < 100 {
      ListingHead(i + 1, m);
      NewStep(i, Listing(i + 1, m));
      ListingLength(i + 1, m);
    } else if m > 0 {
      ListingHead(100, m - 1);
      AgainStep(Listing(100, m - 1));
      ListingLength(100, m - 1);
    } else {
      NothingLong(Words(100));
    }
  }

  /** A family of texts: a hundred words and the last one `m` times more.  The code is `m` bytes longer
      than the text and the prefix, so from twelve repetitions on it outgrows the documented buffer. */
  lemma Outgrows(m: nat)
    ensures var s := Listing(0, m); |Compressed(s)| == |s| + 4 + m && (|Compressed(s)| < |s| + 16 <==> m < 12)
  {
    var s := Listing(0, m);
    assert Words(0) == [];
    assert s != "";
    hide Listing, Comp, Longs, Saved, Words;
    ListingLength(0, m);
    Growth(s, []);
    FitsIff(s);
  }
}
