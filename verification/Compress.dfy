/** `compress_text` and `decompress_text` over the caller's buffers. */
module Compress {
  import opened Wrappers
  import opened Chars
  import opened CompressTable
  import opened Decimals
  import opened CompressSpec
  import opened CompressRoundTrip

  // ----- scanning -----

  lemma RunShift(s: string, k: nat, i: nat, cls: Class)
    requires k + i <= |s|
    ensures Run(s, k + i, cls) == k + Run(s[k..], i, cls)
  {
    var e := Run(s[k..], i, cls);
    hide In;
    forall j | k + i <= j < k + e ensures In(s[j], cls) { assert s[j] == s[k..][j - k]; }
    RunIs(s, k + i, k + e, cls);
  }

  /** The scanning loop that the helpers share. */
  method RunEnd(s: string, i: nat, cls: Class) returns (e: nat)
    requires i <= |s|
    ensures e == Run(s, i, cls)
  {
    hide In;
    e := i;
    while e < |s| && In(s[e], cls)
      invariant i <= e <= |s| && forall k | i <= k < e :: In(s[k], cls)
    {
      e := e + 1;
    }
    RunIs(s, i, e, cls);
  }

  /** `is_placeholder_start` */
  method IsPlaceholderStart(src: string, pos: nat) returns (r: bool)
    requires pos <= |src|
    ensures r == StartsHolder(src[pos..])
  {
    if pos >= |src| || src[pos] != '$' { return false; }
    if pos + 1 >= |src| || src[pos + 1] < 'A' || src[pos + 1] > 'Z' { return false; }
    var i := RunEnd(src, pos + 2, HolderC);
    RunShift(src, pos, 2, HolderC);
    hide Run;
    if i == pos + 2 { return false; }
    return IsDigit(src[i - 1]);
  }

  /** `abbr_for_word` */
  method AbbrForWord(w: string) returns (r: Option<nat>)
    ensures r == AbbrFor(w)
  {
    hide RowAt;
    if |w| == 0 || |w| > MAX_WORD_LEN { return None; }
    var lower := Lower(w);
    var i := 0;
    while i < SIZE
      invariant 0 <= i <= SIZE && FindWord(lower, i) == FindWord(lower, 0)
    {
      if RowAt(i).word == lower { return Some(i); }
      i := i + 1;
    }
    return None;
  }

  /** `word_for_abbr` */
  method WordForAbbr(a: string) returns (r: Option<nat>)
    ensures r == FindAbbr(a, 0)
  {
    hide RowAt;
    var i := 0;
    while i < SIZE
      invariant 0 <= i <= SIZE && FindAbbr(a, i) == FindAbbr(a, 0)
    {
      if RowAt(i).abbr == a { return Some(i); }
      i := i + 1;
    }
    return None;
  }

  method FindEntry(dict: seq<string>, w: string) returns (r: Option<nat>)
    ensures r == Lookup(dict, w, 0)
  {
    hide Lower;
    var i := 0;
    while i < |dict|
      invariant 0 <= i <= |dict| && Lookup(dict, w, i) == Lookup(dict, w, 0)
    {
      if Lower(dict[i]) == Lower(w) { return Some(i); }
      i := i + 1;
    }
    return None;
  }

  /** White space collapses to its first character, or to a line break when it has one. */
  method Collapse(src: string, pos: nat) returns (ws: char, e: nat)
    requires pos < |src| && IsSpace(src[pos])
    ensures e == Run(src, pos, SpaceC) && pos < e && ws == Collapsed(src[pos..e])
  {
    ws := src[pos];
    e := pos;
    while e < |src| && IsSpace(src[e])
      invariant pos <= e <= |src| && forall k | pos <= k < e :: In(src[k], SpaceC)
      invariant ws == if '\n' in src[pos..e] then '\n' else src[pos]
    {
      if src[e] == '\n' { ws := '\n'; }
      e := e + 1;
      assert src[pos..e] == src[pos..e - 1] + [src[e - 1]];
    }
    RunIs(src, pos, e, SpaceC);
  }

  // ----- the output buffer -----

  method Put(out: array<char>, at: nat, text: string) returns (end: nat)
    requires at + |text| <= out.Length
    modifies out
    ensures end == at + |text| && out[..end] == old(out[..at]) + text
    ensures forall i | end <= i < out.Length :: out[i] == old(out[i])
  {
    var k := 0;
    while k < |text|
      invariant 0 <= k <= |text|
      invariant out[..at] == old(out[..at]) && out[at..at + k] == text[..k]
      invariant forall i | at + k <= i < out.Length :: out[i] == old(out[i])
    {
      out[at + k] := text[k];
      k := k + 1;
    }
    end := at + |text|;
    assert out[..end] == out[..at] + out[at..at + k];
  }

  // ----- compression -----

  /** The cases of the encoder. */
  lemma CodedHolder(s: string, dict: seq<string>)
    requires s != "" && StartsHolder(s)
    ensures Extent(s) == Run(s, 1, HolderC) && Coded(s, dict) == s[..Extent(s)] && Grown(s, dict) == dict
  {
    hide Run;
  }

  lemma CodedGap(s: string, dict: seq<string>)
    requires s != "" && !StartsHolder(s) && IsSpace(s[0])
    ensures Extent(s) == Run(s, 0, SpaceC) && Coded(s, dict) == [Collapsed(s[..Extent(s)])] && Grown(s, dict) == dict
  {
    hide Run, StartsHolder, Collapsed;
  }

  lemma CodedMark(s: string, dict: seq<string>)
    requires s != "" && !StartsHolder(s) && !IsSpace(s[0]) && !IsLetter(s[0])
    ensures Extent(s) == 1 && Coded(s, dict) == s[..1] && Grown(s, dict) == dict
  {
    hide Run, StartsHolder;
  }

  lemma CodedTerm(s: string, dict: seq<string>)
    requires s != "" && !StartsHolder(s) && IsLetter(s[0])
    ensures Extent(s) == Run(s, 0, AlnumC)
    ensures Coded(s, dict) == CodedWord(s[..Extent(s)], dict) && Grown(s, dict) == GrownWord(s[..Extent(s)], dict)
  {
    hide Run, StartsHolder, RowAt, Reference, AbbrFor, Decimal;
  }

  /** What the encoder writes for the atom at `pos`, how far it goes, and the dictionary it leaves. */
  method Encode(input: string, pos: nat, dict: seq<string>) returns (code: string, next: nat, dict': seq<string>)
    requires pos < |input|
    ensures var s := input[pos..];
            code == Coded(s, dict) && next == pos + Extent(s) && dict' == Grown(s, dict)
  {
    hide Coded, Grown, Extent, StartsHolder, Run, Collapsed, CodedWord, GrownWord;
    ghost var s := input[pos..];
    dict' := dict;
    var holder := IsPlaceholderStart(input, pos);
    if holder {
      next := RunEnd(input, pos + 1, HolderC);
      RunShift(input, pos, 1, HolderC);
      CodedHolder(s, dict);
      code := input[pos..next];
      assert code == s[..next - pos];
    } else if IsSpace(input[pos]) {
      var ws;
      ws, next := Collapse(input, pos);
      RunShift(input, pos, 0, SpaceC);
      CodedGap(s, dict);
      assert input[pos..next] == s[..next - pos];
      code := [ws];
    } else if IsLetter(input[pos]) {
      next := RunEnd(input, pos, AlnumC);
      RunShift(input, pos, 0, AlnumC);
      CodedTerm(s, dict);
      assert input[pos..next] == s[..next - pos];
      code, dict' := EncodeWord(input[pos..next], dict);
    } else {
      CodedMark(s, dict);
      code := [input[pos]];
      next := pos + 1;
      assert code == s[..1];
    }
  }

  method EncodeWord(w: string, dict: seq<string>) returns (code: string, dict': seq<string>)
    ensures code == CodedWord(w, dict) && dict' == GrownWord(w, dict)
  {
    hide RowAt, Decimal, AbbrFor, Lookup;
    var abbr := AbbrForWord(w);
    if abbr.Some? { return RowAt(abbr.value).abbr, dict; }
    var copyLen := if |w| < MAX_WORD_LEN then |w| else MAX_WORD_LEN;
    var wordBuf := w[..copyLen];
    assert wordBuf == Kept(w);
    var found := FindEntry(dict, wordBuf);
    if found.Some? && copyLen >= 4 { return "@R" + Decimal(found.value + 1), dict; }
    if |dict| < MAX_DICT_WORDS { return w, dict + [wordBuf]; }
    return w, dict;
  }

  /** What is written and what is still to be coded make up the whole. */
  ghost predicate Coding(whole: string, done: string, s: string, dict: seq<string>) {
    done + Comp(s, dict) == whole
  }

  lemma CodingStep(whole: string, done: string, s: string, dict: seq<string>)
    requires s != "" && Coding(whole, done, s, dict)
    ensures Coding(whole, done + Coded(s, dict), s[Extent(s)..], Grown(s, dict))
    ensures |done| + |Coded(s, dict)| <= |whole|
  {
    hide Coded, Grown, Extent;
    var code, rest := Coded(s, dict), Comp(s[Extent(s)..], Grown(s, dict));
    assert Comp(s, dict) == code + rest;
    assert done + code + rest == done + (code + rest);
  }

  lemma CodingStart(input: string)
    requires input != ""
    ensures Coding(Compressed(input), MAGIC, input[0..], []) && |MAGIC| <= |Compressed(input)|
  {
    hide Comp;
    assert input[0..] == input;
  }

  lemma CodingEnd(whole: string, done: string, s: string, dict: seq<string>)
    requires s == "" && Coding(whole, done, s, dict)
    ensures done == whole
  {
    assert done + "" == done;
  }

  /** `compress_text`: the buffer must hold the code and its terminating NUL. */
  method CompressText(input: string, out: array<char>) returns (n: nat)
    requires |Compressed(input)| < out.Length
    modifies out
    ensures n == |Compressed(input)| && out[..n] == Compressed(input) && out[n] == '\0'
    ensures forall i | n < i < out.Length :: out[i] == old(out[i])
  {
    if |input| == 0 {
      out[0] := '\0';
      return 0;
    }
    ghost var whole := Compressed(input);
    CodingStart(input);
    hide Coded, Grown, Extent, Compressed, Coding;
    n := Put(out, 0, MAGIC);
    assert out[..n] == MAGIC;
    var dict: seq<string> := [];
    var pos := 0;
    while pos < |input|
      invariant 0 <= pos <= |input| && n <= |whole| && Coding(whole, out[..n], input[pos..], dict)
      invariant forall i | n <= i < out.Length :: out[i] == old(out[i])
    {
      ghost var done, s := out[..n], input[pos..];
      CodingStep(whole, done, s, dict);
      var code, next, dict' := Encode(input, pos, dict);
      assert s[Extent(s)..] == input[next..];
      n := Put(out, n, code);
      assert out[..n] == done + code;
      pos, dict := next, dict';
    }
    CodingEnd(whole, out[..n], input[pos..], dict);
    ghost var done := out[..n];
    out[n] := '\0';
    assert out[..n] == done;
  }

  // ----- decompression -----

  /** The tilde sequence `a` as the decoder writes it. */
  method Expand(a: string) returns (text: string)
    ensures text == Expanded(a)
  {
    hide RowAt, FindAbbr;
    if |a| < 16 {
      var full := WordForAbbr(a);
      if full.Some? { return RowAt(full.value).word; }
    }
    return a;
  }

  /** What the decoder finds at `pos`. */
  method Decode(input: string, pos: nat, dict: seq<string>) returns (u: Unit)
    requires pos < |input|
    ensures u == UnitOf(input[pos..], dict)
  {
    hide StartsHolder, Run, Value, Expanded;
    ghost var s := input[pos..];
    assert s[0] == input[pos];
    var holder := IsPlaceholderStart(input, pos);
    if holder {
      var j := RunEnd(input, pos + 1, HolderC);
      RunShift(input, pos, 1, HolderC);
      assert input[pos..j] == s[..j - pos];
      u := Unit(j - pos, Some(input[pos..j]), None);
    } else if input[pos] == '@' && pos + 1 < |input| && input[pos + 1] == 'R' {
      u := DecodeRef(input, pos, dict);
    } else if input[pos] == '~' {
      var j := RunEnd(input, pos, SolidC);
      RunShift(input, pos, 0, SolidC);
      assert input[pos..j] == s[..j - pos];
      var text := Expand(input[pos..j]);
      u := Unit(j - pos, Some(text), None);
    } else if IsSpace(input[pos]) {
      assert s[..1] == [input[pos]];
      u := Unit(1, Some([input[pos]]), None);
    } else if IsLetter(input[pos]) {
      var j := RunEnd(input, pos, AlnumC);
      RunShift(input, pos, 0, AlnumC);
      assert input[pos..j] == s[..j - pos];
      u := Unit(j - pos, Some(input[pos..j]), Some(input[pos..j]));
    } else {
      assert s[..1] == [input[pos]];
      u := Unit(1, Some([input[pos]]), None);
    }
  }

  method DecodeRef(input: string, pos: nat, dict: seq<string>) returns (u: Unit)
    requires pos + 1 < |input| && input[pos] == '@' && input[pos + 1] == 'R'
    ensures u == UnitOf(input[pos..], dict)
  {
    ghost var s := input[pos..];
    var j := RunEnd(input, pos + 2, DigitC);
    RunShift(input, pos, 2, DigitC);
    var digits := input[pos + 2..j];
    assert digits == s[2..j - pos];
    var idx := ParseDecimal(digits);
    hide Value, Run;
    u := Unit(j - pos, if 1 <= idx <= |dict| then Some(dict[idx - 1]) else None, None);
  }

  /** The decoder's result from here on. */
  lemma DecompTurn(c: string, dict: seq<string>, out: string, cap: nat)
    requires c != ""
    ensures var u := UnitOf(c, dict);
            Decomp(c, dict, out, cap) ==
            if u.text.None? then Decomp(c[u.n..], dict, out, cap)
            else if |out| + |u.text.value| + 1 > cap then out
            else Decomp(c[u.n..], if u.word.Some? then Learn(dict, u.word.value) else dict, out + u.text.value, cap)
  {
    hide UnitOf;
  }

  lemma DecompDone(dict: seq<string>, out: string, cap: nat)
    ensures Decomp("", dict, out, cap) == out
  {
  }

  /** The decoder's loop. */
  method DecodeAll(input: string, start: nat, out: array<char>, cap: nat) returns (n: nat)
    requires start <= |input| && cap <= out.Length
    modifies out
    ensures n <= out.Length && out[..n] == Decomp(input[start..], [], "", cap) && (n == 0 || n < cap)
  {
    hide Decomp, UnitOf, Learn;
    ghost var whole := Decomp(input[start..], [], "", cap);
    n := 0;
    var dict: seq<string> := [];
    var pos := start;
    assert out[..0] == "";
    while pos < |input|
      invariant start <= pos <= |input| && n <= out.Length && (n == 0 || n < cap)
      invariant Decomp(input[pos..], dict, out[..n], cap) == whole
    {
      ghost var s, done := input[pos..], out[..n];
      DecompTurn(s, dict, done, cap);
      var u := Decode(input, pos, dict);
      assert s[u.n..] == input[pos + u.n..];
      if u.text.Some? {
        if n + |u.text.value| + 1 > cap { return; }
        n := Put(out, n, u.text.value);
        assert out[..n] == done + u.text.value;
        if u.word.Some? { dict := Learn(dict, u.word.value); }
      }
      pos := pos + u.n;
    }
    DecompDone(dict, out[..n], cap);
    assert input[pos..] == "";
  }

  /** `decompress_text`: text without the prefix is copied; the result never exceeds the capacity. */
  method DecompressText(input: string, out: array<char>, cap: nat) returns (n: nat)
    requires 0 < out.Length && cap <= out.Length
    modifies out
    ensures n < out.Length && out[..n] == Decompressed(input, cap) && out[n] == '\0' && (n == 0 || n < cap)
  {
    hide Decomp;
    if |input| == 0 {
      n := 0;
    } else if |input| < |MAGIC| || input[..|MAGIC|] != MAGIC {
      var len := if cap == 0 then 0 else if |input| + 1 <= cap then |input| else cap - 1;
      n := Put(out, 0, input[..len]);
    } else {
      n := DecodeAll(input, |MAGIC|, out, cap);
    }
    ghost var done := out[..n];
    out[n] := '\0';
    assert out[..n] == done;
  }
}
