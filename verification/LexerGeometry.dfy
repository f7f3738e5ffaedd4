/** Where tokens lie, for every text and both profiles, errors or not. */
module LexerGeometry {
  import T = Tokens
  import opened LexerSpec

  /** A token inside the text, at the line and column counted from the newlines before it. */
  predicate Placed(s: string, t: Token) {
    && t.start + t.len <= |s|
    && t.line == LineAt(s, t.start) && t.col == ColAt(s, t.start)
  }

  /** Tokens in text order, none overlapping the next. */
  predicate Ordered(toks: seq<Token>) {
    forall i, j | 0 <= i < j < |toks| :: toks[i].start + toks[i].len <= toks[j].start
  }

  /** What every step of the scan keeps. */
  predicate Geometry(s: string, st: LexState) {
    && st.pos <= |s| && st.errs <= MAX_ERRORS && |st.toks| <= st.pos
    && Ordered(st.toks)
    && (forall i | 0 <= i < |st.toks| ::
          Placed(s, st.toks[i]) && st.toks[i].len > 0 && st.toks[i].start + st.toks[i].len <= st.pos)
  }

  lemma PushGeometry(s: string, st: LexState, kind: T.TokenKind, next: nat)
    requires Geometry(s, st) && st.pos < next <= |s|
    ensures Geometry(s, LexState(next, st.errs, st.toks + [TokenAt(s, kind, st.pos, next - st.pos)]))
  {
    hide LineAt, ColAt;
    var t := TokenAt(s, kind, st.pos, next - st.pos);
    var toks := st.toks + [t];
    forall i | 0 <= i < |toks| ensures Placed(s, toks[i]) && toks[i].len > 0 && toks[i].start + toks[i].len <= next {
      if i < |st.toks| { assert toks[i] == st.toks[i]; }
    }
    forall i, j | 0 <= i < j < |toks| ensures toks[i].start + toks[i].len <= toks[j].start {
      assert toks[i] == st.toks[i];
    }
  }

  lemma StepGeometry(s: string, profile: Profile, cap: nat, st: LexState)
    requires Geometry(s, st) && st.pos < |s| && st.errs < MAX_ERRORS
    ensures var r := Step(s, profile, cap, st); Geometry(s, r.st) && (r.Go? ==> r.st.errs < MAX_ERRORS)
  {
    hide Scan, LineAt, ColAt, Ordered, Placed;
    match Scan(s, st.pos, profile, st.errs)
    case Lexeme(kind, next, _) => PushGeometry(s, st, kind, next);
    case Str(end) =>
      StrEndBounds(s, profile, st);
      if end.Closed? { PushGeometry(s, st, T.StrLit, end.next); }
    case _ =>
  }

  lemma StrEndBounds(s: string, profile: Profile, st: LexState)
    requires st.pos < |s| && st.errs < MAX_ERRORS && Scan(s, st.pos, profile, st.errs).Str?
    ensures var end := Scan(s, st.pos, profile, st.errs).end;
            && (!end.Closed? ==> st.errs < end.errs <= MAX_ERRORS) && (end.ClosedBad? ==> end.errs < MAX_ERRORS)
  {
    hide StrBody, ScanIdent, ScanNumber, ScanSymbol;
  }

  lemma {:induction false} RunGeometry(s: string, profile: Profile, cap: nat, st: LexState)
    requires Geometry(s, st) && st.errs < MAX_ERRORS
    ensures Geometry(s, Run(s, profile, cap, st).st)
    decreases |s| - st.pos
  {
    if st.pos < |s| {
      StepGeometry(s, profile, cap, st);
      hide Step, Geometry;
      match Step(s, profile, cap, st)
      case Go(st') => RunGeometry(s, profile, cap, st');
      case _ =>
    }
  }

  /** A buffer longer than the text never fills, so its length does not matter. */
  lemma {:induction false} RunRoom(s: string, profile: Profile, cap: nat, cap': nat, st: LexState)
    requires Geometry(s, st) && st.errs < MAX_ERRORS && cap > |s| && cap' > |s|
    ensures Run(s, profile, cap, st) == Run(s, profile, cap', st) && Run(s, profile, cap, st).Stop?
    decreases |s| - st.pos
  {
    if st.pos < |s| {
      StepGeometry(s, profile, cap, st);
      StepRoom(s, profile, cap, cap', st);
      hide Step, Geometry;
      match Step(s, profile, cap, st)
      case Go(st') => RunRoom(s, profile, cap, cap', st');
      case _ =>
    }
  }

  lemma StepRoom(s: string, profile: Profile, cap: nat, cap': nat, st: LexState)
    requires st.pos < |s| && |st.toks| <= st.pos && cap > |s| && cap' > |s|
    ensures Step(s, profile, cap, st) == Step(s, profile, cap', st) && !Step(s, profile, cap, st).Abort?
  {
    hide Scan, LineAt, ColAt;
  }

  /**
   Main theorem, for every text, profile and buffer size: the tokens are in order, disjoint and inside
   the text, each at the line and column counted from the newlines before it; there are at most
   `|s| + 1` of them, none empty except the last one, and at most twenty errors.
   */
  lemma LexGeometry(s: string, profile: Profile, cap: nat)
    ensures var (n, toks) := Lex(s, profile, cap);
            && |toks| <= |s| + 1 && |toks| <= cap && (n >= 0 ==> n == |toks|)
            && Ordered(toks)
            && (forall i | 0 <= i < |toks| ::
                  Placed(s, toks[i]) && (toks[i].len > 0 || (i == |toks| - 1 && toks[i].kind == T.Eof)))
    ensures Run(s, profile, cap, LexState(0, 0, [])).st.errs <= MAX_ERRORS
  {
    var st0 := LexState(0, 0, []);
    RunGeometry(s, profile, cap, st0);
    RunFits(s, profile, cap, st0);
    hide Run, LineAt, ColAt;
    var st := Run(s, profile, cap, st0).st;
    var toks := Lex(s, profile, cap).1;
    forall i | 0 <= i < |toks|
      ensures Placed(s, toks[i]) && (toks[i].len > 0 || (i == |toks| - 1 && toks[i].kind == T.Eof))
    {
      if i < |st.toks| { assert toks[i] == st.toks[i]; }
    }
    forall i, j | 0 <= i < j < |toks| ensures toks[i].start + toks[i].len <= toks[j].start {
      assert toks[i] == st.toks[i];
    }
  }

  /** No more tokens are stored than the buffer holds. */
  lemma {:induction false} RunFits(s: string, profile: Profile, cap: nat, st: LexState)
    requires st.pos <= |s| && |st.toks| <= cap
    ensures |Run(s, profile, cap, st).st.toks| <= cap
    decreases |s| - st.pos
  {
    if st.pos < |s| {
      StepFits(s, profile, cap, st);
      hide Step;
      match Step(s, profile, cap, st)
      case Go(st') => RunFits(s, profile, cap, st');
      case _ =>
    }
  }

  lemma StepFits(s: string, profile: Profile, cap: nat, st: LexState)
    requires st.pos < |s| && |st.toks| <= cap
    ensures |Step(s, profile, cap, st).st.toks| <= cap
  {
    hide Scan, LineAt, ColAt;
  }

  /** The buffers of `length + 16` tokens that the callers allocate never fill: the result is that of an
      unbounded buffer, and -1 means an error in the text. */
  lemma BufferNeverFills(s: string, profile: Profile, cap: nat)
    requires cap > |s|
    ensures Lex(s, profile, cap) == Lex(s, profile, |s| + 1)
    ensures Lex(s, profile, cap).0 == -1 <==> Run(s, profile, cap, LexState(0, 0, [])).st.errs > 0
  {
    RunRoom(s, profile, cap, |s| + 1, LexState(0, 0, []));
    RunGeometry(s, profile, cap, LexState(0, 0, []));
    hide Run, LineAt, ColAt, Ordered, Placed;
  }
}
