# Verified core of the toke reference compiler

A Dafny model of the self-contained algorithms of the `tkc` compiler, with proofs of what they promise.
C integers are modelled as unbounded integers, buffers the program updates in place as arrays or class
fields, and text as `seq<char>` without the terminating NUL.

What is modelled, and the main theorem of each part:

- **Lint rewrites** (`LintAst`, `LintSemantics`, `LintFrame`, `LintInline`, `LintContext`,
  `LintInlineFix`, `LintUnused`, `LintStrings`, `LintGuards`, `LintOffered`, `LintExample`). The guards of
  the single-use-`let` fix and of the unused-`let` fix, over generic syntax trees as the parser builds them,
  and a value-semantic core language whose primitive operations (operators, calls, patterns) are an arbitrary
  parameter. Every call is an event of the trace, its result may depend on the whole trace, and an interpolated string runs the expressions
  that the parser hangs below it. Inlining under the guards preserves every non-faulting run when the name
  occurs once more beside its `let`, below strings included; deleting preserves it when the initialiser
  evaluates no call and no propagation. The allowlists of both fixes are described exactly, and the inlining
  is offered wherever the name is read once more in a safe place (`LintOffered.OfferFixable`). On a program
  with a loop, a branch, `&&`, assignments and calls the core language computes what arithmetic gives, for all
  arguments (`LintExample.ProgramComputes`).
- **Fix engine** (`FixSelection`, `FixEngine`, `FixChain`). The applied fixes are a largest set of
  non-overlapping in-range fixes, the spliced buffer equals their simultaneous substitution, and the rounds
  reach a fixpoint from every text that 16 rewritings settle. A chain of bindings is settled if and only if it
  has at most 16 of them.
- **Lexer** (`Chars`, `Tokens`, `LexerSpec`, `Lexer`, `LexerGeometry`, `Lexemes`, `TokenBoundary`, `LexGrammar`).
  The lexer with its error recovery and buffer limits; where tokens lie; exactly which texts are tokens of
  which kind; and exactly when a token followed by other text is still read as that token.
- **Minifier** (`MinString`, `MinifySpec`, `MinCode`, `MinLength`, `Minify`). Lexing the single-line form gives
  the tokens back if and only if no neighbouring tokens fuse, and no shorter text has these tokens, one
  family of superfluous blanks aside. The code inside an interpolation keeps its tokens if and
  only if no nested string holds a control character and no token follows a line comment.
- **Formatter** (`ExprPrinter`, `ExprGrammar`, `FmtScan`, `FmtPairs`, `FmtGroups`, `FmtComments`). The reader
  of the operator levels accepts exactly the language of their grammar. Printing an expression that was read
  gives back its tokens, and a printed tree is read back if and only if no cast is the direct operand of a
  cast; the second scanner agrees with the lexer; bracket tables are inverse and never cross; no comment and
  no printed text is lost.
- **Diff and source map** (`LineDiff`, `SourceMaps`). A minimal edit script; an exact position map.
- **SHA-256 and companion files** (`Sha256Spec`, `Sha256Constants`, `Sha256Example`, `Sha256Stream`,
  `CompanionSpec`, `Companion`). The streaming hash equals sections 5 and 6.2 of FIPS 180-4 for every message
  and every way of splitting it; the constants are the roots of primes that the standard defines them by; the
  frontmatter reads back.
- **Compressor** (`Decimals`, `CompressTable`, `CompressSpec`, `CompressRoundTrip`, `CompressDollar`,
  `CompressSqueeze`, `CompressLength`, `Compress`). Every text comes back byte for byte if and only if it is
  in normal form, a condition on the text and its words; the length of the code is known exactly.
- **Packages** (`PkgResolve`, `PkgLockFile`, `Pkg`). Minimal version selection and the lock file.
- **Arena** (`Arenas`). The bump allocator.

Where the code and its own words disagree, the model follows the code:

- `src/fmt.c:1269` says operator boundaries never need a space. `= =` minifies to `==`
  (`MinifySpec.FusingExample`); `MinifySpec.RoundTrip` gives the exact condition.
- `src/fmt.c:1266` promises the minimum white space. `0b1 2` keeps its blank, and `0b12` has the same tokens
  (`MinLength.LooseExample`): a binary literal ends before a digit from 2 to 9. `MinLength.ShortestIff` says
  that this is the only case.
- `src/compress.c:287` says white space other than line breaks becomes a blank. The first character of the run
  is written, so tabs stay a tab (`CompressSqueeze.RunSqueezed`).
- `src/compress.c:16` promises a byte-identical copy. Two blanks, `@Rabc`, `~t` and `$ABCD_1ABCD` are not
  copied (`CompressRoundTrip.DoubleBlank`, `CompressRoundTrip.AtRabc`, `CompressRoundTrip.TildeT`,
  `CompressDollar.DollarAbcd`); `CompressRoundTrip.RoundTrip` gives the exact condition. A `$` that opens a
  placeholder in the code only is not always fatal (`CompressDollar.DollarKnown`): the two dictionaries part
  there, and what matters is whether a later reference still finds its word.
- `src/compress.h:57` asks for a buffer of `len + 16` bytes and says the output is never longer than the
  input. A hundred words of four letters and the last of them `m` times more need `len + 4 + m` bytes
  (`CompressLength.Outgrows`). `CompressLength.FitsIff` says exactly when the documented buffer is enough,
  and `CompressLength.FewWords` that `len + 4` bytes are enough below a hundred dictionary words.
- `src/main.c:384-387` says a second `--fix` does nothing. That holds from every text from which no chain of
  17 rewritings starts (`FixEngine.RunFix`). In `let a0=1; let a1=a0+a0; let a2=a1+a1; ...; <0` each round can
  delete only the last `let` (`FixChain.UnusedIff`, `FixChain.NoSingleUse`), so the run deletes at most 17 of
  them and leaves fixes behind exactly when there are more (`FixChain.ChainRun`).
- `src/lint.c:777-794` calls every string literal inert. An interpolated literal runs code: the fix deletes
  the call in `let x="\(f())"` (`LintUnused.DeletesACall`), while `let x="\(y)"` is safely deleted
  (`LintUnused.KeepsAName`). For initialisers that hide no call behind `&&` or `||` or in a branch, the fix
  preserves the meaning of every function if and only if no call and no propagation lies below an
  interpolation (`LintUnused.DeleteIffNoCall`).
- `src/lint.c:269-293` and `src/lint.c:1308-1329`: the census of a name stops at a string and scans its
  text, while the search for the use walks into the expressions that `src/parser.c:535-598` hangs below it,
  and the two end an interpolation differently when it holds a quoted bracket. At
  `let x=1; <"\(g(")")+x)"+x` the fix leaves the counted use unbound (`LintStrings.NestedBreaks`), and at
  `let x=1; <x+"\(g(")")+x)"` the one in the string (`LintStrings.SecondBreaks`).
  `LintInlineFix.NameGoneIff` says exactly when no occurrence is left unbound, and `LintStrings.InlinePlain`
  that strings without quotes and backslashes inside interpolations are safe.
- `src/fmt.c:1232-1234` says that a raw newline in the code of an interpolation is plain white space. In a
  nested string or behind a line comment it is not (`MinCode.LostBehindComment`);
  `MinCode.LiteralSurvivesIff` gives the exact condition.
- The format buffer of `src/pkg.c:72-76` cuts `1000000000.1000000000.1000000000`, whose numbers fit 32-bit
  integers (`PkgLockFile.LargeVersion`).
- `src/fmt.c:592-604` prints a cast of a cast without parentheses when the source had none around it, and
  `src/parser.c:897-924` takes at most one `as` (`ExprPrinter.CastOfCast`). Trees that were read have the
  parentheses (`ExprPrinter.PrintParse`).
- `src/lexer.c:32` says upper-case identifiers are plain identifiers in the default profile; the code
  classifies them as type identifiers in both profiles (`LexerSpec.UpperIsType`).

## Model

| member | source | states |
|---|---|---|
| LintInlineFix.InlinePreservesMeaning | src/lint.c:1331-1402 | Main theorem: when every guard of the fix holds at a statement list of a function and the list holds one other occurrence of the name, expressions below strings included, every run of the function that does not fault has the same result and trace after the rewrite, for every meaning of the primitives, all arguments and any number of loop rounds |
| LintInlineFix.NameGoneIff | src/lint.c:1331-1402 | For every fixable `let`: the rewrite removes the occurrences in the `let` and one more; the name is gone from the function, strings included, if and only if there was only that one, and then the main theorem applies |
| LintInlineFix.NameGoneIffTwo | src/lint.c:1331-1402 | For every fixable `let` whose type does not mention the name: it is gone after the rewrite if and only if it occurred twice |
| LintGuards.PureIff | src/lint.c:1227-1253 | An initialiser may be moved if and only if it is a tree of a grammar: literals, names, strings without interpolation, field and index chains that start at a name, and binary, unary and cast expressions over these |
| LintGuards.InterpIff | src/lint.c:215-225 | A string is interpolated if and only if some parenthesis in it stands behind an odd number of backslashes |
| LintOffered.OfferFixable | src/lint.c:1331-1402 | Main theorem: the fix is offered for every `let` whose initialiser is of the grammar and whose name has one other place in the function, in the next statement, read there, under no loop, closure, match, scope or spawn, when the next statement writes no name that the initialiser mentions; the search ends at that place |
| LintOffered.ReturnOffered | src/lint.c:1331-1402 | For every initialiser of the grammar that does not mention `x`, `let x=init; <x` is offered |
| LintInlineFix.ListSame | src/lint.c:1331-1402 | The statement list before and after the rewrite ends the same way with the same remaining locals and trace, from any environment, expressions below strings run as any others |
| LintInlineFix.FindIsSubst | src/lint.c:1308-1329 | When a statement holds one reference, strings included, and the search finds it in a safe context, replacing at its place equals substituting the name throughout, and the name occurs in no unsafe context |
| LintInlineFix.FixableSite | src/lint.c:1331-1402 | For a fixable `let` with one other occurrence of its name the guards give the facts about the list that the simulation needs |
| LintStrings.CountedGone | src/lint.c:269-293 | When every name below a string is counted by the scan of its text, a fixable `let` has one other occurrence of its name in the whole function, and the rewrite leaves none |
| LintStrings.InlineCounted | src/lint.c:1331-1402 | For every function whose strings are counted, the guards alone give the main theorem, and no occurrence of the name is left |
| LintStrings.PlainCounted | src/parser.c:535-598 | In a parsed tree, strings without quotes and backslashes inside interpolations are counted |
| LintStrings.SegmentSame | src/parser.c:545-555 | In a segment without quotes and backslashes the scan of the text and the parser end at the same bracket and see the same words |
| LintStrings.InlinePlain | src/lint.c:1331-1402 | The same for every parsed function without quotes and backslashes inside interpolations |
| LintStrings.NestedScan | src/lint.c:185-213 | In `"\(g(")")+x)"` the scan of the text ends at the quoted bracket and does not count `x` |
| LintStrings.NestedAttach | src/parser.c:535-598 | In the same string the segment that the parser takes ends at the last bracket and holds `x` once |
| LintStrings.NestedFound | src/lint.c:1308-1329 | At a string with a quoted bracket inside an interpolation the census counts the operand behind the string and the search ends inside it |
| LintStrings.NestedBreaks | src/lint.c:1331-1402 | The guards let that fix through, and a function with a result fails after it |
| LintStrings.SecondFound | src/lint.c:1308-1329 | At `<x+"\(g(")")+x)"` the census counts one reference, the search ends at it, and the name below the string is neither counted nor found |
| LintStrings.SecondBreaks | src/lint.c:1331-1402 | The guards let the fix of that statement through, and a function with a result fails after it |
| LintFrame.ExecKeeps | src/lint.c:1292-1306 | Running a statement that writes no name an expression reads leaves every slot those names resolve to as it was |
| LintFrame.PureExec | src/lint.c:1227-1253 | An expression on the purity list computes a value from the locals alone and appends nothing to the trace |
| LintFrame.PureKept | src/lint.c:1227-1253 | Such an expression has the same value before and after a statement that writes none of its names |
| LintContext.Congruence | src/lint.c:1331-1402 | Replacing a subtree by one that runs alike leaves the run of the enclosing tree as it was, in every construct, both forms of the loop included |
| LintContext.RunCongruence | src/lint.c:1331-1402 | The same for whole functions |
| LintUnused.DeletePreservesMeaning | src/lint.c:842-892 | Deleting an unused `let` whose initialiser evaluates no call, propagation or statement, below strings included, preserves result and trace of every run that does not fault |
| LintGuards.InertIff | src/lint.c:795-834 | An initialiser may be deleted if and only if every node of it that is reached through operators and composite literals is one of these or a leaf of the list |
| LintUnused.DeleteIffNoCall | src/lint.c:795-834 | For an initialiser on the allowlist in which no call is hidden behind a short-circuit operator or in a branch: deleting it preserves the meaning of every function that binds it to an unused name, under every choice of primitives, if and only if no call and no propagation lies below an interpolation |
| LintUnused.DeletesACall | src/lint.c:777-834 | `let x="\(f())"` passes the guards, and deleting it takes the call out of the trace |
| LintUnused.KeepsAName | src/lint.c:777-834 | Deleting `let x="\(y)"` always preserves the meaning |
| LintUnused.HiddenCallKeeps | src/lint.c:777-834 | Behind two short-circuit operators on the same operand a call below an interpolation is never reached, and deleting the initialiser preserves the meaning although it holds the call |
| LintUnused.EffectlessQuiet | src/lint.c:795-834 | An expression that evaluates no call, propagation or statement changes neither locals nor trace |
| LintInlineFix.UnusedNodes | src/lint.c:229-251 | A name that the use search does not find has no identifier node, strings included |
| FixSelection.PicksOptimal | src/main.c:285-306 | Greedy by descending start, then descending end, takes at least as many fixes as any set of pairwise non-overlapping in-range fixes, insertions included |
| FixSelection.SpliceIsSubstituted | src/main.c:307-318 | Splicing a span left of everything spliced so far equals substituting all of them at once in the original text |
| FixEngine.TestsAgree | src/main.c:300-305 | The range test against the changing length and the overlap test together decide exactly as the range test against the original length would |
| FixEngine.TextBuf.Splice | src/main.c:309-318 | The buffer becomes the text with the span replaced, growing when it must |
| FixEngine.Collect | src/main.c:284-285 | The index array lists exactly the fixable findings, each once |
| FixEngine.SortDescending | src/main.c:287-295 | The index array is sorted by start and then end, both descending, and lists the same findings |
| FixEngine.ApplyFixes | src/main.c:278-325 | The buffer is the original with every applied span replaced and every other byte kept; each fixable finding left out is out of range or overlaps an applied one that sorts before it; no larger non-overlapping set exists; the status of every finding is exactly applied, skipped, or out of range in the text as it was when the finding came up, and the counters count them |
| FixEngine.RunFix | src/main.c:389-480 | The result is reached by rounds that each apply an optimal non-empty set of fixes to a text that parses; from a text at which no chain of 17 such rewritings starts, success means that the result parses and no finding on it applies; a run that ends early ends at such a result; failure means the last text does not parse |
| FixEngine.MeasureSettles | src/main.c:384-387 | No chain of 17 rewritings starts at a text when every rewriting lowers a count that is at most 16 there |
| FixChain.UnusedIff | src/lint.c:842-892 | In the chain of `n` bindings, each read twice by the next, the unused-`let` fix applies to the last one and to no other |
| FixChain.DeleteLast | src/lint.c:842-892 | Deleting it leaves the chain of `n - 1` bindings |
| FixChain.NoSingleUse | src/lint.c:1331-1402 | The single-use-`let` fix applies to none of them, at any statement list |
| FixChain.ChainSettlesIff | src/main.c:384-387 | No chain of 17 rewritings starts at the text of a chain if and only if it has at most 16 bindings |
| FixChain.ChainRun | src/main.c:389-480 | The run on a chain succeeds and deletes its last 17 bindings, or all; its result has no fix left if and only if there were at most 17 |
| LexerGeometry.LexGeometry | src/lexer.c:587-846 | For every text, profile and buffer: tokens in order, disjoint, inside the text, none empty but the end of file, line and column as counted from the newlines before, at most length + 1 of them, at most twenty errors |
| LexerGeometry.BufferNeverFills | src/lexer.c:232-242 | A buffer longer than the text gives the same result as any other such buffer, and -1 then means an error in the text |
| Lexer.Tokenize | src/lexer.c:587-846 | The imperative lexer, error recovery included, returns the count and leaves the tokens of the functional specification in the buffer |
| Lexer.Lexer.LexString | src/lexer.c:320-397 | Escapes, interpolations, bad escapes and unterminated strings end where the specification says, with the same error count |
| Lexer.Lexer.LexNumber | src/lexer.c:248-314 | Hexadecimal, binary, decimal and float literals and their errors end where the specification says |
| Lexer.Lexer.LexIdent | src/lexer.c:506-581 | Identifiers, keywords, underscores and reserved upper-case letters are classified as specified |
| LexerSpec.UpperIsType | src/lexer.c:506-581 | Every word with an upper-case first letter that is no legacy keyword is a type identifier in both profiles |
| Lexer.Lexer.LexSymbol | src/lexer.c:660-846 | Two-character symbols win over one-character ones, and comments over both |
| Lexer.Lexer.Advance | src/lexer.c:224-230 | Line and column stay those counted from the newlines before the position |
| Lexer.Lexer.Emit | src/lexer.c:232-242 | A token is stored, or the full buffer refuses it |
| Lexer.Lexer.RecordError | src/lexer.c:136-140 | The error count grows by one and the twentieth error stops the scan |
| Lexemes.LexWords | src/lexer.c:587-846 | The default-profile lexer accepts a text exactly when the text has a token stream read left to right from its suffixes, and then returns that stream and the end of file |
| Lexemes.ScanShift | src/lexer.c:587-846 | What is read at a position depends only on the text from there on |
| TokenBoundary.Boundary | src/lexer.c:248-314 | For every token and every text put behind it: the lexer reads that token first if and only if the text does not run on from it |
| LexGrammar.TokenExact | src/lexer.c:184-846 | Main theorem: for every kind and text, the text is read as one token of that kind if and only if it is spelled so: each symbol and keyword by its spelling, names, integers in three bases, floats, and strings as sequences of characters, escapes and interpolations with nested parentheses |
| LexGrammar.SkipExact | src/lexer.c:651-733 | White space is skipped by characters, `#` and `//` up to the end of the line, `(*` up to the end of the comment, and nothing else is skipped |
| LexGrammar.NestedComment | src/lexer.c:660-733 | Inside a comment a whole comment is passed over |
| LexGrammar.FlatComment | src/lexer.c:660-733 | A comment without openings ends behind the first `*)` |
| LexGrammar.LegacyDiffers | src/lexer.c:172-222 | The legacy profile has square brackets instead of `$` and `@`, and four upper-case keywords |
| TokenBoundary.FirstShape | src/lexer.c:587-846 | Whatever the lexer takes from a text is a token by itself |
| TokenBoundary.IdentBoundary | src/lexer.c:506-581 | An identifier ends before any character but letters, digits, underscore, and `=` behind a reserved letter |
| TokenBoundary.SymbolBoundary | src/lexer.c:660-846 | A symbol stays itself exactly when the next character does not make a longer symbol or a comment of it |
| MinString.MinStrKeepsMeaning | src/fmt.c:1236-1261 | The rewritten literal is again one string token and denotes the same bytes, and the same interpolated code with control characters as blanks |
| MinString.MinStrOneLine | src/fmt.c:1236-1261 | The rewritten literal has no newline, tab or carriage return, and rewriting it again changes nothing |
| MinString.EscapedInterp | src/fmt.c:1241-1247 | Inside an interpolation the writer follows the lexer's count of parentheses |
| MinCode.LiteralSurvivesIff | src/fmt.c:1236-1261 | For every literal whose interpolations lex: the rewritten literal denotes the same bytes, and code with the same tokens, if and only if no string nested in that code holds a control character and no token follows a line comment in it |
| MinCode.CodeSurvivesIff | src/fmt.c:1241-1247 | The same for every accepted code |
| MinCode.LostBehindComment | src/fmt.c:1233 | Behind a line comment every token of the next line is lost |
| MinifySpec.RoundTrip | src/fmt.c:1278-1308 | For every accepted program: lexing its single-line form gives its tokens, strings as rewritten, if and only if no neighbours fuse; then every token denotes the same |
| MinifySpec.ReadBack | src/fmt.c:1292-1304 | The same for every sequence of tokens, whether or not a program has it |
| MinifySpec.StreamIff | src/fmt.c:1278-1308 | For every accepted program without string literals, and for every one without a `(` before a `*`: the single-line form has the same stream for a compiler if and only if no neighbours fuse |
| MinifySpec.TailStops | src/fmt.c:1296-1297 | The blank rule leaves exactly the fusing neighbours to run into each other |
| MinifySpec.FuseBreaks | src/fmt.c:1266-1276 | A fusing first token is never read back: another token, an error, or a comment that swallows visible characters |
| MinifySpec.SingleLine | src/fmt.c:1278-1308 | The single-line form has no newline, tab or carriage return for every accepted program, and minifying it again changes nothing when no neighbours fuse |
| MinifySpec.FusingExample | src/fmt.c:1269-1270 | `= =` becomes `==`, which is one token |
| MinLength.Shortest | src/fmt.c:1264-1270 | For every accepted program: no text with the tokens of the single-line form is shorter than it, but for one character for each binary literal before a digit from 2 to 9 |
| MinLength.ShortestIff | src/fmt.c:1264-1270 | Without fusing neighbours the single-line form is a shortest text with its tokens if and only if no binary literal stands before such a digit |
| MinLength.BlankIff | src/fmt.c:1296-1297 | Without fusing neighbours, for every blank between tokens: leaving it out keeps the tokens if and only if it stands behind such a literal |
| MinLength.LooseExample | src/fmt.c:1266 | `0b1 2` keeps its blank, and `0b12` has the same tokens |
| Minify.Minify | src/fmt.c:1278-1308 | The imperative minifier returns the single-line form of accepted text and nothing for other text |
| Minify.Rewrite | src/fmt.c:1291-1304 | The loop over the token buffer writes the form of exactly these tokens |
| Minify.Buf.PutStr | src/fmt.c:1236-1261 | The literal is appended as rewritten, with interpolation depth tracked |
| ExprPrinter.PrintParse | src/fmt.c:520-604 | Main theorem: for every token sequence that the operator levels of the parser read, printing the tree gives back exactly these tokens, with no parentheses added or lost |
| ExprPrinter.ParsePrint | src/fmt.c:520-604 | For every tree of binary, unary, cast and parenthesised nodes: reading the printed tokens returns exactly that tree, with the added parentheses noted, if and only if no cast is the direct operand of a cast; otherwise nothing is read |
| ExprPrinter.ReadBack | src/fmt.c:412-440 | The same at every level of the chain and before any following tokens that may not join the operand |
| ExprPrinter.Halts | src/parser.c:897-924 | A tree with a cast of a cast stops the reader before the second `as` at every level |
| ExprPrinter.CastOfCast | src/parser.c:897-924 | `x as a as b` is printed for a cast of a cast and not read; with parentheses of the source it is read |
| ExprGrammar.GrammarExact | src/parser.c:897-1092 | Main theorem: for all token sequences and trees, the reader returns the tree if and only if the grammar with one production for each operator level, operators named, derives it with these tokens |
| ExprGrammar.Unambiguous | src/parser.c:897-1092 | No token sequence has two derivations |
| ExprGrammar.Grouping | src/parser.c:979-1092 | For every two operators: `a op b op c` groups to the left if the first is of a tighter level or of the same one and no comparison, to the right if the second is tighter, and is not read for two comparisons |
| ExprGrammar.ParenthesesIff | src/fmt.c:412-440 | The printer puts an operand in parentheses if and only if the grammar does not derive it bare |
| ExprGrammar.PrecIsHeight | src/fmt.c:412-432 | The printer orders the operators as the levels of the parser are ordered |
| ExprPrinter.Out.FmtExpr | src/fmt.c:520-604 | The recursive printer appends the printed tokens, repeating the parentheses of the source |
| FmtScan.ScannersAgree | src/fmt.c:149-219 | On every accepted text without recovery comments the formatter's scanner sees exactly the lexer's block comments and bracket tokens, each with the last character of the token before it |
| FmtScan.AgreesWithTokens | src/fmt.c:149-219 | The brackets it sees are those in the lexer's token buffer |
| FmtScan.AcceptedIsClean | src/lexer.c:651-733 | Accepted text without `#` and `//` is text without recovery comments |
| FmtScan.StopCloses | src/fmt.c:185-201 | Both scanners find the same end of every accepted string |
| FmtPairs.TablesSound | src/fmt.c:149-219 | For every text, accepted or not: the two tables are inverse to each other, pairs join an opening bracket with a later closing one of its kind, and no two pairs cross |
| FmtPairs.ProperTextJoined | src/fmt.c:203-215 | In a text whose brackets nest, exactly the brackets of each node are paired and none is left open |
| FmtPairs.FsBuild | src/fmt.c:149-219 | The imperative scanner fills the tables and records the comments of the specification |
| FmtPairs.FmtSrc.Bracket | src/fmt.c:203-215 | One bracket updates tables and stack as specified, popping past brackets of other kinds |
| FmtGroups.GroupsExact | src/fmt.c:203-207 | On every accepted text without recovery comments the table marks exactly the parentheses that have no name, keyword, literal, `)`, `@` or `$` as the token before them |
| FmtComments.Format | src/fmt.c:1177-1216 | Whatever the printers ask for in between, every comment is in the output exactly once and in source order, and the rest of the output is the printed texts in order |
| FmtComments.NothingLost | src/fmt.c:297-320 | After any requests the comments written are those before the cursor, and the texts those printed |
| FmtComments.TextPlace | src/fmt.c:297-320 | Every printed text stands behind exactly the comments that the cursor had passed |
| FmtComments.CommentPlace | src/fmt.c:297-306 | A comment that starts before a requested position stands before every text printed after the request |
| FmtComments.Emitter.EmitBefore | src/fmt.c:297-306 | The cursor passes exactly the comments that start before the position, writing each once |
| FmtComments.Emitter.EmitTrailing | src/fmt.c:311-320 | The same before a closing brace, and nothing without one |
| LineDiff.PrintDiff | src/main.c:345-381 | Nothing above the size cap; below it a script that turns the old lines into the new, headed correctly, such that no script for these lines keeps more or changes less and no common subsequence is longer; equal lines are kept, and a line is inserted before a deletion only where that keeps more lines |
| LineDiff.LcsMaximal | src/main.c:360-367 | No common subsequence from any pair of positions is longer than the table entry |
| LineDiff.MostKeptLeastChanged | src/main.c:345-381 | A script that keeps as many lines as the table says is a smallest script |
| LineDiff.LinesRebuild | src/main.c:328-342 | The lines joined again are the text, and no line holds a line break |
| LineDiff.SplitLines | src/main.c:328-342 | The start and length arrays locate exactly the lines, and the counted size suffices |
| LineDiff.FillTable | src/main.c:357-367 | The table filled from the end holds the lengths of longest common subsequences of the rests |
| LineDiff.Walk | src/main.c:368-379 | The walk along the table keeps as many lines as its first entry says, with headers before each run of changes; where deleting and inserting keep equally many lines it deletes |
| LineDiff.ChoiceOnly | src/main.c:368-379 | At every pair of positions the choices of the walk allow one kind of edit only |
| SourceMaps.BuildSourcemap | src/main.c:173-217 | The map found by walking both texts is exact: the k-th visible character is mapped to the k-th visible character when both exist, and every other position misses |
| SourceMaps.BuiltIsExact | src/main.c:173-217 | Entries that stand for runs of equal rank answer for each position once and correctly |
| SourceMaps.PosUnique | src/main.c:175-190 | No two places of a text share line and column |
| SourceMaps.SourceMap.Add | src/sourcemap.c:33-53 | The entry is appended and the others kept when the storage doubles |
| SourceMaps.SourceMap.Lookup | src/sourcemap.c:55-71 | The first entry that covers the position answers |
| Sha256Stream.HashChunks | src/companion.c:95-135 | Splitting a message across updates in any way gives the digest of the standard for the whole message |
| Sha256Stream.Sha256Ctx.Update | src/companion.c:104-113 | Full blocks are folded into the state and the rest buffered, for any message so far and any data |
| Sha256Stream.Sha256Ctx.Final | src/companion.c:115-135 | The digest is that of the padded message, in both padding cases |
| Sha256Stream.Sha256Ctx.Transform | src/companion.c:74-93 | One block is compressed as in section 6.2.2 of FIPS 180-4 |
| Sha256Constants.KFromPrimes | src/companion.c:41-58 | Round constant `t` is the first 32 bits of the fractional part of the cube root of the prime number `t`, for all 64 |
| Sha256Constants.H0FromPrimes | src/companion.c:95-102 | The initial hash value is the first 32 bits of the fractional parts of the square roots of the first eight primes |
| Sha256Constants.PrimesInOrder | src/companion.c:41-58 | The list of primes behind the constants starts at 2, ascends, holds primes only and leaves none out |
| Sha256Constants.CubeRootBitsUnique | src/companion.c:41-58 | These bits determine the constant |
| Sha256Spec.Choice | src/companion.c:61 | Each bit of the first word chooses between the bits of the other two |
| Sha256Spec.Majority | src/companion.c:62 | What two words have in common, the majority has |
| Sha256Spec.MajoritySymmetric | src/companion.c:62 | The order of the three words does not matter |
| Sha256Spec.Rotation | src/companion.c:60-66 | The two shifts rotate, for each amount of the standard |
| Sha256Example.AbcDigest | src/companion.c:74-135 | The message `abc` has the digest that the standard gives, by its schedule and all 64 rounds |
| CompanionSpec.NameReadsBack | src/companion.c:577-619 | Whatever follows the frontmatter, `source_file` reads back as written if and only if the base name has no quote or line break and fits the buffer of 280 bytes |
| CompanionSpec.HashReadsBack | src/companion.c:577-619 | Behind a base name without line breaks `source_hash` reads back as written |
| CompanionSpec.HexInjective | src/companion.c:252-254 | Equal digests, and only those, have equal text |
| Companion.VerdictOnEmitted | src/companion.c:621-726 | Verifying an emitted companion file looks beside it for the name that reads back, which is the written one exactly when it fits; it reports a match exactly when the digest found there equals that of the source, a mismatch for another one, and an error for a missing source |
| Companion.VerifiesItsSource | src/companion.c:621-726 | A companion file beside its source, under names that fit, is verified against that source |
| Companion.EmitFrontmatter | src/companion.c:238-269 | The frontmatter names what follows the last slash of the path and carries the digest of the source |
| Companion.ExtractField | src/companion.c:577-619 | The scanning loops find the field and copy at most the buffer less one |
| Companion.VerifyCompanion | src/companion.c:621-726 | 2 for a file that cannot be read, a missing field or a path too long; 0 for equal digests, 1 otherwise |
| CompressRoundTrip.RoundTrip | src/compress.c:254-472 | For every text, and room given, decompressing the compressed text returns it byte for byte if and only if it is in normal form, a condition on the text and the words learned from it |
| CompressRoundTrip.Lockstep | src/compress.c:254-472 | From any point and with any two dictionaries: the rest comes back if and only if it is in normal form for them |
| CompressRoundTrip.RegularStep | src/compress.c:275-346 | A regular atom is decoded to itself, and both sides learn the same word |
| CompressRoundTrip.OpensIff | src/compress.c:128-148 | The copied atoms behind a `$` form a placeholder if and only if the code starts with one, and they are as long |
| CompressRoundTrip.RunStretch | src/compress.c:128-148 | The copied atoms of placeholder characters at the start of a text are the run of such characters in its code |
| CompressRoundTrip.OpensCopied | src/compress.c:128-148 | Where a bare `$` opens a placeholder in the code, the placeholder is a stretch of the text and the code goes on behind it |
| CompressRoundTrip.SolidStretch | src/compress.c:413-440 | Up to the next white space the code is the text if and only if every atom there is copied, and then code and text go on alike |
| CompressRoundTrip.TildeStep | src/compress.c:413-440 | A `~` sequence whose atoms are all copied and that is no abbreviation of the table comes back |
| CompressRoundTrip.TildeFails | src/compress.c:413-440 | Every other `~` sequence does not |
| CompressRoundTrip.IrregularFails | src/compress.c:275-346 | A longer blank run, a table word in another case or before punctuation, a repeated word that the decoder does not find under its number, or an `@` before a copied `R` never comes back |
| CompressRoundTrip.ConsistentNormal | src/compress.c:310-341 | Consistent spelling, words of at most 128 bytes, lower-case table words before white space, single blanks, no `@` before `R` and no bare `$` before an upper-case letter make a normal form |
| CompressSqueeze.SqueezedReturns | src/compress.c:285-296 | For every text, and room given: decompressing the compressed text returns the text with one character for each run of white space, a line break if the run holds one and its first character otherwise, if and only if that text is in normal form |
| CompressSqueeze.SqueezedCode | src/compress.c:285-296 | A text and its squeezed form have the same code |
| CompressSqueeze.RunSqueezed | src/compress.c:285-296 | A run becomes one of its characters, a line break if and only if it holds one, and the text around it is squeezed by itself |
| CompressLength.Growth | src/compress.c:254-351 | The code is longer than the text by one byte for each reference of three digits to a word of four letters, less what the other atoms save |
| CompressLength.FitsIff | src/compress.h:56-58 | `len + 16` bytes hold the code and its NUL if and only if there are fewer than twelve such references more than bytes saved: a blank run saves all but one byte, a table word what its abbreviation is shorter, another reference what it is shorter than its word |
| CompressLength.FewWords | src/compress.h:56-58 | A text that puts fewer than a hundred words into the dictionary needs at most `len + 4` bytes |
| CompressLength.Outgrows | src/compress.h:56-58 | A hundred words and the last `m` times more are coded in `len + 4 + m` bytes |
| CompressLength.CompressedLength | src/compress.c:254-351 | The code is at most four bytes and a quarter longer than the text |
| CompressRoundTrip.DoubleBlank | src/compress.c:16 | Two blanks do not come back |
| CompressRoundTrip.AtWord | src/compress.c:394-412 | Text that starts with `@` and a new word with `R` does not come back |
| CompressRoundTrip.AtRabc | src/compress.c:16 | `@Rabc` does not come back |
| CompressRoundTrip.TildeT | src/compress.c:16 | `~t` does not come back |
| CompressDollar.DollarTwice | src/compress.c:16 | `$w_1w` does not come back for any upper-case word `w` of four letters that starts with `A` |
| CompressDollar.DollarKnown | src/compress.c:254-472 | `w $v_1w` comes back for any two such words, although its `$` opens a placeholder in the code |
| CompressDollar.DollarAbcd | src/compress.c:16 | `$ABCD_1ABCD` does not come back |
| CompressTable.AbbrUnique | src/compress.c:68-112 | No two rows share an abbreviation |
| CompressTable.AbbrLetters | src/compress.c:68-112 | Every abbreviation is a tilde, the first letter of its word and up to two of its other letters |
| Decimals.DecimalValue | src/compress.c:326-332 | Reading the printed form of a number gives it back |
| Compress.CompressText | src/compress.c:254-351 | A buffer that is long enough holds the code and a NUL, and nothing behind it changes |
| Compress.DecompressText | src/compress.c:355-472 | The buffer holds the decoded text, cut at the first unit that does not fit, and a NUL inside the capacity |
| Compress.IsPlaceholderStart | src/compress.c:128-148 | Decides whether an upper-case name ending in a digit follows the `$` |
| PkgResolve.PkgLock.Resolve | src/pkg.c:312-349 | Fails exactly above 64 distinct names; otherwise one entry per name, at the least version that meets all its constraints |
| PkgResolve.OrderIndependent | src/pkg.c:312-349 | The resolution depends on the set of constraints only |
| PkgResolve.CmpTotal | src/pkg.c:64-70 | The comparison is a total order |
| PkgResolve.CmpLexicographic | src/pkg.c:64-70 | Versions are ordered lexicographically by major number, minor number and patch |
| PkgLockFile.LockRoundTrip | src/pkg.c:353-420 | A lock with parser-produced names is restored by writing and reading if and only if every version fits the format buffer |
| PkgLockFile.FormattedReads | src/pkg.c:39-76 | A version reads back from the 32-byte buffer if and only if its text fits |
| PkgLockFile.VersionIff | src/pkg.c:39-62 | A text is read as a version if and only if it is three numerals of these values with dots between them, followed by nothing, a quote or white space |
| PkgLockFile.LargeVersion | src/pkg.c:39-76 | A lock with version `1000000000.1000000000.1000000000` is not restored |
| PkgLockFile.KvReads | src/pkg.c:112-154 | A written pair is parsed to its key and value |
| Pkg.VersionParse | src/pkg.c:39-62 | The loops accept exactly three numbers and an end |
| Pkg.PairOf | src/pkg.c:112-154 | The loops find key and value, quoted or bare, and refuse long keys |
| Pkg.LockWrite | src/pkg.c:353-373 | The text of the lock entry by entry |
| Pkg.LockReadInto | src/pkg.c:377-420 | The reader skips what is not in its section and fails on a bad version or a 65th entry |
| Arenas.Arena.Alloc | src/arena.c:76-96 | The piece is zeroed, inside one block, at an aligned offset, apart from every piece handed out before, whose bytes stay as they are |
| Arenas.Aligned | src/arena.c:79-81 | The least multiple of eight from the size on |

## Left out

- The type checker, the code generator and the parser beyond its operator levels. `LintStrings.Parsed` states the one fact about the parser that a lint theorem uses: a reference below a string comes from a word in one of its segments.
- Closures, `spawn` and `scope` blocks in the lint semantics: they fault, so the theorems say nothing about runs that reach one.
- By-reference handles in the lint semantics: locals hold values.
- The text edits of the two `let` fixes: the theorems are about the tree rewrite that the edit stands for.
- The other lint rules, their messages and the JSON output.
- The order of applied fixes with equal spans. An overlapping fix past the shrunken length is dropped without being counted as skipped, as in the code.
- Failed allocations: every allocation succeeds.
- 32-bit overflow of sizes, version numbers and back-reference indices: integers are unbounded.
- FixEngine.RunFix: parsing and linting are a function parameter.
- LintUnused.DeleteIffNoCall: leaves out calls behind `&&` or `||`, in branches and among statements below an interpolation, because such a call may never be reached; `LintUnused.HiddenCallKeeps` is an input where its presence does not matter.
- LintOffered.OfferFixable: says where the fix is offered, not that it is offered nowhere else; it is also offered past names below strings (`LintStrings.SecondFound`), and what it then does is `LintInlineFix.NameGoneIff`.
- FmtComments.CommentPlace: takes the comments in source order, as the scanner records them.
- FixChain.ChainRun: what the parser and the linter make of the text of a chain is a parameter, assumed to report what the unused-`let` rule finds in its tree; `FixChain.SomeReports` shows that the assumption can be met.
- An interpolated string runs the expressions that the parser attached: at most 128 segments, nested at most 8 deep, and only segments that parse. The code generator splits the text again (`src/llvm.c:2878-2914`) and refuses some nested strings; a program that fails code generation is not told apart.
- Companion.VerifyCompanion: reading files is a function parameter, and the printed messages are not modelled.
- MinifySpec.StreamIff: for programs with string literals and a `(` before a `*` only one direction is stated, in `MinifySpec.RoundTrip`.
- Compress.CompressText: asks for a buffer that holds the code; what a shorter one does is undefined in C. `CompressLength.FitsIff` says when the documented buffer is long enough.
- Companion.EmitFrontmatter: takes the time of the call as a parameter.
- Pkg.LockReadInto: takes the file's contents; the manifest parser is not modelled.
- `compress_json`, `compress_csv` and the streaming compressor, which have no inverse in the code.
- ExprPrinter.Out.FmtExpr: the parentheses around a node are part of the tree; how `node_span` and `src_paren_layers` find them from token spans is not modelled.
- Pretty and expanded printing.
- Arenas.Aligned: rounds with a division, where the code uses a mask.
- `arena_free`, command-line handling, diagnostics output, clang invocation and file reading.
