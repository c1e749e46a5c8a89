# rslisp core in Dafny

A model of the reader and evaluator of rslisp, a small Lisp interpreter
written in Rust. It covers:

- the **tokenizer**, which turns source text into a queue of tokens (parentheses, numbers,
  strings, symbols, comments, whitespace). Each token carries a location (file
  name, line, column).
- the **parser**, which consumes that queue in place and builds a tree of
  objects. It skips comments and whitespace and rejects unknown tokens, stray `)` and
  unclosed `(`.
- the **evaluator**: a chain of environments (local table plus shared
  parent) and a tree walker. The walker handles self-evaluating atoms, symbol
  lookup, the empty list and the special forms `define` and `if`.

Files: `wrappers.dfy` (`Option`, `Result`), `location.dfy` (module
`Locations`), `lexer.dfy` (module `Lexer`), `parser.dfy` (module `Parser`),
`evaluator.dfy` (module `Evaluator`).

How the source maps to Dafny:

- Every matcher of the tokenizer is a pure function over `seq<char>`. It returns the token
  kind and the number of characters consumed.
- `match_string_helper` and the `fold_many0` loop of `tokenize` are methods with loops.
  Each is proved equal to a recursive specification function (`Scan`, `FoldTokens`).
- The token queue of the parser is a class `TokenQueue` whose `seq` field the parsing
  methods consume. `Parse` and `ParseList` are loops, proved equal to the recursive
  functions `ParseTop` and `ParseListSpec`.
- `Environment` is a class with a `vars` map and a `parent` reference. A ghost
  `Repr` holds the chain of ancestors. The evaluation methods modify only `vars` of the
  environment they run in. They are proved equal to the pure function `Evaluate`.
  `Evaluate` returns the result and the bindings written.
- Where the Rust code panics (`last_token.unwrap()`, `unimplemented!`,
  `unreachable!`, `todo!`), the model returns an explicit error value.

The model follows the code as written, also where it departs from the
interpreter's intended design:

- every new environment is seeded with the 11 operator names, not only the root;
- `if` only accepts a literal boolean as its condition and does not evaluate it;
  a missing chosen branch is an error, not `Void`. The tokenizer and parser never
  build a `Bool`, so a top-level `(if c ...)` read from source text always ends in
  `ConditionNotLiteral` (a bare `(if)` ends in the missing-branch error);
- a list whose head is not a symbol is the `unreachable!` case, not a call;
- `lambda`, calls and the operators have no behaviour (stubs);
- `define` with no operands is its own error (the code returns an empty message).

## Model

| member | source | states |
|---|---|---|
| Locations.New | src/location.rs:9-15 | the getters `Filename()`, `rol`, `col` of the new location return exactly the arguments |
| Locations.Location.SetFilename | src/location.rs:17-19 | afterwards `Filename()` is `Some(s)`; line and column unchanged |
| Locations.Location.Filename | src/location.rs:21-27 | `None` exactly when no file name was given or set, otherwise that name |
| Locations.Location.Equals | src/location.rs:1 | derived `PartialEq`: equal exactly when file name, line and column are all equal |
| Lexer.MatchParen | src/lexer.rs:46-54 | matches exactly when the input starts with `(` or `)`; yields the matching kind and consumes one character |
| Lexer.RecognizeFloat | src/lexer.rs:58 | a recognised number is non-empty and lies within the input |
| Lexer.ParseI128 | src/lexer.rs:59 | a parsed text is non-empty, all digits after an optional leading sign; unsigned and `-` texts have their decimal value (positive or negated) |
| Lexer.MatchNumeric | src/lexer.rs:57-67 | matches exactly when `recognize_float` does and consumes exactly its length, as an `Integer` exactly when that text parses as an `i128` (with that value), otherwise a `Float`; fails hard exactly on the exponent `cut` |
| Lexer.DigitRunIsInteger | src/lexer.rs:59-60 | a digit run with an `i128` value, not followed by `.`, `e`, `E` or a digit, lexes as that integer; test lines 181 and 183 are instances |
| Lexer.ExponentWithoutDigitsIsFatal | src/lexer.rs:58 | digits, then `e`/`E`, then an optional sign and no digit: `MatchNumeric` fails hard and tokenizing a text that starts this way is an error |
| Lexer.Scan | src/lexer.rs:83-113 | the copied text is never longer than the count; the count stops at the end or on a `"`; what the count adds beyond the text is backslashes only (`ScanDropsOnlyBackslashes`) |
| Lexer.ScanDropsOnlyBackslashes | src/lexer.rs:89-110 | the consumed characters are, as a multiset, the copied text plus `count - |text|` backslashes: the scan drops nothing but escaping backslashes |
| Lexer.ScanConsumesEscaped | src/lexer.rs:89-107 | an escaped text (every `"` and `\` preceded by `\`), even one holding quotes, is consumed whole and read back as the original |
| Lexer.MatchStringHelper | src/lexer.rs:83-113 | the loop returns exactly `Scan(rest)`: copied text and count |
| Lexer.ScanInvertsEscape | src/lexer.rs:89-107 | stops at the first unescaped `"`; a backslash is dropped and the next character copied verbatim; round trip with escaping; tests 188-200 are instances |
| Lexer.ScanTrailingBackslash | src/lexer.rs:105-110 | a lone trailing backslash is counted but not copied |
| Lexer.ScanWithoutQuote | src/lexer.rs:89-94 | with no `"` the whole input is consumed |
| Lexer.MatchString | src/lexer.rs:70-76 | matches exactly with an opening `"` and a closing `"` after the scanned body; yields `Str` of the body and consumes count + 2 |
| Lexer.MatchStringOfEscaped | src/lexer.rs:70-76 | a quoted escaped text lexes back to that text; tests 204-213 are instances |
| Lexer.MatchStringUnclosed | src/lexer.rs:73-74 | no closing quote, no string token |
| Lexer.MatchSymbol | src/lexer.rs:116-121 | the longest non-empty run of characters that are neither whitespace nor `( ) " '`; tests 172-177 |
| Lexer.MatchIgnore | src/lexer.rs:123-126 | the longest non-empty run of whitespace; test 225-227 |
| Lexer.MatchComment | src/lexer.rs:128-132 | needs a leading `;;`; yields the rest of the line without the `\n`; test 216-221 |
| Lexer.MatchPattern | src/lexer.rs:134-143 | a match consumes at least one character and no more than the input; the order of the alternatives (paren, numeric, string, symbol, comment, whitespace) is in its body, and its consequences are the two lemmas below |
| Lexer.SemicolonStartsSymbol | src/lexer.rs:136-143 | because the symbol matcher accepts `;` and comes first, `;;` text lexes as a `Symbol` |
| Lexer.PatternNeverCommentOrUnknown | src/lexer.rs:134-143 | `match_pattern` never yields a `Comment` or an `UNKNOWN` token |
| Lexer.PositionsMonotone | src/lexer.rs:145-149 | lines never decrease; byte offsets grow at least as fast as character offsets |
| Lexer.FoldMany0 | src/lexer.rs:153-159 | the `fold_many0` loop with per-token line, column and file name returns exactly `FoldTokens` |
| Lexer.TokensFacts | src/lexer.rs:145-158 | every token is the one `match_pattern` matches at some offset of the content (the kind of that match), stamped with the file name, the line of that offset and a column one more than its byte offset; columns strictly increase, lines never decrease; the tokens are the successive matches from offset 0, each starting where the one before ended, and the leftover starts right after the last and is a suffix where nothing matches |
| Lexer.Tokenize | src/lexer.rs:153-159 | returns exactly `Tokens(content, fname)` |
| Parser.AtomObject | src/parser.rs:98-101 | an atom token becomes an object with the token's location |
| Parser.ParseListSpec | src/parser.rs:113-140 | never grows the queue; success consumes at least the closing `)` |
| Parser.ParseTop | src/parser.rs:89-111 | never grows the queue |
| Parser.TokenQueue.constructor | src/parser.rs:89 | the queue holds the given tokens |
| Parser.TokenQueue.PopFront | src/parser.rs:93 | removes and returns the front token, `None` on an empty queue |
| Parser.ParseList | src/parser.rs:113-140 | the loop over the shared queue returns and leaves exactly what `ParseListSpec` says |
| Parser.Parse | src/parser.rs:89-111 | the loop returns and leaves exactly what `ParseTop` says |
| Parser.ListIgnoresSkipped | src/parser.rs:124 | dropping comment and whitespace tokens changes neither the outcome nor the remaining real tokens of `parse_list` |
| Parser.ParseIgnoresSkipped | src/parser.rs:96 | dropping comment and whitespace tokens does not change the outcome of `parse` |
| Parser.ListKeepsAtoms | src/parser.rs:126-133 | the leaves of the returned objects are the consumed atom tokens as objects of the same kind, value and location, in order |
| Parser.ParseKeepsAtoms | src/parser.rs:93-110 | on success the queue is empty and the leaves are exactly the atoms of the input, in order |
| Parser.ListShape | src/parser.rs:113-140 | on success the consumed tokens, without comments and whitespace, are the marks the returned objects are read from (a list as its items between a `(` at the list's location and a `)`, an atom as its kind and value at its location) followed by the closing `)`: the tree nests exactly as the parentheses and each list carries the location of its `(` |
| Parser.ParseShape | src/parser.rs:89-111 | on success the input tokens, without comments and whitespace, are exactly the shapes of the returned objects in order (kinds, values and locations except that of `)`), so the nesting of the tree is that of the parentheses and each list carries the location of its `(` |
| Parser.ParseYieldsOnlyReadAtoms | src/parser.rs:93-110 | every leaf of a parsed tree is an integer, float, string or symbol: the reader never produces a `Bool`, `Void` or `Lambda` |
| Parser.ListOkIff | src/parser.rs:121-139 | `parse_list` succeeds exactly when its `)` comes and no unknown token precedes it; it then leaves exactly the tokens after that `)` |
| Parser.ParseOkIff | src/parser.rs:89-111 | `parse` succeeds exactly when parentheses balance and no token is unknown; then it consumes the whole queue; tests 149-166 are instances |
| Parser.OpenThenOnlySkippedPanics | src/parser.rs:139 | a `(` followed only by comments and whitespace hits the `last_token.unwrap()` panic |
| Evaluator.Builtins | src/evaluator.rs:42-54 | the table binds exactly the 11 operator names, each to the builtin function value |
| Evaluator.Environment.constructor | src/evaluator.rs:41-60 | the new environment locally binds exactly the 11 operator names, keeps the given parent, and resolves those names itself |
| Evaluator.Environment.Get | src/evaluator.rs:62-71 | a local binding wins whatever the parent holds; on a local miss, the parent's answer or absent; equals lookup in the merged chain `Scope()` |
| Evaluator.Environment.BoundInChain | src/evaluator.rs:62-71 | a name resolves exactly when some environment on the chain binds it locally |
| Evaluator.Environment.Set | src/evaluator.rs:73-75 | a later `Get(name)` returns the value; other names keep their answers; the parent's scope is unchanged |
| Evaluator.Evaluate | src/evaluator.rs:82-94 | atoms other than symbols and lists evaluate to themselves; a symbol succeeds exactly when bound, with that value; `()` is `Void`; a failure writes nothing |
| Evaluator.EvaluateList | src/evaluator.rs:103-116 | a failing list evaluation writes nothing |
| Evaluator.EvaluateDefine | src/evaluator.rs:118-140 | success means a symbol and a value were given, returns `Void` and binds the name to the value after the value's own writes; failure writes nothing |
| Evaluator.EvaluateIf | src/evaluator.rs:142-160 | a failing `if` writes nothing |
| Evaluator.WritesOnlyDefined | src/evaluator.rs:118-140 | evaluation writes only names bound by a `define` form inside the evaluated object |
| Evaluator.DefineThenLookup | src/evaluator.rs:118-140 | after `(define x e)` the name `x` looks up to the value of `e`, and nothing else changes beyond what `e` wrote |
| Evaluator.DefineFailures | src/evaluator.rs:118-136 | no operands, a non-symbol name, a missing value and a failing value are errors that write nothing; success exactly otherwise |
| Evaluator.IfSelects | src/evaluator.rs:142-159 | literal `true` takes the first operand after the condition; `false` or no condition takes the second; a missing chosen operand is an error |
| Evaluator.ParsedIfNeverSelects | src/evaluator.rs:142-150 | a top-level `(if c ...)` returned by `parse` always evaluates to the `ConditionNotLiteral(c)` error and writes nothing, whatever the scope |
| Evaluator.EvalSymbol | src/evaluator.rs:96-101 | succeeds exactly when the name is bound in the chain, with that value; otherwise `SymbolNotFound` |
| Evaluator.Eval | src/evaluator.rs:78-80 | result and new local table are those of `Evaluate`; names no `define` inside mentions keep their bindings |
| Evaluator.EvalObj | src/evaluator.rs:82-94 | result and new local table are those of `Evaluate` |
| Evaluator.EvalList | src/evaluator.rs:103-116 | result and new local table are those of `EvaluateList` |
| Evaluator.EvalDefine | src/evaluator.rs:118-140 | result and new local table are those of `EvaluateDefine` |
| Evaluator.EvalIf | src/evaluator.rs:142-160 | result and new local table are those of `EvaluateIf` |

## Left out

- `src/main.rs` (command line, file reading, printing): input/output.
- nom and nom_locate plumbing (`alt`, `fold_many0`, `LocatedSpan`, `position`): the matchers work directly on `seq<char>` with an explicit offset, line and byte column.
- Lexer.MatchNumeric: the `f64` value of a `Float` token is not computed; the payload is the recognised text. `str::parse::<f64>` accepts every text `recognize_float` recognises, so the `UNKNOWN` branch is never taken and is not modelled.
- Lexer.RecognizeFloat: nom's `cut` on an exponent without digits aborts the whole `tokenize`; it is modelled as the error `ExponentWithoutDigits`, and nom's recoverable errors as "no match".
- Lexer.IsWhitespace: Rust's `char::is_whitespace` is written out as the Unicode White_Space code points.
- Locations.Location.SetFilename: returns the updated copy instead of updating the field in place. A location is copied wherever it is stored, so no other holder can see the difference.
- Parser.ParseListSpec: the panic on `last_token.unwrap()` is the error value `UnclosedEmptyList` rather than a crash.
- Evaluator.EvalIf: the `unimplemented!` panic for a condition that is not a boolean literal is the error `ConditionNotLiteral`.
- Evaluator.EvalList: the `unreachable!` panic for a list whose head is not a symbol is the error `HeadNotSymbol`. `lambda` and function calls (stubs with no behaviour) are the error `NotImplemented`.
- `eval_function_definition`, `eval_function_call`, `eval_builtin_func`, `eval_builtin_plus_func`: stubs with no behaviour.
- `create_builtin_funcdef` and `is_builtin`: the operator names are bound to one fixed function value with an empty body and no location. The `"__builtin__"` file-name marker sits on a `Param` with a `kind` field and an optional `loc`, while the parser's `Param` (src/parser.rs:12-16) has no `kind` and a plain `loc`, so the marker is not modelled.
- `Object::Module`, `FunctionDefinition`, `ParamKind`: used by the evaluator but not defined by the parser. The model uses the parser's `Object`, whose `Lambda` holds a body of objects.
- `Object { loc: None }` in the evaluator: the parser's `Object` always has a location, so synthesised `Void` values carry a location with no file, line 0 and column 0.
- `Rc<RefCell<Environment>>`: modelled as a heap reference; a shared parent is an ordinary object reference, and borrowing errors cannot arise in single-threaded code that does not hold a borrow across evaluation.
- Display and Debug formatting, and the text of error messages: errors are datatype values.
