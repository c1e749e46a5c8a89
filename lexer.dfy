/** The tokenizer (src/lexer.rs). Each matcher looks at the start of the
    remaining input and either recognises one token, reporting its kind and
    how many characters it consumed, or declines. `tokenize` tries the
    matchers in a fixed order at each position and stops at the first
    position where none applies. The nom combinators of the source are
    written out directly over `seq<char>`. */
module Lexer {
  import opened Wrappers
  import opened Locations

  /** Rust's `i128`. */
  newtype i128 = x: int | -0x8000_0000_0000_0000_0000_0000_0000_0000 <= x < 0x8000_0000_0000_0000_0000_0000_0000_0000

  /** The payload of a `Float` token. The conversion to `f64` is not modelled:
      the payload is the text that was recognised as a number. */
  datatype Float64 = Float64(text: string)

  datatype TokenKind =
    | LeftParenthesis
    | RightParenthesis
    | Integer(n: i128)
    | Float(x: Float64)
    | Str(s: string)
    | Symbol(name: string)
    | Comment(text: string)
    | Ignore
    | Unknown

  /** `Token::loc` and `Token::kind` are the two destructors. */
  datatype Token = Token(loc: Location, kind: TokenKind)

  /** A recognised token kind together with the number of characters consumed. */
  datatype Match = Match(kind: TokenKind, len: nat)

  /** What one of nom's parsers reports: a match, a recoverable error (the
      next alternative is tried), or a `cut` failure that aborts everything. */
  datatype Lexed = Matched(m: Match) | NoMatch | Fatal

  // ---------------------------------------------------------------------
  // Character classes

  /** Rust's `char::is_whitespace`: the Unicode White_Space property. */
  predicate IsWhitespace(c: char) {
    var n := c as int;
    (0x09 <= n <= 0x0D) || n == 0x20 || n == 0x85 || n == 0xA0 || n == 0x1680
    || (0x2000 <= n <= 0x200A) || n == 0x2028 || n == 0x2029 || n == 0x202F
    || n == 0x205F || n == 0x3000
  }

  /** A character that may appear in a symbol: neither whitespace nor one of
      the four characters `( ) " '`. */
  predicate IsSymbolChar(c: char) {
    !IsWhitespace(c) && c != '(' && c != ')' && c != '"' && c != '\''
  }

  predicate IsDigit(c: char) {
    '0' as int <= c as int <= '9' as int
  }

  predicate IsSign(c: char) {
    c == '+' || c == '-'
  }

  predicate NotNewline(c: char) {
    c != '\n'
  }

  /** Length of the longest prefix of `s` whose characters all satisfy `p`
      (nom's `take_while`; `take_till(q)` is `take_while(!q)`). */
  function TakeWhile(s: seq<char>, p: char -> bool): (n: nat)
    ensures n <= |s|
    ensures forall i :: 0 <= i < n ==> p(s[i])
    ensures n < |s| ==> !p(s[n])
  {
    if s == [] || !p(s[0]) then 0 else 1 + TakeWhile(s[1..], p)
  }

  // ---------------------------------------------------------------------
  // The matchers

  /** `match_paren`: a single `(` or `)`. */
  function MatchParen(s: seq<char>): (r: Option<Match>)
    ensures r.Some? <==> |s| > 0 && (s[0] == '(' || s[0] == ')')
    ensures r.Some? ==> r.value.len == 1
    ensures r.Some? ==> (r.value.kind == LeftParenthesis <==> s[0] == '(')
    ensures r.Some? ==> (r.value.kind == RightParenthesis <==> s[0] == ')')
  {
    if |s| > 0 && s[0] == '(' then Some(Match(LeftParenthesis, 1))
    else if |s| > 0 && s[0] == ')' then Some(Match(RightParenthesis, 1))
    else None
  }

  /** What nom's `recognize_float` reports: the length of the recognised
      number, no number at all, or the `cut` failure raised when an exponent
      marker is not followed by digits. */
  datatype Recognized = Recognized(len: nat) | NotRecognized | CutFailure

  /** `recognize_float`: an optional sign, then either digits optionally
      followed by `.` and optional digits, or `.` followed by digits, then an
      optional exponent `e`/`E`, optional sign, digits. */
  function RecognizeFloat(s: seq<char>): (r: Recognized)
    ensures r.Recognized? ==> 0 < r.len <= |s|
  {
    var sign := if |s| > 0 && IsSign(s[0]) then 1 else 0;
    var intDigits := TakeWhile(s[sign..], IsDigit);
    var mantissa :=
      if intDigits > 0 then
        var p := sign + intDigits;
        if p < |s| && s[p] == '.' then p + 1 + TakeWhile(s[p + 1..], IsDigit) else p
      else if sign < |s| && s[sign] == '.' && TakeWhile(s[sign + 1..], IsDigit) > 0 then
        sign + 1 + TakeWhile(s[sign + 1..], IsDigit)
      else 0;
    if mantissa == 0 then NotRecognized
    else if mantissa < |s| && (s[mantissa] == 'e' || s[mantissa] == 'E') then
      var expSign := if mantissa + 1 < |s| && IsSign(s[mantissa + 1]) then 1 else 0;
      var expDigits := TakeWhile(s[mantissa + 1 + expSign..], IsDigit);
      if expDigits == 0 then CutFailure else Recognized(mantissa + 1 + expSign + expDigits)
    else Recognized(mantissa)
  }

  /** The decimal value of a string of digits. */
  function DigitsValue(d: seq<char>): nat
    requires forall i :: 0 <= i < |d| ==> IsDigit(d[i])
  {
    if d == [] then 0
    else
      assert IsDigit(d[|d| - 1]);
      DigitsValue(d[..|d| - 1]) * 10 + (d[|d| - 1] as int - '0' as int)
  }

  /** `str::parse::<i128>`: an optional sign followed by at least one digit
      and nothing else, whose value lies in the `i128` range. */
  function ParseI128(t: seq<char>): (r: Option<i128>)
    ensures r.Some? ==> |t| > 0 && forall i :: 0 <= i < |t| ==> IsDigit(t[i]) || (i == 0 && IsSign(t[i]))
    ensures r.Some? && IsDigit(t[0]) ==> r.value as int == DigitsValue(t)
    ensures r.Some? && t[0] == '-' ==> r.value as int == -(DigitsValue(t[1..]) as int)
  {
    var sign := if |t| > 0 && IsSign(t[0]) then 1 else 0;
    var d := t[sign..];
    if |d| == 0 || TakeWhile(d, IsDigit) != |d| then None
    else
      var magnitude: int := DigitsValue(d);
      var v := if sign == 1 && t[0] == '-' then -magnitude else magnitude;
      if -0x8000_0000_0000_0000_0000_0000_0000_0000 <= v < 0x8000_0000_0000_0000_0000_0000_0000_0000
      then Some(v as i128) else None
  }

  /** `match_numeric`: the recognised text becomes an `Integer` when it parses
      as an `i128`, and a `Float` otherwise (every text `recognize_float`
      accepts parses as an `f64`, so the `UNKNOWN` branch is never taken). */
  function MatchNumeric(s: seq<char>): (r: Lexed)
    ensures r.Matched? ==> 0 < r.m.len <= |s| && (r.m.kind.Integer? || r.m.kind.Float?)
    ensures r.Matched? <==> RecognizeFloat(s).Recognized?
    ensures r.Fatal? <==> RecognizeFloat(s).CutFailure?
    ensures r.Matched? ==> r.m.len == RecognizeFloat(s).len
    ensures r.Matched? ==> (r.m.kind.Integer? <==> ParseI128(s[..r.m.len]).Some?)
    ensures r.Matched? && r.m.kind.Integer? ==> ParseI128(s[..r.m.len]) == Some(r.m.kind.n)
  {
    match RecognizeFloat(s)
    case NotRecognized => NoMatch
    case CutFailure => Fatal
    case Recognized(n) =>
      var text := s[..n];
      var i := ParseI128(text);
      if i.Some? then Matched(Match(Integer(i.value), n))
      else Matched(Match(Float(Float64(text)), n))
  }

  /** `TakeWhile` is pinned down by its contract: a prefix on which `p`
      holds, ending at the end of `s` or at a character refusing `p`. */
  lemma {:induction false} TakeWhileExact(s: seq<char>, p: char -> bool, k: nat)
    requires k <= |s|
    requires forall i :: 0 <= i < k ==> p(s[i])
    requires k < |s| ==> !p(s[k])
    ensures TakeWhile(s, p) == k
  {
    if k > 0 {
      TakeWhileExact(s[1..], p, k - 1);
    }
  }

  /** A run of digits that is not followed by `.`, `e`, `E` or another
      digit, and whose value fits in an `i128`, lexes as that `Integer`. */
  lemma DigitRunIsInteger(s: seq<char>, k: nat)
    requires 0 < k <= |s|
    requires forall i :: 0 <= i < k ==> IsDigit(s[i])
    requires k < |s| ==> !IsDigit(s[k]) && s[k] != '.' && s[k] != 'e' && s[k] != 'E'
    requires DigitsValue(s[..k]) < 0x8000_0000_0000_0000_0000_0000_0000_0000
    ensures MatchNumeric(s) == Matched(Match(Integer(DigitsValue(s[..k]) as i128), k))
  {
    TakeWhileExact(s, IsDigit, k);
    assert s[0..] == s;
    assert RecognizeFloat(s) == Recognized(k);
    var d := s[..k];
    assert d[0..] == d;
    TakeWhileExact(d, IsDigit, k);
  }

  /** A digit run directly followed by `e` or `E`, an optional sign and no
      exponent digits is the `cut` failure of `recognize_float`, not a
      number followed by a symbol; a text starting with it does not
      tokenize at all. */
  lemma ExponentWithoutDigitsIsFatal(s: seq<char>, k: nat, fname: string)
    requires 0 < k < |s|
    requires forall i :: 0 <= i < k ==> IsDigit(s[i])
    requires s[k] == 'e' || s[k] == 'E'
    requires var j := if k + 1 < |s| && IsSign(s[k + 1]) then k + 2 else k + 1;
      j == |s| || !IsDigit(s[j])
    ensures MatchNumeric(s) == Fatal
    ensures Tokens(s, fname).Err?
  {
    assert !IsSign(s[0]) && s[0..] == s;
    TakeWhileExact(s, IsDigit, k);
    var j := if k + 1 < |s| && IsSign(s[k + 1]) then k + 2 else k + 1;
    if j < |s| {
      TakeWhileExact(s[j..], IsDigit, 0);
    }
    assert MatchPattern(s) == Fatal;
    assert s[0..] == s;
  }

  /** The body scan of `match_string_helper`, as a function: the characters
      of a string literal after its opening quote, with every escaping
      backslash dropped, and the number of characters consumed before the
      closing quote. */
  function Scan(rest: string): (r: (string, nat))
    ensures |r.0| <= r.1 <= |rest|
    ensures r.1 < |rest| ==> rest[r.1] == '"'
  {
    if rest == [] || rest[0] == '"' then ([], 0)
    else if rest[0] != '\\' then
      var t := Scan(rest[1..]);
      ([rest[0]] + t.0, t.1 + 1)
    else if |rest| == 1 then ([], 1)
    else
      var t := Scan(rest[2..]);
      ([rest[1]] + t.0, t.1 + 2)
  }

  /** One step of `Scan` at position `i` of `rest`. */
  lemma ScanAt(rest: string, i: nat)
    requires i < |rest| && rest[i] != '"'
    ensures rest[i] != '\\' ==> Scan(rest[i..]) == ([rest[i]] + Scan(rest[i + 1..]).0, Scan(rest[i + 1..]).1 + 1)
    ensures rest[i] == '\\' && i + 1 < |rest| ==> Scan(rest[i..]) == ([rest[i + 1]] + Scan(rest[i + 2..]).0, Scan(rest[i + 2..]).1 + 2)
    ensures rest[i] == '\\' && i + 1 == |rest| ==> Scan(rest[i..]) == ([], 1)
  {
    assert rest[i..][1..] == rest[i + 1..];
    if i + 1 < |rest| {
      assert rest[i..][2..] == rest[i + 2..];
    }
  }

  /** `match_string_helper`: walks the input, copying characters until an
      unescaped `"`; a backslash is dropped and the character after it is
      copied as it is. */
  method MatchStringHelper(rest: string) returns (body: string, counter: nat)
    ensures (body, counter) == Scan(rest)
  {
    body, counter := [], 0;
    var i := 0;  // position of the character iterator
    assert rest[i..] == rest;
    while true
      invariant i <= |rest| && counter == i
      invariant Scan(rest).0 == body + Scan(rest[i..]).0
      invariant Scan(rest).1 == counter + Scan(rest[i..]).1
      decreases |rest| - i
    {
      if i == |rest| || rest[i] == '"' {
        assert body + [] == body;
        break;
      }
      var current := rest[i];
      ScanAt(rest, i);
      i := i + 1;
      counter := counter + 1;
      if current != '\\' {
        assert body + ([current] + Scan(rest[i..]).0) == (body + [current]) + Scan(rest[i..]).0;
        body := body + [current];
        continue;
      }
      if i < |rest| {
        counter := counter + 1;
        assert body + ([rest[i]] + Scan(rest[i + 1..]).0) == (body + [rest[i]]) + Scan(rest[i + 1..]).0;
        body := body + [rest[i]];
        i := i + 1;
      } else {
        assert body + [] == body;
        break;
      }
    }
  }

  /** `match_string`: an opening `"`, the scanned body, and a closing `"`. */
  function MatchString(s: seq<char>): (r: Option<Match>)
    ensures r.Some? <==> |s| > 0 && s[0] == '"' && Scan(s[1..]).1 < |s| - 1
    ensures r.Some? ==> r.value == Match(Str(Scan(s[1..]).0), Scan(s[1..]).1 + 2)
  {
    if |s| == 0 || s[0] != '"' then None
    else
      var t := Scan(s[1..]);
      if 1 + t.1 < |s| && s[1 + t.1] == '"' then Some(Match(Str(t.0), t.1 + 2)) else None
  }

  /** The inverse of the body scan: a backslash before every `"` and every
      backslash. */
  function Escape(b: string): (e: string)
    ensures |e| >= |b|
  {
    if b == [] then []
    else EscapePiece(b[0]) + Escape(b[1..])
  }

  /** What `Escape` writes for one character. */
  function EscapePiece(c: char): string {
    if c == '"' || c == '\\' then ['\\', c] else [c]
  }

  /** The scan stops at the first `"` that is not escaped: after an escaped
      text it returns the original text and counts exactly the escaped
      characters, whatever follows the closing quote. */
  lemma {:induction false} ScanInvertsEscape(b: string, tail: string)
    ensures Scan(Escape(b) + ['"'] + tail) == (b, |Escape(b)|)
  {
    if b == [] {
      assert Escape(b) + ['"'] + tail == ['"'] + tail;
    } else {
      var piece, after := EscapePiece(b[0]), Escape(b[1..]) + ['"'] + tail;
      ScanInvertsEscape(b[1..], tail);
      assert Escape(b) + ['"'] + tail == piece + after;
      if b[0] == '"' || b[0] == '\\' {
        ScanEscaped(b[0], after);
      } else {
        ScanPlain(b[0], after);
      }
      assert Scan(after) == (b[1..], |Escape(b[1..])|);
      assert Scan(piece + after) == ([b[0]] + b[1..], |Escape(b[1..])| + |piece|);
      assert Scan(Escape(b) + ['"'] + tail) == Scan(piece + after);
      assert [b[0]] + b[1..] == b;
      assert |Escape(b)| == |piece| + |Escape(b[1..])|;
    }
  }

  /** A lone backslash at the very end is counted but not copied. */
  lemma {:induction false} ScanTrailingBackslash(b: string)
    ensures Scan(Escape(b) + ['\\']) == (b, |Escape(b)| + 1)
  {
    if b == [] {
      assert Escape(b) + ['\\'] == ['\\'];
    } else {
      var after := Escape(b[1..]) + ['\\'];
      ScanTrailingBackslash(b[1..]);
      assert Escape(b) + ['\\'] == EscapePiece(b[0]) + after;
      if b[0] == '"' || b[0] == '\\' {
        ScanEscaped(b[0], after);
      } else {
        ScanPlain(b[0], after);
      }
      assert [b[0]] + b[1..] == b;
    }
  }

  /** The steps of the two lemmas above: the scan reads back one escaped
      character and goes on with what follows. */
  lemma ScanPlain(c: char, after: string)
    requires c != '"' && c != '\\'
    ensures Scan([c] + after) == ([c] + Scan(after).0, Scan(after).1 + 1)
  {
    assert ([c] + after)[1..] == after;
  }

  lemma ScanEscaped(c: char, after: string)
    ensures Scan(['\\', c] + after) == ([c] + Scan(after).0, Scan(after).1 + 2)
  {
    var s := ['\\', c] + after;
    assert s[0] == '\\' && s[1] == c && |s| > 1;
    assert s[2..] == after;
  }

  /** `n` backslashes. */
  function Backslashes(n: nat): (r: string)
    ensures |r| == n && forall i :: 0 <= i < n ==> r[i] == '\\'
  {
    if n == 0 then [] else ['\\'] + Backslashes(n - 1)
  }

  /** The scan drops nothing but escaping backslashes: the consumed
      characters are the copied text plus `count - |text|` backslashes. */
  lemma ScanDropsOnlyBackslashes(rest: string)
    ensures var r := Scan(rest);
      multiset(rest[..r.1]) == multiset(r.0) + multiset(Backslashes(r.1 - |r.0|))
  {
    var r := Scan(rest);
    forall c | true
      ensures Count(c, rest[..r.1]) == Count(c, r.0) + if c == '\\' then r.1 - |r.0| else 0
    {
      DropsOnlyBackslashes(c, rest, rest[..r.1], r.0, r.1);
    }
    MultisetFromCounts(rest[..r.1], r.0, r.1 - |r.0|);
  }

  /** Counting every character is enough to compare multisets. */
  lemma MultisetFromCounts(a: string, b: string, k: nat)
    requires forall c :: Count(c, a) == Count(c, b) + if c == '\\' then k else 0
    ensures multiset(a) == multiset(b) + multiset(Backslashes(k))
  {
    forall c | true
      ensures multiset(a)[c] == (multiset(b) + multiset(Backslashes(k)))[c]
    {
      CountIsMultiplicity(c, a);
      CountIsMultiplicity(c, b);
      CountIsMultiplicity(c, Backslashes(k));
      CountBackslashes(c, k);
    }
  }

  /** How often `c` occurs in `s`. */
  function Count(c: char, s: string): nat {
    if s == [] then 0 else (if s[0] == c then 1 else 0) + Count(c, s[1..])
  }

  lemma {:induction false} CountIsMultiplicity(c: char, s: string)
    ensures multiset(s)[c] == Count(c, s)
  {
    if s != [] {
      CountIsMultiplicity(c, s[1..]);
      assert s == [s[0]] + s[1..];
    }
  }

  lemma {:induction false} CountBackslashes(c: char, k: nat)
    ensures Count(c, Backslashes(k)) == if c == '\\' then k else 0
  {
    if k > 0 {
      CountBackslashes(c, k - 1);
      assert Backslashes(k)[1..] == Backslashes(k - 1);
    }
  }

  /** Per character: the consumed text holds each character as often as
      the copied text, and `n - |body|` more backslashes. */
  lemma {:induction false} DropsOnlyBackslashes(c: char, rest: string, consumed: string, body: string, n: nat)
    requires Scan(rest) == (body, n) && consumed == rest[..n]
    ensures Count(c, consumed) == Count(c, body) + if c == '\\' then n - |body| else 0
    decreases |rest|, 1
  {
    if rest == [] || rest[0] == '"' {
      assert consumed == [] && body == [];
    } else {
      ScanAt(rest, 0);
      assert rest[0..] == rest;
      if rest[0] != '\\' {
        DropsCopied(c, rest, consumed, body, n);
      } else if |rest| == 1 {
        assert consumed == ['\\'] && consumed[1..] == [] && body == [];
      } else {
        DropsEscaped(c, rest, consumed, body, n);
      }
    }
  }

  /** The step of `DropsOnlyBackslashes` that copies a plain character. */
  lemma {:induction false} DropsCopied(c: char, rest: string, consumed: string, body: string, n: nat)
    requires |rest| > 0 && rest[0] != '"' && rest[0] != '\\'
    requires Scan(rest) == (body, n) && consumed == rest[..n]
    ensures Count(c, consumed) == Count(c, body) + if c == '\\' then n - |body| else 0
    decreases |rest|, 0
  {
    ScanAt(rest, 0);
    assert rest[0..] == rest;
    var t := Scan(rest[1..]);
    var tail := rest[1..][..t.1];
    assert consumed[0] == rest[0] && consumed[1..] == tail;
    assert body[0] == rest[0] && body[1..] == t.0;
    DropsOnlyBackslashes(c, rest[1..], tail, t.0, t.1);
  }

  /** The step of `DropsOnlyBackslashes` that drops a backslash and copies
      the character after it. */
  lemma {:induction false} DropsEscaped(c: char, rest: string, consumed: string, body: string, n: nat)
    requires |rest| > 1 && rest[0] == '\\'
    requires Scan(rest) == (body, n) && consumed == rest[..n]
    ensures Count(c, consumed) == Count(c, body) + if c == '\\' then n - |body| else 0
    decreases |rest|, 0
  {
    ScanAt(rest, 0);
    assert rest[0..] == rest;
    var t := Scan(rest[2..]);
    var tail := rest[2..][..t.1];
    assert consumed[0] == '\\' && consumed[1] == rest[1] && consumed[1..][1..] == tail;
    assert body[0] == rest[1] && body[1..] == t.0;
    DropsOnlyBackslashes(c, rest[2..], tail, t.0, t.1);
  }

  /** An escaped text with nothing after it is consumed whole and read
      back: escaped quotes do not stop the scan. */
  lemma {:induction false} ScanConsumesEscaped(b: string)
    ensures Scan(Escape(b)) == (b, |Escape(b)|)
  {
    if b != [] {
      var after := Escape(b[1..]);
      ScanConsumesEscaped(b[1..]);
      assert Escape(b) == EscapePiece(b[0]) + after;
      if b[0] == '"' || b[0] == '\\' {
        ScanEscaped(b[0], after);
      } else {
        ScanPlain(b[0], after);
      }
      assert [b[0]] + b[1..] == b;
    }
  }

  /** Without any `"` the scan consumes the whole input. */
  lemma {:induction false} ScanWithoutQuote(rest: string)
    requires forall i :: 0 <= i < |rest| ==> rest[i] != '"'
    ensures Scan(rest).1 == |rest|
  {
    if rest != [] && rest[0] != '"' {
      if rest[0] != '\\' {
        ScanWithoutQuote(rest[1..]);
      } else if |rest| > 1 {
        ScanWithoutQuote(rest[2..]);
      }
    }
  }

  /** A string literal made of an escaped text between two quotes lexes to
      that text and consumes the escaped text plus the two quotes. */
  lemma MatchStringOfEscaped(b: string, tail: string)
    ensures MatchString(['"'] + Escape(b) + ['"'] + tail) == Some(Match(Str(b), |Escape(b)| + 2))
  {
    var s := ['"'] + Escape(b) + ['"'] + tail;
    assert s[1..] == Escape(b) + ['"'] + tail;
    ScanInvertsEscape(b, tail);
  }

  /** An opening quote with no `"` after it is not a string token. */
  lemma MatchStringUnclosed(s: string)
    requires |s| > 0 && s[0] == '"'
    requires forall i :: 1 <= i < |s| ==> s[i] != '"'
    ensures MatchString(s).None?
  {
    ScanWithoutQuote(s[1..]);
  }

  /** `match_symbol`: the longest non-empty run of symbol characters. */
  function MatchSymbol(s: seq<char>): (r: Option<Match>)
    ensures r.Some? <==> |s| > 0 && IsSymbolChar(s[0])
    ensures r.Some? ==> 0 < r.value.len <= |s| && r.value.kind == Symbol(s[..r.value.len])
    ensures r.Some? ==> forall i :: 0 <= i < r.value.len ==> IsSymbolChar(s[i])
    ensures r.Some? && r.value.len < |s| ==> !IsSymbolChar(s[r.value.len])
  {
    var n := TakeWhile(s, IsSymbolChar);
    if n == 0 then None else Some(Match(Symbol(s[..n]), n))
  }

  /** `match_ignore`: the longest non-empty run of whitespace. */
  function MatchIgnore(s: seq<char>): (r: Option<Match>)
    ensures r.Some? <==> |s| > 0 && IsWhitespace(s[0])
    ensures r.Some? ==> 0 < r.value.len <= |s| && r.value.kind == Ignore
    ensures r.Some? ==> forall i :: 0 <= i < r.value.len ==> IsWhitespace(s[i])
    ensures r.Some? && r.value.len < |s| ==> !IsWhitespace(s[r.value.len])
  {
    var n := TakeWhile(s, IsWhitespace);
    if n == 0 then None else Some(Match(Ignore, n))
  }

  /** `match_comment`: `;;` followed by the rest of the line, without the
      line break. */
  function MatchComment(s: seq<char>): (r: Option<Match>)
    ensures r.Some? <==> |s| >= 2 && s[0] == ';' && s[1] == ';'
    ensures r.Some? ==> 2 <= r.value.len <= |s| && r.value.kind == Comment(s[2..r.value.len])
    ensures r.Some? ==> forall i :: 2 <= i < r.value.len ==> s[i] != '\n'
    ensures r.Some? && r.value.len < |s| ==> s[r.value.len] == '\n'
  {
    if |s| >= 2 && s[0] == ';' && s[1] == ';' then
      var n := TakeWhile(s[2..], NotNewline);
      Some(Match(Comment(s[2..2 + n]), 2 + n))
    else None
  }

  /** The `alt` of `match_pattern`: paren, numeric, string, symbol, comment,
      whitespace, in that order; the first that matches wins, and a `cut`
      failure of the numeric matcher aborts. */
  function MatchPattern(s: seq<char>): (r: Lexed)
    ensures r.Matched? ==> 0 < r.m.len <= |s|
  {
    if MatchParen(s).Some? then Matched(MatchParen(s).value)
    else
      match MatchNumeric(s)
      case Fatal => Fatal
      case Matched(m) => Matched(m)
      case NoMatch =>
        if MatchString(s).Some? then Matched(MatchString(s).value)
        else if MatchSymbol(s).Some? then Matched(MatchSymbol(s).value)
        else if MatchComment(s).Some? then Matched(MatchComment(s).value)
        else if MatchIgnore(s).Some? then Matched(MatchIgnore(s).value)
        else NoMatch
  }

  /** `match_symbol` is tried before `match_comment` and accepts `;`, so
      text starting with `;` (in particular a `;;` comment) is lexed as a
      `Symbol` running up to the next whitespace or `( ) " '`. */
  lemma SemicolonStartsSymbol(s: seq<char>)
    requires |s| > 0 && s[0] == ';'
    ensures MatchPattern(s) == Matched(Match(Symbol(s[..TakeWhile(s, IsSymbolChar)]), TakeWhile(s, IsSymbolChar)))
  {
    assert s[0..] == s;
    assert TakeWhile(s, IsDigit) == 0;
  }

  /** Consequently the comment matcher never wins, and `UNKNOWN` is never
      produced either. */
  lemma PatternNeverCommentOrUnknown(s: seq<char>)
    requires MatchPattern(s).Matched?
    ensures !MatchPattern(s).m.kind.Comment? && !MatchPattern(s).m.kind.Unknown?
  {
    if |s| > 0 && s[0] == ';' {
      SemicolonStartsSymbol(s);
    }
  }

  // ---------------------------------------------------------------------
  // Positions

  function NewlineWeight(c: char): nat {
    if c == '\n' then 1 else 0
  }

  /** Number of bytes `c` takes in UTF-8. */
  function Utf8Width(c: char): nat {
    if c as int < 0x80 then 1
    else if c as int < 0x800 then 2
    else if c as int < 0x1_0000 then 3
    else 4
  }

  /** Sum of `w` over the characters `content[lo..hi]`. */
  function SumRange(content: string, lo: nat, hi: nat, w: char -> nat): nat
    requires lo <= hi <= |content|
    decreases hi - lo
  {
    if lo == hi then 0 else SumRange(content, lo, hi - 1, w) + w(content[hi - 1])
  }

  lemma {:induction false} SumRangeSplit(content: string, lo: nat, mid: nat, hi: nat, w: char -> nat)
    requires lo <= mid <= hi <= |content|
    ensures SumRange(content, lo, hi, w) == SumRange(content, lo, mid, w) + SumRange(content, mid, hi, w)
    decreases hi - mid
  {
    if hi > mid {
      SumRangeSplit(content, lo, mid, hi - 1, w);
    }
  }

  /** nom_locate's `location_line`: one more than the number of line breaks
      before the offset. */
  function LineAt(content: string, off: nat): nat
    requires off <= |content|
  {
    1 + SumRange(content, 0, off, NewlineWeight)
  }

  /** nom_locate's `location_offset`, which counts bytes of the UTF-8 text,
      not characters. */
  function ByteOffset(content: string, off: nat): nat
    requires off <= |content|
  {
    SumRange(content, 0, off, Utf8Width)
  }

  // ---------------------------------------------------------------------
  // tokenize

  /** What `tokenize` returns on success: the input it could not lex (nom
      hands back the unconsumed span) and the tokens, in input order. */
  datatype Tokenized = Tokenized(rest: string, tokens: seq<Token>)

  /** The `cut` failure of `recognize_float` at the token starting at `offset`. */
  datatype LexError = ExponentWithoutDigits(offset: nat)

  /** The token `match_pattern` builds at character offset `off` once
      `tokenize` has set its file name. */
  function TokenAt(content: string, fname: string, off: nat, kind: TokenKind): Token
    requires off <= |content|
  {
    Token(Location(Some(fname), LineAt(content, off), ByteOffset(content, off) + 1), kind)
  }

  /** A matcher that consumes at least one character whenever it matches.
      `fold_many0` refuses a parser that succeeds without consuming; every
      matcher used here consumes. */
  ghost predicate Consumes(step: seq<char> -> Lexed) {
    forall s :: step(s).Matched? ==> 0 < step(s).m.len <= |s|
  }

  lemma MatchPatternConsumes()
    ensures Consumes(MatchPattern)
  {
    forall s | MatchPattern(s).Matched? ensures 0 < MatchPattern(s).m.len <= |s| {
    }
  }

  /** `fold_many0` with the accumulator of `tokenize`, from character offset
      `off` on: apply `step` until it declines, collecting one token per match. */
  function FoldTokens(step: seq<char> -> Lexed, content: string, fname: string, off: nat): (r: Result<Tokenized, LexError>)
    requires off <= |content| && Consumes(step)
    decreases |content| - off
  {
    match step(content[off..])
    case NoMatch => Ok(Tokenized(content[off..], []))
    case Fatal => Err(ExponentWithoutDigits(off))
    case Matched(m) =>
      var tok := TokenAt(content, fname, off, m.kind);
      match FoldTokens(step, content, fname, off + m.len)
      case Err(e) => Err(e)
      case Ok(t) => Ok(Tokenized(t.rest, [tok] + t.tokens))
  }

  /** What `tokenize` returns for `content` read from the file `fname`. */
  function Tokens(content: string, fname: string): Result<Tokenized, LexError> {
    MatchPatternConsumes();
    FoldTokens(MatchPattern, content, fname, 0)
  }

  /** `tokens` followed by whatever the rest of the fold produced. */
  function Prepend(tokens: seq<Token>, r: Result<Tokenized, LexError>): Result<Tokenized, LexError> {
    match r
    case Err(e) => Err(e)
    case Ok(t) => Ok(Tokenized(t.rest, tokens + t.tokens))
  }

  /** One step of the fold: the token at `off` moves into the accumulator. */
  lemma PrependStep(step: seq<char> -> Lexed, content: string, fname: string, off: nat, m: Match, acc: seq<Token>)
    requires off <= |content| && Consumes(step) && step(content[off..]) == Matched(m)
    ensures off + m.len <= |content|
    ensures Prepend(acc, FoldTokens(step, content, fname, off))
      == Prepend(acc + [TokenAt(content, fname, off, m.kind)], FoldTokens(step, content, fname, off + m.len))
  {
    match FoldTokens(step, content, fname, off + m.len)
    case Err(_) =>
    case Ok(t) =>
      assert acc + ([TokenAt(content, fname, off, m.kind)] + t.tokens)
        == (acc + [TokenAt(content, fname, off, m.kind)]) + t.tokens;
  }

  lemma PrependNothing(r: Result<Tokenized, LexError>)
    ensures Prepend([], r) == r
  {
    match r
    case Ok(t) => assert [] + t.tokens == t.tokens;
    case Err(_) =>
  }

  /** The `fold_many0` loop: apply `step`, stamp the token with its line, its
      column (byte offset plus one) and the file name, append it. */
  method FoldMany0(step: seq<char> -> Lexed, fname: string, content: string) returns (r: Result<Tokenized, LexError>)
    requires Consumes(step)
    ensures r == FoldTokens(step, content, fname, 0)
  {
    var acc: seq<Token> := [];
    var off := 0;
    PrependNothing(FoldTokens(step, content, fname, 0));
    while true
      invariant off <= |content|
      invariant FoldTokens(step, content, fname, 0) == Prepend(acc, FoldTokens(step, content, fname, off))
      decreases |content| - off
    {
      var next := step(content[off..]);
      if next.NoMatch? {
        assert acc + [] == acc;
        return Ok(Tokenized(content[off..], acc));
      } else if next.Fatal? {
        return Err(ExponentWithoutDigits(off));
      }
      var m := next.m;
      var loc := New(None, LineAt(content, off), ByteOffset(content, off) + 1);
      loc := loc.SetFilename(fname);
      PrependStep(step, content, fname, off, m, acc);
      assert Token(loc, m.kind) == TokenAt(content, fname, off, m.kind);
      acc := acc + [Token(loc, m.kind)];
      off := off + m.len;
    }
  }

  lemma {:induction false} SumRangeAtLeast(content: string, lo: nat, hi: nat, w: char -> nat)
    requires lo <= hi <= |content|
    requires forall c :: w(c) >= 1
    ensures SumRange(content, lo, hi, w) >= hi - lo
    decreases hi - lo
  {
    if hi > lo {
      SumRangeAtLeast(content, lo, hi - 1, w);
    }
  }

  /** Lines never decrease and byte offsets grow at least as fast as
      character offsets. */
  lemma PositionsMonotone(content: string, a: nat, b: nat)
    requires a <= b <= |content|
    ensures LineAt(content, a) <= LineAt(content, b)
    ensures ByteOffset(content, a) + (b - a) <= ByteOffset(content, b)
  {
    SumRangeSplit(content, 0, a, b, NewlineWeight);
    SumRangeSplit(content, 0, a, b, Utf8Width);
    SumRangeAtLeast(content, a, b, Utf8Width);
  }

  /** Every token has the file name, a line at least `line`, a column at
      least `col`, and is neither a comment nor `UNKNOWN`. */
  ghost predicate StampedFrom(ts: seq<Token>, fname: string, line: nat, col: nat) {
    forall i :: 0 <= i < |ts| ==>
      && ts[i].loc.filename == Some(fname) && ts[i].loc.rol >= line && ts[i].loc.col >= col
      && !ts[i].kind.Comment? && !ts[i].kind.Unknown?
  }

  /** Every token is what `step` matches at some offset of `content`:
      the kind of that match, stamped with the file name, line `LineAt`
      and column byte offset plus one. */
  ghost predicate AtOffsets(step: seq<char> -> Lexed, ts: seq<Token>, content: string, fname: string) {
    forall i :: 0 <= i < |ts| ==> MatchedAt(step, ts[i], content, fname)
  }

  ghost predicate MatchedAt(step: seq<char> -> Lexed, t: Token, content: string, fname: string) {
    exists off: nat :: off <= |content| && step(content[off..]).Matched?
      && t == TokenAt(content, fname, off, step(content[off..]).m.kind)
  }

  /** Columns strictly increase and lines never decrease along the tokens. */
  ghost predicate InInputOrder(ts: seq<Token>) {
    forall i, j :: 0 <= i < j < |ts| ==> ts[i].loc.col < ts[j].loc.col && ts[i].loc.rol <= ts[j].loc.rol
  }

  /** A matcher that never yields a comment or an `UNKNOWN` token. */
  ghost predicate NeverCommentOrUnknown(step: seq<char> -> Lexed) {
    forall s :: step(s).Matched? ==> !step(s).m.kind.Comment? && !step(s).m.kind.Unknown?
  }

  lemma MatchPatternNeverCommentOrUnknown()
    ensures NeverCommentOrUnknown(MatchPattern)
  {
    forall s | MatchPattern(s).Matched?
      ensures !MatchPattern(s).m.kind.Comment? && !MatchPattern(s).m.kind.Unknown?
    {
      PatternNeverCommentOrUnknown(s);
    }
  }

  lemma {:induction false} FoldTokensFacts(step: seq<char> -> Lexed, content: string, fname: string, off: nat)
    requires off <= |content| && Consumes(step) && NeverCommentOrUnknown(step)
    ensures var r := FoldTokens(step, content, fname, off);
      r.Ok? ==>
        && StampedFrom(r.value.tokens, fname, LineAt(content, off), ByteOffset(content, off) + 1)
        && InInputOrder(r.value.tokens)
        && AtOffsets(step, r.value.tokens, content, fname)
        && |r.value.rest| <= |content| - off
        && r.value.rest == content[|content| - |r.value.rest|..]
        && step(r.value.rest).NoMatch?
    decreases |content| - off
  {
    var r := FoldTokens(step, content, fname, off);
    match step(content[off..])
    case NoMatch =>
    case Fatal =>
    case Matched(m) =>
      var next := off + m.len;
      FoldTokensFacts(step, content, fname, next);
      PositionsMonotone(content, off, next);
      if r.Ok? {
        var tail := FoldTokens(step, content, fname, next).value.tokens;
        assert r.value.tokens == [TokenAt(content, fname, off, m.kind)] + tail;
        StampedPrepend(TokenAt(content, fname, off, m.kind), tail, fname, LineAt(content, next), ByteOffset(content, next) + 1);
        AtOffsetsPrepend(step, TokenAt(content, fname, off, m.kind), tail, content, fname, off);
      }
  }

  lemma AtOffsetsPrepend(step: seq<char> -> Lexed, t: Token, tail: seq<Token>, content: string, fname: string, off: nat)
    requires off <= |content| && step(content[off..]).Matched?
    requires t == TokenAt(content, fname, off, step(content[off..]).m.kind)
    requires AtOffsets(step, tail, content, fname)
    ensures AtOffsets(step, [t] + tail, content, fname)
  {
    var ts := [t] + tail;
    assert MatchedAt(step, t, content, fname);
    forall i | 0 <= i < |ts|
      ensures MatchedAt(step, ts[i], content, fname)
    {
      if i > 0 {
        assert ts[i] == tail[i - 1];
      }
    }
  }

  /** The step of `FoldTokensFacts`: a token placed before tokens that all
      lie at or after a later position keeps both properties. */
  lemma StampedPrepend(t: Token, tail: seq<Token>, fname: string, line: nat, col: nat)
    requires StampedFrom(tail, fname, line, col) && InInputOrder(tail)
    requires t.loc.filename == Some(fname) && !t.kind.Comment? && !t.kind.Unknown?
    requires t.loc.rol <= line && t.loc.col < col
    ensures StampedFrom([t] + tail, fname, t.loc.rol, t.loc.col)
    ensures InInputOrder([t] + tail)
  {
    var ts := [t] + tail;
    forall i, j | 0 <= i < j < |ts|
      ensures ts[i].loc.col < ts[j].loc.col && ts[i].loc.rol <= ts[j].loc.rol
    {
      assert ts[j] == tail[j - 1];
      if i > 0 {
        assert ts[i] == tail[i - 1];
      }
    }
  }

  /** What `tokenize` promises about its tokens and about where it stops:
      each token carries the file name, a line from 1 on and a column from
      1 on; it is what `match_pattern` matches at some offset of the
      content, with the line `LineAt` and the column the byte offset plus
      one of that offset; columns strictly increase and lines
      never decrease; no token is a comment or `UNKNOWN`; the tokens are
      the successive matches from offset 0, each starting where the one
      before ended, and the input left over starts right after the last
      of them and is a suffix at which no matcher applies. */
  lemma TokensFacts(content: string, fname: string)
    ensures var r := Tokens(content, fname);
      r.Ok? ==>
        && StampedFrom(r.value.tokens, fname, 1, 1)
        && InInputOrder(r.value.tokens)
        && AtOffsets(MatchPattern, r.value.tokens, content, fname)
        && |r.value.rest| <= |content|
        && r.value.rest == content[|content| - |r.value.rest|..]
        && MatchPattern(r.value.rest).NoMatch?
        && exists offs :: TiledBy(MatchPattern, offs, r.value.tokens, content, fname, 0, r.value.rest)
  {
    MatchPatternConsumes();
    MatchPatternNeverCommentOrUnknown();
    FoldTokensFacts(MatchPattern, content, fname, 0);
    FoldTokensTiles(MatchPattern, content, fname, 0);
  }

  /** `t` is what `step` matches at offset `a`, stamped there, and the match
      ends at offset `b`. */
  ghost predicate PieceAt(step: seq<char> -> Lexed, a: nat, b: nat, t: Token, content: string, fname: string) {
    a < b <= |content| && step(content[a..]) == Matched(Match(t.kind, b - a))
    && t == TokenAt(content, fname, a, t.kind)
  }

  /** The tokens `ts` cover `content` from `off` without gap or overlap:
      token `i` is the match from `offs[i]` to `offs[i + 1]`, and `rest` is
      what follows the last of them. */
  ghost predicate TiledBy(step: seq<char> -> Lexed, offs: seq<nat>, ts: seq<Token>, content: string,
                          fname: string, off: nat, rest: string) {
    && |offs| == |ts| + 1 && offs[0] == off && offs[|ts|] <= |content|
    && rest == content[offs[|ts|]..]
    && forall i :: 0 <= i < |ts| ==> PieceAt(step, offs[i], offs[i + 1], ts[i], content, fname)
  }

  /** A piece in front of a tiling that starts where the piece ends. */
  lemma TiledCons(step: seq<char> -> Lexed, off: nat, next: nat, t: Token, offs: seq<nat>, ts: seq<Token>,
                  content: string, fname: string, rest: string)
    requires PieceAt(step, off, next, t, content, fname)
    requires TiledBy(step, offs, ts, content, fname, next, rest)
    ensures TiledBy(step, [off] + offs, [t] + ts, content, fname, off, rest)
  {
    var offs', ts' := [off] + offs, [t] + ts;
    forall i | 0 <= i < |ts'|
      ensures PieceAt(step, offs'[i], offs'[i + 1], ts'[i], content, fname)
    {
      if i > 0 {
        assert offs'[i] == offs[i - 1] && offs'[i + 1] == offs[i] && ts'[i] == ts[i - 1];
      }
    }
  }

  /** The fold from `off` tiles the rest of the content with its tokens. */
  lemma {:induction false} FoldTokensTiles(step: seq<char> -> Lexed, content: string, fname: string, off: nat)
    requires off <= |content| && Consumes(step)
    ensures var r := FoldTokens(step, content, fname, off);
      r.Ok? ==> exists offs :: TiledBy(step, offs, r.value.tokens, content, fname, off, r.value.rest)
    decreases |content| - off
  {
    var r := FoldTokens(step, content, fname, off);
    match step(content[off..])
    case NoMatch =>
      assert TiledBy(step, [off], [], content, fname, off, content[off..]);
    case Fatal =>
    case Matched(m) =>
      var next := off + m.len;
      FoldTokensTiles(step, content, fname, next);
      if r.Ok? {
        var tail := FoldTokens(step, content, fname, next).value;
        var t := TokenAt(content, fname, off, m.kind);
        assert r.value == Tokenized(tail.rest, [t] + tail.tokens);
        var offs :| TiledBy(step, offs, tail.tokens, content, fname, next, tail.rest);
        assert m == Match(t.kind, next - off);
        TiledCons(step, off, next, t, offs, tail.tokens, content, fname, tail.rest);
      }
  }

  /** `tokenize`: `fold_many0` over `match_pattern`. */
  method Tokenize(fname: string, content: string) returns (r: Result<Tokenized, LexError>)
    ensures r == Tokens(content, fname)
  {
    MatchPatternConsumes();
    r := FoldMany0(MatchPattern, fname, content);
  }
}
