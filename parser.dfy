/** The reader (src/parser.rs): turns the token queue produced by the
    tokenizer into a sequence of nested objects. `parse` handles the top
    level and `parse_list` the inside of a list whose `(` has already been
    taken; both pop tokens off the front of one shared queue. */
module Parser {
  import opened Wrappers
  import opened Locations
  import Lexer

  /** `Object`; `Object::loc` is the destructor `loc` every variant has. */
  datatype Object =
    | Void(loc: Location)
    | Integer(n: Lexer.i128, loc: Location)
    | Float(x: Lexer.Float64, loc: Location)
    | Bool(b: bool, loc: Location)
    | Str(s: string, loc: Location)
    | Symbol(name: string, loc: Location)
    | Lambda(body: seq<Object>, loc: Location)
    | List(items: seq<Object>, loc: Location)

  /** The reasons `parse` gives up. `UnclosedEmptyList` is the case where the
      source panics on `last_token.unwrap()`: a list is still open when the
      tokens run out and nothing but comments and whitespace followed its
      `(`. */
  datatype ParseError =
    | UnknownToken(at: Location)
    | UnexpectedRightParenthesis(at: Location)
    | UnclosedList(at: Location)
    | UnclosedEmptyList

  /** The outcome of a parse together with the tokens still in the queue. */
  datatype Parsed = Parsed(result: Result<seq<Object>, ParseError>, rest: seq<Lexer.Token>)

  predicate IsSkipped(k: Lexer.TokenKind) {
    k.Comment? || k.Ignore?
  }

  predicate IsAtom(k: Lexer.TokenKind) {
    k.Integer? || k.Float? || k.Str? || k.Symbol?
  }

  /** The object an atom token becomes: same kind, same value, same location. */
  function AtomObject(t: Lexer.Token): (o: Object)
    requires IsAtom(t.kind)
    ensures o.loc == t.loc
  {
    match t.kind
    case Integer(n) => Integer(n, t.loc)
    case Float(x) => Float(x, t.loc)
    case Str(s) => Str(s, t.loc)
    case Symbol(name) => Symbol(name, t.loc)
  }

  /** `o` in front of the objects of a successful parse; errors pass through. */
  function Cons(o: Object, p: Parsed): Parsed {
    if p.result.Ok? then Parsed(Ok([o] + p.result.value), p.rest) else p
  }

  /** `parse_list` as a function of the queue: the objects up to the `)`
      that closes the list and the tokens after it. `last` is the token
      most recently taken into this list, which locates the "unclosed list"
      error. */
  function ParseListSpec(ts: seq<Lexer.Token>, last: Option<Lexer.Token>): (r: Parsed)
    ensures |r.rest| <= |ts|
    ensures r.result.Ok? ==> |r.rest| < |ts|
    decreases |ts|
  {
    if ts == [] then
      Parsed(Err(if last.Some? then UnclosedList(last.value.loc) else UnclosedEmptyList), [])
    else
      var t := ts[0];
      if IsSkipped(t.kind) then ParseListSpec(ts[1..], last)
      else if t.kind.Unknown? then Parsed(Err(UnknownToken(t.loc)), ts[1..])
      else if t.kind.RightParenthesis? then Parsed(Ok([]), ts[1..])
      else if t.kind.LeftParenthesis? then
        var inner := ParseListSpec(ts[1..], None);
        if inner.result.Err? then inner
        else Cons(List(inner.result.value, t.loc), ParseListSpec(inner.rest, Some(t)))
      else Cons(AtomObject(t), ParseListSpec(ts[1..], Some(t)))
  }

  /** `parse` as a function of the queue. */
  function ParseTop(ts: seq<Lexer.Token>): (r: Parsed)
    ensures |r.rest| <= |ts|
    decreases |ts|
  {
    if ts == [] then Parsed(Ok([]), [])
    else
      var t := ts[0];
      if IsSkipped(t.kind) then ParseTop(ts[1..])
      else if t.kind.Unknown? then Parsed(Err(UnknownToken(t.loc)), ts[1..])
      else if t.kind.RightParenthesis? then Parsed(Err(UnexpectedRightParenthesis(t.loc)), ts[1..])
      else if t.kind.LeftParenthesis? then
        var inner := ParseListSpec(ts[1..], None);
        if inner.result.Err? then inner
        else Cons(List(inner.result.value, t.loc), ParseTop(inner.rest))
      else Cons(AtomObject(t), ParseTop(ts[1..]))
  }

  /** `objs` in front of the objects of a successful parse. */
  function Prepended(objs: seq<Object>, p: Parsed): Parsed {
    if p.result.Ok? then Parsed(Ok(objs + p.result.value), p.rest) else p
  }

  lemma PrependedCons(objs: seq<Object>, o: Object, p: Parsed)
    ensures Prepended(objs, Cons(o, p)) == Prepended(objs + [o], p)
  {
    if p.result.Ok? {
      assert objs + ([o] + p.result.value) == (objs + [o]) + p.result.value;
    }
  }

  lemma PrependedNothing(p: Parsed)
    ensures Prepended([], p) == p
  {
    if p.result.Ok? {
      assert [] + p.result.value == p.result.value;
    }
  }

  /** The `VecDeque<Token>` both parsing functions consume in place. */
  class TokenQueue {
    var tokens: seq<Lexer.Token>

    constructor (tokens: seq<Lexer.Token>)
      ensures this.tokens == tokens
    {
      this.tokens := tokens;
    }

    /** `VecDeque::pop_front`. */
    method PopFront() returns (t: Option<Lexer.Token>)
      modifies this
      ensures old(tokens) == [] ==> t.None? && tokens == []
      ensures old(tokens) != [] ==> t == Some(old(tokens)[0]) && tokens == old(tokens)[1..]
    {
      if tokens == [] {
        t := None;
      } else {
        t := Some(tokens[0]);
        tokens := tokens[1..];
      }
    }
  }

  /** `parse_list`: pops tokens until the `)` that closes the list, skipping
      comments and whitespace, failing on an unknown token, and recursing
      for a nested `(`. */
  method ParseList(q: TokenQueue) returns (r: Result<seq<Object>, ParseError>)
    modifies q
    ensures Parsed(r, q.tokens) == ParseListSpec(old(q.tokens), None)
    decreases |q.tokens|
  {
    var objects: seq<Object> := [];
    var lastToken: Option<Lexer.Token> := None;
    PrependedNothing(ParseListSpec(q.tokens, None));
    while true
      invariant |q.tokens| <= old(|q.tokens|)
      invariant ParseListSpec(old(q.tokens), None) == Prepended(objects, ParseListSpec(q.tokens, lastToken))
      decreases |q.tokens|
    {
      ghost var before := q.tokens;
      var next := q.PopFront();
      if next.None? {
        return Err(if lastToken.Some? then UnclosedList(lastToken.value.loc) else UnclosedEmptyList);
      }
      var token := next.value;
      assert before == [token] + q.tokens;
      if IsSkipped(token.kind) {
        continue;
      } else if token.kind.Unknown? {
        return Err(UnknownToken(token.loc));
      } else if token.kind.RightParenthesis? {
        assert objects + [] == objects;
        return Ok(objects);
      } else if token.kind.LeftParenthesis? {
        var list := ParseList(q);
        if list.Err? {
          return Err(list.error);
        }
        PrependedCons(objects, List(list.value, token.loc), ParseListSpec(q.tokens, Some(token)));
        objects := objects + [List(list.value, token.loc)];
      } else {
        PrependedCons(objects, AtomObject(token), ParseListSpec(q.tokens, Some(token)));
        objects := objects + [AtomObject(token)];
      }
      lastToken := Some(token);
    }
  }

  /** `parse`: pops tokens until the queue is empty, skipping comments and
      whitespace and failing on an unknown token or a stray `)`. */
  method Parse(q: TokenQueue) returns (r: Result<seq<Object>, ParseError>)
    modifies q
    ensures Parsed(r, q.tokens) == ParseTop(old(q.tokens))
  {
    var objects: seq<Object> := [];
    PrependedNothing(ParseTop(q.tokens));
    while true
      invariant ParseTop(old(q.tokens)) == Prepended(objects, ParseTop(q.tokens))
      decreases |q.tokens|
    {
      ghost var before := q.tokens;
      var next := q.PopFront();
      if next.None? {
        assert objects + [] == objects;
        return Ok(objects);
      }
      var token := next.value;
      assert before == [token] + q.tokens;
      if IsSkipped(token.kind) {
        continue;
      } else if token.kind.Unknown? {
        return Err(UnknownToken(token.loc));
      } else if token.kind.RightParenthesis? {
        return Err(UnexpectedRightParenthesis(token.loc));
      } else if token.kind.LeftParenthesis? {
        var list := ParseList(q);
        if list.Err? {
          return Err(list.error);
        }
        PrependedCons(objects, List(list.value, token.loc), ParseTop(q.tokens));
        objects := objects + [List(list.value, token.loc)];
      } else {
        PrependedCons(objects, AtomObject(token), ParseTop(q.tokens));
        objects := objects + [AtomObject(token)];
      }
    }
  }

  // ---------------------------------------------------------------------
  // Comments and whitespace are invisible

  /** The tokens that are neither comments nor whitespace, in order. */
  function Unskipped(ts: seq<Lexer.Token>): (r: seq<Lexer.Token>)
    ensures forall i :: 0 <= i < |r| ==> !IsSkipped(r[i].kind)
  {
    if ts == [] then []
    else (if IsSkipped(ts[0].kind) then [] else [ts[0]]) + Unskipped(ts[1..])
  }

  /** Inside a list, removing comment and whitespace tokens changes neither
      the outcome nor (up to those tokens) what is left in the queue. */
  lemma {:induction false} ListIgnoresSkipped(ts: seq<Lexer.Token>, last: Option<Lexer.Token>)
    ensures ParseListSpec(Unskipped(ts), last).result == ParseListSpec(ts, last).result
    ensures ParseListSpec(ts, last).result.Ok? ==>
      ParseListSpec(Unskipped(ts), last).rest == Unskipped(ParseListSpec(ts, last).rest)
    decreases |ts|
  {
    if ts != [] {
      var t := ts[0];
      if IsSkipped(t.kind) {
        assert Unskipped(ts) == Unskipped(ts[1..]);
        ListIgnoresSkipped(ts[1..], last);
      } else {
        var u := Unskipped(ts);
        assert u == [t] + Unskipped(ts[1..]);
        assert u != [] && u[0] == t && u[1..] == Unskipped(ts[1..]);
        if t.kind.LeftParenthesis? {
          ListIgnoresSkipped(ts[1..], None);
          var inner := ParseListSpec(ts[1..], None);
          if inner.result.Ok? {
            ListIgnoresSkipped(inner.rest, Some(t));
          }
        } else if IsAtom(t.kind) {
          ListIgnoresSkipped(ts[1..], Some(t));
        }
      }
    }
  }

  /** At the top level too: comment and whitespace tokens never produce
      objects and never change whether `parse` succeeds. */
  lemma {:induction false} ParseIgnoresSkipped(ts: seq<Lexer.Token>)
    ensures ParseTop(Unskipped(ts)).result == ParseTop(ts).result
    decreases |ts|
  {
    if ts != [] {
      var t := ts[0];
      if IsSkipped(t.kind) {
        assert Unskipped(ts) == Unskipped(ts[1..]);
        ParseIgnoresSkipped(ts[1..]);
      } else {
        var u := Unskipped(ts);
        assert u == [t] + Unskipped(ts[1..]);
        assert u != [] && u[0] == t && u[1..] == Unskipped(ts[1..]);
        if t.kind.LeftParenthesis? {
          ListIgnoresSkipped(ts[1..], None);
          var inner := ParseListSpec(ts[1..], None);
          if inner.result.Ok? {
            ParseIgnoresSkipped(inner.rest);
          }
        } else if IsAtom(t.kind) {
          ParseIgnoresSkipped(ts[1..]);
        }
      }
    }
  }

  // ---------------------------------------------------------------------
  // Atoms come out in input order

  /** The non-list objects of a tree, left to right. */
  function Leaves(objs: seq<Object>): seq<Object>
    decreases objs
  {
    if objs == [] then []
    else (if objs[0].List? then Leaves(objs[0].items) else [objs[0]]) + Leaves(objs[1..])
  }

  /** The objects the atom tokens of `ts` stand for, in order. */
  function AtomObjects(ts: seq<Lexer.Token>): seq<Object> {
    if ts == [] then []
    else (if IsAtom(ts[0].kind) then [AtomObject(ts[0])] else []) + AtomObjects(ts[1..])
  }

  lemma LeavesCons(o: Object, objs: seq<Object>)
    ensures Leaves([o] + objs) == (if o.List? then Leaves(o.items) else [o]) + Leaves(objs)
  {
    assert ([o] + objs)[1..] == objs;
  }

  /** A successful `parse_list` turns the atoms it consumed into the leaves
      of its objects: same kinds, values and locations, same order. */
  lemma {:induction false} ListKeepsAtoms(ts: seq<Lexer.Token>, last: Option<Lexer.Token>)
    ensures var p := ParseListSpec(ts, last);
      p.result.Ok? ==> AtomObjects(ts) == Leaves(p.result.value) + AtomObjects(p.rest)
    decreases |ts|
  {
    var p := ParseListSpec(ts, last);
    if ts != [] && p.result.Ok? {
      var t := ts[0];
      if IsSkipped(t.kind) {
        ListKeepsAtoms(ts[1..], last);
      } else if t.kind.LeftParenthesis? {
        var inner := ParseListSpec(ts[1..], None);
        var tail := ParseListSpec(inner.rest, Some(t));
        assert p == Cons(List(inner.result.value, t.loc), tail);
        ListKeepsAtoms(ts[1..], None);
        ListKeepsAtoms(inner.rest, Some(t));
        KeepsAtomsOpen(ts, inner.result.value, tail.result.value, inner.rest, tail.rest);
      } else if !t.kind.RightParenthesis? {
        var tail := ParseListSpec(ts[1..], Some(t));
        assert p == Cons(AtomObject(t), tail);
        ListKeepsAtoms(ts[1..], Some(t));
        KeepsAtomsAtom(ts, tail.result.value, tail.rest);
      }
    }
  }

  /** A token that is not an atom contributes nothing to `AtomObjects`. */
  lemma AtomObjectsSkip(ts: seq<Lexer.Token>)
    requires ts != [] && !IsAtom(ts[0].kind)
    ensures AtomObjects(ts) == AtomObjects(ts[1..])
  {
    assert AtomObjects(ts) == [] + AtomObjects(ts[1..]);
    assert [] + AtomObjects(ts[1..]) == AtomObjects(ts[1..]);
  }

  /** The step of `ListKeepsAtoms` for a `(`: the nested list's leaves come
      first, then those of the rest of this list. */
  lemma KeepsAtomsOpen(ts: seq<Lexer.Token>, nested: seq<Object>, after: seq<Object>,
                       innerRest: seq<Lexer.Token>, rest: seq<Lexer.Token>)
    requires ts != [] && ts[0].kind.LeftParenthesis?
    requires AtomObjects(ts[1..]) == Leaves(nested) + AtomObjects(innerRest)
    requires AtomObjects(innerRest) == Leaves(after) + AtomObjects(rest)
    ensures AtomObjects(ts) == Leaves([List(nested, ts[0].loc)] + after) + AtomObjects(rest)
  {
    LeavesCons(List(nested, ts[0].loc), after);
    AtomObjectsSkip(ts);
    Reassociate(AtomObjects(ts), Leaves(nested), Leaves(after), AtomObjects(rest), AtomObjects(innerRest));
  }

  /** `w == x + m` and `m == y + z` give `w == (x + y) + z`. */
  lemma Reassociate<T>(w: seq<T>, x: seq<T>, y: seq<T>, z: seq<T>, m: seq<T>)
    requires w == x + m && m == y + z
    ensures w == (x + y) + z
  {
  }

  /** The step of `ListKeepsAtoms` for an atom: its object is the next leaf. */
  lemma KeepsAtomsAtom(ts: seq<Lexer.Token>, after: seq<Object>, rest: seq<Lexer.Token>)
    requires ts != [] && IsAtom(ts[0].kind)
    requires AtomObjects(ts[1..]) == Leaves(after) + AtomObjects(rest)
    ensures AtomObjects(ts) == Leaves([AtomObject(ts[0])] + after) + AtomObjects(rest)
  {
    var o, a, r := [AtomObject(ts[0])], Leaves(after), AtomObjects(rest);
    LeavesCons(AtomObject(ts[0]), after);
    assert AtomObjects(ts) == o + AtomObjects(ts[1..]);
    assert (o + a) + r == o + (a + r);
  }

  /** On success `parse` has emptied the queue, and the leaves of the
      objects it returns are exactly the atom tokens of the input turned into
      objects of the same kind, value and location, in input order. */
  lemma {:induction false} ParseKeepsAtoms(ts: seq<Lexer.Token>)
    ensures var p := ParseTop(ts);
      p.result.Ok? ==> p.rest == [] && Leaves(p.result.value) == AtomObjects(ts)
    decreases |ts|
  {
    var p := ParseTop(ts);
    if ts != [] && p.result.Ok? {
      var t := ts[0];
      if IsSkipped(t.kind) {
        ParseKeepsAtoms(ts[1..]);
      } else if t.kind.LeftParenthesis? {
        var inner := ParseListSpec(ts[1..], None);
        var tail := ParseTop(inner.rest);
        ListKeepsAtoms(ts[1..], None);
        ParseKeepsAtoms(inner.rest);
        LeavesCons(List(inner.result.value, t.loc), tail.result.value);
        assert AtomObjects(tail.rest) == [];
      } else {
        ParseKeepsAtoms(ts[1..]);
        LeavesCons(AtomObject(t), ParseTop(ts[1..]).result.value);
      }
    }
  }

  // ---------------------------------------------------------------------
  // The tree has the nesting of the parentheses

  /** What the tree keeps of a token: its kind and, except for a `)`,
      whose location no object records, its location. */
  datatype Mark = Mark(kind: Lexer.TokenKind, at: Option<Location>)

  function MarkOf(t: Lexer.Token): Mark {
    Mark(t.kind, if t.kind.RightParenthesis? then None else Some(t.loc))
  }

  /** The marks of `ts`, in order. */
  function Marks(ts: seq<Lexer.Token>): seq<Mark> {
    if ts == [] then [] else [MarkOf(ts[0])] + Marks(ts[1..])
  }

  /** The marks an object is read from: a list is its items between a `(`
      at the list's location and a `)`, an atom its kind with its value at
      its location. Objects the reader never builds (`Void`, `Bool`,
      `Lambda`) come from no token; they are written as `UNKNOWN`. */
  function Shape(o: Object): seq<Mark>
    decreases o, 1
  {
    match o
    case List(items, loc) =>
      [Mark(Lexer.LeftParenthesis, Some(loc))] + ShapeSeq(items) + [Mark(Lexer.RightParenthesis, None)]
    case Integer(n, loc) => [Mark(Lexer.TokenKind.Integer(n), Some(loc))]
    case Float(x, loc) => [Mark(Lexer.TokenKind.Float(x), Some(loc))]
    case Str(text, loc) => [Mark(Lexer.TokenKind.Str(text), Some(loc))]
    case Symbol(name, loc) => [Mark(Lexer.TokenKind.Symbol(name), Some(loc))]
    case _ => [Mark(Lexer.Unknown, Some(o.loc))]
  }

  function ShapeSeq(objs: seq<Object>): seq<Mark>
    decreases objs, 0
  {
    if objs == [] then [] else Shape(objs[0]) + ShapeSeq(objs[1..])
  }

  lemma ShapeSeqCons(o: Object, objs: seq<Object>)
    ensures ShapeSeq([o] + objs) == Shape(o) + ShapeSeq(objs)
  {
    assert ([o] + objs)[1..] == objs;
  }

  /** A token that is not skipped is the next mark of `Marks(Unskipped(ts))`. */
  lemma MarksUnskippedCons(ts: seq<Lexer.Token>)
    requires ts != [] && !IsSkipped(ts[0].kind)
    ensures Marks(Unskipped(ts)) == [MarkOf(ts[0])] + Marks(Unskipped(ts[1..]))
  {
    var u := Unskipped(ts);
    assert u == [ts[0]] + Unskipped(ts[1..]);
    assert u[1..] == Unskipped(ts[1..]);
  }

  /** The step of `ListShape` for a `(`: the nested list is read from its
      own parentheses, then comes the rest of this list. */
  lemma ShapeOpen(k: seq<Mark>, nested: seq<Object>, loc: Location, after: seq<Object>,
                  kInner: seq<Mark>, kRest: seq<Mark>, close: seq<Mark>)
    requires k == [Mark(Lexer.LeftParenthesis, Some(loc))] + ShapeSeq(nested) + [Mark(Lexer.RightParenthesis, None)] + kInner
    requires kInner == ShapeSeq(after) + close + kRest
    ensures k == ShapeSeq([List(nested, loc)] + after) + close + kRest
  {
    ShapeSeqCons(List(nested, loc), after);
  }

  /** The step of `ParseShape` for a `(`. */
  lemma ShapeOpenTop(k: seq<Mark>, nested: seq<Object>, loc: Location, after: seq<Object>, kInner: seq<Mark>)
    requires k == [Mark(Lexer.LeftParenthesis, Some(loc))] + ShapeSeq(nested) + [Mark(Lexer.RightParenthesis, None)] + kInner
    requires kInner == ShapeSeq(after)
    ensures k == ShapeSeq([List(nested, loc)] + after)
  {
    ShapeSeqCons(List(nested, loc), after);
  }

  /** The step of `ListShape` for an atom. */
  lemma ShapeAtom(t: Lexer.Token, k: seq<Mark>, after: seq<Object>,
                  kTail: seq<Mark>, close: seq<Mark>, kRest: seq<Mark>)
    requires IsAtom(t.kind)
    requires k == [MarkOf(t)] + kTail && kTail == ShapeSeq(after) + close + kRest
    ensures k == ShapeSeq([AtomObject(t)] + after) + close + kRest
  {
    ShapeSeqCons(AtomObject(t), after);
  }

  /** A successful `parse_list` reads its objects back from exactly the
      tokens before its `)`: apart from comments and whitespace, the
      consumed tokens are the objects' shapes followed by that `)`, so every
      nested list is the stretch between a `(` and its matching `)` and
      carries the location of that `(`. */
  lemma {:induction false} ListShape(ts: seq<Lexer.Token>, last: Option<Lexer.Token>)
    ensures ListShaped(ts, last)
    decreases |ts|, 1
  {
    if ts != [] && ParseListSpec(ts, last).result.Ok? {
      var t := ts[0];
      if IsSkipped(t.kind) {
        assert Unskipped(ts) == Unskipped(ts[1..]);
        ListShape(ts[1..], last);
      } else if t.kind.RightParenthesis? {
        MarksUnskippedCons(ts);
        assert ShapeSeq([]) == [];
      } else if t.kind.LeftParenthesis? {
        ListShapeOpen(ts, last);
      } else {
        ListShapeAtom(ts, last);
      }
    }
  }

  /** What `ListShape` states about `ParseListSpec(ts, last)`. */
  ghost predicate ListShaped(ts: seq<Lexer.Token>, last: Option<Lexer.Token>) {
    var p := ParseListSpec(ts, last);
    p.result.Ok? ==>
      Marks(Unskipped(ts)) == ShapeSeq(p.result.value) + [Mark(Lexer.RightParenthesis, None)] + Marks(Unskipped(p.rest))
  }

  /** The step of `ListShape` for a nested list. */
  lemma {:induction false} ListShapeOpen(ts: seq<Lexer.Token>, last: Option<Lexer.Token>)
    requires ts != [] && ts[0].kind.LeftParenthesis?
    ensures ListShaped(ts, last)
    decreases |ts|, 0
  {
    var t := ts[0];
    var inner := ParseListSpec(ts[1..], None);
    if inner.result.Ok? {
      var tail := ParseListSpec(inner.rest, Some(t));
      assert ParseListSpec(ts, last) == Cons(List(inner.result.value, t.loc), tail);
      if tail.result.Ok? {
        MarksUnskippedCons(ts);
        ListShape(ts[1..], None);
        ListShape(inner.rest, Some(t));
        ShapeOpen(Marks(Unskipped(ts)), inner.result.value, t.loc, tail.result.value,
                  Marks(Unskipped(inner.rest)), Marks(Unskipped(tail.rest)), [Mark(Lexer.RightParenthesis, None)]);
      }
    }
  }

  /** The step of `ListShape` for an atom. */
  lemma {:induction false} ListShapeAtom(ts: seq<Lexer.Token>, last: Option<Lexer.Token>)
    requires ts != [] && IsAtom(ts[0].kind)
    ensures ListShaped(ts, last)
    decreases |ts|, 0
  {
    var t := ts[0];
    var tail := ParseListSpec(ts[1..], Some(t));
    assert ParseListSpec(ts, last) == Cons(AtomObject(t), tail);
    if tail.result.Ok? {
      MarksUnskippedCons(ts);
      ListShape(ts[1..], Some(t));
      ShapeAtom(t, Marks(Unskipped(ts)), tail.result.value, Marks(Unskipped(ts[1..])),
                [Mark(Lexer.RightParenthesis, None)], Marks(Unskipped(tail.rest)));
    }
  }

  /** On success the objects of `parse` are read from exactly the input:
      apart from comments and whitespace, the tokens are the objects'
      shapes, so the tree nests exactly as the parentheses do and every
      object carries the location of the token it starts with. */
  lemma {:induction false} ParseShape(ts: seq<Lexer.Token>)
    ensures var p := ParseTop(ts);
      p.result.Ok? ==> Marks(Unskipped(ts)) == ShapeSeq(p.result.value)
    decreases |ts|, 1
  {
    if ts != [] && ParseTop(ts).result.Ok? {
      var t := ts[0];
      if IsSkipped(t.kind) {
        assert Unskipped(ts) == Unskipped(ts[1..]);
        ParseShape(ts[1..]);
      } else if t.kind.LeftParenthesis? {
        ParseShapeOpen(ts);
      } else {
        var tail := ParseTop(ts[1..]);
        assert ParseTop(ts) == Cons(AtomObject(t), tail);
        MarksUnskippedCons(ts);
        ParseShape(ts[1..]);
        ShapeAtom(t, Marks(Unskipped(ts)), tail.result.value, Marks(Unskipped(ts[1..])), [], []);
      }
    }
  }

  /** The step of `ParseShape` for a list at the top level. */
  lemma {:induction false} ParseShapeOpen(ts: seq<Lexer.Token>)
    requires ts != [] && ts[0].kind.LeftParenthesis?
    ensures var p := ParseTop(ts);
      p.result.Ok? ==> Marks(Unskipped(ts)) == ShapeSeq(p.result.value)
    decreases |ts|, 0
  {
    var t := ts[0];
    var inner := ParseListSpec(ts[1..], None);
    if inner.result.Ok? {
      var tail := ParseTop(inner.rest);
      assert ParseTop(ts) == Cons(List(inner.result.value, t.loc), tail);
      if tail.result.Ok? {
        MarksUnskippedCons(ts);
        ListShape(ts[1..], None);
        ParseShape(inner.rest);
        ShapeOpenTop(Marks(Unskipped(ts)), inner.result.value, t.loc, tail.result.value,
                     Marks(Unskipped(inner.rest)));
      }
    }
  }

  /** An object the reader can produce from an atom token. */
  predicate IsReadAtom(o: Object) {
    o.Integer? || o.Float? || o.Str? || o.Symbol?
  }

  lemma {:induction false} AtomObjectsAreReadAtoms(ts: seq<Lexer.Token>)
    ensures forall i :: 0 <= i < |AtomObjects(ts)| ==> IsReadAtom(AtomObjects(ts)[i])
    decreases |ts|
  {
    if ts != [] {
      AtomObjectsAreReadAtoms(ts[1..]);
      var head := if IsAtom(ts[0].kind) then [AtomObject(ts[0])] else [];
      assert AtomObjects(ts) == head + AtomObjects(ts[1..]);
    }
  }

  /** Every leaf of what `parse` returns is an integer, float, string or
      symbol: the reader never produces a `Bool`, `Void` or `Lambda`. */
  lemma ParseYieldsOnlyReadAtoms(ts: seq<Lexer.Token>)
    ensures var p := ParseTop(ts);
      p.result.Ok? ==> forall i :: 0 <= i < |Leaves(p.result.value)| ==> IsReadAtom(Leaves(p.result.value)[i])
  {
    ParseKeepsAtoms(ts);
    AtomObjectsAreReadAtoms(ts);
  }

  /** An object that is not a list is a leaf of any sequence holding it. */
  lemma {:induction false} LeafOfSeq(objs: seq<Object>, i: nat)
    requires i < |objs| && !objs[i].List?
    ensures objs[i] in Leaves(objs)
    decreases |objs|
  {
    if i > 0 {
      LeafOfSeq(objs[1..], i - 1);
    }
  }

  /** The leaves of a list inside a sequence are leaves of the sequence. */
  lemma {:induction false} LeafOfNested(objs: seq<Object>, i: nat, x: Object)
    requires i < |objs| && objs[i].List? && x in Leaves(objs[i].items)
    ensures x in Leaves(objs)
    decreases |objs|
  {
    if i > 0 {
      LeafOfNested(objs[1..], i - 1, x);
    }
  }

  // ---------------------------------------------------------------------
  // Success exactly on balanced input without unknown tokens

  /** No token of `ts` is `Unknown`. */
  predicate NoUnknown(ts: seq<Lexer.Token>)
    decreases |ts|
  {
    ts == [] || (!ts[0].kind.Unknown? && NoUnknown(ts[1..]))
  }

  lemma {:induction false} NoUnknownAppend(x: seq<Lexer.Token>, y: seq<Lexer.Token>)
    ensures NoUnknown(x + y) <==> NoUnknown(x) && NoUnknown(y)
    decreases |x|
  {
    if x == [] {
      assert x + y == y;
    } else {
      NoUnknownAppend(x[1..], y);
      assert (x + y)[1..] == x[1..] + y;
    }
  }

  function Shift(o: Option<nat>, k: nat): (r: Option<nat>)
    ensures r.Some? <==> o.Some?
    ensures r.Some? ==> r.value == o.value + k
  {
    if o.Some? then Some(o.value + k) else None
  }

  /** With `open` parentheses still open, the number of tokens up to and
      including the `)` that closes the outermost of them, counting depth
      token by token; `None` when the tokens run out first. */
  function Closing(ts: seq<Lexer.Token>, open: nat): (r: Option<nat>)
    requires open >= 1
    ensures r.Some? ==> 0 < r.value <= |ts|
    decreases |ts|
  {
    if ts == [] then None
    else if ts[0].kind.LeftParenthesis? then Shift(Closing(ts[1..], open + 1), 1)
    else if ts[0].kind.RightParenthesis? then
      (if open == 1 then Some(1) else Shift(Closing(ts[1..], open - 1), 1))
    else Shift(Closing(ts[1..], open), 1)
  }

  /** Starting at depth `open`, the depth never goes below zero and ends at
      zero. */
  predicate Balanced(ts: seq<Lexer.Token>, open: nat)
    decreases |ts|
  {
    if ts == [] then open == 0
    else if ts[0].kind.LeftParenthesis? then Balanced(ts[1..], open + 1)
    else if ts[0].kind.RightParenthesis? then open > 0 && Balanced(ts[1..], open - 1)
    else Balanced(ts[1..], open)
  }

  /** Closing `a + b` parentheses means closing `a` of them, then `b` more. */
  lemma {:induction false} ClosingCompose(ts: seq<Lexer.Token>, a: nat, b: nat)
    requires a >= 1 && b >= 1
    ensures var c := Closing(ts, a);
      Closing(ts, a + b) == (if c.None? then None else Shift(Closing(ts[c.value..], b), c.value))
    decreases |ts|
  {
    if ts != [] {
      var t := ts[0];
      if t.kind.RightParenthesis? && a == 1 {
        assert Closing(ts, a) == Some(1);
        assert Closing(ts, a + b) == Shift(Closing(ts[1..], b), 1);
      } else {
        var inner: nat := if t.kind.LeftParenthesis? then a + 1
          else if t.kind.RightParenthesis? then a - 1 else a;
        ClosingCompose(ts[1..], inner, b);
        ClosingComposeStep(ts, a, b, inner);
      }
    }
  }

  /** The inductive step of `ClosingCompose` for a first token that does
      not close the list: depth `inner` after it. */
  lemma ClosingComposeStep(ts: seq<Lexer.Token>, a: nat, b: nat, inner: nat)
    requires a >= 1 && b >= 1 && inner >= 1 && ts != []
    requires !(ts[0].kind.RightParenthesis? && a == 1)
    requires inner == (if ts[0].kind.LeftParenthesis? then a + 1
      else if ts[0].kind.RightParenthesis? then a - 1 else a)
    requires var c := Closing(ts[1..], inner);
      Closing(ts[1..], inner + b) == (if c.None? then None else Shift(Closing(ts[1..][c.value..], b), c.value))
    ensures var c := Closing(ts, a);
      Closing(ts, a + b) == (if c.None? then None else Shift(Closing(ts[c.value..], b), c.value))
  {
    ClosingUnfold(ts, a, inner);
    ClosingUnfold(ts, a + b, inner + b);
    var c := Closing(ts[1..], inner);
    if c.Some? {
      assert ts[1..][c.value..] == ts[c.value + 1..];
    }
  }

  /** One step of `Closing` when the first token does not close the list. */
  lemma ClosingUnfold(ts: seq<Lexer.Token>, open: nat, inner: nat)
    requires open >= 1 && inner >= 1 && ts != []
    requires !(ts[0].kind.RightParenthesis? && open == 1)
    requires inner == (if ts[0].kind.LeftParenthesis? then open + 1
      else if ts[0].kind.RightParenthesis? then open - 1 else open)
    ensures Closing(ts, open) == Shift(Closing(ts[1..], inner), 1)
  {
  }

  /** Balanced from depth `n` means: the `n` open parentheses get closed,
      and what follows is balanced from depth zero. */
  lemma {:induction false} BalancedSplit(ts: seq<Lexer.Token>, n: nat)
    requires n >= 1
    ensures var c := Closing(ts, n);
      Balanced(ts, n) <==> c.Some? && Balanced(ts[c.value..], 0)
    decreases |ts|
  {
    if ts != [] {
      var t := ts[0];
      if t.kind.LeftParenthesis? {
        BalancedSplit(ts[1..], n + 1);
      } else if t.kind.RightParenthesis? {
        if n > 1 {
          BalancedSplit(ts[1..], n - 1);
        }
      } else {
        BalancedSplit(ts[1..], n);
      }
      var c := Closing(ts, n);
      if c.Some? && c.value > 1 {
        assert ts[1..][c.value - 1..] == ts[c.value..];
      }
    }
  }

  lemma NoUnknownSplit(ts: seq<Lexer.Token>, a: nat, b: nat)
    requires a <= b <= |ts|
    ensures NoUnknown(ts[..b]) <==> NoUnknown(ts[..a]) && NoUnknown(ts[a..b])
  {
    assert ts[..b] == ts[..a] + ts[a..b];
    NoUnknownAppend(ts[..a], ts[a..b]);
  }

  /** `parse_list` on `ts` succeeds exactly when the list gets closed and
      no token before its closing `)` is unknown, and then leaves the
      tokens after that `)`. */
  ghost predicate ListOkExactly(ts: seq<Lexer.Token>, last: Option<Lexer.Token>) {
    var p := ParseListSpec(ts, last);
    var c := Closing(ts, 1);
    (p.result.Ok? <==> c.Some? && NoUnknown(ts[..c.value]))
    && (p.result.Ok? ==> p.rest == ts[c.value..])
  }

  /** `parse_list` succeeds exactly when the list gets closed and no token
      before its closing `)` is unknown; it then leaves the tokens after
      that `)` in the queue. */
  lemma {:induction false} ListOkIff(ts: seq<Lexer.Token>, last: Option<Lexer.Token>)
    ensures var p := ParseListSpec(ts, last); var c := Closing(ts, 1);
      (p.result.Ok? <==> c.Some? && NoUnknown(ts[..c.value]))
      && (p.result.Ok? ==> p.rest == ts[c.value..])
    decreases |ts|
  {
    if ts != [] {
      var t := ts[0];
      if t.kind.LeftParenthesis? {
        ListOkIff(ts[1..], None);
        var inner := ParseListSpec(ts[1..], None);
        if inner.result.Ok? {
          ListOkIff(inner.rest, Some(t));
        }
        OpenClosing(ts);
        var j := Closing(ts[1..], 1);
        if j.None? || !NoUnknown(ts[1..][..j.value]) {
          ListOkOpenInnerFails(ts, last);
        } else {
          ListOkOpenInnerSucceeds(ts, last);
        }
      } else if t.kind.RightParenthesis? {
        assert NoUnknown(ts[..1]);
      } else if t.kind.Unknown? {
        var c := Closing(ts, 1);
        if c.Some? {
          assert ts[..c.value][0] == t;
        }
      } else {
        var next := if IsAtom(t.kind) then Some(t) else last;
        ListOkIff(ts[1..], next);
        ListOkPass(ts, last, next);
      }
    }
  }

  /** The inductive step of `ListOkIff` for an atom, comment or whitespace
      token. */
  lemma ListOkPass(ts: seq<Lexer.Token>, last: Option<Lexer.Token>, next: Option<Lexer.Token>)
    requires ts != [] && !ts[0].kind.LeftParenthesis? && !ts[0].kind.RightParenthesis?
    requires !ts[0].kind.Unknown?
    requires next == if IsAtom(ts[0].kind) then Some(ts[0]) else last
    requires ListOkExactly(ts[1..], next)
    ensures ListOkExactly(ts, last)
  {
    var s := ts[1..];
    var k := Closing(s, 1);
    ClosingUnfold(ts, 1, 1);
    if k.Some? {
      NoUnknownSplit(ts, 1, k.value + 1);
      assert ts[1..k.value + 1] == s[..k.value];
      assert s[k.value..] == ts[k.value + 1..];
      assert NoUnknown(ts[..1]);
    }
  }

  /** After a `(`, closing the list means closing the nested list at some
      `j`, then this one `m` tokens later. */
  ghost predicate OpenFacts(ts: seq<Lexer.Token>)
    requires ts != []
  {
    var s := ts[1..];
    var j := Closing(s, 1);
    (j.None? ==> Closing(ts, 1).None?)
    && (j.Some? ==>
      var m := Closing(s[j.value..], 1);
      Closing(ts, 1) == Shift(m, 1 + j.value)
      && (m.Some? ==>
        s[j.value..][m.value..] == ts[1 + j.value + m.value..]
        && (NoUnknown(ts[..1 + j.value + m.value])
            <==> NoUnknown(s[..j.value]) && NoUnknown(s[j.value..][..m.value]))))
  }

  lemma OpenClosing(ts: seq<Lexer.Token>)
    requires ts != [] && ts[0].kind.LeftParenthesis?
    ensures OpenFacts(ts)
  {
    var s := ts[1..];
    ClosingCompose(s, 1, 1);
    ClosingUnfold(ts, 1, 2);
    var j := Closing(s, 1);
    if j.Some? {
      var m := Closing(s[j.value..], 1);
      if m.Some? {
        OpenSplit(ts, j.value, m.value);
      }
    }
  }

  /** The slices `OpenFacts` relates: a `(`, then `j` tokens, then `m`. */
  lemma OpenSplit(ts: seq<Lexer.Token>, j: nat, m: nat)
    requires 1 + j + m <= |ts| && !ts[0].kind.Unknown?
    ensures ts[1..][j..][m..] == ts[1 + j + m..]
    ensures NoUnknown(ts[..1 + j + m]) <==> NoUnknown(ts[1..][..j]) && NoUnknown(ts[1..][j..][..m])
  {
    var s, c := ts[1..], 1 + j + m;
    assert s[j..][..m] == s[j..j + m];
    assert s[j..][m..] == ts[c..];
    NoUnknownSplit(s, j, j + m);
    NoUnknownSplit(ts, 1, c);
    assert ts[1..c] == s[..j + m];
    assert NoUnknown(ts[..1]);
  }

  /** `ListOkIff` after a `(` whose nested list fails: so does this one. */
  lemma ListOkOpenInnerFails(ts: seq<Lexer.Token>, last: Option<Lexer.Token>)
    requires ts != [] && ts[0].kind.LeftParenthesis?
    requires ListOkExactly(ts[1..], None)
    requires OpenFacts(ts)
    requires var j := Closing(ts[1..], 1); j.None? || !NoUnknown(ts[1..][..j.value])
    ensures ListOkExactly(ts, last)
  {
    var inner := ParseListSpec(ts[1..], None);
    assert !inner.result.Ok?;
    assert ParseListSpec(ts, last) == inner;
  }

  /** `ListOkIff` after a `(` whose nested list succeeds: the outcome is
      the outcome of the rest of this list. */
  lemma ListOkOpenInnerSucceeds(ts: seq<Lexer.Token>, last: Option<Lexer.Token>)
    requires ts != [] && ts[0].kind.LeftParenthesis?
    requires ListOkExactly(ts[1..], None)
    requires OpenFacts(ts)
    requires var j := Closing(ts[1..], 1); j.Some? && NoUnknown(ts[1..][..j.value])
    requires var inner := ParseListSpec(ts[1..], None);
      inner.result.Ok? ==> ListOkExactly(inner.rest, Some(ts[0]))
    ensures ListOkExactly(ts, last)
  {
    var t := ts[0];
    var s := ts[1..];
    var j := Closing(s, 1).value;
    var inner := ParseListSpec(s, None);
    assert inner.result.Ok? && inner.rest == s[j..];
    var tail := ParseListSpec(s[j..], Some(t));
    assert ParseListSpec(ts, last) == Cons(List(inner.result.value, t.loc), tail);
  }

  /** `parse` succeeds exactly when the parentheses of the input balance
      and no token is unknown; it then consumes the whole queue. */
  lemma {:induction false} ParseOkIff(ts: seq<Lexer.Token>)
    ensures var p := ParseTop(ts);
      (p.result.Ok? <==> Balanced(ts, 0) && NoUnknown(ts)) && (p.result.Ok? ==> p.rest == [])
    decreases |ts|
  {
    if ts != [] {
      var t := ts[0];
      var s := ts[1..];
      assert ts == [t] + s;
      NoUnknownSplit(ts, 1, |ts|);
      assert ts[..|ts|] == ts && ts[..1] == [t] && ts[1..|ts|] == s;
      if t.kind.LeftParenthesis? {
        ListOkIff(s, None);
        BalancedSplit(s, 1);
        var inner := ParseListSpec(s, None);
        var j := Closing(s, 1);
        if j.Some? {
          NoUnknownSplit(s, j.value, |s|);
          assert s[..|s|] == s && s[j.value..|s|] == s[j.value..];
          if inner.result.Ok? {
            ParseOkIff(inner.rest);
          }
        }
      } else if !t.kind.RightParenthesis? && !t.kind.Unknown? {
        ParseOkIff(s);
      }
    }
  }

  /** The case the source panics on: a `(` followed by nothing but comments
      and whitespace up to the end of the input. */
  lemma {:induction false} OpenThenOnlySkippedPanics(ts: seq<Lexer.Token>)
    requires Unskipped(ts) == []
    ensures ParseListSpec(ts, None) == Parsed(Err(UnclosedEmptyList), [])
    decreases |ts|
  {
    if ts != [] {
      assert IsSkipped(ts[0].kind);
      assert Unskipped(ts) == Unskipped(ts[1..]);
      OpenThenOnlySkippedPanics(ts[1..]);
    }
  }
}
