/** The tree-walking evaluator (src/evaluator.rs): a chain of scopes and
    the special forms `define` and `if`. Objects are their own values. */
module Evaluator {
  import opened Wrappers
  import opened Locations
  import opened Parser

  /** Why an evaluation fails. The source reports most of these as an error
      string; `ConditionNotLiteral`, `HeadNotSymbol` and `NotImplemented`
      stand for its `unimplemented!`, `unreachable!` and stub paths. */
  datatype EvalError =
    | SymbolNotFound(name: string)
    | MissingDefineName
    | ExpectedSymbol(found: Object)
    | MissingBinding(at: Location)
    | MissingBranch
    | ConditionNotLiteral(found: Object)
    | HeadNotSymbol(found: Object)
    | NotImplemented

  /** The value every operator name is bound to: a function with no body
      and no location of its own. */
  const BuiltinFunction: Object := Lambda([], NoLocation)

  /** The names a fresh environment binds. */
  const OperatorNames: set<string> := {"+", "-", "*", "/", "%", ">", "<", "=", ">=", "<=", "/="}

  /** The table every environment starts with. */
  function Builtins(): (m: map<string, Object>)
    ensures m.Keys == OperatorNames
    ensures forall n | n in m :: m[n] == BuiltinFunction
  {
    map["+" := BuiltinFunction, "-" := BuiltinFunction, "*" := BuiltinFunction,
        "/" := BuiltinFunction, "%" := BuiltinFunction, ">" := BuiltinFunction,
        "<" := BuiltinFunction, "=" := BuiltinFunction, ">=" := BuiltinFunction,
        "<=" := BuiltinFunction, "/=" := BuiltinFunction]
  }

  /** `Environment`: a table of local bindings and the environment it was
      created inside. `Repr` is this environment and all its ancestors. */
  class Environment {
    var vars: map<string, Object>
    const parent: Environment?
    ghost var Repr: set<Environment>

    ghost predicate Valid()
      reads this, Repr
      decreases Repr
    {
      this in Repr
      && (parent == null ==> Repr == {this})
      && (parent != null ==>
            parent in Repr && parent.Repr < Repr && this !in parent.Repr
            && Repr == {this} + parent.Repr && parent.Valid())
    }

    /** What this environment can see: its ancestors' bindings, with every
        local binding hiding the ones further out. */
    ghost function Scope(): map<string, Object>
      reads Repr
      requires Valid()
      decreases Repr
    {
      if parent == null then vars else parent.Scope() + vars
    }

    /** `Environment::new`: the operator names bound locally. */
    constructor (parent: Environment?)
      requires parent != null ==> parent.Valid()
      ensures Valid()
      ensures vars == Builtins() && this.parent == parent
      ensures parent != null ==> Repr == {this} + parent.Repr
      ensures forall n | n in OperatorNames :: Get(n) == Some(BuiltinFunction)
    {
      this.parent := parent;
      vars := Builtins();
      new;
      Repr := if parent == null then {this} else {this} + parent.Repr;
    }

    /** `Environment::get`: the local binding if there is one, otherwise
        whatever the parent finds. */
    function Get(name: string): (r: Option<Object>)
      reads Repr
      requires Valid()
      ensures r.Some? <==> name in Scope()
      ensures r.Some? ==> r.value == Scope()[name]
      ensures name in vars ==> r == Some(vars[name])
      ensures name !in vars ==> r == (if parent == null then None else parent.Get(name))
      decreases Repr
    {
      if name in vars then Some(vars[name])
      else if parent == null then None
      else parent.Get(name)
    }

    /** A name resolves exactly when some environment on the chain binds it
        locally. */
    lemma BoundInChain(name: string)
      requires Valid()
      ensures Get(name).Some? <==> exists e :: e in Repr && name in e.vars
      decreases Repr
    {
      if parent != null {
        parent.BoundInChain(name);
      }
    }

    /** `Environment::set`: binds `name` in the local table only. */
    method Set(name: string, obj: Object)
      requires Valid()
      modifies this`vars
      ensures Valid()
      ensures vars == old(vars)[name := obj]
      ensures Scope() == old(Scope())[name := obj]
      ensures Get(name) == Some(obj)
      ensures forall n :: n != name ==> Get(n) == old(Get(n))
      ensures parent != null ==> parent.Scope() == old(parent.Scope())
    {
      vars := vars[name := obj];
      if parent != null {
        assert parent.Scope() == old(parent.Scope());
        assert Scope() == old(Scope())[name := obj];
      }
    }
  }

  // ---------------------------------------------------------------------
  // What an evaluation computes

  /** The outcome of evaluating an object in an environment that can see
      `scope`: the result and the bindings written into the local table. */
  datatype Outcome = Outcome(result: Result<Object, EvalError>, defs: map<string, Object>)

  const VoidValue: Object := Void(NoLocation)

  predicate IsSymbolNamed(o: Object, name: string) {
    o.Symbol? && o.name == name
  }

  /** `eval_obj`. */
  function Evaluate(o: Object, scope: map<string, Object>): (r: Outcome)
    ensures r.result.Err? ==> r.defs == map[]
    ensures !o.Symbol? && !o.List? ==> r.result == Ok(o) && r.defs == map[]
    ensures o.Symbol? ==>
      (r.result.Ok? <==> o.name in scope)
      && (r.result.Ok? ==> r.result.value == scope[o.name])
      && (r.result.Err? ==> r.result.error == SymbolNotFound(o.name))
    ensures o.List? && o.items == [] ==> r.result == Ok(VoidValue) && r.defs == map[]
    decreases o, 2
  {
    match o
    case Symbol(name, _) =>
      if name in scope then Outcome(Ok(scope[name]), map[])
      else Outcome(Err(SymbolNotFound(name)), map[])
    case List(items, _) => EvaluateList(items, scope)
    case _ => Outcome(Ok(o), map[])
  }

  /** `eval_list`: the empty list, or dispatch on the head symbol. */
  function EvaluateList(items: seq<Object>, scope: map<string, Object>): (r: Outcome)
    ensures r.result.Err? ==> r.defs == map[]
    decreases items, 1
  {
    if items == [] then Outcome(Ok(VoidValue), map[])
    else if !items[0].Symbol? then Outcome(Err(HeadNotSymbol(items[0])), map[])
    else if items[0].name == "define" then EvaluateDefine(items[1..], scope)
    else if items[0].name == "if" then EvaluateIf(items[1..], scope)
    else Outcome(Err(NotImplemented), map[])
  }

  /** `eval_define` on the operands of a `define` form. */
  function EvaluateDefine(args: seq<Object>, scope: map<string, Object>): (r: Outcome)
    ensures r.result.Err? ==> r.defs == map[]
    ensures r.result.Ok? ==>
      |args| >= 2 && args[0].Symbol? && r.result.value == VoidValue
      && var v := Evaluate(args[1], scope);
         v.result.Ok? && r.defs == v.defs[args[0].name := v.result.value]
    decreases args, 0
  {
    if args == [] then Outcome(Err(MissingDefineName), map[])
    else if !args[0].Symbol? then Outcome(Err(ExpectedSymbol(args[0])), map[])
    else if |args| < 2 then Outcome(Err(MissingBinding(args[0].loc)), map[])
    else
      var v := Evaluate(args[1], scope);
      if v.result.Err? then v
      else Outcome(Ok(VoidValue), v.defs[args[0].name := v.result.value])
  }

  /** The operand an `if` form evaluates: the first after the condition when
      the condition is the literal `true`, otherwise the second. */
  function Branch(args: seq<Object>): nat {
    if args != [] && args[0].Bool? && args[0].b then 1 else 2
  }

  /** `eval_if` on the operands of an `if` form. */
  function EvaluateIf(args: seq<Object>, scope: map<string, Object>): (r: Outcome)
    ensures r.result.Err? ==> r.defs == map[]
    decreases args, 0
  {
    if args != [] && !args[0].Bool? then Outcome(Err(ConditionNotLiteral(args[0])), map[])
    else if Branch(args) < |args| then Evaluate(args[Branch(args)], scope)
    else Outcome(Err(MissingBranch), map[])
  }

  // ---------------------------------------------------------------------
  // Properties of evaluation

  /** The names a `define` form anywhere inside `o` binds. */
  function DefinedNames(o: Object): set<string>
    decreases o, 1
  {
    match o
    case List(items, _) => DefineHead(items) + DefinedNamesIn(items)
    case _ => {}
  }

  function DefineHead(items: seq<Object>): set<string> {
    if |items| >= 2 && IsSymbolNamed(items[0], "define") && items[1].Symbol? then {items[1].name}
    else {}
  }

  function DefinedNamesIn(objs: seq<Object>): set<string>
    decreases objs, 0
  {
    if objs == [] then {} else DefinedNames(objs[0]) + DefinedNamesIn(objs[1..])
  }

  lemma {:induction false} DefinedNamesInContains(objs: seq<Object>, i: nat)
    requires i < |objs|
    ensures DefinedNames(objs[i]) <= DefinedNamesIn(objs)
    decreases i
  {
    if i > 0 {
      DefinedNamesInContains(objs[1..], i - 1);
    }
  }

  /** Evaluation writes only names that a `define` form inside the object
      binds: every other local binding is left as it was. */
  lemma {:induction false} WritesOnlyDefined(o: Object, scope: map<string, Object>)
    ensures Evaluate(o, scope).defs.Keys <= DefinedNames(o)
    decreases o, 2
  {
    if o.List? {
      ListWritesOnlyDefined(o.items, scope);
    }
  }

  lemma {:induction false} ListWritesOnlyDefined(items: seq<Object>, scope: map<string, Object>)
    ensures EvaluateList(items, scope).defs.Keys <= DefineHead(items) + DefinedNamesIn(items)
    decreases items, 1
  {
    if items != [] && items[0].Symbol? {
      var args := items[1..];
      assert DefinedNamesIn(items) == DefinedNames(items[0]) + DefinedNamesIn(args);
      if items[0].name == "define" {
        var r := EvaluateDefine(args, scope);
        if r.result.Ok? {
          WritesOnlyDefined(args[1], scope);
          DefinedNamesInContains(args, 1);
          assert r.defs.Keys == Evaluate(args[1], scope).defs.Keys + {args[0].name};
        }
      } else if items[0].name == "if" {
        if !(args != [] && !args[0].Bool?) && Branch(args) < |args| {
          WritesOnlyDefined(args[Branch(args)], scope);
          DefinedNamesInContains(args, Branch(args));
        }
      }
    }
  }

  /** After a successful `(define x e)`, looking `x` up in the updated scope
      yields the value of `e`; every other name keeps what `e` left it. */
  lemma DefineThenLookup(items: seq<Object>, scope: map<string, Object>)
    requires |items| >= 3 && IsSymbolNamed(items[0], "define") && items[1].Symbol?
    requires Evaluate(items[2], scope).result.Ok?
    ensures var r := EvaluateList(items, scope); var e := Evaluate(items[2], scope);
      var after := scope + r.defs;
      r.result == Ok(VoidValue)
      && items[1].name in after && after[items[1].name] == e.result.value
      && (forall n | n in after && n != items[1].name :: after[n] == (scope + e.defs)[n])
  {
    assert items[1..][1] == items[2];
  }

  /** `define` fails, writing nothing, when it has no operands, when the
      first operand is not a symbol, when the value is missing, or when the
      value fails to evaluate; in the last case with the value's own error. */
  lemma DefineFailures(args: seq<Object>, scope: map<string, Object>)
    ensures var r := EvaluateDefine(args, scope);
      (args == [] ==> r == Outcome(Err(MissingDefineName), map[]))
      && (args != [] && !args[0].Symbol? ==> r == Outcome(Err(ExpectedSymbol(args[0])), map[]))
      && (|args| == 1 && args[0].Symbol? ==> r == Outcome(Err(MissingBinding(args[0].loc)), map[]))
      && (|args| >= 2 && args[0].Symbol? && Evaluate(args[1], scope).result.Err? ==>
            r == Outcome(Evaluate(args[1], scope).result, map[]))
      && (r.result.Ok? <==>
            |args| >= 2 && args[0].Symbol? && Evaluate(args[1], scope).result.Ok?)
  {
  }

  /** `(if true a b)` is `a`; `(if false a b)` and `(if)`-without-condition
      take `b`; a chosen operand that is absent is an error. */
  lemma IfSelects(args: seq<Object>, scope: map<string, Object>)
    requires args == [] || args[0].Bool?
    ensures var r := EvaluateIf(args, scope);
      var k := if args != [] && args[0].b then 1 else 2;
      (k < |args| ==> r == Evaluate(args[k], scope))
      && (k >= |args| ==> r == Outcome(Err(MissingBranch), map[]))
  {
  }

  /** The reader never builds a `Bool`, so a top-level `(if c ...)` read
      from source text always stops at the condition check. */
  lemma ParsedIfNeverSelects(ts: seq<Lexer.Token>, i: nat, scope: map<string, Object>)
    requires ParseTop(ts).result.Ok? && i < |ParseTop(ts).result.value|
    requires var o := ParseTop(ts).result.value[i];
      o.List? && |o.items| >= 2 && o.items[0].Symbol? && o.items[0].name == "if"
    ensures var o := ParseTop(ts).result.value[i];
      Evaluate(o, scope) == Outcome(Err(ConditionNotLiteral(o.items[1])), map[])
  {
    var objs := ParseTop(ts).result.value;
    var c := objs[i].items[1];
    if !c.List? {
      LeafOfSeq(objs[i].items, 1);
      LeafOfNested(objs, i, c);
      ParseYieldsOnlyReadAtoms(ts);
      var j :| 0 <= j < |Leaves(objs)| && Leaves(objs)[j] == c;
      assert IsReadAtom(c);
    }
    assert objs[i].items[1..][0] == c;
    assert Evaluate(objs[i], scope) == EvaluateIf(objs[i].items[1..], scope);
  }

  // ---------------------------------------------------------------------
  // The evaluator proper, working on a live environment

  /** `eval_symbol`. */
  function EvalSymbol(name: string, env: Environment): (r: Result<Object, EvalError>)
    reads env.Repr
    requires env.Valid()
    ensures r.Ok? <==> name in env.Scope()
    ensures r.Ok? ==> r.value == env.Scope()[name]
    ensures r.Err? ==> r.error == SymbolNotFound(name)
  {
    match env.Get(name)
    case Some(v) => Ok(v)
    case None => Err(SymbolNotFound(name))
  }

  /** `eval`: evaluates `o` in `env`, which afterwards holds exactly the
      bindings the evaluation wrote, and no other binding of it changes. */
  method Eval(o: Object, env: Environment) returns (r: Result<Object, EvalError>)
    requires env.Valid()
    modifies env`vars
    ensures env.Valid()
    ensures var out := Evaluate(o, old(env.Scope()));
      r == out.result && env.vars == old(env.vars) + out.defs
      && env.Scope() == old(env.Scope()) + out.defs
    ensures forall n | n !in DefinedNames(o) ::
      (n in env.vars <==> n in old(env.vars))
      && (n in env.vars ==> env.vars[n] == old(env.vars)[n])
  {
    ghost var scope := env.Scope();
    r := EvalObj(o, env);
    WritesOnlyDefined(o, scope);
    ScopeAfterWrites(env, old(env.vars), Evaluate(o, scope).defs);
  }

  /** The scope an environment sees after writes to its local table. */
  lemma ScopeAfterWrites(env: Environment, before: map<string, Object>, defs: map<string, Object>)
    requires env.Valid()
    requires env.vars == before + defs
    ensures env.parent == null ==> env.Scope() == before + defs
    ensures env.parent != null ==> env.Scope() == (env.parent.Scope() + before) + defs
  {
    if env.parent != null {
      var p := env.parent.Scope();
      assert env.Scope() == p + (before + defs);
      assert p + (before + defs) == (p + before) + defs;
    }
  }

  /** `eval_obj`. */
  method EvalObj(o: Object, env: Environment) returns (r: Result<Object, EvalError>)
    requires env.Valid()
    modifies env`vars
    ensures env.Valid()
    ensures var out := Evaluate(o, old(env.Scope()));
      r == out.result && env.vars == old(env.vars) + out.defs
    decreases o, 2
  {
    match o
    case Symbol(name, _) =>
      r := EvalSymbol(name, env);
      assert env.vars == old(env.vars) + map[];
    case List(items, _) =>
      r := EvalList(items, env);
    case _ =>
      r := Ok(o);
      assert env.vars == old(env.vars) + map[];
  }

  /** `eval_list`. */
  method EvalList(items: seq<Object>, env: Environment) returns (r: Result<Object, EvalError>)
    requires env.Valid()
    modifies env`vars
    ensures env.Valid()
    ensures var out := EvaluateList(items, old(env.Scope()));
      r == out.result && env.vars == old(env.vars) + out.defs
    decreases items, 1
  {
    assert env.vars == old(env.vars) + map[];
    if items == [] {
      r := Ok(VoidValue);
    } else if !items[0].Symbol? {
      r := Err(HeadNotSymbol(items[0]));
    } else if items[0].name == "define" {
      r := EvalDefine(items[1..], env);
    } else if items[0].name == "if" {
      r := EvalIf(items[1..], env);
    } else {
      r := Err(NotImplemented);
    }
  }

  /** `eval_define`: evaluates the value, then binds the name locally. */
  method EvalDefine(args: seq<Object>, env: Environment) returns (r: Result<Object, EvalError>)
    requires env.Valid()
    modifies env`vars
    ensures env.Valid()
    ensures var out := EvaluateDefine(args, old(env.Scope()));
      r == out.result && env.vars == old(env.vars) + out.defs
    decreases args, 0
  {
    assert env.vars == old(env.vars) + map[];
    if args == [] {
      return Err(MissingDefineName);
    }
    if !args[0].Symbol? {
      return Err(ExpectedSymbol(args[0]));
    }
    if |args| < 2 {
      return Err(MissingBinding(args[0].loc));
    }
    var v := EvalObj(args[1], env);
    if v.Err? {
      return v;
    }
    ghost var defs := Evaluate(args[1], old(env.Scope())).defs;
    env.Set(args[0].name, v.value);
    r := Ok(VoidValue);
    UpdateAfterUnion(old(env.vars), defs, args[0].name, v.value);
  }

  lemma UpdateAfterUnion(a: map<string, Object>, d: map<string, Object>, k: string, v: Object)
    ensures (a + d)[k := v] == a + d[k := v]
  {
  }

  /** `eval_if`: the condition must be a boolean literal; the chosen
      operand is evaluated. */
  method EvalIf(args: seq<Object>, env: Environment) returns (r: Result<Object, EvalError>)
    requires env.Valid()
    modifies env`vars
    ensures env.Valid()
    ensures var out := EvaluateIf(args, old(env.Scope()));
      r == out.result && env.vars == old(env.vars) + out.defs
    decreases args, 0
  {
    assert env.vars == old(env.vars) + map[];
    if args != [] && !args[0].Bool? {
      return Err(ConditionNotLiteral(args[0]));
    }
    var k := Branch(args);
    if k < |args| {
      r := EvalObj(args[k], env);
    } else {
      r := Err(MissingBranch);
    }
  }
}
