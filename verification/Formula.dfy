/**
 * The KPI formula engine: the whitelist walk over the parsed expression, and the evaluation of an
 * accepted one. The arithmetic itself is a parameter, so what is proved holds for any of it.
 */
module Formula {
  import opened Options

  // ---- Expressions as the parser delivers them ------------------------------------------------

  datatype BinOp = Add | Sub | Mult | Div | FloorDiv | Mod | Pow
                 | MatMult | LShift | RShift | BitOr | BitXor | BitAnd
  datatype UnaryOp = UAdd | USub | Not | Invert
  datatype CmpOp = Eq | NotEq | Lt | LtE | Gt | GtE | Is | IsNot | In | NotIn
  datatype BoolOp = And | Or

  /** `Other` is every remaining node type of the Python grammar, keyword arguments included. */
  datatype Expr =
    | Constant(value: Value)
    | Name(id: string)
    | Bin(op: BinOp, left: Expr, right: Expr)
    | Unary(uop: UnaryOp, operand: Expr)
    | Compare(first: Expr, ops: seq<CmpOp>, comparators: seq<Expr>)
    | IfExp(test: Expr, body: Expr, orelse: Expr)
    | Bool(bop: BoolOp, values: seq<Expr>)
    | Call(func: Expr, args: seq<Expr>)
    | Other(kind: string, children: seq<Expr>)

  datatype Value = Number(r: real) | Text(s: string) | NoneValue | Helper(name: string)

  const HELPERS := {"min", "max", "abs", "round", "iif", "clamp"}

  datatype FormulaError = ForbiddenConstruct | OnlyHelpersCallable | UnknownVariable

  // ---- The whitelist walk ---------------------------------------------------------------------

  predicate AllowedBin(op: BinOp) { op in {Add, Sub, Mult, Div, FloorDiv, Mod, Pow} }

  predicate AllowedCmp(op: CmpOp) { op in {Eq, NotEq, Lt, LtE, Gt, GtE} }

  predicate AllowedKind(e: Expr) {
    match e
    case Bin(op, _, _) => AllowedBin(op)
    case Unary(op, _) => op != Invert
    case Compare(_, ops, _) => forall op :: op in ops ==> AllowedCmp(op)
    case Other(_, _) => false
    case _ => true
  }

  function NodeError(e: Expr, names: set<string>): Option<FormulaError> {
    if !AllowedKind(e) then Some(ForbiddenConstruct)
    else if e.Call? && !(e.func.Name? && e.func.id in HELPERS) then Some(OnlyHelpersCallable)
    else if e.Name? && e.id !in names then Some(UnknownVariable)
    else None
  }

  function Children(e: Expr): seq<Expr> {
    match e
    case Constant(_) => []
    case Name(_) => []
    case Bin(_, l, r) => [l, r]
    case Unary(_, x) => [x]
    case Compare(x, _, rest) => [x] + rest
    case IfExp(c, t, f) => [c, t, f]
    case Bool(_, vs) => vs
    case Call(f, args) => [f] + args
    case Other(_, cs) => cs
  }

  type Verdicts = set<Option<FormulaError>>

  /** Every node anywhere in the tree gets one of the given verdicts. */
  predicate Within(e: Expr, names: set<string>, verdicts: Verdicts)
    decreases e, 1
  {
    NodeError(e, names) in verdicts
    && match e
       case Constant(_) => true
       case Name(_) => true
       case Bin(_, l, r) => Within(l, names, verdicts) && Within(r, names, verdicts)
       case Unary(_, x) => Within(x, names, verdicts)
       case Compare(x, _, rest) => Within(x, names, verdicts) && AllWithin(rest, names, verdicts)
       case IfExp(c, t, f) => Within(c, names, verdicts) && Within(t, names, verdicts) && Within(f, names, verdicts)
       case Bool(_, vs) => AllWithin(vs, names, verdicts)
       case Call(f, args) => Within(f, names, verdicts) && AllWithin(args, names, verdicts)
       case Other(_, cs) => AllWithin(cs, names, verdicts)
  }

  predicate AllWithin(es: seq<Expr>, names: set<string>, verdicts: Verdicts)
    decreases es, 0
  {
    es == [] || (Within(es[0], names, verdicts) && AllWithin(es[1..], names, verdicts))
  }

  /** No node is refused. */
  predicate Accepted(e: Expr, names: set<string>) { Within(e, names, {None}) }

  predicate AllAccepted(es: seq<Expr>, names: set<string>) { AllWithin(es, names, {None}) }

  /** Some node is refused for this reason. */
  predicate RefusedFor(e: Expr, names: set<string>, error: FormulaError) {
    var others: Verdicts := {None, Some(ForbiddenConstruct), Some(OnlyHelpersCallable), Some(UnknownVariable)};
    !Within(e, names, others - {Some(error)})
  }

  function Size(e: Expr): (n: nat)
    ensures n > 0
    decreases e, 1
  {
    1 + match e
        case Constant(_) => 0
        case Name(_) => 0
        case Bin(_, l, r) => Size(l) + Size(r)
        case Unary(_, x) => Size(x)
        case Compare(x, _, rest) => Size(x) + Sizes(rest)
        case IfExp(c, t, f) => Size(c) + Size(t) + Size(f)
        case Bool(_, vs) => Sizes(vs)
        case Call(f, args) => Size(f) + Sizes(args)
        case Other(_, cs) => Sizes(cs)
  }

  function Sizes(es: seq<Expr>): nat
    decreases es, 0
  {
    if es == [] then 0 else Size(es[0]) + Sizes(es[1..])
  }

  lemma {:induction false} AppendNodes(a: seq<Expr>, b: seq<Expr>, names: set<string>, vs: Verdicts)
    ensures AllWithin(a + b, names, vs) <==> AllWithin(a, names, vs) && AllWithin(b, names, vs)
    ensures Sizes(a + b) == Sizes(a) + Sizes(b)
  {
    if a == [] {
      assert a + b == b;
    } else {
      AppendNodes(a[1..], b, names, vs);
      assert (a + b)[1..] == a[1..] + b;
    }
  }

  lemma OneNode(e: Expr, names: set<string>, vs: Verdicts)
    ensures AllWithin([e], names, vs) <==> Within(e, names, vs)
    ensures Sizes([e]) == Size(e)
  {
  }

  lemma ChildrenOf(e: Expr, names: set<string>, vs: Verdicts)
    ensures Within(e, names, vs) <==> NodeError(e, names) in vs && AllWithin(Children(e), names, vs)
    ensures Sizes(Children(e)) < Size(e)
  {
    match e
    case Constant(_) =>
    case Name(_) =>
    case Bin(_, l, r) =>
      OneNode(l, names, vs); OneNode(r, names, vs); AppendNodes([l], [r], names, vs);
      assert Children(e) == [l] + [r];
    case Unary(_, x) => OneNode(x, names, vs);
    case Compare(x, _, rest) => OneNode(x, names, vs); AppendNodes([x], rest, names, vs);
    case IfExp(c, t, f) =>
      OneNode(c, names, vs); OneNode(t, names, vs); OneNode(f, names, vs);
      AppendNodes([c], [t], names, vs); AppendNodes([c] + [t], [f], names, vs);
      assert Children(e) == [c] + [t] + [f];
    case Bool(_, _) =>
    case Call(f, args) => OneNode(f, names, vs); AppendNodes([f], args, names, vs);
    case Other(_, cs) =>
  }

  /**
   * The breadth-first walk refuses a tree exactly when some node anywhere in it is refused, and the
   * reason it reports is the reason of such a node.
   */
  method CheckFormula(tree: Expr, variables: set<string>) returns (result: Result<(), FormulaError>)
    ensures result.Ok? <==> Accepted(tree, variables + HELPERS)
    ensures result.Err? ==> RefusedFor(tree, variables + HELPERS, result.error)
  {
    var names := variables + HELPERS;
    var todo := [tree];
    while todo != []
      invariant forall vs: Verdicts :: None in vs ==> (AllWithin(todo, names, vs) <==> Within(tree, names, vs))
      decreases Sizes(todo)
    {
      var node := todo[0];
      var error := NodeError(node, names);
      if error.Some? {
        return Err(error.value);
      }
      forall vs: Verdicts ensures None in vs ==>
        (AllWithin(todo, names, vs) <==> AllWithin(todo[1..] + Children(node), names, vs))
      {
        ChildrenOf(node, names, vs);
        AppendNodes(todo[1..], Children(node), names, vs);
      }
      ChildrenOf(node, names, {});
      AppendNodes(todo[1..], Children(node), names, {});
      todo := todo[1..] + Children(node);
    }
    result := Ok(());
  }

  // ---- Evaluation -----------------------------------------------------------------------------

  datatype Failure = NameError | NotCallable | Escaped | Arithmetic

  /** What evaluation did: which names it looked up and which callables it called. */
  datatype Event = Lookup(id: string, bound: bool) | Called(callee: Value) | Forbidden

  datatype Outcome = Outcome(result: Result<Value, Failure>, trace: seq<Event>)

  /** The arithmetic of the interpreter: partial, and otherwise arbitrary. */
  datatype Prims = Prims(
    bin: (BinOp, Value, Value) -> Option<Value>,
    unary: (UnaryOp, Value) -> Option<Value>,
    compare: (CmpOp, Value, Value) -> Option<Value>,
    truth: Value -> bool,
    builtin: (string, seq<Value>) -> Option<Value>)

  type Env = map<string, Value>

  /** `{**_ALLOWED_FUNCS, **variables}`: a variable named like a helper shadows it. */
  function Namespace(variables: Env): Env {
    (map h | h in HELPERS :: Helper(h)) + variables
  }

  function Of(v: Option<Value>): Result<Value, Failure> {
    if v.Some? then Ok(v.value) else Err(Arithmetic)
  }

  function Eval(p: Prims, e: Expr, env: Env): Outcome
    decreases e, 1
  {
    match e
    case Constant(v) => Outcome(Ok(v), [])
    case Name(id) =>
      if id in env then Outcome(Ok(env[id]), [Lookup(id, true)])
      else Outcome(Err(NameError), [Lookup(id, false)])
    case Bin(op, l, r) =>
      var a := Eval(p, l, env);
      if a.result.Err? then a
      else
        var b := Eval(p, r, env);
        if b.result.Err? then Outcome(b.result, a.trace + b.trace)
        else Outcome(Of(p.bin(op, a.result.value, b.result.value)), a.trace + b.trace)
    case Unary(op, x) =>
      var a := Eval(p, x, env);
      if a.result.Err? then a else Outcome(Of(p.unary(op, a.result.value)), a.trace)
    case Compare(x, ops, rest) =>
      var a := Eval(p, x, env);
      if a.result.Err? then a
      else
        var b := EvalCompare(p, a.result.value, ops, rest, env);
        Outcome(b.result, a.trace + b.trace)
    case IfExp(c, t, f) =>
      var a := Eval(p, c, env);
      if a.result.Err? then a
      else
        var b := if p.truth(a.result.value) then Eval(p, t, env) else Eval(p, f, env);
        Outcome(b.result, a.trace + b.trace)
    case Bool(op, vs) => EvalBool(p, op, vs, env)
    case Call(f, args) =>
      var a := Eval(p, f, env);
      if a.result.Err? then a
      else
        var b := EvalArgs(p, args, env);
        if b.0.Err? then Outcome(Err(b.0.error), a.trace + b.1)
        else
          var callee := a.result.value;
          var trace := a.trace + b.1 + [Called(callee)];
          if callee.Helper? then Outcome(Of(p.builtin(callee.name, b.0.value)), trace)
          else Outcome(Err(NotCallable), trace)
    case Other(_, _) => Outcome(Err(Escaped), [Forbidden])
  }

  /** `a < b < c`: left to right, stopping at the first comparison that is not true. */
  function EvalCompare(p: Prims, left: Value, ops: seq<CmpOp>, rest: seq<Expr>, env: Env): Outcome
    decreases rest, 0
  {
    if rest == [] || ops == [] then Outcome(Err(Arithmetic), [])
    else
      var b := Eval(p, rest[0], env);
      if b.result.Err? then b
      else
        var c := p.compare(ops[0], left, b.result.value);
        if c.None? || |rest| == 1 || !p.truth(c.value) then Outcome(Of(c), b.trace)
        else
          var d := EvalCompare(p, b.result.value, ops[1..], rest[1..], env);
          Outcome(d.result, b.trace + d.trace)
  }

  /** `and` / `or`: the value that decides, the later operands left unevaluated. */
  function EvalBool(p: Prims, op: BoolOp, vs: seq<Expr>, env: Env): Outcome
    decreases vs, 0
  {
    if vs == [] then Outcome(Err(Arithmetic), [])
    else
      var a := Eval(p, vs[0], env);
      if a.result.Err? || |vs| == 1 || p.truth(a.result.value) == (op == Or) then a
      else
        var b := EvalBool(p, op, vs[1..], env);
        Outcome(b.result, a.trace + b.trace)
  }

  function EvalArgs(p: Prims, args: seq<Expr>, env: Env): (Result<seq<Value>, Failure>, seq<Event>)
    decreases args, 0
  {
    if args == [] then (Ok([]), [])
    else
      var a := Eval(p, args[0], env);
      if a.result.Err? then (Err(a.result.error), a.trace)
      else
        var b := EvalArgs(p, args[1..], env);
        if b.0.Err? then (b.0, a.trace + b.1)
        else (Ok([a.result.value] + b.0.value), a.trace + b.1)
  }

  // ---- Soundness of the walk ------------------------------------------------------------------

  predicate SafeEvent(ev: Event) {
    match ev
    case Lookup(_, bound) => bound
    case Called(callee) => callee.Helper? && callee.name in HELPERS
    case Forbidden => false
  }

  ghost predicate Safe<T>(r: Result<T, Failure>, trace: seq<Event>) {
    (forall ev :: ev in trace ==> SafeEvent(ev)) && (r.Err? ==> r.error == Arithmetic)
  }

  ghost predicate HelpersIntact(env: Env) {
    forall h :: h in HELPERS ==> h in env && env[h] == Helper(h)
  }

  lemma {:induction false} EvalSafe(p: Prims, e: Expr, env: Env)
    requires Accepted(e, env.Keys) && HelpersIntact(env)
    ensures Safe(Eval(p, e, env).result, Eval(p, e, env).trace)
    decreases e, 1
  {
    match e
    case Constant(_) =>
    case Name(_) =>
    case Bin(_, l, r) => EvalSafe(p, l, env); EvalSafe(p, r, env);
    case Unary(_, x) => EvalSafe(p, x, env);
    case Compare(x, ops, rest) =>
      EvalSafe(p, x, env);
      var a := Eval(p, x, env);
      if a.result.Ok? { CompareSafe(p, a.result.value, ops, rest, env); }
    case IfExp(c, t, f) => EvalSafe(p, c, env); EvalSafe(p, t, env); EvalSafe(p, f, env);
    case Bool(op, vs) => BoolSafe(p, op, vs, env);
    case Call(f, args) => EvalSafe(p, f, env); ArgsSafe(p, args, env);
  }

  lemma {:induction false} CompareSafe(p: Prims, left: Value, ops: seq<CmpOp>, rest: seq<Expr>, env: Env)
    requires AllAccepted(rest, env.Keys) && HelpersIntact(env)
    ensures var o := EvalCompare(p, left, ops, rest, env); Safe(o.result, o.trace)
    decreases rest, 0
  {
    if rest != [] && ops != [] {
      EvalSafe(p, rest[0], env);
      var b := Eval(p, rest[0], env);
      if b.result.Ok? { CompareSafe(p, b.result.value, ops[1..], rest[1..], env); }
    }
  }

  lemma {:induction false} BoolSafe(p: Prims, op: BoolOp, vs: seq<Expr>, env: Env)
    requires AllAccepted(vs, env.Keys) && HelpersIntact(env)
    ensures var o := EvalBool(p, op, vs, env); Safe(o.result, o.trace)
    decreases vs, 0
  {
    if vs != [] {
      EvalSafe(p, vs[0], env);
      BoolSafe(p, op, vs[1..], env);
    }
  }

  lemma {:induction false} ArgsSafe(p: Prims, args: seq<Expr>, env: Env)
    requires AllAccepted(args, env.Keys) && HelpersIntact(env)
    ensures var o := EvalArgs(p, args, env); Safe(o.0, o.1)
    decreases args, 0
  {
    if args != [] {
      EvalSafe(p, args[0], env);
      ArgsSafe(p, args[1..], env);
    }
  }

  /**
   * An accepted formula never reaches a name that is not bound nor a callable that is not one of the
   * six helpers, whatever the arithmetic does. Variables must not be named like a helper.
   */
  lemma AcceptedFormulaIsSafe(p: Prims, tree: Expr, variables: Env)
    requires Accepted(tree, variables.Keys + HELPERS)
    requires variables.Keys !! HELPERS
    ensures var o := Eval(p, tree, Namespace(variables)); Safe(o.result, o.trace)
  {
    assert Namespace(variables).Keys == variables.Keys + HELPERS;
    EvalSafe(p, tree, Namespace(variables));
  }

  /** A variable that takes a helper's name makes an accepted call of that helper fail. */
  lemma ShadowedHelperFails(p: Prims, variables: Env, h: string)
    requires h in HELPERS && h in variables && !variables[h].Helper?
    ensures Accepted(Call(Name(h), []), variables.Keys + HELPERS)
    ensures var o := Eval(p, Call(Name(h), []), Namespace(variables));
            o.result == Err(NotCallable) && !Safe(o.result, o.trace)
  {
    assert EvalArgs(p, [], Namespace(variables)) == (Ok([]), []);
  }

  /** Every accepted formula is safe exactly when no variable is named like a helper. */
  lemma SafeIffNoHelperShadowed(p: Prims, variables: Env)
    requires forall name :: name in variables ==> !variables[name].Helper?
    ensures variables.Keys !! HELPERS
            <==> forall tree :: Accepted(tree, variables.Keys + HELPERS) ==>
                   Safe(Eval(p, tree, Namespace(variables)).result, Eval(p, tree, Namespace(variables)).trace)
  {
    hide Accepted, Eval, Safe, Namespace;
    if variables.Keys !! HELPERS {
      forall tree | Accepted(tree, variables.Keys + HELPERS)
        ensures Safe(Eval(p, tree, Namespace(variables)).result, Eval(p, tree, Namespace(variables)).trace)
      {
        AcceptedFormulaIsSafe(p, tree, variables);
      }
    } else {
      var h :| h in variables.Keys && h in HELPERS;
      ShadowedHelperFails(p, variables, h);
    }
  }

  // ---- A formula reads only the names it mentions ---------------------------------------------

  function Names(e: Expr): set<string>
    decreases e, 1
  {
    match e
    case Constant(_) => {}
    case Name(id) => {id}
    case Bin(_, l, r) => Names(l) + Names(r)
    case Unary(_, x) => Names(x)
    case Compare(x, _, rest) => Names(x) + AllNames(rest)
    case IfExp(c, t, f) => Names(c) + Names(t) + Names(f)
    case Bool(_, vs) => AllNames(vs)
    case Call(f, args) => Names(f) + AllNames(args)
    case Other(_, cs) => AllNames(cs)
  }

  function AllNames(es: seq<Expr>): set<string>
    decreases es, 0
  {
    if es == [] then {} else Names(es[0]) + AllNames(es[1..])
  }

  ghost predicate AgreeOn(names: set<string>, env: Env, env': Env) {
    forall id :: id in names ==> (id in env <==> id in env') && (id in env ==> env[id] == env'[id])
  }

  lemma {:induction false} EvalReadsOnlyItsNames(p: Prims, e: Expr, env: Env, env': Env)
    requires AgreeOn(Names(e), env, env')
    ensures Eval(p, e, env) == Eval(p, e, env')
    decreases e, 1
  {
    match e
    case Constant(_) =>
    case Name(_) =>
    case Bin(_, l, r) => EvalReadsOnlyItsNames(p, l, env, env'); EvalReadsOnlyItsNames(p, r, env, env');
    case Unary(_, x) => EvalReadsOnlyItsNames(p, x, env, env');
    case Compare(x, ops, rest) =>
      EvalReadsOnlyItsNames(p, x, env, env');
      var a := Eval(p, x, env);
      if a.result.Ok? { CompareReadsOnlyItsNames(p, a.result.value, ops, rest, env, env'); }
    case IfExp(c, t, f) =>
      EvalReadsOnlyItsNames(p, c, env, env');
      EvalReadsOnlyItsNames(p, t, env, env');
      EvalReadsOnlyItsNames(p, f, env, env');
    case Bool(op, vs) => BoolReadsOnlyItsNames(p, op, vs, env, env');
    case Call(f, args) =>
      EvalReadsOnlyItsNames(p, f, env, env');
      ArgsReadOnlyTheirNames(p, args, env, env');
    case Other(_, _) =>
  }

  lemma {:induction false} CompareReadsOnlyItsNames(p: Prims, left: Value, ops: seq<CmpOp>, rest: seq<Expr>, env: Env, env': Env)
    requires AgreeOn(AllNames(rest), env, env')
    ensures EvalCompare(p, left, ops, rest, env) == EvalCompare(p, left, ops, rest, env')
    decreases rest, 0
  {
    if rest != [] && ops != [] {
      EvalReadsOnlyItsNames(p, rest[0], env, env');
      var b := Eval(p, rest[0], env);
      if b.result.Ok? { CompareReadsOnlyItsNames(p, b.result.value, ops[1..], rest[1..], env, env'); }
    }
  }

  lemma {:induction false} BoolReadsOnlyItsNames(p: Prims, op: BoolOp, vs: seq<Expr>, env: Env, env': Env)
    requires AgreeOn(AllNames(vs), env, env')
    ensures EvalBool(p, op, vs, env) == EvalBool(p, op, vs, env')
    decreases vs, 0
  {
    if vs != [] {
      EvalReadsOnlyItsNames(p, vs[0], env, env');
      BoolReadsOnlyItsNames(p, op, vs[1..], env, env');
    }
  }

  lemma {:induction false} ArgsReadOnlyTheirNames(p: Prims, args: seq<Expr>, env: Env, env': Env)
    requires AgreeOn(AllNames(args), env, env')
    ensures EvalArgs(p, args, env) == EvalArgs(p, args, env')
    decreases args, 0
  {
    if args != [] {
      EvalReadsOnlyItsNames(p, args[0], env, env');
      ArgsReadOnlyTheirNames(p, args[1..], env, env');
    }
  }

  // ---- What an evaluation computes ------------------------------------------------------------

  function ResultOf(p: Prims, e: Expr, env: Env): Result<Value, Failure> { Eval(p, e, env).result }

  /** A conditional is its first branch when the test is true and its second otherwise; the other one is not touched. */
  lemma ConditionalTakesItsBranch(p: Prims, test: Value, body: Expr, orelse: Expr, env: Env)
    ensures var o := Eval(p, IfExp(Constant(test), body, orelse), env);
            o.result == Eval(p, if p.truth(test) then body else orelse, env).result
            && o.trace == Eval(p, if p.truth(test) then body else orelse, env).trace
  {
    var o := Eval(p, IfExp(Constant(test), body, orelse), env);
    var b := Eval(p, if p.truth(test) then body else orelse, env);
    assert [] + b.trace == b.trace;
  }

  lemma ConstantIs(p: Prims, v: Value, env: Env)
    ensures Eval(p, Constant(v), env) == Outcome(Ok(v), [])
  {
  }

  /** An operator is applied to its operands' values, the left one first. */
  lemma OperatorsApply(p: Prims, l: Value, r: Value, env: Env, bin: BinOp, unary: UnaryOp)
    ensures ResultOf(p, Bin(bin, Constant(l), Constant(r)), env) == Of(p.bin(bin, l, r))
    ensures ResultOf(p, Unary(unary, Constant(l)), env) == Of(p.unary(unary, l))
  {
    ConstantIs(p, l, env);
    ConstantIs(p, r, env);
  }

  lemma ComparisonApplies(p: Prims, l: Value, r: Value, env: Env, op: CmpOp)
    ensures EvalCompare(p, l, [op], [Constant(r)], env).result == Of(p.compare(op, l, r))
    ensures ResultOf(p, Compare(Constant(l), [op], [Constant(r)]), env) == Of(p.compare(op, l, r))
  {
    ConstantIs(p, l, env);
    ConstantIs(p, r, env);
    var link := EvalCompare(p, l, [op], [Constant(r)], env);
    assert link.result == Of(p.compare(op, l, r));
  }

  lemma ArgsStep(p: Prims, e: Expr, v: Value, rest: seq<Expr>, vs: seq<Value>, env: Env)
    requires Eval(p, e, env).result == Ok(v) && EvalArgs(p, rest, env).0 == Ok(vs)
    ensures EvalArgs(p, [e] + rest, env).0 == Ok([v] + vs)
  {
    assert ([e] + rest)[0] == e && ([e] + rest)[1..] == rest;
  }

  /** A helper is applied to its arguments' values in order. */
  lemma HelpersApply(p: Prims, h: string, l: Value, r: Value, env: Env)
    requires HelpersIntact(env) && h in HELPERS
    ensures ResultOf(p, Call(Name(h), [Constant(l), Constant(r)]), env) == Of(p.builtin(h, [l, r]))
  {
    var args, last := [Constant(l), Constant(r)], [Constant(r)];
    ConstantIs(p, l, env);
    ConstantIs(p, r, env);
    assert args[1..] == last && last[1..] == [] && args == [Constant(l)] + last && last == [Constant(r)] + [];
    ArgsStep(p, Constant(r), r, [], [], env);
    assert [Constant(r)] + [] == last && [r] + [] == [r] && [l] + [r] == [l, r];
    ArgsStep(p, Constant(l), l, last, [r], env);
    assert Eval(p, Name(h), env).result == Ok(Helper(h));
  }

  lemma OneOperand(p: Prims, op: BoolOp, a: Expr, env: Env)
    ensures EvalBool(p, op, [a], env) == Eval(p, a, env)
  {
  }

  /** Two operands: the second is evaluated exactly when the first does not decide. */
  lemma TwoOperands(p: Prims, op: BoolOp, a: Expr, rest: seq<Expr>, env: Env)
    requires rest != []
    ensures var first := Eval(p, a, env);
            EvalBool(p, op, [a] + rest, env).result
            == if first.result.Err? || p.truth(first.result.value) == (op == Or) then first.result else EvalBool(p, op, rest, env).result
  {
    var vs := [a] + rest;
    assert vs[0] == a && vs[1..] == rest;
  }

  /** `a and b` is `b if a else a`, and `a or b` is `a if a else b`. */
  lemma AndOrAreConditionals(p: Prims, a: Expr, b: Expr, env: Env)
    ensures ResultOf(p, Bool(And, [a, b]), env) == ResultOf(p, IfExp(a, b, a), env)
    ensures ResultOf(p, Bool(Or, [a, b]), env) == ResultOf(p, IfExp(a, a, b), env)
  {
    assert [a, b] == [a] + [b];
    TwoOperands(p, And, a, [b], env);
    TwoOperands(p, Or, a, [b], env);
    OneOperand(p, And, b, env);
    OneOperand(p, Or, b, env);
  }

  /** A longer `and` or `or` nests to the right. */
  lemma LongerBoolNests(p: Prims, op: BoolOp, a: Expr, rest: seq<Expr>, env: Env)
    requires rest != []
    ensures ResultOf(p, Bool(op, [a] + rest), env) == ResultOf(p, Bool(op, [a, Bool(op, rest)]), env)
  {
    var nested := Bool(op, rest);
    assert [a, nested] == [a] + [nested];
    TwoOperands(p, op, a, rest, env);
    TwoOperands(p, op, a, [nested], env);
    OneOperand(p, op, nested, env);
  }

  /** A comparison chain is the conjunction of its links, the middle value read once for both. */
  lemma ChainIsConjunction(p: Prims, a: Value, b: Value, c: Value, op1: CmpOp, op2: CmpOp, env: Env)
    ensures ResultOf(p, Compare(Constant(a), [op1, op2], [Constant(b), Constant(c)]), env)
            == ResultOf(p, Bool(And, [Compare(Constant(a), [op1], [Constant(b)]), Compare(Constant(b), [op2], [Constant(c)])]), env)
  {
    var left, right := Compare(Constant(a), [op1], [Constant(b)]), Compare(Constant(b), [op2], [Constant(c)]);
    ComparisonApplies(p, a, b, env, op1);
    ComparisonApplies(p, b, c, env, op2);
    OneOperand(p, And, right, env);
    TwoOperands(p, And, left, [right], env);
    assert [left, right] == [left] + [right];
    ConstantIs(p, a, env);
    ConstantIs(p, b, env);
    var ops, rest := [op1, op2], [Constant(b), Constant(c)];
    assert ops[1..] == [op2] && rest[1..] == [Constant(c)];
    var chain := EvalCompare(p, a, ops, rest, env);
    assert chain.result == if p.compare(op1, a, b).None? || !p.truth(p.compare(op1, a, b).value) then Of(p.compare(op1, a, b))
                           else Of(p.compare(op2, b, c));
    assert ResultOf(p, Compare(Constant(a), ops, rest), env) == chain.result;
  }

  /** The formula with every occurrence of a name replaced by a value. */
  function Subst(e: Expr, x: string, v: Value): Expr
    decreases e, 1
  {
    match e
    case Constant(_) => e
    case Name(id) => if id == x then Constant(v) else e
    case Bin(op, l, r) => Bin(op, Subst(l, x, v), Subst(r, x, v))
    case Unary(op, y) => Unary(op, Subst(y, x, v))
    case Compare(y, ops, rest) => Compare(Subst(y, x, v), ops, SubstAll(rest, x, v))
    case IfExp(c, t, f) => IfExp(Subst(c, x, v), Subst(t, x, v), Subst(f, x, v))
    case Bool(op, vs) => Bool(op, SubstAll(vs, x, v))
    case Call(f, args) => Call(Subst(f, x, v), SubstAll(args, x, v))
    case Other(kind, cs) => Other(kind, cs)
  }

  function SubstAll(es: seq<Expr>, x: string, v: Value): (r: seq<Expr>)
    ensures |r| == |es|
    decreases es, 0
  {
    if es == [] then [] else [Subst(es[0], x, v)] + SubstAll(es[1..], x, v)
  }

  /** Binding a name to a value and writing the value in its place come to the same result. */
  lemma {:induction false} BindingIsSubstitution(p: Prims, e: Expr, env: Env, x: string, v: Value)
    ensures ResultOf(p, Subst(e, x, v), env) == ResultOf(p, e, env[x := v])
    decreases e, 1
  {
    match e
    case Constant(_) =>
    case Name(_) =>
    case Bin(_, l, r) => BindingIsSubstitution(p, l, env, x, v); BindingIsSubstitution(p, r, env, x, v);
    case Unary(_, y) => BindingIsSubstitution(p, y, env, x, v);
    case Compare(y, ops, rest) =>
      BindingIsSubstitution(p, y, env, x, v);
      var a := ResultOf(p, y, env[x := v]);
      if a.Ok? { BindingInCompare(p, a.value, ops, rest, env, x, v); }
    case IfExp(c, t, f) =>
      BindingIsSubstitution(p, c, env, x, v);
      BindingIsSubstitution(p, t, env, x, v);
      BindingIsSubstitution(p, f, env, x, v);
    case Bool(op, vs) => BindingInBool(p, op, vs, env, x, v);
    case Call(f, args) => BindingIsSubstitution(p, f, env, x, v); BindingInArgs(p, args, env, x, v);
    case Other(_, _) =>
  }

  lemma {:induction false} BindingInCompare(p: Prims, left: Value, ops: seq<CmpOp>, rest: seq<Expr>, env: Env, x: string, v: Value)
    ensures EvalCompare(p, left, ops, SubstAll(rest, x, v), env).result == EvalCompare(p, left, ops, rest, env[x := v]).result
    decreases rest, 0
  {
    if rest != [] && ops != [] {
      BindingIsSubstitution(p, rest[0], env, x, v);
      var b := ResultOf(p, rest[0], env[x := v]);
      if b.Ok? { BindingInCompare(p, b.value, ops[1..], rest[1..], env, x, v); }
      assert SubstAll(rest, x, v)[1..] == SubstAll(rest[1..], x, v);
    }
  }

  lemma {:induction false} BindingInBool(p: Prims, op: BoolOp, vs: seq<Expr>, env: Env, x: string, v: Value)
    ensures EvalBool(p, op, SubstAll(vs, x, v), env).result == EvalBool(p, op, vs, env[x := v]).result
    decreases vs, 0
  {
    if vs != [] {
      BindingIsSubstitution(p, vs[0], env, x, v);
      BindingInBool(p, op, vs[1..], env, x, v);
      assert SubstAll(vs, x, v)[1..] == SubstAll(vs[1..], x, v);
    }
  }

  lemma {:induction false} BindingInArgs(p: Prims, args: seq<Expr>, env: Env, x: string, v: Value)
    ensures EvalArgs(p, SubstAll(args, x, v), env).0 == EvalArgs(p, args, env[x := v]).0
    decreases args, 0
  {
    if args != [] {
      BindingIsSubstitution(p, args[0], env, x, v);
      BindingInArgs(p, args[1..], env, x, v);
      assert SubstAll(args, x, v)[1..] == SubstAll(args[1..], x, v);
    }
  }

  // ---- What the whitelist leaves out ----------------------------------------------------------

  /**
   * Forbidden are matrix products, shifts and bit operations, bit inversion, identity and membership
   * tests, and every construct that is no expression of the list; nothing else is.
   */
  lemma ForbiddenExactly(e: Expr, names: set<string>)
    ensures NodeError(e, names) == Some(ForbiddenConstruct) <==>
              || (e.Bin? && (e.op.MatMult? || e.op.LShift? || e.op.RShift? || e.op.BitOr? || e.op.BitXor? || e.op.BitAnd?))
              || (e.Unary? && e.uop.Invert?)
              || (e.Compare? && exists op :: op in e.ops && (op.Is? || op.IsNot? || op.In? || op.NotIn?))
              || e.Other?
    ensures e.Call? ==> (NodeError(e, names) == Some(OnlyHelpersCallable)
                         <==> !(e.func.Name? && e.func.id in {"min", "max", "abs", "round", "iif", "clamp"}))
    ensures e.Name? ==> (NodeError(e, names) == Some(UnknownVariable) <==> e.id !in names)
    ensures e.Constant? || e.IfExp? || e.Bool? ==> NodeError(e, names) == None
  {
    if e.Compare? {
      assert forall op: CmpOp :: AllowedCmp(op) <==> !(op.Is? || op.IsNot? || op.In? || op.NotIn?);
    }
  }
}
