/**
 First-order side-condition code of the LFSC checker
 (proofs/lfsc_checker/code.cpp, proofs/lfsc_checker/expr.h): no holes, no lambda
 heads, applications headed by a constructor or a program.
 */
module LfscSyntax {
  import opened Basics

  type Name = string

  /**
   A symbol node (SymSExpr): the one that was made when the name was declared, or the own
   node of a variable.  Each binding occurrence makes a new node, so two variables with
   the same name are two nodes.
   */
  datatype Symbol = Decl(name: Name) | Var(name: Name, id: nat)

  /** Simple types; `Kind` is the type of types. */
  datatype Type = Mpz | Mpq | Kind | Base(sym: Symbol) | Pi(params: seq<Type>, res: Type)

  datatype ArithOp = ADD | MUL | DIV

  datatype SignTest = IFNEG | IFZERO

  datatype Code =
    | Int(n: int)
    | Rat(q: real)
    | Sym(s: Symbol)
    | MpzType
    | MpqType
    | App(head: Name, args: seq<Code>)
    | Do(first: Code, second: Code)
    | Let(x: Symbol, bound: Code, body: Code)
    | Arith(op: ArithOp, left: Code, right: Code)
    | Neg(arg: Code)
    | IfSign(test: SignTest, cond: Code, yes: Code, no: Code)
    | Fail(tp: Code)
    | MarkVar(mark: nat, subject: Code)
    | IfMarked(mark: nat, subject: Code, yes: Code, no: Code)
    | Compare(left: Code, right: Code, yes: Code, no: Code)
    | Match(scrutinee: Code, cases: seq<Case>)

  datatype Case = Case(ctor: Name, vars: seq<Symbol>, body: Code) | Default(body: Code)

  datatype Program = Program(params: seq<Symbol>, types: seq<Type>, res: Type, body: Code)

  /** The declared symbols with their types, the declared programs, and the order of symbols in memory. */
  datatype Signature = Signature(types: map<Name, Type>, programs: map<Name, Program>, before: (Symbol, Symbol) -> bool)

  ghost function Elements<T>(xs: seq<T>): set<T> {
    set x | x in xs
  }

  function Names(xs: seq<Symbol>): (r: seq<Name>)
    ensures |r| == |xs| && forall i :: 0 <= i < |r| ==> r[i] == xs[i].name
  {
    seq(|xs|, i requires 0 <= i < |xs| => xs[i].name)
  }

  /** The parts of `e` that are read, checked and run before any variable of `e` is bound, in order. */
  ghost function Kids(e: Code): (r: seq<Code>)
    ensures forall i :: 0 <= i < |r| ==> r[i] < e
  {
    match e
    case App(_, args) => args
    case Do(a, b) => [a, b]
    case Let(_, a, _) => [a]
    case Arith(_, a, b) => [a, b]
    case Neg(a) => [a]
    case IfSign(_, c, a, b) => [c, a, b]
    case Fail(tp) => [tp]
    case MarkVar(_, a) => [a]
    case IfMarked(_, c, a, b) => [c, a, b]
    case Compare(l, r, a, b) => [l, r, a, b]
    case Match(c, _) => [c]
    case _ => []
  }

  /** Variables are nodes of their own, those of a pattern are different nodes, and each occurs in its scope only. */
  ghost predicate Scoped(e: Code, vars: set<Symbol>) {
    && (e.Sym? ==> e.s in vars || e.s.Decl?)
    && (forall i :: 0 <= i < |Kids(e)| ==> Scoped(Kids(e)[i], vars))
    && (e.Let? ==> e.x.Var? && Scoped(e.body, vars + {e.x}))
    && (e.Match? ==> forall k :: k in e.cases ==> ScopedCase(k, vars))
  }

  ghost predicate ScopedCase(k: Case, vars: set<Symbol>) {
    match k
    case Default(b) => Scoped(b, vars)
    case Case(_, xs, b) => Distinct(xs) && (forall x :: x in xs ==> x.Var?) && Scoped(b, vars + Elements(xs))
  }

  /** The parameters of programs are different nodes, and the bodies mention no other variables. */
  ghost predicate ScopedPrograms(sig: Signature) {
    forall f :: f in sig.programs ==>
      var p := sig.programs[f];
      && |p.types| == |p.params|
      && Distinct(p.params) && (forall x :: x in p.params ==> x.Var?)
      && Scoped(p.body, Elements(p.params))
  }

  // ---------- values ----------

  datatype Value = VInt(n: int) | VRat(q: real) | VSym(s: Symbol) | VApp(head: Name, args: seq<Value>)

  /** Expr::build_app */
  function BuildApp(h: Name, args: seq<Value>): Value {
    if args == [] then VSym(Decl(h)) else VApp(h, args)
  }

  /** Expr::collect_args: the head symbol, if there is one, and the arguments. */
  function HeadOf(v: Value): Option<Symbol> {
    match v case VSym(s) => Some(s) case VApp(h, _) => Some(Decl(h)) case _ => None
  }

  function ArgsOf(v: Value): seq<Value> {
    if v.VApp? then v.args else []
  }

  type Marks = set<(Symbol, nat)>

  /**
   What run_code returns: a value or NULL.  It does not return when a number is divided
   by zero, and what it does is undefined when it reads past a list of variables or arguments.
   */
  datatype Outcome = Done(v: Value) | Failed | DivByZero | Undefined | OutOfFuel

  function Toggle(marks: Marks, s: Symbol, i: nat): Marks {
    if (s, i) in marks then marks - {(s, i)} else marks + {(s, i)}
  }

  /** mpz_cdiv_q: the quotient rounded towards plus infinity. */
  function CeilDiv(a: int, b: int): (c: int)
    requires b != 0
    ensures if b > 0 then (c - 1) * b < a <= c * b else c * b <= a < (c - 1) * b
  {
    if b > 0 then -((-a) / b) else -(a / (-b))
  }

  function Arithmetic(op: ArithOp, a: Value, b: Value): Outcome {
    if a.VInt? && b.VInt? then
      match op
      case ADD => Done(VInt(a.n + b.n))
      case MUL => Done(VInt(a.n * b.n))
      case DIV => if b.n == 0 then DivByZero else Done(VInt(CeilDiv(a.n, b.n)))
    else if a.VRat? && b.VRat? then
      match op
      case ADD => Done(VRat(a.q + b.q))
      case MUL => Done(VRat(a.q * b.q))
      case DIV => if b.q == 0.0 then DivByZero else Done(VRat(a.q / b.q))
    else Failed
  }

  /** The test of a conditional on a number, if the value is one. */
  function Signed(test: SignTest, v: Value): Option<bool> {
    match v
    case VInt(n) => Some(if test == IFNEG then n < 0 else n == 0)
    case VRat(q) => Some(if test == IFNEG then q < 0.0 else q == 0.0)
    case _ => None
  }
}
