/**
 * Abstract syntax of Nix expressions, with the fields that `bindVars` writes.
 *
 * Only `Var`, `Inherited` definitions and `With` carry such fields; before the
 * pass their contents are meaningless and nothing reads them.
 */
module NixSyntax {
  import opened Basics

  /** `ExprWith::prevWith` and `ExprWith::parentWith`. */
  datatype WithInfo = WithInfo(prevWith: nat, parentWith: Option<WithInfo>)

  /** `ExprVar::level`, `displ` and `fromWith`. */
  datatype Binding =
    | Unbound
    | Lexical(level: nat, displ: nat)
    | FromWith(level: nat, fromWith: WithInfo)

  datatype BoolOp = And | Or | Impl

  datatype Expr =
    | IntLit(n: int)
    | StrLit(s: string)
    | Var(name: Name, bind: Binding)
    | Select(e: Expr, path: AttrPath, def: Option<Expr>)
    | HasAttr(e: Expr, path: AttrPath)
    | Attrs(recursive: bool, defs: Defs, froms: Exprs, dyn: DynAttrs)
    | ListExpr(elems: Exprs)
    | Lambda(param: Param, body: Expr)
    | Call(fun: Expr, args: Exprs)
    | Let(defs: Defs, froms: Exprs, body: Expr)
    | With(attrs: Expr, body: Expr, info: WithInfo)
    | If(cond: Expr, thn: Expr, els: Expr)
    | Assert(cond: Expr, body: Expr)
    | Not(e: Expr)
    | BinOp(op: BoolOp, e1: Expr, e2: Expr)
    | Update(e1: Expr, e2: Expr)
    | ConcatLists(e1: Expr, e2: Expr)

  datatype Exprs = Nil | Cons(head: Expr, tail: Exprs)

  /** `a.b.${e}`: each component is a symbol or an expression. */
  datatype AttrPath = End | StaticName(name: Name, rest: AttrPath) | DynName(e: Expr, rest: AttrPath)

  /** `x = e;`, `inherit x;` and `inherit (from) x;`, the last by index into the source expressions. */
  datatype Rhs = Plain(e: Expr) | Inherited(bind: Binding) | InheritedFrom(displ: nat)

  /** The attribute definitions in the order of the defining map; the position is the displacement. */
  datatype Defs = NoDefs | Def(name: Name, rhs: Rhs, rest: Defs)

  datatype DynAttrs = NoDyn | Dyn(nameExpr: Expr, valueExpr: Expr, rest: DynAttrs)

  /** `x: …` or `{ a, b ? d, ... } @ x: …`. */
  datatype Param =
    | Simple(arg: Name)
    | Pattern(alias: Option<Name>, formals: FormalList, ellipsis: bool)

  datatype FormalList = NoFormals | Formal(name: Name, def: Option<Expr>, rest: FormalList)

  function Length(es: Exprs): nat {
    match es
    case Nil => 0
    case Cons(_, tail) => 1 + Length(tail)
  }

  function Nth(es: Exprs, i: nat): Option<Expr> {
    match es
    case Nil => None
    case Cons(e, tail) => if i == 0 then Some(e) else Nth(tail, i - 1)
  }

  function DefNames(defs: Defs): seq<Name> {
    match defs
    case NoDefs => []
    case Def(name, _, rest) => [name] + DefNames(rest)
  }

  function FormalNames(formals: FormalList): seq<Name> {
    match formals
    case NoFormals => []
    case Formal(name, _, rest) => [name] + FormalNames(rest)
  }

  function ParamNames(p: Param): seq<Name> {
    match p
    case Simple(arg) => [arg]
    case Pattern(None, formals, _) => FormalNames(formals)
    case Pattern(Some(arg), formals, _) => [arg] + FormalNames(formals)
  }

  /** What can go wrong at run time. */
  datatype Error =
    | UndefinedVar(name: Name)   // every enclosing `with` was tried
    | UnboundVar(name: Name)     // there is no enclosing `with`: rejected by `bindVars`
    | TypeError
    | MissingAttr(name: Name)
    | DuplicateAttr(name: Name)
    | MissingArg(name: Name)
    | UnexpectedArg(name: Name)
    | NotAFunction
    | AssertionFailed
    | Stuck                        // a lookup left the Env chain or its frame

  /** The outcome of a fuel-bounded evaluation. */
  datatype Res<+T> = Ok(value: T) | Err(error: Error) | OutOfFuel {
    predicate IsFailure() { !Ok? }

    function PropagateFailure<U>(): Res<U>
      requires !Ok?
    {
      if Err? then Err(error) else OutOfFuel
    }

    function Extract(): T
      requires Ok?
    {
      value
    }
  }
}
