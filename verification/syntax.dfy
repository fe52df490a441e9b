/** The already-parsed program the evaluator walks: declarations, bodies,
    blocks and the fourteen expression forms of the language. */
module Syntax {

  /** Declared types are advisory: the evaluator never inspects them. */
  datatype Ty = IntTy | BoolTy | UnitTy

  datatype TypedIdfr = TypedIdfr(ty: Ty, name: string)

  /** The typed identifiers of a declaration: the first one names the
      function (and its return type), the rest are its parameters. The
      grammar always produces the first one. */
  type Signature = s: seq<TypedIdfr> | |s| >= 1 witness [TypedIdfr(IntTy, "main")]

  datatype Dec = Dec(sig: Signature, body: Body)

  /** A function body: its local variable declarations and the expression
      sequence whose last value is the body's result. */
  datatype Body = Body(locals: seq<TypedIdfr>, ene: seq<Exp>)

  /** The binary operators the grammar can produce. The evaluator gives a
      meaning to all but Great, GreatEq and Divide, which reach its error
      default. */
  datatype BinOp = Eq | Less | LessEq | Great | GreatEq | Plus | Minus | Times | Divide | And | Or | Xor

  datatype Exp =
    | Assign(target: string, rhs: Exp)
    | BinOpExp(op: BinOp, lhs: Exp, rhs: Exp)
    | Invoke(callee: string, args: seq<Exp>)
    | BlockExp(block: seq<Exp>)
    | If(cond: Exp, thenBlock: seq<Exp>, elseBlock: seq<Exp>)
    | While(cond: Exp, loopBlock: seq<Exp>)
    | Repeat(loopBlock: seq<Exp>, cond: Exp)
    | Print(arg: Exp)
    | Space
    | NewLine
    | Skip
    | BoolLit(b: bool)
    | IntLit(text: string)
    | Id(name: string)

  /** A size that strictly shrinks from an expression to each of its parts;
      the evaluator's termination measure after fuel. */
  function ExpSize(e: Exp): nat
  {
    match e
    case Assign(_, rhs) => 1 + ExpSize(rhs)
    case BinOpExp(_, l, r) => 1 + ExpSize(l) + ExpSize(r)
    case Invoke(_, args) => 1 + BlockSize(args)
    case BlockExp(b) => 1 + BlockSize(b)
    case If(c, t, f) => 1 + ExpSize(c) + BlockSize(t) + BlockSize(f)
    case While(c, b) => 2 + ExpSize(c) + BlockSize(b)
    case Repeat(b, c) => 2 + ExpSize(c) + BlockSize(b)
    case Print(a) => 1 + ExpSize(a)
    case _ => 1
  }

  function BlockSize(es: seq<Exp>): nat
  {
    if |es| == 0 then 0 else 1 + ExpSize(es[0]) + BlockSize(es[1..])
  }
}
