/** The tree-walking evaluator: entry binding, body and sequence evaluation,
    and one case per expression form. Evaluation threads a state made of the
    frame stack and the text printed so far. */
module Interpreter {
  import opened Wrappers
  import opened Syntax
  import opened Registry
  import opened Frames
  import opened Errors
  import opened Operators
  import Int32

  /** The line terminator println writes. */
  const LineTerminator: string := "\n"

  datatype State = State(stack: Stack, out: string)

  /** A finished evaluation: a value, or an error; either way the state as
      the evaluator left it (frames pushed, text printed). */
  datatype Outcome<+T> = Done(value: T, st: State) | Fail(err: Error, st: State)

  function Emit(st: State, text: string): State {
    st.(out := st.out + text)
  }

  /** What print(Object) writes for a value: its decimal text, or "null". */
  function ValText(v: Val): string {
    match v
    case None => "null"
    case Some(n) => Int32.Text(n)
  }

  /** Evaluates one expression. Fuel is spent by each call and by each loop
      iteration after the first; running out is the error OutOfFuel. */
  function Eval(fuel: nat, e: Exp, reg: Registry, st: State): Outcome<Val>
    decreases fuel, ExpSize(e)
  {
    match e
    case Assign(x, rhs) =>
      (match Eval(fuel, rhs, reg, st)
       case Fail(err, st1) => Fail(err, st1)
       case Done(v, st1) =>
         if |st1.stack| == 0 then Fail(EmptyStack, st1)
         else Done(v, st1.(stack := WriteTop(st1.stack, x, v))))
    case BinOpExp(op, l, r) =>
      (match Eval(fuel, l, reg, st)
       case Fail(err, st1) => Fail(err, st1)
       case Done(a, st1) =>
         match Eval(fuel, r, reg, st1)
         case Fail(err, st2) => Fail(err, st2)
         case Done(b, st2) =>
           match ApplyOp(op, a, b)
           case Err(err) => Fail(err, st2)
           case Ok(v) => Done(v, st2))
    case Invoke(f, args) =>
      if f !in reg then Fail(UndefinedFunction(f), st)
      else
        (match BindArgs(fuel, f, reg[f].params, args, reg, st, map[])
         case Fail(err, st1) => Fail(err, st1)
         case Done(frame, st1) =>
           if fuel == 0 then Fail(OutOfFuel, st1)
           else Return(EvalBody(fuel - 1, reg[f].body, reg, st1.(stack := st1.stack + [frame]))))
    case BlockExp(b) => EvalSeq(fuel, b, reg, st)
    case If(c, t, f) =>
      (match Eval(fuel, c, reg, st)
       case Fail(err, st1) => Fail(err, st1)
       case Done(cv, st1) =>
         if cv.None? then Fail(NullUsedAsInt, st1)
         else if cv.value > 0 then EvalSeq(fuel, t, reg, st1)
         else EvalSeq(fuel, f, reg, st1))
    case While(c, b) => WhileLoop(fuel, c, b, reg, st)
    case Repeat(b, c) => RepeatLoop(fuel, b, c, reg, st)
    case Print(a) =>
      if a.Space? then Done(None, Emit(st, " "))
      else if a.NewLine? then Done(None, Emit(st, LineTerminator))
      else
        (match Eval(fuel, a, reg, st)
         case Fail(err, st1) => Fail(err, st1)
         case Done(v, st1) => Done(None, Emit(st1, ValText(v))))
    case Space => Done(None, Emit(st, " "))
    case NewLine => Done(None, Emit(st, LineTerminator))
    case Skip => Done(Some(0), st)
    case BoolLit(b) => Done(Some(if b then 1 else 0), st)
    case IntLit(t) =>
      (match Int32.ParseInt(t)
       case None => Fail(BadNumber(t), st)
       case Some(n) => Done(Some(n), st))
    case Id(x) =>
      if |st.stack| == 0 then Fail(EmptyStack, st)
      else if x !in Top(st.stack) then Fail(UndefinedVariable(x), st)
      else Done(Top(st.stack)[x], st)
  }

  /** Evaluates a sequence in order; its value is the last expression's, or
      none for an empty sequence. */
  function EvalSeq(fuel: nat, es: seq<Exp>, reg: Registry, st: State): Outcome<Val>
    decreases fuel, BlockSize(es)
  {
    if |es| == 0 then Done(None, st)
    else
      match Eval(fuel, es[0], reg, st)
      case Fail(err, st1) => Fail(err, st1)
      case Done(v, st1) =>
        if |es| == 1 then Done(v, st1) else EvalSeq(fuel, es[1..], reg, st1)
  }

  /** Binds every local of the body to 0 in the top frame, then evaluates its
      expression sequence. */
  function EvalBody(fuel: nat, body: Body, reg: Registry, st: State): Outcome<Val>
    decreases fuel, BlockSize(body.ene) + 1
  {
    if |body.locals| > 0 && |st.stack| == 0 then Fail(EmptyStack, st)
    else EvalSeq(fuel, body.ene, reg, st.(stack := DeclareInTop(st.stack, body.locals)))
  }

  /** Builds a callee's frame: argument i, evaluated in the caller's frame,
      goes under parameter i; an argument with no parameter is an error
      raised before that argument is evaluated. */
  function BindArgs(fuel: nat, callee: string, params: seq<TypedIdfr>, args: seq<Exp>,
                    reg: Registry, st: State, acc: Frame): Outcome<Frame>
    decreases fuel, BlockSize(args)
  {
    if |args| == 0 then Done(acc, st)
    else if |params| == 0 then Fail(TooManyArguments(callee), st)
    else
      match Eval(fuel, args[0], reg, st)
      case Fail(err, st1) => Fail(err, st1)
      case Done(v, st1) =>
        if v.None? then Fail(NullUsedAsInt, st1)
        else BindArgs(fuel, callee, params[1..], args[1..], reg, st1, acc[params[0].name := v])
  }

  /** Returning from a call pops the callee's frame; a failure propagates
      with the stack as it was. */
  function Return(r: Outcome<Val>): Outcome<Val> {
    match r
    case Fail(err, st) => Fail(err, st)
    case Done(v, st) =>
      if |st.stack| == 0 then Fail(EmptyStack, st)
      else Done(v, st.(stack := Below(st.stack)))
  }

  /** A while loop: test, and while the test is positive run the block and test again. */
  function WhileLoop(fuel: nat, c: Exp, b: seq<Exp>, reg: Registry, st: State): Outcome<Val>
    decreases fuel, 1 + ExpSize(c) + BlockSize(b)
  {
    match Eval(fuel, c, reg, st)
    case Fail(err, st1) => Fail(err, st1)
    case Done(cv, st1) =>
      if cv.None? then Fail(NullUsedAsInt, st1)
      else if cv.value <= 0 then Done(None, st1)
      else
        match EvalSeq(fuel, b, reg, st1)
        case Fail(err, st2) => Fail(err, st2)
        case Done(_, st2) =>
          if fuel == 0 then Fail(OutOfFuel, st2) else WhileLoop(fuel - 1, c, b, reg, st2)
  }

  /** A repeat loop: run the block, then test, and go round again while the test is zero. */
  function RepeatLoop(fuel: nat, b: seq<Exp>, c: Exp, reg: Registry, st: State): Outcome<Val>
    decreases fuel, 1 + ExpSize(c) + BlockSize(b)
  {
    match EvalSeq(fuel, b, reg, st)
    case Fail(err, st1) => Fail(err, st1)
    case Done(_, st1) =>
      match Eval(fuel, c, reg, st1)
      case Fail(err, st2) => Fail(err, st2)
      case Done(cv, st2) =>
        if cv.None? then Fail(NullUsedAsInt, st2)
        else if cv.value != 0 then Done(None, st2)
        else if fuel == 0 then Fail(OutOfFuel, st2)
        else RepeatLoop(fuel - 1, b, c, reg, st2)
  }

  /** How a command-line token becomes a value. */
  function TokenValue(t: string): Option<int> {
    if t == "true" then Some(1) else if t == "false" then Some(0) else Int32.ParseInt(t)
  }

  /** Binds command-line tokens to main's parameters by position. */
  function BindEntry(params: seq<TypedIdfr>, args: seq<string>, acc: Frame): Result<Frame, Error>
  {
    if |args| == 0 then Ok(acc)
    else if |params| == 0 then Err(TooManyArguments("main"))
    else
      match TokenValue(args[0])
      case None => Err(BadNumber(args[0]))
      case Some(v) => BindEntry(params[1..], args[1..], acc[params[0].name := Some(v)])
  }

  /** Runs a program: registers its declarations, binds the tokens to main's
      parameters in one fresh frame, pushes it and evaluates main's body. */
  function Run(prog: seq<Dec>, args: seq<string>, fuel: nat): Outcome<Val>
  {
    var reg := Build(prog);
    if "main" !in reg then
      // with no tokens the empty frame is pushed before main's body is looked at
      Fail(MissingMain, State(if |args| == 0 then [map[]] else [], ""))
    else
      match BindEntry(reg["main"].params, args, map[])
      case Err(err) => Fail(err, State([], ""))
      case Ok(frame) => EvalBody(fuel, reg["main"].body, reg, State([frame], ""))
  }
}
