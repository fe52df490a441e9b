/** The frame stack is never found empty: every evaluation that starts on
    at least one frame keeps at least one, so no `peek` or `pop` of the
    Java stack can throw, and a whole run never fails with EmptyStack. */
module StackSafety {
  import opened Wrappers
  import opened Syntax
  import opened Registry
  import opened Frames
  import opened Errors
  import opened Operators
  import opened Interpreter
  import opened Discipline

  /** The outcome is not an empty-stack failure. */
  predicate NoEmptyStack<T>(r: Outcome<T>) {
    r.Fail? ==> r.err != EmptyStack
  }

  lemma {:induction false} EvalNoEmptyStack(fuel: nat, e: Exp, reg: Registry, st: State)
    requires |st.stack| > 0
    ensures NoEmptyStack(Eval(fuel, e, reg, st))
    decreases fuel, ExpSize(e), 1
  {
    match e
    case Assign(x, rhs) => AssignNoEmptyStack(fuel, e, reg, st);
    case BinOpExp(op, l, r) => BinOpNoEmptyStack(fuel, e, reg, st);
    case Invoke(f, args) => InvokeNoEmptyStack(fuel, e, reg, st);
    case BlockExp(b) => SeqNoEmptyStack(fuel, b, reg, st);
    case If(c, t, f) => IfNoEmptyStack(fuel, e, reg, st);
    case While(c, b) => WhileNoEmptyStack(fuel, c, b, reg, st);
    case Repeat(b, c) => RepeatNoEmptyStack(fuel, b, c, reg, st);
    case Print(a) =>
      if !a.Space? && !a.NewLine? {
        EvalNoEmptyStack(fuel, a, reg, st);
      }
    case Space =>
    case NewLine =>
    case Skip =>
    case BoolLit(_) =>
    case IntLit(_) =>
    case Id(x) =>
  }

  lemma {:induction false} AssignNoEmptyStack(fuel: nat, e: Exp, reg: Registry, st: State)
    requires e.Assign? && |st.stack| > 0
    ensures NoEmptyStack(Eval(fuel, e, reg, st))
    decreases fuel, ExpSize(e), 0
  {
    EvalNoEmptyStack(fuel, e.rhs, reg, st);
    EvalDiscipline(fuel, e.rhs, reg, st);
  }

  lemma {:induction false} BinOpNoEmptyStack(fuel: nat, e: Exp, reg: Registry, st: State)
    requires e.BinOpExp? && |st.stack| > 0
    ensures NoEmptyStack(Eval(fuel, e, reg, st))
    decreases fuel, ExpSize(e), 0
  {
    EvalNoEmptyStack(fuel, e.lhs, reg, st);
    EvalDiscipline(fuel, e.lhs, reg, st);
    var r1 := Eval(fuel, e.lhs, reg, st);
    if r1.Done? {
      EvalNoEmptyStack(fuel, e.rhs, reg, r1.st);
    }
  }

  lemma {:induction false} InvokeNoEmptyStack(fuel: nat, e: Exp, reg: Registry, st: State)
    requires e.Invoke? && |st.stack| > 0
    ensures NoEmptyStack(Eval(fuel, e, reg, st))
    decreases fuel, ExpSize(e), 0
  {
    var f := e.callee;
    if f in reg {
      BindArgsNoEmptyStack(fuel, f, reg[f].params, e.args, reg, st, map[]);
      var r1 := BindArgs(fuel, f, reg[f].params, e.args, reg, st, map[]);
      if r1.Done? && fuel > 0 {
        var pushed := r1.st.(stack := r1.st.stack + [r1.value]);
        BodyNoEmptyStack(fuel - 1, reg[f].body, reg, pushed);
        BodyDiscipline(fuel - 1, reg[f].body, reg, pushed);
      }
    }
  }

  lemma {:induction false} IfNoEmptyStack(fuel: nat, e: Exp, reg: Registry, st: State)
    requires e.If? && |st.stack| > 0
    ensures NoEmptyStack(Eval(fuel, e, reg, st))
    decreases fuel, ExpSize(e), 0
  {
    EvalNoEmptyStack(fuel, e.cond, reg, st);
    EvalDiscipline(fuel, e.cond, reg, st);
    var r1 := Eval(fuel, e.cond, reg, st);
    if r1.Done? {
      SeqNoEmptyStack(fuel, e.thenBlock, reg, r1.st);
      SeqNoEmptyStack(fuel, e.elseBlock, reg, r1.st);
    }
  }

  lemma {:induction false} SeqNoEmptyStack(fuel: nat, es: seq<Exp>, reg: Registry, st: State)
    requires |st.stack| > 0
    ensures NoEmptyStack(EvalSeq(fuel, es, reg, st))
    decreases fuel, BlockSize(es), 0
  {
    if |es| > 0 {
      EvalNoEmptyStack(fuel, es[0], reg, st);
      EvalDiscipline(fuel, es[0], reg, st);
      var r1 := Eval(fuel, es[0], reg, st);
      if r1.Done? && |es| > 1 {
        SeqNoEmptyStack(fuel, es[1..], reg, r1.st);
      }
    }
  }

  lemma {:induction false} BodyNoEmptyStack(fuel: nat, body: Body, reg: Registry, st: State)
    requires |st.stack| > 0
    ensures NoEmptyStack(EvalBody(fuel, body, reg, st))
    decreases fuel, BlockSize(body.ene) + 1, 0
  {
    SeqNoEmptyStack(fuel, body.ene, reg, st.(stack := DeclareInTop(st.stack, body.locals)));
  }

  lemma {:induction false} BindArgsNoEmptyStack(fuel: nat, callee: string, params: seq<TypedIdfr>, args: seq<Exp>,
                                                reg: Registry, st: State, acc: Frame)
    requires |st.stack| > 0
    ensures NoEmptyStack(BindArgs(fuel, callee, params, args, reg, st, acc))
    decreases fuel, BlockSize(args), 0
  {
    if |args| > 0 && |params| > 0 {
      EvalNoEmptyStack(fuel, args[0], reg, st);
      EvalDiscipline(fuel, args[0], reg, st);
      var r1 := Eval(fuel, args[0], reg, st);
      if r1.Done? && r1.value.Some? {
        BindArgsNoEmptyStack(fuel, callee, params[1..], args[1..], reg, r1.st, acc[params[0].name := r1.value]);
      }
    }
  }

  lemma {:induction false} WhileNoEmptyStack(fuel: nat, c: Exp, b: seq<Exp>, reg: Registry, st: State)
    requires |st.stack| > 0
    ensures NoEmptyStack(WhileLoop(fuel, c, b, reg, st))
    decreases fuel, 1 + ExpSize(c) + BlockSize(b), 0
  {
    EvalNoEmptyStack(fuel, c, reg, st);
    EvalDiscipline(fuel, c, reg, st);
    var r1 := Eval(fuel, c, reg, st);
    if r1.Done? && r1.value.Some? && r1.value.value > 0 {
      SeqNoEmptyStack(fuel, b, reg, r1.st);
      SeqDiscipline(fuel, b, reg, r1.st);
      var r2 := EvalSeq(fuel, b, reg, r1.st);
      if r2.Done? && fuel > 0 {
        WhileNoEmptyStack(fuel - 1, c, b, reg, r2.st);
      }
    }
  }

  lemma {:induction false} RepeatNoEmptyStack(fuel: nat, b: seq<Exp>, c: Exp, reg: Registry, st: State)
    requires |st.stack| > 0
    ensures NoEmptyStack(RepeatLoop(fuel, b, c, reg, st))
    decreases fuel, 1 + ExpSize(c) + BlockSize(b), 0
  {
    SeqNoEmptyStack(fuel, b, reg, st);
    SeqDiscipline(fuel, b, reg, st);
    var r1 := EvalSeq(fuel, b, reg, st);
    if r1.Done? {
      EvalNoEmptyStack(fuel, c, reg, r1.st);
      EvalDiscipline(fuel, c, reg, r1.st);
      var r2 := Eval(fuel, c, reg, r1.st);
      if r2.Done? && r2.value.Some? && r2.value.value == 0 && fuel > 0 {
        RepeatNoEmptyStack(fuel - 1, b, c, reg, r2.st);
      }
    }
  }

  /** Entry binding fails only on an extra token or an unparsable one. */
  lemma {:induction false} EntryErrors(params: seq<TypedIdfr>, args: seq<string>, acc: Frame)
    ensures BindEntry(params, args, acc).Err? ==>
      BindEntry(params, args, acc).error == TooManyArguments("main") ||
      BindEntry(params, args, acc).error.BadNumber?
    decreases |args|
  {
    if |args| > 0 && |params| > 0 && TokenValue(args[0]).Some? {
      EntryErrors(params[1..], args[1..], acc[params[0].name := TokenValue(args[0])]);
    }
  }

  /** A run never finds the frame stack empty. */
  lemma RunNeverEmptyStack(prog: seq<Dec>, args: seq<string>, fuel: nat)
    ensures NoEmptyStack(Run(prog, args, fuel))
  {
    var reg := Build(prog);
    if "main" in reg {
      EntryErrors(reg["main"].params, args, map[]);
      var b := BindEntry(reg["main"].params, args, map[]);
      if b.Ok? {
        BodyNoEmptyStack(fuel, reg["main"].body, reg, State([b.value], ""));
      }
    }
  }
}
