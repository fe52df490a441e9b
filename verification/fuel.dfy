/** Fuel is only a bound: an evaluation that did not run out of fuel gives
    the same outcome with any larger amount. */
module Fuel {
  import opened Wrappers
  import opened Syntax
  import opened Registry
  import opened Frames
  import opened Errors
  import opened Interpreter
  import opened Semantics

  /** The outcome is not the model's fuel exhaustion. */
  predicate NotStarved<T>(r: Outcome<T>) {
    r.Done? || r.err != OutOfFuel
  }

  lemma {:induction false} EvalFuel(fuel: nat, more: nat, e: Exp, reg: Registry, st: State)
    requires fuel <= more
    requires NotStarved(Eval(fuel, e, reg, st))
    ensures Eval(more, e, reg, st) == Eval(fuel, e, reg, st)
    decreases fuel, ExpSize(e), 2
  {
    match e
    case Assign(x, rhs) =>
      EvalFuel(fuel, more, rhs, reg, st);
    case BinOpExp(op, l, r) =>
      EvalFuel(fuel, more, l, reg, st);
      var r1 := Eval(fuel, l, reg, st);
      if r1.Done? {
        EvalFuel(fuel, more, r, reg, r1.st);
      }
    case Invoke(f, args) => InvokeFuel(fuel, more, e, reg, st);
    case BlockExp(b) => SeqFuel(fuel, more, b, reg, st);
    case If(c, t, f) =>
      EvalFuel(fuel, more, c, reg, st);
      var r1 := Eval(fuel, c, reg, st);
      if r1.Done? && r1.value.Some? {
        if r1.value.value > 0 {
          SeqFuel(fuel, more, t, reg, r1.st);
        } else {
          SeqFuel(fuel, more, f, reg, r1.st);
        }
      }
    case While(c, b) => WhileFuel(fuel, more, c, b, reg, st);
    case Repeat(b, c) => RepeatFuel(fuel, more, b, c, reg, st);
    case Print(a) =>
      if !a.Space? && !a.NewLine? {
        EvalFuel(fuel, more, a, reg, st);
      }
    case Space =>
    case NewLine =>
    case Skip =>
    case BoolLit(_) =>
    case IntLit(_) =>
    case Id(_) =>
  }

  lemma {:induction false} InvokeFuel(fuel: nat, more: nat, e: Exp, reg: Registry, st: State)
    requires e.Invoke?
    requires fuel <= more
    requires NotStarved(Eval(fuel, e, reg, st))
    ensures Eval(more, e, reg, st) == Eval(fuel, e, reg, st)
    decreases fuel, ExpSize(e), 1
  {
    var f := e.callee;
    if f in reg {
      var b := BindArgs(fuel, f, reg[f].params, e.args, reg, st, map[]);
      BindArgsFuel(fuel, more, f, reg[f].params, e.args, reg, st, map[]);
      if b.Done? {
        CallRunsBody(fuel, f, e.args, reg, st);
        CallRunsBody(more, f, e.args, reg, st);
        if fuel > 0 {
          BodyFuel(fuel - 1, more - 1, reg[f].body, reg, b.st.(stack := b.st.stack + [b.value]));
        }
      }
    }
  }

  lemma {:induction false} SeqFuel(fuel: nat, more: nat, es: seq<Exp>, reg: Registry, st: State)
    requires fuel <= more
    requires NotStarved(EvalSeq(fuel, es, reg, st))
    ensures EvalSeq(more, es, reg, st) == EvalSeq(fuel, es, reg, st)
    decreases fuel, BlockSize(es), 1
  {
    if |es| > 0 {
      EvalFuel(fuel, more, es[0], reg, st);
      var r1 := Eval(fuel, es[0], reg, st);
      if r1.Done? && |es| > 1 {
        SeqFuel(fuel, more, es[1..], reg, r1.st);
      }
    }
  }

  lemma {:induction false} BodyFuel(fuel: nat, more: nat, body: Body, reg: Registry, st: State)
    requires fuel <= more
    requires NotStarved(EvalBody(fuel, body, reg, st))
    ensures EvalBody(more, body, reg, st) == EvalBody(fuel, body, reg, st)
    decreases fuel, BlockSize(body.ene) + 1, 1
  {
    if !(|body.locals| > 0 && |st.stack| == 0) {
      SeqFuel(fuel, more, body.ene, reg, st.(stack := DeclareInTop(st.stack, body.locals)));
    }
  }

  lemma {:induction false} BindArgsFuel(fuel: nat, more: nat, callee: string, params: seq<TypedIdfr>, args: seq<Exp>,
                                        reg: Registry, st: State, acc: Frame)
    requires fuel <= more
    requires NotStarved(BindArgs(fuel, callee, params, args, reg, st, acc))
    ensures BindArgs(more, callee, params, args, reg, st, acc) == BindArgs(fuel, callee, params, args, reg, st, acc)
    decreases fuel, BlockSize(args), 1
  {
    if |args| > 0 && |params| > 0 {
      EvalFuel(fuel, more, args[0], reg, st);
      var r1 := Eval(fuel, args[0], reg, st);
      if r1.Done? && r1.value.Some? {
        BindArgsFuel(fuel, more, callee, params[1..], args[1..], reg, r1.st, acc[params[0].name := r1.value]);
      }
    }
  }

  lemma {:induction false} WhileFuel(fuel: nat, more: nat, c: Exp, b: seq<Exp>, reg: Registry, st: State)
    requires fuel <= more
    requires NotStarved(WhileLoop(fuel, c, b, reg, st))
    ensures WhileLoop(more, c, b, reg, st) == WhileLoop(fuel, c, b, reg, st)
    decreases fuel, 1 + ExpSize(c) + BlockSize(b), 2
  {
    var r1 := Eval(fuel, c, reg, st);
    assert NotStarved(r1) by {
      if r1.Fail? {
        WhileOtherwiseStops(fuel, c, b, reg, st);
      }
    }
    EvalFuel(fuel, more, c, reg, st);
    if r1.Done? && r1.value.Some? && r1.value.value > 0 {
      WhileBlockFuel(fuel, more, c, b, reg, st);
    } else {
      WhileOtherwiseStops(fuel, c, b, reg, st);
      WhileOtherwiseStops(more, c, b, reg, st);
    }
  }

  /** The part of a while iteration after a positive test. */
  lemma {:induction false} WhileBlockFuel(fuel: nat, more: nat, c: Exp, b: seq<Exp>, reg: Registry, st: State)
    requires fuel <= more
    requires NotStarved(WhileLoop(fuel, c, b, reg, st))
    requires Eval(fuel, c, reg, st).Done? && Eval(fuel, c, reg, st).value.Some?
    requires Eval(fuel, c, reg, st).value.value > 0
    requires Eval(more, c, reg, st) == Eval(fuel, c, reg, st)
    ensures WhileLoop(more, c, b, reg, st) == WhileLoop(fuel, c, b, reg, st)
    decreases fuel, 1 + ExpSize(c) + BlockSize(b), 1
  {
    var st1 := Eval(fuel, c, reg, st).st;
    var r2 := EvalSeq(fuel, b, reg, st1);
    WhilePositiveRunsBlock(fuel, c, b, reg, st);
    WhilePositiveRunsBlock(more, c, b, reg, st);
    if r2.Fail? {
      assert WhileLoop(fuel, c, b, reg, st) == Fail(r2.err, r2.st);
      SeqFuel(fuel, more, b, reg, st1);
      assert WhileLoop(more, c, b, reg, st) == Fail(r2.err, r2.st);
      assert WhileLoop(more, c, b, reg, st) == WhileLoop(fuel, c, b, reg, st);
    } else {
      assert fuel > 0;
      assert WhileLoop(fuel, c, b, reg, st) == WhileLoop(fuel - 1, c, b, reg, r2.st);
      SeqFuel(fuel, more, b, reg, st1);
      assert WhileLoop(more, c, b, reg, st) == WhileLoop(more - 1, c, b, reg, r2.st);
      WhileAgainFuel(fuel, more, c, b, reg, r2.st, WhileLoop(fuel, c, b, reg, st), WhileLoop(more, c, b, reg, st));
    }
  }

  /** Both loops went round once more from the same state: `x` and `y` are
      the outcomes with `fuel` and `more`, given as their next iterations. */
  lemma {:induction false} WhileAgainFuel(fuel: nat, more: nat, c: Exp, b: seq<Exp>, reg: Registry, st2: State,
                                         x: Outcome<Val>, y: Outcome<Val>)
    requires 0 < fuel <= more
    requires NotStarved(x)
    requires x == WhileLoop(fuel - 1, c, b, reg, st2)
    requires y == WhileLoop(more - 1, c, b, reg, st2)
    ensures y == x
    decreases fuel, 1 + ExpSize(c) + BlockSize(b), 0
  {
    WhileFuel(fuel - 1, more - 1, c, b, reg, st2);
  }


  lemma {:induction false} RepeatFuel(fuel: nat, more: nat, b: seq<Exp>, c: Exp, reg: Registry, st: State)
    requires fuel <= more
    requires NotStarved(RepeatLoop(fuel, b, c, reg, st))
    ensures RepeatLoop(more, b, c, reg, st) == RepeatLoop(fuel, b, c, reg, st)
    decreases fuel, 1 + ExpSize(c) + BlockSize(b), 2
  {
    var r1 := EvalSeq(fuel, b, reg, st);
    assert NotStarved(r1) by {
      if r1.Fail? {
        assert RepeatLoop(fuel, b, c, reg, st) == Fail(r1.err, r1.st);
      }
    }
    SeqFuel(fuel, more, b, reg, st);
    if r1.Fail? {
      assert RepeatLoop(more, b, c, reg, st) == Fail(r1.err, r1.st) == RepeatLoop(fuel, b, c, reg, st);
    } else {
      RepeatTestFuel(fuel, more, b, c, reg, st);
    }
  }

  /** The part of a repeat iteration after its block ran. */
  lemma {:induction false} RepeatTestFuel(fuel: nat, more: nat, b: seq<Exp>, c: Exp, reg: Registry, st: State)
    requires fuel <= more
    requires NotStarved(RepeatLoop(fuel, b, c, reg, st))
    requires EvalSeq(fuel, b, reg, st).Done? && EvalSeq(more, b, reg, st) == EvalSeq(fuel, b, reg, st)
    ensures RepeatLoop(more, b, c, reg, st) == RepeatLoop(fuel, b, c, reg, st)
    decreases fuel, 1 + ExpSize(c) + BlockSize(b), 1
  {
    var st1 := EvalSeq(fuel, b, reg, st).st;
    var r2 := Eval(fuel, c, reg, st1);
    EvalFuel(fuel, more, c, reg, st1);
    if r2.Done? && r2.value == Some(0) {
      RepeatZeroRunsAgain(fuel, b, c, reg, st);
      RepeatZeroRunsAgain(more, b, c, reg, st);
      RepeatAgainFuel(fuel, more, b, c, reg, r2.st, RepeatLoop(fuel, b, c, reg, st), RepeatLoop(more, b, c, reg, st));
    } else {
      RepeatOtherwiseStops(fuel, b, c, reg, st);
      RepeatOtherwiseStops(more, b, c, reg, st);
    }
  }

  /** Both loops went round once more from the same state: `x` and `y` are
      the outcomes with `fuel` and `more`, given as their next iterations. */
  lemma {:induction false} RepeatAgainFuel(fuel: nat, more: nat, b: seq<Exp>, c: Exp, reg: Registry, st2: State,
                                         x: Outcome<Val>, y: Outcome<Val>)
    requires 0 < fuel <= more
    requires NotStarved(x)
    requires x == RepeatLoop(fuel - 1, b, c, reg, st2)
    requires y == RepeatLoop(more - 1, b, c, reg, st2)
    ensures y == x
    decreases fuel, 1 + ExpSize(c) + BlockSize(b), 0
  {
    RepeatFuel(fuel - 1, more - 1, b, c, reg, st2);
  }


  /** The same holds for a whole run. */
  lemma RunFuel(prog: seq<Dec>, args: seq<string>, fuel: nat, more: nat)
    requires fuel <= more
    requires NotStarved(Run(prog, args, fuel))
    ensures Run(prog, args, more) == Run(prog, args, fuel)
  {
    var reg := Build(prog);
    if "main" in reg {
      var b := BindEntry(reg["main"].params, args, map[]);
      if b.Ok? {
        BodyFuel(fuel, more, reg["main"].body, reg, State([b.value], ""));
      }
    }
  }
}
