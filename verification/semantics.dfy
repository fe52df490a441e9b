/** Properties of the evaluator, one group per construct: sequences and
    bodies, assignment and variable reads, operators, calls, control flow,
    output and leaves. */
module Semantics {
  import opened Wrappers
  import opened Syntax
  import opened Registry
  import opened Frames
  import opened Errors
  import opened Operators
  import opened Interpreter
  import opened Discipline
  import Int32

  // ---------------------------------------------------------------- sequences

  /** Appending an expression to a sequence runs it after the others and
      makes its value the sequence's value; the earlier values are dropped. */
  lemma {:induction false} SeqSnoc(fuel: nat, es: seq<Exp>, e: Exp, reg: Registry, st: State)
    ensures EvalSeq(fuel, es + [e], reg, st) ==
      match EvalSeq(fuel, es, reg, st)
      case Fail(err, st1) => Fail(err, st1)
      case Done(_, st1) => Eval(fuel, e, reg, st1)
    decreases |es|
  {
    if |es| > 0 {
      assert (es + [e])[0] == es[0];
      assert (es + [e])[1..] == es[1..] + [e];
      var r1 := Eval(fuel, es[0], reg, st);
      if r1.Done? {
        SeqSnoc(fuel, es[1..], e, reg, r1.st);
      }
    }
  }

  /** An empty sequence has no value and changes nothing. */
  lemma EmptySeqIsNone(fuel: nat, reg: Registry, st: State)
    ensures EvalSeq(fuel, [], reg, st) == Done(None, st)
  {
  }

  /** A local read before any assignment is 0, even when the frame already
      held the name (a parameter of the same name is reset). */
  lemma UninitialisedLocalIsZero(fuel: nat, locals: seq<TypedIdfr>, x: string, reg: Registry, st: State)
    requires |st.stack| > 0
    requires Declares(locals, x)
    ensures EvalBody(fuel, Body(locals, [Id(x)]), reg, st).Done?
    ensures EvalBody(fuel, Body(locals, [Id(x)]), reg, st).value == Some(0)
  {
    var i :| 0 <= i < |locals| && locals[i].name == x;
    var st1 := st.(stack := DeclareInTop(st.stack, locals));
    assert Top(st1.stack)[x] == Some(0);
    assert EvalBody(fuel, Body(locals, [Id(x)]), reg, st) == EvalSeq(fuel, [Id(x)], reg, st1);
    assert Eval(fuel, Id(x), reg, st1) == Done(Some(0), st1);
  }

  // ------------------------------------------------------ assignment and reads

  /** Assignment evaluates its right-hand side, then writes that value under
      the target in the top frame only and returns it: lower frames and the
      other bindings of the top frame are as the right-hand side left them. */
  lemma AssignWritesTopOnly(fuel: nat, x: string, rhs: Exp, reg: Registry, st: State)
    requires Eval(fuel, Assign(x, rhs), reg, st).Done?
    ensures var r := Eval(fuel, Assign(x, rhs), reg, st);
            var r1 := Eval(fuel, rhs, reg, st);
            && r1.Done? && r.value == r1.value && |r1.st.stack| > 0
            && r.st.out == r1.st.out
            && Balanced(r1.st.stack, r.st.stack)
            && x in Top(r.st.stack) && Top(r.st.stack)[x] == r.value
            && (forall y :: y != x ==> (y in Top(r.st.stack) <==> y in Top(r1.st.stack)))
            && (forall y :: y != x && y in Top(r1.st.stack) ==> Top(r.st.stack)[y] == Top(r1.st.stack)[y])
  {
  }

  /** A read right after an assignment returns the assigned value. */
  lemma AssignThenRead(fuel: nat, x: string, rhs: Exp, reg: Registry, st: State)
    requires Eval(fuel, Assign(x, rhs), reg, st).Done?
    ensures EvalSeq(fuel, [Assign(x, rhs), Id(x)], reg, st) == Eval(fuel, Assign(x, rhs), reg, st)
  {
    var r := Eval(fuel, Assign(x, rhs), reg, st);
    AssignWritesTopOnly(fuel, x, rhs, reg, st);
    assert [Assign(x, rhs), Id(x)][1..] == [Id(x)];
    assert Eval(fuel, Id(x), reg, r.st) == Done(r.value, r.st);
    assert EvalSeq(fuel, [Id(x)], reg, r.st) == Done(r.value, r.st);
  }

  /** A read looks at the top frame only: a name bound there is returned
      unchanged (possibly null); a name absent there is an error, even when a
      lower frame binds it. */
  lemma IdReadsTopOnly(fuel: nat, x: string, reg: Registry, st: State)
    requires |st.stack| > 0
    ensures x in Top(st.stack) <==> Eval(fuel, Id(x), reg, st).Done?
    ensures x in Top(st.stack) ==> Eval(fuel, Id(x), reg, st) == Done(Top(st.stack)[x], st)
    ensures x !in Top(st.stack) ==> Eval(fuel, Id(x), reg, st) == Fail(UndefinedVariable(x), st)
  {
  }

  // ---------------------------------------------------------------- operators

  /** Both operands are always evaluated, left before right, whatever the
      operator and whatever the left value: the outcome's state is the one
      the right operand left, and a failing right operand is the outcome. */
  lemma BinOpEvaluatesBoth(fuel: nat, op: BinOp, l: Exp, r: Exp, reg: Registry, st: State)
    requires Eval(fuel, l, reg, st).Done?
    ensures var rl := Eval(fuel, l, reg, st);
            var rr := Eval(fuel, r, reg, rl.st);
            var res := Eval(fuel, BinOpExp(op, l, r), reg, st);
            && res.st == rr.st
            && (rr.Fail? ==> res == rr)
            && (rr.Done? && !Handled(op) ==> res == Fail(BadOperator(op), rr.st))
            && (rr.Done? && rl.value.Some? && rr.value.Some? && Handled(op) ==> res.Done?)
  {
  }

  /** `0 and e` and `1 or e` still evaluate `e`: a failure in `e` is the outcome. */
  lemma NoShortCircuit(fuel: nat, l: Exp, r: Exp, reg: Registry, st: State)
    requires Eval(fuel, l, reg, st).Done?
    requires Eval(fuel, r, reg, Eval(fuel, l, reg, st).st).Fail?
    ensures Eval(fuel, BinOpExp(And, l, r), reg, st) == Eval(fuel, r, reg, Eval(fuel, l, reg, st).st)
    ensures Eval(fuel, BinOpExp(Or, l, r), reg, st) == Eval(fuel, r, reg, Eval(fuel, l, reg, st).st)
  {
  }

  /** Comparisons and logical operators yield only 0 or 1. */
  lemma TruthOperatorsYieldBits(fuel: nat, op: BinOp, l: Exp, r: Exp, reg: Registry, st: State)
    requires YieldsTruth(op)
    requires Eval(fuel, BinOpExp(op, l, r), reg, st).Done?
    ensures Eval(fuel, BinOpExp(op, l, r), reg, st).value in {Some(0), Some(1)}
  {
  }

  // -------------------------------------------------------------------- calls

  /** Calling an unregistered name fails before any argument is evaluated. */
  lemma UndefinedCallee(fuel: nat, f: string, args: seq<Exp>, reg: Registry, st: State)
    requires f !in reg
    ensures Eval(fuel, Invoke(f, args), reg, st) == Fail(UndefinedFunction(f), st)
  {
  }

  /** A call that returns normally evaluated its arguments in the caller's
      frame, ran the callee's body on exactly one pushed frame, and popped
      exactly that frame: the stack is the one the arguments left. */
  lemma CallPushesAndPopsOneFrame(fuel: nat, f: string, args: seq<Exp>, reg: Registry, st: State)
    requires Eval(fuel, Invoke(f, args), reg, st).Done?
    ensures f in reg && fuel > 0
    ensures var b := BindArgs(fuel, f, reg[f].params, args, reg, st, map[]);
            var r := Eval(fuel, Invoke(f, args), reg, st);
            && b.Done?
            && Balanced(st.stack, b.st.stack)
            && r.st.stack == b.st.stack
            && var body := EvalBody(fuel - 1, reg[f].body, reg, b.st.(stack := b.st.stack + [b.value]));
               body.Done? && body.value == r.value && body.st.out == r.st.out
  {
    var b := BindArgs(fuel, f, reg[f].params, args, reg, st, map[]);
    BindArgsDiscipline(fuel, f, reg[f].params, args, reg, st, map[]);
    var pushed := b.st.(stack := b.st.stack + [b.value]);
    BodyDiscipline(fuel - 1, reg[f].body, reg, pushed);
    assert Below(pushed.stack) == b.st.stack;
  }

  /** Once the arguments are bound, a call with fuel left runs the callee's
      body on the pushed frame with one unit less; without fuel it stops. */
  lemma CallRunsBody(fuel: nat, f: string, args: seq<Exp>, reg: Registry, st: State)
    requires f in reg
    requires BindArgs(fuel, f, reg[f].params, args, reg, st, map[]).Done?
    ensures var b := BindArgs(fuel, f, reg[f].params, args, reg, st, map[]);
            Eval(fuel, Invoke(f, args), reg, st) ==
              if fuel == 0 then Fail(OutOfFuel, b.st)
              else Return(EvalBody(fuel - 1, reg[f].body, reg, b.st.(stack := b.st.stack + [b.value])))
  {
  }

  /** The names a call binds: the first |args| parameters, each to a
      non-null value, every other binding kept from the initial frame; an
      argument without a parameter never binds. */
  lemma {:induction false} BindArgsByPosition(fuel: nat, callee: string, params: seq<TypedIdfr>, args: seq<Exp>,
                                              reg: Registry, st: State, acc: Frame)
    requires BindArgs(fuel, callee, params, args, reg, st, acc).Done?
    ensures |args| <= |params|
    ensures BindArgs(fuel, callee, params, args, reg, st, acc).value.Keys ==
            acc.Keys + set i | 0 <= i < |args| :: params[i].name
    ensures var frame := BindArgs(fuel, callee, params, args, reg, st, acc).value;
            forall x :: x in frame ==> frame[x].Some? || (x in acc && frame[x] == acc[x])
    decreases |args|
  {
    if |args| > 0 {
      var r1 := Eval(fuel, args[0], reg, st);
      var acc' := acc[params[0].name := r1.value];
      BindArgsByPosition(fuel, callee, params[1..], args[1..], reg, r1.st, acc');
      assert BindArgs(fuel, callee, params, args, reg, st, acc) == BindArgs(fuel, callee, params[1..], args[1..], reg, r1.st, acc');
      var tail := set i | 0 <= i < |args| - 1 :: params[1..][i].name;
      var all := set i | 0 <= i < |args| :: params[i].name;
      assert all == {params[0].name} + tail by {
        forall y | y in all ensures y in {params[0].name} + tail {
          var i :| 0 <= i < |args| && params[i].name == y;
          if i > 0 {
            assert params[1..][i - 1] == params[i];
          }
        }
        forall y | y in tail ensures y in all {
          var i :| 0 <= i < |args| - 1 && params[1..][i].name == y;
          assert params[i + 1] == params[1..][i];
        }
      }
    }
  }

  /** Arguments are evaluated left to right, each in the state the earlier
      ones left, and argument i is bound under parameter i: appending an
      argument (with a parameter still free for it) evaluates it after the
      others and binds its value under the next parameter; a null value fails. */
  lemma {:induction false} BindArgsSnoc(fuel: nat, callee: string, params: seq<TypedIdfr>, args: seq<Exp>, a: Exp,
                                        reg: Registry, st: State, acc: Frame)
    requires |args| < |params|
    ensures BindArgs(fuel, callee, params, args + [a], reg, st, acc) ==
      match BindArgs(fuel, callee, params, args, reg, st, acc)
      case Fail(err, st1) => Fail(err, st1)
      case Done(frame, st1) =>
        (match Eval(fuel, a, reg, st1)
         case Fail(err, st2) => Fail(err, st2)
         case Done(v, st2) =>
           if v.None? then Fail(NullUsedAsInt, st2)
           else Done(frame[params[|args|].name := v], st2))
    decreases |args|
  {
    if |args| == 0 {
      assert args + [a] == [a];
      assert [a][1..] == [];
    } else {
      assert (args + [a])[0] == args[0];
      assert (args + [a])[1..] == args[1..] + [a];
      assert params[1..][|args| - 1] == params[|args|];
      var r1 := Eval(fuel, args[0], reg, st);
      if r1.Done? && r1.value.Some? {
        BindArgsSnoc(fuel, callee, params[1..], args[1..], a, reg, r1.st, acc[params[0].name := r1.value]);
      }
    }
  }

  // --------------------------------------------------------------- control flow

  /** `if` takes the then-block exactly when the condition is positive; zero
      and negative conditions take the else-block; a null condition fails. */
  lemma IfTruthBoundary(fuel: nat, c: Exp, t: seq<Exp>, f: seq<Exp>, reg: Registry, st: State)
    requires Eval(fuel, c, reg, st).Done?
    ensures var rc := Eval(fuel, c, reg, st);
            Eval(fuel, If(c, t, f), reg, st) ==
              if rc.value.None? then Fail(NullUsedAsInt, rc.st)
              else if rc.value.value > 0 then EvalSeq(fuel, t, reg, rc.st)
              else EvalSeq(fuel, f, reg, rc.st)
  {
  }

  /** A while loop stops at a test that is not a positive integer: a
      failing or null test fails with the test's state, and a zero or
      negative one returns none without running the block. */
  lemma WhileOtherwiseStops(fuel: nat, c: Exp, b: seq<Exp>, reg: Registry, st: State)
    requires !(Eval(fuel, c, reg, st).Done? && Eval(fuel, c, reg, st).value.Some? &&
               Eval(fuel, c, reg, st).value.value > 0)
    ensures var t := Eval(fuel, c, reg, st);
            Eval(fuel, While(c, b), reg, st) == WhileLoop(fuel, c, b, reg, st) ==
              if t.Fail? then Fail(t.err, t.st)
              else if t.value.None? then Fail(NullUsedAsInt, t.st)
              else Done(None, t.st)
  {
  }

  /** A positive test runs the block and, if it returns normally, goes round
      again with one unit less fuel. */
  lemma WhilePositiveRunsBlock(fuel: nat, c: Exp, b: seq<Exp>, reg: Registry, st: State)
    requires Eval(fuel, c, reg, st).Done? && Eval(fuel, c, reg, st).value.Some?
    requires Eval(fuel, c, reg, st).value.value > 0
    ensures var t := Eval(fuel, c, reg, st);
            var r := EvalSeq(fuel, b, reg, t.st);
            WhileLoop(fuel, c, b, reg, st) ==
              if r.Fail? then Fail(r.err, r.st)
              else if fuel == 0 then Fail(OutOfFuel, r.st)
              else WhileLoop(fuel - 1, c, b, reg, r.st)
  {
  }

  /** A while loop that finishes returns none, and it finished on a test
      that evaluated to a non-positive integer. */
  lemma {:induction false} WhileExit(fuel: nat, c: Exp, b: seq<Exp>, reg: Registry, st: State)
    returns (lastFuel: nat, last: State)
    requires WhileLoop(fuel, c, b, reg, st).Done?
    ensures WhileLoop(fuel, c, b, reg, st).value == None
    ensures var t := Eval(lastFuel, c, reg, last);
            t.Done? && t.value.Some? && t.value.value <= 0 && t.st == WhileLoop(fuel, c, b, reg, st).st
    decreases fuel
  {
    var r1 := Eval(fuel, c, reg, st);
    if r1.value.value <= 0 {
      lastFuel, last := fuel, st;
    } else {
      var r2 := EvalSeq(fuel, b, reg, r1.st);
      lastFuel, last := WhileExit(fuel - 1, c, b, reg, r2.st);
    }
  }

  /** A repeat loop that finishes ran its block at least once before any
      test, returns none, and finished on a test that evaluated to a non-zero
      integer. */
  lemma {:induction false} RepeatExit(fuel: nat, b: seq<Exp>, c: Exp, reg: Registry, st: State)
    returns (lastFuel: nat, last: State)
    requires RepeatLoop(fuel, b, c, reg, st).Done?
    ensures EvalSeq(fuel, b, reg, st).Done?
    ensures RepeatLoop(fuel, b, c, reg, st).value == None
    ensures var t := Eval(lastFuel, c, reg, last);
            t.Done? && t.value.Some? && t.value.value != 0 && t.st == RepeatLoop(fuel, b, c, reg, st).st
    decreases fuel
  {
    var r1 := EvalSeq(fuel, b, reg, st);
    var r2 := Eval(fuel, c, reg, r1.st);
    if r2.value.value != 0 {
      lastFuel, last := fuel, r1.st;
    } else {
      lastFuel, last := RepeatExit(fuel - 1, b, c, reg, r2.st);
    }
  }

  /** A repeat loop whose test is zero goes round again, so a block that
      leaves the test at zero never lets it finish. */
  lemma RepeatZeroRunsAgain(fuel: nat, b: seq<Exp>, c: Exp, reg: Registry, st: State)
    requires fuel > 0
    requires EvalSeq(fuel, b, reg, st).Done?
    requires var r1 := EvalSeq(fuel, b, reg, st);
             Eval(fuel, c, reg, r1.st).Done? && Eval(fuel, c, reg, r1.st).value == Some(0)
    ensures RepeatLoop(fuel, b, c, reg, st) ==
      RepeatLoop(fuel - 1, b, c, reg, Eval(fuel, c, reg, EvalSeq(fuel, b, reg, st).st).st)
  {
  }

  /** Any test outcome but zero ends a repeat loop: a failing or null test
      fails with the test's state, a non-zero one returns none. */
  lemma RepeatOtherwiseStops(fuel: nat, b: seq<Exp>, c: Exp, reg: Registry, st: State)
    requires EvalSeq(fuel, b, reg, st).Done?
    requires !(Eval(fuel, c, reg, EvalSeq(fuel, b, reg, st).st).Done? &&
               Eval(fuel, c, reg, EvalSeq(fuel, b, reg, st).st).value == Some(0))
    ensures var t := Eval(fuel, c, reg, EvalSeq(fuel, b, reg, st).st);
            RepeatLoop(fuel, b, c, reg, st) ==
              if t.Fail? then Fail(t.err, t.st)
              else if t.value.None? then Fail(NullUsedAsInt, t.st)
              else Done(None, t.st)
  {
  }

  // ------------------------------------------------------------ output, leaves

  /** Printing an expression appends its decimal text (or "null") after
      whatever evaluating it printed, and returns none. */
  lemma PrintAppendsText(fuel: nat, a: Exp, reg: Registry, st: State)
    requires !a.Space? && !a.NewLine?
    requires Eval(fuel, a, reg, st).Done?
    ensures var r := Eval(fuel, a, reg, st);
            Eval(fuel, Print(a), reg, st) == Done(None, r.st.(out := r.st.out + ValText(r.value)))
  {
  }

  /** Printed integers read back as the same integer. */
  lemma PrintedTextReadsBack(n: int)
    requires Int32.InRange(n)
    ensures Int32.ParseInt(ValText(Some(n))) == Some(n)
  {
    Int32.TextRoundTrip(n);
  }

  /** Printing the space or newline primitive appends the same text as the
      bare primitive, changes nothing else and returns none. */
  lemma PrimitivesPrintThemselves(fuel: nat, reg: Registry, st: State)
    ensures Eval(fuel, Print(Space), reg, st) == Eval(fuel, Space, reg, st) == Done(None, st.(out := st.out + " "))
    ensures Eval(fuel, Print(NewLine), reg, st) == Eval(fuel, NewLine, reg, st) == Done(None, st.(out := st.out + "\n"))
  {
  }

  /** skip is 0, true is 1 and false is 0; none of them changes the state. */
  lemma LeafValues(fuel: nat, reg: Registry, st: State)
    ensures Eval(fuel, Skip, reg, st) == Done(Some(0), st)
    ensures Eval(fuel, BoolLit(true), reg, st) == Done(Some(1), st)
    ensures Eval(fuel, BoolLit(false), reg, st) == Done(Some(0), st)
  {
  }

  /** An integer literal written as the decimal text of an `int` evaluates to that `int`. */
  lemma IntLiteralValue(fuel: nat, n: int, reg: Registry, st: State)
    requires Int32.InRange(n)
    ensures Eval(fuel, IntLit(Int32.Text(n)), reg, st) == Done(Some(n), st)
  {
    Int32.TextRoundTrip(n);
    assert Int32.ParseInt(Int32.Text(n)) == Some(n);
  }
}
