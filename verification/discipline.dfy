/** The stack and output discipline every evaluation keeps: printed text is
    only ever appended, a normal return leaves the stack as high as it was
    with every frame under the top untouched (so a call pops exactly the frame
    it pushed), and every value stays inside Java's `int` range. */
module Discipline {
  import opened Wrappers
  import opened Syntax
  import opened Registry
  import opened Frames
  import opened Errors
  import opened Operators
  import opened Interpreter
  import Int32

  /** Output is append-only: the earlier text is a prefix of the later. */
  predicate Extends(st: State, st': State) {
    st.out <= st'.out
  }

  /** Any outcome extends the output; a normal one also leaves the stack balanced. */
  predicate Settles<T>(st: State, r: Outcome<T>) {
    Extends(st, r.st) && (r.Done? ==> Balanced(st.stack, r.st.stack))
  }

  /** From a stack of `int` values, a normal outcome is an `int` value on such a stack. */
  predicate KeepsInt32(st: State, r: Outcome<Val>) {
    Int32Stack(st.stack) && r.Done? ==> Int32Val(r.value) && Int32Stack(r.st.stack)
  }

  lemma Int32Below(s: Stack)
    requires Int32Stack(s)
    ensures Int32Stack(Below(s))
  {
  }

  lemma Int32Push(s: Stack, f: Frame)
    requires Int32Stack(s) && Int32Frame(f)
    ensures Int32Stack(s + [f])
  {
  }

  lemma Int32WriteTop(s: Stack, x: string, v: Val)
    requires |s| > 0 && Int32Stack(s) && Int32Val(v)
    ensures Int32Stack(WriteTop(s, x, v))
  {
    var s' := WriteTop(s, x, v);
    forall i | 0 <= i < |s'| ensures Int32Frame(s'[i]) {
      if i < |s| - 1 {
        assert s'[i] == Below(s')[i] == Below(s)[i] == s[i];
      } else {
        assert Int32Frame(s[i]);
      }
    }
  }

  lemma Int32DeclareInTop(s: Stack, locals: seq<TypedIdfr>)
    requires Int32Stack(s)
    ensures Int32Stack(DeclareInTop(s, locals))
  {
    var s' := DeclareInTop(s, locals);
    if |s| > 0 {
      forall i | 0 <= i < |s'| ensures Int32Frame(s'[i]) {
        if i < |s| - 1 {
          assert s'[i] == Below(s')[i] == Below(s)[i] == s[i];
        } else {
          assert Int32Frame(Top(s));
        }
      }
    }
  }

  lemma ApplyOpInt32(op: BinOp, a: Val, b: Val)
    ensures ApplyOp(op, a, b).Ok? ==> Int32Val(ApplyOp(op, a, b).value)
  {
  }

  lemma {:induction false} EvalDiscipline(fuel: nat, e: Exp, reg: Registry, st: State)
    ensures Settles(st, Eval(fuel, e, reg, st))
    ensures KeepsInt32(st, Eval(fuel, e, reg, st))
    decreases fuel, ExpSize(e), 1
  {
    match e
    case Assign(x, rhs) => AssignDiscipline(fuel, e, reg, st);
    case BinOpExp(op, l, r) => BinOpDiscipline(fuel, e, reg, st);
    case Invoke(f, args) => InvokeDiscipline(fuel, e, reg, st);
    case BlockExp(b) => SeqDiscipline(fuel, b, reg, st);
    case If(c, t, f) => IfDiscipline(fuel, e, reg, st);
    case While(c, b) => WhileDiscipline(fuel, c, b, reg, st);
    case Repeat(b, c) => RepeatDiscipline(fuel, b, c, reg, st);
    case Print(a) =>
      if !a.Space? && !a.NewLine? {
        EvalDiscipline(fuel, a, reg, st);
      }
    case Space =>
    case NewLine =>
    case Skip =>
    case BoolLit(_) =>
    case IntLit(_) =>
    case Id(x) =>
  }

  lemma {:induction false} AssignDiscipline(fuel: nat, e: Exp, reg: Registry, st: State)
    requires e.Assign?
    ensures Settles(st, Eval(fuel, e, reg, st))
    ensures KeepsInt32(st, Eval(fuel, e, reg, st))
    decreases fuel, ExpSize(e), 0
  {
    EvalDiscipline(fuel, e.rhs, reg, st);
    var r1 := Eval(fuel, e.rhs, reg, st);
    if r1.Done? && |r1.st.stack| > 0 && Int32Stack(st.stack) {
      Int32WriteTop(r1.st.stack, e.target, r1.value);
    }
  }

  lemma {:induction false} BinOpDiscipline(fuel: nat, e: Exp, reg: Registry, st: State)
    requires e.BinOpExp?
    ensures Settles(st, Eval(fuel, e, reg, st))
    ensures KeepsInt32(st, Eval(fuel, e, reg, st))
    decreases fuel, ExpSize(e), 0
  {
    EvalDiscipline(fuel, e.lhs, reg, st);
    var r1 := Eval(fuel, e.lhs, reg, st);
    if r1.Done? {
      EvalDiscipline(fuel, e.rhs, reg, r1.st);
      var r2 := Eval(fuel, e.rhs, reg, r1.st);
      if r2.Done? {
        ApplyOpInt32(e.op, r1.value, r2.value);
      }
    }
  }

  lemma {:induction false} InvokeDiscipline(fuel: nat, e: Exp, reg: Registry, st: State)
    requires e.Invoke?
    ensures Settles(st, Eval(fuel, e, reg, st))
    ensures KeepsInt32(st, Eval(fuel, e, reg, st))
    decreases fuel, ExpSize(e), 0
  {
    var f := e.callee;
    if f in reg {
      BindArgsDiscipline(fuel, f, reg[f].params, e.args, reg, st, map[]);
      var r1 := BindArgs(fuel, f, reg[f].params, e.args, reg, st, map[]);
      if r1.Done? && fuel > 0 {
        var pushed := r1.st.(stack := r1.st.stack + [r1.value]);
        BodyDiscipline(fuel - 1, reg[f].body, reg, pushed);
        assert Below(pushed.stack) == r1.st.stack;
        if Int32Stack(st.stack) {
          Int32Push(r1.st.stack, r1.value);
          var r2 := EvalBody(fuel - 1, reg[f].body, reg, pushed);
          if r2.Done? {
            Int32Below(r2.st.stack);
          }
        }
      }
    }
  }

  lemma {:induction false} IfDiscipline(fuel: nat, e: Exp, reg: Registry, st: State)
    requires e.If?
    ensures Settles(st, Eval(fuel, e, reg, st))
    ensures KeepsInt32(st, Eval(fuel, e, reg, st))
    decreases fuel, ExpSize(e), 0
  {
    EvalDiscipline(fuel, e.cond, reg, st);
    var r1 := Eval(fuel, e.cond, reg, st);
    if r1.Done? {
      SeqDiscipline(fuel, e.thenBlock, reg, r1.st);
      SeqDiscipline(fuel, e.elseBlock, reg, r1.st);
    }
  }

  lemma {:induction false} SeqDiscipline(fuel: nat, es: seq<Exp>, reg: Registry, st: State)
    ensures Settles(st, EvalSeq(fuel, es, reg, st))
    ensures KeepsInt32(st, EvalSeq(fuel, es, reg, st))
    decreases fuel, BlockSize(es), 0
  {
    if |es| > 0 {
      EvalDiscipline(fuel, es[0], reg, st);
      var r1 := Eval(fuel, es[0], reg, st);
      if r1.Done? && |es| > 1 {
        SeqDiscipline(fuel, es[1..], reg, r1.st);
      }
    }
  }

  lemma {:induction false} BodyDiscipline(fuel: nat, body: Body, reg: Registry, st: State)
    ensures Settles(st, EvalBody(fuel, body, reg, st))
    ensures KeepsInt32(st, EvalBody(fuel, body, reg, st))
    decreases fuel, BlockSize(body.ene) + 1, 0
  {
    if !(|body.locals| > 0 && |st.stack| == 0) {
      var st1 := st.(stack := DeclareInTop(st.stack, body.locals));
      SeqDiscipline(fuel, body.ene, reg, st1);
      if Int32Stack(st.stack) {
        Int32DeclareInTop(st.stack, body.locals);
      }
    }
  }

  lemma {:induction false} BindArgsDiscipline(fuel: nat, callee: string, params: seq<TypedIdfr>, args: seq<Exp>,
                                              reg: Registry, st: State, acc: Frame)
    ensures Settles(st, BindArgs(fuel, callee, params, args, reg, st, acc))
    ensures Int32Stack(st.stack) && Int32Frame(acc) && BindArgs(fuel, callee, params, args, reg, st, acc).Done? ==>
      Int32Frame(BindArgs(fuel, callee, params, args, reg, st, acc).value) &&
      Int32Stack(BindArgs(fuel, callee, params, args, reg, st, acc).st.stack)
    decreases fuel, BlockSize(args), 0
  {
    if |args| > 0 && |params| > 0 {
      EvalDiscipline(fuel, args[0], reg, st);
      var r1 := Eval(fuel, args[0], reg, st);
      if r1.Done? && r1.value.Some? {
        BindArgsDiscipline(fuel, callee, params[1..], args[1..], reg, r1.st, acc[params[0].name := r1.value]);
      }
    }
  }

  lemma {:induction false} WhileDiscipline(fuel: nat, c: Exp, b: seq<Exp>, reg: Registry, st: State)
    ensures Settles(st, WhileLoop(fuel, c, b, reg, st))
    ensures KeepsInt32(st, WhileLoop(fuel, c, b, reg, st))
    decreases fuel, 1 + ExpSize(c) + BlockSize(b), 0
  {
    EvalDiscipline(fuel, c, reg, st);
    var r1 := Eval(fuel, c, reg, st);
    if r1.Done? && r1.value.Some? && r1.value.value > 0 {
      SeqDiscipline(fuel, b, reg, r1.st);
      var r2 := EvalSeq(fuel, b, reg, r1.st);
      if r2.Done? && fuel > 0 {
        WhileDiscipline(fuel - 1, c, b, reg, r2.st);
      }
    }
  }

  lemma {:induction false} RepeatDiscipline(fuel: nat, b: seq<Exp>, c: Exp, reg: Registry, st: State)
    ensures Settles(st, RepeatLoop(fuel, b, c, reg, st))
    ensures KeepsInt32(st, RepeatLoop(fuel, b, c, reg, st))
    decreases fuel, 1 + ExpSize(c) + BlockSize(b), 0
  {
    SeqDiscipline(fuel, b, reg, st);
    var r1 := EvalSeq(fuel, b, reg, st);
    if r1.Done? {
      EvalDiscipline(fuel, c, reg, r1.st);
      var r2 := Eval(fuel, c, reg, r1.st);
      if r2.Done? && r2.value.Some? && r2.value.value == 0 && fuel > 0 {
        RepeatDiscipline(fuel - 1, b, c, reg, r2.st);
      }
    }
  }
}
