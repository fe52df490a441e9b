# SimpleLang evaluator, modelled in Dafny

This project models the tree-walking evaluator of SimpleLang, a small
imperative language. The evaluator is `SimpleLangInterpreter` in
`279060/task1/src/SimpleLangInterpreter.java`. It takes an already-parsed
program, which is a list of function declarations. It registers every
declaration by name, binds the command-line tokens to the parameters of
`main`, pushes one frame and evaluates `main`'s body. Evaluation walks the
expression tree with a stack of per-call frames. Each frame maps names to
values, and only the top frame is ever read or written. Printing appends to
an output sink.

The model is functional. `Interpreter.Eval` and its companions (`EvalSeq`,
`EvalBody`, `BindArgs`, `WhileLoop`, `RepeatLoop`) are pure functions. Each
takes a fuel bound, an expression, the registry (`map<string, FunctionDetails>`)
and a state: the frame stack plus the text printed so far. Each returns an
`Outcome`. A `Done` outcome carries a value and the new state. A `Fail`
outcome carries an error and the state the evaluator had reached: frames
pushed and not popped, and text already printed. `Interpreter.Run` is the
model of `visitProgram`.

The model follows the Java closely:

- **Null values.** A value is `Option<int>`, because the Java `Integer` can
  be null. Loops, prints, the space and newline primitives and empty
  sequences all evaluate to null.
- **Null in frames.** A frame can hold null, because assignment stores
  whatever its right-hand side produced.
- **Printing null.** Printing null writes `null`: Java's `print(Object)`
  overload is the one chosen.
- **Equality.** Equality uses `Objects.equals`, so two nulls are equal.
- **Null operands.** Every other operator fails on a null operand, exactly
  where Java unboxes it. So `0 and null` is 0 and `1 or null` is 1.
- **32-bit arithmetic.** `+`, `-` and `*` wrap to 32 bits, as Java `int` does.
- **Number parsing.** Integer literals and numeric tokens go through a model
  of `Integer.parseInt`.

Where the language's specification and the code disagree, the model follows
the code:

- no argument-count check, at a call or at entry;
- local initializers are never evaluated, and every local starts at 0;
- no check of the `bool` type;
- no division;
- `>` and `>=` are not evaluated: they reach the operator switch's error
  default;
- no frame pop when a call fails (line 173 is not in a `finally`);
- `main`'s frame is never popped;
- `and`/`or`/`xor` are logical (0 or 1), not bitwise.

Module layout: `Wrappers` (Option, Result), `Int32` (range, wrap-around,
decimal text and parser), `Syntax` (the tree), `Registry`, `Frames`, `Errors`,
`Operators` (the operator switch), `Interpreter` (the evaluator), `Discipline`
(stack balance, append-only output, `int` range), `Semantics` (per-construct
properties), `Entry` (argument binding and whole runs), `StackSafety` (the frame
stack is never found empty) and `Fuel` (fuel is only a bound).

## Model

| member | source | states |
|---|---|---|
| Registry.BuildKeys | 279060/task1/src/SimpleLangInterpreter.java:24-33 | a name is registered exactly when some declaration carries it |
| Registry.BuildLastWins | 279060/task1/src/SimpleLangInterpreter.java:11-33 | each name maps to the last declaration carrying it: the name of its first typed identifier, the remaining typed identifiers in order as parameters, and its body (last write wins) |
| Entry.TokenValues | 279060/task1/src/SimpleLangInterpreter.java:42 | token `true` is 1, `false` is 0, and the decimal text of any `int` converts back to that `int` |
| Entry.EntrySucceedsIff | 279060/task1/src/SimpleLangInterpreter.java:40-44 | entry binding succeeds exactly when there are no more tokens than parameters and every token converts; an extra token is an error, not ignored |
| Entry.EntryKeys | 279060/task1/src/SimpleLangInterpreter.java:37-44 | the entry frame binds exactly the first (number of tokens) parameter names, so with fewer tokens the other parameters stay unbound; every value fits `int` |
| Entry.EntryBindsByPosition | 279060/task1/src/SimpleLangInterpreter.java:40-44 | token i is bound under parameter i (a later parameter of the same name wins) |
| Entry.RunWithoutMain | 279060/task1/src/SimpleLangInterpreter.java:36-47 | a program with no declaration named main fails |
| Entry.RunOneFrame | 279060/task1/src/SimpleLangInterpreter.java:36-47 | main's body runs on exactly one pushed frame, the one the tokens were bound into; after a normal run that frame is still on the stack; the result fits `int` |
| Int32.Wrap | 279060/task1/src/SimpleLangInterpreter.java:131-139 | Java `int` arithmetic: the result is the unique 32-bit value congruent to the exact result modulo 2^32, and equals it when it fits |
| Int32.ParseInt | 279060/task1/src/SimpleLangInterpreter.java:274 | text is accepted exactly when it is an optional sign followed by at least one digit and its value fits `int`; the value is the digits' value, negated after `-` |
| Int32.TextRoundTrip | 279060/task1/src/SimpleLangInterpreter.java:232 | the decimal text printed for an `int` is parsed back as the same `int` |
| Frames.DeclareLocals | 279060/task1/src/SimpleLangInterpreter.java:77-81 | every declared local is bound to 0, overriding any earlier binding of that name; every other binding is kept |
| Frames.WriteTop | 279060/task1/src/SimpleLangInterpreter.java:110 | a write touches only the top frame: the stack height and every lower frame are unchanged, the name holds the value, and the top frame's other bindings are unchanged |
| Operators.ApplyOp | 279060/task1/src/SimpleLangInterpreter.java:121-151 | `=`, `<`, `<=`, `and`, `or` and `xor` give only 0 or 1; `+ - *` are wrapped `int` arithmetic; `and`/`or`/`xor` follow non-zero truthiness; any operator without a case is an error; a null operand fails except under `=` and where `and`/`or` are already decided by the left operand |
| Semantics.SeqSnoc | 279060/task1/src/SimpleLangInterpreter.java:85-104 | a sequence runs its expressions in order and its value is its last expression's value |
| Semantics.EmptySeqIsNone | 279060/task1/src/SimpleLangInterpreter.java:85-96 | an empty sequence has no value and changes nothing |
| Semantics.UninitialisedLocalIsZero | 279060/task1/src/SimpleLangInterpreter.java:77-83 | reading a declared local before any assignment gives 0 |
| Semantics.AssignWritesTopOnly | 279060/task1/src/SimpleLangInterpreter.java:107-112 | assignment evaluates its right-hand side, returns that value, and writes it under the target in the top frame only; lower frames and the other top bindings are as the right-hand side left them |
| Semantics.AssignThenRead | 279060/task1/src/SimpleLangInterpreter.java:107-112 | a read right after an assignment returns the assigned value |
| Semantics.IdReadsTopOnly | 279060/task1/src/SimpleLangInterpreter.java:263-269 | a read succeeds exactly when the top frame binds the name and returns that binding; otherwise it is an UndefinedVariable error, even when a lower frame binds the name |
| Semantics.BinOpEvaluatesBoth | 279060/task1/src/SimpleLangInterpreter.java:114-152 | the left operand is evaluated before the right and both always are; a bad operator is reported only after both ran; two integer operands never fail under a handled operator |
| Semantics.NoShortCircuit | 279060/task1/src/SimpleLangInterpreter.java:116-119 | `and`/`or` do not short-circuit evaluation: a failing right operand fails the whole expression whatever the left value |
| Semantics.TruthOperatorsYieldBits | 279060/task1/src/SimpleLangInterpreter.java:122-148 | comparisons and logical operators evaluate only to 0 or 1 |
| Semantics.UndefinedCallee | 279060/task1/src/SimpleLangInterpreter.java:158-161 | calling an unregistered name fails before any argument is evaluated |
| Semantics.CallPushesAndPopsOneFrame | 279060/task1/src/SimpleLangInterpreter.java:163-175 | a call that returns normally evaluated its arguments in the caller's frame before pushing, ran the callee's body on exactly one new frame, and leaves the stack exactly as the arguments left it |
| Semantics.CallRunsBody | 279060/task1/src/SimpleLangInterpreter.java:164-174 | once the arguments are bound, a call runs the callee's body on the caller's stack with the new frame pushed on top, then pops it |
| Semantics.BindArgsSnoc | 279060/task1/src/SimpleLangInterpreter.java:164-169 | arguments are evaluated left to right, each from the state the earlier ones left and in the caller's frame, and argument i's value is bound under parameter i; a null argument fails |
| Semantics.BindArgsByPosition | 279060/task1/src/SimpleLangInterpreter.java:164-169 | a call's frame binds exactly the first (number of arguments) parameter names, each to a non-null value; with more arguments than parameters no frame is built |
| Semantics.IfTruthBoundary | 279060/task1/src/SimpleLangInterpreter.java:181-198 | `if` takes the then-block exactly when the condition is positive; zero and negative values take the else-block; a null condition fails |
| Semantics.WhileOtherwiseStops | 279060/task1/src/SimpleLangInterpreter.java:201-208 | a while loop whose condition is not a positive integer never runs its block: a failing or null condition fails, a zero or negative one returns none |
| Semantics.WhilePositiveRunsBlock | 279060/task1/src/SimpleLangInterpreter.java:202-206 | a positive condition runs the block once and, if the block returns normally, tests the condition again from the state the block left |
| Semantics.WhileExit | 279060/task1/src/SimpleLangInterpreter.java:201-208 | a while loop that finishes returns none, and its last condition evaluated to a non-positive integer |
| Semantics.RepeatExit | 279060/task1/src/SimpleLangInterpreter.java:211-216 | a repeat loop that finishes ran its block at least once before any test, returns none, and its last condition evaluated to a non-zero integer |
| Semantics.RepeatZeroRunsAgain | 279060/task1/src/SimpleLangInterpreter.java:212-214 | a zero condition sends a repeat loop round again |
| Semantics.RepeatOtherwiseStops | 279060/task1/src/SimpleLangInterpreter.java:212-215 | any condition outcome but zero ends a repeat loop: failing or null fails, non-zero returns none |
| Semantics.PrintAppendsText | 279060/task1/src/SimpleLangInterpreter.java:218-238 | printing an ordinary expression appends its decimal text (or `null`) after whatever evaluating it printed, and returns none |
| Semantics.PrintedTextReadsBack | 279060/task1/src/SimpleLangInterpreter.java:232 | the text printed for an integer reads back as that integer |
| Semantics.PrimitivesPrintThemselves | 279060/task1/src/SimpleLangInterpreter.java:222-250 | printing the space or newline primitive appends the same text as the bare primitive (a space, a line terminator) and returns none |
| Semantics.LeafValues | 279060/task1/src/SimpleLangInterpreter.java:252-260 | skip is 0, `true` is 1, `false` is 0, and none of them changes the state |
| Semantics.IntLiteralValue | 279060/task1/src/SimpleLangInterpreter.java:271-276 | an integer literal written as the decimal text of an `int` evaluates to that `int` |
| StackSafety.EvalNoEmptyStack | 279060/task1/src/SimpleLangInterpreter.java:171-173 | an evaluation started on at least one frame never fails on an empty stack: a call pops only after its body returned on the frame it pushed, so every `peek` and `pop` finds a frame |
| StackSafety.RunNeverEmptyStack | 279060/task1/src/SimpleLangInterpreter.java:36-47 | no run fails on an empty stack: main's frame is pushed before its body runs, and a missing main or a bad token is reported as its own error |
| Discipline.EvalDiscipline | 279060/task1/src/SimpleLangInterpreter.java:171-173 | every evaluation only appends to the output; a normal one leaves the stack as high as it found it with every frame under the top unchanged, and keeps every value inside the `int` range |
| Fuel.EvalFuel | 279060/task1/src/SimpleLangInterpreter.java:200-216 | the fuel bound on calls and loop iterations changes nothing: an evaluation that did not run out of fuel has the same outcome with more fuel |
| Fuel.RunFuel | 279060/task1/src/SimpleLangInterpreter.java:22-47 | the same holds for a whole run |

## Left out

- Lexing and parsing: the model takes the tree as a datatype. The ANTLR
  context classes and the generated listener files are not modelled.
- The print test's cast: `visitPrintExpr` casts the operand's first
  parse-tree child to a terminal token. The model tests the operand's
  constructor instead. For operand forms whose first child is a sub-rule,
  such as a bare block, the Java cast would throw. The grammar is not part
  of this model, so those forms are evaluated and printed like any other.
- Types: the types of typed identifiers are carried but never inspected,
  as in the code.
- Unused code: `visitDec` and the "Should not be here" stubs are never
  reached on this path.
- Output: `System.out` is an appended string. `println` writes `"\n"`; the
  host's line separator is not modelled.
- `Integer.parseInt` accepts only ASCII digits here. Java also accepts other
  Unicode decimal digits.
- Host failures: host stack overflow and memory exhaustion are not
  modelled. Unbounded recursion and loops become the error `OutOfFuel`.
  Fuel is spent once per call and once per loop iteration after the first.
- Interpreter reuse: the interpreter object's function table and frame
  stack outlive one `visitProgram` call. The model starts every run from an
  empty registry and an empty stack.
- EmptyStack: this error stands for Java's `EmptyStackException`. It can
  arise only when evaluation starts from an empty stack; a run never does
  (see `StackSafety.RunNeverEmptyStack`).
- Semantics.BindArgsByPosition: states which names a call binds and that
  their values are non-null, not which value each one receives. The value
  of each argument, and the order arguments are evaluated in, are stated
  separately in `Semantics.BindArgsSnoc`.
