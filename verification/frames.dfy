/** The environment stack: per-call frames mapping names to values. Only the
    top frame is ever read or written. */
module Frames {
  import opened Wrappers
  import opened Syntax
  import Int32

  /** A runtime value: a Java `Integer`, which may be null (None). */
  type Val = Option<int>

  type Frame = map<string, Val>

  /** The last element is the top of the stack. */
  type Stack = seq<Frame>

  function Top(s: Stack): Frame
    requires |s| > 0
  {
    s[|s| - 1]
  }

  /** Every frame except the top one. */
  function Below(s: Stack): Stack {
    if |s| == 0 then [] else s[..|s| - 1]
  }

  /** `s'` is as high as `s` and every frame under the top is unchanged. */
  predicate Balanced(s: Stack, s': Stack) {
    |s'| == |s| && Below(s') == Below(s)
  }

  /** Writes `v` under `x` in the top frame, creating the binding if absent. */
  function WriteTop(s: Stack, x: string, v: Val): (s': Stack)
    requires |s| > 0
    ensures Balanced(s, s')
    ensures x in Top(s') && Top(s')[x] == v
    ensures forall y :: y != x ==> (y in Top(s') <==> y in Top(s))
    ensures forall y :: y != x && y in Top(s) ==> Top(s')[y] == Top(s)[y]
  {
    Below(s) + [Top(s)[x := v]]
  }

  predicate Declares(locals: seq<TypedIdfr>, x: string) {
    exists i :: 0 <= i < |locals| && locals[i].name == x
  }

  /** Binds every declared local to 0; every other binding is kept. */
  function DeclareLocals(f: Frame, locals: seq<TypedIdfr>): (r: Frame)
    ensures forall x :: x in r <==> x in f || Declares(locals, x)
    ensures forall i :: 0 <= i < |locals| ==> locals[i].name in r && r[locals[i].name] == Some(0)
    ensures forall x :: x in f && !Declares(locals, x) ==> r[x] == f[x]
    decreases |locals|
  {
    if |locals| == 0 then f
    else
      var r := DeclareLocals(f[locals[0].name := Some(0)], locals[1..]);
      assert forall x :: Declares(locals, x) <==> x == locals[0].name || Declares(locals[1..], x) by {
        forall x ensures Declares(locals, x) ==> x == locals[0].name || Declares(locals[1..], x) {
          if Declares(locals, x) {
            var i :| 0 <= i < |locals| && locals[i].name == x;
            if i > 0 {
              assert locals[1..][i - 1] == locals[i];
            }
          }
        }
        forall x ensures Declares(locals[1..], x) ==> Declares(locals, x) {
          if Declares(locals[1..], x) {
            var i :| 0 <= i < |locals[1..]| && locals[1..][i].name == x;
            assert locals[i + 1] == locals[1..][i];
          }
        }
      }
      assert forall i :: 1 <= i < |locals| ==> locals[i] == locals[1..][i - 1];
      r
  }

  /** The top frame after its body's locals are declared; an empty stack is left alone. */
  function DeclareInTop(s: Stack, locals: seq<TypedIdfr>): (s': Stack)
    ensures Balanced(s, s')
    ensures |s| > 0 ==> Top(s') == DeclareLocals(Top(s), locals)
  {
    if |s| == 0 then s else Below(s) + [DeclareLocals(Top(s), locals)]
  }

  predicate Int32Val(v: Val) {
    v.None? || Int32.InRange(v.value)
  }

  predicate Int32Frame(f: Frame) {
    forall x :: x in f ==> Int32Val(f[x])
  }

  /** Every value on the stack fits Java's `int`. */
  predicate Int32Stack(s: Stack) {
    forall i :: 0 <= i < |s| ==> Int32Frame(s[i])
  }
}
