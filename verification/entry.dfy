/** Program entry: command-line tokens bound to main's parameters, and what a
    whole run promises. */
module Entry {
  import opened Wrappers
  import opened Syntax
  import opened Registry
  import opened Frames
  import opened Errors
  import opened Interpreter
  import opened Discipline
  import Int32

  /** Parameter i is the last of the first n parameters with its name, so
      its binding is the one that survives. */
  predicate LastParam(params: seq<TypedIdfr>, n: int, i: int)
    requires 0 <= i < n <= |params|
  {
    forall j :: i < j < n ==> params[j].name != params[i].name
  }

  /** "true" is 1, "false" is 0, and the decimal text of an `int` is that `int`. */
  lemma TokenValues(n: int)
    requires Int32.InRange(n)
    ensures TokenValue("true") == Some(1) && TokenValue("false") == Some(0)
    ensures TokenValue(Int32.Text(n)) == Some(n)
  {
    var t := Int32.Text(n);
    assert t != "true" && t != "false" by {
      assert t[0] == '-' || Int32.IsDigit(t[0]);
    }
    Int32.TextRoundTrip(n);
  }

  /** Binding succeeds exactly when there are no more tokens than
      parameters and every token converts. */
  lemma {:induction false} EntrySucceedsIff(params: seq<TypedIdfr>, args: seq<string>, acc: Frame)
    ensures BindEntry(params, args, acc).Ok? <==>
            |args| <= |params| && forall i :: 0 <= i < |args| ==> TokenValue(args[i]).Some?
    decreases |args|
  {
    if |args| > 0 && |params| > 0 && TokenValue(args[0]).Some? {
      EntrySucceedsIff(params[1..], args[1..], acc[params[0].name := TokenValue(args[0])]);
      assert forall i :: 1 <= i < |args| ==> args[1..][i - 1] == args[i];
    }
  }

  /** A successful binding binds exactly the first |args| parameter names,
      keeps every other binding, and holds only `int` values. */
  lemma {:induction false} EntryKeys(params: seq<TypedIdfr>, args: seq<string>, acc: Frame)
    requires |args| <= |params| && BindEntry(params, args, acc).Ok?
    ensures BindEntry(params, args, acc).value.Keys == acc.Keys + (set i | 0 <= i < |args| :: params[i].name)
    ensures forall x :: x in acc && (forall i :: 0 <= i < |args| ==> params[i].name != x) ==>
              BindEntry(params, args, acc).value[x] == acc[x]
    ensures Int32Frame(acc) ==> Int32Frame(BindEntry(params, args, acc).value)
    decreases |args|
  {
    if |args| > 0 {
      var t := TokenValue(args[0]);
      var acc' := acc[params[0].name := t];
      EntryKeys(params[1..], args[1..], acc');
      var tail := set i | 0 <= i < |args| - 1 :: params[1..][i].name;
      var all := set i | 0 <= i < |args| :: params[i].name;
      assert all == {params[0].name} + tail by {
        forall y | y in all ensures y in {params[0].name} + tail {
          var i :| 0 <= i < |args| && params[i].name == y;
          if i > 0 {
            assert params[1..][i - 1] == params[i];
          }
        }
        forall y | y in tail ensures y in all {
          var i :| 0 <= i < |args| - 1 && params[1..][i].name == y;
          assert params[i + 1] == params[1..][i];
        }
      }
      forall x | x in acc && (forall i :: 0 <= i < |args| ==> params[i].name != x)
        ensures forall i :: 0 <= i < |args| - 1 ==> params[1..][i].name != x
      {
        assert forall i :: 0 <= i < |args| - 1 ==> params[1..][i] == params[i + 1];
      }
      if Int32Frame(acc) {
        assert Int32Val(t) by {
          if args[0] != "true" && args[0] != "false" {
            assert t == Int32.ParseInt(args[0]);
          }
        }
      }
    }
  }

  /** Token i is bound to parameter i: each surviving binding holds its
      token's value (when two parameters share a name, the later one wins). */
  lemma {:induction false} EntryBindsByPosition(params: seq<TypedIdfr>, args: seq<string>, acc: Frame)
    requires |args| <= |params| && BindEntry(params, args, acc).Ok?
    ensures forall i :: 0 <= i < |args| && LastParam(params, |args|, i) ==>
              params[i].name in BindEntry(params, args, acc).value &&
              BindEntry(params, args, acc).value[params[i].name] == TokenValue(args[i])
    decreases |args|
  {
    if |args| > 0 {
      var t := TokenValue(args[0]);
      var acc' := acc[params[0].name := t];
      EntryBindsByPosition(params[1..], args[1..], acc');
      EntryKeys(params[1..], args[1..], acc');
      var r := BindEntry(params, args, acc).value;
      forall i | 0 <= i < |args| && LastParam(params, |args|, i)
        ensures params[i].name in r && r[params[i].name] == TokenValue(args[i])
      {
        if i > 0 {
          assert params[1..][i - 1] == params[i] && args[1..][i - 1] == args[i];
          assert LastParam(params[1..], |args| - 1, i - 1) by {
            forall j | i - 1 < j < |args| - 1 ensures params[1..][j].name != params[1..][i - 1].name {
              assert params[1..][j] == params[j + 1];
            }
          }
        } else {
          forall k | 0 <= k < |args| - 1 ensures params[1..][k].name != params[0].name {
            assert params[1..][k] == params[k + 1];
          }
        }
      }
    }
  }

  /** A program that declares no main fails with MissingMain. */
  lemma RunWithoutMain(prog: seq<Dec>, args: seq<string>, fuel: nat)
    requires forall i :: 0 <= i < |prog| ==> DecName(prog[i]) != "main"
    ensures Run(prog, args, fuel).Fail? && Run(prog, args, fuel).err == MissingMain
  {
    BuildKeys(prog);
  }

  /** main's body runs on exactly one frame, the one the tokens were bound
      into; a normal run leaves that frame on the stack (it is never popped)
      and its value, when there is one, fits Java's `int`. */
  lemma RunOneFrame(prog: seq<Dec>, args: seq<string>, fuel: nat)
    requires Run(prog, args, fuel).Done?
    ensures var reg := Build(prog);
            && "main" in reg
            && BindEntry(reg["main"].params, args, map[]).Ok?
            && Run(prog, args, fuel) == EvalBody(fuel, reg["main"].body, reg,
                                               State([BindEntry(reg["main"].params, args, map[]).value], ""))
    ensures |Run(prog, args, fuel).st.stack| == 1
    ensures Int32Val(Run(prog, args, fuel).value)
  {
    var reg := Build(prog);
    var frame := BindEntry(reg["main"].params, args, map[]).value;
    EntrySucceedsIff(reg["main"].params, args, map[]);
    EntryKeys(reg["main"].params, args, map[]);
    BodyDiscipline(fuel, reg["main"].body, reg, State([frame], ""));
  }
}
