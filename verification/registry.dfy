/** The function registry: every top-level declaration indexed by name. */
module Registry {
  import opened Syntax

  /** What the registry stores for a declaration: its name, its parameters
      (the typed identifiers after the first) and its body. */
  datatype FunctionDetails = FunctionDetails(name: string, params: seq<TypedIdfr>, body: Body)

  type Registry = map<string, FunctionDetails>

  function DecName(d: Dec): string {
    d.sig[0].name
  }

  function Details(d: Dec): FunctionDetails {
    FunctionDetails(DecName(d), d.sig[1..], d.body)
  }

  /** Registers the declarations in program order; a later declaration
      replaces an earlier one of the same name. */
  function Build(decs: seq<Dec>): Registry
  {
    if |decs| == 0 then map[]
    else
      var last := decs[|decs| - 1];
      Build(decs[..|decs| - 1])[DecName(last) := Details(last)]
  }

  /** The last declaration with a given name is the one that is stored. */
  predicate LastOfName(decs: seq<Dec>, i: int)
    requires 0 <= i < |decs|
  {
    forall j :: i < j < |decs| ==> DecName(decs[j]) != DecName(decs[i])
  }

  /** Exactly the declared names are registered. */
  lemma {:induction false} BuildKeys(decs: seq<Dec>)
    ensures forall k :: k in Build(decs) <==> exists i :: 0 <= i < |decs| && DecName(decs[i]) == k
  {
    if |decs| > 0 {
      var init := decs[..|decs| - 1];
      BuildKeys(init);
      forall k
        ensures k in Build(decs) <==> exists i :: 0 <= i < |decs| && DecName(decs[i]) == k
      {
        if k in Build(init) {
          var i :| 0 <= i < |init| && DecName(init[i]) == k;
          assert decs[i] == init[i];
        }
        if exists i :: 0 <= i < |decs| && DecName(decs[i]) == k {
          var i :| 0 <= i < |decs| && DecName(decs[i]) == k;
          if i < |init| {
            assert init[i] == decs[i];
          }
        }
      }
    }
  }

  /** Each name is stored with the details of the last declaration carrying
      it: the name of its first typed identifier, the remaining typed
      identifiers in order as parameters, and its body. */
  lemma {:induction false} BuildLastWins(decs: seq<Dec>)
    ensures forall i :: 0 <= i < |decs| && LastOfName(decs, i) ==>
      decs[i].sig[0].name in Build(decs) &&
      Build(decs)[decs[i].sig[0].name] == FunctionDetails(decs[i].sig[0].name, decs[i].sig[1..], decs[i].body)
  {
    if |decs| > 0 {
      var init := decs[..|decs| - 1];
      var last := decs[|decs| - 1];
      BuildLastWins(init);
      forall i | 0 <= i < |decs| && LastOfName(decs, i)
        ensures DecName(decs[i]) in Build(decs) && Build(decs)[DecName(decs[i])] == Details(decs[i])
      {
        if i < |init| {
          assert init[i] == decs[i];
          assert DecName(last) != DecName(decs[i]);
          assert LastOfName(init, i) by {
            forall j | i < j < |init| ensures DecName(init[j]) != DecName(init[i]) {
              assert init[j] == decs[j];
            }
          }
        }
      }
    }
  }
}
