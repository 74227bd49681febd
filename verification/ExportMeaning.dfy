/**
 What an exported graph computes, read as a consumer reads it: by names.
 */
module ExportMeaning {
  import opened TensorNames
  import opened TfliteLowering
  import opened TfliteExporter
  import opened TfliteMeaning

  /** What a saved array holds. */
  function ArrayTerm(saved: Use): Term {
    if saved.key.Part? then Stored(saved.key.tid, saved.key.suffix, saved.channels) else Undefined
  }

  /** A name is that of a value computed so far, or that of a saved array. */
  function NameTerm(tensors: map<string, Use>, terms: map<string, Term>, name: string): Term {
    if name in terms then terms[name]
    else if name in tensors then ArrayTerm(tensors[name])
    else Undefined
  }

  function NameTerms(tensors: map<string, Use>, terms: map<string, Term>, listed: seq<string>): seq<Term> {
    seq(|listed|, i requires 0 <= i < |listed| => NameTerm(tensors, terms, listed[i]))
  }

  /** The terms of all names when the nodes have been run one after the other on given inputs. */
  function RunNodes(given: map<string, Term>, tensors: map<string, Use>, nodes: seq<Node>): map<string, Term> {
    if nodes == [] then given
    else
      var before, node := RunNodes(given, tensors, nodes[..|nodes| - 1]), nodes[|nodes| - 1];
      before[node.output := Applied(node.kind, NameTerms(tensors, before, node.inputs))]
  }

  /** What stands under the names of the graph inputs, and under no other name. */
  ghost predicate GivenByName(g: Subgraph, names: map<string, string>, given: map<string, Term>) {
    && (forall t, name | t in g.inputs && Is(names, Tensor(t), name) :: name in given && given[name] == Given(t))
    && forall name | name in given :: exists t :: t in g.inputs && Is(names, Tensor(t), name)
  }

  // ---------------------------------------------------------------------------
  // Names and keys agree
  // ---------------------------------------------------------------------------

  /** The name stands for the term of the key, if there is one. */
  ghost predicate NameAgrees(keys: map<Key, Term>, terms: map<string, Term>, key: Key, name: string) {
    (key in keys <==> name in terms) && (key in keys ==> keys[key] == terms[name])
  }

  ghost predicate NamesAgree(names: map<string, string>, keys: map<Key, Term>, terms: map<string, Term>) {
    forall key, name {:trigger NameAgrees(keys, terms, key, name)} | Is(names, key, name) ::
      NameAgrees(keys, terms, key, name)
  }

  predicate SavedKey(key: Key) {
    key.Part? && IsSaved(key.suffix)
  }

  /** No node gives a term to the key of a saved array. */
  ghost predicate NoneSaved(keys: map<Key, Term>) {
    forall key | key in keys :: !SavedKey(key)
  }

  lemma UseAgrees(names: map<string, string>, saved: map<Use, string>, tensors: map<string, Use>,
          keys: map<Key, Term>, terms: map<string, Term>, use: Use, name: string)
    requires NamesAgree(names, keys, terms) && NoneSaved(keys)
    requires SavedShown(names, saved, tensors) && ArraysFound(saved, tensors) && UseShown(names, saved, use, name)
    requires IsSavedUse(use) || use.key in keys
    ensures NameTerm(tensors, terms, name) == UseTerm(keys, use)
  {
    assert NameAgrees(keys, terms, use.key, name);
    if IsSavedUse(use) {
      assert RequestShown(names, saved, tensors, use);
      assert SavedKey(use.key) && saved[use] == name;
    }
  }

  /** Everything that a node reads has a term. */
  ghost predicate AllThere(keys: map<Key, Term>, uses: seq<Use>) {
    forall u | u in uses :: IsSavedUse(u) || u.key in keys
  }

  lemma UsesAgree(names: map<string, string>, saved: map<Use, string>, tensors: map<string, Use>,
          keys: map<Key, Term>, terms: map<string, Term>, uses: seq<Use>, inputs: seq<string>)
    requires NamesAgree(names, keys, terms) && NoneSaved(keys) && AllThere(keys, uses)
    requires SavedShown(names, saved, tensors) && ArraysFound(saved, tensors) && UsesShown(names, saved, uses, inputs)
    ensures NameTerms(tensors, terms, inputs) == UseTerms(keys, uses)
  {
    forall i | 0 <= i < |uses| ensures NameTerm(tensors, terms, inputs[i]) == UseTerm(keys, uses[i]) {
      assert UseShown(names, saved, uses[i], inputs[i]) && uses[i] in uses;
      UseAgrees(names, saved, tensors, keys, terms, uses[i], inputs[i]);
    }
  }

  lemma AssignAgrees(names: map<string, string>, used: set<string>, keys: map<Key, Term>, terms: map<string, Term>,
          key: Key, name: string, term: Term)
    requires NamesFit(names, used) && NamesAgree(names, keys, terms) && Is(names, key, name)
    ensures NamesAgree(names, keys[key := term], terms[name := term])
  {
    forall k, n | Is(names, k, n) ensures NameAgrees(keys[key := term], terms[name := term], k, n) {
      assert NameAgrees(keys, terms, k, n);
      if n == name {
        NameMeansOneKey(names, used, k, key, name);
      }
    }
  }

  lemma GivenAgrees(g: Subgraph, names: map<string, string>, used: set<string>, given: map<string, Term>)
    requires NamesFit(names, used) && GivenByName(g, names, given)
    ensures NamesAgree(names, Evaluate(g, []), given) && NoneSaved(Evaluate(g, []))
  {
    var keys := Evaluate(g, []);
    forall key, name | Is(names, key, name) ensures NameAgrees(keys, given, key, name) {
      if name in given {
        var t :| t in g.inputs && Is(names, Tensor(t), name);
        NameMeansOneKey(names, used, key, Tensor(t), name);
      }
    }
  }

  // ---------------------------------------------------------------------------
  // What a lowered graph makes
  // ---------------------------------------------------------------------------

  /** No node of a lowered graph makes a saved array. */
  ghost predicate NoneMade(nodes: seq<SymNode>) {
    forall i | 0 <= i < |nodes| :: !SavedKey(nodes[i].output)
  }

  lemma EmitMakesNone(f: Facts, kind: string, inputs: seq<Use>, output: Key)
    requires NoneMade(f.nodes) && !SavedKey(output)
    ensures NoneMade(Emit(f, kind, inputs, output).nodes)
  {
  }

  lemma SumMakesNone(g: Subgraph, f: Facts, op: Op)
    requires NoneMade(f.nodes) && op.Sum? && LowerOp(g, f, op).Ok?
    ensures NoneMade(LowerOp(g, f, op).value.nodes)
  {
  }

  lemma SquashMakesNone(f: Facts, op: Op, x: Use)
    requires NoneMade(f.nodes) && op.Logistic?
    ensures NoneMade(Squash(f, op, x).nodes)
  {
  }

  lemma OpMakesNone(g: Subgraph, f: Facts, op: Op)
    requires NoneMade(f.nodes) && LowerOp(g, f, op).Ok?
    ensures NoneMade(LowerOp(g, f, op).value.nodes)
  {
    if op.Sum? {
      SumMakesNone(g, f, op);
    } else if op.Logistic? && op.quantized {
      SquashMakesNone(f, op, Read(g, f, op.input).value);
    }
  }

  lemma {:induction false} RunMakesNone(g: Subgraph, ops: seq<Op>)
    requires LowerAll(g, Start(g), ops).Ok?
    ensures NoneMade(LowerAll(g, Start(g), ops).value.nodes)
  {
    if ops == [] {
    } else {
      var n := |ops| - 1;
      RunMakesNone(g, ops[..n]);
      OpMakesNone(g, LowerAll(g, Start(g), ops[..n]).value, ops[n]);
    }
  }

  lemma {:induction false} FinishMakesNone(g: Subgraph, f: Facts, outputs: seq<nat>)
    requires NoneMade(f.nodes) && Finish(g, f, outputs).Ok?
    ensures NoneMade(Finish(g, f, outputs).value.nodes)
  {
    if outputs == [] {
    } else {
      FinishMakesNone(g, f, outputs[..|outputs| - 1]);
    }
  }

  lemma LoweringMakesNone(g: Subgraph)
    requires TfliteLowering.Lower(g).Ok?
    ensures NoneMade(TfliteLowering.Lower(g).value.nodes)
  {
    RunMakesNone(g, g.ops);
    FinishMakesNone(g, LowerAll(g, Start(g), g.ops).value, g.outputs);
  }

  /** Graph inputs and what nodes made have terms, and nothing else has one. */
  lemma {:induction false} EvaluatedKeys(g: Subgraph, nodes: seq<SymNode>, key: Key)
    ensures key in Evaluate(g, nodes) <==> MadeBefore(nodes, key, |nodes|) || (key.Tensor? && key.tid in g.inputs)
  {
    if nodes == [] {
    } else {
      var n := |nodes| - 1;
      var before := nodes[..n];
      EvaluatedKeys(g, before, key);
      if MadeBefore(before, key, n) {
        var j :| 0 <= j < n && before[j].output == key;
        assert nodes[j].output == key;
      }
      if MadeBefore(nodes, key, n + 1) && nodes[n].output != key {
        var j :| 0 <= j < n + 1 && nodes[j].output == key;
        assert before[j].output == key;
      }
      assert nodes[n].output == key ==> MadeBefore(nodes, key, n + 1);
    }
  }

  lemma ReadsAreThere(g: Subgraph, syms: seq<SymNode>, i: nat)
    requires i < |syms| && NodeReady(g, syms, i)
    ensures AllThere(Evaluate(g, syms[..i]), syms[i].inputs)
  {
    forall u | u in syms[i].inputs ensures IsSavedUse(u) || u.key in Evaluate(g, syms[..i]) {
      assert Ready(g, syms, u, i);
      EvaluatedKeys(g, syms[..i], u.key);
      if MadeBefore(syms, u.key, i) {
        var j :| 0 <= j < i && syms[j].output == u.key;
        assert syms[..i][j].output == u.key;
      }
    }
  }

  lemma NoneSavedThere(g: Subgraph, syms: seq<SymNode>, i: nat)
    requires i <= |syms| && NoneMade(syms)
    ensures NoneSaved(Evaluate(g, syms[..i]))
  {
    forall key | key in Evaluate(g, syms[..i]) ensures !SavedKey(key) {
      EvaluatedKeys(g, syms[..i], key);
      if MadeBefore(syms[..i], key, i) {
        var j :| 0 <= j < i && syms[..i][j].output == key;
        assert syms[j].output == key;
      }
    }
  }

  // ---------------------------------------------------------------------------
  // Running an exported graph
  // ---------------------------------------------------------------------------

  /** Everything that the tables of an export show. */
  ghost predicate Exported(g: Subgraph, names: map<string, string>, used: set<string>, saved: map<Use, string>,
          tensors: map<string, Use>, nodes: seq<Node>)
  {
    && Saves(g, names, saved, tensors) && NamesFit(names, used)
    && NodesShown(names, saved, TfliteLowering.Lower(g).value.nodes, nodes)
  }

  /** After its first nodes, the graph has given the names the terms of their keys. */
  ghost predicate RunAgrees(g: Subgraph, names: map<string, string>, tensors: map<string, Use>, syms: seq<SymNode>,
          nodes: seq<Node>, given: map<string, Term>, n: nat)
    requires n <= |syms| && n <= |nodes|
  {
    NamesAgree(names, Evaluate(g, syms[..n]), RunNodes(given, tensors, nodes[..n]))
  }

  lemma EvaluateStep(g: Subgraph, syms: seq<SymNode>, n: nat)
    requires n < |syms|
    ensures var keys := Evaluate(g, syms[..n]);
      Evaluate(g, syms[..n + 1]) == keys[syms[n].output := Applied(syms[n].kind, UseTerms(keys, syms[n].inputs))]
  {
    assert syms[..n + 1][..n] == syms[..n];
  }

  lemma RunStep(given: map<string, Term>, tensors: map<string, Use>, nodes: seq<Node>, n: nat)
    requires n < |nodes|
    ensures var terms := RunNodes(given, tensors, nodes[..n]);
      RunNodes(given, tensors, nodes[..n + 1])
      == terms[nodes[n].output := Applied(nodes[n].kind, NameTerms(tensors, terms, nodes[n].inputs))]
  {
    assert nodes[..n + 1][..n] == nodes[..n];
  }

  lemma NodeAgrees(g: Subgraph, names: map<string, string>, used: set<string>, saved: map<Use, string>,
          tensors: map<string, Use>, syms: seq<SymNode>, nodes: seq<Node>, given: map<string, Term>, n: nat)
    requires n < |syms| && n < |nodes| && RunAgrees(g, names, tensors, syms, nodes, given, n)
    requires NamesFit(names, used) && SavedShown(names, saved, tensors) && ArraysFound(saved, tensors)
    requires NodeShown(names, saved, syms[n], nodes[n]) && NodeReady(g, syms, n) && NoneMade(syms)
    ensures RunAgrees(g, names, tensors, syms, nodes, given, n + 1)
  {
    var keys, terms := Evaluate(g, syms[..n]), RunNodes(given, tensors, nodes[..n]);
    ReadsAreThere(g, syms, n);
    NoneSavedThere(g, syms, n);
    UsesAgree(names, saved, tensors, keys, terms, syms[n].inputs, nodes[n].inputs);
    AssignAgrees(names, used, keys, terms, syms[n].output, nodes[n].output,
                 Applied(nodes[n].kind, NameTerms(tensors, terms, nodes[n].inputs)));
    EvaluateStep(g, syms, n);
    RunStep(given, tensors, nodes, n);
  }

  lemma {:induction false} NamesFollowKeys(g: Subgraph, names: map<string, string>, used: set<string>,
          saved: map<Use, string>, tensors: map<string, Use>, nodes: seq<Node>, given: map<string, Term>, n: nat)
    requires Exported(g, names, used, saved, tensors, nodes) && FiltersAgree(g) && GivenByName(g, names, given)
    requires n <= |nodes|
    ensures RunAgrees(g, names, tensors, TfliteLowering.Lower(g).value.nodes, nodes, given, n)
  {
    var syms := TfliteLowering.Lower(g).value.nodes;
    if n == 0 {
      GivenAgrees(g, names, used, given);
      assert syms[..0] == [] && nodes[..0] == [];
    } else {
      NamesFollowKeys(g, names, used, saved, tensors, nodes, given, n - 1);
      LoweringIsOrdered(g);
      LoweringMakesNone(g);
      ArraysAreFoundExactlyWhen(g, names, saved, tensors);
      assert NodeShown(names, saved, syms[n - 1], nodes[n - 1]) && NodeReady(g, syms, n - 1);
      NodeAgrees(g, names, used, saved, tensors, syms, nodes, given, n - 1);
    }
  }

  /**
   Whatever the subgraph, if no two convolutions share a filter with different channels
   then running the nodes of its export on the graph inputs leaves, under the name of
   every output, the term that the operations define for it.
   */
  lemma ExportComputes(g: Subgraph, names: map<string, string>, used: set<string>, saved: map<Use, string>,
          tensors: map<string, Use>, nodes: seq<Node>, given: map<string, Term>, listed: seq<string>, k: nat)
    requires ConstantsStay(g) && FiltersAgree(g)
    requires Exported(g, names, used, saved, tensors, nodes) && GivenByName(g, names, given)
    requires AreNames(names, g.outputs, listed) && k < |g.outputs|
    ensures var terms := RunNodes(given, tensors, nodes);
      listed[k] in terms && terms[listed[k]] == OutputTerm(g, g.outputs[k])
  {
    var syms, t := TfliteLowering.Lower(g).value.nodes, g.outputs[k];
    NamesFollowKeys(g, names, used, saved, tensors, nodes, given, |nodes|);
    assert syms[..|nodes|] == syms && nodes[..|nodes|] == nodes;
    LoweringComputes(g);
    assert t in g.outputs && KeyIs(g, TfliteLowering.Lower(g).value, t, OutputTerm(g, t));
    assert Is(names, Tensor(t), listed[k]);
    assert NameAgrees(Evaluate(g, syms), RunNodes(given, tensors, nodes), Tensor(t), listed[k]);
  }
}
