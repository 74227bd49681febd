/**
 What the tensors of a subgraph stand for, as terms over graph inputs and stored
 arrays, and that the lowered nodes compute just these terms.
 */
module TfliteMeaning {
  import opened Results
  import opened TfliteLowering

  /** A graph input, an array made from a constant or from a tensor's parameters, or an operator with its operands. */
  datatype Term =
    | Given(tid: nat)
    | Stored(tid: nat, suffix: Suffix, channels: nat)
    | Applied(kind: string, operands: seq<Term>)
    | Undefined

  // ---------------------------------------------------------------------------
  // The meaning of operations
  // ---------------------------------------------------------------------------

  /** The terms of the tensors that have a value, and the constants that folded tensors stand for. */
  datatype Env = Env(values: map<nat, Term>, folded: map<nat, nat>)

  /** A tensor that was folded into a constant is that constant. */
  function StandsFor(e: Env, t: nat): nat {
    if t in e.folded then e.folded[t] else t
  }

  function TermOf(e: Env, t: nat): Term {
    if t in e.values then e.values[t] else Stored(StandsFor(e, t), Raw, 0)
  }

  function ScaleOf(e: Env, t: nat): Term {
    Stored(StandsFor(e, t), Scale, 0)
  }

  function ZeroPointOf(e: Env, t: nat): Term {
    Stored(StandsFor(e, t), TypedZeroPoint, 0)
  }

  /** The floats that quantized numbers with the scale and zero point of a tensor stand for. */
  function Floats(e: Env, x: Term, t: nat): Term {
    Applied("DequantizeLinear", [x, ScaleOf(e, t), ZeroPointOf(e, t)])
  }

  /** Floats as numbers with the scale and zero point of a tensor. */
  function Quantized(e: Env, x: Term, t: nat): Term {
    Applied("QuantizeLinear", [x, ScaleOf(e, t), ZeroPointOf(e, t)])
  }

  function Filter(e: Env, t: nat, layout: Layout): Term {
    match layout
    case Ohwi => Stored(StandsFor(e, t), Conv, 0)
    case Hwio => Stored(StandsFor(e, t), ConvHwio, 0)
    case OhwiDepthwise => Stored(StandsFor(e, t), DepthwiseQ, 0)
    case Hwcm(channels) => Stored(StandsFor(e, t), DepthwiseHwcm, channels)
  }

  function Broadcast(x: Term, needed: bool): Term {
    if needed then Applied("Expand", [x]) else x
  }

  function TermsOf(e: Env, tids: seq<nat>): seq<Term> {
    seq(|tids|, i requires 0 <= i < |tids| => TermOf(e, tids[i]))
  }

  /** What the operation computes, its operands in the order that its operator takes them. */
  function Computes(e: Env, op: Op): Term
    requires !op.NoOutput?
  {
    match op
    case Dequantize(input, _) => Floats(e, TermOf(e, input), input)
    case Quantize(input, output, requantize) =>
      if requantize then Applied("RequantizeLinear", [TermOf(e, input)]) else Quantized(e, TermOf(e, input), output)
    case Convolve(kind, input, filter, layout, bias, _) =>
      Applied(kind, [TermOf(e, input), Filter(e, filter, layout)]
                    + if bias.Some? then [Stored(StandsFor(e, bias.value), Raw, 0)] else [])
    case Sum(kind, a, b, expandA, expandB, _) =>
      Applied(kind, [Broadcast(TermOf(e, a), expandA), Broadcast(TermOf(e, b), expandB)])
    case Unary(kind, input, _) => Applied(kind, [TermOf(e, input)])
    case Concatenate(inputs, _) => Applied("Concat", TermsOf(e, inputs))
    case Logistic(input, quantized, output) =>
      if quantized then Quantized(e, Applied("Sigmoid", [Floats(e, TermOf(e, input), input)]), output)
      else Applied("Sigmoid", [TermOf(e, input)])
  }

  /** A dequantized constant is folded; every other operation gives its output a value. */
  function AfterOp(g: Subgraph, e: Env, op: Op): Env {
    if op.NoOutput? then e
    else if op.Dequantize? && StandsFor(e, op.input) in g.constants then
      e.(folded := e.folded[op.output := StandsFor(e, op.input)])
    else e.(values := e.values[op.output := Computes(e, op)])
  }

  function AfterAll(g: Subgraph, ops: seq<Op>): Env {
    if ops == [] then Env(map t | t in g.inputs :: Given(t), map[])
    else AfterOp(g, AfterAll(g, ops[..|ops| - 1]), ops[|ops| - 1])
  }

  /** An output is the value of its tensor, or a copy of the constant that it stands for. */
  function OutputTerm(g: Subgraph, t: nat): Term {
    var e := AfterAll(g, g.ops);
    if t in e.values then e.values[t] else Applied("Identity", [Stored(StandsFor(e, t), Raw, 0)])
  }

  /** No dequantization writes to a constant. */
  ghost predicate ConstantsStay(g: Subgraph) {
    forall i | 0 <= i < |g.ops| && g.ops[i].Dequantize? :: g.ops[i].output !in g.constants
  }

  // ---------------------------------------------------------------------------
  // What nodes compute
  // ---------------------------------------------------------------------------

  function UseTerm(keys: map<Key, Term>, use: Use): Term {
    if IsSavedUse(use) then Stored(use.key.tid, use.key.suffix, use.channels)
    else if use.key in keys then keys[use.key]
    else Undefined
  }

  function UseTerms(keys: map<Key, Term>, uses: seq<Use>): seq<Term> {
    seq(|uses|, i requires 0 <= i < |uses| => UseTerm(keys, uses[i]))
  }

  /** The terms of all keys when the nodes have been evaluated one after the other. */
  function Evaluate(g: Subgraph, nodes: seq<SymNode>): map<Key, Term> {
    if nodes == [] then map t | t in g.inputs :: Tensor(t) := Given(t)
    else
      var before, node := Evaluate(g, nodes[..|nodes| - 1]), nodes[|nodes| - 1];
      before[node.output := Applied(node.kind, UseTerms(before, node.inputs))]
  }

  /** The nodes give every value its term, and the same tensors are folded. */
  ghost predicate Agree(g: Subgraph, f: Facts, e: Env) {
    && ValuesAgree(Evaluate(g, f.nodes), f.values, e)
    && FoldsAgree(g, f, e)
  }

  ghost predicate ValuesAgree(keys: map<Key, Term>, values: set<nat>, e: Env) {
    && values == e.values.Keys
    && forall t | t in values :: Tensor(t) in keys && keys[Tensor(t)] == e.values[t]
  }

  ghost predicate FoldsAgree(g: Subgraph, f: Facts, e: Env) {
    f.alias == e.folded && forall t | t in e.folded :: t !in g.constants && e.folded[t] in g.constants
  }

  lemma SourceStandsFor(g: Subgraph, f: Facts, e: Env, t: nat)
    requires FoldsAgree(g, f, e)
    ensures Source(f, t) == StandsFor(e, t)
  {
    if t in f.alias {
      assert f.alias[t] !in f.alias;
      assert Resolve(f.alias, f.alias[t], {} + {t}) == f.alias[t];
    }
  }

  lemma ReadGivesTerm(g: Subgraph, f: Facts, e: Env, t: nat)
    requires Agree(g, f, e) && Read(g, f, t).Ok?
    ensures UseTerm(Evaluate(g, f.nodes), Read(g, f, t).value) == TermOf(e, t)
  {
    SourceStandsFor(g, f, e, t);
  }

  lemma {:induction false} ReadAllGivesTerms(g: Subgraph, f: Facts, e: Env, tids: seq<nat>)
    requires Agree(g, f, e) && ReadAll(g, f, tids).Ok?
    ensures UseTerms(Evaluate(g, f.nodes), ReadAll(g, f, tids).value) == TermsOf(e, tids)
  {
    var keys := Evaluate(g, f.nodes);
    if tids == [] {
    } else {
      var n := |tids| - 1;
      ReadAllGivesTerms(g, f, e, tids[..n]);
      ReadGivesTerm(g, f, e, tids[n]);
      var before, last := ReadAll(g, f, tids[..n]).value, Read(g, f, tids[n]).value;
      assert UseTerms(keys, before + [last]) == UseTerms(keys, before) + [UseTerm(keys, last)];
      assert TermsOf(e, tids) == TermsOf(e, tids[..n]) + [TermOf(e, tids[n])];
    }
  }

  // ---------------------------------------------------------------------------
  // Nodes that are added
  // ---------------------------------------------------------------------------

  lemma EmitEvaluates(g: Subgraph, f: Facts, kind: string, inputs: seq<Use>, output: Key)
    ensures var keys := Evaluate(g, f.nodes);
      Evaluate(g, Emit(f, kind, inputs, output).nodes) == keys[output := Applied(kind, UseTerms(keys, inputs))]
  {
    var more := Emit(f, kind, inputs, output).nodes;
    assert more[..|more| - 1] == f.nodes;
  }

  /** A node for an intermediate changes no value. */
  lemma PartAgrees(g: Subgraph, f: Facts, e: Env, kind: string, inputs: seq<Use>, output: Key)
    requires Agree(g, f, e) && output.Part?
    ensures Agree(g, Emit(f, kind, inputs, output), e)
  {
    EmitEvaluates(g, f, kind, inputs, output);
  }

  lemma ProduceAgrees(g: Subgraph, f: Facts, e: Env, kind: string, inputs: seq<Use>, t: nat, operands: seq<Term>)
    requires Agree(g, f, e) && UseTerms(Evaluate(g, f.nodes), inputs) == operands
    ensures Agree(g, Produce(f, kind, inputs, t), e.(values := e.values[t := Applied(kind, operands)]))
  {
    EmitEvaluates(g, f, kind, inputs, Tensor(t));
  }

  lemma ParametersGiveTerms(g: Subgraph, f: Facts, e: Env, x: Use, t: nat)
    requires FoldsAgree(g, f, e)
    ensures var keys := Evaluate(g, f.nodes);
      UseTerms(keys, [x] + Parameters(f, t)) == [UseTerm(keys, x), ScaleOf(e, t), ZeroPointOf(e, t)]
  {
    SourceStandsFor(g, f, e, t);
  }

  /** A node that quantizes a term with the scale and zero point of its output. */
  lemma QuantizedAgrees(g: Subgraph, f: Facts, e: Env, x: Use, t: nat)
    requires Agree(g, f, e)
    ensures Agree(g, Produce(f, "QuantizeLinear", [x] + Parameters(f, t), t),
                  e.(values := e.values[t := Quantized(e, UseTerm(Evaluate(g, f.nodes), x), t)]))
  {
    ParametersGiveTerms(g, f, e, x, t);
    ProduceAgrees(g, f, e, "QuantizeLinear", [x] + Parameters(f, t), t,
                  [UseTerm(Evaluate(g, f.nodes), x), ScaleOf(e, t), ZeroPointOf(e, t)]);
  }

  lemma DequantizeAgrees(g: Subgraph, f: Facts, e: Env, op: Op)
    requires op.Dequantize? && Agree(g, f, e) && LowerOp(g, f, op).Ok? && op.output !in g.constants
    ensures Agree(g, LowerOp(g, f, op).value, AfterOp(g, e, op))
  {
    SourceStandsFor(g, f, e, op.input);
    if Source(f, op.input) !in g.constants {
      var x := Read(g, f, op.input).value;
      ReadGivesTerm(g, f, e, op.input);
      ParametersGiveTerms(g, f, e, x, op.input);
      ProduceAgrees(g, f, e, "DequantizeLinear", [x] + Parameters(f, op.input), op.output,
                    [TermOf(e, op.input), ScaleOf(e, op.input), ZeroPointOf(e, op.input)]);
    }
  }

  lemma QuantizeAgrees(g: Subgraph, f: Facts, e: Env, op: Op)
    requires op.Quantize? && Agree(g, f, e) && LowerOp(g, f, op).Ok?
    ensures Agree(g, LowerOp(g, f, op).value, AfterOp(g, e, op))
  {
    var x := Read(g, f, op.input).value;
    ReadGivesTerm(g, f, e, op.input);
    if op.requantize {
      assert UseTerms(Evaluate(g, f.nodes), [x]) == [TermOf(e, op.input)];
      ProduceAgrees(g, f, e, "RequantizeLinear", [x], op.output, [TermOf(e, op.input)]);
    } else {
      QuantizedAgrees(g, f, e, x, op.output);
    }
  }

  lemma ConstantGivesTerm(g: Subgraph, f: Facts, e: Env, t: nat, suffix: Suffix, channels: nat)
    requires FoldsAgree(g, f, e) && Constant(g, f, t, suffix, channels).Ok? && IsSaved(suffix)
    ensures UseTerm(Evaluate(g, f.nodes), Constant(g, f, t, suffix, channels).value)
            == Stored(StandsFor(e, t), suffix, channels)
  {
    SourceStandsFor(g, f, e, t);
  }

  lemma ConvolveAgrees(g: Subgraph, f: Facts, e: Env, op: Op)
    requires op.Convolve? && Agree(g, f, e) && LowerOp(g, f, op).Ok?
    ensures Agree(g, LowerOp(g, f, op).value, AfterOp(g, e, op))
  {
    var keys, x := Evaluate(g, f.nodes), Read(g, f, op.input).value;
    var suffix, channels := LayoutSuffix(op.layout), LayoutChannels(op.layout);
    var w := Constant(g, f, op.filter, suffix, channels).value;
    var first := [TermOf(e, op.input), Filter(e, op.filter, op.layout)];
    ReadGivesTerm(g, f, e, op.input);
    ConstantGivesTerm(g, f, e, op.filter, suffix, channels);
    assert UseTerm(keys, w) == Filter(e, op.filter, op.layout);
    if op.bias.None? {
      assert UseTerms(keys, [x, w]) == first + [];
      ProduceAgrees(g, f, e, op.kind, [x, w], op.output, first + []);
    } else {
      var b := Constant(g, f, op.bias.value, Raw, 0).value;
      ConstantGivesTerm(g, f, e, op.bias.value, Raw, 0);
      var all := first + [Stored(StandsFor(e, op.bias.value), Raw, 0)];
      assert UseTerms(keys, [x, w, b]) == all;
      ProduceAgrees(g, f, e, op.kind, [x, w, b], op.output, all);
    }
  }

  /** Expanding an operand gives the broadcast term, and leaves the other operand as it was. */
  lemma ExpandAgrees(g: Subgraph, f: Facts, e: Env, x: Use, needed: bool, output: Key, other: Use)
    requires Agree(g, f, e) && output.Part? && !IsSaved(output.suffix) && other.key != output
    ensures var (f1, x1) := Expand(f, x, needed, output);
      && Agree(g, f1, e)
      && UseTerm(Evaluate(g, f1.nodes), x1) == Broadcast(UseTerm(Evaluate(g, f.nodes), x), needed)
      && UseTerm(Evaluate(g, f1.nodes), other) == UseTerm(Evaluate(g, f.nodes), other)
  {
    if needed {
      PartAgrees(g, f, e, "Expand", [x], output);
      EmitEvaluates(g, f, "Expand", [x], output);
      var keys := Evaluate(g, f.nodes);
      assert UseTerms(keys, [x]) == [UseTerm(keys, x)];
    }
  }

  /** The two operands of a sum, expanded where that is needed. */
  lemma OperandsAgree(g: Subgraph, f: Facts, e: Env, x: Use, y: Use, op: Op)
    requires op.Sum? && Agree(g, f, e)
    requires y.key != Part(op.output, Expanded0) && x.key != Part(op.output, Expanded1)
    ensures var (fa, xa) := Expand(f, x, op.expandA, Part(op.output, Expanded0));
      var (fb, yb) := Expand(fa, y, op.expandB, Part(op.output, Expanded1));
      var keys, after := Evaluate(g, f.nodes), Evaluate(g, fb.nodes);
      && Agree(g, fb, e)
      && UseTerm(after, xa) == Broadcast(UseTerm(keys, x), op.expandA)
      && UseTerm(after, yb) == Broadcast(UseTerm(keys, y), op.expandB)
  {
    var (fa, xa) := Expand(f, x, op.expandA, Part(op.output, Expanded0));
    ExpandAgrees(g, f, e, x, op.expandA, Part(op.output, Expanded0), y);
    ExpandAgrees(g, fa, e, y, op.expandB, Part(op.output, Expanded1), xa);
  }

  lemma TwoUses(keys: map<Key, Term>, x: Use, y: Use)
    ensures UseTerms(keys, [x, y]) == [UseTerm(keys, x), UseTerm(keys, y)]
  {
  }

  lemma SumAgrees(g: Subgraph, f: Facts, e: Env, op: Op)
    requires op.Sum? && Agree(g, f, e) && LowerOp(g, f, op).Ok?
    ensures Agree(g, LowerOp(g, f, op).value, AfterOp(g, e, op))
  {
    var x, y := Read(g, f, op.a).value, Read(g, f, op.b).value;
    ReadGivesTerm(g, f, e, op.a);
    ReadGivesTerm(g, f, e, op.b);
    OperandsAgree(g, f, e, x, y, op);
    var (fa, xa) := Expand(f, x, op.expandA, Part(op.output, Expanded0));
    var (fb, yb) := Expand(fa, y, op.expandB, Part(op.output, Expanded1));
    TwoUses(Evaluate(g, fb.nodes), xa, yb);
    ProduceAgrees(g, fb, e, op.kind, [xa, yb], op.output,
                  [Broadcast(TermOf(e, op.a), op.expandA), Broadcast(TermOf(e, op.b), op.expandB)]);
  }

  /** The first two nodes of a quantized sigmoid: floats, and the sigmoid of them. */
  lemma SigmoidAgrees(g: Subgraph, f: Facts, e: Env, op: Op, x: Use)
    requires op.Logistic? && Agree(g, f, e)
    ensures var floats, squashed := Part(op.output, SigmoidInput), Part(op.output, SigmoidOutput);
      var f1 := Emit(f, "DequantizeLinear", [x] + Parameters(f, op.input), floats);
      var f2 := Emit(f1, "Sigmoid", [Use(floats, 0)], squashed);
      && Agree(g, f2, e)
      && UseTerm(Evaluate(g, f2.nodes), Use(squashed, 0))
         == Applied("Sigmoid", [Floats(e, UseTerm(Evaluate(g, f.nodes), x), op.input)])
  {
    var floats, squashed := Part(op.output, SigmoidInput), Part(op.output, SigmoidOutput);
    var inputs := [x] + Parameters(f, op.input);
    ParametersGiveTerms(g, f, e, x, op.input);
    EmitEvaluates(g, f, "DequantizeLinear", inputs, floats);
    PartAgrees(g, f, e, "DequantizeLinear", inputs, floats);
    var f1 := Emit(f, "DequantizeLinear", inputs, floats);
    OneUse(Evaluate(g, f1.nodes), Use(floats, 0));
    EmitEvaluates(g, f1, "Sigmoid", [Use(floats, 0)], squashed);
    PartAgrees(g, f1, e, "Sigmoid", [Use(floats, 0)], squashed);
  }

  lemma OneUse(keys: map<Key, Term>, x: Use)
    ensures UseTerms(keys, [x]) == [UseTerm(keys, x)]
  {
  }

  lemma SquashComputes(g: Subgraph, f: Facts, e: Env, op: Op, x: Use)
    requires op.Logistic? && Agree(g, f, e)
    ensures var sigmoid := Applied("Sigmoid", [Floats(e, UseTerm(Evaluate(g, f.nodes), x), op.input)]);
      Agree(g, Squash(f, op, x), e.(values := e.values[op.output := Quantized(e, sigmoid, op.output)]))
  {
    var floats, squashed := Part(op.output, SigmoidInput), Part(op.output, SigmoidOutput);
    SigmoidAgrees(g, f, e, op, x);
    var f1 := Emit(f, "DequantizeLinear", [x] + Parameters(f, op.input), floats);
    var f2 := Emit(f1, "Sigmoid", [Use(floats, 0)], squashed);
    QuantizedAgrees(g, f2, e, Use(squashed, 0), op.output);
  }

  lemma SquashIsLowered(g: Subgraph, f: Facts, op: Op)
    requires op.Logistic? && op.quantized && LowerOp(g, f, op).Ok?
    ensures Read(g, f, op.input).Ok? && LowerOp(g, f, op).value == Squash(f, op, Read(g, f, op.input).value)
  {
  }

  lemma SquashIsMeant(g: Subgraph, e: Env, op: Op)
    requires op.Logistic? && op.quantized
    ensures var sigmoid := Applied("Sigmoid", [Floats(e, TermOf(e, op.input), op.input)]);
      AfterOp(g, e, op) == e.(values := e.values[op.output := Quantized(e, sigmoid, op.output)])
  {
  }

  lemma SquashAgrees(g: Subgraph, f: Facts, e: Env, op: Op)
    requires op.Logistic? && op.quantized && Agree(g, f, e) && LowerOp(g, f, op).Ok?
    ensures Agree(g, LowerOp(g, f, op).value, AfterOp(g, e, op))
  {
    SquashIsLowered(g, f, op);
    SquashIsMeant(g, e, op);
    ReadGivesTerm(g, f, e, op.input);
    SquashComputes(g, f, e, op, Read(g, f, op.input).value);
  }

  lemma OneOperandAgrees(g: Subgraph, f: Facts, e: Env, kind: string, input: nat, output: nat)
    requires Agree(g, f, e) && Read(g, f, input).Ok?
    ensures Agree(g, Produce(f, kind, [Read(g, f, input).value], output),
                  e.(values := e.values[output := Applied(kind, [TermOf(e, input)])]))
  {
    ReadGivesTerm(g, f, e, input);
    assert UseTerms(Evaluate(g, f.nodes), [Read(g, f, input).value]) == [TermOf(e, input)];
    ProduceAgrees(g, f, e, kind, [Read(g, f, input).value], output, [TermOf(e, input)]);
  }

  lemma OpComputes(g: Subgraph, f: Facts, e: Env, op: Op)
    requires Agree(g, f, e) && LowerOp(g, f, op).Ok? && (op.Dequantize? ==> op.output !in g.constants)
    ensures Agree(g, LowerOp(g, f, op).value, AfterOp(g, e, op))
  {
    match op
    case Dequantize(_, _) => DequantizeAgrees(g, f, e, op);
    case Quantize(_, _, _) => QuantizeAgrees(g, f, e, op);
    case Convolve(_, _, _, _, _, _) => ConvolveAgrees(g, f, e, op);
    case Sum(_, _, _, _, _, _) => SumAgrees(g, f, e, op);
    case Unary(kind, input, output) => OneOperandAgrees(g, f, e, kind, input, output);
    case Concatenate(inputs, output) =>
      ReadAllGivesTerms(g, f, e, inputs);
      ProduceAgrees(g, f, e, "Concat", ReadAll(g, f, inputs).value, output, TermsOf(e, inputs));
    case Logistic(input, quantized, output) =>
      if quantized {
        SquashAgrees(g, f, e, op);
      } else {
        OneOperandAgrees(g, f, e, "Sigmoid", input, output);
      }
    case NoOutput =>
  }

  lemma {:induction false} RunComputes(g: Subgraph, n: nat)
    requires ConstantsStay(g) && n <= |g.ops| && LowerAll(g, Start(g), g.ops[..n]).Ok?
    ensures Agree(g, LowerAll(g, Start(g), g.ops[..n]).value, AfterAll(g, g.ops[..n]))
  {
    if n == 0 {
    } else {
      assert g.ops[..n][..n - 1] == g.ops[..n - 1] && g.ops[..n][n - 1] == g.ops[n - 1];
      RunComputes(g, n - 1);
      OpComputes(g, LowerAll(g, Start(g), g.ops[..n - 1]).value, AfterAll(g, g.ops[..n - 1]), g.ops[n - 1]);
    }
  }

  // ---------------------------------------------------------------------------
  // The outputs
  // ---------------------------------------------------------------------------

  /** Copying outputs leaves what has a value, and gives those that stand for a constant a copy of it. */
  ghost predicate Copies(g: Subgraph, f: Facts, e: Env, after: Facts, outputs: seq<nat>) {
    && after.alias == f.alias && f.values <= after.values <= f.values + Elements(outputs)
    && (forall t | t in f.values :: KeyIs(g, after, t, TermOf(e, t)))
    && forall t | t in after.values - f.values ::
         KeyIs(g, after, t, Applied("Identity", [Stored(StandsFor(e, t), Raw, 0)]))
  }

  ghost predicate KeyIs(g: Subgraph, f: Facts, t: nat, term: Term) {
    var keys := Evaluate(g, f.nodes);
    Tensor(t) in keys && keys[Tensor(t)] == term
  }

  lemma CopyOne(g: Subgraph, f: Facts, e: Env, before: Facts, outputs: seq<nat>, t: nat)
    requires Agree(g, f, e) && Copies(g, f, e, before, outputs) && Read(g, before, t).Ok?
    ensures var x := Read(g, before, t).value;
      Copies(g, f, e, if x.key == Tensor(t) then before else Produce(before, "Identity", [x], t), outputs + [t])
  {
    var x := Read(g, before, t).value;
    if x.key != Tensor(t) {
      CopyConstant(g, f, e, before, t);
      var after := Produce(before, "Identity", [x], t);
      forall u | u in before.values ensures KeyStays(g, before, after, u) {
        assert u != t;
      }
      forall u | u in f.values ensures KeyIs(g, after, u, TermOf(e, u)) {
        assert KeyStays(g, before, after, u);
      }
      forall u | u in after.values - f.values
        ensures KeyIs(g, after, u, Applied("Identity", [Stored(StandsFor(e, u), Raw, 0)]))
      {
        assert u != t ==> KeyStays(g, before, after, u);
      }
    }
  }

  /** What a node before computed for the tensor is so afterwards. */
  ghost predicate KeyStays(g: Subgraph, before: Facts, after: Facts, t: nat) {
    forall term :: KeyIs(g, before, t, term) ==> KeyIs(g, after, t, term)
  }

  lemma CopyConstant(g: Subgraph, f: Facts, e: Env, before: Facts, t: nat)
    requires FoldsAgree(g, f, e) && before.alias == f.alias && Read(g, before, t).Ok? && t !in before.values
    ensures var after := Produce(before, "Identity", [Read(g, before, t).value], t);
      && KeyIs(g, after, t, Applied("Identity", [Stored(StandsFor(e, t), Raw, 0)]))
      && forall u :: u != t ==> KeyStays(g, before, after, u)
  {
    var x, keys := Read(g, before, t).value, Evaluate(g, before.nodes);
    SourceStandsFor(g, f, e, t);
    EmitEvaluates(g, before, "Identity", [x], Tensor(t));
    assert UseTerms(keys, [x]) == [Stored(StandsFor(e, t), Raw, 0)];
  }

  lemma {:induction false} FinishCopies(g: Subgraph, f: Facts, e: Env, outputs: seq<nat>)
    requires Agree(g, f, e) && Finish(g, f, outputs).Ok?
    ensures Copies(g, f, e, Finish(g, f, outputs).value, outputs)
  {
    if outputs == [] {
    } else {
      var n := |outputs| - 1;
      FinishCopies(g, f, e, outputs[..n]);
      CopyOne(g, f, e, Finish(g, f, outputs[..n]).value, outputs[..n], outputs[n]);
      assert outputs == outputs[..n] + [outputs[n]];
    }
  }

  /**
   Whatever the subgraph, if it is lowered then evaluating its nodes in their order gives
   every tensor with a value the term that the operations define for it, and every output its term.
   */
  lemma LoweringComputes(g: Subgraph)
    requires ConstantsStay(g) && Lower(g).Ok?
    ensures forall t | t in AfterAll(g, g.ops).values :: KeyIs(g, Lower(g).value, t, AfterAll(g, g.ops).values[t])
    ensures forall t | t in g.outputs :: KeyIs(g, Lower(g).value, t, OutputTerm(g, t))
  {
    var f, e := LowerAll(g, Start(g), g.ops).value, AfterAll(g, g.ops);
    assert g.ops[..|g.ops|] == g.ops;
    RunComputes(g, |g.ops|);
    FinishCopies(g, f, e, g.outputs);
    FinishIsSoundFor(g);
  }

  lemma FinishIsSoundFor(g: Subgraph)
    requires Lower(g).Ok?
    ensures OutputsGiven(Lower(g).value, g.outputs)
  {
    RunIsSound(g, g.ops);
    FinishIsSound(g, LowerAll(g, Start(g), g.ops).value, g.outputs);
  }
}
