/**
 Lowering a TFLite subgraph to the nodes of an exported graph, on keys.

 A key says what a name stands for: a tensor, a weight or parameter made from one,
 or an intermediate.  The lowering is a function of the subgraph.
 */
module TfliteLowering {
  import opened Decimals
  import opened Results

  // ---------------------------------------------------------------------------
  // Keys and their texts
  // ---------------------------------------------------------------------------

  datatype Suffix =
    | Raw | Conv | ConvHwio | DepthwiseHwcm | DepthwiseQ
    | Scale | TypedZeroPoint
    | Expanded0 | Expanded1 | SigmoidInput | SigmoidOutput

  datatype Key = Tensor(tid: nat) | Part(tid: nat, suffix: Suffix)

  /** Weights and parameters are saved arrays; the other parts are intermediates. */
  predicate IsSaved(suffix: Suffix) {
    suffix.Raw? || suffix.Conv? || suffix.ConvHwio? || suffix.DepthwiseHwcm? || suffix.DepthwiseQ?
    || suffix.Scale? || suffix.TypedZeroPoint?
  }

  function SuffixText(suffix: Suffix): string {
    match suffix
    case Raw => "raw"
    case Conv => "conv"
    case ConvHwio => "conv_hwio"
    case DepthwiseHwcm => "depthwise_hwcm"
    case DepthwiseQ => "depthwise_q"
    case Scale => "scale"
    case TypedZeroPoint => "typed_zero_point"
    case Expanded0 => "qadd_input0_expanded"
    case Expanded1 => "qadd_input1_expanded"
    case SigmoidInput => "sigmoid_input"
    case SigmoidOutput => "sigmoid_f32"
  }

  function KeyTail(key: Key): string {
    if key.Tensor? then "" else "_" + SuffixText(key.suffix)
  }

  /** The original under which a key is named. */
  function KeyText(key: Key): string {
    "tflite_" + (Decimal(key.tid) + KeyTail(key))
  }

  lemma SuffixesDiffer(a: Suffix, b: Suffix)
    requires SuffixText(a) == SuffixText(b)
    ensures a == b
  {
    assert |SuffixText(a)| == |SuffixText(b)|;
    assert SuffixText(a)[0] == SuffixText(b)[0];
    assert |SuffixText(a)| == 20 ==> SuffixText(a)[10] == SuffixText(b)[10];
  }

  /** Digits followed by nothing or by an underscore are told from what follows. */
  lemma DigitsReach(a: string, x: string, b: string, y: string)
    requires forall k | 0 <= k < |b| :: IsDigit(b[k])
    requires (x != "" ==> x[0] == '_') && a + x == b + y
    ensures |b| <= |a|
  {
    var all := a + x;
    assert forall k | 0 <= k < |b| :: (b + y)[k] == b[k];
    assert |a| < |all| ==> all[|a|] == '_';
  }

  lemma DigitsEndOnce(a: string, x: string, b: string, y: string)
    requires (forall k | 0 <= k < |a| :: IsDigit(a[k])) && (forall k | 0 <= k < |b| :: IsDigit(b[k]))
    requires (x != "" ==> x[0] == '_') && (y != "" ==> y[0] == '_') && a + x == b + y
    ensures a == b && x == y
  {
    DigitsReach(a, x, b, y);
    DigitsReach(b, y, a, x);
    var all := a + x;
    assert a == all[..|a|] && b == all[..|b|] && x == all[|a|..] && y == all[|b|..];
  }

  /** No two keys share their original. */
  lemma KeyTextsDiffer(a: Key, b: Key)
    requires KeyText(a) == KeyText(b)
    ensures a == b
  {
    var restA, restB := Decimal(a.tid) + KeyTail(a), Decimal(b.tid) + KeyTail(b);
    assert KeyText(a)[7..] == restA && KeyText(b)[7..] == restB;
    DecimalIsDigits(a.tid);
    DecimalIsDigits(b.tid);
    DigitsEndOnce(Decimal(a.tid), KeyTail(a), Decimal(b.tid), KeyTail(b));
    DecimalIsInjective(a.tid, b.tid);
    TailsDiffer(a, b);
  }

  lemma TailsDiffer(a: Key, b: Key)
    requires a.tid == b.tid && KeyTail(a) == KeyTail(b)
    ensures a == b
  {
    assert |KeyTail(a)| == |KeyTail(b)|;
    if a.Part? && b.Part? {
      assert KeyTail(a)[1..] == SuffixText(a.suffix) && KeyTail(b)[1..] == SuffixText(b.suffix);
      SuffixesDiffer(a.suffix, b.suffix);
    }
  }

  // ---------------------------------------------------------------------------
  // The subgraph and its lowering
  // ---------------------------------------------------------------------------

  /** What a node reads; a filter is asked for with a channel count. */
  datatype Use = Use(key: Key, channels: nat)

  datatype SymNode = SymNode(kind: string, inputs: seq<Use>, output: Key)

  /** How a filter is laid out; only the split of a depthwise filter depends on the channels of its input. */
  datatype Layout = Ohwi | Hwio | OhwiDepthwise | Hwcm(channels: nat)

  function LayoutSuffix(layout: Layout): Suffix {
    match layout
    case Ohwi => Conv
    case Hwio => ConvHwio
    case OhwiDepthwise => DepthwiseQ
    case Hwcm(_) => DepthwiseHwcm
  }

  /** The channels that are passed on with a request for a filter, zero for none. */
  function LayoutChannels(layout: Layout): nat {
    if layout.Hwcm? then layout.channels else 0
  }

  /**
   An operation with its tensors.  How it is lowered beyond that depends on element
   types, shapes and quantization, which enter as the flags and names here.
   */
  datatype Op =
    | Dequantize(input: nat, output: nat)
    | Quantize(input: nat, output: nat, requantize: bool)
    | Convolve(kind: string, input: nat, filter: nat, layout: Layout, bias: Option<nat>, output: nat)
    | Sum(kind: string, a: nat, b: nat, expandA: bool, expandB: bool, output: nat)
    | Unary(kind: string, input: nat, output: nat)
    | Concatenate(inputs: seq<nat>, output: nat)
    | Logistic(input: nat, quantized: bool, output: nat)
    | NoOutput

  datatype Subgraph = Subgraph(constants: set<nat>, inputs: seq<nat>, outputs: seq<nat>, ops: seq<Op>)

  datatype ExportError = NoProducedValue(tid: nat) | NotConstant(tid: nat)

  /**
   The tensors that have a value, the constants that stand for folded outputs, the
   nodes so far, and the saved arrays that they read.
   */
  datatype Facts = Facts(values: set<nat>, alias: map<nat, nat>, nodes: seq<SymNode>, arrays: set<Use>)

  predicate IsSavedUse(use: Use) {
    use.key.Part? && IsSaved(use.key.suffix)
  }

  function SavedIn(uses: seq<Use>): set<Use> {
    set u | u in uses && IsSavedUse(u)
  }

  /** Follows the aliases, each at most once. */
  function Resolve(alias: map<nat, nat>, tid: nat, seen: set<nat>): nat
    decreases alias.Keys - seen
  {
    if tid in alias && tid !in seen then Resolve(alias, alias[tid], seen + {tid}) else tid
  }

  function Source(f: Facts, tid: nat): nat {
    Resolve(f.alias, tid, {})
  }

  function Read(g: Subgraph, f: Facts, tid: nat): Result<Use, ExportError> {
    if tid in f.values then Ok(Use(Tensor(tid), 0))
    else if Source(f, tid) in g.constants then Ok(Use(Part(Source(f, tid), Raw), 0))
    else Err(NoProducedValue(tid))
  }

  function ReadAll(g: Subgraph, f: Facts, tids: seq<nat>): Result<seq<Use>, ExportError> {
    if tids == [] then Ok([])
    else
      var before := ReadAll(g, f, tids[..|tids| - 1]);
      if before.Err? then before
      else
        var last := Read(g, f, tids[|tids| - 1]);
        if last.Err? then Err(last.error) else Ok(before.value + [last.value])
  }

  function Constant(g: Subgraph, f: Facts, tid: nat, suffix: Suffix, channels: nat): Result<Use, ExportError> {
    if Source(f, tid) in g.constants then Ok(Use(Part(Source(f, tid), suffix), channels)) else Err(NotConstant(tid))
  }

  function Parameters(f: Facts, tid: nat): seq<Use> {
    [Use(Part(Source(f, tid), Scale), 0), Use(Part(Source(f, tid), TypedZeroPoint), 0)]
  }

  function Emit(f: Facts, kind: string, inputs: seq<Use>, output: Key): Facts {
    f.(nodes := f.nodes + [SymNode(kind, inputs, output)], arrays := f.arrays + SavedIn(inputs))
  }

  /** A node for a tensor gives the tensor its value. */
  function Produce(f: Facts, kind: string, inputs: seq<Use>, tid: nat): Facts {
    Emit(f, kind, inputs, Tensor(tid)).(values := f.values + {tid})
  }

  function LowerOp(g: Subgraph, f: Facts, op: Op): Result<Facts, ExportError> {
    match op
    case Dequantize(input, output) =>
      if Source(f, input) in g.constants then Ok(f.(alias := f.alias[output := Source(f, input)]))
      else
        var x := Read(g, f, input);
        if x.Err? then Err(x.error)
        else Ok(Produce(f, "DequantizeLinear", [x.value] + Parameters(f, input), output))
    case Quantize(input, output, requantize) =>
      var x := Read(g, f, input);
      if x.Err? then Err(x.error)
      else if requantize then Ok(Produce(f, "RequantizeLinear", [x.value], output))
      else Ok(Produce(f, "QuantizeLinear", [x.value] + Parameters(f, output), output))
    case Convolve(kind, input, filter, layout, bias, output) =>
      var x, w := Read(g, f, input), Constant(g, f, filter, LayoutSuffix(layout), LayoutChannels(layout));
      if x.Err? then Err(x.error)
      else if w.Err? then Err(w.error)
      else if bias.None? then Ok(Produce(f, kind, [x.value, w.value], output))
      else
        var b := Constant(g, f, bias.value, Raw, 0);
        if b.Err? then Err(b.error) else Ok(Produce(f, kind, [x.value, w.value, b.value], output))
    case Sum(kind, a, b, expandA, expandB, output) =>
      var x, y := Read(g, f, a), Read(g, f, b);
      if x.Err? then Err(x.error)
      else if y.Err? then Err(y.error)
      else
        var (fa, xa) := Expand(f, x.value, expandA, Part(output, Expanded0));
        var (fb, yb) := Expand(fa, y.value, expandB, Part(output, Expanded1));
        Ok(Produce(fb, kind, [xa, yb], output))
    case Unary(kind, input, output) =>
      var x := Read(g, f, input);
      if x.Err? then Err(x.error) else Ok(Produce(f, kind, [x.value], output))
    case Concatenate(inputs, output) =>
      var xs := ReadAll(g, f, inputs);
      if xs.Err? then Err(xs.error) else Ok(Produce(f, "Concat", xs.value, output))
    case Logistic(input, quantized, output) =>
      var x := Read(g, f, input);
      if x.Err? then Err(x.error)
      else if !quantized then Ok(Produce(f, "Sigmoid", [x.value], output))
      else Ok(Squash(f, op, x.value))
    case NoOutput => Ok(f)
  }

  function Squash(f: Facts, op: Op, x: Use): Facts
    requires op.Logistic?
  {
    var floats, squashed := Part(op.output, SigmoidInput), Part(op.output, SigmoidOutput);
    var f1 := Emit(f, "DequantizeLinear", [x] + Parameters(f, op.input), floats);
    var f2 := Emit(f1, "Sigmoid", [Use(floats, 0)], squashed);
    Produce(f2, "QuantizeLinear", [Use(squashed, 0)] + Parameters(f2, op.output), op.output)
  }

  function Expand(f: Facts, x: Use, needed: bool, output: Key): (Facts, Use) {
    if needed then (Emit(f, "Expand", [x], output), Use(output, 0)) else (f, x)
  }

  function LowerAll(g: Subgraph, f: Facts, ops: seq<Op>): Result<Facts, ExportError> {
    if ops == [] then Ok(f)
    else
      var before := LowerAll(g, f, ops[..|ops| - 1]);
      if before.Err? then before else LowerOp(g, before.value, ops[|ops| - 1])
  }

  /** An output that is not a value under its own name gets a node that copies it. */
  function Finish(g: Subgraph, f: Facts, outputs: seq<nat>): Result<Facts, ExportError> {
    if outputs == [] then Ok(f)
    else
      var before := Finish(g, f, outputs[..|outputs| - 1]);
      if before.Err? then before
      else
        var tid := outputs[|outputs| - 1];
        var x := Read(g, before.value, tid);
        if x.Err? then Err(x.error)
        else if x.value.key == Tensor(tid) then before
        else Ok(Produce(before.value, "Identity", [x.value], tid))
  }

  function Elements(tids: seq<nat>): set<nat> {
    set t | t in tids
  }

  function Start(g: Subgraph): Facts {
    Facts(Elements(g.inputs), map[], [], {})
  }

  function Lower(g: Subgraph): Result<Facts, ExportError> {
    var lowered := LowerAll(g, Start(g), g.ops);
    if lowered.Err? then lowered else Finish(g, lowered.value, g.outputs)
  }

  // ---------------------------------------------------------------------------
  // Order: every node reads what is there before it
  // ---------------------------------------------------------------------------

  ghost predicate MadeBefore(nodes: seq<SymNode>, key: Key, before: nat) {
    exists j | 0 <= j < before && j < |nodes| :: nodes[j].output == key
  }

  /** A graph input, a saved array, or the output of one of the first `before` nodes. */
  ghost predicate Ready(g: Subgraph, nodes: seq<SymNode>, use: Use, before: nat) {
    match use.key
    case Tensor(tid) => tid in g.inputs || MadeBefore(nodes, use.key, before)
    case Part(_, suffix) => IsSaved(suffix) || MadeBefore(nodes, use.key, before)
  }

  ghost predicate NodeReady(g: Subgraph, nodes: seq<SymNode>, i: nat)
    requires i < |nodes|
  {
    forall u | u in nodes[i].inputs :: Ready(g, nodes, u, i)
  }

  ghost predicate Ordered(g: Subgraph, nodes: seq<SymNode>) {
    forall i | 0 <= i < |nodes| :: NodeReady(g, nodes, i)
  }

  /** The nodes are ordered, and every value is a graph input or the output of a node. */
  ghost predicate Sound(g: Subgraph, f: Facts) {
    && Ordered(g, f.nodes)
    && forall t | t in f.values :: Ready(g, f.nodes, Use(Tensor(t), 0), |f.nodes|)
  }

  /** Everything in the list is there. */
  ghost predicate AllReady(g: Subgraph, f: Facts, uses: seq<Use>) {
    forall u | u in uses :: Ready(g, f.nodes, u, |f.nodes|)
  }

  lemma ReadyStays(g: Subgraph, nodes: seq<SymNode>, node: SymNode, use: Use, before: nat)
    requires before <= |nodes|
    ensures Ready(g, nodes + [node], use, before) == Ready(g, nodes, use, before)
    ensures Ready(g, nodes, use, before) ==> Ready(g, nodes + [node], use, |nodes| + 1)
    ensures use.key == node.output ==> Ready(g, nodes + [node], use, |nodes| + 1)
  {
    var more := nodes + [node];
    assert forall j | 0 <= j < before :: more[j] == nodes[j];
    assert more[|nodes|] == node;
    if MadeBefore(nodes, use.key, before) {
      var j :| 0 <= j < before && nodes[j].output == use.key;
      assert more[j].output == use.key;
    }
  }

  lemma EmitIsSound(g: Subgraph, f: Facts, kind: string, inputs: seq<Use>, output: Key)
    requires Sound(g, f) && AllReady(g, f, inputs)
    ensures Sound(g, Emit(f, kind, inputs, output))
    ensures Ready(g, Emit(f, kind, inputs, output).nodes, Use(output, 0), |f.nodes| + 1)
    ensures forall u ::
      Ready(g, f.nodes, u, |f.nodes|) ==> Ready(g, Emit(f, kind, inputs, output).nodes, u, |f.nodes| + 1)
  {
    var node := SymNode(kind, inputs, output);
    var more := f.nodes + [node];
    forall u: Use, i: nat | i <= |f.nodes|
      ensures Ready(g, more, u, i) == Ready(g, f.nodes, u, i)
      ensures Ready(g, f.nodes, u, i) ==> Ready(g, more, u, |f.nodes| + 1)
    {
      ReadyStays(g, f.nodes, node, u, i);
    }
    forall i | 0 <= i < |more| ensures NodeReady(g, more, i) {
      assert i < |f.nodes| ==> NodeReady(g, f.nodes, i) && more[i] == f.nodes[i];
    }
    ReadyStays(g, f.nodes, node, Use(output, 0), |f.nodes|);
  }

  lemma ProduceIsSound(g: Subgraph, f: Facts, kind: string, inputs: seq<Use>, tid: nat)
    requires Sound(g, f) && AllReady(g, f, inputs)
    ensures Sound(g, Produce(f, kind, inputs, tid))
  {
    EmitIsSound(g, f, kind, inputs, Tensor(tid));
  }

  lemma ReadIsReady(g: Subgraph, f: Facts, tid: nat)
    requires Sound(g, f) && Read(g, f, tid).Ok?
    ensures Ready(g, f.nodes, Read(g, f, tid).value, |f.nodes|)
  {
  }

  lemma {:induction false} ReadAllIsReady(g: Subgraph, f: Facts, tids: seq<nat>)
    requires Sound(g, f) && ReadAll(g, f, tids).Ok?
    ensures AllReady(g, f, ReadAll(g, f, tids).value)
  {
    if tids == [] {
    } else {
      ReadAllIsReady(g, f, tids[..|tids| - 1]);
      ReadIsReady(g, f, tids[|tids| - 1]);
    }
  }

  lemma ExpandIsSound(g: Subgraph, f: Facts, x: Use, needed: bool, output: Key)
    requires Sound(g, f) && Ready(g, f.nodes, x, |f.nodes|)
    ensures var (f1, x1) := Expand(f, x, needed, output);
      && Sound(g, f1) && Ready(g, f1.nodes, x1, |f1.nodes|)
      && forall u :: Ready(g, f.nodes, u, |f.nodes|) ==> Ready(g, f1.nodes, u, |f1.nodes|)
  {
    if needed {
      EmitIsSound(g, f, "Expand", [x], output);
    }
  }

  lemma SumIsSound(g: Subgraph, f: Facts, op: Op)
    requires op.Sum? && Sound(g, f) && LowerOp(g, f, op).Ok?
    ensures Sound(g, LowerOp(g, f, op).value)
  {
    var x, y := Read(g, f, op.a).value, Read(g, f, op.b).value;
    ReadIsReady(g, f, op.a);
    ReadIsReady(g, f, op.b);
    ExpandIsSound(g, f, x, op.expandA, Part(op.output, Expanded0));
    var (fa, xa) := Expand(f, x, op.expandA, Part(op.output, Expanded0));
    ExpandIsSound(g, fa, y, op.expandB, Part(op.output, Expanded1));
    var (fb, yb) := Expand(fa, y, op.expandB, Part(op.output, Expanded1));
    ProduceIsSound(g, fb, op.kind, [xa, yb], op.output);
  }

  lemma ParametersAreReady(g: Subgraph, f: Facts, tid: nat, x: Use)
    requires Ready(g, f.nodes, x, |f.nodes|)
    ensures AllReady(g, f, [x] + Parameters(f, tid))
  {
  }

  lemma SquashIsSound(g: Subgraph, f: Facts, op: Op, x: Use)
    requires op.Logistic? && Sound(g, f) && Ready(g, f.nodes, x, |f.nodes|)
    ensures Sound(g, Squash(f, op, x))
  {
    var floats, squashed := Part(op.output, SigmoidInput), Part(op.output, SigmoidOutput);
    var inputs := [x] + Parameters(f, op.input);
    ParametersAreReady(g, f, op.input, x);
    var f1 := Emit(f, "DequantizeLinear", inputs, floats);
    EmitIsSound(g, f, "DequantizeLinear", inputs, floats);
    var f2 := Emit(f1, "Sigmoid", [Use(floats, 0)], squashed);
    EmitIsSound(g, f1, "Sigmoid", [Use(floats, 0)], squashed);
    ParametersAreReady(g, f2, op.output, Use(squashed, 0));
    ProduceIsSound(g, f2, "QuantizeLinear", [Use(squashed, 0)] + Parameters(f2, op.output), op.output);
  }

  lemma LogisticIsSound(g: Subgraph, f: Facts, op: Op)
    requires op.Logistic? && op.quantized && Sound(g, f) && LowerOp(g, f, op).Ok?
    ensures Sound(g, LowerOp(g, f, op).value)
  {
    ReadIsReady(g, f, op.input);
    SquashIsSound(g, f, op, Read(g, f, op.input).value);
  }

  lemma DequantizeIsSound(g: Subgraph, f: Facts, op: Op)
    requires op.Dequantize? && Sound(g, f) && LowerOp(g, f, op).Ok?
    ensures Sound(g, LowerOp(g, f, op).value)
  {
    if Source(f, op.input) !in g.constants {
      ReadIsReady(g, f, op.input);
      ProduceIsSound(g, f, "DequantizeLinear", [Read(g, f, op.input).value] + Parameters(f, op.input), op.output);
    }
  }

  lemma QuantizeIsSound(g: Subgraph, f: Facts, op: Op)
    requires op.Quantize? && Sound(g, f) && LowerOp(g, f, op).Ok?
    ensures Sound(g, LowerOp(g, f, op).value)
  {
    ReadIsReady(g, f, op.input);
    var x := Read(g, f, op.input).value;
    if op.requantize {
      ProduceIsSound(g, f, "RequantizeLinear", [x], op.output);
    } else {
      ProduceIsSound(g, f, "QuantizeLinear", [x] + Parameters(f, op.output), op.output);
    }
  }

  lemma ConvolveIsSound(g: Subgraph, f: Facts, op: Op)
    requires op.Convolve? && Sound(g, f) && LowerOp(g, f, op).Ok?
    ensures Sound(g, LowerOp(g, f, op).value)
  {
    ReadIsReady(g, f, op.input);
    var x := Read(g, f, op.input).value;
    var w := Constant(g, f, op.filter, LayoutSuffix(op.layout), LayoutChannels(op.layout)).value;
    if op.bias.None? {
      ProduceIsSound(g, f, op.kind, [x, w], op.output);
    } else {
      ProduceIsSound(g, f, op.kind, [x, w, Constant(g, f, op.bias.value, Raw, 0).value], op.output);
    }
  }

  lemma OpIsSound(g: Subgraph, f: Facts, op: Op)
    requires Sound(g, f) && LowerOp(g, f, op).Ok?
    ensures Sound(g, LowerOp(g, f, op).value)
  {
    match op
    case Dequantize(_, _) => DequantizeIsSound(g, f, op);
    case Quantize(_, _, _) => QuantizeIsSound(g, f, op);
    case Convolve(_, _, _, _, _, _) => ConvolveIsSound(g, f, op);
    case Sum(_, _, _, _, _, _) => SumIsSound(g, f, op);
    case Unary(kind, input, output) =>
      ReadIsReady(g, f, input);
      ProduceIsSound(g, f, kind, [Read(g, f, input).value], output);
    case Concatenate(inputs, output) =>
      ReadAllIsReady(g, f, inputs);
      ProduceIsSound(g, f, "Concat", ReadAll(g, f, inputs).value, output);
    case Logistic(input, quantized, output) =>
      if quantized {
        LogisticIsSound(g, f, op);
      } else {
        ReadIsReady(g, f, input);
        ProduceIsSound(g, f, "Sigmoid", [Read(g, f, input).value], output);
      }
    case NoOutput =>
  }

  // ---------------------------------------------------------------------------
  // Single assignment
  // ---------------------------------------------------------------------------

  function OutputOf(op: Op): Option<nat> {
    if op.NoOutput? then None else Some(op.output)
  }

  /** No tensor is the output of two operations, or of one and also a graph input. */
  ghost predicate ProducedOnce(g: Subgraph) {
    && (forall i, j | 0 <= i < j < |g.ops| && OutputOf(g.ops[i]).Some? :: OutputOf(g.ops[i]) != OutputOf(g.ops[j]))
    && (forall i | 0 <= i < |g.ops| && OutputOf(g.ops[i]).Some? :: OutputOf(g.ops[i]).value !in g.inputs)
  }

  ghost predicate DistinctOutputs(nodes: seq<SymNode>) {
    forall i, j | 0 <= i < j < |nodes| :: nodes[i].output != nodes[j].output
  }

  ghost predicate Fresh(f: Facts, key: Key) {
    forall i | 0 <= i < |f.nodes| :: f.nodes[i].output != key
  }

  /** With the operations that yield the tensors in `done` lowered, each key is assigned once. */
  ghost predicate Single(g: Subgraph, f: Facts, done: set<nat>) {
    && DistinctOutputs(f.nodes)
    && (forall i | 0 <= i < |f.nodes| :: f.nodes[i].output.tid in done)
    && (forall i | 0 <= i < |f.nodes| && f.nodes[i].output.Tensor? ::
          f.nodes[i].output.tid in f.values && f.nodes[i].output.tid !in g.inputs)
    && f.values <= Elements(g.inputs) + done && Elements(g.inputs) <= f.values
  }

  lemma EmitIsSingle(g: Subgraph, f: Facts, kind: string, inputs: seq<Use>, output: Key, done: set<nat>)
    requires Single(g, f, done) && Fresh(f, output) && output.Part? && output.tid in done
    ensures Single(g, Emit(f, kind, inputs, output), done)
    ensures forall k :: Fresh(f, k) && k != output ==> Fresh(Emit(f, kind, inputs, output), k)
  {
  }

  lemma ProduceIsSingle(g: Subgraph, f: Facts, kind: string, inputs: seq<Use>, tid: nat, done: set<nat>)
    requires Single(g, f, done) && Fresh(f, Tensor(tid)) && tid in done && tid !in g.inputs
    ensures Single(g, Produce(f, kind, inputs, tid), done)
  {
  }

  /** The new output is nobody's yet. */
  ghost predicate IsNew(g: Subgraph, f: Facts, done: set<nat>, output: nat) {
    Single(g, f, done) && output !in done && output !in g.inputs
  }

  lemma NewIsFresh(g: Subgraph, f: Facts, done: set<nat>, output: nat)
    requires IsNew(g, f, done, output)
    ensures Single(g, f, done + {output}) && forall k: Key | k.tid == output :: Fresh(f, k)
  {
  }

  lemma SumIsSingle(g: Subgraph, f: Facts, op: Op, done: set<nat>)
    requires op.Sum? && IsNew(g, f, done, op.output) && LowerOp(g, f, op).Ok?
    ensures Single(g, LowerOp(g, f, op).value, done + {op.output})
  {
    NewIsFresh(g, f, done, op.output);
    var o, more := op.output, done + {op.output};
    var x, y := Read(g, f, op.a).value, Read(g, f, op.b).value;
    var (fa, xa) := Expand(f, x, op.expandA, Part(o, Expanded0));
    if op.expandA {
      EmitIsSingle(g, f, "Expand", [x], Part(o, Expanded0), more);
    }
    var (fb, yb) := Expand(fa, y, op.expandB, Part(o, Expanded1));
    if op.expandB {
      EmitIsSingle(g, fa, "Expand", [y], Part(o, Expanded1), more);
    }
    ProduceIsSingle(g, fb, op.kind, [xa, yb], o, more);
  }

  lemma SquashIsSingle(g: Subgraph, f: Facts, op: Op, done: set<nat>)
    requires op.Logistic? && op.quantized && IsNew(g, f, done, op.output) && LowerOp(g, f, op).Ok?
    ensures Single(g, LowerOp(g, f, op).value, done + {op.output})
  {
    NewIsFresh(g, f, done, op.output);
    var o, more := op.output, done + {op.output};
    var x := Read(g, f, op.input).value;
    var f1 := Emit(f, "DequantizeLinear", [x] + Parameters(f, op.input), Part(o, SigmoidInput));
    EmitIsSingle(g, f, "DequantizeLinear", [x] + Parameters(f, op.input), Part(o, SigmoidInput), more);
    var f2 := Emit(f1, "Sigmoid", [Use(Part(o, SigmoidInput), 0)], Part(o, SigmoidOutput));
    EmitIsSingle(g, f1, "Sigmoid", [Use(Part(o, SigmoidInput), 0)], Part(o, SigmoidOutput), more);
    ProduceIsSingle(g, f2, "QuantizeLinear", [Use(Part(o, SigmoidOutput), 0)] + Parameters(f2, o), o, more);
  }

  /** An operation that neither expands nor squashes adds at most the node of its output. */
  lemma PlainIsSingle(g: Subgraph, f: Facts, op: Op, done: set<nat>)
    requires OutputOf(op).Some? && !op.Sum? && !(op.Logistic? && op.quantized)
    requires IsNew(g, f, done, op.output) && LowerOp(g, f, op).Ok?
    ensures Single(g, LowerOp(g, f, op).value, done + {op.output})
  {
    NewIsFresh(g, f, done, op.output);
    var lowered := LowerOp(g, f, op).value;
    if |lowered.nodes| > |f.nodes| {
      var node := lowered.nodes[|f.nodes|];
      PlainProduces(g, f, op);
      ProduceIsSingle(g, f, node.kind, node.inputs, op.output, done + {op.output});
    }
  }

  lemma PlainProduces(g: Subgraph, f: Facts, op: Op)
    requires OutputOf(op).Some? && !op.Sum? && !(op.Logistic? && op.quantized)
    requires LowerOp(g, f, op).Ok? && |LowerOp(g, f, op).value.nodes| > |f.nodes|
    ensures var lowered := LowerOp(g, f, op).value;
      lowered == Produce(f, lowered.nodes[|f.nodes|].kind, lowered.nodes[|f.nodes|].inputs, op.output)
  {
  }

  lemma OpIsSingle(g: Subgraph, f: Facts, op: Op, done: set<nat>)
    requires Single(g, f, done) && LowerOp(g, f, op).Ok?
    requires OutputOf(op).Some? ==> OutputOf(op).value !in done && OutputOf(op).value !in g.inputs
    ensures Single(g, LowerOp(g, f, op).value, done + if OutputOf(op).Some? then {OutputOf(op).value} else {})
  {
    if op.NoOutput? {
      assert done + {} == done;
    } else if op.Sum? {
      SumIsSingle(g, f, op, done);
    } else if op.Logistic? && op.quantized {
      SquashIsSingle(g, f, op, done);
    } else {
      PlainIsSingle(g, f, op, done);
    }
  }

  function Done(ops: seq<Op>): set<nat> {
    if ops == [] then {}
    else Done(ops[..|ops| - 1]) + match OutputOf(ops[|ops| - 1]) case None => {} case Some(o) => {o}
  }

  lemma {:induction false} DoneIsOutputs(ops: seq<Op>, t: nat)
    ensures t in Done(ops) <==> exists i :: 0 <= i < |ops| && OutputOf(ops[i]) == Some(t)
  {
    if ops == [] {
    } else {
      var n := |ops| - 1;
      DoneIsOutputs(ops[..n], t);
      if t in Done(ops[..n]) {
        var i :| 0 <= i < n && OutputOf(ops[..n][i]) == Some(t);
        assert OutputOf(ops[i]) == Some(t);
      }
      assert forall i | 0 <= i < n :: ops[..n][i] == ops[i];
    }
  }

  lemma {:induction false} RunIsSound(g: Subgraph, ops: seq<Op>)
    requires LowerAll(g, Start(g), ops).Ok?
    ensures Sound(g, LowerAll(g, Start(g), ops).value)
  {
    if ops == [] {
    } else {
      var before := ops[..|ops| - 1];
      RunIsSound(g, before);
      OpIsSound(g, LowerAll(g, Start(g), before).value, ops[|ops| - 1]);
    }
  }

  /** The output of an operation is not yet made, if each tensor is produced once. */
  lemma OutputIsNew(g: Subgraph, n: nat)
    requires ProducedOnce(g) && n < |g.ops| && OutputOf(g.ops[n]).Some?
    ensures OutputOf(g.ops[n]).value !in Done(g.ops[..n]) && OutputOf(g.ops[n]).value !in g.inputs
  {
    var t := OutputOf(g.ops[n]).value;
    DoneIsOutputs(g.ops[..n], t);
    forall i | 0 <= i < n ensures OutputOf(g.ops[..n][i]) != Some(t) {
      assert g.ops[..n][i] == g.ops[i];
    }
  }

  lemma OneMoreOp(g: Subgraph, n: nat)
    requires n < |g.ops|
    ensures var before := LowerAll(g, Start(g), g.ops[..n]);
      LowerAll(g, Start(g), g.ops[..n + 1]) == if before.Err? then before else LowerOp(g, before.value, g.ops[n])
    ensures var output := OutputOf(g.ops[n]);
      Done(g.ops[..n + 1]) == Done(g.ops[..n]) + if output.Some? then {output.value} else {}
  {
    assert g.ops[..n + 1][..n] == g.ops[..n] && g.ops[..n + 1][n] == g.ops[n];
  }

  lemma {:induction false} RunIsSingle(g: Subgraph, n: nat)
    requires ProducedOnce(g) && n <= |g.ops| && LowerAll(g, Start(g), g.ops[..n]).Ok?
    ensures Single(g, LowerAll(g, Start(g), g.ops[..n]).value, Done(g.ops[..n]))
  {
    if n == 0 {
    } else {
      var op := g.ops[n - 1];
      OneMoreOp(g, n - 1);
      RunIsSingle(g, n - 1);
      if OutputOf(op).Some? {
        OutputIsNew(g, n - 1);
      }
      OpIsSingle(g, LowerAll(g, Start(g), g.ops[..n - 1]).value, op, Done(g.ops[..n - 1]));
    }
  }

  /** After the outputs, all of them are values. */
  ghost predicate OutputsGiven(f: Facts, outputs: seq<nat>) {
    forall t | t in outputs :: t in f.values
  }

  lemma {:induction false} FinishIsSound(g: Subgraph, f: Facts, outputs: seq<nat>)
    requires Sound(g, f) && Finish(g, f, outputs).Ok?
    ensures Sound(g, Finish(g, f, outputs).value) && OutputsGiven(Finish(g, f, outputs).value, outputs)
  {
    if outputs == [] {
    } else {
      var n := |outputs| - 1;
      FinishIsSound(g, f, outputs[..n]);
      var before := Finish(g, f, outputs[..n]).value;
      var x := Read(g, before, outputs[n]).value;
      ReadIsReady(g, before, outputs[n]);
      if x.key != Tensor(outputs[n]) {
        ProduceIsSound(g, before, "Identity", [x], outputs[n]);
      }
      forall t | t in outputs ensures t in Finish(g, f, outputs).value.values {
        assert t == outputs[n] || t in outputs[..n];
      }
    }
  }

  lemma {:induction false} FinishIsSingle(g: Subgraph, f: Facts, outputs: seq<nat>, done: set<nat>)
    requires Single(g, f, done) && Finish(g, f, outputs).Ok?
    ensures Single(g, Finish(g, f, outputs).value, done + Elements(outputs))
  {
    if outputs == [] {
      assert done + Elements(outputs) == done;
    } else {
      var n, t := |outputs| - 1, outputs[|outputs| - 1];
      FinishIsSingle(g, f, outputs[..n], done);
      var before, all := Finish(g, f, outputs[..n]).value, done + Elements(outputs);
      assert done + Elements(outputs[..n]) <= all && t in Elements(outputs);
      assert Single(g, before, all);
      if t !in before.values {
        ProduceIsSingle(g, before, "Identity", [Read(g, before, t).value], t, all);
      }
    }
  }

  /**
   Whatever the subgraph, if it is lowered at all then every node reads only graph
   inputs, saved arrays and outputs of earlier nodes, and every listed output is a
   graph input or the output of a node.
   */
  lemma LoweringIsOrdered(g: Subgraph)
    requires Lower(g).Ok?
    ensures Ordered(g, Lower(g).value.nodes)
    ensures var nodes := Lower(g).value.nodes;
      forall t | t in g.outputs :: t in g.inputs || MadeBefore(nodes, Tensor(t), |nodes|)
  {
    var lowered := LowerAll(g, Start(g), g.ops).value;
    RunIsSound(g, g.ops);
    FinishIsSound(g, lowered, g.outputs);
    var f := Finish(g, lowered, g.outputs).value;
    forall t | t in g.outputs ensures t in g.inputs || MadeBefore(f.nodes, Tensor(t), |f.nodes|) {
      assert Ready(g, f.nodes, Use(Tensor(t), 0), |f.nodes|);
    }
  }

  /** If the subgraph produces each tensor once, the nodes assign each key once, and none that is a graph input. */
  lemma LoweringAssignsOnce(g: Subgraph)
    requires ProducedOnce(g) && Lower(g).Ok?
    ensures DistinctOutputs(Lower(g).value.nodes)
    ensures forall node | node in Lower(g).value.nodes && node.output.Tensor? :: node.output.tid !in g.inputs
  {
    assert g.ops[..|g.ops|] == g.ops;
    RunIsSingle(g, |g.ops|);
    FinishIsSingle(g, LowerAll(g, Start(g), g.ops).value, g.outputs, Done(g.ops));
  }

  // ---------------------------------------------------------------------------
  // Which subgraphs are lowered
  // ---------------------------------------------------------------------------

  /** The constants, and the outputs of the dequantizations of constants among these operations. */
  function Constants(g: Subgraph, ops: seq<Op>): set<nat> {
    if ops == [] then g.constants
    else
      var before, op := Constants(g, ops[..|ops| - 1]), ops[|ops| - 1];
      if op.Dequantize? && op.input in before then before + {op.output} else before
  }

  /** The tensors there are behind these operations: inputs, constants and outputs. */
  function Known(g: Subgraph, ops: seq<Op>): set<nat> {
    Elements(g.inputs) + g.constants + Done(ops)
  }

  /** The operation reads what there is, and its filter and bias are constants. */
  ghost predicate Fed(g: Subgraph, ops: seq<Op>, op: Op) {
    match op
    case Dequantize(input, _) => input in Known(g, ops)
    case Quantize(input, _, _) => input in Known(g, ops)
    case Convolve(_, input, filter, _, bias, _) =>
      && input in Known(g, ops) && filter in Constants(g, ops)
      && (bias.Some? ==> bias.value in Constants(g, ops))
    case Sum(_, a, b, _, _, _) => a in Known(g, ops) && b in Known(g, ops)
    case Unary(_, input, _) => input in Known(g, ops)
    case Concatenate(inputs, _) => forall t | t in inputs :: t in Known(g, ops)
    case Logistic(input, _, _) => input in Known(g, ops)
    case NoOutput => true
  }

  ghost predicate AllFed(g: Subgraph, ops: seq<Op>) {
    ops != [] ==> AllFed(g, ops[..|ops| - 1]) && Fed(g, ops[..|ops| - 1], ops[|ops| - 1])
  }

  /** The facts behind these operations, in terms of what there is. */
  ghost predicate Agrees(g: Subgraph, ops: seq<Op>, f: Facts) {
    && (forall t | t in f.alias :: f.alias[t] in g.constants)
    && g.constants + f.alias.Keys == Constants(g, ops)
    && f.values + f.alias.Keys == Elements(g.inputs) + Done(ops)
  }

  /** Aliases of constants lead to a constant, even if they lead around in a circle. */
  lemma {:induction false} ResolveStaysConstant(constants: set<nat>, alias: map<nat, nat>, tid: nat, seen: set<nat>)
    requires (forall t | t in alias :: alias[t] in constants) && tid in constants
    ensures Resolve(alias, tid, seen) in constants
    decreases alias.Keys - seen
  {
    if tid in alias && tid !in seen {
      ResolveStaysConstant(constants, alias, alias[tid], seen + {tid});
    }
  }

  lemma SourceAgrees(g: Subgraph, ops: seq<Op>, f: Facts, t: nat)
    requires Agrees(g, ops, f)
    ensures Source(f, t) in g.constants <==> t in Constants(g, ops)
    ensures Read(g, f, t).Ok? <==> t in Known(g, ops)
  {
    if t in f.alias {
      ResolveStaysConstant(g.constants, f.alias, f.alias[t], {} + {t});
    }
  }

  lemma {:induction false} ReadAllAgrees(g: Subgraph, ops: seq<Op>, f: Facts, tids: seq<nat>)
    requires Agrees(g, ops, f)
    ensures ReadAll(g, f, tids).Ok? <==> forall t | t in tids :: t in Known(g, ops)
  {
    if tids == [] {
    } else {
      var n := |tids| - 1;
      ReadAllAgrees(g, ops, f, tids[..n]);
      SourceAgrees(g, ops, f, tids[n]);
      assert tids == tids[..n] + [tids[n]];
    }
  }

  lemma OpIsAccepted(g: Subgraph, ops: seq<Op>, f: Facts, op: Op)
    requires Agrees(g, ops, f)
    ensures LowerOp(g, f, op).Ok? <==> Fed(g, ops, op)
  {
    match op
    case Dequantize(input, output) => SourceAgrees(g, ops, f, input);
    case Quantize(input, _, _) => SourceAgrees(g, ops, f, input);
    case Convolve(_, input, filter, _, bias, _) =>
      SourceAgrees(g, ops, f, input);
      SourceAgrees(g, ops, f, filter);
      if bias.Some? {
        SourceAgrees(g, ops, f, bias.value);
      }
    case Sum(_, a, b, _, _, _) =>
      SourceAgrees(g, ops, f, a);
      SourceAgrees(g, ops, f, b);
    case Unary(_, input, _) => SourceAgrees(g, ops, f, input);
    case Concatenate(inputs, _) => ReadAllAgrees(g, ops, f, inputs);
    case Logistic(input, _, _) => SourceAgrees(g, ops, f, input);
    case NoOutput =>
  }

  /** An operation folds its output into a constant, or gives it a value, or has none. */
  lemma OpEffect(g: Subgraph, f: Facts, op: Op)
    requires LowerOp(g, f, op).Ok?
    ensures var lowered, folds := LowerOp(g, f, op).value, op.Dequantize? && Source(f, op.input) in g.constants;
      && lowered.alias == (if folds then f.alias[op.output := Source(f, op.input)] else f.alias)
      && lowered.values == (if folds || op.NoOutput? then f.values else f.values + {op.output})
  {
  }

  lemma OpAgrees(g: Subgraph, ops: seq<Op>, f: Facts, op: Op)
    requires Agrees(g, ops, f) && LowerOp(g, f, op).Ok?
    ensures Agrees(g, ops + [op], LowerOp(g, f, op).value)
  {
    assert (ops + [op])[..|ops|] == ops && (ops + [op])[|ops|] == op;
    OpEffect(g, f, op);
    if op.Dequantize? {
      SourceAgrees(g, ops, f, op.input);
    }
  }

  lemma {:induction false} RunAgrees(g: Subgraph, ops: seq<Op>)
    ensures LowerAll(g, Start(g), ops).Ok? <==> AllFed(g, ops)
    ensures LowerAll(g, Start(g), ops).Ok? ==> Agrees(g, ops, LowerAll(g, Start(g), ops).value)
  {
    if ops == [] {
    } else {
      var before, op := ops[..|ops| - 1], ops[|ops| - 1];
      RunAgrees(g, before);
      assert op in ops && before + [op] == ops;
      if LowerAll(g, Start(g), before).Ok? {
        var f := LowerAll(g, Start(g), before).value;
        OpIsAccepted(g, before, f, op);
        if LowerOp(g, f, op).Ok? {
          OpAgrees(g, before, f, op);
        }
      }
    }
  }

  /** Copying an output makes a value of what was known before. */
  lemma {:induction false} FinishAgrees(g: Subgraph, ops: seq<Op>, f: Facts, outputs: seq<nat>)
    requires Agrees(g, ops, f)
    ensures Finish(g, f, outputs).Ok? <==> forall t | t in outputs :: t in Known(g, ops)
    ensures Finish(g, f, outputs).Ok? ==>
      && Finish(g, f, outputs).value.alias == f.alias
      && f.values <= Finish(g, f, outputs).value.values <= f.values + Known(g, ops)
  {
    if outputs == [] {
    } else {
      var n, t := |outputs| - 1, outputs[|outputs| - 1];
      FinishAgrees(g, ops, f, outputs[..n]);
      SourceAgrees(g, ops, f, t);
      assert outputs == outputs[..n] + [t];
    }
  }

  /**
   A subgraph is lowered exactly when every operation reads only graph inputs,
   constants and outputs of earlier operations, filters and biases are constants or
   folded from them, and every output is one of those.
   */
  lemma LoweredExactlyWhenFed(g: Subgraph)
    ensures Lower(g).Ok? <==> AllFed(g, g.ops) && forall t | t in g.outputs :: t in Known(g, g.ops)
  {
    RunAgrees(g, g.ops);
    if LowerAll(g, Start(g), g.ops).Ok? {
      FinishAgrees(g, g.ops, LowerAll(g, Start(g), g.ops).value, g.outputs);
    }
  }

  // ---------------------------------------------------------------------------
  // Which arrays the nodes read
  // ---------------------------------------------------------------------------

  /** An array is among those that the nodes read exactly when a node reads it. */
  ghost predicate ArraysAreRead(f: Facts) {
    forall u :: u in f.arrays <==> IsSavedUse(u) && IsRead(f.nodes, u)
  }

  ghost predicate IsRead(nodes: seq<SymNode>, use: Use) {
    exists i :: 0 <= i < |nodes| && use in nodes[i].inputs
  }

  lemma EmitReads(f: Facts, kind: string, inputs: seq<Use>, output: Key)
    requires ArraysAreRead(f)
    ensures ArraysAreRead(Emit(f, kind, inputs, output))
  {
    var more := Emit(f, kind, inputs, output).nodes;
    forall u ensures IsRead(more, u) <==> IsRead(f.nodes, u) || u in inputs {
      if IsRead(f.nodes, u) {
        var i :| 0 <= i < |f.nodes| && u in f.nodes[i].inputs;
        assert u in more[i].inputs;
      } else if u in inputs {
        assert u in more[|f.nodes|].inputs;
      }
    }
  }

  lemma SquashReads(g: Subgraph, f: Facts, op: Op)
    requires op.Logistic? && op.quantized && ArraysAreRead(f) && LowerOp(g, f, op).Ok?
    ensures ArraysAreRead(LowerOp(g, f, op).value)
  {
    var x := Read(g, f, op.input).value;
    var floats, squashed := Part(op.output, SigmoidInput), Part(op.output, SigmoidOutput);
    EmitReads(f, "DequantizeLinear", [x] + Parameters(f, op.input), floats);
    var f1 := Emit(f, "DequantizeLinear", [x] + Parameters(f, op.input), floats);
    EmitReads(f1, "Sigmoid", [Use(floats, 0)], squashed);
    var f2 := Emit(f1, "Sigmoid", [Use(floats, 0)], squashed);
    EmitReads(f2, "QuantizeLinear", [Use(squashed, 0)] + Parameters(f2, op.output), Tensor(op.output));
  }

  lemma OpReads(g: Subgraph, f: Facts, op: Op)
    requires ArraysAreRead(f) && LowerOp(g, f, op).Ok?
    ensures ArraysAreRead(LowerOp(g, f, op).value)
  {
    var lowered := LowerOp(g, f, op).value;
    if op.Sum? {
      var x, y := Read(g, f, op.a).value, Read(g, f, op.b).value;
      EmitReads(f, "Expand", [x], Part(op.output, Expanded0));
      var (fa, xa) := Expand(f, x, op.expandA, Part(op.output, Expanded0));
      EmitReads(fa, "Expand", [y], Part(op.output, Expanded1));
      var (fb, yb) := Expand(fa, y, op.expandB, Part(op.output, Expanded1));
      EmitReads(fb, op.kind, [xa, yb], Tensor(op.output));
    } else if op.Logistic? && op.quantized {
      SquashReads(g, f, op);
    } else if |lowered.nodes| > |f.nodes| {
      var node := lowered.nodes[|f.nodes|];
      EmitReads(f, node.kind, node.inputs, node.output);
    }
  }

  lemma {:induction false} RunReads(g: Subgraph, ops: seq<Op>)
    requires LowerAll(g, Start(g), ops).Ok?
    ensures ArraysAreRead(LowerAll(g, Start(g), ops).value)
  {
    if ops == [] {
    } else {
      RunReads(g, ops[..|ops| - 1]);
      OpReads(g, LowerAll(g, Start(g), ops[..|ops| - 1]).value, ops[|ops| - 1]);
    }
  }

  lemma {:induction false} FinishReads(g: Subgraph, f: Facts, outputs: seq<nat>)
    requires ArraysAreRead(f) && Finish(g, f, outputs).Ok?
    ensures ArraysAreRead(Finish(g, f, outputs).value)
  {
    if outputs == [] {
    } else {
      var n := |outputs| - 1;
      FinishReads(g, f, outputs[..n]);
      var before := Finish(g, f, outputs[..n]).value;
      EmitReads(before, "Identity", [Read(g, before, outputs[n]).value], Tensor(outputs[n]));
    }
  }

  /** The lowering accounts for the saved arrays: they are those that its nodes read. */
  lemma LoweringReadsItsArrays(g: Subgraph)
    requires Lower(g).Ok?
    ensures ArraysAreRead(Lower(g).value)
  {
    RunReads(g, g.ops);
    FinishReads(g, LowerAll(g, Start(g), g.ops).value, g.outputs);
  }

  /** An array for which the channels do not matter. */
  predicate Plain(use: Use) {
    use.channels == 0 && (use.key.Part? ==> !use.key.suffix.DepthwiseHwcm?)
  }

  function FilterAsked(f: Facts, op: Op): Use
    requires op.Convolve?
  {
    Use(Part(Source(f, op.filter), LayoutSuffix(op.layout)), LayoutChannels(op.layout))
  }

  lemma {:induction false} ReadAllIsPlain(g: Subgraph, f: Facts, tids: seq<nat>)
    requires ReadAll(g, f, tids).Ok?
    ensures forall u | u in ReadAll(g, f, tids).value :: Plain(u)
  {
    if tids == [] {
    } else {
      ReadAllIsPlain(g, f, tids[..|tids| - 1]);
    }
  }

  /** What an operation adds to the arrays that are read: plain ones, and the filter of a convolution. */
  ghost predicate Adds(f: Facts, op: Op, lowered: Facts) {
    && f.arrays <= lowered.arrays
    && (op.Convolve? ==> FilterAsked(f, op) in lowered.arrays)
    && forall u | u in lowered.arrays - f.arrays :: Plain(u) || (op.Convolve? && u == FilterAsked(f, op))
  }

  lemma ConvolveAdds(g: Subgraph, f: Facts, op: Op)
    requires op.Convolve? && LowerOp(g, f, op).Ok?
    ensures Adds(f, op, LowerOp(g, f, op).value)
  {
    var x, w := Read(g, f, op.input).value, FilterAsked(f, op);
    var inputs := if op.bias.None? then [x, w] else [x, w, Constant(g, f, op.bias.value, Raw, 0).value];
    assert LowerOp(g, f, op).value.arrays == f.arrays + SavedIn(inputs);
    assert w == inputs[1] && IsSavedUse(w);
  }

  lemma SumAdds(g: Subgraph, f: Facts, op: Op)
    requires op.Sum? && LowerOp(g, f, op).Ok?
    ensures Adds(f, op, LowerOp(g, f, op).value)
  {
  }

  lemma SquashAdds(g: Subgraph, f: Facts, op: Op)
    requires op.Logistic? && op.quantized && LowerOp(g, f, op).Ok?
    ensures Adds(f, op, LowerOp(g, f, op).value)
  {
  }

  lemma OpAdds(g: Subgraph, f: Facts, op: Op)
    requires LowerOp(g, f, op).Ok?
    ensures Adds(f, op, LowerOp(g, f, op).value)
  {
    if op.Convolve? {
      ConvolveAdds(g, f, op);
    } else if op.Sum? {
      SumAdds(g, f, op);
    } else if op.Logistic? && op.quantized {
      SquashAdds(g, f, op);
    } else if op.Concatenate? {
      ReadAllIsPlain(g, f, op.inputs);
    }
  }

  // ---------------------------------------------------------------------------
  // Which filters are asked for, from the operations alone
  // ---------------------------------------------------------------------------

  /** The outputs that these operations fold into constants. */
  function Folds(g: Subgraph, ops: seq<Op>): map<nat, nat> {
    if ops == [] then map[]
    else
      var before, op := Folds(g, ops[..|ops| - 1]), ops[|ops| - 1];
      if op.Dequantize? && Resolve(before, op.input, {}) in g.constants
      then before[op.output := Resolve(before, op.input, {})]
      else before
  }

  lemma {:induction false} AliasIsFolds(g: Subgraph, ops: seq<Op>)
    requires LowerAll(g, Start(g), ops).Ok?
    ensures LowerAll(g, Start(g), ops).value.alias == Folds(g, ops)
  {
    if ops == [] {
    } else {
      var before, op := ops[..|ops| - 1], ops[|ops| - 1];
      AliasIsFolds(g, before);
      OpEffect(g, LowerAll(g, Start(g), before).value, op);
    }
  }

  /** The constant that a convolution has for its filter. */
  function FilterOf(g: Subgraph, i: nat): nat
    requires i < |g.ops| && g.ops[i].Convolve?
  {
    Resolve(Folds(g, g.ops[..i]), g.ops[i].filter, {})
  }

  function FilterUse(g: Subgraph, i: nat): Use
    requires i < |g.ops| && g.ops[i].Convolve?
  {
    Use(Part(FilterOf(g, i), LayoutSuffix(g.ops[i].layout)), LayoutChannels(g.ops[i].layout))
  }

  /** Two convolutions that share a filter in one kind of layout, for inputs of different channels. */
  predicate FilterClash(g: Subgraph, i: nat, j: nat)
    requires i < |g.ops| && j < |g.ops|
  {
    && g.ops[i].Convolve? && g.ops[j].Convolve? && FilterOf(g, i) == FilterOf(g, j)
    && LayoutSuffix(g.ops[i].layout) == LayoutSuffix(g.ops[j].layout)
    && LayoutChannels(g.ops[i].layout) != LayoutChannels(g.ops[j].layout)
  }

  predicate FiltersAgree(g: Subgraph) {
    forall i, j | 0 <= i < |g.ops| && 0 <= j < |g.ops| :: !FilterClash(g, i, j)
  }

  ghost predicate AskedBefore(g: Subgraph, n: nat, use: Use)
    requires n <= |g.ops|
  {
    exists i :: 0 <= i < n && g.ops[i].Convolve? && use == FilterUse(g, i)
  }

  /** Among the arrays are the filters of the first `n` operations, and beside them only plain ones. */
  ghost predicate ReadsFilters(g: Subgraph, n: nat, arrays: set<Use>)
    requires n <= |g.ops|
  {
    && (forall i | 0 <= i < n && g.ops[i].Convolve? :: FilterUse(g, i) in arrays)
    && forall u | u in arrays :: Plain(u) || AskedBefore(g, n, u)
  }

  lemma ReadsOneMore(g: Subgraph, n: nat, f: Facts, lowered: Facts)
    requires n < |g.ops| && ReadsFilters(g, n, f.arrays) && Adds(f, g.ops[n], lowered)
    requires g.ops[n].Convolve? ==> FilterAsked(f, g.ops[n]) == FilterUse(g, n)
    ensures ReadsFilters(g, n + 1, lowered.arrays)
  {
    forall u | u in lowered.arrays ensures Plain(u) || AskedBefore(g, n + 1, u) {
      if u in f.arrays && !Plain(u) {
        var i :| 0 <= i < n && g.ops[i].Convolve? && u == FilterUse(g, i);
      }
    }
  }

  lemma {:induction false} RunReadsFilters(g: Subgraph, n: nat)
    requires n <= |g.ops| && LowerAll(g, Start(g), g.ops[..n]).Ok?
    ensures ReadsFilters(g, n, LowerAll(g, Start(g), g.ops[..n]).value.arrays)
  {
    if n == 0 {
    } else {
      var before, op := g.ops[..n - 1], g.ops[n - 1];
      assert g.ops[..n][..n - 1] == before && g.ops[..n][n - 1] == op;
      var f, lowered := LowerAll(g, Start(g), before).value, LowerAll(g, Start(g), g.ops[..n]).value;
      RunReadsFilters(g, n - 1);
      AliasIsFolds(g, before);
      OpAdds(g, f, op);
      assert op.Convolve? ==> FilterAsked(f, op) == FilterUse(g, n - 1);
      ReadsOneMore(g, n - 1, f, lowered);
    }
  }

  lemma {:induction false} FinishReadsFilters(g: Subgraph, f: Facts, outputs: seq<nat>, n: nat)
    requires n <= |g.ops| && ReadsFilters(g, n, f.arrays) && Finish(g, f, outputs).Ok?
    ensures ReadsFilters(g, n, Finish(g, f, outputs).value.arrays)
  {
    if outputs == [] {
    } else {
      var k := |outputs| - 1;
      FinishReadsFilters(g, f, outputs[..k], n);
    }
  }

  lemma FiltersAreRead(g: Subgraph)
    requires Lower(g).Ok?
    ensures ReadsFilters(g, |g.ops|, Lower(g).value.arrays)
  {
    assert g.ops[..|g.ops|] == g.ops;
    RunReadsFilters(g, |g.ops|);
    FinishReadsFilters(g, LowerAll(g, Start(g), g.ops).value, g.outputs, |g.ops|);
  }

  /**
   Of the arrays that an exported graph reads, two differ only in their channels
   exactly when two convolutions ask for a shared filter with different channels.
   */
  lemma FiltersDecideArrays(g: Subgraph)
    requires Lower(g).Ok?
    ensures FiltersAgree(g) <==>
      forall u, v | u in Lower(g).value.arrays && v in Lower(g).value.arrays && u.key == v.key ::
        u.channels == v.channels
  {
    var n, arrays := |g.ops|, Lower(g).value.arrays;
    FiltersAreRead(g);
    if FiltersAgree(g) {
      forall u, v | u in arrays && v in arrays && u.key == v.key ensures u.channels == v.channels {
        if !Plain(u) && !Plain(v) {
          var i :| 0 <= i < n && g.ops[i].Convolve? && u == FilterUse(g, i);
          var j :| 0 <= j < n && g.ops[j].Convolve? && v == FilterUse(g, j);
          assert !FilterClash(g, i, j);
        }
      }
    } else {
      var i, j :| 0 <= i < n && 0 <= j < n && FilterClash(g, i, j);
      assert FilterUse(g, i) in arrays && FilterUse(g, j) in arrays;
    }
  }
}
