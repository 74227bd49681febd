/**
 The exporter's mutable tables, and its loop over the operations of a subgraph.

 What the loop builds is the lowering of `TfliteLowering` with every key written
 as its name; since no two keys share a name, the exported graph is wired as the
 lowering says.
 */
module TfliteExporter {
  import opened Decimals
  import opened Results
  import opened TensorNames
  import opened TfliteLowering

  datatype Node = Node(kind: string, inputs: seq<string>, output: string)

  // ---------------------------------------------------------------------------
  // Tables, and the facts that they show
  // ---------------------------------------------------------------------------

  predicate Is(names: map<string, string>, key: Key, name: string) {
    KeyText(key) in names && names[KeyText(key)] == name
  }

  /** The name is that of the key, and a saved array has been asked for. */
  predicate UseShown(names: map<string, string>, saved: map<Use, string>, use: Use, name: string) {
    Is(names, use.key, name) && (IsSavedUse(use) ==> use in saved)
  }

  ghost predicate UsesShown(names: map<string, string>, saved: map<Use, string>, uses: seq<Use>, inputs: seq<string>) {
    |inputs| == |uses|
    && forall j {:trigger UseShown(names, saved, uses[j], inputs[j])} | 0 <= j < |uses| ::
         UseShown(names, saved, uses[j], inputs[j])
  }

  ghost predicate NodeShown(names: map<string, string>, saved: map<Use, string>, sym: SymNode, node: Node) {
    node.kind == sym.kind && Is(names, sym.output, node.output) && UsesShown(names, saved, sym.inputs, node.inputs)
  }

  ghost predicate NodesShown(names: map<string, string>, saved: map<Use, string>, syms: seq<SymNode>, nodes: seq<Node>)
  {
    && |nodes| == |syms|
    && forall i {:trigger NodeShown(names, saved, syms[i], nodes[i])} | 0 <= i < |nodes| ::
         NodeShown(names, saved, syms[i], nodes[i])
  }

  ghost predicate ValuesShown(names: map<string, string>, values: set<nat>, valueName: map<nat, string>) {
    valueName.Keys == values && forall t | t in valueName :: Is(names, Tensor(t), valueName[t])
  }

  /** The request has its key's name, under which an array for that key is saved. */
  ghost predicate RequestShown(names: map<string, string>, saved: map<Use, string>, tensors: map<string, Use>, u: Use)
    requires u in saved
  {
    && Is(names, u.key, saved[u]) && saved[u] in tensors
    && tensors[saved[u]] in saved && tensors[saved[u]].key == u.key
  }

  ghost predicate SavedShown(names: map<string, string>, saved: map<Use, string>, tensors: map<string, Use>) {
    forall u {:trigger RequestShown(names, saved, tensors, u)} | u in saved :: RequestShown(names, saved, tensors, u)
  }

  /** The names of these tensors, in order. */
  ghost predicate AreNames(names: map<string, string>, tids: seq<nat>, listed: seq<string>) {
    |listed| == |tids|
    && forall k {:trigger Is(names, Tensor(tids[k]), listed[k])} | 0 <= k < |tids| ::
         Is(names, Tensor(tids[k]), listed[k])
  }

  lemma OneMoreName(names: map<string, string>, names': map<string, string>, tids: seq<nat>, n: nat,
          listed: seq<string>, name: string)
    requires n < |tids| && AreNames(names, tids[..n], listed) && Grows(names, names')
             && Is(names', Tensor(tids[n]), name)
    ensures AreNames(names', tids[..n + 1], listed + [name])
  {
    forall k | 0 <= k < n + 1 ensures Is(names', Tensor(tids[..n + 1][k]), (listed + [name])[k]) {
      assert k < n ==> Is(names, Tensor(tids[..n][k]), listed[k]);
    }
  }

  ghost predicate Grows<K, V>(before: map<K, V>, after: map<K, V>) {
    forall k | k in before :: k in after && after[k] == before[k]
  }

  lemma UsesStayShown(names: map<string, string>, saved: map<Use, string>, uses: seq<Use>, inputs: seq<string>,
          names': map<string, string>, saved': map<Use, string>)
    requires UsesShown(names, saved, uses, inputs) && Grows(names, names') && Grows(saved, saved')
    ensures UsesShown(names', saved', uses, inputs)
  {
    forall j | 0 <= j < |uses| ensures UseShown(names', saved', uses[j], inputs[j]) {
      assert UseShown(names, saved, uses[j], inputs[j]);
    }
  }

  lemma NodesStayShown(names: map<string, string>, saved: map<Use, string>, syms: seq<SymNode>, nodes: seq<Node>,
          names': map<string, string>, saved': map<Use, string>)
    requires NodesShown(names, saved, syms, nodes) && Grows(names, names') && Grows(saved, saved')
    ensures NodesShown(names', saved', syms, nodes)
  {
    forall i | 0 <= i < |nodes| ensures NodeShown(names', saved', syms[i], nodes[i]) {
      assert NodeShown(names, saved, syms[i], nodes[i]);
      UsesStayShown(names, saved, syms[i].inputs, nodes[i].inputs, names', saved');
    }
  }

  lemma SavedStaysShown(names: map<string, string>, saved: map<Use, string>, tensors: map<string, Use>,
          names': map<string, string>)
    requires SavedShown(names, saved, tensors) && Grows(names, names')
    ensures SavedShown(names', saved, tensors)
  {
    forall u | u in saved ensures RequestShown(names', saved, tensors, u) {
      assert RequestShown(names, saved, tensors, u);
    }
  }

  lemma UsesConcat(names: map<string, string>, saved: map<Use, string>, a: seq<Use>, x: seq<string>, b: seq<Use>,
          y: seq<string>)
    requires UsesShown(names, saved, a, x) && UsesShown(names, saved, b, y)
    ensures UsesShown(names, saved, a + b, x + y)
  {
    forall j | 0 <= j < |a + b| ensures UseShown(names, saved, (a + b)[j], (x + y)[j]) {
      if j < |a| {
        assert UseShown(names, saved, a[j], x[j]);
      } else {
        assert UseShown(names, saved, b[j - |a|], y[j - |a|]);
      }
    }
  }

  /** What is read of the saved arrays has been saved. */
  lemma ReadIsSaved(names: map<string, string>, saved: map<Use, string>, uses: seq<Use>, inputs: seq<string>)
    requires UsesShown(names, saved, uses, inputs)
    ensures SavedIn(uses) <= saved.Keys
  {
    forall u | u in SavedIn(uses) ensures u in saved {
      var j :| 0 <= j < |uses| && uses[j] == u;
      assert UseShown(names, saved, uses[j], inputs[j]);
    }
  }

  lemma UsesPair(names: map<string, string>, saved: map<Use, string>, a: Use, x: string, b: Use, y: string)
    requires UsesShown(names, saved, [a], [x]) && UsesShown(names, saved, [b], [y])
    ensures UsesShown(names, saved, [a, b], [x, y]) && SavedIn([a, b]) == SavedIn([a]) + SavedIn([b])
  {
    UsesConcat(names, saved, [a], [x], [b], [y]);
    assert [a] + [b] == [a, b] && [x] + [y] == [x, y];
  }

  lemma SavedInConcat(a: seq<Use>, b: seq<Use>)
    ensures SavedIn(a + b) == SavedIn(a) + SavedIn(b)
  {
  }

  /** A name stands for one key. */
  lemma NameMeansOneKey(names: map<string, string>, used: set<string>, a: Key, b: Key, name: string)
    requires NamesFit(names, used) && Is(names, a, name) && Is(names, b, name)
    ensures a == b
  {
    assert KeyText(a) == KeyText(b);
    KeyTextsDiffer(a, b);
  }

  lemma SavingShows(names: map<string, string>, used: set<string>, saved: map<Use, string>, tensors: map<string, Use>,
          use: Use, name: string)
    requires NamesFit(names, used) && SavedShown(names, saved, tensors) && Is(names, use.key, name)
    ensures SavedShown(names, saved[use := name], tensors[name := use])
  {
    var saved', tensors' := saved[use := name], tensors[name := use];
    forall u | u in saved' ensures RequestShown(names, saved', tensors', u) {
      assert u in saved ==> RequestShown(names, saved, tensors, u);
      if saved'[u] == name {
        NameMeansOneKey(names, used, u.key, use.key, name);
      }
    }
  }

  /** The first input without a value is the one reported. */
  lemma {:induction false} ReadAllFails(g: Subgraph, f: Facts, tids: seq<nat>, k: nat)
    requires k < |tids| && ReadAll(g, f, tids[..k]).Ok? && Read(g, f, tids[k]).Err?
    ensures ReadAll(g, f, tids) == Err(Read(g, f, tids[k]).error)
  {
    var n := |tids| - 1;
    if k == n {
    } else {
      assert tids[..n][..k] == tids[..k];
      ReadAllFails(g, f, tids[..n], k);
    }
  }

  // ---------------------------------------------------------------------------
  // The exporter
  // ---------------------------------------------------------------------------

  class Exporter {
    const g: Subgraph
    const names: Names
    var alias: map<nat, nat>
    var valueName: map<nat, string>
    var saved: map<Use, string>
    var tensors: map<string, Use>
    var nodes: seq<Node>
    /** The saved arrays that have been asked for, and that no node reads yet. */
    ghost var waiting: set<Use>

    /** The tables are consistent and show these facts. */
    ghost predicate Shows(f: Facts)
      reads `alias, `valueName, `saved, `tensors, `nodes, names
    {
      && names.Valid() && SavedShown(names.nameMap, saved, tensors)
      && alias == f.alias && ValuesShown(names.nameMap, f.values, valueName)
      && NodesShown(names.nameMap, saved, f.nodes, nodes)
    }

    /** What has been saved is read by the nodes of these facts, or waits for it. */
    ghost predicate Accounts(f: Facts)
      reads `saved, `waiting
    {
      saved.Keys == f.arrays + waiting
    }

    /** The tables show these facts, and exactly the arrays that the nodes read have been saved. */
    ghost predicate Settled(f: Facts)
      reads this, names
    {
      Shows(f) && Accounts(f) && waiting == {}
    }

    constructor (g: Subgraph)
      ensures this.g == g && fresh(names) && names.nameMap == map[] && Settled(Facts({}, map[], [], {}))
    {
      this.g := g;
      names := new Names();
      alias, valueName, saved, tensors, nodes, waiting := map[], map[], map[], map[], [], {};
    }

    /** The name of a key, given now if it has none. */
    method Name(key: Key, preferred: string, weight: bool, ghost f: Facts) returns (name: string)
      requires Shows(f)
      modifies names
      ensures Shows(f) && Is(names.nameMap, key, name) && Grows(old(names.nameMap), names.nameMap)
    {
      label before:
      name := names.Short(KeyText(key), preferred, weight);
      SavedStaysShown(old@before(names.nameMap), saved, tensors, names.nameMap);
      NodesStayShown(old@before(names.nameMap), saved, f.nodes, nodes, names.nameMap, saved);
    }

    method ResolveConst(tid: nat) returns (source: nat)
      ensures source == Resolve(alias, tid, {})
    {
      source := tid;
      var seen := {};
      while source in alias && source !in seen
        invariant Resolve(alias, tid, {}) == Resolve(alias, source, seen)
        decreases alias.Keys - seen
      {
        seen, source := seen + {source}, alias[source];
      }
    }

    /** The saved array for a request, which replaces what was saved for the same key with other channels. */
    method SaveArray(use: Use, ghost f: Facts) returns (name: string)
      requires Shows(f) && IsSavedUse(use)
      modifies this`saved, this`tensors, names
      ensures Shows(f) && saved.Keys == old(saved).Keys + {use} && UsesShown(names.nameMap, saved, [use], [name])
      ensures Grows(old(names.nameMap), names.nameMap) && Grows(old(saved), saved)
    {
      if use in saved {
        assert RequestShown(names.nameMap, saved, tensors, use);
        return saved[use];
      }
      name := Name(use.key, "", true, f);
      SavingShows(names.nameMap, names.used, saved, tensors, use, name);
      NodesStayShown(names.nameMap, saved, f.nodes, nodes, names.nameMap, saved[use := name]);
      tensors := tensors[name := use];
      saved := saved[use := name];
    }

    method EnsureSaved(use: Use, ghost f: Facts) returns (name: string)
      requires Shows(f) && Accounts(f) && IsSavedUse(use)
      modifies this`saved, this`tensors, this`waiting, names
      ensures Shows(f) && Accounts(f) && UsesShown(names.nameMap, saved, [use], [name])
      ensures waiting == old(waiting) + {use}
      ensures Grows(old(names.nameMap), names.nameMap) && Grows(old(saved), saved)
    {
      name := SaveArray(use, f);
      waiting := waiting + {use};
    }

    method EnsureWeight(tid: nat, suffix: Suffix, channels: nat, ghost f: Facts)
      returns (r: Result<string, ExportError>)
      requires Shows(f) && Accounts(f) && IsSaved(suffix)
      modifies this`saved, this`tensors, this`waiting, names
      ensures Shows(f) && Accounts(f) && Grows(old(names.nameMap), names.nameMap) && Grows(old(saved), saved)
      ensures r.Ok? <==> Constant(g, f, tid, suffix, channels).Ok?
      ensures r.Ok? ==> waiting == old(waiting) + SavedIn([Constant(g, f, tid, suffix, channels).value])
      ensures r.Ok? ==> UsesShown(names.nameMap, saved, [Constant(g, f, tid, suffix, channels).value], [r.value])
      ensures r.Err? ==> r.error == NotConstant(tid)
    {
      var source := ResolveConst(tid);
      if source !in g.constants {
        return Err(NotConstant(tid));
      }
      var name := EnsureSaved(Use(Part(source, suffix), channels), f);
      return Ok(name);
    }

    method EnsureParameters(tid: nat, ghost f: Facts) returns (arrays: seq<string>)
      requires Shows(f) && Accounts(f)
      modifies this`saved, this`tensors, this`waiting, names
      ensures waiting == old(waiting) + SavedIn(Parameters(f, tid))
      ensures Shows(f) && Accounts(f) && Grows(old(names.nameMap), names.nameMap) && Grows(old(saved), saved)
      ensures UsesShown(names.nameMap, saved, Parameters(f, tid), arrays)
    {
      var source := ResolveConst(tid);
      arrays := EnsurePair(Use(Part(source, Scale), 0), Use(Part(source, TypedZeroPoint), 0), f);
    }

    method EnsurePair(first: Use, second: Use, ghost f: Facts) returns (arrays: seq<string>)
      requires Shows(f) && Accounts(f) && IsSavedUse(first) && IsSavedUse(second)
      modifies this`saved, this`tensors, this`waiting, names
      ensures waiting == old(waiting) + SavedIn([first, second])
      ensures Shows(f) && Accounts(f) && Grows(old(names.nameMap), names.nameMap) && Grows(old(saved), saved)
      ensures UsesShown(names.nameMap, saved, [first, second], arrays)
    {
      var one := EnsureSaved(first, f);
      label one:
      var two := EnsureSaved(second, f);
      UsesStayShown(old@one(names.nameMap), old@one(saved), [first], [one], names.nameMap, saved);
      UsesPair(names.nameMap, saved, first, one, second, two);
      arrays := [one, two];
    }

    method NameForValue(tid: nat, ghost f: Facts) returns (r: Result<string, ExportError>)
      requires Shows(f) && Accounts(f)
      modifies this`saved, this`tensors, this`waiting, names
      ensures Shows(f) && Accounts(f) && Grows(old(names.nameMap), names.nameMap) && Grows(old(saved), saved)
      ensures r.Ok? <==> Read(g, f, tid).Ok?
      ensures r.Ok? ==> waiting == old(waiting) + SavedIn([Read(g, f, tid).value])
      ensures r.Ok? ==> UsesShown(names.nameMap, saved, [Read(g, f, tid).value], [r.value])
      ensures r.Err? ==> r.error == NoProducedValue(tid)
    {
      if tid in valueName {
        return Ok(valueName[tid]);
      }
      var source := ResolveConst(tid);
      if source !in g.constants {
        return Err(NoProducedValue(tid));
      }
      var name := EnsureSaved(Use(Part(source, Raw), 0), f);
      return Ok(name);
    }

    method AddNode(kind: string, inputs: seq<string>, output: string, ghost uses: seq<Use>, ghost key: Key,
            ghost f: Facts)
      requires Shows(f) && Accounts(f) && UsesShown(names.nameMap, saved, uses, inputs)
               && Is(names.nameMap, key, output)
      modifies this`nodes, this`waiting
      ensures Shows(Emit(f, kind, uses, key)) && Accounts(Emit(f, kind, uses, key))
              && waiting == old(waiting) - SavedIn(uses)
    {
      assert NodeShown(names.nameMap, saved, SymNode(kind, uses, key), Node(kind, inputs, output));
      ReadIsSaved(names.nameMap, saved, uses, inputs);
      nodes := nodes + [Node(kind, inputs, output)];
      waiting := waiting - SavedIn(uses);
    }

    method SetValue(tid: nat, name: string, ghost f: Facts)
      requires Shows(f) && Is(names.nameMap, Tensor(tid), name)
      modifies this`valueName
      ensures Shows(f.(values := f.values + {tid}))
    {
      valueName := valueName[tid := name];
    }

    /** A node that gives a tensor its value. */
    method ProduceValue(kind: string, inputs: seq<string>, name: string, tid: nat, ghost uses: seq<Use>, ghost f: Facts)
      requires Shows(f) && Accounts(f) && UsesShown(names.nameMap, saved, uses, inputs)
               && Is(names.nameMap, Tensor(tid), name)
      modifies this`nodes, this`waiting, this`valueName
      ensures Shows(Produce(f, kind, uses, tid)) && Accounts(Produce(f, kind, uses, tid))
              && waiting == old(waiting) - SavedIn(uses)
    {
      AddNode(kind, inputs, name, uses, Tensor(tid), f);
      SetValue(tid, name, Emit(f, kind, uses, Tensor(tid)));
    }

    /** Adds a read tensor to the inputs of a node. */
    method AppendValue(inputs: seq<string>, tid: nat, ghost uses: seq<Use>, ghost f: Facts)
      returns (r: Result<seq<string>, ExportError>)
      requires Shows(f) && Accounts(f) && UsesShown(names.nameMap, saved, uses, inputs)
      modifies this`saved, this`tensors, this`waiting, names
      ensures Shows(f) && Accounts(f) && Grows(old(names.nameMap), names.nameMap) && Grows(old(saved), saved)
      ensures r.Ok? <==> Read(g, f, tid).Ok?
      ensures r.Ok? ==> waiting == old(waiting) + SavedIn([Read(g, f, tid).value])
      ensures r.Ok? ==> UsesShown(names.nameMap, saved, uses + [Read(g, f, tid).value], r.value)
      ensures r.Err? ==> r.error == NoProducedValue(tid)
    {
      var x := NameForValue(tid, f);
      if x.Err? {
        return Err(x.error);
      }
      UsesStayShown(old(names.nameMap), old(saved), uses, inputs, names.nameMap, saved);
      UsesConcat(names.nameMap, saved, uses, inputs, [Read(g, f, tid).value], [x.value]);
      return Ok(inputs + [x.value]);
    }

    method AppendWeight(inputs: seq<string>, tid: nat, suffix: Suffix, channels: nat, ghost uses: seq<Use>,
            ghost f: Facts)
      returns (r: Result<seq<string>, ExportError>)
      requires Shows(f) && Accounts(f) && IsSaved(suffix) && UsesShown(names.nameMap, saved, uses, inputs)
      modifies this`saved, this`tensors, this`waiting, names
      ensures Shows(f) && Accounts(f) && Grows(old(names.nameMap), names.nameMap) && Grows(old(saved), saved)
      ensures r.Ok? <==> Constant(g, f, tid, suffix, channels).Ok?
      ensures r.Ok? ==> waiting == old(waiting) + SavedIn([Constant(g, f, tid, suffix, channels).value])
      ensures r.Ok? ==> UsesShown(names.nameMap, saved, uses + [Constant(g, f, tid, suffix, channels).value], r.value)
      ensures r.Err? ==> r.error == NotConstant(tid)
    {
      var weight := EnsureWeight(tid, suffix, channels, f);
      if weight.Err? {
        return Err(weight.error);
      }
      UsesStayShown(old(names.nameMap), old(saved), uses, inputs, names.nameMap, saved);
      UsesConcat(names.nameMap, saved, uses, inputs, [Constant(g, f, tid, suffix, channels).value], [weight.value]);
      return Ok(inputs + [weight.value]);
    }

    method AppendParameters(inputs: seq<string>, tid: nat, ghost uses: seq<Use>, ghost f: Facts)
      returns (r: seq<string>)
      requires Shows(f) && Accounts(f) && UsesShown(names.nameMap, saved, uses, inputs)
      modifies this`saved, this`tensors, this`waiting, names
      ensures waiting == old(waiting) + SavedIn(Parameters(f, tid))
      ensures Shows(f) && Accounts(f) && Grows(old(names.nameMap), names.nameMap) && Grows(old(saved), saved)
      ensures UsesShown(names.nameMap, saved, uses + Parameters(f, tid), r)
    {
      var arrays := EnsureParameters(tid, f);
      UsesStayShown(old(names.nameMap), old(saved), uses, inputs, names.nameMap, saved);
      UsesConcat(names.nameMap, saved, uses, inputs, Parameters(f, tid), arrays);
      return inputs + arrays;
    }

    method LowerDequantize(op: Op, ghost f: Facts) returns (r: Option<ExportError>)
      requires op.Dequantize? && Settled(f)
      modifies this, names
      ensures Lowered(f, op, r)
    {
      var source := ResolveConst(op.input);
      if source in g.constants {
        alias := alias[op.output := source];
        return None;
      }
      var name := Name(Tensor(op.output), "", false, f);
      var x := NameForValue(op.input, f);
      if x.Err? {
        return Some(x.error);
      }
      ghost var uses := [Read(g, f, op.input).value];
      var inputs := AppendParameters([x.value], op.input, uses, f);
      SavedInConcat(uses, Parameters(f, op.input));
      ProduceValue("DequantizeLinear", inputs, name, op.output, uses + Parameters(f, op.input), f);
      return None;
    }

    method LowerQuantize(op: Op, ghost f: Facts) returns (r: Option<ExportError>)
      requires op.Quantize? && Settled(f)
      modifies this, names
      ensures Lowered(f, op, r)
    {
      var name := Name(Tensor(op.output), "", false, f);
      var x := NameForValue(op.input, f);
      if x.Err? {
        return Some(x.error);
      }
      ghost var uses := [Read(g, f, op.input).value];
      if op.requantize {
        ProduceValue("RequantizeLinear", [x.value], name, op.output, uses, f);
      } else {
        var inputs := AppendParameters([x.value], op.output, uses, f);
        SavedInConcat(uses, Parameters(f, op.output));
        ProduceValue("QuantizeLinear", inputs, name, op.output, uses + Parameters(f, op.output), f);
      }
      return None;
    }

    /** The input and the filter of a convolution. */
    method ReadFiltered(op: Op, ghost f: Facts) returns (r: Result<seq<string>, ExportError>)
      requires op.Convolve? && Settled(f)
      modifies this`saved, this`tensors, this`waiting, names
      ensures Grows(old(names.nameMap), names.nameMap)
      ensures Filtered(f, op).Err? ==> r == Err(Filtered(f, op).error)
      ensures Filtered(f, op).Ok? ==>
        && r.Ok? && Shows(f) && Accounts(f) && waiting <= SavedIn(Filtered(f, op).value)
        && UsesShown(names.nameMap, saved, Filtered(f, op).value, r.value)
    {
      var x := NameForValue(op.input, f);
      if x.Err? {
        return Err(x.error);
      }
      ghost var use := Read(g, f, op.input).value;
      ghost var asked := Constant(g, f, op.filter, LayoutSuffix(op.layout), LayoutChannels(op.layout));
      r := AppendWeight([x.value], op.filter, LayoutSuffix(op.layout), LayoutChannels(op.layout), [use], f);
      if r.Ok? {
        SavedInConcat([use], [asked.value]);
        assert [use] + [asked.value] == [use, asked.value];
      }
    }

    ghost function Filtered(f: Facts, op: Op): (uses: Result<seq<Use>, ExportError>)
      requires op.Convolve?
      ensures uses.Ok? ==> |uses.value| == 2
    {
      var x, w := Read(g, f, op.input), Constant(g, f, op.filter, LayoutSuffix(op.layout), LayoutChannels(op.layout));
      if x.Err? then Err(x.error) else if w.Err? then Err(w.error) else Ok([x.value, w.value])
    }

    ghost function Convolved(f: Facts, op: Op, uses: seq<Use>): Result<Facts, ExportError>
      requires op.Convolve? && |uses| == 2
    {
      if op.bias.None? then Ok(Produce(f, op.kind, uses, op.output))
      else
        var b := Constant(g, f, op.bias.value, Raw, 0);
        if b.Err? then Err(b.error) else Ok(Produce(f, op.kind, [uses[0], uses[1], b.value], op.output))
    }

    lemma ConvolveLowers(f: Facts, op: Op)
      requires op.Convolve?
      ensures LowerOp(g, f, op) ==
        if Filtered(f, op).Err? then Err(Filtered(f, op).error) else Convolved(f, op, Filtered(f, op).value)
    {
    }

    method LowerConvolve(op: Op, ghost f: Facts) returns (r: Option<ExportError>)
      requires op.Convolve? && Settled(f)
      modifies this, names
      ensures Lowered(f, op, r)
    {
      ConvolveLowers(f, op);
      var name := Name(Tensor(op.output), "", false, f);
      var inputs := ReadFiltered(op, f);
      if inputs.Err? {
        return Some(inputs.error);
      }
      r := EmitConvolve(op, inputs.value, name, Filtered(f, op).value, f);
    }

    method EmitConvolve(op: Op, inputs: seq<string>, name: string, ghost uses: seq<Use>, ghost f: Facts)
      returns (r: Option<ExportError>)
      requires op.Convolve? && Shows(f) && Accounts(f) && Is(names.nameMap, Tensor(op.output), name)
      requires |uses| == 2 && UsesShown(names.nameMap, saved, uses, inputs) && waiting <= SavedIn(uses)
      modifies this, names
      ensures match Convolved(f, op, uses)
        case Ok(lowered) => r.None? && Settled(lowered)
        case Err(error) => r == Some(error)
    {
      if op.bias.None? {
        ProduceValue(op.kind, inputs, name, op.output, uses, f);
        return None;
      }
      r := LowerBias(op, inputs, name, uses, f);
    }

    method LowerBias(op: Op, inputs: seq<string>, name: string, ghost uses: seq<Use>, ghost f: Facts)
      returns (r: Option<ExportError>)
      requires op.Convolve? && op.bias.Some? && Shows(f) && Accounts(f) && Is(names.nameMap, Tensor(op.output), name)
      requires |uses| == 2 && UsesShown(names.nameMap, saved, uses, inputs) && waiting <= SavedIn(uses)
      modifies this, names
      ensures var bias := Constant(g, f, op.bias.value, Raw, 0);
        if bias.Err? then r == Some(bias.error)
        else r.None? && Settled(Produce(f, op.kind, [uses[0], uses[1], bias.value], op.output))
    {
      var all := AppendWeight(inputs, op.bias.value, Raw, 0, uses, f);
      if all.Err? {
        return Some(all.error);
      }
      ghost var bias := Constant(g, f, op.bias.value, Raw, 0).value;
      assert uses + [bias] == [uses[0], uses[1], bias];
      SavedInConcat(uses, [bias]);
      ProduceValue(op.kind, all.value, name, op.output, uses + [bias], f);
      return None;
    }

    /** Expands an operand of a quantized sum to the shape of the sum; other names stay as they are. */
    method ExpandOperand(operand: string, needed: bool, key: Key, other: string, ghost use: Use, ghost otherUse: Use,
            ghost f: Facts)
      returns (name: string)
      requires Shows(f) && Accounts(f) && key.Part? && !IsSaved(key.suffix)
      requires UsesShown(names.nameMap, saved, [use], [operand]) && UsesShown(names.nameMap, saved, [otherUse], [other])
      requires waiting <= SavedIn([use]) + SavedIn([otherUse])
      modifies this`nodes, this`waiting, names
      ensures waiting <= SavedIn([Expand(f, use, needed, key).1]) + SavedIn([otherUse])
      ensures Shows(Expand(f, use, needed, key).0) && Accounts(Expand(f, use, needed, key).0)
      ensures UsesShown(names.nameMap, saved, [Expand(f, use, needed, key).1], [name])
      ensures UsesShown(names.nameMap, saved, [otherUse], [other])
      ensures Grows(old(names.nameMap), names.nameMap)
    {
      if !needed {
        return operand;
      }
      name := Name(key, "", false, f);
      UsesStayShown(old(names.nameMap), saved, [use], [operand], names.nameMap, saved);
      UsesStayShown(old(names.nameMap), saved, [otherUse], [other], names.nameMap, saved);
      AddNode("Expand", [operand], name, [use], key, f);
    }

    method EmitSum(op: Op, a: string, b: string, name: string, ghost x: Use, ghost y: Use, ghost f: Facts)
      requires op.Sum? && Shows(f) && Accounts(f) && Is(names.nameMap, Tensor(op.output), name)
      requires UsesShown(names.nameMap, saved, [x], [a]) && UsesShown(names.nameMap, saved, [y], [b])
      requires waiting <= SavedIn([x]) + SavedIn([y])
      modifies this`nodes, this`waiting, this`valueName, names
      ensures var (fa, xa) := Expand(f, x, op.expandA, Part(op.output, Expanded0));
        var (fb, yb) := Expand(fa, y, op.expandB, Part(op.output, Expanded1));
        Settled(Produce(fb, op.kind, [xa, yb], op.output))
    {
      ghost var ea := Expand(f, x, op.expandA, Part(op.output, Expanded0));
      var left := ExpandOperand(a, op.expandA, Part(op.output, Expanded0), b, x, y, f);
      ghost var eb := Expand(ea.0, y, op.expandB, Part(op.output, Expanded1));
      var right := ExpandOperand(b, op.expandB, Part(op.output, Expanded1), left, y, ea.1, ea.0);
      UsesPair(names.nameMap, saved, ea.1, left, eb.1, right);
      ProduceValue(op.kind, [left, right], name, op.output, [ea.1, eb.1], eb.0);
    }

    /** Both operands of a sum. */
    method ReadBoth(op: Op, ghost f: Facts) returns (r: Result<(string, string), ExportError>)
      requires op.Sum? && Settled(f)
      modifies this`saved, this`tensors, this`waiting, names
      ensures Grows(old(names.nameMap), names.nameMap)
      ensures Read(g, f, op.a).Err? ==> r == Err(Read(g, f, op.a).error)
      ensures Read(g, f, op.a).Ok? && Read(g, f, op.b).Err? ==> r == Err(Read(g, f, op.b).error)
      ensures Read(g, f, op.a).Ok? && Read(g, f, op.b).Ok? ==>
        && r.Ok? && Shows(f) && Accounts(f)
        && waiting <= SavedIn([Read(g, f, op.a).value]) + SavedIn([Read(g, f, op.b).value])
        && UsesShown(names.nameMap, saved, [Read(g, f, op.a).value], [r.value.0])
        && UsesShown(names.nameMap, saved, [Read(g, f, op.b).value], [r.value.1])
    {
      var a := NameForValue(op.a, f);
      if a.Err? {
        return Err(a.error);
      }
      label read:
      var b := NameForValue(op.b, f);
      if b.Err? {
        return Err(b.error);
      }
      UsesStayShown(old@read(names.nameMap), old@read(saved), [Read(g, f, op.a).value], [a.value],
                    names.nameMap, saved);
      return Ok((a.value, b.value));
    }

    method LowerSum(op: Op, ghost f: Facts) returns (r: Option<ExportError>)
      requires op.Sum? && Settled(f)
      modifies this, names
      ensures Lowered(f, op, r)
    {
      var name := Name(Tensor(op.output), "", false, f);
      var both := ReadBoth(op, f);
      if both.Err? {
        return Some(both.error);
      }
      EmitSum(op, both.value.0, both.value.1, name, Read(g, f, op.a).value, Read(g, f, op.b).value, f);
      return None;
    }

    method LowerUnary(op: Op, ghost f: Facts) returns (r: Option<ExportError>)
      requires op.Unary? && Settled(f)
      modifies this, names
      ensures Lowered(f, op, r)
    {
      var name := Name(Tensor(op.output), "", false, f);
      var x := NameForValue(op.input, f);
      if x.Err? {
        return Some(x.error);
      }
      ProduceValue(op.kind, [x.value], name, op.output, [Read(g, f, op.input).value], f);
      return None;
    }

    /** The values of all inputs, in order. */
    method ReadInputs(tids: seq<nat>, ghost f: Facts) returns (r: Result<seq<string>, ExportError>)
      requires Settled(f)
      modifies this`saved, this`tensors, this`waiting, names
      ensures Grows(old(names.nameMap), names.nameMap)
      ensures ReadAll(g, f, tids).Err? ==> r == Err(ReadAll(g, f, tids).error)
      ensures ReadAll(g, f, tids).Ok? ==>
        && r.Ok? && Shows(f) && Accounts(f) && waiting <= SavedIn(ReadAll(g, f, tids).value)
        && UsesShown(names.nameMap, saved, ReadAll(g, f, tids).value, r.value)
    {
      var inputs: seq<string> := [];
      for k := 0 to |tids|
        invariant Shows(f) && Accounts(f) && Grows(old(names.nameMap), names.nameMap)
        invariant ReadAll(g, f, tids[..k]).Ok?
        invariant UsesShown(names.nameMap, saved, ReadAll(g, f, tids[..k]).value, inputs)
        invariant waiting <= SavedIn(ReadAll(g, f, tids[..k]).value)
      {
        ReadAllStep(g, f, tids, k);
        ghost var before := ReadAll(g, f, tids[..k]).value;
        var more := AppendValue(inputs, tids[k], before, f);
        if more.Err? {
          ReadAllFails(g, f, tids, k);
          return more;
        }
        SavedInConcat(before, [Read(g, f, tids[k]).value]);
        inputs := more.value;
      }
      assert tids[..|tids|] == tids;
      return Ok(inputs);
    }

    method LowerConcatenate(op: Op, ghost f: Facts) returns (r: Option<ExportError>)
      requires op.Concatenate? && Settled(f)
      modifies this, names
      ensures Lowered(f, op, r)
    {
      var name := Name(Tensor(op.output), "", false, f);
      var inputs := ReadInputs(op.inputs, f);
      if inputs.Err? {
        return Some(inputs.error);
      }
      ProduceValue("Concat", inputs.value, name, op.output, ReadAll(g, f, op.inputs).value, f);
      return None;
    }

    /** A quantized sigmoid is computed on floats between two conversions. */
    method EmitLogistic(op: Op, x: string, floatName: string, squashedName: string, name: string, ghost use: Use,
            ghost f: Facts)
      requires op.Logistic? && Shows(f) && Accounts(f) && UsesShown(names.nameMap, saved, [use], [x])
               && waiting <= SavedIn([use])
      requires Is(names.nameMap, Part(op.output, SigmoidInput), floatName)
      requires Is(names.nameMap, Part(op.output, SigmoidOutput), squashedName)
               && Is(names.nameMap, Tensor(op.output), name)
      modifies this, names
      ensures Settled(Squash(f, op, use))
    {
      ghost var floats, squashed := Part(op.output, SigmoidInput), Part(op.output, SigmoidOutput);
      EmitFloats(op.input, x, floatName, use, floats, f);
      ghost var f1 := Emit(f, "DequantizeLinear", [use] + Parameters(f, op.input), floats);
      EmitSquashed(op.output, floatName, squashedName, name, floats, squashed, f1);
    }

    method EmitSquashed(tid: nat, x: string, squashedName: string, name: string, ghost floats: Key,
            ghost squashed: Key, ghost f: Facts)
      requires Settled(f) && !IsSavedUse(Use(floats, 0)) && !IsSavedUse(Use(squashed, 0))
      requires Is(names.nameMap, floats, x) && Is(names.nameMap, squashed, squashedName)
               && Is(names.nameMap, Tensor(tid), name)
      modifies this, names
      ensures var f2 := Emit(f, "Sigmoid", [Use(floats, 0)], squashed);
        Settled(Produce(f2, "QuantizeLinear", [Use(squashed, 0)] + Parameters(f2, tid), tid))
    {
      AddNode("Sigmoid", [x], squashedName, [Use(floats, 0)], squashed, f);
      EmitQuantized(tid, squashedName, name, squashed, Emit(f, "Sigmoid", [Use(floats, 0)], squashed));
    }

    method EmitFloats(tid: nat, x: string, name: string, ghost use: Use, ghost key: Key, ghost f: Facts)
      requires Shows(f) && Accounts(f) && Is(names.nameMap, key, name) && UsesShown(names.nameMap, saved, [use], [x])
      requires waiting <= SavedIn([use])
      modifies this, names
      ensures Settled(Emit(f, "DequantizeLinear", [use] + Parameters(f, tid), key))
      ensures Grows(old(names.nameMap), names.nameMap)
    {
      var inputs := AppendParameters([x], tid, [use], f);
      SavedInConcat([use], Parameters(f, tid));
      AddNode("DequantizeLinear", inputs, name, [use] + Parameters(f, tid), key, f);
    }

    method EmitQuantized(tid: nat, x: string, name: string, ghost key: Key, ghost f: Facts)
      requires Settled(f) && Is(names.nameMap, Tensor(tid), name) && Is(names.nameMap, key, x)
               && !IsSavedUse(Use(key, 0))
      modifies this, names
      ensures Settled(Produce(f, "QuantizeLinear", [Use(key, 0)] + Parameters(f, tid), tid))
    {
      var inputs := AppendParameters([x], tid, [Use(key, 0)], f);
      SavedInConcat([Use(key, 0)], Parameters(f, tid));
      ProduceValue("QuantizeLinear", inputs, name, tid, [Use(key, 0)] + Parameters(f, tid), f);
    }

    method LowerLogistic(op: Op, ghost f: Facts) returns (r: Option<ExportError>)
      requires op.Logistic? && Settled(f)
      modifies this, names
      ensures Lowered(f, op, r)
    {
      var name := Name(Tensor(op.output), "", false, f);
      var x := NameForValue(op.input, f);
      if x.Err? {
        return Some(x.error);
      }
      ghost var use := Read(g, f, op.input).value;
      if op.quantized {
        NameAndEmitLogistic(op, x.value, name, use, f);
      } else {
        ProduceValue("Sigmoid", [x.value], name, op.output, [use], f);
      }
      return None;
    }

    method NameAndEmitLogistic(op: Op, x: string, name: string, ghost use: Use, ghost f: Facts)
      requires op.Logistic? && Shows(f) && Accounts(f) && UsesShown(names.nameMap, saved, [use], [x])
      requires waiting <= SavedIn([use]) && Is(names.nameMap, Tensor(op.output), name)
      modifies this, names
      ensures Settled(Squash(f, op, use))
    {
      label read:
      var floatName := Name(Part(op.output, SigmoidInput), "", false, f);
      var squashedName := Name(Part(op.output, SigmoidOutput), "", false, f);
      UsesStayShown(old@read(names.nameMap), saved, [use], [x], names.nameMap, saved);
      EmitLogistic(op, x, floatName, squashedName, name, use, f);
    }

    /** The operation is lowered, or the error is that of the lowering. */
    ghost predicate Lowered(f: Facts, op: Op, r: Option<ExportError>)
      reads this, names
    {
      match LowerOp(g, f, op)
      case Ok(lowered) => r.None? && Settled(lowered)
      case Err(error) => r == Some(error)
    }

    method Lower(op: Op, ghost f: Facts) returns (r: Option<ExportError>)
      requires Settled(f)
      modifies this, names
      ensures Lowered(f, op, r)
    {
      match op
      case Dequantize(_, _) => r := LowerDequantize(op, f);
      case Quantize(_, _, _) => r := LowerQuantize(op, f);
      case Convolve(_, _, _, _, _, _) => r := LowerConvolve(op, f);
      case Sum(_, _, _, _, _, _) => r := LowerSum(op, f);
      case Unary(_, _, _) => r := LowerUnary(op, f);
      case Concatenate(_, _) => r := LowerConcatenate(op, f);
      case Logistic(_, _, _) => r := LowerLogistic(op, f);
      case NoOutput => r := None;
    }

    method NameInput(tid: nat, preferred: string, ghost f: Facts)
      requires Shows(f)
      modifies this`valueName, names
      ensures Shows(f.(values := f.values + {tid}))
    {
      var name := Name(Tensor(tid), preferred, false, f);
      SetValue(tid, name, f);
    }

    /** Gives the graph inputs their names and values. */
    method NameInputs()
      requires Shows(Facts({}, map[], [], {}))
      modifies this`valueName, names
      ensures Shows(Start(g))
    {
      ghost var f := Facts({}, map[], [], {});
      for k := 0 to |g.inputs|
        invariant Shows(f) && f == Facts(Elements(g.inputs[..k]), map[], [], {})
      {
        NameInput(g.inputs[k], "input" + Decimal(k), f);
        f := f.(values := f.values + {g.inputs[k]});
        ElementsStep(g.inputs, k);
      }
      assert g.inputs[..|g.inputs|] == g.inputs;
    }

    /** Gives the graph outputs their preferred names, where the tensors have none yet. */
    method NameOutputs(preferred: seq<string>, ghost f: Facts)
      requires Shows(f)
      modifies names
      ensures Shows(f)
    {
      for k := 0 to |g.outputs|
        invariant Shows(f)
      {
        if k < |preferred| {
          var name := Name(Tensor(g.outputs[k]), preferred[k], false, f);
        }
      }
    }

    /** The names of listed tensors. */
    method NamesOf(tids: seq<nat>, ghost f: Facts) returns (listed: seq<string>)
      requires Shows(f)
      modifies names
      ensures Shows(f) && AreNames(names.nameMap, tids, listed)
    {
      listed := [];
      for k := 0 to |tids|
        invariant Shows(f) && AreNames(names.nameMap, tids[..k], listed)
      {
        label before:
        var name := Name(Tensor(tids[k]), "", false, f);
        OneMoreName(old@before(names.nameMap), names.nameMap, tids, k, listed, name);
        listed := listed + [name];
      }
      assert tids[..|tids|] == tids;
    }

    /** The whole export. */
    method Export(preferred: seq<string>) returns (r: Result<seq<string>, ExportError>)
      requires Settled(Facts({}, map[], [], {}))
      modifies this, names
      ensures TfliteLowering.Lower(g).Err? ==> r == Err(TfliteLowering.Lower(g).error)
      ensures TfliteLowering.Lower(g).Ok? ==>
        && r.Ok? && Settled(TfliteLowering.Lower(g).value)
        && AreNames(names.nameMap, g.outputs, r.value)
        && (ArraysFound(saved, tensors) <==> FiltersAgree(g))
    {
      NameInputs();
      NameOutputs(preferred, Start(g));
      var error := LowerOps();
      if error.Some? {
        return Err(error.value);
      }
      ghost var f := LowerAll(g, Start(g), g.ops).value;
      error := FinishOutputs(f);
      if error.Some? {
        return Err(error.value);
      }
      var listed := NamesOf(g.outputs, Finish(g, f, g.outputs).value);
      ArraysAreFoundExactlyWhen(g, names.nameMap, saved, tensors);
      return Ok(listed);
    }

    /** An output that is not a value under its own name is copied. */
    method FinishOutput(tid: nat, ghost f: Facts) returns (r: Option<ExportError>)
      requires Settled(f)
      modifies this, names
      ensures Read(g, f, tid).Err? ==> r == Some(Read(g, f, tid).error)
      ensures Read(g, f, tid).Ok? ==> r.None? && var use := Read(g, f, tid).value;
        Settled(if use.key == Tensor(tid) then f else Produce(f, "Identity", [use], tid))
    {
      var wanted := Name(Tensor(tid), "", false, f);
      var current := NameForValue(tid, f);
      if current.Err? {
        return Some(current.error);
      }
      ghost var use := Read(g, f, tid).value;
      assert UseShown(names.nameMap, saved, [use][0], [current.value][0]);
      if current.value != wanted {
        ProduceValue("Identity", [current.value], wanted, tid, [use], f);
      } else {
        NameMeansOneKey(names.nameMap, names.used, use.key, Tensor(tid), wanted);
      }
      return None;
    }

    method LowerOps() returns (r: Option<ExportError>)
      requires Settled(Start(g))
      modifies this, names
      ensures match LowerAll(g, Start(g), g.ops)
        case Ok(f) => r.None? && Settled(f)
        case Err(error) => r == Some(error)
    {
      for k := 0 to |g.ops|
        invariant LowerAll(g, Start(g), g.ops[..k]).Ok? && Settled(LowerAll(g, Start(g), g.ops[..k]).value)
      {
        LowerAllStep(g, g.ops, k);
        ghost var f := LowerAll(g, Start(g), g.ops[..k]).value;
        r := Lower(g.ops[k], f);
        if r.Some? {
          LowerAllFails(g, g.ops, k);
          return r;
        }
      }
      assert g.ops[..|g.ops|] == g.ops;
      return None;
    }

    method FinishOutputs(ghost f: Facts) returns (r: Option<ExportError>)
      requires Settled(f)
      modifies this, names
      ensures match Finish(g, f, g.outputs)
        case Ok(done) => r.None? && Settled(done)
        case Err(error) => r == Some(error)
    {
      for k := 0 to |g.outputs|
        invariant Finish(g, f, g.outputs[..k]).Ok? && Settled(Finish(g, f, g.outputs[..k]).value)
      {
        FinishStep(g, f, g.outputs, k);
        r := FinishOutput(g.outputs[k], Finish(g, f, g.outputs[..k]).value);
        if r.Some? {
          FinishFails(g, f, g.outputs, k);
          return r;
        }
      }
      assert g.outputs[..|g.outputs|] == g.outputs;
      return None;
    }
  }

  lemma LowerAllStep(g: Subgraph, ops: seq<Op>, k: nat)
    requires k < |ops| && LowerAll(g, Start(g), ops[..k]).Ok?
    ensures LowerAll(g, Start(g), ops[..k + 1]) == LowerOp(g, LowerAll(g, Start(g), ops[..k]).value, ops[k])
  {
    assert ops[..k + 1][..k] == ops[..k];
  }

  lemma FinishStep(g: Subgraph, f: Facts, outputs: seq<nat>, k: nat)
    requires k < |outputs| && Finish(g, f, outputs[..k]).Ok?
    ensures var before := Finish(g, f, outputs[..k]).value;
      var x := Read(g, before, outputs[k]);
      Finish(g, f, outputs[..k + 1]) ==
        if x.Err? then Err(x.error)
        else if x.value.key == Tensor(outputs[k]) then Ok(before)
        else Ok(Produce(before, "Identity", [x.value], outputs[k]))
  {
    assert outputs[..k + 1][..k] == outputs[..k];
  }

  lemma ReadAllStep(g: Subgraph, f: Facts, tids: seq<nat>, k: nat)
    requires k < |tids| && ReadAll(g, f, tids[..k]).Ok?
    ensures var x := Read(g, f, tids[k]);
      ReadAll(g, f, tids[..k + 1]) == if x.Err? then Err(x.error) else Ok(ReadAll(g, f, tids[..k]).value + [x.value])
  {
    assert tids[..k + 1][..k] == tids[..k];
  }

  lemma ElementsStep(tids: seq<nat>, k: nat)
    requires k < |tids|
    ensures Elements(tids[..k + 1]) == Elements(tids[..k]) + {tids[k]}
  {
    assert tids[..k + 1] == tids[..k] + [tids[k]];
  }

  lemma {:induction false} LowerAllFails(g: Subgraph, ops: seq<Op>, k: nat)
    requires k < |ops| && LowerAll(g, Start(g), ops[..k]).Ok?
    requires LowerOp(g, LowerAll(g, Start(g), ops[..k]).value, ops[k]).Err?
    ensures LowerAll(g, Start(g), ops) == LowerOp(g, LowerAll(g, Start(g), ops[..k]).value, ops[k])
  {
    var n := |ops| - 1;
    if k == n {
    } else {
      var before := ops[..n];
      assert before[..k] == ops[..k] && before[k] == ops[k];
      LowerAllFails(g, before, k);
    }
  }

  lemma {:induction false} FinishFails(g: Subgraph, f: Facts, outputs: seq<nat>, k: nat)
    requires k < |outputs| && Finish(g, f, outputs[..k]).Ok?
    requires Read(g, Finish(g, f, outputs[..k]).value, outputs[k]).Err?
    ensures Finish(g, f, outputs) == Err(Read(g, Finish(g, f, outputs[..k]).value, outputs[k]).error)
  {
    var n := |outputs| - 1;
    if k == n {
    } else {
      assert outputs[..n][..k] == outputs[..k];
      FinishFails(g, f, outputs[..n], k);
    }
  }

  // ---------------------------------------------------------------------------
  // The exported graph, by names
  // ---------------------------------------------------------------------------

  /** The name is a graph input's, that of a saved array, or the output of one of the first `before` nodes. */
  ghost predicate Available(g: Subgraph, names: map<string, string>, tensors: map<string, Use>, nodes: seq<Node>,
          name: string, before: nat)
  {
    || (exists t | t in g.inputs :: Is(names, Tensor(t), name))
    || name in tensors
    || exists j | 0 <= j < before && j < |nodes| :: nodes[j].output == name
  }

  lemma ReadyIsAvailable(g: Subgraph, names: map<string, string>, saved: map<Use, string>, tensors: map<string, Use>,
          syms: seq<SymNode>, nodes: seq<Node>, use: Use, name: string, before: nat)
    requires NodesShown(names, saved, syms, nodes) && SavedShown(names, saved, tensors) && before <= |nodes|
    requires UseShown(names, saved, use, name) && Ready(g, syms, use, before)
    ensures Available(g, names, tensors, nodes, name, before)
  {
    if use in saved {
      assert RequestShown(names, saved, tensors, use);
    }
    if MadeBefore(syms, use.key, before) {
      var j :| 0 <= j < before && syms[j].output == use.key;
      assert NodeShown(names, saved, syms[j], nodes[j]);
      assert nodes[j].output == name;
    }
  }

  /** Every node of an exported graph reads names that are there before it. */
  lemma ExportIsOrdered(g: Subgraph, names: map<string, string>, saved: map<Use, string>, tensors: map<string, Use>,
          nodes: seq<Node>, i: nat, j: nat)
    requires TfliteLowering.Lower(g).Ok?
    requires NodesShown(names, saved, TfliteLowering.Lower(g).value.nodes, nodes) && SavedShown(names, saved, tensors)
    requires i < |nodes| && j < |nodes[i].inputs|
    ensures Available(g, names, tensors, nodes, nodes[i].inputs[j], i)
  {
    var syms := TfliteLowering.Lower(g).value.nodes;
    LoweringIsOrdered(g);
    assert NodeShown(names, saved, syms[i], nodes[i]) && NodeReady(g, syms, i);
    var use := syms[i].inputs[j];
    assert use in syms[i].inputs && UseShown(names, saved, use, nodes[i].inputs[j]);
    ReadyIsAvailable(g, names, saved, tensors, syms, nodes, use, nodes[i].inputs[j], i);
  }

  /** Every listed output of an exported graph is there at the end. */
  lemma ExportDefinesOutputs(g: Subgraph, names: map<string, string>, saved: map<Use, string>,
          tensors: map<string, Use>, nodes: seq<Node>, t: nat, name: string)
    requires TfliteLowering.Lower(g).Ok?
    requires NodesShown(names, saved, TfliteLowering.Lower(g).value.nodes, nodes) && SavedShown(names, saved, tensors)
    requires t in g.outputs && Is(names, Tensor(t), name)
    ensures Available(g, names, tensors, nodes, name, |nodes|)
  {
    LoweringIsOrdered(g);
    ReadyIsAvailable(g, names, saved, tensors, TfliteLowering.Lower(g).value.nodes, nodes,
                     Use(Tensor(t), 0), name, |nodes|);
  }

  /**
   If the subgraph produces each tensor once, no two nodes of the exported graph have one
   output name, nor is one an input's.
   */
  lemma ExportAssignsOnce(g: Subgraph, names: map<string, string>, used: set<string>, saved: map<Use, string>,
          nodes: seq<Node>)
    requires TfliteLowering.Lower(g).Ok? && ProducedOnce(g) && NamesFit(names, used)
    requires NodesShown(names, saved, TfliteLowering.Lower(g).value.nodes, nodes)
    ensures forall i, j | 0 <= i < j < |nodes| :: nodes[i].output != nodes[j].output
    ensures forall i, t | 0 <= i < |nodes| && t in g.inputs :: !Is(names, Tensor(t), nodes[i].output)
  {
    var syms := TfliteLowering.Lower(g).value.nodes;
    LoweringAssignsOnce(g);
    forall i, j | 0 <= i < j < |nodes| ensures nodes[i].output != nodes[j].output {
      assert NodeShown(names, saved, syms[i], nodes[i]) && NodeShown(names, saved, syms[j], nodes[j]);
      if nodes[i].output == nodes[j].output {
        NameMeansOneKey(names, used, syms[i].output, syms[j].output, nodes[i].output);
      }
    }
    forall i, t | 0 <= i < |nodes| && t in g.inputs ensures !Is(names, Tensor(t), nodes[i].output) {
      assert NodeShown(names, saved, syms[i], nodes[i]);
      if Is(names, Tensor(t), nodes[i].output) {
        NameMeansOneKey(names, used, syms[i].output, Tensor(t), nodes[i].output);
      }
    }
  }

  // ---------------------------------------------------------------------------
  // Which arrays are found
  // ---------------------------------------------------------------------------

  /** The tables of arrays that an export of the subgraph leaves behind. */
  ghost predicate Saves(g: Subgraph, names: map<string, string>, saved: map<Use, string>, tensors: map<string, Use>) {
    && TfliteLowering.Lower(g).Ok? && SavedShown(names, saved, tensors)
    && saved.Keys == TfliteLowering.Lower(g).value.arrays
  }

  /** Behind its name, every request finds the array made for it. */
  ghost predicate ArraysFound(saved: map<Use, string>, tensors: map<string, Use>) {
    forall u | u in saved :: saved[u] in tensors && tensors[saved[u]] == u
  }

  lemma SharedKeysAreFound(names: map<string, string>, saved: map<Use, string>, tensors: map<string, Use>)
    requires SavedShown(names, saved, tensors)
    ensures ArraysFound(saved, tensors)
            <==> (forall u, v | u in saved && v in saved && u.key == v.key :: u.channels == v.channels)
  {
    forall u | u in saved ensures RequestShown(names, saved, tensors, u) {
    }
    if ArraysFound(saved, tensors) {
      forall u, v | u in saved && v in saved && u.key == v.key ensures u.channels == v.channels {
        assert RequestShown(names, saved, tensors, u) && RequestShown(names, saved, tensors, v);
        assert tensors[saved[u]] == u && tensors[saved[v]] == v;
      }
    }
  }

  /**
   An array is saved under its key's name alone, although a depthwise filter is
   reshaped by the channels of its input.  Every array is found exactly when no two
   convolutions of the subgraph share a filter with different channels.
   */
  lemma ArraysAreFoundExactlyWhen(g: Subgraph, names: map<string, string>, saved: map<Use, string>,
          tensors: map<string, Use>)
    requires Saves(g, names, saved, tensors)
    ensures ArraysFound(saved, tensors) <==> FiltersAgree(g)
  {
    FiltersDecideArrays(g);
    SharedKeysAreFound(names, saved, tensors);
  }

  /** Of two convolutions that share a filter with different channels, one does not find its array. */
  lemma SharedFilterIsLost(g: Subgraph, i: nat, j: nat, names: map<string, string>, saved: map<Use, string>,
          tensors: map<string, Use>)
    requires Saves(g, names, saved, tensors)
    requires i < |g.ops| && j < |g.ops| && FilterClash(g, i, j)
    ensures FilterUse(g, i) in saved && FilterUse(g, j) in saved
    ensures saved[FilterUse(g, i)] == saved[FilterUse(g, j)] && saved[FilterUse(g, i)] in tensors
    ensures tensors[saved[FilterUse(g, i)]] != FilterUse(g, i) || tensors[saved[FilterUse(g, j)]] != FilterUse(g, j)
  {
    FiltersAreRead(g);
    assert RequestShown(names, saved, tensors, FilterUse(g, i)) && RequestShown(names, saved, tensors, FilterUse(g, j));
  }

  /** What a node reads of the saved arrays is what was made for it, if no filters clash. */
  lemma NodesFindTheirArrays(g: Subgraph, names: map<string, string>, saved: map<Use, string>,
          tensors: map<string, Use>, nodes: seq<Node>, i: nat, j: nat)
    requires Saves(g, names, saved, tensors) && FiltersAgree(g)
    requires NodesShown(names, saved, TfliteLowering.Lower(g).value.nodes, nodes)
    requires i < |nodes| && j < |nodes[i].inputs| && j < |TfliteLowering.Lower(g).value.nodes[i].inputs|
    requires IsSavedUse(TfliteLowering.Lower(g).value.nodes[i].inputs[j])
    ensures nodes[i].inputs[j] in tensors
    ensures tensors[nodes[i].inputs[j]] == TfliteLowering.Lower(g).value.nodes[i].inputs[j]
  {
    var syms := TfliteLowering.Lower(g).value.nodes;
    var use := syms[i].inputs[j];
    assert NodeShown(names, saved, syms[i], nodes[i]) && UseShown(names, saved, use, nodes[i].inputs[j]);
    assert RequestShown(names, saved, tensors, use);
    ArraysAreFoundExactlyWhen(g, names, saved, tensors);
  }

  /** Two depthwise convolutions that share filter 2, for inputs of one and of two channels. */
  const SHARED_FILTER: Subgraph :=
    Subgraph({2}, [0, 1], [3, 4], [
      Convolve("Conv2D", 0, 2, Hwcm(1), None, 3),
      Convolve("Conv2D", 1, 2, Hwcm(2), None, 4)])

  /** Both convolutions are fed. */
  lemma SharedFilterIsFed()
    ensures AllFed(SHARED_FILTER, SHARED_FILTER.ops)
  {
    var g := SHARED_FILTER;
    var one := g.ops[..1];
    assert one == [g.ops[0]] && one[..0] == [] && g.ops[..2] == g.ops;
    assert AllFed(g, []) && Fed(g, [], g.ops[0]) && AllFed(g, one);
    assert Fed(g, one, g.ops[1]);
  }

  lemma SharedFilterIsKnown()
    ensures forall t | t in SHARED_FILTER.outputs :: t in Known(SHARED_FILTER, SHARED_FILTER.ops)
  {
    var g := SHARED_FILTER;
    assert OutputOf(g.ops[0]) == Some(3) && OutputOf(g.ops[1]) == Some(4);
    DoneIsOutputs(g.ops, 3);
    DoneIsOutputs(g.ops, 4);
  }

  /** Such a subgraph is exported without an error. */
  lemma SharedFilterIsExported()
    ensures TfliteLowering.Lower(SHARED_FILTER).Ok? && FilterClash(SHARED_FILTER, 0, 1)
  {
    SharedFilterIsFed();
    SharedFilterIsKnown();
    LoweredExactlyWhenFed(SHARED_FILTER);
    var g := SHARED_FILTER;
    assert g.ops[..0] == [] && g.ops[..1] == [g.ops[0]] && g.ops[..1][..0] == [];
  }
}
