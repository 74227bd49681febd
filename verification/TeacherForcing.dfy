/**
 Teacher-forced evaluation: the same logits rows from one prefill call and from
 one incremental step per token, and the life of the execution contexts.

 The engine is a causal function of the tokens, run either over a whole array or
 on top of the tokens that a context has already taken in.
 */
module TeacherForcing {
  import opened Results

  // ---------------------------------------------------------------------------
  // Cases
  // ---------------------------------------------------------------------------

  /** What a multiple-choice task says about itself; an entry that is missing counts as zero. */
  datatype Task = Task(normalizationChars: int, choiceCount: int)

  datatype Case = Case(initial: seq<int>, teachers: seq<int>, capacity: int,
                       execution: Option<string>, task: Option<Task>) {
    function Mode(): string {
      if execution.Some? then execution.value else "incremental"
    }

    predicate Prefill() {
      Mode() == "prefill"
    }
  }

  predicate ValidTokens(tokens: seq<int>, vocabulary: int) {
    forall k | 0 <= k < |tokens| :: 0 <= tokens[k] < vocabulary
  }

  /** There is something to predict from and something to predict, both fit, and the mode and task make sense. */
  predicate ValidCase(c: Case, vocabulary: int, graphCapacity: Option<int>) {
    && c.initial != [] && c.teachers != [] && (c.Mode() == "prefill" || c.Mode() == "incremental")
    && |c.initial| + |c.teachers| - 1 <= c.capacity
    && (graphCapacity.Some? ==> c.capacity <= graphCapacity.value)
    && ValidTokens(c.initial + c.teachers, vocabulary)
    && (c.task.Some? ==> c.task.value.normalizationChars > 0 && c.task.value.choiceCount >= 2)
  }

  method ValidateCases(cases: seq<Case>, vocabulary: int, graphCapacity: Option<int>) returns (ok: bool)
    ensures ok <==> cases != [] && forall c | c in cases :: ValidCase(c, vocabulary, graphCapacity)
  {
    if cases == [] {
      return false;
    }
    for k := 0 to |cases|
      invariant forall i | 0 <= i < k :: ValidCase(cases[i], vocabulary, graphCapacity)
    {
      if !ValidCase(cases[k], vocabulary, graphCapacity) {
        return false;
      }
    }
    return true;
  }

  // ---------------------------------------------------------------------------
  // The rows that are wanted
  // ---------------------------------------------------------------------------

  /** A model gives a row of logits for each position of its tokens. */
  type Model<!Row> = (seq<int>, nat) -> Row

  ghost predicate AgreeUpTo(a: seq<int>, b: seq<int>, r: nat) {
    r < |a| && r < |b| && forall k | 0 <= k <= r :: a[k] == b[k]
  }

  /** A row depends on the tokens up to its position and on nothing behind it. */
  ghost predicate Causal<Row(!new)>(model: Model<Row>) {
    forall a, b, r: nat {:trigger AgreeUpTo(a, b, r)} | AgreeUpTo(a, b, r) :: model(a, r) == model(b, r)
  }

  ghost predicate Fits(c: Case) {
    c.initial != [] && c.teachers != [] && |c.initial| + |c.teachers| - 1 <= c.capacity
  }

  /** The prompt and the first `n` targets. */
  function Prompt(c: Case, n: nat): seq<int>
    requires n <= |c.teachers|
  {
    c.initial + c.teachers[..n]
  }

  /** The row behind the prompt and the first `t` targets. */
  function TeacherRow<Row>(model: Model<Row>, c: Case, t: nat): Row
    requires c.initial != [] && t <= |c.teachers|
  {
    model(Prompt(c, t), |c.initial| + t - 1)
  }

  ghost predicate RowsUpTo<Row>(model: Model<Row>, c: Case, rows: seq<Row>)
    requires c.initial != []
  {
    |rows| <= |c.teachers| && forall t | 0 <= t < |rows| :: rows[t] == TeacherRow(model, c, t)
  }

  /** For each target, the row behind the prompt and the targets before it. */
  ghost predicate AreTeacherRows<Row>(model: Model<Row>, c: Case, rows: seq<Row>)
    requires c.initial != []
  {
    |rows| == |c.teachers| && RowsUpTo(model, c, rows)
  }

  lemma SameRows<Row>(model: Model<Row>, c: Case, d: Case, rows: seq<Row>)
    requires c.initial != [] && d.initial == c.initial && d.teachers == c.teachers
    requires AreTeacherRows(model, c, rows)
    ensures AreTeacherRows(model, d, rows)
  {
    forall t | 0 <= t < |rows| ensures rows[t] == TeacherRow(model, d, t) {
      assert Prompt(c, t) == Prompt(d, t) && rows[t] == TeacherRow(model, c, t);
    }
  }

  /** There is one list of teacher rows for a text, in whatever mode it is evaluated. */
  lemma TeacherRowsAreUnique<Row>(model: Model<Row>, c: Case, d: Case, a: seq<Row>, b: seq<Row>)
    requires c.initial != [] && d.initial == c.initial && d.teachers == c.teachers
    requires AreTeacherRows(model, c, a) && AreTeacherRows(model, d, b)
    ensures a == b
  {
    forall t | 0 <= t < |a| ensures a[t] == b[t] {
      assert Prompt(c, t) == Prompt(d, t);
      assert a[t] == TeacherRow(model, c, t) && b[t] == TeacherRow(model, d, t);
    }
  }

  /** What is written before the first request, and how many rows that request is for. */
  function First(c: Case): seq<int>
    requires c.teachers != []
  {
    Prompt(c, if c.Prefill() then |c.teachers| - 1 else 0)
  }

  function Scored(c: Case): nat {
    if c.Prefill() then |c.teachers| else 1
  }

  lemma PromptGrows(c: Case, step: nat)
    requires 0 < step <= |c.teachers|
    ensures Prompt(c, step) == Prompt(c, step - 1) + [c.teachers[step - 1]]
  {
  }

  /** A row of a longer or padded array is the row of the tokens up to it. */
  lemma RowOfPrefix<Row(!new)>(model: Model<Row>, c: Case, tokens: seq<int>, t: nat)
    requires Causal(model) && c.initial != [] && t <= |c.teachers| && Prompt(c, t) <= tokens
    ensures model(tokens, |c.initial| + t - 1) == TeacherRow(model, c, t)
  {
    assert AgreeUpTo(tokens, Prompt(c, t), |c.initial| + t - 1);
  }

  /** The rows that one full call computes from the end of the prompt on are those of the targets. */
  lemma FullRows<Row(!new)>(model: Model<Row>, c: Case, tokens: seq<int>, output: seq<Row>)
    requires Causal(model) && Fits(c) && |tokens| == c.capacity == |output|
    requires tokens[..|First(c)|] == First(c)
    requires forall r | 0 <= r < |First(c)| :: output[r] == model(tokens, r)
    ensures RowsUpTo(model, c, output[|c.initial| - 1..|c.initial| - 1 + Scored(c)])
  {
    forall t | 0 <= t < Scored(c) ensures output[|c.initial| - 1 + t] == TeacherRow(model, c, t) {
      assert Prompt(c, t) <= First(c) <= tokens;
      RowOfPrefix(model, c, tokens, t);
    }
  }

  // ---------------------------------------------------------------------------
  // The engine
  // ---------------------------------------------------------------------------

  /** A context is initialized at most once, and from then on keeps the tokens it took in. */
  class Context {
    var taken: Option<seq<int>>

    constructor ()
      ensures taken == None
    {
      taken := None;
    }
  }

  datatype Scope = Evaluate | Initialize | Transition(position: nat)

  /** The mask shows exactly the first `n` tokens. */
  ghost predicate Shows(mask: seq<int>, n: nat) {
    forall k | 0 <= k < |mask| :: mask[k] == if k < n then 1 else 0
  }

  lemma ShowsOneMore(mask: seq<int>, n: nat)
    requires n < |mask| && Shows(mask, n)
    ensures Shows(mask[n := 1], n + 1)
  {
  }

  /** What a call may ask of a context. */
  ghost predicate Admits(context: Context, scope: Scope, tokens: seq<int>, mask: seq<int>, active: nat)
    reads context
  {
    && active <= |tokens| && |mask| == |tokens|
    && Shows(mask, if scope.Transition? then scope.position + 1 else active)
    && match scope
       case Evaluate => context.taken.None?
       case Initialize => context.taken.None?
       case Transition(position) => (
         context.taken.Some? && position == |context.taken.value| && position < |tokens|)
  }

  class Evaluator<Row(!new)> {
    const model: Model<Row>
    const unspecified: Row
    ghost var open: set<Context>

    constructor (model: Model<Row>, unspecified: Row)
      ensures this.model == model && open == {}
    {
      this.model, this.unspecified := model, unspecified;
      open := {};
    }

    /** A context takes much of the device's memory, so there must be no other; creating it may fail. */
    method CreateContext() returns (context: Option<Context>)
      requires open == {}
      modifies this
      ensures context.None? ==> open == {}
      ensures context.Some? ==> fresh(context.value) && open == {context.value} && context.value.taken == None
    {
      var failed: bool := *;
      if failed {
        return None;
      }
      var created := new Context();
      open := {created};
      return Some(created);
    }

    method ReleaseContext(context: Context)
      requires context in open
      modifies this
      ensures open == old(open) - {context}
    {
      open := open - {context};
    }

    /** One call; it may fail.  Rows that the scope does not compute are unspecified. */
    method Execute(context: Context, scope: Scope, tokens: seq<int>, mask: seq<int>, active: nat)
      returns (rows: Option<seq<Row>>)
      requires Admits(context, scope, tokens, mask, active)
      modifies context
      ensures rows.Some? ==> |rows.value| == |tokens|
      ensures rows.Some? && scope.Evaluate? ==> context.taken == old(context.taken)
      ensures rows.Some? && scope.Initialize? ==> context.taken == Some(tokens[..active])
      ensures rows.Some? && !scope.Transition? ==> forall r | 0 <= r < active :: rows.value[r] == model(tokens, r)
      ensures rows.Some? && scope.Transition? ==>
        && context.taken == Some(old(context.taken).value + [tokens[scope.position]])
        && rows.value[scope.position] == model(context.taken.value, scope.position)
    {
      var failed: bool := *;
      if failed {
        return None;
      }
      match scope {
        case Evaluate =>
          rows := Some(seq(|tokens|,
                           r requires 0 <= r < |tokens| => if r < active then model(tokens, r) else unspecified));
        case Initialize =>
          context.taken := Some(tokens[..active]);
          rows := Some(seq(|tokens|,
                           r requires 0 <= r < |tokens| => if r < active then model(tokens, r) else unspecified));
        case Transition(position) =>
          var taken := context.taken.value + [tokens[position]];
          context.taken := Some(taken);
          var row := model(taken, position);
          rows := Some(seq(|tokens|, r requires 0 <= r < |tokens| => if r == position then row else unspecified));
      }
    }

    /** The first request of a case: one full call over what is written, and the rows that it is for. */
    method FullCall(c: Case, context: Context, reuse: bool, tokens: seq<int>, mask: seq<int>)
      returns (rows: Option<seq<Row>>)
      requires Causal(model) && Fits(c) && |tokens| == c.capacity && context.taken.None?
      requires tokens[..|First(c)|] == First(c) && |mask| == c.capacity && Shows(mask, |First(c)|)
      modifies context
      ensures rows.Some? && reuse ==> context.taken.None?
      ensures rows.Some? && !reuse ==> context.taken == Some(First(c))
      ensures rows.Some? ==> |rows.value| == Scored(c) && RowsUpTo(model, c, rows.value)
    {
      var position := |c.initial| - 1;
      var output := Execute(context, if reuse then Evaluate else Initialize, tokens, mask, |First(c)|);
      if output.None? {
        return None;
      }
      FullRows(model, c, tokens, output.value);
      return Some(output.value[position..position + Scored(c)]);
    }

    /** A later request: writes the next teacher and takes it in. */
    method Advance(c: Case, context: Context, tokenIds: array<int>, mask: array<int>, step: nat)
      returns (row: Option<Row>)
      requires Fits(c) && tokenIds != mask && tokenIds.Length == mask.Length == c.capacity
      requires 0 < step < |c.teachers| && context.taken == Some(Prompt(c, step - 1))
      requires tokenIds[..|Prompt(c, step - 1)|] == Prompt(c, step - 1) && Shows(mask[..], |Prompt(c, step - 1)|)
      modifies context, tokenIds, mask
      ensures row.Some? ==> context.taken == Some(Prompt(c, step)) && tokenIds[..|Prompt(c, step)|] == Prompt(c, step)
      ensures row.Some? ==> Shows(mask[..], |Prompt(c, step)|)
      ensures row.Some? ==> row.value == TeacherRow(model, c, step)
    {
      var position := |c.initial| - 1 + step;
      tokenIds[position], mask[position] := c.teachers[step - 1], 1;
      assert tokenIds[..position + 1] == tokenIds[..position] + [c.teachers[step - 1]];
      PromptGrows(c, step);
      var output := Execute(context, Transition(position), tokenIds[..], mask[..], |c.initial|);
      if output.None? {
        return None;
      }
      return Some(output.value[position]);
    }

    /** The token and mask arrays of a case before its first request. */
    method Arrays(c: Case) returns (tokenIds: array<int>, mask: array<int>)
      requires Fits(c)
      ensures fresh(tokenIds) && fresh(mask) && tokenIds != mask && tokenIds.Length == mask.Length == c.capacity
      ensures tokenIds[..|First(c)|] == First(c) && Shows(mask[..], |First(c)|)
    {
      var prefix := First(c);
      tokenIds := new int[c.capacity](_ => 0);
      mask := new int[c.capacity](_ => 0);
      for k := 0 to |prefix|
        invariant tokenIds[..k] == prefix[..k] && Shows(mask[..], k)
      {
        ghost var written, shown := tokenIds[..k], mask[..];
        ShowsOneMore(shown, k);
        tokenIds[k], mask[k] := prefix[k], 1;
        assert mask[..] == shown[k := 1];
        assert tokenIds[..k + 1] == written + [prefix[k]] == prefix[..k + 1];
      }
    }

    /** The rows of one case, in one call or in one per target. */
    method EvaluateCase(c: Case, context: Context, reuse: bool) returns (result: Option<seq<Row>>)
      requires Causal(model) && Fits(c) && context.taken.None? && (reuse ==> c.Prefill())
      modifies context
      ensures result.Some? ==> AreTeacherRows(model, c, result.value)
      ensures result.Some? && reuse ==> context.taken.None?
    {
      var tokenIds, mask := Arrays(c);
      result := FullCall(c, context, reuse, tokenIds[..], mask[..]);
      if result.None? || c.Prefill() {
        return result;
      }
      var rows := result.value;
      for step := 1 to |c.teachers|
        invariant context.taken == Some(Prompt(c, step - 1))
        invariant tokenIds[..|Prompt(c, step - 1)|] == Prompt(c, step - 1) && Shows(mask[..], |Prompt(c, step - 1)|)
        invariant |rows| == step && RowsUpTo(model, c, rows)
      {
        var row := Advance(c, context, tokenIds, mask, step);
        if row.None? {
          return None;
        }
        rows := rows + [row.value];
      }
      return Some(rows);
    }

    /** Evaluates a text by prefill and step by step, and gets the same rows. */
    method EvaluateInBothModes(c: Case) returns (prefilled: Option<seq<Row>>, stepped: Option<seq<Row>>)
      requires Causal(model) && Fits(c) && open == {}
      modifies this
      ensures open == {}
      ensures prefilled.Some? ==> AreTeacherRows(model, c, prefilled.value)
      ensures prefilled.Some? && stepped.Some? ==> stepped.value == prefilled.value
    {
      var full, single := c.(execution := Some("prefill")), c.(execution := Some("incremental"));
      prefilled, stepped := None, None;
      var context := CreateContext();
      if context.Some? {
        prefilled := EvaluateCase(full, context.value, false);
        ReleaseContext(context.value);
      }
      context := CreateContext();
      if context.Some? {
        stepped := EvaluateCase(single, context.value, false);
        ReleaseContext(context.value);
      }
      if prefilled.Some? {
        SameRows(model, full, c, prefilled.value);
        if stepped.Some? {
          TeacherRowsAreUnique(model, full, single, prefilled.value, stepped.value);
        }
      }
    }

    /** Between two cases the only context there can be is the shared one, which was never initialized. */
    ghost predicate Between(shared: Option<Context>)
      reads this, set c | c in open
    {
      match shared
      case None => open == {}
      case Some(context) => open == {context} && context.taken.None?
    }

    /**
     The context of a case: the shared one for prefill, if contexts are shared, and else a
     fresh one.  If it cannot be created no context stays open.
     */
    method ContextFor(c: Case, shared: Option<Context>, reusePrefill: bool)
      returns (context: Option<Context>, still: Option<Context>)
      requires Between(shared)
      modifies this
      ensures context.None? ==> open == {} && still.None?
      ensures context.None? ==> shared.None? || !c.Prefill()
      ensures context.Some? ==> open == {context.value} && context.value.taken.None?
      ensures context.Some? ==> fresh(context.value) || (c.Prefill() && shared == context)
      ensures context.Some? ==> still == if c.Prefill() && (reusePrefill || shared.Some?) then context else None
    {
      still := shared;
      if !c.Prefill() && still.Some? {
        ReleaseContext(still.value);
        still := None;
      }
      if c.Prefill() && reusePrefill && still.None? {
        context := CreateContext();
        still := context;
      } else if c.Prefill() && still.Some? {
        context := still;
      } else {
        context := CreateContext();
      }
    }

    /**
     All cases in order, or nothing if one of them is invalid, a context cannot be
     created or a call fails.  There
     is never more than one open context, every call asks only for what its context
     can do, and in the end no context is open, however the evaluation ends.
     */
    method EvaluateCases(cases: seq<Case>, vocabulary: int, graphCapacity: Option<int>, reusePrefill: bool)
      returns (results: Option<seq<seq<Row>>>)
      requires Causal(model) && open == {}
      modifies this
      ensures open == {}
      ensures results.Some? ==> |results.value| == |cases|
      ensures results.Some? ==> forall k | 0 <= k < |cases| ::
        Fits(cases[k]) && AreTeacherRows(model, cases[k], results.value[k])
    {
      var valid := ValidateCases(cases, vocabulary, graphCapacity);
      if !valid {
        return None;
      }
      forall i | 0 <= i < |cases| ensures Fits(cases[i]) {
        assert ValidCase(cases[i], vocabulary, graphCapacity);
      }
      var shared: Option<Context> := None;
      var rows: seq<seq<Row>> := [];
      for k := 0 to |cases|
        invariant Between(shared) && (forall c | c in open :: fresh(c))
        invariant |rows| == k
        invariant forall i | 0 <= i < k :: AreTeacherRows(model, cases[i], rows[i])
      {
        var created;
        created, shared := ContextFor(cases[k], shared, reusePrefill);
        if created.None? {
          return None;
        }
        var context := created.value;
        var row := EvaluateCase(cases[k], context, shared.Some?);
        if shared.None? || row.None? {
          ReleaseContext(context);
        }
        if row.None? {
          return None;
        }
        rows := rows + [row.value];
      }
      if shared.Some? {
        ReleaseContext(shared.value);
      }
      return Some(rows);
    }
  }
}
