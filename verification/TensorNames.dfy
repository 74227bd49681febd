/**
 Short, unique, portable names for the tensors of an exported graph.

 A name is made from a preferred text or a counter, cut down to portable
 characters, and numbered until it is free.  One original always gets one name,
 and no two originals get the same one.
 */
module TensorNames {
  import opened Decimals

  const MAX_BASE: nat := 96

  // ---------------------------------------------------------------------------
  // Candidates
  // ---------------------------------------------------------------------------

  predicate IsNameChar(c: char) {
    'A' <= c <= 'Z' || 'a' <= c <= 'z' || IsDigit(c) || c == '_' || c == '.' || c == '-'
  }

  predicate AllNameChars(text: string) {
    forall k | 0 <= k < |text| :: IsNameChar(text[k])
  }

  predicate IsPortable(name: string) {
    name != "" && AllNameChars(name)
  }

  /** Every run of other characters becomes one underscore. */
  function Collapse(text: string, inRun: bool): (r: string)
    ensures AllNameChars(r)
  {
    if text == "" then ""
    else if IsNameChar(text[0]) then [text[0]] + Collapse(text[1..], false)
    else if inRun then Collapse(text[1..], true)
    else "_" + Collapse(text[1..], true)
  }

  predicate IsMarginal(c: char) {
    c == '.' || c == '_' || c == '-'
  }

  function StripLeft(text: string): (r: string)
    ensures |r| <= |text| && (AllNameChars(text) ==> AllNameChars(r))
  {
    if text != "" && IsMarginal(text[0]) then StripLeft(text[1..]) else text
  }

  function StripRight(text: string): (r: string)
    ensures |r| <= |text| && (AllNameChars(text) ==> AllNameChars(r))
  {
    if text != "" && IsMarginal(text[|text| - 1]) then StripRight(text[..|text| - 1]) else text
  }

  function Base(text: string): (base: string)
    ensures IsPortable(base) && |base| <= MAX_BASE
  {
    var collapsed := Collapse(text, false);
    var cut := if |collapsed| > MAX_BASE then collapsed[..MAX_BASE] else collapsed;
    var stripped := StripRight(StripLeft(cut));
    if stripped == "" then "t" else stripped
  }

  /** The characters that names are made of. */
  predicate IsKept(c: char) {
    'A' <= c <= 'Z' || 'a' <= c <= 'z' || '0' <= c <= '9' || c in "_.-"
  }

  lemma {:induction false} KeptStay(text: string, inRun: bool)
    requires forall k | 0 <= k < |text| :: IsKept(text[k])
    ensures Collapse(text, inRun) == text
  {
    if text != "" {
      KeptStay(text[1..], false);
    }
  }

  lemma {:induction false} RunEnds(run: string, rest: string, inRun: bool)
    requires (forall k | 0 <= k < |run| :: !IsKept(run[k])) && (rest != "" ==> IsKept(rest[0]))
    ensures Collapse(run + rest, inRun) == (if run == "" || inRun then "" else "_") + Collapse(rest, false)
  {
    if run == "" {
      assert run + rest == rest;
    } else {
      assert (run + rest)[1..] == run[1..] + rest;
      RunEnds(run[1..], rest, true);
    }
  }

  lemma Regroup(a: string, b: string, c: string, d: string)
    ensures a + (b + c + d) == (a + b) + c + d
  {
  }

  lemma {:induction false} CollapseStep(c: char, rest: string, inRun: bool)
    ensures Collapse([c] + rest, inRun) ==
      (if IsKept(c) then [c] else if inRun then "" else "_") + Collapse(rest, !IsKept(c))
  {
    assert ([c] + rest)[1..] == rest;
  }

  /** A run of other characters becomes one underscore, and what is around it is as without it. */
  lemma {:induction false} RunBecomesUnderscore(before: string, run: string, after: string, inRun: bool)
    requires run != "" && forall k | 0 <= k < |run| :: !IsKept(run[k])
    requires (before != "" ==> IsKept(before[|before| - 1])) && (after != "" ==> IsKept(after[0]))
    requires before == "" ==> !inRun
    ensures Collapse(before + run + after, inRun) == Collapse(before, inRun) + "_" + Collapse(after, false)
  {
    if before == "" {
      assert before + run + after == run + after;
      RunEnds(run, after, false);
    } else {
      var c, more, now := before[0], before[1..], !IsKept(before[0]);
      var first := if IsKept(c) then [c] else if inRun then "" else "_";
      assert before == [c] + more;
      Regroup([c], more, run, after);
      CollapseStep(c, more, inRun);
      CollapseStep(c, more + run + after, inRun);
      RunBecomesUnderscore(more, run, after, now);
      Regroup(first, Collapse(more, now), "_", Collapse(after, false));
    }
  }

  /** The characters that no base begins or ends with. */
  predicate IsEdge(c: char) {
    c == '.' || c == '_' || c == '-'
  }

  ghost predicate AllEdges(text: string) {
    forall k | 0 <= k < |text| :: IsEdge(text[k])
  }

  lemma EdgeInFront(c: char, text: string)
    requires IsEdge(c) && AllEdges(text)
    ensures AllEdges([c] + text) && AllEdges(text + [c])
  {
  }

  lemma Shift(a: string, b: string, c: string)
    ensures a + (b + c) == (a + b) + c
  {
  }

  lemma {:induction false} LeftIsMarginal(text: string) returns (left: string)
    ensures text == left + StripLeft(text) && AllEdges(left)
    ensures StripLeft(text) != "" ==> !IsEdge(StripLeft(text)[0])
  {
    left := "";
    if text != "" && IsEdge(text[0]) {
      var c, rest := text[0], text[1..];
      var more := LeftIsMarginal(rest);
      left := [c] + more;
      EdgeInFront(c, more);
      assert text == [c] + rest;
      Shift([c], more, StripLeft(rest));
    }
  }

  lemma {:induction false} RightIsMarginal(text: string) returns (right: string)
    ensures text == StripRight(text) + right && AllEdges(right)
    ensures StripRight(text) != "" ==> !IsEdge(StripRight(text)[|StripRight(text)| - 1])
  {
    right := "";
    if text != "" && IsEdge(text[|text| - 1]) {
      var c, rest := text[|text| - 1], text[..|text| - 1];
      var more := RightIsMarginal(rest);
      right := more + [c];
      EdgeInFront(c, more);
      assert text == rest + [c];
      Shift(StripRight(rest), more, [c]);
    }
  }

  lemma Trimmed(text: string, left: string, middle: string, rest: string, right: string)
    requires text == left + middle && middle == rest + right
    ensures text == left + rest + right && (rest != "" ==> rest[0] == middle[0])
  {
  }

  /** A base is the first 96 characters without the edges around them, and `t` if nothing else is there. */
  lemma {:induction false} BaseMeans(text: string) returns (left: string, rest: string, right: string)
    ensures var collapsed := Collapse(text, false);
      left + rest + right == if |collapsed| > 96 then collapsed[..96] else collapsed
    ensures AllEdges(left) && AllEdges(right)
    ensures rest != "" ==> !IsEdge(rest[0]) && !IsEdge(rest[|rest| - 1])
    ensures Base(text) == if rest == "" then "t" else rest
  {
    var collapsed := Collapse(text, false);
    var cut := if |collapsed| > 96 then collapsed[..96] else collapsed;
    var middle := StripLeft(cut);
    rest := StripRight(middle);
    left := LeftIsMarginal(cut);
    right := RightIsMarginal(middle);
    Trimmed(cut, left, middle, rest, right);
  }

  /** The names tried for a base, in order: the base, then with `_2`, `_3` and so on behind it. */
  function Candidate(base: string, n: nat): string {
    if n <= 1 then base else base + "_" + Decimal(n)
  }

  lemma CandidatesDiffer(base: string, m: nat, n: nat)
    requires 1 <= m < n
    ensures Candidate(base, m) != Candidate(base, n)
  {
    if m > 1 && Candidate(base, m) == Candidate(base, n) {
      assert Candidate(base, m)[|base| + 1..] == Decimal(m) && Candidate(base, n)[|base| + 1..] == Decimal(n);
      DecimalIsInjective(m, n);
    }
  }

  ghost function Tried(base: string, n: nat): set<string> {
    if n == 0 then {} else Tried(base, n - 1) + {Candidate(base, n)}
  }

  lemma {:induction false} TriedIsCandidates(base: string, n: nat, name: string)
    ensures name in Tried(base, n) <==> exists k :: 1 <= k <= n && name == Candidate(base, k)
  {
    if n == 0 {
    } else {
      TriedIsCandidates(base, n - 1, name);
    }
  }

  /** So many candidates are so many names. */
  lemma {:induction false} TriedCount(base: string, n: nat)
    ensures |Tried(base, n)| == n
  {
    if n == 0 {
    } else {
      TriedCount(base, n - 1);
      TriedIsCandidates(base, n - 1, Candidate(base, n));
      forall k | 1 <= k < n ensures Candidate(base, k) != Candidate(base, n) {
        CandidatesDiffer(base, k, n);
      }
    }
  }

  /** The name is a candidate that is not taken, while all before it are. */
  ghost predicate IsFirstFree(used: set<string>, base: string, name: string) {
    name !in used && exists n: nat :: 1 <= n && name == Candidate(base, n) && Tried(base, n - 1) <= used
  }

  /** If the base itself is free, it is the name. */
  lemma FreeBaseIsName(used: set<string>, base: string, name: string)
    requires IsFirstFree(used, base, name) && base !in used
    ensures name == base
  {
    var n: nat :| 1 <= n && name == Candidate(base, n) && Tried(base, n - 1) <= used;
    assert base == Candidate(base, 1);
    if n > 1 {
      TriedIsCandidates(base, n - 1, base);
    }
  }

  lemma SubsetCount<T>(a: set<T>, b: set<T>)
    requires a <= b
    ensures |a| <= |b|
  {
    assert b == a + (b - a) && a !! (b - a);
  }

  /** Only finitely many candidates can be taken. */
  lemma TriedFits(base: string, n: nat, used: set<string>)
    requires Tried(base, n) <= used
    ensures n <= |used|
  {
    TriedCount(base, n);
    SubsetCount(Tried(base, n), used);
  }

  // ---------------------------------------------------------------------------
  // The table of names
  // ---------------------------------------------------------------------------

  ghost predicate NamesFit(names: map<string, string>, used: set<string>) {
    && (forall a, b | a in names && b in names && names[a] == names[b] :: a == b)
    && (forall original | original in names :: names[original] in used && IsPortable(names[original]))
    && (forall name | name in used :: name in names.Values)
  }

  lemma NewNameFits(names: map<string, string>, used: set<string>, original: string, name: string)
    requires NamesFit(names, used) && original !in names && name !in used && IsPortable(name)
    ensures NamesFit(names[original := name], used + {name})
  {
    var more := names[original := name];
    forall taken | taken in used + {name} ensures taken in more.Values {
      var key :| if taken == name then key == original else key in names && names[key] == taken;
      assert more[key] == taken;
    }
  }

  class Names {
    var nameMap: map<string, string>
    var used: set<string>
    var nextTemporary: nat
    var nextWeight: nat

    /** No two originals have the same name, and exactly the names given are used up. */
    ghost predicate Valid()
      reads `nameMap, `used
    {
      NamesFit(nameMap, used)
    }

    constructor ()
      ensures Valid() && nameMap == map[]
    {
      nameMap, used, nextTemporary, nextWeight := map[], {}, 0, 0;
    }

    /** What the next name is made from: the preference, or the next number of its series. */
    function NextText(preferred: string, weight: bool): string
      reads `nextWeight, `nextTemporary
    {
      if preferred != "" then preferred
      else if weight then "w" + Decimal(nextWeight)
      else "v" + Decimal(nextTemporary)
    }

    /**
     The name of an original: the one it has, or the first free candidate.  An empty
     preference is none.
     */
    method Short(original: string, preferred: string, weight: bool) returns (name: string)
      requires Valid()
      modifies this
      ensures Valid()
      ensures original in old(nameMap) ==> nameMap == old(nameMap) && name == nameMap[original]
      ensures original !in old(nameMap) ==> nameMap == old(nameMap)[original := name] && name !in old(used)
      ensures original !in old(nameMap) ==>
        IsFirstFree(old(used), Base(old(NextText(preferred, weight))), name)
      ensures nextWeight == old(nextWeight) + if original !in old(nameMap) && preferred == "" && weight then 1 else 0
      ensures nextTemporary
              == old(nextTemporary) + if original !in old(nameMap) && preferred == "" && !weight then 1 else 0
    {
      if original in nameMap {
        return nameMap[original];
      }
      var text := Proposal(preferred, weight);
      name := Assign(original, Base(text));
    }

    method Proposal(preferred: string, weight: bool) returns (text: string)
      modifies `nextWeight, `nextTemporary
      ensures text == old(NextText(preferred, weight))
      ensures nextWeight == old(nextWeight) + if preferred == "" && weight then 1 else 0
      ensures nextTemporary == old(nextTemporary) + if preferred == "" && !weight then 1 else 0
    {
      if preferred != "" {
        text := preferred;
      } else if weight {
        text := "w" + Decimal(nextWeight);
        nextWeight := nextWeight + 1;
      } else {
        text := "v" + Decimal(nextTemporary);
        nextTemporary := nextTemporary + 1;
      }
    }

    method Assign(original: string, base: string) returns (name: string)
      requires Valid() && original !in nameMap && IsPortable(base)
      modifies `nameMap, `used
      ensures Valid() && nameMap == old(nameMap)[original := name] && name !in old(used)
      ensures IsFirstFree(old(used), base, name)
    {
      name := FirstFree(base);
      NewNameFits(nameMap, used, original, name);
      used := used + {name};
      nameMap := nameMap[original := name];
    }

    method FirstFree(base: string) returns (candidate: string)
      requires IsPortable(base)
      ensures candidate !in used && IsPortable(candidate) && IsFirstFree(used, base, candidate)
    {
      candidate := base;
      var suffix: nat := 1;
      while candidate in used
        invariant 1 <= suffix && candidate == Candidate(base, suffix) && IsPortable(candidate)
        invariant Tried(base, suffix - 1) <= used
        decreases |used| + 1 - suffix
      {
        TriedFits(base, suffix, used);
        suffix := suffix + 1;
        candidate := base + "_" + Decimal(suffix);
        DecimalIsDigits(suffix);
      }
    }
  }
}
