/**
 Packing compiled shaders: which source a compiled shader belongs to, and where in
 which block its bytes are.  Blocks are modelled before their compression.
 */
module ShaderPack {
  import opened Bytes
  import opened ByteStrings
  import opened Results
  import opened Sorting

  // ---------------------------------------------------------------------------
  // The source of a compiled shader
  // ---------------------------------------------------------------------------

  datatype Source = Source(path: seq<Byte>, stem: seq<Byte>)

  const UNDERSCORE: Byte := 95

  datatype SourceError = NoSource | ManySources

  /** The compiled name is the source's, or goes on after it with an underscore. */
  predicate Matches(source: Source, stem: seq<Byte>) {
    stem == source.stem || source.stem + [UNDERSCORE] <= stem
  }

  ghost predicate UniqueStems(sources: seq<Source>) {
    forall i, j | 0 <= i < j < |sources| :: sources[i].stem != sources[j].stem
  }

  /** The paths of the sources with this stem, in order. */
  function PathsOf(sources: seq<Source>, stem: seq<Byte>): seq<seq<Byte>> {
    if sources == [] then []
    else
      var last := sources[|sources| - 1];
      PathsOf(sources[..|sources| - 1], stem) + if last.stem == stem then [last.path] else []
  }

  lemma {:induction false} PathsAreThere(sources: seq<Source>, stem: seq<Byte>)
    ensures PathsOf(sources, stem) != [] <==> exists i :: 0 <= i < |sources| && sources[i].stem == stem
  {
    if sources == [] {
    } else {
      var n := |sources| - 1;
      var front := sources[..n];
      PathsAreThere(front, stem);
      if PathsOf(front, stem) != [] {
        var i :| 0 <= i < n && front[i].stem == stem;
        assert sources[i].stem == stem;
      } else if sources[n].stem != stem {
        forall i | 0 <= i < |sources| ensures sources[i].stem != stem {
          assert i < n ==> front[i] == sources[i];
        }
      }
    }
  }

  lemma PathsWithOneMore(sources: seq<Source>, last: Source, stem: seq<Byte>)
    ensures PathsOf(sources + [last], stem) == PathsOf(sources, stem) + if last.stem == stem then [last.path] else []
  {
    assert (sources + [last])[..|sources|] == sources;
  }

  lemma UniqueWithOneMore(sources: seq<Source>, last: Source)
    ensures UniqueStems(sources + [last]) <==> UniqueStems(sources) && PathsOf(sources, last.stem) == []
  {
    var all := sources + [last];
    PathsAreThere(sources, last.stem);
    if UniqueStems(all) {
      forall i, j | 0 <= i < j < |sources| ensures sources[i].stem != sources[j].stem {
        assert all[i].stem != all[j].stem;
      }
      forall i | 0 <= i < |sources| ensures sources[i].stem != last.stem {
        assert all[i].stem != all[|sources|].stem;
      }
    }
  }

  ghost predicate OnePathEach(sources: seq<Source>) {
    forall stem :: |PathsOf(sources, stem)| <= 1
  }

  lemma OneEachWithOneMore(sources: seq<Source>, last: Source)
    ensures OnePathEach(sources + [last]) <==> OnePathEach(sources) && PathsOf(sources, last.stem) == []
  {
    var all := sources + [last];
    forall stem ensures |PathsOf(all, stem)| == |PathsOf(sources, stem)| + if last.stem == stem then 1 else 0 {
      PathsWithOneMore(sources, last, stem);
    }
    if OnePathEach(all) {
      forall stem ensures |PathsOf(sources, stem)| <= if last.stem == stem then 0 else 1 {
        assert |PathsOf(all, stem)| <= 1;
      }
      assert |PathsOf(sources, last.stem)| == 0;
    }
  }

  /** Stems are unique exactly when none has two paths. */
  lemma {:induction false} UniqueMeansOnePath(sources: seq<Source>)
    ensures UniqueStems(sources) <==> OnePathEach(sources)
  {
    if sources == [] {
    } else {
      var before, last := sources[..|sources| - 1], sources[|sources| - 1];
      assert sources == before + [last];
      UniqueMeansOnePath(before);
      UniqueWithOneMore(before, last);
      OneEachWithOneMore(before, last);
    }
  }

  method PathsByStem(sources: seq<Source>) returns (byStem: map<seq<Byte>, seq<seq<Byte>>>)
    ensures forall stem :: stem in byStem <==> PathsOf(sources, stem) != []
    ensures forall stem | stem in byStem :: byStem[stem] == PathsOf(sources, stem)
  {
    byStem := map[];
    for k := 0 to |sources|
      invariant forall stem :: stem in byStem <==> PathsOf(sources[..k], stem) != []
      invariant forall stem | stem in byStem :: byStem[stem] == PathsOf(sources[..k], stem)
    {
      assert sources[..k + 1][..k] == sources[..k];
      var source := sources[k];
      byStem := byStem[source.stem := (if source.stem in byStem then byStem[source.stem] else []) + [source.path]];
    }
    assert sources[..|sources|] == sources;
  }

  /** The stems that several sources share, with their paths; none are left exactly when stems are unique. */
  method SharedStems(sources: seq<Source>) returns (duplicates: map<seq<Byte>, seq<seq<Byte>>>)
    ensures duplicates == map[] <==> UniqueStems(sources)
    ensures forall stem :: stem in duplicates <==> |PathsOf(sources, stem)| > 1
    ensures forall stem | stem in duplicates :: duplicates[stem] == PathsOf(sources, stem)
  {
    var byStem := PathsByStem(sources);
    duplicates := map stem | stem in byStem && |byStem[stem]| > 1 :: byStem[stem];
    UniqueMeansOnePath(sources);
    forall stem ensures stem in duplicates <==> |PathsOf(sources, stem)| > 1 {
    }
    if duplicates == map[] {
      forall stem ensures |PathsOf(sources, stem)| <= 1 {
        assert stem !in duplicates;
      }
    } else {
      var stem :| stem in duplicates;
      assert |PathsOf(sources, stem)| > 1;
    }
  }

  function Matching(sources: seq<Source>, stem: seq<Byte>): seq<Source> {
    if sources == [] then []
    else
      var before, last := Matching(sources[..|sources| - 1], stem), sources[|sources| - 1];
      if Matches(last, stem) then before + [last] else before
  }

  function Longest(sources: seq<Source>): nat {
    if sources == [] then 0
    else
      var before, last := Longest(sources[..|sources| - 1]), |sources[|sources| - 1].stem|;
      if last > before then last else before
  }

  function OfLength(sources: seq<Source>, n: nat): seq<Source> {
    if sources == [] then []
    else
      var before, last := OfLength(sources[..|sources| - 1], n), sources[|sources| - 1];
      if |last.stem| == n then before + [last] else before
  }

  /** The matching sources with the longest names. */
  function Best(sources: seq<Source>, stem: seq<Byte>): seq<Source> {
    OfLength(Matching(sources, stem), Longest(Matching(sources, stem)))
  }

  /** The one source with the longest name that matches. */
  function SourceFor(sources: seq<Source>, stem: seq<Byte>): Result<Source, SourceError> {
    var matching := Matching(sources, stem);
    var best := Best(sources, stem);
    if matching == [] then Err(NoSource)
    else if |best| != 1 then Err(ManySources)
    else Ok(best[0])
  }

  lemma {:induction false} MatchingAre(sources: seq<Source>, stem: seq<Byte>)
    ensures forall s :: s in Matching(sources, stem) <==> s in sources && Matches(s, stem)
    ensures UniqueStems(sources) ==> UniqueStems(Matching(sources, stem))
  {
    if sources == [] {
    } else {
      var n := |sources| - 1;
      MatchingAre(sources[..n], stem);
      assert sources == sources[..n] + [sources[n]];
      AppendKeepsStems(sources[..n], sources[n], Matching(sources[..n], stem));
    }
  }

  /** Stems that differ in a list differ among some of its sources with one more. */
  lemma AppendKeepsStems(sources: seq<Source>, last: Source, some: seq<Source>)
    requires forall s | s in some :: s in sources
    requires UniqueStems(sources) ==> UniqueStems(some)
    ensures UniqueStems(sources + [last]) ==> UniqueStems(sources) && UniqueStems(some + [last])
  {
    var all := sources + [last];
    if UniqueStems(all) {
      forall i, j | 0 <= i < j < |sources| ensures sources[i].stem != sources[j].stem {
        assert all[i].stem != all[j].stem;
      }
      forall i | 0 <= i < |some| ensures some[i].stem != last.stem {
        assert some[i] in sources;
        var k :| 0 <= k < |sources| && sources[k] == some[i];
        assert all[k].stem != all[|sources|].stem;
      }
    }
  }

  lemma {:induction false} LongestIs(sources: seq<Source>)
    ensures forall s | s in sources :: |s.stem| <= Longest(sources)
    ensures sources != [] ==> exists s :: s in sources && |s.stem| == Longest(sources)
  {
    if sources == [] {
    } else {
      var n := |sources| - 1;
      LongestIs(sources[..n]);
      assert sources == sources[..n] + [sources[n]];
      assert sources[n] in sources;
    }
  }

  lemma {:induction false} OfLengthAre(sources: seq<Source>, n: nat)
    ensures forall s :: s in OfLength(sources, n) <==> s in sources && |s.stem| == n
    ensures UniqueStems(sources) ==> UniqueStems(OfLength(sources, n))
  {
    if sources == [] {
    } else {
      var k := |sources| - 1;
      OfLengthAre(sources[..k], n);
      assert sources == sources[..k] + [sources[k]];
      AppendKeepsStems(sources[..k], sources[k], OfLength(sources[..k], n));
    }
  }

  /** Names that match one compiled name and are equally long are equal. */
  lemma SameLengthSameStem(a: Source, b: Source, stem: seq<Byte>)
    requires Matches(a, stem) && Matches(b, stem) && |a.stem| == |b.stem|
    ensures a.stem == b.stem
  {
    assert a.stem == stem[..|a.stem|] && b.stem == stem[..|b.stem|];
  }

  lemma BestAre(sources: seq<Source>, stem: seq<Byte>)
    ensures var longest := Longest(Matching(sources, stem));
      && (forall s :: s in Best(sources, stem) <==> s in sources && Matches(s, stem) && |s.stem| == longest)
      && (forall s | s in sources && Matches(s, stem) :: |s.stem| <= longest)
    ensures Matching(sources, stem) != [] ==> Best(sources, stem) != []
  {
    MatchingAre(sources, stem);
    LongestIs(Matching(sources, stem));
    OfLengthAre(Matching(sources, stem), Longest(Matching(sources, stem)));
  }

  lemma BestIsOne(sources: seq<Source>, stem: seq<Byte>)
    requires UniqueStems(sources) && Matching(sources, stem) != []
    ensures |Best(sources, stem)| == 1
  {
    var best := Best(sources, stem);
    MatchingAre(sources, stem);
    OfLengthAre(Matching(sources, stem), Longest(Matching(sources, stem)));
    BestAre(sources, stem);
    if |best| > 1 {
      assert best[0] in best && best[1] in best;
      SameLengthSameStem(best[0], best[1], stem);
    }
  }

  lemma OnlyBest(best: seq<Source>, s: Source)
    requires |best| == 1 && s != best[0]
    ensures s !in best
  {
  }

  /**
   With unique source names a tie cannot occur: a compiled shader has a source exactly
   when one matches, and it is the matching source with the longest name.
   */
  lemma TieIsUnreachable(sources: seq<Source>, stem: seq<Byte>)
    requires UniqueStems(sources)
    ensures SourceFor(sources, stem) != Err(ManySources)
    ensures SourceFor(sources, stem).Ok? <==> exists s :: s in sources && Matches(s, stem)
    ensures SourceFor(sources, stem).Ok? ==>
      var found := SourceFor(sources, stem).value;
      && found in sources && Matches(found, stem)
      && forall s | s in sources && Matches(s, stem) && s != found :: |s.stem| < |found.stem|
  {
    MatchingAre(sources, stem);
    BestAre(sources, stem);
    if Matching(sources, stem) == [] {
    } else {
      BestIsOne(sources, stem);
      var found := Best(sources, stem)[0];
      assert Matching(sources, stem)[0] in Matching(sources, stem) && found in Best(sources, stem);
      forall s | s in sources && Matches(s, stem) && s != found ensures |s.stem| < |found.stem| {
        OnlyBest(Best(sources, stem), s);
      }
    }
  }

  // ---------------------------------------------------------------------------
  // Blocks and records
  // ---------------------------------------------------------------------------

  const ALIGNMENT: nat := 4
  const MAX_U32: nat := 0xFFFF_FFFF

  /** A block is for one backend and one scope. */
  datatype Group = Group(backend: nat, scope: nat)

  datatype Artifact = Artifact(path: seq<Byte>, group: Group, data: seq<Byte>)

  datatype Record = Record(path: seq<Byte>, block: nat, offset: nat, size: nat)

  datatype Pack = Pack(blocks: seq<seq<Byte>>, records: seq<Record>)

  predicate ArtifactLeq(a: Artifact, b: Artifact) {
    LexLeq(a.path, b.path)
  }

  predicate RecordLeq(a: Record, b: Record) {
    LexLeq(a.path, b.path)
  }

  function InGroup(artifacts: seq<Artifact>, g: Group): seq<Artifact> {
    if artifacts == [] then []
    else
      var before, last := InGroup(artifacts[..|artifacts| - 1], g), artifacts[|artifacts| - 1];
      if last.group == g then before + [last] else before
  }

  function Zeros(n: nat): (r: seq<Byte>)
    ensures |r| == n
  {
    seq(n, _ => 0)
  }

  /** The bytes of the block so far, filled up to the alignment. */
  function Fill(payload: seq<Byte>): (r: seq<Byte>)
    ensures |r| % ALIGNMENT == 0 && payload <= r
  {
    payload + Zeros((ALIGNMENT - |payload| % ALIGNMENT) % ALIGNMENT)
  }

  /** The bytes laid out for the first `n` members. */
  function Payload(members: seq<Artifact>, n: nat): (r: seq<Byte>)
    requires n <= |members|
    ensures |r| % ALIGNMENT == 0
  {
    if n == 0 then [] else Fill(Payload(members, n - 1) + members[n - 1].data)
  }

  function Block(members: seq<Artifact>): seq<Byte> {
    Payload(members, |members|)
  }

  function RecordOf(members: seq<Artifact>, block: nat, k: nat): Record
    requires k < |members|
  {
    Record(members[k].path, block, |Payload(members, k)|, |members[k].data|)
  }

  /** One record for each member. */
  function Records(members: seq<Artifact>, block: nat): (r: seq<Record>)
    ensures |r| == |members|
    ensures forall k | 0 <= k < |members| :: r[k] == RecordOf(members, block, k)
  {
    seq(|members|, k requires 0 <= k < |members| => RecordOf(members, block, k))
  }

  /** The members of a group, as they are laid out. */
  function Members(artifacts: seq<Artifact>, g: Group): seq<Artifact> {
    Sort(InGroup(artifacts, g), ArtifactLeq)
  }

  method PackBlock(members: seq<Artifact>, block: nat) returns (r: Option<(seq<Byte>, seq<Record>)>)
    ensures r.Some? <==> |Block(members)| <= MAX_U32
    ensures r.Some? ==> r.value == (Block(members), Records(members, block))
  {
    var payload: seq<Byte>, records: seq<Record> := [], [];
    for k := 0 to |members|
      invariant payload == Payload(members, k)
      invariant |records| == k && forall i | 0 <= i < k :: records[i] == RecordOf(members, block, i)
    {
      PayloadGrows(members, k, |members|);
      if |payload| > MAX_U32 || |members[k].data| > MAX_U32 {
        return None;
      }
      records := records + [Record(members[k].path, block, |payload|, |members[k].data|)];
      payload := Fill(payload + members[k].data);
    }
    if |payload| > MAX_U32 {
      return None;
    }
    assert records == Records(members, block);
    return Some((payload, records));
  }

  lemma PrefixIsTransitive<T>(a: seq<T>, b: seq<T>, c: seq<T>)
    requires a <= b <= c
    ensures a <= c
  {
  }

  /** One more member is laid out behind those before it. */
  lemma PayloadStep(members: seq<Artifact>, n: nat)
    requires n < |members|
    ensures Payload(members, n) <= Payload(members, n) + members[n].data <= Payload(members, n + 1)
  {
  }

  /** The bytes laid out for the first members, and then for the next one, begin every longer layout. */
  lemma {:induction false} PayloadGrows(members: seq<Artifact>, k: nat, n: nat)
    requires k < n <= |members|
    ensures Payload(members, k) + members[k].data <= Payload(members, n)
  {
    PayloadStep(members, n - 1);
    if k < n - 1 {
      var front, last := Payload(members, k) + members[k].data, Payload(members, n - 1);
      PayloadGrows(members, k, n - 1);
      PrefixIsTransitive(front, last, last + members[n - 1].data);
      PrefixIsTransitive(front, last + members[n - 1].data, Payload(members, n));
    }
  }

  /** Each record is aligned and in bounds, and slicing its block gives back the bytes of its artifact. */
  lemma RecordGivesBytes(members: seq<Artifact>, block: nat, k: nat)
    requires k < |members|
    ensures var r := Records(members, block)[k];
      && r.path == members[k].path && r.block == block
      && r.offset % ALIGNMENT == 0 && r.offset + r.size <= |Block(members)|
      && Block(members)[r.offset..r.offset + r.size] == members[k].data
  {
    PayloadGrows(members, k, |members|);
    var front := Payload(members, k) + members[k].data;
    assert front == Block(members)[..|front|];
  }

  /** The records of a block do not overlap. */
  lemma RecordsAreDisjoint(members: seq<Artifact>, block: nat, i: nat, j: nat)
    requires i < j < |members|
    ensures var r, s := Records(members, block)[i], Records(members, block)[j]; r.offset + r.size <= s.offset
  {
    PayloadGrows(members, i, j);
  }

  lemma {:induction false} PayloadsGrow(members: seq<Artifact>, k: nat, n: nat)
    requires k <= n <= |members|
    ensures Payload(members, k) <= Payload(members, n)
  {
    if k < n {
      PayloadGrows(members, k, n);
      PrefixIsTransitive(Payload(members, k), Payload(members, k) + members[k].data, Payload(members, n));
    }
  }

  /** Behind a record come fewer than four bytes, all of them zero, and then the next record or the end of the block. */
  lemma GapsAreZero(members: seq<Artifact>, block: nat, k: nat)
    requires k < |members|
    ensures var bytes, records := Block(members), Records(members, block);
      var start := records[k].offset + records[k].size;
      var end := if k + 1 < |members| then records[k + 1].offset else |bytes|;
      start <= end < start + 4 && end <= |bytes| && forall p | start <= p < end :: bytes[p] == 0
  {
    var here, next := Payload(members, k) + members[k].data, Payload(members, k + 1);
    PayloadStep(members, k);
    PayloadsGrow(members, k + 1, |members|);
    assert forall p | |here| <= p < |next| :: next[p] == 0;
  }

  // ---------------------------------------------------------------------------
  // The whole pack
  // ---------------------------------------------------------------------------

  /** The blocks of the first `n` lists of members. */
  function AllBlocks(lists: seq<seq<Artifact>>, n: nat): seq<seq<Byte>>
    requires n <= |lists|
  {
    if n == 0 then [] else AllBlocks(lists, n - 1) + [Block(lists[n - 1])]
  }

  function AllRecords(lists: seq<seq<Artifact>>, n: nat): seq<Record>
    requires n <= |lists|
  {
    if n == 0 then [] else AllRecords(lists, n - 1) + Records(lists[n - 1], n - 1)
  }

  function MemberLists(artifacts: seq<Artifact>, groups: seq<Group>): (lists: seq<seq<Artifact>>)
    ensures |lists| == |groups|
    ensures forall b | 0 <= b < |groups| :: lists[b] == Members(artifacts, groups[b])
  {
    seq(|groups|, b requires 0 <= b < |groups| => Members(artifacts, groups[b]))
  }

  /** What a pack holds when every block fits: the blocks of all groups, and their records in the order of the paths. */
  function PackOf(lists: seq<seq<Artifact>>): Pack {
    Pack(AllBlocks(lists, |lists|), Sort(AllRecords(lists, |lists|), RecordLeq))
  }

  method PackLists(lists: seq<seq<Artifact>>) returns (fits: bool, blocks: seq<seq<Byte>>, records: seq<Record>)
    ensures fits <==> forall b | 0 <= b < |lists| :: |Block(lists[b])| <= MAX_U32
    ensures fits ==> blocks == AllBlocks(lists, |lists|) && records == AllRecords(lists, |lists|)
  {
    blocks, records := [], [];
    for b := 0 to |lists|
      invariant blocks == AllBlocks(lists, b) && records == AllRecords(lists, b)
      invariant forall i | 0 <= i < b :: |Block(lists[i])| <= MAX_U32
    {
      var packed := PackBlock(lists[b], b);
      if packed.None? {
        return false, blocks, records;
      }
      blocks := blocks + [packed.value.0];
      records := records + packed.value.1;
    }
    return true, blocks, records;
  }

  method BuildPack(artifacts: seq<Artifact>, groups: seq<Group>) returns (r: Option<Pack>)
    ensures r.Some? <==> forall b | 0 <= b < |groups| :: |Block(MemberLists(artifacts, groups)[b])| <= MAX_U32
    ensures r.Some? ==> r.value == PackOf(MemberLists(artifacts, groups))
  {
    var fits, blocks, records := PackLists(MemberLists(artifacts, groups));
    return if fits then Some(Pack(blocks, Sort(records, RecordLeq))) else None;
  }

  lemma {:induction false} BlocksAre(lists: seq<seq<Artifact>>, n: nat)
    requires n <= |lists|
    ensures |AllBlocks(lists, n)| == n
    ensures forall b | 0 <= b < n :: AllBlocks(lists, n)[b] == Block(lists[b])
  {
    if n == 0 {
    } else {
      BlocksAre(lists, n - 1);
      assert AllBlocks(lists, n) == AllBlocks(lists, n - 1) + [Block(lists[n - 1])];
    }
  }

  /** The records of a pack are those of its lists of members. */
  lemma {:induction false} RecordsComeFromMembers(lists: seq<seq<Artifact>>, n: nat, r: Record)
    requires n <= |lists|
    ensures r in AllRecords(lists, n) <==> r.block < n && r in Records(lists[r.block], r.block)
  {
    if n == 0 {
    } else {
      RecordsComeFromMembers(lists, n - 1, r);
      var front, last := AllRecords(lists, n - 1), Records(lists[n - 1], n - 1);
      assert AllRecords(lists, n) == front + last;
      assert r in front + last <==> r in front || r in last;
      assert r in last ==> r.block == n - 1;
    }
  }

  lemma {:induction false} InGroupAre(artifacts: seq<Artifact>, g: Group, a: Artifact)
    ensures a in InGroup(artifacts, g) <==> a in artifacts && a.group == g
  {
    if artifacts == [] {
    } else {
      InGroupAre(artifacts[..|artifacts| - 1], g, a);
      assert artifacts == artifacts[..|artifacts| - 1] + [artifacts[|artifacts| - 1]];
    }
  }

  lemma MembersAre(artifacts: seq<Artifact>, g: Group, a: Artifact)
    ensures a in Members(artifacts, g) <==> a in artifacts && a.group == g
  {
    InGroupAre(artifacts, g, a);
    SameItems(InGroup(artifacts, g), ArtifactLeq, a);
  }

  /** The record gives the bytes of the artifact. */
  ghost predicate Gives(pack: Pack, r: Record, a: Artifact) {
    && r.path == a.path && r.block < |pack.blocks|
    && r.offset % ALIGNMENT == 0 && r.offset + r.size <= |pack.blocks[r.block]|
    && pack.blocks[r.block][r.offset..r.offset + r.size] == a.data
  }

  /** A record of a pack is that of a member of its block. */
  lemma MemberOfRecord(lists: seq<seq<Artifact>>, r: Record) returns (k: nat)
    requires r in PackOf(lists).records
    ensures r.block < |lists| && k < |lists[r.block]|
    ensures Records(lists[r.block], r.block)[k] == r
  {
    SameItems(AllRecords(lists, |lists|), RecordLeq, r);
    RecordsComeFromMembers(lists, |lists|, r);
    k :| 0 <= k < |lists[r.block]| && Records(lists[r.block], r.block)[k] == r;
  }

  lemma RecordGives(lists: seq<seq<Artifact>>, b: nat, k: nat)
    requires b < |lists| && k < |lists[b]|
    ensures Gives(PackOf(lists), Records(lists[b], b)[k], lists[b][k])
  {
    BlocksAre(lists, |lists|);
    RecordGivesBytes(lists[b], b, k);
  }

  /** Every record of a pack gives the bytes of an artifact of its block's group. */
  lemma EveryRecordGivesAnArtifact(artifacts: seq<Artifact>, groups: seq<Group>, r: Record) returns (a: Artifact)
    requires r in PackOf(MemberLists(artifacts, groups)).records
    ensures r.block < |groups| && a in artifacts && a.group == groups[r.block]
    ensures Gives(PackOf(MemberLists(artifacts, groups)), r, a)
  {
    var lists := MemberLists(artifacts, groups);
    var k := MemberOfRecord(lists, r);
    a := lists[r.block][k];
    RecordGives(lists, r.block, k);
    MembersAre(artifacts, groups[r.block], a);
  }

  /** Every artifact of a packed group has a record that gives its bytes. */
  lemma EveryArtifactHasARecord(artifacts: seq<Artifact>, groups: seq<Group>, a: Artifact, b: nat) returns (r: Record)
    requires a in artifacts && b < |groups| && a.group == groups[b]
    ensures r in PackOf(MemberLists(artifacts, groups)).records && r.block == b
    ensures Gives(PackOf(MemberLists(artifacts, groups)), r, a)
  {
    var lists := MemberLists(artifacts, groups);
    MembersAre(artifacts, groups[b], a);
    var k :| 0 <= k < |lists[b]| && lists[b][k] == a;
    RecordGives(lists, b, k);
    r := Records(lists[b], b)[k];
    RecordsComeFromMembers(lists, |lists|, r);
    SameItems(AllRecords(lists, |lists|), RecordLeq, r);
  }

  /** Of two records of one block, one ends before the other begins. */
  lemma DifferentRecordsAreApart(lists: seq<seq<Artifact>>, r: Record, s: Record)
    requires r in PackOf(lists).records && s in PackOf(lists).records
    requires r.block == s.block && r != s
    ensures r.offset + r.size <= s.offset || s.offset + s.size <= r.offset
  {
    var i := MemberOfRecord(lists, r);
    var j := MemberOfRecord(lists, s);
    if i < j {
      RecordsAreDisjoint(lists[r.block], r.block, i, j);
    } else {
      RecordsAreDisjoint(lists[r.block], r.block, j, i);
    }
  }

  // ---------------------------------------------------------------------------
  // One record for each artifact
  // ---------------------------------------------------------------------------

  ghost predicate DistinctPaths(artifacts: seq<Artifact>) {
    forall i, j | 0 <= i < j < |artifacts| :: artifacts[i].path != artifacts[j].path
  }

  lemma {:induction false} InGroupKeepsPaths(artifacts: seq<Artifact>, g: Group)
    requires DistinctPaths(artifacts)
    ensures DistinctPaths(InGroup(artifacts, g))
  {
    if artifacts == [] {
    } else {
      var n := |artifacts| - 1;
      InGroupKeepsPaths(artifacts[..n], g);
      forall a | a in InGroup(artifacts[..n], g) ensures a.path != artifacts[n].path {
        InGroupAre(artifacts[..n], g, a);
      }
    }
  }

  lemma {:induction false} OccursTwice<T>(items: seq<T>, i: nat, j: nat)
    requires i < j < |items| && items[i] == items[j]
    ensures multiset(items)[items[i]] >= 2
  {
    assert items == items[..j] + [items[j]] + items[j + 1..];
    assert items[i] in items[..j];
  }

  lemma {:induction false} OccursOnce(artifacts: seq<Artifact>, a: Artifact)
    requires DistinctPaths(artifacts)
    ensures multiset(artifacts)[a] <= 1
  {
    if artifacts == [] {
    } else {
      var n := |artifacts| - 1;
      OccursOnce(artifacts[..n], a);
      assert artifacts == artifacts[..n] + [artifacts[n]];
      assert a == artifacts[n] ==> a !in artifacts[..n];
    }
  }

  /** If paths and groups are distinct, a pack has one record for a path. */
  lemma OneRecordForEachPath(artifacts: seq<Artifact>, groups: seq<Group>, r: Record, s: Record)
    requires DistinctPaths(artifacts) && forall i, j | 0 <= i < j < |groups| :: groups[i] != groups[j]
    requires r in PackOf(MemberLists(artifacts, groups)).records && s in PackOf(MemberLists(artifacts, groups)).records
    requires r.path == s.path
    ensures r == s
  {
    var lists := MemberLists(artifacts, groups);
    var i := MemberOfRecord(lists, r);
    var j := MemberOfRecord(lists, s);
    var a, b := lists[r.block][i], lists[s.block][j];
    MembersAre(artifacts, groups[r.block], a);
    MembersAre(artifacts, groups[s.block], b);
    SameArtifact(artifacts, a, b);
    SameMember(artifacts, groups[r.block], i, j);
  }

  lemma SameArtifact(artifacts: seq<Artifact>, a: Artifact, b: Artifact)
    requires DistinctPaths(artifacts) && a in artifacts && b in artifacts && a.path == b.path
    ensures a == b
  {
    var i :| 0 <= i < |artifacts| && artifacts[i] == a;
    var j :| 0 <= j < |artifacts| && artifacts[j] == b;
  }

  lemma SameMember(artifacts: seq<Artifact>, g: Group, i: nat, j: nat)
    requires DistinctPaths(artifacts) && i < |Members(artifacts, g)| && j < |Members(artifacts, g)|
    requires Members(artifacts, g)[i] == Members(artifacts, g)[j]
    ensures i == j
  {
    var members := Members(artifacts, g);
    InGroupKeepsPaths(artifacts, g);
    SortPermutes(InGroup(artifacts, g), ArtifactLeq);
    OccursOnce(InGroup(artifacts, g), members[i]);
    if i < j {
      OccursTwice(members, i, j);
    } else if j < i {
      OccursTwice(members, j, i);
    }
  }

  // ---------------------------------------------------------------------------
  // The order of records and members
  // ---------------------------------------------------------------------------

  lemma PathsAreOrdered()
    ensures IsOrder(RecordLeq) && IsOrder(ArtifactLeq)
  {
    forall a: Record, b: Record ensures RecordLeq(a, b) || RecordLeq(b, a) {
      LexTotal(a.path, b.path);
    }
    forall a: Record, b: Record, c: Record | RecordLeq(a, b) && RecordLeq(b, c) ensures RecordLeq(a, c) {
      LexTransitive(a.path, b.path, c.path);
    }
    forall a: Artifact, b: Artifact ensures ArtifactLeq(a, b) || ArtifactLeq(b, a) {
      LexTotal(a.path, b.path);
    }
    forall a: Artifact, b: Artifact, c: Artifact | ArtifactLeq(a, b) && ArtifactLeq(b, c) ensures ArtifactLeq(a, c) {
      LexTransitive(a.path, b.path, c.path);
    }
  }

  /** The records of a pack are in the ascending order of their paths. */
  lemma RecordsAscend(lists: seq<seq<Artifact>>, i: nat, j: nat)
    requires i < j < |PackOf(lists).records|
    ensures NotBehind(PackOf(lists).records[i].path, PackOf(lists).records[j].path)
  {
    PathsAreOrdered();
    SortSorts(AllRecords(lists, |lists|), RecordLeq);
    LexIsFirstDifference(PackOf(lists).records[i].path, PackOf(lists).records[j].path);
  }

  /** So is what is laid out in a block: what is further on has no smaller path. */
  lemma BlocksAscend(artifacts: seq<Artifact>, groups: seq<Group>, r: Record, s: Record)
    requires r in PackOf(MemberLists(artifacts, groups)).records && s in PackOf(MemberLists(artifacts, groups)).records
    requires r.block == s.block && r.offset < s.offset
    ensures NotBehind(r.path, s.path)
  {
    var lists := MemberLists(artifacts, groups);
    var i := MemberOfRecord(lists, r);
    var j := MemberOfRecord(lists, s);
    if j < i {
      RecordsAreDisjoint(lists[r.block], r.block, j, i);
    }
    MembersAscend(artifacts, groups[r.block], i, j);
  }

  lemma MembersAscend(artifacts: seq<Artifact>, g: Group, i: nat, j: nat)
    requires i < j < |Members(artifacts, g)|
    ensures NotBehind(Members(artifacts, g)[i].path, Members(artifacts, g)[j].path)
  {
    PathsAreOrdered();
    SortSorts(InGroup(artifacts, g), ArtifactLeq);
    LexIsFirstDifference(Members(artifacts, g)[i].path, Members(artifacts, g)[j].path);
  }
}
