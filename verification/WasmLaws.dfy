/**
 Replacing a custom section, in terms of bytes and places alone: which bytes are a
 size, a section or a name, and which sections stay where.
 */
module WasmLaws {
  import opened Results
  import opened Bytes
  import opened Leb128
  import opened WasmSections

  /** The seven bits that a byte of a number at `start` gives, none behind its end. */
  function Group(data: seq<Byte>, start: nat, end: nat, k: nat): nat
    requires end <= |data|
  {
    if start + k < end then data[start + k] % 128 else 0
  }

  /** From `start` to `end` stands this number: at most five bytes, all but the last with the continuation bit. */
  ghost predicate SizeAt(data: seq<Byte>, start: nat, end: nat, value: nat) {
    && start < end <= start + 5 && end <= |data| && value < 0x1_0000_0000
    && data[end - 1] < 128 && (forall i | start <= i < end - 1 :: data[i] >= 128)
    && value == Group(data, start, end, 0) + 128 * Group(data, start, end, 1) + 16384 * Group(data, start, end, 2)
                + 2097152 * Group(data, start, end, 3) + 268435456 * Group(data, start, end, 4)
  }

  lemma {:induction false} LengthMeans(data: seq<Byte>, start: nat, budget: nat)
    ensures var n := LebLength(data, start, budget);
      && (n.Some? ==>
            && data[start + n.value - 1] < 128
            && forall i | start <= i < start + n.value - 1 :: data[i] >= 128)
      && (n.None? ==> forall i: nat | start <= i < start + budget && i < |data| :: data[i] >= 128)
    decreases budget
  {
    if start < |data| && budget > 0 && data[start] >= 128 {
      LengthMeans(data, start + 1, budget - 1);
    }
  }

  lemma ValueMeans(data: seq<Byte>, start: nat, n: nat)
    requires 0 < n <= 5 && start + n <= |data|
    ensures var end := start + n;
      LebValue(data, start, n)
      == Group(data, start, end, 0) + 128 * Group(data, start, end, 1) + 16384 * Group(data, start, end, 2)
         + 2097152 * Group(data, start, end, 3) + 268435456 * Group(data, start, end, 4)
  {
    assert LebValue(data, start + n, 0) == 0;
    if n > 1 {
      assert LebValue(data, start + n - 1, 1) == data[start + n - 1] % 128;
    }
    if n > 2 {
      assert LebValue(data, start + n - 2, 2) == data[start + n - 2] % 128 + 128 * (data[start + n - 1] as int % 128);
    }
    if n > 3 {
      assert LebValue(data, start + n - 3, 3)
        == data[start + n - 3] % 128 + 128 * LebValue(data, start + n - 2, 2);
    }
    if n > 4 {
      assert LebValue(data, start + n - 4, 4)
        == data[start + n - 4] % 128 + 128 * LebValue(data, start + n - 3, 3);
    }
  }

  /** Two numbers at one place end at one place. */
  lemma SizesEndTogether(data: seq<Byte>, start: nat, n: nat, end: nat)
    requires 0 < n && start + n <= |data| && start < end <= |data| && data[start + n - 1] < 128 && data[end - 1] < 128
    requires forall i | start <= i < start + n - 1 :: data[i] >= 128
    requires forall i | start <= i < end - 1 :: data[i] >= 128
    ensures end == start + n
  {
  }

  /** The decoder finds a number exactly where one stands. */
  lemma DecodedExactlyWhen(data: seq<Byte>, start: nat, end: nat, value: nat)
    ensures DecodedU32(data, start) == Ok((value, end)) <==> SizeAt(data, start, end, value)
  {
    var n := LebLength(data, start, 5);
    LengthMeans(data, start, 5);
    if n.Some? {
      ValueMeans(data, start, n.value);
      if SizeAt(data, start, end, value) {
        SizesEndTogether(data, start, n.value, end);
      }
    }
  }

  lemma DecodesExactlyWhen(data: seq<Byte>, start: nat)
    ensures DecodedU32(data, start).Ok? <==> exists end: nat, value: nat :: SizeAt(data, start, end, value)
  {
    if DecodedU32(data, start).Ok? {
      var (value, end) := DecodedU32(data, start).value;
      DecodedExactlyWhen(data, start, end, value);
    }
    forall end: nat, value: nat | SizeAt(data, start, end, value) ensures DecodedU32(data, start).Ok? {
      DecodedExactlyWhen(data, start, end, value);
    }
  }

  // ---------------------------------------------------------------------------
  // Sections and names
  // ---------------------------------------------------------------------------

  /** An id, a size, and a payload of that size that goes on to the end. */
  ghost predicate SectionBytes(raw: seq<Byte>, id: Byte, payload: seq<Byte>) {
    && raw != [] && raw[0] == id
    && exists start: nat :: SizeAt(raw, 1, start, |payload|) && raw[start..] == payload
  }

  lemma SectionExactlyWhen(s: Section)
    ensures Encodes(s) <==> SectionBytes(s.raw, s.id, s.payload)
  {
    if Encodes(s) {
      var (size, start) := DecodedU32(s.raw, 1).value;
      DecodedExactlyWhen(s.raw, 1, start, size);
    }
    forall start: nat | SizeAt(s.raw, 1, start, |s.payload|) && s.raw[start..] == s.payload
      ensures DecodedU32(s.raw, 1) == Ok((|s.payload|, start))
    {
      DecodedExactlyWhen(s.raw, 1, start, |s.payload|);
    }
  }

  /** A custom section's payload begins with the name, behind its size. */
  ghost predicate NameBytes(payload: seq<Byte>, name: seq<Byte>) {
    exists start: nat :: SizeAt(payload, 0, start, |name|) && name <= payload[start..]
  }

  lemma NameIsThere(payload: seq<Byte>, name: seq<Byte>, start: nat)
    requires SizeAt(payload, 0, start, |name|) && name <= payload[start..]
    ensures CustomName(payload) == Ok(name)
  {
    DecodedExactlyWhen(payload, 0, start, |name|);
    assert start + |name| <= |payload|;
    assert payload[start..][..|name|] == name;
    assert payload[start..start + |name|] == payload[start..][..|name|];
  }

  lemma ThereIsName(payload: seq<Byte>)
    requires CustomName(payload).Ok?
    ensures NameBytes(payload, CustomName(payload).value)
  {
    var (length, start) := DecodedU32(payload, 0).value;
    DecodedExactlyWhen(payload, 0, start, length);
    assert payload[start..][..length] == payload[start..start + length];
  }

  lemma NamedExactlyWhen(s: Section, name: seq<Byte>)
    ensures IsNamed(s, name) <==> s.id == 0 && NameBytes(s.payload, name)
  {
    if IsNamed(s, name) {
      ThereIsName(s.payload);
    }
    if NameBytes(s.payload, name) {
      var start: nat :| SizeAt(s.payload, 0, start, |name|) && name <= s.payload[start..];
      NameIsThere(s.payload, name, start);
    }
  }

  /** A module is refused for a custom section that begins with no name. */
  lemma NameableExactlyWhen(s: Section)
    ensures Nameable(s) <==> (s.id == 0 ==> exists name :: NameBytes(s.payload, name))
  {
    if s.id == 0 && Nameable(s) {
      NamedExactlyWhen(s, CustomName(s.payload).value);
    }
    if s.id == 0 {
      forall name | NameBytes(s.payload, name) ensures Nameable(s) {
        NamedExactlyWhen(s, name);
      }
    }
  }

  ghost predicate GoodSection(s: Section) {
    SectionBytes(s.raw, s.id, s.payload) && (s.id == 0 ==> exists name :: NameBytes(s.payload, name))
  }

  lemma GoodExactlyWhen(s: Section)
    ensures GoodSection(s) <==> Encodes(s) && Nameable(s)
  {
    SectionExactlyWhen(s);
    NameableExactlyWhen(s);
  }

  lemma {:induction false} AllGoodExactlyWhen(sections: seq<Section>)
    ensures (forall s | s in sections :: GoodSection(s)) <==> AllEncode(sections) && AllNameable(sections)
  {
    if sections == [] {
    } else {
      AllGoodExactlyWhen(sections[1..]);
      GoodExactlyWhen(sections[0]);
      assert forall s :: s in sections <==> s == sections[0] || s in sections[1..];
    }
  }

  /** The header, and then good sections one behind the other. */
  ghost predicate IsModule(bytes: seq<Byte>, sections: seq<Section>) {
    bytes == [0x00, 0x61, 0x73, 0x6D, 0x01, 0x00, 0x00, 0x00] + Joined(sections)
    && forall s | s in sections :: GoodSection(s)
  }

  /** The tool reads exactly the modules. */
  lemma ModuleExactlyWhen(bytes: seq<Byte>, sections: seq<Section>)
    ensures WellFormedAs(bytes, sections) <==> IsModule(bytes, sections)
  {
    AllGoodExactlyWhen(sections);
  }

  // ---------------------------------------------------------------------------
  // Which sections stay
  // ---------------------------------------------------------------------------

  ghost predicate Ascends(at: seq<nat>) {
    forall i, j | 0 <= i < j < |at| :: at[i] < at[j]
  }

  /** The sections at these places, which ascend, are those without the name. */
  ghost predicate StayAt(sections: seq<Section>, name: seq<Byte>, kept: seq<Section>, at: seq<nat>) {
    && |at| == |kept| && Ascends(at)
    && (forall k | 0 <= k < |at| :: at[k] < |sections| && kept[k] == sections[at[k]])
    && forall i: nat | i < |sections| :: i in at <==> !(sections[i].id == 0 && NameBytes(sections[i].payload, name))
  }

  lemma OneMoreStays(sections: seq<Section>, name: seq<Byte>, kept: seq<Section>, at: seq<nat>)
    requires sections != [] && StayAt(sections[..|sections| - 1], name, kept, at)
    ensures var n := |sections| - 1;
      if sections[n].id == 0 && NameBytes(sections[n].payload, name) then StayAt(sections, name, kept, at)
      else StayAt(sections, name, kept + [sections[n]], at + [n])
  {
    var n := |sections| - 1;
    assert forall i: nat | i < n :: sections[..n][i] == sections[i];
    assert n !in at;
  }

  /** Replacing keeps, in their order and as often as they occur, exactly the sections that do not have the name. */
  lemma {:induction false} KeptInOrder(sections: seq<Section>, name: seq<Byte>) returns (at: seq<nat>)
    ensures StayAt(sections, name, Others(sections, name), at)
  {
    at := [];
    if sections == [] {
    } else {
      var n := |sections| - 1;
      at := KeptInOrder(sections[..n], name);
      OneMoreStays(sections, name, Others(sections[..n], name), at);
      NamedExactlyWhen(sections[n], name);
      at := if IsNamed(sections[n], name) then at else at + [n];
    }
  }
}
