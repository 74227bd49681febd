/**
 Replacing one custom section of a WebAssembly module.

 A module is its eight-byte header and a sequence of sections (sections 5.5.2 and
 5.5.15 of the WebAssembly Core Specification); a custom section's payload begins
 with its name (section 5.5.3).  Section sizes need not be encoded canonically,
 and sections that stay keep the encoding they came with.
 */
module WasmSections {
  import opened Results
  import opened Bytes
  import opened Leb128

  const HEADER: seq<Byte> := [0x00, 0x61, 0x73, 0x6D, 0x01, 0x00, 0x00, 0x00]

  datatype WasmError = NotAModule | BadSize | SectionExceedsModule | BadNameSize | NameExceedsPayload | TooLarge

  /** A section as it stands in the module, its id, and its payload. */
  datatype Section = Section(raw: seq<Byte>, id: Byte, payload: seq<Byte>)

  // ---------------------------------------------------------------------------
  // The binary format
  // ---------------------------------------------------------------------------

  /** The raw bytes are the id, a size, and as many bytes of payload as the size says. */
  ghost predicate Encodes(s: Section) {
    && |s.raw| > 0 && s.raw[0] == s.id
    && DecodedU32(s.raw, 1).Ok?
    && var (size, start) := DecodedU32(s.raw, 1).value;
       |s.raw| == start + size && s.raw[start..] == s.payload
  }

  ghost predicate AllEncode(sections: seq<Section>) {
    sections != [] ==> Encodes(sections[0]) && AllEncode(sections[1..])
  }

  function Joined(sections: seq<Section>): seq<Byte> {
    if sections == [] then [] else sections[0].raw + Joined(sections[1..])
  }

  /** The module is the header and these sections, byte for byte. */
  ghost predicate Reads(bytes: seq<Byte>, sections: seq<Section>) {
    bytes == HEADER + Joined(sections) && AllEncode(sections)
  }

  function CustomName(payload: seq<Byte>): Result<seq<Byte>, WasmError> {
    var size := DecodedU32(payload, 0);
    if size.Err? then Err(BadNameSize)
    else
      var (length, start) := size.value;
      if start + length > |payload| then Err(NameExceedsPayload) else Ok(payload[start..start + length])
  }

  /** A custom section needs a name. */
  ghost predicate Nameable(s: Section) {
    s.id == 0 ==> CustomName(s.payload).Ok?
  }

  ghost predicate AllNameable(sections: seq<Section>) {
    forall s :: s in sections ==> Nameable(s)
  }

  ghost predicate WellFormedAs(bytes: seq<Byte>, sections: seq<Section>) {
    Reads(bytes, sections) && AllNameable(sections)
  }

  ghost predicate WellFormed(bytes: seq<Byte>) {
    exists sections :: WellFormedAs(bytes, sections)
  }

  predicate IsNamed(s: Section, name: seq<Byte>) {
    s.id == 0 && CustomName(s.payload) == Ok(name)
  }

  function Others(sections: seq<Section>, name: seq<Byte>): seq<Section> {
    if sections == [] then []
    else
      var before := Others(sections[..|sections| - 1], name);
      var last := sections[|sections| - 1];
      if IsNamed(last, name) then before else before + [last]
  }

  function NewPayload(name: seq<Byte>, contents: seq<Byte>): seq<Byte> {
    Leb(|name|) + name + contents
  }

  function NewSection(name: seq<Byte>, contents: seq<Byte>): Section {
    var payload := NewPayload(name, contents);
    Section([0] + Leb(|payload|) + payload, 0, payload)
  }

  predicate Fits(name: seq<Byte>, contents: seq<Byte>) {
    |name| <= MAX_U32 && |NewPayload(name, contents)| <= MAX_U32
  }

  // ---------------------------------------------------------------------------
  // A module reads in one way
  // ---------------------------------------------------------------------------

  /** Of two sections that begin the same bytes, neither can be longer. */
  lemma FirstSectionIsUnique(s: Section, rest: seq<Byte>, t: Section, other: seq<Byte>)
    requires Encodes(s) && Encodes(t) && s.raw + rest == t.raw + other
    ensures s == t && rest == other
  {
    var all := s.raw + rest;
    DecodedIsLocal(s.raw, 1, all, 1);
    DecodedIsLocal(t.raw, 1, all, 1);
    assert s.raw == all[..|s.raw|] && t.raw == all[..|t.raw|];
    assert rest == all[|s.raw|..] && other == all[|t.raw|..];
  }

  /** A section already read is the first one of every reading of the whole. */
  lemma FirstSeen(seen: seq<Section>, rest: seq<Byte>, sections: seq<Section>)
    requires seen != [] && AllEncode(seen) && AllEncode(sections) && Joined(sections) == Joined(seen) + rest
    ensures sections != [] && sections[0] == seen[0]
    ensures Joined(sections[1..]) == Joined(seen[1..]) + rest
  {
    FirstJoined(seen, rest);
    SectionIsThere(sections, seen[0], Joined(seen[1..]) + rest);
    FirstSectionIsUnique(seen[0], Joined(seen[1..]) + rest, sections[0], Joined(sections[1..]));
  }

  lemma FirstJoined(sections: seq<Section>, rest: seq<Byte>)
    requires sections != []
    ensures Joined(sections) + rest == sections[0].raw + (Joined(sections[1..]) + rest)
  {
  }

  lemma SectionIsThere(sections: seq<Section>, s: Section, rest: seq<Byte>)
    requires Encodes(s) && Joined(sections) == s.raw + rest
    ensures sections != []
  {
    assert |s.raw| > 0;
  }

  /** Sections already read are a prefix of every reading of the whole. */
  lemma {:induction false} SeenIsPrefix(seen: seq<Section>, rest: seq<Byte>, sections: seq<Section>)
    requires AllEncode(seen) && AllEncode(sections) && Joined(sections) == Joined(seen) + rest
    ensures seen <= sections && GoesOn(sections, |seen|, rest)
  {
    if seen == [] {
      assert sections[0..] == sections && Joined(seen) + rest == rest;
    } else {
      FirstSeen(seen, rest, sections);
      SeenIsPrefix(seen[1..], rest, sections[1..]);
      OneMoreGoesOn(sections, |seen|, rest);
      PrefixGrows(seen, sections);
    }
  }

  /** Behind the first `n` sections come those that are read from `rest`. */
  ghost predicate GoesOn(sections: seq<Section>, n: nat, rest: seq<Byte>) {
    n <= |sections| && AllEncode(sections[n..]) && Joined(sections[n..]) == rest
  }

  lemma OneMoreGoesOn(sections: seq<Section>, n: nat, rest: seq<Byte>)
    requires n > 0 && sections != [] && GoesOn(sections[1..], n - 1, rest)
    ensures GoesOn(sections, n, rest)
  {
    assert sections[1..][n - 1..] == sections[n..];
  }

  lemma PrefixGrows<T>(a: seq<T>, b: seq<T>)
    requires a != [] && b != [] && a[0] == b[0] && a[1..] <= b[1..]
    ensures a <= b
  {
    forall k | 0 <= k < |a| ensures k < |b| && a[k] == b[k] {
      if k > 0 {
        assert a[1..][k - 1] == a[k] && b[1..][k - 1] == b[k];
      }
    }
  }

  /** The sections of a module are determined by its bytes. */
  lemma ReadingIsUnique(bytes: seq<Byte>, a: seq<Section>, b: seq<Section>)
    requires Reads(bytes, a) && Reads(bytes, b)
    ensures a == b
  {
    assert Joined(a) == bytes[|HEADER|..] && Joined(b) == bytes[|HEADER|..];
    assert Joined(a) + [] == Joined(a);
    SeenIsPrefix(a, [], b);
    assert b[|a|..] == [];
  }

  lemma {:induction false} JoinedAppend(sections: seq<Section>, last: Section)
    ensures Joined(sections + [last]) == Joined(sections) + last.raw
    ensures AllEncode(sections) && Encodes(last) ==> AllEncode(sections + [last])
  {
    if sections == [] {
      assert [last][1..] == [];
    } else {
      assert (sections + [last])[1..] == sections[1..] + [last];
      JoinedAppend(sections[1..], last);
    }
  }

  lemma {:induction false} OthersEncode(sections: seq<Section>, name: seq<Byte>)
    requires AllEncode(sections)
    ensures AllEncode(Others(sections, name))
  {
    if sections == [] {
    } else {
      var n := |sections| - 1;
      PrefixEncodes(sections, n);
      OthersEncode(sections[..n], name);
      JoinedAppend(Others(sections[..n], name), sections[n]);
    }
  }

  lemma {:induction false} PrefixEncodes(sections: seq<Section>, n: nat)
    requires AllEncode(sections) && n < |sections|
    ensures AllEncode(sections[..n]) && Encodes(sections[n])
  {
    if n == 0 {
    } else {
      PrefixEncodes(sections[1..], n - 1);
      assert sections[..n][1..] == sections[1..][..n - 1];
    }
  }

  lemma {:induction false} OthersFacts(sections: seq<Section>, name: seq<Byte>)
    ensures forall s :: s in Others(sections, name) <==> s in sections && !IsNamed(s, name)
    ensures Others(Others(sections, name), name) == Others(sections, name)
  {
    if sections == [] {
    } else {
      var n := |sections| - 1;
      OthersFacts(sections[..n], name);
      assert sections == sections[..n] + [sections[n]];
      OthersAppend(Others(sections[..n], name), sections[n], name);
    }
  }

  lemma OthersAppend(sections: seq<Section>, last: Section, name: seq<Byte>)
    ensures Others(sections + [last], name) == Others(sections, name) + if IsNamed(last, name) then [] else [last]
  {
    assert (sections + [last])[..|sections|] == sections;
  }

  lemma NewSectionEncodes(name: seq<Byte>, contents: seq<Byte>)
    requires Fits(name, contents)
    ensures Encodes(NewSection(name, contents))
    ensures IsNamed(NewSection(name, contents), name)
  {
    var s := NewSection(name, contents);
    DecodeEncode([0], |s.payload|, s.payload);
    DecodeEncode([], |name|, name + contents);
    assert s.payload == [] + Leb(|name|) + (name + contents);
    assert s.payload[|Leb(|name|)|..|Leb(|name|)| + |name|] == name;
  }

  lemma NameableAppend(sections: seq<Section>, last: Section)
    requires AllNameable(sections) && Nameable(last)
    ensures AllNameable(sections + [last])
  {
    forall s | s in sections + [last] ensures Nameable(s) {
    }
  }

  // ---------------------------------------------------------------------------
  // Replacement
  // ---------------------------------------------------------------------------

  /** What the tool writes for a module that reads as `sections`. */
  function Replaced(sections: seq<Section>, name: seq<Byte>, contents: seq<Byte>): seq<Byte> {
    HEADER + Joined(Others(sections, name)) + NewSection(name, contents).raw
  }

  /**
   The result is well formed; its other sections are the old ones, byte for byte
   and in order; the named custom section occurs once, last, with the contents.
   */
  lemma ReplacementMeaning(bytes: seq<Byte>, sections: seq<Section>, name: seq<Byte>, contents: seq<Byte>)
    requires WellFormedAs(bytes, sections) && Fits(name, contents)
    ensures var after := Others(sections, name) + [NewSection(name, contents)];
      && WellFormedAs(Replaced(sections, name, contents), after)
      && Others(after, name) == Others(sections, name)
    ensures NewSection(name, contents).payload == Leb(|name|) + name + contents
    ensures IsNamed(NewSection(name, contents), name)
    ensures forall s :: s in Others(sections, name) <==> s in sections && !IsNamed(s, name)
  {
    OthersFacts(sections, name);
    NewSectionEncodes(name, contents);
    OthersEncode(sections, name);
    OthersAppend(Others(sections, name), NewSection(name, contents), name);
    ReplacedReads(Others(sections, name), NewSection(name, contents));
  }

  lemma ReplacedReads(kept: seq<Section>, added: Section)
    requires AllEncode(kept) && AllNameable(kept) && Encodes(added) && Nameable(added)
    ensures WellFormedAs(HEADER + Joined(kept) + added.raw, kept + [added])
  {
    JoinedAppend(kept, added);
    NameableAppend(kept, added);
    assert HEADER + Joined(kept) + added.raw == HEADER + (Joined(kept) + added.raw);
  }

  /** A second replacement of the same section is as good as doing only the second one. */
  lemma LastReplacementWins(bytes: seq<Byte>, sections: seq<Section>, name: seq<Byte>, first: seq<Byte>,
          second: seq<Byte>, between: seq<Section>)
    requires WellFormedAs(bytes, sections) && Fits(name, first) && Fits(name, second)
    requires Reads(Replaced(sections, name, first), between)
    ensures Replaced(between, name, second) == Replaced(sections, name, second)
  {
    ReplacementMeaning(bytes, sections, name, first);
    ReadingIsUnique(Replaced(sections, name, first), between, Others(sections, name) + [NewSection(name, first)]);
  }

  /** Replacing one custom section keeps every section that does not have its name. */
  lemma OtherSectionsSurvive(bytes: seq<Byte>, sections: seq<Section>, name: seq<Byte>, contents: seq<Byte>,
          after: seq<Section>)
    requires WellFormedAs(bytes, sections) && Fits(name, contents)
    requires Reads(Replaced(sections, name, contents), after)
    ensures forall s :: !IsNamed(s, name) ==> (s in sections <==> s in after)
  {
    ReplacementMeaning(bytes, sections, name, contents);
    ReadingIsUnique(Replaced(sections, name, contents), after, Others(sections, name) + [NewSection(name, contents)]);
  }

  // ---------------------------------------------------------------------------
  // The scan
  // ---------------------------------------------------------------------------

  method CustomSectionName(payload: seq<Byte>) returns (r: Result<seq<Byte>, WasmError>)
    ensures r == CustomName(payload)
  {
    var size := DecodeU32(payload, 0);
    if size.Err? {
      return Err(BadNameSize);
    }
    var (length, start) := size.value;
    if start + length > |payload| {
      return Err(NameExceedsPayload);
    }
    return Ok(payload[start..start + length]);
  }

  /** The section at `offset`; an error means that no section begins there. */
  method ReadSection(bytes: seq<Byte>, offset: nat) returns (r: Result<Section, WasmError>)
    requires offset < |bytes|
    ensures r.Ok? ==> Encodes(r.value) && r.value.raw <= bytes[offset..]
    ensures r.Err? ==> forall s :: Encodes(s) ==> !(s.raw <= bytes[offset..])
    ensures r.Err? ==> !r.error.NotAModule?
  {
    var size := DecodeU32(bytes, offset + 1);
    forall s | Encodes(s) && s.raw <= bytes[offset..] ensures Announces(bytes, offset, s) {
      PrefixAnnounces(bytes, offset, s);
    }
    if size.Err? {
      return Err(BadSize);
    }
    var (length, start) := size.value;
    var end := start + length;
    if end > |bytes| {
      return Err(SectionExceedsModule);
    }
    var s := Section(bytes[offset..end], bytes[offset], bytes[start..end]);
    DecodedIsLocal(bytes, offset + 1, s.raw, 1);
    return Ok(s);
  }

  /** The size at `offset + 1` announces exactly the section's bytes. */
  ghost predicate Announces(bytes: seq<Byte>, offset: nat, s: Section) {
    && DecodedU32(bytes, offset + 1).Ok?
    && DecodedU32(bytes, offset + 1).value.0 + DecodedU32(bytes, offset + 1).value.1 == offset + |s.raw| <= |bytes|
  }

  lemma PrefixAnnounces(bytes: seq<Byte>, offset: nat, s: Section)
    requires offset < |bytes| && Encodes(s) && s.raw <= bytes[offset..]
    ensures Announces(bytes, offset, s)
  {
    forall k | 0 <= k < |s.raw| ensures s.raw[k] == bytes[offset + k] {
      assert bytes[offset..][k] == s.raw[k];
    }
    DecodedIsLocal(s.raw, 1, bytes, offset + 1);
  }

  /** Only custom sections have their names read, and a bad name stops the scan. */
  method HasName(s: Section, name: seq<Byte>) returns (r: Result<bool, WasmError>)
    ensures r.Ok? <==> Nameable(s)
    ensures r.Ok? ==> r.value == IsNamed(s, name)
    ensures r.Err? ==> !r.error.NotAModule?
  {
    if s.id != 0 {
      return Ok(false);
    }
    var found := CustomSectionName(s.payload);
    if found.Err? {
      return Err(found.error);
    }
    return Ok(found.value == name);
  }

  /** The scan's state at `offset`, after the sections in `seen`. */
  ghost predicate Scanned(bytes: seq<Byte>, name: seq<Byte>, seen: seq<Section>, retained: seq<Byte>, offset: nat) {
    && HEADER <= bytes && offset <= |bytes|
    && AllEncode(seen) && AllNameable(seen)
    && bytes == HEADER + Joined(seen) + bytes[offset..]
    && retained == Joined(Others(seen, name))
  }

  lemma ScanStep(bytes: seq<Byte>, name: seq<Byte>, seen: seq<Section>, retained: seq<Byte>, offset: nat, s: Section)
    requires Scanned(bytes, name, seen, retained, offset)
    requires Encodes(s) && s.raw <= bytes[offset..] && Nameable(s)
    ensures Scanned(bytes, name, seen + [s], retained + (if IsNamed(s, name) then [] else s.raw), offset + |s.raw|)
  {
    JoinedAppend(seen, s);
    NameableAppend(seen, s);
    RetainedStep(name, seen, s);
    BytesStep(bytes, Joined(seen), offset, s.raw);
  }

  lemma RetainedStep(name: seq<Byte>, seen: seq<Section>, s: Section)
    ensures Joined(Others(seen + [s], name)) == Joined(Others(seen, name)) + if IsNamed(s, name) then [] else s.raw
  {
    OthersAppend(seen, s, name);
    JoinedAppend(Others(seen, name), s);
    assert Others(seen, name) + [] == Others(seen, name);
  }

  lemma BytesStep(bytes: seq<Byte>, done: seq<Byte>, offset: nat, raw: seq<Byte>)
    requires offset <= |bytes| && bytes == HEADER + done + bytes[offset..] && raw <= bytes[offset..]
    ensures bytes == HEADER + (done + raw) + bytes[offset + |raw|..]
  {
    assert bytes[offset..] == raw + bytes[offset + |raw|..];
    assert HEADER + done + (raw + bytes[offset + |raw|..]) == HEADER + (done + raw) + bytes[offset + |raw|..];
  }

  lemma SameBehindHeader(bytes: seq<Byte>, joined: seq<Byte>, seen: seq<Byte>, rest: seq<Byte>)
    requires bytes == HEADER + joined && bytes == HEADER + seen + rest
    ensures joined == seen + rest
  {
    assert joined == bytes[|HEADER|..];
    assert HEADER + seen + rest == HEADER + (seen + rest);
    assert seen + rest == (HEADER + (seen + rest))[|HEADER|..];
  }

  /** A reading of the whole begins with what was scanned. */
  lemma ScannedIsPrefix(bytes: seq<Byte>, name: seq<Byte>, seen: seq<Section>, retained: seq<Byte>, offset: nat,
          sections: seq<Section>)
    requires Scanned(bytes, name, seen, retained, offset) && Reads(bytes, sections)
    ensures seen <= sections
    ensures AllEncode(sections[|seen|..]) && Joined(sections[|seen|..]) == bytes[offset..]
  {
    SameBehindHeader(bytes, Joined(sections), Joined(seen), bytes[offset..]);
    SeenIsPrefix(seen, bytes[offset..], sections);
  }

  /** Whatever reading the module has, it goes on with a section at `offset`. */
  lemma NextSection(bytes: seq<Byte>, name: seq<Byte>, seen: seq<Section>, retained: seq<Byte>, offset: nat,
          sections: seq<Section>)
    requires Scanned(bytes, name, seen, retained, offset) && offset < |bytes| && Reads(bytes, sections)
    ensures |seen| < |sections| && Encodes(sections[|seen|])
    ensures sections[|seen|].raw <= bytes[offset..]
    ensures bytes[offset..] == sections[|seen|].raw + Joined(sections[|seen| + 1..])
  {
    ScannedIsPrefix(bytes, name, seen, retained, offset, sections);
    var tail: seq<Section> := sections[|seen|..];
    assert tail != [] && tail[0] == sections[|seen|] && tail[1..] == sections[|seen| + 1..];
    assert Joined(tail) == tail[0].raw + Joined(tail[1..]);
  }

  lemma NoSectionHere(bytes: seq<Byte>, name: seq<Byte>, seen: seq<Section>, retained: seq<Byte>, offset: nat)
    requires Scanned(bytes, name, seen, retained, offset) && offset < |bytes|
    requires forall s :: Encodes(s) ==> !(s.raw <= bytes[offset..])
    ensures !WellFormed(bytes)
  {
    forall sections: seq<Section> | Reads(bytes, sections)
      ensures exists s :: Encodes(s) && s.raw <= bytes[offset..]
    {
      NextSection(bytes, name, seen, retained, offset, sections);
    }
  }

  /** The section read at `offset` is the next one of any reading. */
  lemma NextSectionIs(bytes: seq<Byte>, name: seq<Byte>, seen: seq<Section>, retained: seq<Byte>, offset: nat,
          s: Section, sections: seq<Section>)
    requires Scanned(bytes, name, seen, retained, offset) && offset < |bytes| && Reads(bytes, sections)
    requires Encodes(s) && s.raw <= bytes[offset..]
    ensures s in sections
  {
    NextSection(bytes, name, seen, retained, offset, sections);
    NextIs(bytes[offset..], s, sections[|seen|], Joined(sections[|seen| + 1..]));
  }

  lemma NextIs(tail: seq<Byte>, s: Section, t: Section, other: seq<Byte>)
    requires Encodes(s) && Encodes(t) && s.raw <= tail && tail == t.raw + other
    ensures s == t
  {
    var rest := tail[|s.raw|..];
    assert tail == s.raw + rest;
    FirstSectionIsUnique(s, rest, t, other);
  }

  lemma BadNameHere(bytes: seq<Byte>, name: seq<Byte>, seen: seq<Section>, retained: seq<Byte>, offset: nat, s: Section)
    requires Scanned(bytes, name, seen, retained, offset) && offset < |bytes|
    requires Encodes(s) && s.raw <= bytes[offset..] && !Nameable(s)
    ensures !WellFormed(bytes)
  {
    forall sections: seq<Section> | Reads(bytes, sections) ensures !AllNameable(sections) {
      NextSectionIs(bytes, name, seen, retained, offset, s, sections);
    }
  }

  /** The scan over the sections, which reads each one and joins those that stay. */
  method RetainSections(bytes: seq<Byte>, name: seq<Byte>)
    returns (retained: seq<Byte>, unread: Option<WasmError>, ghost seen: seq<Section>)
    requires HEADER <= bytes
    ensures unread.None? ==> WellFormedAs(bytes, seen) && retained == Joined(Others(seen, name))
    ensures unread.Some? ==> !WellFormed(bytes) && !unread.value.NotAModule?
  {
    retained, seen := [], [];
    var offset := |HEADER|;
    assert bytes == HEADER + [] + bytes[|HEADER|..];
    while offset < |bytes|
      invariant Scanned(bytes, name, seen, retained, offset)
      decreases |bytes| - offset
    {
      var section := ReadSection(bytes, offset);
      if section.Err? {
        NoSectionHere(bytes, name, seen, retained, offset);
        return retained, Some(section.error), seen;
      }
      var s := section.value;
      var named := HasName(s, name);
      if named.Err? {
        BadNameHere(bytes, name, seen, retained, offset, s);
        return retained, Some(named.error), seen;
      }
      ScanStep(bytes, name, seen, retained, offset, s);
      retained := retained + if named.value then [] else s.raw;
      seen := seen + [s];
      offset := offset + |s.raw|;
    }
    assert bytes == HEADER + Joined(seen);
    return retained, None, seen;
  }

  method ReplaceCustomSection(bytes: seq<Byte>, name: seq<Byte>, contents: seq<Byte>)
    returns (r: Result<seq<Byte>, WasmError>, ghost sections: seq<Section>)
    ensures r.Ok? <==> WellFormed(bytes) && Fits(name, contents)
    ensures r.Ok? ==> WellFormedAs(bytes, sections) && r.value == Replaced(sections, name, contents)
    ensures r.Err? ==> (r.error.NotAModule? <==> !(HEADER <= bytes))
  {
    sections := [];
    if !(HEADER <= bytes) {
      return Err(NotAModule), sections;
    }
    var retained, unread;
    retained, unread, sections := RetainSections(bytes, name);
    if unread.Some? {
      return Err(unread.value), sections;
    }
    var nameSize := EncodeU32(|name|);
    if nameSize.Err? {
      return Err(TooLarge), sections;
    }
    var payload := nameSize.value + name + contents;
    var payloadSize := EncodeU32(|payload|);
    if payloadSize.Err? {
      return Err(TooLarge), sections;
    }
    var section := [0] + payloadSize.value + payload;
    return Ok(HEADER + retained + section), sections;
  }
}
