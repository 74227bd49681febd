/**
 Looking up a kind by its name in an emitted table, and a name by its kind.

 The table holds the names of a vocabulary in ascending order; the search is the
 emitted binary search, which is told the length of the name that it looks for.
 */
module NameLookup {
  import opened Bytes
  import opened ByteStrings
  import opened Results
  import opened Sorting

  const UNSPECIFIED: int := 0

  datatype Entry = Entry(kind: int, name: seq<Byte>)

  predicate NameLeq(a: Entry, b: Entry) {
    LexLeq(a.name, b.name)
  }

  /** No two entries share a name. */
  ghost predicate DistinctNames(entries: seq<Entry>) {
    forall i, j | 0 <= i < j < |entries| :: entries[i].name != entries[j].name
  }

  /** No two entries share a kind, and none has the kind that means nothing. */
  ghost predicate DistinctKinds(entries: seq<Entry>) {
    && (forall i, j | 0 <= i < j < |entries| :: entries[i].kind != entries[j].kind)
    && forall i | 0 <= i < |entries| :: entries[i].kind != UNSPECIFIED
  }

  /** The table as it is emitted. */
  function Table(entries: seq<Entry>): seq<Entry> {
    Sort(entries, NameLeq)
  }

  lemma TableIsSorted(entries: seq<Entry>)
    ensures IsSorted(Table(entries), NameLeq)
  {
    forall a, b ensures NameLeq(a, b) || NameLeq(b, a) {
      LexTotal(a.name, b.name);
    }
    forall a, b, c | NameLeq(a, b) && NameLeq(b, c) ensures NameLeq(a, c) {
      LexTransitive(a.name, b.name, c.name);
    }
    SortSorts(entries, NameLeq);
  }

  /** What a scan of the unsorted vocabulary says about a name. */
  ghost predicate ScanFinds(entries: seq<Entry>, name: seq<Byte>, kind: int) {
    || (exists e :: e in entries && e.name == name && e.kind == kind)
    || (kind == UNSPECIFIED && forall e | e in entries :: e.name != name)
  }

  /** A scan of a vocabulary with distinct names has one answer. */
  lemma ScanIsUnique(entries: seq<Entry>, name: seq<Byte>, a: int, b: int)
    requires DistinctNames(entries) && ScanFinds(entries, name, a) && ScanFinds(entries, name, b)
    ensures a == b
  {
    if exists e :: e in entries && e.name == name {
      var e :| e in entries && e.name == name && e.kind == a;
      var f :| f in entries && f.name == name && f.kind == b;
      var i :| 0 <= i < |entries| && entries[i] == e;
      var j :| 0 <= j < |entries| && entries[j] == f;
    }
  }

  /** The emitted search, for any byte string; a null pointer has no name. */
  method KindFromBytes(entries: seq<Entry>, data: Option<seq<Byte>>) returns (kind: int)
    ensures data.None? ==> kind == UNSPECIFIED
    ensures data.Some? ==> ScanFinds(entries, data.value, kind)
  {
    if data.None? {
      return UNSPECIFIED;
    }
    var table, name := Table(entries), data.value;
    TableIsSorted(entries);
    var begin, end := 0, |table|;
    while begin < end
      invariant 0 <= begin <= end <= |table|
      invariant forall i | 0 <= i < |table| && !(begin <= i < end) :: table[i].name != name
    {
      var middle := begin + (end - begin) / 2;
      var order := Compare(name, table[middle].name);
      if order == 0 {
        SameItems(entries, NameLeq, table[middle]);
        return table[middle].kind;
      }
      if order < 0 {
        forall i | middle <= i < |table| ensures table[i].name != name {
          BehindIsGreater(table, middle, i, name);
        }
        end := middle;
      } else {
        forall i | 0 <= i <= middle ensures table[i].name != name {
          BeforeIsSmaller(table, i, middle, name);
        }
        begin := middle + 1;
      }
    }
    forall e | e in entries ensures e.name != name {
      SameItems(entries, NameLeq, e);
    }
    return UNSPECIFIED;
  }

  lemma BehindIsGreater(table: seq<Entry>, middle: nat, i: nat, name: seq<Byte>)
    requires IsSorted(table, NameLeq) && middle <= i < |table|
    requires LexLeq(name, table[middle].name) && name != table[middle].name
    ensures table[i].name != name
  {
    if middle < i {
      assert NameLeq(table[middle], table[i]);
      if table[i].name == name {
        LexAntisymmetric(name, table[middle].name);
      }
    }
  }

  lemma BeforeIsSmaller(table: seq<Entry>, i: nat, middle: nat, name: seq<Byte>)
    requires IsSorted(table, NameLeq) && i <= middle < |table| && !LexLeq(name, table[middle].name)
    ensures table[i].name != name
  {
    if i < middle {
      assert NameLeq(table[i], table[middle]);
    } else {
      PrefixComesFirst(name, name);
    }
  }

  /** The name of a kind: that of the first entry of the table with that kind. */
  method KindName(entries: seq<Entry>, kind: int) returns (name: Option<seq<Byte>>)
    ensures name.None? <==> forall e | e in entries :: e.kind != kind
    ensures name.Some? ==> Entry(kind, name.value) in entries
  {
    var table := Table(entries);
    for i := 0 to |table|
      invariant forall k | 0 <= k < i :: table[k].kind != kind
    {
      if table[i].kind == kind {
        SameItems(entries, NameLeq, table[i]);
        assert Entry(kind, table[i].name) == table[i];
        return Some(table[i].name);
      }
    }
    forall e | e in entries ensures e.kind != kind {
      SameItems(entries, NameLeq, e);
    }
    return None;
  }

  /** Naming a kind of the vocabulary and looking the name up gives the kind back, and the other way round. */
  method RoundTrip(entries: seq<Entry>, e: Entry) returns (kind: int, name: Option<seq<Byte>>)
    requires DistinctNames(entries) && DistinctKinds(entries) && e in entries
    ensures kind == e.kind && name == Some(e.name)
  {
    name := KindName(entries, e.kind);
    kind := KindFromBytes(entries, name);
    var i :| 0 <= i < |entries| && entries[i] == e;
    var j :| 0 <= j < |entries| && entries[j] == Entry(e.kind, name.value);
    assert i == j;
    assert ScanFinds(entries, e.name, e.kind);
    ScanIsUnique(entries, e.name, kind, e.kind);
  }
}
