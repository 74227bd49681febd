/**
 The growing byte writer that replaces a list of bytes in a generated codec.

 It writes into a buffer that at least doubles when it is full.  To its users it
 is an append-only list; the ghost count of copied bytes shows what growing costs.
 */
module GrowingWriter {
  import opened Bytes

  const INITIAL_CAPACITY: nat := 128

  function Max(a: nat, b: nat): nat {
    if a >= b then a else b
  }

  class Writer {
    var buffer: array<Byte>
    var length: nat
    /** How many bytes all growths so far have copied. */
    ghost var copied: nat

    /** The bytes are in the buffer; its size and the cost of growing are bounded by them. */
    ghost predicate Valid()
      reads this, buffer
    {
      && length <= buffer.Length
      && INITIAL_CAPACITY <= buffer.Length <= Max(INITIAL_CAPACITY, 2 * length)
      && copied <= buffer.Length - INITIAL_CAPACITY
    }

    ghost function Contents(): seq<Byte>
      requires length <= buffer.Length
      reads this, buffer
    {
      buffer[..length]
    }

    constructor ()
      ensures Valid() && Contents() == [] && fresh(buffer) && copied == 0
    {
      buffer := new Byte[INITIAL_CAPACITY](_ => 0);
      length, copied := 0, 0;
    }

    /** Makes room for so many more bytes. */
    method Reserve(extra: nat)
      requires Valid()
      modifies this`buffer, this`copied
      ensures length <= buffer.Length && Contents() == old(Contents())
      ensures length + extra <= buffer.Length
      ensures buffer == old(buffer) || fresh(buffer)
      ensures INITIAL_CAPACITY <= buffer.Length <= Max(INITIAL_CAPACITY, 2 * (length + extra))
      ensures copied <= buffer.Length - INITIAL_CAPACITY
    {
      var required := length + extra;
      if required <= buffer.Length {
        return;
      }
      var grown := new Byte[Max(required, 2 * buffer.Length)](_ => 0);
      for k := 0 to length
        invariant forall i | 0 <= i < k :: grown[i] == buffer[i]
        modifies grown
      {
        grown[k] := buffer[k];
      }
      copied := copied + length;
      buffer := grown;
    }

    method WriteByte(value: Byte)
      requires Valid()
      modifies this, buffer
      ensures Valid() && Contents() == old(Contents()) + [value]
      ensures buffer == old(buffer) || fresh(buffer)
    {
      Reserve(1);
      buffer[length] := value;
      length := length + 1;
    }

    method WriteRaw(data: seq<Byte>)
      requires Valid()
      modifies this, buffer
      ensures Valid() && Contents() == old(Contents()) + data
      ensures buffer == old(buffer) || fresh(buffer)
    {
      Reserve(|data|);
      ghost var before := Contents();
      Set(buffer, data, length);
      length := length + |data|;
      assert buffer[..length] == before + data;
    }

    /** Copies the data into the array from this index on. */
    static method Set(a: array<Byte>, data: seq<Byte>, at: nat)
      requires at + |data| <= a.Length
      modifies a
      ensures a[..at] == old(a[..at]) && a[at..at + |data|] == data
    {
      for k := 0 to |data|
        invariant a[..at] == old(a[..at])
        invariant forall i | 0 <= i < k :: a[at + i] == data[i]
      {
        a[at + k] := data[k];
      }
    }

    /** A snapshot of the bytes in an array of its own. */
    method ToUint8Array() returns (snapshot: array<Byte>)
      requires Valid()
      ensures fresh(snapshot) && snapshot[..] == Contents()
    {
      snapshot := new Byte[length](_ => 0);
      for k := 0 to length
        invariant forall i | 0 <= i < k :: snapshot[i] == buffer[i]
      {
        snapshot[k] := buffer[k];
      }
    }
  }

  // ---------------------------------------------------------------------------
  // Any sequence of writes
  // ---------------------------------------------------------------------------

  datatype Write = One(value: Byte) | Raw(data: seq<Byte>)

  function BytesOf(write: Write): seq<Byte> {
    match write
    case One(value) => [value]
    case Raw(data) => data
  }

  /** What a list of bytes would hold after the writes. */
  function Appended(writes: seq<Write>): seq<Byte> {
    if writes == [] then [] else BytesOf(writes[0]) + Appended(writes[1..])
  }

  lemma {:induction false} AppendedConcat(a: seq<Write>, b: seq<Write>)
    ensures Appended(a + b) == Appended(a) + Appended(b)
  {
    if a == [] {
      assert a + b == b;
    } else {
      assert (a + b)[1..] == a[1..] + b;
      AppendedConcat(a[1..], b);
    }
  }

  method Perform(writer: Writer, write: Write)
    requires writer.Valid()
    modifies writer, writer.buffer
    ensures writer.Valid() && writer.Contents() == old(writer.Contents()) + BytesOf(write)
    ensures writer.buffer == old(writer.buffer) || fresh(writer.buffer)
  {
    match write
    case One(value) => writer.WriteByte(value);
    case Raw(data) => writer.WriteRaw(data);
  }

  method PerformAll(writer: Writer, writes: seq<Write>)
    requires writer.Valid()
    modifies writer, writer.buffer
    ensures writer.Valid() && writer.Contents() == old(writer.Contents()) + Appended(writes)
    ensures writer.buffer == old(writer.buffer) || fresh(writer.buffer)
    decreases writes
  {
    if writes == [] {
      return;
    }
    ghost var first := writer.Contents();
    Perform(writer, writes[0]);
    PerformAll(writer, writes[1..]);
    AppendedFirst(first, writes);
  }

  lemma AppendedFirst(first: seq<Byte>, writes: seq<Write>)
    requires writes != []
    ensures first + BytesOf(writes[0]) + Appended(writes[1..]) == first + Appended(writes)
  {
  }

  /**
   A new writer after any writes holds what the list would hold, in a buffer of at
   most twice that size, and has copied fewer bytes than the buffer has room for.
   A snapshot taken in between still holds what it held.
   */
  method RunWrites(before: seq<Write>, after: seq<Write>) returns (writer: Writer, snapshot: array<Byte>)
    ensures fresh(writer) && fresh(snapshot)
    ensures snapshot[..] == Appended(before)
    ensures writer.Valid() && writer.Contents() == Appended(before + after)
    ensures writer.buffer.Length <= Max(INITIAL_CAPACITY, 2 * |Appended(before + after)|)
    ensures writer.copied + INITIAL_CAPACITY <= writer.buffer.Length
  {
    writer := new Writer();
    PerformAll(writer, before);
    snapshot := writer.ToUint8Array();
    PerformAll(writer, after);
    AppendedConcat(before, after);
  }
}
