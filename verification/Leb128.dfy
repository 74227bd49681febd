/**
 Unsigned LEB128 integers of at most 32 bits, as section 5.2.2 of the WebAssembly
 Core Specification defines them.

 The shifts and bit masks of the source are written as arithmetic: `byte & 0x7F`
 is `byte % 128`, and or-ing in a group above all earlier ones is an addition.
 */
module Leb128 {
  import opened Results
  import opened Bytes

  const MAX_U32: nat := 0xFFFF_FFFF

  datatype LebError = Overflow | Unterminated | OutsideU32

  // ---------------------------------------------------------------------------
  // The number a group sequence stands for
  // ---------------------------------------------------------------------------

  /** How many bytes the number at `offset` takes, if one ends within `budget` bytes. */
  function LebLength(data: seq<Byte>, offset: nat, budget: nat): (n: Option<nat>)
    ensures n.Some? ==> 0 < n.value <= budget && offset + n.value <= |data|
    decreases |data| - offset
  {
    if offset >= |data| || budget == 0 then None
    else if data[offset] < 128 then Some(1)
    else
      var rest := LebLength(data, offset + 1, budget - 1);
      if rest.None? then None else Some(rest.value + 1)
  }

  /** Seven bits a byte, least significant group first. */
  function LebValue(data: seq<Byte>, offset: nat, n: nat): nat
    requires offset + n <= |data|
    decreases n
  {
    if n == 0 then 0 else data[offset] % 128 + 128 * LebValue(data, offset + 1, n - 1)
  }

  /** The u32 at `offset` and the offset after it. */
  function DecodedU32(data: seq<Byte>, offset: nat): Result<(nat, nat), LebError> {
    var n := LebLength(data, offset, 5);
    if n.None? then Err(Unterminated)
    else
      var value := LebValue(data, offset, n.value);
      if value > MAX_U32 then Err(Overflow) else Ok((value, offset + n.value))
  }

  /** The shortest encoding. */
  function Leb(value: nat): (bytes: seq<Byte>)
    ensures bytes != []
  {
    if value < 128 then [value] else [value % 128 + 128] + Leb(value / 128)
  }

  function Pow128(n: nat): nat {
    if n == 0 then 1 else 128 * Pow128(n - 1)
  }

  /** A group added at the end counts 128 to the number of groups before it. */
  lemma {:induction false} LebValueAppend(data: seq<Byte>, offset: nat, n: nat)
    requires offset + n < |data|
    ensures LebValue(data, offset, n + 1) == LebValue(data, offset, n) + Pow128(n) * (data[offset + n] % 128)
    decreases n
  {
    if n == 0 {
    } else {
      LebValueAppend(data, offset + 1, n - 1);
      var rest, scale, last := LebValue(data, offset + 1, n - 1), Pow128(n - 1), data[offset + n] % 128;
      assert 128 * (rest + scale * last) == 128 * rest + 128 * scale * last;
    }
  }

  ghost predicate SameBytes(a: seq<Byte>, i: nat, b: seq<Byte>, j: nat, n: nat) {
    i + n <= |a| && j + n <= |b| && forall k :: i <= k < i + n ==> a[k] == b[k - i + j]
  }

  /** Decoding looks at nothing but the bytes of the number. */
  lemma {:induction false} LebIsLocal(a: seq<Byte>, i: nat, b: seq<Byte>, j: nat, budget: nat)
    requires LebLength(a, i, budget).Some? && SameBytes(a, i, b, j, LebLength(a, i, budget).value)
    ensures LebLength(b, j, budget) == LebLength(a, i, budget)
    ensures LebValue(b, j, LebLength(a, i, budget).value) == LebValue(a, i, LebLength(a, i, budget).value)
    decreases budget
  {
    if a[i] >= 128 {
      LebIsLocal(a, i + 1, b, j + 1, budget - 1);
    }
  }

  lemma DecodedIsLocal(a: seq<Byte>, i: nat, b: seq<Byte>, j: nat)
    requires DecodedU32(a, i).Ok?
    requires SameBytes(a, i, b, j, DecodedU32(a, i).value.1 - i)
    ensures DecodedU32(b, j) == Ok((DecodedU32(a, i).value.0, DecodedU32(a, i).value.1 - i + j))
  {
    LebIsLocal(a, i, b, j, 5);
  }

  /** One more low group in front of a number. */
  lemma GroupInFront(low: nat, rest: seq<Byte>, budget: nat)
    requires low < 128 && 1 < budget && LebLength(rest, 0, budget - 1) == Some(|rest|)
    ensures LebLength([low + 128] + rest, 0, budget) == Some(|rest| + 1)
    ensures LebValue([low + 128] + rest, 0, |rest| + 1) == low + 128 * LebValue(rest, 0, |rest|)
  {
    LebIsLocal(rest, 0, [low + 128] + rest, 1, budget - 1);
  }

  lemma {:induction false} LebMeaning(value: nat, budget: nat)
    requires 0 < budget && value < Pow128(budget)
    ensures LebLength(Leb(value), 0, budget) == Some(|Leb(value)|)
    ensures LebValue(Leb(value), 0, |Leb(value)|) == value
  {
    if value >= 128 {
      assert Pow128(budget) == 128 * Pow128(budget - 1) && Pow128(0) == 1;
      LebMeaning(value / 128, budget - 1);
      GroupInFront(value % 128, Leb(value / 128), budget);
    }
  }

  /** Decoding an encoded u32, wherever it stands and whatever follows, gives it back. */
  lemma DecodeEncode(before: seq<Byte>, value: nat, rest: seq<Byte>)
    requires value <= MAX_U32
    ensures DecodedU32(before + Leb(value) + rest, |before|) == Ok((value, |before| + |Leb(value)|))
  {
    assert value < Pow128(5) by {
      assert Pow128(5) == 128 * (128 * (128 * (128 * (128 * Pow128(0)))));
    }
    LebMeaning(value, 5);
    DecodedIsLocal(Leb(value), 0, before + Leb(value) + rest, |before|);
  }

  /** The encoding is canonical: no encoding of a number is shorter. */
  lemma {:induction false} LebIsShortest(data: seq<Byte>, offset: nat, n: nat)
    requires 0 < n && offset + n <= |data|
    ensures |Leb(LebValue(data, offset, n))| <= n
    decreases n
  {
    if n > 1 {
      LebIsShortest(data, offset + 1, n - 1);
      assert LebValue(data, offset, n) / 128 == LebValue(data, offset + 1, n - 1);
    }
  }

  // ---------------------------------------------------------------------------
  // The loops
  // ---------------------------------------------------------------------------

  /** `groups` bytes with a continuation bit lie between `start` and the rest of the number. */
  ghost predicate Continued(data: seq<Byte>, start: nat, groups: nat) {
    groups <= 5 &&
    var rest := LebLength(data, start + groups, 5 - groups);
    LebLength(data, start, 5) == if rest.None? then None else Some(rest.value + groups)
  }

/** The value of the groups read so far, and what the next one counts. */
  ghost predicate ReadSoFar(data: seq<Byte>, start: nat, groups: nat, value: int, scale: int) {
    && scale == Pow128(groups)
    && (groups == 0 ==> value == 0)
    && (groups > 0 ==> start + groups <= |data| && value == LebValue(data, start, groups))
  }

  lemma ReadOneMore(data: seq<Byte>, start: nat, groups: nat, value: int, scale: int)
    requires start + groups < |data| && ReadSoFar(data, start, groups, value, scale)
    ensures ReadSoFar(data, start, groups + 1, value + scale * (data[start + groups] % 128), 128 * scale)
  {
    LebValueAppend(data, start, groups);
  }

  lemma GroupContinues(data: seq<Byte>, start: nat, groups: nat)
    requires start + groups < |data| && groups < 5 && Continued(data, start, groups)
    ensures data[start + groups] >= 128 ==> Continued(data, start, groups + 1)
    ensures data[start + groups] < 128 ==> LebLength(data, start, 5) == Some(groups + 1)
  {
  }

  method DecodeU32(data: seq<Byte>, start: nat) returns (r: Result<(nat, nat), LebError>)
    ensures r == DecodedU32(data, start)
  {
    var value, shift, scale, offset := 0, 0, 1, start;
    ghost var groups := 0;
    while offset < |data| && shift < 35
      invariant offset == start + groups && shift == 7 * groups
      invariant Continued(data, start, groups) && ReadSoFar(data, start, groups, value, scale)
      decreases |data| - offset
    {
      GroupContinues(data, start, groups);
      ReadOneMore(data, start, groups, value, scale);
      var byte := data[offset];
      value := value + scale * (byte % 128);
      offset := offset + 1;
      if byte < 128 {
        if value > MAX_U32 {
          return Err(Overflow);
        }
        return Ok((value, offset));
      }
      shift, scale := shift + 7, 128 * scale;
      groups := groups + 1;
    }
    return Err(Unterminated);
  }

  lemma WriteOneGroup(encoded: seq<Byte>, left: nat)
    ensures left / 128 != 0 ==> encoded + Leb(left) == encoded + [left % 128 + 128] + Leb(left / 128)
    ensures left / 128 == 0 ==> encoded + Leb(left) == encoded + [left % 128]
  {
  }

  method EncodeU32(value: int) returns (r: Result<seq<Byte>, LebError>)
    ensures r == if 0 <= value <= MAX_U32 then Ok(Leb(value)) else Err(OutsideU32)
  {
    if value < 0 || value > MAX_U32 {
      return Err(OutsideU32);
    }
    var left := value;
    var encoded: seq<Byte> := [];
    while true
      invariant left >= 0 && encoded + Leb(left) == Leb(value)
      decreases left
    {
      var byte := left % 128;
      var next := left / 128;
      WriteOneGroup(encoded, left);
      encoded := encoded + [byte + if next != 0 then 128 else 0];
      if next == 0 {
        return Ok(encoded);
      }
      left := next;
    }
  }
}
