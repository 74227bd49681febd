/** Byte strings in the order of `memcmp` over the common bytes, and then of length. */
module ByteStrings {
  import opened Bytes

  /** The lexicographic order of unsigned bytes; a proper prefix comes first. */
  predicate LexLeq(a: seq<Byte>, b: seq<Byte>) {
    a == [] || (b != [] && (a[0] < b[0] || (a[0] == b[0] && LexLeq(a[1..], b[1..]))))
  }

  lemma {:induction false} LexTotal(a: seq<Byte>, b: seq<Byte>)
    ensures LexLeq(a, b) || LexLeq(b, a)
  {
    if a != [] && b != [] {
      LexTotal(a[1..], b[1..]);
    }
  }

  lemma {:induction false} LexTransitive(a: seq<Byte>, b: seq<Byte>, c: seq<Byte>)
    requires LexLeq(a, b) && LexLeq(b, c)
    ensures LexLeq(a, c)
  {
    if a != [] && b != [] && c != [] && a[0] == b[0] == c[0] {
      LexTransitive(a[1..], b[1..], c[1..]);
    }
  }

  lemma {:induction false} LexAntisymmetric(a: seq<Byte>, b: seq<Byte>)
    requires LexLeq(a, b) && LexLeq(b, a)
    ensures a == b
  {
    if a != [] && b != [] {
      LexAntisymmetric(a[1..], b[1..]);
      assert a == [a[0]] + a[1..] && b == [b[0]] + b[1..];
    }
  }

  /** The sign of `memcmp` on the first `n` bytes. */
  method MemCmp(a: seq<Byte>, b: seq<Byte>, n: nat) returns (order: int)
    requires n <= |a| && n <= |b|
    ensures order == 0 <==> a[..n] == b[..n]
    ensures order != 0 ==> exists k ::
      0 <= k < n && a[..k] == b[..k] && a[k] != b[k] && (order < 0 <==> a[k] < b[k])
  {
    var k := 0;
    while k < n
      invariant 0 <= k <= n && a[..k] == b[..k]
    {
      if a[k] != b[k] {
        assert a[..n][k] != b[..n][k];
        return (a[k] as int) - (b[k] as int);
      }
      k := k + 1;
    }
    return 0;
  }

  lemma {:induction false} FirstDifferenceDecides(a: seq<Byte>, b: seq<Byte>, k: nat)
    requires k < |a| && k < |b| && a[..k] == b[..k] && a[k] != b[k]
    ensures LexLeq(a, b) <==> a[k] < b[k]
  {
    if k == 0 {
    } else {
      assert a[0] == a[..k][0] == b[..k][0] == b[0];
      assert a[1..][..k - 1] == a[..k][1..] == b[..k][1..] == b[1..][..k - 1];
      FirstDifferenceDecides(a[1..], b[1..], k - 1);
    }
  }

  lemma {:induction false} PrefixComesFirst(a: seq<Byte>, b: seq<Byte>)
    requires a <= b
    ensures LexLeq(a, b)
  {
    if a == [] {
    } else {
      assert a[1..] <= b[1..];
      PrefixComesFirst(a[1..], b[1..]);
    }
  }

  /** The one begins the other, or is smaller where they first differ. */
  ghost predicate NotBehind(a: seq<Byte>, b: seq<Byte>) {
    a <= b || exists k: nat :: SmallerAt(a, b, k)
  }

  ghost predicate SmallerAt(a: seq<Byte>, b: seq<Byte>, k: nat) {
    k < |a| && k < |b| && a[..k] == b[..k] && a[k] < b[k]
  }

  /** What the recursion computes is decided where the strings first differ. */
  lemma {:induction false} LexIsFirstDifference(a: seq<Byte>, b: seq<Byte>)
    ensures LexLeq(a, b) <==> NotBehind(a, b)
  {
    if a <= b {
      PrefixComesFirst(a, b);
    } else if exists k: nat :: SmallerAt(a, b, k) {
      var k: nat :| SmallerAt(a, b, k);
      FirstDifferenceDecides(a, b, k);
    } else if LexLeq(a, b) {
      NothingSmaller(a, b);
    }
  }

  lemma SmallerBehind(a: seq<Byte>, b: seq<Byte>, k: nat)
    requires a != [] && b != [] && a[0] == b[0] && SmallerAt(a[1..], b[1..], k)
    ensures SmallerAt(a, b, k + 1)
  {
    assert a[..k + 1] == [a[0]] + a[1..][..k] && b[..k + 1] == [b[0]] + b[1..][..k];
  }

  lemma TailsCompare(a: seq<Byte>, b: seq<Byte>)
    requires a != [] && b != [] && a[0] == b[0]
    ensures forall k: nat | SmallerAt(a[1..], b[1..], k) :: SmallerAt(a, b, k + 1)
  {
    forall k: nat | SmallerAt(a[1..], b[1..], k) ensures SmallerAt(a, b, k + 1) {
      SmallerBehind(a, b, k);
    }
  }

  lemma {:induction false} NothingSmaller(a: seq<Byte>, b: seq<Byte>)
    requires LexLeq(a, b) && forall k: nat :: !SmallerAt(a, b, k)
    ensures a <= b
  {
    if a != [] {
      assert !SmallerAt(a, b, 0);
      TailsCompare(a, b);
      NothingSmaller(a[1..], b[1..]);
      assert a == [a[0]] + a[1..] && b == [b[0]] + b[1..];
    }
  }

  /** The emitted comparison: the common bytes, and then the lengths. */
  method Compare(a: seq<Byte>, b: seq<Byte>) returns (order: int)
    ensures order == 0 <==> a == b
    ensures order <= 0 <==> LexLeq(a, b)
  {
    var common := if |a| < |b| then |a| else |b|;
    order := MemCmp(a, b, common);
    if order != 0 {
      var k :| 0 <= k < common && a[..k] == b[..k] && a[k] != b[k] && (order < 0 <==> a[k] < b[k]);
      FirstDifferenceDecides(a, b, k);
      return order;
    }
    if |a| <= |b| {
      PrefixComesFirst(a, b);
    }
    if |b| <= |a| {
      PrefixComesFirst(b, a);
    }
    if LexLeq(a, b) && LexLeq(b, a) {
      LexAntisymmetric(a, b);
    }
    return (if |a| > |b| then 1 else 0) - (if |a| < |b| then 1 else 0);
  }
}
