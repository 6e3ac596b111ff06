/**
 Byte strings under the order of `std::string`: bytes are compared as unsigned
 values from the front, and a proper prefix comes first.
 */
module ByteStrings {

  type Byte = b: int | 0 <= b < 256
  type Bytes = seq<Byte>

  /** `a < b` for `std::string`. */
  predicate Less(a: Bytes, b: Bytes) {
    b != [] && (a == [] || a[0] < b[0] || (a[0] == b[0] && Less(a[1..], b[1..])))
  }

  /** `a <= b` for `std::string`, which the library derives from the same comparison. */
  predicate AtMost(a: Bytes, b: Bytes) {
    !Less(b, a)
  }

  /** `k` is the first place where the strings differ, and `a` is the smaller there. */
  ghost predicate SmallerAt(a: Bytes, b: Bytes, k: nat) {
    && k <= |a|
    && k < |b|
    && a[..k] == b[..k]
    && (k < |a| ==> a[k] < b[k])
  }

  lemma {:induction false} LessIrreflexive(a: Bytes)
    ensures !Less(a, a)
  {
    if a != [] {
      LessIrreflexive(a[1..]);
    }
  }

  lemma {:induction false} LessTransitive(a: Bytes, b: Bytes, c: Bytes)
    requires Less(a, b) && Less(b, c)
    ensures Less(a, c)
  {
    if a != [] && a[0] == b[0] == c[0] {
      LessTransitive(a[1..], b[1..], c[1..]);
    }
  }

  lemma {:induction false} LessTotal(a: Bytes, b: Bytes)
    ensures Less(a, b) || a == b || Less(b, a)
  {
    if a != [] && b != [] && a[0] == b[0] {
      LessTotal(a[1..], b[1..]);
      assert a == [a[0]] + a[1..] && b == [b[0]] + b[1..];
    }
  }

  /** The order is a strict total order: the facts interval reasoning needs, in one place. */
  lemma {:induction false} StrictTotalOrder()
    ensures forall a: Bytes :: !Less(a, a)
    ensures forall a: Bytes, b: Bytes :: Less(a, b) || a == b || Less(b, a)
    ensures forall a: Bytes, b: Bytes, c: Bytes :: Less(a, b) && Less(b, c) ==> Less(a, c)
    ensures forall a: Bytes, b: Bytes :: Less(a, b) ==> !Less(b, a)
  {
    forall a: Bytes ensures !Less(a, a) { LessIrreflexive(a); }
    forall a: Bytes, b: Bytes ensures Less(a, b) || a == b || Less(b, a) { LessTotal(a, b); }
    forall a: Bytes, b: Bytes, c: Bytes | Less(a, b) && Less(b, c) ensures Less(a, c) {
      LessTransitive(a, b, c);
    }
  }

  /** The recursive order is the order by first difference. */
  lemma {:induction false} LessIsFirstDifference(a: Bytes, b: Bytes)
    ensures Less(a, b) <==> exists k: nat :: SmallerAt(a, b, k)
  {
    if Less(a, b) {
      if a == [] || a[0] < b[0] {
        assert SmallerAt(a, b, 0);
      } else {
        LessIsFirstDifference(a[1..], b[1..]);
        var k: nat :| SmallerAt(a[1..], b[1..], k);
        assert a[..k + 1] == [a[0]] + a[1..][..k];
        assert b[..k + 1] == [b[0]] + b[1..][..k];
        assert SmallerAt(a, b, k + 1);
      }
    }
    if k: nat :| SmallerAt(a, b, k) {
      FirstDifferenceIsLess(a, b, k);
    }
  }

  lemma {:induction false} FirstDifferenceIsLess(a: Bytes, b: Bytes, k: nat)
    requires SmallerAt(a, b, k)
    ensures Less(a, b)
  {
    if k > 0 {
      assert a[0] == a[..k][0] == b[..k][0] == b[0];
      assert a[1..][..k - 1] == a[..k][1..] == b[..k][1..] == b[1..][..k - 1];
      FirstDifferenceIsLess(a[1..], b[1..], k - 1);
    }
  }

  /** Appending a zero byte gives the immediate successor of a string. */
  lemma {:induction false} SuccessorIsLeast(a: Bytes, b: Bytes)
    ensures Less(a, a + [0])
    ensures Less(a, b) <==> AtMost(a + [0], b)
  {
    if a == [] {
      assert b != [] ==> !Less(b[1..], []);
    } else {
      assert (a + [0])[1..] == a[1..] + [0];
      SuccessorIsLeast(a[1..], if b == [] then [] else b[1..]);
    }
  }
}
