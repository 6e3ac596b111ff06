/** The range of all keys with a given prefix: `RowRange::Prefix` over `PrefixRangeEnd`. */
module PrefixRanges {
  import opened ByteStrings
  import opened RowRanges

  /** The last position whose byte is not 0xFF, or -1. */
  function LastNotFF(key: Bytes): (pos: int)
    ensures -1 <= pos < |key|
    ensures pos >= 0 ==> key[pos] != 255
    ensures forall i :: pos < i < |key| ==> key[i] == 255
  {
    if key == [] then -1
    else if key[|key| - 1] != 255 then |key| - 1
    else LastNotFF(key[..|key| - 1])
  }

  /** Increments the last byte that is not 0xFF and turns the trailing 0xFF bytes into zeroes. */
  function PrefixRangeEnd(key: Bytes): Bytes {
    var pos := LastNotFF(key);
    if pos == -1 then [] else key[..pos] + [key[pos] + 1] + seq(|key| - pos - 1, _ => 0)
  }

  function Prefix(prefix: Bytes): RowRange {
    RightOpen(prefix, PrefixRangeEnd(prefix))
  }

  /** What a caller can check: the prefix ends in a byte below 0xFF, or has only 0xFF bytes. */
  predicate NoMixedTrailingFF(p: Bytes) {
    p == [] || p[|p| - 1] != 255 || forall i :: 0 <= i < |p| ==> p[i] == 255
  }

  lemma {:induction false} PrefixAtMost(p: Bytes, k: Bytes)
    requires p <= k
    ensures AtMost(p, k)
  {
    LessIsFirstDifference(k, p);
    assert forall j: nat :: !SmallerAt(k, p, j);
  }

  /** No key with the prefix is missed, whatever the prefix. */
  lemma {:induction false} PrefixRangeIsComplete(p: Bytes, k: Bytes)
    requires p <= k
    ensures Prefix(p).Contains(k)
  {
    PrefixAtMost(p, k);
    var pos := LastNotFF(p);
    if pos >= 0 {
      assert SmallerAt(k, PrefixRangeEnd(p), pos);
      FirstDifferenceIsLess(k, PrefixRangeEnd(p), pos);
    }
  }

  lemma {:induction false} AllFFHasNoUpperNeighbour(p: Bytes, k: Bytes)
    requires forall i :: 0 <= i < |p| ==> p[i] == 255
    requires AtMost(p, k)
    ensures p <= k
  {
    if p != [] {
      AllFFHasNoUpperNeighbour(p[1..], k[1..]);
      assert p == [p[0]] + p[1..] && k == [k[0]] + k[1..];
    }
  }

  lemma {:induction false} BumpedLastByteIsTight(p: Bytes, k: Bytes)
    requires p != [] && p[|p| - 1] != 255
    requires AtMost(p, k) && Less(k, p[..|p| - 1] + [p[|p| - 1] + 1])
    ensures p <= k
  {
    var e := p[..|p| - 1] + [p[|p| - 1] + 1];
    if |p| > 1 {
      assert e[1..] == p[1..][..|p| - 2] + [p[|p| - 1] + 1];
      BumpedLastByteIsTight(p[1..], k[1..]);
      assert p == [p[0]] + p[1..] && k == [k[0]] + k[1..];
    } else {
      assert e[1..] == [];
    }
  }

  /**
   The range holds the prefixed keys and nothing else exactly when the prefix has no
   0xFF tail after a smaller byte. Otherwise the end is too high: it keeps zero bytes
   where the tail was, and lets in keys shorter than the prefix.
   */
  lemma {:induction false} PrefixRangeIsExact(p: Bytes)
    ensures (forall k :: Prefix(p).Contains(k) <==> p <= k) <==> NoMixedTrailingFF(p)
  {
    var pos := LastNotFF(p);
    forall k | p <= k ensures Prefix(p).Contains(k) {
      PrefixRangeIsComplete(p, k);
    }
    if NoMixedTrailingFF(p) {
      forall k | Prefix(p).Contains(k) ensures p <= k {
        if pos == -1 {
          AllFFHasNoUpperNeighbour(p, k);
        } else {
          assert PrefixRangeEnd(p) == p[..|p| - 1] + [p[|p| - 1] + 1];
          BumpedLastByteIsTight(p, k);
        }
      }
    } else {
      var k := TooHighKey(p);
      assert Prefix(p).Contains(k) && !(p <= k);
    }
  }

  lemma {:induction false} TooHighKey(p: Bytes) returns (k: Bytes)
    requires !NoMixedTrailingFF(p)
    ensures Prefix(p).Contains(k) && !(p <= k)
  {
    var pos := LastNotFF(p);
    k := p[..pos] + [p[pos] + 1];
    assert SmallerAt(p, k, pos);
    FirstDifferenceIsLess(p, k, pos);
    assert SmallerAt(k, PrefixRangeEnd(p), |k|);
    FirstDifferenceIsLess(k, PrefixRangeEnd(p), |k|);
    StrictTotalOrder();
  }

  /** The range for the prefix "a\xFF" contains the key "b". */
  lemma {:induction false} PrefixRangeCounterexample()
    ensures Prefix([97, 255]).Contains([98]) && !([97, 255] <= [98])
  {
    assert LastNotFF([97, 255]) == 0 by {
      assert [97, 255][..1] == [97];
    }
    assert PrefixRangeEnd([97, 255]) == [98, 0];
    assert Less([], [0]);
    assert [98, 0][1..] == [0];
  }
}
