/**
 Ranges of row keys: `RowRange` of the Bigtable client. An endpoint is unset, closed
 or open. An unset start means "from the first key", an unset end means "to infinity".
 */
module RowRanges {
  import opened ByteStrings

  datatype Endpoint = Unset | Closed(key: Bytes) | Open(key: Bytes)

  /** True iff `b` is `a` with a zero byte appended. */
  predicate Consecutive(a: Bytes, b: Bytes) {
    if |b| != |a| + 1 then false
    else if b[|b| - 1] != 0 then false
    else b[..|a|] == a
  }

  datatype RowRange = RowRange(start: Endpoint, end: Endpoint) {

    predicate BelowStart(key: Bytes) {
      match start
      case Unset => false
      case Closed(s) => Less(key, s)
      case Open(s) => AtMost(key, s)
    }

    predicate AboveEnd(key: Bytes) {
      match end
      case Unset => false
      case Closed(e) => Less(e, key)
      case Open(e) => AtMost(e, key)
    }

    predicate Contains(key: Bytes) {
      !BelowStart(key) && !AboveEnd(key)
    }

    predicate IsEmpty() {
      var startKey := if start.Unset? then [] else start.key;
      if end.Unset? then false
      else if start.Open? && end.Open? && Consecutive(startKey, end.key) then true
      else if startKey == end.key then start.Open? || end.Open?
      else Less(end.key, startKey)
    }

    /** Narrows a copy of this range by the endpoints of `range`. */
    method Intersect(range: RowRange) returns (found: bool, result: RowRange)
      ensures found <==> exists k :: Contains(k) && range.Contains(k)
      ensures found ==> forall k :: result.Contains(k) <==> Contains(k) && range.Contains(k)
    {
      StrictTotalOrder();
      IsEmptyIsExact(range);
      if range.IsEmpty() {
        return false, Empty();
      }
      result := this;
      if range.start.Closed? {
        if result.AboveEnd(range.start.key) {
          return false, Empty();
        }
        if result.Contains(range.start.key) {
          result := result.(start := Closed(range.start.key));
        }
      } else if range.start.Open? {
        if result.AboveEnd(range.start.key) {
          return false, Empty();
        }
        if result.Contains(range.start.key) {
          result := result.(start := Open(range.start.key));
        }
      }
      assert forall k :: result.Contains(k) <==> Contains(k) && !range.BelowStart(k);
      if range.end.Closed? {
        if result.BelowStart(range.end.key) {
          return false, Empty();
        }
        if result.Contains(range.end.key) {
          result := result.(end := Closed(range.end.key));
        }
      } else if range.end.Open? {
        if result.BelowStart(range.end.key) {
          return false, Empty();
        }
        if result.Contains(range.end.key) {
          result := result.(end := Open(range.end.key));
        }
      }
      assert forall k :: result.Contains(k) <==> Contains(k) && range.Contains(k);
      IsEmptyIsExact(result);
      found := !result.IsEmpty();
    }
  }

  /** Membership, by the order of byte strings alone. */
  lemma {:induction false} ContainsIsExact(r: RowRange, k: Bytes)
    ensures r.Contains(k) <==>
            && (match r.start
                case Unset => true
                case Closed(s) => k == s || Less(s, k)
                case Open(s) => Less(s, k))
            && (match r.end
                case Unset => true
                case Closed(e) => k == e || Less(k, e)
                case Open(e) => Less(k, e))
  {
    StrictTotalOrder();
  }

  /** A range that contains no key; its end cannot be "", which would mean infinity. */
  function Empty(): (r: RowRange)
    ensures forall k :: !r.Contains(k)
  {
    var r := RowRange(Open([]), Open([0]));
    IsEmptyIsExact(r);
    r
  }

  /** `[begin, end)`, where an empty `end` means infinity. */
  function RightOpen(begin: Bytes, end: Bytes): (r: RowRange)
    ensures forall k :: r.Contains(k) <==> AtMost(begin, k) && (end == [] || Less(k, end))
  {
    StrictTotalOrder();
    RowRange(Closed(begin), if end != [] then Open(end) else Unset)
  }

  /** `(begin, end)`, where an empty `end` means infinity. */
  function OpenRange(begin: Bytes, end: Bytes): (r: RowRange)
    ensures forall k :: r.Contains(k) <==> Less(begin, k) && (end == [] || Less(k, end))
  {
    StrictTotalOrder();
    RowRange(Open(begin), if end != [] then Open(end) else Unset)
  }

  /** `a < b` with nothing strictly between them. */
  ghost predicate Adjacent(a: Bytes, b: Bytes) {
    Less(a, b) && !exists c :: Less(a, c) && Less(c, b)
  }

  lemma {:induction false} ConsecutiveIsAppendZero(a: Bytes, b: Bytes)
    ensures Consecutive(a, b) <==> b == a + [0]
  {
    if Consecutive(a, b) {
      assert b == b[..|a|] + [b[|a|]];
    }
  }

  /** The one-line test of the code decides adjacency in the order. */
  lemma {:induction false} ConsecutiveIsAdjacent(a: Bytes, b: Bytes)
    ensures Consecutive(a, b) <==> Adjacent(a, b)
  {
    StrictTotalOrder();
    ConsecutiveIsAppendZero(a, b);
    SuccessorIsLeast(a, b);
    if Consecutive(a, b) {
      forall c | Less(a, c) ensures !Less(c, b) {
        SuccessorIsLeast(a, c);
      }
    }
  }

  /** `IsEmpty` holds exactly when no byte string is in the range. */
  lemma {:induction false} IsEmptyIsExact(r: RowRange)
    ensures r.IsEmpty() <==> forall k :: !r.Contains(k)
  {
    StrictTotalOrder();
    if !r.start.Open? {
      var s := if r.start.Unset? then [] else r.start.key;
      assert !r.BelowStart(s);
      if r.IsEmpty() {
        forall k ensures !r.Contains(k) {
          assert !Less(k, []);
        }
      } else {
        assert r.Contains(s);
      }
    } else {
      var s := r.start.key + [0];
      SuccessorIsLeast(r.start.key, s);
      if r.end.Unset? {
        assert r.Contains(s);
      } else {
        ConsecutiveIsAppendZero(r.start.key, r.end.key);
        SuccessorIsLeast(r.start.key, r.end.key);
        if r.IsEmpty() {
          forall k ensures !r.Contains(k) {
            SuccessorIsLeast(r.start.key, k);
          }
        } else {
          assert r.Contains(s);
        }
      }
    }
  }
}
