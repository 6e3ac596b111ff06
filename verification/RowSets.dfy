/** Sets of row keys: explicit keys and ranges, where no entry at all means "all rows". */
module RowSets {
  import opened ByteStrings
  import opened RowRanges

  datatype RowSet = RowSet(rowKeys: seq<Bytes>, rowRanges: seq<RowRange>) {

    predicate HasEntries() {
      rowKeys != [] || rowRanges != []
    }

    ghost predicate InSomeRange(key: Bytes) {
      exists i :: 0 <= i < |rowRanges| && rowRanges[i].Contains(key)
    }

    /** The keys that a ReadRows call with this set asks for. */
    ghost predicate Denotes(key: Bytes) {
      HasEntries() ==> key in rowKeys || InSomeRange(key)
    }

    method Intersect(range: RowRange) returns (result: RowSet)
      ensures forall k :: result.Denotes(k) <==> Denotes(k) && range.Contains(k)
      ensures result.HasEntries()
    {
      if !HasEntries() {
        result := RowSet([], [range]);
        assert forall k :: range.Contains(k) ==> result.rowRanges[0].Contains(k);
        return;
      }
      result := RowSet([], []);
      for i := 0 to |rowKeys|
        invariant result.rowRanges == []
        invariant forall k :: k in result.rowKeys <==> k in rowKeys[..i] && range.Contains(k)
      {
        if range.Contains(rowKeys[i]) {
          result := result.(rowKeys := result.rowKeys + [rowKeys[i]]);
        }
      }
      for i := 0 to |rowRanges|
        invariant forall k :: k in result.rowKeys <==> k in rowKeys && range.Contains(k)
        invariant forall k :: result.InSomeRange(k) <==>
            range.Contains(k) && exists j :: 0 <= j < i && rowRanges[j].Contains(k)
      {
        var found, common := range.Intersect(rowRanges[i]);
        if found {
          ghost var before := result;
          result := result.(rowRanges := result.rowRanges + [common]);
          InSomeRangeAppend(before, common);
        }
      }
      if !result.HasEntries() {
        assert forall k :: !result.InSomeRange(k);
        result := RowSet([], [Empty()]);
      }
    }

    method IsEmpty() returns (empty: bool)
      ensures empty <==> forall k :: !Denotes(k)
    {
      if |rowKeys| > 0 {
        assert Denotes(rowKeys[0]);
        return false;
      }
      for i := 0 to |rowRanges|
        invariant forall j, k :: 0 <= j < i ==> !rowRanges[j].Contains(k)
      {
        IsEmptyIsExact(rowRanges[i]);
        if !rowRanges[i].IsEmpty() {
          ghost var k :| rowRanges[i].Contains(k);
          assert Denotes(k);
          return false;
        }
      }
      empty := |rowRanges| > 0;
      assert !empty ==> Denotes([]);
    }
  }

  lemma {:induction false} InSomeRangeAppend(s: RowSet, r: RowRange)
    ensures forall k :: s.(rowRanges := s.rowRanges + [r]).InSomeRange(k) <==> s.InSomeRange(k) || r.Contains(k)
  {
    var t := s.(rowRanges := s.rowRanges + [r]);
    forall k ensures t.InSomeRange(k) <==> s.InSomeRange(k) || r.Contains(k) {
      if i :| 0 <= i < |s.rowRanges| && s.rowRanges[i].Contains(k) {
        assert t.rowRanges[i].Contains(k);
      }
      assert t.rowRanges[|s.rowRanges|] == r;
    }
  }
}
