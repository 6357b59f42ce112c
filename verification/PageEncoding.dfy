/** Choosing how an update record carries a page change: full images, byte ranges, or whichever of
    the two makes the shorter record. */
module PageEncoding {
  import opened PageDelta
  import opened WalLog
  import opened CrashModel

  datatype UpdateMode = FullPage | ByteRange | Adaptive

  const RECORD_HEADER: nat := 48
  const DELTA_HEADER: nat := 32
  const RANGE_HEADER: nat := 4
  const FULL_PAGE_PAYLOAD: nat := 24 + 2 * PAGE_SIZE

  function RangesSize(ranges: seq<Range>): (r: nat) {
    if ranges == [] then 0 else RangesSize(ranges[..|ranges| - 1]) + RANGE_HEADER + 2 * ranges[|ranges| - 1].length
  }

  function RecordSize(change: Change): (r: nat) {
    match change
    case FullImage(_, _) => RECORD_HEADER + FULL_PAGE_PAYLOAD
    case ByteRanges(ranges) => RECORD_HEADER + DELTA_HEADER + RangesSize(ranges)
  }

  function End(r: Range): (res: nat) { r.offset + r.length }

  // ---- The ranges of a change are unique ----

  lemma {:induction false} Ordered(ranges: seq<Range>, i: nat, j: nat)
    requires WellFormed(ranges) && i < j < |ranges|
    ensures End(ranges[i]) < ranges[j].offset
    decreases j
  {
    assert End(ranges[j - 1]) < ranges[j].offset;
    if i < j - 1 {
      Ordered(ranges, i, j - 1);
      assert InPage(ranges[j - 1]);
    }
  }

  /** An offset between two ranges, or right behind one, is in no range. */
  lemma Gap(ranges: seq<Range>, k: nat, o: nat)
    requires WellFormed(ranges) && k <= |ranges|
    requires 0 < k ==> End(ranges[k - 1]) <= o
    requires k < |ranges| ==> o < ranges[k].offset
    ensures !Covered(ranges, o)
  {
    if Covered(ranges, o) {
      var i :| 0 <= i < |ranges| && Within(ranges[i], o);
      if i < k - 1 {
        Ordered(ranges, i, k - 1);
      } else if k < i {
        Ordered(ranges, k, i);
      }
    }
  }

  /** Two lists of ranges that cover the same offsets and quote the same images are the same list. */
  lemma {:induction false} RangesUnique(a: seq<Range>, b: seq<Range>, before: Body, after: Body, mask: seq<bool>,
                                        k: nat)
    requires |mask| == PAGE_SIZE && Encodes(a, before, after, mask) && Encodes(b, before, after, mask)
    requires k <= |a|
    ensures k <= |b| && a[..k] == b[..k]
    decreases k
  {
    if k > 0 {
      RangesUnique(a, b, before, after, mask, k - 1);
      NextRange(a, b, before, after, mask, k - 1);
    }
  }

  lemma NextRange(a: seq<Range>, b: seq<Range>, before: Body, after: Body, mask: seq<bool>, k: nat)
    requires |mask| == PAGE_SIZE && Encodes(a, before, after, mask) && Encodes(b, before, after, mask)
    requires k < |a| && k <= |b| && a[..k] == b[..k]
    ensures k < |b| && a[k] == b[k]
  {
    assert InPage(a[k]) && Within(a[k], a[k].offset);
    var s := a[k].offset;
    assert Covered(a, s) && Covered(b, s);
    assert 0 < k ==> a[k - 1] == a[..k][k - 1] == b[k - 1];
    if k == |b| {
      Gap(b, k, s);
      assert false;
    }
    SameStart(a, b, before, after, mask, k);
    SameEnd(a, b, before, after, mask, k);
    assert Quotes(a[k], before, after) && Quotes(b[k], before, after);
  }

  lemma SameStart(a: seq<Range>, b: seq<Range>, before: Body, after: Body, mask: seq<bool>, k: nat)
    requires |mask| == PAGE_SIZE && Encodes(a, before, after, mask) && Encodes(b, before, after, mask)
    requires k < |a| && k < |b| && (0 < k ==> a[k - 1] == b[k - 1])
    ensures a[k].offset == b[k].offset
  {
    assert InPage(a[k]) && InPage(b[k]) && Within(a[k], a[k].offset) && Within(b[k], b[k].offset);
    assert Covered(a, a[k].offset) && Covered(b, b[k].offset);
    if a[k].offset < b[k].offset {
      Gap(b, k, a[k].offset);
    } else if b[k].offset < a[k].offset {
      Gap(a, k, b[k].offset);
    }
  }

  lemma SameEnd(a: seq<Range>, b: seq<Range>, before: Body, after: Body, mask: seq<bool>, k: nat)
    requires |mask| == PAGE_SIZE && Encodes(a, before, after, mask) && Encodes(b, before, after, mask)
    requires k < |a| && k < |b| && a[k].offset == b[k].offset
    ensures a[k].length == b[k].length
  {
    assert InPage(a[k]) && InPage(b[k]);
    if End(a[k]) < End(b[k]) {
      Gap(a, k + 1, End(a[k]));
      assert Within(b[k], End(a[k])) && Covered(b, End(a[k]));
    } else if End(b[k]) < End(a[k]) {
      Gap(b, k + 1, End(b[k]));
      assert Within(a[k], End(b[k])) && Covered(a, End(b[k]));
    }
  }

  // ---- The choice ----

  method DeltaSize(ranges: seq<Range>) returns (size: nat)
    ensures size == RangesSize(ranges)
  {
    size := 0;
    for k := 0 to |ranges|
      invariant size == RangesSize(ranges[..k])
    {
      assert ranges[..k + 1][..k] == ranges[..k];
      size := size + RANGE_HEADER + 2 * ranges[k].length;
    }
    assert ranges[..|ranges|] == ranges;
  }

  /** A change of a touched page always has at least one range, and a record the log accepts. */
  lemma DeltaAcceptable(ranges: seq<Range>, before: Body, after: Body, touched: seq<bool>)
    requires |touched| == PAGE_SIZE && Encodes(ranges, before, after, touched)
    requires exists o: nat :: o < PAGE_SIZE && touched[o]
    ensures Acceptable(true, ranges)
  {
    var o: nat :| o < PAGE_SIZE && touched[o];
    assert Included(before, after, touched, o);
    RangeCountBound(ranges);
  }

  method ChooseChange(updateMode: UpdateMode, before: Body, after: Body, touched: seq<bool>) returns (change: Change)
    requires |touched| == PAGE_SIZE && exists o: nat :: o < PAGE_SIZE && touched[o]
    ensures Encoding(change, before, after, touched)
    ensures updateMode.FullPage? ==> change.FullImage?
    ensures updateMode.ByteRange? ==> change.ByteRanges?
    ensures updateMode.Adaptive? ==>
              forall other :: Encoding(other, before, after, touched) ==> RecordSize(change) <= RecordSize(other)
  {
    if updateMode.FullPage? {
      return FullImage(before, after);
    }
    var result := ComputePageDelta(before, after, touched);
    var ranges := result.ranges;
    DeltaAcceptable(ranges, before, after, touched);
    change := ByteRanges(ranges);
    if updateMode.Adaptive? {
      forall other | Encoding(other, before, after, touched)
        ensures RecordSize(other) == RecordSize(change) || other.FullImage?
      {
        if other.ByteRanges? {
          RangesUnique(ranges, other.ranges, before, after, touched, |ranges|);
          RangesUnique(other.ranges, ranges, before, after, touched, |other.ranges|);
          assert ranges == ranges[..|ranges|] && other.ranges == other.ranges[..|ranges|];
        }
      }
      var size := DeltaSize(ranges);
      if RECORD_HEADER + FULL_PAGE_PAYLOAD <= RECORD_HEADER + DELTA_HEADER + size {
        change := FullImage(before, after);
      }
    }
  }
}
