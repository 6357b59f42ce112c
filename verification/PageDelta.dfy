/** Byte-range page deltas: how a page change is cut into ranges, applied forward
    for REDO and backward for UNDO, and why the accumulated touched-offset mask makes
    one delta work from every image the page had inside its transaction. */
module PageDelta {

  newtype Byte = b: int | 0 <= b < 256

  const PAGE_SIZE: nat := 4096
  const MAX_RANGE_COUNT: nat := (PAGE_SIZE + 1) / 2

  /** The bytes of a page with its PageLSN slot cleared. */
  type Body = b: seq<Byte> | |b| == PAGE_SIZE witness seq(PAGE_SIZE, i => 0)

  datatype Range = Range(offset: nat, length: nat, before: seq<Byte>, after: seq<Byte>)

  datatype DeltaResult = Ranges(ranges: seq<Range>) | BadMask

  /** An offset belongs to the delta when its byte changes or the mask demands it. */
  predicate Included(before: Body, after: Body, mask: seq<bool>, o: nat)
    requires mask == [] || |mask| == PAGE_SIZE
    requires o < PAGE_SIZE
  {
    before[o] != after[o] || (mask != [] && mask[o])
  }

  predicate Within(r: Range, o: int) {
    r.offset <= o < r.offset + r.length
  }

  predicate Covered(ranges: seq<Range>, o: int) {
    exists k :: 0 <= k < |ranges| && Within(ranges[k], o)
  }

  predicate InPage(r: Range) {
    && 0 < r.length
    && r.offset + r.length <= PAGE_SIZE
    && |r.before| == r.length
    && |r.after| == r.length
  }

  /** Consecutive ranges leave at least one byte between them. */
  predicate Apart(ranges: seq<Range>) {
    forall k :: 0 < k < |ranges| ==> ranges[k - 1].offset + ranges[k - 1].length < ranges[k].offset
  }

  predicate WellFormed(ranges: seq<Range>) {
    && (forall k :: 0 <= k < |ranges| ==> InPage(ranges[k]))
    && Apart(ranges)
  }

  /** What the log accepts as the ranges of one delta record. */
  predicate Acceptable(existed: bool, ranges: seq<Range>) {
    && ranges != []
    && |ranges| <= MAX_RANGE_COUNT
    && WellFormed(ranges)
    && (!existed ==> forall k :: 0 <= k < |ranges| ==> AllZero(ranges[k].before))
  }

  predicate AllZero(s: seq<Byte>) {
    forall j :: 0 <= j < |s| ==> s[j] == 0
  }

  /** The ranges carry exactly the bytes of the two images on the included offsets. */
  predicate Encodes(ranges: seq<Range>, before: Body, after: Body, mask: seq<bool>)
    requires mask == [] || |mask| == PAGE_SIZE
  {
    && WellFormed(ranges)
    && (forall k :: 0 <= k < |ranges| ==> Quotes(ranges[k], before, after))
    && (forall o: nat :: o < PAGE_SIZE ==> (Covered(ranges, o) <==> Included(before, after, mask, o)))
  }

  predicate Quotes(r: Range, before: Body, after: Body)
    requires InPage(r)
  {
    && r.before == before[r.offset..r.offset + r.length]
    && r.after == after[r.offset..r.offset + r.length]
  }

  /** The scan of computePageDelta, up to a given offset. */
  ghost predicate EncodesUpTo(ranges: seq<Range>, before: Body, after: Body, mask: seq<bool>, end: nat)
    requires mask == [] || |mask| == PAGE_SIZE
    requires end <= PAGE_SIZE
  {
    && WellFormed(ranges)
    && (forall k :: 0 <= k < |ranges| ==> Quotes(ranges[k], before, after))
    && (forall k :: 0 <= k < |ranges| ==> ranges[k].offset + ranges[k].length <= end)
    && (forall o: nat :: o < end ==> (Covered(ranges, o) <==> Included(before, after, mask, o)))
  }

  lemma AppendRange(ranges: seq<Range>, r: Range, before: Body, after: Body, mask: seq<bool>, end: nat)
    requires mask == [] || |mask| == PAGE_SIZE
    requires InPage(r) && Quotes(r, before, after)
    requires end == r.offset + r.length
    requires EncodesUpTo(ranges, before, after, mask, r.offset)
    requires ranges != [] ==> ranges[|ranges| - 1].offset + ranges[|ranges| - 1].length < r.offset
    requires forall o: nat :: r.offset <= o < end ==> Included(before, after, mask, o)
    ensures EncodesUpTo(ranges + [r], before, after, mask, end)
  {
    var all := ranges + [r];
    assert all[|ranges|] == r;
    forall o: nat | o < end
      ensures Covered(all, o) <==> Included(before, after, mask, o)
    {
      if o < r.offset {
        if Covered(ranges, o) {
          var k :| 0 <= k < |ranges| && Within(ranges[k], o);
          assert Within(all[k], o);
        }
        if Covered(all, o) {
          var k :| 0 <= k < |all| && Within(all[k], o);
          assert k < |ranges| && Within(ranges[k], o);
        }
      } else {
        assert Within(all[|ranges|], o);
      }
    }
  }

  /** A range ending where the scan stands can be extended past a byte that is not included. */
  lemma SkipByte(ranges: seq<Range>, before: Body, after: Body, mask: seq<bool>, end: nat)
    requires mask == [] || |mask| == PAGE_SIZE
    requires end < PAGE_SIZE
    requires EncodesUpTo(ranges, before, after, mask, end)
    requires !Included(before, after, mask, end)
    ensures EncodesUpTo(ranges, before, after, mask, end + 1)
  {
    assert !Covered(ranges, end);
  }

  /** Ranges are at least two bytes apart at their starts, so there are at most half a page of them. */
  lemma {:induction false} RangeStart(ranges: seq<Range>, k: nat)
    requires WellFormed(ranges) && k < |ranges|
    ensures ranges[k].offset >= 2 * k
  {
    if k > 0 {
      RangeStart(ranges, k - 1);
      assert InPage(ranges[k - 1]);
    }
  }

  lemma RangeCountBound(ranges: seq<Range>)
    requires WellFormed(ranges)
    ensures |ranges| <= MAX_RANGE_COUNT
  {
    if ranges != [] {
      RangeStart(ranges, |ranges| - 1);
      assert InPage(ranges[|ranges| - 1]);
    }
  }

  /** computePageDelta: cuts a change into maximal runs of included offsets. */
  method ComputePageDelta(before: Body, after: Body, mask: seq<bool>) returns (result: DeltaResult)
    ensures result.BadMask? <==> mask != [] && |mask| != PAGE_SIZE
    ensures result.Ranges? ==> Encodes(result.ranges, before, after, mask)
    ensures result.Ranges? && before != after ==> Acceptable(true, result.ranges)
  {
    if mask != [] && |mask| != PAGE_SIZE {
      return BadMask;
    }
    var ranges: seq<Range> := [];
    var offset: nat := 0;
    while offset < PAGE_SIZE
      invariant offset <= PAGE_SIZE
      invariant EncodesUpTo(ranges, before, after, mask, offset)
      invariant ranges != [] && offset < PAGE_SIZE
                ==> ranges[|ranges| - 1].offset + ranges[|ranges| - 1].length < offset
                    || !Included(before, after, mask, offset)
    {
      if !Included(before, after, mask, offset) {
        SkipByte(ranges, before, after, mask, offset);
        offset := offset + 1;
        continue;
      }
      var begin := offset;
      while offset < PAGE_SIZE && Included(before, after, mask, offset)
        invariant begin <= offset <= PAGE_SIZE
        invariant begin == offset ==> offset < PAGE_SIZE && Included(before, after, mask, offset)
        invariant forall o: nat :: begin <= o < offset ==> Included(before, after, mask, o)
      {
        offset := offset + 1;
      }
      var range := Range(begin, offset - begin, before[begin..offset], after[begin..offset]);
      AppendRange(ranges, range, before, after, mask, offset);
      ranges := ranges + [range];
    }
    RangeCountBound(ranges);
    if before != after && ranges == [] {
      var o: nat :| o < PAGE_SIZE && before[o] != after[o];
      assert Included(before, after, mask, o) && !Covered(ranges, o);
    }
    result := Ranges(ranges);
  }

  // ---- Applying a delta ----

  function Splice(page: Body, offset: nat, bytes: seq<Byte>): (r: Body)
    requires offset + |bytes| <= PAGE_SIZE
  {
    page[..offset] + bytes + page[offset + |bytes|..]
  }

  lemma SpliceAt(page: Body, offset: nat, bytes: seq<Byte>, o: nat)
    requires offset + |bytes| <= PAGE_SIZE && o < PAGE_SIZE
    ensures Splice(page, offset, bytes)[o] == if offset <= o < offset + |bytes| then bytes[o - offset] else page[o]
  {
  }

  function ApplyAfter(page: Body, ranges: seq<Range>): (r: Body)
    requires WellFormed(ranges)
    decreases |ranges|
  {
    if ranges == [] then page
    else
      var last := ranges[|ranges| - 1];
      Splice(ApplyAfter(page, ranges[..|ranges| - 1]), last.offset, last.after)
  }

  function ApplyBefore(page: Body, ranges: seq<Range>): (r: Body)
    requires WellFormed(ranges)
    decreases |ranges|
  {
    if ranges == [] then page
    else
      var last := ranges[|ranges| - 1];
      Splice(ApplyBefore(page, ranges[..|ranges| - 1]), last.offset, last.before)
  }

  lemma {:induction false} ApplyAfterAt(page: Body, ranges: seq<Range>, before: Body, after: Body, o: nat)
    requires WellFormed(ranges) && o < PAGE_SIZE
    requires forall k :: 0 <= k < |ranges| ==> Quotes(ranges[k], before, after)
    ensures ApplyAfter(page, ranges)[o] == if Covered(ranges, o) then after[o] else page[o]
  {
    if ranges != [] {
      hide Splice, Covered;
      var front, last := ranges[..|ranges| - 1], ranges[|ranges| - 1];
      assert InPage(last) && Quotes(last, before, after);
      ApplyAfterAt(page, front, before, after, o);
      SpliceAt(ApplyAfter(page, front), last.offset, last.after, o);
      CoveredSplit(ranges, o);
    }
  }

  lemma {:induction false} ApplyBeforeAt(page: Body, ranges: seq<Range>, before: Body, after: Body, o: nat)
    requires WellFormed(ranges) && o < PAGE_SIZE
    requires forall k :: 0 <= k < |ranges| ==> Quotes(ranges[k], before, after)
    ensures ApplyBefore(page, ranges)[o] == if Covered(ranges, o) then before[o] else page[o]
  {
    if ranges != [] {
      hide Splice, Covered;
      var front, last := ranges[..|ranges| - 1], ranges[|ranges| - 1];
      assert InPage(last) && Quotes(last, before, after);
      ApplyBeforeAt(page, front, before, after, o);
      SpliceAt(ApplyBefore(page, front), last.offset, last.before, o);
      CoveredSplit(ranges, o);
    }
  }

  lemma CoveredSplit(ranges: seq<Range>, o: int)
    requires ranges != []
    ensures Covered(ranges, o) <==> Covered(ranges[..|ranges| - 1], o) || Within(ranges[|ranges| - 1], o)
  {
    var front := ranges[..|ranges| - 1];
    if Covered(ranges, o) {
      var k :| 0 <= k < |ranges| && Within(ranges[k], o);
      assert k < |front| ==> Within(front[k], o);
    }
    if Covered(front, o) {
      var k :| 0 <= k < |front| && Within(front[k], o);
      assert Within(ranges[k], o);
    }
  }

  /** Copies bytes into the page buffer at an offset. */
  method CopyInto(page: array<Byte>, offset: nat, bytes: seq<Byte>)
    requires page.Length == PAGE_SIZE && offset + |bytes| <= PAGE_SIZE
    modifies page
    ensures page[..] == Splice(old(page[..]), offset, bytes)
  {
    var j := 0;
    while j < |bytes|
      invariant 0 <= j <= |bytes|
      invariant forall k :: 0 <= k < PAGE_SIZE && !(offset <= k < offset + j) ==> page[k] == old(page[k])
      invariant forall k :: 0 <= k < j ==> page[offset + k] == bytes[k]
    {
      page[offset + j] := bytes[j];
      j := j + 1;
    }
    forall k | 0 <= k < PAGE_SIZE ensures page[k] == Splice(old(page[..]), offset, bytes)[k] {
      if offset <= k < offset + |bytes| {
        assert page[offset + (k - offset)] == bytes[k - offset];
      }
    }
  }

  lemma ApplyNext(page: Body, ranges: seq<Range>, k: nat)
    requires WellFormed(ranges) && k < |ranges|
    ensures WellFormed(ranges[..k]) && WellFormed(ranges[..k + 1])
    ensures ApplyAfter(page, ranges[..k + 1]) ==
              Splice(ApplyAfter(page, ranges[..k]), ranges[k].offset, ranges[k].after)
    ensures ApplyBefore(page, ranges[..k + 1]) ==
              Splice(ApplyBefore(page, ranges[..k]), ranges[k].offset, ranges[k].before)
  {
    assert ranges[..k + 1][..k] == ranges[..k];
    assert ranges[..k + 1][k] == ranges[k];
  }

  /** applyPageDeltaAfter, in place on the page buffer; malformed ranges leave it alone. */
  method ApplyPageDeltaAfter(page: array<Byte>, existed: bool, ranges: seq<Range>) returns (ok: bool)
    requires page.Length == PAGE_SIZE
    modifies page
    ensures ok <==> Acceptable(existed, ranges)
    ensures page[..] == if ok then ApplyAfter(old(page[..]), ranges) else old(page[..])
  {
    ok := Acceptable(existed, ranges);
    if !ok {
      return;
    }
    var k := 0;
    while k < |ranges|
      invariant 0 <= k <= |ranges| && WellFormed(ranges[..k])
      invariant page[..] == ApplyAfter(old(page[..]), ranges[..k])
    {
      ApplyNext(old(page[..]), ranges, k);
      assert InPage(ranges[k]);
      CopyInto(page, ranges[k].offset, ranges[k].after);
      k := k + 1;
    }
    assert ranges[..k] == ranges;
  }

  /** applyPageDeltaBefore, in place on the page buffer. */
  method ApplyPageDeltaBefore(page: array<Byte>, existed: bool, ranges: seq<Range>) returns (ok: bool)
    requires page.Length == PAGE_SIZE
    modifies page
    ensures ok <==> Acceptable(existed, ranges)
    ensures page[..] == if ok then ApplyBefore(old(page[..]), ranges) else old(page[..])
  {
    ok := Acceptable(existed, ranges);
    if !ok {
      return;
    }
    var k := 0;
    while k < |ranges|
      invariant 0 <= k <= |ranges| && WellFormed(ranges[..k])
      invariant page[..] == ApplyBefore(old(page[..]), ranges[..k])
    {
      ApplyNext(old(page[..]), ranges, k);
      assert InPage(ranges[k]);
      CopyInto(page, ranges[k].offset, ranges[k].before);
      k := k + 1;
    }
    assert ranges[..k] == ranges;
  }

  // ---- The accumulated mask ----

  /** Two images agree wherever the mask has not been touched. */
  ghost predicate AgreeOutside(x: Body, y: Body, mask: seq<bool>)
    requires |mask| == PAGE_SIZE
  {
    forall o: nat :: o < PAGE_SIZE && !mask[o] ==> x[o] == y[o]
  }

  function NoOffsets(): (r: seq<bool>) {
    seq(PAGE_SIZE, i => false)
  }

  /** touchedOffsets after one more prepared image. */
  function Touch(mask: seq<bool>, previous: Body, next: Body): (r: seq<bool>)
    requires |mask| == PAGE_SIZE
    ensures |r| == PAGE_SIZE
  {
    seq(PAGE_SIZE, o requires 0 <= o < PAGE_SIZE => mask[o] || previous[o] != next[o])
  }

  /** touchedOffsets only grows, and everything that agreed outside the old mask with the
      previous image agrees outside the new one with the next image. */
  lemma TouchKeepsAgreement(mask: seq<bool>, original: Body, previous: Body, next: Body, x: Body)
    requires |mask| == PAGE_SIZE
    requires AgreeOutside(original, previous, mask) && AgreeOutside(original, x, mask)
    ensures AgreeOutside(original, next, Touch(mask, previous, next))
    ensures AgreeOutside(original, x, Touch(mask, previous, next))
  {
    var t := Touch(mask, previous, next);
    forall o: nat | o < PAGE_SIZE && !t[o]
      ensures original[o] == next[o] && original[o] == x[o]
    {
      assert !mask[o] && previous[o] == next[o];
    }
  }

  /** A delta from the original page, built under the mask, carries every image that agrees with
      the original outside the mask to the new image. */
  lemma DeltaForward(ranges: seq<Range>, original: Body, after: Body, mask: seq<bool>, x: Body)
    requires |mask| == PAGE_SIZE
    requires Encodes(ranges, original, after, mask)
    requires AgreeOutside(original, x, mask)
    ensures ApplyAfter(x, ranges) == after
  {
    var y := ApplyAfter(x, ranges);
    forall o: nat | o < PAGE_SIZE ensures y[o] == after[o] {
      ApplyAfterAt(x, ranges, original, after, o);
      assert Covered(ranges, o) <==> Included(original, after, mask, o);
    }
  }

  /** Its before bytes carry every such image back to the original. */
  lemma DeltaBackward(ranges: seq<Range>, original: Body, after: Body, mask: seq<bool>, x: Body)
    requires |mask| == PAGE_SIZE
    requires Encodes(ranges, original, after, mask)
    requires AgreeOutside(original, x, mask)
    ensures ApplyBefore(x, ranges) == original
  {
    var y := ApplyBefore(x, ranges);
    forall o: nat | o < PAGE_SIZE ensures y[o] == original[o] {
      ApplyBeforeAt(x, ranges, original, after, o);
      assert Covered(ranges, o) <==> Included(original, after, mask, o);
    }
  }

  /** The mask after the first k prepared images of a page. */
  function MaskAfter(original: Body, images: seq<Body>, k: nat): (mask: seq<bool>)
    requires k <= |images|
    ensures |mask| == PAGE_SIZE
  {
    if k == 0 then NoOffsets()
    else Touch(MaskAfter(original, images, k - 1), if k == 1 then original else images[k - 2], images[k - 1])
  }

  lemma {:induction false} ImagesAgree(original: Body, images: seq<Body>, k: nat, x: Body)
    requires k <= |images|
    requires x == original || x in images[..k]
    ensures AgreeOutside(original, x, MaskAfter(original, images, k))
  {
    if k > 0 {
      var previous := if k == 1 then original else images[k - 2];
      ImagesAgree(original, images, k - 1, previous);
      if x == original || x in images[..k - 1] {
        ImagesAgree(original, images, k - 1, x);
        TouchKeepsAgreement(MaskAfter(original, images, k - 1), original, previous, images[k - 1], x);
      } else {
        assert x == images[k - 1];
        TouchKeepsAgreement(MaskAfter(original, images, k - 1), original, previous, images[k - 1], previous);
      }
    }
  }

  /** Within one transaction, the k-th delta turns the original and every earlier image into the
      k-th image, and its before bytes turn any of the first k images back into the original. */
  lemma DeltaChain(original: Body, images: seq<Body>, k: nat, ranges: seq<Range>, x: Body)
    requires 0 < k <= |images|
    requires Encodes(ranges, original, images[k - 1], MaskAfter(original, images, k))
    requires x == original || x in images[..k]
    ensures ApplyAfter(x, ranges) == images[k - 1]
    ensures ApplyBefore(x, ranges) == original
  {
    ImagesAgree(original, images, k, x);
    DeltaForward(ranges, original, images[k - 1], MaskAfter(original, images, k), x);
    DeltaBackward(ranges, original, images[k - 1], MaskAfter(original, images, k), x);
  }
}
