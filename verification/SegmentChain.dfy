/** A chain of log segments as one flat log: the values behind the segmented storage. */
module SegmentChain {
  import opened LogCells

  /** A segment file: its header fields, the end of its whole records, and its contents. */
  datatype Segment = Segment(id: nat, start: Lsn, previousId: nat, end: Lsn, cells: seq<Cell>)

  const NO_SEGMENT: nat := 0
  const MIN_CAPACITY: nat := 128

  /** The header fields a segment file must have. */
  predicate HeaderOk(id: nat, start: Lsn, previousId: nat) {
    id != NO_SEGMENT && LOG_START <= start && (id == 1 <==> previousId == NO_SEGMENT)
  }

  ghost predicate SegmentOk(s: Segment, rs: seq<Record>, tail: seq<Cell>, capacity: nat) {
    && HeaderOk(s.id, s.start, s.previousId)
    && Shape(s.cells, s.start, rs, tail) && s.end == s.start + Total(rs) && |s.cells| <= capacity
  }

  predicate Linked(a: Segment, b: Segment) {
    a.id < b.id && b.previousId == a.id && b.start == a.end
  }

  /** Every segment but the last holds whole records only, and each begins where the one before ends. */
  ghost predicate ChainOk(segments: seq<Segment>, parts: seq<seq<Record>>, tail: seq<Cell>, capacity: nat)
    decreases segments
  {
    && 0 < |segments| == |parts|
    && if |segments| == 1 then SegmentOk(segments[0], parts[0], tail, capacity)
       else
         && SegmentOk(segments[0], parts[0], [], capacity)
         && Linked(segments[0], segments[1])
         && ChainOk(segments[1..], parts[1..], tail, capacity)
  }

  function Flatten(parts: seq<seq<Record>>): (r: seq<Record>) {
    if parts == [] then [] else parts[0] + Flatten(parts[1..])
  }

  function Last<T>(s: seq<T>): (r: T)
    requires s != []
  {
    s[|s| - 1]
  }

  function Front<T>(s: seq<T>): (r: seq<T>)
    requires s != []
  {
    s[..|s| - 1]
  }

  lemma {:induction false} FlattenConcat(a: seq<seq<Record>>, b: seq<seq<Record>>)
    ensures Flatten(a + b) == Flatten(a) + Flatten(b)
  {
    if a == [] {
      assert a + b == b;
    } else {
      FlattenConcat(a[1..], b);
      assert (a + b)[1..] == a[1..] + b;
      Assoc(a[0], Flatten(a[1..]), Flatten(b));
    }
  }

  lemma FlattenOne(p: seq<Record>)
    ensures Flatten([p]) == p
  {
    assert [p][1..] == [];
    assert p + [] == p;
  }

  lemma FlattenLast(parts: seq<seq<Record>>)
    requires parts != []
    ensures Flatten(parts) == Flatten(Front(parts)) + Last(parts)
  {
    assert parts == Front(parts) + [Last(parts)];
    FlattenConcat(Front(parts), [Last(parts)]);
    FlattenOne(Last(parts));
  }

  /** The segments are one contiguous log: no gap, no overlap, no record across a boundary. */
  lemma {:induction false} ChainFlat(segments: seq<Segment>, parts: seq<seq<Record>>, tail: seq<Cell>, capacity: nat)
    requires ChainOk(segments, parts, tail, capacity)
    ensures Placed(Flatten(parts), segments[0].start)
    ensures Last(segments).end == segments[0].start + Total(Flatten(parts))
    ensures forall r :: r in Flatten(parts) ==> Size(r) <= MAX_RECORD
    decreases segments
  {
    if |segments| == 1 {
      assert parts == [parts[0]];
      FlattenOne(parts[0]);
    } else {
      ChainFlat(segments[1..], parts[1..], tail, capacity);
      PlacedConcat(parts[0], Flatten(parts[1..]), segments[0].start);
      TotalConcat(parts[0], Flatten(parts[1..]));
    }
  }

  lemma {:induction false} ChainAt(segments: seq<Segment>, parts: seq<seq<Record>>, tail: seq<Cell>, capacity: nat,
                                   i: nat)
    requires ChainOk(segments, parts, tail, capacity) && i < |segments|
    ensures i < |parts| && SegmentOk(segments[i], parts[i], if i == |segments| - 1 then tail else [], capacity)
    ensures i + 1 < |segments| ==> Linked(segments[i], segments[i + 1])
    ensures ChainOk(segments[i..], parts[i..], tail, capacity)
    decreases i
  {
    if i == 0 {
      assert segments[0..] == segments && parts[0..] == parts;
    } else {
      ChainAt(segments[1..], parts[1..], tail, capacity, i - 1);
      assert segments[1..][i - 1..] == segments[i..] && parts[1..][i - 1..] == parts[i..];
    }
  }

  /** Replacing what the active segment holds. */
  lemma {:induction false} ChainActive(segments: seq<Segment>, parts: seq<seq<Record>>, tail: seq<Cell>, capacity: nat,
                                       s: Segment, rs: seq<Record>, tail': seq<Cell>)
    requires ChainOk(segments, parts, tail, capacity) && SegmentOk(s, rs, tail', capacity)
    requires s.id == Last(segments).id && s.start == Last(segments).start && s.previousId == Last(segments).previousId
    ensures ChainOk(Front(segments) + [s], Front(parts) + [rs], tail', capacity)
    decreases segments
  {
    var segments', parts' := Front(segments) + [s], Front(parts) + [rs];
    if |segments| == 1 {
      assert segments' == [s] && parts' == [rs];
    } else {
      ChainActive(segments[1..], parts[1..], tail, capacity, s, rs, tail');
      assert segments'[1..] == Front(segments[1..]) + [s];
      assert parts'[1..] == Front(parts[1..]) + [rs];
    }
  }

  /** One more segment after a whole one. */
  lemma {:induction false} ChainGrows(segments: seq<Segment>, parts: seq<seq<Record>>, capacity: nat,
                                      s: Segment, rs: seq<Record>, tail: seq<Cell>)
    requires ChainOk(segments, parts, [], capacity) && Linked(Last(segments), s) && SegmentOk(s, rs, tail, capacity)
    ensures ChainOk(segments + [s], parts + [rs], tail, capacity)
    decreases segments
  {
    hide SegmentOk;
    var segments', parts' := segments + [s], parts + [rs];
    if |segments| == 1 {
      assert segments'[1..] == [s] && parts'[1..] == [rs];
    } else {
      ChainGrows(segments[1..], parts[1..], capacity, s, rs, tail);
      assert segments'[1..] == segments[1..] + [s];
      assert parts'[1..] == parts[1..] + [rs];
    }
  }

  lemma Fresh(s: Segment, capacity: nat)
    requires s.cells == [] && s.end == s.start && HeaderOk(s.id, s.start, s.previousId)
    ensures SegmentOk(s, [], [], capacity) && ChainOk([s], [[]], [], capacity)
  {
  }

  /** Appending a record to the active segment. */
  lemma SegmentAppends(s: Segment, rs: seq<Record>, capacity: nat, r: Record)
    requires SegmentOk(s, rs, [], capacity) && r.lsn == s.end && Size(r) <= MAX_RECORD
    requires |s.cells| + Size(r) <= capacity
    ensures SegmentOk(s.(cells := s.cells + Encode(r), end := s.end + Size(r)), rs + [r], [], capacity)
  {
    hide Encode;
    EncodeConcat(rs, [r]);
    TotalConcat(rs, [r]);
    PlacedConcat(rs, [r], s.start);
    One(r);
    assert s.cells == EncodeAll(rs);
    assert EncodeAll(rs + [r]) + [] == EncodeAll(rs + [r]);
  }

  /** A record of the segment lies in its cells at its position. */
  lemma SegmentHolds(s: Segment, rs: seq<Record>, tail: seq<Cell>, capacity: nat, j: nat)
    requires SegmentOk(s, rs, tail, capacity) && j < |rs|
    ensures s.start <= rs[j].lsn
    ensures var k := rs[j].lsn - s.start;
            k + Size(rs[j]) <= |s.cells| && s.cells[k] == Cell(rs[j], 0) && Size(rs[j]) <= MAX_RECORD
            && s.cells[k..k + Size(rs[j])] == Encode(rs[j])
  {
    CellsFrom(rs, s.start, j);
    var k := rs[j].lsn - s.start;
    Inside(EncodeAll(rs), tail, k, Size(rs[j]));
    Whole(Encode(rs[j]), rs[j]);
    assert rs[j] in rs;
    assert s.cells[k] == s.cells[k..k + Size(rs[j])][0];
  }

  /** Whole cells at a position below the end are a record of the segment. */
  lemma SegmentReads(s: Segment, rs: seq<Record>, tail: seq<Cell>, capacity: nat, r: Record)
    requires SegmentOk(s, rs, tail, capacity) && s.start <= r.lsn < s.end
    requires var k := r.lsn - s.start;
             k + Size(r) <= |s.cells| && s.cells[k..k + Size(r)] == Encode(r)
    ensures r in rs
  {
    var k := r.lsn - s.start;
    var j := CellAt(rs, s.start, k);
    Whole(s.cells[k..k + Size(r)], r);
    assert s.cells[k] == EncodeAll(rs)[k];
  }

  lemma Inside(a: seq<Cell>, b: seq<Cell>, k: nat, n: nat)
    requires k + n <= |a|
    ensures (a + b)[k..k + n] == a[k..k + n]
  {
  }

  /** The whole segments the log would still be found in without the first ones. */
  lemma {:induction false} ChainDrops(segments: seq<Segment>, parts: seq<seq<Record>>, tail: seq<Cell>, capacity: nat,
                                      k: nat)
    requires ChainOk(segments, parts, tail, capacity) && k < |segments|
    ensures ChainOk(segments[k..], parts[k..], tail, capacity)
    ensures Flatten(parts) == Flatten(parts[..k]) + Flatten(parts[k..])
    ensures segments[0].start <= segments[k].start
    ensures forall r :: r in Flatten(parts) && segments[k].start <= r.lsn ==> r in Flatten(parts[k..])
  {
    ChainAt(segments, parts, tail, capacity, k);
    assert parts == parts[..k] + parts[k..];
    FlattenConcat(parts[..k], parts[k..]);
    ChainFlat(segments, parts, tail, capacity);
    PlacedConcat(Flatten(parts[..k]), Flatten(parts[k..]), segments[0].start);
    DroppedEnd(segments, parts, tail, capacity, k);
    forall r | r in Flatten(parts) && segments[k].start <= r.lsn ensures r in Flatten(parts[k..]) {
      if r in Flatten(parts[..k]) {
        var i :| 0 <= i < |Flatten(parts[..k])| && Flatten(parts[..k])[i] == r;
        PlacedAt(Flatten(parts[..k]), segments[0].start, i);
      }
    }
  }

  lemma SameLength(segments: seq<Segment>, parts: seq<seq<Record>>, tail: seq<Cell>, capacity: nat)
    requires ChainOk(segments, parts, tail, capacity)
    ensures 0 < |segments| == |parts|
  {
  }

  lemma {:induction false} DroppedEnd(segments: seq<Segment>, parts: seq<seq<Record>>, tail: seq<Cell>, capacity: nat,
                                      k: nat)
    requires ChainOk(segments, parts, tail, capacity) && k < |segments|
    ensures k < |parts| && segments[k].start == segments[0].start + Total(Flatten(parts[..k]))
    decreases k
  {
    hide ChainOk, Shape;
    SameLength(segments, parts, tail, capacity);
    if k > 0 {
      DroppedEnd(segments, parts, tail, capacity, k - 1);
      ChainAt(segments, parts, tail, capacity, k - 1);
      assert parts[..k] == parts[..k - 1] + [parts[k - 1]];
      FlattenConcat(parts[..k - 1], [parts[k - 1]]);
      FlattenOne(parts[k - 1]);
      TotalConcat(Flatten(parts[..k - 1]), parts[k - 1]);
    }
  }

  // ---- Reading the flat log ----

  /** The records from a position on. */
  function From(rs: seq<Record>, start: Lsn): (r: seq<Record>) {
    if rs == [] then []
    else if rs[0].lsn >= start then [rs[0]] + From(rs[1..], start)
    else From(rs[1..], start)
  }

  lemma {:induction false} FromConcat(a: seq<Record>, b: seq<Record>, start: Lsn)
    ensures From(a + b, start) == From(a, start) + From(b, start)
  {
    if a == [] {
      assert a + b == b;
    } else {
      FromConcat(a[1..], b, start);
      assert (a + b)[1..] == a[1..] + b;
      Assoc([a[0]], From(a[1..], start), From(b, start));
    }
  }

  lemma {:induction false} FromAll(rs: seq<Record>, start: Lsn, bound: Lsn)
    requires Placed(rs, start) && bound <= start
    ensures From(rs, bound) == rs
  {
    if rs != [] {
      FromAll(rs[1..], start + Size(rs[0]), bound);
    }
  }

  // ---- Crashes ----

  /** Cutting the active segment anywhere leaves a chain whose log is cut at a record boundary, and keeps
      every record that lies wholly below the cut. */
  lemma CutChain(segments: seq<Segment>, parts: seq<seq<Record>>, tail: seq<Cell>, capacity: nat, k: nat)
    returns (s: Segment, rs: seq<Record>, rest: seq<Cell>)
    requires ChainOk(segments, parts, tail, capacity) && k <= |Last(segments).cells|
    ensures s == Last(segments).(cells := Last(segments).cells[..k], end := s.end)
    ensures ChainOk(Front(segments) + [s], Front(parts) + [rs], rest, capacity)
    ensures Flatten(Front(parts) + [rs]) <= Flatten(parts)
    ensures forall r :: r in Flatten(parts) && r.lsn + Size(r) <= s.start + k ==> r in Flatten(Front(parts) + [rs])
  {
    hide Shape, Placed, Broken;
    var active := Last(segments);
    ChainAt(segments, parts, tail, capacity, |segments| - 1);
    rs, rest := CutSegment(active, Last(parts), tail, capacity, k);
    s := active.(cells := active.cells[..k], end := active.start + Total(rs));
    ChainActive(segments, parts, tail, capacity, s, rs, rest);
    FlattenLast(parts);
    FlattenLast(Front(parts) + [rs]);
    assert Front(Front(parts) + [rs]) == Front(parts);
    Assoc(Flatten(Front(parts)), rs, Last(parts)[|rs|..]);
  }

  lemma CutSegment(s: Segment, rs: seq<Record>, tail: seq<Cell>, capacity: nat, k: nat)
    returns (some: seq<Record>, rest: seq<Cell>)
    requires SegmentOk(s, rs, tail, capacity) && k <= |s.cells|
    ensures SegmentOk(s.(cells := s.cells[..k], end := s.start + Total(some)), some, rest, capacity)
    ensures some <= rs && forall r :: r in rs && r.lsn + Size(r) <= s.start + k ==> r in some
  {
    if k < Total(rs) {
      var i;
      i, rest := CutRun(rs, s.start, k);
      some := rs[..i];
      assert s.cells[..k] == EncodeAll(rs)[..k];
      forall r | r in rs && r.lsn + Size(r) <= s.start + k ensures r in some {
        var j :| 0 <= j < |rs| && rs[j] == r;
        if i <= j {
          BelowCut(rs, s.start, i, j);
        } else {
          assert some[j] == r;
        }
      }
    } else {
      some, rest := rs, tail[..k - Total(rs)];
      assert s.cells[..k] == EncodeAll(rs) + rest;
    }
  }

  lemma BelowCut(rs: seq<Record>, start: Lsn, i: nat, j: nat)
    requires Placed(rs, start) && i <= j < |rs|
    ensures rs[j].lsn >= start + Total(rs[..i]) && (j == i || rs[j].lsn >= start + Total(rs[..i]) + Size(rs[i]))
  {
    PlacedAt(rs, start, i);
    if i < j {
      PlacedAscends(rs, start, i, j);
    }
  }
}
