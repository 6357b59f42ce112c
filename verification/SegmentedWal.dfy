/** The segmented write-ahead log storage: segment files, a manifest that names the first one retained,
    and a flat log of records across them. */
module SegmentedWal {
  import opened Options
  import opened LogCells
  import opened SegmentChain

  datatype Error = TruncatedTail | InvalidArgument | CorruptRecord | CorruptHeader

  datatype Result<T> = Ok(value: T) | Err(error: Error)

  datatype Header = Header(id: nat, start: Lsn, previousId: nat, capacity: nat)

  /** A file in the log directory; its header is missing when its creation was cut short. */
  datatype File = File(id: nat, header: Option<Header>, cells: seq<Cell>)

  function FileOf(s: Segment, capacity: nat): (r: File) {
    File(s.id, Some(Header(s.id, s.start, s.previousId, capacity)), s.cells)
  }

  function FilesOf(segments: seq<Segment>, capacity: nat): (r: seq<File>) {
    seq(|segments|, i requires 0 <= i < |segments| => FileOf(segments[i], capacity))
  }

  /** The files the manifest asks for; earlier ones are history whose deletion was cut short. */
  function Retained(files: seq<File>, first: nat): (r: seq<File>) {
    if files == [] then [] else if files[0].id < first then Retained(files[1..], first) else files
  }

  const SEGMENT_HEADER: nat := 64

  /** The segment at the index is the last that begins at or below the floor. */
  ghost predicate Reserve(segments: seq<Segment>, index: nat, floor: Lsn) {
    && index < |segments| && segments[index].start <= floor
    && (index + 1 < |segments| ==> floor < segments[index + 1].start)
  }

  function LastLsn(log: seq<Record>): (r: Lsn) {
    if log == [] then INVALID_LSN else log[|log| - 1].lsn
  }

  datatype Found = Found(records: seq<Record>, torn: bool, end: Lsn)

  /** A position a scan may start at. */
  ghost predicate Boundary(log: seq<Record>, end: Lsn, start: Lsn) {
    start == end || exists r :: r in log && r.lsn == start
  }

  /** A chain of segments with its log. */
  datatype Chain = Chain(segments: seq<Segment>, parts: seq<seq<Record>>, tail: seq<Cell>)

  /** The files hold this chain, whatever older files a cut-short reclamation left behind. */
  ghost predicate Holds(files: seq<File>, first: nat, capacity: nat, c: Chain) {
    && ChainOk(c.segments, c.parts, c.tail, capacity) && c.segments[0].id == first
    && Retained(files, first) == FilesOf(c.segments, capacity)
  }

  class Storage {
    const capacity: nat
    var segments: seq<Segment>
    var firstRetained: nat
    var logicalEnd: Lsn
    var tornTail: bool
    var lastRecord: Lsn
    var durable: Lsn
    /** The cells of the active segment that a crash cannot take. */
    ghost var synced: nat
    ghost var parts: seq<seq<Record>>
    ghost var tail: seq<Cell>

    ghost predicate Valid()
      reads this
    {
      && capacity >= MIN_CAPACITY
      && ChainOk(segments, parts, tail, capacity)
      && firstRetained == segments[0].id
      && logicalEnd == Last(segments).end
      && (tornTail <==> tail != [])
      && DurableOk()
    }

    /** Everything up to the durable record survives a crash. */
    ghost predicate DurableOk()
      requires segments != [] && |parts| == |segments|
      reads this
    {
      && synced <= |Last(segments).cells|
      && INVALID_LSN <= durable <= lastRecord < logicalEnd
      && (forall r :: r in Last(parts) && r.lsn <= durable ==> r.lsn + Size(r) <= Last(segments).start + synced)
      && (forall r :: r in Flat() ==> r.lsn <= lastRecord)
    }

    /** The log the segments hold. */
    ghost function Flat(): (r: seq<Record>)
      reads this
    {
      Flatten(parts)
    }

    function Oldest(): (r: Lsn)
      requires segments != []
      reads this
    {
      segments[0].start
    }

    constructor (capacity: nat)
      requires capacity >= MIN_CAPACITY
      ensures Valid() && this.capacity == capacity && !tornTail && Flat() == [] && Oldest() == logicalEnd == LOG_START
      ensures durable == INVALID_LSN && lastRecord == INVALID_LSN
    {
      this.capacity := capacity;
      segments, firstRetained := [Segment(1, LOG_START, NO_SEGMENT, LOG_START, [])], 1;
      logicalEnd, tornTail, lastRecord, durable := LOG_START, false, INVALID_LSN, INVALID_LSN;
      synced, parts, tail := 0, [[]], [];
      new;
      FlattenOne([]);
      Fresh(segments[0], capacity);
    }

    /** Forces the active segment. */
    method Flush()
      requires Valid()
      modifies this
      ensures Valid() && unchanged(this`segments) && unchanged(this`firstRetained) && unchanged(this`logicalEnd)
      ensures unchanged(this`tornTail)
      ensures unchanged(this`parts) && unchanged(this`tail) && unchanged(this`lastRecord) && durable == lastRecord
      ensures old(durable) <= durable
    {
      hide ChainOk;
      NotEmpty();
      LastRecords();
      synced := |Last(segments).cells|;
      durable := lastRecord;
    }

    /** The records of the active segment lie within it. */
    lemma LastRecords()
      requires Valid()
      ensures forall r :: r in Last(parts) ==> r.lsn + Size(r) <= Last(segments).start + |Last(segments).cells|
      ensures forall r :: r in Last(parts) ==> r in Flat()
    {
      ChainAt(segments, parts, tail, capacity, |segments| - 1);
      FlattenLast(parts);
      forall r | r in Last(parts) ensures r.lsn + Size(r) <= Last(segments).start + |Last(segments).cells| {
        var i :| 0 <= i < |Last(parts)| && Last(parts)[i] == r;
        PlacedAt(Last(parts), Last(segments).start, i);
      }
    }

    /** Closes the active segment and opens the next. On a torn tail the closed segment is not whole, and no
        chain of segments has these files any more: the store cannot be opened again. */
    method Rotate()
      requires Valid()
      modifies this
      ensures Valid() <==> !old(tornTail)
      ensures (exists c :: Holds(FilesOf(segments, capacity), firstRetained, capacity, c)) <==> !old(tornTail)
      ensures Flat() == old(Flat()) && logicalEnd == old(logicalEnd) && lastRecord == durable == old(lastRecord)
      ensures segments != [] && segments[..|segments| - 1] == old(segments) && Last(segments).cells == []
      ensures firstRetained == old(firstRetained)
      ensures !tornTail
    {
      hide SegmentOk, Linked;
      Flush();
      ghost var before := parts;
      var active := Last(segments);
      var next := Segment(active.id + 1, logicalEnd, active.id, logicalEnd, []);
      ChainAt(segments, parts, tail, capacity, |segments| - 1);
      if tornTail {
        TornClosed(segments, parts, tail, capacity, next);
      } else {
        GrownChain(segments, parts, capacity, next);
        HeldByFiles(segments + [next], parts + [[]], [], capacity);
      }
      FlattenConcat(parts, [[]]);
      FlattenOne([]);
      assert Flatten(parts) + [] == Flatten(parts);
      segments := segments + [next];
      parts := parts + [[]];
      tornTail, tail, synced := false, [], 0;
      assert Front(segments) == old(segments);
    }

    /** Writes one encoded record at the logical end, in a new segment when the active one has no room. */
    method AppendRecord(r: Record) returns (res: Result<()>)
      requires Valid() && Size(r) <= MAX_RECORD
      modifies this
      ensures Valid()
      ensures res.Ok? <==> !old(tornTail) && r.lsn == old(logicalEnd) && Size(r) <= capacity
      ensures res.Ok? ==>
                && Flat() == old(Flat()) + [r] && logicalEnd == old(logicalEnd) + Size(r) && lastRecord == r.lsn
                && !tornTail
      ensures old(durable) <= durable && Oldest() == old(Oldest()) && firstRetained == old(firstRetained)
      ensures res.Err? ==> unchanged(this)
    {
      hide ChainOk, SegmentOk;
      if tornTail {
        return Err(TruncatedTail);
      }
      if r.lsn != logicalEnd || Size(r) > capacity {
        return Err(InvalidArgument);
      }
      ghost var flat := Flat();
      ActiveUsed();
      NotEmpty();
      ghost var first := segments[0];
      if Size(r) > capacity - (logicalEnd - Last(segments).start) {
        Rotate();
        NotEmpty();
      }
      assert segments[0] == first;
      ActiveUsed();
      var active := Last(segments);
      var wider := active.(cells := active.cells + Encode(r), end := active.end + Size(r));
      Appends(r, wider);
      Extends(flat, r);
      segments := segments[..|segments| - 1] + [wider];
      parts := Front(parts) + [Last(parts) + [r]];
      logicalEnd := logicalEnd + Size(r);
      lastRecord := r.lsn;
      res := Ok(());
    }

    lemma NotEmpty()
      requires Valid()
      ensures |segments| == |parts| > 0
    {
    }

    lemma ActiveUsed()
      requires Valid() && !tornTail
      ensures segments != [] && logicalEnd == Last(segments).end == Last(segments).start + |Last(segments).cells|
    {
      ChainAt(segments, parts, tail, capacity, |segments| - 1);
    }

    lemma Appends(r: Record, wider: Segment)
      requires Valid() && !tornTail && r.lsn == logicalEnd && Size(r) <= MAX_RECORD
      requires |Last(segments).cells| + Size(r) <= capacity
      requires wider == Last(segments).(cells := Last(segments).cells + Encode(r), end := Last(segments).end + Size(r))
      ensures ChainOk(Front(segments) + [wider], Front(parts) + [Last(parts) + [r]], [], capacity)
    {
      hide SegmentOk;
      ChainAt(segments, parts, tail, capacity, |segments| - 1);
      SegmentAppends(Last(segments), Last(parts), capacity, r);
      ChainActive(segments, parts, tail, capacity, wider, Last(parts) + [r], []);
    }

    lemma Extends(flat: seq<Record>, r: Record)
      requires Valid() && Flat() == flat
      ensures Flatten(Front(parts) + [Last(parts) + [r]]) == flat + [r]
    {
      hide ChainOk;
      NotEmpty();
      FlattenLast(parts);
      var parts' := Front(parts) + [Last(parts) + [r]];
      FlattenLast(parts');
      assert Front(parts') == Front(parts);
      Assoc(Flatten(Front(parts)), Last(parts), [r]);
    }

    /** Cuts the broken record off the active segment. */
    method TruncateActiveTail()
      requires Valid()
      modifies this
      ensures Valid() && !tornTail && Flat() == old(Flat()) && logicalEnd == old(logicalEnd)
      ensures lastRecord == old(lastRecord) && durable == old(durable) && Oldest() == old(Oldest())
    {
      if !tornTail {
        return;
      }
      hide ChainOk, SegmentOk;
      NotEmpty();
      var active := Last(segments);
      ghost var first := Oldest();
      WholeEnd();
      LastRecords();
      var whole := active.(cells := active.cells[..logicalEnd - active.start]);
      CutsTail(whole);
      assert Front(parts) + [Last(parts)] == parts;
      segments := segments[..|segments| - 1] + [whole];
      tornTail, tail, synced := false, [], |whole.cells|;
      WholeRecords(whole);
      assert Oldest() == first;
    }

    lemma WholeEnd()
      requires Valid()
      ensures segments != [] && 0 <= logicalEnd - Last(segments).start <= |Last(segments).cells|
    {
      ChainAt(segments, parts, tail, capacity, |segments| - 1);
    }

    lemma CutsTail(whole: Segment)
      requires Valid() && 0 <= logicalEnd - Last(segments).start <= |Last(segments).cells|
      requires whole == Last(segments).(cells := Last(segments).cells[..logicalEnd - Last(segments).start])
      ensures ChainOk(Front(segments) + [whole], Front(parts) + [Last(parts)], [], capacity)
    {
      ChainAt(segments, parts, tail, capacity, |segments| - 1);
      assert whole.cells == EncodeAll(Last(parts)) + [];
      ChainActive(segments, parts, tail, capacity, whole, Last(parts), []);
    }

    lemma WholeRecords(whole: Segment)
      requires ChainOk(segments, parts, [], capacity) && Last(segments) == whole
      ensures forall r :: r in Last(parts) ==> r.lsn + Size(r) <= whole.start + |whole.cells|
    {
      ChainAt(segments, parts, [], capacity, |segments| - 1);
      forall r | r in Last(parts) ensures r.lsn + Size(r) <= whole.start + |whole.cells| {
        var i :| 0 <= i < |Last(parts)| && Last(parts)[i] == r;
        PlacedAt(Last(parts), whole.start, i);
      }
    }

    /** The record stored at a position: exactly what was appended there, and nothing at any other position. */
    method ReadRecordAt(lsn: Lsn) returns (res: Option<Record>)
      requires Valid()
      ensures forall r :: res == Some(r) <==> r in Flat() && r.lsn == lsn
    {
      hide ChainOk, SegmentOk, DurableOk, Encode;
      NotEmpty();
      var i := 0;
      while i < |segments|
        invariant 0 <= i <= |segments|
        invariant forall k :: 0 <= k < i ==> !(segments[k].start <= lsn < segments[k].end)
      {
        var s := segments[i];
        if s.start <= lsn < s.end {
          Covers(i);
          var local := lsn - s.start;
          if |s.cells| - local < RECORD_HEADER {
            ShortRead(i, lsn);
            return None;
          }
          var total := Size(s.cells[local].record);
          if total > |s.cells| - local || total > MAX_RECORD {
            LongRead(i, lsn);
            return None;
          }
          res := Decode(s.cells[local..local + total], lsn);
          DecodesAt(i, lsn, total, res);
          return;
        }
        i := i + 1;
      }
      Uncovered(lsn);
      res := None;
    }

    lemma Covers(i: nat)
      requires Valid() && i < |segments|
      ensures segments[i].end - segments[i].start <= |segments[i].cells|
    {
      ChainAt(segments, parts, tail, capacity, i);
    }

    /** The records at positions a segment covers are the records of that segment. */
    lemma InSegment(i: nat, r: Record)
      requires Valid() && i < |segments|
      ensures r in Flat() && segments[i].start <= r.lsn < segments[i].end <==> r in parts[i]
    {
      ChainAt(segments, parts, tail, capacity, i);
      ChainDrops(segments, parts, tail, capacity, i);
      FlattenConcat([parts[i]], parts[i..][1..]);
      assert parts[i..] == [parts[i]] + parts[i..][1..];
      FlattenOne(parts[i]);
      if r in parts[i] {
        var k :| 0 <= k < |parts[i]| && parts[i][k] == r;
        PlacedAt(parts[i], segments[i].start, k);
        assert r in Flatten(parts[i..]);
      }
      if r in Flat() && segments[i].start <= r.lsn < segments[i].end {
        AfterSegment(i, r);
      }
    }

    lemma AfterSegment(i: nat, r: Record)
      requires Valid() && i < |segments| && r in Flatten(parts[i..]) && r.lsn < segments[i].end
      ensures r in parts[i]
    {
      ChainAt(segments, parts, tail, capacity, i);
      var here, later := parts[i], Flatten(parts[i..][1..]);
      assert Flatten(parts[i..]) == here + later;
      ChainFlat(segments[i..], parts[i..], tail, capacity);
      PlacedConcat(here, later, segments[i].start);
      if r !in here {
        assert r in later;
        var k :| 0 <= k < |later| && later[k] == r;
        PlacedAt(later, segments[i].end, k);
      }
    }

    lemma Uncovered(lsn: Lsn)
      requires Valid() && forall k :: 0 <= k < |segments| ==> !(segments[k].start <= lsn < segments[k].end)
      ensures forall r :: r in Flat() ==> r.lsn != lsn
    {
      hide ChainOk;
      forall r | r in Flat() ensures r.lsn != lsn {
        var k := SegmentOf(r);
      }
    }

    /** Every record lies in one of the segments. */
    lemma SegmentOf(r: Record) returns (k: nat)
      requires Valid() && r in Flat()
      ensures k < |segments| && segments[k].start <= r.lsn < segments[k].end
    {
      k := PartOf(parts, r);
      ChainAt(segments, parts, tail, capacity, k);
      var i :| 0 <= i < |parts[k]| && parts[k][i] == r;
      PlacedAt(parts[k], segments[k].start, i);
    }

    lemma ShortRead(i: nat, lsn: Lsn)
      requires Valid() && i < |segments| && segments[i].start <= lsn < segments[i].end
      requires |segments[i].cells| - (lsn - segments[i].start) < RECORD_HEADER
      ensures forall r :: r in Flat() ==> r.lsn != lsn
    {
      hide ChainOk;
      forall r | r in Flat() ensures r.lsn != lsn {
        if r.lsn == lsn {
          FitsAt(i, r);
        }
      }
    }

    /** A record at a position lies in the cells from there on. */
    lemma FitsAt(i: nat, r: Record)
      requires Valid() && i < |segments| && r in Flat() && segments[i].start <= r.lsn < segments[i].end
      ensures var k := r.lsn - segments[i].start;
              k + Size(r) <= |segments[i].cells| && segments[i].cells[k] == Cell(r, 0) && Size(r) <= MAX_RECORD
              && segments[i].cells[k..k + Size(r)] == Encode(r)
    {
      hide ChainOk, SegmentOk, Encode, DurableOk;
      NotEmpty();
      ChainAt(segments, parts, tail, capacity, i);
      InSegment(i, r);
      var j :| 0 <= j < |parts[i]| && parts[i][j] == r;
      SegmentHolds(segments[i], parts[i], if i == |segments| - 1 then tail else [], capacity, j);
    }

    lemma LongRead(i: nat, lsn: Lsn)
      requires Valid() && i < |segments| && segments[i].start <= lsn < segments[i].end
      requires lsn - segments[i].start < |segments[i].cells|
      requires var k := lsn - segments[i].start;
               var total := Size(segments[i].cells[k].record);
               total > |segments[i].cells| - k || total > MAX_RECORD
      ensures forall r :: r in Flat() ==> r.lsn != lsn
    {
      hide ChainOk;
      forall r | r in Flat() ensures r.lsn != lsn {
        if r.lsn == lsn {
          FitsAt(i, r);
        }
      }
    }

    lemma DecodesAt(i: nat, lsn: Lsn, total: nat, res: Option<Record>)
      requires Valid() && i < |segments| && segments[i].start <= lsn < segments[i].end
      requires var k := lsn - segments[i].start;
               && k < |segments[i].cells| && total == Size(segments[i].cells[k].record)
               && k + total <= |segments[i].cells|
               && res == Decode(segments[i].cells[k..k + total], lsn)
      ensures forall r :: res == Some(r) <==> r in Flat() && r.lsn == lsn
    {
      hide ChainOk, Encode;
      forall r ensures res == Some(r) <==> r in Flat() && r.lsn == lsn {
        if r in Flat() && r.lsn == lsn {
          FitsAt(i, r);
        }
        if res == Some(r) {
          ThereAt(i, lsn, r);
        }
      }
    }

    /** Whole cells at a covered position are a record of the log. */
    lemma ThereAt(i: nat, lsn: Lsn, r: Record)
      requires Valid() && i < |segments| && segments[i].start <= lsn < segments[i].end && r.lsn == lsn
      requires var k := lsn - segments[i].start;
               k + Size(r) <= |segments[i].cells| && segments[i].cells[k..k + Size(r)] == Encode(r)
      ensures r in Flat()
    {
      hide ChainOk, SegmentOk, Encode, DurableOk;
      NotEmpty();
      ChainAt(segments, parts, tail, capacity, i);
      SegmentReads(segments[i], parts[i], if i == |segments| - 1 then tail else [], capacity, r);
      InSegment(i, r);
    }

    /** Reads the log from a position on: the suffix of the flat log that begins there. */
    method ScanFrom(start: Lsn) returns (res: Result<Found>)
      requires Valid()
      ensures res.Ok? <==> Oldest() <= start <= logicalEnd && Boundary(Flat(), logicalEnd, start)
      ensures res.Ok? ==> res.value == Found(From(Flat(), start), tornTail, logicalEnd)
    {
      hide ChainOk, SegmentOk, DurableOk, Parse;
      NotEmpty();
      if start < Oldest() || start > logicalEnd {
        return Err(InvalidArgument);
      }
      var records, torn, boundary := [], false, start == logicalEnd;
      var i := 0;
      while i < |segments|
        invariant 0 <= i <= |segments|
        invariant records == From(Flatten(parts[..i]), start)
        invariant boundary <==> Boundary(Flatten(parts[..i]), logicalEnd, start)
        invariant torn <==> i == |segments| && tornTail
      {
        var scanned := ScanCells(segments[i].cells, segments[i].start);
        FindsPart(i);
        Collected(parts[..i], parts[i], start);
        assert parts[..i + 1] == parts[..i] + [parts[i]];
        if scanned.torn {
          torn := true;
        }
        var some, here := Select(scanned.records, start);
        records := records + some;
        boundary := boundary || here;
        i := i + 1;
      }
      assert parts[..i] == parts;
      if !boundary {
        return Err(CorruptRecord);
      }
      res := Ok(Found(records, torn, logicalEnd));
    }

    lemma FindsPart(i: nat)
      requires Valid() && i < |segments|
      ensures Parse(segments[i].cells, segments[i].start) ==
                Scan(parts[i], i == |segments| - 1 && tornTail, segments[i].end)
    {
      hide ChainOk, Parse, DurableOk;
      NotEmpty();
      ChainAt(segments, parts, tail, capacity, i);
      ParseFinds(segments[i].cells, segments[i].start, parts[i], if i == |segments| - 1 then tail else []);
    }

    /** Drops whole segments below a floor, keeping some in reserve. Nothing at or above the floor goes. */
    method ReclaimBefore(floor: Lsn, extra: nat) returns (reclaimed: nat)
      requires Valid()
      modifies this
      ensures Valid()
      ensures forall r :: r in old(Flat()) && floor <= r.lsn ==> r in Flat()
      ensures |Flat()| <= |old(Flat())| && Flat() == old(Flat())[|old(Flat())| - |Flat()|..]
      ensures Oldest() == old(Oldest()) || Oldest() <= floor
      ensures var removed := |old(segments)| - |segments|;
              && 0 <= removed && segments == old(segments)[removed..]
              && (removed > 0 ==> Reserve(old(segments), removed + extra, floor))
              && reclaimed == removed * SEGMENT_HEADER + (Oldest() - old(Oldest()))
      ensures unchanged(this`logicalEnd) && unchanged(this`tornTail) && unchanged(this`lastRecord)
      ensures unchanged(this`durable)
    {
      hide Valid, DurableOk, Flat, Flatten;
      NotEmpty();
      reclaimed := 0;
      ghost var flat := Flat();
      assert flat[|flat| - |flat|..] == flat && segments[|segments| - |segments|..] == segments;
      if |segments| <= 1 || floor < Oldest() || floor > logicalEnd {
        return;
      }
      var floorIndex := FloorSegment(floor);
      var removable := if floorIndex > extra then floorIndex - extra else 0;
      if removable == 0 {
        return;
      }
      SegmentsAscend(removable);
      assert segments[removable].start <= segments[floorIndex].start;
      reclaimed := DropFirst(removable);
    }

    /** Forgets the first segments. */
    method DropFirst(k: nat) returns (bytes: nat)
      requires Valid() && 0 < k < |segments|
      modifies this`segments, this`parts, this`firstRetained
      ensures Valid() && segments == old(segments)[k..]
      ensures forall r :: r in old(Flat()) && old(segments)[k].start <= r.lsn ==> r in Flat()
      ensures |Flat()| <= |old(Flat())| && Flat() == old(Flat())[|old(Flat())| - |Flat()|..]
      ensures bytes == k * SEGMENT_HEADER + (Oldest() - old(Oldest()))
    {
      hide ChainOk, SegmentOk, Flatten;
      bytes := FileBytes(k);
      Drops(k);
      NotEmpty();
      firstRetained := segments[k].id;
      segments := segments[k..];
      parts := parts[k..];
    }

    /** The last segment that begins at or below the floor. */
    method FloorSegment(floor: Lsn) returns (index: nat)
      requires segments != [] && Oldest() <= floor
      ensures Reserve(segments, index, floor)
    {
      index := 0;
      while index + 1 < |segments| && segments[index + 1].start <= floor
        invariant index < |segments| && segments[index].start <= floor
      {
        index := index + 1;
      }
    }

    /** The size of the first segment files. */
    method FileBytes(k: nat) returns (bytes: nat)
      requires Valid() && k < |segments|
      ensures bytes == k * SEGMENT_HEADER + (segments[k].start - Oldest())
    {
      hide ChainOk, DurableOk;
      bytes := 0;
      var index := 0;
      while index < k
        invariant index <= k
        invariant bytes == index * SEGMENT_HEADER + (segments[index].start - segments[0].start)
      {
        Sized(index);
        bytes := bytes + SEGMENT_HEADER + |segments[index].cells|;
        index := index + 1;
      }
    }

    lemma Sized(i: nat)
      requires Valid() && i + 1 < |segments|
      ensures segments[i + 1].start == segments[i].start + |segments[i].cells|
    {
      ChainAt(segments, parts, tail, capacity, i);
    }

    lemma SegmentsAscend(i: nat)
      requires Valid() && i < |segments|
      ensures forall k :: i <= k < |segments| ==> segments[i].start <= segments[k].start
    {
      forall k | i <= k < |segments| ensures segments[i].start <= segments[k].start {
        DroppedEnd(segments, parts, tail, capacity, i);
        DroppedEnd(segments, parts, tail, capacity, k);
        assert parts[..k] == parts[..i] + parts[i..k];
        FlattenConcat(parts[..i], parts[i..k]);
        TotalConcat(Flatten(parts[..i]), Flatten(parts[i..k]));
      }
    }

    lemma Drops(k: nat)
      requires Valid() && 0 < k < |segments|
      ensures ChainOk(segments[k..], parts[k..], tail, capacity)
      ensures Last(segments[k..]) == Last(segments) && Last(parts[k..]) == Last(parts)
      ensures var rest := Flatten(parts[k..]);
              |rest| <= |Flat()| && rest == Flat()[|Flat()| - |rest|..]
      ensures forall r :: r in Flatten(parts[k..]) ==> r in Flat()
      ensures forall r :: r in Flat() && segments[k].start <= r.lsn ==> r in Flatten(parts[k..])
    {
      hide DurableOk;
      ChainDrops(segments, parts, tail, capacity, k);
    }

    /** A store found on disk. */
    constructor OnDisk(capacity: nat, segments: seq<Segment>, torn: bool, lastRecord: Lsn,
                      ghost parts: seq<seq<Record>>, ghost tail: seq<Cell>)
      requires capacity >= MIN_CAPACITY && ChainOk(segments, parts, tail, capacity) && (torn <==> tail != [])
      requires lastRecord == LastLsn(Flatten(parts))
      ensures Valid() && this.capacity == capacity && this.segments == segments && this.parts == parts
      ensures tornTail == torn && durable == this.lastRecord == lastRecord && Flat() == Flatten(parts)
      ensures synced == |Last(segments).cells|
    {
      this.capacity := capacity;
      this.segments, this.tornTail := segments, torn;
      firstRetained, logicalEnd := segments[0].id, Last(segments).end;
      this.lastRecord, durable := lastRecord, lastRecord;
      this.parts, this.tail, synced := parts, tail, |Last(segments).cells|;
      new;
      FoundDurable(segments, parts, tail, capacity);
    }
  }

  /** The next segment, empty, behind a whole one. */
  lemma GrownChain(segments: seq<Segment>, parts: seq<seq<Record>>, capacity: nat, next: Segment)
    requires ChainOk(segments, parts, [], capacity)
    requires var active := Last(segments); next == Segment(active.id + 1, active.end, active.id, active.end, [])
    ensures ChainOk(segments + [next], parts + [[]], [], capacity)
  {
    hide ChainOk, SegmentOk, Linked;
    SameLength(segments, parts, [], capacity);
    ChainAt(segments, parts, [], capacity, |segments| - 1);
    HeaderFollows(Last(segments), Last(parts), [], capacity);
    Fresh(next, capacity);
    Follows(Last(segments), next);
    ChainGrows(segments, parts, capacity, next, [], []);
  }

  /** The files of a chain hold it. */
  lemma HeldByFiles(segments: seq<Segment>, parts: seq<seq<Record>>, tail: seq<Cell>, capacity: nat)
    requires ChainOk(segments, parts, tail, capacity)
    ensures Holds(FilesOf(segments, capacity), segments[0].id, capacity, Chain(segments, parts, tail))
  {
    hide ChainOk;
    SameLength(segments, parts, tail, capacity);
    OlderIgnored([], FilesOf(segments, capacity), segments[0].id);
    var none: seq<File> := [];
    assert none + FilesOf(segments, capacity) == FilesOf(segments, capacity);
  }

  /** Behind a segment that ends in a broken record nothing can follow: no chain has these files. */
  lemma TornClosed(segments: seq<Segment>, parts: seq<seq<Record>>, tail: seq<Cell>, capacity: nat, next: Segment)
    requires ChainOk(segments, parts, tail, capacity) && tail != []
    ensures forall c :: !Holds(FilesOf(segments + [next], capacity), segments[0].id, capacity, c)
    ensures forall ps, t :: !ChainOk(segments + [next], ps, t, capacity)
  {
    hide ChainOk, Parse;
    SameLength(segments, parts, tail, capacity);
    var files, n := FilesOf(segments + [next], capacity), |segments| - 1;
    var none: seq<File> := [];
    OlderIgnored([], files, segments[0].id);
    assert none + files == files;
    ScanPart(segments, parts, tail, capacity, n);
    assert files[n] == FileOf(segments[n], capacity);
    forall c: Chain ensures !Holds(files, segments[0].id, capacity, c) {
      if Holds(files, segments[0].id, capacity, c) {
        ExpectedAt(files, capacity, c, n);
        ScanPart(c.segments, c.parts, c.tail, capacity, n);
        assert false;
      }
    }
    forall ps, t ensures !ChainOk(segments + [next], ps, t, capacity) {
      if ChainOk(segments + [next], ps, t, capacity) {
        ScanPart(segments + [next], ps, t, capacity, n);
        assert false;
      }
    }
  }

  lemma HeaderFollows(s: Segment, rs: seq<Record>, tail: seq<Cell>, capacity: nat)
    requires SegmentOk(s, rs, tail, capacity)
    ensures HeaderOk(s.id + 1, s.end, s.id)
  {
  }

  lemma Follows(a: Segment, b: Segment)
    requires b.id == a.id + 1 && b.previousId == a.id && b.start == a.end
    ensures Linked(a, b)
  {
  }

  lemma {:induction false} PartOf(parts: seq<seq<Record>>, r: Record) returns (k: nat)
    requires r in Flatten(parts)
    ensures k < |parts| && r in parts[k]
    decreases parts
  {
    if r in parts[0] {
      k := 0;
    } else {
      k := PartOf(parts[1..], r);
      k := k + 1;
    }
  }

  /** The records of a scan at or after a position, and whether one begins there. */
  method Select(records: seq<Record>, start: Lsn) returns (some: seq<Record>, here: bool)
    ensures some == From(records, start)
    ensures here <==> exists r :: r in records && r.lsn == start
  {
    some, here := [], false;
    var i := 0;
    while i < |records|
      invariant i <= |records|
      invariant some == From(records[..i], start)
      invariant here <==> exists r :: r in records[..i] && r.lsn == start
    {
      var r := records[i];
      assert records[..i + 1] == records[..i] + [r];
      FromConcat(records[..i], [r], start);
      FromOne(r, start);
      if r.lsn == start {
        here := true;
      }
      if r.lsn >= start {
        some := some + [r];
      }
      i := i + 1;
    }
    assert records[..i] == records;
  }

  lemma FromOne(r: Record, start: Lsn)
    ensures From([r], start) == if r.lsn >= start then [r] else []
  {
  }

  lemma Collected(parts: seq<seq<Record>>, part: seq<Record>, start: Lsn)
    ensures From(Flatten(parts + [part]), start) == From(Flatten(parts), start) + From(part, start)
    ensures Flatten(parts + [part]) == Flatten(parts) + part
  {
    FlattenConcat(parts, [part]);
    FlattenOne(part);
    FromConcat(Flatten(parts), part, start);
  }

  lemma FoundDurable(segments: seq<Segment>, parts: seq<seq<Record>>, tail: seq<Cell>, capacity: nat)
    requires ChainOk(segments, parts, tail, capacity)
    ensures var last := LastLsn(Flatten(parts));
            INVALID_LSN <= last < Last(segments).end && forall r :: r in Flatten(parts) ==> r.lsn <= last
    ensures forall r :: r in Last(parts) ==> r.lsn + Size(r) <= Last(segments).start + |Last(segments).cells|
  {
    var log := Flatten(parts);
    ChainFlat(segments, parts, tail, capacity);
    ChainAt(segments, parts, tail, capacity, 0);
    ChainAt(segments, parts, tail, capacity, |segments| - 1);
    forall r | r in log ensures r.lsn <= LastLsn(log) {
      var i :| 0 <= i < |log| && log[i] == r;
      if i < |log| - 1 {
        PlacedAscends(log, segments[0].start, i, |log| - 1);
      }
    }
    if log != [] {
      PlacedAt(log, segments[0].start, |log| - 1);
    }
    forall r | r in Last(parts) ensures r.lsn + Size(r) <= Last(segments).start + |Last(segments).cells| {
      var i :| 0 <= i < |Last(parts)| && Last(parts)[i] == r;
      PlacedAt(Last(parts), Last(segments).start, i);
    }
  }

  // ---- Opening an existing store ----

  /** One file as the segment it holds, or why it is refused. */
  method OpenFile(f: File, capacity: nat, active: bool) returns (res: Result<Segment>, ghost rs: seq<Record>,
                                                                 ghost tail: seq<Cell>)
    ensures res.Ok? ==>
              FileOf(res.value, capacity) == f && SegmentOk(res.value, rs, tail, capacity) && (!active ==> tail == [])
    ensures f.header.None? ==> res.Err?
    ensures forall s, xs, t :: f == FileOf(s, capacity) && SegmentOk(s, xs, t, capacity) && (active || t == []) ==>
              res == Ok(s) && rs == xs && (t != [] <==> tail != [])
  {
    hide Shape, Parse;
    rs, tail := [], [];
    if f.header.None? || f.header.value.id != f.id || f.header.value.capacity != capacity
       || !HeaderOk(f.id, f.header.value.start, f.header.value.previousId) || |f.cells| > capacity {
      return Err(CorruptHeader), rs, tail;
    }
    var h := f.header.value;
    var scanned := ScanCells(f.cells, h.start);
    forall xs, t | Shape(f.cells, h.start, xs, t) ensures scanned == Scan(xs, t != [], h.start + Total(xs)) {
      ParseFinds(f.cells, h.start, xs, t);
    }
    if scanned.Corrupt? || (scanned.torn && !active) {
      return Err(CorruptRecord), rs, tail;
    }
    rs := scanned.records;
    tail := ParseSound(f.cells, h.start);
    res := Ok(Segment(h.id, h.start, h.previousId, scanned.end, f.cells));
  }

  /** Files hold at most one log. */
  lemma HeldOnce(files: seq<File>, first: nat, capacity: nat, c: Chain, e: Chain)
    requires Holds(files, first, capacity, c) && Holds(files, first, capacity, e)
    ensures c.segments == e.segments && c.parts == e.parts && (c.tail != [] <==> e.tail != [])
  {
    hide ChainOk, SegmentOk, Parse;
    var found := Retained(files, first);
    ExpectedFirst(found, capacity, first, c);
    ExpectedFirst(found, capacity, first, e);
    forall i | 0 <= i < |found|
      ensures c.segments[i] == e.segments[i] && c.parts[i] == e.parts[i]
    {
      ExpectedAt(found, capacity, c, i);
      ExpectedAt(found, capacity, e, i);
      ScanPart(c.segments, c.parts, c.tail, capacity, i);
      ScanPart(e.segments, e.parts, e.tail, capacity, i);
    }
    ScanTorn(c.segments, c.parts, c.tail, capacity);
    ScanTorn(e.segments, e.parts, e.tail, capacity);
    assert c.segments == e.segments;
  }

  /** Rebuilds the store from the files the manifest asks for. It succeeds on exactly the directories that
      hold a chain, and then finds that chain. */
  method Open(files: seq<File>, first: nat, capacity: nat) returns (res: Result<Storage>)
    requires capacity >= MIN_CAPACITY
    ensures res.Ok? <==> exists c :: Holds(files, first, capacity, c)
    ensures res.Ok? ==>
              && fresh(res.value) && res.value.Valid() && res.value.capacity == capacity
              && Holds(files, first, capacity, Chain(res.value.segments, res.value.parts, res.value.tail))
              && res.value.synced == |Last(res.value.segments).cells|
  {
    ghost var expected: Option<Chain> := None;
    if exists c :: Holds(files, first, capacity, c) {
      ghost var c :| Holds(files, first, capacity, c);
      expected := Some(c);
    }
    res := OpenChain(files, first, capacity, expected);
  }

  method OpenChain(files: seq<File>, first: nat, capacity: nat, ghost expected: Option<Chain>)
    returns (res: Result<Storage>)
    requires capacity >= MIN_CAPACITY
    requires expected.Some? ==> Holds(files, first, capacity, expected.value)
    ensures res.Ok? ==>
              && fresh(res.value) && res.value.Valid() && res.value.capacity == capacity
              && Holds(files, first, capacity, Chain(res.value.segments, res.value.parts, res.value.tail))
              && res.value.synced == |Last(res.value.segments).cells|
    ensures expected.Some? ==> res.Ok?
  {
    hide ChainOk, SegmentOk, Linked;
    var found := Retained(files, first);
    if expected.Some? {
      ExpectedFirst(found, capacity, first, expected.value);
    }
    if found == [] || found[0].id != first {
      return Err(CorruptHeader);
    }
    var segments: seq<Segment> := [];
    ghost var parts, tail := [], [];
    var i := 0;
    while i < |found|
      invariant i <= |found| && |segments| == |parts| == i
      invariant i > 0 ==> ChainOk(segments, parts, tail, capacity)
      invariant i < |found| ==> tail == []
      invariant FilesOf(segments, capacity) == found[..i]
      invariant expected.Some? ==> segments == expected.value.segments[..i] && parts == expected.value.parts[..i]
      invariant expected.Some? && i == |found| ==> (tail != [] <==> expected.value.tail != [])
    {
      var opened', rs, t := OpenFile(found[i], capacity, i + 1 == |found|);
      if expected.Some? {
        ExpectedAt(found, capacity, expected.value, i);
      }
      if opened'.Err? {
        return Err(opened'.error);
      }
      var info := opened'.value;
      if i > 0 && !Linked(segments[i - 1], info) {
        return Err(CorruptHeader);
      }
      if i == 0 {
        SingleChain(info, rs, t, capacity);
        assert segments + [info] == [info] && parts + [rs] == [rs];
      } else {
        ChainGrows(segments, parts, capacity, info, rs, t);
      }
      assert found[..i + 1] == found[..i] + [found[i]];
      FilesGrow(segments, info, capacity);
      segments, parts, tail := segments + [info], parts + [rs], t;
      i := i + 1;
    }
    assert found[..i] == found;
    if expected.Some? {
      ExpectedFirst(found, capacity, first, expected.value);
      assert expected.value.parts[..i] == expected.value.parts;
      assert expected.value.segments[..i] == expected.value.segments;
    }
    FirstId(segments, capacity, found);
    ScanTorn(segments, parts, tail, capacity);
    var active := ScanCells(Last(segments).cells, Last(segments).start);
    var last := LastFound(segments, parts, tail, capacity);
    var store := new Storage.OnDisk(capacity, segments, active.torn, last, parts, tail);
    res := Ok(store);
  }

  /** The newest record of the segments read. */
  method LastFound(segments: seq<Segment>, ghost parts: seq<seq<Record>>, ghost tail: seq<Cell>,
                   capacity: nat) returns (last: Lsn)
    requires ChainOk(segments, parts, tail, capacity)
    ensures last == LastLsn(Flatten(parts))
  {
    hide ChainOk, SegmentOk, Parse;
    SameLength(segments, parts, tail, capacity);
    last := INVALID_LSN;
    var i := 0;
    while i < |segments|
      invariant i <= |segments| && last == LastLsn(Flatten(parts[..i]))
    {
      var scanned := ScanCells(segments[i].cells, segments[i].start);
      ScanPart(segments, parts, tail, capacity, i);
      FlattenConcat(parts[..i], [parts[i]]);
      FlattenOne(parts[i]);
      assert parts[..i + 1] == parts[..i] + [parts[i]];
      if scanned.records != [] {
        last := scanned.records[|scanned.records| - 1].lsn;
      } else {
        assert Flatten(parts[..i]) + [] == Flatten(parts[..i]);
      }
      i := i + 1;
    }
    assert parts[..i] == parts;
  }

  lemma ScanPart(segments: seq<Segment>, parts: seq<seq<Record>>, tail: seq<Cell>, capacity: nat, i: nat)
    requires ChainOk(segments, parts, tail, capacity) && i < |segments|
    ensures i < |parts|
    ensures Parse(segments[i].cells, segments[i].start) ==
              Scan(parts[i], i == |segments| - 1 && tail != [], segments[i].end)
  {
    hide ChainOk, Parse;
    ChainAt(segments, parts, tail, capacity, i);
    ParseFinds(segments[i].cells, segments[i].start, parts[i], if i == |segments| - 1 then tail else []);
  }

  lemma ScanTorn(segments: seq<Segment>, parts: seq<seq<Record>>, tail: seq<Cell>, capacity: nat)
    requires ChainOk(segments, parts, tail, capacity)
    ensures segments != [] && Parse(Last(segments).cells, Last(segments).start).Scan?
    ensures Parse(Last(segments).cells, Last(segments).start).torn <==> tail != []
  {
    hide ChainOk, Parse;
    SameLength(segments, parts, tail, capacity);
    ScanPart(segments, parts, tail, capacity, |segments| - 1);
  }

  lemma SingleChain(s: Segment, rs: seq<Record>, tail: seq<Cell>, capacity: nat)
    requires SegmentOk(s, rs, tail, capacity)
    ensures ChainOk([s], [rs], tail, capacity)
  {
  }

  lemma FilesGrow(segments: seq<Segment>, s: Segment, capacity: nat)
    ensures FilesOf(segments + [s], capacity) == FilesOf(segments, capacity) + [FileOf(s, capacity)]
  {
  }

  lemma FirstId(segments: seq<Segment>, capacity: nat, found: seq<File>)
    requires segments != [] && FilesOf(segments, capacity) == found
    ensures found[0].id == segments[0].id
  {
  }

  lemma ExpectedFirst(found: seq<File>, capacity: nat, first: nat, c: Chain)
    requires ChainOk(c.segments, c.parts, c.tail, capacity) && c.segments[0].id == first
    requires found == FilesOf(c.segments, capacity)
    ensures found != [] && found[0].id == first && |found| == |c.segments| == |c.parts|
  {
  }

  lemma ExpectedAt(found: seq<File>, capacity: nat, c: Chain, i: nat)
    requires ChainOk(c.segments, c.parts, c.tail, capacity) && found == FilesOf(c.segments, capacity) && i < |found|
    ensures |found| == |c.segments| == |c.parts| && found[i] == FileOf(c.segments[i], capacity)
    ensures SegmentOk(c.segments[i], c.parts[i], if i == |found| - 1 then c.tail else [], capacity)
    ensures i > 0 ==> Linked(c.segments[i - 1], c.segments[i])
  {
    hide SegmentOk, Linked;
    ChainAt(c.segments, c.parts, c.tail, capacity, i);
    if i > 0 {
      ChainAt(c.segments, c.parts, c.tail, capacity, i - 1);
    }
  }

  // ---- Crashes ----

  lemma {:induction false} OlderIgnored(older: seq<File>, files: seq<File>, first: nat)
    requires (forall f :: f in older ==> f.id < first) && (files == [] || first <= files[0].id)
    ensures Retained(older + files, first) == files
  {
    if older == [] {
      assert older + files == files;
    } else {
      assert (older + files)[1..] == older[1..] + files;
      OlderIgnored(older[1..], files, first);
    }
  }

  /** A file without header is held by no chain. */
  lemma HeaderMissing(files: seq<File>, f: File, first: nat, capacity: nat, c: Chain)
    requires f in Retained(files, first) && f.header.None?
    ensures !Holds(files, first, capacity, c)
  {
    hide ChainOk;
  }

  /** The file that creating the next segment makes: empty at first, then with its header. Everything before it
      was forced. */
  predicate NextFile(active: Segment, end: Lsn, capacity: nat, f: File) {
    && f.id == active.id + 1 && f.cells == []
    && (f.header.None? || f.header == Some(Header(active.id + 1, end, active.id, capacity)))
  }

  /** What a crash leaves: every closed segment, the active one cut anywhere at or after the synced cells, or
      whole with the file of the segment about to follow it, and possibly older files a reclamation had not
      deleted yet. Opening succeeds exactly if that file is not there, or has its header and follows a whole
      segment. Then the log is found cut at a record boundary, with every durable record in it. */
  method CrashAndReopen(store: Storage, cut: nat, created: Option<File>, older: seq<File>)
    returns (res: Result<Storage>)
    requires store.Valid() && store.synced <= cut <= |Last(store.segments).cells|
    requires created.Some? ==> cut == |Last(store.segments).cells|
    requires created.Some? ==> NextFile(Last(store.segments), store.logicalEnd, store.capacity, created.value)
    requires forall f :: f in older ==> f.id < store.firstRetained
    ensures res.Ok? <==> created.None? || (created.value.header.Some? && !store.tornTail)
    ensures res.Ok? ==> fresh(res.value) && res.value.Valid() && res.value.Oldest() == store.Oldest()
    ensures res.Ok? ==> res.value.Flat() <= store.Flat()
    ensures res.Ok? ==> forall r :: r in store.Flat() && r.lsn <= store.durable ==> r in res.value.Flat()
    ensures res.Ok? ==>
              forall r :: r in store.Flat() && r.lsn + Size(r) <= Last(store.segments).start + cut ==>
                r in res.value.Flat()
    ensures res.Ok? && created.Some? ==> res.value.Flat() == store.Flat()
  {
    hide ChainOk, SegmentOk, Linked, Holds;
    store.NotEmpty();
    var active := Last(store.segments);
    var left := store.segments[..|store.segments| - 1] + [active.(cells := active.cells[..cut])];
    var found := FilesOf(left, store.capacity) + (if created.Some? then [created.value] else []);
    LeftFirst(store, left, found);
    OlderIgnored(older, found, store.firstRetained);
    ghost var c, opens := LeftByCrash(store, cut, created, left, found);
    HeldWith(older, found, store.firstRetained, store.capacity, c, opens);
    res := Open(older + found, store.firstRetained, store.capacity);
    if res.Ok? {
      HeldOnce(older + found, store.firstRetained, store.capacity, c,
               Chain(res.value.segments, res.value.parts, res.value.tail));
      HeldFirst(older + found, store.firstRetained, store.capacity, c);
    }
  }

  lemma LeftFirst(store: Storage, left: seq<Segment>, found: seq<File>)
    requires store.Valid() && left != [] && FilesOf(left, store.capacity) <= found
    requires left[0].id == store.segments[0].id
    ensures found != [] && found[0].id == store.firstRetained
  {
    assert found[0] == FilesOf(left, store.capacity)[0];
  }

  /** Older files make no difference. */
  lemma HeldWith(older: seq<File>, found: seq<File>, first: nat, capacity: nat, c: Chain, opens: bool)
    requires Retained(older + found, first) == found && found != [] && found[0].id == first
    requires if opens then Holds(found, first, capacity, c) else forall e :: !Holds(found, first, capacity, e)
    ensures if opens then Holds(older + found, first, capacity, c)
            else forall e :: !Holds(older + found, first, capacity, e)
  {
    hide ChainOk;
    assert Retained(found, first) == found;
    forall e: Chain ensures Holds(older + found, first, capacity, e) <==> Holds(found, first, capacity, e) {
    }
  }

  lemma HeldFirst(files: seq<File>, first: nat, capacity: nat, c: Chain)
    requires Holds(files, first, capacity, c)
    ensures c.segments != [] && c.segments[0].id == first
  {
  }

  /** The chain the files of a crash hold, if they hold one. */
  lemma LeftByCrash(store: Storage, cut: nat, created: Option<File>, left: seq<Segment>, found: seq<File>)
    returns (c: Chain, opens: bool)
    requires store.Valid() && store.synced <= cut <= |Last(store.segments).cells|
    requires created.Some? ==> cut == |Last(store.segments).cells|
    requires created.Some? ==> NextFile(Last(store.segments), store.logicalEnd, store.capacity, created.value)
    requires left == Front(store.segments) + [Last(store.segments).(cells := Last(store.segments).cells[..cut])]
    requires found == FilesOf(left, store.capacity) + (if created.Some? then [created.value] else [])
    ensures opens <==> created.None? || (created.value.header.Some? && !store.tornTail)
    ensures if opens then Holds(found, store.firstRetained, store.capacity, c)
            else forall e :: !Holds(found, store.firstRetained, store.capacity, e)
    ensures opens ==> c.segments != [] && c.segments[0].start == store.segments[0].start
    ensures opens ==> Flatten(c.parts) <= store.Flat()
    ensures opens ==> forall r :: r in store.Flat() && r.lsn <= store.durable ==> r in Flatten(c.parts)
    ensures opens ==>
              forall r :: r in store.Flat() && r.lsn + Size(r) <= Last(store.segments).start + cut ==>
                r in Flatten(c.parts)
    ensures opens && created.Some? ==> Flatten(c.parts) == store.Flat()
  {
    hide ChainOk, SegmentOk, Linked, Holds;
    if created.None? {
      c := LeftByCut(store, cut, left);
      opens := true;
      assert found == FilesOf(left, store.capacity);
    } else {
      opens := created.value.header.Some? && !store.tornTail;
      store.NotEmpty();
      assert Last(store.segments).cells[..cut] == Last(store.segments).cells && left == store.segments;
      c := LeftByCreation(store, created.value, found);
    }
  }

  lemma LeftByCut(store: Storage, cut: nat, left: seq<Segment>) returns (c: Chain)
    requires store.Valid() && store.synced <= cut <= |Last(store.segments).cells|
    requires left == Front(store.segments) + [Last(store.segments).(cells := Last(store.segments).cells[..cut])]
    ensures Holds(FilesOf(left, store.capacity), store.firstRetained, store.capacity, c)
    ensures c.segments != [] && c.segments[0].start == store.segments[0].start && Flatten(c.parts) <= store.Flat()
    ensures forall r :: r in store.Flat() && r.lsn <= store.durable ==> r in Flatten(c.parts)
    ensures forall r :: r in store.Flat() && r.lsn + Size(r) <= Last(store.segments).start + cut ==>
              r in Flatten(c.parts)
  {
    hide ChainOk, SegmentOk, Linked, Holds;
    store.NotEmpty();
    var s, rs, rest := CutChain(store.segments, store.parts, store.tail, store.capacity, cut);
    c := Chain(Front(store.segments) + [s], Front(store.parts) + [rs], rest);
    SameFiles(left, c.segments, store.capacity);
    HeldByFiles(c.segments, c.parts, c.tail, store.capacity);
    DurableKept(store, rs, cut);
  }

  lemma LeftByCreation(store: Storage, f: File, found: seq<File>) returns (c: Chain)
    requires store.Valid() && NextFile(Last(store.segments), store.logicalEnd, store.capacity, f)
    requires found == FilesOf(store.segments, store.capacity) + [f]
    ensures if f.header.Some? && !store.tornTail then Holds(found, store.firstRetained, store.capacity, c)
            else forall e :: !Holds(found, store.firstRetained, store.capacity, e)
    ensures f.header.Some? && !store.tornTail ==>
              c.segments != [] && c.segments[0].start == store.segments[0].start && Flatten(c.parts) == store.Flat()
  {
    hide ChainOk, SegmentOk, Linked;
    store.NotEmpty();
    var active := Last(store.segments);
    var next := Segment(active.id + 1, store.logicalEnd, active.id, store.logicalEnd, []);
    c := Chain(store.segments + [next], store.parts + [[]], []);
    FilesGrow(store.segments, next, store.capacity);
    if f.header.None? {
      var none: seq<File> := [];
      assert found[0].id == store.firstRetained;
      OlderIgnored([], found, store.firstRetained);
      assert none + found == found;
      forall e: Chain ensures !Holds(found, store.firstRetained, store.capacity, e) {
        HeaderMissing(found, f, store.firstRetained, store.capacity, e);
      }
    } else {
      assert f == FileOf(next, store.capacity);
      if store.tornTail {
        TornClosed(store.segments, store.parts, store.tail, store.capacity, next);
      } else {
        GrownChain(store.segments, store.parts, store.capacity, next);
        HeldByFiles(c.segments, c.parts, [], store.capacity);
        FlattenConcat(store.parts, [[]]);
        FlattenOne([]);
        assert Flatten(store.parts) + [] == Flatten(store.parts);
      }
    }
  }

  lemma SameFiles(a: seq<Segment>, b: seq<Segment>, capacity: nat)
    requires |a| == |b| && forall i :: 0 <= i < |a| ==> FileOf(a[i], capacity) == FileOf(b[i], capacity)
    ensures FilesOf(a, capacity) == FilesOf(b, capacity)
  {
  }

  /** A durable record of the active segment lies below the cut; the others are in closed segments. */
  lemma DurableKept(store: Storage, rs: seq<Record>, cut: nat)
    requires store.Valid() && store.synced <= cut
    requires forall r :: r in store.Flat() && r.lsn + Size(r) <= Last(store.segments).start + cut ==>
               r in Flatten(Front(store.parts) + [rs])
    ensures forall r :: r in store.Flat() && r.lsn <= store.durable ==> r in Flatten(Front(store.parts) + [rs])
  {
    hide ChainOk, SegmentOk;
    store.NotEmpty();
    FlattenLast(store.parts);
    FlattenLast(Front(store.parts) + [rs]);
    assert Front(Front(store.parts) + [rs]) == Front(store.parts);
  }
}
