/** The log manager: a memory buffer in front of the segmented storage, together one flat log. */
module LogManager {
  import opened Options
  import opened LogCells
  import opened SegmentChain
  import opened SegmentedWal

  class Manager {
    const storage: Storage
    const bufferCapacity: nat
    var buffer: seq<Cell>
    var bufferStart: Lsn
    var nextLsn: Lsn
    var lastAppended: Lsn
    var durableLsn: Lsn
    var tornTail: bool
    var known: set<Lsn>
    ghost var pending: seq<Record>

    ghost predicate Valid()
      reads this, storage
    {
      && storage.Valid() && bufferCapacity > 0
      && BufferOk(buffer, pending, bufferCapacity, bufferStart, nextLsn) && bufferStart == storage.logicalEnd
      && tornTail == storage.tornTail && (tornTail ==> pending == [])
      && lastAppended == (if pending == [] then storage.lastRecord else Last(pending).lsn)
      && INVALID_LSN <= durableLsn <= storage.durable
      && KnownIn(known, Flat())
    }

    /** Everything appended and still retained. */
    ghost function Flat(): (r: seq<Record>)
      reads this, storage
    {
      storage.Flat() + pending
    }

    /** Every buffered record is known, so that it can be named in a flush. */
    ghost predicate Remembers()
      reads this
    {
      forall r :: r in pending ==> r.lsn in known
    }

    /** Every buffered record fits in a segment. */
    ghost predicate Drainable()
      reads this
    {
      forall r :: r in pending ==> Size(r) <= storage.capacity
    }

    /** A buffer no larger than a segment can always be drained. */
    lemma SmallBufferDrains()
      requires Valid() && bufferCapacity <= storage.capacity
      ensures Drainable()
    {
      forall r | r in pending ensures Size(r) <= storage.capacity {
        var i :| 0 <= i < |pending| && pending[i] == r;
        PlacedAt(pending, bufferStart, i);
      }
    }

    /** The flat log is contiguous: it begins at the oldest segment and ends where the next record goes. */
    lemma Contiguous()
      requires Valid()
      ensures storage.segments != [] && Placed(Flat(), storage.Oldest()) && nextLsn == storage.Oldest() + Total(Flat())
      ensures forall r :: r in Flat() ==> Size(r) <= MAX_RECORD
    {
      hide ChainOk;
      storage.NotEmpty();
      ChainFlat(storage.segments, storage.parts, storage.tail, storage.capacity);
      PlacedConcat(storage.Flat(), pending, storage.Oldest());
      TotalConcat(storage.Flat(), pending);
    }

    constructor (storage: Storage, bufferCapacity: nat)
      requires storage.Valid() && bufferCapacity > 0
      ensures Valid() && this.storage == storage && this.bufferCapacity == bufferCapacity && buffer == []
      ensures Flat() == storage.Flat() && Remembers() && Drainable() && durableLsn <= storage.durable
      ensures nextLsn == storage.logicalEnd && tornTail == storage.tornTail && pending == [] && known == {}
    {
      this.storage, this.bufferCapacity := storage, bufferCapacity;
      buffer, bufferStart, nextLsn := [], storage.logicalEnd, storage.logicalEnd;
      lastAppended, durableLsn, tornTail := storage.lastRecord, storage.durable, storage.tornTail;
      known, pending := {}, [];
      new;
      BufferNone(bufferCapacity, bufferStart);
      assert storage.Flat() + [] == storage.Flat();
    }

    /** Writes the buffered records to the storage, one by one. */
    method WriteBuffer() returns (ok: bool)
      requires Valid()
      modifies this, storage
      ensures storage.Valid()
      ensures ok <==> old(Drainable())
      ensures ok ==> Valid() && buffer == [] && Flat() == old(Flat()) && storage.Flat() == old(Flat())
      ensures !ok ==> buffer == old(buffer) && pending == old(pending)
      ensures !ok ==> old(storage.Flat()) <= storage.Flat() <= old(Flat())
      ensures unchanged(this`nextLsn) && unchanged(this`lastAppended) && unchanged(this`durableLsn)
      ensures unchanged(this`tornTail) && unchanged(this`known)
      ensures old(storage.durable) <= storage.durable && storage.segments != []
      ensures storage.Oldest() == old(storage.Oldest())
    {
      hide EncodeAll, Placed, Storage.Valid, KnownIn;
      storage.NotEmpty();
      Empty();
      if buffer == [] {
        return true;
      }
      ok := Drain(storage, buffer, bufferStart, pending);
      storage.NotEmpty();
      if ok {
        bufferStart := bufferStart + |buffer|;
        buffer, pending := [], [];
        BufferNone(bufferCapacity, bufferStart);
        Empty0();
      }
    }

    /** Appends a record at the end of the log and returns its position. The record waits in the buffer, or
        goes to the storage at once when it is larger than the buffer. */
    method Append(kind: nat, tid: nat, prev: Lsn, payload: seq<bv8>) returns (res: Result<Lsn>)
      requires Valid()
      modifies this, storage
      ensures storage.Valid()
      ensures old(Drainable()) || res.Ok? ==> Valid()
      ensures res.Ok? ==>
                && res.value == old(nextLsn) == lastAppended && nextLsn == old(nextLsn) + RECORD_HEADER + |payload|
                && Flat() == old(Flat()) + [Record(old(nextLsn), kind, tid, prev, payload)]
                && known == old(known) + {res.value}
      ensures res.Err? && old(Drainable()) ==> Flat() == old(Flat()) && nextLsn == old(nextLsn) && known == old(known)
      ensures var r := Record(old(nextLsn), kind, tid, prev, payload);
              res.Ok? <==>
                && !old(tornTail) && Encodable(r)
                && (Size(r) > bufferCapacity ==> Size(r) <= storage.capacity)
                && (Size(r) > bufferCapacity - |old(buffer)| ==> old(Drainable()))
      ensures res.Ok? && RECORD_HEADER + |payload| <= bufferCapacity - |old(buffer)| ==>
                unchanged(storage) && buffer != [] && pending == old(pending) + [Record(old(nextLsn), kind, tid, prev,
                                                                                        payload)]
      ensures res.Err? && !old(Drainable()) ==>
                buffer == old(buffer) && pending == old(pending) && nextLsn == old(nextLsn) && known == old(known)
      ensures res.Err? && !old(Drainable()) ==> old(storage.Flat()) <= storage.Flat() <= old(Flat())
      ensures old(durableLsn) == durableLsn && old(storage.durable) <= storage.durable
    {
      hide Placed, EncodeAll, Storage.Valid, Encode;
      var r := Record(nextLsn, kind, tid, prev, payload);
      if tornTail {
        return Err(TruncatedTail);
      }
      if !Encodable(r) {
        return Err(InvalidArgument);
      }
      if Size(r) > bufferCapacity {
        var ok := AppendDirect(r);
        res := if ok then Ok(r.lsn) else Err(InvalidArgument);
        return;
      }
      if Size(r) > bufferCapacity - |buffer| {
        var ok := WriteBuffer();
        if !ok {
          return Err(InvalidArgument);
        }
      }
      AppendBuffered(r);
      res := Ok(r.lsn);
    }

    /** A record larger than the buffer: after what is buffered, straight to the storage. */
    method AppendDirect(r: Record) returns (ok: bool)
      requires Valid() && !tornTail && r.lsn == nextLsn && Size(r) <= MAX_RECORD
      modifies this, storage
      ensures storage.Valid()
      ensures ok <==> old(Drainable()) && Size(r) <= storage.capacity
      ensures old(Drainable()) ==> Valid() && known == (if ok then old(known) + {r.lsn} else old(known))
      ensures ok ==> Flat() == old(Flat()) + [r] && nextLsn == old(nextLsn) + Size(r) && lastAppended == r.lsn
      ensures !ok && old(Drainable()) ==> Flat() == old(Flat()) && nextLsn == old(nextLsn)
      ensures !old(Drainable()) ==> buffer == old(buffer) && pending == old(pending) && nextLsn == old(nextLsn)
      ensures !old(Drainable()) ==> known == old(known)
      ensures !old(Drainable()) ==> old(storage.Flat()) <= storage.Flat() <= old(Flat())
      ensures old(durableLsn) == durableLsn && old(storage.durable) <= storage.durable
    {
      hide BufferOk, Storage.Valid, Encode, KnownIn;
      ghost var flat := Flat();
      ok := WriteBuffer();
      if !ok {
        return;
      }
      Empty();
      var stored := storage.AppendRecord(r);
      if stored.Err? {
        return false;
      }
      bufferStart := r.lsn + Size(r);
      BufferNone(bufferCapacity, bufferStart);
      nextLsn := nextLsn + Size(r);
      lastAppended := r.lsn;
      known := known + {r.lsn};
      KnownAdds(old(known), flat, r);
      Empty0();
    }

    /** A record the buffer has room for. */
    method AppendBuffered(r: Record)
      requires Valid() && !tornTail && r.lsn == nextLsn && Size(r) <= MAX_RECORD && Size(r) <= bufferCapacity - |buffer|
      modifies this
      ensures Valid() && Flat() == old(Flat()) + [r] && nextLsn == old(nextLsn) + Size(r) && lastAppended == r.lsn
      ensures known == old(known) + {r.lsn} && durableLsn == old(durableLsn)
      ensures buffer != [] && pending == old(pending) + [r]
    {
      hide BufferOk, Storage.Valid, Encode, KnownIn;
      Empty();
      ghost var flat := Flat();
      BufferAdds(buffer, pending, bufferCapacity, bufferStart, nextLsn, r);
      Assoc(storage.Flat(), pending, [r]);
      KnownAdds(known, flat, r);
      if buffer == [] {
        bufferStart := r.lsn;
      }
      buffer := buffer + Encode(r);
      pending := pending + [r];
      nextLsn := nextLsn + Size(r);
      lastAppended := r.lsn;
      known := known + {r.lsn};
    }

    /** A position the log has a record at. */
    method ContainsLsn(lsn: Lsn) returns (b: bool)
      requires Valid()
      ensures b ==> exists r :: r in Flat() && r.lsn == lsn
      ensures Remembers() && (exists r :: r in Flat() && r.lsn == lsn) ==> b
      ensures b <==> lsn in known || exists r :: r in storage.Flat() && r.lsn == lsn
    {
      hide Placed, EncodeAll, Storage.Valid;
      if lsn in known {
        return true;
      }
      var stored := storage.ReadRecordAt(lsn);
      b := stored.Some?;
    }

    /** Makes the log durable up to a record, and past it. */
    method FlushUpTo(target: Lsn) returns (res: Result<()>)
      requires Valid()
      modifies this, storage
      ensures storage.Valid()
      ensures old(Drainable()) || res.Ok? ==> Valid() && Flat() == old(Flat())
      ensures res.Ok? ==>
                && durableLsn >= target
                && forall r :: r in Flat() && r.lsn <= target ==> r in storage.Flat() && r.lsn <= storage.durable
      ensures old(Remembers()) ==>
                (res.Ok? <==>
                   && (exists r :: r in old(Flat()) && r.lsn == target)
                   && (old(durableLsn) >= target || old(Drainable())))
      ensures res.Ok? <==>
                && (target in old(known) || exists r :: r in old(storage.Flat()) && r.lsn == target)
                && (old(durableLsn) >= target || old(Drainable()))
      ensures res.Err? ==> pending == old(pending)
      ensures nextLsn == old(nextLsn) && known == old(known)
    {
      hide Placed, EncodeAll, Storage.Valid, Encode;
      var there := ContainsLsn(target);
      if !there {
        return Err(InvalidArgument);
      }
      Positions();
      DurableStored();
      if durableLsn != INVALID_LSN && durableLsn >= target {
        return Ok(());
      }
      var ok := Force();
      res := if ok then Ok(()) else Err(InvalidArgument);
    }

    /** Drains the buffer and forces the storage. */
    method Force() returns (ok: bool)
      requires Valid()
      modifies this, storage
      ensures storage.Valid() && (ok <==> old(Drainable())) && nextLsn == old(nextLsn) && known == old(known)
      ensures ok ==>
                Valid() && Flat() == storage.Flat() == old(Flat()) && buffer == [] && durableLsn == old(lastAppended)
      ensures ok ==> forall r :: r in Flat() ==> r.lsn <= durableLsn && r.lsn <= storage.durable
      ensures !ok ==> pending == old(pending) && old(storage.Flat()) <= storage.Flat() <= old(Flat())
    {
      hide BufferOk, Storage.Valid, KnownIn;
      ok := WriteBuffer();
      if ok {
        storage.Flush();
        Empty();
        StoredOrder();
        durableLsn := lastAppended;
      }
    }

    lemma Positions()
      requires Valid()
      ensures forall r :: r in Flat() ==> r.lsn > INVALID_LSN
      ensures forall r :: r in Flat() ==> r.lsn <= lastAppended
    {
      Contiguous();
      ChainAt(storage.segments, storage.parts, storage.tail, storage.capacity, 0);
      forall r | r in Flat() ensures r.lsn > INVALID_LSN && r.lsn <= lastAppended {
        var i :| 0 <= i < |Flat()| && Flat()[i] == r;
        PlacedAt(Flat(), storage.Oldest(), i);
        if i < |Flat()| - 1 {
          PlacedAscends(Flat(), storage.Oldest(), i, |Flat()| - 1);
        }
      }
    }

    /** What is durable is in the storage: the buffer only holds later records. */
    lemma DurableStored()
      requires Valid()
      ensures forall r :: r in Flat() && r.lsn <= durableLsn ==> r in storage.Flat() && r.lsn <= storage.durable
    {
      hide ChainOk;
      forall r | r in pending ensures r.lsn > durableLsn {
        var i :| 0 <= i < |pending| && pending[i] == r;
        PlacedAt(pending, bufferStart, i);
      }
    }

    lemma StoredOrder()
      requires storage.Valid()
      ensures forall r :: r in storage.Flat() ==> r.lsn <= storage.lastRecord
    {
    }

    /** The whole log: what the storage holds, then the buffer. */
    method ScanAll() returns (res: Result<Found>)
      requires Valid()
      ensures res == Ok(Found(Flat(), tornTail, nextLsn))
    {
      hide Placed, EncodeAll, Storage.Valid, Encode;
      storage.NotEmpty();
      FromOldest();
      res := storage.ScanFrom(storage.Oldest());
      Empty();
      if res.value.torn || buffer == [] {
        return;
      }
      var records := res.value.records;
      var offset := 0;
      ghost var i := 0;
      while offset < |buffer|
        invariant i <= |pending| && offset == Total(pending[..i]) && offset <= |buffer|
        invariant records == storage.Flat() + pending[..i]
      {
        HeadOf(buffer, pending, bufferStart, i);
        var total := Size(buffer[offset].record);
        var decoded := Decode(buffer[offset..offset + total], bufferStart + offset);
        assert pending[..i + 1] == pending[..i] + [pending[i]];
        TotalConcat(pending[..i], [pending[i]]);
        One(pending[i]);
        Assoc(storage.Flat(), pending[..i], [pending[i]]);
        records := records + [decoded.value];
        i, offset := i + 1, offset + total;
      }
      AllOf(pending, i);
      assert pending[..i] == pending;
      res := Ok(Found(records, false, nextLsn));
    }

    lemma FromOldest()
      requires storage.Valid()
      ensures storage.segments != [] && storage.Oldest() <= storage.logicalEnd
      ensures From(storage.Flat(), storage.Oldest()) == storage.Flat()
      ensures Boundary(storage.Flat(), storage.logicalEnd, storage.Oldest())
    {
      storage.NotEmpty();
      ChainFlat(storage.segments, storage.parts, storage.tail, storage.capacity);
      FromAll(storage.Flat(), storage.Oldest(), storage.Oldest());
      if storage.Flat() != [] {
        assert storage.Flat()[0] in storage.Flat();
      }
    }

    /** Strictly inside the newest record. */
    ghost predicate InsideLast(start: Lsn)
      reads this
    {
      lastAppended < start < nextLsn
    }

    /** Reads the log from a position on. With a buffered record pending, a position inside the newest record
        is not recognised as being off the record boundaries: it yields no records instead of an error. */
    method ScanFrom(start: Lsn) returns (res: Result<Found>)
      requires Valid()
      ensures res.Ok? <==>
                && storage.segments != [] && storage.Oldest() <= start <= nextLsn
                && (Boundary(Flat(), nextLsn, start) || (pending != [] && InsideLast(start)))
      ensures res.Ok? ==> res.value == Found(From(Flat(), start), tornTail, nextLsn)
    {
      hide Placed, EncodeAll, Storage.Valid, Encode;
      Empty();
      storage.NotEmpty();
      if buffer == [] {
        res := storage.ScanFrom(start);
        return;
      }
      var all := ScanAll();
      OldestBound();
      if start < LOG_START || start > nextLsn {
        return Err(InvalidArgument);
      }
      var records, here := Select(all.value.records, start);
      SuffixOrNone(start, records);
      if records != [] && records[0].lsn != start && start != nextLsn {
        return Err(CorruptRecord);
      }
      res := Ok(Found(records, all.value.torn, nextLsn));
    }

    lemma OldestBound()
      requires Valid()
      ensures storage.segments != [] && LOG_START <= storage.Oldest()
    {
      ChainAt(storage.segments, storage.parts, storage.tail, storage.capacity, 0);
    }

    /** The records from a position on begin there, begin later, or there are none. */
    lemma SuffixOrNone(start: Lsn, records: seq<Record>)
      requires Valid() && pending != [] && records == From(Flat(), start) && LOG_START <= start <= nextLsn
      ensures storage.segments != []
      ensures records == [] ==> start == nextLsn || InsideLast(start)
      ensures records != [] ==>
                && (records[0].lsn == start <==> Boundary(Flat(), nextLsn, start)) && start != nextLsn
                && !InsideLast(start)
      ensures records != [] && records[0].lsn == start ==> storage.Oldest() <= start
      ensures records == [] ==> storage.Oldest() <= start
    {
      hide ChainOk;
      Contiguous();
      Positions();
      var log, oldest := Flat(), storage.Oldest();
      FirstFrom(log, oldest, start);
      assert Last(log) == Last(pending);
      PlacedAt(log, oldest, |log| - 1);
    }

    /** The record at a position, wherever it is kept. */
    method ReadRecordAt(lsn: Lsn) returns (res: Option<Record>)
      requires Valid()
      ensures forall r :: res == Some(r) <==> r in Flat() && r.lsn == lsn
    {
      hide Placed, EncodeAll, Storage.Valid, Encode;
      Empty();
      if buffer != [] && lsn >= bufferStart {
        NotStored(lsn);
        var offset := lsn - bufferStart;
        if offset >= |buffer| || |buffer| - offset < RECORD_HEADER {
          NotBuffered(lsn);
          return None;
        }
        var total := Size(buffer[offset].record);
        if total > |buffer| - offset {
          NotBuffered(lsn);
          return None;
        }
        res := Decode(buffer[offset..offset + total], lsn);
        BufferReads(buffer, pending, bufferStart, lsn, total, res);
        return;
      }
      NotYet(lsn);
      res := storage.ReadRecordAt(lsn);
    }

    lemma NotStored(lsn: Lsn)
      requires Valid() && lsn >= bufferStart
      ensures forall r :: r in storage.Flat() ==> r.lsn != lsn
    {
    }

    lemma NotYet(lsn: Lsn)
      requires Valid() && (pending == [] || lsn < bufferStart)
      ensures forall r :: r in pending ==> r.lsn != lsn
    {
      hide Storage.Valid;
      forall r | r in pending ensures r.lsn != lsn {
        var i :| 0 <= i < |pending| && pending[i] == r;
        PlacedAt(pending, bufferStart, i);
      }
    }

    lemma NotBuffered(lsn: Lsn)
      requires Valid() && lsn >= bufferStart
      requires var k := lsn - bufferStart;
               k + RECORD_HEADER > |buffer| || k + Size(buffer[k].record) > |buffer|
      ensures forall r :: r in pending ==> r.lsn != lsn
    {
      hide Storage.Valid;
      forall r | r in pending ensures r.lsn != lsn {
        var i :| 0 <= i < |pending| && pending[i] == r;
        PlacedAt(pending, bufferStart, i);
        HeadOf(buffer, pending, bufferStart, i);
      }
    }

    method RotateSegment()
      requires Valid()
      modifies this, storage
      ensures storage.Valid() <==> !old(tornTail)
      ensures !old(tornTail) ==> Valid() && storage.segments != [] && storage.Oldest() == old(storage.Oldest())
      ensures Flat() == old(Flat()) && pending == old(pending) && known == old(known) && nextLsn == old(nextLsn)
    {
      hide ChainOk;
      storage.NotEmpty();
      ghost var first := storage.segments[0];
      storage.Rotate();
      assert storage.segments[0] == first;
    }

    /** Gives segments below a floor back. Everything at or above the floor stays readable, but only with an
        empty buffer are all records still known: buffered ones are forgotten. */
    method ReclaimSegmentsBefore(floor: Lsn, extra: nat) returns (reclaimed: nat)
      requires Valid()
      modifies this, storage
      ensures Valid()
      ensures forall r :: r in old(Flat()) && floor <= r.lsn ==> r in Flat()
      ensures |Flat()| <= |old(Flat())| && Flat() == old(Flat())[|old(Flat())| - |Flat()|..]
      ensures storage.segments != [] && (storage.Oldest() == old(storage.Oldest()) || storage.Oldest() <= floor)
      ensures Remembers() <==> old(buffer) == []
      ensures nextLsn == old(nextLsn) && pending == old(pending) && durableLsn == old(durableLsn)
    {
      hide BufferOk, Storage.Valid, Storage.Flat, KnownIn, Reserve, Flatten, Last;
      storage.NotEmpty();
      Empty();
      ghost var before := storage.Flat();
      reclaimed := storage.ReclaimBefore(floor, extra);
      storage.NotEmpty();
      ghost var after := storage.Flat();
      SuffixConcat(before, after, pending);
      KeptConcat(before, after, pending, floor);
      RememberStored();
      StoredKnown();
      Forgotten();
    }

    lemma StoredKnown()
      requires known == set r | r in storage.Flat() :: r.lsn
      ensures KnownIn(known, Flat())
    {
      assert forall r :: r in storage.Flat() ==> r in Flat();
    }

    /** Rebuilds the known positions from the storage. */
    method RememberStored()
      requires storage.Valid()
      modifies this`known
      ensures known == set r | r in storage.Flat() :: r.lsn
    {
      hide ChainOk, Storage.DurableOk, From;
      storage.NotEmpty();
      FromOldest();
      var scanned := storage.ScanFrom(storage.Oldest());
      known := set r | r in scanned.value.records :: r.lsn;
    }

    /** The storage's records do not reach into the buffer. */
    lemma Forgotten()
      requires Valid() && known == set r | r in storage.Flat() :: r.lsn
      ensures Remembers() <==> pending == []
    {
      hide ChainOk;
      if pending != [] {
        var r := pending[0];
        assert r in pending;
        NotStored(r.lsn);
      }
    }

    /** After a checkpoint: closes the active segment and gives back what no restart will read. Everything at
        or above the checkpoint BEGIN, a dirty page's first update or an active transaction's BEGIN stays. */
    method ReclaimAfterCheckpoint(begin: Lsn, recLsns: seq<Lsn>, begins: seq<Lsn>) returns (reclaimed: nat)
      requires Valid() && !tornTail
      modifies this, storage
      ensures Valid() && storage.segments != []
      ensures forall r :: r in old(Flat()) && begin <= r.lsn ==> r in Flat()
      ensures forall r, l :: r in old(Flat()) && (l in recLsns || l in begins) && l <= r.lsn ==> r in Flat()
      ensures forall l :: (l == begin || l in recLsns || l in begins) && old(storage.Oldest()) <= l ==>
                storage.Oldest() <= l
      ensures |Flat()| <= |old(Flat())| && Flat() == old(Flat())[|old(Flat())| - |Flat()|..]
      ensures Remembers() <==> old(buffer) == []
    {
      hide Storage.Valid, Placed, EncodeAll;
      storage.NotEmpty();
      var floor := RetentionFloor(begin, recLsns, begins);
      RotateSegment();
      Empty();
      reclaimed := ReclaimSegmentsBefore(floor, 1);
      storage.NotEmpty();
    }

    /** Cuts the broken record a crash left at the end of the log. */
    method TruncateToLastValidRecord()
      requires Valid()
      modifies this, storage
      ensures Valid() && !tornTail && Flat() == old(Flat()) && nextLsn == old(nextLsn) && known == old(known)
    {
      hide ChainOk;
      if !tornTail {
        return;
      }
      Empty();
      storage.TruncateActiveTail();
      tornTail := false;
      bufferStart := nextLsn;
    }

    lemma Empty()
      requires Valid()
      ensures (buffer == [] <==> pending == []) && |buffer| == Total(pending) && nextLsn == bufferStart + |buffer|
      ensures pending == [] ==> Flat() == storage.Flat()
    {
      hide BufferOk, Storage.Valid;
      BufferFacts(buffer, pending, bufferCapacity, bufferStart, nextLsn);
      Empty0();
    }

    lemma Empty0()
      ensures pending == [] ==> Flat() == storage.Flat()
    {
      assert storage.Flat() + [] == storage.Flat();
    }
  }

  /** Appends the records of a buffer to the storage, found by the lengths in their headers. */
  method Drain(storage: Storage, buffer: seq<Cell>, start: Lsn, ghost pending: seq<Record>) returns (ok: bool)
    requires storage.Valid() && !storage.tornTail && storage.logicalEnd == start
    requires buffer == EncodeAll(pending) && Placed(pending, start) && pending != []
    requires forall r :: r in pending ==> Size(r) <= MAX_RECORD
    modifies storage
    ensures storage.Valid() && storage.segments != [] && storage.Oldest() == old(storage.Oldest())
    ensures old(storage.durable) <= storage.durable
    ensures ok <==> forall r :: r in pending ==> Size(r) <= storage.capacity
    ensures ok ==> && storage.Flat() == old(storage.Flat()) + pending && storage.logicalEnd == start + |buffer|
                   && storage.lastRecord == Last(pending).lsn && !storage.tornTail
    ensures !ok ==> old(storage.Flat()) <= storage.Flat() <= old(storage.Flat()) + pending
  {
    hide Placed, EncodeAll, Storage.Valid, Storage.Flat, Flatten, Encode;
    storage.NotEmpty();
    var offset := 0;
    ghost var i := 0;
    ghost var stored := storage.Flat();
    assert stored + pending[..0] == stored;
    ghost var oldest, durable := storage.Oldest(), storage.durable;
    while offset < |buffer|
      invariant i <= |pending| && offset == Total(pending[..i]) && offset <= |buffer|
      invariant storage.Valid() && storage.Flat() == stored + pending[..i] && storage.logicalEnd == start + offset
      invariant !storage.tornTail && storage.segments != [] && storage.Oldest() == oldest && durable <= storage.durable
      invariant i > 0 ==> storage.lastRecord == pending[i - 1].lsn
      invariant forall k :: 0 <= k < i ==> Size(pending[k]) <= storage.capacity
    {
      HeadOf(buffer, pending, start, i);
      var r := buffer[offset].record;
      var res := storage.AppendRecord(r);
      storage.NotEmpty();
      if res.Err? {
        assert r in pending;
        Between(stored, pending, i);
        return false;
      }
      assert pending[..i + 1] == pending[..i] + [r];
      TotalConcat(pending[..i], [r]);
      One(r);
      Assoc(stored, pending[..i], [r]);
      i, offset := i + 1, offset + Size(r);
    }
    AllOf(pending, i);
    assert pending[..i] == pending;
    ok := true;
  }

  lemma Between(stored: seq<Record>, pending: seq<Record>, i: nat)
    requires i <= |pending|
    ensures stored <= stored + pending[..i] <= stored + pending
  {
  }

  /** The cell at a buffered record's offset begins that record. */
  lemma HeadOf(buffer: seq<Cell>, pending: seq<Record>, start: Lsn, i: nat)
    requires buffer == EncodeAll(pending) && Placed(pending, start) && i <= |pending|
    requires Total(pending[..i]) < |buffer|
    ensures i < |pending| && buffer[Total(pending[..i])] == Cell(pending[i], 0) && pending[i] in pending
    ensures pending[i].lsn == start + Total(pending[..i]) && Total(pending[..i]) + Size(pending[i]) <= |buffer|
    ensures buffer[Total(pending[..i])..Total(pending[..i]) + Size(pending[i])] == Encode(pending[i])
  {
    assert pending[..|pending|] == pending;
    PlacedAt(pending, start, i);
    CellsFrom(pending, start, i);
    var k := Total(pending[..i]);
    Whole(buffer[k..k + Size(pending[i])], pending[i]);
  }

  lemma AllOf(pending: seq<Record>, i: nat)
    requires i <= |pending| && Total(pending[..i]) >= Total(pending)
    ensures i == |pending|
  {
    assert pending == pending[..i] + pending[i..];
    TotalConcat(pending[..i], pending[i..]);
  }

  /** The least of the checkpoint BEGIN, the dirty pages' first updates and the active transactions' BEGINs. */
  method RetentionFloor(begin: Lsn, recLsns: seq<Lsn>, begins: seq<Lsn>) returns (floor: Lsn)
    ensures floor <= begin && (forall l :: l in recLsns || l in begins ==> floor <= l)
    ensures floor == begin || floor in recLsns || floor in begins
  {
    floor := begin;
    for i := 0 to |recLsns|
      invariant floor <= begin && (forall k :: 0 <= k < i ==> floor <= recLsns[k])
      invariant floor == begin || floor in recLsns
    {
      if recLsns[i] < floor {
        floor := recLsns[i];
      }
    }
    for i := 0 to |begins|
      invariant floor <= begin && (forall l :: l in recLsns ==> floor <= l)
      invariant (forall k :: 0 <= k < i ==> floor <= begins[k])
      invariant floor == begin || floor in recLsns || floor in begins
    {
      if begins[i] < floor {
        floor := begins[i];
      }
    }
  }

  /** The buffer holds whole records, placed from where the storage ends. */
  ghost predicate BufferOk(buffer: seq<Cell>, pending: seq<Record>, capacity: nat, start: Lsn, next: Lsn) {
    && buffer == EncodeAll(pending) && |buffer| <= capacity && (forall r :: r in pending ==> Size(r) <= MAX_RECORD)
    && Placed(pending, start) && next == start + |buffer|
  }

  lemma BufferFacts(buffer: seq<Cell>, pending: seq<Record>, capacity: nat, start: Lsn, next: Lsn)
    requires BufferOk(buffer, pending, capacity, start, next)
    ensures (buffer == [] <==> pending == []) && |buffer| == Total(pending) && next == start + |buffer|
  {
  }

  lemma BufferNone(capacity: nat, start: Lsn)
    ensures BufferOk([], [], capacity, start, start)
  {
  }

  lemma BufferAdds(buffer: seq<Cell>, pending: seq<Record>, capacity: nat, start: Lsn, next: Lsn, r: Record)
    requires BufferOk(buffer, pending, capacity, start, next) && r.lsn == next && Size(r) <= MAX_RECORD
    requires |buffer| + Size(r) <= capacity
    ensures BufferOk(buffer + Encode(r), pending + [r], capacity, start, next + Size(r))
  {
    hide Encode;
    EncodeConcat(pending, [r]);
    PlacedConcat(pending, [r], start);
    One(r);
  }

  /** Every known position is one of a record. */
  ghost predicate KnownIn(known: set<Lsn>, log: seq<Record>) {
    forall l :: l in known ==> exists r :: r in log && r.lsn == l
  }

  lemma KnownAdds(known: set<Lsn>, log: seq<Record>, r: Record)
    requires KnownIn(known, log)
    ensures KnownIn(known + {r.lsn}, log + [r])
  {
    assert (log + [r])[|log|] == r;
    assert forall x :: x in log ==> x in log + [r];
  }

  /** What is decoded at a position of the buffer is the record appended there. */
  lemma BufferReads(buffer: seq<Cell>, pending: seq<Record>, start: Lsn, lsn: Lsn, total: nat, res: Option<Record>)
    requires buffer == EncodeAll(pending) && Placed(pending, start) && start <= lsn
    requires var k := lsn - start;
             && k < |buffer| && total == Size(buffer[k].record) && k + total <= |buffer|
             && res == Decode(buffer[k..k + total], lsn)
    ensures forall r :: res == Some(r) <==> r in pending && r.lsn == lsn
  {
    forall r ensures res == Some(r) <==> r in pending && r.lsn == lsn {
      hide Encode;
      if r in pending && r.lsn == lsn {
        var i :| 0 <= i < |pending| && pending[i] == r;
        PlacedAt(pending, start, i);
        HeadOf(buffer, pending, start, i);
      }
      if res == Some(r) {
        ReadBack(pending, start, lsn, r);
      }
    }
  }

  lemma KeptConcat(whole: seq<Record>, some: seq<Record>, tail: seq<Record>, floor: Lsn)
    requires forall r :: r in whole && floor <= r.lsn ==> r in some
    ensures forall r :: r in whole + tail && floor <= r.lsn ==> r in some + tail
  {
  }

  lemma SuffixConcat(a: seq<Record>, b: seq<Record>, c: seq<Record>)
    requires |b| <= |a| && b == a[|a| - |b|..]
    ensures |b + c| <= |a + c| && b + c == (a + c)[|a + c| - |b + c|..]
  {
  }

  /** The first record at or after a position, if there is one. */
  lemma {:induction false} FirstFrom(log: seq<Record>, oldest: Lsn, start: Lsn)
    requires Placed(log, oldest)
    ensures From(log, start) == [] ==> forall r :: r in log ==> r.lsn < start
    ensures From(log, start) != [] ==> From(log, start)[0] in log && start <= From(log, start)[0].lsn
    ensures From(log, start) != [] ==> forall r :: r in log && start <= r.lsn ==> From(log, start)[0].lsn <= r.lsn
  {
    if log != [] {
      var rest := log[1..];
      FirstFrom(rest, oldest + Size(log[0]), start);
      if log[0].lsn >= start {
        forall r | r in log ensures log[0].lsn <= r.lsn {
          var i :| 0 <= i < |log| && log[i] == r;
          PlacedAt(log, oldest, i);
        }
      }
      assert forall r :: r in rest ==> r in log;
      assert forall r :: r in log ==> r == log[0] || r in rest;
    }
  }
}
