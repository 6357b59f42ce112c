/** Stores on which the log manager does what the names of its operations do not suggest. */
module LogSurprises {
  import opened LogCells
  import opened SegmentChain
  import opened SegmentedWal
  import opened LogManager

  /** A new manager with one record in its buffer. */
  method OneBuffered(capacity: nat, bufferCapacity: nat, payload: seq<bv8>) returns (log: Manager, r: Record)
    requires capacity >= MIN_CAPACITY && RECORD_HEADER + |payload| <= bufferCapacity <= MAX_RECORD
    ensures fresh(log) && fresh(log.storage) && log.Valid()
    ensures log.storage.capacity == capacity && log.storage.Flat() == []
    ensures r.payload == payload && r.lsn == LOG_START && log.pending == [r] && log.Flat() == [r] && log.buffer != []
    ensures log.nextLsn == r.lsn + Size(r) && log.lastAppended == r.lsn
    ensures log.storage.segments != [] && log.storage.Oldest() == LOG_START
  {
    hide ChainOk, BufferOk, Storage.DurableOk, Flatten;
    var storage := new Storage(capacity);
    storage.NotEmpty();
    log := new Manager(storage, bufferCapacity);
    r := Record(LOG_START, 1, 1, INVALID_LSN, payload);
    var res := log.Append(1, 1, INVALID_LSN, payload);
  }

  /** Reclaiming segments makes the manager forget a record that waits in the buffer: it is in the log, and it can
      no longer be named in a flush. */
  method ReclaimForgets() returns (log: Manager, r: Record, known: bool, flushed: SegmentedWal.Result<()>)
    ensures fresh(log) && r in log.pending && !known && flushed.Err?
  {
    hide ChainOk, BufferOk, Storage.DurableOk, Storage.Flat, KnownIn;
    log, r := OneBuffered(MIN_CAPACITY, MIN_CAPACITY, []);
    var reclaimed := log.ReclaimSegmentsBefore(LOG_START, 0);
    Forgotten(log, r);
    known := log.ContainsLsn(r.lsn);
    flushed := log.FlushUpTo(r.lsn);
  }

  lemma Forgotten(log: Manager, r: Record)
    requires log.pending == [r] && !log.Remembers() && |log.Flat()| <= 1
    ensures r.lsn !in log.known && log.storage.Flat() == []
  {
    hide Flatten;
  }

  /** A scan that starts inside the newest buffered record is answered, with nothing. */
  method ScanInside() returns (log: Manager, start: Lsn, res: SegmentedWal.Result<Found>)
    ensures fresh(log) && log.Valid() && !Boundary(log.Flat(), log.nextLsn, start)
    ensures res.Ok? && res.value.records == []
  {
    hide ChainOk, BufferOk, Storage.DurableOk, Flatten;
    var r;
    log, r := OneBuffered(MIN_CAPACITY, MIN_CAPACITY, []);
    start := r.lsn + 1;
    res := log.ScanFrom(start);
  }

  /** A record that fits the buffer and no segment is accepted, and then nothing can be forced any more. */
  method AcceptedForever() returns (log: Manager, r: Record, forced: bool)
    ensures fresh(log) && r in log.pending && !forced
  {
    hide ChainOk, BufferOk, Storage.DurableOk, Flatten;
    log, r := OneBuffered(MIN_CAPACITY, 2 * MIN_CAPACITY, seq(MIN_CAPACITY, _ => 0));
    assert r in log.pending;
    forced := log.Force();
  }
}
