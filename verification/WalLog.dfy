/** The write-ahead log as a sequence of records, and what a log means: the transaction table
    it describes and, for every page, the committed image and the images its current owner wrote.
    An LSN is a position in the log. */
module WalLog {
  import opened Options
  import opened PageDelta

  type PageId = nat
  type TxnId = nat
  type Lsn = int

  const INVALID_LSN: Lsn := -1

  /** The change carried by a page-update record, full images or byte ranges. */
  datatype Change = FullImage(before: Body, after: Body) | ByteRanges(ranges: seq<Range>)

  predicate Readable(change: Change) {
    change.ByteRanges? ==> Acceptable(true, change.ranges)
  }

  /** The image REDO builds from a page. */
  function Redone(change: Change, page: Body): (r: Body) {
    match change
    case FullImage(_, after) => after
    case ByteRanges(ranges) => if WellFormed(ranges) then ApplyAfter(page, ranges) else page
  }

  /** The image UNDO builds from a page. */
  function Undone(change: Change, page: Body): (r: Body) {
    match change
    case FullImage(before, _) => before
    case ByteRanges(ranges) => if WellFormed(ranges) then ApplyBefore(page, ranges) else page
  }

  /** An entry of the active transaction table of a fuzzy checkpoint. */
  datatype Attached = Attached(begin: Lsn, last: Lsn)

  datatype Record =
    | Begin(tid: TxnId)
    | Update(tid: TxnId, prev: Lsn, page: PageId, change: Change)
    | Clr(tid: TxnId, prev: Lsn, page: PageId, undoNext: Lsn, target: Lsn, image: Body)
    | Commit(tid: TxnId, prev: Lsn)
    | Abort(tid: TxnId, prev: Lsn)
    | CheckpointBegin
    | CheckpointEnd(begin: Lsn, dpt: map<PageId, Lsn>, att: map<TxnId, Attached>, nextTid: TxnId)

  type Log = seq<Record>

  predicate OfTxn(r: Record, t: TxnId) {
    !r.CheckpointBegin? && !r.CheckpointEnd? && r.tid == t
  }

  predicate OnPage(r: Record, p: PageId) {
    (r.Update? || r.Clr?) && r.page == p
  }

  // ---- The transaction table ----

  datatype Status = Active | Aborting | Committed | Aborted

  datatype Txn = Txn(status: Status, begin: Lsn, last: Lsn, undoNext: Lsn)

  predicate Unfinished(e: Txn) {
    e.status.Active? || e.status.Aborting?
  }

  predicate Live(txns: map<TxnId, Txn>, t: TxnId) {
    t in txns && Unfinished(txns[t])
  }

  /** How one record changes the entry of its own transaction. */
  function TxnStep(txns: map<TxnId, Txn>, r: Record, lsn: Lsn): (res: map<TxnId, Txn>) {
    match r
    case Begin(t) => txns[t := Txn(Active, lsn, lsn, lsn)]
    case Update(t, _, _, _) =>
      if t in txns then txns[t := txns[t].(last := lsn, undoNext := lsn)] else txns
    case Clr(t, _, _, undoNext, _, _) =>
      if t in txns then txns[t := txns[t].(status := Aborting, last := lsn, undoNext := undoNext)] else txns
    case Commit(t, _) =>
      if t in txns then txns[t := txns[t].(status := Committed, last := lsn, undoNext := INVALID_LSN)] else txns
    case Abort(t, _) =>
      if t in txns then txns[t := txns[t].(status := Aborted, last := lsn, undoNext := INVALID_LSN)] else txns
    case CheckpointBegin => txns
    case CheckpointEnd(_, _, _, _) => txns
  }

  /** The transaction table of the first n records. */
  function TxnsAt(log: Log, n: nat): (r: map<TxnId, Txn>)
    requires n <= |log|
  {
    if n == 0 then map[] else TxnStep(TxnsAt(log, n - 1), log[n - 1], n - 1)
  }

  // ---- The history of one page ----

  /** committed: the image every finished transaction left behind.
      owner: the unfinished transaction that wrote the page, if any.
      images: the images it wrote and has not compensated, oldest first.
      last: the LSN of the newest record on the page. */
  datatype PageHist = PageHist(committed: Body, owner: Option<TxnId>, images: seq<Body>, last: Lsn)

  function Latest(h: PageHist): (r: Body) {
    if h.images == [] then h.committed else h.images[|h.images| - 1]
  }

  function HistStep(h: PageHist, p: PageId, r: Record, lsn: Lsn): (res: PageHist) {
    match r
    case Update(t, _, q, change) =>
      if q == p then PageHist(h.committed, Some(t), h.images + [Redone(change, h.committed)], lsn) else h
    case Clr(t, _, q, _, _, _) =>
      if q == p then PageHist(h.committed, h.owner, [], lsn) else h
    case Commit(t, _) =>
      if h.owner == Some(t) then PageHist(Latest(h), None, [], h.last) else h
    case Abort(t, _) =>
      if h.owner == Some(t) then PageHist(h.committed, None, [], h.last) else h
    case Begin(_) => h
    case CheckpointBegin => h
    case CheckpointEnd(_, _, _, _) => h
  }

  type Database = map<PageId, Body>

  /** The history of page p after the first n records of a log that started from init. */
  function HistAt(init: Database, log: Log, n: nat, p: PageId): (r: PageHist)
    requires n <= |log| && p in init
  {
    if n == 0 then PageHist(init[p], None, [], INVALID_LSN)
    else HistStep(HistAt(init, log, n - 1, p), p, log[n - 1], n - 1)
  }

  /** The database a log stands for: what finished transactions left on every page. */
  function CommittedDb(init: Database, log: Log): (r: Database) {
    map p | p in init :: HistAt(init, log, |log|, p).committed
  }

  // ---- Well-formed logs ----

  /** A change is sound on a page history when it leads from the committed image, and from every
      image its owner wrote, to one new image, and back from any of them to the committed image. */
  ghost predicate ChangeOk(change: Change, h: PageHist) {
    && Readable(change)
    && Undone(change, Redone(change, h.committed)) == h.committed
    && forall x: Body :: x == h.committed || x in h.images ==>
         Redone(change, x) == Redone(change, h.committed) && Undone(change, x) == h.committed
  }

  ghost predicate UpdateOk(init: Database, log: Log, n: nat)
    requires n < |log| && log[n].Update?
  {
    var r := log[n];
    var txns := TxnsAt(log, n);
    && r.page in init
    && r.tid in txns && txns[r.tid].status.Active? && r.prev == txns[r.tid].last
    && var h := HistAt(init, log, n, r.page);
       (h.owner == None || h.owner == Some(r.tid)) && ChangeOk(r.change, h)
  }

  ghost predicate ClrOk(init: Database, log: Log, n: nat)
    requires n < |log| && log[n].Clr?
  {
    var r := log[n];
    var txns := TxnsAt(log, n);
    && r.page in init
    && Live(txns, r.tid) && r.prev == txns[r.tid].last
    && r.target == txns[r.tid].undoNext && 0 <= r.target < n
    && log[r.target].Update? && log[r.target].tid == r.tid
    && log[r.target].page == r.page && log[r.target].prev == r.undoNext
    && var h := HistAt(init, log, n, r.page);
       h.owner == Some(r.tid) && r.image == h.committed
  }

  ghost predicate CheckpointOk(init: Database, log: Log, n: nat)
    requires n < |log| && log[n].CheckpointEnd?
  {
    var r := log[n];
    var txns := TxnsAt(log, n);
    && 0 < n && r.begin == n - 1 && log[n - 1].CheckpointBegin?
    && (forall t :: t in r.att <==> Live(txns, t))
    && (forall t :: t in r.att ==> txns[t].status.Active? && r.att[t] == Attached(txns[t].begin, txns[t].last))
    && (forall p :: p in r.dpt ==> p in init && 0 <= r.dpt[p] < r.begin)
    && (forall t :: t in txns ==> t < r.nextTid)
  }

  ghost predicate RecordOk(init: Database, log: Log, n: nat)
    requires n < |log|
  {
    var txns := TxnsAt(log, n);
    match log[n]
    case Begin(t) => t !in txns
    case Update(_, _, _, _) => UpdateOk(init, log, n)
    case Clr(_, _, _, _, _, _) => ClrOk(init, log, n)
    case Commit(t, prev) => t in txns && txns[t].status.Active? && prev == txns[t].last
    case Abort(t, prev) => Live(txns, t) && prev == txns[t].last && txns[t].undoNext == txns[t].begin
    case CheckpointBegin => true
    case CheckpointEnd(_, _, _, _) => CheckpointOk(init, log, n)
  }

  ghost predicate LogOk(init: Database, log: Log) {
    forall n: nat :: n < |log| ==> RecordOk(init, log, n)
  }

  // ---- A prefix of a log decides its own meaning ----

  lemma {:induction false} TxnsPrefix(log: Log, other: Log, n: nat)
    requires n <= |log| && n <= |other| && log[..n] == other[..n]
    ensures TxnsAt(log, n) == TxnsAt(other, n)
  {
    if n > 0 {
      assert log[..n - 1] == log[..n][..n - 1] == other[..n - 1];
      assert log[n - 1] == log[..n][n - 1] == other[n - 1];
      TxnsPrefix(log, other, n - 1);
    }
  }

  lemma {:induction false} HistPrefix(init: Database, log: Log, other: Log, n: nat, p: PageId)
    requires n <= |log| && n <= |other| && log[..n] == other[..n] && p in init
    ensures HistAt(init, log, n, p) == HistAt(init, other, n, p)
  {
    if n > 0 {
      assert log[..n - 1] == log[..n][..n - 1] == other[..n - 1];
      assert log[n - 1] == log[..n][n - 1] == other[n - 1];
      HistPrefix(init, log, other, n - 1, p);
    }
  }

  lemma RecordPrefix(init: Database, log: Log, other: Log, n: nat)
    requires n < |log| && n < |other| && log[..n + 1] == other[..n + 1]
    requires RecordOk(init, log, n)
    ensures RecordOk(init, other, n)
  {
    assert log[..n] == log[..n + 1][..n] == other[..n];
    assert log[n] == log[..n + 1][n] == other[n];
    TxnsPrefix(log, other, n);
    var r := log[n];
    match r
    case Update(_, _, p, _) => HistPrefix(init, log, other, n, p);
    case Clr(_, _, p, _, target, _) =>
      HistPrefix(init, log, other, n, p);
      assert log[target] == log[..n][target] == other[target];
    case CheckpointEnd(_, _, _, _) =>
      assert log[n - 1] == log[..n][n - 1] == other[n - 1];
    case _ =>
  }

  /** A cut log is a log. */
  lemma CutOk(init: Database, log: Log, k: nat)
    requires LogOk(init, log) && k <= |log|
    ensures LogOk(init, log[..k])
  {
    var cut := log[..k];
    forall n: nat | n < |cut| ensures RecordOk(init, cut, n) {
      assert log[..n + 1] == cut[..n + 1];
      RecordPrefix(init, log, cut, n);
    }
  }

  /** One more sound record keeps the log sound, and leaves the meaning of the old part alone. */
  lemma AppendOk(init: Database, log: Log, r: Record)
    requires LogOk(init, log)
    requires RecordOk(init, log + [r], |log|)
    ensures LogOk(init, log + [r])
  {
    var longer := log + [r];
    forall n: nat | n < |longer| ensures RecordOk(init, longer, n) {
      if n < |log| {
        assert log[..n + 1] == longer[..n + 1];
        RecordPrefix(init, log, longer, n);
      }
    }
  }
}
