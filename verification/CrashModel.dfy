/** The engine as a step system: buffer frames, live transactions, the log with its durable prefix,
    the pages on disk and what a crash may leave of them. Every durable effect is a step of its own,
    and a crash may come between any two steps, recovery's own steps included. */
module CrashModel {
  import opened Options
  import opened PageDelta
  import opened WalLog

  datatype Page = Page(body: Body, lsn: Lsn)

  /** A resident page. pending: changed since its last preparation. recLsn: the first record
      whose effect the disk may lack; pageLsn: the newest. */
  datatype Frame = Frame(page: Page, dirty: bool, pending: bool, pageLsn: Lsn, recLsn: Lsn)

  /** What a transaction keeps of a page it asked to write. */
  datatype PageState = PageState(before: Body, latest: Option<Body>, touched: seq<bool>, latestLsn: Lsn)

  datatype Context = Context(begin: Lsn, last: Lsn, pages: map<PageId, PageState>)

  /** clr: the compensation appended and not yet written to its page. */
  datatype Mode =
    | Running
    | RollingBack(tid: TxnId, clr: Lsn)
    | Down
    | Redoing(next: nat)
    | Undoing(clr: Lsn)

  /** durable: how many log records are forced. images: for every page, the images that a crash may
      leave on disk, the current one among them. slot: the published checkpoint. base: the oldest
      retained log position. */
  datatype State = State(
    log: Log,
    durable: nat,
    disk: map<PageId, Page>,
    images: map<PageId, set<Page>>,
    frames: map<PageId, Frame>,
    contexts: map<TxnId, Context>,
    nextTid: TxnId,
    slot: Lsn,
    base: nat,
    mode: Mode)

  datatype Action =
    | BeginTxn
    | Fetch(page: PageId)
    | Write(tid: TxnId, page: PageId, body: Body, keepsLsn: bool)
    | Prepare(tid: TxnId, page: PageId, change: Change)
    | WriteBack(page: PageId)
    | Drop(page: PageId)
    | CommitTxn(tid: TxnId)
    | StartRollback(tid: TxnId)
    | AppendClr(tid: TxnId)
    | PutClr
    | FinishAbort(tid: TxnId)
    | Force
    | Sync
    | BeginCheckpoint
    | EndCheckpoint(publish: bool)
    | Reclaim(to: nat)
    | Crash(keep: nat, survivors: map<PageId, Page>)
    | StartRecovery(from: nat)
    | RedoNext
    | FinishRedo
    | FinishRecovery

  // ---- Helpers of the steps ----

  function Max(a: int, b: int): (r: int) {
    if a < b then b else a
  }

  /** The last image the transaction knows of the page: what preparation compares with. */
  function Known(ps: PageState): (r: Body) {
    if ps.latest.Some? then ps.latest.value else ps.before
  }

  /** A change record may carry full images, or the byte ranges of the accumulated mask. */
  predicate Encoding(change: Change, before: Body, after: Body, touched: seq<bool>)
    requires |touched| == PAGE_SIZE
  {
    match change
    case FullImage(b, a) => b == before && a == after
    case ByteRanges(ranges) => Acceptable(true, ranges) && Encodes(ranges, before, after, touched)
  }

  /** Every page a transaction wrote is either evicted or prepared. */
  predicate Prepared(s: State, t: TxnId)
    requires t in s.contexts
  {
    forall p :: p in s.contexts[t].pages && p in s.frames ==> !s.frames[p].pending
  }

  predicate NoPendingWrites(s: State) {
    forall p :: p in s.disk ==> p in s.images && s.images[p] == {s.disk[p]}
  }

  function NextUndo(s: State, t: TxnId): (r: Lsn)
    requires Live(TxnsAt(s.log, |s.log|), t)
  {
    TxnsAt(s.log, |s.log|)[t].undoNext
  }

  /** The page body UNDO starts from: the retained original in a live rollback, the disk at restart. */
  function UndoBase(s: State, t: TxnId, p: PageId): (r: Body)
    requires p in s.disk
  {
    if s.mode.RollingBack? && t in s.contexts && p in s.contexts[t].pages
    then s.contexts[t].pages[p].before
    else s.disk[p].body
  }

  function PutPage(s: State, p: PageId, g: Page): (r: State) {
    s.(disk := s.disk[p := g], images := s.images[p := (if p in s.images then s.images[p] else {}) + {g}])
  }

  // ---- Checkpoints and what recovery reads of the log ----

  predicate CheckpointAt(log: Log, slot: Lsn) {
    0 <= slot < |log| && log[slot].CheckpointEnd? && 0 <= log[slot].begin <= slot
  }

  /** Nothing the checkpoint needs lies below the position. */
  predicate Retains(r: Record, to: nat)
    requires r.CheckpointEnd?
  {
    && to <= r.begin
    && (forall p :: p in r.dpt ==> to <= r.dpt[p])
    && (forall t :: t in r.att ==> to <= r.att[t].begin)
  }

  /** The scan start of recovery: the least of the checkpoint BEGIN, the recovery LSNs of its dirty
      pages and the BEGINs of its live transactions; the whole log without a checkpoint. */
  predicate ScanStart(log: Log, slot: Lsn, from: nat) {
    if slot == INVALID_LSN then from == 0
    else
      && CheckpointAt(log, slot)
      && Retains(log[slot], from)
      && (|| from == log[slot].begin
          || (exists p :: p in log[slot].dpt && log[slot].dpt[p] == from)
          || (exists t :: t in log[slot].att && log[slot].att[t].begin == from))
  }

  /** First record on p, from j up to end, that belongs to a transaction live at the checkpoint. */
  function FirstAttached(log: Log, att: map<TxnId, Attached>, p: PageId, j: nat, end: nat): (r: nat)
    requires j <= end <= |log|
    decreases end - j
  {
    if j == end then end
    else if OnPage(log[j], p) && log[j].tid in att then j
    else FirstAttached(log, att, p, j + 1, end)
  }

  /** The position below which REDO leaves page p alone. */
  function Bound(log: Log, slot: Lsn, p: PageId): (r: int) {
    if !CheckpointAt(log, slot) then 0
    else if p in log[slot].dpt then log[slot].dpt[p]
    else FirstAttached(log, log[slot].att, p, 0, log[slot].begin)
  }

  /** Records REDO considers: compensations, committed updates, and whatever transactions that had
      ended before the checkpoint left in the scanned part. */
  predicate Candidate(log: Log, slot: Lsn, i: nat)
    requires i < |log|
  {
    || log[i].Clr?
    || (log[i].Update?
        && (|| (log[i].tid in TxnsAt(log, |log|) && TxnsAt(log, |log|)[log[i].tid].status.Committed?)
            || (CheckpointAt(log, slot) && i < log[slot].begin && log[i].tid !in log[slot].att)))
  }

  /** One position of the REDO pass on the disk. */
  function RedoOne(s: State, i: nat): (res: State)
    requires i < |s.log|
  {
    var r := s.log[i];
    if !Candidate(s.log, s.slot, i) || r.page !in s.disk then s
    else if i < Bound(s.log, s.slot, r.page) || i <= s.disk[r.page].lsn then s
    else
      var body := if r.Clr? then r.image else Redone(r.change, s.disk[r.page].body);
      PutPage(s, r.page, Page(body, i))
  }

  /** One more than the largest transaction id in the log from position i on. */
  function TailNext(log: Log, i: nat): (res: nat)
    requires i <= |log|
    decreases |log| - i
  {
    if i == |log| then 1
    else
      var r := log[i];
      var rest := TailNext(log, i + 1);
      if r.CheckpointBegin? || r.CheckpointEnd? then rest else Max(rest, r.tid + 1)
  }

  // ---- The steps ----

  predicate Enabled(s: State, a: Action) {
    match a
    case BeginTxn => s.mode.Running?
    case Fetch(p) => s.mode.Running? && p in s.disk && p !in s.frames
    case Write(t, p, _, _) =>
      && s.mode.Running? && t in s.contexts && p in s.frames
      && (forall u :: u in s.contexts && u != t ==> p !in s.contexts[u].pages)
    case Prepare(t, p, change) =>
      && s.mode.Running? && t in s.contexts && p in s.contexts[t].pages && p in s.frames && s.frames[p].dirty
      && |s.contexts[t].pages[p].touched| == PAGE_SIZE
      && var ps := s.contexts[t].pages[p];
         Encoding(change, ps.before, s.frames[p].page.body, Touch(ps.touched, Known(ps), s.frames[p].page.body))
    case WriteBack(p) =>
      s.mode.Running? && p in s.frames && !s.frames[p].pending && s.frames[p].pageLsn < s.durable
    case Drop(p) => s.mode.Running? && p in s.frames && !s.frames[p].dirty
    case CommitTxn(t) => s.mode.Running? && t in s.contexts && Prepared(s, t)
    case StartRollback(t) => s.mode.Running? && t in s.contexts && Prepared(s, t)
    case AppendClr(t) =>
      && (s.mode == RollingBack(t, INVALID_LSN) || s.mode == Undoing(INVALID_LSN))
      && Live(TxnsAt(s.log, |s.log|), t)
      && var u := NextUndo(s, t);
         s.base <= u < |s.log| && s.log[u].Update? && s.log[u].tid == t && s.log[u].page in s.disk
    case PutClr =>
      && (s.mode.RollingBack? || s.mode.Undoing?)
      && 0 <= s.mode.clr < s.durable && s.mode.clr < |s.log| && s.log[s.mode.clr].Clr?
    case FinishAbort(t) =>
      && (s.mode == RollingBack(t, INVALID_LSN) || s.mode == Undoing(INVALID_LSN))
      && Live(TxnsAt(s.log, |s.log|), t) && NextUndo(s, t) == TxnsAt(s.log, |s.log|)[t].begin
    case Force => !s.mode.Down?
    case Sync => !s.mode.Down?
    case BeginCheckpoint => s.mode.Running?
    case EndCheckpoint(_) =>
      && s.mode.Running? && |s.log| > 0 && s.log[|s.log| - 1].CheckpointBegin?
      && NoPendingWrites(s)
      && (forall p :: p in s.frames ==> !s.frames[p].pending)
    case Reclaim(to) =>
      s.mode.Running? && CheckpointAt(s.log, s.slot) && s.base <= to && Retains(s.log[s.slot], to)
    case Crash(keep, survivors) =>
      && s.durable <= keep <= |s.log|
      && survivors.Keys == s.images.Keys
      && (forall p :: p in survivors ==> survivors[p] in s.images[p])
    case StartRecovery(from) => s.mode.Down? && s.base <= from <= |s.log| && ScanStart(s.log, s.slot, from)
    case RedoNext => s.mode.Redoing? && s.mode.next < |s.log|
    case FinishRedo => s.mode == Redoing(|s.log|)
    case FinishRecovery =>
      && s.mode == Undoing(INVALID_LSN) && s.durable == |s.log|
      && (forall t :: t in TxnsAt(s.log, |s.log|) ==> !Unfinished(TxnsAt(s.log, |s.log|)[t]))
  }

  function Apply(s: State, a: Action): (res: State)
    requires Enabled(s, a)
  {
    match a
    case BeginTxn =>
      s.(contexts := s.contexts[s.nextTid := Context(INVALID_LSN, INVALID_LSN, map[])], nextTid := s.nextTid + 1)
    case Fetch(p) =>
      s.(frames := s.frames[p := Frame(s.disk[p], false, false, INVALID_LSN, INVALID_LSN)])
    case Write(t, p, body, keepsLsn) => WriteStep(s, t, p, body, keepsLsn)
    case Prepare(t, p, change) => PrepareStep(s, t, p, change)
    case WriteBack(p) =>
      var f := s.frames[p];
      PutPage(s, p, f.page).(frames := s.frames[p := f.(dirty := false, recLsn := INVALID_LSN)])
    case Drop(p) => s.(frames := s.frames - {p})
    case CommitTxn(t) =>
      var c := s.contexts[t];
      if c.begin == INVALID_LSN then s.(contexts := s.contexts - {t})
      else s.(log := s.log + [Commit(t, c.last)], durable := |s.log| + 1, contexts := s.contexts - {t})
    case StartRollback(t) =>
      if s.contexts[t].begin == INVALID_LSN then s.(contexts := s.contexts - {t})
      else s.(durable := |s.log|, frames := s.frames - s.contexts[t].pages.Keys, mode := RollingBack(t, INVALID_LSN))
    case AppendClr(t) =>
      var u := NextUndo(s, t);
      var p := s.log[u].page;
      var image := Undone(s.log[u].change, UndoBase(s, t, p));
      s.(log := s.log + [Clr(t, TxnsAt(s.log, |s.log|)[t].last, p, s.log[u].prev, u, image)],
         mode := s.mode.(clr := |s.log|))
    case PutClr =>
      var r := s.log[s.mode.clr];
      PutPage(s, r.page, Page(r.image, s.mode.clr)).(mode := s.mode.(clr := INVALID_LSN))
    case FinishAbort(t) =>
      var aborted := s.(log := s.log + [Abort(t, TxnsAt(s.log, |s.log|)[t].last)], durable := |s.log| + 1);
      if s.mode.RollingBack? then aborted.(contexts := s.contexts - {t}, mode := Running) else aborted
    case Force => s.(durable := |s.log|)
    case Sync => s.(images := map p | p in s.disk :: {s.disk[p]})
    case BeginCheckpoint => s.(log := s.log + [CheckpointBegin])
    case EndCheckpoint(publish) =>
      s.(log := s.log + [CheckpointRecord(s)],
         durable := |s.log| + 1,
         slot := if publish then |s.log| else s.slot)
    case Reclaim(to) => s.(base := to)
    case Crash(keep, survivors) =>
      s.(log := s.log[..keep], durable := keep, disk := survivors, frames := map[], contexts := map[], mode := Down)
    case StartRecovery(from) =>
      var known := if CheckpointAt(s.log, s.slot) then s.log[s.slot].nextTid else 1;
      s.(durable := |s.log|, nextTid := Max(known, TailNext(s.log, from)), mode := Redoing(from))
    case RedoNext => RedoOne(s, s.mode.next).(mode := Redoing(s.mode.next + 1))
    case FinishRedo => s.(mode := Undoing(INVALID_LSN))
    case FinishRecovery => s.(mode := Running)
  }

  /** notePageWriteIntent followed by the change of the resident bytes. The first intent keeps the
      original; a rewrite of the whole page clears its PageLSN slot. */
  function WriteStep(s: State, t: TxnId, p: PageId, body: Body, keepsLsn: bool): (r: State)
    requires t in s.contexts && p in s.frames
  {
    var f, c := s.frames[p], s.contexts[t];
    var pages := if p in c.pages then c.pages
                 else c.pages[p := PageState(f.page.body, None, NoOffsets(), INVALID_LSN)];
    s.(frames := s.frames[p := f.(page := Page(body, if keepsLsn then f.page.lsn else INVALID_LSN), dirty := true,
                                  pending := true)],
       contexts := s.contexts[t := c.(pages := pages)])
  }

  /** preparePageForWrite on the frame: logs the change against the original unless there is none. */
  function PrepareStep(s: State, t: TxnId, p: PageId, change: Change): (r: State)
    requires t in s.contexts && p in s.contexts[t].pages && p in s.frames
    requires |s.contexts[t].pages[p].touched| == PAGE_SIZE
  {
    var f, c := s.frames[p], s.contexts[t];
    var ps := c.pages[p];
    if f.page.body == Known(ps) then
      if ps.latestLsn != INVALID_LSN then
        s.(frames := s.frames[p := f.(page := Page(f.page.body, ps.latestLsn), pending := false,
                                      pageLsn := ps.latestLsn,
                                      recLsn := if f.recLsn == INVALID_LSN then ps.latestLsn else f.recLsn)])
      else
        s.(frames := s.frames[p := f.(pending := false, dirty := f.recLsn != INVALID_LSN)])
    else
      var first := c.begin == INVALID_LSN;
      var log := if first then s.log + [Begin(t)] else s.log;
      var begin := if first then |s.log| else c.begin;
      var last := if first then |s.log| else c.last;
      var lsn := |log|;
      s.(log := log + [Update(t, last, p, change)],
         contexts := s.contexts[t := Context(begin, lsn,
           c.pages[p := PageState(ps.before, Some(f.page.body), Touch(ps.touched, Known(ps), f.page.body), lsn)])],
         frames := s.frames[p := f.(page := Page(f.page.body, lsn), pending := false, pageLsn := lsn,
                                    recLsn := if f.recLsn == INVALID_LSN then lsn else f.recLsn)])
  }

  /** The end record of a fuzzy checkpoint: the dirty page table and the live logged transactions. */
  function CheckpointRecord(s: State): (r: Record) {
    CheckpointEnd(|s.log| - 1,
                  map p | p in s.frames && s.frames[p].dirty :: s.frames[p].recLsn,
                  map t | t in s.contexts && s.contexts[t].begin != INVALID_LSN ::
                    Attached(s.contexts[t].begin, s.contexts[t].last),
                  s.nextTid)
  }

  // ---- Runs ----

  /** What a reader sees of a page: the resident frame, else the disk. */
  function View(s: State, p: PageId): (r: Body)
    requires p in s.disk
  {
    if p in s.frames then s.frames[p].page.body else s.disk[p].body
  }

  /** No page the transaction asked to write without changing it has bytes that only the pool holds.
      A rollback drops the frames of all those pages. */
  predicate RollbackKeepsPages(s: State, t: TxnId)
    requires t in s.contexts
  {
    s.contexts[t].begin == INVALID_LSN
    || forall p :: p in s.contexts[t].pages && s.contexts[t].pages[p].latest.None? && p in s.frames && p in s.disk
         ==> s.frames[p].page.body == s.disk[p].body
  }
}
