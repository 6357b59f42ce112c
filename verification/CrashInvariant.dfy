/** The invariant of every reachable state of the step system. */
module CrashInvariant {
  import opened Options
  import opened PageDelta
  import opened WalLog
  import opened LogTheory
  import opened CrashModel

  function Hist(init: Database, s: State, p: PageId): (r: PageHist)
    requires p in init
  {
    HistAt(init, s.log, |s.log|, p)
  }

  function Txns(s: State): (r: map<TxnId, Txn>) {
    TxnsAt(s.log, |s.log|)
  }

  // ---- The log ----

  ghost predicate LogInv(init: Database, s: State) {
    && LogOk(init, s.log)
    && s.durable <= |s.log|
    && (forall i: nat :: i < |s.log| && (s.log[i].Commit? || s.log[i].CheckpointEnd?) ==> i < s.durable)
    && (s.slot == INVALID_LSN || CheckpointAt(s.log, s.slot))
    && (s.slot == INVALID_LSN ==> s.base == 0)
    && (s.slot != INVALID_LSN ==> Retains(s.log[s.slot], s.base))
    && BeginAbove(Txns(s), s.base)
    && (!s.mode.Down? ==> IdsBelow(Txns(s), s.nextTid))
  }

  predicate BeginAbove(txns: map<TxnId, Txn>, base: nat) {
    forall t :: t in txns && Unfinished(txns[t]) ==> base <= txns[t].begin
  }

  predicate IdsBelow(txns: map<TxnId, Txn>, next: TxnId) {
    forall t :: t in txns ==> t < next
  }

  // ---- The disk ----

  /** The position REDO of a page starts from, given the image the disk holds. */
  function RedoFrom(log: Log, slot: Lsn, p: PageId, g: Page): (r: nat) {
    Max(0, Max(g.lsn + 1, Bound(log, slot, p)))
  }

  /** An image a crash may leave is one REDO can start from, at the position its PageLSN and the
      published checkpoint name. */
  ghost predicate ImageOk(init: Database, log: Log, slot: Lsn, p: PageId, g: Page) {
    && INVALID_LSN <= g.lsn < |log|
    && (g.lsn != INVALID_LSN ==> OnPage(log[g.lsn], p))
    && Bound(log, slot, p) <= |log|
    && Fit(init, log, RedoFrom(log, slot, p, g), p, g.body)
  }

  ghost predicate ImagesInv(init: Database, s: State) {
    && s.disk.Keys == init.Keys && s.images.Keys == init.Keys
    && s.durable <= |s.log|
    && (forall p :: p in init ==> s.disk[p] in s.images[p])
    && (forall p, g :: p in init && g in s.images[p] ==> ImageOk(init, s.log[..s.durable], s.slot, p, g))
  }

  // ---- Normal operation ----

  /** Rolling back, t no longer keeps its page states in step with the log. */
  predicate Rolling(s: State, t: TxnId) {
    s.mode.RollingBack? && s.mode.tid == t
  }

  ghost predicate PageStateOk(init: Database, s: State, t: TxnId, p: PageId)
    requires t in s.contexts && p in s.contexts[t].pages
  {
    p in init
    && var ps := s.contexts[t].pages[p];
       var h := Hist(init, s, p);
       && ps.before == h.committed
       && (!Rolling(s, t) ==>
             && ps.touched == MaskAfter(h.committed, h.images, |h.images|)
             && (h.images == [] ==> h.owner == None && ps.latest == None && ps.latestLsn == INVALID_LSN)
             && (h.images != [] ==> h.owner == Some(t) && ps.latest == Some(Latest(h)) && ps.latestLsn == h.last))
  }

  ghost predicate ContextOk(init: Database, s: State, t: TxnId)
    requires t in s.contexts
  {
    var c := s.contexts[t];
    && t < s.nextTid
    && (c.begin == INVALID_LSN ==> t !in Txns(s) && !Rolling(s, t))
    && (c.begin != INVALID_LSN ==>
          && Live(Txns(s), t) && Txns(s)[t].begin == c.begin
          && (!Rolling(s, t) ==> Txns(s)[t].status.Active? && Txns(s)[t].last == c.last))
    && (forall p :: p in c.pages ==> PageStateOk(init, s, t, p))
  }

  predicate Writes(s: State, t: TxnId, p: PageId) {
    t in s.contexts && p in s.contexts[t].pages
  }

  ghost predicate ContextsInv(init: Database, s: State) {
    && (forall t :: t in s.contexts ==> ContextOk(init, s, t))
    && (forall t :: Live(Txns(s), t) ==> t in s.contexts)
    && (forall p :: p in init && Hist(init, s, p).owner.Some? ==>
          Hist(init, s, p).owner.value in s.contexts && p in s.contexts[Hist(init, s, p).owner.value].pages)
    && (forall t, u, p :: Writes(s, t, p) && Writes(s, u, p) ==> t == u)
  }

  ghost predicate Owned(s: State, p: PageId) {
    exists t :: Writes(s, t, p)
  }

  ghost predicate FrameOk(init: Database, s: State, p: PageId)
    requires p in s.frames
  {
    p in init
    && var f, h := s.frames[p], Hist(init, s, p);
       && (f.page.lsn != INVALID_LSN ==> 0 <= f.page.lsn < |s.log| && OnPage(s.log[f.page.lsn], p))
       && (f.pending ==> f.dirty && Owned(s, p))
       && (!f.pending ==> f.page.body == Latest(h) && Stamped(f.page.lsn, h))
       && (f.dirty && !f.pending ==> f.recLsn != INVALID_LSN)
       && (f.recLsn != INVALID_LSN ==> f.dirty && 0 <= f.recLsn <= f.pageLsn && f.pageLsn == h.last)
       && INVALID_LSN <= f.pageLsn <= h.last
  }

  /** The PageLSN names the newest record, unless nothing is open and it was lost or left behind. */
  predicate Stamped(lsn: Lsn, h: PageHist) {
    lsn == h.last || (INVALID_LSN <= lsn < h.last && h.images == [])
  }

  /** The page lost its frame to the running rollback and has not been written back yet. */
  ghost predicate Exempt(init: Database, s: State, p: PageId)
    requires p in init
  {
    s.mode.RollingBack?
    && (|| (Hist(init, s, p).owner == Some(s.mode.tid) && Hist(init, s, p).images != [])
        || (0 <= s.mode.clr < |s.log| && OnPage(s.log[s.mode.clr], p)))
  }

  /** The disk holds what the page held when its frame became dirty, or all there is. */
  ghost predicate DiskOk(init: Database, s: State, p: PageId)
    requires p in init && p in s.disk
  {
    var h, g := Hist(init, s, p), s.disk[p];
    if p in s.frames && s.frames[p].recLsn != INVALID_LSN then
      var at: nat := Max(0, Max(g.lsn + 1, s.frames[p].recLsn));
      at <= |s.log| && g.body == Latest(HistAt(init, s.log, at, p))
    else
      g.body == Latest(h) && Stamped(g.lsn, h) && h.last < s.durable
  }

  ghost predicate FramesInv(init: Database, s: State) {
    forall p :: p in s.frames ==> FrameOk(init, s, p)
  }

  ghost predicate DiskInv(init: Database, s: State) {
    && s.disk.Keys == init.Keys
    && forall p :: p in init && !Exempt(init, s, p) ==> DiskOk(init, s, p)
  }

  /** No floor the checkpoint allows lies above the position. */
  ghost predicate AboveFloor(r: Record, l: Lsn)
    requires r.CheckpointEnd?
  {
    || r.begin <= l
    || (exists p :: p in r.dpt && r.dpt[p] <= l)
    || (exists t :: t in r.att && r.att[t].begin <= l)
  }

  /** Every dirty page can be redone from what the log still holds, now and after any reclamation
      the published checkpoint allows. */
  ghost predicate RetentionInv(s: State) {
    forall p :: p in s.frames && s.frames[p].recLsn != INVALID_LSN ==>
      s.base <= s.frames[p].recLsn && (CheckpointAt(s.log, s.slot) ==> AboveFloor(s.log[s.slot], s.frames[p].recLsn))
  }

  ghost predicate RunInv(init: Database, s: State) {
    ContextsInv(init, s) && FramesInv(init, s) && DiskInv(init, s) && RetentionInv(s)
  }

  /** A live rollback: the frames of its pages are gone and no other step of the engine interferes. */
  ghost predicate RollbackInv(init: Database, s: State)
    requires s.mode.RollingBack?
  {
    && s.mode.tid in s.contexts
    && s.contexts[s.mode.tid].begin != INVALID_LSN
    && (forall p :: p in s.contexts[s.mode.tid].pages ==> p !in s.frames)
    && ClrInFlight(s, s.mode.clr)
    && (0 <= s.mode.clr ==> s.log[s.mode.clr].tid == s.mode.tid)
  }

  predicate ClrInFlight(s: State, clr: Lsn) {
    clr == INVALID_LSN || (0 <= clr && clr == |s.log| - 1 && s.log[clr].Clr?)
  }

  // ---- Recovery ----

  ghost predicate EmptyInv(s: State) {
    s.frames == map[] && s.contexts == map[]
  }

  ghost predicate RedoInv(init: Database, s: State)
    requires s.mode.Redoing?
  {
    && s.disk.Keys == init.Keys
    && s.mode.next <= |s.log| && s.durable == |s.log|
    && forall p :: p in init ==>
         Caught(s.log, p, RedoFrom(s.log, s.slot, p, s.disk[p]), s.mode.next)
  }

  ghost predicate UndoInv(init: Database, s: State)
    requires s.mode.Undoing?
  {
    && s.disk.Keys == init.Keys
    && ClrInFlight(s, s.mode.clr)
    && forall p :: p in init && !(0 <= s.mode.clr < |s.log| && OnPage(s.log[s.mode.clr], p)) ==>
         Plausible(init, s.log, |s.log|, p, s.disk[p].body)
  }

  ghost predicate Inv(init: Database, s: State) {
    && LogInv(init, s)
    && ImagesInv(init, s)
    && match s.mode
       case Running => RunInv(init, s)
       case RollingBack(_, _) => RunInv(init, s) && RollbackInv(init, s)
       case Down => EmptyInv(s)
       case Redoing(_) => EmptyInv(s) && RedoInv(init, s)
       case Undoing(_) => EmptyInv(s) && UndoInv(init, s)
  }
}
