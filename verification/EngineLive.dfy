/** What the live operations of the engine rely on: their steps as plain state changes. */
module EngineLive {
  import opened Options
  import opened PageDelta
  import opened WalLog
  import opened LogTheory
  import opened CrashModel
  import opened CrashInvariant
  import opened CrashSteps
  import opened CrashWriteSteps
  import opened CrashRollback
  import opened CrashRuns
  import opened CrashTheorems
  import opened UndoProtocol
  import opened EngineSteps

  // ---- Facts the invariant gives ----

  lemma RunningPage(init: Database, s: State, t: TxnId, p: PageId)
    requires Inv(init, s) && s.mode.Running? && t in s.contexts && p in s.contexts[t].pages
    ensures |s.contexts[t].pages[p].touched| == PAGE_SIZE && p in init && p in s.disk
  {
    hide LogInv, ImagesInv, FramesInv, RetentionInv, HistAt, TxnsAt, DiskOk;
    assert ContextOk(init, s, t);
    assert PageStateOk(init, s, t, p);
  }

  lemma RunningFrame(init: Database, s: State, p: PageId)
    requires Inv(init, s) && s.mode.Running? && p in s.frames
    ensures p in init && (s.frames[p].pending ==> s.frames[p].dirty && Owned(s, p))
    ensures s.frames[p].dirty && !s.frames[p].pending ==> s.frames[p].recLsn != INVALID_LSN
    ensures INVALID_LSN <= s.frames[p].pageLsn < |s.log|
  {
    hide LogInv, ImagesInv, ContextsInv, RetentionInv, HistAt, TxnsAt, DiskOk;
    assert FrameOk(init, s, p);
    LastInLog(init, s, p);
  }

  lemma LastInLog(init: Database, s: State, p: PageId)
    requires LogInv(init, s) && p in init
    ensures Hist(init, s, p).last < |s.log|
  {
    hide LogOk, HistAt, TxnsAt, Retains;
    Ownership(init, s.log, |s.log|, p);
  }

  lemma RunningTxn(init: Database, s: State, t: TxnId)
    requires Inv(init, s) && s.mode.Running? && t in s.contexts
    ensures s.contexts[t].begin == INVALID_LSN <==> !Live(Txns(s), t)
    ensures s.contexts[t].begin != INVALID_LSN ==>
              s.contexts[t].last == Txns(s)[t].last && 0 <= s.contexts[t].last < |s.log|
    ensures t < s.nextTid
  {
    hide LogInv, ImagesInv, FramesInv, DiskInv, RetentionInv, HistAt, TxnsAt, PageStateOk;
    assert ContextOk(init, s, t);
    if s.contexts[t].begin != INVALID_LSN {
      LastOfTxn(init, s, t);
    }
  }

  lemma LastOfTxn(init: Database, s: State, t: TxnId)
    requires LogInv(init, s) && t in Txns(s)
    ensures 0 <= Txns(s)[t].last < |s.log|
  {
    hide LogOk, TxnsAt, Retains;
    EntryShape(init, s.log, |s.log|, t);
  }

  lemma DiskPages(init: Database, s: State)
    requires Inv(init, s)
    ensures s.disk.Keys == init.Keys && s.images.Keys == init.Keys && s.durable <= |s.log|
  {
    hide LogOk, TxnsAt, ImageOk, RunInv, RollbackInv, RedoInv, UndoInv;
  }

  // ---- Steps ----

  function Opened(s: State): (r: State) {
    s.(contexts := s.contexts[s.nextTid := Context(INVALID_LSN, INVALID_LSN, map[])], nextTid := s.nextTid + 1)
  }

  lemma BeginTxnIs(s: State)
    requires s.mode.Running?
    ensures Enabled(s, BeginTxn) && Apply(s, BeginTxn) == Opened(s)
  {
  }

  function Fetched(s: State, p: PageId): (r: State)
    requires p in s.disk
  {
    s.(frames := s.frames[p := Frame(s.disk[p], false, false, INVALID_LSN, INVALID_LSN)])
  }

  lemma FetchIs(s: State, p: PageId)
    requires s.mode.Running? && p in s.disk && p !in s.frames
    ensures Enabled(s, Fetch(p)) && Apply(s, Fetch(p)) == Fetched(s, p)
  {
  }

  /** No other transaction claims the page. */
  predicate Claimable(s: State, t: TxnId, p: PageId) {
    forall u :: u in s.contexts && u != t ==> p !in s.contexts[u].pages
  }

  lemma WriteIs(s: State, t: TxnId, p: PageId, body: Body, keepsLsn: bool)
    requires s.mode.Running? && t in s.contexts && p in s.frames && Claimable(s, t, p)
    ensures Enabled(s, Write(t, p, body, keepsLsn))
    ensures Apply(s, Write(t, p, body, keepsLsn)) == WriteStep(s, t, p, body, keepsLsn)
  {
    hide WriteStep;
  }

  lemma PrepareIs(s: State, t: TxnId, p: PageId, change: Change)
    requires s.mode.Running? && t in s.contexts && p in s.contexts[t].pages && p in s.frames && s.frames[p].dirty
    requires |s.contexts[t].pages[p].touched| == PAGE_SIZE
    requires var ps := s.contexts[t].pages[p];
             Encoding(change, ps.before, s.frames[p].page.body, Touch(ps.touched, Known(ps), s.frames[p].page.body))
    ensures Enabled(s, Prepare(t, p, change)) && Apply(s, Prepare(t, p, change)) == PrepareStep(s, t, p, change)
  {
    hide PrepareStep, Encoding, Touch;
  }

  /** Preparing a page moves no byte and leaves no work pending on it. */
  lemma PrepareEffect(s: State, t: TxnId, p: PageId, change: Change)
    requires t in s.contexts && p in s.contexts[t].pages && p in s.frames
    requires |s.contexts[t].pages[p].touched| == PAGE_SIZE
    ensures var s' := PrepareStep(s, t, p, change);
            && SameBytes(s, s') && s'.mode == s.mode && s'.slot == s.slot && s'.base == s.base
            && s'.frames.Keys == s.frames.Keys && !s'.frames[p].pending
            && (forall q :: q in s.frames && q != p ==> s'.frames[q] == s.frames[q])
            && SameClaims(s, s')
  {
    hide Touch;
  }

  // ---- What a rollback is about to drop ----

  /** The transaction has logged nothing, and no resident page of it differs from what it last knew. */
  predicate LogsNothing(s: State, t: TxnId)
    requires t in s.contexts
  {
    && s.contexts[t].begin == INVALID_LSN
    && forall p :: p in s.contexts[t].pages && p in s.frames ==>
         s.frames[p].page.body == Known(s.contexts[t].pages[p])
  }

  /** A page the transaction asked to write and has not changed. */
  predicate OnlyMeant(s: State, t: TxnId, p: PageId) {
    && t in s.contexts && p in s.contexts[t].pages && s.contexts[t].pages[p].latest.None?
    && (p in s.frames ==> s.frames[p].page.body == s.contexts[t].pages[p].before)
  }

  /** What a caller can check before a rollback: no page the transaction asked to write and has not changed
      has bytes that only its frame holds, or the transaction has nothing to log at all. */
  predicate RollbackLosesNothing(s: State, t: TxnId)
    requires t in s.contexts
  {
    || LogsNothing(s, t)
    || forall p :: OnlyMeant(s, t, p) && p in s.frames && p in s.disk ==> s.frames[p].page.body == s.disk[p].body
  }

  /** How far preparation has come on one page: nothing logged, or its resident bytes, which were news. */
  predicate LoggedPage(s: State, m: State, t: TxnId, p: PageId)
    requires t in s.contexts && t in m.contexts && p in s.contexts[t].pages && p in m.contexts[t].pages
  {
    var ps, ms := s.contexts[t].pages[p], m.contexts[t].pages[p];
    && ms.before == ps.before
    && (ms.latest == ps.latest
        || (p in s.frames && s.frames[p].page.body != Known(ps) && ms.latest == Some(s.frames[p].page.body)))
  }

  /** And on the whole transaction: m is s with some of the pages of t logged. */
  predicate Logged(s: State, m: State, t: TxnId) {
    && t in s.contexts && t in m.contexts && m.contexts[t].pages.Keys == s.contexts[t].pages.Keys
    && (forall p :: p in s.contexts[t].pages ==> LoggedPage(s, m, t, p))
    && (|| (&& m.contexts[t].begin == s.contexts[t].begin
            && forall p :: p in s.contexts[t].pages ==>
                 m.contexts[t].pages[p].latest == s.contexts[t].pages[p].latest)
        || (&& m.contexts[t].begin != INVALID_LSN
            && (s.contexts[t].begin != INVALID_LSN
                || exists p :: p in s.contexts[t].pages && p in s.frames
                     && s.frames[p].page.body != Known(s.contexts[t].pages[p]))))
  }

  lemma LoggedNone(s: State, t: TxnId)
    requires t in s.contexts
    ensures Logged(s, s, t)
  {
  }

  lemma LoggedNext(s: State, m: State, t: TxnId, p: PageId, change: Change)
    requires Logged(s, m, t) && SameBytes(s, m) && p in m.contexts[t].pages && p in m.frames
    requires |m.contexts[t].pages[p].touched| == PAGE_SIZE
    ensures Logged(s, PrepareStep(m, t, p, change), t)
  {
    hide LoggedPage, SameBytes, PrepareStep;
    var m' := PrepareStep(m, t, p, change);
    PreparedContext(m, t, p, change);
    assert LoggedPage(s, m, t, p);
    if m'.contexts == m.contexts {
      forall q | q in s.contexts[t].pages ensures LoggedPage(s, m', t, q) {
        LoggedKept(s, m, m', t, q);
      }
    } else {
      LoggedNews(s, m, m', t, p);
      forall q | q in s.contexts[t].pages ensures LoggedPage(s, m', t, q) {
        if q != p {
          LoggedKept(s, m, m', t, q);
        }
      }
    }
  }

  /** Preparation leaves the contexts alone, or logs the resident bytes, which were not what t last knew. */
  lemma PreparedContext(m: State, t: TxnId, p: PageId, change: Change)
    requires t in m.contexts && p in m.contexts[t].pages && p in m.frames
    requires |m.contexts[t].pages[p].touched| == PAGE_SIZE
    ensures var m', c := PrepareStep(m, t, p, change), m.contexts[t];
            || m'.contexts == m.contexts
            || (&& m.frames[p].page.body != Known(c.pages[p])
                && t in m'.contexts && m'.contexts[t].begin != INVALID_LSN && p in m'.contexts[t].pages
                && m'.contexts[t].pages == c.pages[p := m'.contexts[t].pages[p]]
                && m'.contexts[t].pages[p].before == c.pages[p].before
                && m'.contexts[t].pages[p].latest == Some(m.frames[p].page.body))
  {
    hide Touch;
  }

  lemma LoggedKept(s: State, m: State, m': State, t: TxnId, q: PageId)
    requires t in s.contexts && t in m.contexts && t in m'.contexts
    requires q in s.contexts[t].pages && q in m.contexts[t].pages && LoggedPage(s, m, t, q)
    requires q in m'.contexts[t].pages && m'.contexts[t].pages[q] == m.contexts[t].pages[q]
    ensures LoggedPage(s, m', t, q)
  {
  }

  lemma LoggedNews(s: State, m: State, m': State, t: TxnId, p: PageId)
    requires t in s.contexts && t in m.contexts && t in m'.contexts && SameBytes(s, m) && p in m.frames
    requires p in s.contexts[t].pages && p in m.contexts[t].pages && LoggedPage(s, m, t, p)
    requires p in m'.contexts[t].pages && m'.contexts[t].pages[p].before == m.contexts[t].pages[p].before
    requires m'.contexts[t].pages[p].latest == Some(m.frames[p].page.body)
    requires m.frames[p].page.body != Known(m.contexts[t].pages[p])
    ensures LoggedPage(s, m', t, p) && p in s.frames
    ensures s.frames[p].page.body != Known(s.contexts[t].pages[p])
  {
  }

  /** When all is prepared, what was only meant is what has no record, and the two conditions agree. */
  lemma LoggedAll(init: Database, s: State, m: State, t: TxnId)
    requires Logged(s, m, t) && SameBytes(s, m) && m.disk == s.disk
    requires Inv(init, m) && m.mode.Running? && Prepared(m, t)
    ensures forall p :: OnlyMeant(s, t, p) <==> MeantToWrite(m, t, p)
    ensures LogsNothing(s, t) <==> m.contexts[t].begin == INVALID_LSN
    ensures RollbackLosesNothing(s, t) <==> RollbackKeepsPages(m, t)
  {
    hide Inv;
    forall p | p in m.contexts[t].pages
      ensures LoggedPage(s, m, t, p) && (p in m.frames ==> m.frames[p].page.body == Known(m.contexts[t].pages[p]))
    {
      PreparedKnown(init, m, t, p);
    }
  }

  /** A prepared frame holds what the transaction last knew of the page. */
  lemma PreparedKnown(init: Database, s: State, t: TxnId, p: PageId)
    requires Inv(init, s) && s.mode.Running? && t in s.contexts && Prepared(s, t) && p in s.contexts[t].pages
    ensures p in s.frames ==> s.frames[p].page.body == Known(s.contexts[t].pages[p])
  {
    hide LogInv, ImagesInv, HistAt, TxnsAt, RetentionInv, DiskInv, MaskAfter;
    assert ContextOk(init, s, t);
    assert PageStateOk(init, s, t, p);
    if p in s.frames {
      assert FrameOk(init, s, p);
    }
  }

  // ---- Pages an undo does not touch ----

  predicate NoUpdateOf(log: Log, t: TxnId, p: PageId) {
    forall i: nat :: i < |log| && log[i].Update? && log[i].tid == t ==> log[i].page != p
  }

  /** The rollback of t has no business with the page. */
  predicate Aside(s: State, t: TxnId, p: PageId) {
    && NoUpdateOf(s.log, t, p)
    && (|| s.mode.Running?
        || (&& s.mode.RollingBack? && s.mode.tid == t
            && (0 <= s.mode.clr < |s.log| && s.log[s.mode.clr].Clr? ==> s.log[s.mode.clr].page != p)))
  }

  lemma AsideStep(s: State, a: Action, t: TxnId, p: PageId)
    requires Enabled(s, a) && OfUndo(a) && Aside(s, t, p) && p in s.disk
    ensures var s' := Apply(s, a); Aside(s', t, p) && p in s'.disk && s'.disk[p] == s.disk[p] && s'.frames == s.frames
  {
    hide TxnsAt, UndoBase, Undone;
  }

  lemma {:induction false} AsidePath(s: State, actions: seq<Action>, s': State, t: TxnId, p: PageId)
    requires Path(s, actions, s') && (forall a :: a in actions ==> OfUndo(a)) && Aside(s, t, p) && p in s.disk
    ensures p in s'.disk && s'.disk[p] == s.disk[p] && s'.frames == s.frames
    decreases |actions|
  {
    if actions != [] {
      hide Enabled, Apply, Aside, OfUndo;
      AsideStep(s, actions[0], t, p);
      AsidePath(Apply(s, actions[0]), actions[1..], s', t, p);
    }
  }

  /** A page without a record in the context has no update in the log. */
  lemma MeantNoUpdate(init: Database, s: State, t: TxnId, p: PageId)
    requires Inv(init, s) && s.mode.Running? && MeantToWrite(s, t, p)
    ensures NoUpdateOf(s.log, t, p)
  {
    hide LogInv, ImagesInv, TxnsAt, HistAt, RetentionInv, FramesInv, DiskInv, MaskAfter;
    assert ContextOk(init, s, t);
    assert PageStateOk(init, s, t, p);
    forall i: nat | i < |s.log| && s.log[i].Update? && s.log[i].tid == t ensures s.log[i].page != p {
      if s.log[i].page == p {
        UpdateOwns(init, s, t, i);
      }
    }
  }

  /** The page of an update belongs to its transaction while that runs. */
  lemma UpdateOwns(init: Database, s: State, t: TxnId, i: nat)
    requires LogInv(init, s) && i < |s.log| && s.log[i].Update? && s.log[i].tid == t
    requires t in Txns(s) ==> Unfinished(Txns(s)[t])
    ensures s.log[i].page in init && Hist(init, s, s.log[i].page).owner == Some(t)
  {
    hide Retains, ChangeOk;
    assert RecordOk(init, s.log, i);
    LastBound(init, s.log, |s.log|, i, t);
    OwnerStays(init, s.log, i + 1, |s.log|, s.log[i].page);
  }

  /** Readers see the same bytes in the same frames. */
  predicate SameBytes(s: State, s': State) {
    && s'.disk.Keys == s.disk.Keys && s'.frames.Keys == s.frames.Keys
    && (forall p :: p in s.frames ==> s'.frames[p].page.body == s.frames[p].page.body)
    && (forall p :: p in s.disk && p !in s.frames ==> s'.disk[p] == s.disk[p])
  }

  /** The same transactions are open and claim the same pages. */
  predicate SameClaims(s: State, s': State) {
    && s'.contexts.Keys == s.contexts.Keys
    && forall t :: t in s.contexts ==> s'.contexts[t].pages.Keys == s.contexts[t].pages.Keys
  }

  lemma SameView(s: State, s': State, p: PageId)
    requires SameBytes(s, s') && p in s.disk
    ensures p in s'.disk && View(s', p) == View(s, p)
  {
  }

  function Committing(s: State, t: TxnId): (r: State)
    requires t in s.contexts
  {
    var c := s.contexts[t];
    if c.begin == INVALID_LSN then s.(contexts := s.contexts - {t})
    else s.(log := s.log + [Commit(t, c.last)], durable := |s.log| + 1, contexts := s.contexts - {t})
  }

  lemma CommitIs(s: State, t: TxnId)
    requires s.mode.Running? && t in s.contexts && Prepared(s, t)
    ensures Enabled(s, CommitTxn(t)) && Apply(s, CommitTxn(t)) == Committing(s, t)
  {
    hide Prepared;
  }

  function Dropped(s: State, t: TxnId): (r: State)
    requires t in s.contexts
  {
    s.(durable := |s.log|, frames := s.frames - s.contexts[t].pages.Keys, mode := RollingBack(t, INVALID_LSN))
  }

  lemma StartRollbackIs(s: State, t: TxnId)
    requires s.mode.Running? && t in s.contexts && Prepared(s, t)
    ensures Enabled(s, StartRollback(t))
    ensures s.contexts[t].begin == INVALID_LSN ==> Apply(s, StartRollback(t)) == s.(contexts := s.contexts - {t})
    ensures s.contexts[t].begin != INVALID_LSN ==> Apply(s, StartRollback(t)) == Dropped(s, t)
  {
    hide Prepared;
  }

  /** Dropping the frames, careful or not, leaves all UNDO relies on. */
  lemma DroppedCore(init: Database, s: State, t: TxnId)
    requires Inv(init, s) && s.mode.Running? && t in s.contexts && Prepared(s, t) && s.contexts[t].begin != INVALID_LSN
    ensures UndoCore(init, Dropped(s, t))
  {
    hide LogInv, ImagesInv, ContextsInv, FramesInv, DiskInv, RetentionInv, Enabled, Apply;
    StartRollbackIs(s, t);
    DroppedLog(init, s, t);
    DroppedContexts(init, s, t);
    FramesSame(init, s, Dropped(s, t));
    RetentionSame(s, Dropped(s, t));
  }

  function Written(s: State, p: PageId): (r: State)
    requires p in s.frames
  {
    var f := s.frames[p];
    PutPage(s, p, f.page).(frames := s.frames[p := f.(dirty := false, recLsn := INVALID_LSN)])
  }

  lemma WriteBackIs(s: State, p: PageId)
    requires s.mode.Running? && p in s.frames && !s.frames[p].pending && s.frames[p].pageLsn < s.durable
    ensures Enabled(s, WriteBack(p)) && Apply(s, WriteBack(p)) == Written(s, p)
  {
  }

  lemma WrittenBytes(s: State, p: PageId)
    requires p in s.frames && p in s.disk
    ensures SameBytes(s, Written(s, p)) && Written(s, p).disk[p].body == s.frames[p].page.body
  {
  }

  function CheckpointBegun(s: State): (r: State) {
    s.(log := s.log + [CheckpointBegin])
  }

  function CheckpointEnded(s: State): (r: State) {
    s.(log := s.log + [CheckpointRecord(s)], durable := |s.log| + 1, slot := |s.log|)
  }

  predicate Quiescent(s: State) {
    forall p :: p in s.frames ==> !s.frames[p].pending
  }

  /** The steps of a fuzzy checkpoint at a statement boundary. */
  lemma CheckpointSteps(s: State)
    requires s.mode.Running? && Quiescent(s) && s.disk.Keys == s.images.Keys
    ensures var s1 := Synced(s); Enabled(s, Sync) && Apply(s, Sync) == s1
    ensures var s1 := Synced(s); Enabled(s1, BeginCheckpoint) && Apply(s1, BeginCheckpoint) == CheckpointBegun(s1)
    ensures var s2 := CheckpointBegun(Synced(s));
            Enabled(s2, EndCheckpoint(true)) && Apply(s2, EndCheckpoint(true)) == CheckpointEnded(s2)
  {
    hide CheckpointRecord;
  }

  lemma ReclaimIs(s: State, to: nat)
    requires s.mode.Running? && CheckpointAt(s.log, s.slot) && s.base <= to && Retains(s.log[s.slot], to)
    ensures Enabled(s, Reclaim(to)) && Apply(s, Reclaim(to)) == s.(base := to)
  {
    hide Retains;
  }

  lemma FullImageEncodes(before: Body, after: Body, touched: seq<bool>)
    requires |touched| == PAGE_SIZE
    ensures Encoding(FullImage(before, after), before, after, touched)
  {
  }

  lemma TouchSome(mask: seq<bool>, known: Body, body: Body)
    requires |mask| == PAGE_SIZE && known != body
    ensures exists o: nat :: o < PAGE_SIZE && Touch(mask, known, body)[o]
  {
    var o: nat :| o < PAGE_SIZE && known[o] != body[o];
    assert Touch(mask, known, body)[o];
  }

  lemma SameBytesRefl(s: State)
    ensures SameBytes(s, s)
  {
  }

  lemma SameBytesTrans(s: State, m: State, s': State)
    requires SameBytes(s, m) && SameBytes(m, s')
    ensures SameBytes(s, s')
  {
  }

  // ---- What commit and rollback come to ----

  /** A path without commits leaves the published database alone. */
  lemma {:induction false} NoCommitPath(init: Database, s: State, actions: seq<Action>, s': State)
    requires Inv(init, s) && Path(s, actions, s')
    requires forall a :: a in actions ==> !a.CommitTxn? && !a.StartRollback?
    ensures Inv(init, s') && CommittedDb(init, s'.log) == CommittedDb(init, s.log)
    decreases |actions|
  {
    if actions != [] {
      hide Inv, CommittedDb, Enabled, Apply;
      StepKeeps(init, s, actions[0]);
      StepMatches(init, s, actions[0]);
      NoCommitPath(init, Apply(s, actions[0]), actions[1..], s');
    }
  }

  lemma CommitTells(init: Database, s: State, first: seq<Action>, m: State, t: TxnId)
    requires Inv(init, s) && Path(s, first, m) && (forall a :: a in first ==> a.Prepare?)
    requires Inv(init, m) && SameBytes(s, m) && SameClaims(s, m) && t in s.contexts && Enabled(m, CommitTxn(t))
    requires s.disk.Keys == init.Keys
    ensures forall p :: p in init ==>
              CommittedDb(init, Apply(m, CommitTxn(t)).log)[p]
              == if p in s.contexts[t].pages then View(s, p) else CommittedDb(init, s.log)[p]
  {
    hide Inv, Enabled, Apply, Path, SameBytes, View;
    NoCommitPath(init, s, first, m);
    CommitPublishes(init, m, t);
    forall p | p in init
      ensures CommittedDb(init, Apply(m, CommitTxn(t)).log)[p]
              == if p in s.contexts[t].pages then View(s, p) else CommittedDb(init, s.log)[p]
    {
      SameView(s, m, p);
    }
  }

  lemma LoserAlone(m: State, s: State, t: TxnId, last: Lsn)
    requires s.log == m.log && s.mode == RollingBack(t, INVALID_LSN)
    requires Live(Txns(m), t) && last == Txns(m)[t].last && 0 <= last < |m.log|
    ensures Losers(s, map[t := last])
  {
    hide TxnsAt;
  }

  lemma RestRunning(init: Database, s: State)
    requires RestCore(init, s)
    ensures s.mode.Running?
  {
  }

  /** After the undo of a live rollback the published database is what it was, and with careful
      frames the invariant is back. */
  lemma RollbackTells(init: Database, m: State, t: TxnId, undo: seq<Action>, s': State)
    requires Inv(init, m) && t in m.contexts && Enabled(m, StartRollback(t))
    requires m.contexts[t].begin != INVALID_LSN && Apply(m, StartRollback(t)) == Dropped(m, t)
    requires Path(Dropped(m, t), undo, s') && (forall a :: a in undo ==> OfUndo(a))
    ensures RollbackKeepsPages(m, t) ==> Inv(init, s')
    ensures CommittedDb(init, s'.log) == CommittedDb(init, m.log)
  {
    hide Inv, Enabled, Apply, Path, CommittedDb, RollbackKeepsPages;
    if RollbackKeepsPages(m, t) {
      StepKeeps(init, m, StartRollback(t));
      PathKeeps(init, Dropped(m, t), undo, s');
    }
    UndoPathDb(init, Dropped(m, t), undo, s');
  }

  /** A page the transaction only meant to write reads at the end of the rollback as it read when its frame was
      dropped. */
  lemma MeantAtEnd(init: Database, m: State, t: TxnId, undo: seq<Action>, s': State, p: PageId)
    requires Inv(init, m) && m.mode.Running? && Enabled(m, StartRollback(t)) && MeantToWrite(m, t, p) && p in m.disk
    requires Path(Dropped(m, t), undo, s') && (forall a :: a in undo ==> OfUndo(a))
    requires CommittedDb(init, s'.log) == CommittedDb(init, m.log)
    ensures ReadsAsPublished(init, Dropped(m, t), p) <==> ReadsAsPublished(init, s', p)
  {
    hide Inv, Enabled, Path, CommittedDb, OfUndo;
    MeantNoUpdate(init, m, t, p);
    AsidePath(Dropped(m, t), undo, s', t, p);
  }

  /** Once t is gone nobody claims its pages. */
  lemma NoLongerClaimed(init: Database, m: State, t: TxnId, s': State, p: PageId)
    requires Inv(init, m) && m.mode.Running? && Writes(m, t, p) && s'.contexts == m.contexts - {t}
    ensures !Owned(s', p)
  {
    hide LogInv, ImagesInv, ContextOk, FramesInv, DiskInv, RetentionInv, HistAt, TxnsAt;
    forall u ensures !Writes(s', u, p) {
      assert Writes(s', u, p) ==> Writes(m, u, p);
    }
  }

  /** The rollback of a transaction that logged something, seen from its end: the pages it only meant to write
      read as published, and the invariant is back, exactly when the condition held. */
  lemma RollbackEnds(init: Database, m: State, t: TxnId, undo: seq<Action>, s': State)
    requires Inv(init, m) && m.mode.Running? && t in m.contexts && Prepared(m, t)
    requires m.contexts[t].begin != INVALID_LSN && s'.mode.Running? && s'.contexts == m.contexts - {t}
    requires Path(Dropped(m, t), undo, s') && (forall a :: a in undo ==> OfUndo(a))
    ensures CommittedDb(init, s'.log) == CommittedDb(init, m.log)
    ensures RollbackKeepsPages(m, t) <==> forall p :: MeantToWrite(m, t, p) ==> ReadsAsPublished(init, s', p)
    ensures RollbackKeepsPages(m, t) <==> Inv(init, s')
  {
    hide Inv, Enabled, Apply, Path, CommittedDb, RollbackKeepsPages, ReadsAsPublished, Prepared, OfUndo, Dropped;
    StartRollbackIs(m, t);
    RollbackTells(init, m, t, undo, s');
    RollbackExact(init, m, t);
    forall p | MeantToWrite(m, t, p)
      ensures ReadsAsPublished(init, Apply(m, StartRollback(t)), p) <==> ReadsAsPublished(init, s', p)
      ensures Inv(init, s') ==> ReadsAsPublished(init, s', p)
    {
      MeantReads(init, m, t, p);
      MeantAtEnd(init, m, t, undo, s', p);
      if Inv(init, s') {
        UnclaimedReads(init, m, t, s', p);
      }
    }
  }

  lemma UnclaimedReads(init: Database, m: State, t: TxnId, s': State, p: PageId)
    requires Inv(init, m) && m.mode.Running? && MeantToWrite(m, t, p) && p in m.disk && ReadsAsPublished(init, m, p)
    requires Inv(init, s') && s'.mode.Running? && s'.contexts == m.contexts - {t}
    ensures ReadsAsPublished(init, s', p)
  {
    hide Inv, CommittedDb;
    NoLongerClaimed(init, m, t, s', p);
    ReadersSeeCommitted(init, s', p);
  }

  /** A transaction that logged nothing is forgotten. */
  lemma RollbackOfNothing(init: Database, m: State, t: TxnId, s': State)
    requires Inv(init, m) && m.mode.Running? && t in m.contexts && Prepared(m, t)
    requires m.contexts[t].begin == INVALID_LSN && s' == m.(contexts := m.contexts - {t})
    ensures Inv(init, s') && RollbackKeepsPages(m, t)
    ensures forall p :: MeantToWrite(m, t, p) ==> ReadsAsPublished(init, s', p)
  {
    hide Inv, Enabled, Apply, CommittedDb;
    StartRollbackIs(m, t);
    StepKeeps(init, m, StartRollback(t));
    forall p | MeantToWrite(m, t, p) ensures ReadsAsPublished(init, s', p) {
      MeantReads(init, m, t, p);
    }
  }

  /** The undo protocol never changes the published database. */
  lemma {:induction false} UndoPathDb(init: Database, s: State, actions: seq<Action>, s': State)
    requires Path(s, actions, s') && (forall a :: a in actions ==> OfUndo(a))
    ensures CommittedDb(init, s'.log) == CommittedDb(init, s.log)
    decreases |actions|
  {
    if actions != [] {
      hide CommittedDb, Enabled, Apply;
      var m := Apply(s, actions[0]);
      UndoStepLog(s, actions[0]);
      CommittedPrefix(init, s.log, m.log);
      UndoPathDb(init, m, actions[1..], s');
    }
  }

  lemma UndoStepLog(s: State, a: Action)
    requires Enabled(s, a) && OfUndo(a)
    ensures var m := Apply(s, a);
            Extends(m.log, s.log) && forall i: nat :: |s.log| <= i < |m.log| ==> !m.log[i].Commit?
  {
    hide TxnsAt, UndoBase, Undone;
  }

  // ---- Writing back ----

  lemma NotOwned(s: State, p: PageId)
    requires (set t | t in s.contexts && p in s.contexts[t].pages) == {}
    ensures !Owned(s, p)
  {
    var owners := set t | t in s.contexts && p in s.contexts[t].pages;
    assert forall t :: Writes(s, t, p) ==> t in owners;
  }

  lemma SameForced(s: State, s': State)
    requires s' == s || s' == Forced(s)
    ensures SameBytes(s, s')
  {
  }

  /** A clean frame holds what the disk holds. */
  lemma CleanOnDisk(init: Database, s: State, p: PageId)
    requires Inv(init, s) && s.mode.Running? && p in s.frames && !s.frames[p].dirty
    ensures p in s.disk && s.disk[p].body == s.frames[p].page.body && s.disk[p].lsn < s.durable
  {
    hide LogInv, ContextsInv, RetentionInv, HistAt, TxnsAt, ImageOk;
    assert FrameOk(init, s, p);
    assert DiskOk(init, s, p);
    DiskStamp(init, s, p);
  }

  lemma WrittenThrough(s: State, s': State, p: PageId, body: Body)
    requires SameBytes(s, s') && p in s.disk && p in s.frames && View(s, p) == body
    requires s'.disk[p] == s'.frames[p].page
    ensures s'.disk[p].body == body && s'.disk.Keys == s.disk.Keys && s'.frames.Keys == s.frames.Keys
    ensures forall q :: q in s.disk ==> View(s', q) == View(s, q)
  {
  }

  lemma DropIs(s: State, p: PageId)
    requires s.mode.Running? && p in s.frames && !s.frames[p].dirty
    ensures Enabled(s, Drop(p)) && Apply(s, Drop(p)) == s.(frames := s.frames - {p})
  {
  }

  lemma DiskStamp(init: Database, s: State, p: PageId)
    requires Inv(init, s) && p in s.disk
    ensures s.disk[p].lsn < s.durable
  {
    hide LogInv, RunInv, RollbackInv, RedoInv, UndoInv;
    ImageNames(init, s, p, s.disk[p]);
  }

  lemma SameSynced(s: State)
    ensures SameBytes(s, Synced(s))
  {
  }

  lemma SameFrames(s: State, s': State)
    requires SameBytes(s, s')
    ensures s'.frames.Keys == s.frames.Keys
  {
  }

  // ---- Checkpoints ----

  lemma CheckpointRecordIs(s: State, r: Record)
    requires r == CheckpointEnd(|s.log| - 1,
                                map p | p in s.frames && s.frames[p].dirty :: s.frames[p].recLsn,
                                map t | t in s.contexts && s.contexts[t].begin != INVALID_LSN ::
                                  Attached(s.contexts[t].begin, s.contexts[t].last),
                                s.nextTid)
    ensures r == CheckpointRecord(s)
  {
  }

  lemma CheckpointPath(s: State)
    requires s.mode.Running? && Quiescent(s) && s.disk.Keys == s.images.Keys
    ensures Path(s, [Sync, BeginCheckpoint, EndCheckpoint(true)], CheckpointEnded(CheckpointBegun(Synced(s))))
  {
    hide Enabled, Apply, Path, CheckpointEnded, CheckpointBegun, Synced, Quiescent;
    CheckpointSteps(s);
    Then(s, Sync);
    PathThen(s, [Sync], Synced(s), BeginCheckpoint);
    PathThen(s, [Sync] + [BeginCheckpoint], CheckpointBegun(Synced(s)), EndCheckpoint(true));
    assert [Sync, BeginCheckpoint, EndCheckpoint(true)] == [Sync] + [BeginCheckpoint] + [EndCheckpoint(true)];
  }

  lemma FloorRetained(s: State, floor: nat)
    requires CheckpointAt(s.log, s.slot) && ScanStart(s.log, s.slot, floor)
    ensures Retains(s.log[s.slot], floor)
  {
  }
}
