/** The engine itself: fields updated in place, every durable effect one step of the step system.
    Each method returns the steps it took, so a crash between any two of them is a run already covered. */
module RecoveryEngine {
  import opened Options
  import opened PageDelta
  import opened WalLog
  import opened CrashModel
  import opened CrashInvariant
  import opened CrashRollback
  import opened CrashRuns
  import opened CrashTheorems
  import opened Analysis
  import opened UndoProtocol
  import opened EngineSteps
  import opened EngineLive
  import opened PageEncoding

  /** The steps of one restart, in order. */
  lemma RestartActs(from: nat, redo: seq<Action>, undo: seq<Action>)
    requires (forall a :: a in redo ==> a == RedoNext) && forall a :: a in undo ==> OfUndo(a)
    ensures forall a :: a in [StartRecovery(from)] + redo + [FinishRedo] + undo + [FinishRecovery] ==> OfRestart(a)
  {
  }

  class Engine {
    ghost const init: Database
    var log: Log
    var durable: nat
    var disk: map<PageId, Page>
    ghost var images: map<PageId, set<Page>>
    var frames: map<PageId, Frame>
    var contexts: map<TxnId, Context>
    var nextTid: TxnId
    var slot: Lsn
    var base: nat
    ghost var mode: Mode

    ghost function Now(): (r: State)
      reads this
    {
      State(log, durable, disk, images, frames, contexts, nextTid, slot, base, mode)
    }

    /** A new database over the given pages. */
    constructor (pages: Database)
      ensures init == pages && Now() == Created(pages) && Inv(init, Now())
    {
      init := pages;
      log, durable := [], 0;
      disk := map p | p in pages :: Page(pages[p], INVALID_LSN);
      images := map p | p in pages :: {Page(pages[p], INVALID_LSN)};
      frames, contexts, nextTid := map[], map[], 1;
      slot, base, mode := INVALID_LSN, 0, Running;
      new;
      CreatedInv(pages);
    }

    // ---- Atomic effects ----

    method ForceLog()
      requires !mode.Down?
      modifies this`durable
      ensures Now() == Forced(old(Now()))
    {
      durable := |log|;
    }

    method SyncPages()
      requires !mode.Down?
      modifies this`images
      ensures Now() == Synced(old(Now()))
    {
      images := map p | p in disk :: {disk[p]};
    }

    method WritePage(p: PageId, g: Page)
      modifies this`disk, this`images
      ensures Now() == PutPage(old(Now()), p, g)
    {
      disk := disk[p := g];
      images := images[p := (if p in images then images[p] else {}) + {g}];
    }

    // ---- UNDO ----

    /** Build and append one compensation. A live rollback starts from the retained original, restart
        from the disk. */
    method AppendCompensation(t: TxnId, position: nat, last: Lsn, live: bool) returns (p: PageId, compensated: Body)
      requires live == mode.RollingBack? && Enabled(Now(), AppendClr(t))
      requires NextUndo(Now(), t) == position && Txns(Now())[t].last == last
      modifies this`log, this`mode
      ensures Now() == ClrLogged(old(Now()), t)
      ensures p == log[|log| - 1].page && compensated == log[|log| - 1].image
    {
      hide TxnsAt, Undone;
      var record := log[position];
      p := record.page;
      var original := if live && t in contexts && p in contexts[t].pages then contexts[t].pages[p].before
                      else disk[p].body;
      compensated := Undone(record.change, original);
      var lsn := |log|;
      log := log + [Clr(t, last, p, record.prev, position, compensated)];
      mode := mode.(clr := lsn);
    }

    /** Compensate one update: append the compensation, force it, write the page, sync. */
    method Compensate(t: TxnId, position: nat, last: Lsn, live: bool) returns (ghost acts: seq<Action>)
      requires UndoCore(init, Now()) && live == mode.RollingBack? && mode.clr == INVALID_LSN
      requires Enabled(Now(), AppendClr(t)) && NextUndo(Now(), t) == position && Txns(Now())[t].last == last
      modifies this`log, this`durable, this`disk, this`images, this`mode
      ensures acts == [AppendClr(t), Force, PutClr, Sync] && Path(old(Now()), acts, Now())
      ensures UndoCore(init, Now()) && mode == old(mode) && ClrAppended(old(Now()), t, Now()) && durable == |log|
    {
      hide Enabled, Apply, TxnsAt, Path, UndoCore, ClrAppended, NextUndo, NextClr;
      CompensatePath(init, Now(), t);
      var p, compensated := AppendCompensation(t, position, last, live);
      var lsn := |log| - 1;
      ForceLog();
      WritePage(p, Page(compensated, lsn));
      mode := mode.(clr := INVALID_LSN);
      SyncPages();
      acts := [AppendClr(t), Force, PutClr, Sync];
    }

    /** Sync the pages, then log and force the ABORT. */
    method FinishLoser(t: TxnId, last: Lsn, live: bool) returns (ghost acts: seq<Action>)
      requires UndoCore(init, Now()) && live == mode.RollingBack? && mode.clr == INVALID_LSN
      requires Enabled(Now(), FinishAbort(t)) && t in Txns(Now()) && Txns(Now())[t].last == last
      modifies this`log, this`durable, this`images, this`contexts, this`mode
      ensures acts == [Sync, FinishAbort(t)] && Path(old(Now()), acts, Now())
      ensures live ==> RestCore(init, Now()) && contexts == old(contexts) - {t}
      ensures !live ==> UndoCore(init, Now()) && mode == old(mode) && contexts == old(contexts)
      ensures AbortAppended(old(log), t, log) && durable == |log|
    {
      hide Enabled, Apply, TxnsAt, Path, UndoCore, RestCore, AbortAppended;
      AbortPath(init, Now(), t);
      CoreLog(init, Now());
      SyncPages();
      log := log + [Abort(t, last)];
      durable := |log|;
      if live {
        contexts := contexts - {t};
      }
      mode := if live then Running else mode;
      acts := [Sync, FinishAbort(t)];
    }

    /** The queue entry with the greatest position. */
    method Top(work: map<TxnId, nat>) returns (t: TxnId)
      requires work != map[]
      ensures t in work && forall u :: u in work ==> work[u] <= work[t]
    {
      var keys := work.Keys;
      assert keys != {};
      t :| t in keys;
      while keys != {}
        invariant keys <= work.Keys && t in work
        invariant forall u :: u in work && u !in keys ==> work[u] <= work[t]
        decreases |keys|
      {
        var u :| u in keys;
        if work[t] < work[u] {
          t := u;
        }
        keys := keys - {u};
      }
    }

    /** The popped position: finish the loser at its BEGIN, step over what a compensation covers, or
        compensate the update there. */
    method UndoNext(t: TxnId, work: map<TxnId, nat>, last: map<TxnId, Lsn>, live: bool)
      returns (work': map<TxnId, nat>, last': map<TxnId, Lsn>, ghost acts: seq<Action>)
      requires UndoCore(init, Now()) && live == mode.RollingBack? && mode.clr == INVALID_LSN && durable == |log|
      requires t in work && Queue(log, work, last, if live then Some(mode.tid) else None)
      modifies this`log, this`durable, this`disk, this`images, this`contexts, this`mode
      ensures Path(old(Now()), acts, Now()) && durable == |log| && forall a :: a in acts ==> OfUndo(a)
      ensures Queue(log, work', last', if live then Some(old(mode).tid) else None)
      ensures work' == work - {t} || (t in work' && work'[t] < work[t] && work' == work[t := work'[t]])
      ensures work' != map[] || !live ==> UndoCore(init, Now()) && mode == old(mode) && contexts == old(contexts)
      ensures work' == map[] && live ==> RestCore(init, Now()) && contexts == old(contexts) - {old(mode).tid}
    {
      hide Enabled, Apply, TxnsAt, Path, UndoCore, RestCore, ClrAppended, AbortAppended, Queue, NextUndo, OfTxn;
      ghost var s := Now();
      ghost var only := if live then Some(mode.tid) else None;
      CoreLog(init, s);
      QueueNext(init, s, work, last, only, t);
      var position := work[t];
      var record := log[position];
      if record.Begin? {
        acts := FinishLoser(t, last[t], live);
        QueueAbort(s.log, log, work, last, only, t);
        if live {
          QueueOnly(s.log, work, last, only, t);
        }
        work', last' := work - {t}, last;
      } else if record.Clr? {
        PathEmpty(s);
        QueueSkip(init, log, work, last, only, t);
        work', last', acts := work[t := record.undoNext], last, [];
      } else {
        var lsn := |log|;
        acts := Compensate(t, position, last[t], live);
        QueueClr(init, s, Now(), work, last, only, t);
        work', last' := work[t := record.prev], last[t := lsn];
      }
    }

    /** The undo loop of restart and of live rollback: always the unfinished record with the greatest
        LSN next. Popped positions strictly decrease, so it ends, with every loser aborted. */
    method UndoTransactions(last0: map<TxnId, Lsn>, live: bool) returns (ghost acts: seq<Action>)
      requires UndoCore(init, Now()) && live == mode.RollingBack? && mode.clr == INVALID_LSN
      requires Losers(Now(), last0) && durable == |log|
      requires live ==> mode.tid in last0
      modifies this`log, this`durable, this`disk, this`images, this`contexts, this`mode
      ensures Path(old(Now()), acts, Now()) && durable == |log| && forall a :: a in acts ==> OfUndo(a)
      ensures live ==> RestCore(init, Now()) && contexts == old(contexts) - {old(mode).tid}
      ensures !live ==> UndoCore(init, Now()) && mode == old(mode) && NoneLive(log)
    {
      hide Enabled, Apply, TxnsAt, Path, UndoCore, RestCore, Queue, NoneLive, Losers, OfUndo;
      ghost var only := if live then Some(mode.tid) else None;
      ghost var bound := |log|;
      QueueStart(init, Now(), last0, only);
      var work: map<TxnId, nat> := map t | t in last0 :: last0[t];
      var last := last0;
      acts := [];
      PathEmpty(Now());
      assert live ==> mode.tid in work;
      while work != map[]
        invariant Queue(log, work, last, only)
        invariant Path(old(Now()), acts, Now()) && durable == |log| && forall a :: a in acts ==> OfUndo(a)
        invariant work != map[] || !live ==> UndoCore(init, Now()) && mode == old(mode) && contexts == old(contexts)
        invariant work == map[] && live ==> RestCore(init, Now()) && contexts == old(contexts) - {old(mode).tid}
        invariant forall t :: t in work ==> work[t] < bound
        decreases bound
      {
        ghost var s := Now();
        var t := Top(work);
        QueueDistinct(log, work, last, only, t);
        bound := work[t];
        ghost var steps;
        work, last, steps := UndoNext(t, work, last, live);
        PathJoins(old(Now()), acts, s, steps, Now());
        acts := acts + steps;
      }
      if !live {
        QueueEmpty(log, last);
      }
    }

    // ---- Restart ----

    /** One position of REDO, with the filters of the source: the redo list, the dirty page table,
        the PageLSN of the page on disk. */
    method RedoRecord(i: nat, ghost from: nat, txns: map<TxnId, Txn>, dpt: map<PageId, Lsn>)
      requires LogInv(init, Now()) && disk.Keys == init.Keys && mode == Redoing(i) && from <= i < |log|
      requires Scannable(init, log, slot, from) && Rebuilt(log, slot, from, |log|, txns, dpt)
      modifies this`disk, this`images, this`mode
      ensures Now() == Redid(old(Now()), i)
    {
      hide LogInv, LogOk, TxnsAt, Scannable, Rebuilt, Candidate, Bound, Redone, InRedoList;
      RedoFilters(init, Now(), from, txns, dpt, i);
      if InRedoList(log, slot, txns, i) {
        var r := log[i];
        var skipped := slot != INVALID_LSN && (r.page !in dpt || i < dpt[r.page]);
        if !skipped && disk[r.page].lsn < i {
          var body := if r.Clr? then r.image else Redone(r.change, disk[r.page].body);
          WritePage(r.page, Page(body, i));
        }
      }
      mode := Redoing(i + 1);
    }

    method RedoPass(from: nat, txns: map<TxnId, Txn>, dpt: map<PageId, Lsn>) returns (ghost acts: seq<Action>)
      requires Inv(init, Now()) && mode == Redoing(from) && durable == |log| && from <= |log|
      requires Scannable(init, log, slot, from) && Rebuilt(log, slot, from, |log|, txns, dpt)
      modifies this`disk, this`images, this`mode
      ensures Path(old(Now()), acts, Now()) && forall a :: a in acts ==> a == RedoNext
      ensures Inv(init, Now()) && mode == Redoing(|log|)
    {
      hide Inv, Enabled, Apply, Path, LogInv, LogOk, Scannable, Rebuilt, RedoOne;
      acts := [];
      PathEmpty(Now());
      var i := from;
      while i < |log|
        invariant from <= i <= |log| && mode == Redoing(i) && Inv(init, Now())
        invariant Path(old(Now()), acts, Now()) && forall a :: a in acts ==> a == RedoNext
      {
        ghost var s := Now();
        InvBounds(init, s);
        RedoRecord(i, from, txns, dpt);
        RedoIs(s);
        StepKeeps(init, s, RedoNext);
        PathThen(old(Now()), acts, s, RedoNext);
        acts := acts + [RedoNext];
        i := i + 1;
      }
    }

    /** One more than the largest transaction id from position i on. */
    method HighestNext(from: nat) returns (next: nat)
      requires from <= |log|
      ensures next == TailNext(log, from)
    {
      next := 1;
      var i := |log|;
      while from < i
        invariant from <= i <= |log| && next == TailNext(log, i)
      {
        i := i - 1;
        var r := log[i];
        if !r.CheckpointBegin? && !r.CheckpointEnd? && next < r.tid + 1 {
          next := r.tid + 1;
        }
      }
    }

    /** Analysis: rebuild the tables from the scan start and restore the transaction counter. */
    method AnalysisPass() returns (from: nat, txns: map<TxnId, Txn>, dpt: map<PageId, Lsn>, ghost acts: seq<Action>)
      requires Inv(init, Now()) && mode.Down?
      modifies this`durable, this`nextTid, this`mode
      ensures acts == [StartRecovery(from)] && Path(old(Now()), acts, Now())
      ensures Inv(init, Now()) && mode == Redoing(from) && durable == |log| && base <= from <= |log|
      ensures Scannable(init, log, slot, from) && Rebuilt(log, slot, from, |log|, txns, dpt)
    {
      hide Inv, Enabled, Apply, Path, LogInv, LogOk, TailNext, Rebuilt, ScanStart, Retains;
      ghost var s := Now();
      InvBounds(init, s);
      from := FindScanStart(log, slot);
      ScanOk(init, s, from);
      var result := Analyze(init, log, slot, from);
      txns, dpt := result.txns, result.dpt;
      var tail := HighestNext(from);
      var known := if slot != INVALID_LSN then log[slot].nextTid else 1;
      durable := |log|;
      nextTid := if known < tail then tail else known;
      mode := Redoing(from);
      StartRecoveryIs(init, s, from);
      StepKeeps(init, s, StartRecovery(from));
      Then(s, StartRecovery(from));
      acts := [StartRecovery(from)];
    }

    /** UNDO of what analysis found unfinished, and back to normal operation. */
    method UndoPass(ghost from: nat, txns: map<TxnId, Txn>,
                    ghost dpt: map<PageId, Lsn>) returns (ghost acts: seq<Action>)
      requires Inv(init, Now()) && mode == Undoing(INVALID_LSN) && durable == |log|
      requires Scannable(init, log, slot, from) && Rebuilt(log, slot, from, |log|, txns, dpt)
      modifies this`log, this`durable, this`disk, this`images, this`contexts, this`mode
      ensures Path(old(Now()), acts, Now()) && (forall a :: a in acts ==> OfUndo(a))
      ensures mode == Undoing(INVALID_LSN) && durable == |log| && NoneLive(log)
    {
      hide Inv, Enabled, Apply, Path, LogOk, TxnsAt, Rebuilt, UndoCore, Scannable, NoneLive, RestCore, Losers;
      UndoingCore(init, Now());
      var last := map t | t in txns && Unfinished(txns[t]) :: txns[t].last;
      LosersFound(init, Now(), from, txns, dpt, last);
      acts := UndoTransactions(last, false);
      if last == map[] {
        ghost var s := Now();
        SyncPages();
        SyncIs(s);
        PathThen(old(Now()), acts, s, Sync);
        acts := acts + [Sync];
      }
    }

    /** Restart after a crash: analysis, REDO, UNDO. It never finds the log wanting or corrupt, and
        ends with every page as the committed transactions left it. */
    method Recover() returns (ghost acts: seq<Action>)
      requires Inv(init, Now()) && mode.Down?
      modifies this
      ensures Path(old(Now()), acts, Now()) && forall a :: a in acts ==> OfRestart(a)
      ensures Inv(init, Now()) && mode.Running? && contexts == map[]
      ensures disk.Keys == init.Keys && forall p :: p in init ==> View(Now(), p) == CommittedDb(init, old(log))[p]
    {
      hide Inv, Enabled, Apply, Path, LogOk, Rebuilt, Scannable, View, CommittedDb, NoneLive, OfRestart, OfUndo;
      ghost var s0 := Now();
      DownEmpty(init, s0);
      var from, txns, dpt, start := AnalysisPass();
      ghost var s1 := Now();
      ghost var redo := RedoPass(from, txns, dpt);
      ghost var s2 := Now();
      PathJoins(s0, start, s1, redo, s2);
      mode := Undoing(INVALID_LSN);
      ghost var s3 := Now();
      FinishRedoIs(s2);
      StepKeeps(init, s2, FinishRedo);
      PathThen(s0, start + redo, s2, FinishRedo);
      ghost var undo := UndoPass(from, txns, dpt);
      ghost var s4 := Now();
      PathJoins(s0, start + redo + [FinishRedo], s3, undo, s4);
      mode := Running;
      FinishRecoveryIs(s4);
      PathThen(s0, start + redo + [FinishRedo] + undo, s4, FinishRecovery);
      acts := start + redo + [FinishRedo] + undo + [FinishRecovery];
      RestartActs(from, redo, undo);
      RestartPath(init, s0, acts, Now());
      RestartedPages(init, s0, Now());
    }

    // ---- Statements ----

    method BeginStatement() returns (t: TxnId, ghost acts: seq<Action>)
      requires Inv(init, Now()) && mode.Running?
      modifies this`contexts, this`nextTid
      ensures t !in old(contexts) && contexts == old(contexts)[t := Context(INVALID_LSN, INVALID_LSN, map[])]
      ensures acts == [BeginTxn] && Path(old(Now()), acts, Now()) && Inv(init, Now())
    {
      hide Inv, Enabled, Apply, Path;
      ghost var s := Now();
      if nextTid in contexts {
        RunningTxn(init, s, nextTid);
      }
      t := nextTid;
      contexts := contexts[t := Context(INVALID_LSN, INVALID_LSN, map[])];
      nextTid := nextTid + 1;
      BeginTxnIs(s);
      StepKeeps(init, s, BeginTxn);
      Then(s, BeginTxn);
      acts := [BeginTxn];
    }

    method FetchPage(p: PageId) returns (ghost acts: seq<Action>)
      requires Inv(init, Now()) && mode.Running? && p in disk
      modifies this`frames
      ensures Path(old(Now()), acts, Now()) && Inv(init, Now()) && frames.Keys == old(frames).Keys + {p}
      ensures p !in old(frames) ==> !frames[p].dirty
      ensures forall q :: q in disk ==> View(Now(), q) == old(View(Now(), q))
    {
      hide Inv, Enabled, Apply, Path;
      acts := [];
      PathEmpty(Now());
      if p !in frames {
        ghost var s := Now();
        frames := frames[p := Frame(disk[p], false, false, INVALID_LSN, INVALID_LSN)];
        FetchIs(s, p);
        StepKeeps(init, s, Fetch(p));
        Then(s, Fetch(p));
        acts := [Fetch(p)];
      }
    }

    /** Note the write intent, keeping the original on the first one, and change the resident bytes. */
    method WriteBytes(t: TxnId, p: PageId, body: Body, keepsLsn: bool)
      requires Inv(init, Now()) && mode.Running? && t in contexts && p in frames && Claimable(Now(), t, p)
      modifies this`frames, this`contexts
      ensures Path(old(Now()), [Write(t, p, body, keepsLsn)], Now()) && Inv(init, Now())
      ensures frames.Keys == old(frames).Keys && frames[p].page.body == body && frames[p].dirty
      ensures forall q :: q in frames && q != p ==> frames[q] == old(frames)[q]
      ensures t in contexts && p in contexts[t].pages
    {
      hide Inv, Enabled, Apply, Path, Claimable;
      ghost var s := Now();
      var f, c := frames[p], contexts[t];
      if p !in c.pages {
        contexts := contexts[t := c.(pages := c.pages[p := PageState(f.page.body, None, NoOffsets(), INVALID_LSN)])];
      }
      var lsn := if keepsLsn then f.page.lsn else INVALID_LSN;
      frames := frames[p := f.(page := Page(body, lsn), dirty := true, pending := true)];
      WriteIs(s, t, p, body, keepsLsn);
      assert Now() == WriteStep(s, t, p, body, keepsLsn);
      StepKeeps(init, s, Write(t, p, body, keepsLsn));
      Then(s, Write(t, p, body, keepsLsn));
    }

    /** Fetch the page if it is not resident, note the write intent, change the bytes. Refused when
        another open transaction claims the page. */
    method ModifyPage(t: TxnId, p: PageId, body: Body, keepsLsn: bool) returns (ok: bool, ghost acts: seq<Action>)
      requires Inv(init, Now()) && mode.Running? && t in contexts && p in disk
      modifies this`frames, this`contexts
      ensures Path(old(Now()), acts, Now()) && Inv(init, Now())
      ensures ok <==> old(Claimable(Now(), t, p))
      ensures frames.Keys == old(frames).Keys + {p} && (ok ==> frames[p].dirty)
      ensures !ok && p !in old(frames) ==> !frames[p].dirty
      ensures forall q :: q in disk && (q != p || !ok) ==> View(Now(), q) == old(View(Now(), q))
      ensures ok ==> View(Now(), p) == body && t in contexts && p in contexts[t].pages
      ensures !ok ==> contexts == old(contexts)
    {
      hide Inv, Enabled, Apply, Path;
      ghost var s := Now();
      acts := FetchPage(p);
      ok := forall u :: u in contexts && u != t ==> p !in contexts[u].pages;
      if ok {
        ghost var m := Now();
        WriteBytes(t, p, body, keepsLsn);
        PathJoins(s, acts, m, [Write(t, p, body, keepsLsn)], Now());
        acts := acts + [Write(t, p, body, keepsLsn)];
      }
    }

    /** Log what changed on a dirty page since the transaction last prepared it, if anything did. */
    method PreparePage(t: TxnId, p: PageId, updateMode: UpdateMode) returns (ghost change: Change)
      requires Inv(init, Now()) && mode.Running? && t in contexts && p in contexts[t].pages && p in frames
      requires frames[p].dirty
      modifies this`log, this`contexts, this`frames
      ensures old(|contexts[t].pages[p].touched|) == PAGE_SIZE
      ensures Now() == PrepareStep(old(Now()), t, p, change)
      ensures Path(old(Now()), [Prepare(t, p, change)], Now()) && Inv(init, Now())
    {
      hide Inv, Enabled, Apply, Path, Encoding, Touch;
      ghost var s := Now();
      RunningPage(init, s, t, p);
      var f, c := frames[p], contexts[t];
      var ps := c.pages[p];
      if f.page.body == Known(ps) {
        change := FullImage(ps.before, f.page.body);
        FullImageEncodes(ps.before, f.page.body, Touch(ps.touched, Known(ps), f.page.body));
        if ps.latestLsn != INVALID_LSN {
          frames := frames[p := f.(page := Page(f.page.body, ps.latestLsn), pending := false, pageLsn := ps.latestLsn,
                                   recLsn := if f.recLsn == INVALID_LSN then ps.latestLsn else f.recLsn)];
        } else {
          frames := frames[p := f.(pending := false, dirty := f.recLsn != INVALID_LSN)];
        }
      } else {
        var touched := Touch(ps.touched, Known(ps), f.page.body);
        TouchSome(ps.touched, Known(ps), f.page.body);
        var chosen := ChooseChange(updateMode, ps.before, f.page.body, touched);
        change := chosen;
        var begin, last := c.begin, c.last;
        if begin == INVALID_LSN {
          begin, last := |log|, |log|;
          log := log + [Begin(t)];
        }
        var lsn := |log|;
        log := log + [Update(t, last, p, chosen)];
        contexts := contexts[t := Context(begin, lsn,
                                          c.pages[p := PageState(ps.before, Some(f.page.body), touched, lsn)])];
        frames := frames[p := f.(page := Page(f.page.body, lsn), pending := false, pageLsn := lsn,
                                 recLsn := if f.recLsn == INVALID_LSN then lsn else f.recLsn)];
      }
      assert Now() == PrepareStep(s, t, p, change);
      PrepareIs(s, t, p, change);
      StepKeeps(init, s, Prepare(t, p, change));
      Then(s, Prepare(t, p, change));
    }

    /** Log the final state of every resident page of the transaction. */
    method PrepareStatement(t: TxnId, updateMode: UpdateMode) returns (ghost acts: seq<Action>)
      requires Inv(init, Now()) && mode.Running? && t in contexts
      modifies this`log, this`contexts, this`frames
      ensures Path(old(Now()), acts, Now()) && (forall a :: a in acts ==> a.Prepare?) && Inv(init, Now())
      ensures SameBytes(old(Now()), Now()) && SameClaims(old(Now()), Now()) && t in contexts && Prepared(Now(), t)
      ensures Logged(old(Now()), Now(), t)
    {
      hide Inv, Enabled, Apply, Path, SameBytes, PrepareStep, Logged;
      ghost var s0 := Now();
      acts := [];
      PathEmpty(s0);
      SameBytesRefl(s0);
      LoggedNone(s0, t);
      var rest := contexts[t].pages.Keys;
      while rest != {}
        invariant Path(s0, acts, Now()) && (forall a :: a in acts ==> a.Prepare?) && Inv(init, Now())
        invariant SameBytes(s0, Now()) && SameClaims(s0, Now()) && t in contexts && rest <= contexts[t].pages.Keys
        invariant Logged(s0, Now(), t)
        invariant forall p :: p in contexts[t].pages && p in frames && p !in rest ==> !frames[p].pending
        decreases |rest|
      {
        var p :| p in rest;
        if p in frames && frames[p].dirty {
          ghost var s := Now();
          ghost var change := PreparePage(t, p, updateMode);
          PrepareEffect(s, t, p, change);
          LoggedNext(s0, s, t, p, change);
          SameBytesTrans(s0, s, Now());
          PathJoins(s0, acts, s, [Prepare(t, p, change)], Now());
          acts := acts + [Prepare(t, p, change)];
        } else if p in frames {
          RunningFrame(init, Now(), p);
        }
        rest := rest - {p};
      }
    }

    /** Commit: log what is not logged yet, log COMMIT, force. From here on the pages of the
        transaction read, for every later run with any crashes, as it left them. */
    method CommitStatement(t: TxnId, updateMode: UpdateMode) returns (ghost acts: seq<Action>)
      requires Inv(init, Now()) && mode.Running? && t in contexts
      modifies this`log, this`durable, this`contexts, this`frames
      ensures Path(old(Now()), acts, Now()) && Inv(init, Now())
      ensures contexts.Keys == old(contexts).Keys - {t} && disk.Keys == init.Keys
      ensures forall p :: p in init ==>
                CommittedDb(init, log)[p]
                == if p in old(contexts)[t].pages then old(View(Now(), p)) else CommittedDb(init, old(log))[p]
    {
      hide Inv, Enabled, Apply, Path, SameBytes, View, CommittedDb, Prepared;
      ghost var s0 := Now();
      DiskPages(init, s0);
      ghost var first := PrepareStatement(t, updateMode);
      ghost var s1 := Now();
      if contexts[t].begin != INVALID_LSN {
        log := log + [Commit(t, contexts[t].last)];
        durable := |log|;
      }
      contexts := contexts - {t};
      CommitIs(s1, t);
      assert Now() == Committing(s1, t);
      StepKeeps(init, s1, CommitTxn(t));
      PathThen(s0, first, s1, CommitTxn(t));
      acts := first + [CommitTxn(t)];
      CommitTells(init, s0, first, s1, t);
    }

    /** Rollback: log the final states, force, drop the frames of every page the transaction asked to
        write, compensate its updates newest first, log ABORT. Nothing it did is published. The pages it only
        meant to write read as published afterwards, and the engine is back in a state all later guarantees
        rest on, exactly when the condition held before the call. */
    method RollbackStatement(t: TxnId, updateMode: UpdateMode) returns (ghost acts: seq<Action>)
      requires Inv(init, Now()) && mode.Running? && t in contexts
      modifies this`log, this`durable, this`disk, this`images, this`contexts, this`frames, this`mode
      ensures Path(old(Now()), acts, Now()) && mode.Running? && contexts.Keys == old(contexts).Keys - {t}
      ensures CommittedDb(init, log) == CommittedDb(init, old(log))
      ensures old(RollbackLosesNothing(Now(), t)) <==>
                forall p :: OnlyMeant(old(Now()), t, p) ==> ReadsAsPublished(init, Now(), p)
      ensures old(RollbackLosesNothing(Now(), t)) <==> Inv(init, Now())
    {
      hide Inv, Enabled, Apply, Path, SameBytes, CommittedDb, Prepared, RollbackKeepsPages, RollbackLosesNothing,
           OnlyMeant, MeantToWrite, Logged, LogsNothing, ReadsAsPublished, UndoCore, RestCore, TxnsAt;
      ghost var s0 := Now();
      ghost var first := PrepareStatement(t, updateMode);
      ghost var prepared := Now();
      NoCommitPath(init, s0, first, prepared);
      LoggedAll(init, s0, prepared, t);
      StartRollbackIs(prepared, t);
      RunningTxn(init, prepared, t);
      PathThen(s0, first, prepared, StartRollback(t));
      if contexts[t].begin == INVALID_LSN {
        contexts := contexts - {t};
        acts := first + [StartRollback(t)];
        RollbackOfNothing(init, prepared, t, Now());
      } else {
        DroppedCore(init, prepared, t);
        var last := contexts[t].last;
        ForceLog();
        frames := frames - contexts[t].pages.Keys;
        mode := RollingBack(t, INVALID_LSN);
        ghost var s2 := Now();
        assert s2 == Dropped(prepared, t);
        LoserAlone(prepared, s2, t, last);
        ghost var undo := UndoTransactions(map[t := last], true);
        RestRunning(init, Now());
        PathJoins(s0, first + [StartRollback(t)], s2, undo, Now());
        acts := first + [StartRollback(t)] + undo;
        RollbackEnds(init, prepared, t, undo, Now());
      }
    }

    // ---- Writing pages back ----

    /** Prepare a dirty page for the transaction that claims it, if one does. */
    method PrepareForWrite(p: PageId, updateMode: UpdateMode) returns (ghost acts: seq<Action>)
      requires Inv(init, Now()) && mode.Running? && p in frames && frames[p].dirty
      modifies this`log, this`contexts, this`frames
      ensures Path(old(Now()), acts, Now()) && Inv(init, Now())
      ensures SameBytes(old(Now()), Now()) && SameClaims(old(Now()), Now()) && p in frames && !frames[p].pending
      ensures forall q :: q in old(frames) && q != p ==> q in frames && frames[q] == old(frames)[q]
    {
      hide Inv, Enabled, Apply, Path, PrepareStep;
      ghost var s := Now();
      RunningFrame(init, s, p);
      acts := [];
      PathEmpty(s);
      var owners := set t | t in contexts && p in contexts[t].pages;
      if owners != {} {
        var t :| t in owners;
        ghost var change := PreparePage(t, p, updateMode);
        PrepareEffect(s, t, p, change);
        acts := [Prepare(t, p, change)];
      } else {
        NotOwned(s, p);
      }
    }

    /** Write one dirty page back: prepare it, force the log up to its newest record, write. */
    method WriteDirty(p: PageId, updateMode: UpdateMode) returns (ghost acts: seq<Action>)
      requires Inv(init, Now()) && mode.Running? && p in frames && frames[p].dirty
      modifies this`log, this`durable, this`contexts, this`frames, this`disk, this`images
      ensures Path(old(Now()), acts, Now()) && Inv(init, Now())
      ensures SameBytes(old(Now()), Now()) && SameClaims(old(Now()), Now()) && p in frames && p in disk
      ensures !frames[p].dirty && disk[p] == frames[p].page && disk[p].lsn < durable
    {
      hide Inv, Enabled, Apply, Path, SameBytes;
      ghost var s0 := Now();
      acts := PrepareForWrite(p, updateMode);
      ghost var s1 := Now();
      RunningFrame(init, s1, p);
      DiskPages(init, s1);
      if durable <= frames[p].pageLsn {
        ForceLog();
        ForceIs(s1);
        StepKeeps(init, s1, Force);
        PathThen(s0, acts, s1, Force);
        acts := acts + [Force];
      }
      ghost var s2 := Now();
      WriteFrame(p);
      StepKeeps(init, s2, WriteBack(p));
      PathThen(s0, acts, s2, WriteBack(p));
      acts := acts + [WriteBack(p)];
      WrittenBytes(s2, p);
      SameForced(s1, s2);
      SameBytesTrans(s0, s1, s2);
      SameBytesTrans(s0, s2, Now());
      DiskStamp(init, Now(), p);
    }

    /** flushPage: false for a page that is not resident, else the page is on disk as its frame holds it. */
    method FlushPage(p: PageId, updateMode: UpdateMode) returns (resident: bool, ghost acts: seq<Action>)
      requires Inv(init, Now()) && mode.Running?
      modifies this`log, this`durable, this`contexts, this`frames, this`disk, this`images
      ensures Path(old(Now()), acts, Now()) && Inv(init, Now()) && SameBytes(old(Now()), Now())
      ensures resident <==> p in old(frames)
      ensures resident ==> p in frames && p in disk && !frames[p].dirty
      ensures resident ==> disk[p].body == frames[p].page.body && disk[p].lsn < durable
      ensures !resident || !old(frames)[p].dirty ==> acts == []
    {
      hide Inv, Enabled, Apply, Path, SameBytes;
      acts := [];
      PathEmpty(Now());
      SameBytesRefl(Now());
      resident := p in frames;
      if resident {
        if frames[p].dirty {
          acts := WriteDirty(p, updateMode);
        } else {
          CleanOnDisk(init, Now(), p);
        }
      }
    }

    /** Change a page, log the change, force the log up to that record, and write the page. */
    method WriteThrough(t: TxnId, p: PageId, body: Body, updateMode: UpdateMode)
      returns (ok: bool, ghost acts: seq<Action>)
      requires Inv(init, Now()) && mode.Running? && t in contexts && p in disk && p !in frames
      modifies this`log, this`durable, this`contexts, this`frames, this`disk, this`images
      ensures Path(old(Now()), acts, Now()) && Inv(init, Now()) && disk.Keys == old(disk).Keys
      ensures ok <==> old(Claimable(Now(), t, p))
      ensures frames.Keys == old(frames).Keys + {p} && !frames[p].dirty
      ensures ok ==> disk[p].body == body && disk[p].lsn < durable && t in contexts && p in contexts[t].pages
      ensures forall q :: q in disk && (q != p || !ok) ==> View(Now(), q) == old(View(Now(), q))
    {
      hide Inv, Enabled, Apply, Path, Claimable, View, SameBytes;
      ghost var s0 := Now();
      ok, acts := ModifyPage(t, p, body, false);
      if ok {
        ghost var s1 := Now();
        ghost var writes := WriteDirty(p, updateMode);
        PathJoins(s0, acts, s1, writes, Now());
        acts := acts + writes;
        WrittenThrough(s1, Now(), p, body);
      }
    }

    /** persist of the database header, whose page never stays in the pool: it is read, its change logged and
        forced, and only then is it written. */
    method PersistHeader(t: TxnId, p: PageId, header: Body, updateMode: UpdateMode)
      returns (ok: bool, ghost acts: seq<Action>)
      requires Inv(init, Now()) && mode.Running? && t in contexts && p in disk && p !in frames
      modifies this`log, this`durable, this`contexts, this`frames, this`disk, this`images
      ensures Path(old(Now()), acts, Now()) && Inv(init, Now()) && frames.Keys == old(frames).Keys
      ensures ok <==> old(Claimable(Now(), t, p))
      ensures disk.Keys == old(disk).Keys
      ensures ok ==> disk[p].body == header && disk[p].lsn < durable && t in contexts && p in contexts[t].pages
      ensures forall q :: q in disk && (q != p || !ok) ==> View(Now(), q) == old(View(Now(), q))
    {
      hide Inv, Enabled, Apply, Path, Claimable;
      ghost var s0 := Now();
      ok, acts := WriteThrough(t, p, header, updateMode);
      ghost var s2 := Now();
      CleanOnDisk(init, s2, p);
      frames := frames - {p};
      DropIs(s2, p);
      StepKeeps(init, s2, Drop(p));
      PathThen(s0, acts, s2, Drop(p));
      acts := acts + [Drop(p)];
    }

    method WriteFrame(p: PageId)
      requires mode.Running? && p in frames && !frames[p].pending && frames[p].pageLsn < durable
      modifies this`frames, this`disk, this`images
      ensures Enabled(old(Now()), WriteBack(p)) && Now() == Written(old(Now()), p)
      ensures Apply(old(Now()), WriteBack(p)) == Now()
    {
      hide Enabled, Apply;
      WriteBackIs(Now(), p);
      var f := frames[p];
      WritePage(p, f.page);
      frames := frames[p := f.(dirty := false, recLsn := INVALID_LSN)];
    }

    /** Write every dirty page back. All are prepared first, then one force up to the greatest page LSN
        covers every write that follows. */
    method FlushAll(updateMode: UpdateMode) returns (ghost acts: seq<Action>)
      requires Inv(init, Now()) && mode.Running?
      modifies this`log, this`durable, this`contexts, this`frames, this`disk, this`images
      ensures Path(old(Now()), acts, Now()) && Inv(init, Now()) && SameBytes(old(Now()), Now())
      ensures forall p :: p in frames ==> !frames[p].dirty
      ensures forall p :: p in disk ==> p in images && images[p] == {disk[p]}
    {
      hide Inv, Enabled, Apply, Path, SameBytes, View;
      ghost var s0 := Now();
      ghost var prepares := PrepareAll(updateMode);
      ghost var s1 := Now();
      ghost var forces := ForceGreatest();
      ghost var s2 := Now();
      ghost var writes := WriteAll();
      ghost var s3 := Now();
      SyncPages();
      SyncIs(s3);
      SameSynced(s3);
      StepKeeps(init, s3, Sync);
      PathJoins(s0, prepares, s1, forces, s2);
      PathJoins(s0, prepares + forces, s2, writes, s3);
      PathThen(s0, prepares + forces + writes, s3, Sync);
      acts := prepares + forces + writes + [Sync];
      SameBytesTrans(s0, s1, s2);
      SameBytesTrans(s0, s2, s3);
      SameBytesTrans(s0, s3, Now());
    }

    /** One force, up to the greatest page LSN of a dirty frame, if that is not forced yet. */
    method ForceGreatest() returns (ghost acts: seq<Action>)
      requires Inv(init, Now()) && mode.Running?
      modifies this`durable
      ensures Path(old(Now()), acts, Now()) && Inv(init, Now()) && SameBytes(old(Now()), Now())
      ensures forall p :: p in frames && frames[p].dirty ==> frames[p].pageLsn < durable
    {
      hide Inv, Enabled, Apply, Path, SameBytes;
      ghost var s := Now();
      acts := [];
      PathEmpty(s);
      var most := MaximumPageLsn();
      if durable <= most {
        forall p | p in frames ensures frames[p].pageLsn < |log| {
          RunningFrame(init, s, p);
        }
        ForceLog();
        ForceIs(s);
        StepKeeps(init, s, Force);
        Then(s, Force);
        acts := [Force];
      }
      SameForced(s, Now());
    }

    method PrepareAll(updateMode: UpdateMode) returns (ghost acts: seq<Action>)
      requires Inv(init, Now()) && mode.Running?
      modifies this`log, this`contexts, this`frames
      ensures Path(old(Now()), acts, Now()) && Inv(init, Now()) && SameBytes(old(Now()), Now())
      ensures forall p :: p in frames ==> !frames[p].pending
    {
      hide Inv, Enabled, Apply, Path, SameBytes;
      ghost var s0 := Now();
      acts := [];
      PathEmpty(s0);
      SameBytesRefl(s0);
      var rest := frames.Keys;
      while rest != {}
        invariant Path(s0, acts, Now()) && Inv(init, Now()) && SameBytes(s0, Now()) && rest <= frames.Keys
        invariant forall p :: p in frames && p !in rest ==> !frames[p].pending
        decreases |rest|
      {
        var p :| p in rest;
        ghost var s := Now();
        if frames[p].dirty {
          ghost var steps := PrepareForWrite(p, updateMode);
          SameFrames(s, Now());
          SameBytesTrans(s0, s, Now());
          PathJoins(s0, acts, s, steps, Now());
          acts := acts + steps;
        } else {
          RunningFrame(init, s, p);
        }
        rest := rest - {p};
      }
    }

    method MaximumPageLsn() returns (most: Lsn)
      ensures forall p :: p in frames && frames[p].dirty ==> frames[p].pageLsn <= most
      ensures most == INVALID_LSN || exists p :: p in frames && frames[p].dirty && frames[p].pageLsn == most
    {
      most := INVALID_LSN;
      var rest := frames.Keys;
      while rest != {}
        invariant rest <= frames.Keys
        invariant forall p :: p in frames && frames[p].dirty && p !in rest ==> frames[p].pageLsn <= most
        invariant most == INVALID_LSN || exists p :: p in frames && frames[p].dirty && frames[p].pageLsn == most
        decreases |rest|
      {
        var p :| p in rest;
        if frames[p].dirty && most < frames[p].pageLsn {
          most := frames[p].pageLsn;
        }
        rest := rest - {p};
      }
    }

    method WriteAll() returns (ghost acts: seq<Action>)
      requires Inv(init, Now()) && mode.Running?
      requires forall p :: p in frames ==> !frames[p].pending && (frames[p].dirty ==> frames[p].pageLsn < durable)
      modifies this`frames, this`disk, this`images
      ensures Path(old(Now()), acts, Now()) && Inv(init, Now()) && SameBytes(old(Now()), Now())
      ensures forall p :: p in frames ==> !frames[p].dirty
    {
      hide Inv, Enabled, Apply, Path, SameBytes;
      ghost var s0 := Now();
      acts := [];
      PathEmpty(s0);
      SameBytesRefl(s0);
      var rest := frames.Keys;
      while rest != {}
        invariant Path(s0, acts, Now()) && Inv(init, Now()) && SameBytes(s0, Now()) && rest <= frames.Keys
        invariant forall p :: p in frames ==> !frames[p].pending && (frames[p].dirty ==> frames[p].pageLsn < durable)
        invariant forall p :: p in frames && p !in rest ==> !frames[p].dirty
        decreases |rest|
      {
        var p :| p in rest;
        if frames[p].dirty {
          ghost var s := Now();
          RunningFrame(init, s, p);
          DiskPages(init, s);
          WriteFrame(p);
          WrittenBytes(s, p);
          StepKeeps(init, s, WriteBack(p));
          SameBytesTrans(s0, s, Now());
          PathThen(s0, acts, s, WriteBack(p));
          acts := acts + [WriteBack(p)];
        }
        rest := rest - {p};
      }
    }

    // ---- Checkpoints ----

    /** Sync, log BEGIN and END with both tables, force, publish. */
    method PublishCheckpoint() returns (ghost acts: seq<Action>)
      requires Inv(init, Now()) && mode.Running? && Quiescent(Now())
      modifies this`log, this`durable, this`images, this`slot
      ensures Path(old(Now()), acts, Now()) && Inv(init, Now()) && CommittedDb(init, log) == CommittedDb(init, old(log))
      ensures |log| > 1 && CheckpointAt(log, slot) && slot == |log| - 1
    {
      hide Inv, Enabled, Apply, Path, CommittedDb, CheckpointRecord, Quiescent;
      ghost var s0 := Now();
      DiskPages(init, s0);
      CheckpointPath(s0);
      SyncPages();
      log := log + [CheckpointBegin];
      ghost var s2 := Now();
      var dirtyPages := map p | p in frames && frames[p].dirty :: frames[p].recLsn;
      var active := map t | t in contexts && contexts[t].begin != INVALID_LSN ::
                      Attached(contexts[t].begin, contexts[t].last);
      var end := CheckpointEnd(|log| - 1, dirtyPages, active, nextTid);
      CheckpointRecordIs(s2, end);
      log := log + [end];
      durable := |log|;
      slot := |log| - 1;
      acts := [Sync, BeginCheckpoint, EndCheckpoint(true)];
      NoCommitPath(init, s0, acts, Now());
    }

    /** A fuzzy checkpoint at a statement boundary: publish it, then give up the log below its floor.
        Recovery from any later crash starts at or above it. */
    method FuzzyCheckpoint() returns (ghost acts: seq<Action>)
      requires Inv(init, Now()) && mode.Running? && Quiescent(Now())
      modifies this`log, this`durable, this`images, this`slot, this`base
      ensures Path(old(Now()), acts, Now()) && Inv(init, Now()) && CommittedDb(init, log) == CommittedDb(init, old(log))
      ensures CheckpointAt(log, slot) && slot == |log| - 1 && ScanStart(log, slot, base) && old(base) <= base
    {
      hide Inv, Enabled, Apply, Path, CommittedDb, Retains, ScanStart, Quiescent, LogOk, LogInv;
      ghost var s0 := Now();
      acts := PublishCheckpoint();
      ghost var s := Now();
      InvBounds(init, s);
      var floor := FindScanStart(log, slot);
      FloorRetained(s, floor);
      base := floor;
      ReclaimIs(s, floor);
      StepKeeps(init, s, Reclaim(floor));
      PathThen(s0, acts, s, Reclaim(floor));
      acts := acts + [Reclaim(floor)];
    }
  }
}
