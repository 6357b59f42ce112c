/** The steps of the engine as plain state changes, and the paths its methods take through them. */
module EngineSteps {
  import opened Options
  import opened WalLog
  import opened LogTheory
  import opened CrashModel
  import opened CrashInvariant
  import opened CrashRollback
  import opened CrashRuns
  import opened UndoProtocol
  import opened Analysis

  // ---- The steps as plain state changes ----

  function Forced(s: State): (r: State) {
    s.(durable := |s.log|)
  }

  function Synced(s: State): (r: State) {
    s.(images := map p | p in s.disk :: {s.disk[p]})
  }

  function ClrLogged(s: State, t: TxnId): (r: State)
    requires Enabled(s, AppendClr(t))
    ensures r.log != [] && r.log[|r.log| - 1].Clr? && (r.mode.RollingBack? || r.mode.Undoing?)
  {
    s.(log := s.log + [NextClr(s, t)], mode := s.mode.(clr := |s.log|))
  }

  function ClrPut(s: State): (res: State)
    requires s.log != [] && s.log[|s.log| - 1].Clr? && (s.mode.RollingBack? || s.mode.Undoing?)
  {
    var r := s.log[|s.log| - 1];
    PutPage(s, r.page, Page(r.image, |s.log| - 1)).(mode := s.mode.(clr := INVALID_LSN))
  }

  lemma ForceIs(s: State)
    requires !s.mode.Down?
    ensures Enabled(s, Force) && Apply(s, Force) == Forced(s)
  {
  }

  lemma SyncIs(s: State)
    requires !s.mode.Down?
    ensures Enabled(s, Sync) && Apply(s, Sync) == Synced(s)
  {
  }

  lemma AppendClrIs(s: State, t: TxnId)
    requires Enabled(s, AppendClr(t))
    ensures Apply(s, AppendClr(t)) == ClrLogged(s, t) && (s.mode.RollingBack? || s.mode.Undoing?)
  {
    hide TxnsAt, Undone, UndoBase;
  }

  lemma PutClrIs(s: State)
    requires (s.mode.RollingBack? || s.mode.Undoing?) && s.mode.clr == |s.log| - 1 && s.durable == |s.log| > 0
    requires s.log[|s.log| - 1].Clr?
    ensures Enabled(s, PutClr) && Apply(s, PutClr) == ClrPut(s)
  {
  }

  /** The states between the four steps of one compensation. */
  lemma CompensateSteps(s: State, t: TxnId)
    requires Enabled(s, AppendClr(t)) && s.mode.clr == INVALID_LSN
    ensures NextClr(s, t).Clr? && (s.mode.RollingBack? || s.mode.Undoing?)
    ensures var s1 := ClrLogged(s, t); Apply(s, AppendClr(t)) == s1 && !s1.mode.Down?
    ensures var s1 := ClrLogged(s, t); Enabled(s1, Force) && Apply(s1, Force) == Forced(s1)
    ensures var s2 := Forced(ClrLogged(s, t)); Enabled(s2, PutClr) && Apply(s2, PutClr) == ClrPut(s2)
    ensures var s3 := ClrPut(Forced(ClrLogged(s, t))); Enabled(s3, Sync) && Apply(s3, Sync) == Synced(s3)
    ensures Synced(ClrPut(Forced(ClrLogged(s, t)))).mode == s.mode
  {
    hide Enabled, Apply, TxnsAt, Undone, UndoBase;
    AppendClrIs(s, t);
    assert NextClr(s, t).Clr?;
    hide NextClr;
    var s1 := ClrLogged(s, t);
    ForceIs(s1);
    PutClrIs(Forced(s1));
    SyncIs(ClrPut(Forced(s1)));
  }

  lemma CompensatePath(init: Database, s: State, t: TxnId)
    requires UndoCore(init, s) && s.mode.clr == INVALID_LSN && Enabled(s, AppendClr(t))
    ensures NextClr(s, t).Clr? && (s.mode.RollingBack? || s.mode.Undoing?)
    ensures var s' := Synced(ClrPut(Forced(ClrLogged(s, t))));
            && Path(s, [AppendClr(t), Force, PutClr, Sync], s')
            && UndoCore(init, s') && s'.mode == s.mode && ClrAppended(s, t, s')
  {
    hide Enabled, Apply, TxnsAt, Path, UndoCore, NextClr, ClrLogged, ClrPut, Synced, ClrAppended;
    CompensateSteps(s, t);
    var s1 := ClrLogged(s, t);
    var s2 := Forced(s1);
    var s3 := ClrPut(s2);
    CoreClr(init, s, t);
    CoreForce(init, s1);
    CorePut(init, s2);
    CoreSync(init, s3);
    SameLog(s, t, s1);
    Then(s, AppendClr(t));
    PathThen(s, [AppendClr(t)], s1, Force);
    PathThen(s, [AppendClr(t)] + [Force], s2, PutClr);
    PathThen(s, [AppendClr(t)] + [Force] + [PutClr], s3, Sync);
    assert [AppendClr(t), Force, PutClr, Sync] == [AppendClr(t)] + [Force] + [PutClr] + [Sync];
  }

  lemma SameLog(s: State, t: TxnId, s1: State)
    requires s1.log != [] && s1.log[|s1.log| - 1].Clr? && (s1.mode.RollingBack? || s1.mode.Undoing?)
    requires ClrAppended(s, t, s1)
    ensures ClrAppended(s, t, Synced(ClrPut(Forced(s1))))
  {
    hide TxnsAt;
  }

  // ---- Finishing a loser ----

  function AbortLogged(s: State, t: TxnId, last: Lsn): (r: State) {
    var s' := s.(log := s.log + [Abort(t, last)], durable := |s.log| + 1);
    if s.mode.RollingBack? then s'.(contexts := s.contexts - {t}, mode := Running) else s'
  }

  lemma FinishAbortIs(s: State, t: TxnId)
    requires Enabled(s, FinishAbort(t))
    ensures t in Txns(s) && !s.mode.Down?
    ensures Enabled(Synced(s), FinishAbort(t))
    ensures Apply(Synced(s), FinishAbort(t)) == AbortLogged(Synced(s), t, Txns(s)[t].last)
  {
    hide TxnsAt;
  }

  /** Sync the pages, then log and force the ABORT. */
  lemma AbortPath(init: Database, s: State, t: TxnId)
    requires UndoCore(init, s) && Enabled(s, FinishAbort(t))
    ensures t in Txns(s)
    ensures var s' := AbortLogged(Synced(s), t, Txns(s)[t].last);
            && Path(s, [Sync, FinishAbort(t)], s')
            && (if s.mode.RollingBack? then RestCore(init, s') else UndoCore(init, s') && s'.mode == s.mode)
            && AbortAppended(s.log, t, s'.log)
  {
    hide Enabled, Apply, TxnsAt, Path, LogInv, ImagesInv, ContextsInv, FramesInv, RetentionInv, UndoInv, RollbackInv;
    FinishAbortIs(s, t);
    SyncIs(s);
    var s1 := Synced(s);
    CoreSync(init, s);
    CoreAbort(init, s1, t);
    Then(s, Sync);
    PathThen(s, [Sync], s1, FinishAbort(t));
    assert [Sync, FinishAbort(t)] == [Sync] + [FinishAbort(t)];
  }

  predicate AbortAppended(log: Log, t: TxnId, log': Log) {
    && |log'| == |log| + 1 && log'[..|log|] == log && t in TxnsAt(log, |log|)
    && TxnsAt(log', |log'|)
       == TxnsAt(log, |log|)[t := TxnsAt(log, |log|)[t].(status := Aborted, last := |log|, undoNext := INVALID_LSN)]
  }

  // ---- The queue ----

  /** One queued position for every unfinished transaction, or for the one being rolled back. */
  ghost predicate Queue(log: Log, work: map<TxnId, nat>, last: map<TxnId, Lsn>, only: Option<TxnId>) {
    && (forall t :: t in work <==> Live(TxnsAt(log, |log|), t) && (only.Some? ==> t == only.value))
    && (forall t :: t in work ==> QueuedAt(log, t, work[t]) && t in last && last[t] == TxnsAt(log, |log|)[t].last)
  }

  predicate QueuedAt(log: Log, t: TxnId, position: nat) {
    && t in TxnsAt(log, |log|) && position < |log| && OfTxn(log[position], t)
    && Resolve(log, position) == TxnsAt(log, |log|)[t].undoNext
  }

  /** The last records of the transactions to undo. */
  ghost predicate Losers(s: State, last: map<TxnId, Lsn>) {
    && (forall t :: t in last <==> Live(Txns(s), t) && (s.mode.RollingBack? ==> t == s.mode.tid))
    && (forall t :: t in last ==> t in Txns(s) && last[t] == Txns(s)[t].last && 0 <= last[t] < |s.log|)
  }

  lemma QueueStart(init: Database, s: State, last: map<TxnId, Lsn>, only: Option<TxnId>)
    requires UndoCore(init, s) && Losers(s, last) && only == if s.mode.RollingBack? then Some(s.mode.tid) else None
    ensures forall t :: t in last ==> 0 <= last[t] < |s.log|
    ensures Queue(s.log, map t | t in last :: last[t], last, only)
  {
    hide LogOk, TxnsAt, ImagesInv, ContextsInv, FramesInv, RetentionInv, UndoInv, Retains;
    forall t | t in last ensures QueuedAt(s.log, t, last[t]) {
      LastResolves(init, s.log, t);
    }
  }

  lemma QueueSkip(init: Database, log: Log, work: map<TxnId, nat>, last: map<TxnId, Lsn>, only: Option<TxnId>, t: TxnId)
    requires LogOk(init, log) && Queue(log, work, last, only) && t in work && log[work[t]].Clr?
    ensures 0 <= log[work[t]].undoNext < work[t]
    ensures Queue(log, work[t := log[work[t]].undoNext], last, only)
  {
    hide LogOk, TxnsAt;
    ChainDescends(init, log, t, work[t]);
  }

  lemma QueueClr(init: Database, s: State, s': State, work: map<TxnId, nat>, last: map<TxnId, Lsn>,
                 only: Option<TxnId>, t: TxnId)
    requires LogOk(init, s.log) && Queue(s.log, work, last, only) && t in work && s.log[work[t]].Update?
    requires ClrAppended(s, t, s')
    ensures 0 <= s.log[work[t]].prev < work[t]
    ensures Queue(s'.log, work[t := s.log[work[t]].prev], last[t := |s.log|], only)
  {
    hide LogOk, TxnsAt;
    ChainDescends(init, s.log, t, work[t]);
    assert forall i: nat :: i < |s.log| ==> s'.log[i] == s'.log[..|s.log|][i] == s.log[i];
  }

  lemma QueueAbort(log: Log, log': Log, work: map<TxnId, nat>, last: map<TxnId, Lsn>, only: Option<TxnId>, t: TxnId)
    requires Queue(log, work, last, only) && t in work && AbortAppended(log, t, log')
    ensures Queue(log', work - {t}, last, only)
  {
    hide TxnsAt;
    assert forall i: nat :: i < |log| ==> log'[i] == log'[..|log|][i] == log[i];
  }

  /** Positions of different transactions differ. */
  lemma QueueDistinct(log: Log, work: map<TxnId, nat>, last: map<TxnId, Lsn>, only: Option<TxnId>, t: TxnId)
    requires Queue(log, work, last, only) && t in work
    ensures forall u :: u in work && u != t ==> work[u] != work[t]
  {
    hide TxnsAt;
    forall u | u in work && u != t ensures work[u] != work[t] {
      assert QueuedAt(log, u, work[u]) && QueuedAt(log, t, work[t]);
    }
  }

  lemma QueueOnly(log: Log, work: map<TxnId, nat>, last: map<TxnId, Lsn>, only: Option<TxnId>, t: TxnId)
    requires Queue(log, work, last, only) && only.Some? && t in work
    ensures t == only.value && work - {t} == map[]
  {
    hide TxnsAt;
  }

  ghost predicate NoneLive(log: Log) {
    forall t :: !Live(TxnsAt(log, |log|), t)
  }

  lemma QueueEmpty(log: Log, last: map<TxnId, Lsn>)
    requires Queue(log, map[], last, None)
    ensures NoneLive(log)
  {
    hide TxnsAt;
  }

  /** What the popped record calls for can always be done. */
  lemma QueueNext(init: Database, s: State, work: map<TxnId, nat>, last: map<TxnId, Lsn>, only: Option<TxnId>, t: TxnId)
    requires UndoCore(init, s) && s.mode.clr == INVALID_LSN && Queue(s.log, work, last, only) && t in work
    requires only == if s.mode.RollingBack? then Some(s.mode.tid) else None
    ensures work[t] < |s.log| && t in Txns(s) && t in last && last[t] == Txns(s)[t].last
    ensures s.log[work[t]].Begin? ==> Enabled(s, FinishAbort(t))
    ensures s.log[work[t]].Update? ==> Enabled(s, AppendClr(t)) && NextUndo(s, t) == work[t]
    ensures s.log[work[t]].Begin? || s.log[work[t]].Update? || s.log[work[t]].Clr?
  {
    hide TxnsAt, LogInv, ImagesInv, ContextsInv, FramesInv, RetentionInv, UndoInv, Enabled;
    NextStep(init, s, t, work[t]);
  }

  lemma CoreLog(init: Database, s: State)
    requires UndoCore(init, s)
    ensures LogOk(init, s.log) && !s.mode.Down? && (s.mode.RollingBack? || s.mode.Undoing?)
  {
  }

  // ---- Restart ----

  /** The steps of the undo protocol. */
  predicate OfUndo(a: Action) {
    a.AppendClr? || a.Force? || a.PutClr? || a.Sync? || a.FinishAbort?
  }

  function Redid(s: State, i: nat): (r: State)
    requires i < |s.log|
  {
    RedoOne(s, i).(mode := Redoing(i + 1))
  }

  lemma RedoIs(s: State)
    requires s.mode.Redoing? && s.mode.next < |s.log|
    ensures Enabled(s, RedoNext) && Apply(s, RedoNext) == Redid(s, s.mode.next)
  {
    hide RedoOne;
  }

  /** The source's filters, on the tables analysis rebuilt, do what REDO is specified to do. */
  lemma RedoFilters(init: Database, s: State, from: nat, txns: map<TxnId, Txn>, dpt: map<PageId, Lsn>, i: nat)
    requires LogInv(init, s) && s.disk.Keys == init.Keys && from <= i < |s.log|
    requires Scannable(init, s.log, s.slot, from) && Rebuilt(s.log, s.slot, from, |s.log|, txns, dpt)
    ensures InRedoList(s.log, s.slot, txns, i) <==> Candidate(s.log, s.slot, i)
    ensures InRedoList(s.log, s.slot, txns, i) ==> (s.log[i].Clr? || s.log[i].Update?) && s.log[i].page in s.disk
    ensures InRedoList(s.log, s.slot, txns, i) ==>
              ((s.slot != INVALID_LSN && (s.log[i].page !in dpt || i < dpt[s.log[i].page]))
               <==> i < Bound(s.log, s.slot, s.log[i].page))
  {
    hide HistAt, TxnsAt, Retains, ScanStart, Entered, Candidate, Bound, Followed;
    RedoListExact(init, s.log, s.slot, from, i);
    if InRedoList(s.log, s.slot, txns, i) {
      assert RecordOk(init, s.log, i);
      if s.slot != INVALID_LSN {
        assert Entered(s.log, s.slot, from, |s.log|, dpt, s.log[i].page);
        TableFilters(init, s.log, s.slot, from, dpt, i);
      } else {
        NoBound(s.log, s.log[i].page);
      }
    }
  }

  lemma NoBound(log: Log, p: PageId)
    ensures Bound(log, INVALID_LSN, p) == 0
  {
  }

  lemma ScanOk(init: Database, s: State, from: nat)
    requires LogInv(init, s) && ScanStart(s.log, s.slot, from)
    requires s.slot != INVALID_LSN ==> s.base <= from
    ensures Scannable(init, s.log, s.slot, from) && s.base <= from <= |s.log|
  {
    hide LogOk, TxnsAt;
  }

  /** The losers analysis found are the unfinished transactions, each with its last record. */
  lemma LosersFound(init: Database, s: State, from: nat, txns: map<TxnId, Txn>, dpt: map<PageId, Lsn>,
                    last: map<TxnId, Lsn>)
    requires Scannable(init, s.log, s.slot, from) && Rebuilt(s.log, s.slot, from, |s.log|, txns, dpt)
    requires last == map t | t in txns && Unfinished(txns[t]) :: txns[t].last
    requires s.mode.Undoing?
    ensures Losers(s, last)
  {
    hide LogOk, TxnsAt, Followed, ScanStart, Entered;
    forall t ensures t in last <==> Live(Txns(s), t)
      ensures t in last ==> t in Txns(s) && last[t] == Txns(s)[t].last && 0 <= last[t] < |s.log|
    {
      LosersExact(init, s.log, s.slot, from, t);
      if t in last {
        EntryShape(init, s.log, |s.log|, t);
      }
    }
  }

  function Restarted(s: State, from: nat, next: TxnId): (r: State) {
    s.(durable := |s.log|, nextTid := next, mode := Redoing(from))
  }

  lemma StartRecoveryIs(init: Database, s: State, from: nat)
    requires Inv(init, s) && s.mode.Down? && ScanStart(s.log, s.slot, from) && s.base <= from <= |s.log|
    ensures Enabled(s, StartRecovery(from))
    ensures var known := if CheckpointAt(s.log, s.slot) then s.log[s.slot].nextTid else 1;
            Apply(s, StartRecovery(from)) == Restarted(s, from, Max(known, TailNext(s.log, from)))
  {
    hide Inv, ScanStart, TailNext;
  }

  lemma FinishRedoIs(s: State)
    requires s.mode == Redoing(|s.log|)
    ensures Enabled(s, FinishRedo) && Apply(s, FinishRedo) == s.(mode := Undoing(INVALID_LSN))
  {
  }

  lemma FinishRecoveryIs(s: State)
    requires s.mode == Undoing(INVALID_LSN) && s.durable == |s.log| && NoneLive(s.log)
    ensures Enabled(s, FinishRecovery) && Apply(s, FinishRecovery) == s.(mode := Running)
  {
    hide TxnsAt;
    var txns := TxnsAt(s.log, |s.log|);
    forall t | t in txns ensures !Unfinished(txns[t]) {
      assert !Live(txns, t);
    }
  }

  lemma InvBounds(init: Database, s: State)
    requires Inv(init, s)
    ensures LogInv(init, s) && LogOk(init, s.log) && s.disk.Keys == init.Keys
    ensures s.slot == INVALID_LSN || CheckpointAt(s.log, s.slot)
    ensures s.slot != INVALID_LSN ==> Retains(s.log[s.slot], s.base) && Retains(s.log[s.slot], 0)
    ensures s.slot == INVALID_LSN ==> s.base == 0
  {
    hide LogOk, TxnsAt, ImageOk, ContextsInv, FramesInv, DiskInv, RetentionInv, RollbackInv, RedoInv, UndoInv;
  }

  lemma UndoingCore(init: Database, s: State)
    requires Inv(init, s) && s.mode.Undoing?
    ensures UndoCore(init, s)
  {
    hide LogInv, ImagesInv, UndoInv;
  }

  lemma DownEmpty(init: Database, s: State)
    requires Inv(init, s) && s.mode.Down?
    ensures s.contexts == map[]
  {
    hide LogInv, ImagesInv;
  }
}
