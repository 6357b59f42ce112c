/** The undo protocol shared by restart and live rollback, and the queue that drives it. */
module UndoProtocol {
  import opened WalLog
  import opened LogTheory
  import opened CrashModel
  import opened CrashInvariant
  import opened CrashLemmas
  import opened CrashSteps
  import opened CrashRollback
  import opened CrashRecovery

  /** What UNDO relies on. Unlike the full invariant it says nothing about pages a live rollback
      dropped without compensating them. */
  ghost predicate UndoCore(init: Database, s: State) {
    && LogInv(init, s) && ImagesInv(init, s)
    && match s.mode
       case RollingBack(_, _) => ContextsInv(init, s) && FramesInv(init, s) && RetentionInv(s) && RollbackInv(init, s)
       case Undoing(_) => EmptyInv(s) && UndoInv(init, s)
       case _ => false
  }

  /** The same once a live rollback is over. */
  ghost predicate RestCore(init: Database, s: State) {
    && LogInv(init, s) && ImagesInv(init, s) && s.mode.Running?
    && ContextsInv(init, s) && FramesInv(init, s) && RetentionInv(s)
  }

  // ---- The steps keep the core ----

  lemma CoreClr(init: Database, s: State, t: TxnId)
    requires UndoCore(init, s) && Enabled(s, AppendClr(t))
    ensures UndoCore(init, Apply(s, AppendClr(t)))
    ensures ClrAppended(s, t, Apply(s, AppendClr(t)))
  {
    CoreBounds(init, s);
    if s.mode.RollingBack? {
      CoreClrRolling(init, s, t);
    } else {
      CoreClrUndoing(init, s, t);
    }
  }

  lemma CoreBounds(init: Database, s: State)
    requires LogInv(init, s) && ImagesInv(init, s)
    ensures LogOk(init, s.log) && s.disk.Keys == init.Keys
  {
  }

  lemma CoreClrRolling(init: Database, s: State, t: TxnId)
    requires UndoCore(init, s) && Enabled(s, AppendClr(t)) && s.mode.RollingBack?
    requires LogOk(init, s.log) && s.disk.Keys == init.Keys
    ensures UndoCore(init, Apply(s, AppendClr(t)))
    ensures ClrAppended(s, t, Apply(s, AppendClr(t)))
  {
    hide LogOk, LogInv, ImagesInv, ContextsInv, FramesInv, RetentionInv;
    hide NextClr, UndoBase, Undone, TxnsAt, Plausible, RecordOk;
    RollingBase(init, s, t);
    ClrSound(init, s, t);
    ClrLog(init, s, t);
    RollingClrContexts(init, s, t);
    RollingClrFrames(init, s, t);
    RollingClrRest(init, s, t);
    ClrEntry(init, s, t);
  }

  lemma CoreClrUndoing(init: Database, s: State, t: TxnId)
    requires UndoCore(init, s) && Enabled(s, AppendClr(t)) && s.mode.Undoing?
    requires LogOk(init, s.log) && s.disk.Keys == init.Keys
    ensures UndoCore(init, Apply(s, AppendClr(t)))
    ensures ClrAppended(s, t, Apply(s, AppendClr(t)))
  {
    hide LogOk, LogInv, ImagesInv, TxnsAt, Plausible, RecordOk, Undone;
    var r := NextClr(s, t);
    assert Plausible(init, s.log, |s.log|, r.page, UndoBase(s, t, r.page));
    ClrSound(init, s, t);
    ClrLog(init, s, t);
    UndoingClrPages(init, s, t);
    ClrEntry(init, s, t);
  }

  /** One compensation more, and the transaction's entry says so. */
  predicate ClrAppended(s: State, t: TxnId, s': State) {
    && Live(Txns(s), t) && 0 <= Txns(s)[t].undoNext < |s.log| && s.log[Txns(s)[t].undoNext].Update?
    && |s'.log| == |s.log| + 1 && s'.log[..|s.log|] == s.log
    && Txns(s') == Txns(s)[t := Txns(s)[t].(status := Aborting, last := |s.log|,
                                           undoNext := s.log[Txns(s)[t].undoNext].prev)]
  }

  lemma ClrEntry(init: Database, s: State, t: TxnId)
    requires LogOk(init, s.log) && Enabled(s, AppendClr(t)) && NextClr(s, t).page in init
    requires RecordOk(init, s.log + [NextClr(s, t)], |s.log|)
    ensures ClrAppended(s, t, Apply(s, AppendClr(t)))
  {
    hide LogOk, TxnsAt, RecordOk, Undone, UndoBase, HistAt;
    ClrEffect(init, s, t);
  }

  lemma CoreForce(init: Database, s: State)
    requires UndoCore(init, s)
    ensures UndoCore(init, Apply(s, Force))
  {
    hide LogInv, ImagesInv, ContextsInv, FramesInv, RetentionInv, UndoInv, RollbackInv;
    var s' := Apply(s, Force);
    CoreForceLog(init, s);
    if s.mode.RollingBack? {
      ContextsSame(init, s, s');
      FramesSame(init, s, s');
      RetentionSame(s, s');
    }
    CoreModes(init, s, s');
  }

  lemma CoreForceLog(init: Database, s: State)
    requires LogInv(init, s) && ImagesInv(init, s) && !s.mode.Down?
    ensures LogInv(init, Apply(s, Force)) && ImagesInv(init, Apply(s, Force))
  {
    hide LogOk, TxnsAt, Retains, ImageOk;
    ImagesGrow(init, s, s.log, |s.log|);
  }

  /** Where UNDO stands does not depend on what is forced or synced. */
  lemma CoreModes(init: Database, s: State, s': State)
    requires s'.log == s.log && s'.mode == s.mode && s'.contexts == s.contexts && s'.frames == s.frames
    requires s'.disk == s.disk
    ensures s.mode.RollingBack? && RollbackInv(init, s) ==> RollbackInv(init, s')
    ensures s.mode.Undoing? && UndoInv(init, s) ==> UndoInv(init, s')
  {
    hide Plausible;
  }

  lemma CoreSync(init: Database, s: State)
    requires UndoCore(init, s)
    ensures UndoCore(init, Apply(s, Sync))
  {
    hide LogInv, ImagesInv, ContextsInv, FramesInv, RetentionInv, UndoInv, RollbackInv;
    var s' := Apply(s, Sync);
    LogSame(init, s, s');
    CoreSyncImages(init, s);
    if s.mode.RollingBack? {
      ContextsSame(init, s, s');
      FramesSame(init, s, s');
      RetentionSame(s, s');
    }
    CoreModes(init, s, s');
  }

  lemma CoreSyncImages(init: Database, s: State)
    requires ImagesInv(init, s) && !s.mode.Down?
    ensures ImagesInv(init, Apply(s, Sync))
  {
    hide ImageOk;
    assert Apply(s, Sync).images.Keys == s.disk.Keys;
  }

  lemma CorePut(init: Database, s: State)
    requires UndoCore(init, s) && Enabled(s, PutClr)
    ensures UndoCore(init, Apply(s, PutClr))
  {
    hide LogInv, ImagesInv, ContextsInv, FramesInv, RetentionInv, UndoInv;
    var s' := Apply(s, PutClr);
    LogSame(init, s, s');
    if s.mode.RollingBack? {
      PutClrImages(init, s);
      ContextsSame(init, s, s');
      FramesSame(init, s, s');
      RetentionSame(s, s');
    } else {
      ClrShape(init, s);
      PutClrImages(init, s);
      UndoingPutPages(init, s);
    }
  }

  lemma CoreAbort(init: Database, s: State, t: TxnId)
    requires UndoCore(init, s) && Enabled(s, FinishAbort(t))
    ensures var s' := Apply(s, FinishAbort(t));
            && (s.mode.RollingBack? ==> RestCore(init, s'))
            && (s.mode.Undoing? ==> UndoCore(init, s'))
            && t in Txns(s) && |s'.log| == |s.log| + 1 && s'.log[..|s.log|] == s.log
            && Txns(s') == Txns(s)[t := Txns(s)[t].(status := Aborted, last := |s.log|, undoNext := INVALID_LSN)]
  {
    hide LogInv, ImagesInv, ContextsInv, FramesInv, RetentionInv, UndoInv, TxnsAt;
    AbortLog(init, s, t);
    AbortEntry(init, s, t);
    if s.mode.RollingBack? {
      RollingAbortContexts(init, s, t);
      RollingAbortFrames(init, s, t);
      RollingAbortRetention(init, s, t);
    } else {
      UndoingAbortPages(init, s, t);
    }
  }

  lemma AbortEntry(init: Database, s: State, t: TxnId)
    requires LogInv(init, s) && Enabled(s, FinishAbort(t))
    ensures var s' := Apply(s, FinishAbort(t));
            && t in Txns(s) && |s'.log| == |s.log| + 1 && s'.log[..|s.log|] == s.log
            && Txns(s') == Txns(s)[t := Txns(s)[t].(status := Aborted, last := |s.log|, undoNext := INVALID_LSN)]
  {
    hide LogOk, TxnsAt, RecordOk, HistAt, Retains;
    AbortEffect(init, s, t);
  }

  // ---- The queue ----

  /** A queue position stands for the next undo of its transaction: itself, or what the
      compensation at that position points to. */
  function Resolve(log: Log, position: nat): (r: Lsn)
    requires position < |log|
  {
    if log[position].Clr? then log[position].undoNext else position
  }

  lemma {:induction false} AbortingShape(init: Database, log: Log, n: nat, t: TxnId)
    requires LogOk(init, log) && n <= |log| && t in TxnsAt(log, n) && TxnsAt(log, n)[t].status.Aborting?
    ensures var e := TxnsAt(log, n)[t]; 0 <= e.last < n && log[e.last].Clr? && log[e.last].undoNext == e.undoNext
  {
    assert RecordOk(init, log, n - 1);
    if !OfTxn(log[n - 1], t) {
      AbortingShape(init, log, n - 1, t);
    }
  }

  /** The last record of an unfinished transaction resolves to its next undo. */
  lemma LastResolves(init: Database, log: Log, t: TxnId)
    requires LogOk(init, log) && Live(TxnsAt(log, |log|), t)
    ensures var e := TxnsAt(log, |log|)[t];
            0 <= e.last < |log| && OfTxn(log[e.last], t) && Resolve(log, e.last) == e.undoNext
  {
    EntryShape(init, log, |log|, t);
    if TxnsAt(log, |log|)[t].status.Aborting? {
      AbortingShape(init, log, |log|, t);
    }
  }

  /** Every record a queued position leads to lies below it. */
  lemma ChainDescends(init: Database, log: Log, t: TxnId, position: nat)
    requires LogOk(init, log) && position < |log| && OfTxn(log[position], t) && Live(TxnsAt(log, |log|), t)
    ensures log[position].Clr? ==> 0 <= log[position].undoNext < position && OfTxn(log[log[position].undoNext], t)
                                   && !log[log[position].undoNext].Clr?
    ensures log[position].Update? ==> 0 <= log[position].prev < position && OfTxn(log[log[position].prev], t)
                                      && !log[log[position].prev].Clr?
  {
    assert RecordOk(init, log, position);
    var u := if log[position].Clr? then log[position].target else position;
    if log[position].Clr? || log[position].Update? {
      assert RecordOk(init, log, u);
      EntryShape(init, log, u, t);
    }
  }

  /** UNDO of a queued transaction can always take its next step. */
  lemma NextStep(init: Database, s: State, t: TxnId, position: nat)
    requires UndoCore(init, s) && s.mode.clr == INVALID_LSN
    requires Live(Txns(s), t) && (s.mode.RollingBack? ==> t == s.mode.tid)
    requires position < |s.log| && OfTxn(s.log[position], t) && Resolve(s.log, position) == Txns(s)[t].undoNext
    ensures s.log[position].Begin? ==> Enabled(s, FinishAbort(t))
    ensures s.log[position].Update? ==> Enabled(s, AppendClr(t)) && NextUndo(s, t) == position
    ensures s.log[position].Begin? || s.log[position].Update? || s.log[position].Clr?
  {
    hide HistAt, TxnsAt, ImageOk, ContextsInv, FramesInv, RetentionInv, Retains, Plausible, ChangeOk, CheckpointOk;
    UndoNextShape(init, s.log, |s.log|, t);
    assert RecordOk(init, s.log, position);
    EntryShape(init, s.log, |s.log|, t);
  }
}
