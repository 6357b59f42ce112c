/** A live rollback keeps the invariant, step by step. */
module CrashRollback {
  import opened Options
  import opened PageDelta
  import opened WalLog
  import opened LogTheory
  import opened CrashModel
  import opened CrashInvariant
  import opened CrashLemmas
  import opened CrashSteps
  import opened CrashWriteSteps

  // ---- Dropping the frames ----

  lemma StartRollbackKeeps(init: Database, s: State, t: TxnId)
    requires Inv(init, s) && Enabled(s, StartRollback(t)) && RollbackKeepsPages(s, t)
    ensures Inv(init, Apply(s, StartRollback(t)))
  {
    hide LogInv, ImagesInv, ContextsInv, FramesInv, DiskInv, RetentionInv, RollbackKeepsPages;
    var s' := Apply(s, StartRollback(t));
    if s.contexts[t].begin == INVALID_LSN {
      assert s' == Apply(s, CommitTxn(t));
      CommitKeeps(init, s, t);
    } else {
      DroppedLog(init, s, t);
      DroppedContexts(init, s, t);
      FramesSame(init, s, s');
      DroppedDisk(init, s, t);
      RetentionSame(s, s');
    }
  }

  lemma DroppedLog(init: Database, s: State, t: TxnId)
    requires LogInv(init, s) && ImagesInv(init, s) && Enabled(s, StartRollback(t)) && s.contexts[t].begin != INVALID_LSN
    ensures var s' := Apply(s, StartRollback(t)); LogInv(init, s') && ImagesInv(init, s')
  {
    hide LogOk, TxnsAt, Retains, ImageOk;
    ImagesGrow(init, s, s.log, |s.log|);
  }

  lemma DroppedContexts(init: Database, s: State, t: TxnId)
    requires ContextsInv(init, s) && Enabled(s, StartRollback(t)) && s.contexts[t].begin != INVALID_LSN
    ensures ContextsInv(init, Apply(s, StartRollback(t)))
    ensures forall u, p :: Writes(s, u, p) ==> Writes(Apply(s, StartRollback(t)), u, p)
  {
    hide HistAt, TxnsAt, PageStateOk;
    var s' := Apply(s, StartRollback(t));
    forall u | u in s'.contexts ensures ContextOk(init, s', u) {
      assert ContextOk(init, s, u);
      forall p | p in s'.contexts[u].pages ensures PageStateOk(init, s', u, p) {
        if u != t {
          PageStateSameAt(init, s, s', u, p);
        } else {
          OriginalKept(init, s, s', t, p);
        }
      }
    }
    assert forall u, p :: Writes(s', u, p) <==> Writes(s, u, p);
  }

  /** Rolling back only needs the originals. */
  lemma OriginalKept(init: Database, s: State, s': State, t: TxnId, p: PageId)
    requires t in s.contexts && p in s.contexts[t].pages && PageStateOk(init, s, t, p)
    requires t in s'.contexts && p in s'.contexts[t].pages && s'.contexts[t].pages[p] == s.contexts[t].pages[p]
    requires Rolling(s', t) && Hist(init, s', p).committed == Hist(init, s, p).committed
    ensures PageStateOk(init, s', t, p)
  {
    hide HistAt, MaskAfter;
  }

  lemma DroppedDisk(init: Database, s: State, t: TxnId)
    requires LogInv(init, s) && ImagesInv(init, s) && ContextsInv(init, s) && FramesInv(init, s) && DiskInv(init, s)
    requires Enabled(s, StartRollback(t)) && s.contexts[t].begin != INVALID_LSN && RollbackKeepsPages(s, t)
    ensures DiskInv(init, Apply(s, StartRollback(t)))
  {
    hide HistAt, TxnsAt, LogOk, Retains, ImageOk, FrameOk, DiskOk, PageStateOk;
    var s' := Apply(s, StartRollback(t));
    assert ContextOk(init, s, t);
    forall p | p in init && !Exempt(init, s', p) ensures DiskOk(init, s', p) {
      assert DiskOk(init, s, p);
      if p in s.contexts[t].pages && p in s.frames {
        assert ImageOk(init, s.log[..s.durable], s.slot, p, s.disk[p]);
        DroppedPage(init, s, t, p);
      } else {
        DiskSameAt(init, s, s', p);
      }
    }
  }

  /** A page the transaction meant to change and did not: dropping the frame loses nothing when
      the disk already holds its bytes. */
  lemma DroppedPage(init: Database, s: State, t: TxnId, p: PageId)
    requires LogOk(init, s.log) && s.durable <= |s.log|
    requires Enabled(s, StartRollback(t)) && s.contexts[t].begin != INVALID_LSN && RollbackKeepsPages(s, t)
    requires p in s.contexts[t].pages && p in s.frames && PageStateOk(init, s, t, p) && FrameOk(init, s, p)
    requires p in s.disk && ImageOk(init, s.log[..s.durable], s.slot, p, s.disk[p])
    requires !Exempt(init, Apply(s, StartRollback(t)), p)
    ensures DiskOk(init, Apply(s, StartRollback(t)), p)
  {
    hide HistAt, TxnsAt, LogOk, Fit, Bound, MaskAfter;
    Ownership(init, s.log, |s.log|, p);
    HistLastMonotone(init, s.log, 0, |s.log|, p);
    assert s.disk[p].lsn != INVALID_LSN ==> OnPage(s.log[s.disk[p].lsn], p);
  }

  // ---- Compensations ----

  /** The record AppendClr appends. */
  function NextClr(s: State, t: TxnId): (r: Record)
    requires Enabled(s, AppendClr(t))
  {
    var u := NextUndo(s, t);
    var p := s.log[u].page;
    Clr(t, TxnsAt(s.log, |s.log|)[t].last, p, s.log[u].prev, u, Undone(s.log[u].change, UndoBase(s, t, p)))
  }

  /** UNDO from any plausible body writes the committed image. */
  lemma ClrSound(init: Database, s: State, t: TxnId)
    requires LogOk(init, s.log) && Enabled(s, AppendClr(t)) && s.disk.Keys == init.Keys
    requires var p := NextClr(s, t).page; Plausible(init, s.log, |s.log|, p, UndoBase(s, t, p))
    ensures RecordOk(init, s.log + [NextClr(s, t)], |s.log|)
    ensures NextClr(s, t).page in init && NextClr(s, t).image == Hist(init, s, NextClr(s, t).page).committed
    ensures Hist(init, s, NextClr(s, t).page).owner == Some(t)
  {
    var r := NextClr(s, t);
    UndoRestores(init, s.log, t, UndoBase(s, t, r.page));
    AppendView(init, s.log, r);
    hide HistAt, TxnsAt, LogOk, Undone, UndoBase, Plausible;
  }

  /** What the appended compensation changes. */
  lemma ClrEffect(init: Database, s: State, t: TxnId)
    requires LogOk(init, s.log) && Enabled(s, AppendClr(t)) && NextClr(s, t).page in init
    requires RecordOk(init, s.log + [NextClr(s, t)], |s.log|)
    ensures var r, s' := NextClr(s, t), Apply(s, AppendClr(t));
            && s'.log == s.log + [r] && LogOk(init, s'.log) && Extends(s'.log, s.log)
            && Txns(s') == TxnStep(Txns(s), r, |s.log|)
            && (forall q :: q in init && q != r.page ==> Hist(init, s', q) == Hist(init, s, q))
            && (var h := Hist(init, s, r.page); Hist(init, s', r.page) == PageHist(h.committed, h.owner, [], |s.log|))
  {
    hide UndoBase, Undone;
    Appended(init, s.log, NextClr(s, t));
  }

  lemma ClrLog(init: Database, s: State, t: TxnId)
    requires LogInv(init, s) && ImagesInv(init, s) && Enabled(s, AppendClr(t)) && NextClr(s, t).page in init
    requires RecordOk(init, s.log + [NextClr(s, t)], |s.log|)
    ensures var s' := Apply(s, AppendClr(t)); LogInv(init, s') && ImagesInv(init, s')
  {
    hide HistAt, TxnsAt, LogOk, RecordOk, Retains, ImageOk, Undone, UndoBase;
    ClrEffect(init, s, t);
    ImagesCarry(init, s, Apply(s, AppendClr(t)));
  }

  /** In a live rollback UNDO starts from the retained original. */
  lemma RollingBase(init: Database, s: State, t: TxnId)
    requires LogInv(init, s) && ContextsInv(init, s) && s.mode.RollingBack? && Enabled(s, AppendClr(t))
    requires s.disk.Keys == init.Keys
    ensures var p := NextClr(s, t).page; Writes(s, t, p) && Plausible(init, s.log, |s.log|, p, UndoBase(s, t, p))
  {
    hide HistAt, TxnsAt, LogOk, Retains, Undone, MaskAfter;
    var p := s.log[NextUndo(s, t)].page;
    Ownership(init, s.log, |s.log|, p);
    UndoRestores(init, s.log, t, Hist(init, s, p).committed);
    assert ContextOk(init, s, t);
    assert PageStateOk(init, s, t, p);
  }

  lemma RollingClrKeeps(init: Database, s: State, t: TxnId)
    requires Inv(init, s) && Enabled(s, AppendClr(t)) && s.mode.RollingBack?
    ensures Inv(init, Apply(s, AppendClr(t)))
  {
    assert LogOk(init, s.log) && s.disk.Keys == init.Keys;
    hide LogOk, LogInv, ImagesInv, ContextsInv, FramesInv, DiskInv, RetentionInv;
    hide NextClr, UndoBase, Undone, TxnsAt, Plausible, RecordOk;
    RollingBase(init, s, t);
    ClrSound(init, s, t);
    ClrLog(init, s, t);
    RollingClrContexts(init, s, t);
    RollingClrFrames(init, s, t);
    RollingClrDisk(init, s, t);
    RollingClrRest(init, s, t);
  }

  lemma RollingClrContexts(init: Database, s: State, t: TxnId)
    requires LogInv(init, s) && ContextsInv(init, s) && Enabled(s, AppendClr(t)) && s.mode.RollingBack?
    requires NextClr(s, t).page in init && RecordOk(init, s.log + [NextClr(s, t)], |s.log|)
    requires Writes(s, t, NextClr(s, t).page)
    ensures ContextsInv(init, Apply(s, AppendClr(t)))
  {
    hide HistAt, TxnsAt, LogOk, RecordOk, Retains, PageStateOk, Undone, UndoBase;
    var s', p := Apply(s, AppendClr(t)), NextClr(s, t).page;
    ClrEffect(init, s, t);
    forall u | u in s'.contexts ensures ContextOk(init, s', u) {
      if u != t {
        hide ContextOk;
        assert !Writes(s, u, p);
        ContextCarry(init, s, s', u);
      } else {
        assert ContextOk(init, s, t);
        forall q | q in s'.contexts[t].pages ensures PageStateOk(init, s', t, q) {
          assert q in init by { assert PageStateOk(init, s, t, q); InDatabase(init, s, t, q); }
          OriginalKept(init, s, s', t, q);
        }
      }
    }
    hide ContextOk;
    forall u, v, q | Writes(s', u, q) && Writes(s', v, q) ensures u == v {
      assert Writes(s, u, q) && Writes(s, v, q);
    }
  }

  lemma InDatabase(init: Database, s: State, t: TxnId, p: PageId)
    requires t in s.contexts && p in s.contexts[t].pages && PageStateOk(init, s, t, p)
    ensures p in init
  {
  }

  lemma RollingClrFrames(init: Database, s: State, t: TxnId)
    requires LogInv(init, s) && FramesInv(init, s) && Enabled(s, AppendClr(t)) && s.mode.RollingBack?
    requires RollbackInv(init, s)
    requires NextClr(s, t).page in init && RecordOk(init, s.log + [NextClr(s, t)], |s.log|)
    requires Writes(s, t, NextClr(s, t).page)
    ensures FramesInv(init, Apply(s, AppendClr(t)))
  {
    hide HistAt, TxnsAt, LogOk, RecordOk, Retains, Undone, UndoBase, Extends;
    var s', p := Apply(s, AppendClr(t)), NextClr(s, t).page;
    ClrEffect(init, s, t);
    assert forall u, v :: Writes(s, u, v) ==> Writes(s', u, v);
    forall q | q in s'.frames ensures FrameOk(init, s', q) {
      assert FrameOk(init, s, q);
      assert q != p;
      OwnedStays(s, s', q);
      FrameCarry(init, s, s', q);
    }
  }

  lemma RollingClrDisk(init: Database, s: State, t: TxnId)
    requires LogInv(init, s) && DiskInv(init, s) && Enabled(s, AppendClr(t)) && s.mode.RollingBack?
    requires NextClr(s, t).page in init && RecordOk(init, s.log + [NextClr(s, t)], |s.log|)
    ensures DiskInv(init, Apply(s, AppendClr(t)))
  {
    hide HistAt, TxnsAt, LogOk, RecordOk, Retains, Undone, UndoBase, Extends, DiskOk;
    var s', p := Apply(s, AppendClr(t)), NextClr(s, t).page;
    ClrEffect(init, s, t);
    assert OnPage(s'.log[|s.log|], p);
    forall q | q in init && !Exempt(init, s', q) ensures DiskOk(init, s', q) {
      assert q != p;
      DiskCarry(init, s, s', q);
    }
  }

  lemma RollingClrRest(init: Database, s: State, t: TxnId)
    requires LogInv(init, s) && RetentionInv(s) && Enabled(s, AppendClr(t)) && s.mode.RollingBack?
    requires RollbackInv(init, s)
    ensures var s' := Apply(s, AppendClr(t)); s'.mode.RollingBack? && RetentionInv(s') && RollbackInv(init, s')
  {
    hide LogOk, TxnsAt, Retains, Undone, UndoBase, AboveFloor;
    RetentionCarry(s, Apply(s, AppendClr(t)));
  }

  // ---- Writing the compensated page ----

  /** The compensation in flight is the newest record of its page, and its image all there is. */
  lemma ClrCurrent(init: Database, s: State, c: nat)
    requires LogOk(init, s.log) && |s.log| > 0 && c == |s.log| - 1 && s.log[c].Clr?
    ensures var p := s.log[c].page;
            p in init && Hist(init, s, p).last == c && Hist(init, s, p).images == []
            && s.log[c].image == Hist(init, s, p).committed
  {
    assert RecordOk(init, s.log, c);
  }

  /** The images a crash may leave, the written compensation among them. */
  lemma PutClrImages(init: Database, s: State)
    requires LogInv(init, s) && ImagesInv(init, s) && Enabled(s, PutClr) && ClrInFlight(s, s.mode.clr)
    ensures ImagesInv(init, Apply(s, PutClr))
  {
    hide ImageOk, LogOk, HistAt, TxnsAt, Retains;
    var s' := Apply(s, PutClr);
    var c := s.mode.clr;
    var p, g := s.log[c].page, Page(s.log[c].image, c);
    ClrCurrent(init, s, c);
    WrittenImage(init, s, p, g);
    assert s'.images.Keys == s.images.Keys && s'.disk.Keys == s.disk.Keys;
    forall q, x | q in init && x in s'.images[q] ensures ImageOk(init, s'.log[..s'.durable], s'.slot, q, x) {
      assert x in s.images[q] || (q == p && x == g);
    }
  }

  lemma RollingPutKeeps(init: Database, s: State)
    requires Inv(init, s) && Enabled(s, PutClr) && s.mode.RollingBack?
    ensures Inv(init, Apply(s, PutClr))
  {
    hide LogInv, ImagesInv, ContextsInv, FramesInv, DiskInv, RetentionInv;
    var s' := Apply(s, PutClr);
    LogSame(init, s, s');
    PutClrImages(init, s);
    ContextsSame(init, s, s');
    FramesSame(init, s, s');
    RollingPutDisk(init, s);
    RetentionSame(s, s');
  }

  lemma RollingPutDisk(init: Database, s: State)
    requires LogInv(init, s) && ContextsInv(init, s) && DiskInv(init, s) && Enabled(s, PutClr)
    requires s.mode.RollingBack? && RollbackInv(init, s)
    ensures DiskInv(init, Apply(s, PutClr))
  {
    hide LogOk, HistAt, TxnsAt, Retains, ContextOk;
    var s' := Apply(s, PutClr);
    var p := s.log[s.mode.clr].page;
    ClrCurrent(init, s, s.mode.clr);
    assert s'.disk.Keys == s.disk.Keys;
    ClrPageOwned(init, s);
    assert DiskOk(init, s', p);
    hide DiskOk;
    forall q | q in init && !Exempt(init, s', q) ensures DiskOk(init, s', q) {
      if q != p {
        DiskSameAt(init, s, s', q);
      }
    }
  }

  /** The page of the compensation in flight belongs to the transaction, so it has no frame. */
  lemma ClrPageOwned(init: Database, s: State)
    requires LogOk(init, s.log) && ContextsInv(init, s) && s.mode.RollingBack? && RollbackInv(init, s)
    requires 0 <= s.mode.clr
    ensures s.log[s.mode.clr].page !in s.frames
  {
    hide TxnsAt, ContextOk;
    var c: nat := s.mode.clr;
    assert RecordOk(init, s.log, c);
    assert HistAt(init, s.log, c + 1, s.log[c].page) == Hist(init, s, s.log[c].page);
  }

  // ---- ABORT ----

  function AbortRecord(s: State, t: TxnId): (r: Record)
    requires t in Txns(s)
  {
    Abort(t, Txns(s)[t].last)
  }

  /** ABORT moves no byte: every image of the transaction has been compensated. */
  lemma AbortEffect(init: Database, s: State, t: TxnId)
    requires LogOk(init, s.log) && Enabled(s, FinishAbort(t))
    ensures RecordOk(init, s.log + [AbortRecord(s, t)], |s.log|)
    ensures var s' := Apply(s, FinishAbort(t));
            && s'.log == s.log + [AbortRecord(s, t)] && LogOk(init, s'.log) && Extends(s'.log, s.log)
            && Txns(s') == TxnStep(Txns(s), AbortRecord(s, t), |s.log|)
            && (forall p :: p in init ==>
                  && Hist(init, s', p) == HistStep(Hist(init, s, p), p, AbortRecord(s, t), |s.log|)
                  && (Hist(init, s, p).owner == Some(t) ==> Hist(init, s, p).images == []))
  {
    var r := AbortRecord(s, t);
    AppendView(init, s.log, r);
    Appended(init, s.log, r);
    forall p | p in init && Hist(init, s, p).owner == Some(t) ensures Hist(init, s, p).images == [] {
      AbortClean(init, s.log + [r], |s.log|, p);
    }
  }

  lemma AbortLog(init: Database, s: State, t: TxnId)
    requires LogInv(init, s) && ImagesInv(init, s) && Enabled(s, FinishAbort(t))
    ensures var s' := Apply(s, FinishAbort(t)); LogInv(init, s') && ImagesInv(init, s')
  {
    hide HistAt, TxnsAt, LogOk, RecordOk, Retains, ImageOk;
    AbortEffect(init, s, t);
    ImagesCarry(init, s, Apply(s, FinishAbort(t)));
  }

  lemma RollingAbortKeeps(init: Database, s: State, t: TxnId)
    requires Inv(init, s) && Enabled(s, FinishAbort(t)) && s.mode.RollingBack?
    ensures Inv(init, Apply(s, FinishAbort(t)))
  {
    hide LogInv, ImagesInv, ContextsInv, FramesInv, DiskInv, RetentionInv, TxnsAt;
    AbortLog(init, s, t);
    RollingAbortContexts(init, s, t);
    RollingAbortFrames(init, s, t);
    RollingAbortDisk(init, s, t);
    RollingAbortRetention(init, s, t);
  }

  lemma RollingAbortContexts(init: Database, s: State, t: TxnId)
    requires LogInv(init, s) && ContextsInv(init, s) && Enabled(s, FinishAbort(t)) && s.mode.RollingBack?
    ensures ContextsInv(init, Apply(s, FinishAbort(t)))
  {
    hide HistAt, TxnsAt, LogOk, RecordOk, Retains, ContextOk;
    var s' := Apply(s, FinishAbort(t));
    AbortEffect(init, s, t);
    forall u | u in s'.contexts ensures ContextOk(init, s', u) {
      forall p | p in s.contexts[u].pages && p in init ensures Hist(init, s', p) == Hist(init, s, p) {
        assert Writes(s, u, p);
        assert !Writes(s, t, p);
      }
      ContextCarry(init, s, s', u);
    }
    forall u, v, p | Writes(s', u, p) && Writes(s', v, p) ensures u == v {
      assert Writes(s, u, p) && Writes(s, v, p);
    }
  }

  lemma RollingAbortFrames(init: Database, s: State, t: TxnId)
    requires LogInv(init, s) && FramesInv(init, s) && Enabled(s, FinishAbort(t))
    requires s.mode.RollingBack? && RollbackInv(init, s)
    ensures FramesInv(init, Apply(s, FinishAbort(t)))
  {
    hide HistAt, TxnsAt, LogOk, RecordOk, Retains, Extends;
    var s' := Apply(s, FinishAbort(t));
    AbortEffect(init, s, t);
    forall p | p in s'.frames ensures FrameOk(init, s', p) {
      assert FrameOk(init, s, p);
      StillOwned(s, s', t, p);
      FrameCarry(init, s, s', p);
    }
  }

  lemma RollingAbortDisk(init: Database, s: State, t: TxnId)
    requires LogInv(init, s) && DiskInv(init, s) && Enabled(s, FinishAbort(t))
    requires s.mode.RollingBack? && RollbackInv(init, s)
    ensures DiskInv(init, Apply(s, FinishAbort(t)))
  {
    hide HistAt, TxnsAt, LogOk, RecordOk, Retains, Extends, DiskOk;
    var s' := Apply(s, FinishAbort(t));
    AbortEffect(init, s, t);
    forall p | p in init && !Exempt(init, s', p) ensures DiskOk(init, s', p) {
      DiskCarry(init, s, s', p);
    }
  }

  lemma RollingAbortRetention(init: Database, s: State, t: TxnId)
    requires LogInv(init, s) && RetentionInv(s) && Enabled(s, FinishAbort(t)) && s.mode.RollingBack?
    ensures RetentionInv(Apply(s, FinishAbort(t)))
  {
    hide LogOk, TxnsAt, AboveFloor, Retains;
    RetentionCarry(s, Apply(s, FinishAbort(t)));
  }
}
