/** Crashes, and every step of restart recovery, keep the invariant. */
module CrashRecovery {
  import opened Options
  import opened WalLog
  import opened LogTheory
  import opened CrashModel
  import opened CrashInvariant
  import opened CrashLemmas
  import opened CrashSteps
  import opened CrashRollback

  // ---- Crash ----

  lemma CrashKeeps(init: Database, s: State, keep: nat, survivors: map<PageId, Page>)
    requires Inv(init, s) && Enabled(s, Crash(keep, survivors))
    ensures Inv(init, Apply(s, Crash(keep, survivors)))
  {
    hide LogInv, ImagesInv, ContextsInv, FramesInv, DiskInv, RetentionInv, RollbackInv, RedoInv, UndoInv;
    CrashLog(init, s, keep, survivors);
    CrashImages(init, s, keep, survivors);
  }

  lemma CrashLog(init: Database, s: State, keep: nat, survivors: map<PageId, Page>)
    requires LogInv(init, s) && Enabled(s, Crash(keep, survivors))
    ensures LogInv(init, Apply(s, Crash(keep, survivors)))
  {
    hide HistAt, TxnsAt, LogOk, Retains;
    var s' := Apply(s, Crash(keep, survivors));
    CutOk(init, s.log, keep);
    if s.slot != INVALID_LSN {
      forall t | Live(Txns(s'), t) ensures s.base <= Txns(s')[t].begin {
        LiveAboveFloor(init, s'.log, s.slot, s.base, t);
      }
    } else {
      forall t | t in Txns(s') ensures s.base <= Txns(s')[t].begin {
        EntryShape(init, s'.log, |s'.log|, t);
      }
    }
  }

  lemma CrashImages(init: Database, s: State, keep: nat, survivors: map<PageId, Page>)
    requires LogInv(init, s) && ImagesInv(init, s) && Enabled(s, Crash(keep, survivors))
    ensures ImagesInv(init, Apply(s, Crash(keep, survivors)))
  {
    hide HistAt, TxnsAt, LogOk, Retains, ImageOk;
    var s' := Apply(s, Crash(keep, survivors));
    CutOk(init, s.log, keep);
    ImagesGrow(init, s, s'.log, keep);
  }

  // ---- Analysis ----

  lemma {:induction false} TailNextCovers(log: Log, i: nat, k: nat)
    requires i <= k < |log| && !log[k].CheckpointBegin? && !log[k].CheckpointEnd?
    ensures log[k].tid < TailNext(log, i)
    decreases |log| - i
  {
    if i < k {
      TailNextCovers(log, i + 1, k);
    }
  }

  /** The restored transaction counter is above every transaction id in the log, including those
      whose records lie before the scan start. */
  lemma IdsRestored(init: Database, s: State, from: nat)
    requires LogInv(init, s) && Enabled(s, StartRecovery(from))
    ensures IdsBelow(Txns(s), Apply(s, StartRecovery(from)).nextTid)
  {
    hide HistAt, TxnsAt, TailNext;
    var s' := Apply(s, StartRecovery(from));
    forall t | t in Txns(s) ensures t < s'.nextTid {
      EntryShape(init, s.log, |s.log|, t);
      var b := Txns(s)[t].begin;
      if from <= b {
        TailNextCovers(s.log, from, b);
      } else {
        assert RecordOk(init, s.log, s.slot);
        LastBound(init, s.log, s.slot, b, t);
      }
    }
  }

  /** REDO starts no later than where any page needs it. */
  lemma ScanReaches(init: Database, log: Log, slot: Lsn, from: nat, p: PageId)
    requires LogOk(init, log) && (slot == INVALID_LSN || CheckpointAt(log, slot)) && ScanStart(log, slot, from)
    ensures from <= Bound(log, slot, p)
  {
    if slot != INVALID_LSN && p !in log[slot].dpt {
      var r := log[slot];
      FirstAttachedBound(log, r.att, p, 0, r.begin);
      var f := FirstAttached(log, r.att, p, 0, r.begin);
      if f < r.begin {
        var t := log[f].tid;
        assert RecordOk(init, log, slot) && RecordOk(init, log, f);
        EntryShape(init, log, f, t);
        EntryStays(init, log, f, slot, t);
      }
    }
  }

  lemma StartRecoveryKeeps(init: Database, s: State, from: nat)
    requires Inv(init, s) && Enabled(s, StartRecovery(from))
    ensures Inv(init, Apply(s, StartRecovery(from)))
  {
    hide LogInv, ImagesInv, RedoInv, Enabled, Apply, RunInv, RollbackInv, UndoInv;
    StartRecoveryMode(s, from);
    StartRecoveryLog(init, s, from);
    StartRecoveryPages(init, s, from);
  }

  lemma StartRecoveryMode(s: State, from: nat)
    requires Enabled(s, StartRecovery(from))
    ensures var s' := Apply(s, StartRecovery(from));
            s.mode.Down? && s'.mode == Redoing(from) && s'.frames == s.frames && s'.contexts == s.contexts
  {
    hide ScanStart, TailNext;
  }

  lemma StartRecoveryLog(init: Database, s: State, from: nat)
    requires LogInv(init, s) && ImagesInv(init, s) && Enabled(s, StartRecovery(from))
    ensures var s' := Apply(s, StartRecovery(from)); LogInv(init, s') && ImagesInv(init, s')
  {
    hide TxnsAt, Retains, ImageOk, TailNext, LogOk, ScanStart;
    IdsRestored(init, s, from);
    ImagesGrow(init, s, s.log, |s.log|);
  }

  lemma StartRecoveryPages(init: Database, s: State, from: nat)
    requires LogInv(init, s) && ImagesInv(init, s) && Enabled(s, StartRecovery(from))
    ensures var s' := Apply(s, StartRecovery(from)); s'.mode.Redoing? && RedoInv(init, s')
  {
    hide TxnsAt, Retains, ImageOk, TailNext, LogOk, ScanStart, Bound;
    forall p | p in init ensures Caught(s.log, p, RedoFrom(s.log, s.slot, p, s.disk[p]), from) {
      ScanReaches(init, s.log, s.slot, from, p);
    }
  }

  // ---- REDO ----

  lemma RedoNextKeeps(init: Database, s: State)
    requires Inv(init, s) && Enabled(s, RedoNext)
    ensures Inv(init, Apply(s, RedoNext))
  {
    hide LogInv, ImagesInv, RedoOne, Caught;
    var s' := Apply(s, RedoNext);
    RedoFrame(s);
    LogSame(init, s, s');
    RedoImages(init, s);
    forall p | p in init
      ensures Caught(s.log, p, RedoFrom(s.log, s.slot, p, s'.disk[p]), s.mode.next + 1)
    {
      RedoCatches(init, s, p);
    }
  }

  /** REDO touches pages alone. */
  lemma RedoFrame(s: State)
    requires Enabled(s, RedoNext)
    ensures var s' := Apply(s, RedoNext);
            && s'.log == s.log && s'.durable == s.durable && s'.slot == s.slot && s'.base == s.base
            && s'.frames == s.frames && s'.contexts == s.contexts && s'.nextTid == s.nextTid
            && s'.mode == Redoing(s.mode.next + 1) && s'.disk.Keys == s.disk.Keys
  {
    hide Candidate, Bound, Redone;
  }

  /** After the step, no needed record up to it is missing on the page. */
  lemma RedoCatches(init: Database, s: State, p: PageId)
    requires Enabled(s, RedoNext) && RedoInv(init, s) && p in init
    ensures var s' := Apply(s, RedoNext);
            p in s'.disk && Caught(s.log, p, RedoFrom(s.log, s.slot, p, s'.disk[p]), s.mode.next + 1)
  {
    hide TxnsAt, Bound, Redone;
  }

  /** What REDO writes may be left by a crash. */
  lemma RedoImage(init: Database, s: State)
    requires LogInv(init, s) && ImagesInv(init, s) && Enabled(s, RedoNext) && RedoInv(init, s)
    requires RedoOne(s, s.mode.next) != s
    ensures s.log[s.mode.next].Update? || s.log[s.mode.next].Clr?
    ensures var p := s.log[s.mode.next].page;
            && p in init
            && RedoOne(s, s.mode.next) == PutPage(s, p, RedoOne(s, s.mode.next).disk[p])
            && ImageOk(init, s.log, s.slot, p, RedoOne(s, s.mode.next).disk[p])
  {
    hide LogOk, HistAt, TxnsAt, Retains, Bound, Redone, Fit, Caught;
    var i := s.mode.next;
    var p := s.log[i].page;
    var g := s.disk[p];
    assert s.log[..s.durable] == s.log;
    assert ImageOk(init, s.log, s.slot, p, g);
    var m := RedoFrom(s.log, s.slot, p, g);
    if s.log[i].Clr? {
      RedoClrFit(init, s.log, p, i);
    } else {
      RedoUpdateFit(init, s.log, p, m, g.body, i);
    }
  }

  lemma RedoImages(init: Database, s: State)
    requires LogInv(init, s) && ImagesInv(init, s) && Enabled(s, RedoNext) && RedoInv(init, s)
    ensures ImagesInv(init, Apply(s, RedoNext))
  {
    hide LogOk, HistAt, TxnsAt, Retains, ImageOk, RedoOne;
    var s' := Apply(s, RedoNext);
    var moved := RedoOne(s, s.mode.next);
    RedoFrame(s);
    if moved == s {
      ImagesSame(init, s, s');
    } else {
      RedoImage(init, s);
      var p := s.log[s.mode.next].page;
      assert s.log[..s.durable] == s.log;
      var g := moved.disk[p];
      assert s'.images == s.images[p := s.images[p] + {g}] && s'.disk == s.disk[p := g];
      forall q, x | q in init && x in s'.images[q] ensures ImageOk(init, s'.log[..s'.durable], s'.slot, q, x) {
        assert x in s.images[q] || (q == p && x == g);
      }
    }
  }

  lemma FinishRedoKeeps(init: Database, s: State)
    requires Inv(init, s) && Enabled(s, FinishRedo)
    ensures Inv(init, Apply(s, FinishRedo))
  {
    hide HistAt, TxnsAt, Retains, Bound, Fit, Caught, LogOk, Plausible;
    var s' := Apply(s, FinishRedo);
    LogSame(init, s, s');
    ImagesSame(init, s, s');
    assert s.log[..s.durable] == s.log;
    forall p | p in init ensures Plausible(init, s.log, |s.log|, p, s.disk[p].body) {
      assert ImageOk(init, s.log, s.slot, p, s.disk[p]);
      FitAtEnd(init, s.log, p, RedoFrom(s.log, s.slot, p, s.disk[p]), s.disk[p].body);
    }
  }

  // ---- UNDO ----

  lemma UndoingClrKeeps(init: Database, s: State, t: TxnId)
    requires Inv(init, s) && Enabled(s, AppendClr(t)) && s.mode.Undoing?
    ensures Inv(init, Apply(s, AppendClr(t)))
  {
    assert LogOk(init, s.log) && s.disk.Keys == init.Keys;
    hide LogOk, LogInv, ImagesInv, TxnsAt, Plausible, RecordOk, Undone;
    var r := NextClr(s, t);
    assert Plausible(init, s.log, |s.log|, r.page, UndoBase(s, t, r.page));
    ClrSound(init, s, t);
    ClrLog(init, s, t);
    UndoingClrPages(init, s, t);
  }

  lemma UndoingClrPages(init: Database, s: State, t: TxnId)
    requires LogOk(init, s.log) && UndoInvAt(init, s) && Enabled(s, AppendClr(t)) && s.mode.Undoing?
    requires NextClr(s, t).page in init && RecordOk(init, s.log + [NextClr(s, t)], |s.log|)
    ensures var s' := Apply(s, AppendClr(t)); s'.mode.Undoing? && UndoInv(init, s')
  {
    hide LogOk, HistAt, TxnsAt, RecordOk, Undone;
    var s', r := Apply(s, AppendClr(t)), NextClr(s, t);
    ClrEffect(init, s, t);
    assert s'.log[|s.log|] == r && OnPage(r, r.page);
    forall q | q in init && q != r.page ensures Plausible(init, s'.log, |s'.log|, q, s'.disk[q].body) {
      assert Plausible(init, s.log, |s.log|, q, s.disk[q].body);
    }
  }

  /** UNDO stands between two compensations. */
  ghost predicate UndoInvAt(init: Database, s: State) {
    && s.disk.Keys == init.Keys
    && forall p :: p in init ==> Plausible(init, s.log, |s.log|, p, s.disk[p].body)
  }

  lemma UndoingPutKeeps(init: Database, s: State)
    requires Inv(init, s) && Enabled(s, PutClr) && s.mode.Undoing?
    ensures Inv(init, Apply(s, PutClr))
  {
    hide LogInv, ImagesInv, UndoInv;
    LogSame(init, s, Apply(s, PutClr));
    ClrShape(init, s);
    PutClrImages(init, s);
    UndoingPutPages(init, s);
  }

  lemma ClrShape(init: Database, s: State)
    requires s.mode.Undoing? && UndoInv(init, s)
    ensures ClrInFlight(s, s.mode.clr)
  {
  }

  lemma UndoingPutPages(init: Database, s: State)
    requires LogInv(init, s) && Enabled(s, PutClr) && s.mode.Undoing? && UndoInv(init, s)
    ensures var s' := Apply(s, PutClr); s'.mode.Undoing? && UndoInv(init, s')
  {
    hide LogOk, HistAt, TxnsAt, Retains;
    var s' := Apply(s, PutClr);
    ClrCurrent(init, s, s.mode.clr);
    assert s'.disk.Keys == s.disk.Keys;
  }

  lemma UndoingAbortKeeps(init: Database, s: State, t: TxnId)
    requires Inv(init, s) && Enabled(s, FinishAbort(t)) && s.mode.Undoing?
    ensures Inv(init, Apply(s, FinishAbort(t)))
  {
    hide LogInv, ImagesInv, UndoInv, TxnsAt;
    AbortLog(init, s, t);
    UndoingAbortPages(init, s, t);
  }

  lemma UndoingAbortPages(init: Database, s: State, t: TxnId)
    requires LogInv(init, s) && Enabled(s, FinishAbort(t)) && s.mode.Undoing? && UndoInv(init, s)
    ensures var s' := Apply(s, FinishAbort(t)); s'.mode.Undoing? && UndoInv(init, s')
  {
    hide LogOk, HistAt, TxnsAt, Retains, RecordOk;
    var s' := Apply(s, FinishAbort(t));
    AbortEffect(init, s, t);
    forall p | p in init ensures Plausible(init, s'.log, |s'.log|, p, s'.disk[p].body) {
      assert Plausible(init, s.log, |s.log|, p, s.disk[p].body);
    }
  }

  // ---- Back to normal operation ----

  lemma FinishRecoveryKeeps(init: Database, s: State)
    requires Inv(init, s) && Enabled(s, FinishRecovery)
    ensures Inv(init, Apply(s, FinishRecovery))
  {
    hide LogInv, ImagesInv, UndoInv, ContextsInv, DiskInv;
    var s' := Apply(s, FinishRecovery);
    LogSame(init, s, s');
    ImagesSame(init, s, s');
    RecoveredPages(init, s);
  }

  lemma RecoveredPages(init: Database, s: State)
    requires LogInv(init, s) && ImagesInv(init, s) && EmptyInv(s)
    requires Enabled(s, FinishRecovery) && UndoInv(init, s)
    ensures var s' := Apply(s, FinishRecovery); ContextsInv(init, s') && DiskInv(init, s')
  {
    hide HistAt, TxnsAt, Retains, LogOk, ImageOk, Plausible, DiskOk;
    var s' := Apply(s, FinishRecovery);
    forall p | p in init ensures Hist(init, s, p).owner == None && DiskOk(init, s', p) {
      assert ImageOk(init, s.log[..s.durable], s.slot, p, s.disk[p]);
      RecoveredPage(init, s, p);
    }
  }

  lemma RecoveredPage(init: Database, s: State, p: PageId)
    requires LogOk(init, s.log) && Enabled(s, FinishRecovery) && s.frames == map[] && p in init && p in s.disk
    requires Plausible(init, s.log, |s.log|, p, s.disk[p].body)
    requires ImageOk(init, s.log[..s.durable], s.slot, p, s.disk[p])
    ensures Hist(init, s, p).owner == None && DiskOk(init, Apply(s, FinishRecovery), p)
  {
    hide HistAt, TxnsAt, LogOk, Fit, Bound, Plausible;
    assert s.log[..s.durable] == s.log;
    Ownership(init, s.log, |s.log|, p);
    PlausibleClosed(init, s.log, |s.log|, p, s.disk[p].body);
    HistLastMonotone(init, s.log, 0, |s.log|, p);
  }
}
