/** Steps of normal operation that append nothing to the log keep the invariant. */
module CrashSteps {
  import opened Options
  import opened PageDelta
  import opened WalLog
  import opened LogTheory
  import opened CrashModel
  import opened CrashInvariant
  import opened CrashLemmas

  // ---- What depends on what ----

  lemma LogSame(init: Database, s: State, s': State)
    requires LogInv(init, s) && s'.log == s.log && s'.slot == s.slot && s'.base == s.base
    requires s'.durable == s.durable || s.durable <= s'.durable <= |s.log|
    requires !s'.mode.Down? ==> !s.mode.Down? && s.nextTid <= s'.nextTid
    ensures LogInv(init, s')
  {
    hide LogOk, TxnsAt, Retains;
  }

  lemma ImagesSame(init: Database, s: State, s': State)
    requires ImagesInv(init, s)
    requires s'.log == s.log && s'.slot == s.slot && s'.durable == s.durable
    requires s'.disk == s.disk && s'.images == s.images
    ensures ImagesInv(init, s')
  {
    hide ImageOk;
  }

  lemma ContextsSame(init: Database, s: State, s': State)
    requires ContextsInv(init, s)
    requires s'.log == s.log && s'.contexts == s.contexts && s'.nextTid == s.nextTid
    requires forall t :: Rolling(s', t) <==> Rolling(s, t)
    ensures ContextsInv(init, s')
  {
    hide HistAt, TxnsAt, MaskAfter;
    forall t | t in s'.contexts ensures ContextOk(init, s', t) {
      assert ContextOk(init, s, t);
      forall p | p in s'.contexts[t].pages ensures PageStateOk(init, s', t, p) {
        assert PageStateOk(init, s, t, p);
      }
    }
    assert forall t, p :: Writes(s', t, p) <==> Writes(s, t, p);
  }

  /** Frames are judged against the log alone, apart from who owns a page. */
  lemma FramesSame(init: Database, s: State, s': State)
    requires FramesInv(init, s)
    requires s'.log == s.log
    requires forall p :: p in s'.frames ==> p in s.frames && s'.frames[p] == s.frames[p]
    requires forall t, p :: Writes(s, t, p) ==> Writes(s', t, p)
    ensures FramesInv(init, s')
  {
    hide HistAt;
    forall p | p in s'.frames ensures FrameOk(init, s', p) {
      assert FrameOk(init, s, p);
      OwnedStays(s, s', p);
    }
  }

  lemma OwnedStays(s: State, s': State, p: PageId)
    requires forall t, p :: Writes(s, t, p) ==> Writes(s', t, p)
    ensures Owned(s, p) ==> Owned(s', p)
  {
  }

  /** The disk is judged against the log, the durable prefix and the recovery LSNs of the frames. */
  lemma DiskSame(init: Database, s: State, s': State)
    requires DiskInv(init, s)
    requires s'.log == s.log && s'.disk == s.disk && s.durable <= s'.durable && s'.mode == s.mode
    requires forall p :: p in init ==> RecLsn(s', p) == RecLsn(s, p)
    ensures DiskInv(init, s')
  {
    hide HistAt;
    forall p | p in init && !Exempt(init, s', p) ensures DiskOk(init, s', p) {
      assert !Exempt(init, s, p);
      assert DiskOk(init, s, p);
      assert RecLsn(s', p) == RecLsn(s, p);
    }
  }

  lemma RetentionSame(s: State, s': State)
    requires RetentionInv(s) && s'.log == s.log && s'.slot == s.slot && s'.base == s.base
    requires forall p :: p in s'.frames && RecLsn(s', p) != INVALID_LSN ==> RecLsn(s', p) == RecLsn(s, p)
    ensures RetentionInv(s')
  {
    hide AboveFloor;
    forall p | p in s'.frames && s'.frames[p].recLsn != INVALID_LSN
      ensures s'.base <= s'.frames[p].recLsn
              && (CheckpointAt(s'.log, s'.slot) ==> AboveFloor(s'.log[s'.slot], s'.frames[p].recLsn))
    {
      assert RecLsn(s', p) == RecLsn(s, p);
    }
  }

  function RecLsn(s: State, p: PageId): (r: Lsn) {
    if p in s.frames then s.frames[p].recLsn else INVALID_LSN
  }

  /** One frame, or one page on disk, that the step leaves alone. */
  lemma FrameSameAt(init: Database, s: State, s': State, p: PageId)
    requires p in s.frames && FrameOk(init, s, p) && p in s'.frames && s'.frames[p] == s.frames[p] && s'.log == s.log
    requires forall t, q :: Writes(s, t, q) ==> Writes(s', t, q)
    ensures FrameOk(init, s', p)
  {
    hide HistAt;
    OwnedStays(s, s', p);
  }

  lemma DiskSameAt(init: Database, s: State, s': State, p: PageId)
    requires p in init && p in s.disk && DiskOk(init, s, p) && p in s'.disk && s'.disk[p] == s.disk[p]
    requires s'.log == s.log && s.durable <= s'.durable && RecLsn(s', p) == RecLsn(s, p)
    ensures DiskOk(init, s', p)
  {
    hide HistAt;
  }

  /** One page of one context that the step leaves alone. */
  lemma PageStateSameAt(init: Database, s: State, s': State, t: TxnId, p: PageId)
    requires t in s.contexts && p in s.contexts[t].pages && PageStateOk(init, s, t, p)
    requires t in s'.contexts && p in s'.contexts[t].pages && s'.contexts[t].pages[p] == s.contexts[t].pages[p]
    requires s'.log == s.log && (Rolling(s', t) <==> Rolling(s, t))
    ensures PageStateOk(init, s', t, p)
  {
    hide HistAt, MaskAfter;
  }

  // ---- Steps ----

  lemma BeginTxnKeeps(init: Database, s: State)
    requires Inv(init, s) && Enabled(s, BeginTxn)
    ensures Inv(init, Apply(s, BeginTxn))
  {
    hide LogInv, ImagesInv, ContextsInv, FramesInv, DiskInv, RetentionInv;
    var s' := Apply(s, BeginTxn);
    LogSame(init, s, s');
    ImagesSame(init, s, s');
    BeginTxnContexts(init, s);
    FramesSame(init, s, s');
    DiskSame(init, s, s');
    RetentionSame(s, s');
  }

  lemma BeginTxnContexts(init: Database, s: State)
    requires LogInv(init, s) && ContextsInv(init, s) && s.mode.Running?
    ensures ContextsInv(init, Apply(s, BeginTxn))
    ensures forall t, p :: Writes(s, t, p) ==> Writes(Apply(s, BeginTxn), t, p)
  {
    hide HistAt, TxnsAt, MaskAfter, LogOk, Retains, PageStateOk;
    var s' := Apply(s, BeginTxn);
    forall t | t in s.contexts ensures t < s.nextTid {
      assert ContextOk(init, s, t);
    }
    hide ContextOk;
    forall t | t in s'.contexts ensures ContextOk(init, s', t) {
      BeginTxnContext(init, s, t);
    }
    assert forall t, p :: Writes(s', t, p) <==> Writes(s, t, p);
  }

  lemma BeginTxnContext(init: Database, s: State, t: TxnId)
    requires LogInv(init, s) && s.mode.Running? && (t in s.contexts ==> ContextOk(init, s, t))
    requires t in Apply(s, BeginTxn).contexts
    ensures ContextOk(init, Apply(s, BeginTxn), t)
  {
    hide HistAt, TxnsAt, MaskAfter, LogOk, Retains;
    var s' := Apply(s, BeginTxn);
    if t in s.contexts {
      forall p | p in s'.contexts[t].pages ensures PageStateOk(init, s', t, p) {
        assert PageStateOk(init, s, t, p);
      }
    }
  }

  lemma FetchKeeps(init: Database, s: State, p: PageId)
    requires Inv(init, s) && Enabled(s, Fetch(p))
    ensures Inv(init, Apply(s, Fetch(p)))
  {
    hide LogInv, ImagesInv, ContextsInv, FramesInv, DiskInv, RetentionInv;
    var s' := Apply(s, Fetch(p));
    LogSame(init, s, s');
    ImagesSame(init, s, s');
    ContextsSame(init, s, s');
    FetchFrames(init, s, p);
    DiskSame(init, s, s');
    RetentionSame(s, s');
  }

  lemma FetchFrames(init: Database, s: State, p: PageId)
    requires LogInv(init, s) && ImagesInv(init, s) && FramesInv(init, s) && DiskInv(init, s) && s.mode.Running?
    requires Enabled(s, Fetch(p))
    ensures FramesInv(init, Apply(s, Fetch(p)))
  {
    hide HistAt, TxnsAt, LogOk, Retains, Fit, Bound;
    var s' := Apply(s, Fetch(p));
    assert ImageOk(init, s.log[..s.durable], s.slot, p, s.disk[p]);
    forall q | q in s'.frames ensures FrameOk(init, s', q) {
      if q == p {
        assert DiskOk(init, s, p);
        Ownership(init, s.log, |s.log|, p);
      } else {
        assert FrameOk(init, s, q);
        OwnedStays(s, s', q);
      }
    }
  }

  lemma DropKeeps(init: Database, s: State, p: PageId)
    requires Inv(init, s) && Enabled(s, Drop(p))
    ensures Inv(init, Apply(s, Drop(p)))
  {
    hide LogInv, ImagesInv, ContextsInv, DiskInv, HistAt, RetentionInv;
    var s' := Apply(s, Drop(p));
    LogSame(init, s, s');
    ImagesSame(init, s, s');
    ContextsSame(init, s, s');
    FramesSame(init, s, s');
    assert FrameOk(init, s, p);
    DiskSame(init, s, s');
    RetentionSame(s, s');
  }

  lemma WriteKeeps(init: Database, s: State, t: TxnId, p: PageId, body: Body, keepsLsn: bool)
    requires Inv(init, s) && Enabled(s, Write(t, p, body, keepsLsn))
    ensures Inv(init, Apply(s, Write(t, p, body, keepsLsn)))
  {
    hide LogInv, ImagesInv, ContextsInv, FramesInv, DiskInv, RetentionInv;
    var s' := Apply(s, Write(t, p, body, keepsLsn));
    LogSame(init, s, s');
    ImagesSame(init, s, s');
    if p !in s.contexts[t].pages {
      FirstIntent(init, s, t, p);
    }
    WriteContexts(init, s, t, p, body, keepsLsn);
    WriteFrames(init, s, t, p, body, keepsLsn);
    DiskSame(init, s, s');
    RetentionSame(s, s');
  }

  lemma WriteContexts(init: Database, s: State, t: TxnId, p: PageId, body: Body, keepsLsn: bool)
    requires ContextsInv(init, s) && Enabled(s, Write(t, p, body, keepsLsn))
    requires p !in s.contexts[t].pages ==>
               p in init && Hist(init, s, p).owner == None && Hist(init, s, p).images == []
               && s.frames[p].page.body == Hist(init, s, p).committed
    ensures ContextsInv(init, Apply(s, Write(t, p, body, keepsLsn)))
  {
    hide HistAt, TxnsAt, PageStateOk;
    var s' := WriteStep(s, t, p, body, keepsLsn);
    forall u | u in s'.contexts ensures ContextOk(init, s', u) {
      assert ContextOk(init, s, u);
      forall q | q in s'.contexts[u].pages ensures PageStateOk(init, s', u, q) {
        if q in s.contexts[u].pages {
          PageStateSameAt(init, s, s', u, q);
        } else {
          FirstPageState(init, s, t, p, body, keepsLsn);
        }
      }
    }
    WriteDisjoint(init, s, t, p, body, keepsLsn);
    hide ContextOk;
  }

  lemma FirstPageState(init: Database, s: State, t: TxnId, p: PageId, body: Body, keepsLsn: bool)
    requires t in s.contexts && p in s.frames && p !in s.contexts[t].pages && !Rolling(s, t)
    requires p in init && Hist(init, s, p).owner == None && Hist(init, s, p).images == []
    requires s.frames[p].page.body == Hist(init, s, p).committed
    ensures PageStateOk(init, WriteStep(s, t, p, body, keepsLsn), t, p)
  {
    hide HistAt;
  }

  lemma WriteDisjoint(init: Database, s: State, t: TxnId, p: PageId, body: Body, keepsLsn: bool)
    requires ContextsInv(init, s) && Enabled(s, Write(t, p, body, keepsLsn))
    ensures var s' := WriteStep(s, t, p, body, keepsLsn);
            forall u, v, q :: Writes(s', u, q) && Writes(s', v, q) ==> u == v
  {
    hide HistAt, TxnsAt, ContextOk;
    var s' := WriteStep(s, t, p, body, keepsLsn);
    forall u, v, q | Writes(s', u, q) && Writes(s', v, q) ensures u == v {
      if q != p {
        assert Writes(s, u, q) && Writes(s, v, q);
      }
    }
  }

  lemma WriteFrames(init: Database, s: State, t: TxnId, p: PageId, body: Body, keepsLsn: bool)
    requires FramesInv(init, s) && Enabled(s, Write(t, p, body, keepsLsn))
    ensures FramesInv(init, Apply(s, Write(t, p, body, keepsLsn)))
  {
    hide HistAt;
    var s' := Apply(s, Write(t, p, body, keepsLsn));
    assert Writes(s', t, p);
    forall q | q in s'.frames ensures FrameOk(init, s', q) {
      assert FrameOk(init, s, q);
      OwnedStays(s, s', q);
    }
  }

  /** The first write intent on a page sees the committed image. */
  lemma FirstIntent(init: Database, s: State, t: TxnId, p: PageId)
    requires LogInv(init, s) && ContextsInv(init, s) && FramesInv(init, s)
    requires t in s.contexts && p in s.frames && p !in s.contexts[t].pages
    requires forall u :: u in s.contexts && u != t ==> p !in s.contexts[u].pages
    ensures p in init && Hist(init, s, p).owner == None && Hist(init, s, p).images == []
    ensures s.frames[p].page.body == Hist(init, s, p).committed
  {
    hide HistAt, TxnsAt, LogOk, Retains;
    assert FrameOk(init, s, p);
    assert forall u :: !Writes(s, u, p);
    assert !Owned(s, p);
    Ownership(init, s.log, |s.log|, p);
  }

  lemma ForceKeeps(init: Database, s: State)
    requires Inv(init, s) && Enabled(s, Force)
    ensures Inv(init, Apply(s, Force))
  {
    hide LogOk, ContextsInv, FramesInv, DiskInv, RetentionInv, ImageOk, TxnsAt, Retains, Caught, Plausible;
    var s' := Apply(s, Force);
    LogSame(init, s, s');
    ImagesGrow(init, s, s.log, |s.log|);
    if s.mode.Running? || s.mode.RollingBack? {
      ContextsSame(init, s, s');
      FramesSame(init, s, s');
      DiskSame(init, s, s');
      RetentionSame(s, s');
    }
  }

  lemma SyncKeeps(init: Database, s: State)
    requires Inv(init, s) && Enabled(s, Sync)
    ensures Inv(init, Apply(s, Sync))
  {
    hide LogInv, ContextsInv, FramesInv, DiskInv, RetentionInv, ImageOk, Caught, Plausible;
    var s' := Apply(s, Sync);
    LogSame(init, s, s');
    assert s'.images.Keys == s.disk.Keys;
    if s.mode.Running? || s.mode.RollingBack? {
      ContextsSame(init, s, s');
      FramesSame(init, s, s');
      DiskSame(init, s, s');
      RetentionSame(s, s');
    }
  }

  lemma ReclaimKeeps(init: Database, s: State, to: nat)
    requires Inv(init, s) && Enabled(s, Reclaim(to))
    ensures Inv(init, Apply(s, Reclaim(to)))
  {
    hide ImagesInv, ContextsInv, FramesInv, DiskInv, LogOk, TxnsAt;
    var s' := Apply(s, Reclaim(to));
    ImagesSame(init, s, s');
    ContextsSame(init, s, s');
    FramesSame(init, s, s');
    DiskSame(init, s, s');
    forall t | t in Txns(s') && Unfinished(Txns(s')[t]) ensures to <= Txns(s')[t].begin {
      LiveAboveFloor(init, s.log, s.slot, to, t);
    }
  }

  /** A transaction live now was live at the checkpoint, or began after it. */
  lemma LiveAboveFloor(init: Database, log: Log, slot: Lsn, to: nat, t: TxnId)
    requires LogOk(init, log) && CheckpointAt(log, slot) && Retains(log[slot], to)
    requires Live(TxnsAt(log, |log|), t)
    ensures to <= TxnsAt(log, |log|)[t].begin
  {
    assert RecordOk(init, log, slot);
    if t in TxnsAt(log, slot) {
      EntryStays(init, log, slot, |log|, t);
      if !Unfinished(TxnsAt(log, slot)[t]) {
        FinishedStays(init, log, slot, |log|, t);
        assert false;
      }
    } else {
      EntryShape(init, log, |log|, t);
      var b := TxnsAt(log, |log|)[t].begin;
      if b < slot {
        LastBound(init, log, slot, b, t);
        assert false;
      }
    }
  }
}
