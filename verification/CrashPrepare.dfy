/** Preparing a page, the step that logs a change, keeps the invariant. */
module CrashPrepare {
  import opened Options
  import opened PageDelta
  import opened WalLog
  import opened LogTheory
  import opened CrashModel
  import opened CrashInvariant
  import opened CrashLemmas
  import opened CrashSteps
  import opened CrashWriteSteps

  // ---- The logged change ----

  lemma {:induction false} MaskPrefix(original: Body, images: seq<Body>, body: Body, k: nat)
    requires k <= |images|
    ensures MaskAfter(original, images + [body], k) == MaskAfter(original, images, k)
  {
    if k > 0 {
      MaskPrefix(original, images, body, k - 1);
    }
  }

  lemma MaskGrows(h: PageHist, body: Body)
    ensures MaskAfter(h.committed, h.images + [body], |h.images| + 1)
            == Touch(MaskAfter(h.committed, h.images, |h.images|), Latest(h), body)
  {
    MaskPrefix(h.committed, h.images, body, |h.images|);
  }

  /** A change encoded under the accumulated mask is sound on the whole page history: it carries the
      original and every standing image to the new one, and any of them back to the original. */
  lemma EncodingSound(change: Change, h: PageHist, body: Body)
    requires Encoding(change, h.committed, body, Touch(MaskAfter(h.committed, h.images, |h.images|), Latest(h), body))
    ensures ChangeOk(change, h) && Redone(change, h.committed) == body
  {
    if change.ByteRanges? {
      var images := h.images + [body];
      MaskGrows(h, body);
      hide Touch, MaskAfter, Encodes, WellFormed, ApplyAfter, ApplyBefore;
      DeltaChain(h.committed, images, |images|, change.ranges, h.committed);
      assert images[..|images|] == images;
      forall x: Body | x == h.committed || x in images
        ensures ApplyAfter(x, change.ranges) == body && ApplyBefore(x, change.ranges) == h.committed
      {
        DeltaChain(h.committed, images, |images|, change.ranges, x);
      }
      assert body == images[|h.images|];
    }
  }

  // ---- A page with nothing new to log ----

  lemma NothingNewKeeps(init: Database, s: State, t: TxnId, p: PageId, change: Change)
    requires Inv(init, s) && Enabled(s, Prepare(t, p, change))
    requires s.frames[p].page.body == Known(s.contexts[t].pages[p])
    ensures Inv(init, Apply(s, Prepare(t, p, change)))
  {
    hide LogInv, ImagesInv, ContextsInv, FramesInv, DiskInv, RetentionInv;
    var s' := Apply(s, Prepare(t, p, change));
    LogSame(init, s, s');
    ImagesSame(init, s, s');
    ContextsSame(init, s, s');
    NothingNewFrames(init, s, t, p, change);
    if s.contexts[t].pages[p].latestLsn != INVALID_LSN && s.frames[p].recLsn == INVALID_LSN {
      RestampDisk(init, s, t, p, change);
      RestampRetention(init, s, t, p, change);
    } else {
      DiskSame(init, s, s');
      RetentionSame(s, s');
    }
  }

  lemma NothingNewFrames(init: Database, s: State, t: TxnId, p: PageId, change: Change)
    requires LogInv(init, s) && ContextsInv(init, s) && FramesInv(init, s) && Enabled(s, Prepare(t, p, change))
    requires s.frames[p].page.body == Known(s.contexts[t].pages[p])
    ensures FramesInv(init, Apply(s, Prepare(t, p, change)))
  {
    hide HistAt, TxnsAt, MaskAfter, LogOk, Retains, Encoding, Touch, FrameOk, PageStateOk;
    var s' := Apply(s, Prepare(t, p, change));
    assert ContextOk(init, s, t);
    NothingNewFrame(init, s, t, p, change);
    assert forall u, q :: Writes(s, u, q) ==> Writes(s', u, q);
    forall q | q in s'.frames ensures FrameOk(init, s', q) {
      if q != p {
        FrameSameAt(init, s, s', q);
      }
    }
  }

  lemma NothingNewFrame(init: Database, s: State, t: TxnId, p: PageId, change: Change)
    requires LogOk(init, s.log) && Enabled(s, Prepare(t, p, change))
    requires PageStateOk(init, s, t, p) && FrameOk(init, s, p)
    requires s.frames[p].page.body == Known(s.contexts[t].pages[p])
    ensures FrameOk(init, PrepareStep(s, t, p, change), p)
  {
    hide HistAt, MaskAfter, LogOk, Encoding, Touch, TxnsAt;
    Ownership(init, s.log, |s.log|, p);
    HistLastMonotone(init, s.log, 0, |s.log|, p);
  }

  /** A page evicted after it was logged, fetched again and rewritten to the same bytes. */
  lemma RestampDisk(init: Database, s: State, t: TxnId, p: PageId, change: Change)
    requires LogInv(init, s) && ContextsInv(init, s) && DiskInv(init, s) && Enabled(s, Prepare(t, p, change))
    requires s.frames[p].page.body == Known(s.contexts[t].pages[p])
    requires s.contexts[t].pages[p].latestLsn != INVALID_LSN && s.frames[p].recLsn == INVALID_LSN
    ensures DiskInv(init, Apply(s, Prepare(t, p, change)))
  {
    hide HistAt, TxnsAt, MaskAfter, LogOk, Retains, Encoding, Touch, PageStateOk, DiskOk;
    var s' := Apply(s, Prepare(t, p, change));
    assert ContextOk(init, s, t);
    forall q | q in init && !Exempt(init, s', q) ensures DiskOk(init, s', q) {
      if q != p {
        DiskSameAt(init, s, s', q);
      } else {
        RestampOwnDisk(init, s, t, p, change);
      }
    }
  }

  lemma RestampOwnDisk(init: Database, s: State, t: TxnId, p: PageId, change: Change)
    requires LogOk(init, s.log) && s.mode.Running? && Enabled(s, Prepare(t, p, change))
    requires PageStateOk(init, s, t, p) && p in s.disk && DiskOk(init, s, p)
    requires s.frames[p].page.body == Known(s.contexts[t].pages[p])
    requires s.contexts[t].pages[p].latestLsn != INVALID_LSN && s.frames[p].recLsn == INVALID_LSN
    ensures DiskOk(init, PrepareStep(s, t, p, change), p)
  {
    hide HistAt, TxnsAt, MaskAfter, LogOk, Encoding, Touch;
    Ownership(init, s.log, |s.log|, p);
    Quiet(init, s.log, Hist(init, s, p).last + 1, |s.log|, p);
  }

  lemma RestampRetention(init: Database, s: State, t: TxnId, p: PageId, change: Change)
    requires LogInv(init, s) && ContextsInv(init, s) && RetentionInv(s) && Enabled(s, Prepare(t, p, change))
    requires s.frames[p].page.body == Known(s.contexts[t].pages[p])
    requires s.contexts[t].pages[p].latestLsn != INVALID_LSN && s.frames[p].recLsn == INVALID_LSN
    ensures RetentionInv(Apply(s, Prepare(t, p, change)))
  {
    hide HistAt, TxnsAt, MaskAfter, LogOk, Retains, Encoding, Touch, AboveFloor;
    var s' := Apply(s, Prepare(t, p, change));
    assert ContextOk(init, s, t);
    assert PageStateOk(init, s, t, p);
    Ownership(init, s.log, |s.log|, p);
    var l := s'.frames[p].recLsn;
    assert Live(Txns(s), t) && Txns(s)[t].begin < l;
    if s.slot != INVALID_LSN {
      AboveBegin(init, s.log, s.slot, t, l);
    }
  }

  /** Records of a live transaction lie above every floor the published checkpoint allows. */
  lemma AboveBegin(init: Database, log: Log, slot: Lsn, t: TxnId, l: Lsn)
    requires LogOk(init, log) && CheckpointAt(log, slot) && Live(TxnsAt(log, |log|), t)
    requires TxnsAt(log, |log|)[t].begin <= l
    ensures AboveFloor(log[slot], l)
  {
    assert RecordOk(init, log, slot);
    if t in TxnsAt(log, slot) {
      EntryStays(init, log, slot, |log|, t);
      if !Unfinished(TxnsAt(log, slot)[t]) {
        FinishedStays(init, log, slot, |log|, t);
        assert false;
      }
      assert t in log[slot].att && log[slot].att[t].begin <= l;
    } else {
      EntryShape(init, log, |log|, t);
      var b := TxnsAt(log, |log|)[t].begin;
      if b < slot {
        LastBound(init, log, slot, b, t);
        assert false;
      }
    }
  }

  // ---- BEGIN goes to the log with the first change ----

  function BeginLogged(s: State, t: TxnId): (r: State)
    requires t in s.contexts
  {
    if s.contexts[t].begin != INVALID_LSN then s
    else s.(log := s.log + [Begin(t)], contexts := s.contexts[t := s.contexts[t].(begin := |s.log|, last := |s.log|)])
  }

  lemma BeginLoggedKeeps(init: Database, s: State, t: TxnId)
    requires Inv(init, s) && s.mode.Running? && t in s.contexts
    ensures Inv(init, BeginLogged(s, t))
  {
    hide LogInv, ImagesInv, ContextsInv, FramesInv, DiskInv, RetentionInv;
    if s.contexts[t].begin == INVALID_LSN {
      BeginLoggedLog(init, s, t);
      BeginLoggedContexts(init, s, t);
      BeginLoggedPages(init, s, t);
    }
  }

  lemma BeginLoggedLog(init: Database, s: State, t: TxnId)
    requires LogInv(init, s) && ImagesInv(init, s) && ContextsInv(init, s) && s.mode.Running?
    requires t in s.contexts && s.contexts[t].begin == INVALID_LSN
    ensures RecordOk(init, s.log + [Begin(t)], |s.log|)
    ensures LogInv(init, BeginLogged(s, t)) && ImagesInv(init, BeginLogged(s, t))
  {
    var s' := BeginLogged(s, t);
    assert ContextOk(init, s, t);
    AppendView(init, s.log, Begin(t));
    Appended(init, s.log, Begin(t));
    hide LogOk, HistAt, ImageOk;
    assert Txns(s') == TxnStep(Txns(s), Begin(t), |s.log|);
    assert LogInv(init, s') by { hide TxnsAt; }
    ImagesCarry(init, s, s');
  }

  lemma BeginLoggedContexts(init: Database, s: State, t: TxnId)
    requires LogInv(init, s) && ContextsInv(init, s) && s.mode.Running?
    requires t in s.contexts && s.contexts[t].begin == INVALID_LSN
    requires RecordOk(init, s.log + [Begin(t)], |s.log|)
    ensures ContextsInv(init, BeginLogged(s, t))
  {
    var s' := BeginLogged(s, t);
    Appended(init, s.log, Begin(t));
    assert Txns(s') == TxnStep(Txns(s), Begin(t), |s.log|);
    hide LogOk, HistAt, TxnsAt, RecordOk, Retains, MaskAfter;
    forall u | u in s'.contexts ensures ContextOk(init, s', u) {
      if u != t {
        ContextCarry(init, s, s', u);
      } else {
        assert ContextOk(init, s, t);
        forall p | p in s'.contexts[t].pages ensures PageStateOk(init, s', t, p) {
          assert PageStateOk(init, s, t, p);
        }
      }
    }
    forall u, v, p | Writes(s', u, p) && Writes(s', v, p) ensures u == v {
      assert Writes(s, u, p) && Writes(s, v, p);
    }
  }

  lemma BeginEffect(init: Database, s: State, t: TxnId)
    requires LogOk(init, s.log) && t in s.contexts && s.contexts[t].begin == INVALID_LSN
    requires RecordOk(init, s.log + [Begin(t)], |s.log|)
    ensures var s' := BeginLogged(s, t);
            && LogOk(init, s'.log) && Extends(s'.log, s.log) && Txns(s') == TxnStep(Txns(s), Begin(t), |s.log|)
            && forall p :: p in init ==> Hist(init, s', p) == Hist(init, s, p)
  {
    Appended(init, s.log, Begin(t));
  }

  lemma BeginLoggedPages(init: Database, s: State, t: TxnId)
    requires LogInv(init, s) && FramesInv(init, s) && DiskInv(init, s) && RetentionInv(s) && s.mode.Running?
    requires t in s.contexts && s.contexts[t].begin == INVALID_LSN
    requires RecordOk(init, s.log + [Begin(t)], |s.log|)
    ensures var s' := BeginLogged(s, t); FramesInv(init, s') && DiskInv(init, s') && RetentionInv(s')
  {
    hide LogOk, HistAt, TxnsAt, RecordOk, AboveFloor, Retains;
    var s' := BeginLogged(s, t);
    BeginEffect(init, s, t);
    RetentionCarry(s, s');
    hide RetentionInv, Extends;
    assert forall u, q :: Writes(s, u, q) ==> Writes(s', u, q);
    forall p | p in s'.frames ensures FrameOk(init, s', p) {
      assert FrameOk(init, s, p);
      OwnedStays(s, s', p);
      FrameCarry(init, s, s', p);
    }
    hide FrameOk, DiskOk;
    forall p | p in init && !Exempt(init, s', p) ensures DiskOk(init, s', p) {
      DiskCarry(init, s, s', p);
    }
  }

  // ---- The update record ----

  function UpdateLogged(s: State, t: TxnId, p: PageId, change: Change): (r: State)
    requires t in s.contexts && p in s.contexts[t].pages && p in s.frames
    requires |s.contexts[t].pages[p].touched| == PAGE_SIZE
  {
    var f, c := s.frames[p], s.contexts[t];
    var ps := c.pages[p];
    var lsn := |s.log|;
    s.(log := s.log + [Update(t, c.last, p, change)],
       contexts := s.contexts[t := c.(last := lsn,
         pages := c.pages[p := PageState(ps.before, Some(f.page.body), Touch(ps.touched, Known(ps), f.page.body),
                                         lsn)])],
       frames := s.frames[p := f.(page := Page(f.page.body, lsn), pending := false, pageLsn := lsn,
                                  recLsn := if f.recLsn == INVALID_LSN then lsn else f.recLsn)])
  }

  /** An update is about to be logged. */
  ghost predicate Changing(s: State, t: TxnId, p: PageId, change: Change) {
    && Enabled(s, Prepare(t, p, change))
    && s.contexts[t].begin != INVALID_LSN
    && s.frames[p].page.body != Known(s.contexts[t].pages[p])
  }

  lemma UpdateSound(init: Database, s: State, t: TxnId, p: PageId, change: Change)
    requires LogInv(init, s) && ContextsInv(init, s) && Changing(s, t, p, change)
    ensures RecordOk(init, s.log + [Update(t, s.contexts[t].last, p, change)], |s.log|)
    ensures p in init && Redone(change, Hist(init, s, p).committed) == s.frames[p].page.body
  {
    hide HistAt, TxnsAt, LogOk, MaskAfter, ChangeOk, Retains, Encoding, Redone, Touch;
    var r := Update(t, s.contexts[t].last, p, change);
    assert ContextOk(init, s, t);
    assert PageStateOk(init, s, t, p);
    EncodingSound(change, Hist(init, s, p), s.frames[p].page.body);
    AppendView(init, s.log, r);
  }

  /** What the appended update changes: one entry of the transaction table and one page history. */
  lemma UpdateEffect(init: Database, s: State, t: TxnId, p: PageId, change: Change)
    requires LogOk(init, s.log) && Changing(s, t, p, change)
    requires RecordOk(init, s.log + [Update(t, s.contexts[t].last, p, change)], |s.log|)
    requires p in init && Redone(change, Hist(init, s, p).committed) == s.frames[p].page.body
    ensures var s' := UpdateLogged(s, t, p, change);
            && LogOk(init, s'.log) && Extends(s'.log, s.log)
            && Txns(s') == TxnStep(Txns(s), Update(t, s.contexts[t].last, p, change), |s.log|)
            && (forall q :: q in init && q != p ==> Hist(init, s', q) == Hist(init, s, q))
            && Hist(init, s', p) == PageHist(Hist(init, s, p).committed, Some(t),
                                             Hist(init, s, p).images + [s.frames[p].page.body], |s.log|)
  {
    Appended(init, s.log, Update(t, s.contexts[t].last, p, change));
  }

  lemma UpdateLog(init: Database, s: State, t: TxnId, p: PageId, change: Change)
    requires LogInv(init, s) && ImagesInv(init, s) && Changing(s, t, p, change)
    requires RecordOk(init, s.log + [Update(t, s.contexts[t].last, p, change)], |s.log|)
    requires p in init && Redone(change, Hist(init, s, p).committed) == s.frames[p].page.body
    ensures var s' := UpdateLogged(s, t, p, change); LogInv(init, s') && ImagesInv(init, s')
  {
    hide HistAt, TxnsAt, LogOk, Encoding, ImageOk, RecordOk, Redone, Touch, Retains;
    UpdateEffect(init, s, t, p, change);
    ImagesCarry(init, s, UpdateLogged(s, t, p, change));
  }

  lemma UpdateContexts(init: Database, s: State, t: TxnId, p: PageId, change: Change)
    requires LogInv(init, s) && ContextsInv(init, s) && Changing(s, t, p, change)
    requires RecordOk(init, s.log + [Update(t, s.contexts[t].last, p, change)], |s.log|)
    requires p in init && Redone(change, Hist(init, s, p).committed) == s.frames[p].page.body
    ensures ContextsInv(init, UpdateLogged(s, t, p, change))
  {
    hide LogOk, HistAt, TxnsAt, RecordOk, Retains, MaskAfter, Touch, Encoding, Redone;
    var s' := UpdateLogged(s, t, p, change);
    UpdateEffect(init, s, t, p, change);
    assert Writes(s, t, p);
    forall u | u in s'.contexts ensures ContextOk(init, s', u) {
      if u != t {
        hide ContextOk;
        assert !Writes(s, u, p);
        ContextCarry(init, s, s', u);
      } else {
        UpdateOwnContext(init, s, t, p, change);
      }
    }
    hide ContextOk;
    forall u, v, q | Writes(s', u, q) && Writes(s', v, q) ensures u == v {
      assert Writes(s, u, q) && Writes(s, v, q);
    }
  }

  lemma UpdateOwnContext(init: Database, s: State, t: TxnId, p: PageId, change: Change)
    requires LogOk(init, s.log) && t in s.contexts && ContextOk(init, s, t) && Changing(s, t, p, change)
    requires RecordOk(init, s.log + [Update(t, s.contexts[t].last, p, change)], |s.log|)
    requires p in init && Redone(change, Hist(init, s, p).committed) == s.frames[p].page.body
    ensures ContextOk(init, UpdateLogged(s, t, p, change), t)
  {
    hide LogOk, HistAt, TxnsAt, RecordOk, MaskAfter, Touch, Encoding, Redone;
    var s' := UpdateLogged(s, t, p, change);
    UpdateEffect(init, s, t, p, change);
    MaskGrows(Hist(init, s, p), s.frames[p].page.body);
    forall q | q in s'.contexts[t].pages ensures PageStateOk(init, s', t, q) {
      assert PageStateOk(init, s, t, q);
    }
  }

  lemma UpdateFrames(init: Database, s: State, t: TxnId, p: PageId, change: Change)
    requires LogInv(init, s) && FramesInv(init, s) && Changing(s, t, p, change)
    requires RecordOk(init, s.log + [Update(t, s.contexts[t].last, p, change)], |s.log|)
    requires p in init && Redone(change, Hist(init, s, p).committed) == s.frames[p].page.body
    ensures FramesInv(init, UpdateLogged(s, t, p, change))
  {
    hide LogOk, HistAt, TxnsAt, RecordOk, Retains, Touch, Encoding, Redone, Extends;
    var s' := UpdateLogged(s, t, p, change);
    UpdateEffect(init, s, t, p, change);
    Ownership(init, s.log, |s.log|, p);
    assert forall u, v :: Writes(s, u, v) ==> Writes(s', u, v);
    forall q | q in s'.frames ensures FrameOk(init, s', q) {
      assert FrameOk(init, s, q);
      if q != p {
        OwnedStays(s, s', q);
        FrameCarry(init, s, s', q);
      }
    }
  }

  lemma UpdateDisk(init: Database, s: State, t: TxnId, p: PageId, change: Change)
    requires LogInv(init, s) && FramesInv(init, s) && DiskInv(init, s) && Changing(s, t, p, change)
    requires RecordOk(init, s.log + [Update(t, s.contexts[t].last, p, change)], |s.log|)
    requires p in init && Redone(change, Hist(init, s, p).committed) == s.frames[p].page.body
    ensures DiskInv(init, UpdateLogged(s, t, p, change))
  {
    hide LogOk, HistAt, TxnsAt, RecordOk, Retains, Touch, Encoding, Redone, Extends;
    var s' := UpdateLogged(s, t, p, change);
    UpdateEffect(init, s, t, p, change);
    forall q | q in init && !Exempt(init, s', q) ensures DiskOk(init, s', q) {
      if q != p {
        hide DiskOk;
        DiskCarry(init, s, s', q);
      } else {
        UpdateOwnDisk(init, s, t, p, change);
      }
    }
  }

  /** The disk is left where the frame began to run ahead of it. */
  lemma UpdateOwnDisk(init: Database, s: State, t: TxnId, p: PageId, change: Change)
    requires LogOk(init, s.log) && Changing(s, t, p, change)
    requires p in init && FrameOk(init, s, p) && p in s.disk && DiskOk(init, s, p)
    ensures DiskOk(init, UpdateLogged(s, t, p, change), p)
  {
    hide LogOk, TxnsAt, RecordOk, Touch, Encoding, Redone, HistStep;
    var s' := UpdateLogged(s, t, p, change);
    Ownership(init, s.log, |s.log|, p);
    var at: nat := Max(0, Max(s.disk[p].lsn + 1, s'.frames[p].recLsn));
    assert at <= |s.log|;
    assert Extends(s'.log, s.log);
    ExtendsAt(init, s.log, s'.log, at);
  }

  lemma UpdateRetention(init: Database, s: State, t: TxnId, p: PageId, change: Change)
    requires LogInv(init, s) && RetentionInv(s) && Changing(s, t, p, change)
    ensures RetentionInv(UpdateLogged(s, t, p, change))
  {
    hide LogOk, TxnsAt, Touch, Encoding;
    var s' := UpdateLogged(s, t, p, change);
    if s.slot != INVALID_LSN {
      assert s'.log[s.slot] == s.log[s.slot];
    }
  }

  lemma PrepareKeeps(init: Database, s: State, t: TxnId, p: PageId, change: Change)
    requires Inv(init, s) && Enabled(s, Prepare(t, p, change))
    ensures Inv(init, Apply(s, Prepare(t, p, change)))
  {
    hide LogInv, ImagesInv, ContextsInv, FramesInv, DiskInv, RetentionInv, Encoding, Touch;
    if s.frames[p].page.body == Known(s.contexts[t].pages[p]) {
      NothingNewKeeps(init, s, t, p, change);
    } else {
      BeginLoggedKeeps(init, s, t);
      var b := BeginLogged(s, t);
      UpdateSound(init, b, t, p, change);
      UpdateLog(init, b, t, p, change);
      UpdateContexts(init, b, t, p, change);
      UpdateFrames(init, b, t, p, change);
      UpdateDisk(init, b, t, p, change);
      UpdateRetention(init, b, t, p, change);
      assert Apply(s, Prepare(t, p, change)) == UpdateLogged(b, t, p, change);
    }
  }
}
