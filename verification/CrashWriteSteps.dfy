/** Steps of normal operation that write pages or append to the log keep the invariant. */
module CrashWriteSteps {
  import opened Options
  import opened PageDelta
  import opened WalLog
  import opened LogTheory
  import opened CrashModel
  import opened CrashInvariant
  import opened CrashLemmas
  import opened CrashSteps

  // ---- Carrying frames and disk over a longer log ----

  /** What the page holds has not changed; at most its owner has finished. */
  predicate Settles(h: PageHist, h': PageHist) {
    h'.last == h.last && Latest(h') == Latest(h) && (h'.images == h.images || h'.images == [])
  }

  lemma FrameCarry(init: Database, s: State, s': State, p: PageId)
    requires p in s.frames && FrameOk(init, s, p) && p in s'.frames && s'.frames[p] == s.frames[p]
    requires Extends(s'.log, s.log) && Settles(Hist(init, s, p), Hist(init, s', p))
    requires s.frames[p].pending ==> Owned(s', p)
    ensures FrameOk(init, s', p)
  {
    hide HistAt;
    var f := s.frames[p];
    if f.page.lsn != INVALID_LSN {
      assert s'.log[f.page.lsn] == s'.log[..|s.log|][f.page.lsn];
    }
  }

  lemma DiskCarry(init: Database, s: State, s': State, p: PageId)
    requires p in init && p in s.disk && DiskOk(init, s, p)
    requires p in s'.disk && s'.disk[p] == s.disk[p] && RecLsn(s', p) == RecLsn(s, p) && s.durable <= s'.durable
    requires Extends(s'.log, s.log) && Settles(Hist(init, s, p), Hist(init, s', p))
    ensures DiskOk(init, s', p)
  {
    if RecLsn(s, p) != INVALID_LSN {
      var at: nat := Max(0, Max(s.disk[p].lsn + 1, s.frames[p].recLsn));
      ExtendsAt(init, s.log, s'.log, at);
    }
  }

  lemma RetentionCarry(s: State, s': State)
    requires RetentionInv(s) && Extends(s'.log, s.log) && s'.slot == s.slot && s'.base == s.base
    requires s.slot == INVALID_LSN || CheckpointAt(s.log, s.slot)
    requires forall p :: p in s'.frames && RecLsn(s', p) != INVALID_LSN ==> RecLsn(s', p) == RecLsn(s, p)
    ensures RetentionInv(s')
  {
    hide AboveFloor;
    if s.slot != INVALID_LSN {
      assert s'.log[s.slot] == s'.log[..|s.log|][s.slot];
    }
    forall p | p in s'.frames && s'.frames[p].recLsn != INVALID_LSN
      ensures s'.base <= s'.frames[p].recLsn
              && (CheckpointAt(s'.log, s'.slot) ==> AboveFloor(s'.log[s'.slot], s'.frames[p].recLsn))
    {
      assert RecLsn(s', p) == RecLsn(s, p);
    }
  }

  /** The images a crash may leave, when only the log grew. */
  lemma ImagesCarry(init: Database, s: State, s': State)
    requires LogInv(init, s) && ImagesInv(init, s)
    requires LogOk(init, s'.log) && Extends(s'.log, s.log) && s.durable <= s'.durable <= |s'.log|
    requires s'.disk == s.disk && s'.images == s.images && s'.slot == s.slot
    ensures ImagesInv(init, s')
  {
    hide LogOk, ImageOk;
    assert s'.log[..s.durable] == s'.log[..|s.log|][..s.durable] == s.log[..s.durable];
    ImagesGrow(init, s, s'.log, s'.durable);
  }

  // ---- Writing a page back ----

  lemma WriteBackKeeps(init: Database, s: State, p: PageId)
    requires Inv(init, s) && Enabled(s, WriteBack(p))
    ensures Inv(init, Apply(s, WriteBack(p)))
  {
    hide LogInv, ImagesInv, ContextsInv, FramesInv, DiskInv, RetentionInv;
    var s' := Apply(s, WriteBack(p));
    LogSame(init, s, s');
    ContextsSame(init, s, s');
    NewestDurable(init, s, p);
    WriteBackImages(init, s, p);
    WriteBackFrames(init, s, p);
    RetentionSame(s, s');
  }

  /** The WAL rule: a prepared frame may go to disk only once its newest record is durable. */
  lemma NewestDurable(init: Database, s: State, p: PageId)
    requires FramesInv(init, s) && DiskInv(init, s) && Enabled(s, WriteBack(p))
    ensures p in init && Hist(init, s, p).last < s.durable
    ensures s.frames[p].page.body == Latest(Hist(init, s, p)) && Stamped(s.frames[p].page.lsn, Hist(init, s, p))
  {
    hide HistAt;
    assert FrameOk(init, s, p);
    if s.frames[p].recLsn == INVALID_LSN {
      assert DiskOk(init, s, p);
    }
  }

  lemma WriteBackImages(init: Database, s: State, p: PageId)
    requires LogInv(init, s) && ImagesInv(init, s) && FramesInv(init, s) && Enabled(s, WriteBack(p))
    requires p in init && Hist(init, s, p).last < s.durable
    requires s.frames[p].page.body == Latest(Hist(init, s, p)) && Stamped(s.frames[p].page.lsn, Hist(init, s, p))
    ensures ImagesInv(init, Apply(s, WriteBack(p)))
  {
    hide ImageOk, LogOk, HistAt, TxnsAt, Retains;
    var s' := Apply(s, WriteBack(p));
    var g := s.frames[p].page;
    assert FrameOk(init, s, p);
    WrittenImage(init, s, p, g);
    hide FrameOk;
    assert s'.images.Keys == s.images.Keys && s'.disk.Keys == s.disk.Keys;
    forall q, x | q in init && x in s'.images[q] ensures ImageOk(init, s'.log[..s'.durable], s'.slot, q, x) {
      assert x in s.images[q] || (q == p && x == g);
    }
  }

  /** A page that is all there is, with its newest record durable, is one REDO can start from. */
  lemma WrittenImage(init: Database, s: State, p: PageId, g: Page)
    requires LogInv(init, s) && p in init && Hist(init, s, p).last < s.durable
    requires g.body == Latest(Hist(init, s, p)) && Stamped(g.lsn, Hist(init, s, p))
    requires g.lsn != INVALID_LSN ==> 0 <= g.lsn < |s.log| && OnPage(s.log[g.lsn], p)
    ensures ImageOk(init, s.log[..s.durable], s.slot, p, g)
  {
    hide ImageOk, LogOk, HistAt, TxnsAt, Retains;
    var prefix := s.log[..s.durable];
    DurableHist(init, s.log, s.durable, |s.log|, p);
    CutOk(init, s.log, s.durable);
    HistPrefix(init, s.log, prefix, s.durable, p);
    SlotDurable(init, s);
    CurrentImageOk(init, prefix, s.slot, p, g);
  }

  lemma WriteBackFrames(init: Database, s: State, p: PageId)
    requires FramesInv(init, s) && DiskInv(init, s) && Enabled(s, WriteBack(p))
    requires p in init && Hist(init, s, p).last < s.durable
    requires s.frames[p].page.body == Latest(Hist(init, s, p)) && Stamped(s.frames[p].page.lsn, Hist(init, s, p))
    ensures FramesInv(init, Apply(s, WriteBack(p))) && DiskInv(init, Apply(s, WriteBack(p)))
  {
    hide HistAt, FrameOk, DiskOk;
    var s' := Apply(s, WriteBack(p));
    assert forall u, q :: Writes(s, u, q) ==> Writes(s', u, q);
    WriteBackOwn(init, s, p);
    forall q | q in s'.frames ensures FrameOk(init, s', q) {
      if q != p {
        FrameSameAt(init, s, s', q);
      }
    }
    assert s'.disk.Keys == s.disk.Keys;
    forall q | q in init && !Exempt(init, s', q) ensures DiskOk(init, s', q) {
      if q != p {
        DiskSameAt(init, s, s', q);
      }
    }
  }

  lemma WriteBackOwn(init: Database, s: State, p: PageId)
    requires Enabled(s, WriteBack(p)) && FrameOk(init, s, p) && Hist(init, s, p).last < s.durable
    requires s.frames[p].page.body == Latest(Hist(init, s, p)) && Stamped(s.frames[p].page.lsn, Hist(init, s, p))
    ensures var s' := Apply(s, WriteBack(p)); FrameOk(init, s', p) && DiskOk(init, s', p)
  {
    hide HistAt;
  }

  // ---- Commit ----

  lemma CommitKeeps(init: Database, s: State, t: TxnId)
    requires Inv(init, s) && Enabled(s, CommitTxn(t))
    ensures Inv(init, Apply(s, CommitTxn(t)))
  {
    hide LogInv, ImagesInv, ContextsInv, FramesInv, DiskInv, RetentionInv;
    var s' := Apply(s, CommitTxn(t));
    if s.contexts[t].begin == INVALID_LSN {
      LogSame(init, s, s');
      ImagesSame(init, s, s');
      ForgetContexts(init, s, t);
      ForgetFrames(init, s, t);
      DiskSame(init, s, s');
      RetentionSame(s, s');
    } else {
      CommitLog(init, s, t);
      CommitImages(init, s, t);
      CommitContexts(init, s, t);
      CommitPages(init, s, t);
      CommitRetention(init, s, t);
    }
  }

  /** A transaction that logged nothing owns nothing. */
  lemma NotOwner(init: Database, s: State, t: TxnId, p: PageId)
    requires LogOk(init, s.log) && t in s.contexts && ContextOk(init, s, t) && s.contexts[t].begin == INVALID_LSN
    requires p in init
    ensures Hist(init, s, p).owner != Some(t)
  {
    Ownership(init, s.log, |s.log|, p);
  }

  /** A transaction that logged nothing leaves no trace. */
  lemma ForgetContexts(init: Database, s: State, t: TxnId)
    requires LogInv(init, s) && ContextsInv(init, s) && s.mode.Running?
    requires t in s.contexts && s.contexts[t].begin == INVALID_LSN
    ensures ContextsInv(init, s.(contexts := s.contexts - {t}))
  {
    hide HistAt, TxnsAt, MaskAfter, LogOk, Retains;
    var s' := s.(contexts := s.contexts - {t});
    forall u | u in s'.contexts ensures ContextOk(init, s', u) {
      ContextCarry(init, s, s', u);
    }
    forall p | p in init && Hist(init, s', p).owner.Some?
      ensures Hist(init, s', p).owner.value in s'.contexts
              && p in s'.contexts[Hist(init, s', p).owner.value].pages
    {
      NotOwner(init, s, t, p);
    }
    assert ContextOk(init, s, t);
    forall u, v, p | Writes(s', u, p) && Writes(s', v, p) ensures u == v {
      assert Writes(s, u, p) && Writes(s, v, p);
    }
  }

  lemma ForgetFrames(init: Database, s: State, t: TxnId)
    requires FramesInv(init, s) && t in s.contexts && Prepared(s, t)
    ensures FramesInv(init, s.(contexts := s.contexts - {t}))
  {
    hide HistAt;
    var s' := s.(contexts := s.contexts - {t});
    forall p | p in s'.frames ensures FrameOk(init, s', p) {
      assert FrameOk(init, s, p);
      StillOwned(s, s', t, p);
    }
  }

  lemma StillOwned(s: State, s': State, t: TxnId, p: PageId)
    requires t in s.contexts && Prepared(s, t) && p in s.frames
    requires forall u :: u in s.contexts && u != t ==> u in s'.contexts && s'.contexts[u] == s.contexts[u]
    ensures s.frames[p].pending && Owned(s, p) ==> Owned(s', p)
  {
    if s.frames[p].pending && Owned(s, p) {
      var u :| Writes(s, u, p);
      assert Writes(s', u, p);
    }
  }

  lemma CommitLog(init: Database, s: State, t: TxnId)
    requires LogInv(init, s) && ContextsInv(init, s) && Enabled(s, CommitTxn(t)) && s.contexts[t].begin != INVALID_LSN
    ensures var r := Commit(t, s.contexts[t].last);
            RecordOk(init, s.log + [r], |s.log|) && LogInv(init, Apply(s, CommitTxn(t)))
  {
    var s' := Apply(s, CommitTxn(t));
    var r := Commit(t, s.contexts[t].last);
    assert ContextOk(init, s, t);
    AppendView(init, s.log, r);
    Appended(init, s.log, r);
    hide LogOk, HistAt;
    assert Txns(s') == TxnStep(Txns(s), r, |s.log|);
  }

  lemma CommitImages(init: Database, s: State, t: TxnId)
    requires LogInv(init, s) && ImagesInv(init, s) && Enabled(s, CommitTxn(t)) && s.contexts[t].begin != INVALID_LSN
    requires LogInv(init, Apply(s, CommitTxn(t)))
    ensures ImagesInv(init, Apply(s, CommitTxn(t)))
  {
    hide LogOk, ImageOk, TxnsAt;
    ImagesCarry(init, s, Apply(s, CommitTxn(t)));
  }

  /** Another transaction's context is judged by its own entry and its own pages. */
  lemma ContextCarry(init: Database, s: State, s': State, u: TxnId)
    requires u in s.contexts && ContextOk(init, s, u) && u in s'.contexts && s'.contexts[u] == s.contexts[u]
    requires s.nextTid <= s'.nextTid && (Rolling(s', u) <==> Rolling(s, u))
    requires u in Txns(s') <==> u in Txns(s)
    requires u in Txns(s) ==> Txns(s')[u] == Txns(s)[u]
    requires forall p :: p in s.contexts[u].pages && p in init ==> Hist(init, s', p) == Hist(init, s, p)
    ensures ContextOk(init, s', u)
  {
    hide HistAt, TxnsAt, MaskAfter;
    forall p | p in s'.contexts[u].pages ensures PageStateOk(init, s', u, p) {
      assert PageStateOk(init, s, u, p);
    }
  }

  lemma CommitContexts(init: Database, s: State, t: TxnId)
    requires LogInv(init, s) && ContextsInv(init, s) && Enabled(s, CommitTxn(t)) && s.contexts[t].begin != INVALID_LSN
    requires RecordOk(init, s.log + [Commit(t, s.contexts[t].last)], |s.log|)
    ensures ContextsInv(init, Apply(s, CommitTxn(t)))
  {
    hide LogOk, HistAt, TxnsAt, ContextOk, RecordOk, Retains;
    var s' := Apply(s, CommitTxn(t));
    CommitSettles(init, s, t);
    forall u | u in s'.contexts ensures ContextOk(init, s', u) {
      forall p | p in s.contexts[u].pages && p in init ensures Hist(init, s', p) == Hist(init, s, p) {
        assert Writes(s, u, p);
        assert !Writes(s, t, p);
      }
      ContextCarry(init, s, s', u);
    }
    forall u, v, p | Writes(s', u, p) && Writes(s', v, p) ensures u == v {
      assert Writes(s, u, p) && Writes(s, v, p);
    }
  }

  lemma CommitSettles(init: Database, s: State, t: TxnId)
    requires LogInv(init, s) && Enabled(s, CommitTxn(t)) && s.contexts[t].begin != INVALID_LSN
    requires RecordOk(init, s.log + [Commit(t, s.contexts[t].last)], |s.log|)
    ensures var s' := Apply(s, CommitTxn(t)); Txns(s') == TxnStep(Txns(s), Commit(t, s.contexts[t].last), |s.log|)
    ensures var s' := Apply(s, CommitTxn(t));
            forall p :: p in init ==>
              Settles(Hist(init, s, p), Hist(init, s', p))
              && (Hist(init, s, p).owner != Some(t) ==> Hist(init, s', p) == Hist(init, s, p))
              && (Hist(init, s, p).owner == Some(t) ==> Hist(init, s', p).owner == None)
    ensures var s' := Apply(s, CommitTxn(t));
            forall p :: p in init ==>
              Hist(init, s', p).committed
              == if Hist(init, s, p).owner == Some(t) then Latest(Hist(init, s, p)) else Hist(init, s, p).committed
  {
    Appended(init, s.log, Commit(t, s.contexts[t].last));
  }

  lemma CommitFrames(init: Database, s: State, t: TxnId)
    requires LogInv(init, s) && FramesInv(init, s) && DiskInv(init, s)
    requires Enabled(s, CommitTxn(t)) && s.contexts[t].begin != INVALID_LSN
    requires RecordOk(init, s.log + [Commit(t, s.contexts[t].last)], |s.log|)
    ensures FramesInv(init, Apply(s, CommitTxn(t)))
  {
    hide LogOk, HistAt, TxnsAt, RecordOk, Settles, DiskOk;
    var s' := Apply(s, CommitTxn(t));
    CommitSettles(init, s, t);
    assert Extends(s'.log, s.log);
    forall p | p in s'.frames ensures FrameOk(init, s', p) {
      assert FrameOk(init, s, p);
      StillOwned(s, s', t, p);
      FrameCarry(init, s, s', p);
    }
  }

  lemma CommitPages(init: Database, s: State, t: TxnId)
    requires LogInv(init, s) && FramesInv(init, s) && DiskInv(init, s)
    requires Enabled(s, CommitTxn(t)) && s.contexts[t].begin != INVALID_LSN
    requires RecordOk(init, s.log + [Commit(t, s.contexts[t].last)], |s.log|)
    ensures FramesInv(init, Apply(s, CommitTxn(t))) && DiskInv(init, Apply(s, CommitTxn(t)))
  {
    hide LogOk, HistAt, TxnsAt, RecordOk, Settles, FrameOk, DiskOk;
    var s' := Apply(s, CommitTxn(t));
    CommitFrames(init, s, t);
    CommitSettles(init, s, t);
    assert Extends(s'.log, s.log);
    forall p | p in init && !Exempt(init, s', p) ensures DiskOk(init, s', p) {
      DiskCarry(init, s, s', p);
    }
  }

  lemma CommitRetention(init: Database, s: State, t: TxnId)
    requires LogInv(init, s) && RetentionInv(s) && Enabled(s, CommitTxn(t)) && s.contexts[t].begin != INVALID_LSN
    ensures RetentionInv(Apply(s, CommitTxn(t)))
  {
    hide LogOk, TxnsAt, AboveFloor;
    RetentionCarry(s, Apply(s, CommitTxn(t)));
  }

  /** What a commit publishes: exactly the bytes the transaction wrote, on exactly its pages. */
  lemma CommitPublishes(init: Database, s: State, t: TxnId)
    requires Inv(init, s) && Enabled(s, CommitTxn(t))
    ensures var s' := Apply(s, CommitTxn(t));
            forall p :: p in init ==>
              CommittedDb(init, s'.log)[p]
              == if p in s.contexts[t].pages then View(s, p) else CommittedDb(init, s.log)[p]
  {
    assert s.disk.Keys == init.Keys;
    hide LogInv, ImagesInv, ContextsInv, FramesInv, DiskInv, RetentionInv;
    var s' := Apply(s, CommitTxn(t));
    if s.contexts[t].begin != INVALID_LSN {
      CommitLog(init, s, t);
      CommitSettles(init, s, t);
    }
    hide HistAt, Settles, RecordOk;
    forall p | p in init
      ensures Hist(init, s', p).committed
              == if p in s.contexts[t].pages then View(s, p) else Hist(init, s, p).committed
    {
      if Hist(init, s, p).owner == Some(t) {
        OwnerWrites(init, s, t, p);
      }
      if p in s.contexts[t].pages {
        PreparedView(init, s, t, p);
      }
    }
  }

  lemma OwnerWrites(init: Database, s: State, t: TxnId, p: PageId)
    requires ContextsInv(init, s) && p in init && Hist(init, s, p).owner == Some(t)
    ensures t in s.contexts && p in s.contexts[t].pages
  {
  }

  /** Once prepared, a page of the transaction reads as the last image it logged, or as the original. */
  lemma PreparedView(init: Database, s: State, t: TxnId, p: PageId)
    requires LogInv(init, s) && ContextsInv(init, s) && FramesInv(init, s) && DiskInv(init, s) && s.mode.Running?
    requires t in s.contexts && p in s.contexts[t].pages && Prepared(s, t)
    ensures p in init && p in s.disk && View(s, p) == Latest(Hist(init, s, p))
    ensures Latest(Hist(init, s, p)) == Hist(init, s, p).committed
            || (Hist(init, s, p).owner == Some(t) && s.contexts[t].begin != INVALID_LSN)
  {
    hide HistAt, TxnsAt, MaskAfter, LogOk, Retains;
    assert ContextOk(init, s, t);
    assert PageStateOk(init, s, t, p);
    if p in s.frames {
      assert FrameOk(init, s, p);
    } else {
      assert DiskOk(init, s, p);
    }
    if s.contexts[t].begin == INVALID_LSN {
      NotOwner(init, s, t, p);
    }
  }
}
