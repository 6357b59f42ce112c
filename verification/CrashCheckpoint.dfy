/** Fuzzy checkpoints keep the invariant. Publishing one moves the position REDO starts from, so
    every image a crash may leave must be fit at the new position. */
module CrashCheckpoint {
  import opened PageDelta
  import opened WalLog
  import opened LogTheory
  import opened CrashModel
  import opened CrashInvariant
  import opened CrashLemmas
  import opened CrashSteps
  import opened CrashWriteSteps

  predicate IsCheckpoint(r: Record) {
    r.CheckpointBegin? || r.CheckpointEnd?
  }

  /** Checkpoint records say nothing about transactions or pages. */
  ghost predicate Noted(s: State, s': State, r: Record) {
    && IsCheckpoint(r) && s'.log == s.log + [r] && s.durable <= s'.durable <= |s'.log|
    && s'.contexts == s.contexts && s'.frames == s.frames && s'.disk == s.disk && s'.images == s.images
    && s'.nextTid == s.nextTid && s'.mode == s.mode && s'.base == s.base
  }

  lemma NotedEffect(init: Database, s: State, s': State, r: Record)
    requires LogOk(init, s.log) && Noted(s, s', r) && RecordOk(init, s.log + [r], |s.log|)
    ensures LogOk(init, s'.log) && Extends(s'.log, s.log) && Txns(s') == Txns(s)
    ensures forall p :: p in init ==> Hist(init, s', p) == Hist(init, s, p)
  {
    Appended(init, s.log, r);
  }

  lemma NotedContexts(init: Database, s: State, s': State, r: Record)
    requires LogInv(init, s) && ContextsInv(init, s)
    requires Noted(s, s', r) && RecordOk(init, s.log + [r], |s.log|)
    ensures ContextsInv(init, s')
  {
    hide LogOk, HistAt, TxnsAt, RecordOk, ContextOk;
    NotedEffect(init, s, s', r);
    forall u | u in s'.contexts ensures ContextOk(init, s', u) {
      ContextCarry(init, s, s', u);
    }
    forall u, v, p | Writes(s', u, p) && Writes(s', v, p) ensures u == v {
      assert Writes(s, u, p) && Writes(s, v, p);
    }
  }

  lemma NotedPages(init: Database, s: State, s': State, r: Record)
    requires LogInv(init, s) && FramesInv(init, s) && DiskInv(init, s) && s.mode.Running?
    requires Noted(s, s', r) && RecordOk(init, s.log + [r], |s.log|)
    ensures FramesInv(init, s') && DiskInv(init, s')
  {
    hide LogOk, HistAt, TxnsAt, RecordOk, Extends;
    NotedEffect(init, s, s', r);
    assert forall u, q :: Writes(s, u, q) ==> Writes(s', u, q);
    forall p | p in s'.frames ensures FrameOk(init, s', p) {
      assert FrameOk(init, s, p);
      OwnedStays(s, s', p);
      FrameCarry(init, s, s', p);
    }
    hide FrameOk, DiskOk;
    forall p | p in init && !Exempt(init, s', p) ensures DiskOk(init, s', p) {
      DiskCarry(init, s, s', p);
    }
  }

  lemma BeginCheckpointLog(init: Database, s: State)
    requires LogInv(init, s) && ImagesInv(init, s) && RetentionInv(s) && Enabled(s, BeginCheckpoint)
    ensures RecordOk(init, s.log + [CheckpointBegin], |s.log|)
    ensures var s' := Apply(s, BeginCheckpoint);
            Noted(s, s', CheckpointBegin) && LogInv(init, s') && ImagesInv(init, s') && RetentionInv(s')
  {
    var s' := Apply(s, BeginCheckpoint);
    assert RecordOk(init, s.log + [CheckpointBegin], |s.log|) by { hide TxnsAt, LogOk; }
    hide TxnsAt, LogOk, RecordOk, AboveFloor, ImageOk, Retains;
    NotedEffect(init, s, s', CheckpointBegin);
    RetentionCarry(s, s');
    ImagesCarry(init, s, s');
  }

  lemma BeginCheckpointKeeps(init: Database, s: State)
    requires Inv(init, s) && Enabled(s, BeginCheckpoint)
    ensures Inv(init, Apply(s, BeginCheckpoint))
  {
    hide LogInv, ImagesInv, ContextsInv, FramesInv, DiskInv, RetentionInv, RecordOk;
    var s' := Apply(s, BeginCheckpoint);
    BeginCheckpointLog(init, s);
    NotedContexts(init, s, s', CheckpointBegin);
    NotedPages(init, s, s', CheckpointBegin);
  }

  // ---- The end record ----

  /** The dirty page table and the transaction table describe the log they are appended to. */
  lemma CheckpointSound(init: Database, s: State, publish: bool)
    requires LogInv(init, s) && ContextsInv(init, s) && FramesInv(init, s) && RetentionInv(s)
    requires Enabled(s, EndCheckpoint(publish))
    ensures RecordOk(init, s.log + [CheckpointRecord(s)], |s.log|)
  {
    hide HistAt, TxnsAt, LogOk, MaskAfter, Retains, FramesInv, ContextsInv, RetentionInv;
    var r := CheckpointRecord(s);
    assert r.CheckpointEnd? && r.begin == |s.log| - 1 && r.nextTid == s.nextTid;
    TableBounds(init, s, publish);
    AttachedLive(init, s, publish);
    hide CheckpointRecord;
    AppendView(init, s.log, r);
  }

  lemma TableBounds(init: Database, s: State, publish: bool)
    requires LogInv(init, s) && FramesInv(init, s) && RetentionInv(s) && Enabled(s, EndCheckpoint(publish))
    ensures var r := CheckpointRecord(s);
            forall p :: p in r.dpt ==> p in init && s.base <= r.dpt[p] < r.begin
  {
    hide HistAt, TxnsAt, LogOk, Retains, AboveFloor;
    var r := CheckpointRecord(s);
    forall p | p in r.dpt ensures p in init && s.base <= r.dpt[p] < r.begin {
      assert FrameOk(init, s, p);
      Ownership(init, s.log, |s.log|, p);
    }
  }

  lemma AttachedLive(init: Database, s: State, publish: bool)
    requires ContextsInv(init, s) && Enabled(s, EndCheckpoint(publish))
    ensures var r := CheckpointRecord(s);
            && (forall t :: t in r.att <==> Live(Txns(s), t))
            && (forall t :: t in r.att ==>
                  Txns(s)[t].status.Active? && r.att[t] == Attached(Txns(s)[t].begin, Txns(s)[t].last))
  {
    hide HistAt, TxnsAt, MaskAfter;
    var r := CheckpointRecord(s);
    forall t | t in s.contexts
      ensures t in r.att <==> Live(Txns(s), t)
      ensures t in r.att ==>
                Txns(s)[t].status.Active? && r.att[t] == Attached(Txns(s)[t].begin, Txns(s)[t].last)
    {
      assert ContextOk(init, s, t);
    }
  }

  /** Everything the new checkpoint needs is still in the log. */
  lemma CheckpointRetained(init: Database, s: State, publish: bool)
    requires LogInv(init, s) && ContextsInv(init, s) && FramesInv(init, s) && RetentionInv(s)
    requires Enabled(s, EndCheckpoint(publish))
    ensures Retains(CheckpointRecord(s), s.base)
  {
    hide HistAt, TxnsAt, LogOk, FramesInv, ContextsInv, RetentionInv;
    TableBounds(init, s, publish);
    AttachedLive(init, s, publish);
  }

  /** A page outside the new dirty page table is all there is on disk; one inside it is exact where
      the table says REDO starts. */
  lemma CheckpointImage(init: Database, s: State, p: PageId)
    requires LogInv(init, s) && ImagesInv(init, s) && FramesInv(init, s) && DiskInv(init, s) && p in init
    requires Enabled(s, EndCheckpoint(true)) && RecordOk(init, s.log + [CheckpointRecord(s)], |s.log|)
    ensures var s' := Apply(s, EndCheckpoint(true)); ImageOk(init, s'.log, s'.slot, p, s.disk[p])
  {
    hide HistAt, TxnsAt, LogOk, Retains, RecordOk, Fit, Bound;
    assert ImageOk(init, s.log[..s.durable], s.slot, p, s.disk[p]);
    assert s.disk[p].lsn != INVALID_LSN ==> OnPage(s.log[..s.durable][s.disk[p].lsn], p);
    assert DiskOk(init, s, p);
    if p in s.frames {
      assert FrameOk(init, s, p);
    }
    if p in s.frames && s.frames[p].dirty {
      DirtyImage(init, s, p);
    } else {
      CleanImage(init, s, p);
    }
  }

  lemma DirtyImage(init: Database, s: State, p: PageId)
    requires LogOk(init, s.log) && s.durable <= |s.log| && p in init && Enabled(s, EndCheckpoint(true))
    requires RecordOk(init, s.log + [CheckpointRecord(s)], |s.log|)
    requires p in s.disk && DiskOk(init, s, p) && p in s.frames && s.frames[p].dirty && 0 <= s.frames[p].recLsn
    requires var l := s.disk[p].lsn; INVALID_LSN <= l < |s.log| && (l != INVALID_LSN ==> OnPage(s.log[l], p))
    ensures var s' := Apply(s, EndCheckpoint(true)); ImageOk(init, s'.log, s'.slot, p, s.disk[p])
  {
    hide HistAt, TxnsAt, LogOk, RecordOk;
    var s' := Apply(s, EndCheckpoint(true));
    NotedEffect(init, s, s', CheckpointRecord(s));
    var at: nat := Max(0, Max(s.disk[p].lsn + 1, s.frames[p].recLsn));
    ExtendsAt(init, s.log, s'.log, at);
    assert Bound(s'.log, s'.slot, p) == s.frames[p].recLsn;
  }

  lemma CleanImage(init: Database, s: State, p: PageId)
    requires LogOk(init, s.log) && s.durable <= |s.log| && p in init && Enabled(s, EndCheckpoint(true))
    requires RecordOk(init, s.log + [CheckpointRecord(s)], |s.log|)
    requires p in s.disk && s.disk[p].body == Latest(Hist(init, s, p)) && Stamped(s.disk[p].lsn, Hist(init, s, p))
    requires var l := s.disk[p].lsn; INVALID_LSN <= l < |s.log| && (l != INVALID_LSN ==> OnPage(s.log[l], p))
    ensures var s' := Apply(s, EndCheckpoint(true)); ImageOk(init, s'.log, s'.slot, p, s.disk[p])
  {
    hide HistAt, TxnsAt, LogOk, RecordOk, ImageOk;
    var s' := Apply(s, EndCheckpoint(true));
    NotedEffect(init, s, s', CheckpointRecord(s));
    CurrentImageOk(init, s'.log, s'.slot, p, s.disk[p]);
  }

  lemma CheckpointImages(init: Database, s: State, publish: bool)
    requires LogInv(init, s) && ImagesInv(init, s) && FramesInv(init, s) && DiskInv(init, s)
    requires Enabled(s, EndCheckpoint(publish)) && RecordOk(init, s.log + [CheckpointRecord(s)], |s.log|)
    ensures ImagesInv(init, Apply(s, EndCheckpoint(publish)))
  {
    hide HistAt, TxnsAt, LogOk, Retains, RecordOk, FrameOk, DiskOk, ImageOk;
    var s' := Apply(s, EndCheckpoint(publish));
    NotedEffect(init, s, s', CheckpointRecord(s));
    if publish {
      forall p, g | p in init && g in s'.images[p] ensures ImageOk(init, s'.log[..s'.durable], s'.slot, p, g) {
        assert s'.log[..s'.durable] == s'.log;
        assert g == s.disk[p];
        CheckpointImage(init, s, p);
      }
    } else {
      ImagesCarry(init, s, s');
    }
  }

  lemma CheckpointRetention(init: Database, s: State, publish: bool)
    requires LogInv(init, s) && FramesInv(init, s) && RetentionInv(s) && Enabled(s, EndCheckpoint(publish))
    ensures RetentionInv(Apply(s, EndCheckpoint(publish)))
  {
    hide HistAt, TxnsAt, LogOk, Retains;
    var s' := Apply(s, EndCheckpoint(publish));
    if publish {
      forall p | p in s'.frames && s'.frames[p].recLsn != INVALID_LSN
        ensures s'.base <= s'.frames[p].recLsn && AboveFloor(s'.log[s'.slot], s'.frames[p].recLsn)
      {
        assert FrameOk(init, s, p);
        assert p in CheckpointRecord(s).dpt;
      }
    } else {
      hide AboveFloor;
      RetentionCarry(s, s');
    }
  }

  lemma CheckpointLog(init: Database, s: State, publish: bool)
    requires LogInv(init, s) && Enabled(s, EndCheckpoint(publish)) && Retains(CheckpointRecord(s), s.base)
    requires RecordOk(init, s.log + [CheckpointRecord(s)], |s.log|)
    ensures LogInv(init, Apply(s, EndCheckpoint(publish)))
  {
    hide HistAt, TxnsAt, LogOk, RecordOk, Retains;
    NotedEffect(init, s, Apply(s, EndCheckpoint(publish)), CheckpointRecord(s));
  }

  lemma EndNoted(init: Database, s: State, publish: bool)
    requires LogInv(init, s) && Enabled(s, EndCheckpoint(publish))
    ensures var s' := Apply(s, EndCheckpoint(publish)); s'.mode == s.mode && Noted(s, s', CheckpointRecord(s))
  {
    hide LogOk, TxnsAt, Retains;
  }

  lemma EndCheckpointKeeps(init: Database, s: State, publish: bool)
    requires Inv(init, s) && Enabled(s, EndCheckpoint(publish))
    ensures Inv(init, Apply(s, EndCheckpoint(publish)))
  {
    hide LogInv, ImagesInv, ContextsInv, FramesInv, DiskInv, RetentionInv, RecordOk, Retains;
    hide CheckpointRecord, Noted, Apply;
    var s' := Apply(s, EndCheckpoint(publish));
    EndNoted(init, s, publish);
    CheckpointSound(init, s, publish);
    CheckpointRetained(init, s, publish);
    CheckpointLog(init, s, publish);
    CheckpointImages(init, s, publish);
    CheckpointRetention(init, s, publish);
    NotedContexts(init, s, s', CheckpointRecord(s));
    NotedPages(init, s, s', CheckpointRecord(s));
  }
}
