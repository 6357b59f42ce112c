/** Facts the step proofs share: appending a record, growing the durable prefix, new disk images. */
module CrashLemmas {
  import opened Options
  import opened WalLog
  import opened LogTheory
  import opened CrashModel
  import opened CrashInvariant

  lemma Appended(init: Database, log: Log, r: Record)
    requires LogOk(init, log) && RecordOk(init, log + [r], |log|)
    ensures LogOk(init, log + [r])
    ensures TxnsAt(log + [r], |log|) == TxnsAt(log, |log|)
    ensures TxnsAt(log + [r], |log| + 1) == TxnStep(TxnsAt(log, |log|), r, |log|)
    ensures forall p :: p in init ==> HistAt(init, log + [r], |log|, p) == HistAt(init, log, |log|, p)
    ensures forall p :: p in init ==>
              HistAt(init, log + [r], |log| + 1, p) == HistStep(HistAt(init, log, |log|, p), p, r, |log|)
    ensures forall n: nat, p :: n <= |log| && p in init ==> HistAt(init, log + [r], n, p) == HistAt(init, log, n, p)
  {
    AppendOk(init, log, r);
    assert Extends(log + [r], log);
    ExtendsAt(init, log, log + [r], |log|);
    forall n: nat, p | n <= |log| && p in init ensures HistAt(init, log + [r], n, p) == HistAt(init, log, n, p) {
      ExtendsAt(init, log, log + [r], n);
    }
  }

  /** Before a record is appended, its soundness is decided by the log it is appended to. */
  lemma AppendView(init: Database, log: Log, r: Record)
    ensures TxnsAt(log + [r], |log|) == TxnsAt(log, |log|)
    ensures forall p :: p in init ==> HistAt(init, log + [r], |log|, p) == HistAt(init, log, |log|, p)
    ensures (log + [r])[|log|] == r
    ensures forall i: nat :: i < |log| ==> (log + [r])[i] == log[i]
  {
    assert Extends(log + [r], log);
    ExtendsAt(init, log, log + [r], |log|);
  }

  /** A checkpoint bounds a page the same way in every log that holds it. */
  lemma {:induction false} FirstAttachedSame(log: Log, other: Log, att: map<TxnId, Attached>, p: PageId, j: nat,
                                             end: nat)
    requires j <= end <= |log| && end <= |other| && log[..end] == other[..end]
    ensures FirstAttached(log, att, p, j, end) == FirstAttached(other, att, p, j, end)
    decreases end - j
  {
    if j < end {
      assert log[j] == log[..end][j] == other[j];
      FirstAttachedSame(log, other, att, p, j + 1, end);
    }
  }

  lemma BoundGrows(log: Log, longer: Log, slot: Lsn, p: PageId)
    requires Extends(longer, log) && (slot == INVALID_LSN || CheckpointAt(log, slot))
    ensures Bound(longer, slot, p) == Bound(log, slot, p)
    ensures slot != INVALID_LSN ==> CheckpointAt(longer, slot) && longer[slot] == log[slot]
  {
    if slot != INVALID_LSN {
      assert longer[slot] == longer[..|log|][slot] == log[slot];
      var end := log[slot].begin;
      assert log[..end] == longer[..|log|][..end] == longer[..end];
      FirstAttachedSame(log, longer, log[slot].att, p, 0, end);
    }
  }

  lemma ImageGrows(init: Database, log: Log, longer: Log, slot: Lsn, p: PageId, g: Page)
    requires LogOk(init, longer) && Extends(longer, log)
    requires slot == INVALID_LSN || CheckpointAt(log, slot)
    requires ImageOk(init, log, slot, p, g)
    ensures ImageOk(init, longer, slot, p, g)
  {
    BoundGrows(log, longer, slot, p);
    FitGrows(init, log, longer, RedoFrom(log, slot, p, g), p, g.body);
    if g.lsn != INVALID_LSN {
      ExtendsAt(init, log, longer, g.lsn);
    }
  }

  /** The published checkpoint lies in the durable prefix. */
  lemma SlotDurable(init: Database, s: State)
    requires LogInv(init, s)
    ensures s.slot == INVALID_LSN || CheckpointAt(s.log[..s.durable], s.slot)
  {
  }

  /** Growing the log, the durable prefix, or both keeps every image a crash may leave. */
  lemma ImagesGrow(init: Database, s: State, log: Log, durable: nat)
    requires LogInv(init, s) && ImagesInv(init, s)
    requires LogOk(init, log) && s.durable <= durable <= |log| && log[..s.durable] == s.log[..s.durable]
    ensures forall p, g :: p in init && g in s.images[p] ==> ImageOk(init, log[..durable], s.slot, p, g)
  {
    SlotDurable(init, s);
    CutOk(init, log, durable);
    forall p, g | p in init && g in s.images[p] ensures ImageOk(init, log[..durable], s.slot, p, g) {
      assert log[..durable][..s.durable] == log[..s.durable] == s.log[..s.durable];
      ImageGrows(init, s.log[..s.durable], log[..durable], s.slot, p, g);
    }
  }

  lemma {:induction false} FirstAttachedBound(log: Log, att: map<TxnId, Attached>, p: PageId, j: nat, end: nat)
    requires j <= end <= |log|
    ensures j <= FirstAttached(log, att, p, j, end) <= end
    ensures forall i: nat :: j <= i < FirstAttached(log, att, p, j, end) && OnPage(log[i], p) ==> log[i].tid !in att
    ensures var f := FirstAttached(log, att, p, j, end); f < end ==> OnPage(log[f], p) && log[f].tid in att
    decreases end - j
  {
    if j < end && !(OnPage(log[j], p) && log[j].tid in att) {
      FirstAttachedBound(log, att, p, j + 1, end);
    }
  }

  lemma BoundRange(init: Database, log: Log, slot: Lsn, p: PageId)
    requires LogOk(init, log) && (slot == INVALID_LSN || CheckpointAt(log, slot))
    ensures 0 <= Bound(log, slot, p) <= |log|
    ensures slot != INVALID_LSN ==> Bound(log, slot, p) <= log[slot].begin
  {
    if slot != INVALID_LSN {
      assert RecordOk(init, log, slot);
      FirstAttachedBound(log, log[slot].att, p, 0, log[slot].begin);
    }
  }

  /** A body that is all there is of the page may be left on disk, whatever its PageLSN says, as long
      as the PageLSN is not stale while an owner has images standing. */
  lemma CurrentImageOk(init: Database, log: Log, slot: Lsn, p: PageId, g: Page)
    requires LogOk(init, log) && p in init && (slot == INVALID_LSN || CheckpointAt(log, slot))
    requires var h := HistAt(init, log, |log|, p); g.body == Latest(h) && Stamped(g.lsn, h)
    requires g.lsn != INVALID_LSN ==> 0 <= g.lsn < |log| && OnPage(log[g.lsn], p)
    ensures ImageOk(init, log, slot, p, g)
  {
    var h := HistAt(init, log, |log|, p);
    Ownership(init, log, |log|, p);
    BoundRange(init, log, slot, p);
    var m := RedoFrom(log, slot, p, g);
    if g.lsn == h.last {
      Quiet(init, log, m, |log|, p);
    } else {
      FitEverywhere(init, log, m, p);
    }
  }

  /** A durable prefix that reaches past the newest record on a page, and past every COMMIT, already
      says all there is to say about the page, except that an ABORT may still be in flight. */
  lemma {:induction false} DurableHist(init: Database, log: Log, d: nat, n: nat, p: PageId)
    requires LogOk(init, log) && d <= n <= |log| && p in init
    requires HistAt(init, log, n, p).last < d
    requires forall i: nat :: d <= i < n ==> !log[i].Commit?
    ensures var h, k := HistAt(init, log, n, p), HistAt(init, log, d, p);
            k.last == h.last && k.committed == h.committed && k.images == h.images
    decreases n
  {
    if d < n {
      Ownership(init, log, n - 1, p);
      assert RecordOk(init, log, n - 1);
      DurableHist(init, log, d, n - 1, p);
      var r := log[n - 1];
      if r.Abort? && HistAt(init, log, n - 1, p).owner == Some(r.tid) {
        AbortClean(init, log, n - 1, p);
      }
    }
  }
}
