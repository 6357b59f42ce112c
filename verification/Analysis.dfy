/** The analysis pass of restart recovery: one scan from the checkpoint's floor rebuilds the
    transaction table and the dirty page table that the whole log stands for. */
module Analysis {
  import opened Options
  import opened WalLog
  import opened LogTheory
  import opened CrashModel
  import opened CrashLemmas

  /** The checkpoint BEGIN: records before it are analyzed only for attached transactions. */
  function Boundary(log: Log, slot: Lsn): (r: nat) {
    if CheckpointAt(log, slot) then log[slot].begin else 0
  }

  function AttachedAt(log: Log, slot: Lsn): (r: map<TxnId, Attached>) {
    if CheckpointAt(log, slot) then log[slot].att else map[]
  }

  predicate Analyzed(log: Log, slot: Lsn, i: nat)
    requires i < |log|
  {
    || Boundary(log, slot) <= i
    || (!log[i].CheckpointBegin? && !log[i].CheckpointEnd? && log[i].tid in AttachedAt(log, slot))
  }

  /** The transactions the scan follows: attached ones and those begun at or after the boundary. */
  predicate Tracked(log: Log, slot: Lsn, txns: map<TxnId, Txn>, t: TxnId) {
    t in txns && (t in AttachedAt(log, slot) || Boundary(log, slot) <= txns[t].begin)
  }

  /** The part of the transaction table the scan has rebuilt. */
  function Followed(log: Log, slot: Lsn, n: nat): (r: map<TxnId, Txn>)
    requires n <= |log|
  {
    var txns := TxnsAt(log, n);
    map t | t in txns && Tracked(log, slot, txns, t) :: txns[t]
  }

  ghost predicate Scannable(init: Database, log: Log, slot: Lsn, from: nat) {
    LogOk(init, log) && (slot == INVALID_LSN || CheckpointAt(log, slot)) && from <= |log| && ScanStart(log, slot, from)
  }

  lemma FollowedEmpty(init: Database, log: Log, slot: Lsn, from: nat)
    requires Scannable(init, log, slot, from)
    ensures Followed(log, slot, from) == map[]
  {
    forall t | t in TxnsAt(log, from) ensures !Tracked(log, slot, TxnsAt(log, from), t) {
      EntryShape(init, log, from, t);
      if slot != INVALID_LSN && t in log[slot].att {
        assert RecordOk(init, log, slot);
        EntryStays(init, log, from, slot, t);
      }
    }
  }

  /** A record of a transaction the scan meets without having skipped it belongs to one it follows. */
  lemma AnalyzedTracked(init: Database, log: Log, slot: Lsn, i: nat)
    requires LogOk(init, log) && (slot == INVALID_LSN || CheckpointAt(log, slot)) && i < |log|
    requires !log[i].Begin? && !log[i].CheckpointBegin? && !log[i].CheckpointEnd?
    ensures log[i].tid in TxnsAt(log, i)
    ensures Analyzed(log, slot, i) <==> Tracked(log, slot, TxnsAt(log, i), log[i].tid)
  {
    var t := log[i].tid;
    assert RecordOk(init, log, i);
    EntryShape(init, log, i, t);
    if slot != INVALID_LSN && log[slot].begin <= i && t !in log[slot].att && TxnsAt(log, i)[t].begin < log[slot].begin {
      LiveIsAttached(init, log, slot, i, t);
    }
  }

  /** A transaction older than the boundary and live after it was live at the checkpoint. */
  lemma LiveIsAttached(init: Database, log: Log, slot: Lsn, i: nat, t: TxnId)
    requires LogOk(init, log) && CheckpointAt(log, slot) && log[slot].begin <= i < |log| && Live(TxnsAt(log, i), t)
    requires OfTxn(log[i], t) && TxnsAt(log, i)[t].begin < log[slot].begin
    ensures t in log[slot].att
  {
    assert RecordOk(init, log, slot);
    assert slot < i;
    var b := TxnsAt(log, i)[t].begin;
    EntryShape(init, log, i, t);
    LastBound(init, log, slot, b, t);
    if !Unfinished(TxnsAt(log, slot)[t]) {
      FinishedStays(init, log, slot, i, t);
      assert false;
    }
  }

  lemma FollowedStep(init: Database, log: Log, slot: Lsn, i: nat)
    requires LogOk(init, log) && (slot == INVALID_LSN || CheckpointAt(log, slot)) && i < |log|
    ensures Followed(log, slot, i + 1)
            == if Analyzed(log, slot, i) then TxnStep(Followed(log, slot, i), log[i], i) else Followed(log, slot, i)
  {
    var r := log[i];
    assert RecordOk(init, log, i);
    if !r.Begin? && !r.CheckpointBegin? && !r.CheckpointEnd? {
      AnalyzedTracked(init, log, slot, i);
    }
  }

  // ---- The dirty page table ----

  /** First analyzed record on p from position from up to end. */
  function FirstAnalyzed(log: Log, slot: Lsn, p: PageId, from: nat, end: nat): (r: nat)
    requires from <= end <= |log|
    decreases end - from
  {
    if from == end then end
    else if OnPage(log[from], p) && Analyzed(log, slot, from) then from
    else FirstAnalyzed(log, slot, p, from + 1, end)
  }

  /** What the scan has entered for the page: the checkpoint's position, else its first analyzed record. */
  predicate Entered(log: Log, slot: Lsn, from: nat, n: nat, dpt: map<PageId, Lsn>, p: PageId)
    requires from <= n <= |log|
  {
    if CheckpointAt(log, slot) && p in log[slot].dpt then p in dpt && dpt[p] == log[slot].dpt[p]
    else
      var f := FirstAnalyzed(log, slot, p, from, n);
      && (p in dpt <==> f < n)
      && (p in dpt ==> dpt[p] == f)
  }

  lemma {:induction false} FirstAnalyzedNext(log: Log, slot: Lsn, p: PageId, from: nat, n: nat)
    requires from <= n < |log|
    ensures FirstAnalyzed(log, slot, p, from, n + 1)
            == if FirstAnalyzed(log, slot, p, from, n) < n then FirstAnalyzed(log, slot, p, from, n)
               else if OnPage(log[n], p) && Analyzed(log, slot, n) then n else n + 1
    ensures from <= FirstAnalyzed(log, slot, p, from, n) <= n
    decreases n - from
  {
    if from < n && !(OnPage(log[from], p) && Analyzed(log, slot, from)) {
      FirstAnalyzedNext(log, slot, p, from + 1, n);
    }
  }

  lemma {:induction false} FirstAnalyzedIs(log: Log, slot: Lsn, p: PageId, from: nat, end: nat)
    requires from <= end <= |log|
    ensures var f := FirstAnalyzed(log, slot, p, from, end);
            && from <= f <= end
            && (f < end ==> OnPage(log[f], p) && Analyzed(log, slot, f))
            && (forall i: nat :: from <= i < f && OnPage(log[i], p) ==> !Analyzed(log, slot, i))
    decreases end - from
  {
    if from < end && !(OnPage(log[from], p) && Analyzed(log, slot, from)) {
      FirstAnalyzedIs(log, slot, p, from + 1, end);
    }
  }

  /** The rebuilt table filters out exactly the records below the page's REDO bound. */
  lemma TableFilters(init: Database, log: Log, slot: Lsn, from: nat, dpt: map<PageId, Lsn>, i: nat)
    requires Scannable(init, log, slot, from) && CheckpointAt(log, slot) && from <= i < |log|
    requires (log[i].Update? || log[i].Clr?)
    requires Entered(log, slot, from, |log|, dpt, log[i].page)
    ensures log[i].page !in dpt || i < dpt[log[i].page] <==> i < Bound(log, slot, log[i].page)
  {
    var p := log[i].page;
    if p !in log[slot].dpt {
      var r := log[slot];
      FirstAnalyzedIs(log, slot, p, from, |log|);
      FirstAttachedBound(log, r.att, p, 0, r.begin);
      AttachedAfter(init, log, slot, from, p);
    }
  }

  /** Records of attached transactions lie in the scanned part. */
  lemma AttachedAfter(init: Database, log: Log, slot: Lsn, from: nat, p: PageId)
    requires Scannable(init, log, slot, from) && CheckpointAt(log, slot)
    ensures var f := FirstAttached(log, log[slot].att, p, 0, log[slot].begin); f < log[slot].begin ==> from <= f
  {
    var r := log[slot];
    FirstAttachedBound(log, r.att, p, 0, r.begin);
    var f := FirstAttached(log, r.att, p, 0, r.begin);
    if f < r.begin {
      assert RecordOk(init, log, slot) && RecordOk(init, log, f);
      EntryShape(init, log, f, log[f].tid);
      EntryStays(init, log, f, slot, log[f].tid);
    }
  }

  // ---- Which logs recovery accepts ----

  /** The checkpoint's transaction table agrees with what the scan rebuilt up to the boundary. */
  predicate AttAgrees(att: map<TxnId, Attached>, table: map<TxnId, Txn>) {
    forall t :: t in att ==>
      t in table && table[t].status.Active? && table[t].begin == att[t].begin && table[t].last == att[t].last
  }

  lemma AttAlwaysAgrees(init: Database, log: Log, slot: Lsn)
    requires LogOk(init, log) && CheckpointAt(log, slot)
    ensures AttAgrees(log[slot].att, Followed(log, slot, log[slot].begin))
  {
    assert RecordOk(init, log, slot);
    assert TxnsAt(log, slot) == TxnsAt(log, slot - 1);
  }

  /** The chain checks on a record of a followed transaction. */
  predicate Accepts(log: Log, from: nat, table: map<TxnId, Txn>, i: nat)
    requires i < |log|
  {
    var r := log[i];
    match r
    case CheckpointBegin => true
    case CheckpointEnd(begin, _, _, _) => from <= begin < i && log[begin].CheckpointBegin?
    case Begin(t) => t !in table
    case Update(t, prev, _, _) => t in table && table[t].status.Active? && prev < i && prev == table[t].last
    case Commit(t, prev) => t in table && table[t].status.Active? && prev < i && prev == table[t].last
    case Abort(t, prev) => t in table && Unfinished(table[t]) && prev < i && prev == table[t].last
    case Clr(t, prev, p, undoNext, target, _) =>
      && t in table && Unfinished(table[t]) && prev < i && prev == table[t].last
      && from <= target < i && log[target].Update? && log[target].tid == t
      && log[target].prev == undoNext && log[target].page == p
      && target == (if table[t].status.Aborting? then table[t].undoNext else prev)
  }

  lemma AlwaysAccepts(init: Database, log: Log, slot: Lsn, from: nat, i: nat)
    requires Scannable(init, log, slot, from) && from <= i < |log| && Analyzed(log, slot, i)
    ensures Accepts(log, from, Followed(log, slot, i), i)
  {
    var r := log[i];
    assert RecordOk(init, log, i);
    if slot != INVALID_LSN {
      assert RecordOk(init, log, slot);
    }
    if !r.Begin? && !r.CheckpointBegin? && !r.CheckpointEnd? {
      AnalyzedTracked(init, log, slot, i);
      EntryShape(init, log, i, r.tid);
      if r.Clr? {
        TrackedFrom(init, log, slot, from, i, r.tid);
        UndoNextShape(init, log, i, r.tid);
      }
    }
  }

  /** A followed transaction began in the scanned part. */
  lemma TrackedFrom(init: Database, log: Log, slot: Lsn, from: nat, i: nat, t: TxnId)
    requires Scannable(init, log, slot, from) && from <= i <= |log| && Tracked(log, slot, TxnsAt(log, i), t)
    ensures from <= TxnsAt(log, i)[t].begin
  {
    EntryShape(init, log, i, t);
    if slot != INVALID_LSN && t in log[slot].att {
      assert RecordOk(init, log, slot);
      if i <= slot { EntryStays(init, log, i, slot, t); } else { EntryStays(init, log, slot, i, t); }
    }
  }

  // ---- Who holds which page ----

  /** The pages of unfinished followed transactions, with their owners. */
  ghost predicate OwnersOk(init: Database, log: Log, n: nat, txns: map<TxnId, Txn>, owners: map<PageId, TxnId>)
    requires n <= |log|
  {
    forall p :: p in owners ==> p in init && HistAt(init, log, n, p).owner == Some(owners[p]) && owners[p] in txns
  }

  /** What a record changes: an update takes its page, the end of a transaction gives its pages up. */
  function OwnersAfter(owners: map<PageId, TxnId>, r: Record): (after: map<PageId, TxnId>) {
    match r
    case Update(t, _, p, _) => owners[p := t]
    case Commit(t, _) => map p | p in owners && owners[p] != t :: owners[p]
    case Abort(t, _) => map p | p in owners && owners[p] != t :: owners[p]
    case _ => owners
  }

  /** No two active transactions hold a page: the conflict check never fires. */
  lemma NoConflict(init: Database, log: Log, i: nat, txns: map<TxnId, Txn>, owners: map<PageId, TxnId>)
    requires LogOk(init, log) && i < |log| && log[i].Update? && OwnersOk(init, log, i, txns, owners)
    ensures log[i].page in owners ==> owners[log[i].page] == log[i].tid
  {
    hide ChangeOk, HistAt, TxnsAt;
    assert RecordOk(init, log, i);
  }

  lemma OwnersStep(init: Database, log: Log, slot: Lsn, i: nat, owners: map<PageId, TxnId>)
    requires LogOk(init, log) && (slot == INVALID_LSN || CheckpointAt(log, slot)) && i < |log|
    requires OwnersOk(init, log, i, Followed(log, slot, i), owners)
    ensures OwnersOk(init, log, i + 1, Followed(log, slot, i + 1),
                     if Analyzed(log, slot, i) then OwnersAfter(owners, log[i]) else owners)
  {
    hide ChangeOk, TxnsAt, Tracked, Followed;
    var r := log[i];
    FollowedStep(init, log, slot, i);
    assert RecordOk(init, log, i);
    if !r.Begin? && !r.CheckpointBegin? && !r.CheckpointEnd? {
      AnalyzedFollowed(init, log, slot, i);
    }
    var after := if Analyzed(log, slot, i) then OwnersAfter(owners, r) else owners;
    forall p | p in after
      ensures p in init && HistAt(init, log, i + 1, p).owner == Some(after[p]) && after[p] in Followed(log, slot, i + 1)
    {
      assert HistAt(init, log, i + 1, p) == HistStep(HistAt(init, log, i, p), p, r, i);
    }
  }

  lemma AnalyzedFollowed(init: Database, log: Log, slot: Lsn, i: nat)
    requires LogOk(init, log) && (slot == INVALID_LSN || CheckpointAt(log, slot)) && i < |log|
    requires !log[i].Begin? && !log[i].CheckpointBegin? && !log[i].CheckpointEnd?
    ensures Analyzed(log, slot, i) <==> log[i].tid in Followed(log, slot, i)
  {
    hide LogOk, Analyzed, TxnsAt;
    AnalyzedTracked(init, log, slot, i);
  }

  // ---- The pass ----

  datatype Outcome = Corrupt | Tables(txns: map<TxnId, Txn>, dpt: map<PageId, Lsn>)

  /** The scan start: the least of the checkpoint BEGIN, its recovery LSNs and its attached BEGINs. */
  method FindScanStart(log: Log, slot: Lsn) returns (from: nat)
    requires slot == INVALID_LSN || CheckpointAt(log, slot)
    requires slot != INVALID_LSN ==> Retains(log[slot], 0)
    ensures ScanStart(log, slot, from)
    ensures forall base: nat :: slot != INVALID_LSN && Retains(log[slot], base) ==> base <= from
  {
    if slot == INVALID_LSN {
      return 0;
    }
    var r := log[slot];
    from := r.begin;
    var pages := r.dpt.Keys;
    while pages != {}
      invariant pages <= r.dpt.Keys && from <= r.begin
      invariant forall p :: p in r.dpt && p !in pages ==> from <= r.dpt[p]
      invariant from == r.begin || exists p :: p in r.dpt && r.dpt[p] == from
      decreases |pages|
    {
      var p :| p in pages;
      if r.dpt[p] < from {
        from := r.dpt[p];
      }
      pages := pages - {p};
    }
    var txns := r.att.Keys;
    while txns != {}
      invariant txns <= r.att.Keys && from <= r.begin
      invariant forall p :: p in r.dpt ==> from <= r.dpt[p]
      invariant forall t :: t in r.att && t !in txns ==> from <= r.att[t].begin
      invariant || from == r.begin || (exists p :: p in r.dpt && r.dpt[p] == from)
                || (exists t :: t in r.att && r.att[t].begin == from)
      decreases |txns|
    {
      var t :| t in txns;
      if r.att[t].begin < from {
        from := r.att[t].begin;
      }
      txns := txns - {t};
    }
  }

  /** What the scan has done when it stands at position n. */
  ghost predicate Rebuilt(log: Log, slot: Lsn, from: nat, n: nat, txns: map<TxnId, Txn>, dpt: map<PageId, Lsn>)
    requires from <= n <= |log|
  {
    && txns == Followed(log, slot, n)
    && (slot != INVALID_LSN ==> forall p :: Entered(log, slot, from, n, dpt, p))
  }

  lemma RebuiltStart(init: Database, log: Log, slot: Lsn, from: nat)
    requires Scannable(init, log, slot, from)
    ensures Rebuilt(log, slot, from, from, map[], if slot != INVALID_LSN then log[slot].dpt else map[])
  {
    FollowedEmpty(init, log, slot, from);
  }

  /** The record enters its page unless the page is there already. */
  function Enter(log: Log, slot: Lsn, dpt: map<PageId, Lsn>, i: nat): (r: map<PageId, Lsn>)
    requires i < |log|
  {
    if slot != INVALID_LSN && Analyzed(log, slot, i) && (log[i].Update? || log[i].Clr?) && log[i].page !in dpt
    then dpt[log[i].page := i] else dpt
  }

  lemma RebuiltStep(init: Database, log: Log, slot: Lsn, from: nat, i: nat, txns: map<TxnId, Txn>,
                    dpt: map<PageId, Lsn>)
    requires Scannable(init, log, slot, from) && from <= i < |log| && Rebuilt(log, slot, from, i, txns, dpt)
    ensures Rebuilt(log, slot, from, i + 1,
                    if Analyzed(log, slot, i) then TxnStep(txns, log[i], i) else txns, Enter(log, slot, dpt, i))
  {
    FollowedStep(init, log, slot, i);
    hide Followed, TxnStep, Analyzed;
    if slot != INVALID_LSN {
      var n, entered := i + 1, Enter(log, slot, dpt, i);
      forall p ensures Entered(log, slot, from, n, entered, p) {
        assert Entered(log, slot, from, i, dpt, p);
        FirstAnalyzedNext(log, slot, p, from, i);
      }
    }
  }

  /** The analysis loop. It reads the log from the scan start on, follows attached and new
      transactions, checks their chains and who holds which page, and extends the checkpoint's dirty
      page table. On a log the engine wrote it never reports corruption, and what it rebuilds is what
      the whole log says. */
  method Analyze(ghost init: Database, log: Log, slot: Lsn, from: nat) returns (result: Outcome)
    requires Scannable(init, log, slot, from)
    ensures result.Tables? && Rebuilt(log, slot, from, |log|, result.txns, result.dpt)
  {
    hide LogOk, Followed, ScanStart, Entered, OwnersOk;
    var boundary, att := Boundary(log, slot), AttachedAt(log, slot);
    var fuzzy := slot != INVALID_LSN;
    var txns: map<TxnId, Txn> := map[];
    var dpt: map<PageId, Lsn> := if fuzzy then log[slot].dpt else map[];
    var owners: map<PageId, TxnId> := map[];
    var checked := false;
    RebuiltStart(init, log, slot, from);
    NobodyHolds(init, log, from);
    ScanBelow(init, log, slot, from);
    var i := from;
    while i < |log|
      invariant from <= i <= |log|
      invariant Rebuilt(log, slot, from, i, txns, dpt)
      invariant OwnersOk(init, log, i, txns, owners)
      invariant checked <==> boundary < i
    {
      ghost var before, beforeDpt, beforeOwners := txns, dpt, owners;
      if boundary <= i && !checked {
        AttChecked(init, log, slot);
        if !AttAgrees(att, txns) {
          return Corrupt;
        }
        checked := true;
      }
      var r := log[i];
      if Analyzed(log, slot, i) {
        AlwaysAccepts(init, log, slot, from, i);
        if !Accepts(log, from, txns, i) {
          return Corrupt;
        }
        match r {
          case Begin(t) =>
            txns := txns[t := Txn(Active, i, i, i)];
          case Update(t, _, p, _) =>
            NoConflict(init, log, i, txns, owners);
            if p in owners && owners[p] != t {
              return Corrupt;
            }
            owners := owners[p := t];
            txns := txns[t := txns[t].(last := i, undoNext := i)];
            if fuzzy && p !in dpt {
              dpt := dpt[p := i];
            }
          case Clr(t, _, p, undoNext, _, _) =>
            txns := txns[t := txns[t].(status := Aborting, last := i, undoNext := undoNext)];
            if fuzzy && p !in dpt {
              dpt := dpt[p := i];
            }
          case Commit(t, _) =>
            owners := map p | p in owners && owners[p] != t :: owners[p];
            txns := txns[t := txns[t].(status := Committed, last := i, undoNext := INVALID_LSN)];
          case Abort(t, _) =>
            owners := map p | p in owners && owners[p] != t :: owners[p];
            txns := txns[t := txns[t].(status := Aborted, last := i, undoNext := INVALID_LSN)];
          case CheckpointBegin =>
          case CheckpointEnd(_, _, _, _) =>
        }
      }
      RebuiltStep(init, log, slot, from, i, before, beforeDpt);
      OwnersStep(init, log, slot, i, beforeOwners);
      i := i + 1;
    }
    return Tables(txns, dpt);
  }

  lemma NobodyHolds(init: Database, log: Log, n: nat)
    requires n <= |log|
    ensures OwnersOk(init, log, n, map[], map[])
  {
  }

  lemma ScanBelow(init: Database, log: Log, slot: Lsn, from: nat)
    requires Scannable(init, log, slot, from)
    ensures from <= Boundary(log, slot)
  {
  }

  lemma AttChecked(init: Database, log: Log, slot: Lsn)
    requires LogOk(init, log) && (slot == INVALID_LSN || CheckpointAt(log, slot))
    ensures Boundary(log, slot) <= |log|
    ensures AttAgrees(AttachedAt(log, slot), Followed(log, slot, Boundary(log, slot)))
  {
    if slot != INVALID_LSN {
      AttAlwaysAgrees(init, log, slot);
    }
  }

  // ---- What the tables are good for ----

  /** The scan finds exactly the unfinished transactions of the whole log, with the entries it says. */
  lemma LosersExact(init: Database, log: Log, slot: Lsn, from: nat, t: TxnId)
    requires Scannable(init, log, slot, from)
    ensures Live(Followed(log, slot, |log|), t) <==> Live(TxnsAt(log, |log|), t)
    ensures Live(TxnsAt(log, |log|), t) ==> Followed(log, slot, |log|)[t] == TxnsAt(log, |log|)[t]
  {
    if Live(TxnsAt(log, |log|), t) {
      var e := TxnsAt(log, |log|)[t];
      EntryShape(init, log, |log|, t);
      if slot != INVALID_LSN && e.begin < log[slot].begin {
        assert RecordOk(init, log, slot);
        LastBound(init, log, slot, e.begin, t);
        if !Unfinished(TxnsAt(log, slot)[t]) {
          FinishedStays(init, log, slot, |log|, t);
          assert false;
        }
      }
    }
  }

  /** The REDO list of the source: compensations, updates of transactions the scan saw commit, and
      page records before the boundary of transactions the checkpoint did not list. */
  predicate InRedoList(log: Log, slot: Lsn, txns: map<TxnId, Txn>, i: nat)
    requires i < |log|
  {
    || log[i].Clr?
    || (log[i].Update?
        && (|| (log[i].tid in txns && txns[log[i].tid].status.Committed?)
            || (CheckpointAt(log, slot) && i < log[slot].begin && log[i].tid !in log[slot].att)))
  }

  lemma RedoListExact(init: Database, log: Log, slot: Lsn, from: nat, i: nat)
    requires Scannable(init, log, slot, from) && from <= i < |log|
    ensures InRedoList(log, slot, Followed(log, slot, |log|), i) <==> Candidate(log, slot, i)
  {
    if log[i].Update? {
      var t := log[i].tid;
      AnalyzedTracked(init, log, slot, i);
      EntryStays(init, log, i, |log|, t);
    }
  }
}
