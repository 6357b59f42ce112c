/** What holds of every well-formed log: transaction chains, page ownership, and the lemma behind
    REDO, that an image exact at its own LSN is still plausible as long as no needed record follows. */
module LogTheory {
  import opened Options
  import opened PageDelta
  import opened WalLog

  // ---- Transaction chains ----

  lemma {:induction false} EntryShape(init: Database, log: Log, n: nat, t: TxnId)
    requires LogOk(init, log) && n <= |log| && t in TxnsAt(log, n)
    ensures var e := TxnsAt(log, n)[t];
            0 <= e.begin <= e.last < n && log[e.begin] == Begin(t) && OfTxn(log[e.last], t)
    ensures var e := TxnsAt(log, n)[t];
            e.status.Active? ==> e.undoNext == e.last && (e.last == e.begin || log[e.last].Update?)
  {
    assert RecordOk(init, log, n - 1);
    if t in TxnsAt(log, n - 1) {
      EntryShape(init, log, n - 1, t);
    }
  }

  /** Every record of a transaction lies at or below the last LSN of its entry. */
  lemma {:induction false} LastBound(init: Database, log: Log, n: nat, i: nat, t: TxnId)
    requires LogOk(init, log) && i < n <= |log| && OfTxn(log[i], t)
    ensures t in TxnsAt(log, n) && i <= TxnsAt(log, n)[t].last
  {
    assert RecordOk(init, log, n - 1);
    if i < n - 1 {
      LastBound(init, log, n - 1, i, t);
    }
  }

  /** A transaction whose first n records are known keeps its BEGIN. */
  lemma {:induction false} EntryStays(init: Database, log: Log, n: nat, m: nat, t: TxnId)
    requires LogOk(init, log) && n <= m <= |log| && t in TxnsAt(log, n)
    ensures t in TxnsAt(log, m) && TxnsAt(log, m)[t].begin == TxnsAt(log, n)[t].begin
    ensures TxnsAt(log, n)[t].last <= TxnsAt(log, m)[t].last
    decreases m
  {
    if n < m {
      EntryStays(init, log, n, m - 1, t);
      EntryShape(init, log, m - 1, t);
      assert RecordOk(init, log, m - 1);
    }
  }

  /** Finished transactions stay as they ended. */
  lemma {:induction false} FinishedStays(init: Database, log: Log, n: nat, m: nat, t: TxnId)
    requires LogOk(init, log) && n <= m <= |log| && t in TxnsAt(log, n) && !Unfinished(TxnsAt(log, n)[t])
    ensures t in TxnsAt(log, m) && TxnsAt(log, m)[t] == TxnsAt(log, n)[t]
    decreases m
  {
    if n < m {
      FinishedStays(init, log, n, m - 1, t);
      assert RecordOk(init, log, m - 1);
    }
  }

  /** UNDO always stands on the BEGIN record or on an update of its own transaction. */
  lemma {:induction false} UndoNextShape(init: Database, log: Log, n: nat, t: TxnId)
    requires LogOk(init, log) && n <= |log| && Live(TxnsAt(log, n), t)
    ensures var e := TxnsAt(log, n)[t];
            0 <= e.begin <= e.undoNext < n && OfTxn(log[e.undoNext], t)
            && (e.undoNext == e.begin || (log[e.undoNext].Update? && e.begin < e.undoNext))
  {
    EntryShape(init, log, n, t);
    var e := TxnsAt(log, n)[t];
    if e.status.Aborting? {
      var r := log[n - 1];
      assert RecordOk(init, log, n - 1);
      if OfTxn(r, t) {
        assert r.Clr?;
        var u := r.target;
        assert RecordOk(init, log, u);
        EntryShape(init, log, u, t);
        EntryStays(init, log, u, n, t);
      } else {
        UndoNextShape(init, log, n - 1, t);
      }
    }
  }

  // ---- Page ownership ----

  /** Images stand only under an unfinished owner, above its BEGIN and not above its next undo. */
  ghost predicate OwnershipOk(init: Database, log: Log, n: nat, p: PageId)
    requires n <= |log| && p in init
  {
    var h := HistAt(init, log, n, p);
    var txns := TxnsAt(log, n);
    && INVALID_LSN <= h.last < n
    && (h.last != INVALID_LSN ==> OnPage(log[h.last], p))
    && (h.owner == None ==> h.images == [])
    && (h.owner.Some? ==> Live(txns, h.owner.value))
    && (h.images != [] ==>
          var e := txns[h.owner.value];
          0 <= e.begin < h.last <= e.undoNext && log[h.last].Update? && log[h.last].tid == h.owner.value)
  }

  lemma {:induction false} Ownership(init: Database, log: Log, n: nat, p: PageId)
    requires LogOk(init, log) && n <= |log| && p in init
    ensures OwnershipOk(init, log, n, p)
  {
    if n > 0 {
      Ownership(init, log, n - 1, p);
      assert RecordOk(init, log, n - 1);
      OwnershipStep(init, log, n - 1, p);
    }
  }

  lemma OwnershipStep(init: Database, log: Log, n: nat, p: PageId)
    requires LogOk(init, log) && n < |log| && p in init
    requires OwnershipOk(init, log, n, p) && RecordOk(init, log, n)
    ensures OwnershipOk(init, log, n + 1, p)
  {
    var h := HistAt(init, log, n, p);
    var txns := TxnsAt(log, n);
    var r := log[n];
    match r
    case Begin(t) =>
    case Update(t, _, q, _) =>
      EntryShape(init, log, n, t);
    case Clr(t, _, q, undoNext, target, _) =>
      if q != p && h.images != [] && h.owner == Some(t) {
        // The newest record on p is an update of t other than the target, so it lies below it,
        // and hence at or below the record that precedes the target in the chain of t.
        assert h.last < target;
        assert RecordOk(init, log, target);
        LastBound(init, log, target, h.last, t);
      }
    case Commit(t, _) =>
    case Abort(t, _) =>
    case CheckpointBegin =>
    case CheckpointEnd(_, _, _, _) =>
  }

  /** An ABORT leaves no image behind: every update of the transaction has been compensated. */
  lemma AbortClean(init: Database, log: Log, n: nat, p: PageId)
    requires LogOk(init, log) && n < |log| && p in init
    requires log[n].Abort? && HistAt(init, log, n, p).owner == Some(log[n].tid)
    ensures HistAt(init, log, n, p).images == []
  {
    Ownership(init, log, n, p);
    assert RecordOk(init, log, n);
  }

  /** Two unfinished transactions never own the same page. */
  lemma LosersDisjoint(init: Database, log: Log, i: nat, j: nat)
    requires LogOk(init, log) && i < |log| && j < |log|
    requires log[i].Update? && log[j].Update? && log[i].page == log[j].page
    requires Live(TxnsAt(log, |log|), log[i].tid) && Live(TxnsAt(log, |log|), log[j].tid)
    ensures log[i].tid == log[j].tid
  {
    assert RecordOk(init, log, i) && RecordOk(init, log, j);
    OwnerStays(init, log, i + 1, |log|, log[i].page);
    OwnerStays(init, log, j + 1, |log|, log[j].page);
  }

  lemma {:induction false} OwnerStays(init: Database, log: Log, n: nat, m: nat, p: PageId)
    requires LogOk(init, log) && n <= m <= |log| && p in init
    requires HistAt(init, log, n, p).owner.Some?
    requires Live(TxnsAt(log, m), HistAt(init, log, n, p).owner.value)
    ensures HistAt(init, log, m, p).owner == HistAt(init, log, n, p).owner
    decreases m
  {
    if n < m {
      var t := HistAt(init, log, n, p).owner.value;
      Ownership(init, log, n, p);
      EntryStays(init, log, n, m - 1, t);
      if !Unfinished(TxnsAt(log, m - 1)[t]) {
        FinishedStays(init, log, m - 1, m, t);
        assert false;
      }
      OwnerStays(init, log, n, m - 1, p);
      assert RecordOk(init, log, m - 1);
    }
  }

  // ---- Images and REDO ----

  /** The whole log holds the COMMIT of this transaction. */
  predicate Winner(log: Log, t: TxnId) {
    t in TxnsAt(log, |log|) && TxnsAt(log, |log|)[t].status.Committed?
  }

  /** A record REDO must not lose: a compensation, or an update of a committed transaction. */
  predicate Needed(log: Log, i: nat)
    requires i < |log|
  {
    log[i].Clr? || (log[i].Update? && Winner(log, log[i].tid))
  }

  /** The change sets the byte at o whatever was there. */
  predicate Covers(change: Change, o: nat) {
    change.FullImage? || Covered(change.ranges, o)
  }

  predicate Rewrites(r: Record, p: PageId, o: nat) {
    OnPage(r, p) && (r.Clr? || Covers(r.change, o))
  }

  /** Some needed record at or after position n sets the byte at o. */
  ghost predicate Rewritten(log: Log, n: nat, p: PageId, o: nat) {
    exists i: nat :: n <= i < |log| && Needed(log, i) && Rewrites(log[i], p, o)
  }

  /** A body REDO may continue from at position n: it is what the page held there, except for bytes
      that needed records still to come will set. */
  ghost predicate Fit(init: Database, log: Log, n: nat, p: PageId, body: Body) {
    && n <= |log| && p in init
    && forall o: nat :: o < PAGE_SIZE ==> body[o] == Latest(HistAt(init, log, n, p))[o] || Rewritten(log, n, p, o)
  }

  /** No needed record on p at positions m up to n. */
  ghost predicate Caught(log: Log, p: PageId, m: nat, n: nat) {
    forall i: nat :: m <= i < n && i < |log| && OnPage(log[i], p) ==> !Needed(log, i)
  }

  /** The body is the committed image or one its owner wrote, and the newest one when the owner
      goes on to commit. */
  ghost predicate Plausible(init: Database, log: Log, n: nat, p: PageId, body: Body)
    requires n <= |log| && p in init
  {
    var h := HistAt(init, log, n, p);
    && (body == h.committed || body in h.images)
    && (h.owner.Some? && Winner(log, h.owner.value) ==> body == Latest(h))
  }

  lemma {:induction false} CoveredByte(x: Body, y: Body, ranges: seq<Range>, o: nat)
    requires WellFormed(ranges) && o < PAGE_SIZE
    ensures ApplyAfter(x, ranges)[o] == if Covered(ranges, o) then ApplyAfter(y, ranges)[o] else x[o]
  {
    hide Splice;
    if ranges != [] {
      var front, last := ranges[..|ranges| - 1], ranges[|ranges| - 1];
      assert InPage(last);
      CoveredByte(x, y, front, o);
      CoveredSplit(ranges, o);
      SpliceAt(ApplyAfter(x, front), last.offset, last.after, o);
      SpliceAt(ApplyAfter(y, front), last.offset, last.after, o);
    }
  }

  lemma RedoneByte(change: Change, x: Body, y: Body, o: nat)
    requires Readable(change) && o < PAGE_SIZE
    ensures Redone(change, x)[o] == if Covers(change, o) then Redone(change, y)[o] else x[o]
  {
    if change.ByteRanges? {
      CoveredByte(x, y, change.ranges, o);
    }
  }

  /** What a page held at m stays plausible as long as no needed record on it follows. */
  lemma {:induction false} Settled(init: Database, log: Log, p: PageId, m: nat, n: nat)
    requires LogOk(init, log) && p in init
    requires m <= n <= |log| && Caught(log, p, m, n)
    ensures Plausible(init, log, n, p, Latest(HistAt(init, log, m, p)))
    decreases n
  {
    if m < n {
      Settled(init, log, p, m, n - 1);
      SettledStep(init, log, p, Latest(HistAt(init, log, m, p)), n - 1);
    }
  }

  lemma SettledStep(init: Database, log: Log, p: PageId, body: Body, n: nat)
    requires LogOk(init, log) && p in init && n < |log|
    requires Plausible(init, log, n, p, body)
    requires OnPage(log[n], p) ==> !Needed(log, n)
    ensures Plausible(init, log, n + 1, p, body)
  {
    var r := log[n];
    assert RecordOk(init, log, n);
    match r
    case Commit(t, _) =>
      FinishedStays(init, log, n + 1, |log|, t);
    case Abort(t, _) =>
      if HistAt(init, log, n, p).owner == Some(t) {
        AbortClean(init, log, n, p);
      }
    case _ =>
  }

  /** REDO of an update on a fit body gives a body fit right after that update. */
  lemma RedoUpdateFit(init: Database, log: Log, p: PageId, m: nat, body: Body, i: nat)
    requires LogOk(init, log) && Fit(init, log, m, p, body)
    requires m <= i < |log| && log[i].Update? && log[i].page == p && Caught(log, p, m, i)
    ensures Fit(init, log, i + 1, p, Redone(log[i].change, body))
  {
    var y := Latest(HistAt(init, log, m, p));
    Settled(init, log, p, m, i);
    assert RecordOk(init, log, i);
    var change := log[i].change;
    var h := HistAt(init, log, i, p);
    assert Latest(HistAt(init, log, i + 1, p)) == Redone(change, h.committed) == Redone(change, y);
    forall o: nat | o < PAGE_SIZE
      ensures Redone(change, body)[o] == Redone(change, y)[o] || Rewritten(log, i + 1, p, o)
    {
      RedoneByte(change, body, y, o);
      RedoneByte(change, y, y, o);
      if !Covers(change, o) && body[o] != y[o] {
        var k: nat :| m <= k < |log| && Needed(log, k) && Rewrites(log[k], p, o);
        assert i < k;
      }
    }
  }

  /** REDO of a compensation gives a body fit right after it, whatever the page held. */
  lemma RedoClrFit(init: Database, log: Log, p: PageId, i: nat)
    requires LogOk(init, log) && p in init && i < |log| && log[i].Clr? && log[i].page == p
    ensures Fit(init, log, i + 1, p, log[i].image)
  {
    assert RecordOk(init, log, i);
  }

  /** A fit body with no needed record left to apply is plausible at the end of the log. */
  lemma FitAtEnd(init: Database, log: Log, p: PageId, m: nat, body: Body)
    requires LogOk(init, log) && Fit(init, log, m, p, body) && Caught(log, p, m, |log|)
    ensures Plausible(init, log, |log|, p, body)
  {
    var y := Latest(HistAt(init, log, m, p));
    forall o: nat | o < PAGE_SIZE ensures body[o] == y[o] {
      assert !Rewritten(log, m, p, o);
    }
    assert body == y;
    Settled(init, log, p, m, |log|);
  }

  /** Without owner, a plausible body is the committed image. */
  lemma PlausibleClosed(init: Database, log: Log, n: nat, p: PageId, body: Body)
    requires LogOk(init, log) && n <= |log| && p in init
    requires Plausible(init, log, n, p, body) && HistAt(init, log, n, p).owner == None
    ensures body == HistAt(init, log, n, p).committed
  {
    Ownership(init, log, n, p);
  }

  lemma {:induction false} HistLastMonotone(init: Database, log: Log, n: nat, m: nat, p: PageId)
    requires LogOk(init, log) && n <= m <= |log| && p in init
    ensures HistAt(init, log, n, p).last <= HistAt(init, log, m, p).last
    ensures forall i: nat :: n <= i < m && OnPage(log[i], p) ==> i <= HistAt(init, log, m, p).last
    decreases m
  {
    if n < m {
      HistLastMonotone(init, log, n, m - 1, p);
      Ownership(init, log, m - 1, p);
    }
  }

  /** While no record touches the page, what it holds does not change: COMMIT and ABORT only settle it. */
  lemma {:induction false} Quiet(init: Database, log: Log, n: nat, m: nat, p: PageId)
    requires LogOk(init, log) && n <= m <= |log| && p in init
    requires HistAt(init, log, m, p).last < n
    ensures Latest(HistAt(init, log, n, p)) == Latest(HistAt(init, log, m, p))
    decreases m
  {
    if n < m {
      Ownership(init, log, m - 1, p);
      assert RecordOk(init, log, m - 1);
      Quiet(init, log, n, m - 1, p);
      var r := log[m - 1];
      if r.Abort? && HistAt(init, log, m - 1, p).owner == Some(r.tid) {
        AbortClean(init, log, m - 1, p);
      }
    }
  }

  // ---- Images that lost their PageLSN ----

  ghost predicate RewrittenBy(log: Log, m: nat, n: nat, p: PageId, o: nat) {
    exists i: nat :: m <= i < n && i < |log| && Needed(log, i) && Rewrites(log[i], p, o)
  }

  /** Replaying only needed records from m on reaches a plausible body at every later position. */
  lemma {:induction false} Replay(init: Database, log: Log, m: nat, n: nat, p: PageId) returns (z: Body)
    requires LogOk(init, log) && m <= n <= |log| && p in init
    ensures Plausible(init, log, n, p, z)
    ensures forall o: nat :: o < PAGE_SIZE ==>
              z[o] == Latest(HistAt(init, log, m, p))[o] || RewrittenBy(log, m, n, p, o)
    decreases n
  {
    hide LogOk, HistAt, Plausible, RewrittenBy;
    if m == n {
      z := Latest(HistAt(init, log, m, p));
      Settled(init, log, p, m, n);
    } else {
      var z0 := Replay(init, log, m, n - 1, p);
      z := ReplayOne(init, log, n - 1, p, z0);
      forall o: nat | o < PAGE_SIZE ensures z[o] == Latest(HistAt(init, log, m, p))[o] || RewrittenBy(log, m, n, p, o) {
        RewrittenMore(log, m, n - 1, p, o);
      }
    }
  }

  lemma RewrittenMore(log: Log, m: nat, n: nat, p: PageId, o: nat)
    requires m <= n < |log|
    ensures RewrittenBy(log, m, n, p, o) || (Needed(log, n) && Rewrites(log[n], p, o)) ==>
              RewrittenBy(log, m, n + 1, p, o)
  {
    hide Needed, Rewrites;
    if RewrittenBy(log, m, n, p, o) {
      var k: nat :| m <= k < n && k < |log| && Needed(log, k) && Rewrites(log[k], p, o);
      assert k < n + 1;
    }
  }

  /** One position of the replay. */
  lemma ReplayOne(init: Database, log: Log, n: nat, p: PageId, z0: Body) returns (z: Body)
    requires LogOk(init, log) && n < |log| && p in init && Plausible(init, log, n, p, z0)
    ensures Plausible(init, log, n + 1, p, z)
    ensures forall o: nat :: o < PAGE_SIZE ==> z[o] == z0[o] || (Needed(log, n) && Rewrites(log[n], p, o))
  {
    var r := log[n];
    if !OnPage(r, p) || !Needed(log, n) {
      z := z0;
      SettledStep(init, log, p, z0, n);
    } else {
      z := if r.Clr? then r.image else Redone(r.change, z0);
      ReplayPlausible(init, log, n, p, z0, z);
      ReplayBytes(init, log, n, p, z0, z);
    }
  }

  lemma ReplayPlausible(init: Database, log: Log, n: nat, p: PageId, z0: Body, z: Body)
    requires LogOk(init, log) && n < |log| && p in init && Plausible(init, log, n, p, z0) && OnPage(log[n], p)
    requires z == if log[n].Clr? then log[n].image else Redone(log[n].change, z0)
    ensures Plausible(init, log, n + 1, p, z)
  {
    hide Redone, Undone, TxnsAt, Winner;
    assert RecordOk(init, log, n);
  }

  lemma ReplayBytes(init: Database, log: Log, n: nat, p: PageId, z0: Body, z: Body)
    requires LogOk(init, log) && n < |log| && OnPage(log[n], p)
    requires z == if log[n].Clr? then log[n].image else Redone(log[n].change, z0)
    ensures forall o: nat :: o < PAGE_SIZE ==> z[o] == z0[o] || Rewrites(log[n], p, o)
  {
    hide Redone, TxnsAt, HistAt;
    var r := log[n];
    assert RecordOk(init, log, n);
    forall o: nat | o < PAGE_SIZE ensures z[o] == z0[o] || Rewrites(r, p, o) {
      if r.Update? && !Covers(r.change, o) {
        RedoneByte(r.change, z0, z0, o);
      }
    }
  }

  /** A body settled at the end of the log is fit at every earlier position: this is why a page whose
      PageLSN was lost can be replayed from the start. */
  lemma FitEverywhere(init: Database, log: Log, m: nat, p: PageId)
    requires LogOk(init, log) && m <= |log| && p in init && HistAt(init, log, |log|, p).images == []
    ensures Fit(init, log, m, p, HistAt(init, log, |log|, p).committed)
  {
    var z := Replay(init, log, m, |log|, p);
    assert z == HistAt(init, log, |log|, p).committed;
    forall o: nat | o < PAGE_SIZE && RewrittenBy(log, m, |log|, p, o) ensures Rewritten(log, m, p, o) {
      var k: nat :| m <= k < |log| && k < |log| && Needed(log, k) && Rewrites(log[k], p, o);
    }
  }

  // ---- Growing logs ----

  ghost predicate Extends(longer: Log, log: Log) {
    |log| <= |longer| && longer[..|log|] == log
  }

  lemma ExtendsAt(init: Database, log: Log, longer: Log, n: nat)
    requires Extends(longer, log) && n <= |log|
    ensures TxnsAt(longer, n) == TxnsAt(log, n)
    ensures forall p :: p in init ==> HistAt(init, longer, n, p) == HistAt(init, log, n, p)
    ensures n < |log| ==> longer[n] == log[n]
  {
    assert log[..n] == longer[..|log|][..n] == longer[..n];
    TxnsPrefix(log, longer, n);
    forall p | p in init ensures HistAt(init, longer, n, p) == HistAt(init, log, n, p) {
      HistPrefix(init, log, longer, n, p);
    }
    if n < |log| {
      assert longer[n] == longer[..|log|][n];
    }
  }

  lemma NeededGrows(init: Database, log: Log, longer: Log, i: nat)
    requires LogOk(init, longer) && Extends(longer, log) && i < |log| && Needed(log, i)
    ensures Needed(longer, i) && longer[i] == log[i]
  {
    ExtendsAt(init, log, longer, i);
    ExtendsAt(init, log, longer, |log|);
    if log[i].Update? {
      FinishedStays(init, longer, |log|, |longer|, log[i].tid);
    }
  }

  /** A fit body stays fit as the log grows. */
  lemma FitGrows(init: Database, log: Log, longer: Log, n: nat, p: PageId, body: Body)
    requires LogOk(init, longer) && Extends(longer, log) && Fit(init, log, n, p, body)
    ensures Fit(init, longer, n, p, body)
  {
    ExtendsAt(init, log, longer, n);
    forall o: nat | o < PAGE_SIZE && Rewritten(log, n, p, o) ensures Rewritten(longer, n, p, o) {
      var i: nat :| n <= i < |log| && Needed(log, i) && Rewrites(log[i], p, o);
      NeededGrows(init, log, longer, i);
    }
  }

  // ---- UNDO ----

  /** Compensating the next update of an unfinished transaction restores the committed image from
      whatever plausible image the page holds. */
  lemma UndoRestores(init: Database, log: Log, t: TxnId, body: Body)
    requires LogOk(init, log) && Live(TxnsAt(log, |log|), t)
    requires 0 <= TxnsAt(log, |log|)[t].undoNext < |log|
    requires var u := TxnsAt(log, |log|)[t].undoNext;
             log[u].Update? && log[u].page in init
             && Plausible(init, log, |log|, log[u].page, body)
    ensures var u := TxnsAt(log, |log|)[t].undoNext;
            HistAt(init, log, |log|, log[u].page).owner == Some(t)
            && Undone(log[u].change, body) == HistAt(init, log, |log|, log[u].page).committed
  {
    var u := TxnsAt(log, |log|)[t].undoNext;
    var p := log[u].page;
    UndoNextShape(init, log, |log|, t);
    assert RecordOk(init, log, u);
    var hu := HistAt(init, log, u, p);
    OwnerStays(init, log, u + 1, |log|, p);
    CommittedStays(init, log, u + 1, |log|, p);
    var h := HistAt(init, log, |log|, p);
    Ownership(init, log, |log|, p);
    HistLastMonotone(init, log, u, |log|, p);
    if h.images != [] {
      assert h.last == u;
      SameImages(init, log, u + 1, |log|, p);
      assert h.images == hu.images + [Redone(log[u].change, hu.committed)];
    }
  }

  /** While one transaction owns a page, the committed image of the page does not move. */
  lemma {:induction false} CommittedStays(init: Database, log: Log, n: nat, m: nat, p: PageId)
    requires LogOk(init, log) && n <= m <= |log| && p in init
    requires HistAt(init, log, n, p).owner.Some?
    requires Live(TxnsAt(log, m), HistAt(init, log, n, p).owner.value)
    ensures HistAt(init, log, m, p).committed == HistAt(init, log, n, p).committed
    decreases m
  {
    if n < m {
      var t := HistAt(init, log, n, p).owner.value;
      Ownership(init, log, n, p);
      EntryStays(init, log, n, m - 1, t);
      if !Unfinished(TxnsAt(log, m - 1)[t]) {
        FinishedStays(init, log, m - 1, m, t);
        assert false;
      }
      OwnerStays(init, log, n, m - 1, p);
      CommittedStays(init, log, n, m - 1, p);
      assert RecordOk(init, log, m - 1);
    }
  }

  /** If the newest record on the page has not moved and the images stand, they are the same images. */
  lemma {:induction false} SameImages(init: Database, log: Log, n: nat, m: nat, p: PageId)
    requires LogOk(init, log) && n <= m <= |log| && p in init
    requires HistAt(init, log, n, p).last == HistAt(init, log, m, p).last
    requires HistAt(init, log, m, p).images != []
    ensures HistAt(init, log, n, p).images == HistAt(init, log, m, p).images
    decreases m
  {
    if n < m {
      HistLastMonotone(init, log, n, m - 1, p);
      HistLastMonotone(init, log, m - 1, m, p);
      Ownership(init, log, m - 1, p);
      SameImages(init, log, n, m - 1, p);
    }
  }

  // ---- Compensations mirror updates ----

  /** How far the undo of a transaction has come: the next undo position, its BEGIN once aborted. */
  function Horizon(e: Txn): (r: Lsn) {
    if e.status.Aborted? then e.begin else e.undoNext
  }

  predicate Compensates(log: Log, c: nat, u: nat) {
    c < |log| && log[c].Clr? && log[c].target == u
  }

  ghost predicate Compensated(log: Log, n: nat, u: nat) {
    exists c: nat :: c < n && Compensates(log, c, u)
  }

  /** Updates above the horizon have a compensation, and compensations target only those. */
  ghost predicate Mirrored(log: Log, n: nat, t: TxnId, horizon: Lsn)
    requires n <= |log|
  {
    && (forall u: nat :: u < n && log[u].Update? && log[u].tid == t && horizon < u ==> Compensated(log, n, u))
    && (forall c: nat :: c < n && log[c].Clr? && log[c].tid == t ==> horizon < log[c].target)
  }

  lemma {:induction false} Mirror(init: Database, log: Log, n: nat, t: TxnId)
    requires LogOk(init, log) && n <= |log|
    requires t in TxnsAt(log, n) && !TxnsAt(log, n)[t].status.Committed?
    ensures Mirrored(log, n, t, Horizon(TxnsAt(log, n)[t]))
  {
    hide HistAt, ChangeOk, Mirrored, LogOk;
    if t in TxnsAt(log, n - 1) {
      NotCommittedBefore(init, log, n, t);
      Mirror(init, log, n - 1, t);
      MirrorStep(init, log, n - 1, t);
    } else {
      MirrorFirst(init, log, n, t);
    }
  }

  lemma NotCommittedBefore(init: Database, log: Log, n: nat, t: TxnId)
    requires LogOk(init, log) && 0 < n <= |log| && t in TxnsAt(log, n - 1)
    requires t in TxnsAt(log, n) && !TxnsAt(log, n)[t].status.Committed?
    ensures !TxnsAt(log, n - 1)[t].status.Committed?
  {
    hide HistAt, ChangeOk;
    assert RecordOk(init, log, n - 1);
  }

  lemma MirrorFirst(init: Database, log: Log, n: nat, t: TxnId)
    requires LogOk(init, log) && 0 < n <= |log| && t !in TxnsAt(log, n - 1) && t in TxnsAt(log, n)
    ensures Mirrored(log, n, t, Horizon(TxnsAt(log, n)[t]))
  {
    hide HistAt, ChangeOk, Compensated;
    assert RecordOk(init, log, n - 1);
    forall u: nat | u < n - 1 && OfTxn(log[u], t) ensures false {
      LastBound(init, log, n - 1, u, t);
    }
  }

  lemma MirrorStep(init: Database, log: Log, n: nat, t: TxnId)
    requires LogOk(init, log) && n < |log| && t in TxnsAt(log, n) && t in TxnsAt(log, n + 1)
    requires !TxnsAt(log, n + 1)[t].status.Committed? && Mirrored(log, n, t, Horizon(TxnsAt(log, n)[t]))
    ensures Mirrored(log, n + 1, t, Horizon(TxnsAt(log, n + 1)[t]))
  {
    hide HistAt, ChangeOk, Compensated;
    var e, r := TxnsAt(log, n)[t], log[n];
    assert RecordOk(init, log, n);
    EntryShape(init, log, n, t);
    if OfTxn(r, t) && r.Clr? {
      MirrorClr(init, log, n, t, Horizon(e));
    } else {
      if OfTxn(r, t) {
        forall c: nat | c < n && e.status.Active? && OfTxn(log[c], t) ensures !log[c].Clr? {
          NoClrWhileActive(init, log, n, c, t);
        }
      }
      MirrorOther(log, n, t, Horizon(e));
    }
  }

  /** A record other than a compensation of t leaves what was mirrored in place. */
  lemma MirrorOther(log: Log, n: nat, t: TxnId, horizon: Lsn)
    requires n < |log| && Mirrored(log, n, t, horizon)
    requires OfTxn(log[n], t) ==> !log[n].Clr?
    ensures forall u: nat :: u < n && log[u].Update? && log[u].tid == t && horizon < u ==> Compensated(log, n + 1, u)
    ensures forall c: nat :: c < n + 1 && log[c].Clr? && log[c].tid == t ==> horizon < log[c].target
  {
    forall u: nat | Compensated(log, n, u) ensures Compensated(log, n + 1, u) {
      var c: nat :| c < n && Compensates(log, c, u);
      assert c < n + 1;
    }
  }

  lemma MirrorClr(init: Database, log: Log, n: nat, t: TxnId, horizon: Lsn)
    requires LogOk(init, log) && n < |log| && Mirrored(log, n, t, horizon)
    requires log[n].Clr? && log[n].tid == t && log[n].target == horizon
    ensures Mirrored(log, n + 1, t, log[n].undoNext)
  {
    hide HistAt;
    var r := log[n];
    assert RecordOk(init, log, n);
    assert RecordOk(init, log, r.target);
    EntryShape(init, log, r.target, t);
    forall u: nat | u < n + 1 && log[u].Update? && log[u].tid == t && r.undoNext < u
      ensures Compensated(log, n + 1, u)
    {
      if u <= r.target {
        MirrorGap(init, log, r.target, u, t);
        assert Compensates(log, n, u);
      } else {
        assert Compensated(log, n, u);
        var c: nat :| c < n && Compensates(log, c, u);
        assert c < n + 1;
      }
    }
  }

  /** Between a record and its predecessor in the chain lies no record of the same transaction. */
  lemma MirrorGap(init: Database, log: Log, target: nat, u: nat, t: TxnId)
    requires LogOk(init, log) && u <= target < |log|
    requires log[target].Update? && log[target].tid == t && OfTxn(log[u], t)
    requires log[target].prev < u
    ensures u == target
  {
    assert RecordOk(init, log, target);
    if u < target {
      LastBound(init, log, target, u, t);
    }
  }

  lemma {:induction false} NoClrWhileActive(init: Database, log: Log, n: nat, c: nat, t: TxnId)
    requires LogOk(init, log) && c < n <= |log|
    requires t in TxnsAt(log, n) && TxnsAt(log, n)[t].status.Active? && OfTxn(log[c], t)
    ensures !log[c].Clr?
  {
    assert RecordOk(init, log, n - 1);
    if c < n - 1 {
      LastBound(init, log, n - 1, c, t);
      NoClrWhileActive(init, log, n - 1, c, t);
    }
  }

  /** Compensations of one transaction go down its updates, never repeating one. */
  lemma ClrsDescend(init: Database, log: Log, i: nat, j: nat)
    requires LogOk(init, log) && i < j < |log|
    requires log[i].Clr? && log[j].Clr? && log[i].tid == log[j].tid
    ensures log[j].target < log[i].target
  {
    assert RecordOk(init, log, j);
    Mirror(init, log, j, log[j].tid);
  }

  /** Every update of an aborted transaction ends with exactly one compensation. */
  lemma ExactlyOneClr(init: Database, log: Log, u: nat)
    requires LogOk(init, log) && u < |log| && log[u].Update?
    requires log[u].tid in TxnsAt(log, |log|) && TxnsAt(log, |log|)[log[u].tid].status.Aborted?
    ensures exists c: nat :: Compensates(log, c, u)
    ensures forall c: nat, d: nat :: Compensates(log, c, u) && Compensates(log, d, u) ==> c == d
  {
    var t := log[u].tid;
    assert RecordOk(init, log, u);
    EntryShape(init, log, u, t);
    EntryStays(init, log, u, |log|, t);
    Mirror(init, log, |log|, t);
    assert Compensated(log, |log|, u);
    forall c: nat, d: nat | Compensates(log, c, u) && Compensates(log, d, u)
      ensures c == d
    {
      assert RecordOk(init, log, c) && RecordOk(init, log, d);
      if c < d { ClrsDescend(init, log, c, d); }
      if d < c { ClrsDescend(init, log, d, c); }
    }
  }
}
