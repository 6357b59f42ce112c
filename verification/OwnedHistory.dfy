/** Owned-append rollback in the log: which records may follow which, and what every legal history has.
    An LSN is a position in the history. */
module OwnedHistory {
  type TxnId = nat
  type PageId = nat
  type Lsn = int

  const INVALID_LSN: Lsn := -1

  /** What a reclaim record says: the page and the extent it was read at. */
  datatype Reclaim = Reclaim(page: PageId, extent: nat)

  datatype Record =
    | Begin(tid: TxnId, owned: bool, startPages: nat)
    | Reserve(tid: TxnId, prev: Lsn, page: PageId, oldPages: nat)
    | Update(tid: TxnId, prev: Lsn, page: PageId, existed: bool)
    | Compensation(tid: TxnId, prev: Lsn, page: PageId, target: Lsn, undoNext: Lsn)
    | CleanupBegin(tid: TxnId, prev: Lsn, undoEnd: Lsn, count: nat)
    | CleanupIntent(tid: TxnId, prev: Lsn, reserveLsn: Lsn, reclaimLsn: Lsn, reclaim: Reclaim)
    | CleanupProgress(tid: TxnId, prev: Lsn, reserveLsn: Lsn, reclaimLsn: Lsn, page: PageId, extent: nat)
    | Commit(tid: TxnId, prev: Lsn)
    | Abort(tid: TxnId, prev: Lsn)
    | PageReclaim(reclaim: Reclaim)
    | Checkpoint

  type History = seq<Record>

  // ---- Records ----

  predicate IsTxn(r: Record) {
    !r.PageReclaim? && !r.Checkpoint?
  }

  predicate Of(r: Record, t: TxnId) {
    IsTxn(r) && r.tid == t
  }

  predicate BeginOf(r: Record, t: TxnId) {
    r.Begin? && r.tid == t
  }

  predicate EndOf(r: Record, t: TxnId) {
    (r.Commit? || r.Abort?) && r.tid == t
  }

  predicate CleanupOf(r: Record, t: TxnId) {
    r.CleanupBegin? && r.tid == t
  }

  predicate CompensationOf(r: Record, t: TxnId) {
    r.Compensation? && r.tid == t
  }

  predicate Touches(r: Record, t: TxnId, p: PageId) {
    (r.Update? || r.Reserve?) && r.tid == t && r.page == p
  }

  predicate ReserveOn(r: Record, t: TxnId, p: PageId) {
    r.Reserve? && r.tid == t && r.page == p
  }

  predicate IntentOn(r: Record, t: TxnId, p: PageId) {
    r.CleanupIntent? && r.tid == t && r.reclaim.page == p
  }

  predicate ProgressOn(r: Record, t: TxnId, p: PageId) {
    r.CleanupProgress? && r.tid == t && r.page == p
  }

  predicate Existing(r: Record, t: TxnId) {
    r.Update? && r.tid == t && r.existed
  }

  /** Work that UNDO passes over: it never needs a page compensation. */
  predicate Skippable(r: Record) {
    r.Reserve? || (r.Update? && !r.existed)
  }

  // ---- Prefixes ----

  ghost predicate Begun(h: History, n: nat, t: TxnId)
    requires n <= |h|
  {
    exists i: nat :: i < n && BeginOf(h[i], t)
  }

  ghost predicate Ended(h: History, n: nat, t: TxnId)
    requires n <= |h|
  {
    exists i: nat :: i < n && EndOf(h[i], t)
  }

  ghost predicate Cleaning(h: History, n: nat, t: TxnId)
    requires n <= |h|
  {
    exists i: nat :: i < n && CleanupOf(h[i], t)
  }

  ghost predicate RolledBack(h: History, n: nat, t: TxnId)
    requires n <= |h|
  {
    exists i: nat :: i < n && CompensationOf(h[i], t)
  }

  /** Still writing: neither rolling back, nor cleaning up, nor ended. */
  ghost predicate Writing(h: History, n: nat, t: TxnId)
    requires n <= |h|
  {
    !RolledBack(h, n, t) && !Cleaning(h, n, t) && !Ended(h, n, t)
  }

  ghost predicate Latest(h: History, n: nat, t: TxnId, l: Lsn)
    requires n <= |h|
  {
    0 <= l < n && Of(h[l], t) && forall j: nat :: l < j < n ==> !Of(h[j], t)
  }

  /** Nobody else who is still running touched the page. */
  ghost predicate FreeFor(h: History, n: nat, t: TxnId, p: PageId)
    requires n <= |h|
  {
    forall i: nat, u :: i < n && Touches(h[i], u, p) && u != t ==> Ended(h, n, u)
  }

  /** The updates of pre-existing pages by t, oldest first. */
  function Updates(h: History, n: nat, t: TxnId): (r: seq<Lsn>)
    requires n <= |h|
  {
    if n == 0 then []
    else if Existing(h[n - 1], t) then Updates(h, n - 1, t) + [n - 1]
    else Updates(h, n - 1, t)
  }

  /** The updates t has compensated, in the order of its compensations. */
  function Compensated(h: History, n: nat, t: TxnId): (r: seq<Lsn>)
    requires n <= |h|
  {
    if n == 0 then []
    else if CompensationOf(h[n - 1], t) then Compensated(h, n - 1, t) + [h[n - 1].target]
    else Compensated(h, n - 1, t)
  }

  function Reservations(h: History, n: nat, t: TxnId): (r: nat)
    requires n <= |h|
  {
    if n == 0 then 0 else Reservations(h, n - 1, t) + if h[n - 1].Reserve? && h[n - 1].tid == t then 1 else 0
  }

  function Reverse(s: seq<Lsn>): (r: seq<Lsn>) {
    if s == [] then [] else Reverse(s[1..]) + [s[0]]
  }

  // ---- Legal records ----

  ghost predicate LegalReserve(h: History, n: nat)
    requires n < |h| && h[n].Reserve?
  {
    var r := h[n];
    && Writing(h, n, r.tid)
    && (forall b: nat :: b < n && BeginOf(h[b], r.tid) ==> r.oldPages >= h[b].startPages)
    && (forall i: nat, p: PageId :: i < n && ReserveOn(h[i], r.tid, p) ==> p < r.page)
    && FreeFor(h, n, r.tid, r.page)
  }

  ghost predicate LegalUpdate(h: History, n: nat)
    requires n < |h| && h[n].Update?
  {
    var r := h[n];
    && Writing(h, n, r.tid)
    && (forall b: nat :: b < n && BeginOf(h[b], r.tid) ==>
          && r.existed == (r.page < h[b].startPages)
          && (h[b].owned && !r.existed ==> exists i: nat :: i < n && ReserveOn(h[i], r.tid, r.page)))
    && FreeFor(h, n, r.tid, r.page)
  }

  /** A compensation is for the newest update not compensated yet, and names the record before it. */
  ghost predicate LegalCompensation(h: History, n: nat)
    requires n < |h| && h[n].Compensation?
  {
    var r := h[n];
    && !Cleaning(h, n, r.tid)
    && 0 <= r.target < n && Existing(h[r.target], r.tid) && h[r.target].page == r.page && h[r.target].prev == r.undoNext
    && Compensated(h, n, r.tid) + [r.target] <= Reverse(Updates(h, n, r.tid))
  }

  /** Cleanup begins in an owned transaction when every update of an existing page is compensated. */
  ghost predicate LegalCleanupBegin(h: History, n: nat)
    requires n < |h| && h[n].CleanupBegin?
  {
    var r := h[n];
    && !Cleaning(h, n, r.tid)
    && 0 <= r.undoEnd < n && BeginOf(h[r.undoEnd], r.tid) && h[r.undoEnd].owned
    && r.count == Reservations(h, n, r.tid)
    && Compensated(h, n, r.tid) == Reverse(Updates(h, n, r.tid))
  }

  ghost predicate LegalIntent(h: History, n: nat)
    requires n < |h| && h[n].CleanupIntent?
  {
    var r := h[n];
    && Cleaning(h, n, r.tid)
    && 0 <= r.reserveLsn < n && ReserveOn(h[r.reserveLsn], r.tid, r.reclaim.page)
    && r.reclaimLsn == n + 1
    && (forall i: nat :: i < n ==> !IntentOn(h[i], r.tid, r.reclaim.page) && !ProgressOn(h[i], r.tid, r.reclaim.page))
    && (forall u :: Begun(h, n, u) && u != r.tid ==> Ended(h, n, u))
  }

  ghost predicate LegalProgress(h: History, n: nat)
    requires n < |h| && h[n].CleanupProgress?
  {
    var r := h[n];
    && Cleaning(h, n, r.tid)
    && 0 <= r.reserveLsn < n && ReserveOn(h[r.reserveLsn], r.tid, r.page)
    && (forall i: nat :: i < n ==> !ProgressOn(h[i], r.tid, r.page))
    && (if r.reclaimLsn != INVALID_LSN then
          0 < r.reclaimLsn <= n && IntentOn(h[r.reclaimLsn - 1], r.tid,
                                            r.page) && h[r.reclaimLsn - 1].reclaim.extent == r.extent
        else
          && (forall i: nat :: i < n ==> !IntentOn(h[i], r.tid, r.page))
          && (forall b: nat :: b < n && BeginOf(h[b], r.tid) ==> r.extent >= h[b].startPages))
  }

  /** An owned transaction aborts only after cleanup accounted for every reservation. */
  ghost predicate LegalAbort(h: History, n: nat)
    requires n < |h| && h[n].Abort?
  {
    forall b: nat :: b < n && BeginOf(h[b], h[n].tid) && h[b].owned ==>
      && Cleaning(h, n, h[n].tid)
      && forall i: nat, p :: i < n && ReserveOn(h[i], h[n].tid, p) ==>
           exists j: nat :: j < n && ProgressOn(h[j], h[n].tid, p)
  }

  ghost predicate LegalContent(h: History, n: nat)
    requires n < |h|
  {
    match h[n]
    case Reserve(_, _, _, _) => LegalReserve(h, n)
    case Update(_, _, _, _) => LegalUpdate(h, n)
    case Compensation(_, _, _, _, _) => LegalCompensation(h, n)
    case CleanupBegin(_, _, _, _) => LegalCleanupBegin(h, n)
    case CleanupIntent(_, _, _, _, _) => LegalIntent(h, n)
    case CleanupProgress(_, _, _, _, _, _) => LegalProgress(h, n)
    case Commit(t, _) => Writing(h, n, t)
    case Abort(t, _) => LegalAbort(h, n)
    case _ => true
  }

  /** What cleanup forbids everything but itself and ABORT to do is left to the content rules: each of the
      other kinds requires that cleanup has not begun. */
  ghost predicate LegalNext(h: History, n: nat)
    requires n < |h|
  {
    match h[n]
    case PageReclaim(_) => forall t :: Begun(h, n, t) ==> Ended(h, n, t)
    case Checkpoint => forall t :: Cleaning(h, n, t) ==> Ended(h, n, t)
    case Begin(t, _, _) => !Begun(h, n, t)
    case _ => Latest(h, n, h[n].tid, h[n].prev) && !Ended(h, n, h[n].tid) && LegalContent(h, n)
  }

  /** Right after an intent only its own reclaim is legal. */
  ghost predicate Legal(h: History, n: nat)
    requires n < |h|
  {
    if n > 0 && h[n - 1].CleanupIntent? then h[n] == PageReclaim(h[n - 1].reclaim) else LegalNext(h, n)
  }

  ghost predicate LegalTo(h: History, n: nat)
    requires n <= |h|
  {
    forall i: nat :: i < n ==> Legal(h, i)
  }

  // ---- What every legal history has ----

  lemma LegalRecord(h: History, n: nat, t: TxnId)
    requires n < |h| && LegalTo(h, n + 1) && Of(h[n], t) && !h[n].Begin?
    ensures Latest(h, n, t, h[n].prev) && !Ended(h, n, t) && LegalContent(h, n)
  {
    assert Legal(h, n);
  }

  /** Every transaction begins once, and first. */
  lemma {:induction false} BeginsFirst(h: History, n: nat, i: nat, t: TxnId)
    requires n <= |h| && LegalTo(h, n) && i < n && Of(h[i], t)
    ensures exists b: nat :: b <= i && BeginOf(h[b], t)
    decreases i
  {
    if h[i].Begin? {
      assert BeginOf(h[i], t);
    } else {
      LegalRecord(h, i, t);
      BeginsFirst(h, n, h[i].prev, t);
    }
  }

  lemma BeginsOnce(h: History, n: nat, i: nat, j: nat, t: TxnId)
    requires n <= |h| && LegalTo(h, n) && i < n && j < n && BeginOf(h[i], t) && BeginOf(h[j], t)
    ensures i == j
  {
    assert Legal(h, i) && Legal(h, j);
  }

  /** Nothing of a transaction follows its end. */
  lemma NothingAfterEnd(h: History, n: nat, i: nat, j: nat, t: TxnId)
    requires n <= |h| && LegalTo(h, n) && i < j < n && EndOf(h[i], t)
    ensures !Of(h[j], t)
  {
    assert Legal(h, j);
    BeginsFirst(h, n, i, t);
    if Of(h[j], t) && !h[j].Begin? {
      LegalRecord(h, j, t);
    }
  }

  /** Two transactions touch the same page only when the first has ended in between. */
  lemma PagesExclusive(h: History, n: nat, i: nat, j: nat, t: TxnId, u: TxnId, p: PageId)
    requires n <= |h| && LegalTo(h, n) && i < j < n && Touches(h[i], t, p) && Touches(h[j], u, p) && t != u
    ensures exists k: nat :: i < k < j && EndOf(h[k], t)
  {
    LegalRecord(h, j, u);
    assert FreeFor(h, j, u, p);
    assert Ended(h, j, t);
    var k: nat :| k < j && EndOf(h[k], t);
    if k < i {
      NothingAfterEnd(h, n, k, i, t);
    }
  }

  /** UNDO runs newest first: at every moment the compensated updates are the newest ones, in reverse. */
  lemma {:induction false} UndoneNewestFirst(h: History, n: nat, t: TxnId)
    requires n <= |h| && LegalTo(h, n)
    ensures Compensated(h, n, t) <= Reverse(Updates(h, n, t))
    ensures !RolledBack(h, n, t) ==> Compensated(h, n, t) == []
  {
    if n > 0 {
      UndoneNewestFirst(h, n - 1, t);
      if Of(h[n - 1], t) && !h[n - 1].Begin? {
        LegalRecord(h, n - 1, t);
      }
      NotRolledBack(h, n, t);
    }
  }

  lemma NotRolledBack(h: History, n: nat, t: TxnId)
    requires 0 < n <= |h|
    ensures RolledBack(h, n, t) == (RolledBack(h, n - 1, t) || CompensationOf(h[n - 1], t))
  {
    if CompensationOf(h[n - 1], t) {
      assert RolledBack(h, n, t);
    }
  }

  /** Once cleanup has begun, the transaction is compensated exactly: every update of an existing page
      once, newest first, and it never writes again. */
  lemma {:induction false} CleanupMeansUndone(h: History, n: nat, c: nat, t: TxnId)
    requires c < n <= |h| && LegalTo(h, n) && CleanupOf(h[c], t)
    ensures Compensated(h, n, t) == Reverse(Updates(h, n, t))
    ensures Updates(h, n, t) == Updates(h, c, t)
  {
    if n == c + 1 {
      LegalRecord(h, c, t);
    } else {
      CleanupMeansUndone(h, n - 1, c, t);
      if Of(h[n - 1], t) && !h[n - 1].Begin? {
        LegalRecord(h, n - 1, t);
        assert Cleaning(h, n - 1, t);
      }
    }
  }

  /** An aborted owned transaction is undone exactly, and cleanup accounts for each of its reservations
      exactly once. */
  lemma OwnedAbort(h: History, n: nat, b: nat, a: nat, t: TxnId)
    requires b < a < n <= |h| && LegalTo(h, n) && BeginOf(h[b], t) && h[b].owned && h[a].Abort? && h[a].tid == t
    ensures Compensated(h, n, t) == Reverse(Updates(h, n, t))
    ensures CleanedOnce(h, n, t)
  {
    LegalRecord(h, a, t);
    var c: nat :| c < a && CleanupOf(h[c], t);
    CleanupMeansUndone(h, n, c, t);
    forall i: nat, p | i < n && ReserveOn(h[i], t, p) ensures Progressed(h, n, t, p) {
      if a < i {
        NothingAfterEnd(h, n, a, i, t);
      }
      var j: nat :| j < a && ProgressOn(h[j], t, p);
    }
    forall i: nat, j: nat, p | i < j < n && ProgressOn(h[i], t, p) ensures !ProgressOn(h[j], t, p) {
      if ProgressOn(h[j], t, p) {
        LegalRecord(h, j, t);
      }
    }
    forall i: nat, p | i < n && ProgressOn(h[i], t, p) ensures Reserved(h, i, t, p) {
      LegalRecord(h, i, t);
    }
  }

  ghost predicate Progressed(h: History, n: nat, t: TxnId, p: PageId)
    requires n <= |h|
  {
    exists j: nat :: j < n && ProgressOn(h[j], t, p)
  }

  ghost predicate Reserved(h: History, n: nat, t: TxnId, p: PageId)
    requires n <= |h|
  {
    exists i: nat :: i < n && ReserveOn(h[i], t, p)
  }

  /** Progress for every reservation, for nothing else, and never twice. */
  ghost predicate CleanedOnce(h: History, n: nat, t: TxnId)
    requires n <= |h|
  {
    && (forall i: nat, p :: i < n && ReserveOn(h[i], t, p) ==> Progressed(h, n, t, p))
    && (forall i: nat, j: nat, p :: i < j < n && ProgressOn(h[i], t, p) ==> !ProgressOn(h[j], t, p))
    && (forall i: nat, p :: i < n && ProgressOn(h[i], t, p) ==> Reserved(h, i, t, p))
  }

  /** Pages are reserved in ascending order, so never twice. */
  lemma ReservedOnce(h: History, n: nat, i: nat, j: nat, t: TxnId, p: PageId, q: PageId)
    requires n <= |h| && LegalTo(h, n) && i < j < n && ReserveOn(h[i], t, p) && ReserveOn(h[j], t, q)
    ensures p < q
  {
    LegalRecord(h, j, t);
  }

  /** A reclaim recorded while a transaction runs is the second half of an intent, whose owner runs alone
      and had reserved that page. */
  lemma ReclaimsBelong(h: History, n: nat, i: nat, t: TxnId)
    requires n <= |h| && LegalTo(h, n) && i < n && h[i].PageReclaim? && Begun(h, i, t) && !Ended(h, i, t)
    ensures i > 0 && h[i - 1].CleanupIntent? && h[i - 1].tid == t && h[i - 1].reclaim == h[i].reclaim
    ensures h[i - 1].reclaimLsn == i
    ensures Reserved(h, i, t, h[i].reclaim.page)
  {
    assert Legal(h, i);
    var o := h[i - 1].tid;
    LegalRecord(h, i - 1, o);
    assert ReserveOn(h[h[i - 1].reserveLsn], o, h[i].reclaim.page);
    assert Begun(h, i - 1, t) by {
      var b: nat :| b < i && BeginOf(h[b], t);
      assert b < i - 1;
    }
    assert !Ended(h, i - 1, t);
  }

  /** What is legal is decided by the records so far: cutting a legal history anywhere leaves one. */
  lemma CutLegal(h: History, n: nat)
    requires n <= |h| && LegalTo(h, |h|)
    ensures LegalTo(h[..n], n)
  {
    forall i: nat | i < n ensures Legal(h[..n], i) {
      assert Legal(h, i);
      LegalSame(h, h[..n], i);
    }
  }

  lemma LegalSame(h: History, g: History, n: nat)
    requires n < |g| <= |h| && g == h[..|g|] && Legal(h, n)
    ensures Legal(g, n)
  {
    hide Begun, Ended, Cleaning, RolledBack, Updates, Compensated;
    forall t: TxnId
      ensures Begun(g, n, t) == Begun(h, n, t) && Ended(g, n, t) == Ended(h, n, t)
      ensures Cleaning(g, n, t) == Cleaning(h, n, t) && RolledBack(g, n, t) == RolledBack(h, n, t)
    {
      SameStatus(h, g, n, t);
    }
    if IsTxn(h[n]) {
      ListsSame(h, g, n, h[n].tid);
    }
  }

  lemma SameStatus(h: History, g: History, n: nat, t: TxnId)
    requires n <= |g| <= |h| && g == h[..|g|]
    ensures Begun(g, n, t) == Begun(h, n, t) && Ended(g, n, t) == Ended(h, n, t)
    ensures Cleaning(g, n, t) == Cleaning(h, n, t) && RolledBack(g, n, t) == RolledBack(h, n, t)
  {
    assert forall i: nat :: i < n ==> g[i] == h[i];
  }

  lemma {:induction false} ListsSame(h: History, g: History, n: nat, t: TxnId)
    requires n <= |g| <= |h| && g == h[..|g|]
    ensures Updates(g, n, t) == Updates(h, n, t) && Compensated(g, n, t) == Compensated(h, n, t)
    ensures Reservations(g, n, t) == Reservations(h, n, t)
  {
    if n > 0 {
      ListsSame(h, g, n - 1, t);
    }
  }
}
