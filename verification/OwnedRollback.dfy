/** The analyzer of owned-rollback histories: one pass with local checks against a table of transactions.
    It accepts exactly the legal histories. */
module OwnedRollback {
  import opened OwnedHistory

  datatype Phase =
    Active | Undoing | CleanupStarted | CleanupInProgress | CleanupComplete | AbortRecorded | CommitRecorded

  datatype Evidence = Evidence(reserveLsn: Lsn, intentLsn: Lsn, reclaimLsn: Lsn, progressLsn: Lsn)

  datatype Analysis = Analysis(
    owned: bool, phase: Phase, begin: Lsn, last: Lsn, cleanupBegin: Lsn, startPages: nat, undoNext: Lsn,
    reservations: map<PageId, Evidence>)

  type Table = map<TxnId, Analysis>

  predicate Terminal(phase: Phase) {
    phase.AbortRecorded? || phase.CommitRecorded?
  }

  predicate AllProgressed(reservations: map<PageId, Evidence>) {
    forall p :: p in reservations ==> reservations[p].progressLsn != INVALID_LSN
  }

  /** Where the search for the next undo starts. */
  function UndoStart(e: Analysis): (r: Lsn) {
    if e.phase.Undoing? then e.undoNext else e.last
  }

  // ---- The table, exactly ----

  ghost predicate SpanOk(h: History, n: nat, t: TxnId, e: Analysis)
    requires n <= |h|
  {
    && 0 <= e.begin < n && h[e.begin] == Begin(t, e.owned, e.startPages)
    && Latest(h, n, t, e.last) && e.begin <= e.last
    && (forall j: nat :: j < n && Of(h[j], t) ==> e.begin <= j && (h[j].Begin? ==> j == e.begin))
  }

  ghost predicate PhaseOk(h: History, n: nat, t: TxnId, e: Analysis)
    requires n <= |h|
  {
    && (Terminal(e.phase) <==> Ended(h, n, t))
    && (e.cleanupBegin != INVALID_LSN <==> Cleaning(h, n, t))
    && (e.cleanupBegin != INVALID_LSN ==> e.owned)
    && (!Terminal(e.phase) ==>
          && (e.phase.Active? <==> !RolledBack(h, n, t) && !Cleaning(h, n, t))
          && (e.phase.Undoing? <==> RolledBack(h, n, t) && !Cleaning(h, n, t))
          && (Cleaning(h, n, t) ==> (e.phase.CleanupComplete? <==> AllProgressed(e.reservations))))
  }

  /** The updates at or below the start of the search are exactly those not compensated. */
  ghost predicate ListsOk(h: History, n: nat, t: TxnId, e: Analysis)
    requires n <= |h|
  {
    e.phase.Active? || e.phase.Undoing? ==>
      && e.begin <= UndoStart(e) < n && 0 <= e.begin && Of(h[UndoStart(e)], t)
      && WritesTo(h, t, UndoStart(e))
      && Split(Updates(h, n, t), |Updates(h, n, t)| - |Compensated(h, n, t)|, UndoStart(e))
  }

  /** Up to that record the transaction only wrote. */
  ghost predicate WritesTo(h: History, t: TxnId, bound: Lsn)
    requires bound < |h|
  {
    forall j: nat :: j <= bound && Of(h[j], t) ==> h[j].Begin? || h[j].Reserve? || h[j].Update?
  }

  ghost predicate Split(us: seq<Lsn>, k: int, bound: Lsn) {
    forall i :: 0 <= i < |us| ==> (us[i] <= bound <==> i < k)
  }

  ghost predicate EvidenceOk(h: History, n: nat, t: TxnId, p: PageId, v: Evidence)
    requires n <= |h|
  {
    && 0 <= v.reserveLsn < n && ReserveOn(h[v.reserveLsn], t, p)
    && (v.intentLsn == INVALID_LSN || (0 <= v.intentLsn < n && IntentOn(h[v.intentLsn], t, p)))
    && v.reclaimLsn == (if v.intentLsn == INVALID_LSN || v.intentLsn + 1 == n then INVALID_LSN else v.intentLsn + 1)
    && (v.progressLsn == INVALID_LSN || (0 <= v.progressLsn < n && ProgressOn(h[v.progressLsn], t, p)))
  }

  /** A record about a page of t is the one the evidence names. */
  ghost predicate Evident(h: History, i: nat, t: TxnId, p: PageId, rs: map<PageId, Evidence>)
    requires i < |h|
  {
    && (ReserveOn(h[i], t, p) ==> p in rs && rs[p].reserveLsn == i)
    && (IntentOn(h[i], t, p) ==> p in rs && rs[p].intentLsn == i)
    && (ProgressOn(h[i], t, p) ==> p in rs && rs[p].progressLsn == i)
  }

  ghost predicate EvidencesOk(h: History, n: nat, t: TxnId, rs: map<PageId, Evidence>)
    requires n <= |h|
  {
    && (forall p :: p in rs ==> EvidenceOk(h, n, t, p, rs[p]))
    && (forall i: nat, p :: i < n ==> Evident(h, i, t, p, rs))
    && |rs| == Reservations(h, n, t)
  }

  ghost predicate EntryOk(h: History, n: nat, t: TxnId, e: Analysis)
    requires n <= |h|
  {
    SpanOk(h, n, t, e) && PhaseOk(h, n, t, e) && ListsOk(h, n, t, e) && EvidencesOk(h, n, t, e.reservations)
  }

  ghost predicate TableOk(h: History, n: nat, txns: Table)
    requires n <= |h|
  {
    && (forall t :: t in txns ==> EntryOk(h, n, t, txns[t]))
    && (forall i: nat :: i < n && IsTxn(h[i]) ==> h[i].tid in txns)
  }

  ghost predicate Holds(h: History, n: nat, t: TxnId, p: PageId)
    requires n <= |h|
  {
    !Ended(h, n, t) && exists i: nat :: i < n && Touches(h[i], t, p)
  }

  ghost predicate OwnersOk(h: History, n: nat, owners: map<PageId, TxnId>)
    requires n <= |h|
  {
    && (forall p :: p in owners ==> Holds(h, n, owners[p], p))
    && (forall p, t :: Holds(h, n, t, p) ==> p in owners && owners[p] == t)
  }

  ghost predicate StateOk(h: History, n: nat, txns: Table, owners: map<PageId, TxnId>)
    requires n <= |h|
  {
    LegalTo(h, n) && TableOk(h, n, txns) && OwnersOk(h, n, owners)
  }

  /** No intent waits for its reclaim. */
  predicate Quiet(h: History, n: nat)
    requires n <= |h|
  {
    n == 0 || !h[n - 1].CleanupIntent?
  }

  // ---- Lists ----

  lemma {:induction false} UpdatesAre(h: History, n: nat, t: TxnId)
    requires n <= |h|
    ensures forall k :: 0 <= k < |Updates(h, n, t)| ==>
              0 <= Updates(h, n, t)[k] < n && Existing(h[Updates(h, n, t)[k]], t)
    ensures forall k, l :: 0 <= k < l < |Updates(h, n, t)| ==> Updates(h, n, t)[k] < Updates(h, n, t)[l]
    ensures forall i: nat :: i < n && Existing(h[i], t) ==> i in Updates(h, n, t)
  {
    if n > 0 {
      UpdatesAre(h, n - 1, t);
    }
  }

  lemma {:induction false} ReverseAt(s: seq<Lsn>, k: nat)
    requires k < |s|
    ensures |Reverse(s)| == |s| && Reverse(s)[k] == s[|s| - 1 - k]
  {
    ReverseLength(s);
    if k < |s| - 1 {
      ReverseLength(s[1..]);
      ReverseAt(s[1..], k);
    } else {
      ReverseLength(s[1..]);
    }
  }

  lemma {:induction false} ReverseLength(s: seq<Lsn>)
    ensures |Reverse(s)| == |s|
  {
    if s != [] {
      ReverseLength(s[1..]);
    }
  }

  lemma PrefixGrows(s: seq<Lsn>, c: seq<Lsn>, u: Lsn)
    requires c <= s
    ensures c + [u] <= s <==> |c| < |s| && s[|c|] == u
    ensures c == s <==> |c| == |s|
  {
    if c + [u] <= s {
      assert (c + [u])[|c|] == u;
    }
  }

  /** The one element by which a proper prefix of the reversed list can grow. */
  lemma NextInReverse(us: seq<Lsn>, c: seq<Lsn>, u: Lsn)
    requires c <= Reverse(us)
    ensures |c| <= |us|
    ensures c + [u] <= Reverse(us) <==> |c| < |us| && u == us[|us| - 1 - |c|]
    ensures c == Reverse(us) <==> |c| == |us|
  {
    hide Reverse;
    ReverseLength(us);
    PrefixGrows(Reverse(us), c, u);
    if |c| < |us| {
      ReverseAt(us, |c|);
    }
  }

  // ---- Following the chain ----

  /** The next record of t at or below the start that UNDO must not pass over, or its BEGIN. */
  method NextRequiredUndo(h: History, start: Lsn, t: TxnId, begin: Lsn, ghost n: nat,
                          ghost e: Analysis) returns (target: Lsn)
    requires n <= |h| && LegalTo(h, n) && SpanOk(h, n, t, e) && e.begin == begin
    requires begin <= start < n && Of(h[start], t)
    ensures begin <= target <= start && Of(h[target], t)
    ensures target == begin || !Skippable(h[target])
    ensures forall j: nat :: target < j <= start && Of(h[j], t) ==> Skippable(h[j])
  {
    hide LegalTo, LegalContent;
    target := start;
    while target != begin && Skippable(h[target])
      invariant begin <= target <= start && Of(h[target], t)
      invariant forall j: nat :: target < j <= start && Of(h[j], t) ==> Skippable(h[j])
      decreases target
    {
      PrevAt(h, n, target, t);
      target := h[target].prev;
    }
  }

  lemma PrevAt(h: History, n: nat, i: nat, t: TxnId)
    requires n <= |h| && LegalTo(h, n) && i < n && Of(h[i], t) && !h[i].Begin?
    ensures Latest(h, i, t, h[i].prev)
  {
    hide LegalContent;
    LegalRecord(h, i, t);
  }

  /** The walk finds the newest update not compensated, and BEGIN exactly when there is none. */
  lemma WalkExact(h: History, n: nat, t: TxnId, e: Analysis, target: Lsn)
    requires n <= |h| && LegalTo(h, n) && SpanOk(h, n, t, e) && ListsOk(h, n, t, e)
    requires (e.phase.Active? || e.phase.Undoing?)
    requires e.begin <= target <= UndoStart(e) && Of(h[target], t)
    requires target == e.begin || !Skippable(h[target])
    requires forall j: nat :: target < j <= UndoStart(e) && Of(h[j], t) ==> Skippable(h[j])
    ensures Compensated(h, n, t) == Reverse(Updates(h, n, t)) <==> target == e.begin
    ensures forall u :: Compensated(h, n, t) + [u] <= Reverse(Updates(h, n, t)) <==> target != e.begin && u == target
    ensures target != e.begin ==>
              var us, c := Updates(h, n, t), Compensated(h, n, t);
              |c| < |us| && us[|us| - 1 - |c|] == target
  {
    hide LegalTo, Updates, Compensated, Reverse;
    var us, c := Updates(h, n, t), Compensated(h, n, t);
    UpdatesAre(h, n, t);
    UndoneNewestFirst(h, n, t);
    forall u ensures |c| <= |us| && (c + [u] <= Reverse(us) <==> |c| < |us| && u == us[|us| - 1 - |c|]) {
      NextInReverse(us, c, u);
    }
    NextInReverse(us, c, 0);
    assert |c| < |us| ==> var u := us[|us| - 1 - |c|]; Existing(h[u], t) && Of(h[u], t) && u <= UndoStart(e);
    if target != e.begin {
      assert Existing(h[target], t);
      Newest(us, |us| - |c|, UndoStart(e), target);
    }
  }

  /** An element at or below the bound is at most the last of those. */
  lemma Newest(us: seq<Lsn>, k: int, bound: Lsn, x: Lsn)
    requires Split(us, k, bound) && k <= |us| && x in us && x <= bound
    requires forall i, j :: 0 <= i < j < |us| ==> us[i] < us[j]
    ensures 0 < k && x <= us[k - 1]
  {
    var i :| 0 <= i < |us| && us[i] == x;
  }

  // ---- What one record changes ----

  lemma Grow(h: History, n: nat, t: TxnId)
    requires n < |h|
    ensures Begun(h, n + 1, t) == (Begun(h, n, t) || BeginOf(h[n], t))
    ensures Ended(h, n + 1, t) == (Ended(h, n, t) || EndOf(h[n], t))
    ensures Cleaning(h, n + 1, t) == (Cleaning(h, n, t) || CleanupOf(h[n], t))
    ensures RolledBack(h, n + 1, t) == (RolledBack(h, n, t) || CompensationOf(h[n], t))
  {
    if BeginOf(h[n], t) {
      assert Begun(h, n + 1, t);
    }
    if EndOf(h[n], t) {
      assert Ended(h, n + 1, t);
    }
    if CleanupOf(h[n], t) {
      assert Cleaning(h, n + 1, t);
    }
    if CompensationOf(h[n], t) {
      assert RolledBack(h, n + 1, t);
    }
  }

  lemma ListsGrow(h: History, n: nat, t: TxnId)
    requires n < |h|
    ensures Updates(h, n + 1, t) == if Existing(h[n], t) then Updates(h, n, t) + [n] else Updates(h, n, t)
    ensures Compensated(h, n + 1, t) ==
              if CompensationOf(h[n], t) then Compensated(h, n, t) + [h[n].target] else Compensated(h, n, t)
    ensures Reservations(h, n + 1, t) == Reservations(h, n, t) + if h[n].Reserve? && h[n].tid == t then 1 else 0
  {
  }

  lemma EvidenceCarries(h: History, n: nat, t: TxnId, p: PageId, v: Evidence)
    requires n < |h| && EvidenceOk(h, n, t, p, v) && (v.intentLsn == INVALID_LSN || v.intentLsn + 1 != n)
    ensures EvidenceOk(h, n + 1, t, p, v)
  {
  }

  /** Evidence stays as it is over a record that says nothing about reservations of t, unless the
      reclaim of one of its intents is due. */
  lemma EvidencesCarry(h: History, n: nat, t: TxnId, rs: map<PageId, Evidence>)
    requires n < |h| && EvidencesOk(h, n, t, rs) && (Quiet(h, n) || h[n - 1].tid != t)
    requires !Of(h[n], t) || !(h[n].Reserve? || h[n].CleanupIntent? || h[n].CleanupProgress?)
    ensures EvidencesOk(h, n + 1, t, rs)
  {
    hide Reservations;
    ListsGrow(h, n, t);
    forall p | p in rs ensures EvidenceOk(h, n + 1, t, p, rs[p]) {
      assert EvidenceOk(h, n, t, p, rs[p]);
      EvidenceCarries(h, n, t, p, rs[p]);
    }
    forall i: nat, p | i < n + 1 ensures Evident(h, i, t, p, rs) {
      assert i < n ==> Evident(h, i, t, p, rs);
    }
  }

  /** Records of others leave an entry as it is. */
  lemma EntryCarries(h: History, n: nat, t: TxnId, e: Analysis)
    requires n < |h| && EntryOk(h, n, t, e) && !Of(h[n], t) && (Quiet(h, n) || h[n - 1].tid != t)
    ensures EntryOk(h, n + 1, t, e)
  {
    hide Updates, Compensated, Begun, Ended, Cleaning, RolledBack, EvidencesOk;
    Grow(h, n, t);
    ListsGrow(h, n, t);
    EvidencesCarry(h, n, t, e.reservations);
  }

  // ---- The records of one transaction ----

  /** The chain check every record of a known transaction passes first. */
  ghost predicate Continues(h: History, n: nat, t: TxnId, e: Analysis) {
    && n < |h| && Of(h[n], t) && !h[n].Begin? && EntryOk(h, n, t, e) && LegalTo(h, n) && Quiet(h, n)
    && !Terminal(e.phase) && h[n].prev == e.last
  }

  lemma SpanGrows(h: History, n: nat, t: TxnId, e: Analysis, e': Analysis)
    requires Continues(h, n, t, e) && e'.begin == e.begin && e'.last == n && e'.owned == e.owned
    requires e'.startPages == e.startPages
    ensures SpanOk(h, n + 1, t, e')
  {
  }

  /** Writing goes on: a reservation or an update. */
  lemma WritingGoesOn(h: History, n: nat, t: TxnId, e: Analysis, e': Analysis)
    requires Continues(h, n, t, e) && (h[n].Reserve? || h[n].Update?) && e.phase.Active?
    requires e'.last == n && e'.phase == e.phase && e'.begin == e.begin && e'.owned == e.owned
    requires e'.cleanupBegin == e.cleanupBegin
    ensures PhaseOk(h, n + 1, t, e') && ListsOk(h, n + 1, t, e')
  {
    hide Updates, Compensated, Begun, Ended, Cleaning, RolledBack, EvidencesOk, LegalTo, Split, WritesTo;
    Grow(h, n, t);
    WritingLists(h, n, t, e);
  }

  lemma WritingLists(h: History, n: nat, t: TxnId, e: Analysis)
    requires Continues(h, n, t, e) && (h[n].Reserve? || h[n].Update?) && e.phase.Active?
    ensures Split(Updates(h, n + 1, t), |Updates(h, n + 1, t)| - |Compensated(h, n + 1, t)|, n)
    ensures WritesTo(h, t, n) && 0 <= e.begin <= n
  {
    hide Updates, Compensated, Begun, Ended, Cleaning, RolledBack, EvidencesOk, LegalTo;
    ListsGrow(h, n, t);
    UndoneNewestFirst(h, n, t);
    UpdatesAre(h, n + 1, t);
    AllBelow(Updates(h, n + 1, t), n);
  }

  lemma AllBelow(us: seq<Lsn>, n: nat)
    requires forall i :: 0 <= i < |us| ==> us[i] <= n
    ensures Split(us, |us|, n)
  {
  }

  lemma UpdateStep(h: History, n: nat, t: TxnId, e: Analysis)
    requires Continues(h, n, t, e) && h[n].Update? && e.phase.Active?
    ensures EntryOk(h, n + 1, t, e.(last := n))
  {
    hide SpanOk, PhaseOk, ListsOk, EvidencesOk;
    SpanGrows(h, n, t, e, e.(last := n));
    WritingGoesOn(h, n, t, e, e.(last := n));
    EvidencesCarry(h, n, t, e.reservations);
  }

  lemma ReserveStep(h: History, n: nat, t: TxnId, e: Analysis, e': Analysis)
    requires Continues(h, n, t, e) && h[n].Reserve? && e.phase.Active? && h[n].page !in e.reservations
    requires e' == e.(last := n,
                      reservations := e.reservations[h[n].page := Evidence(n, INVALID_LSN, INVALID_LSN, INVALID_LSN)])
    ensures EntryOk(h, n + 1, t, e')
  {
    hide SpanOk, PhaseOk, ListsOk, EvidencesOk;
    SpanGrows(h, n, t, e, e');
    WritingGoesOn(h, n, t, e, e');
    ReserveEvidence(h, n, t, e.reservations);
  }

  lemma ReserveEvidence(h: History, n: nat, t: TxnId, rs: map<PageId, Evidence>)
    requires n < |h| && EvidencesOk(h, n, t, rs) && h[n].Reserve? && h[n].tid == t && h[n].page !in rs && Quiet(h, n)
    ensures EvidencesOk(h, n + 1, t, rs[h[n].page := Evidence(n, INVALID_LSN, INVALID_LSN, INVALID_LSN)])
  {
    hide Reservations;
    var rs' := rs[h[n].page := Evidence(n, INVALID_LSN, INVALID_LSN, INVALID_LSN)];
    ListsGrow(h, n, t);
    forall p | p in rs' ensures EvidenceOk(h, n + 1, t, p, rs'[p]) {
      if p in rs {
        EvidenceCarries(h, n, t, p, rs[p]);
      }
    }
    EvidentSet(h, n, t, h[n].page, rs, rs');
  }

  /** Setting the evidence of one page to agree with the new record. */
  lemma EvidentSet(h: History, n: nat, t: TxnId, p: PageId, rs: map<PageId, Evidence>, rs': map<PageId, Evidence>)
    requires n < |h| && (forall i: nat, q :: i < n ==> Evident(h, i, t, q, rs))
    requires p in rs' && rs' == rs[p := rs'[p]] && forall q :: Evident(h, n, t, q, rs')
    requires p in rs ==>
               && rs'[p].reserveLsn == rs[p].reserveLsn
               && (rs[p].intentLsn != INVALID_LSN ==> rs'[p].intentLsn == rs[p].intentLsn)
               && (rs[p].progressLsn != INVALID_LSN ==> rs'[p].progressLsn == rs[p].progressLsn)
    ensures forall i: nat, q :: i < n + 1 ==> Evident(h, i, t, q, rs')
  {
    forall i: nat, q | i < n + 1 ensures Evident(h, i, t, q, rs') {
      if i < n {
        assert Evident(h, i, t, q, rs);
      }
    }
  }

  lemma CompensationStep(h: History, n: nat, t: TxnId, e: Analysis, e': Analysis)
    requires Continues(h, n, t, e) && h[n].Compensation? && (e.phase.Active? || e.phase.Undoing?)
    requires LegalCompensation(h, n)
    requires var us, c := Updates(h, n, t), Compensated(h, n, t);
             |c| < |us| && us[|us| - 1 - |c|] == h[n].target <= UndoStart(e)
    requires e' == e.(last := n, phase := Undoing, undoNext := h[n].undoNext)
    ensures EntryOk(h, n + 1, t, e')
  {
    hide SpanOk, PhaseOk, ListsOk, EvidencesOk;
    SpanGrows(h, n, t, e, e');
    CompensationPhase(h, n, t, e, e');
    CompensationLists(h, n, t, e, e');
    EvidencesCarry(h, n, t, e.reservations);
  }

  lemma CompensationPhase(h: History, n: nat, t: TxnId, e: Analysis, e': Analysis)
    requires Continues(h, n, t, e) && h[n].Compensation? && (e.phase.Active? || e.phase.Undoing?)
    requires e' == e.(last := n, phase := Undoing, undoNext := h[n].undoNext)
    ensures PhaseOk(h, n + 1, t, e')
  {
    hide Updates, Compensated, Begun, Ended, Cleaning, RolledBack, EvidencesOk, LegalTo;
    Grow(h, n, t);
  }

  lemma CompensationLists(h: History, n: nat, t: TxnId, e: Analysis, e': Analysis)
    requires Continues(h, n, t, e) && h[n].Compensation? && (e.phase.Active? || e.phase.Undoing?)
    requires var u := h[n].target;
             0 <= u < n && u <= UndoStart(e) && Existing(h[u], t) && h[u].prev == h[n].undoNext
    requires var us, c := Updates(h, n, t), Compensated(h, n, t); |c| < |us| && us[|us| - 1 - |c|] == h[n].target
    requires e' == e.(last := n, phase := Undoing, undoNext := h[n].undoNext)
    ensures ListsOk(h, n + 1, t, e')
  {
    hide Updates, Compensated, EvidencesOk, LegalTo, Split, WritesTo, SpanOk, PhaseOk, Latest;
    var u := h[n].target;
    ListsGrow(h, n, t);
    PrevAt(h, n, u, t);
    PrevInside(h, n, t, e, u);
    SplitBelow(h, n, t, |Updates(h, n, t)| - |Compensated(h, n, t)|, UndoStart(e), u);
    WritesBelow(h, t, UndoStart(e), h[n].undoNext);
  }

  lemma PrevInside(h: History, n: nat, t: TxnId, e: Analysis, u: nat)
    requires n <= |h| && u < n && h[u].Update? && SpanOk(h, n, t, e) && Latest(h, u, t, h[u].prev)
    ensures 0 <= e.begin <= h[u].prev < u && Of(h[h[u].prev], t)
  {
  }

  lemma WritesBelow(h: History, t: TxnId, bound: Lsn, lower: Lsn)
    requires lower <= bound < |h| && WritesTo(h, t, bound)
    ensures WritesTo(h, t, lower)
  {
  }

  /** Below an update stand its predecessors, and the newest of them is where its chain leads. */
  lemma SplitBelow(h: History, n: nat, t: TxnId, k: int, bound: Lsn, u: nat)
    requires n <= |h| && u < n && h[u].Update? && Latest(h, u, t, h[u].prev)
    requires Split(Updates(h, n, t), k, bound) && 0 < k <= |Updates(h, n, t)| && Updates(h, n, t)[k - 1] == u
    ensures Split(Updates(h, n, t), k - 1, h[u].prev)
  {
    hide Updates;
    var us := Updates(h, n, t);
    UpdatesAre(h, n, t);
    forall i | 0 <= i < |us| ensures us[i] <= h[u].prev <==> i < k - 1 {
      assert Existing(h[us[i]], t);
      assert i > k - 1 ==> us[k - 1] < us[i];
      assert i < k - 1 ==> us[i] < us[k - 1];
    }
  }

  /** The lists of a transaction that stopped writing are no longer followed. */
  lemma PastLists(h: History, n: nat, t: TxnId, e: Analysis)
    requires n <= |h| && !e.phase.Active? && !e.phase.Undoing?
    ensures ListsOk(h, n, t, e)
  {
  }

  lemma CleanupBeginStep(h: History, n: nat, t: TxnId, e: Analysis, e': Analysis)
    requires Continues(h, n, t, e) && h[n].CleanupBegin? && e.owned && e.cleanupBegin == INVALID_LSN
    requires e' == e.(last := n, cleanupBegin := n,
                      phase := if AllProgressed(e.reservations) then CleanupComplete else CleanupStarted)
    ensures EntryOk(h, n + 1, t, e')
  {
    hide SpanOk, ListsOk, EvidencesOk, Begun, Ended, Cleaning, RolledBack, AllProgressed;
    SpanGrows(h, n, t, e, e');
    Grow(h, n, t);
    PastLists(h, n + 1, t, e');
    EvidencesCarry(h, n, t, e.reservations);
  }

  lemma IntentStep(h: History, n: nat, t: TxnId, e: Analysis, p: PageId, e': Analysis)
    requires Continues(h, n, t, e) && IntentOn(h[n], t, p) && e.cleanupBegin != INVALID_LSN && p in e.reservations
    requires e.reservations[p].intentLsn == INVALID_LSN && e.reservations[p].progressLsn == INVALID_LSN
    requires e' ==
               e.(last := n, phase := CleanupInProgress,
                  reservations := e.reservations[p := e.reservations[p].(intentLsn := n)])
    ensures EntryOk(h, n + 1, t, e')
  {
    hide SpanOk, ListsOk, EvidencesOk, Begun, Ended, Cleaning, RolledBack;
    SpanGrows(h, n, t, e, e');
    Grow(h, n, t);
    PastLists(h, n + 1, t, e');
    assert e'.reservations[p].progressLsn == INVALID_LSN;
    IntentEvidence(h, n, t, e.reservations, p, e'.reservations);
  }

  lemma IntentEvidence(h: History, n: nat, t: TxnId, rs: map<PageId, Evidence>, p: PageId, rs': map<PageId, Evidence>)
    requires n < |h| && EvidencesOk(h, n, t, rs) && IntentOn(h[n], t, p) && Quiet(h, n) && p in rs
    requires rs[p].intentLsn == INVALID_LSN
    requires rs' == rs[p := rs[p].(intentLsn := n)]
    ensures EvidencesOk(h, n + 1, t, rs')
  {
    hide Reservations;
    ListsGrow(h, n, t);
    SameSize(rs, p, rs'[p]);
    forall q | q in rs' ensures EvidenceOk(h, n + 1, t, q, rs'[q]) {
      if q != p {
        EvidenceCarries(h, n, t, q, rs[q]);
      }
    }
    EvidentSet(h, n, t, p, rs, rs');
  }

  lemma SameSize(rs: map<PageId, Evidence>, p: PageId, v: Evidence)
    requires p in rs
    ensures |rs[p := v]| == |rs|
  {
    assert rs[p := v].Keys == rs.Keys;
  }

  lemma ProgressStep(h: History, n: nat, t: TxnId, e: Analysis, p: PageId, e': Analysis)
    requires Continues(h, n, t, e) && ProgressOn(h[n], t, p) && e.cleanupBegin != INVALID_LSN && p in e.reservations
    requires e.reservations[p].progressLsn == INVALID_LSN
    requires var rs := e.reservations[p := e.reservations[p].(progressLsn := n)];
             e' == e.(last := n, reservations := rs,
                      phase := if AllProgressed(rs) then CleanupComplete else CleanupInProgress)
    ensures EntryOk(h, n + 1, t, e')
  {
    hide SpanOk, ListsOk, EvidencesOk, Begun, Ended, Cleaning, RolledBack, AllProgressed;
    SpanGrows(h, n, t, e, e');
    Grow(h, n, t);
    PastLists(h, n + 1, t, e');
    ProgressEvidence(h, n, t, e.reservations, p, e'.reservations);
  }

  lemma ProgressEvidence(h: History, n: nat, t: TxnId, rs: map<PageId, Evidence>, p: PageId, rs': map<PageId, Evidence>)
    requires n < |h| && EvidencesOk(h, n, t, rs) && ProgressOn(h[n], t, p) && Quiet(h, n) && p in rs
    requires rs[p].progressLsn == INVALID_LSN
    requires rs' == rs[p := rs[p].(progressLsn := n)]
    ensures EvidencesOk(h, n + 1, t, rs')
  {
    hide Reservations;
    ListsGrow(h, n, t);
    SameSize(rs, p, rs'[p]);
    forall q | q in rs' ensures EvidenceOk(h, n + 1, t, q, rs'[q]) {
      EvidenceCarries(h, n, t, q, rs[q]);
    }
    EvidentSet(h, n, t, p, rs, rs');
  }

  lemma EndStep(h: History, n: nat, t: TxnId, e: Analysis, e': Analysis)
    requires Continues(h, n, t, e) && EndOf(h[n], t) && Terminal(e'.phase) && e' == e.(last := n, phase := e'.phase)
    ensures EntryOk(h, n + 1, t, e')
  {
    hide SpanOk, ListsOk, EvidencesOk, Begun, Ended, Cleaning, RolledBack, AllProgressed;
    SpanGrows(h, n, t, e, e');
    Grow(h, n, t);
    PastLists(h, n + 1, t, e');
    EvidencesCarry(h, n, t, e.reservations);
  }

  /** The reclaim right after an intent completes the evidence of its page. */
  lemma ReclaimStep(h: History, n: nat, t: TxnId, e: Analysis, p: PageId, e': Analysis)
    requires 0 < n < |h| && h[n].PageReclaim? && EntryOk(h, n, t, e) && IntentOn(h[n - 1], t, p) && p in e.reservations
    requires e' == e.(reservations := e.reservations[p := e.reservations[p].(reclaimLsn := n)])
    ensures EntryOk(h, n + 1, t, e')
  {
    hide Updates, Compensated, EvidencesOk, Begun, Ended, Cleaning, RolledBack, AllProgressed;
    Grow(h, n, t);
    ListsGrow(h, n, t);
    ProgressedSame(e.reservations, p, e'.reservations[p]);
    ReclaimEvidence(h, n, t, e.reservations, p, e'.reservations);
  }

  lemma ProgressedSame(rs: map<PageId, Evidence>, p: PageId, v: Evidence)
    requires p in rs && v.progressLsn == rs[p].progressLsn
    ensures AllProgressed(rs[p := v]) == AllProgressed(rs)
  {
    if AllProgressed(rs[p := v]) {
      forall q | q in rs ensures rs[q].progressLsn != INVALID_LSN {
        assert rs[p := v][q].progressLsn == rs[q].progressLsn;
      }
    }
  }

  lemma ReclaimEvidence(h: History, n: nat, t: TxnId, rs: map<PageId, Evidence>, p: PageId, rs': map<PageId, Evidence>)
    requires 0 < n < |h| && EvidencesOk(h, n, t, rs) && h[n].PageReclaim? && IntentOn(h[n - 1], t, p) && p in rs
    requires rs' == rs[p := rs[p].(reclaimLsn := n)]
    ensures EvidencesOk(h, n + 1, t, rs')
  {
    hide Reservations;
    ListsGrow(h, n, t);
    SameSize(rs, p, rs'[p]);
    assert Evident(h, n - 1, t, p, rs);
    forall q | q in rs' ensures EvidenceOk(h, n + 1, t, q, rs'[q]) {
      assert EvidenceOk(h, n, t, q, rs[q]);
    }
    EvidentSet(h, n, t, p, rs, rs');
  }

  lemma BeginStep(h: History, n: nat, t: TxnId)
    requires n < |h| && BeginOf(h[n], t) && forall i: nat :: i < n ==> !Of(h[i], t)
    ensures EntryOk(h, n + 1, t, Analysis(h[n].owned, Active, n, n, INVALID_LSN, h[n].startPages, INVALID_LSN, map[]))
  {
    NothingYet(h, n, t);
  }

  lemma {:induction false} NothingYet(h: History, n: nat, t: TxnId)
    requires n <= |h| && forall i: nat :: i < n ==> !Of(h[i], t)
    ensures Updates(h, n, t) == [] && Compensated(h, n, t) == [] && Reservations(h, n, t) == 0
  {
    if n > 0 {
      NothingYet(h, n - 1, t);
    }
  }

  // ---- Page ownership ----

  predicate MayClaim(owners: map<PageId, TxnId>, p: PageId, t: TxnId) {
    p in owners ==> owners[p] == t
  }

  lemma ClaimExact(h: History, n: nat, owners: map<PageId, TxnId>, p: PageId, t: TxnId)
    requires n <= |h| && OwnersOk(h, n, owners)
    ensures FreeFor(h, n, t, p) <==> MayClaim(owners, p, t)
  {
    hide Ended;
    if MayClaim(owners, p, t) {
      forall i: nat, u | i < n && Touches(h[i], u, p) && u != t ensures Ended(h, n, u) {
        assert Ended(h, n, u) || Holds(h, n, u, p);
      }
    } else {
      var u := owners[p];
      assert Holds(h, n, u, p);
      var i: nat :| i < n && Touches(h[i], u, p);
      assert !Ended(h, n, u);
    }
  }

  lemma HoldsGrows(h: History, n: nat, t: TxnId, p: PageId)
    requires n < |h|
    ensures Holds(h, n + 1, t, p) ==
              (!EndOf(h[n], t) && (Holds(h, n, t, p) || (!Ended(h, n, t) && Touches(h[n], t, p))))
  {
    hide Ended;
    Grow(h, n, t);
    if Touches(h[n], t, p) && !Ended(h, n, t) {
      assert Holds(h, n + 1, t, p);
    }
  }

  lemma OwnersClaim(h: History, n: nat, owners: map<PageId, TxnId>, p: PageId, t: TxnId)
    requires n < |h| && OwnersOk(h, n, owners) && MayClaim(owners, p, t) && Touches(h[n], t, p) && !Ended(h, n, t)
    ensures OwnersOk(h, n + 1, owners[p := t])
  {
    hide Holds, Ended;
    var owners' := owners[p := t];
    forall q | q in owners' ensures Holds(h, n + 1, owners'[q], q) {
      HoldsGrows(h, n, owners'[q], q);
    }
    var m: nat := n + 1;
    forall q, u | Holds(h, m, u, q) ensures q in owners' && owners'[q] == u {
      HoldsGrows(h, n, u, q);
    }
  }

  function Released(owners: map<PageId, TxnId>, t: TxnId): (r: map<PageId, TxnId>) {
    map p | p in owners && owners[p] != t :: owners[p]
  }

  lemma OwnersRelease(h: History, n: nat, owners: map<PageId, TxnId>, t: TxnId)
    requires n < |h| && OwnersOk(h, n, owners) && EndOf(h[n], t)
    ensures OwnersOk(h, n + 1, Released(owners, t))
  {
    hide Holds, Ended;
    var owners' := Released(owners, t);
    forall q | q in owners' ensures Holds(h, n + 1, owners'[q], q) {
      HoldsGrows(h, n, owners'[q], q);
    }
    var m: nat := n + 1;
    forall q, u | Holds(h, m, u, q) ensures q in owners' && owners'[q] == u {
      HoldsGrows(h, n, u, q);
    }
  }

  lemma OwnersCarry(h: History, n: nat, owners: map<PageId, TxnId>)
    requires n < |h| && OwnersOk(h, n, owners) && !h[n].Reserve? && !h[n].Update? && !h[n].Commit? && !h[n].Abort?
    ensures OwnersOk(h, n + 1, owners)
  {
    hide Holds, Ended;
    forall q | q in owners ensures Holds(h, n + 1, owners[q], q) {
      HoldsGrows(h, n, owners[q], q);
    }
    var m: nat := n + 1;
    forall q, u | Holds(h, m, u, q) ensures q in owners && owners[q] == u {
      HoldsGrows(h, n, u, q);
    }
  }

  // ---- The checks decide legality ----

  lemma BegunExact(h: History, n: nat, txns: Table, t: TxnId)
    requires n <= |h| && TableOk(h, n, txns)
    ensures t in txns <==> Begun(h, n, t)
    ensures t !in txns ==> forall i: nat :: i < n ==> !Of(h[i], t)
  {
    hide PhaseOk, ListsOk, EvidencesOk;
    if t in txns {
      assert BeginOf(h[txns[t].begin], t);
    }
  }

  /** The transactions still running are those whose table entry is not terminal. */
  lemma LiveExact(h: History, n: nat, txns: Table, t: TxnId)
    requires n <= |h| && TableOk(h, n, txns)
    ensures Begun(h, n, t) && !Ended(h, n, t) <==> t in txns && !Terminal(txns[t].phase)
    ensures Cleaning(h, n, t) && !Ended(h, n, t) ==> t in txns
    ensures t in txns ==> (Cleaning(h, n, t) <==> txns[t].cleanupBegin != INVALID_LSN)
    ensures t in txns ==> (Ended(h, n, t) <==> Terminal(txns[t].phase))
  {
    hide Begun, Ended, ListsOk, EvidencesOk;
    BegunExact(h, n, txns, t);
    if t in txns {
      assert EntryOk(h, n, t, txns[t]);
    }
  }

  lemma ReservedExact(h: History, n: nat, t: TxnId, rs: map<PageId, Evidence>, p: PageId)
    requires n <= |h| && EvidencesOk(h, n, t, rs)
    ensures Reserved(h, n, t, p) <==> p in rs
    ensures Progressed(h, n, t, p) <==> p in rs && rs[p].progressLsn != INVALID_LSN
    ensures (exists i: nat :: i < n && IntentOn(h[i], t, p)) <==> p in rs && rs[p].intentLsn != INVALID_LSN
  {
    if p in rs {
      var v := rs[p];
      assert EvidenceOk(h, n, t, p, v);
      assert ReserveOn(h[v.reserveLsn], t, p);
      assert v.intentLsn != INVALID_LSN ==> IntentOn(h[v.intentLsn], t, p);
      assert v.progressLsn != INVALID_LSN ==> ProgressOn(h[v.progressLsn], t, p);
    }
    if Reserved(h, n, t, p) {
      var i: nat :| i < n && ReserveOn(h[i], t, p);
      assert Evident(h, i, t, p, rs);
    }
    if Progressed(h, n, t, p) {
      var i: nat :| i < n && ProgressOn(h[i], t, p);
      assert Evident(h, i, t, p, rs);
    }
    if i: nat :| i < n && IntentOn(h[i], t, p) {
      assert Evident(h, i, t, p, rs);
    }
  }

  lemma ReserveExact(h: History, n: nat, t: TxnId, e: Analysis, owners: map<PageId, TxnId>)
    requires Continues(h, n, t, e) && h[n].Reserve? && OwnersOk(h, n, owners)
    ensures LegalReserve(h, n) <==>
              && e.phase.Active? && h[n].oldPages >= e.startPages
              && (forall p: PageId :: p in e.reservations ==> p < h[n].page)
              && MayClaim(owners, h[n].page, t)
  {
    hide Begun, Ended, Cleaning, RolledBack, FreeFor, ListsOk, EvidencesOk, OwnersOk;
    ClaimExact(h, n, owners, h[n].page, t);
    forall p: PageId ensures Reserved(h, n, t, p) <==> p in e.reservations {
      ReservedExact(h, n, t, e.reservations, p);
    }
    assert (forall p: PageId :: p in e.reservations ==> p < h[n].page) <==>
           (forall i: nat, p: PageId :: i < n && ReserveOn(h[i], t, p) ==> p < h[n].page) by {
      HighestExact(h, n, t, e.reservations, h[n].page);
    }
  }

  lemma HighestExact(h: History, n: nat, t: TxnId, rs: map<PageId, Evidence>, bound: PageId)
    requires n <= |h| && forall p: PageId :: Reserved(h, n, t, p) <==> p in rs
    ensures (forall p: PageId :: p in rs ==> p < bound) <==>
            (forall i: nat, p: PageId :: i < n && ReserveOn(h[i], t, p) ==> p < bound)
  {
    if forall p: PageId :: p in rs ==> p < bound {
      forall i: nat, p: PageId | i < n && ReserveOn(h[i], t, p) ensures p < bound {
        assert Reserved(h, n, t, p);
      }
    } else {
      var p: PageId :| p in rs && !(p < bound);
      assert Reserved(h, n, t, p);
    }
  }

  lemma UpdateExact(h: History, n: nat, t: TxnId, e: Analysis, owners: map<PageId, TxnId>)
    requires Continues(h, n, t, e) && h[n].Update? && OwnersOk(h, n, owners)
    ensures LegalUpdate(h, n) <==>
              && e.phase.Active? && h[n].existed == (h[n].page < e.startPages)
              && (!e.owned || h[n].existed || h[n].page in e.reservations)
              && MayClaim(owners, h[n].page, t)
  {
    hide Begun, Ended, Cleaning, RolledBack, FreeFor, ListsOk, EvidencesOk, OwnersOk;
    ClaimExact(h, n, owners, h[n].page, t);
    ReservedExact(h, n, t, e.reservations, h[n].page);
  }

  lemma AbortExact(h: History, n: nat, t: TxnId, e: Analysis)
    requires Continues(h, n, t, e) && h[n].Abort?
    ensures LegalAbort(h, n) <==> !e.owned || e.phase.CleanupComplete?
  {
    hide Begun, Ended, Cleaning, RolledBack, ListsOk, EvidencesOk;
    forall p: PageId
      ensures Reserved(h, n, t, p) <==> p in e.reservations
      ensures Progressed(h, n, t, p) <==> p in e.reservations && e.reservations[p].progressLsn != INVALID_LSN
    {
      ReservedExact(h, n, t, e.reservations, p);
    }
    AccountedExact(h, n, t, e.reservations);
  }

  lemma AccountedExact(h: History, n: nat, t: TxnId, rs: map<PageId, Evidence>)
    requires n <= |h| && EvidencesOk(h, n, t, rs)
    ensures AllProgressed(rs) <==>
              forall i: nat, p :: i < n && ReserveOn(h[i], t, p) ==> exists j: nat :: j < n && ProgressOn(h[j], t, p)
  {
    hide EvidencesOk;
    forall p: PageId
      ensures Reserved(h, n, t, p) <==> p in rs
      ensures Progressed(h, n, t, p) <==> p in rs && rs[p].progressLsn != INVALID_LSN
    {
      ReservedExact(h, n, t, rs, p);
    }
    if AllProgressed(rs) {
      forall i: nat, p | i < n && ReserveOn(h[i], t, p) ensures exists j: nat :: j < n && ProgressOn(h[j], t, p) {
        assert Reserved(h, n, t, p);
        assert Progressed(h, n, t, p);
      }
    } else {
      var p :| p in rs && rs[p].progressLsn == INVALID_LSN;
      assert Reserved(h, n, t, p) && !Progressed(h, n, t, p);
      var i: nat :| i < n && ReserveOn(h[i], t, p);
    }
  }

  lemma IntentExact(h: History, n: nat, t: TxnId, e: Analysis, p: PageId, txns: Table)
    requires Continues(h, n, t, e) && IntentOn(h[n], t, p) && TableOk(h, n, txns)
    ensures LegalIntent(h, n) <==>
              && e.cleanupBegin != INVALID_LSN && p in e.reservations && e.reservations[p].reserveLsn == h[n].reserveLsn
              && h[n].reclaimLsn == n + 1
              && e.reservations[p].intentLsn == INVALID_LSN && e.reservations[p].progressLsn == INVALID_LSN
              && (forall u :: u in txns && u != t ==> Terminal(txns[u].phase))
  {
    hide Begun, Ended, Cleaning, RolledBack, ListsOk, EvidencesOk, TableOk;
    forall u: TxnId ensures Begun(h, n, u) && !Ended(h, n, u) <==> u in txns && !Terminal(txns[u].phase) {
      LiveExact(h, n, txns, u);
    }
    ReservedExact(h, n, t, e.reservations, p);
    ReserveLsnExact(h, n, t, e.reservations, p, h[n].reserveLsn);
  }

  lemma ReserveLsnExact(h: History, n: nat, t: TxnId, rs: map<PageId, Evidence>, p: PageId, l: Lsn)
    requires n <= |h| && EvidencesOk(h, n, t, rs)
    ensures 0 <= l < n && ReserveOn(h[l], t, p) <==> p in rs && rs[p].reserveLsn == l
  {
    if p in rs {
      assert EvidenceOk(h, n, t, p, rs[p]);
    }
    if 0 <= l < n {
      assert Evident(h, l, t, p, rs);
    }
  }

  lemma ProgressExact(h: History, n: nat, t: TxnId, e: Analysis, p: PageId)
    requires Continues(h, n, t, e) && ProgressOn(h[n], t, p)
    ensures LegalProgress(h, n) <==>
              && e.cleanupBegin != INVALID_LSN && p in e.reservations && e.reservations[p].reserveLsn == h[n].reserveLsn
              && e.reservations[p].progressLsn == INVALID_LSN
              && ProgressFits(h, h[n], e, e.reservations[p])
  {
    hide Begun, Ended, Cleaning, RolledBack, ListsOk, EvidencesOk;
    ReservedExact(h, n, t, e.reservations, p);
    ReserveLsnExact(h, n, t, e.reservations, p, h[n].reserveLsn);
    IntentLsnExact(h, n, t, e.reservations, p, h[n].reclaimLsn - 1);
  }

  /** With the reclaim of an intent, or without either. */
  predicate ProgressFits(h: History, r: Record, e: Analysis, v: Evidence)
    requires r.CleanupProgress?
  {
    if r.reclaimLsn != INVALID_LSN then
      && 0 <= v.intentLsn < |h| && v.reclaimLsn == r.reclaimLsn
      && h[v.intentLsn].CleanupIntent? && h[v.intentLsn].reclaim.extent == r.extent
    else
      v.intentLsn == INVALID_LSN && r.extent >= e.startPages
  }

  lemma IntentLsnExact(h: History, n: nat, t: TxnId, rs: map<PageId, Evidence>, p: PageId, l: Lsn)
    requires n <= |h| && EvidencesOk(h, n, t, rs) && Quiet(h, n)
    ensures 0 <= l < n && IntentOn(h[l], t, p) <==> p in rs && rs[p].intentLsn == l && l >= 0
    ensures p in rs && rs[p].intentLsn != INVALID_LSN ==>
              0 <= rs[p].intentLsn < n - 1 && h[rs[p].intentLsn].CleanupIntent? &&
                   rs[p].reclaimLsn == rs[p].intentLsn + 1
  {
    if p in rs {
      assert EvidenceOk(h, n, t, p, rs[p]);
    }
    if 0 <= l < n {
      assert Evident(h, l, t, p, rs);
    }
  }

  // ---- Taking one record ----

  method TakeReserve(h: History, n: nat, t: TxnId, e: Analysis, owners: map<PageId, TxnId>)
    returns (ok: bool, e': Analysis, owners': map<PageId, TxnId>)
    requires Continues(h, n, t, e) && h[n].Reserve? && OwnersOk(h, n, owners)
    ensures ok <==> LegalReserve(h, n)
    ensures ok ==> EntryOk(h, n + 1, t, e') && OwnersOk(h, n + 1, owners')
  {
    hide LegalReserve, SpanOk, ListsOk, EvidencesOk, OwnersOk, Ended;
    ReserveExact(h, n, t, e, owners);
    var r := h[n];
    e', owners' := e, owners;
    ok := e.phase.Active? && r.oldPages >= e.startPages && (forall p: PageId :: p in e.reservations ==> p < r.page)
          && MayClaim(owners, r.page, t);
    if ok {
      owners' := owners[r.page := t];
      e' := e.(last := n, reservations := e.reservations[r.page := Evidence(n, INVALID_LSN, INVALID_LSN, INVALID_LSN)]);
      ReserveStep(h, n, t, e, e');
      OwnersClaim(h, n, owners, r.page, t);
    }
  }

  method TakeUpdate(h: History, n: nat, t: TxnId, e: Analysis, owners: map<PageId, TxnId>)
    returns (ok: bool, e': Analysis, owners': map<PageId, TxnId>)
    requires Continues(h, n, t, e) && h[n].Update? && OwnersOk(h, n, owners)
    ensures ok <==> LegalUpdate(h, n)
    ensures ok ==> EntryOk(h, n + 1, t, e') && OwnersOk(h, n + 1, owners')
  {
    hide LegalUpdate, SpanOk, ListsOk, EvidencesOk, OwnersOk, Ended;
    UpdateExact(h, n, t, e, owners);
    var r := h[n];
    e', owners' := e, owners;
    ok := e.phase.Active? && r.existed == (r.page < e.startPages)
          && (!e.owned || r.existed || r.page in e.reservations)
          && MayClaim(owners, r.page, t);
    if ok {
      owners' := owners[r.page := t];
      e' := e.(last := n);
      UpdateStep(h, n, t, e);
      OwnersClaim(h, n, owners, r.page, t);
    }
  }

  /** While cleanup has not begun, the transaction is writing or undoing. */
  lemma BeforeCleanup(h: History, n: nat, t: TxnId, e: Analysis)
    requires Continues(h, n, t, e)
    ensures e.cleanupBegin == INVALID_LSN <==> e.phase.Active? || e.phase.Undoing?
    ensures e.cleanupBegin == INVALID_LSN <==> !Cleaning(h, n, t)
    ensures e.cleanupBegin != INVALID_LSN ==> e.owned
  {
    hide LegalTo, SpanOk, ListsOk, EvidencesOk;
  }

  method TakeCompensation(h: History, n: nat, t: TxnId, e: Analysis) returns (ok: bool, e': Analysis)
    requires Continues(h, n, t, e) && h[n].Compensation?
    ensures ok <==> LegalCompensation(h, n)
    ensures ok ==> EntryOk(h, n + 1, t, e')
  {
    hide LegalTo, PhaseOk, EvidencesOk, Updates, Compensated, Reverse, Cleaning, Latest;
    BeforeCleanup(h, n, t, e);
    var r := h[n];
    e' := e;
    ok := e.cleanupBegin == INVALID_LSN
          && 0 <= r.target < n && Existing(h[r.target], t) && h[r.target].page == r.page
          && h[r.target].prev == r.undoNext;
    if ok {
      var target := NextRequiredUndo(h, UndoStart(e), t, e.begin, n, e);
      WalkExact(h, n, t, e, target);
      ok := target == r.target;
      if ok {
        e' := e.(last := n, phase := Undoing, undoNext := r.undoNext);
        CompensationStep(h, n, t, e, e');
      }
    }
  }

  method TakeCleanupBegin(h: History, n: nat, t: TxnId, e: Analysis) returns (ok: bool, e': Analysis)
    requires Continues(h, n, t, e) && h[n].CleanupBegin?
    ensures ok <==> LegalCleanupBegin(h, n)
    ensures ok ==> EntryOk(h, n + 1, t, e')
  {
    hide LegalTo, PhaseOk, Updates, Compensated, Reverse, Cleaning, Latest, AllProgressed, EvidenceOk, Evident,
         Reservations;
    BeforeCleanup(h, n, t, e);
    var r := h[n];
    e' := e;
    ok := e.owned && e.cleanupBegin == INVALID_LSN && r.undoEnd == e.begin && r.count == |e.reservations|;
    if ok {
      var target := NextRequiredUndo(h, UndoStart(e), t, e.begin, n, e);
      WalkExact(h, n, t, e, target);
      ok := target == e.begin;
      if ok {
        e' := e.(last := n, cleanupBegin := n,
                 phase := if AllProgressed(e.reservations) then CleanupComplete else CleanupStarted);
        CleanupBeginStep(h, n, t, e, e');
      }
    }
  }

  method TakeIntent(h: History, n: nat, t: TxnId, e: Analysis, txns: Table) returns (ok: bool, e': Analysis)
    requires Continues(h, n, t, e) && h[n].CleanupIntent? && TableOk(h, n, txns)
    ensures ok <==> LegalIntent(h, n)
    ensures ok ==> EntryOk(h, n + 1, t, e')
  {
    hide LegalIntent, EntryOk, TableOk, LegalTo;
    var r := h[n];
    var p := r.reclaim.page;
    IntentExact(h, n, t, e, p, txns);
    e' := e;
    ok := e.cleanupBegin != INVALID_LSN && p in e.reservations && e.reservations[p].reserveLsn == r.reserveLsn
          && r.reclaimLsn == n + 1
          && e.reservations[p].intentLsn == INVALID_LSN && e.reservations[p].progressLsn == INVALID_LSN
          && (forall u :: u in txns && u != t ==> Terminal(txns[u].phase));
    if ok {
      e' := e.(last := n, phase := CleanupInProgress,
               reservations := e.reservations[p := e.reservations[p].(intentLsn := n)]);
      IntentStep(h, n, t, e, p, e');
    }
  }

  method TakeProgress(h: History, n: nat, t: TxnId, e: Analysis) returns (ok: bool, e': Analysis)
    requires Continues(h, n, t, e) && h[n].CleanupProgress?
    ensures ok <==> LegalProgress(h, n)
    ensures ok ==> EntryOk(h, n + 1, t, e')
  {
    hide LegalProgress, EntryOk, LegalTo, AllProgressed;
    var r := h[n];
    ProgressExact(h, n, t, e, r.page);
    e' := e;
    ok := e.cleanupBegin != INVALID_LSN && r.page in e.reservations && e.reservations[r.page].reserveLsn == r.reserveLsn
          && e.reservations[r.page].progressLsn == INVALID_LSN
          && ProgressFits(h, r, e, e.reservations[r.page]);
    if ok {
      var rs := e.reservations[r.page := e.reservations[r.page].(progressLsn := n)];
      e' := e.(last := n, reservations := rs,
               phase := if AllProgressed(rs) then CleanupComplete else CleanupInProgress);
      ProgressStep(h, n, t, e, r.page, e');
    }
  }

  method TakeEnd(h: History, n: nat, t: TxnId, e: Analysis, owners: map<PageId, TxnId>)
    returns (ok: bool, e': Analysis, owners': map<PageId, TxnId>)
    requires Continues(h, n, t, e) && EndOf(h[n], t) && OwnersOk(h, n, owners)
    ensures ok <==> LegalContent(h, n)
    ensures ok ==> EntryOk(h, n + 1, t, e') && OwnersOk(h, n + 1, owners')
  {
    hide LegalAbort, LegalReserve, LegalUpdate, LegalCompensation, LegalCleanupBegin, LegalIntent, LegalProgress;
    hide LegalTo, SpanOk, ListsOk, EvidencesOk, OwnersOk, Ended, Cleaning, RolledBack, AllProgressed;
    e', owners' := e, owners;
    if h[n].Commit? {
      ok := e.phase.Active?;
      e' := e.(last := n, phase := CommitRecorded);
    } else {
      AbortExact(h, n, t, e);
      ok := !e.owned || e.phase.CleanupComplete?;
      e' := e.(last := n, phase := AbortRecorded);
    }
    if ok {
      owners' := Released(owners, t);
      EndStep(h, n, t, e, e');
      OwnersRelease(h, n, owners, t);
    }
  }

  /** A record of a known, running transaction that names its last record. */
  method TakeNext(h: History, n: nat, t: TxnId, e: Analysis, txns: Table, owners: map<PageId, TxnId>)
    returns (ok: bool, e': Analysis, owners': map<PageId, TxnId>)
    requires Continues(h, n, t, e) && TableOk(h, n, txns) && OwnersOk(h, n, owners)
    ensures ok <==> LegalContent(h, n)
    ensures ok ==> EntryOk(h, n + 1, t, e') && OwnersOk(h, n + 1, owners')
  {
    hide LegalAbort, LegalReserve, LegalUpdate, LegalCompensation, LegalCleanupBegin, LegalIntent, LegalProgress;
    hide EntryOk, OwnersOk, TableOk, LegalTo;
    owners' := owners;
    match h[n]
    case Reserve(_, _, _, _) =>
      ok, e', owners' := TakeReserve(h, n, t, e, owners);
    case Update(_, _, _, _) =>
      ok, e', owners' := TakeUpdate(h, n, t, e, owners);
    case Compensation(_, _, _, _, _) =>
      ok, e' := TakeCompensation(h, n, t, e);
      OwnersCarry(h, n, owners);
    case CleanupBegin(_, _, _, _) =>
      ok, e' := TakeCleanupBegin(h, n, t, e);
      OwnersCarry(h, n, owners);
    case CleanupIntent(_, _, _, _, _) =>
      ok, e' := TakeIntent(h, n, t, e, txns);
      OwnersCarry(h, n, owners);
    case CleanupProgress(_, _, _, _, _, _) =>
      ok, e' := TakeProgress(h, n, t, e);
      OwnersCarry(h, n, owners);
    case _ =>
      ok, e', owners' := TakeEnd(h, n, t, e, owners);
  }

  // ---- The table after one record ----

  lemma TableSet(h: History, n: nat, txns: Table, t: TxnId, e': Analysis)
    requires n < |h| && TableOk(h, n, txns) && Of(h[n], t) && EntryOk(h, n + 1, t, e') && Quiet(h, n)
    ensures TableOk(h, n + 1, txns[t := e'])
  {
    hide EntryOk;
    var after := txns[t := e'];
    forall u | u in after ensures EntryOk(h, n + 1, u, after[u]) {
      if u != t {
        EntryCarries(h, n, u, txns[u]);
      }
    }
  }

  lemma TableKeeps(h: History, n: nat, txns: Table)
    requires n < |h| && TableOk(h, n, txns) && !IsTxn(h[n]) && Quiet(h, n)
    ensures TableOk(h, n + 1, txns)
  {
    hide EntryOk;
    forall u | u in txns ensures EntryOk(h, n + 1, u, txns[u]) {
      EntryCarries(h, n, u, txns[u]);
    }
  }

  lemma TableReclaims(h: History, n: nat, txns: Table, t: TxnId, e': Analysis)
    requires 0 < n < |h| && TableOk(h, n, txns) && h[n].PageReclaim? && h[n - 1].CleanupIntent? && h[n - 1].tid == t
    requires t in txns && EntryOk(h, n + 1, t, e')
    ensures TableOk(h, n + 1, txns[t := e'])
  {
    hide EntryOk;
    var after := txns[t := e'];
    forall u | u in after ensures EntryOk(h, n + 1, u, after[u]) {
      if u != t {
        EntryCarries(h, n, u, txns[u]);
      }
    }
  }

  /** Names the last record of a running transaction, or of none. */
  lemma ChainExact(h: History, n: nat, txns: Table, t: TxnId, l: Lsn)
    requires n <= |h| && TableOk(h, n, txns)
    ensures Latest(h, n, t, l) && !Ended(h, n, t) <==> t in txns && !Terminal(txns[t].phase) && l == txns[t].last
  {
    hide Ended, ListsOk, EvidencesOk;
    if t in txns {
      assert EntryOk(h, n, t, txns[t]);
    }
  }

  method TakeReclaim(h: History, n: nat, txns: Table, owners: map<PageId, TxnId>) returns (ok: bool, txns': Table)
    requires 0 < n < |h| && StateOk(h, n, txns, owners) && h[n - 1].CleanupIntent?
    ensures ok <==> Legal(h, n)
    ensures ok ==> StateOk(h, n + 1, txns', owners)
  {
    hide LegalNext, EntryOk, OwnersOk;
    var t, p := h[n - 1].tid, h[n - 1].reclaim.page;
    txns' := txns;
    ok := h[n] == PageReclaim(h[n - 1].reclaim);
    if ok {
      IntentKnown(h, n, t, txns[t], p);
      var e' := txns[t].(reservations := txns[t].reservations[p := txns[t].reservations[p].(reclaimLsn := n)]);
      txns' := txns[t := e'];
      ReclaimStep(h, n, t, txns[t], p, e');
      TableReclaims(h, n, txns, t, e');
      OwnersCarry(h, n, owners);
    }
  }

  lemma IntentKnown(h: History, n: nat, t: TxnId, e: Analysis, p: PageId)
    requires 0 < n <= |h| && EntryOk(h, n, t, e) && IntentOn(h[n - 1], t, p)
    ensures p in e.reservations
  {
    assert Evident(h, n - 1, t, p, e.reservations);
  }

  /** One record against the table. */
  method TakeRecord(h: History, n: nat, txns: Table, owners: map<PageId, TxnId>)
    returns (ok: bool, txns': Table, owners': map<PageId, TxnId>)
    requires n < |h| && StateOk(h, n, txns, owners) && Quiet(h, n)
    ensures ok <==> Legal(h, n)
    ensures ok ==> StateOk(h, n + 1, txns', owners')
  {
    hide LegalContent, EntryOk, OwnersOk, Latest, Begun, Ended, Cleaning;
    txns', owners' := txns, owners;
    var r := h[n];
    if r.PageReclaim? {
      NoneRunning(h, n, txns);
      ok := forall t :: t in txns ==> Terminal(txns[t].phase);
      TableKeeps(h, n, txns);
      OwnersCarry(h, n, owners);
    } else if r.Checkpoint? {
      NoneCleaning(h, n, txns);
      ok := forall t :: t in txns ==> txns[t].cleanupBegin == INVALID_LSN || Terminal(txns[t].phase);
      TableKeeps(h, n, txns);
      OwnersCarry(h, n, owners);
    } else if r.Begin? {
      BegunExact(h, n, txns, r.tid);
      ok := r.tid !in txns;
      if ok {
        var e := Analysis(r.owned, Active, n, n, INVALID_LSN, r.startPages, INVALID_LSN, map[]);
        BeginStep(h, n, r.tid);
        txns' := txns[r.tid := e];
        TableSet(h, n, txns, r.tid, e);
        OwnersCarry(h, n, owners);
      }
    } else {
      ChainExact(h, n, txns, r.tid, r.prev);
      ok := r.tid in txns && !Terminal(txns[r.tid].phase) && r.prev == txns[r.tid].last;
      if ok {
        var e';
        ok, e', owners' := TakeNext(h, n, r.tid, txns[r.tid], txns, owners);
        if ok {
          txns' := txns[r.tid := e'];
          TableSet(h, n, txns, r.tid, e');
        }
      }
    }
  }

  lemma NoneRunning(h: History, n: nat, txns: Table)
    requires n <= |h| && TableOk(h, n, txns)
    ensures (forall t :: t in txns ==> Terminal(txns[t].phase)) <==> (forall t :: Begun(h, n, t) ==> Ended(h, n, t))
  {
    hide TableOk, Begun, Ended, Cleaning;
    forall t: TxnId ensures Begun(h, n, t) && !Ended(h, n, t) <==> t in txns && !Terminal(txns[t].phase) {
      LiveExact(h, n, txns, t);
    }
  }

  lemma NoneCleaning(h: History, n: nat, txns: Table)
    requires n <= |h| && TableOk(h, n, txns)
    ensures (forall t :: t in txns ==> txns[t].cleanupBegin == INVALID_LSN || Terminal(txns[t].phase)) <==>
            (forall t :: Cleaning(h, n, t) ==> Ended(h, n, t))
  {
    hide TableOk, Begun, Ended, Cleaning;
    forall t: TxnId
      ensures Cleaning(h, n, t) && !Ended(h, n, t) <==>
                t in txns && txns[t].cleanupBegin != INVALID_LSN && !Terminal(txns[t].phase)
    {
      LiveExact(h, n, txns, t);
    }
  }

  /** The analysis of a whole history: it is accepted exactly when every record is legal, and the table
      then describes every transaction in it. */
  method Analyze(h: History) returns (accepted: bool, txns: Table)
    ensures accepted <==> LegalTo(h, |h|)
    ensures accepted ==> TableOk(h, |h|, txns)
  {
    hide Legal, EntryOk, OwnersOk;
    txns := map[];
    var owners: map<PageId, TxnId> := map[];
    NoOwners(h);
    var n := 0;
    accepted := true;
    while n < |h|
      invariant n <= |h| && accepted && StateOk(h, n, txns, owners)
    {
      if n > 0 && h[n - 1].CleanupIntent? {
        accepted, txns := TakeReclaim(h, n, txns, owners);
      } else {
        accepted, txns, owners := TakeRecord(h, n, txns, owners);
      }
      if !accepted {
        return;
      }
      n := n + 1;
    }
  }

  lemma NoOwners(h: History)
    ensures OwnersOk(h, 0, map[])
  {
  }
}
