/** The guarantees of the engine over whole runs: atomicity, durability, what readers see, the
    write-ahead rule, recovery that never lacks a record, and the one way a rollback loses bytes. */
module CrashTheorems {
  import opened Options
  import opened PageDelta
  import opened WalLog
  import opened LogTheory
  import opened CrashModel
  import opened CrashInvariant
  import opened CrashWriteSteps
  import opened CrashRuns

  // ---- The published database changes at commits alone ----

  lemma {:induction false} CommittedCut(init: Database, log: Log, k: nat, n: nat, p: PageId)
    requires k <= n <= |log| && p in init
    requires forall i: nat :: k <= i < n ==> !log[i].Commit?
    ensures HistAt(init, log, n, p).committed == HistAt(init, log, k, p).committed
    decreases n
  {
    if k < n {
      CommittedCut(init, log, k, n - 1, p);
    }
  }

  lemma CommittedPrefix(init: Database, log: Log, longer: Log)
    requires Extends(longer, log) && forall i: nat :: |log| <= i < |longer| ==> !longer[i].Commit?
    ensures CommittedDb(init, longer) == CommittedDb(init, log)
  {
    ExtendsAt(init, log, longer, |log|);
    forall p | p in init ensures CommittedDb(init, longer)[p] == CommittedDb(init, log)[p] {
      CommittedCut(init, longer, |log|, |longer|, p);
    }
  }

  /** No step but a commit changes the published database: not a write, not an eviction, not a
      checkpoint, not a rollback, not a crash with any loss it may bring, not recovery. */
  lemma OnlyCommitsPublish(init: Database, s: State, a: Action)
    requires LogInv(init, s) && Enabled(s, a) && !a.CommitTxn?
    ensures CommittedDb(init, Apply(s, a).log) == CommittedDb(init, s.log)
  {
    hide LogOk, TxnsAt, Retains, CommittedDb, Enabled, Apply;
    LogGrows(init, s, a);
    var s' := Apply(s, a);
    if a.Crash? {
      CommittedPrefix(init, s'.log, s.log);
    } else {
      CommittedPrefix(init, s.log, s'.log);
    }
  }

  /** A crash cuts the log behind the last commit; every other step extends it, with a COMMIT only
      at a commit. */
  lemma LogGrows(init: Database, s: State, a: Action)
    requires LogInv(init, s) && Enabled(s, a)
    ensures var s' := Apply(s, a);
            if a.Crash? then
              Extends(s.log, s'.log) && forall i: nat :: |s'.log| <= i < |s.log| ==> !s.log[i].Commit?
            else
              && Extends(s'.log, s.log)
              && (a.CommitTxn? || forall i: nat :: |s.log| <= i < |s'.log| ==> !s'.log[i].Commit?)
  {
    hide Apply, LogInv, Enabled;
    if a.Crash? {
      CrashCuts(init, s, a);
    } else {
      StepAppends(s, a);
    }
  }

  lemma CrashCuts(init: Database, s: State, a: Action)
    requires LogInv(init, s) && Enabled(s, a) && a.Crash?
    ensures var s' := Apply(s, a);
            Extends(s.log, s'.log) && forall i: nat :: |s'.log| <= i < |s.log| ==> !s.log[i].Commit?
  {
    hide LogOk, TxnsAt, Retains;
  }

  lemma StepAppends(s: State, a: Action)
    requires Enabled(s, a) && !a.Crash?
    ensures var s' := Apply(s, a);
            && Extends(s'.log, s.log)
            && (a.CommitTxn? || forall i: nat :: |s.log| <= i < |s'.log| ==> !s'.log[i].Commit?)
  {
    hide Apply, Enabled;
    if a.Prepare? {
      PrepareAppends(s, a);
    } else if a.CommitTxn? || a.AppendClr? || a.FinishAbort? || a.BeginCheckpoint? || a.EndCheckpoint? {
      OneAppends(s, a);
    } else {
      NothingAppends(s, a);
    }
  }

  lemma PrepareAppends(s: State, a: Action)
    requires Enabled(s, a) && a.Prepare?
    ensures var s' := Apply(s, a); Extends(s'.log, s.log) && forall i: nat :: |s.log| <= i < |s'.log| ==>
              !s'.log[i].Commit?
  {
    hide TxnsAt, Encoding, Touch;
  }

  lemma OneAppends(s: State, a: Action)
    requires Enabled(s, a) && (a.CommitTxn? || a.AppendClr? || a.FinishAbort? || a.BeginCheckpoint? || a.EndCheckpoint?)
    ensures var s' := Apply(s, a);
            && Extends(s'.log, s.log)
            && (a.CommitTxn? || forall i: nat :: |s.log| <= i < |s'.log| ==> !s'.log[i].Commit?)
  {
    hide TxnsAt, UndoBase, Undone, NextUndo, Prepared, NoPendingWrites;
  }

  lemma NothingAppends(s: State, a: Action)
    requires Enabled(s, a) && !a.Crash? && !a.Prepare? && !a.CommitTxn? && !a.AppendClr? && !a.FinishAbort?
    requires !a.BeginCheckpoint? && !a.EndCheckpoint?
    ensures Apply(s, a).log == s.log
  {
    hide TxnsAt, Retains, Candidate, Bound, Redone, TailNext, ScanStart, Prepared;
  }

  // ---- Runs against the plain database ----

  /** The reference: a database that commits transactions one after the other and never crashes.
      A commit installs the pages of the transaction; no other step does anything. */
  function Advance(init: Database, db: Database, s: State, a: Action): (next: Database)
    requires db.Keys == init.Keys
    ensures next.Keys == init.Keys
  {
    if a.CommitTxn? && a.tid in s.contexts
    then map p | p in init :: if p in s.contexts[a.tid].pages && p in s.disk then View(s, p) else db[p]
    else db
  }

  function Reference(init: Database, states: seq<State>, actions: seq<Action>, k: nat): (db: Database)
    requires k < |states| == |actions| + 1
    ensures db.Keys == init.Keys
    decreases k
  {
    if k == 0 then init
    else Advance(init, Reference(init, states, actions, k - 1), states[k - 1], actions[k - 1])
  }

  /** At every moment of every run the published database is exactly what the commits so far wrote,
      in commit order: nothing of an unfinished or rolled back transaction, everything of a committed one. */
  lemma {:induction false} RunMatchesReference(init: Database, states: seq<State>, actions: seq<Action>, k: nat)
    requires Run(init, states, actions) && k < |states|
    ensures CommittedDb(init, states[k].log) == Reference(init, states, actions, k)
    decreases k
  {
    if k == 0 {
    } else {
      hide Inv, Enabled, Apply, Advance, CommittedDb;
      RunMatchesReference(init, states, actions, k - 1);
      RunInvariant(init, states, actions, k - 1);
      assert StepAt(states, actions, k - 1);
      StepMatches(init, states[k - 1], actions[k - 1]);
    }
  }

  lemma StepMatches(init: Database, s: State, a: Action)
    requires Inv(init, s) && Enabled(s, a)
    ensures CommittedDb(init, s.log).Keys == init.Keys
    ensures CommittedDb(init, Apply(s, a).log) == Advance(init, CommittedDb(init, s.log), s, a)
  {
    hide Inv, Enabled, Apply, View, HistAt;
    InvParts(init, s);
    if a.CommitTxn? {
      CommitEnabled(s, a.tid);
      CommitPublishes(init, s, a.tid);
    } else {
      OnlyCommitsPublish(init, s, a);
    }
  }

  lemma CommitEnabled(s: State, t: TxnId)
    requires Enabled(s, CommitTxn(t))
    ensures t in s.contexts
  {
  }

  lemma InvParts(init: Database, s: State)
    requires Inv(init, s)
    ensures LogInv(init, s) && s.disk.Keys == init.Keys
  {
    hide LogInv, ImageOk, RunInv, RollbackInv, RedoInv, UndoInv;
  }

  // ---- What readers see ----

  /** A page no live transaction claims reads as the published database says. */
  lemma ReadersSeeCommitted(init: Database, s: State, p: PageId)
    requires Inv(init, s) && s.mode.Running? && p in init && !Owned(s, p)
    ensures p in s.disk && View(s, p) == CommittedDb(init, s.log)[p]
  {
    hide LogInv, ImagesInv, HistAt, TxnsAt, ContextOk, RetentionInv;
    var owner := Hist(init, s, p).owner;
    assert owner.Some? ==> Writes(s, owner.value, p);
    SettledPage(init, s, p);
    if p in s.frames {
      assert FrameOk(init, s, p);
    } else {
      assert DiskOk(init, s, p);
    }
  }

  lemma SettledPage(init: Database, s: State, p: PageId)
    requires LogInv(init, s) && p in init && Hist(init, s, p).owner == None
    ensures Hist(init, s, p).images == []
  {
    hide LogOk, HistAt, TxnsAt, Retains;
    Ownership(init, s.log, |s.log|, p);
  }

  lemma ReadersMatchReference(init: Database, states: seq<State>, actions: seq<Action>, k: nat, p: PageId)
    requires Run(init, states, actions) && k < |states|
    requires states[k].mode.Running? && p in init && !Owned(states[k], p)
    ensures p in states[k].disk && View(states[k], p) == Reference(init, states, actions, k)[p]
  {
    hide Inv, Run, Reference, View, CommittedDb;
    RunInvariant(init, states, actions, k);
    RunMatchesReference(init, states, actions, k);
    ReadersSeeCommitted(init, states[k], p);
  }

  /** Restart, whatever crashes interrupt it, brings back exactly the committed database. */
  lemma RestartRestores(init: Database, states: seq<State>, actions: seq<Action>, k: nat)
    requires Run(init, states, actions) && 0 < k < |states| && actions[k - 1].FinishRecovery?
    ensures states[k].disk.Keys == init.Keys
    ensures forall p :: p in init ==> View(states[k], p) == Reference(init, states, actions, k)[p]
  {
    assert StepAt(states, actions, k - 1);
    RunInvariant(init, states, actions, k - 1);
    RunInvariant(init, states, actions, k);
    var s := states[k];
    assert s.contexts == map[] && s.mode.Running? && s.disk.Keys == init.Keys;
    hide Inv, Run, Reference, Step;
    forall p | p in init ensures View(s, p) == Reference(init, states, actions, k)[p] {
      assert forall t :: !Writes(s, t, p);
      assert !Owned(s, p);
      ReadersMatchReference(init, states, actions, k, p);
    }
  }

  // ---- Restart does not depend on its schedule ----

  /** Steps that only restart recovery and the hardware take. */
  predicate OfRestart(a: Action) {
    a.StartRecovery? || a.RedoNext? || a.FinishRedo? || a.AppendClr? || a.PutClr? || a.FinishAbort?
    || a.Force? || a.Sync? || a.Crash? || a.FinishRecovery?
  }

  /** A restart from s: any order of losers, any number of further crashes. */
  predicate Restart(s: State, states: seq<State>, actions: seq<Action>) {
    && |states| == |actions| + 1 && states[0] == s && s.mode.Down?
    && forall i: nat :: i < |actions| ==> StepAt(states, actions, i) && OfRestart(actions[i])
  }

  lemma {:induction false} RestartKeeps(init: Database, s: State, states: seq<State>, actions: seq<Action>, k: nat)
    requires Inv(init, s) && Restart(s, states, actions) && k < |states|
    ensures Inv(init, states[k]) && states[k].contexts == map[]
    ensures CommittedDb(init, states[k].log) == CommittedDb(init, s.log)
    decreases k
  {
    if k > 0 {
      hide Inv, CommittedDb;
      RestartKeeps(init, s, states, actions, k - 1);
      assert StepAt(states, actions, k - 1);
      hide Enabled, Apply;
      StepKeeps(init, states[k - 1], actions[k - 1]);
      StepMatches(init, states[k - 1], actions[k - 1]);
      RestartContexts(states[k - 1], actions[k - 1]);
    }
  }

  lemma RestartContexts(s: State, a: Action)
    requires Enabled(s, a) && OfRestart(a) && s.contexts == map[]
    ensures Apply(s, a).contexts == map[]
  {
    hide TxnsAt, Bound, Candidate, Redone, TailNext, UndoBase, Undone;
  }

  /** Two restarts from the same crash end with the same pages, however they were scheduled and
      interrupted. */
  lemma RestartsAgree(init: Database, s: State,
                      states: seq<State>, actions: seq<Action>, others: seq<State>, steps: seq<Action>, p: PageId)
    requires Inv(init, s) && Restart(s, states, actions) && Restart(s, others, steps) && p in init
    requires states[|actions|].mode.Running? && others[|steps|].mode.Running?
    ensures p in states[|actions|].disk && p in others[|steps|].disk
    ensures View(states[|actions|], p) == View(others[|steps|], p) == CommittedDb(init, s.log)[p]
  {
    hide Inv, CommittedDb;
    RestartKeeps(init, s, states, actions, |actions|);
    RestartKeeps(init, s, others, steps, |steps|);
    hide Restart, View;
    assert forall t :: !Writes(states[|actions|], t, p) && !Writes(others[|steps|], t, p);
    assert !Owned(states[|actions|], p) && !Owned(others[|steps|], p);
    ReadersSeeCommitted(init, states[|actions|], p);
    ReadersSeeCommitted(init, others[|steps|], p);
  }

  /** Any path of restart steps ends with the published database it started from. */
  lemma {:induction false} RestartPath(init: Database, s: State, actions: seq<Action>, s': State)
    requires Inv(init, s) && Path(s, actions, s') && s.contexts == map[] && forall a :: a in actions ==> OfRestart(a)
    ensures Inv(init, s') && s'.contexts == map[] && CommittedDb(init, s'.log) == CommittedDb(init, s.log)
    decreases |actions|
  {
    if actions != [] {
      hide Inv, CommittedDb, Enabled, Apply;
      StepKeeps(init, s, actions[0]);
      StepMatches(init, s, actions[0]);
      RestartContexts(s, actions[0]);
      RestartPath(init, Apply(s, actions[0]), actions[1..], s');
    }
  }

  /** With no transaction open, every page reads as published. */
  lemma RestartedPages(init: Database, s: State, s': State)
    requires Inv(init, s') && s'.mode.Running? && s'.contexts == map[]
    requires CommittedDb(init, s'.log) == CommittedDb(init, s.log)
    ensures s'.disk.Keys == init.Keys
    ensures forall p :: p in init ==> View(s', p) == CommittedDb(init, s.log)[p]
  {
    assert s'.disk.Keys == init.Keys by { hide LogInv, ImageOk, RunInv; }
    forall p | p in init ensures View(s', p) == CommittedDb(init, s.log)[p] {
      hide Inv, View, CommittedDb;
      assert forall t :: !Writes(s', t, p);
      assert !Owned(s', p);
      ReadersSeeCommitted(init, s', p);
    }
  }

  // ---- Durability of acknowledged work ----

  lemma DurableStays(init: Database, s: State, a: Action)
    requires LogInv(init, s) && Enabled(s, a)
    ensures var s' := Apply(s, a);
            s.durable <= s'.durable <= |s'.log| && s'.log[..s.durable] == s.log[..s.durable]
  {
    hide LogOk, TxnsAt, Retains, Enabled, Apply;
    var s' := Apply(s, a);
    LogGrows(init, s, a);
    ForcedGrows(init, s, a);
    if a.Crash? {
      assert s'.log[..s.durable] == s.log[..|s'.log|][..s.durable];
    } else {
      assert s'.log[..s.durable] == s'.log[..|s.log|][..s.durable];
    }
  }

  lemma ForcedGrows(init: Database, s: State, a: Action)
    requires LogInv(init, s) && Enabled(s, a)
    ensures var s' := Apply(s, a); s.durable <= s'.durable <= |s'.log|
  {
    hide LogOk, TxnsAt, Retains, Apply, Enabled;
    if a.Crash? {
      CrashForced(s, a);
    } else {
      StepForced(s, a);
    }
  }

  lemma CrashForced(s: State, a: Action)
    requires Enabled(s, a) && a.Crash? && s.durable <= |s.log|
    ensures var s' := Apply(s, a); s.durable <= s'.durable <= |s'.log|
  {
    hide TxnsAt, Retains;
  }

  lemma StepForced(s: State, a: Action)
    requires Enabled(s, a) && !a.Crash? && s.durable <= |s.log|
    ensures var s' := Apply(s, a); s.durable <= s'.durable <= |s'.log|
  {
    hide TxnsAt, Retains, Encoding, Touch, UndoBase, Undone, Candidate, Bound, Redone, TailNext, CheckpointRecord,
         ScanStart,
         NextUndo, Prepared, NoPendingWrites;
  }

  /** Once forced, a record is part of every later log of the run. */
  lemma {:induction false} ForcedForever(init: Database, states: seq<State>, actions: seq<Action>, i: nat, j: nat)
    requires Run(init, states, actions) && i <= j < |states|
    ensures states[i].durable <= |states[i].log|
    ensures states[i].durable <= states[j].durable <= |states[j].log|
    ensures states[j].log[..states[i].durable] == states[i].log[..states[i].durable]
    decreases j
  {
    hide Enabled, Apply;
    RunInvariant(init, states, actions, i);
    if i < j {
      ForcedForever(init, states, actions, i, j - 1);
      RunInvariant(init, states, actions, j - 1);
      assert StepAt(states, actions, j - 1);
      hide Inv, Run;
      ForcedStep(init, states[j - 1], actions[j - 1]);
      var d := states[i].durable;
      assert states[j].log[..d] == states[j].log[..states[j - 1].durable][..d] == states[j - 1].log[..d];
    }
  }

  lemma ForcedStep(init: Database, s: State, a: Action)
    requires Inv(init, s) && Enabled(s, a)
    ensures var s' := Apply(s, a);
            s.durable <= s'.durable <= |s'.log| && s.durable <= |s.log| && s'.log[..s.durable] == s.log[..s.durable]
  {
    hide ImagesInv, RunInv, RollbackInv, RedoInv, UndoInv, LogOk, TxnsAt, Apply;
    DurableStays(init, s, a);
  }

  // ---- Appending and forcing as one step ----

  /** Steps that append one record and force it. */
  predicate AppendsForced(s: State, a: Action, r: Record)
    requires Enabled(s, a)
  {
    && (a.CommitTxn? || a.FinishAbort? || a == EndCheckpoint(false))
    && Apply(s, a).log == s.log + [r]
  }

  /** A crash between the append and the force leaves what a crash before the step or after it leaves, so the
      step may be taken as one: either the record is lost, or it survived. */
  lemma CrashBetween(s: State, a: Action, r: Record, keep: nat, survivors: map<PageId, Page>)
    requires Enabled(s, a) && AppendsForced(s, a, r) && s.durable <= |s.log|
    requires Enabled(s.(log := s.log + [r]), Crash(keep, survivors))
    ensures var crash, half := Crash(keep, survivors), s.(log := s.log + [r]);
            if keep <= |s.log| then Enabled(s, crash) && Apply(half, crash) == Apply(s, crash)
            else Enabled(Apply(s, a), crash) && Apply(half, crash) == Apply(Apply(s, a), crash)
  {
    hide Apply, Enabled;
    var half := s.(log := s.log + [r]);
    CrashIs(half, keep, survivors);
    if keep <= |s.log| {
      assert (s.log + [r])[..keep] == s.log[..keep];
      CrashIs(s, keep, survivors);
    } else {
      OnlyAppends(s, a, r);
      CrashIs(Apply(s, a), keep, survivors);
    }
  }

  lemma CrashIs(s: State, keep: nat, survivors: map<PageId, Page>)
    ensures Enabled(s, Crash(keep, survivors)) <==>
              && s.durable <= keep <= |s.log| && survivors.Keys == s.images.Keys
              && forall p :: p in survivors ==> survivors[p] in s.images[p]
    ensures Enabled(s, Crash(keep, survivors)) ==>
              Apply(s, Crash(keep, survivors)) ==
                s.(log := s.log[..keep], durable := keep, disk := survivors, frames := map[], contexts := map[],
                   mode := Down)
  {
  }

  /** Such a step changes nothing a crash leaves but the log and how much of it is forced. */
  lemma OnlyAppends(s: State, a: Action, r: Record)
    requires Enabled(s, a) && AppendsForced(s, a, r)
    ensures var s' := Apply(s, a);
            && s'.durable == |s'.log| && s'.images == s.images && s'.nextTid == s.nextTid && s'.slot == s.slot
            && s'.base == s.base
  {
    hide TxnsAt, Prepared, NoPendingWrites, CheckpointRecord, NextUndo;
  }

  // ---- The write-ahead rule ----

  /** No page image that a crash may leave on disk is ahead of the forced log, and each names a
      record of its own page. */
  lemma WriteAhead(init: Database, states: seq<State>, actions: seq<Action>, k: nat, p: PageId, g: Page)
    requires Run(init, states, actions) && k < |states| && p in states[k].images && g in states[k].images[p]
    ensures g.lsn < states[k].durable <= |states[k].log|
    ensures g.lsn != INVALID_LSN ==> 0 <= g.lsn && OnPage(states[k].log[g.lsn], p)
  {
    RunInvariant(init, states, actions, k);
    ImageNames(init, states[k], p, g);
  }

  lemma ImageNames(init: Database, s: State, p: PageId, g: Page)
    requires ImagesInv(init, s) && p in s.images && g in s.images[p]
    ensures g.lsn < s.durable <= |s.log|
    ensures g.lsn != INVALID_LSN ==> 0 <= g.lsn && OnPage(s.log[g.lsn], p)
  {
    hide Fit, Bound;
    assert ImageOk(init, s.log[..s.durable], s.slot, p, g);
  }

  // ---- Recovery is never stuck ----

  lemma {:induction false} LeastAbove(floor: nat, lsns: set<nat>) returns (least: nat)
    requires lsns != {} && forall l :: l in lsns ==> floor <= l
    ensures least in lsns && floor <= least && forall l :: l in lsns ==> least <= l
    decreases |lsns|
  {
    var x :| x in lsns;
    if lsns == {x} {
      least := x;
    } else {
      var rest := lsns - {x};
      assert lsns == rest + {x};
      var y := LeastAbove(floor, rest);
      least := if x < y then x else y;
      assert forall l :: l in lsns ==> l == x || l in rest;
    }
  }

  /** Reclaiming log below the floor of the published checkpoint never takes a record recovery
      reads: after any crash a scan start exists at or above the retained base. */
  lemma RecoveryCanStart(init: Database, s: State)
    requires Inv(init, s) && s.mode.Down?
    ensures exists from: nat :: Enabled(s, StartRecovery(from))
  {
    hide HistAt, TxnsAt, ImagesInv;
    if s.slot == INVALID_LSN {
      assert Enabled(s, StartRecovery(0));
    } else {
      assert RecordOk(init, s.log, s.slot);
      var r := s.log[s.slot];
      ScanFloor(s, r);
      var from: nat :| ScanStart(s.log, s.slot, from) && s.base <= from <= r.begin;
      assert Enabled(s, StartRecovery(from));
    }
  }

  lemma ScanFloor(s: State, r: Record)
    requires CheckpointAt(s.log, s.slot) && r == s.log[s.slot] && Retains(r, s.base)
    ensures exists from: nat :: ScanStart(s.log, s.slot, from) && s.base <= from <= r.begin
  {
    var starts: set<nat> := {r.begin} + (set p | p in r.dpt :: r.dpt[p]) + (set t | t in r.att :: r.att[t].begin);
    assert r.begin in starts;
    var from := LeastAbove(s.base, starts);
    forall p | p in r.dpt ensures from <= r.dpt[p] {
      assert r.dpt[p] in starts;
    }
    forall t | t in r.att ensures from <= r.att[t].begin {
      assert r.att[t].begin in starts;
    }
    assert ScanStart(s.log, s.slot, from);
  }

  /** UNDO of an unfinished transaction always has its next record in the retained log, or is done. */
  lemma UndoCanGoOn(init: Database, s: State, t: TxnId)
    requires Inv(init, s) && s.mode == Undoing(INVALID_LSN) && Live(Txns(s), t)
    ensures Enabled(s, AppendClr(t)) || Enabled(s, FinishAbort(t))
  {
    hide HistAt, TxnsAt, ImageOk, Plausible;
    UndoNextShape(init, s.log, |s.log|, t);
    assert RecordOk(init, s.log, Txns(s)[t].undoNext);
  }

  /** A live rollback likewise. */
  lemma RollbackCanGoOn(init: Database, s: State)
    requires Inv(init, s) && s.mode.RollingBack? && s.mode.clr == INVALID_LSN
    ensures Enabled(s, AppendClr(s.mode.tid)) || Enabled(s, FinishAbort(s.mode.tid))
  {
    hide HistAt, TxnsAt, ImageOk, FramesInv, RetentionInv, PageStateOk, Retains;
    var t := s.mode.tid;
    assert ContextOk(init, s, t);
    UndoNextShape(init, s.log, |s.log|, t);
    assert RecordOk(init, s.log, Txns(s)[t].undoNext);
  }

  // ---- Rollback and pages it only meant to write ----

  predicate ReadsAsPublished(init: Database, s: State, p: PageId) {
    p in init && p in s.disk && View(s, p) == CommittedDb(init, s.log)[p]
  }

  /** The transaction asked to write the page and logged no change of it. */
  predicate MeantToWrite(s: State, t: TxnId, p: PageId) {
    t in s.contexts && p in s.contexts[t].pages && s.contexts[t].pages[p].latest.None?
  }

  lemma PreparedFrame(init: Database, s: State, p: PageId)
    requires FramesInv(init, s) && p in s.frames && !s.frames[p].pending
    ensures p in init && s.frames[p].page.body == Latest(Hist(init, s, p))
  {
    hide HistAt;
    assert FrameOk(init, s, p);
  }

  /** Before the rollback such a page reads as published, from its frame or from the disk. */
  lemma MeantReads(init: Database, s: State, t: TxnId, p: PageId)
    requires Inv(init, s) && s.mode.Running? && t in s.contexts && Prepared(s, t) && MeantToWrite(s, t, p)
    ensures p in s.disk && ReadsAsPublished(init, s, p)
  {
    hide LogInv, ImagesInv, HistAt, TxnsAt, RetentionInv, FramesInv, MaskAfter;
    assert ContextOk(init, s, t);
    assert PageStateOk(init, s, t, p);
    if p in s.frames {
      PreparedFrame(init, s, p);
    } else {
      assert DiskOk(init, s, p);
    }
  }

  /** Afterwards it reads from the disk. */
  lemma MeantDropped(init: Database, s: State, t: TxnId, p: PageId)
    requires Enabled(s, StartRollback(t)) && s.contexts[t].begin != INVALID_LSN && MeantToWrite(s, t, p)
    requires p in s.disk && ReadsAsPublished(init, s, p)
    ensures ReadsAsPublished(init, Apply(s, StartRollback(t)), p) <==>
              (p in s.frames ==> s.frames[p].page.body == s.disk[p].body)
  {
    hide CommittedDb;
  }

  lemma RollbackStarts(s: State, t: TxnId)
    requires Enabled(s, StartRollback(t))
    ensures s.mode.Running? && t in s.contexts && Prepared(s, t)
  {
  }

  /** A rollback drops the frames of every page the transaction asked to write, and compensates only
      those it changed. Readers still see the published database on the others exactly when the
      condition holds, which the caller can check before the call. */
  lemma RollbackExact(init: Database, s: State, t: TxnId)
    requires Inv(init, s) && Enabled(s, StartRollback(t)) && s.contexts[t].begin != INVALID_LSN
    ensures RollbackKeepsPages(s, t) <==>
            forall p :: MeantToWrite(s, t, p) ==> ReadsAsPublished(init, Apply(s, StartRollback(t)), p)
  {
    hide Inv, Enabled, Apply, ReadsAsPublished;
    RollbackStarts(s, t);
    forall p | MeantToWrite(s, t, p)
      ensures p in s.disk
      ensures ReadsAsPublished(init, Apply(s, StartRollback(t)), p) <==>
                (p in s.frames ==> s.frames[p].page.body == s.disk[p].body)
    {
      MeantReads(init, s, t, p);
      MeantDropped(init, s, t, p);
    }
  }
}
