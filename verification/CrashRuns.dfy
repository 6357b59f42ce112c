/** What holds of every run of the engine, with crashes anywhere. */
module CrashRuns {
  import opened WalLog
  import opened CrashModel
  import opened CrashInvariant
  import opened CrashLemmas
  import opened CrashSteps
  import opened CrashWriteSteps
  import opened CrashPrepare
  import opened CrashCheckpoint
  import opened CrashRollback
  import opened CrashRecovery

  // ---- Runs ----

  /** A new database: an empty log, and every page on disk and synced. */
  function Created(init: Database): (r: State) {
    State([], 0, map p | p in init :: Page(init[p], INVALID_LSN), map p | p in init :: {Page(init[p], INVALID_LSN)},
          map[], map[], 1, INVALID_LSN, 0, Running)
  }

  /** A rollback must not start while the pool holds the only copy of a page it is about to drop
      without compensating it. */
  predicate Careful(s: State, a: Action) {
    a.StartRollback? ==> a.tid in s.contexts && RollbackKeepsPages(s, a.tid)
  }

  predicate Step(s: State, a: Action, s': State) {
    Enabled(s, a) && Careful(s, a) && s' == Apply(s, a)
  }

  predicate Run(init: Database, states: seq<State>, actions: seq<Action>) {
    && |states| == |actions| + 1
    && states[0] == Created(init)
    && forall i: nat :: i < |actions| ==> StepAt(states, actions, i)
  }

  predicate StepAt(states: seq<State>, actions: seq<Action>, i: nat) {
    i < |actions| && i + 1 < |states| && Step(states[i], actions[i], states[i + 1])
  }

  lemma CreatedInv(init: Database)
    ensures Inv(init, Created(init))
  {
    var s := Created(init);
    forall p | p in init ensures ImageOk(init, s.log, s.slot, p, s.disk[p]) {
      CurrentImageOk(init, s.log, s.slot, p, s.disk[p]);
    }
    assert s.log[..s.durable] == s.log;
  }

  lemma StepKeeps(init: Database, s: State, a: Action)
    requires Inv(init, s) && Enabled(s, a) && Careful(s, a)
    ensures Inv(init, Apply(s, a))
  {
    hide Inv, Enabled, Apply, RollbackKeepsPages;
    match a
    case BeginTxn => BeginTxnKeeps(init, s);
    case Fetch(p) => FetchKeeps(init, s, p);
    case Write(t, p, body, keepsLsn) => WriteKeeps(init, s, t, p, body, keepsLsn);
    case Prepare(t, p, change) => PrepareKeeps(init, s, t, p, change);
    case WriteBack(p) => WriteBackKeeps(init, s, p);
    case Drop(p) => DropKeeps(init, s, p);
    case CommitTxn(t) => CommitKeeps(init, s, t);
    case StartRollback(t) => StartRollbackKeeps(init, s, t);
    case AppendClr(t) => AppendClrKeeps(init, s, t);
    case PutClr => PutClrKeeps(init, s);
    case FinishAbort(t) => FinishAbortKeeps(init, s, t);
    case Force => ForceKeeps(init, s);
    case Sync => SyncKeeps(init, s);
    case BeginCheckpoint => BeginCheckpointKeeps(init, s);
    case EndCheckpoint(publish) => EndCheckpointKeeps(init, s, publish);
    case Reclaim(to) => ReclaimKeeps(init, s, to);
    case Crash(keep, survivors) => CrashKeeps(init, s, keep, survivors);
    case StartRecovery(from) => StartRecoveryKeeps(init, s, from);
    case RedoNext => RedoNextKeeps(init, s);
    case FinishRedo => FinishRedoKeeps(init, s);
    case FinishRecovery => FinishRecoveryKeeps(init, s);
  }

  lemma AppendClrKeeps(init: Database, s: State, t: TxnId)
    requires Inv(init, s) && Enabled(s, AppendClr(t))
    ensures Inv(init, Apply(s, AppendClr(t)))
  {
    hide Inv, Apply, TxnsAt;
    if s.mode.RollingBack? { RollingClrKeeps(init, s, t); } else { UndoingClrKeeps(init, s, t); }
  }

  lemma PutClrKeeps(init: Database, s: State)
    requires Inv(init, s) && Enabled(s, PutClr)
    ensures Inv(init, Apply(s, PutClr))
  {
    hide Inv, Apply;
    if s.mode.RollingBack? { RollingPutKeeps(init, s); } else { UndoingPutKeeps(init, s); }
  }

  lemma FinishAbortKeeps(init: Database, s: State, t: TxnId)
    requires Inv(init, s) && Enabled(s, FinishAbort(t))
    ensures Inv(init, Apply(s, FinishAbort(t)))
  {
    hide Inv, Apply, TxnsAt;
    if s.mode.RollingBack? { RollingAbortKeeps(init, s, t); } else { UndoingAbortKeeps(init, s, t); }
  }

  /** Every state of every run satisfies the invariant. */
  lemma {:induction false} RunInvariant(init: Database, states: seq<State>, actions: seq<Action>, k: nat)
    requires Run(init, states, actions) && k < |states|
    ensures Inv(init, states[k])
    decreases k
  {
    hide Inv;
    if k == 0 {
      CreatedInv(init);
    } else {
      RunInvariant(init, states, actions, k - 1);
      assert StepAt(states, actions, k - 1);
      StepKeeps(init, states[k - 1], actions[k - 1]);
    }
  }

  // ---- Paths ----

  /** Any enabled steps, careful or not. */
  predicate Path(s: State, actions: seq<Action>, s': State)
    decreases |actions|
  {
    if actions == [] then s == s'
    else Enabled(s, actions[0]) && Path(Apply(s, actions[0]), actions[1..], s')
  }

  lemma {:induction false} PathJoins(s: State, a: seq<Action>, m: State, b: seq<Action>, s': State)
    requires Path(s, a, m) && Path(m, b, s')
    ensures Path(s, a + b, s')
    decreases |a|
  {
    hide Enabled, Apply;
    if a == [] {
      assert a + b == b;
    } else {
      PathJoins(Apply(s, a[0]), a[1..], m, b, s');
      assert (a + b)[1..] == a[1..] + b;
    }
  }

  lemma Then(s: State, a: Action)
    requires Enabled(s, a)
    ensures Path(s, [a], Apply(s, a))
  {
    assert Path(Apply(s, a), [a][1..], Apply(s, a));
  }

  lemma PathEmpty(s: State)
    ensures Path(s, [], s)
  {
  }

  lemma PathThen(s: State, actions: seq<Action>, m: State, a: Action)
    requires Path(s, actions, m) && Enabled(m, a)
    ensures Path(s, actions + [a], Apply(m, a))
  {
    Then(m, a);
    PathJoins(s, actions, m, [a], Apply(m, a));
  }

  /** Along a path without rollbacks every state keeps the invariant. */
  lemma {:induction false} PathKeeps(init: Database, s: State, actions: seq<Action>, s': State)
    requires Inv(init, s) && Path(s, actions, s') && forall a :: a in actions ==> !a.StartRollback?
    ensures Inv(init, s')
    decreases |actions|
  {
    hide Inv, Enabled, Apply;
    if actions != [] {
      StepKeeps(init, s, actions[0]);
      PathKeeps(init, Apply(s, actions[0]), actions[1..], s');
    }
  }
}
