/** A run in which a rollback loses committed bytes: the transaction asked to write a page whose
    committed image only the buffer pool holds, did not change it, and was rolled back. */
module RollbackLoss {
  import opened Options
  import opened PageDelta
  import opened WalLog
  import opened CrashModel
  import opened CrashRuns
  import opened CrashRollback
  import opened EngineSteps
  import opened EngineLive

  function Zeros(): (r: Body) { seq(PAGE_SIZE, i => 0) }

  function Ones(): (r: Body) { seq(PAGE_SIZE, i => 1) }

  function TwoPages(): (r: Database) { map[0 := Zeros(), 1 := Zeros()] }

  const PAGES: map<PageId, Page> := map[0 := Page(Zeros(), INVALID_LSN), 1 := Page(Zeros(), INVALID_LSN)]
  const IMAGES: map<PageId, set<Page>> := map[0 := {Page(Zeros(), INVALID_LSN)}, 1 := {Page(Zeros(), INVALID_LSN)}]

  /** Page 0 is committed as ones; the disk still holds zeros. */
  function Committed(): (r: State) {
    State([Begin(1), Update(1, 0, 0, FullImage(Zeros(), Ones())), Commit(1, 1)], 3, PAGES, IMAGES,
          map[0 := Frame(Page(Ones(), 1), true, false, 1, 1)], map[], 2, INVALID_LSN, 0, Running)
  }

  /** A second transaction asked to write page 0, left it as it was, and changed page 1. */
  function Touched(): (r: State) {
    State(Committed().log + [Begin(2), Update(2, 3, 1, FullImage(Zeros(), Ones()))], 3, PAGES, IMAGES,
          map[0 := Frame(Page(Ones(), 1), true, false, 1, 1), 1 := Frame(Page(Ones(), 4), true, false, 4, 4)],
          map[2 := Context(3, 4, map[0 := PageState(Ones(), None, NoOffsets(), INVALID_LSN),
                                     1 := PageState(Zeros(), Some(Ones()), Touch(NoOffsets(), Zeros(), Ones()), 4)])],
          3, INVALID_LSN, 0, Running)
  }

  /** The second transaction is rolled back. */
  function RolledBack(): (r: State) {
    State(Touched().log + [Clr(2, 4, 1, 3, 4, Zeros()), Abort(2, 5)], 7,
          PAGES[1 := Page(Zeros(), 5)],
          IMAGES[1 := {Page(Zeros(), INVALID_LSN), Page(Zeros(), 5)}],
          map[], map[], 3, INVALID_LSN, 0, Running)
  }

  lemma CommitPath() returns (actions: seq<Action>)
    ensures Path(Created(TwoPages()), actions, Committed())
  {
    hide Path, Enabled, Apply;
    var s0 := Created(TwoPages());
    assert s0 == State([], 0, PAGES, IMAGES, map[], map[], 1, INVALID_LSN, 0, Running);
    BeginTxnIs(s0);
    var s1 := Opened(s0);
    FetchIs(s1, 0);
    var s2 := Fetched(s1, 0);
    WriteIs(s2, 1, 0, Ones(), true);
    var a3, s3 := Write(1, 0, Ones(), true), WriteStep(s2, 1, 0, Ones(), true);
    assert Zeros()[0] != Ones()[0];
    PrepareIs(s3, 1, 0, FullImage(Zeros(), Ones()));
    var a4, s4 := Prepare(1, 0, FullImage(Zeros(), Ones())), PrepareStep(s3, 1, 0, FullImage(Zeros(), Ones()));
    CommitIs(s4, 1);
    assert Committing(s4, 1) == Committed();
    Then(s0, BeginTxn);
    PathThen(s0, [BeginTxn], s1, Fetch(0));
    PathThen(s0, [BeginTxn] + [Fetch(0)], s2, a3);
    PathThen(s0, [BeginTxn] + [Fetch(0)] + [a3], s3, a4);
    PathThen(s0, [BeginTxn] + [Fetch(0)] + [a3] + [a4], s4, CommitTxn(1));
    actions := [BeginTxn] + [Fetch(0)] + [a3] + [a4] + [CommitTxn(1)];
  }

  /** The second transaction has asked to write page 0 and logged nothing. */
  function Intent(): (r: State) {
    Committed().(contexts := map[2 := Context(INVALID_LSN, INVALID_LSN,
                                              map[0 := PageState(Ones(), None, NoOffsets(), INVALID_LSN)])],
                 nextTid := 3)
  }

  lemma IntentPath() returns (actions: seq<Action>)
    ensures Path(Committed(), actions, Intent())
  {
    hide Path, Enabled, Apply;
    var s0 := Committed();
    BeginTxnIs(s0);
    var s1 := Opened(s0);
    WriteIs(s1, 2, 0, Ones(), true);
    var a2, s2 := Write(2, 0, Ones(), true), WriteStep(s1, 2, 0, Ones(), true);
    PrepareIs(s2, 2, 0, FullImage(Ones(), Ones()));
    var a3 := Prepare(2, 0, FullImage(Ones(), Ones()));
    assert PrepareStep(s2, 2, 0, FullImage(Ones(), Ones())) == Intent();
    Then(s0, BeginTxn);
    PathThen(s0, [BeginTxn], s1, a2);
    PathThen(s0, [BeginTxn] + [a2], s2, a3);
    actions := [BeginTxn] + [a2] + [a3];
  }

  lemma ChangePath() returns (actions: seq<Action>)
    ensures Path(Intent(), actions, Touched())
  {
    hide Path, Enabled, Apply;
    var s0 := Intent();
    FetchIs(s0, 1);
    var s1 := Fetched(s0, 1);
    WriteIs(s1, 2, 1, Ones(), true);
    var a2, s2 := Write(2, 1, Ones(), true), WriteStep(s1, 2, 1, Ones(), true);
    assert Zeros()[0] != Ones()[0];
    PrepareIs(s2, 2, 1, FullImage(Zeros(), Ones()));
    var a3, s3 := Prepare(2, 1, FullImage(Zeros(), Ones())), PrepareStep(s2, 2, 1, FullImage(Zeros(), Ones()));
    assert s3.log == Touched().log;
    assert s3.frames == Touched().frames;
    assert s3.contexts[2].pages == Touched().contexts[2].pages;
    assert s3.contexts == Touched().contexts;
    Then(s0, Fetch(1));
    PathThen(s0, [Fetch(1)], s1, a2);
    PathThen(s0, [Fetch(1)] + [a2], s2, a3);
    actions := [Fetch(1)] + [a2] + [a3];
  }

  // ---- The log of the run ----

  lemma TxnsTouched()
    ensures TxnsAt(Touched().log, 5)
            == map[1 := Txn(Status.Committed, 0, 2, INVALID_LSN), 2 := Txn(Active, 3, 4, 4)]
  {
    var log := Touched().log;
    assert TxnsAt(log, 1) == map[1 := Txn(Active, 0, 0, 0)];
    assert TxnsAt(log, 2) == map[1 := Txn(Active, 0, 1, 1)];
    assert TxnsAt(log, 3) == map[1 := Txn(Status.Committed, 0, 2, INVALID_LSN)];
    assert TxnsAt(log, 4) == map[1 := Txn(Status.Committed, 0, 2, INVALID_LSN), 2 := Txn(Active, 3, 3, 3)];
  }

  /** Page 1 is compensated; page 0 has lost its frame. */
  function Compensated(): (r: State) {
    State(Touched().log + [Clr(2, 4, 1, 3, 4, Zeros())], 6, RolledBack().disk, RolledBack().images,
          map[], Touched().contexts, 3, INVALID_LSN, 0, RollingBack(2, INVALID_LSN))
  }

  lemma UndoStarts()
    ensures Enabled(Dropped(Touched(), 2), AppendClr(2))
    ensures NextClr(Dropped(Touched(), 2), 2) == Clr(2, 4, 1, 3, 4, Zeros())
  {
    hide TxnsAt;
    TxnsTouched();
  }

  lemma UndoPath() returns (actions: seq<Action>)
    ensures Path(Touched(), actions, Compensated())
  {
    hide Path, Enabled, Apply, TxnsAt, NextClr;
    var s0, a1, a2 := Touched(), StartRollback(2), AppendClr(2);
    StartRollbackIs(s0, 2);
    var s1 := Dropped(s0, 2);
    assert s1.frames == map[];
    UndoStarts();
    CompensateSteps(s1, 2);
    var s2 := ClrLogged(s1, 2);
    assert s2.log == Compensated().log;
    var s3 := Forced(s2);
    var s4 := ClrPut(s3);
    assert s4.disk == Compensated().disk;
    assert s4.images[1] == Compensated().images[1];
    assert s4.images == Compensated().images;
    Then(s0, a1);
    PathThen(s0, [a1], s1, a2);
    PathThen(s0, [a1] + [a2], s2, Force);
    PathThen(s0, [a1] + [a2] + [Force], s3, PutClr);
    actions := [a1] + [a2] + [Force] + [PutClr];
  }

  lemma AbortStep()
    ensures Path(Compensated(), [FinishAbort(2)], RolledBack())
  {
    hide Path;
    var s := Compensated();
    TxnsTouched();
    TxnsPrefix(s.log, Touched().log, 5);
    assert TxnsAt(s.log, 6)[2] == Txn(Aborting, 3, 5, 3);
    Then(s, FinishAbort(2));
    assert Apply(s, FinishAbort(2)).log == RolledBack().log;
    assert Apply(s, FinishAbort(2)).contexts == map[];
  }

  lemma PageZeroCommitted()
    ensures CommittedDb(TwoPages(), RolledBack().log)[0] == Ones()
  {
    var log, init := RolledBack().log, TwoPages();
    assert HistAt(init, log, 1, 0) == PageHist(Zeros(), None, [], INVALID_LSN);
    assert HistAt(init, log, 2, 0) == PageHist(Zeros(), Some(1), [Ones()], 1);
    var settled := PageHist(Ones(), None, [], 1);
    assert HistAt(init, log, 3, 0) == settled;
    assert HistAt(init, log, 4, 0) == settled;
    assert HistAt(init, log, 5, 0) == settled;
    assert HistAt(init, log, 6, 0) == settled;
  }

  /** The engine runs on, no transaction is open, the log says page 0 is ones, readers get zeros.
      The condition that would have warned the caller was false when the rollback started. */
  lemma RollbackLosesCommittedPage() returns (before: seq<Action>, rollback: seq<Action>)
    ensures Path(Created(TwoPages()), before, Touched()) && Path(Touched(), rollback, RolledBack())
    ensures !RollbackKeepsPages(Touched(), 2)
    ensures RolledBack().mode.Running? && RolledBack().contexts == map[]
    ensures CommittedDb(TwoPages(), RolledBack().log)[0] == Ones()
    ensures View(RolledBack(), 0) == Zeros() != Ones()
  {
    hide Path, CommittedDb;
    var first := CommitPath();
    var second := IntentPath();
    var third := ChangePath();
    PathJoins(Created(TwoPages()), first, Committed(), second, Intent());
    PathJoins(Created(TwoPages()), first + second, Intent(), third, Touched());
    before := first + second + third;
    var undo := UndoPath();
    AbortStep();
    PathJoins(Touched(), undo, Compensated(), [FinishAbort(2)], RolledBack());
    rollback := undo + [FinishAbort(2)];
    PageZeroCommitted();
    assert Zeros()[0] != Ones()[0];
    var s := Touched();
    assert 0 in s.contexts[2].pages && s.contexts[2].pages[0].latest.None? && 0 in s.frames && 0 in s.disk;
  }
}
