/** The database access gate: many readers or one writer, waiting writers before new readers. Each step is
    one section under the gate's mutex; threads interleave in any order. */
module AccessGate {
  type Thread = nat

  datatype Mode = ReadOnly | ReadWrite

  datatype Lease = Lease(mode: Mode, owner: Thread)

  datatype Ownership = Ownership(readers: nat, writer: bool)

  datatype State = State(
    activeReaders: nat, writerActive: bool, waitingReaders: nat, waitingWriters: nat,
    owners: map<Thread, Ownership>, stopped: bool,
    // The threads in the wait loop, and the leases not yet given back.
    readersInLine: set<Thread>, writersInLine: set<Thread>, leases: multiset<Lease>)

  datatype Action =
    | Acquire(thread: Thread, mode: Mode, cancelled: bool)
    | Wake(thread: Thread, cancelled: bool)
    | Release(lease: Lease)
    | Shutdown

  predicate InLine(s: State, t: Thread) {
    t in s.readersInLine || t in s.writersInLine
  }

  /** A thread runs one acquisition at a time, and only outstanding leases are released. */
  predicate Enabled(s: State, a: Action) {
    match a
    case Acquire(t, _, _) => !InLine(s, t)
    case Wake(t, _) => InLine(s, t)
    case Release(l) => l in s.leases
    case Shutdown => true
  }

  predicate Eligible(s: State, mode: Mode) {
    !s.writerActive && if mode.ReadOnly? then s.waitingWriters == 0 else s.activeReaders == 0
  }

  /** An upgrade or a recursive exclusive request, or a second read lease past a waiting writer. */
  predicate Refused(s: State, t: Thread, mode: Mode) {
    t in s.owners && (mode.ReadWrite? || s.owners[t].writer || s.waitingWriters != 0)
  }

  function Owned(s: State, t: Thread): (r: Ownership) {
    if t in s.owners then s.owners[t] else Ownership(0, false)
  }

  function Granted(s: State, t: Thread, mode: Mode): (r: State) {
    if mode.ReadOnly? then
      s.(owners := s.owners[t := Owned(s, t).(readers := Owned(s, t).readers + 1)],
         activeReaders := s.activeReaders + 1, leases := s.leases + multiset{Lease(mode, t)})
    else
      s.(owners := s.owners[t := Owned(s, t).(writer := true)],
         writerActive := true, leases := s.leases + multiset{Lease(mode, t)})
  }

  function Joined(s: State, t: Thread, mode: Mode): (r: State) {
    if mode.ReadOnly? then s.(waitingReaders := s.waitingReaders + 1, readersInLine := s.readersInLine + {t})
    else s.(waitingWriters := s.waitingWriters + 1, writersInLine := s.writersInLine + {t})
  }

  /** A counter one lower. That no counter is zero then is part of what every run keeps. */
  function Less(n: nat): (r: nat) { if n == 0 then 0 else n - 1 }

  function Left(s: State, t: Thread, mode: Mode): (r: State) {
    if mode.ReadOnly? then s.(waitingReaders := Less(s.waitingReaders), readersInLine := s.readersInLine - {t})
    else s.(waitingWriters := Less(s.waitingWriters), writersInLine := s.writersInLine - {t})
  }

  function Released(s: State, l: Lease): (r: State) {
    var o := Owned(s, l.owner);
    var o' := if l.mode.ReadOnly? then o.(readers := Less(o.readers)) else o.(writer := false);
    s.(owners := if o' == Ownership(0, false) then s.owners - {l.owner} else s.owners[l.owner := o'],
       activeReaders := if l.mode.ReadOnly? then Less(s.activeReaders) else s.activeReaders,
       writerActive := if l.mode.ReadOnly? then s.writerActive else false,
       leases := s.leases - multiset{l})
  }

  function Apply(s: State, a: Action): (r: State)
    requires Enabled(s, a)
  {
    match a
    case Acquire(t, mode, cancelled) =>
      if Refused(s, t, mode) || s.stopped || cancelled then s
      else if Eligible(s, mode) then Granted(s, t, mode)
      else Joined(s, t, mode)
    case Wake(t, cancelled) =>
      var mode := if t in s.readersInLine then ReadOnly else ReadWrite;
      if s.stopped || cancelled then Left(s, t, mode)
      else if Eligible(s, mode) then Granted(Left(s, t, mode), t, mode)
      else s
    case Release(l) => Released(s, l)
    case Shutdown => s.(stopped := true)
  }

  // ---- The invariant ----

  /** The read leases of all owners together. */
  ghost function TotalReaders(owners: map<Thread, Ownership>): (r: nat) {
    if owners == map[] then 0
    else
      var t :| t in owners;
      owners[t].readers + TotalReaders(owners - {t})
  }

  /** What an owner's entry says is what it holds. */
  ghost predicate EntryOk(s: State, t: Thread) {
    && s.leases[Lease(ReadOnly, t)] == Owned(s, t).readers
    && s.leases[Lease(ReadWrite, t)] == (if Owned(s, t).writer then 1 else 0)
    && (t in s.owners ==> s.owners[t] != Ownership(0, false))
  }

  /** The waiting counters count the threads in line, and none of those owns anything. */
  ghost predicate LineOk(s: State) {
    && s.waitingReaders == |s.readersInLine| && s.waitingWriters == |s.writersInLine|
    && s.readersInLine !! s.writersInLine
    && (forall t :: InLine(s, t) ==> t !in s.owners)
  }

  /** The active counters count what the owners hold, and a writer is the only owner. */
  ghost predicate HoldOk(s: State) {
    && (forall t :: EntryOk(s, t))
    && s.activeReaders == TotalReaders(s.owners)
    && (forall t :: t in s.owners && s.owners[t].writer ==>
         s.writerActive && s.owners.Keys == {t} && s.owners[t].readers == 0)
    && (s.writerActive ==> exists t :: t in s.owners && s.owners[t].writer)
  }

  ghost predicate Inv(s: State) {
    LineOk(s) && HoldOk(s)
  }

  lemma HoldSame(s: State, s': State)
    requires HoldOk(s) && s'.owners == s.owners && s'.leases == s.leases && s'.activeReaders == s.activeReaders
    requires s'.writerActive == s.writerActive
    ensures HoldOk(s')
  {
    forall t ensures EntryOk(s', t) {
      assert EntryOk(s, t);
    }
  }

  lemma SomeoneInLine(s: State, t: Thread)
    requires Inv(s) && InLine(s, t)
    ensures t in s.readersInLine ==> s.waitingReaders > 0
    ensures t in s.writersInLine ==> s.waitingWriters > 0
  {
  }

  lemma LeaseOwned(s: State, l: Lease)
    requires Inv(s) && l in s.leases
    ensures l.owner in s.owners && (l.mode.ReadOnly? ==> s.owners[l.owner].readers > 0 && s.activeReaders > 0)
    ensures l.mode.ReadWrite? ==> s.owners[l.owner].writer && s.writerActive
  {
    assert EntryOk(s, l.owner) && s.leases[l] > 0;
    assert l.mode.ReadOnly? ==> l == Lease(ReadOnly, l.owner);
    assert l.mode.ReadWrite? ==> l == Lease(ReadWrite, l.owner);
    TotalSplits(s.owners, l.owner);
  }

  /** The sum does not depend on the order it is taken in. */
  lemma {:induction false} TotalSplits(owners: map<Thread, Ownership>, t: Thread)
    requires t in owners
    ensures TotalReaders(owners) == owners[t].readers + TotalReaders(owners - {t})
    decreases |owners|
  {
    var u :| u in owners && TotalReaders(owners) == owners[u].readers + TotalReaders(owners - {u});
    if u != t {
      TotalSplits(owners - {u}, t);
      TotalSplits(owners - {t}, u);
      assert owners - {u} - {t} == owners - {t} - {u};
    }
  }

  lemma TotalSet(owners: map<Thread, Ownership>, t: Thread, o: Ownership)
    ensures TotalReaders(owners[t := o]) + (if t in owners then owners[t].readers else 0) ==
              TotalReaders(owners) + o.readers
  {
    TotalSplits(owners[t := o], t);
    if t in owners {
      TotalSplits(owners, t);
      assert owners[t := o] - {t} == owners - {t};
    } else {
      assert owners[t := o] - {t} == owners;
    }
  }

  /** A running writer is alone. */
  lemma {:induction false} NoReaders(owners: map<Thread, Ownership>)
    requires forall t :: t in owners ==> owners[t].readers == 0
    ensures TotalReaders(owners) == 0
    decreases |owners|
  {
    if owners != map[] {
      var t :| t in owners && TotalReaders(owners) == owners[t].readers + TotalReaders(owners - {t});
      NoReaders(owners - {t});
    }
  }

  lemma Quiet(s: State)
    requires Inv(s) && s.activeReaders == 0
    ensures forall t :: t in s.owners ==> s.owners[t].readers == 0
  {
    forall t | t in s.owners ensures s.owners[t].readers == 0 {
      TotalSplits(s.owners, t);
    }
  }

  // ---- Every step keeps it ----

  lemma GrantKeeps(s: State, t: Thread, mode: Mode)
    requires Inv(s) && Eligible(s, mode) && !InLine(s, t)
    requires mode.ReadWrite? ==> t !in s.owners
    ensures Inv(Granted(s, t, mode))
  {
    var s' := Granted(s, t, mode);
    assert EntryOk(s, t);
    TotalSet(s.owners, t, s'.owners[t]);
    if mode.ReadWrite? {
      Quiet(s);
      NobodyHolds(s);
      assert s'.owners.Keys == {t};
    }
    forall u ensures EntryOk(s', u) {
      assert EntryOk(s, u);
    }
  }

  /** Without readers and without a writer nobody owns anything. */
  lemma NobodyHolds(s: State)
    requires Inv(s) && s.activeReaders == 0 && !s.writerActive
    ensures s.owners == map[]
  {
    Quiet(s);
    forall t ensures t !in s.owners {
      assert EntryOk(s, t);
    }
  }

  lemma JoinLine(s: State, t: Thread, mode: Mode)
    requires LineOk(s) && !InLine(s, t) && t !in s.owners
    ensures LineOk(Joined(s, t, mode))
  {
    var s' := Joined(s, t, mode);
    if mode.ReadOnly? {
      assert s'.readersInLine == s.readersInLine + {t} && s'.writersInLine == s.writersInLine;
    } else {
      assert s'.writersInLine == s.writersInLine + {t} && s'.readersInLine == s.readersInLine;
    }
  }

  lemma JoinKeeps(s: State, t: Thread, mode: Mode)
    requires Inv(s) && !InLine(s, t) && t !in s.owners
    ensures Inv(Joined(s, t, mode))
  {
    hide HoldOk, LineOk;
    JoinLine(s, t, mode);
    HoldSame(s, Joined(s, t, mode));
  }

  lemma LeaveKeeps(s: State, t: Thread, mode: Mode)
    requires Inv(s) && if mode.ReadOnly? then t in s.readersInLine else t in s.writersInLine
    ensures (if mode.ReadOnly? then s.waitingReaders > 0 else s.waitingWriters > 0) && Inv(Left(s, t, mode))
    ensures !InLine(Left(s, t, mode), t)
  {
    hide HoldOk;
    SomeoneInLine(s, t);
    HoldSame(s, Left(s, t, mode));
  }

  lemma ReleaseKeeps(s: State, l: Lease)
    requires Inv(s) && l in s.leases
    ensures l.owner in s.owners && (l.mode.ReadOnly? ==> s.owners[l.owner].readers > 0 && s.activeReaders > 0)
    ensures Inv(Released(s, l))
  {
    LeaseOwned(s, l);
    var s' := Released(s, l);
    assert EntryOk(s, l.owner);
    TotalSplits(s.owners, l.owner);
    if l.owner in s'.owners {
      TotalSet(s.owners, l.owner, s'.owners[l.owner]);
    }
    forall u ensures EntryOk(s', u) {
      assert EntryOk(s, u);
    }
  }

  /** A thread that holds a lease never has to wait: its request is refused or granted at once. */
  lemma HolderNeverWaits(s: State, t: Thread, mode: Mode)
    requires Inv(s) && t in s.owners && !Refused(s, t, mode)
    ensures Eligible(s, mode)
  {
  }

  lemma StepKeeps(s: State, a: Action)
    requires Inv(s) && Enabled(s, a)
    ensures Inv(Apply(s, a))
  {
    match a
    case Acquire(t, mode, cancelled) =>
      if !(Refused(s, t, mode) || s.stopped || cancelled) {
        if Eligible(s, mode) {
          GrantKeeps(s, t, mode);
        } else {
          assert t in s.owners ==> Eligible(s, mode) by {
            if t in s.owners {
              HolderNeverWaits(s, t, mode);
            }
          }
          JoinKeeps(s, t, mode);
        }
      }
    case Wake(t, cancelled) =>
      var mode := if t in s.readersInLine then ReadOnly else ReadWrite;
      LeaveKeeps(s, t, mode);
      if !(s.stopped || cancelled) && Eligible(s, mode) {
        GrantKeeps(Left(s, t, mode), t, mode);
      }
    case Release(l) => ReleaseKeeps(s, l);
    case Shutdown => HoldSame(s, s.(stopped := true));
  }

  // ---- Whole runs ----

  const INITIAL := State(0, false, 0, 0, map[], false, {}, {}, multiset{})

  predicate StepAt(states: seq<State>, actions: seq<Action>, i: nat)
    requires |states| == |actions| + 1 && i < |actions|
  {
    Enabled(states[i], actions[i]) && states[i + 1] == Apply(states[i], actions[i])
  }

  /** Any interleaving of enabled steps from the start. */
  predicate Run(states: seq<State>, actions: seq<Action>) {
    && |states| == |actions| + 1 && states[0] == INITIAL
    && forall i :: 0 <= i < |actions| ==> StepAt(states, actions, i)
  }

  lemma InitialOk()
    ensures Inv(INITIAL)
  {
    forall t ensures EntryOk(INITIAL, t) {
    }
  }

  lemma {:induction false} RunInvariant(states: seq<State>, actions: seq<Action>, i: nat)
    requires Run(states, actions) && i < |states|
    ensures Inv(states[i])
    decreases i
  {
    if i == 0 {
      InitialOk();
    } else {
      assert StepAt(states, actions, i - 1);
      RunInvariant(states, actions, i - 1);
      StepKeeps(states[i - 1], actions[i - 1]);
    }
  }

  /** No counter is ever lowered from zero, and no lease is given back that its owner does not hold. */
  lemma NeverBelowZero(states: seq<State>, actions: seq<Action>, i: nat)
    requires Run(states, actions) && i < |actions|
    ensures var s, a := states[i], actions[i];
            && (a.Wake? ==> if a.thread in s.readersInLine then s.waitingReaders > 0 else s.waitingWriters > 0)
            && (a.Release? ==> a.lease.owner in s.owners)
            && (a.Release? && a.lease.mode.ReadOnly? ==> s.owners[a.lease.owner].readers > 0 && s.activeReaders > 0)
            && (a.Release? && a.lease.mode.ReadWrite? ==> s.owners[a.lease.owner].writer && s.writerActive)
  {
    hide Inv;
    RunInvariant(states, actions, i);
    assert StepAt(states, actions, i);
    if actions[i].Wake? {
      SomeoneInLine(states[i], actions[i].thread);
    } else if actions[i].Release? {
      LeaseOwned(states[i], actions[i].lease);
    }
  }

  /** In every interleaving: a write lease is the only lease there is, and the counters are what the owners
      hold. */
  lemma WritersAlone(states: seq<State>, actions: seq<Action>, i: nat, l: Lease)
    requires Run(states, actions) && i < |states| && l in states[i].leases && l.mode.ReadWrite?
    ensures forall m :: m in states[i].leases ==> m == l
    ensures states[i].leases[l] == 1 && states[i].activeReaders == 0 && states[i].writerActive
  {
    RunInvariant(states, actions, i);
    var s := states[i];
    LeaseOwned(s, l);
    assert EntryOk(s, l.owner);
    forall m | m in s.leases ensures m == l {
      LeaseOwned(s, m);
      assert m.owner in s.owners.Keys;
    }
    NoReaders(s.owners);
  }

  /** While a writer waits, no step adds a reader. */
  lemma ReadersBarred(s: State, a: Action)
    requires Inv(s) && Enabled(s, a) && s.waitingWriters > 0
    ensures Apply(s, a).activeReaders <= s.activeReaders
  {
    if a.Wake? && a.thread in s.readersInLine {
      SomeoneInLine(s, a.thread);
    }
  }

  /** Over any stretch of a run in which one writer stays in line, the number of readers only falls. */
  lemma {:induction false} WritersNotStarved(states: seq<State>, actions: seq<Action>, i: nat, j: nat, w: Thread)
    requires Run(states, actions) && i <= j < |states|
    requires forall k :: i <= k < j ==> w in states[k].writersInLine
    ensures states[j].activeReaders <= states[i].activeReaders
    decreases j
  {
    if i < j {
      WritersNotStarved(states, actions, i, j - 1, w);
      RunInvariant(states, actions, j - 1);
      assert StepAt(states, actions, j - 1);
      SomeoneInLine(states[j - 1], w);
      ReadersBarred(states[j - 1], actions[j - 1]);
    }
  }

  /** No thread waits while it holds a lease. */
  lemma WaitersHoldNothing(states: seq<State>, actions: seq<Action>, i: nat, t: Thread, mode: Mode)
    requires Run(states, actions) && i < |states| && InLine(states[i], t)
    ensures Lease(mode, t) !in states[i].leases
  {
    RunInvariant(states, actions, i);
    assert EntryOk(states[i], t);
  }

  /** Nobody waits forever for nothing: once all leases are back, some waiting thread gets in when it wakes. */
  lemma SomeoneGetsIn(s: State) returns (t: Thread)
    requires Inv(s) && !s.stopped && s.leases == multiset{} && (s.readersInLine != {} || s.writersInLine != {})
    ensures InLine(s, t)
    ensures var s' := Apply(s, Wake(t, false)); !InLine(s', t) && exists mode :: Lease(mode, t) in s'.leases
  {
    forall u ensures u !in s.owners {
      assert EntryOk(s, u);
    }
    assert s.owners == map[];
    if s.writersInLine != {} {
      t :| t in s.writersInLine;
    } else {
      t :| t in s.readersInLine;
    }
    var mode := if t in s.readersInLine then ReadOnly else ReadWrite;
    LeaveKeeps(s, t, mode);
    assert Lease(mode, t) in Apply(s, Wake(t, false)).leases;
  }

  /** After shutdown nothing is granted any more, and whoever waits leaves on waking. */
  lemma ShutdownDrains(s: State, a: Action)
    requires Inv(s) && Enabled(s, a) && s.stopped
    ensures Apply(s, a).stopped && Apply(s, a).leases <= s.leases
    ensures a.Wake? ==> !InLine(Apply(s, a), a.thread)
  {
    if a.Wake? {
      LeaveKeeps(s, a.thread, if a.thread in s.readersInLine then ReadOnly else ReadWrite);
    }
  }
}
