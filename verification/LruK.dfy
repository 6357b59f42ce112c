/** LRU-K replacement over buffer frames: the candidate order kept from the last K accesses, against the
    choice defined on the whole access history. */
module LruK {
  import opened Options

  type FrameId = nat

  datatype Entry = Entry(history: seq<nat>, tracked: bool, evictable: bool)

  datatype Candidate = Candidate(infinite: bool, stamp: nat, frame: FrameId)

  predicate CandidateLess(a: Candidate, b: Candidate) {
    if a.infinite != b.infinite then a.infinite
    else if a.stamp != b.stamp then a.stamp < b.stamp
    else a.frame < b.frame
  }

  const NO_ENTRY := Entry([], false, false)

  // ---- The choice, defined on whole histories ----

  /** The K-th most recent access, if there were K. */
  function KthLast(accesses: seq<nat>, k: nat): (r: Option<nat>)
    requires k > 0
  {
    if |accesses| < k then None else Some(accesses[|accesses| - k])
  }

  /** Frames with fewer than K accesses go first, the one accessed first before the others; among the rest
      the one whose K-th most recent access is oldest. */
  predicate GoesBefore(a: seq<nat>, b: seq<nat>, k: nat)
    requires k > 0 && a != [] && b != []
  {
    match (KthLast(a, k), KthLast(b, k))
    case (None, None) => a[0] < b[0]
    case (None, Some(_)) => true
    case (Some(_), None) => false
    case (Some(x), Some(y)) => x < y
  }

  function LastOf(accesses: seq<nat>, k: nat): (r: seq<nat>) {
    if |accesses| <= k then accesses else accesses[|accesses| - k..]
  }

  /** The last K accesses are enough to decide. */
  lemma LastDecides(a: seq<nat>, b: seq<nat>, k: nat, f: FrameId, g: FrameId)
    requires k > 0 && a != [] && b != [] && LastOf(a, k)[0] != LastOf(b, k)[0]
    ensures GoesBefore(a, b, k) <==>
              CandidateLess(Candidate(|LastOf(a, k)| < k, LastOf(a, k)[0], f),
                            Candidate(|LastOf(b, k)| < k, LastOf(b, k)[0], g))
  {
  }

  lemma {:induction false} LeastExists(candidates: set<Candidate>) returns (c: Candidate)
    requires candidates != {}
    ensures c in candidates && forall d :: d in candidates && d != c ==> CandidateLess(c, d)
    decreases |candidates|
  {
    var some :| some in candidates;
    var rest := candidates - {some};
    assert forall x :: x in candidates && x != some ==> x in rest;
    c := some;
    if rest != {} {
      var d := LeastExists(rest);
      if CandidateLess(d, some) {
        c := d;
      }
      forall x | x in candidates && x != c ensures CandidateLess(c, x) {
        if x != some && x != d {
          assert CandidateLess(d, x);
        }
      }
    }
  }

  class Replacer {
    const capacity: nat
    const k: nat
    var now: nat
    var entries: seq<Entry>
    var candidates: set<Candidate>
    /** All accesses of each frame since it was last removed. */
    ghost var accesses: seq<seq<nat>>

    ghost predicate Valid()
      reads this
    {
      && k > 0 && |entries| == |accesses| == capacity
      && EntriesOk(entries, accesses, k, now)
      && StampsUnique(accesses)
      && (forall c :: c in candidates <==> IsCandidate(entries, k, c))
    }

    function Tracked(f: FrameId): (r: bool)
      requires f < |entries|
      reads this
    {
      entries[f].tracked
    }

    function Evictable(f: FrameId): (r: bool)
      requires f < |entries|
      reads this
    {
      entries[f].evictable
    }

    constructor (capacity: nat, k: nat)
      requires capacity > 0 && k > 0
      ensures Valid() && this.capacity == capacity && this.k == k
      ensures forall f :: 0 <= f < capacity ==> entries[f] == NO_ENTRY
    {
      this.capacity, this.k, now := capacity, k, 0;
      entries := seq(capacity, i => NO_ENTRY);
      candidates := {};
      accesses := seq(capacity, i => []);
    }

    /** Counts one access to a frame. */
    method RecordAccess(f: FrameId)
      requires Valid() && f < capacity
      modifies this
      ensures Valid() && accesses == old(accesses)[f := old(accesses)[f] + [now]] && now == old(now) + 1
      ensures entries == old(entries)[f := entries[f]] && Tracked(f) && Evictable(f) == old(Evictable(f))
    {
      hide StampsUnique, EntriesOk;
      var entry := entries[f];
      ghost var entries0, candidates0 := entries, candidates;
      TrackedHistory(f);
      if entry.evictable {
        candidates := candidates - {CandidateOf(entry, k, f)};
      }
      EntriesAccess(entries, accesses, k, now, f);
      now := now + 1;
      var history := entry.history + [now];
      if |history| > k {
        history := history[1..];
      }
      entry := Entry(history, true, entry.evictable);
      assert entry == Accessed(entries0[f], now, k);
      entries := entries[f := entry];
      accesses := accesses[f := accesses[f] + [now]];
      if entry.evictable {
        candidates := candidates + {CandidateOf(entry, k, f)};
      }
      CandidatesFollow(entries0, entries, k, f, candidates0, candidates);
    }

    lemma TrackedHistory(f: FrameId)
      requires Valid() && f < capacity
      ensures entries[f].evictable ==> entries[f].history != []
    {
      assert EntryOk(entries[f], accesses[f], k, now);
    }

    /** Makes a tracked frame a candidate, or no longer one. */
    method SetEvictable(f: FrameId, evictable: bool)
      requires Valid() && f < capacity && Tracked(f)
      modifies this`entries, this`candidates
      ensures Valid() && entries == old(entries)[f := old(entries)[f].(evictable := evictable)]
    {
      hide StampsUnique;
      var entry := entries[f];
      if entry.evictable == evictable {
        assert entries == entries[f := entry];
        return;
      }
      ghost var entries0, candidates0 := entries, candidates;
      if entry.evictable {
        candidates := candidates - {CandidateOf(entry, k, f)};
      }
      entry := entry.(evictable := evictable);
      entries := entries[f := entry];
      if entry.evictable {
        candidates := candidates + {CandidateOf(entry, k, f)};
      }
      CandidatesFollow(entries0, entries, k, f, candidates0, candidates);
    }

    /** The frame to give up: evictable, and before every other evictable frame by the whole history. */
    method Victim() returns (res: Option<FrameId>)
      requires Valid()
      ensures res.None? <==> forall f :: 0 <= f < capacity ==> !entries[f].evictable
      ensures res.Some? ==>
                var f := res.value;
                && f < capacity && entries[f].evictable && accesses[f] != []
                && forall g :: 0 <= g < capacity && g != f && entries[g].evictable ==>
                     accesses[g] != [] && GoesBefore(accesses[f], accesses[g], k)
    {
      if candidates == {} {
        forall f | 0 <= f < capacity ensures !entries[f].evictable {
          assert EntryOk(entries[f], accesses[f], k, now);
          assert entries[f].evictable ==> IsCandidate(entries, k, CandidateOf(entries[f], k, f));
        }
        return None;
      }
      ghost var least := LeastExists(candidates);
      var c :| c in candidates && forall d :: d in candidates && d != c ==> CandidateLess(c, d);
      assert IsCandidate(entries, k, c);
      forall g | 0 <= g < capacity && g != c.frame && entries[g].evictable
        ensures accesses[g] != [] && GoesBefore(accesses[c.frame], accesses[g], k)
      {
        Before(c, g);
      }
      res := Some(c.frame);
    }

    lemma Before(c: Candidate, g: FrameId)
      requires Valid() && c in candidates && (forall d :: d in candidates && d != c ==> CandidateLess(c, d))
      requires g < capacity && entries[g].evictable && c.frame != g && c.frame < capacity
      ensures accesses[g] != [] && accesses[c.frame] != [] && GoesBefore(accesses[c.frame], accesses[g], k)
    {
      hide StampsUnique;
      var f := c.frame;
      assert IsCandidate(entries, k, c);
      assert EntryOk(entries[f], accesses[f], k, now) && EntryOk(entries[g], accesses[g], k, now);
      var d := CandidateOf(entries[g], k, g);
      assert IsCandidate(entries, k, d);
      DifferentStamps(accesses, f, g, k);
      LastDecides(accesses[f], accesses[g], k, f, g);
    }

    /** Forgets a frame that is being reused. */
    method Remove(f: FrameId) returns (removed: bool)
      requires Valid() && f < capacity && (Tracked(f) ==> Evictable(f))
      modifies this
      ensures Valid() && removed == old(Tracked(f)) && now == old(now)
      ensures entries == (if removed then old(entries)[f := NO_ENTRY] else old(entries))
      ensures accesses == (if removed then old(accesses)[f := []] else old(accesses))
    {
      hide StampsUnique;
      var entry := entries[f];
      if !entry.tracked {
        return false;
      }
      ghost var entries0, candidates0 := entries, candidates;
      candidates := candidates - {CandidateOf(entry, k, f)};
      Cleared(accesses, f);
      entries := entries[f := NO_ENTRY];
      accesses := accesses[f := []];
      CandidatesFollow(entries0, entries, k, f, candidates0, candidates);
      removed := true;
    }
  }

  function CandidateOf(e: Entry, k: nat, f: FrameId): (r: Candidate)
    requires e.history != []
  {
    Candidate(|e.history| < k, e.history[0], f)
  }

  ghost predicate IsCandidate(entries: seq<Entry>, k: nat, c: Candidate) {
    && c.frame < |entries| && entries[c.frame].evictable && entries[c.frame].history != []
    && c == CandidateOf(entries[c.frame], k, c.frame)
  }

  ghost predicate EntryOk(e: Entry, accesses: seq<nat>, k: nat, now: nat) {
    && e.history == LastOf(accesses, k) && (e.tracked <==> accesses != []) && (e.evictable ==> e.tracked)
    && (forall i :: 0 <= i < |accesses| ==> 0 < accesses[i] <= now)
    && (forall i, j :: 0 <= i < j < |accesses| ==> accesses[i] < accesses[j])
  }

  ghost predicate EntriesOk(entries: seq<Entry>, accesses: seq<seq<nat>>, k: nat, now: nat)
    requires |entries| == |accesses|
  {
    forall f :: 0 <= f < |entries| ==> EntryOk(entries[f], accesses[f], k, now)
  }

  /** What one access makes of a frame's entry. */
  function Accessed(e: Entry, now: nat, k: nat): (r: Entry) {
    var history := e.history + [now];
    Entry(if |history| > k then history[1..] else history, true, e.evictable)
  }

  lemma AccessOk(e: Entry, accesses: seq<nat>, k: nat, now: nat)
    requires k > 0 && EntryOk(e, accesses, k, now)
    ensures EntryOk(Accessed(e, now + 1, k), accesses + [now + 1], k, now + 1)
  {
    Remembered(accesses, now + 1, k);
  }

  lemma EntriesAccess(entries: seq<Entry>, accesses: seq<seq<nat>>, k: nat, now: nat, f: FrameId)
    requires k > 0 && |entries| == |accesses| && f < |entries| && EntriesOk(entries, accesses, k, now)
    requires StampsUnique(accesses)
    ensures EntriesOk(entries[f := Accessed(entries[f], now + 1, k)], accesses[f := accesses[f] + [now + 1]], k,
                      now + 1)
    ensures StampsUnique(accesses[f := accesses[f] + [now + 1]])
  {
    hide StampsUnique;
    AccessOk(entries[f], accesses[f], k, now);
    forall g, i | 0 <= g < |accesses| && 0 <= i < |accesses[g]| ensures accesses[g][i] < now + 1 {
      assert EntryOk(entries[g], accesses[g], k, now);
    }
    NewStamp(accesses, f, now + 1);
  }

  /** Every access has its own time. */
  ghost predicate StampsUnique(accesses: seq<seq<nat>>) {
    forall f, g, i, j ::
      (0 <= f < |accesses| && 0 <= g < |accesses| && f != g && 0 <= i < |accesses[f]| && 0 <= j < |accesses[g]|) ==>
        accesses[f][i] != accesses[g][j]
  }

  lemma DifferentStamps(accesses: seq<seq<nat>>, f: FrameId, g: FrameId, k: nat)
    requires StampsUnique(accesses) && f < |accesses| && g < |accesses| && f != g && accesses[f] != []
    requires accesses[g] != [] && k > 0
    ensures LastOf(accesses[f], k)[0] != LastOf(accesses[g], k)[0]
  {
    var i := if |accesses[f]| <= k then 0 else |accesses[f]| - k;
    var j := if |accesses[g]| <= k then 0 else |accesses[g]| - k;
    assert accesses[f][i] != accesses[g][j];
  }

  lemma Remembered(accesses: seq<nat>, stamp: nat, k: nat)
    requires k > 0
    ensures var h := LastOf(accesses, k) + [stamp];
            LastOf(accesses + [stamp], k) == if |h| > k then h[1..] else h
  {
  }

  lemma NewStamp(accesses: seq<seq<nat>>, f: FrameId, stamp: nat)
    requires StampsUnique(accesses) && f < |accesses|
    requires forall g, i :: 0 <= g < |accesses| && 0 <= i < |accesses[g]| ==> accesses[g][i] < stamp
    ensures StampsUnique(accesses[f := accesses[f] + [stamp]])
  {
  }

  lemma Cleared(accesses: seq<seq<nat>>, f: FrameId)
    requires StampsUnique(accesses) && f < |accesses|
    ensures StampsUnique(accesses[f := []])
  {
  }

  /** The candidate set follows the one entry that changed. */
  lemma CandidatesFollow(before: seq<Entry>, after: seq<Entry>, k: nat, f: FrameId, old': set<Candidate>,
                         new': set<Candidate>)
    requires f < |before| == |after| && after == before[f := after[f]]
    requires forall c :: c in old' <==> IsCandidate(before, k, c)
    requires before[f].evictable ==> before[f].history != []
    requires after[f].evictable ==> after[f].history != []
    requires var kept := if before[f].evictable then old' - {CandidateOf(before[f], k, f)} else old';
             new' == if after[f].evictable then kept + {CandidateOf(after[f], k, f)} else kept
    ensures forall c :: c in new' <==> IsCandidate(after, k, c)
  {
    forall c ensures c in new' <==> IsCandidate(after, k, c) {
      assert c in old' <==> IsCandidate(before, k, c);
    }
  }
}
