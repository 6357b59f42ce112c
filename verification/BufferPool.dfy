/** The buffer pool as a cache: frames over a flat map of pages. Logging is the business of the recovery
    model; here a page is its bytes without the PageLSN. */
module BufferPool {
  import opened Options
  import opened LruK

  type PageId = nat
  type Data = seq<bv8>

  const METADATA_PAGE: PageId := 0

  datatype Frame = Frame(pageId: PageId, data: Data, pins: nat, dirty: bool, valid: bool)

  const EMPTY_FRAME := Frame(METADATA_PAGE, [], 0, false, false)

  datatype Fetched = NoSuchPage | AllPinned | Pinned(frame: FrameId)

  // ---- Consistency of the parts ----

  ghost predicate TableOk(frames: seq<Frame>, table: map<PageId, FrameId>) {
    && (forall p :: p in table ==> table[p] < |frames| && frames[table[p]].valid && frames[table[p]].pageId == p)
    && (forall f :: 0 <= f < |frames| && frames[f].valid ==> frames[f].pageId in table && table[frames[f].pageId] == f)
  }

  ghost predicate FreeOk(frames: seq<Frame>, free: seq<FrameId>) {
    && (forall i :: 0 <= i < |free| ==> free[i] < |frames| && !frames[free[i]].valid)
    && (forall i, j :: 0 <= i < j < |free| ==> free[i] != free[j])
    && (forall f :: 0 <= f < |frames| && !frames[f].valid ==> f in free)
  }

  /** A frame is a candidate for eviction exactly when it holds a page nobody has pinned. */
  ghost predicate PinsOk(frames: seq<Frame>, entries: seq<Entry>) {
    && |entries| == |frames|
    && (forall f :: 0 <= f < |frames| ==>
          entries[f].tracked == frames[f].valid && entries[f].evictable == (frames[f].valid && frames[f].pins == 0))
  }

  /** A clean frame holds what the disk holds. */
  ghost predicate CleanOk(frames: seq<Frame>, disk: map<PageId, Data>) {
    forall f :: 0 <= f < |frames| && frames[f].valid ==>
      frames[f].pageId in disk && (!frames[f].dirty ==> disk[frames[f].pageId] == frames[f].data)
  }

  /** Pages are numbered from zero. */
  ghost predicate DiskOk(disk: map<PageId, Data>) {
    forall p :: 0 <= p < |disk| <==> p in disk
  }

  /** What readers see: the frame if the page is resident, the disk otherwise. */
  ghost function ViewOf(frames: seq<Frame>, table: map<PageId, FrameId>,
                        disk: map<PageId, Data>): (r: map<PageId, Data>)
    requires TableOk(frames, table)
  {
    map p | p in disk :: if p in table then frames[table[p]].data else disk[p]
  }

  // ---- Lemmas about one frame at a time ----

  /** A frame changes its page's bytes, pins or dirtiness, but stays the same page's. */
  lemma TableKeeps(frames: seq<Frame>, table: map<PageId, FrameId>, f: FrameId, frame: Frame)
    requires TableOk(frames, table) && f < |frames| && frames[f].valid && frame.valid
    requires frame.pageId == frames[f].pageId
    ensures TableOk(frames[f := frame], table)
  {
  }

  lemma TableDrops(frames: seq<Frame>, table: map<PageId, FrameId>, f: FrameId)
    requires TableOk(frames, table) && f < |frames| && frames[f].valid
    ensures TableOk(frames[f := EMPTY_FRAME], table - {frames[f].pageId})
  {
  }

  lemma TableAdds(frames: seq<Frame>, table: map<PageId, FrameId>, f: FrameId, frame: Frame)
    requires TableOk(frames, table) && f < |frames| && !frames[f].valid && frame.valid && frame.pageId !in table
    ensures TableOk(frames[f := frame], table[frame.pageId := f])
  {
  }

  lemma PinsSet(frames: seq<Frame>, entries: seq<Entry>, f: FrameId, frame: Frame, entry: Entry)
    requires PinsOk(frames, entries) && f < |frames|
    requires entry.tracked == frame.valid && entry.evictable == (frame.valid && frame.pins == 0)
    ensures PinsOk(frames[f := frame], entries[f := entry])
  {
  }

  lemma CleanSet(frames: seq<Frame>, disk: map<PageId, Data>, f: FrameId, frame: Frame)
    requires CleanOk(frames, disk) && f < |frames|
    requires frame.valid ==> frame.pageId in disk && (!frame.dirty ==> disk[frame.pageId] == frame.data)
    ensures CleanOk(frames[f := frame], disk)
  {
  }

  lemma FreeAdds(frames: seq<Frame>, free: seq<FrameId>, f: FrameId)
    requires FreeOk(frames, free) && f < |frames| && frames[f].valid
    ensures FreeOk(frames[f := EMPTY_FRAME], free + [f])
  {
    var frames', free' := frames[f := EMPTY_FRAME], free + [f];
    forall g | 0 <= g < |frames'| && !frames'[g].valid ensures g in free' {
      if g == f {
        assert free'[|free|] == f;
      }
    }
  }

  lemma FreeTakes(frames: seq<Frame>, free: seq<FrameId>, frame: Frame)
    requires FreeOk(frames, free) && free != [] && frame.valid
    ensures FreeOk(frames[free[0] := frame], free[1..])
  {
    var frames', free' := frames[free[0] := frame], free[1..];
    forall g | 0 <= g < |frames'| && !frames'[g].valid ensures g in free' {
      assert g in free;
      var i :| 0 <= i < |free| && free[i] == g;
      assert free'[i - 1] == g;
    }
  }

  class Pool {
    const replacer: Replacer
    var frames: seq<Frame>
    var pageTable: map<PageId, FrameId>
    var freeFrames: seq<FrameId>
    var disk: map<PageId, Data>

    ghost predicate Valid()
      reads this, replacer
    {
      && replacer.Valid() && 0 < |frames| == replacer.capacity
      && TableOk(frames, pageTable) && FreeOk(frames, freeFrames) && PinsOk(frames, replacer.entries)
      && CleanOk(frames, disk)
      && DiskOk(disk)
    }

    ghost function View(): (r: map<PageId, Data>)
      requires TableOk(frames, pageTable)
      reads this
    {
      ViewOf(frames, pageTable, disk)
    }

    constructor (frameCount: nat, k: nat, disk: map<PageId, Data>)
      requires frameCount > 0 && k > 0 && DiskOk(disk)
      ensures Valid() && fresh(replacer) && this.disk == disk && View() == disk && |frames| == frameCount
    {
      replacer := new Replacer(frameCount, k);
      frames := seq(frameCount, i => EMPTY_FRAME);
      pageTable, freeFrames, this.disk := map[], seq(frameCount, i requires 0 <= i < frameCount => i), disk;
      new;
      forall f | 0 <= f < frameCount ensures f in freeFrames {
        assert freeFrames[f] == f;
      }
    }

    /** The frame the replacement policy gives up for a new page. */
    ghost predicate LruKChoice(f: FrameId)
      requires replacer.Valid() && f < replacer.capacity
      reads this, replacer
    {
      && replacer.entries[f].evictable && replacer.accesses[f] != []
      && forall g :: 0 <= g < replacer.capacity && g != f && replacer.entries[g].evictable ==>
           replacer.accesses[g] != [] && GoesBefore(replacer.accesses[f], replacer.accesses[g], replacer.k)
    }

    /** A free frame, or else the policy's victim, which nobody has pinned. */
    method AvailableFrame() returns (res: Option<FrameId>)
      requires Valid()
      ensures res.None? <==> forall f :: 0 <= f < |frames| ==> frames[f].valid && frames[f].pins > 0
      ensures res.Some? ==>
                && res.value < |frames|
                && (if frames[res.value].valid
                    then frames[res.value].pins == 0 && freeFrames == [] && LruKChoice(res.value)
                    else freeFrames != [] && freeFrames[0] == res.value)
    {
      if freeFrames != [] {
        assert freeFrames[0] < |frames|;
        return Some(freeFrames[0]);
      }
      assert forall f :: 0 <= f < |frames| ==> frames[f].valid;
      res := replacer.Victim();
    }

    /** Writes a dirty, unpinned frame back. */
    method WriteBack(f: FrameId)
      requires Valid() && f < |frames| && frames[f].valid
      modifies this`frames, this`disk
      ensures Valid() && View() == old(View()) && disk.Keys == old(disk).Keys
      ensures disk[frames[f].pageId] == frames[f].data
      ensures frames == old(frames)[f := old(frames)[f].(dirty := false)]
    {
      hide FreeOk, TableOk, PinsOk, CleanOk, ViewOf, DiskOk, Replacer.Valid;
      var frame := frames[f];
      var clean := frame.(dirty := false);
      TableKeeps(frames, pageTable, f, clean);
      FreeSame(frames, freeFrames, f, clean);
      Flushed(frames, pageTable, disk, f, clean);
      PinsAt(frames, replacer.entries, f);
      PinsSet(frames, replacer.entries, f, clean, replacer.entries[f]);
      assert replacer.entries[f := replacer.entries[f]] == replacer.entries;
      disk := disk[frame.pageId := frame.data];
      frames := frames[f := clean];
    }

    /** Puts a page into a frame, pinned once, in place of a clean unpinned page or in the first free frame. */
    method InstallPage(f: FrameId, p: PageId, data: Data, dirty: bool)
      requires Valid() && f < |frames| && p in disk && p !in pageTable && (!dirty ==> disk[p] == data)
      requires if frames[f].valid then frames[f].pins == 0 && !frames[f].dirty
               else freeFrames != [] && freeFrames[0] == f
      modifies this`frames, this`pageTable, this`freeFrames, replacer
      ensures Valid() && View() == old(View())[p := data]
      ensures pageTable == InstalledTable(old(frames), old(pageTable), f, p)
      ensures frames == old(frames)[f := Frame(p, data, 1, dirty, true)]
    {
      hide FreeOk, TableOk, PinsOk, CleanOk, ViewOf, DiskOk, Replacer.Valid;
      var frame := frames[f];
      var installed := Frame(p, data, 1, dirty, true);
      InstallOk(frames, pageTable, freeFrames, f, installed);
      SeenInstalled(frames, pageTable, disk, f, installed);
      CleanSet(frames, disk, f, installed);
      ghost var entries0 := replacer.entries;
      PinsAt(frames, entries0, f);
      if frame.valid {
        var removed := replacer.Remove(f);
        pageTable := pageTable - {frame.pageId};
      } else {
        freeFrames := freeFrames[1..];
      }
      frames := frames[f := installed];
      pageTable := pageTable[p := f];
      Sizes(replacer);
      replacer.RecordAccess(f);
      Sizes(replacer);
      replacer.SetEvictable(f, false);
      PinsSet(old(frames), entries0, f, installed, replacer.entries[f]);
      assert replacer.entries == entries0[f := replacer.entries[f]];
    }

    /** Brings a page in and pins it, evicting if it must. Nothing readers see changes. */
    method FetchPage(p: PageId) returns (res: Fetched)
      requires Valid()
      modifies this, replacer
      ensures Valid() && View() == old(View()) && disk.Keys == old(disk).Keys
      ensures res.NoSuchPage? <==> p == METADATA_PAGE || p !in old(disk)
      ensures res.AllPinned? <==>
                && p != METADATA_PAGE && p in old(disk) && p !in old(pageTable)
                && forall f :: 0 <= f < |frames| ==> old(frames)[f].valid && old(frames)[f].pins > 0
      ensures res.Pinned? ==>
                && res.frame < |frames| == |old(frames)| && p in pageTable && pageTable[p] == res.frame
                && frames[res.frame].pins > 0
                && frames[res.frame].data == old(View())[p]
                && (forall g :: 0 <= g < |frames| && g != res.frame ==> frames[g] == old(frames)[g])
                && (p in old(pageTable) ==>
                     pageTable == old(pageTable) && frames[res.frame].pins == old(frames)[res.frame].pins + 1)
                && (p !in old(pageTable) && old(frames)[res.frame].valid ==>
                     old(frames)[res.frame].pins == 0 && old(LruKChoice(res.frame)))
      ensures !res.Pinned? ==> frames == old(frames) && disk == old(disk) && pageTable == old(pageTable)
    {
      hide FreeOk, TableOk, CleanOk, PinsOk, ViewOf, Replacer.Valid, Pool.LruKChoice;
      if p == METADATA_PAGE || p >= |disk| {
        return NoSuchPage;
      }
      if p in pageTable {
        var hit := pageTable[p];
        Hit(p);
        PinAgain(hit);
        return Pinned(hit);
      }
      var available := AvailableFrame();
      if available.None? {
        return AllPinned;
      }
      var f := available.value;
      ghost var seen: map<PageId, Data> := View();
      if frames[f].valid && frames[f].dirty {
        WriteBack(f);
      }
      NotResident(frames, pageTable, disk, p);
      InstallPage(f, p, disk[p], false);
      res := Pinned(f);
    }

    lemma Hit(p: PageId)
      requires Valid() && p in pageTable
      ensures p in View() && pageTable[p] < |frames| && frames[pageTable[p]].valid && frames[pageTable[p]].pageId == p
      ensures p in disk && View()[p] == frames[pageTable[p]].data
    {
    }

    /** One more pin on a resident page. */
    method PinAgain(f: FrameId)
      requires Valid() && f < |frames| && frames[f].valid
      modifies this`frames, replacer
      ensures Valid() && View() == old(View())
      ensures frames == old(frames)[f := old(frames)[f].(pins := old(frames)[f].pins + 1)]
    {
      hide FreeOk, TableOk, PinsOk, CleanOk, ViewOf, DiskOk, Replacer.Valid;
      var frame := frames[f];
      var pinned := frame.(pins := frame.pins + 1);
      SameFrame(f, pinned);
      ghost var entries0 := replacer.entries;
      PinsAt(frames, entries0, f);
      if frame.pins == 0 {
        replacer.SetEvictable(f, false);
      }
      frames := frames[f := pinned];
      Sizes(replacer);
      replacer.RecordAccess(f);
      PinsSet(old(frames), entries0, f, pinned, replacer.entries[f]);
      assert replacer.entries == entries0[f := replacer.entries[f]];
    }

    /** A frame whose page, bytes and cleanliness stay keeps everything but the pins as it was. */
    lemma SameFrame(f: FrameId, frame: Frame)
      requires Valid() && f < |frames| && frames[f].valid
      requires frame == frames[f].(pins := frame.pins)
      ensures TableOk(frames[f := frame], pageTable) && FreeOk(frames[f := frame], freeFrames)
      ensures CleanOk(frames[f := frame], disk)
      ensures ViewOf(frames[f := frame], pageTable, disk) == View()
    {
      hide PinsOk, ViewOf, Replacer.Valid;
      TableKeeps(frames, pageTable, f, frame);
      FreeSame(frames, freeFrames, f, frame);
      SeenSame(frames, pageTable, disk, f, frame);
    }

    method ReleasePin(f: FrameId)
      requires Valid() && f < |frames| && frames[f].valid && frames[f].pins > 0
      modifies this`frames, replacer
      ensures Valid() && View() == old(View())
      ensures frames == old(frames)[f := old(frames)[f].(pins := old(frames)[f].pins - 1)]
    {
      hide FreeOk, TableOk, PinsOk, CleanOk, ViewOf, DiskOk, Replacer.Valid;
      var frame := frames[f];
      var released := frame.(pins := frame.pins - 1);
      SameFrame(f, released);
      ghost var entries0 := replacer.entries;
      PinsAt(frames, entries0, f);
      frames := frames[f := released];
      if released.pins == 0 {
        replacer.SetEvictable(f, true);
      }
      PinsSet(old(frames), entries0, f, released, replacer.entries[f]);
      assert replacer.entries == entries0[f := replacer.entries[f]];
    }

    /** Changes a pinned page through a write guard. */
    method WritePage(f: FrameId, data: Data)
      requires Valid() && f < |frames| && frames[f].valid && frames[f].pins > 0
      modifies this`frames
      ensures Valid() && View() == old(View())[frames[f].pageId := data]
      ensures frames == old(frames)[f := old(frames)[f].(data := data, dirty := true)]
    {
      hide FreeOk, TableOk;
      var written := frames[f].(data := data, dirty := true);
      TableKeeps(frames, pageTable, f, written);
      FreeSame(frames, freeFrames, f, written);
      SeenWritten(frames, pageTable, disk, f, written);
      frames := frames[f := written];
    }

    /** Extends the database by one page of zeros and pins it. */
    method NewPage(zeros: Data) returns (res: Option<PageId>)
      requires Valid()
      modifies this, replacer
      ensures Valid()
      ensures res.None? <==> forall f :: 0 <= f < |old(frames)| ==> old(frames)[f].valid && old(frames)[f].pins > 0
      ensures res.None? ==> View() == old(View()) && disk == old(disk) && frames == old(frames)
      ensures res.Some? ==>
                res.value !in old(disk) && View() == old(View())[res.value := zeros] && res.value in pageTable
    {
      hide FreeOk, TableOk, CleanOk;
      var available := AvailableFrame();
      if available.None? {
        return None;
      }
      var f := available.value;
      if frames[f].valid && frames[f].dirty {
        WriteBack(f);
      }
      var p: PageId := |disk|;
      ghost var seen: map<PageId, Data> := View();
      Unmapped(frames, pageTable, disk, p);
      Extended(frames, pageTable, disk, p, zeros);
      disk := disk[p := zeros];
      InstallPage(f, p, zeros, true);
      Twice(seen, p, zeros);
      res := Some(p);
    }

    /** Writes one page back; refused while a dirty page is pinned. */
    method FlushPage(p: PageId) returns (ok: bool)
      requires Valid()
      modifies this`frames, this`disk
      ensures Valid() && View() == old(View())
      ensures ok <==>
                && p in old(pageTable)
                && (old(frames)[old(pageTable)[p]].dirty ==> old(frames)[old(pageTable)[p]].pins == 0)
      ensures ok ==> p in disk && disk[p] == View()[p]
    {
      hide FreeOk;
      if p !in pageTable {
        return false;
      }
      Hit(p);
      var f := pageTable[p];
      if frames[f].dirty {
        if frames[f].pins != 0 {
          return false;
        }
        WriteBack(f);
      }
      ok := true;
    }

    /** Writes every dirty page back: afterwards the disk is what readers see. */
    method FlushAll() returns (ok: bool)
      requires Valid()
      modifies this`frames, this`disk
      ensures Valid() && View() == old(View())
      ensures ok <==>
                forall f :: 0 <= f < |old(frames)| ==>
                     !(old(frames)[f].valid && old(frames)[f].dirty && old(frames)[f].pins != 0)
      ensures ok ==> disk == View()
    {
      hide FreeOk, TableOk, PinsOk, CleanOk, ViewOf, DiskOk, Replacer.Valid;
      ok := NoneBusy();
      if !ok {
        return;
      }
      ghost var seen, n := View(), |frames|;
      for i := 0 to |frames|
        invariant Valid() && View() == seen && |frames| == n
        invariant forall f :: 0 <= f < i ==> !frames[f].valid || !frames[f].dirty
      {
        if frames[i].valid && frames[i].dirty {
          WriteBack(i);
        }
      }
      AllClean(frames, pageTable, disk);
    }

    /** No dirty page is pinned. */
    method NoneBusy() returns (ok: bool)
      ensures ok <==> forall f :: 0 <= f < |frames| ==> !(frames[f].valid && frames[f].dirty && frames[f].pins != 0)
    {
      for i := 0 to |frames|
        invariant forall f :: 0 <= f < i ==> !(frames[f].valid && frames[f].dirty && frames[f].pins != 0)
      {
        if frames[i].valid && frames[i].dirty && frames[i].pins != 0 {
          return false;
        }
      }
      ok := true;
    }

    /** Drops a page's frame without writing it: readers see the disk again. */
    method DiscardPage(p: PageId) returns (ok: bool)
      requires Valid()
      modifies this, replacer
      ensures Valid() && disk == old(disk)
      ensures ok <==> p in old(pageTable) ==> old(frames)[old(pageTable)[p]].pins == 0
      ensures ok && p in disk ==> View() == old(View())[p := disk[p]]
      ensures !ok || p !in old(pageTable) ==> View() == old(View())
    {
      hide FreeOk, TableOk, PinsOk, CleanOk, ViewOf, DiskOk, Replacer.Valid;
      if p !in pageTable {
        SeenDisk(frames, pageTable, disk, p);
        return true;
      }
      Hit(p);
      var f := pageTable[p];
      if frames[f].pins != 0 {
        return false;
      }
      TableDrops(frames, pageTable, f);
      SeenDropped(frames, pageTable, disk, f);
      CleanDropped(frames, disk, f);
      FreeAdds(frames, freeFrames, f);
      PinsAt(frames, replacer.entries, f);
      PinsSet(frames, replacer.entries, f, EMPTY_FRAME, NO_ENTRY);
      var removed := replacer.Remove(f);
      pageTable := pageTable - {p};
      frames := frames[f := EMPTY_FRAME];
      freeFrames := freeFrames + [f];
      ok := true;
    }
  }

  ghost function InstalledTable(frames: seq<Frame>, table: map<PageId, FrameId>, f: FrameId,
                                p: PageId): (r: map<PageId, FrameId>)
    requires f < |frames|
  {
    (if frames[f].valid then table - {frames[f].pageId} else table)[p := f]
  }

  lemma InstallOk(frames: seq<Frame>, table: map<PageId, FrameId>, free: seq<FrameId>, f: FrameId, frame: Frame)
    requires TableOk(frames, table) && FreeOk(frames, free) && f < |frames| && frame.valid && frame.pageId !in table
    requires !frames[f].valid ==> free != [] && free[0] == f
    ensures TableOk(frames[f := frame], InstalledTable(frames, table, f, frame.pageId))
    ensures FreeOk(frames[f := frame], if frames[f].valid then free else free[1..])
  {
    if frames[f].valid {
      TableDrops(frames, table, f);
      assert frames[f := EMPTY_FRAME][f := frame] == frames[f := frame];
      TableAdds(frames[f := EMPTY_FRAME], table - {frames[f].pageId}, f, frame);
      FreeSame(frames, free, f, frame);
    } else {
      TableAdds(frames, table, f, frame);
      FreeTakes(frames, free, frame);
    }
  }

  /** Installing a page in place of a clean one changes only what is seen of that page. */
  lemma SeenInstalled(frames: seq<Frame>, table: map<PageId, FrameId>, disk: map<PageId, Data>, f: FrameId,
                      frame: Frame)
    requires TableOk(frames, table) && CleanOk(frames, disk) && f < |frames| && (frames[f].valid ==> !frames[f].dirty)
    requires frame.valid && frame.pageId !in table && frame.pageId in disk
    requires TableOk(frames[f := frame], InstalledTable(frames, table, f, frame.pageId))
    ensures ViewOf(frames[f := frame], InstalledTable(frames, table, f, frame.pageId), disk) ==
              ViewOf(frames, table, disk)[frame.pageId := frame.data]
  {
    var table' := InstalledTable(frames, table, f, frame.pageId);
    var before, after := ViewOf(frames, table, disk), ViewOf(frames[f := frame], table', disk);
    forall q | q in disk && q != frame.pageId ensures after[q] == before[q] {
      if q in table && table[q] == f {
        assert frames[f].pageId == q && disk[q] == frames[f].data && q !in table';
      } else {
        assert q in table' <==> q in table;
      }
    }
  }

  lemma SeenSame(frames: seq<Frame>, table: map<PageId, FrameId>, disk: map<PageId, Data>, f: FrameId, frame: Frame)
    requires TableOk(frames, table) && f < |frames| && frame.data == frames[f].data
    requires TableOk(frames[f := frame], table)
    ensures ViewOf(frames[f := frame], table, disk) == ViewOf(frames, table, disk)
  {
  }

  lemma SeenWritten(frames: seq<Frame>, table: map<PageId, FrameId>, disk: map<PageId, Data>, f: FrameId, frame: Frame)
    requires TableOk(frames, table) && CleanOk(frames, disk) && f < |frames| && frames[f].valid
    requires frame.valid && frame.pageId == frames[f].pageId && TableOk(frames[f := frame], table)
    ensures ViewOf(frames[f := frame], table, disk) == ViewOf(frames, table, disk)[frame.pageId := frame.data]
  {
    var before, after := ViewOf(frames, table, disk), ViewOf(frames[f := frame], table, disk);
    forall q | q in disk && q != frame.pageId ensures after[q] == before[q] {
      assert q in table ==> table[q] != f;
    }
  }

  lemma NotResident(frames: seq<Frame>, table: map<PageId, FrameId>, disk: map<PageId, Data>, p: PageId)
    requires TableOk(frames, table) && p in disk && p !in table
    ensures p in ViewOf(frames, table, disk) && ViewOf(frames, table, disk)[p] == disk[p]
    ensures ViewOf(frames, table, disk)[p := disk[p]] == ViewOf(frames, table, disk)
  {
  }

  lemma SeenDisk(frames: seq<Frame>, table: map<PageId, FrameId>, disk: map<PageId, Data>, p: PageId)
    requires TableOk(frames, table) && p !in table
    ensures p in disk ==> ViewOf(frames, table, disk)[p := disk[p]] == ViewOf(frames, table, disk)
  {
  }

  /** Every resident page exists, so a page past the end is not resident. */
  lemma Unmapped(frames: seq<Frame>, table: map<PageId, FrameId>, disk: map<PageId, Data>, p: PageId)
    requires TableOk(frames, table) && CleanOk(frames, disk) && p !in disk
    ensures p !in table
  {
  }

  lemma Extended(frames: seq<Frame>, table: map<PageId, FrameId>, disk: map<PageId, Data>, p: PageId, data: Data)
    requires TableOk(frames, table) && CleanOk(frames, disk) && p !in disk && p !in table
    ensures CleanOk(frames, disk[p := data])
    ensures ViewOf(frames, table, disk[p := data]) == ViewOf(frames, table, disk)[p := data]
    ensures |disk[p := data]| == |disk| + 1
  {
  }

  lemma AllClean(frames: seq<Frame>, table: map<PageId, FrameId>, disk: map<PageId, Data>)
    requires TableOk(frames, table) && CleanOk(frames, disk)
    requires forall f :: 0 <= f < |frames| ==> !frames[f].valid || !frames[f].dirty
    ensures ViewOf(frames, table, disk) == disk
  {
  }

  lemma SeenDropped(frames: seq<Frame>, table: map<PageId, FrameId>, disk: map<PageId, Data>, f: FrameId)
    requires TableOk(frames, table) && CleanOk(frames, disk) && f < |frames| && frames[f].valid
    requires TableOk(frames[f := EMPTY_FRAME], table - {frames[f].pageId})
    ensures ViewOf(frames[f := EMPTY_FRAME], table - {frames[f].pageId}, disk) ==
            ViewOf(frames, table, disk)[frames[f].pageId := disk[frames[f].pageId]]
  {
    var p := frames[f].pageId;
    var before, after := ViewOf(frames, table, disk), ViewOf(frames[f := EMPTY_FRAME], table - {p}, disk);
    forall q | q in disk && q != p ensures after[q] == before[q] {
      assert q in table ==> table[q] != f;
    }
  }

  lemma CleanDropped(frames: seq<Frame>, disk: map<PageId, Data>, f: FrameId)
    requires CleanOk(frames, disk) && f < |frames|
    ensures CleanOk(frames[f := EMPTY_FRAME], disk)
  {
  }

  /** Writing a frame's bytes to the disk changes nothing readers see. */
  lemma Flushed(frames: seq<Frame>, table: map<PageId, FrameId>, disk: map<PageId, Data>, f: FrameId, clean: Frame)
    requires TableOk(frames, table) && CleanOk(frames, disk) && DiskOk(disk) && f < |frames| && frames[f].valid
    requires clean == frames[f].(dirty := false) && TableOk(frames[f := clean], table)
    ensures clean.pageId in disk && disk[clean.pageId := clean.data].Keys == disk.Keys
    ensures DiskOk(disk[clean.pageId := clean.data])
    ensures CleanOk(frames[f := clean], disk[clean.pageId := clean.data])
    ensures ViewOf(frames[f := clean], table, disk[clean.pageId := clean.data]) == ViewOf(frames, table, disk)
  {
    var p, disk' := clean.pageId, disk[clean.pageId := clean.data];
    Mapped(frames, table, f);
    assert disk'.Keys == disk.Keys;
    SameSize(disk, disk');
    forall g | 0 <= g < |frames| && g != f && frames[g].valid ensures frames[g].pageId != p {
      Mapped(frames, table, g);
    }
  }

  lemma PinsAt(frames: seq<Frame>, entries: seq<Entry>, f: FrameId)
    requires PinsOk(frames, entries) && f < |frames|
    ensures |entries| == |frames| && entries[f].tracked == frames[f].valid
    ensures entries[f].evictable == (frames[f].valid && frames[f].pins == 0)
  {
  }

  lemma Sizes(replacer: Replacer)
    requires replacer.Valid()
    ensures |replacer.entries| == |replacer.accesses| == replacer.capacity
  {
  }

  lemma Twice(seen: map<PageId, Data>, p: PageId, data: Data)
    ensures seen[p := data][p := data] == seen[p := data]
  {
  }

  lemma Mapped(frames: seq<Frame>, table: map<PageId, FrameId>, f: FrameId)
    requires TableOk(frames, table) && f < |frames| && frames[f].valid
    ensures frames[f].pageId in table && table[frames[f].pageId] == f
  {
  }

  lemma FreeSame(frames: seq<Frame>, free: seq<FrameId>, f: FrameId, frame: Frame)
    requires FreeOk(frames, free) && f < |frames| && frames[f].valid == frame.valid
    ensures FreeOk(frames[f := frame], free)
  {
  }

  lemma SameSize(a: map<PageId, Data>, b: map<PageId, Data>)
    requires a.Keys == b.Keys
    ensures |a| == |b|
  {
    assert |a| == |a.Keys| && |b| == |b.Keys|;
  }
}
