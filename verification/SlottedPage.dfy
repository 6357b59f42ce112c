/** The slotted page: a fixed byte page with a header, tuples packed behind it, and a directory of slots
    growing from the end. Its bytes, rewritten in place, stand for a map from slots to tuples. */
module SlottedPage {
  import opened Options
  import opened PageDelta

  const HEADER_SIZE: nat := 48
  const SLOT_COUNT_OFFSET: nat := 16
  const LIVE_COUNT_OFFSET: nat := 18
  const LOWER_BOUNDARY_OFFSET: nat := 20
  const UPPER_BOUNDARY_OFFSET: nat := 22
  const FIELDS_END: nat := 24
  const LINKS_SIZE: nat := 12
  const PAGE_LSN_OFFSET: nat := 36
  const PAGE_LSN_END: nat := 44
  const CURRENT_VERSION: Long := 1
  const SLOT_SIZE: nat := 8
  const MAX_SLOT_COUNT: nat := (PAGE_SIZE - HEADER_SIZE) / SLOT_SIZE
  const MAX_TUPLE_SIZE: nat := PAGE_SIZE - HEADER_SIZE - SLOT_SIZE
  const SLOT_FREE: nat := 0
  const SLOT_LIVE: nat := 1

  type Word = w: nat | w < 65536

  type Long = w: nat | w < 4294967296

  type SlotId = i: nat | i < MAX_SLOT_COUNT

  datatype Error = InvalidTuple | NoSuchSlot | NotOccupied | NoSpace | DirectoryFull

  datatype Result<T> = Ok(value: T) | Err(error: Error)

  // ---- Bytes ----

  /** Two little-endian bytes. */
  function Read16(b: Body, o: nat): (w: Word)
    requires o + 2 <= PAGE_SIZE
  {
    b[o] as nat + 256 * (b[o + 1] as nat)
  }

  function Bytes16(w: Word): (s: seq<Byte>)
    ensures |s| == 2
  {
    [(w % 256) as Byte, (w / 256) as Byte]
  }

  ghost predicate SameOn(b: Body, b': Body, from: int, to: int) {
    forall o :: 0 <= o < PAGE_SIZE && from <= o < to ==> b'[o] == b[o]
  }

  lemma Splices(b: Body, offset: nat, s: seq<Byte>)
    requires offset + |s| <= PAGE_SIZE
    ensures var b' := Splice(b, offset, s);
            SameOn(b, b', 0, offset) && SameOn(b, b', offset + |s|, PAGE_SIZE) && b'[offset..offset + |s|] == s
  {
  }

  lemma RoundTrip16(b: Body, offset: nat, w: Word)
    requires offset + 2 <= PAGE_SIZE
    ensures Read16(Splice(b, offset, Bytes16(w)), offset) == w
  {
    SpliceAt(b, offset, Bytes16(w), offset);
    SpliceAt(b, offset, Bytes16(w), offset + 1);
  }

  lemma SameRead(b: Body, b': Body, o: nat)
    requires o + 2 <= PAGE_SIZE && SameOn(b, b', o, o + 2)
    ensures Read16(b', o) == Read16(b, o)
  {
  }

  /** Four little-endian bytes. */
  function Read32(b: Body, o: nat): (w: Long)
    requires o + 4 <= PAGE_SIZE
  {
    Read16(b, o) + 65536 * Read16(b, o + 2)
  }

  function Bytes32(w: Long): (s: seq<Byte>)
    ensures |s| == 4
  {
    Bytes16(w % 65536) + Bytes16(w / 65536)
  }

  lemma Reads32(b: Body, o: nat, w: Long)
    requires o + 4 <= PAGE_SIZE && b[o..o + 4] == Bytes32(w)
    ensures Read32(b, o) == w
  {
    var t := Bytes32(w);
    assert forall k :: 0 <= k < 4 ==> b[o + k] == b[o..o + 4][k] == t[k];
    assert b[o] == t[0] && b[o + 1] == t[1] && b[o + 2] == t[2] && b[o + 3] == t[3];
  }

  lemma SameRead32(b: Body, b': Body, o: nat)
    requires o + 4 <= PAGE_SIZE && SameOn(b, b', o, o + 4)
    ensures Read32(b', o) == Read32(b, o)
  {
    hide Read16;
    SameRead(b, b', o);
    SameRead(b, b', o + 2);
  }

  // ---- Identity and links ----

  type PageId = Long

  const METADATA_PAGE: PageId := 0
  const INVALID_PAGE: PageId := 4294967295
  const MAGIC: seq<Byte> := [77, 68, 66, 83, 76, 84, 80, 71]

  datatype Links = Links(next: PageId, previous: PageId, heap: PageId)

  function LinksOf(b: Body): (l: Links) {
    Links(Read32(b, FIELDS_END), Read32(b, FIELDS_END + 4), Read32(b, FIELDS_END + 8))
  }

  function LinkBytes(l: Links): (s: seq<Byte>)
    ensures |s| == LINKS_SIZE
  {
    Bytes32(l.next) + Bytes32(l.previous) + Bytes32(l.heap)
  }

  /** An existing page that is neither the metadata page nor the excluded one. */
  predicate DataPage(pageCount: PageId, p: PageId, excluded: PageId) {
    p != METADATA_PAGE && p != INVALID_PAGE && p != excluded && p < pageCount
  }

  predicate LinkOk(pageCount: PageId, pageId: PageId, heap: PageId, link: PageId) {
    link != INVALID_PAGE ==> DataPage(pageCount, link, pageId) && link != heap
  }

  predicate LinksOk(pageCount: PageId, pageId: PageId, l: Links) {
    && DataPage(pageCount, l.heap, pageId)
    && LinkOk(pageCount, pageId, l.heap, l.next) && LinkOk(pageCount, pageId, l.heap, l.previous)
    && (l.next != INVALID_PAGE ==> l.next != l.previous)
  }

  /** The PageLSN is not the value that stands for none in memory. */
  predicate LsnOk(b: Body) {
    exists o :: PAGE_LSN_OFFSET <= o < PAGE_LSN_END && b[o] != 255
  }

  /** A slotted page by its first bytes: magic, version, header size, a readable PageLSN, blank reserved bytes. */
  predicate SlottedHeader(b: Body) {
    && b[..8] == MAGIC && Read32(b, 8) == CURRENT_VERSION && Read32(b, 12) == HEADER_SIZE
    && LsnOk(b) && forall o :: PAGE_LSN_END <= o < HEADER_SIZE ==> b[o] == 0
  }

  predicate Identified(b: Body, pageId: PageId, pageCount: PageId) {
    SlottedHeader(b) && LinksOk(pageCount, pageId, LinksOf(b))
  }

  /** Bytes that no operation on tuples writes decide the identity. */
  lemma IdentityKept(b: Body, b': Body, pageId: PageId, pageCount: PageId)
    requires SameOn(b, b', 0, SLOT_COUNT_OFFSET) && SameOn(b, b', FIELDS_END, HEADER_SIZE)
    ensures Identified(b', pageId, pageCount) == Identified(b, pageId, pageCount) && LinksOf(b') == LinksOf(b)
  {
    hide Read32;
    SameRead32(b, b', 8);
    SameRead32(b, b', 12);
    SameRead32(b, b', FIELDS_END);
    SameRead32(b, b', FIELDS_END + 4);
    SameRead32(b, b', FIELDS_END + 8);
    assert b'[..8] == b[..8];
    LsnKept(b, b');
    LsnKept(b', b);
  }

  lemma LsnKept(b: Body, b': Body)
    requires SameOn(b, b', FIELDS_END, HEADER_SIZE)
    ensures LsnOk(b) ==> LsnOk(b')
  {
    if o :| PAGE_LSN_OFFSET <= o < PAGE_LSN_END && b[o] != 255 {
      assert b'[o] == b[o];
    }
  }

  /** The first bytes of a new page. */
  function Identity(): (s: seq<Byte>)
    ensures |s| == SLOT_COUNT_OFFSET
  {
    MAGIC + Bytes32(CURRENT_VERSION) + Bytes32(HEADER_SIZE)
  }

  lemma NewIdentity(b: Body, l: Links)
    requires b[..SLOT_COUNT_OFFSET] == Identity() && b[FIELDS_END..FIELDS_END + LINKS_SIZE] == LinkBytes(l)
    requires forall o :: FIELDS_END + LINKS_SIZE <= o < HEADER_SIZE ==> b[o] == 0
    ensures SlottedHeader(b) && LinksOf(b) == l
  {
    hide Bytes32, Read32;
    var first, rest := b[..SLOT_COUNT_OFFSET], b[FIELDS_END..FIELDS_END + LINKS_SIZE];
    assert b[..8] == first[..8] && b[8..12] == first[8..12] && b[12..16] == first[12..16];
    Reads32(b, 8, CURRENT_VERSION);
    Reads32(b, 12, HEADER_SIZE);
    assert b[24..28] == rest[0..4] && b[28..32] == rest[4..8] && b[32..36] == rest[8..12];
    Reads32(b, 24, l.next);
    Reads32(b, 28, l.previous);
    Reads32(b, 32, l.heap);
    assert b[PAGE_LSN_OFFSET] != 255;
  }

  // ---- Header and directory ----

  datatype Header = Header(count: Word, live: Word, lower: Word, upper: Word)

  function HeaderOf(b: Body): (h: Header) {
    Header(Read16(b, SLOT_COUNT_OFFSET), Read16(b, LIVE_COUNT_OFFSET),
           Read16(b, LOWER_BOUNDARY_OFFSET), Read16(b, UPPER_BOUNDARY_OFFSET))
  }

  datatype Slot = Slot(offset: Word, length: Word, flags: Word, reserved: Word)

  const FREE_SLOT := Slot(0, 0, SLOT_FREE, 0)

  function SlotOffset(i: SlotId): (o: nat)
    ensures HEADER_SIZE <= o && o + SLOT_SIZE <= PAGE_SIZE
  {
    PAGE_SIZE - (i + 1) * SLOT_SIZE
  }

  function SlotAt(b: Body, i: SlotId): (s: Slot) {
    var o := SlotOffset(i);
    Slot(Read16(b, o), Read16(b, o + 2), Read16(b, o + 4), Read16(b, o + 6))
  }

  function BytesOf(s: Slot): (bytes: seq<Byte>)
    ensures |bytes| == SLOT_SIZE
  {
    Bytes16(s.offset) + Bytes16(s.length) + Bytes16(s.flags) + Bytes16(s.reserved)
  }

  lemma SameSlot(b: Body, b': Body, i: SlotId)
    requires SameOn(b, b', SlotOffset(i), SlotOffset(i) + SLOT_SIZE)
    ensures SlotAt(b', i) == SlotAt(b, i)
  {
    hide Read16;
    var o := SlotOffset(i);
    SameRead(b, b', o);
    SameRead(b, b', o + 2);
    SameRead(b, b', o + 4);
    SameRead(b, b', o + 6);
  }

  lemma SameHeader(b: Body, b': Body)
    requires SameOn(b, b', SLOT_COUNT_OFFSET, FIELDS_END)
    ensures HeaderOf(b') == HeaderOf(b)
  {
    hide Read16;
    SameRead(b, b', SLOT_COUNT_OFFSET);
    SameRead(b, b', LIVE_COUNT_OFFSET);
    SameRead(b, b', LOWER_BOUNDARY_OFFSET);
    SameRead(b, b', UPPER_BOUNDARY_OFFSET);
  }

  /** Everything but the four header fields is as it was. */
  ghost predicate SameBody(b: Body, b': Body) {
    SameOn(b, b', 0, SLOT_COUNT_OFFSET) && SameOn(b, b', FIELDS_END, PAGE_SIZE)
  }

  lemma SameSlots(b: Body, b': Body)
    requires SameBody(b, b')
    ensures forall i: SlotId :: SlotAt(b', i) == SlotAt(b, i)
  {
    hide SlotAt;
    forall i: SlotId ensures SlotAt(b', i) == SlotAt(b, i) {
      SameSlot(b, b', i);
    }
  }

  lemma PutField(b: Body, o: nat, w: Word)
    requires o in {SLOT_COUNT_OFFSET, LIVE_COUNT_OFFSET, LOWER_BOUNDARY_OFFSET, UPPER_BOUNDARY_OFFSET}
    ensures var b', h := Splice(b, o, Bytes16(w)), HeaderOf(b);
            && SameBody(b, b')
            && HeaderOf(b') == if o == SLOT_COUNT_OFFSET then h.(count := w)
                               else if o == LIVE_COUNT_OFFSET then h.(live := w)
                               else if o == LOWER_BOUNDARY_OFFSET then h.(lower := w)
                               else h.(upper := w)
  {
    hide Read16, Bytes16, Splice;
    var b' := Splice(b, o, Bytes16(w));
    Splices(b, o, Bytes16(w));
    RoundTrip16(b, o, w);
    forall p | p in {SLOT_COUNT_OFFSET, LIVE_COUNT_OFFSET, LOWER_BOUNDARY_OFFSET, UPPER_BOUNDARY_OFFSET} && p != o
      ensures Read16(b', p) == Read16(b, p)
    {
      SameRead(b, b', p);
    }
  }

  lemma SlotsApart(i: SlotId, j: SlotId)
    requires i != j
    ensures SlotOffset(i) + SLOT_SIZE <= SlotOffset(j) || SlotOffset(j) + SLOT_SIZE <= SlotOffset(i)
  {
  }

  lemma PutSlot(b: Body, i: SlotId, s: Slot)
    ensures var b' := Splice(b, SlotOffset(i), BytesOf(s));
            && HeaderOf(b') == HeaderOf(b) && SlotAt(b', i) == s && SameOn(b, b', 0, SlotOffset(i))
            && (forall j: SlotId :: j != i ==> SlotAt(b', j) == SlotAt(b, j))
  {
    hide HeaderOf, Splice;
    var o := SlotOffset(i);
    var b' := Splice(b, o, BytesOf(s));
    Splices(b, o, BytesOf(s));
    SameHeader(b, b');
    ReadBack(b', o, s);
    forall j: SlotId | j != i ensures SlotAt(b', j) == SlotAt(b, j) {
      SlotsApart(i, j);
      SameSlot(b, b', j);
    }
  }

  lemma ReadBack(b: Body, o: nat, s: Slot)
    requires o + SLOT_SIZE <= PAGE_SIZE && b[o..o + SLOT_SIZE] == BytesOf(s)
    ensures Slot(Read16(b, o), Read16(b, o + 2), Read16(b, o + 4), Read16(b, o + 6)) == s
  {
    var t := BytesOf(s);
    assert forall k :: 0 <= k < SLOT_SIZE ==> b[o + k] == b[o..o + SLOT_SIZE][k] == t[k];
    assert b[o] == t[0] && b[o + 1] == t[1] && b[o + 2] == t[2] && b[o + 3] == t[3];
    assert b[o + 4] == t[4] && b[o + 5] == t[5] && b[o + 6] == t[6] && b[o + 7] == t[7];
  }

  /** A write below the directory leaves header and slots alone. */
  lemma PutPayload(b: Body, b': Body, count: nat)
    requires count <= MAX_SLOT_COUNT
    requires SameOn(b, b', 0, HEADER_SIZE) && SameOn(b, b', PAGE_SIZE - SLOT_SIZE * count, PAGE_SIZE)
    ensures HeaderOf(b') == HeaderOf(b)
    ensures forall i: SlotId :: i < count ==> SlotAt(b', i) == SlotAt(b, i)
  {
    hide HeaderOf, SlotAt;
    SameHeader(b, b');
    forall i: SlotId | i < count ensures SlotAt(b', i) == SlotAt(b, i) {
      SameSlot(b, b', i);
    }
  }

  // ---- What a well-formed page is ----

  predicate Live(b: Body, i: SlotId) {
    i < HeaderOf(b).count && SlotAt(b, i).flags == SLOT_LIVE
  }

  /** A free slot is blank; a live one holds a tuple. */
  predicate SlotOk(s: Slot) {
    if s.flags == SLOT_FREE then s == FREE_SLOT else s.flags == SLOT_LIVE && s.reserved == 0 && s.length > 0
  }

  predicate Distinct(order: seq<SlotId>) {
    forall i, j :: 0 <= i < j < |order| ==> order[i] != order[j]
  }

  /** The live slots, each once. */
  ghost predicate Enumerates(b: Body, order: seq<SlotId>) {
    Distinct(order) && forall i: SlotId :: i in order <==> Live(b, i)
  }

  function End(b: Body, i: SlotId): (e: nat) {
    SlotAt(b, i).offset + SlotAt(b, i).length
  }

  /** The tuples lie one behind the other, without gap or overlap, from the header to the lower boundary. */
  predicate Packed(b: Body, order: seq<SlotId>) {
    if order == [] then HeaderOf(b).lower == HEADER_SIZE
    else
      && SlotAt(b, order[0]).offset == HEADER_SIZE && HeaderOf(b).lower == End(b, order[|order| - 1])
      && forall k :: 0 < k < |order| ==> Follows(b, order, k)
  }

  predicate Follows(b: Body, order: seq<SlotId>, k: nat)
    requires 0 < k < |order|
  {
    SlotAt(b, order[k]).offset == End(b, order[k - 1])
  }

  predicate BoundsOk(h: Header) {
    && h.count <= MAX_SLOT_COUNT && h.live <= h.count
    && h.upper == PAGE_SIZE - SLOT_SIZE * h.count && HEADER_SIZE <= h.lower <= h.upper
  }

  predicate SlotsOk(b: Body) {
    forall i: SlotId :: i < HeaderOf(b).count ==> SlotOk(SlotAt(b, i))
  }

  predicate Zeroed(b: Body, from: int, to: int) {
    forall o :: 0 <= o < PAGE_SIZE && from <= o < to ==> b[o] == 0
  }

  /** A well-formed page, with its tuples in the order of their bytes. */
  ghost predicate Layout(b: Body, order: seq<SlotId>) {
    var h := HeaderOf(b);
    && BoundsOk(h) && SlotsOk(b) && Enumerates(b, order) && h.live == |order| && Packed(b, order)
    && Zeroed(b, h.lower, h.upper)
  }

  /** The tuple of a slot. */
  function TupleAt(b: Body, i: SlotId): (t: seq<Byte>)
    requires End(b, i) <= PAGE_SIZE
  {
    b[SlotAt(b, i).offset..End(b, i)]
  }

  /** What the bytes stand for. */
  ghost function Tuples(b: Body): (m: map<SlotId, seq<Byte>>) {
    map i: SlotId | Live(b, i) && End(b, i) <= PAGE_SIZE :: TupleAt(b, i)
  }

  // ---- Where the tuples lie ----

  /** The bytes of a tuple lie in the payload, and later tuples behind earlier ones. */
  lemma {:induction false} PackedFrom(b: Body, order: seq<SlotId>, k: nat)
    requires Packed(b, order) && k < |order|
    ensures HEADER_SIZE <= SlotAt(b, order[k]).offset
  {
    if k > 0 {
      PackedFrom(b, order, k - 1);
      assert Follows(b, order, k);
    }
  }

  lemma {:induction false} PackedTo(b: Body, order: seq<SlotId>, k: nat)
    requires Packed(b, order) && k < |order|
    ensures End(b, order[k]) <= HeaderOf(b).lower
    decreases |order| - k
  {
    hide HeaderOf, SlotAt;
    if k + 1 < |order| {
      PackedTo(b, order, k + 1);
      assert Follows(b, order, k + 1);
    }
  }

  lemma {:induction false} PackedApart(b: Body, order: seq<SlotId>, j: nat, k: nat)
    requires Packed(b, order) && j < k < |order|
    ensures End(b, order[j]) <= SlotAt(b, order[k]).offset
  {
    hide HeaderOf, SlotAt;
    assert Follows(b, order, k);
    if j < k - 1 {
      PackedApart(b, order, j, k - 1);
    }
  }

  lemma LiveRange(b: Body, order: seq<SlotId>, i: SlotId)
    requires Layout(b, order) && Live(b, i)
    ensures SlotAt(b, i).length > 0 && HEADER_SIZE <= SlotAt(b, i).offset
    ensures End(b, i) <= HeaderOf(b).lower <= HeaderOf(b).upper <= PAGE_SIZE
  {
    hide SlotAt, HeaderOf;
    var k :| 0 <= k < |order| && order[k] == i;
    PackedFrom(b, order, k);
    PackedTo(b, order, k);
    assert SlotOk(SlotAt(b, i));
  }

  lemma TupleIs(b: Body, order: seq<SlotId>, i: SlotId)
    requires Layout(b, order)
    ensures i in Tuples(b) <==> Live(b, i)
    ensures i in Tuples(b) ==> End(b, i) <= PAGE_SIZE && Tuples(b)[i] == TupleAt(b, i)
  {
    hide SlotAt, HeaderOf, Layout;
    if Live(b, i) {
      LiveRange(b, order, i);
    }
  }

  // ---- Space ----

  /** The bytes of the tuples of some slots below n. */
  ghost function Used(b: Body, n: nat, slots: set<SlotId>): (bytes: nat)
    requires n <= MAX_SLOT_COUNT
  {
    if n == 0 then 0
    else Used(b, n - 1, slots) + if (n - 1) in slots then SlotAt(b, n - 1).length else 0
  }

  lemma {:induction false} UsedAdd(b: Body, n: nat, slots: set<SlotId>, i: SlotId)
    requires n <= MAX_SLOT_COUNT && i !in slots
    ensures Used(b, n, slots + {i}) == Used(b, n, slots) + if i < n then SlotAt(b, i).length else 0
  {
    hide SlotAt;
    if n > 0 {
      UsedAdd(b, n - 1, slots, i);
    }
  }

  lemma {:induction false} UsedNone(b: Body, n: nat)
    requires n <= MAX_SLOT_COUNT
    ensures Used(b, n, {}) == 0
  {
    hide SlotAt;
    if n > 0 {
      UsedNone(b, n - 1);
    }
  }

  ghost function SlotsOf(order: seq<SlotId>): (s: set<SlotId>) { set i | i in order }

  lemma {:induction false} PackedUsed(b: Body, order: seq<SlotId>, k: nat)
    requires Packed(b, order) && Distinct(order) && k <= |order| && HeaderOf(b).count <= MAX_SLOT_COUNT
    requires forall i :: i in order ==> i < HeaderOf(b).count
    ensures var used := Used(b, HeaderOf(b).count, SlotsOf(order[..k]));
            HEADER_SIZE + used == if k == 0 then HEADER_SIZE else End(b, order[k - 1])
  {
    hide SlotAt, HeaderOf, Used;
    if k == 0 {
      assert SlotsOf(order[..0]) == {};
      UsedNone(b, HeaderOf(b).count);
    } else {
      PackedUsed(b, order, k - 1);
      var i := order[k - 1];
      assert order[..k] == order[..k - 1] + [i];
      assert SlotsOf(order[..k]) == SlotsOf(order[..k - 1]) + {i};
      assert i in order;
      UsedAdd(b, HeaderOf(b).count, SlotsOf(order[..k - 1]), i);
      if k > 1 {
        assert Follows(b, order, k - 1);
      }
    }
  }

  /** Header, tuples, free space and directory add up to the page. */
  lemma SpaceAddsUp(b: Body, order: seq<SlotId>)
    requires Layout(b, order)
    ensures var h := HeaderOf(b);
            && HEADER_SIZE + Used(b, h.count, SlotsOf(order)) == h.lower
            && HEADER_SIZE + Used(b, h.count, SlotsOf(order)) + (h.upper - h.lower) + SLOT_SIZE * h.count == PAGE_SIZE
  {
    hide SlotAt, HeaderOf, Used;
    forall i | i in order ensures i < HeaderOf(b).count {
      assert Live(b, i);
    }
    PackedUsed(b, order, |order|);
    assert order[..|order|] == order;
  }

  // ---- Insertion ----

  predicate HasFree(b: Body) {
    exists i: SlotId :: i < HeaderOf(b).count && SlotAt(b, i).flags == SLOT_FREE
  }

  /** A tuple needs its bytes, and a new slot if no free one can be reused. */
  predicate Fits(b: Body, size: nat) {
    var h := HeaderOf(b);
    0 < size <= MAX_TUPLE_SIZE && size + (if HasFree(b) then 0 else SLOT_SIZE) <= h.upper - h.lower
  }

  /** The bytes after an insertion into slot i. */
  ghost predicate InsertedInto(b: Body, b': Body, i: SlotId, t: seq<Byte>) {
    var h := HeaderOf(b);
    && i <= h.count && 0 < |t| && h.live < MAX_SLOT_COUNT && h.lower + |t| <= PAGE_SIZE
    && HeaderOf(b') == (if i < h.count then h.(live := h.live + 1, lower := h.lower + |t|)
                        else Header(i + 1, h.live + 1, h.lower + |t|, PAGE_SIZE - SLOT_SIZE * (i + 1)))
    && h.lower + |t| <= HeaderOf(b').upper
    && SlotAt(b', i) == Slot(h.lower, |t|, SLOT_LIVE, 0)
    && (forall j: SlotId :: j < h.count && j != i ==> SlotAt(b', j) == SlotAt(b, j))
    && SameOn(b, b', HEADER_SIZE, h.lower) && b'[h.lower..h.lower + |t|] == t
    && SameOn(b, b', h.lower + |t|, HeaderOf(b').upper)
  }

  lemma InsertLive(b: Body, b': Body, i: SlotId, t: seq<Byte>)
    requires InsertedInto(b, b', i, t) && !Live(b, i)
    ensures forall j: SlotId :: Live(b', j) <==> j == i || Live(b, j)
    ensures SlotsOk(b) ==> SlotsOk(b')
  {
    hide SlotAt, HeaderOf;
  }

  lemma InsertPacked(b: Body, b': Body, order: seq<SlotId>, i: SlotId, t: seq<Byte>)
    requires InsertedInto(b, b', i, t) && Packed(b, order)
    requires forall k :: 0 <= k < |order| ==> order[k] != i && order[k] < HeaderOf(b).count
    ensures Packed(b', order + [i])
  {
    hide SlotAt, HeaderOf;
    var longer := order + [i];
    forall k | 0 < k < |longer| ensures Follows(b', longer, k) {
      if k < |order| {
        assert Follows(b, order, k);
      }
    }
  }

  lemma InsertLayout(b: Body, b': Body, order: seq<SlotId>, i: SlotId, t: seq<Byte>)
    requires InsertedInto(b, b', i, t) && Layout(b, order) && !Live(b, i)
    ensures Layout(b', order + [i])
  {
    hide SlotAt, HeaderOf, Packed;
    InsertLive(b, b', i, t);
    forall k | 0 <= k < |order| ensures order[k] != i && order[k] < HeaderOf(b).count {
      assert order[k] in order;
    }
    InsertPacked(b, b', order, i, t);
    assert Live(b', i);
    Fewer(order + [i], HeaderOf(b').count);
  }

  /** Distinct slots below a bound are no more than the bound. */
  lemma {:induction false} Fewer(order: seq<SlotId>, n: nat)
    requires Distinct(order) && forall i :: i in order ==> i < n
    ensures |order| <= n
  {
    if order != [] {
      assert order[0] in order;
      if (n - 1) in order {
        var k :| 0 <= k < |order| && order[k] == n - 1;
        var rest := order[..k] + order[k + 1..];
        forall i | i in rest ensures i < n - 1 {
          assert i in order && i != n - 1;
        }
        Fewer(rest, n - 1);
      } else {
        Fewer(order, n - 1);
      }
    }
  }

  lemma InsertTuples(b: Body, b': Body, order: seq<SlotId>, i: SlotId, t: seq<Byte>)
    requires InsertedInto(b, b', i, t) && Layout(b, order) && !Live(b, i)
    ensures Tuples(b') == Tuples(b)[i := t]
  {
    hide SlotAt, HeaderOf, Layout, Tuples;
    InsertLayout(b, b', order, i, t);
    InsertLive(b, b', i, t);
    forall j: SlotId ensures j in Tuples(b') <==> j == i || j in Tuples(b)
      ensures j in Tuples(b') ==> Tuples(b')[j] == if j == i then t else Tuples(b)[j]
    {
      TupleIs(b, order, j);
      TupleIs(b', order + [i], j);
      if j != i && Live(b, j) {
        LiveRange(b, order, j);
        assert TupleAt(b', j) == TupleAt(b, j);
      }
    }
  }

  // ---- Compaction ----

  ghost function Total(ts: seq<seq<Byte>>): (n: nat) {
    if ts == [] then 0 else Total(ts[..|ts| - 1]) + |ts[|ts| - 1]|
  }

  lemma {:induction false} TotalTo(ts: seq<seq<Byte>>, j: nat, k: nat)
    requires j <= k <= |ts|
    ensures Total(ts[..j]) <= Total(ts[..k])
  {
    if j < k {
      TotalTo(ts, j, k - 1);
      TotalNext(ts, k - 1);
    }
  }

  lemma TotalNext(ts: seq<seq<Byte>>, k: nat)
    requires k < |ts|
    ensures Total(ts[..k + 1]) == Total(ts[..k]) + |ts[k]|
  {
    assert ts[..k + 1][..k] == ts[..k];
  }

  lemma {:induction false} TotalSwap(ts: seq<seq<Byte>>, k: nat, t: seq<Byte>)
    requires k < |ts|
    ensures Total(ts[k := t]) == Total(ts) - |ts[k]| + |t|
  {
    var n := |ts| - 1;
    if k == n {
      assert ts[k := t][..n] == ts[..n];
    } else {
      TotalSwap(ts[..n], k, t);
      assert ts[k := t][..n] == ts[..n][k := t];
    }
  }

  /** Tuple k of a list lies packed in its slot. */
  ghost predicate PlacedAt(b: Body, ids: seq<SlotId>, ts: seq<seq<Byte>>, k: nat)
    requires |ids| == |ts| && k < |ids|
  {
    var start := HEADER_SIZE + Total(ts[..k]);
    && start + |ts[k]| <= PAGE_SIZE && SlotAt(b, ids[k]) == Slot(start, |ts[k]|, SLOT_LIVE, 0)
    && b[start..start + |ts[k]|] == ts[k]
  }

  /** The bytes after the first k tuples were laid out anew: packed behind the header, the rest of the
      payload blank, every other slot and the header as they were. */
  ghost predicate Rewritten(b: Body, b': Body, ids: seq<SlotId>, ts: seq<seq<Byte>>, k: nat)
    requires |ids| == |ts| && k <= |ids|
  {
    var h := HeaderOf(b);
    && HeaderOf(b') == h && (forall j :: 0 <= j < k ==> PlacedAt(b', ids, ts, j))
    && (forall i: SlotId :: i < h.count && i !in ids[..k] ==> SlotAt(b', i) == SlotAt(b, i))
    && Zeroed(b', HEADER_SIZE + Total(ts[..k]), h.upper)
    && SameOn(b, b', 0, HEADER_SIZE)
  }

  /** What is demanded of a list of tuples: distinct slots of the directory, and room for them all. */
  ghost predicate Rewritable(b: Body, ids: seq<SlotId>, ts: seq<seq<Byte>>) {
    var h := HeaderOf(b);
    && |ids| == |ts| && Distinct(ids) && (forall k :: 0 <= k < |ids| ==> ids[k] < h.count && 0 < |ts[k]|)
    && h.count <= MAX_SLOT_COUNT && h.upper == PAGE_SIZE - SLOT_SIZE * h.count && HEADER_SIZE + Total(ts) <= h.upper
  }

  lemma Blanked(b: Body, ids: seq<SlotId>, ts: seq<seq<Byte>>, zeros: seq<Byte>)
    requires Rewritable(b, ids, ts) && |zeros| == HeaderOf(b).upper - HEADER_SIZE && AllZero(zeros)
    ensures Rewritten(b, Splice(b, HEADER_SIZE, zeros), ids, ts, 0)
  {
    hide HeaderOf, SlotAt, Splice;
    var b' := Splice(b, HEADER_SIZE, zeros);
    Splices(b, HEADER_SIZE, zeros);
    PutPayload(b, b', HeaderOf(b).count);
    assert ts[..0] == [];
    forall o | 0 <= o < PAGE_SIZE && HEADER_SIZE <= o < HeaderOf(b).upper ensures b'[o] == 0 {
      assert b'[HEADER_SIZE..HEADER_SIZE + |zeros|][o - HEADER_SIZE] == zeros[o - HEADER_SIZE];
    }
  }

  lemma PlacedNext(b0: Body, b: Body, ids: seq<SlotId>, ts: seq<seq<Byte>>, k: nat)
    requires Rewritable(b0, ids, ts) && k < |ids| && Rewritten(b0, b, ids, ts, k)
    ensures var start := HEADER_SIZE + Total(ts[..k]);
            && start + |ts[k]| <= HeaderOf(b0).upper
            && var b1 := Splice(b, start, ts[k]);
               var b2 := Splice(b1, SlotOffset(ids[k]), BytesOf(Slot(start, |ts[k]|, SLOT_LIVE, 0)));
               Rewritten(b0, b2, ids, ts, k + 1)
  {
    hide HeaderOf, SlotAt, Splice, BytesOf, Rewritten;
    var start, i, h := HEADER_SIZE + Total(ts[..k]), ids[k], HeaderOf(b0);
    TotalNext(ts, k);
    TotalTo(ts, k + 1, |ts|);
    assert ts[..|ts|] == ts;
    var s := Slot(start, |ts[k]|, SLOT_LIVE, 0);
    var b1 := Splice(b, start, ts[k]);
    var b2 := Splice(b1, SlotOffset(i), BytesOf(s));
    Splices(b, start, ts[k]);
    PutSlot(b1, i, s);
    RewrittenHeader(b0, b, ids, ts, k);
    PutPayload(b, b1, h.count);
    assert SlotOffset(i) >= h.upper;
    PlacedStep(b0, b, b2, ids, ts, k);
  }

  lemma RewrittenHeader(b: Body, b': Body, ids: seq<SlotId>, ts: seq<seq<Byte>>, k: nat)
    requires |ids| == |ts| && k <= |ids| && Rewritten(b, b', ids, ts, k)
    ensures HeaderOf(b') == HeaderOf(b)
  {
  }

  lemma PlacedStep(b0: Body, b: Body, b2: Body, ids: seq<SlotId>, ts: seq<seq<Byte>>, k: nat)
    requires Rewritable(b0, ids, ts) && k < |ids| && Rewritten(b0, b, ids, ts, k)
    requires HEADER_SIZE + Total(ts[..k]) + |ts[k]| <= HeaderOf(b0).upper && HeaderOf(b2) == HeaderOf(b0)
    requires var start := HEADER_SIZE + Total(ts[..k]);
             && SlotAt(b2, ids[k]) == Slot(start, |ts[k]|, SLOT_LIVE, 0) && SameOn(b, b2, 0, start)
             && b2[start..start + |ts[k]|] == ts[k] && SameOn(b, b2, start + |ts[k]|, HeaderOf(b0).upper)
    requires forall j: SlotId :: j < HeaderOf(b0).count && j != ids[k] ==> SlotAt(b2, j) == SlotAt(b, j)
    ensures Rewritten(b0, b2, ids, ts, k + 1)
  {
    hide HeaderOf, SlotAt, PlacedAt;
    TotalNext(ts, k);
    assert ids[..k + 1] == ids[..k] + [ids[k]];
    PlacedNow(b2, ids, ts, k);
    forall j | 0 <= j < k ensures PlacedAt(b2, ids, ts, j) {
      PlacedStays(b, b2, ids, ts, j, k);
    }
  }

  lemma PlacedNow(b2: Body, ids: seq<SlotId>, ts: seq<seq<Byte>>, k: nat)
    requires |ids| == |ts| && k < |ids|
    requires var start := HEADER_SIZE + Total(ts[..k]);
             && start + |ts[k]| <= PAGE_SIZE && SlotAt(b2, ids[k]) == Slot(start, |ts[k]|, SLOT_LIVE, 0)
             && b2[start..start + |ts[k]|] == ts[k]
    ensures PlacedAt(b2, ids, ts, k)
  {
  }

  /** A tuple placed earlier lies below the one placed now. */
  lemma PlacedStays(b: Body, b2: Body, ids: seq<SlotId>, ts: seq<seq<Byte>>, j: nat, k: nat)
    requires |ids| == |ts| && j < k < |ids| && PlacedAt(b, ids, ts, j)
    requires SlotAt(b2, ids[j]) == SlotAt(b, ids[j]) && SameOn(b, b2, 0, HEADER_SIZE + Total(ts[..k]))
    ensures PlacedAt(b2, ids, ts, j)
  {
    hide HeaderOf, SlotAt;
    TotalNext(ts, j);
    TotalTo(ts, j + 1, k);
    var start := HEADER_SIZE + Total(ts[..j]);
    assert b2[start..start + |ts[j]|] == b[start..start + |ts[j]|];
  }

  /** The whole page once the lower boundary is set behind the last tuple. */
  ghost predicate Compacted(b: Body, b': Body, ids: seq<SlotId>, ts: seq<seq<Byte>>)
    requires Rewritable(b, ids, ts)
  {
    && HeaderOf(b') == HeaderOf(b).(lower := HEADER_SIZE + Total(ts))
    && (forall k :: 0 <= k < |ids| ==> PlacedAt(b', ids, ts, k))
    && (forall i: SlotId :: i < HeaderOf(b).count && i !in ids ==> SlotAt(b', i) == SlotAt(b, i))
    && Zeroed(b', HEADER_SIZE + Total(ts), HeaderOf(b).upper)
    && SameOn(b, b', 0, SLOT_COUNT_OFFSET) && SameOn(b, b', FIELDS_END, HEADER_SIZE)
  }

  lemma Compacts(b: Body, b1: Body, ids: seq<SlotId>, ts: seq<seq<Byte>>)
    requires Rewritable(b, ids, ts) && Rewritten(b, b1, ids, ts, |ids|)
    ensures Compacted(b, Splice(b1, LOWER_BOUNDARY_OFFSET, Bytes16(HEADER_SIZE + Total(ts))), ids, ts)
  {
    hide HeaderOf, SlotAt, Splice, Bytes16, PlacedAt;
    var b' := Splice(b1, LOWER_BOUNDARY_OFFSET, Bytes16(HEADER_SIZE + Total(ts)));
    PutField(b1, LOWER_BOUNDARY_OFFSET, HEADER_SIZE + Total(ts));
    assert ts[..|ts|] == ts && ids[..|ids|] == ids;
    SameSlots(b1, b');
    forall k | 0 <= k < |ids| ensures PlacedAt(b', ids, ts, k) {
      assert PlacedAt(b1, ids, ts, k);
      StaysPlaced(b1, b', ids, ts, k);
    }
  }

  lemma StaysPlaced(b: Body, b': Body, ids: seq<SlotId>, ts: seq<seq<Byte>>, k: nat)
    requires |ids| == |ts| && k < |ids| && PlacedAt(b, ids, ts, k) && SameBody(b, b')
    ensures PlacedAt(b', ids, ts, k)
  {
    hide SlotAt, Total;
    SameSlots(b, b');
    var start := HEADER_SIZE + Total(ts[..k]);
    assert b'[start..start + |ts[k]|] == b[start..start + |ts[k]|];
  }

  lemma CompactSlots(b: Body, b': Body, ids: seq<SlotId>, ts: seq<seq<Byte>>)
    requires Rewritable(b, ids, ts) && Compacted(b, b', ids, ts) && Enumerates(b, ids) && SlotsOk(b)
    ensures SlotsOk(b') && Enumerates(b', ids)
  {
    hide HeaderOf, SlotAt;
    forall i: SlotId ensures i in ids <==> Live(b', i)
      ensures i < HeaderOf(b').count ==> SlotOk(SlotAt(b', i))
    {
      if i in ids {
        var k :| 0 <= k < |ids| && ids[k] == i;
        assert PlacedAt(b', ids, ts, k);
      }
    }
  }

  lemma CompactPacked(b: Body, b': Body, ids: seq<SlotId>, ts: seq<seq<Byte>>)
    requires Rewritable(b, ids, ts) && Compacted(b, b', ids, ts)
    ensures Packed(b', ids)
  {
    hide HeaderOf, SlotAt;
    if ids != [] {
      assert PlacedAt(b', ids, ts, 0) && ts[..0] == [];
      var n := |ids| - 1;
      assert PlacedAt(b', ids, ts, n);
      TotalNext(ts, n);
      assert ts[..n + 1] == ts;
      forall k | 0 < k < |ids| ensures Follows(b', ids, k) {
        assert PlacedAt(b', ids, ts, k) && PlacedAt(b', ids, ts, k - 1);
        TotalNext(ts, k - 1);
      }
    }
  }

  /** Compaction keeps every tuple in its slot. */
  lemma CompactLayout(b: Body, b': Body, ids: seq<SlotId>, ts: seq<seq<Byte>>)
    requires Rewritable(b, ids, ts) && Compacted(b, b', ids, ts) && Enumerates(b, ids) && SlotsOk(b)
    requires HeaderOf(b).live == |ids|
    ensures Layout(b', ids) && Tuples(b').Keys == SlotsOf(ids)
    ensures forall k :: 0 <= k < |ids| ==> Tuples(b')[ids[k]] == ts[k]
  {
    hide HeaderOf, SlotAt, Tuples, Packed;
    CompactSlots(b, b', ids, ts);
    CompactPacked(b, b', ids, ts);
    forall i | i in ids ensures i < HeaderOf(b).count {
      assert Live(b, i);
    }
    Fewer(ids, HeaderOf(b).count);
    forall i: SlotId ensures i in Tuples(b') <==> i in ids {
      TupleIs(b', ids, i);
    }
    forall k | 0 <= k < |ids| ensures Tuples(b')[ids[k]] == ts[k] {
      TupleIs(b', ids, ids[k]);
      assert ids[k] in ids && PlacedAt(b', ids, ts, k);
    }
  }

  /** The tuples of a list of slots use as many bytes as the slots say. */
  lemma {:induction false} ListUsed(b: Body, ids: seq<SlotId>, ts: seq<seq<Byte>>, k: nat, n: nat)
    requires |ids| == |ts| && Distinct(ids) && k <= |ids| && n <= MAX_SLOT_COUNT
    requires forall j :: 0 <= j < |ids| ==> ids[j] < n && |ts[j]| == SlotAt(b, ids[j]).length
    ensures Total(ts[..k]) == Used(b, n, SlotsOf(ids[..k]))
  {
    hide SlotAt, Used;
    if k == 0 {
      assert SlotsOf(ids[..0]) == {};
      UsedNone(b, n);
    } else {
      ListUsed(b, ids, ts, k - 1, n);
      TotalNext(ts, k - 1);
      assert ids[..k] == ids[..k - 1] + [ids[k - 1]];
      assert SlotsOf(ids[..k]) == SlotsOf(ids[..k - 1]) + {ids[k - 1]};
      UsedAdd(b, n, SlotsOf(ids[..k - 1]), ids[k - 1]);
    }
  }

  /** The tuples of all live slots fill the payload. */
  lemma AllUsed(b: Body, order: seq<SlotId>, ids: seq<SlotId>, ts: seq<seq<Byte>>)
    requires Layout(b, order) && Enumerates(b, ids) && |ids| == |ts|
    requires forall j :: 0 <= j < |ids| ==> |ts[j]| == SlotAt(b, ids[j]).length
    ensures HEADER_SIZE + Total(ts) == HeaderOf(b).lower && |ids| == |order|
  {
    hide SlotAt, HeaderOf, Used, Packed;
    SpaceAddsUp(b, order);
    forall j | 0 <= j < |ids| ensures ids[j] < HeaderOf(b).count {
      assert ids[j] in ids;
    }
    ListUsed(b, ids, ts, |ids|, HeaderOf(b).count);
    assert ts[..|ts|] == ts && ids[..|ids|] == ids;
    assert SlotsOf(ids) == SlotsOf(order);
    SameSize(ids, order);
  }

  lemma {:induction false} SetSize(order: seq<SlotId>)
    requires Distinct(order)
    ensures |SlotsOf(order)| == |order|
  {
    if order != [] {
      var n := |order| - 1;
      SetSize(order[..n]);
      assert order == order[..n] + [order[n]];
      assert SlotsOf(order) == SlotsOf(order[..n]) + {order[n]};
    }
  }

  lemma SameSize(a: seq<SlotId>, b: seq<SlotId>)
    requires Distinct(a) && Distinct(b) && SlotsOf(a) == SlotsOf(b)
    ensures |a| == |b|
  {
    SetSize(a);
    SetSize(b);
  }

  // ---- The writes of an insertion, one by one ----

  /** A new slot joins the directory. */
  function Grown(b: Body): (b': Body)
    requires HeaderOf(b).count < MAX_SLOT_COUNT && SLOT_SIZE <= HeaderOf(b).upper
  {
    var b1 := Splice(b, SLOT_COUNT_OFFSET, Bytes16(HeaderOf(b).count + 1));
    Splice(b1, UPPER_BOUNDARY_OFFSET, Bytes16(HeaderOf(b).upper - SLOT_SIZE))
  }

  lemma GrownIs(b: Body)
    requires HeaderOf(b).count < MAX_SLOT_COUNT && SLOT_SIZE <= HeaderOf(b).upper
    ensures var h := HeaderOf(b);
            HeaderOf(Grown(b)) == h.(count := h.count + 1, upper := h.upper - SLOT_SIZE) && SameBody(b, Grown(b))
  {
    hide HeaderOf, Splice, Bytes16;
    PutField(b, SLOT_COUNT_OFFSET, HeaderOf(b).count + 1);
    PutField(Splice(b, SLOT_COUNT_OFFSET, Bytes16(HeaderOf(b).count + 1)), UPPER_BOUNDARY_OFFSET,
             HeaderOf(b).upper - SLOT_SIZE);
  }

  /** The tuple, its slot and the two counters. */
  function Stored(b: Body, i: SlotId, t: seq<Byte>): (b': Body)
    requires var h := HeaderOf(b); h.live < MAX_SLOT_COUNT && h.lower + |t| <= PAGE_SIZE
  {
    var h := HeaderOf(b);
    var b1 := Splice(b, h.lower, t);
    var b2 := Splice(b1, SlotOffset(i), BytesOf(Slot(h.lower, |t|, SLOT_LIVE, 0)));
    var b3 := Splice(b2, LOWER_BOUNDARY_OFFSET, Bytes16(h.lower + |t|));
    Splice(b3, LIVE_COUNT_OFFSET, Bytes16(h.live + 1))
  }

  lemma StoredIs(b: Body, i: SlotId, t: seq<Byte>)
    requires var h := HeaderOf(b);
             && h.live < MAX_SLOT_COUNT && i < h.count <= MAX_SLOT_COUNT && HEADER_SIZE <= h.lower
             && h.upper == PAGE_SIZE - SLOT_SIZE * h.count && h.lower + |t| <= h.upper
    ensures var h, b' := HeaderOf(b), Stored(b, i, t);
            && HeaderOf(b') == h.(live := h.live + 1, lower := h.lower + |t|)
            && SlotAt(b', i) == Slot(h.lower, |t|, SLOT_LIVE, 0)
            && (forall j: SlotId :: j < h.count && j != i ==> SlotAt(b', j) == SlotAt(b, j))
            && SameOn(b, b', 0, SLOT_COUNT_OFFSET) && SameOn(b, b', FIELDS_END, h.lower)
            && b'[h.lower..h.lower + |t|] == t && SameOn(b, b', h.lower + |t|, h.upper)
  {
    hide HeaderOf, SlotAt, Splice, Bytes16, BytesOf;
    var h := HeaderOf(b);
    var s := Slot(h.lower, |t|, SLOT_LIVE, 0);
    var b1 := Splice(b, h.lower, t);
    var b2 := Splice(b1, SlotOffset(i), BytesOf(s));
    var b3 := Splice(b2, LOWER_BOUNDARY_OFFSET, Bytes16(h.lower + |t|));
    var b4 := Splice(b3, LIVE_COUNT_OFFSET, Bytes16(h.live + 1));
    Splices(b, h.lower, t);
    PutPayload(b, b1, h.count);
    PutSlot(b1, i, s);
    assert h.upper <= SlotOffset(i);
    PutField(b2, LOWER_BOUNDARY_OFFSET, h.lower + |t|);
    PutField(b3, LIVE_COUNT_OFFSET, h.live + 1);
    SameSlots(b2, b3);
    SameSlots(b3, b4);
    assert b4[h.lower..h.lower + |t|] == b1[h.lower..h.lower + |t|];
  }

  lemma ReusedInto(b: Body, order: seq<SlotId>, i: SlotId, t: seq<Byte>)
    requires Layout(b, order) && i < HeaderOf(b).count && !Live(b, i)
    requires 0 < |t| <= HeaderOf(b).upper - HeaderOf(b).lower
    ensures HeaderOf(b).live < MAX_SLOT_COUNT && InsertedInto(b, Stored(b, i, t), i, t)
    ensures SameOn(b, Stored(b, i, t), 0, SLOT_COUNT_OFFSET) && SameOn(b, Stored(b, i, t), FIELDS_END, HEADER_SIZE)
  {
    hide HeaderOf, SlotAt, Stored, Packed;
    forall j | j in order + [i] ensures j < HeaderOf(b).count {
      assert j in order ==> Live(b, j);
    }
    assert i !in order;
    Fewer(order + [i], HeaderOf(b).count);
    StoredIs(b, i, t);
  }

  lemma GrownInto(b: Body, order: seq<SlotId>, t: seq<Byte>)
    requires Layout(b, order) && 0 < |t| && |t| + SLOT_SIZE <= HeaderOf(b).upper - HeaderOf(b).lower
    ensures var h := HeaderOf(b);
            && h.count < MAX_SLOT_COUNT && HeaderOf(Grown(b)).live < MAX_SLOT_COUNT
            && HeaderOf(Grown(b)).lower == h.lower
            && h.lower + |t| <= PAGE_SIZE
            && var b' := Stored(Grown(b), h.count, t);
               && !Live(b, h.count) && InsertedInto(b, b', h.count, t)
               && SameOn(b, b', 0, SLOT_COUNT_OFFSET) && SameOn(b, b', FIELDS_END, HEADER_SIZE)
  {
    hide HeaderOf, SlotAt, Grown, Stored, Packed;
    var h := HeaderOf(b);
    GrownIs(b);
    SameSlots(b, Grown(b));
    StoredIs(Grown(b), h.count, t);
  }

  // ---- The page in memory ----

  method Write16(page: array<Byte>, o: nat, w: Word)
    requires page.Length == PAGE_SIZE && o + 2 <= PAGE_SIZE
    modifies page
    ensures page[..] == Splice(old(page[..]), o, Bytes16(w))
  {
    CopyInto(page, o, Bytes16(w));
  }

  method Load16(page: array<Byte>, o: nat) returns (w: Word)
    requires page.Length == PAGE_SIZE && o + 2 <= PAGE_SIZE
    ensures w == Read16(page[..], o)
  {
    w := page[o] as nat + 256 * (page[o + 1] as nat);
  }

  method Load32(page: array<Byte>, o: nat) returns (w: Long)
    requires page.Length == PAGE_SIZE && o + 4 <= PAGE_SIZE
    ensures w == Read32(page[..], o)
  {
    var low: nat := Load16(page, o);
    var high: nat := Load16(page, o + 2);
    w := low + 65536 * high;
  }

  method LoadHeader(page: array<Byte>) returns (h: Header)
    requires page.Length == PAGE_SIZE
    ensures h == HeaderOf(page[..])
  {
    var count := Load16(page, SLOT_COUNT_OFFSET);
    var live := Load16(page, LIVE_COUNT_OFFSET);
    var lower := Load16(page, LOWER_BOUNDARY_OFFSET);
    var upper := Load16(page, UPPER_BOUNDARY_OFFSET);
    h := Header(count, live, lower, upper);
  }

  method ReadSlot(page: array<Byte>, i: SlotId) returns (s: Slot)
    requires page.Length == PAGE_SIZE
    ensures s == SlotAt(page[..], i)
  {
    var o := SlotOffset(i);
    var offset := Load16(page, o);
    var length := Load16(page, o + 2);
    var flags := Load16(page, o + 4);
    var reserved := Load16(page, o + 6);
    s := Slot(offset, length, flags, reserved);
  }

  method WriteSlot(page: array<Byte>, i: SlotId, s: Slot)
    requires page.Length == PAGE_SIZE
    modifies page
    ensures page[..] == Splice(old(page[..]), SlotOffset(i), BytesOf(s))
  {
    var o := SlotOffset(i);
    Write16(page, o, s.offset);
    Write16(page, o + 2, s.length);
    Write16(page, o + 4, s.flags);
    Write16(page, o + 6, s.reserved);
    FourWords(old(page[..]), o, s);
  }

  lemma FourWords(b: Body, o: nat, s: Slot)
    requires o + SLOT_SIZE <= PAGE_SIZE
    ensures Splice(Splice(Splice(Splice(b, o, Bytes16(s.offset)), o + 2, Bytes16(s.length)), o + 4, Bytes16(s.flags)),
                   o + 6, Bytes16(s.reserved))
         == Splice(b, o, BytesOf(s))
  {
    TwoSplices(b, o, Bytes16(s.offset), Bytes16(s.length));
    TwoSplices(b, o, Bytes16(s.offset) + Bytes16(s.length), Bytes16(s.flags));
    TwoSplices(b, o, Bytes16(s.offset) + Bytes16(s.length) + Bytes16(s.flags), Bytes16(s.reserved));
  }

  lemma TwoSplices(b: Body, o: nat, s: seq<Byte>, t: seq<Byte>)
    requires o + |s| + |t| <= PAGE_SIZE
    ensures Splice(Splice(b, o, s), o + |s|, t) == Splice(b, o, s + t)
  {
    hide Splice;
    var b1 := Splice(b, o, s);
    forall k | 0 <= k < PAGE_SIZE ensures Splice(b1, o + |s|, t)[k] == Splice(b, o, s + t)[k] {
      SpliceAt(b, o, s, k);
      SpliceAt(b1, o + |s|, t, k);
      SpliceAt(b, o, s + t, k);
    }
  }

  /** The first free slot, if there is one. */
  method FindFree(page: array<Byte>) returns (res: Option<SlotId>)
    requires page.Length == PAGE_SIZE && HeaderOf(page[..]).count <= MAX_SLOT_COUNT
    ensures res.Some? <==> HasFree(page[..])
    ensures res.Some? ==> res.value < HeaderOf(page[..]).count && SlotAt(page[..], res.value).flags == SLOT_FREE
    ensures res.Some? ==> forall i: SlotId :: i < res.value ==> SlotAt(page[..], i).flags != SLOT_FREE
  {
    hide HeaderOf, SlotAt;
    var h := LoadHeader(page);
    for i := 0 to h.count
      invariant forall j: SlotId :: j < i ==> SlotAt(page[..], j).flags != SLOT_FREE
    {
      var s := ReadSlot(page, i);
      if s.flags == SLOT_FREE {
        return Some(i);
      }
    }
    res := None;
  }

  lemma LayoutBounds(b: Body, order: seq<SlotId>)
    requires Layout(b, order)
    ensures BoundsOk(HeaderOf(b)) && SlotsOk(b) && Enumerates(b, order)
  {
  }

  lemma InsertSpace(b: Body, b': Body, order: seq<SlotId>, i: SlotId, t: seq<Byte>)
    requires InsertedInto(b, b', i, t) && Layout(b, order)
    ensures HeaderOf(b').upper - HeaderOf(b').lower
         == HeaderOf(b).upper - HeaderOf(b).lower - |t| - if i < HeaderOf(b).count then 0 else SLOT_SIZE
  {
    hide HeaderOf, SlotAt;
  }

  lemma InitialPage(b0: Body, identity: seq<Byte>, b1: Body, b2: Body, b3: Body, b4: Body, b5: Body)
    requires Zeroed(b0, 0, PAGE_SIZE) && |identity| == SLOT_COUNT_OFFSET
    requires b1 == Splice(b0, 0, identity) && b2 == Splice(b1, SLOT_COUNT_OFFSET, Bytes16(0))
    requires b3 == Splice(b2, LIVE_COUNT_OFFSET, Bytes16(0))
    requires b4 == Splice(b3, LOWER_BOUNDARY_OFFSET, Bytes16(HEADER_SIZE))
    requires b5 == Splice(b4, UPPER_BOUNDARY_OFFSET, Bytes16(PAGE_SIZE))
    ensures HeaderOf(b5) == Header(0, 0, HEADER_SIZE, PAGE_SIZE) && Zeroed(b5, FIELDS_END, PAGE_SIZE)
    ensures b5[..SLOT_COUNT_OFFSET] == identity
  {
    hide HeaderOf, Splice, Bytes16;
    Splices(b0, 0, identity);
    PutField(b1, SLOT_COUNT_OFFSET, 0);
    PutField(b2, LIVE_COUNT_OFFSET, 0);
    PutField(b3, LOWER_BOUNDARY_OFFSET, HEADER_SIZE);
    PutField(b4, UPPER_BOUNDARY_OFFSET, PAGE_SIZE);
    assert b5[..SLOT_COUNT_OFFSET] == b1[..SLOT_COUNT_OFFSET];
  }

  lemma InitialLinks(b: Body, identity: seq<Byte>, links: seq<Byte>)
    requires HeaderOf(b) == Header(0, 0, HEADER_SIZE, PAGE_SIZE) && Zeroed(b, FIELDS_END, PAGE_SIZE)
    requires |identity| == SLOT_COUNT_OFFSET && b[..SLOT_COUNT_OFFSET] == identity && |links| == LINKS_SIZE
    ensures var b' := Splice(b, FIELDS_END, links);
            && HeaderOf(b') == HeaderOf(b) && Zeroed(b', FIELDS_END + LINKS_SIZE, PAGE_SIZE)
            && b'[..SLOT_COUNT_OFFSET] == identity && b'[FIELDS_END..FIELDS_END + LINKS_SIZE] == links
  {
    hide HeaderOf, Splice;
    var b' := Splice(b, FIELDS_END, links);
    Splices(b, FIELDS_END, links);
    SameHeader(b, b');
    assert b'[..SLOT_COUNT_OFFSET] == b[..SLOT_COUNT_OFFSET];
  }

  /** A zeroed page with only the boundaries set is well-formed and empty. */
  lemma EmptyLayout(b: Body)
    requires HeaderOf(b) == Header(0, 0, HEADER_SIZE, PAGE_SIZE) && Zeroed(b, HEADER_SIZE, PAGE_SIZE)
    ensures Layout(b, []) && Tuples(b) == map[]
  {
    hide HeaderOf, SlotAt;
  }

  lemma FirstMissing(b: Body, order: seq<SlotId>, i: SlotId)
    requires Layout(b, order) && i <= HeaderOf(b).count
    requires forall j: SlotId :: j < i ==> SlotAt(b, j).flags != SLOT_FREE
    requires i < HeaderOf(b).count ==> SlotAt(b, i).flags == SLOT_FREE
    ensures !Live(b, i) && i !in Tuples(b) && forall j: SlotId :: j < i ==> j in Tuples(b)
  {
    hide HeaderOf, SlotAt, Tuples;
    TupleIs(b, order, i);
    forall j: SlotId | j < i ensures j in Tuples(b) {
      TupleIs(b, order, j);
      assert SlotOk(SlotAt(b, j));
    }
  }

  // ---- Update in place ----

  lemma OverwriteLayout(b: Body, order: seq<SlotId>, i: SlotId, t: seq<Byte>)
    requires Layout(b, order) && Live(b, i) && |t| == SlotAt(b, i).length
    ensures End(b, i) <= PAGE_SIZE
    ensures var b' := Splice(b, SlotAt(b, i).offset, t);
            && Layout(b', order) && HeaderOf(b') == HeaderOf(b) && SameOn(b, b', 0, HEADER_SIZE)
            && forall j: SlotId :: j < HeaderOf(b).count ==> SlotAt(b', j) == SlotAt(b, j)
  {
    hide HeaderOf, SlotAt, Splice;
    LiveRange(b, order, i);
    var b' := Splice(b, SlotAt(b, i).offset, t);
    Splices(b, SlotAt(b, i).offset, t);
    PutPayload(b, b', HeaderOf(b).count);
    SameDirectory(b, b', order);
  }

  lemma SameDirectory(b: Body, b': Body, order: seq<SlotId>)
    requires Layout(b, order) && HeaderOf(b') == HeaderOf(b) && Zeroed(b', HeaderOf(b).lower, HeaderOf(b).upper)
    requires forall j: SlotId :: j < HeaderOf(b).count ==> SlotAt(b', j) == SlotAt(b, j)
    ensures Layout(b', order)
  {
    hide HeaderOf, SlotAt;
    forall k | 0 <= k < |order| ensures SlotAt(b', order[k]) == SlotAt(b, order[k]) {
      assert order[k] in order && Live(b, order[k]);
    }
    forall k | 0 < k < |order| ensures Follows(b', order, k) {
      assert Follows(b, order, k);
    }
  }

  lemma OverwriteTuples(b: Body, order: seq<SlotId>, i: SlotId, t: seq<Byte>)
    requires Layout(b, order) && Live(b, i) && |t| == SlotAt(b, i).length
    ensures End(b, i) <= PAGE_SIZE && Tuples(Splice(b, SlotAt(b, i).offset, t)) == Tuples(b)[i := t]
  {
    hide HeaderOf, SlotAt, Splice, Layout, Tuples;
    OverwriteLayout(b, order, i, t);
    var b' := Splice(b, SlotAt(b, i).offset, t);
    Splices(b, SlotAt(b, i).offset, t);
    TupleIs(b, order, i);
    forall j: SlotId ensures j in Tuples(b') <==> j in Tuples(b)
      ensures j in Tuples(b') ==> Tuples(b')[j] == if j == i then t else Tuples(b)[j]
    {
      TupleIs(b, order, j);
      TupleIs(b', order, j);
      if j != i && Live(b, j) {
        LiveApart(b, order, i, j);
        LiveRange(b, order, j);
        assert TupleAt(b', j) == TupleAt(b, j);
      }
    }
  }

  lemma LiveApart(b: Body, order: seq<SlotId>, i: SlotId, j: SlotId)
    requires Layout(b, order) && Live(b, i) && Live(b, j) && i != j
    ensures End(b, i) <= SlotAt(b, j).offset || End(b, j) <= SlotAt(b, i).offset
  {
    hide HeaderOf, SlotAt;
    var k :| 0 <= k < |order| && order[k] == i;
    var l :| 0 <= l < |order| && order[l] == j;
    if k < l {
      PackedApart(b, order, k, l);
    } else {
      PackedApart(b, order, l, k);
    }
  }

  // ---- Update with compaction, and removal ----

  /** The tuples of the live slots, read one by one. */
  ghost predicate Listed(b: Body, ids: seq<SlotId>, ts: seq<seq<Byte>>) {
    && |ids| == |ts| && Enumerates(b, ids)
    && forall k :: 0 <= k < |ids| ==> End(b, ids[k]) <= PAGE_SIZE && ts[k] == TupleAt(b, ids[k])
  }

  lemma ListedIs(b: Body, order: seq<SlotId>, ids: seq<SlotId>, ts: seq<seq<Byte>>)
    requires Layout(b, order) && Listed(b, ids, ts)
    ensures Tuples(b).Keys == SlotsOf(ids) && forall k :: 0 <= k < |ids| ==> Tuples(b)[ids[k]] == ts[k]
    ensures HEADER_SIZE + Total(ts) == HeaderOf(b).lower && |ids| == |order| == HeaderOf(b).live
    ensures forall k :: 0 <= k < |ids| ==> 0 < |ts[k]| == SlotAt(b, ids[k]).length && ids[k] < HeaderOf(b).count
  {
    hide HeaderOf, SlotAt, Tuples, Packed;
    forall i: SlotId ensures i in Tuples(b) <==> i in ids {
      TupleIs(b, order, i);
    }
    forall k | 0 <= k < |ids|
      ensures Tuples(b)[ids[k]] == ts[k] && 0 < |ts[k]| == SlotAt(b, ids[k]).length && ids[k] < HeaderOf(b).count
    {
      assert ids[k] in ids;
      TupleIs(b, order, ids[k]);
      LiveRange(b, order, ids[k]);
    }
    AllUsed(b, order, ids, ts);
  }

  /** A tuple of another size: all tuples are laid out anew. */
  lemma SwapRewritable(b: Body, order: seq<SlotId>, ids: seq<SlotId>, ts: seq<seq<Byte>>, k: nat, t: seq<Byte>)
    requires Layout(b, order) && Listed(b, ids, ts) && k < |ids|
    requires 0 < |t| <= HeaderOf(b).upper - HeaderOf(b).lower + |ts[k]|
    ensures Rewritable(b, ids, ts[k := t]) && HEADER_SIZE + Total(ts[k := t]) == HeaderOf(b).lower - |ts[k]| + |t|
  {
    hide HeaderOf, SlotAt, Tuples, Packed;
    ListedIs(b, order, ids, ts);
    TotalSwap(ts, k, t);
  }

  lemma SwapTuples(b: Body, b': Body, order: seq<SlotId>, ids: seq<SlotId>, ts: seq<seq<Byte>>, k: nat, t: seq<Byte>)
    requires Layout(b, order) && Listed(b, ids, ts) && k < |ids| && Rewritable(b, ids, ts[k := t])
    requires Compacted(b, b', ids, ts[k := t])
    ensures Layout(b', ids) && Tuples(b') == Tuples(b)[ids[k] := t]
  {
    hide HeaderOf, SlotAt, Tuples, Packed, Compacted;
    ListedIs(b, order, ids, ts);
    CompactLayout(b, b', ids, ts[k := t]);
    assert ids[k] in ids;
    forall i | i in ids ensures Tuples(b')[i] == Tuples(b)[ids[k] := t][i] {
      var j :| 0 <= j < |ids| && ids[j] == i;
      assert Tuples(b')[ids[j]] == ts[k := t][j];
    }
  }

  /** The page after the slot was freed and before compaction. */
  ghost predicate FreedSlot(b: Body, b': Body, i: SlotId) {
    && HeaderOf(b).live > 0 && HeaderOf(b') == HeaderOf(b).(live := HeaderOf(b).live - 1)
    && SlotAt(b', i) == FREE_SLOT && (forall j: SlotId :: j != i ==> SlotAt(b', j) == SlotAt(b, j))
    && SameOn(b, b', 0, SLOT_COUNT_OFFSET) && SameOn(b, b', FIELDS_END, HeaderOf(b).upper)
  }

  lemma Frees(b: Body, order: seq<SlotId>, i: SlotId)
    requires Layout(b, order) && Live(b, i)
    ensures HeaderOf(b).live > 0
    ensures var b1 := Splice(b, SlotOffset(i), BytesOf(FREE_SLOT));
            FreedSlot(b, Splice(b1, LIVE_COUNT_OFFSET, Bytes16(HeaderOf(b).live - 1)), i)
  {
    hide HeaderOf, SlotAt, Splice, BytesOf, Bytes16, Packed;
    assert i in order;
    var b1 := Splice(b, SlotOffset(i), BytesOf(FREE_SLOT));
    var b2 := Splice(b1, LIVE_COUNT_OFFSET, Bytes16(HeaderOf(b).live - 1));
    PutSlot(b, i, FREE_SLOT);
    PutField(b1, LIVE_COUNT_OFFSET, HeaderOf(b).live - 1);
    SameSlots(b1, b2);
  }

  lemma FreedLive(b: Body, b': Body, order: seq<SlotId>, i: SlotId)
    requires Layout(b, order) && Live(b, i) && FreedSlot(b, b', i)
    ensures forall j: SlotId :: Live(b', j) <==> j != i && Live(b, j)
    ensures SlotsOk(b')
    ensures forall j: SlotId :: Live(b', j) ==>
              SlotAt(b', j) == SlotAt(b, j) && HEADER_SIZE <= SlotAt(b, j).offset && End(b, j) <= HeaderOf(b).upper
  {
    hide HeaderOf, SlotAt, Packed;
    forall j: SlotId | Live(b, j) ensures HEADER_SIZE <= SlotAt(b, j).offset && End(b, j) <= HeaderOf(b).upper {
      LiveRange(b, order, j);
    }
  }

  lemma FreedRewritable(b: Body, b': Body, order: seq<SlotId>, i: SlotId, ids: seq<SlotId>, ts: seq<seq<Byte>>)
    requires Layout(b, order) && Live(b, i) && FreedSlot(b, b', i) && Listed(b', ids, ts)
    ensures Rewritable(b', ids, ts) && HEADER_SIZE + Total(ts) == HeaderOf(b).lower - SlotAt(b, i).length
    ensures |ids| == HeaderOf(b').live
  {
    hide HeaderOf, SlotAt, Packed, Used;
    FreedLive(b, b', order, i);
    forall k | 0 <= k < |ids| ensures ids[k] < HeaderOf(b).count && 0 < |ts[k]| == SlotAt(b, ids[k]).length {
      assert ids[k] in ids && Live(b', ids[k]) && SlotOk(SlotAt(b', ids[k]));
    }
    ListUsed(b, ids, ts, |ids|, HeaderOf(b).count);
    assert ts[..|ts|] == ts && ids[..|ids|] == ids;
    assert i !in ids;
    assert SlotsOf(order) == SlotsOf(ids) + {i};
    UsedAdd(b, HeaderOf(b).count, SlotsOf(ids), i);
    SpaceAddsUp(b, order);
    SetSize(ids);
    SetSize(order);
  }

  lemma EraseTuples(b: Body, b1: Body, b': Body, order: seq<SlotId>, i: SlotId, ids: seq<SlotId>, ts: seq<seq<Byte>>)
    requires Layout(b, order) && Live(b, i) && FreedSlot(b, b1, i) && Listed(b1, ids, ts) && Rewritable(b1, ids, ts)
    requires Compacted(b1, b', ids, ts)
    ensures Layout(b', ids) && Tuples(b') == Tuples(b) - {i}
  {
    hide HeaderOf, SlotAt, Packed, Tuples, Compacted;
    FreedRewritable(b, b1, order, i, ids, ts);
    FreedLive(b, b1, order, i);
    CompactLayout(b1, b', ids, ts);
    forall j: SlotId ensures j in Tuples(b') <==> j in Tuples(b) - {i}
      ensures j in Tuples(b') ==> Tuples(b')[j] == Tuples(b)[j]
    {
      TupleIs(b, order, j);
      if j in ids {
        var k :| 0 <= k < |ids| && ids[k] == j;
        assert TupleAt(b1, j) == TupleAt(b, j);
      }
    }
  }

  // ---- Which pages are accepted ----

  /** A well-formed page: some order of its tuples packs them. */
  ghost predicate WellFormedPage(b: Body) {
    exists order: seq<SlotId> :: Layout(b, order)
  }

  predicate RangeOk(b: Body, i: SlotId) {
    HEADER_SIZE <= SlotAt(b, i).offset && End(b, i) <= HeaderOf(b).lower && End(b, i) <= HeaderOf(b).upper
  }

  lemma RefusedHeader(b: Body)
    requires !BoundsOk(HeaderOf(b)) || !Zeroed(b, HeaderOf(b).lower, HeaderOf(b).upper)
    ensures !WellFormedPage(b)
  {
    hide HeaderOf;
  }

  lemma RefusedSlot(b: Body, i: SlotId)
    requires i < HeaderOf(b).count && (!SlotOk(SlotAt(b, i)) || (Live(b, i) && !RangeOk(b, i)))
    ensures !WellFormedPage(b)
  {
    hide HeaderOf, SlotAt, Layout;
    if order: seq<SlotId> :| Layout(b, order) {
      LayoutBounds(b, order);
      LiveRange(b, order, i);
      assert false;
    }
  }

  lemma RefusedCount(b: Body, found: seq<SlotId>)
    requires Enumerates(b, found) && |found| != HeaderOf(b).live
    ensures !WellFormedPage(b)
  {
    hide HeaderOf, SlotAt, Packed;
    if order: seq<SlotId> :| Layout(b, order) {
      assert SlotsOf(order) == SlotsOf(found);
      SameSize(order, found);
      assert false;
    }
  }

  predicate Ascending(b: Body, order: seq<SlotId>) {
    forall i, j :: 0 <= i < j < |order| ==> SlotAt(b, order[i]).offset <= SlotAt(b, order[j]).offset
  }

  /** Only one order can pack the tuples: that of their offsets. */
  lemma OrderUnique(b: Body, order: seq<SlotId>, found: seq<SlotId>)
    requires Layout(b, order) && Enumerates(b, found) && Ascending(b, found)
    ensures found == order
  {
    hide HeaderOf, SlotAt, Packed;
    assert SlotsOf(order) == SlotsOf(found);
    forall i, j | 0 <= i < j < |order| ensures SlotAt(b, order[i]).offset < SlotAt(b, order[j]).offset {
      PackedApart(b, order, i, j);
      assert order[i] in order && SlotOk(SlotAt(b, order[i]));
    }
    SameOrder(b, order, found);
  }

  lemma {:induction false} SameOrder(b: Body, order: seq<SlotId>, found: seq<SlotId>)
    requires Distinct(order) && Distinct(found) && SlotsOf(order) == SlotsOf(found) && Ascending(b, found)
    requires forall i, j :: 0 <= i < j < |order| ==> SlotAt(b, order[i]).offset < SlotAt(b, order[j]).offset
    ensures found == order
    decreases |order|
  {
    hide SlotAt;
    SameSize(order, found);
    if order != [] {
      var n := |order| - 1;
      LastSame(b, order, found);
      assert order == order[..n] + [order[n]] && found == found[..n] + [order[n]];
      assert SlotsOf(order[..n]) == SlotsOf(order) - {order[n]};
      assert SlotsOf(found[..n]) == SlotsOf(found) - {order[n]};
      SameOrder(b, order[..n], found[..n]);
    }
  }

  lemma LastSame(b: Body, order: seq<SlotId>, found: seq<SlotId>)
    requires order != [] && |found| == |order| && SlotsOf(order) == SlotsOf(found) && Ascending(b, found)
    requires forall i, j :: 0 <= i < j < |order| ==> SlotAt(b, order[i]).offset < SlotAt(b, order[j]).offset
    ensures found[|order| - 1] == order[|order| - 1]
  {
    hide SlotAt;
    var n := |order| - 1;
    assert found[n] in SlotsOf(found) && order[n] in SlotsOf(order);
    var i :| 0 <= i <= n && order[i] == found[n];
    var j :| 0 <= j <= n && found[j] == order[n];
  }

  lemma RefusedOrder(b: Body, found: seq<SlotId>)
    requires Enumerates(b, found) && Ascending(b, found) && !Packed(b, found)
    ensures !WellFormedPage(b)
  {
    hide HeaderOf, SlotAt, Layout;
    if order: seq<SlotId> :| Layout(b, order) {
      OrderUnique(b, order, found);
      LayoutPacked(b, order);
      assert false;
    }
  }

  lemma LayoutPacked(b: Body, order: seq<SlotId>)
    requires Layout(b, order)
    ensures Packed(b, order)
  {
  }

  // ---- Links ----

  function WithLink(l: Links, o: nat, link: PageId): (r: Links) {
    if o == FIELDS_END then l.(next := link) else l.(previous := link)
  }

  lemma PutLink(b: Body, order: seq<SlotId>, o: nat, link: PageId)
    requires Layout(b, order) && (o == FIELDS_END || o == FIELDS_END + 4)
    ensures var b' := Splice(b, o, Bytes32(link));
            && Layout(b', order) && Tuples(b') == Tuples(b) && HeaderOf(b') == HeaderOf(b)
            && LinksOf(b') == WithLink(LinksOf(b), o, link) && (SlottedHeader(b) ==> SlottedHeader(b'))
  {
    hide HeaderOf, SlotAt, Splice, Bytes32, Read32, Tuples;
    var b' := Splice(b, o, Bytes32(link));
    Splices(b, o, Bytes32(link));
    Reads32(b', o, link);
    SameRead32(b, b', if o == FIELDS_END then FIELDS_END + 4 else FIELDS_END);
    SameRead32(b, b', FIELDS_END + 8);
    SameRead32(b, b', 8);
    SameRead32(b, b', 12);
    PutPayloadBelow(b, b', HeaderOf(b).count);
    SameDirectory(b, b', order);
    SameTuples(b, b', order);
    assert b'[..8] == b[..8];
    if LsnOk(b) {
      var k :| PAGE_LSN_OFFSET <= k < PAGE_LSN_END && b[k] != 255;
      assert b'[k] == b[k];
    }
  }

  /** A write inside the header behind the fields leaves fields and slots alone. */
  lemma PutPayloadBelow(b: Body, b': Body, count: nat)
    requires count <= MAX_SLOT_COUNT && SameOn(b, b', 0, FIELDS_END) && SameOn(b, b', HEADER_SIZE, PAGE_SIZE)
    ensures HeaderOf(b') == HeaderOf(b) && forall i: SlotId :: i < count ==> SlotAt(b', i) == SlotAt(b, i)
  {
    hide HeaderOf, SlotAt;
    SameHeader(b, b');
    forall i: SlotId | i < count ensures SlotAt(b', i) == SlotAt(b, i) {
      SameSlot(b, b', i);
    }
  }

  lemma SameTuples(b: Body, b': Body, order: seq<SlotId>)
    requires Layout(b, order) && Layout(b', order) && HeaderOf(b') == HeaderOf(b)
    requires (forall i: SlotId :: i < HeaderOf(b).count ==> SlotAt(b', i) == SlotAt(b, i))
    requires SameOn(b, b', HEADER_SIZE, PAGE_SIZE)
    ensures Tuples(b') == Tuples(b)
  {
    hide HeaderOf, SlotAt, Layout, Tuples;
    forall i: SlotId ensures i in Tuples(b') <==> i in Tuples(b)
      ensures i in Tuples(b) ==> Tuples(b')[i] == Tuples(b)[i]
    {
      TupleIs(b, order, i);
      TupleIs(b', order, i);
      if Live(b, i) {
        LiveRange(b, order, i);
        assert TupleAt(b', i) == TupleAt(b, i);
      }
    }
  }

  // ---- Helpers of the operations ----

  lemma NotListed(b: Body, order: seq<SlotId>, slot: nat)
    requires Layout(b, order) && slot >= HeaderOf(b).count
    ensures slot !in Tuples(b)
  {
    hide HeaderOf, SlotAt;
  }

  lemma AllInPage(b: Body, order: seq<SlotId>)
    requires Layout(b, order)
    ensures forall i: SlotId :: Live(b, i) ==> End(b, i) <= PAGE_SIZE
  {
    hide HeaderOf, SlotAt, Layout;
    forall i: SlotId | Live(b, i) ensures End(b, i) <= PAGE_SIZE {
      LiveRange(b, order, i);
    }
  }

  lemma CompactedIs(b: Body, b': Body, ids: seq<SlotId>, ts: seq<seq<Byte>>)
    requires Rewritable(b, ids, ts) && Compacted(b, b', ids, ts)
    ensures HeaderOf(b') == HeaderOf(b).(lower := HEADER_SIZE + Total(ts))
    ensures SameOn(b, b', 0, SLOT_COUNT_OFFSET) && SameOn(b, b', FIELDS_END, HEADER_SIZE)
  {
  }

  lemma FreedIs(b: Body, b': Body, order: seq<SlotId>, i: SlotId)
    requires Layout(b, order) && Live(b, i) && FreedSlot(b, b', i)
    ensures HeaderOf(b').count == HeaderOf(b).count <= MAX_SLOT_COUNT && HeaderOf(b').upper == HeaderOf(b).upper
    ensures forall j: SlotId :: Live(b', j) ==> End(b', j) <= PAGE_SIZE
    ensures SameOn(b, b', 0, SLOT_COUNT_OFFSET) && SameOn(b, b', FIELDS_END, HEADER_SIZE)
  {
    hide HeaderOf, SlotAt, Packed;
    FreedLive(b, b', order, i);
  }

  method Position(ids: seq<SlotId>, slot: SlotId) returns (k: nat)
    requires slot in ids
    ensures k < |ids| && ids[k] == slot
  {
    k := 0;
    while k < |ids| && ids[k] != slot
      invariant k <= |ids| && slot !in ids[..k]
    {
      k := k + 1;
    }
    assert ids[..|ids|] == ids;
  }

  lemma InsertAscends(b: Body, sorted: seq<SlotId>, k: nat, i: SlotId)
    requires Ascending(b, sorted) && k <= |sorted| && (k > 0 ==> SlotAt(b, sorted[k - 1]).offset <= SlotAt(b, i).offset)
    requires forall j :: k <= j < |sorted| ==> SlotAt(b, i).offset < SlotAt(b, sorted[j]).offset
    ensures Ascending(b, sorted[..k] + [i] + sorted[k..])
  {
    hide SlotAt;
    forall j | 0 <= j < k ensures SlotAt(b, sorted[j]).offset <= SlotAt(b, i).offset {
      assert j < k - 1 ==> SlotAt(b, sorted[j]).offset <= SlotAt(b, sorted[k - 1]).offset;
    }
  }

  lemma InsertBag(sorted: seq<SlotId>, k: nat, i: SlotId)
    requires k <= |sorted|
    ensures multiset(sorted[..k] + [i] + sorted[k..]) == multiset(sorted) + multiset{i}
  {
    assert sorted == sorted[..k] + sorted[k..];
  }

  /** Puts one more slot where its offset belongs. */
  method InsertByOffset(page: array<Byte>, sorted: seq<SlotId>, i: SlotId) returns (res: seq<SlotId>)
    requires page.Length == PAGE_SIZE && Ascending(page[..], sorted)
    ensures Ascending(page[..], res) && multiset(res) == multiset(sorted) + multiset{i}
  {
    hide SlotAt, Ascending;
    var s := ReadSlot(page, i);
    var k: nat := |sorted|;
    ghost var b := page[..];
    while k > 0
      invariant k <= |sorted|
      invariant forall j :: k <= j < |sorted| ==> s.offset < SlotAt(b, sorted[j]).offset
    {
      var t := ReadSlot(page, sorted[k - 1]);
      if t.offset <= s.offset {
        break;
      }
      k := k - 1;
    }
    res := sorted[..k] + [i] + sorted[k..];
    InsertAscends(b, sorted, k, i);
    InsertBag(sorted, k, i);
  }

  /** The slots by ascending offset. */
  method SortByOffset(page: array<Byte>, slots: seq<SlotId>) returns (sorted: seq<SlotId>)
    requires page.Length == PAGE_SIZE
    ensures Ascending(page[..], sorted) && multiset(sorted) == multiset(slots)
  {
    hide SlotAt;
    sorted := [];
    for k := 0 to |slots|
      invariant Ascending(page[..], sorted) && multiset(sorted) == multiset(slots[..k])
    {
      sorted := InsertByOffset(page, sorted, slots[k]);
      assert slots[..k + 1] == slots[..k] + [slots[k]];
    }
    assert slots[..|slots|] == slots;
  }

  lemma SortedEnumerates(b: Body, slots: seq<SlotId>, sorted: seq<SlotId>)
    requires Enumerates(b, slots) && multiset(sorted) == multiset(slots)
    ensures Enumerates(b, sorted) && |sorted| == |slots|
  {
    hide Live;
    assert |multiset(sorted)| == |multiset(slots)|;
    forall i: SlotId ensures i in sorted <==> i in slots {
      assert i in sorted <==> i in multiset(sorted);
      assert i in slots <==> i in multiset(slots);
    }
    DistinctOnce(slots);
    forall i, j | 0 <= i < j < |sorted| ensures sorted[i] != sorted[j] {
      if sorted[i] == sorted[j] {
        TwiceIn(sorted, i, j);
        assert false;
      }
    }
  }

  lemma {:induction false} DistinctOnce(slots: seq<SlotId>)
    requires Distinct(slots)
    ensures forall i :: multiset(slots)[i] <= 1
  {
    if slots != [] {
      var n := |slots| - 1;
      DistinctOnce(slots[..n]);
      assert slots == slots[..n] + [slots[n]];
      assert slots[n] !in slots[..n];
    }
  }

  lemma TwiceIn(s: seq<SlotId>, i: nat, j: nat)
    requires i < j < |s| && s[i] == s[j]
    ensures multiset(s)[s[i]] >= 2
  {
    assert s == s[..j] + [s[j]] + s[j + 1..];
    assert s[..j][i] == s[i] && s[i] in s[..j];
    assert s[i] in multiset(s[..j]);
  }

  /** The slots found live, or none if a slot is malformed. */
  method LiveSlots(page: array<Byte>) returns (res: Option<seq<SlotId>>)
    requires page.Length == PAGE_SIZE && BoundsOk(HeaderOf(page[..]))
    ensures res.None? ==> !WellFormedPage(page[..])
    ensures res.Some? ==> Enumerates(page[..], res.value) && SlotsOk(page[..])
  {
    hide HeaderOf, SlotAt, WellFormedPage;
    var h := LoadHeader(page);
    var found: seq<SlotId> := [];
    for i := 0 to h.count
      invariant Distinct(found) && forall j: SlotId :: j in found <==> j < i && Live(page[..], j)
      invariant forall j: SlotId :: j < i ==> SlotOk(SlotAt(page[..], j))
    {
      var s := ReadSlot(page, i);
      assert Live(page[..], i) <==> s.flags == SLOT_LIVE;
      if s.flags == SLOT_FREE {
        if s.offset != 0 || s.length != 0 || s.reserved != 0 {
          RefusedSlot(page[..], i);
          return None;
        }
      } else {
        if s.flags != SLOT_LIVE || s.reserved != 0 || s.length == 0 {
          RefusedSlot(page[..], i);
          return None;
        }
        if s.offset < HEADER_SIZE || s.offset + s.length > h.lower || s.offset + s.length > h.upper {
          RefusedSlot(page[..], i);
          return None;
        }
        assert i !in found;
        found := found + [i];
      }
    }
    res := Some(found);
  }

  /** Do the slots, in this order, pack the payload? */
  method PacksPayload(page: array<Byte>, sorted: seq<SlotId>) returns (ok: bool)
    requires page.Length == PAGE_SIZE
    ensures ok <==> Packed(page[..], sorted)
  {
    hide HeaderOf, SlotAt;
    var h := LoadHeader(page);
    var cursor := HEADER_SIZE;
    for k := 0 to |sorted|
      invariant cursor == if k == 0 then HEADER_SIZE else End(page[..], sorted[k - 1])
      invariant k > 0 ==> SlotAt(page[..], sorted[0]).offset == HEADER_SIZE
      invariant forall j :: 0 < j < k ==> Follows(page[..], sorted, j)
    {
      var s := ReadSlot(page, sorted[k]);
      if s.offset != cursor {
        assert k == 0 || !Follows(page[..], sorted, k);
        return false;
      }
      assert k > 0 ==> Follows(page[..], sorted, k);
      cursor := s.offset + s.length;
    }
    ok := cursor == h.lower;
  }

  method IsZero(page: array<Byte>, from: nat, to: nat) returns (ok: bool)
    requires page.Length == PAGE_SIZE && from <= to <= PAGE_SIZE
    ensures ok <==> Zeroed(page[..], from, to)
  {
    for o := from to to
      invariant forall p :: from <= p < o ==> page[p] == 0
    {
      if page[o] != 0 {
        assert page[..][o] != 0;
        return false;
      }
    }
    ok := true;
  }

  /** The tests on magic, version, header size, reserved bytes, PageLSN and links. */
  method ValidateIdentity(page: array<Byte>, pageId: PageId, pageCount: PageId) returns (ok: bool)
    requires page.Length == PAGE_SIZE
    ensures ok <==> Identified(page[..], pageId, pageCount)
  {
    hide Read32;
    var magic := page[..8];
    assert page[..][..8] == magic;
    var version := Load32(page, 8);
    var size := Load32(page, 12);
    if magic != MAGIC || version != CURRENT_VERSION || size != HEADER_SIZE {
      return false;
    }
    var blank := IsZero(page, PAGE_LSN_END, HEADER_SIZE);
    if !blank {
      return false;
    }
    var readable := ReadsLsn(page);
    if !readable {
      return false;
    }
    var next := Load32(page, FIELDS_END);
    var previous := Load32(page, FIELDS_END + 4);
    var heap := Load32(page, FIELDS_END + 8);
    ok := LinksOk(pageCount, pageId, Links(next, previous, heap));
  }

  method ReadsLsn(page: array<Byte>) returns (ok: bool)
    requires page.Length == PAGE_SIZE
    ensures ok <==> LsnOk(page[..])
  {
    for o := PAGE_LSN_OFFSET to PAGE_LSN_END
      invariant forall q :: PAGE_LSN_OFFSET <= q < o ==> page[q] == 255
    {
      if page[o] != 255 {
        assert page[..][o] != 255;
        return true;
      }
    }
    ok := false;
  }

  /** Accepts exactly the slotted pages with legal links whose payload is well-formed. */
  method Validate(page: array<Byte>, pageId: PageId, pageCount: PageId) returns (ok: bool)
    requires page.Length == PAGE_SIZE
    ensures ok <==> Identified(page[..], pageId, pageCount) && WellFormedPage(page[..])
  {
    hide Identified, WellFormedPage;
    ok := ValidateIdentity(page, pageId, pageCount);
    if ok {
      ok := ValidatePayload(page);
    }
  }

  /** The tests on counts, boundaries, slots, tuples and free space. */
  method ValidatePayload(page: array<Byte>) returns (ok: bool)
    requires page.Length == PAGE_SIZE
    ensures ok <==> WellFormedPage(page[..])
  {
    hide HeaderOf, SlotAt, WellFormedPage, Packed, SlotsOk;
    var h := LoadHeader(page);
    if h.count > MAX_SLOT_COUNT || h.live > h.count {
      RefusedHeader(page[..]);
      return false;
    }
    if h.upper != PAGE_SIZE - SLOT_SIZE * h.count || h.lower < HEADER_SIZE || h.lower > h.upper {
      RefusedHeader(page[..]);
      return false;
    }
    var found := LiveSlots(page);
    if found.None? {
      return false;
    }
    if |found.value| != h.live {
      RefusedCount(page[..], found.value);
      return false;
    }
    var sorted := SortByOffset(page, found.value);
    SortedEnumerates(page[..], found.value, sorted);
    var packed := PacksPayload(page, sorted);
    if !packed {
      RefusedOrder(page[..], sorted);
      return false;
    }
    ok := IsZero(page, h.lower, h.upper);
    if ok {
      Accepted(page[..], sorted);
    } else {
      RefusedHeader(page[..]);
    }
  }

  lemma Accepted(b: Body, order: seq<SlotId>)
    requires Layout(b, order)
    ensures WellFormedPage(b)
  {
  }

  /** The live slots with their tuples, in slot order. */
  method LiveTuples(page: array<Byte>) returns (ids: seq<SlotId>, ts: seq<seq<Byte>>)
    requires page.Length == PAGE_SIZE && HeaderOf(page[..]).count <= MAX_SLOT_COUNT
    requires forall i: SlotId :: Live(page[..], i) ==> End(page[..], i) <= PAGE_SIZE
    ensures Listed(page[..], ids, ts)
  {
    hide HeaderOf, SlotAt;
    var h := LoadHeader(page);
    ids, ts := [], [];
    for i := 0 to h.count
      invariant |ids| == |ts| && Distinct(ids) && forall j: SlotId :: j in ids <==> j < i && Live(page[..], j)
      invariant forall k :: 0 <= k < |ids| ==> End(page[..], ids[k]) <= PAGE_SIZE && ts[k] == TupleAt(page[..], ids[k])
    {
      var s := ReadSlot(page, i);
      if s.flags == SLOT_LIVE {
        assert Live(page[..], i);
        ids, ts := ids + [i], ts + [page[s.offset..s.offset + s.length]];
      }
    }
  }

  class SlottedPage {
    const bytes: array<Byte>
    const pageId: PageId
    const pageCount: PageId
    /** The live slots in the order of their bytes. */
    ghost var order: seq<SlotId>

    /** What validate accepts. */
    ghost predicate Valid()
      reads this, bytes
    {
      bytes.Length == PAGE_SIZE && Identified(bytes[..], pageId, pageCount) && Layout(bytes[..], order)
    }

    constructor (page: array<Byte>, pageId: PageId, pageCount: PageId, ghost order: seq<SlotId>)
      requires page.Length == PAGE_SIZE && Identified(page[..], pageId, pageCount) && Layout(page[..], order)
      ensures Valid() && bytes == page && this.order == order && this.pageId == pageId && this.pageCount == pageCount
    {
      bytes, this.pageId, this.pageCount, this.order := page, pageId, pageCount, order;
    }

    ghost function Contents(): (m: map<SlotId, seq<Byte>>)
      requires Valid()
      reads this, bytes
    {
      Tuples(bytes[..])
    }

    ghost function FreeSpace(): (n: nat)
      requires Valid()
      reads this, bytes
    {
      HeaderOf(bytes[..]).upper - HeaderOf(bytes[..]).lower
    }

    /** What no operation on tuples writes: the page's identity, its links and its PageLSN. */
    twostate predicate SameIdentity()
      requires bytes.Length == PAGE_SIZE
      reads bytes
    {
      && SameOn(old(bytes[..]), bytes[..], 0, SLOT_COUNT_OFFSET)
      && SameOn(old(bytes[..]), bytes[..], FIELDS_END, HEADER_SIZE)
    }

    /** setNextPageId: refused exactly for an illegal link. Nothing but the link changes. */
    method SetNext(link: PageId) returns (ok: bool)
      requires Valid()
      modifies bytes
      ensures Valid() && Contents() == old(Contents()) && FreeSpace() == old(FreeSpace())
      ensures ok <==> LinksOk(pageCount, pageId, old(LinksOf(bytes[..])).(next := link))
      ensures LinksOf(bytes[..]) == if ok then old(LinksOf(bytes[..])).(next := link) else old(LinksOf(bytes[..]))
    {
      hide Layout, Tuples, HeaderOf, SlottedHeader, Splice, Bytes32, LinksOf;
      ok := SetLink(FIELDS_END, link);
    }

    /** setPreviousPageId. */
    method SetPrevious(link: PageId) returns (ok: bool)
      requires Valid()
      modifies bytes
      ensures Valid() && Contents() == old(Contents()) && FreeSpace() == old(FreeSpace())
      ensures ok <==> LinksOk(pageCount, pageId, old(LinksOf(bytes[..])).(previous := link))
      ensures LinksOf(bytes[..]) == if ok then old(LinksOf(bytes[..])).(previous := link) else old(LinksOf(bytes[..]))
    {
      hide Layout, Tuples, HeaderOf, SlottedHeader, Splice, Bytes32, LinksOf;
      ok := SetLink(FIELDS_END + 4, link);
    }

    /** One of the two links. The other one may not name the same page. */
    method SetLink(o: nat, link: PageId) returns (ok: bool)
      requires Valid() && (o == FIELDS_END || o == FIELDS_END + 4)
      modifies bytes
      ensures Valid() && Contents() == old(Contents()) && FreeSpace() == old(FreeSpace())
      ensures ok <==> LinksOk(pageCount, pageId, WithLink(old(LinksOf(bytes[..])), o, link))
      ensures LinksOf(bytes[..]) ==
                if ok then WithLink(old(LinksOf(bytes[..])), o, link) else old(LinksOf(bytes[..]))
    {
      hide Layout, Tuples, HeaderOf, SlottedHeader, Splice, Bytes32;
      var next := Load32(bytes, FIELDS_END);
      var previous := Load32(bytes, FIELDS_END + 4);
      var heap := Load32(bytes, FIELDS_END + 8);
      var other := if o == FIELDS_END then previous else next;
      if !LinkOk(pageCount, pageId, heap, link) || (link != INVALID_PAGE && link == other) {
        return false;
      }
      PutLink(bytes[..], order, o, link);
      CopyInto(bytes, o, Bytes32(link));
      ok := true;
    }

    /** Is there room for a tuple of this size? */
    method CanFit(size: nat) returns (fits: bool)
      requires Valid()
      ensures fits <==> Fits(bytes[..], size)
    {
      hide HeaderOf, SlotAt, Packed, SlotsOk, Enumerates, Identified;
      if size == 0 || size > MAX_TUPLE_SIZE {
        return false;
      }
      var free := FindFree(bytes);
      var h := LoadHeader(bytes);
      fits := size + (if free.Some? then 0 else SLOT_SIZE) <= h.upper - h.lower;
    }

    /** Put a tuple into the first free slot, or into a new one. */
    method Insert(tuple: seq<Byte>) returns (res: Result<SlotId>)
      requires Valid()
      modifies this`order, bytes
      ensures Valid() && SameIdentity()
      ensures res.Ok? <==> old(Fits(bytes[..], |tuple|))
      ensures res == Err(InvalidTuple) <==> |tuple| == 0 || |tuple| > MAX_TUPLE_SIZE
      ensures res.Err? ==> bytes[..] == old(bytes[..]) && res != Err(DirectoryFull)
      ensures res.Ok? ==> Contents() == old(Contents())[res.value := tuple]
      ensures res.Ok? ==> res.value !in old(Contents()) && forall i: SlotId :: i < res.value ==> i in old(Contents())
      ensures res.Ok? ==> FreeSpace() == old(FreeSpace()) - |tuple| - if old(HasFree(bytes[..])) then 0 else SLOT_SIZE
    {
      hide HeaderOf, SlotAt, Layout, Tuples, Stored, Grown, Splice, BytesOf, Bytes16, InsertedInto, Identified;
      if |tuple| == 0 || |tuple| > MAX_TUPLE_SIZE {
        return Err(InvalidTuple);
      }
      var fits := CanFit(|tuple|);
      if !fits {
        return Err(NoSpace);
      }
      LayoutBounds(bytes[..], order);
      var free := FindFree(bytes);
      var i;
      if free.Some? {
        i := free.value;
        ReusedInto(bytes[..], order, i, tuple);
      } else {
        var h := LoadHeader(bytes);
        if h.count >= MAX_SLOT_COUNT {
          return Err(DirectoryFull);
        }
        i := h.count;
        GrownInto(bytes[..], order, tuple);
        GrowDirectory(h);
      }
      FirstMissing(old(bytes[..]), order, i);
      StoreTuple(i, tuple);
      InsertLayout(old(bytes[..]), bytes[..], order, i, tuple);
      InsertTuples(old(bytes[..]), bytes[..], order, i, tuple);
      InsertSpace(old(bytes[..]), bytes[..], order, i, tuple);
      IdentityKept(old(bytes[..]), bytes[..], pageId, pageCount);
      order := order + [i];
      res := Ok(i);
    }

    method GrowDirectory(h: Header)
      requires bytes.Length == PAGE_SIZE && h == HeaderOf(bytes[..]) && h.count < MAX_SLOT_COUNT && SLOT_SIZE <= h.upper
      modifies bytes
      ensures bytes[..] == Grown(old(bytes[..]))
    {
      hide HeaderOf, Splice, Bytes16;
      Write16(bytes, SLOT_COUNT_OFFSET, h.count + 1);
      Write16(bytes, UPPER_BOUNDARY_OFFSET, h.upper - SLOT_SIZE);
    }

    method StoreTuple(i: SlotId, tuple: seq<Byte>)
      requires bytes.Length == PAGE_SIZE
      requires HeaderOf(bytes[..]).live < MAX_SLOT_COUNT && HeaderOf(bytes[..]).lower + |tuple| <= PAGE_SIZE
      modifies bytes
      ensures bytes[..] == Stored(old(bytes[..]), i, tuple)
    {
      hide HeaderOf, SlotAt, Splice, BytesOf, Bytes16, Identified;
      var h := LoadHeader(bytes);
      CopyInto(bytes, h.lower, tuple);
      WriteSlot(bytes, i, Slot(h.lower, |tuple|, SLOT_LIVE, 0));
      Write16(bytes, LOWER_BOUNDARY_OFFSET, h.lower + |tuple|);
      Write16(bytes, LIVE_COUNT_OFFSET, h.live + 1);
    }

    /** The tuple in a slot. */
    method Get(slot: nat) returns (res: Result<seq<Byte>>)
      requires Valid()
      ensures res == Err(NoSuchSlot) <==> slot >= HeaderOf(bytes[..]).count
      ensures res.Ok? <==> slot in Contents()
      ensures res.Ok? ==> res.value == Contents()[slot]
    {
      hide HeaderOf, SlotAt, Layout, Tuples, Identified;
      LayoutBounds(bytes[..], order);
      var h := LoadHeader(bytes);
      if slot >= h.count {
        NotListed(bytes[..], order, slot);
        return Err(NoSuchSlot);
      }
      TupleIs(bytes[..], order, slot);
      var s := ReadSlot(bytes, slot);
      if s.flags != SLOT_LIVE {
        return Err(NotOccupied);
      }
      res := Ok(bytes[s.offset..s.offset + s.length]);
    }

    /** Lays the tuples out anew, packed behind the header. */
    method RewritePayload(ids: seq<SlotId>, ts: seq<seq<Byte>>)
      requires bytes.Length == PAGE_SIZE && Rewritable(bytes[..], ids, ts)
      modifies bytes
      ensures Compacted(old(bytes[..]), bytes[..], ids, ts)
    {
      hide HeaderOf, SlotAt, Splice, BytesOf, Bytes16, Rewritten, Compacted, Identified;
      var h := LoadHeader(bytes);
      var zeros := seq(h.upper - HEADER_SIZE, _ => 0 as Byte);
      Blanked(bytes[..], ids, ts, zeros);
      CopyInto(bytes, HEADER_SIZE, zeros);
      var cursor := HEADER_SIZE;
      assert ts[..0] == [];
      for k := 0 to |ids|
        invariant Rewritten(old(bytes[..]), bytes[..], ids, ts, k) && cursor == HEADER_SIZE + Total(ts[..k])
      {
        PlacedNext(old(bytes[..]), bytes[..], ids, ts, k);
        TotalNext(ts, k);
        CopyInto(bytes, cursor, ts[k]);
        WriteSlot(bytes, ids[k], Slot(cursor, |ts[k]|, SLOT_LIVE, 0));
        cursor := cursor + |ts[k]|;
      }
      assert ts[..|ts|] == ts;
      Compacts(old(bytes[..]), bytes[..], ids, ts);
      Write16(bytes, LOWER_BOUNDARY_OFFSET, cursor);
    }

    /** Replace the tuple of a slot: in place when the size is the same, else by compaction. Refused,
        with nothing changed, when the page lacks the room. */
    method TryUpdate(slot: nat, tuple: seq<Byte>) returns (res: Result<bool>)
      requires Valid()
      modifies this`order, bytes
      ensures Valid() && SameIdentity()
      ensures res == Err(InvalidTuple) <==> |tuple| == 0 || |tuple| > MAX_TUPLE_SIZE
      ensures res.Ok? <==> 0 < |tuple| <= MAX_TUPLE_SIZE && slot in old(Contents())
      ensures res.Ok? ==> (res.value <==> |tuple| <= old(FreeSpace()) + |old(Contents())[slot]|)
      ensures res == Ok(true) ==> Contents() == old(Contents())[slot := tuple]
      ensures res == Ok(true) ==> FreeSpace() == old(FreeSpace()) + |old(Contents())[slot]| - |tuple|
      ensures res != Ok(true) ==> bytes[..] == old(bytes[..]) && order == old(order)
    {
      hide HeaderOf, SlotAt, Layout, Tuples, Splice, Compacted, Rewritable, Listed, Identified;
      if |tuple| == 0 || |tuple| > MAX_TUPLE_SIZE {
        return Err(InvalidTuple);
      }
      LayoutBounds(bytes[..], order);
      var h := LoadHeader(bytes);
      if slot >= h.count {
        NotListed(bytes[..], order, slot);
        return Err(NoSuchSlot);
      }
      TupleIs(bytes[..], order, slot);
      var s := ReadSlot(bytes, slot);
      if s.flags != SLOT_LIVE {
        return Err(NotOccupied);
      }
      if |tuple| > h.upper - h.lower + s.length {
        return Ok(false);
      }
      if |tuple| == s.length {
        OverwriteLayout(bytes[..], order, slot, tuple);
        OverwriteTuples(bytes[..], order, slot, tuple);
        CopyInto(bytes, s.offset, tuple);
        IdentityKept(old(bytes[..]), bytes[..], pageId, pageCount);
        return Ok(true);
      }
      Resize(slot, tuple);
      res := Ok(true);
    }

    /** A tuple of another size. */
    method Resize(slot: SlotId, tuple: seq<Byte>)
      requires Valid() && Live(bytes[..], slot) && 0 < |tuple| <= FreeSpace() + SlotAt(bytes[..], slot).length
      modifies this`order, bytes
      ensures Valid() && SameIdentity() && Contents() == old(Contents())[slot := tuple]
      ensures FreeSpace() == old(FreeSpace()) + old(SlotAt(bytes[..], slot).length) - |tuple|
    {
      hide HeaderOf, SlotAt, Layout, Tuples, Compacted, Rewritable, Identified;
      LayoutBounds(bytes[..], order);
      AllInPage(bytes[..], order);
      var ids, ts := LiveTuples(bytes);
      var k := Position(ids, slot);
      SwapRewritable(bytes[..], order, ids, ts, k, tuple);
      RewritePayload(ids, ts[k := tuple]);
      SwapTuples(old(bytes[..]), bytes[..], order, ids, ts, k, tuple);
      CompactedIs(old(bytes[..]), bytes[..], ids, ts[k := tuple]);
      IdentityKept(old(bytes[..]), bytes[..], pageId, pageCount);
      order := ids;
    }

    /** Free a slot and close the gap its tuple leaves. */
    method Erase(slot: nat) returns (res: Result<()>)
      requires Valid()
      modifies this`order, bytes
      ensures Valid() && SameIdentity()
      ensures res.Ok? <==> slot in old(Contents())
      ensures res.Ok? ==> Contents() == old(Contents()) - {slot}
      ensures res.Ok? ==> FreeSpace() == old(FreeSpace()) + |old(Contents())[slot]|
      ensures res.Err? ==> bytes[..] == old(bytes[..]) && order == old(order)
    {
      hide HeaderOf, SlotAt, Layout, Tuples, Splice, BytesOf, Bytes16, FreedSlot, Listed, Rewritable, Compacted,
           Identified;
      LayoutBounds(bytes[..], order);
      var h := LoadHeader(bytes);
      if slot >= h.count {
        NotListed(bytes[..], order, slot);
        return Err(NoSuchSlot);
      }
      TupleIs(bytes[..], order, slot);
      var s := ReadSlot(bytes, slot);
      if s.flags != SLOT_LIVE {
        return Err(NotOccupied);
      }
      Frees(bytes[..], order, slot);
      WriteSlot(bytes, slot, FREE_SLOT);
      Write16(bytes, LIVE_COUNT_OFFSET, h.live - 1);
      ghost var freed := bytes[..];
      FreedIs(old(bytes[..]), freed, order, slot);
      var ids, ts := LiveTuples(bytes);
      FreedRewritable(old(bytes[..]), freed, order, slot, ids, ts);
      RewritePayload(ids, ts);
      EraseTuples(old(bytes[..]), freed, bytes[..], order, slot, ids, ts);
      CompactedIs(freed, bytes[..], ids, ts);
      IdentityKept(old(bytes[..]), bytes[..], pageId, pageCount);
      order := ids;
      res := Ok(());
    }
  }

  /** A view of a page: opening one validates it. */
  method OpenPage(page: array<Byte>, pageId: PageId, pageCount: PageId) returns (res: Option<SlottedPage>)
    requires page.Length == PAGE_SIZE
    ensures res.Some? <==> Identified(page[..], pageId, pageCount) && WellFormedPage(page[..])
    ensures res.Some? ==> fresh(res.value) && res.value.Valid() && res.value.bytes == page
  {
    hide Identified, Layout;
    var ok := Validate(page, pageId, pageCount);
    if !ok {
      return None;
    }
    ghost var order: seq<SlotId> :| Layout(page[..], order);
    var view := new SlottedPage(page, pageId, pageCount, order);
    res := Some(view);
  }

  /** initialize: refused, with nothing written, exactly for ids and links that are not legal; else an empty page
      with its identity and links and no PageLSN. */
  method Initialize(page: array<Byte>, pageId: PageId, pageCount: PageId, links: Links)
    returns (res: Option<SlottedPage>)
    requires page.Length == PAGE_SIZE
    modifies page
    ensures res.Some? <==> DataPage(pageCount, pageId, links.heap) && LinksOk(pageCount, pageId, links)
    ensures res.None? ==> page[..] == old(page[..])
    ensures res.Some? ==> fresh(res.value) && res.value.Valid() && res.value.bytes == page
    ensures res.Some? ==> res.value.Contents() == map[] && res.value.FreeSpace() == PAGE_SIZE - HEADER_SIZE
    ensures res.Some? ==> LinksOf(page[..]) == links && Zeroed(page[..], PAGE_LSN_OFFSET, PAGE_SIZE)
  {
    hide HeaderOf, Layout, Tuples, Splice, Bytes16, SlottedHeader, LinksOf, LinkBytes, Identity;
    if !DataPage(pageCount, pageId, links.heap) || !LinksOk(pageCount, pageId, links) {
      return None;
    }
    CopyInto(page, 0, seq(PAGE_SIZE, _ => 0 as Byte));
    ghost var b0 := page[..];
    Splices(old(page[..]), 0, seq(PAGE_SIZE, _ => 0 as Byte));
    CopyInto(page, 0, Identity());
    ghost var b1 := page[..];
    Write16(page, SLOT_COUNT_OFFSET, 0);
    ghost var b2 := page[..];
    Write16(page, LIVE_COUNT_OFFSET, 0);
    ghost var b3 := page[..];
    Write16(page, LOWER_BOUNDARY_OFFSET, HEADER_SIZE);
    ghost var b4 := page[..];
    Write16(page, UPPER_BOUNDARY_OFFSET, PAGE_SIZE);
    InitialPage(b0, Identity(), b1, b2, b3, b4, page[..]);
    InitialLinks(page[..], Identity(), LinkBytes(links));
    CopyInto(page, FIELDS_END, LinkBytes(links));
    NewIdentity(page[..], links);
    EmptyLayout(page[..]);
    var view := new SlottedPage(page, pageId, pageCount, []);
    res := Some(view);
  }
}
