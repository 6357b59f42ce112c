/** Encoded log records. A byte on disk or in the buffer is a cell that names the record it belongs to and
    its offset there, so checksums are ideal: cells decode exactly when they are one whole record. */
module LogCells {
  import opened Options

  type Lsn = int

  const INVALID_LSN: Lsn := -1
  const LOG_START: Lsn := 64
  const RECORD_HEADER: nat := 48
  const MAX_RECORD: nat := 1048576

  datatype Record = Record(lsn: Lsn, kind: nat, tid: nat, prev: Lsn, payload: seq<bv8>)

  datatype Cell = Cell(record: Record, at: nat)

  function Size(r: Record): (res: nat) {
    RECORD_HEADER + |r.payload|
  }

  /** What the record codec accepts. */
  predicate Encodable(r: Record) {
    Size(r) <= MAX_RECORD && (r.prev != INVALID_LSN ==> r.prev < r.lsn)
  }

  function Encode(r: Record): (cells: seq<Cell>)
    ensures |cells| == Size(r)
  {
    seq(Size(r), i requires 0 <= i < Size(r) => Cell(r, i))
  }

  /** A whole record written for this position, or nothing. */
  function Decode(cells: seq<Cell>, lsn: Lsn): (r: Option<Record>)
    ensures r.Some? ==> cells == Encode(r.value) && r.value.lsn == lsn
    ensures forall x :: cells == Encode(x) && x.lsn == lsn ==> r == Some(x)
  {
    if |cells| >= RECORD_HEADER && cells == Encode(cells[0].record) && cells[0].record.lsn == lsn then
      Some(cells[0].record)
    else
      assert forall x :: cells == Encode(x) ==> |cells| == Size(x) && cells[0] == Cell(x, 0);
      None
  }

  // ---- Runs of records ----

  function Total(rs: seq<Record>): (r: nat) {
    if rs == [] then 0 else Size(rs[0]) + Total(rs[1..])
  }

  function EncodeAll(rs: seq<Record>): (cells: seq<Cell>)
    ensures |cells| == Total(rs)
  {
    if rs == [] then [] else Encode(rs[0]) + EncodeAll(rs[1..])
  }

  /** Every record carries the position it is stored at. */
  predicate Placed(rs: seq<Record>, start: Lsn) {
    rs == [] || (rs[0].lsn == start && Placed(rs[1..], start + Size(rs[0])))
  }

  lemma {:induction false} TotalConcat(a: seq<Record>, b: seq<Record>)
    ensures Total(a + b) == Total(a) + Total(b)
  {
    if a == [] {
      assert a + b == b;
    } else {
      TotalConcat(a[1..], b);
      assert (a + b)[1..] == a[1..] + b;
    }
  }

  lemma Assoc<T>(a: seq<T>, b: seq<T>, c: seq<T>)
    ensures (a + b) + c == a + (b + c)
  {
  }

  lemma {:induction false} EncodeConcat(a: seq<Record>, b: seq<Record>)
    ensures EncodeAll(a + b) == EncodeAll(a) + EncodeAll(b)
  {
    hide Encode;
    if a == [] {
      assert a + b == b;
      assert [] + EncodeAll(b) == EncodeAll(b);
    } else {
      EncodeConcat(a[1..], b);
      assert (a + b)[1..] == a[1..] + b;
      Assoc(Encode(a[0]), EncodeAll(a[1..]), EncodeAll(b));
    }
  }

  lemma {:induction false} PlacedConcat(a: seq<Record>, b: seq<Record>, start: Lsn)
    ensures Placed(a + b, start) <==> Placed(a, start) && Placed(b, start + Total(a))
  {
    if a == [] {
      assert a + b == b;
    } else {
      PlacedConcat(a[1..], b, start + Size(a[0]));
      assert (a + b)[1..] == a[1..] + b;
    }
  }

  lemma One(r: Record)
    ensures Total([r]) == Size(r) && EncodeAll([r]) == Encode(r) && Placed([r], r.lsn)
  {
    assert [r][1..] == [];
    assert Encode(r) + [] == Encode(r);
  }

  /** Positions ascend, stay in the run, and never overlap. */
  lemma {:induction false} PlacedAt(rs: seq<Record>, start: Lsn, i: nat)
    requires Placed(rs, start) && i < |rs|
    ensures rs[i].lsn == start + Total(rs[..i])
    ensures start <= rs[i].lsn && rs[i].lsn + Size(rs[i]) <= start + Total(rs)
    decreases i
  {
    if i > 0 {
      PlacedAt(rs[1..], start + Size(rs[0]), i - 1);
      assert rs[..i][1..] == rs[1..][..i - 1];
    }
  }

  lemma {:induction false} PlacedAscends(rs: seq<Record>, start: Lsn, i: nat, j: nat)
    requires Placed(rs, start) && i < j < |rs|
    ensures rs[i].lsn + Size(rs[i]) <= rs[j].lsn
    decreases i
  {
    if i > 0 {
      PlacedAscends(rs[1..], start + Size(rs[0]), i - 1, j - 1);
    } else {
      PlacedAt(rs[1..], start + Size(rs[0]), j - 1);
    }
  }

  /** The cell at a position of the run belongs to the record that covers the position. */
  lemma {:induction false} CellAt(rs: seq<Record>, start: Lsn, k: nat) returns (i: nat)
    requires Placed(rs, start) && k < Total(rs)
    ensures i < |rs| && rs[i].lsn <= start + k < rs[i].lsn + Size(rs[i])
    ensures EncodeAll(rs)[k] == Cell(rs[i], start + k - rs[i].lsn)
    decreases rs
  {
    if k < Size(rs[0]) {
      i := 0;
    } else {
      i := CellAt(rs[1..], start + Size(rs[0]), k - Size(rs[0]));
      i := i + 1;
    }
  }

  /** The cells from a record's position on are that record, then the rest of the run. */
  lemma {:induction false} CellsFrom(rs: seq<Record>, start: Lsn, i: nat)
    requires Placed(rs, start) && i < |rs|
    ensures start <= rs[i].lsn && rs[i].lsn - start + Size(rs[i]) <= Total(rs)
    ensures EncodeAll(rs)[rs[i].lsn - start..] == EncodeAll(rs[i..])
    ensures EncodeAll(rs)[rs[i].lsn - start..rs[i].lsn - start + Size(rs[i])] == Encode(rs[i])
  {
    PlacedAt(rs, start, i);
    assert rs == rs[..i] + rs[i..];
    EncodeConcat(rs[..i], rs[i..]);
    TotalConcat(rs[..i], rs[i..]);
    var a, b := EncodeAll(rs[..i]), EncodeAll(rs[i..]);
    assert (a + b)[|a|..] == b;
    assert b == Encode(rs[i]) + EncodeAll(rs[i..][1..]);
    assert (a + b)[|a|..|a| + Size(rs[i])] == b[..Size(rs[i])];
  }

  /** A record of the run is decoded from its position, and from nowhere else. */
  lemma ReadBack(rs: seq<Record>, start: Lsn, lsn: Lsn, r: Record)
    requires Placed(rs, start) && start <= lsn && lsn - start + Size(r) <= Total(rs)
    ensures Decode(EncodeAll(rs)[lsn - start..lsn - start + Size(r)], lsn) == Some(r) <==> r in rs && r.lsn == lsn
  {
    if r in rs && r.lsn == lsn {
      var i :| 0 <= i < |rs| && rs[i] == r;
      CellsFrom(rs, start, i);
    }
    var i := CellAt(rs, start, lsn - start);
    var cells := EncodeAll(rs)[lsn - start..lsn - start + Size(r)];
    assert cells[0] == Cell(rs[i], lsn - rs[i].lsn);
    if cells == Encode(r) {
      assert cells[0] == Cell(r, 0);
    }
  }

  // ---- Scanning ----

  /** What a scan of cells finds: the whole records, whether a broken one follows, and where they end. */
  datatype Scan = Corrupt | Scan(records: seq<Record>, torn: bool, end: Lsn)

  /** The start of a record whose rest is missing, or nothing. */
  predicate Broken(tail: seq<Cell>) {
    |tail| < RECORD_HEADER || (tail[0].at == 0 && |tail| < Size(tail[0].record) <= MAX_RECORD)
  }

  function Parse(cells: seq<Cell>, start: Lsn): (res: Scan) {
    if cells == [] then Scan([], false, start)
    else if |cells| < RECORD_HEADER then Scan([], true, start)
    else
      var total := Size(cells[0].record);
      if cells[0].at != 0 || total > MAX_RECORD then Corrupt
      else if total > |cells| then Scan([], true, start)
      else
        match Decode(cells[..total], start)
        case None => Corrupt
        case Some(r) => Prepend([r], Parse(cells[total..], start + total))
  }

  function Prepend(rs: seq<Record>, s: Scan): (r: Scan) {
    match s
    case Corrupt => Corrupt
    case Scan(more, torn, end) => Scan(rs + more, torn, end)
  }

  /** Whole records of this run, then a broken one or nothing. */
  ghost predicate Shape(cells: seq<Cell>, start: Lsn, rs: seq<Record>, tail: seq<Cell>) {
    cells == EncodeAll(rs) + tail && Placed(rs,
                                            start) && (forall r :: r in rs ==> Size(r) <= MAX_RECORD) && Broken(tail)
  }

  lemma Head(r: Record, rest: seq<Cell>)
    ensures var cells := Encode(r) + rest;
            |cells| >= RECORD_HEADER && cells[0] == Cell(r,
                                                         0) && cells[..Size(r)] == Encode(r) && cells[Size(r)..] == rest
  {
  }

  lemma ParseTail(tail: seq<Cell>, start: Lsn)
    requires Broken(tail)
    ensures Parse(tail, start) == Scan([], tail != [], start)
  {
  }

  lemma ParseStep(r: Record, rest: seq<Cell>, start: Lsn)
    requires Size(r) <= MAX_RECORD && r.lsn == start
    ensures Parse(Encode(r) + rest, start) == Prepend([r], Parse(rest, start + Size(r)))
  {
    hide Encode, Prepend;
    Head(r, rest);
    assert Decode(Encode(r), start) == Some(r);
  }

  /** One whole record in front of a shape. */
  lemma ShapeCons(rest: seq<Cell>, start: Lsn, r: Record, more: seq<Record>, tail: seq<Cell>)
    requires r.lsn == start && Size(r) <= MAX_RECORD && Shape(rest, start + Size(r), more, tail)
    ensures Shape(Encode(r) + rest, start, [r] + more, tail) && Total([r] + more) == Size(r) + Total(more)
  {
    hide Encode, Broken;
    assert ([r] + more)[1..] == more;
    Assoc(Encode(r), EncodeAll(more), tail);
  }

  lemma ShapeTail(cells: seq<Cell>, start: Lsn, rs: seq<Record>, tail: seq<Cell>)
    requires Shape(cells, start, rs, tail) && rs != []
    ensures var rest := EncodeAll(rs[1..]) + tail;
            cells == Encode(rs[0]) + rest && Shape(rest, start + Size(rs[0]), rs[1..],
                                                   tail) && rs[0].lsn == start && Size(rs[0]) <= MAX_RECORD
  {
    hide Encode, Broken;
    Assoc(Encode(rs[0]), EncodeAll(rs[1..]), tail);
    assert rs[0] in rs && forall r :: r in rs[1..] ==> r in rs;
  }

  /** A scan of whole records and a broken tail finds exactly them. */
  lemma {:induction false} ParseFinds(cells: seq<Cell>, start: Lsn, rs: seq<Record>, tail: seq<Cell>)
    requires Shape(cells, start, rs, tail)
    ensures Parse(cells, start) == Scan(rs, tail != [], start + Total(rs))
    decreases rs
  {
    hide Encode, Parse, Broken, Placed;
    if rs == [] {
      assert cells == tail;
      ParseTail(tail, start);
    } else {
      hide EncodeAll;
      ShapeTail(cells, start, rs, tail);
      var rest := EncodeAll(rs[1..]) + tail;
      ParseStep(rs[0], rest, start);
      ParseFinds(rest, start + Size(rs[0]), rs[1..], tail);
      assert [rs[0]] + rs[1..] == rs;
    }
  }

  lemma ParseCases(cells: seq<Cell>, start: Lsn)
    requires Parse(cells, start).Scan? && !Broken(cells)
    ensures var r := cells[0].record;
            && Size(r) <= |cells| && Size(r) <= MAX_RECORD && r.lsn == start && cells == Encode(r) + cells[Size(r)..]
            && Parse(cells, start) == Prepend([r], Parse(cells[Size(r)..], start + Size(r)))
  {
    hide Encode, Prepend;
    var r := cells[0].record;
    assert cells == cells[..Size(r)] + cells[Size(r)..];
    assert Decode(cells[..Size(r)], start).Some?;
    assert |Decode(cells[..Size(r)], start).value.payload| == |r.payload|;
    Whole(cells[..Size(r)], Decode(cells[..Size(r)], start).value);
  }

  lemma Whole(cells: seq<Cell>, r: Record)
    requires cells == Encode(r)
    ensures cells[0] == Cell(r, 0)
  {
  }

  /** What a scan reports is there. */
  lemma {:induction false} ParseSound(cells: seq<Cell>, start: Lsn) returns (tail: seq<Cell>)
    requires Parse(cells, start).Scan?
    ensures var s := Parse(cells, start);
            s.end == start + Total(s.records) && Shape(cells, start, s.records, tail) && (s.torn <==> tail != [])
    decreases |cells|
  {
    hide Encode, Decode, Parse;
    if Broken(cells) {
      tail := cells;
      ParseTail(cells, start);
      assert [] + cells == cells;
    } else {
      hide Broken, Shape;
      ParseCases(cells, start);
      var r := cells[0].record;
      tail := ParseSound(cells[Size(r)..], start + Size(r));
      ShapeCons(cells[Size(r)..], start, r, Parse(cells[Size(r)..], start + Size(r)).records, tail);
    }
  }

  /** The scan of one segment file's contents. */
  method ScanCells(cells: seq<Cell>, start: Lsn) returns (s: Scan)
    ensures s == Parse(cells, start)
  {
    hide Encode, Decode, Prepend;
    var records, local, logical := [], 0, start;
    PrependNone(Parse(cells, start));
    assert cells[0..] == cells;
    while local < |cells|
      invariant local <= |cells|
      invariant Parse(cells, start) == Prepend(records, Parse(cells[local..], logical))
    {
      PrependEnd(records, logical);
      if |cells| - local < RECORD_HEADER {
        return Scan(records, true, logical);
      }
      var total := Size(cells[local].record);
      if cells[local].at != 0 || total > MAX_RECORD {
        return Corrupt;
      }
      if total > |cells| - local {
        return Scan(records, true, logical);
      }
      var decoded := Decode(cells[local..local + total], logical);
      assert cells[local..][..total] == cells[local..local + total];
      if decoded.None? {
        return Corrupt;
      }
      assert cells[local..][total..] == cells[local + total..];
      PrependTwice(records, [decoded.value], Parse(cells[local + total..], logical + total));
      records, local, logical := records + [decoded.value], local + total, logical + total;
    }
    assert cells[local..] == [];
    PrependEnd(records, logical);
    s := Scan(records, false, logical);
  }

  lemma PrependNone(s: Scan)
    ensures Prepend([], s) == s
  {
  }

  lemma PrependEnd(rs: seq<Record>, end: Lsn)
    ensures Prepend(rs, Corrupt) == Corrupt
    ensures forall torn :: Prepend(rs, Scan([], torn, end)) == Scan(rs, torn, end)
  {
    assert rs + [] == rs;
  }

  lemma PrependTwice(a: seq<Record>, b: seq<Record>, s: Scan)
    ensures Prepend(a, Prepend(b, s)) == Prepend(a + b, s)
  {
    if s.Scan? {
      Assoc(a, b, s.records);
    }
  }

  lemma TakeConcat(a: seq<Cell>, b: seq<Cell>, k: nat)
    requires |a| <= k <= |a| + |b|
    ensures (a + b)[..k] == a + b[..k - |a|]
  {
  }

  /** Cutting a run of records at any cell leaves whole records and a broken one. */
  lemma {:induction false} CutRun(rs: seq<Record>, start: Lsn, k: nat) returns (i: nat, tail: seq<Cell>)
    requires Placed(rs, start) && k <= Total(rs) && forall r :: r in rs ==> Size(r) <= MAX_RECORD
    ensures i <= |rs| && k == Total(rs[..i]) + |tail| && (i < |rs| ==> |tail| < Size(rs[i]))
    ensures (i == |rs| ==> tail == [])
    ensures Shape(EncodeAll(rs)[..k], start, rs[..i], tail)
    decreases rs
  {
    hide Encode, Shape;
    if rs == [] {
      i, tail := 0, [];
      assert EncodeAll(rs)[..k] == [];
      NoRecords([], start);
    } else if k < Size(rs[0]) {
      i, tail := 0, EncodeAll(rs)[..k];
      assert rs[..0] == [];
      Head(rs[0], EncodeAll(rs[1..]));
      NoRecords(tail, start);
    } else {
      var m := Size(rs[0]);
      var j;
      assert rs[0] in rs && forall r :: r in rs[1..] ==> r in rs;
      j, tail := CutRun(rs[1..], start + m, k - m);
      i := j + 1;
      assert rs[..i] == [rs[0]] + rs[1..][..j];
      TakeConcat(Encode(rs[0]), EncodeAll(rs[1..]), k);
      ShapeCons(EncodeAll(rs[1..])[..k - m], start, rs[0], rs[1..][..j], tail);
    }
  }

  lemma NoRecords(tail: seq<Cell>, start: Lsn)
    requires Broken(tail)
    ensures Shape(tail, start, [], tail)
  {
    assert [] + tail == tail;
  }
}
