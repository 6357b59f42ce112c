/** What a walk along the leaf chain sees. */
module TreeScan {
  import opened TreeTheory
  import opened TreeOrder

  function EntriesAt(pages: Pages, p: PageId): (r: seq<Entry>) {
    if IsLeaf(pages, p) then pages[p].entries else []
  }

  /** The entries of a list of leaves, one leaf after the other. */
  function Flat(pages: Pages, ls: seq<PageId>): (r: seq<Entry>) {
    if ls == [] then [] else EntriesAt(pages, ls[0]) + Flat(pages, ls[1..])
  }

  lemma {:induction false} FlatConcat(pages: Pages, a: seq<PageId>, b: seq<PageId>)
    ensures Flat(pages, a + b) == Flat(pages, a) + Flat(pages, b)
  {
    if a == [] {
      assert a + b == b;
    } else {
      FlatConcat(pages, a[1..], b);
      assert (a + b)[1..] == a[1..] + b;
    }
  }

  lemma FlatOne(pages: Pages, p: PageId)
    ensures Flat(pages, [p]) == EntriesAt(pages, p)
  {
    assert [p][1..] == [];
  }

  /** The leaves of a tree, left to right, hold its entries in order. */
  lemma {:induction false} FlatTree(pages: Pages, t: Tree)
    requires Rep(pages, t)
    ensures Flat(pages, LeafPages(t)) == Entries(t)
    decreases t
  {
    if t.Leaf? {
      FlatOne(pages, t.page);
    } else {
      FlatTrees(pages, t.children);
    }
  }

  lemma {:induction false} FlatTrees(pages: Pages, ts: seq<Tree>)
    requires forall i :: 0 <= i < |ts| ==> Rep(pages, ts[i])
    ensures Flat(pages, LeafPagesAll(ts)) == EntriesAll(ts)
    decreases ts
  {
    if ts != [] {
      FlatTree(pages, ts[0]);
      FlatTrees(pages, ts[1..]);
      FlatConcat(pages, LeafPages(ts[0]), LeafPagesAll(ts[1..]));
    }
  }

  // ---- Intervals ----

  /** The entries with a key in the closed interval. */
  function Between(es: seq<Entry>, lo: Key, hi: Key): (r: seq<Entry>) {
    if es == [] then []
    else (if lo <= es[0].key <= hi then [es[0]] else []) + Between(es[1..], lo, hi)
  }

  lemma {:induction false} BetweenConcat(a: seq<Entry>, b: seq<Entry>, lo: Key, hi: Key)
    ensures Between(a + b, lo, hi) == Between(a, lo, hi) + Between(b, lo, hi)
  {
    if a == [] {
      assert a + b == b;
    } else {
      BetweenConcat(a[1..], b, lo, hi);
      assert (a + b)[1..] == a[1..] + b && (a + b)[0] == a[0];
      var first: seq<Entry> := if lo <= a[0].key <= hi then [a[0]] else [];
      SeqAssoc(first, Between(a[1..], lo, hi), Between(b, lo, hi));
    }
  }

  lemma {:induction false} BetweenNone(es: seq<Entry>, lo: Key, hi: Key)
    requires forall i :: 0 <= i < |es| ==> es[i].key < lo || hi < es[i].key
    ensures Between(es, lo, hi) == []
  {
    if es != [] {
      BetweenNone(es[1..], lo, hi);
    }
  }

  lemma BetweenOne(e: Entry, lo: Key, hi: Key)
    ensures Between([e], lo, hi) == if lo <= e.key <= hi then [e] else []
  {
    assert [e][1..] == [];
  }

  /** It is exactly the entries of the interval, in order and none twice. */
  lemma {:induction false} BetweenIs(es: seq<Entry>, lo: Key, hi: Key, e: Entry)
    requires Sorted(es)
    ensures e in Between(es, lo, hi) <==> e in es && lo <= e.key <= hi
    ensures Sorted(Between(es, lo, hi))
  {
    if es != [] {
      var rest := es[1..];
      BetweenIs(rest, lo, hi, e);
      forall x | x in Between(rest, lo, hi) ensures es[0].key < x.key {
        BetweenIs(rest, lo, hi, x);
      }
      assert es == [es[0]] + rest;
    }
  }

  // ---- Walking ----

  /** Up to leaf i everything in the interval has been collected; the rest of the interval is behind. */
  ghost predicate Collected(pages: Pages, ls: seq<PageId>, i: nat, lo: Key, hi: Key, found: seq<Entry>) {
    i <= |ls| && found == Between(Flat(pages, ls[..i]), lo, hi)
  }

  lemma CollectLeaf(pages: Pages, ls: seq<PageId>, i: nat, lo: Key, hi: Key, found: seq<Entry>)
    requires i < |ls| && Collected(pages, ls, i, lo, hi, found)
    ensures Collected(pages, ls, i + 1, lo, hi, found + Between(EntriesAt(pages, ls[i]), lo, hi))
  {
    assert ls[..i + 1] == ls[..i] + [ls[i]];
    FlatConcat(pages, ls[..i], [ls[i]]);
    FlatOne(pages, ls[i]);
    BetweenConcat(Flat(pages, ls[..i]), EntriesAt(pages, ls[i]), lo, hi);
  }

  /** Once a key above the interval shows, nothing of the interval follows. */
  lemma CollectDone(pages: Pages, ls: seq<PageId>, i: nat, j: nat, lo: Key, hi: Key, found: seq<Entry>)
    requires i < |ls| && j < |EntriesAt(pages, ls[i])| && Sorted(Flat(pages, ls))
    requires found == Between(Flat(pages, ls[..i]) + EntriesAt(pages, ls[i])[..j], lo, hi)
    requires hi < EntriesAt(pages, ls[i])[j].key
    ensures found == Between(Flat(pages, ls), lo, hi)
  {
    hide Sorted, Flat, Between;
    var es := EntriesAt(pages, ls[i]);
    var front, tail := Flat(pages, ls[..i]) + es[..j], es[j..] + Flat(pages, ls[i + 1..]);
    FlatAround(pages, ls, i);
    assert Flat(pages, ls) == front + tail;
    SortedParts(front, tail);
    assert tail[0] == es[j];
    FirstLeast(tail);
    BetweenNone(tail, lo, hi);
    BetweenConcat(front, tail, lo, hi);
  }

  lemma FlatAround(pages: Pages, ls: seq<PageId>, i: nat)
    requires i < |ls|
    ensures Flat(pages, ls) == Flat(pages, ls[..i]) + EntriesAt(pages, ls[i]) + Flat(pages, ls[i + 1..])
  {
    hide Flat;
    assert ls == ls[..i] + [ls[i]] + ls[i + 1..];
    FlatConcat(pages, ls[..i] + [ls[i]], ls[i + 1..]);
    FlatConcat(pages, ls[..i], [ls[i]]);
    FlatOne(pages, ls[i]);
  }
}
