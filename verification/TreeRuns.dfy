/** Runs of neighbouring subtrees in the page map: zooming into one child and back out, writing the
    parent's page, adding and removing pages. */
module TreeRuns {
  import opened TreeTheory

  // ---- Page conservation ----

  /** The pages an index and its free list may use: all but the header and the metadata page. */
  function DataPages(pageCount: nat, meta: PageId): (r: multiset<PageId>) {
    if pageCount <= 1 then multiset{}
    else DataPages(pageCount - 1, meta) + if pageCount - 1 == meta then multiset{} else multiset{pageCount - 1}
  }

  lemma {:induction false} DataPagesIs(pageCount: nat, meta: PageId, p: PageId)
    ensures DataPages(pageCount, meta)[p] == if 1 <= p < pageCount && p != meta then 1 else 0
  {
    if pageCount > 1 {
      DataPagesIs(pageCount - 1, meta, p);
    }
  }

  /** Every data page is exactly once in the tree, in the free list, or elsewhere. */
  predicate Balanced(free: seq<PageId>, bag: multiset<PageId>, others: multiset<PageId>, pageCount: nat, meta: PageId) {
    meta < pageCount && multiset(free) + bag + others == DataPages(pageCount, meta)
  }

  lemma NoneTwice(free: seq<PageId>, bag: multiset<PageId>, others: multiset<PageId>, pageCount: nat, meta: PageId,
                  p: PageId)
    requires Balanced(free, bag, others, pageCount, meta)
    ensures multiset(free)[p] + bag[p] + others[p] <= 1
  {
    DataPagesIs(pageCount, meta, p);
    assert (multiset(free) + bag + others)[p] == multiset(free)[p] + bag[p] + others[p];
  }

  /** A page in use is a data page. */
  lemma InUse(free: seq<PageId>, pageCount: nat, meta: PageId, bag: multiset<PageId>, others: multiset<PageId>,
              p: PageId)
    requires Balanced(free, bag, others, pageCount, meta) && (p in bag || p in others)
    ensures 1 <= p < pageCount && p != meta
  {
    DataPagesIs(pageCount, meta, p);
    assert (multiset(free) + bag + others)[p] == multiset(free)[p] + bag[p] + others[p];
  }

  /** Taking the head of the free list, or the next new page. */
  lemma AllocateBalanced(free: seq<PageId>, bag: multiset<PageId>, others: multiset<PageId>, pageCount: nat,
                         meta: PageId)
    requires Balanced(free, bag, others, pageCount, meta)
    ensures free != [] ==> Balanced(free[1..], bag + multiset{free[0]}, others, pageCount, meta)
    ensures free == [] ==> Balanced(free, bag + multiset{pageCount}, others, pageCount + 1, meta)
  {
    if free != [] {
      assert free == [free[0]] + free[1..];
    }
  }

  // ---- The free list ----

  /** Page i of the free list links to the next one. */
  predicate FreeAt(pages: Pages, free: seq<PageId>, i: nat)
    requires i < |free|
  {
    free[i] in pages && pages[free[i]] == FreePage(At(free, i + 1))
  }

  /** The free pages are linked in order. */
  predicate FreeList(pages: Pages, free: seq<PageId>) {
    forall i: nat :: i < |free| ==> FreeAt(pages, free, i)
  }

  lemma FreeKept(pages: Pages, pages': Pages, free: seq<PageId>)
    requires FreeList(pages, free) && forall q :: q in free ==> SamePage(pages, pages', q)
    ensures FreeList(pages', free)
  {
    forall i: nat | i < |free| ensures FreeAt(pages', free, i) {
      assert FreeAt(pages, free, i) && SamePage(pages, pages', free[i]);
    }
  }

  /** Without its head, the list is still linked. */
  lemma FreeTail(pages: Pages, free: seq<PageId>)
    requires FreeList(pages, free) && free != []
    ensures FreeList(pages, free[1..]) && free[0] in pages && pages[free[0]] == FreePage(At(free[1..], 0))
  {
    assert FreeAt(pages, free, 0);
    forall i: nat | i < |free[1..]| ensures FreeAt(pages, free[1..], i) {
      assert FreeAt(pages, free, i + 1);
    }
  }

  /** A page linked in front. */
  lemma FreePush(pages: Pages, free: seq<PageId>, p: PageId)
    requires FreeList(pages, free) && p !in free
    ensures FreeList(pages[p := FreePage(At(free, 0))], [p] + free)
  {
    var pages', free' := pages[p := FreePage(At(free, 0))], [p] + free;
    forall i: nat | i < |free'| ensures FreeAt(pages', free', i) {
      if i > 0 {
        assert FreeAt(pages, free, i - 1) && free'[i] == free[i - 1];
      }
    }
  }

  /** A linked list visits no page twice. */
  lemma {:induction false} FreeDistinct(pages: Pages, free: seq<PageId>, i: nat, j: nat)
    requires FreeList(pages, free) && i < j < |free|
    ensures free[i] != free[j]
    decreases |free| - j
  {
    assert FreeAt(pages, free, i) && FreeAt(pages, free, j);
    if j + 1 < |free| {
      FreeDistinct(pages, free, i + 1, j + 1);
    }
  }

  /** A run of neighbouring subtrees in the page map: represented, their pages accounted for once, their
      leaves linked between the leaves before and after, and the free pages linked among themselves. */
  ghost predicate Held(pages: Pages, free: seq<PageId>, pageCount: nat, meta: PageId, ts: seq<Tree>,
                       others: multiset<PageId>, before: seq<PageId>, after: seq<PageId>) {
    && (forall i :: 0 <= i < |ts| ==> Rep(pages, ts[i]))
    && Balanced(free, BagAll(ts), others, pageCount, meta)
    && Chain(pages, before + LeafPagesAll(ts) + after)
    && (forall q :: q in before || q in after ==> q in others)
    && FreeList(pages, free)
  }

  /** Pages outside the run keep their nodes; unless they are leaves beside it, they are not written at all. */
  ghost predicate Untouched(pages: Pages, pages': Pages, others: multiset<PageId>, beside: seq<PageId>) {
    forall q :: q in others ==> SameNode(pages, pages', q) && (q !in beside ==> SamePage(pages, pages', q))
  }

  ghost predicate SameNodes(pages: Pages, pages': Pages, bag: multiset<PageId>) {
    forall q :: q in bag ==> SameNode(pages, pages', q)
  }

  lemma UntouchedRefl(pages: Pages, others: multiset<PageId>, beside: seq<PageId>)
    ensures Untouched(pages, pages, others, beside)
  {
  }

  lemma UntouchedTrans(a: Pages, b: Pages, c: Pages, others: multiset<PageId>, beside: seq<PageId>)
    requires Untouched(a, b, others, beside) && Untouched(b, c, others, beside)
    ensures Untouched(a, c, others, beside)
  {
  }

  lemma UntouchedLess(a: Pages, b: Pages, others: multiset<PageId>, p: PageId, beside: seq<PageId>)
    requires Untouched(a, b, others + multiset{p}, beside)
    ensures Untouched(a, b, others, beside)
  {
  }

  /** Pages that are not written keep everything said of them. */
  lemma UntouchedWrite(pages: Pages, p: PageId, node: PageNode, others: multiset<PageId>, beside: seq<PageId>)
    requires p !in others
    ensures Untouched(pages, pages[p := node], others, beside)
  {
  }

  /** What surrounds a part of a run surrounds the run: its other leaves are not among the others. */
  lemma UntouchedOut(pages: Pages, pages': Pages, free: seq<PageId>, pageCount: nat, meta: PageId,
                     bag: multiset<PageId>,
                     ts: seq<Tree>, a: nat, b: nat, others: multiset<PageId>, before: seq<PageId>, after: seq<PageId>)
    requires a <= b <= |ts| && Balanced(free, bag, others + Rest(ts, a, b), pageCount, meta)
    requires Untouched(pages, pages', others + Rest(ts, a, b),
                       (before + LeafPagesAll(ts[..a])) + (LeafPagesAll(ts[b..]) + after))
    ensures Untouched(pages, pages', others, before + after) && SameNodes(pages, pages', Rest(ts, a, b))
  {
    hide Balanced, BagAll, LeafPagesAll;
    var l, r := LeafPagesAll(ts[..a]), LeafPagesAll(ts[b..]);
    forall q | q in others ensures SameNode(pages, pages', q) && (q !in before + after ==> SamePage(pages, pages', q)) {
      assert q in others + Rest(ts, a, b);
      if q !in before + after {
        NotInRest(free, pageCount, meta, bag, ts, a, b, others, q);
        assert q !in (before + l) + (r + after);
      }
    }
  }

  lemma NotInRest(free: seq<PageId>, pageCount: nat, meta: PageId, bag: multiset<PageId>, ts: seq<Tree>, a: nat, b: nat,
                  others: multiset<PageId>, q: PageId)
    requires a <= b <= |ts| && Balanced(free, bag, others + Rest(ts, a, b), pageCount, meta) && q in others
    ensures q !in LeafPagesAll(ts[..a]) && q !in LeafPagesAll(ts[b..])
  {
    hide Balanced, BagAll, LeafPagesAll;
    NoneTwice(free, bag, others + Rest(ts, a, b), pageCount, meta, q);
    if q in LeafPagesAll(ts[..a]) {
      LeafPagesInBagAll(ts[..a], q);
    }
    if q in LeafPagesAll(ts[b..]) {
      LeafPagesInBagAll(ts[b..], q);
    }
  }

  // ---- Zooming ----

  /** All the pages of a run but those of its part from a to b. */
  function Rest(ts: seq<Tree>, a: nat, b: nat): (r: multiset<PageId>)
    requires a <= b <= |ts|
  {
    BagAll(ts[..a]) + BagAll(ts[b..])
  }

  /** The run with that part replaced. */
  function Replaced(ts: seq<Tree>, a: nat, b: nat, mid: seq<Tree>): (r: seq<Tree>)
    requires a <= b <= |ts|
  {
    ts[..a] + mid + ts[b..]
  }

  lemma Cut(ts: seq<Tree>, a: nat, b: nat)
    requires a <= b <= |ts|
    ensures ts == Replaced(ts, a, b, ts[a..b])
    ensures EntriesAll(ts) == EntriesAll(ts[..a]) + EntriesAll(ts[a..b]) + EntriesAll(ts[b..])
    ensures BagAll(ts) == BagAll(ts[..a]) + BagAll(ts[a..b]) + BagAll(ts[b..])
    ensures LeafPagesAll(ts) == LeafPagesAll(ts[..a]) + LeafPagesAll(ts[a..b]) + LeafPagesAll(ts[b..])
  {
    hide EntriesAll, BagAll, LeafPagesAll;
    SliceThree(ts, a, b);
    Around(ts[..a], ts[a..b], ts[b..]);
  }

  lemma SliceThree<T>(ts: seq<T>, a: nat, b: nat)
    requires a <= b <= |ts|
    ensures ts == ts[..a] + ts[a..b] + ts[b..]
  {
  }

  lemma Zoom(pages: Pages, free: seq<PageId>, pageCount: nat, meta: PageId, ts: seq<Tree>, a: nat, b: nat,
             others: multiset<PageId>, before: seq<PageId>, after: seq<PageId>)
    requires a <= b <= |ts| && Held(pages, free, pageCount, meta, ts, others, before, after)
    ensures Held(pages, free, pageCount, meta, ts[a..b], others + Rest(ts, a, b),
                 before + LeafPagesAll(ts[..a]), LeafPagesAll(ts[b..]) + after)
  {
    hide Balanced, Chain, Rep, BagAll, LeafPagesAll, EntriesAll, FreeList;
    Cut(ts, a, b);
    ZoomLeaves(before, LeafPagesAll(ts[..a]), LeafPagesAll(ts[a..b]), LeafPagesAll(ts[b..]), after);
    ZoomBalanced(free, pageCount, meta, BagAll(ts[..a]), BagAll(ts[a..b]), BagAll(ts[b..]), others);
    ZoomMembers(ts, a, b, others, before, after);
  }

  lemma ZoomLeaves(before: seq<PageId>, a: seq<PageId>, m: seq<PageId>, b: seq<PageId>, after: seq<PageId>)
    ensures before + (a + m + b) + after == (before + a) + m + (b + after)
  {
  }

  lemma ZoomMembers(ts: seq<Tree>, a: nat, b: nat, others: multiset<PageId>, before: seq<PageId>, after: seq<PageId>)
    requires a <= b <= |ts| && forall q :: q in before || q in after ==> q in others
    ensures forall q :: q in before + LeafPagesAll(ts[..a]) || q in LeafPagesAll(ts[b..]) + after ==>
              q in others + Rest(ts, a, b)
  {
    hide BagAll, LeafPagesAll;
    var l, r := LeafPagesAll(ts[..a]), LeafPagesAll(ts[b..]);
    forall q | q in before + l || q in r + after ensures q in others + Rest(ts, a, b) {
      if q in l {
        LeafPagesInBagAll(ts[..a], q);
      } else if q in r {
        LeafPagesInBagAll(ts[b..], q);
      }
    }
  }

  lemma ZoomBalanced(free: seq<PageId>, pageCount: nat, meta: PageId, a: multiset<PageId>, m: multiset<PageId>,
                     b: multiset<PageId>, others: multiset<PageId>)
    ensures Balanced(free, a + m + b, others, pageCount, meta) <==> Balanced(free, m, others + (a + b), pageCount, meta)
  {
    assert multiset(free) + (a + m + b) + others == multiset(free) + m + (others + (a + b));
  }

  /** Back out, with the part replaced. */
  lemma Unzoom(pages: Pages, pages': Pages, free: seq<PageId>, pageCount: nat, meta: PageId,
               ts: seq<Tree>, a: nat, b: nat, mid: seq<Tree>,
               others: multiset<PageId>, before: seq<PageId>, after: seq<PageId>)
    requires a <= b <= |ts| && (forall i :: 0 <= i < |ts| ==> Rep(pages, ts[i]))
    requires Held(pages', free, pageCount, meta, mid, others + Rest(ts, a, b),
                  before + LeafPagesAll(ts[..a]), LeafPagesAll(ts[b..]) + after)
    requires forall q :: q in before || q in after ==> q in others
    requires SameNodes(pages, pages', Rest(ts, a, b))
    ensures Held(pages', free, pageCount, meta, Replaced(ts, a, b, mid), others, before, after)
  {
    hide Balanced, Chain, Rep, BagAll, LeafPagesAll, EntriesAll, FreeList;
    Around(ts[..a], mid, ts[b..]);
    ZoomLeaves(before, LeafPagesAll(ts[..a]), LeafPagesAll(mid), LeafPagesAll(ts[b..]), after);
    ZoomBalanced(free, pageCount, meta, BagAll(ts[..a]), BagAll(mid), BagAll(ts[b..]), others);
    UnzoomReps(pages, pages', ts, a, b, mid);
  }

  lemma UnzoomReps(pages: Pages, pages': Pages, ts: seq<Tree>, a: nat, b: nat, mid: seq<Tree>)
    requires a <= b <= |ts| && (forall i :: 0 <= i < |ts| ==> Rep(pages, ts[i]))
    requires forall i :: 0 <= i < |mid| ==> Rep(pages', mid[i])
    requires SameNodes(pages, pages', Rest(ts, a, b))
    ensures var ts' := Replaced(ts, a, b, mid); forall i :: 0 <= i < |ts'| ==> Rep(pages', ts'[i])
  {
    hide Rep, Bag, BagAll;
    var ts' := Replaced(ts, a, b, mid);
    forall i | 0 <= i < |ts'| ensures Rep(pages', ts'[i]) {
      if i < a {
        Beside(pages, pages', ts[..a], i, Rest(ts, a, b));
      } else if i < a + |mid| {
        assert ts'[i] == mid[i - a];
      } else {
        var k := i - a - |mid|;
        assert ts'[i] == ts[b..][k] == ts[b + k];
        Beside(pages, pages', ts[b..], k, Rest(ts, a, b));
      }
    }
  }

  /** A tree none of whose pages was touched. */
  lemma Beside(pages: Pages, pages': Pages, ts: seq<Tree>, i: nat, untouched: multiset<PageId>)
    requires i < |ts| && Rep(pages, ts[i]) && SameNodes(pages, pages', untouched)
    requires forall q :: q in BagAll(ts) ==> q in untouched
    ensures Rep(pages', ts[i])
  {
    hide Rep, Bag, BagAll;
    forall q | q in Bag(ts[i]) ensures SameNode(pages, pages', q) {
      MemberBag(ts, i, q);
    }
    RepFrame(pages, pages', ts[i]);
  }

  // ---- Parents ----

  /** From a node to its children: the node's page joins the others. */
  lemma Under(pages: Pages, free: seq<PageId>, pageCount: nat, meta: PageId, t: Tree,
              others: multiset<PageId>, before: seq<PageId>, after: seq<PageId>)
    requires t.Node? && Held(pages, free, pageCount, meta, [t], others, before, after)
    ensures Held(pages, free, pageCount, meta, t.children, others + multiset{t.page}, before, after)
    ensures t.children != [] && t.page in pages && pages[t.page] == InnerPage(Seps(t.children), RootPages(t.children))
  {
    hide DataPages, Chain, FreeList;
    OneEntry(t);
    assert Rep(pages, [t][0]);
    ParentBalanced(free, pageCount, meta, BagAll(t.children), t.page, others);
  }

  lemma ParentBalanced(free: seq<PageId>, pageCount: nat, meta: PageId, bag: multiset<PageId>, p: PageId,
                       others: multiset<PageId>)
    ensures Balanced(free, multiset{p} + bag, others, pageCount, meta) <==>
              Balanced(free, bag, others + multiset{p}, pageCount, meta)
  {
    assert multiset(free) + (multiset{p} + bag) + others == multiset(free) + bag + (others + multiset{p});
  }

  /** And back, when the node's page holds its separators and children. */
  lemma Over(pages: Pages, free: seq<PageId>, pageCount: nat, meta: PageId, p: PageId, ts: seq<Tree>,
             others: multiset<PageId>, before: seq<PageId>, after: seq<PageId>)
    requires Held(pages, free, pageCount, meta, ts, others + multiset{p}, before, after)
    requires ts != [] && p in pages && pages[p] == InnerPage(Seps(ts), RootPages(ts))
    requires forall q :: q in before || q in after ==> q in others
    ensures Held(pages, free, pageCount, meta, [Node(p, ts)], others, before, after)
  {
    hide DataPages, Chain, FreeList;
    OneEntry(Node(p, ts));
    ParentBalanced(free, pageCount, meta, BagAll(ts), p, others);
  }

  /** Writing a page that belongs to nothing in the run disturbs nothing else. */
  lemma WriteInner(pages: Pages, free: seq<PageId>, pageCount: nat, meta: PageId, p: PageId, node: PageNode,
                   ts: seq<Tree>,
                   others: multiset<PageId>, before: seq<PageId>, after: seq<PageId>)
    requires Held(pages, free, pageCount, meta, ts, others + multiset{p}, before, after)
    requires forall q :: q in before || q in after ==> q in others
    ensures Held(pages[p := node], free, pageCount, meta, ts, others + multiset{p}, before, after)
    ensures Untouched(pages, pages[p := node], others, before + after)
  {
    hide Balanced, Rep, Bag, BagAll, LeafPagesAll, Chain, FreeList;
    var pages' := pages[p := node];
    NotUsed(free, pageCount, meta, BagAll(ts), others, p);
    RepsElsewhere(pages, ts, p, node);
    LinksElsewhere(pages, ts, p, node, others, before, after);
    FreeKept(pages, pages', free);
    UntouchedWrite(pages, p, node, others, before + after);
  }

  /** A page among the others is in none of the other places. */
  lemma NotUsed(free: seq<PageId>, pageCount: nat, meta: PageId, bag: multiset<PageId>, others: multiset<PageId>,
                p: PageId)
    requires Balanced(free, bag, others + multiset{p}, pageCount, meta)
    ensures p !in others && p !in bag && p !in free
  {
    hide Balanced;
    NoneTwice(free, bag, others + multiset{p}, pageCount, meta, p);
    assert p in free ==> multiset(free)[p] > 0;
  }

  lemma RepsElsewhere(pages: Pages, ts: seq<Tree>, p: PageId, node: PageNode)
    requires p !in BagAll(ts) && forall i :: 0 <= i < |ts| ==> Rep(pages, ts[i])
    ensures forall i :: 0 <= i < |ts| ==> Rep(pages[p := node], ts[i])
  {
    hide Rep, Bag, BagAll;
    forall i | 0 <= i < |ts| ensures Rep(pages[p := node], ts[i]) {
      forall q | q in Bag(ts[i]) ensures SameNode(pages, pages[p := node], q) {
        MemberBag(ts, i, q);
      }
      RepFrame(pages, pages[p := node], ts[i]);
    }
  }

  lemma LinksElsewhere(pages: Pages, ts: seq<Tree>, p: PageId, node: PageNode, others: multiset<PageId>,
                       before: seq<PageId>, after: seq<PageId>)
    requires p !in BagAll(ts) && p !in others && forall q :: q in before || q in after ==> q in others
    requires Chain(pages, before + LeafPagesAll(ts) + after)
    ensures Chain(pages[p := node], before + LeafPagesAll(ts) + after)
  {
    hide Bag, BagAll, LeafPagesAll;
    var ls := before + LeafPagesAll(ts) + after;
    forall i: nat | i < |ls| ensures SameLinks(pages, pages[p := node], ls[i]) {
      assert Linked(pages, ls, i);
      assert ls[i] in before || ls[i] in LeafPagesAll(ts) || ls[i] in after;
      if ls[i] in LeafPagesAll(ts) {
        LeafPagesInBagAll(ts, ls[i]);
      }
      assert ls[i] != p;
    }
    ChainSame(pages, pages[p := node], ls);
  }

  /** A run cut in two, with a page allocated for the second parent. */
  lemma SplitRun(pages: Pages, free: seq<PageId>, pageCount: nat, meta: PageId, ts: seq<Tree>, n: nat, p: PageId,
                 q: PageId,
                 others: multiset<PageId>, before: seq<PageId>, after: seq<PageId>)
    requires n <= |ts| && Held(pages, free, pageCount, meta, ts, others + multiset{p} + multiset{q}, before, after)
    requires forall x :: x in before || x in after ==> x in others
    requires 0 < n < |ts| && p in pages && q in pages
    requires pages[p] == InnerPage(Seps(ts[..n]), RootPages(ts[..n]))
    requires pages[q] == InnerPage(Seps(ts[n..]), RootPages(ts[n..]))
    ensures Held(pages, free, pageCount, meta, [Node(p, ts[..n]), Node(q, ts[n..])], others, before, after)
  {
    hide Held, Seps, RootPages;
    Close(pages, free, pageCount, meta, ts, 0, n, p, others + multiset{q}, before, after) by {
      OthersOrder(others, p, q);
      assert ts[0..n] == ts[..n];
    }
    var ts1 := Replaced(ts, 0, n, [Node(p, ts[0..n])]);
    assert ts[0..n] == ts[..n] && ts1 == [Node(p, ts[..n])] + ts[n..];
    assert ts1[1..|ts1|] == ts[n..];
    Close(pages, free, pageCount, meta, ts1, 1, |ts1|, q, others, before, after);
    assert Replaced(ts1, 1, |ts1|, [Node(q, ts[n..])]) == [Node(p, ts[..n]), Node(q, ts[n..])];
  }

  lemma OthersOrder(others: multiset<PageId>, p: PageId, q: PageId)
    ensures others + multiset{p} + multiset{q} == others + multiset{q} + multiset{p}
  {
  }

  // ---- Opening and closing nodes of a run ----

  /** A node of the run gives way to its children; its page joins the others. */
  lemma Open(pages: Pages, free: seq<PageId>, pageCount: nat, meta: PageId, ts: seq<Tree>, i: nat,
             others: multiset<PageId>, before: seq<PageId>, after: seq<PageId>)
    requires i < |ts| && ts[i].Node? && Held(pages, free, pageCount, meta, ts, others, before, after)
    ensures Held(pages, free, pageCount, meta, Replaced(ts, i, i + 1, ts[i].children), others + multiset{ts[i].page},
                 before, after)
    ensures ts[i].children != [] && ts[i].page in pages
    ensures pages[ts[i].page] == InnerPage(Seps(ts[i].children), RootPages(ts[i].children))
  {
    hide Balanced, Chain, BagAll, LeafPagesAll, EntriesAll, FreeList;
    var t := ts[i];
    assert Rep(pages, t);
    hide Rep;
    Focus(ts, i);
    NodeParts(t);
    Around(ts[..i], t.children, ts[i + 1..]);
    OpenBalanced(free, pageCount, meta, BagAll(ts[..i]), BagAll(t.children), BagAll(ts[i + 1..]), t.page, others);
    OpenReps(pages, ts, i);
  }

  lemma NodeParts(t: Tree)
    requires t.Node?
    ensures Bag(t) == multiset{t.page} + BagAll(t.children) && LeafPages(t) == LeafPagesAll(t.children)
    ensures Entries(t) == EntriesAll(t.children)
  {
  }

  lemma OpenReps(pages: Pages, ts: seq<Tree>, i: nat)
    requires i < |ts| && ts[i].Node? && forall j :: 0 <= j < |ts| ==> Rep(pages, ts[j])
    ensures var ts' := Replaced(ts, i, i + 1, ts[i].children); forall j :: 0 <= j < |ts'| ==> Rep(pages, ts'[j])
  {
    var cs := ts[i].children;
    var ts' := Replaced(ts, i, i + 1, cs);
    assert Rep(pages, ts[i]);
    forall j | 0 <= j < |ts'| ensures Rep(pages, ts'[j]) {
      if j < i {
        assert ts'[j] == ts[j];
      } else if j < i + |cs| {
        assert ts'[j] == cs[j - i];
      } else {
        assert ts'[j] == ts[j - |cs| + 1];
      }
    }
  }

  lemma OpenBalanced(free: seq<PageId>, pageCount: nat, meta: PageId, a: multiset<PageId>, m: multiset<PageId>,
                     b: multiset<PageId>,
                     p: PageId, others: multiset<PageId>)
    ensures Balanced(free, a + (multiset{p} + m) + b, others, pageCount, meta)
            <==> Balanced(free, a + m + b, others + multiset{p}, pageCount, meta)
  {
    assert multiset(free) + (a + (multiset{p} + m) + b) + others ==
             multiset(free) + (a + m + b) + (others + multiset{p});
  }

  /** Part of a run goes under a node whose page holds its separators and pages. */
  lemma Close(pages: Pages, free: seq<PageId>, pageCount: nat, meta: PageId, ts: seq<Tree>, a: nat, b: nat, p: PageId,
              others: multiset<PageId>, before: seq<PageId>, after: seq<PageId>)
    requires a < b <= |ts| && Held(pages, free, pageCount, meta, ts, others + multiset{p}, before, after)
    requires p in pages && pages[p] == InnerPage(Seps(ts[a..b]), RootPages(ts[a..b]))
    requires forall q :: q in before || q in after ==> q in others
    ensures Held(pages, free, pageCount, meta, Replaced(ts, a, b, [Node(p, ts[a..b])]), others, before, after)
  {
    hide Balanced, Chain, BagAll, LeafPagesAll, EntriesAll, FreeList;
    var t := Node(p, ts[a..b]);
    CloseReps(pages, ts, a, b, p);
    hide Rep, Seps, RootPages;
    Cut(ts, a, b);
    NodeParts(t);
    Around(ts[..a], [t], ts[b..]);
    OneEntry(t);
    OpenBalanced(free, pageCount, meta, BagAll(ts[..a]), BagAll(ts[a..b]), BagAll(ts[b..]), p, others);
  }

  lemma CloseReps(pages: Pages, ts: seq<Tree>, a: nat, b: nat, p: PageId)
    requires a < b <= |ts| && forall j :: 0 <= j < |ts| ==> Rep(pages, ts[j])
    requires p in pages && pages[p] == InnerPage(Seps(ts[a..b]), RootPages(ts[a..b]))
    ensures var ts' := Replaced(ts, a, b, [Node(p, ts[a..b])]); forall j :: 0 <= j < |ts'| ==> Rep(pages, ts'[j])
  {
    var t := Node(p, ts[a..b]);
    var ts' := Replaced(ts, a, b, [t]);
    assert Rep(pages, t);
    forall j | 0 <= j < |ts'| ensures Rep(pages, ts'[j]) {
      if j < a {
        assert ts'[j] == ts[j];
      } else if j > a {
        assert ts'[j] == ts[j - a - 1 + b];
      }
    }
  }
}
