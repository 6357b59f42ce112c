/** The steps of insertion, removal and lookup in the paged B+ tree, on values. */
module TreeSteps {
  import opened Options
  import opened TreeTheory
  import opened TreeOrder
  import opened TreeRuns
  import opened TreeErase
  import opened TreeScan

  datatype Split = Split(separator: Key, right: PageId)

  // ---- Insertion ----

  /** What an insertion into a subtree leaves behind: the subtree, or its two halves. */
  ghost predicate Grown(cfg: Config, t: Tree, h: nat, top: bool, e: Entry, ts: seq<Tree>, split: Option<Split>) {
    && 1 <= |ts| <= 2 && ts[0].page == t.page
    && Inserted(Entries(t), EntriesAll(ts), e)
    && (|ts| == 1 ==> split == None && Shaped(cfg, ts[0], h, top))
    && (|ts| == 2 ==> Ok(cfg, ts[0], h) && Ok(cfg, ts[1], h) && split == Some(Split(Min(ts[1]), ts[1].page)))
  }

  /** Half of an overfull node stays, the rest goes to a new page. */
  function LeftSize(n: nat): (r: nat) { (n + 1) / 2 }

  lemma LeafFits(pages: Pages, free: seq<PageId>, pageCount: nat, meta: PageId, t: Tree, others: multiset<PageId>,
                 before: seq<PageId>, after: seq<PageId>, entries: seq<Entry>)
    requires t.Leaf? && Held(pages, free, pageCount, meta, [t], others, before, after)
    ensures IsLeaf(pages, t.page)
    ensures var pages' := pages[t.page := pages[t.page].(entries := entries)];
            && Held(pages', free, pageCount, meta, [Leaf(t.page, entries)], others, before, after)
            && Untouched(pages, pages', others, before + after)
  {
    hide DataPages, Chain, FreeList;
    var p := t.page;
    OneEntry(t);
    OneEntry(Leaf(p, entries));
    assert Rep(pages, [t][0]);
    OneUsed(free, pageCount, meta, p, others);
    RewriteLeaf(pages, before + [p] + after, p, entries);
    FreeKept(pages, pages[p := pages[p].(entries := entries)], free);
  }

  lemma OneUsed(free: seq<PageId>, pageCount: nat, meta: PageId, p: PageId, others: multiset<PageId>)
    requires Balanced(free, multiset{p}, others, pageCount, meta)
    ensures p !in free && p !in others
  {
    hide Balanced;
    NoneTwice(free, multiset{p}, others, pageCount, meta, p);
    assert p in free ==> multiset(free)[p] > 0;
  }

  /** A leaf splits into a page allocated for its upper half. */
  lemma LeafSplits(pages: Pages, free: seq<PageId>, pageCount: nat, meta: PageId, t: Tree, others: multiset<PageId>,
                   before: seq<PageId>, after: seq<PageId>, q: PageId, left: seq<Entry>, right: seq<Entry>)
    requires t.Leaf? && Held(pages, free, pageCount, meta, [t], others + multiset{q}, before, after)
    requires forall x :: x in before || x in after ==> x in others
    ensures IsLeaf(pages, t.page) && q != t.page
    ensures var pages' := LinkAfter(pages, t.page, q, left, right);
            && Held(pages', free, pageCount, meta, [Leaf(t.page, left), Leaf(q, right)], others, before, after)
            && Untouched(pages, pages', others, before + after)
    ensures pages[t.page].next.Some? ==>
              && pages[t.page].next.value != q && IsLeaf(pages, pages[t.page].next.value)
              && pages[pages[t.page].next.value].prev == Some(t.page)
  {
    hide DataPages, Chain, LinkAfter, FreeList;
    var p := t.page;
    OneEntry(t);
    Pair(Leaf(p, left), Leaf(q, right));
    assert multiset(free) + multiset{p} + (others + multiset{q}) ==
             multiset(free) + (multiset{p} + multiset{q}) + others;
    PairUsed(free, pageCount, meta, p, q, others);
    LinkAfterOk(pages, before, p, after, q, left, right);
    BackLink(pages, before, p, after);
    NextBeside(pages, before, p, after);
    assert before + [p] + [q] + after == before + ([p] + [q]) + after;
    NotFree(free, pageCount, meta, multiset{p} + multiset{q}, others, after);
    FreeKept(pages, LinkAfter(pages, p, q, left, right), free);
  }

  lemma NextBeside(pages: Pages, before: seq<PageId>, p: PageId, after: seq<PageId>)
    requires Chain(pages, before + [p] + after) && IsLeaf(pages, p)
    ensures pages[p].next.Some? ==> pages[p].next.value in after
  {
    var ls := before + [p] + after;
    assert ls[|before|] == p && Linked(pages, ls, |before|);
    if after != [] {
      assert ls[|before| + 1] == after[0];
    }
  }

  lemma GrownLeaf(cfg: Config, t: Tree, top: bool, e: Entry, position: nat, entries: seq<Entry>, q: PageId)
    requires ConfigOk(cfg) && t.Leaf? && Shaped(cfg, t, 0, top) && position <= |t.entries| && Sorted(entries)
    requires entries == t.entries[..position] + [e] + t.entries[position..]
    ensures |entries| <= cfg.leafMax ==> Grown(cfg, t, 0, top, e, [Leaf(t.page, entries)], None)
    ensures var n := LeftSize(|entries|);
            |entries| > cfg.leafMax ==>
              Grown(cfg, t, 0, top, e, [Leaf(t.page, entries[..n]), Leaf(q, entries[n..])],
                    Some(Split(entries[n].key, q)))
  {
    hide Sorted;
    assert InsertedAt(t.entries, entries, e, position);
    OneEntry(Leaf(t.page, entries));
    var n := LeftSize(|entries|);
    Pair(Leaf(t.page, entries[..n]), Leaf(q, entries[n..]));
    assert entries[..n] + entries[n..] == entries;
  }

  // ---- Insertion into an inner node ----

  lemma Counts(ts: seq<Tree>, keys: seq<Key>, kids: seq<PageId>)
    requires ts != []
    ensures keys == Seps(ts) ==> |keys| == |ts| - 1
    ensures kids == RootPages(ts) ==> |kids| == |ts|
  {
  }

  /** A run keeps its shape while a page moves from the free list, or from behind the last page, to the others. */
  lemma HeldAllocate(pages: Pages, free: seq<PageId>, pageCount: nat, meta: PageId, ts: seq<Tree>,
                     others: multiset<PageId>,
                     before: seq<PageId>, after: seq<PageId>)
    requires Held(pages, free, pageCount, meta, ts, others, before, after)
    ensures FreeList(pages, free)
    ensures free != [] ==>
              var pages' := pages[free[0] := BlankPage];
              && Held(pages', free[1..], pageCount, meta, ts, others + multiset{free[0]}, before, after)
              && Untouched(pages, pages', others, before + after)
    ensures free == [] ==>
              var pages' := pages[pageCount := BlankPage];
              && Held(pages', free, pageCount + 1, meta, ts, others + multiset{pageCount}, before, after)
              && Untouched(pages, pages', others, before + after)
  {
    hide DataPages, Chain, Rep, BagAll, LeafPagesAll, FreeList, Untouched;
    AllocateBalanced(free, BagAll(ts), others, pageCount, meta);
    if free != [] {
      FreeTail(pages, free);
      BagShift(multiset(free[1..]), BagAll(ts), free[0], others);
      WriteInner(pages, free[1..], pageCount, meta, free[0], BlankPage, ts, others, before, after);
    } else {
      BagShift(multiset(free), BagAll(ts), pageCount, others);
      WriteInner(pages, free, pageCount + 1, meta, pageCount, BlankPage, ts, others, before, after);
    }
  }

  lemma BagShift(f: multiset<PageId>, bag: multiset<PageId>, q: PageId, others: multiset<PageId>)
    ensures f + (bag + multiset{q}) + others == f + bag + (others + multiset{q})
  {
  }

  /** The freshly allocated page is none of the pages in use. */
  lemma HeldFresh(pages: Pages, free: seq<PageId>, pageCount: nat, meta: PageId, ts: seq<Tree>,
                  others: multiset<PageId>,
                  p: PageId, q: PageId, before: seq<PageId>, after: seq<PageId>)
    requires Held(pages, free, pageCount, meta, ts, others + multiset{p} + multiset{q}, before, after)
    ensures p != q && p !in others && q !in others
  {
    hide DataPages, Chain, Rep, BagAll, LeafPagesAll, FreeList;
    NoneTwice(free, BagAll(ts), others + multiset{p} + multiset{q}, pageCount, meta, p);
    NoneTwice(free, BagAll(ts), others + multiset{p} + multiset{q}, pageCount, meta, q);
  }

  lemma ChildrenNonempty(cfg: Config, ts: seq<Tree>, h: nat)
    requires ConfigOk(cfg) && forall i :: 0 <= i < |ts| ==> Ok(cfg, ts[i], h)
    ensures AllNonempty(ts)
  {
    forall i | 0 <= i < |ts| ensures Entries(ts[i]) != [] {
      HasEntries(cfg, ts[i], h);
    }
  }

  lemma MinOrder(ts: seq<Tree>, i: nat, j: nat)
    requires i < j < |ts| && AllNonempty(ts) && Sorted(EntriesAll(ts))
    ensures Min(ts[i]) < Min(ts[j])
  {
    hide EntriesAll, Sorted;
    Focus(ts, j);
    var front := ts[..j];
    Focus(front, i);
    var a, m, b := EntriesAll(front), Entries(ts[j]), EntriesAll(ts[j + 1..]);
    SortedParts(a + m, b);
    SortedParts(a, m);
    assert front[i] == ts[i];
    assert a[|EntriesAll(front[..i])|] == Entries(ts[i])[0];
  }

  lemma SepsSorted(ts: seq<Tree>)
    requires ts != [] && AllNonempty(ts) && Sorted(EntriesAll(ts))
    ensures forall i, j :: 0 <= i < j < |ts| - 1 ==> Seps(ts)[i] < Seps(ts)[j]
  {
    hide EntriesAll, Sorted, Min;
    forall i, j | 0 <= i < j < |ts| - 1 ensures Seps(ts)[i] < Seps(ts)[j] {
      MinOrder(ts, i + 1, j + 1);
    }
  }

  /** The child the separators lead to, and what that says about the rest. */
  ghost predicate Routed(ts: seq<Tree>, c: nat, key: Key) {
    && c < |ts| && Below(EntriesAll(ts[..c]), key) && Above(EntriesAll(ts[c + 1..]), key)
    && (0 < c ==> Min(ts[c]) <= key)
  }

  lemma GrownChildren(cfg: Config, t: Tree, h: nat, top: bool, e: Entry, c: nat, mid: seq<Tree>, split: Option<Split>)
    requires ConfigOk(cfg) && t.Node? && 0 < h && Shaped(cfg, t, h, top) && Sorted(Entries(t))
    requires Routed(t.children, c, e.key)
    requires Grown(cfg, t.children[c], h - 1, false, e, mid, split)
    ensures var ts := Replaced(t.children, c, c + 1, mid);
            && Inserted(Entries(t), EntriesAll(ts), e)
            && (forall i :: 0 <= i < |ts| ==> Ok(cfg, ts[i], h - 1))
            && AllNonempty(ts)
            && (0 < c ==> Min(mid[0]) == Min(t.children[c]))
  {
    hide Sorted, EntriesAll, Entries, Ok, Inserted;
    var cs := t.children;
    NodeParts(t);
    ShapedChildren(cfg, t, h, top);
    GrownParts(cfg, cs[c], h - 1, e, mid, split);
    Focus(cs, c);
    Around(cs[..c], mid, cs[c + 1..]);
    InsertMiddle(EntriesAll(cs[..c]), Entries(cs[c]), EntriesAll(mid), EntriesAll(cs[c + 1..]), e);
    OkReplaced(cfg, cs, c, c + 1, mid, h - 1);
    ChildrenNonempty(cfg, Replaced(cs, c, c + 1, mid), h - 1);
    ChildrenNonempty(cfg, mid, h - 1);
    if 0 < c {
      FirstKey(mid);
      SameFirst(Entries(cs[c]), EntriesAll(mid), e);
    }
  }

  lemma GrownParts(cfg: Config, t: Tree, h: nat, e: Entry, ts: seq<Tree>, split: Option<Split>)
    requires Grown(cfg, t, h, false, e, ts, split)
    ensures ts != [] && Inserted(Entries(t), EntriesAll(ts), e) && forall i :: 0 <= i < |ts| ==> Ok(cfg, ts[i], h)
  {
    hide Inserted, Ok;
  }

  /** Inserting a key that is not below the first entry leaves the first entry first. */
  lemma SameFirst(es: seq<Entry>, es': seq<Entry>, e: Entry)
    requires es != [] && Inserted(es, es', e) && es[0].key <= e.key
    ensures es'[0] == es[0]
  {
    var i: nat :| InsertedAt(es, es', e, i);
    assert es'[0].key < es'[1].key;
  }

  lemma GrownInner(cfg: Config, t: Tree, h: nat, top: bool, e: Entry, ts: seq<Tree>, q: PageId)
    requires ConfigOk(cfg) && t.Node? && 0 < h && Shaped(cfg, t, h, top)
    requires Inserted(Entries(t), EntriesAll(ts), e) && (forall i :: 0 <= i < |ts| ==> Ok(cfg, ts[i], h - 1))
    requires AllNonempty(ts)
    requires |t.children| <= |ts| <= |t.children| + 1
    ensures |ts| <= cfg.innerMax + 1 ==> Grown(cfg, t, h, top, e, [Node(t.page, ts)], None)
    ensures |ts| > cfg.innerMax + 1 ==>
              var n := LeftSize(|ts|);
              0 < n < |ts|
              && Grown(cfg, t, h, top, e, [Node(t.page, ts[..n]), Node(q, ts[n..])], Some(Split(Min(ts[n]), q)))
  {
    hide Sorted, Inserted, EntriesAll;
    if |ts| <= cfg.innerMax + 1 {
      OneEntry(Node(t.page, ts));
      NodeParts(Node(t.page, ts));
    } else {
      var n := LeftSize(|ts|);
      HalvesOk(cfg, ts, h - 1, n, t.page, q);
      HalvesEntries(ts, n, t.page, q);
    }
  }

  lemma HalvesOk(cfg: Config, ts: seq<Tree>, h: nat, n: nat, p: PageId, q: PageId)
    requires ConfigOk(cfg) && |ts| == cfg.innerMax + 2 && n == LeftSize(|ts|)
    requires forall i :: 0 <= i < |ts| ==> Ok(cfg, ts[i], h)
    ensures 0 < n < |ts| && Ok(cfg, Node(p, ts[..n]), h + 1) && Ok(cfg, Node(q, ts[n..]), h + 1)
  {
  }

  lemma HalvesEntries(ts: seq<Tree>, n: nat, p: PageId, q: PageId)
    requires 0 < n < |ts| && AllNonempty(ts)
    ensures EntriesAll([Node(p, ts[..n]), Node(q, ts[n..])]) == EntriesAll(ts) && Min(Node(q, ts[n..])) == Min(ts[n])
  {
    hide EntriesAll, Entries, Bag, BagAll, LeafPages, LeafPagesAll;
    Pair(Node(p, ts[..n]), Node(q, ts[n..]));
    NodeParts(Node(p, ts[..n]));
    NodeParts(Node(q, ts[n..]));
    HalvesJoin(ts, n);
    FirstKey(ts[n..]);
  }

  lemma HalvesJoin(ts: seq<Tree>, n: nat)
    requires n <= |ts|
    ensures EntriesAll(ts[..n]) + EntriesAll(ts[n..]) == EntriesAll(ts)
  {
    hide EntriesAll;
    EntriesConcat(ts[..n], ts[n..]);
    assert ts == ts[..n] + ts[n..];
  }

  // ---- Steps of the descent ----

  lemma PageKind(pages: Pages, free: seq<PageId>, pageCount: nat, meta: PageId, t: Tree, others: multiset<PageId>,
                 before: seq<PageId>, after: seq<PageId>)
    requires Held(pages, free, pageCount, meta, [t], others, before, after)
    ensures t.page in pages && (if t.Leaf? then pages[t.page].LeafPage? else pages[t.page].InnerPage?)
    ensures t.Leaf? ==> pages[t.page].entries == t.entries
    ensures forall q :: q in before || q in after ==> q in others
  {
    hide DataPages, Chain, FreeList;
    assert Rep(pages, [t][0]);
  }

  lemma HeldReps(pages: Pages, free: seq<PageId>, pageCount: nat, meta: PageId, ts: seq<Tree>, others: multiset<PageId>,
                 before: seq<PageId>, after: seq<PageId>)
    requires Held(pages, free, pageCount, meta, ts, others, before, after)
    ensures forall i :: 0 <= i < |ts| ==> Rep(pages, ts[i])
  {
  }

  lemma HeldMembers(pages: Pages, free: seq<PageId>, pageCount: nat, meta: PageId, ts: seq<Tree>,
                    others: multiset<PageId>,
                    before: seq<PageId>, after: seq<PageId>)
    requires Held(pages, free, pageCount, meta, ts, others, before, after)
    ensures forall q :: q in before || q in after ==> q in others
  {
  }

  lemma HeldLeaves(pages: Pages, free: seq<PageId>, pageCount: nat, meta: PageId, ts: seq<Tree>,
                   others: multiset<PageId>,
                   before: seq<PageId>, after: seq<PageId>)
    requires Held(pages, free, pageCount, meta, ts, others, before, after) && forall i :: 0 <= i < |ts| ==> ts[i].Leaf?
    ensures forall i :: 0 <= i < |ts| ==> IsLeaf(pages, ts[i].page) && pages[ts[i].page].entries == ts[i].entries
  {
    hide DataPages, Chain, BagAll, LeafPagesAll, FreeList;
    forall i | 0 <= i < |ts| ensures IsLeaf(pages, ts[i].page) && pages[ts[i].page].entries == ts[i].entries {
      assert Rep(pages, ts[i]);
    }
  }

  lemma LeafHas(es: seq<Entry>, key: Key, i: nat)
    requires Sorted(es) && i <= |es|
    requires (forall j :: 0 <= j < i ==> es[j].key < key) && (forall j :: i <= j < |es| ==> key <= es[j].key)
    ensures HasKey(es, key) <==> i < |es| && es[i].key == key
  {
  }

  lemma SortedInsert(es: seq<Entry>, e: Entry, i: nat)
    requires Sorted(es) && i <= |es| && !HasKey(es, e.key)
    requires (forall j :: 0 <= j < i ==> es[j].key < e.key) && (forall j :: i <= j < |es| ==> e.key <= es[j].key)
    ensures Sorted(es[..i] + [e] + es[i..])
  {
  }

  lemma ShapedChildren(cfg: Config, t: Tree, h: nat, top: bool)
    requires ConfigOk(cfg) && t.Node? && Shaped(cfg, t, h, top)
    ensures 0 < h && 0 < |t.children| <= cfg.innerMax + 1 && AllNonempty(t.children)
    ensures forall i :: 0 <= i < |t.children| ==> Ok(cfg, t.children[i], h - 1)
  {
    ChildrenNonempty(cfg, t.children, h - 1);
  }

  lemma Route(ts: seq<Tree>, c: nat, key: Key)
    requires ts != [] && AllNonempty(ts) && Sorted(EntriesAll(ts)) && c <= |ts| - 1
    requires forall i :: 0 <= i < c ==> Seps(ts)[i] <= key
    requires forall i :: c <= i < |ts| - 1 ==> key < Seps(ts)[i]
    ensures Routed(ts, c, key) && (HasKey(EntriesAll(ts), key) <==> HasKey(Entries(ts[c]), key))
    ensures Sorted(Entries(ts[c]))
  {
    hide Sorted, HasKey, Below, Above, EntriesAll;
    RouteSplits(ts, c, key);
    RouteFinds(ts, c, key);
    Focus(ts, c);
    SortedParts(EntriesAll(ts[..c]) + Entries(ts[c]), EntriesAll(ts[c + 1..]));
    SortedParts(EntriesAll(ts[..c]), Entries(ts[c]));
  }

  lemma ChildPage(ts: seq<Tree>, c: nat)
    requires c < |ts|
    ensures RootPages(ts)[c] == ts[c].page
  {
  }

  lemma GrownSize(cfg: Config, t: Tree, h: nat, e: Entry, ts: seq<Tree>, split: Option<Split>)
    requires Grown(cfg, t, h, false, e, ts, split)
    ensures split == None ==> |ts| == 1
    ensures split.Some? ==> |ts| == 2 && split == Some(Split(Min(ts[1]), ts[1].page))
    ensures |ts| > 0 && ts[0].page == t.page
  {
  }

  lemma ParentKept(pages: Pages, pages': Pages, p: PageId, untouched: multiset<PageId>, beside: seq<PageId>)
    requires p in pages && pages[p].InnerPage? && p in untouched && Untouched(pages, pages', untouched, beside)
    ensures p in pages' && pages'[p] == pages[p]
  {
    assert SameNode(pages, pages', p);
  }

  lemma SamePages(ts: seq<Tree>, c: nat, t: Tree)
    requires c < |ts| && t.page == ts[c].page
    ensures RootPages(ts)[c := t.page] == RootPages(ts)
  {
  }

  lemma LeafHeight(cfg: Config, t: Tree, h: nat, top: bool)
    requires t.Leaf? && Shaped(cfg, t, h, top)
    ensures h == 0
  {
  }

  lemma UntouchedThen(a: Pages, b: Pages, c: Pages, others: multiset<PageId>, p: PageId, beside: seq<PageId>)
    requires Untouched(a, b, others + multiset{p}, beside) && Untouched(b, c, others, beside)
    ensures Untouched(a, c, others, beside)
  {
  }

  // ---- The whole tree ----

  /** A tree with nothing beside it. */
  ghost predicate Whole(cfg: Config, pages: Pages, free: seq<PageId>, pageCount: nat, meta: PageId,
                        foreign: multiset<PageId>, t: Tree, h: nat) {
    && RootOk(cfg, t, h) && Rep(pages, t) && Chain(pages, LeafPages(t))
    && Balanced(free, Bag(t), foreign, pageCount, meta) && FreeList(pages, free)
  }

  lemma WholeHeld(cfg: Config, pages: Pages, free: seq<PageId>, pageCount: nat, meta: PageId, foreign: multiset<PageId>,
                  t: Tree, h: nat)
    ensures RootOk(cfg, t, h) && Held(pages, free, pageCount, meta, [t], foreign, [], []) <==>
              Whole(cfg, pages, free, pageCount, meta, foreign, t, h)
  {
    hide Chain, Balanced, Rep, RootOk, Bag, LeafPages, Entries, FreeList;
    OneEntry(t);
    assert [] + LeafPages(t) + [] == LeafPages(t);
    assert [t][0] == t;
  }

  lemma FirstLeaf(cfg: Config, pages: Pages, free: seq<PageId>, pageCount: nat, meta: PageId, foreign: multiset<PageId>,
                  p: PageId, e: Entry)
    requires ConfigOk(cfg) && p in pages && pages[p] == LeafPage([e], None, None)
    requires Balanced(free, multiset{p}, foreign, pageCount, meta) && FreeList(pages, free)
    ensures Whole(cfg, pages, free, pageCount, meta, foreign, Leaf(p, [e]), 0) && Inserted([], [e], e)
  {
    hide FreeList, Balanced;
    assert InsertedAt([], [e], e, 0);
    assert Linked(pages, [p], 0);
  }

  lemma GrownRoot(cfg: Config, t: Tree, h: nat, e: Entry, ts: seq<Tree>, split: Option<Split>)
    requires Grown(cfg, t, h, true, e, ts, split)
    ensures split == None ==> |ts| == 1 && RootOk(cfg, ts[0], h) && Inserted(Entries(t), Entries(ts[0]), e)
    ensures split.Some? ==>
              && |ts| == 2 && Ok(cfg, ts[0], h) && Ok(cfg, ts[1], h) && ts[1].page == split.value.right
              && Seps(ts) == [split.value.separator] && RootPages(ts) == [ts[0].page, ts[1].page]
    ensures |ts| > 0 && ts[0].page == t.page && Inserted(Entries(t), EntriesAll(ts), e)
  {
    hide Inserted, Ok, RootOk;
    if |ts| == 1 {
      assert ts == [ts[0]];
      OneEntry(ts[0]);
    }
  }

  lemma NewRoot(cfg: Config, pages: Pages, free: seq<PageId>, pageCount: nat, meta: PageId, foreign: multiset<PageId>,
                q: PageId, ts: seq<Tree>, h: nat)
    requires ConfigOk(cfg) && |ts| == 2 && Ok(cfg, ts[0], h) && Ok(cfg, ts[1], h)
    requires Held(pages, free, pageCount, meta, ts, foreign + multiset{q}, [], [])
    ensures var pages' := pages[q := InnerPage(Seps(ts), RootPages(ts))];
            && Whole(cfg, pages', free, pageCount, meta, foreign, Node(q, ts), h + 1)
            && Untouched(pages, pages', foreign, [])
  {
    hide Held, Ok, Seps, RootPages;
    var pages' := pages[q := InnerPage(Seps(ts), RootPages(ts))];
    WriteInner(pages, free, pageCount, meta, q, InnerPage(Seps(ts), RootPages(ts)), ts, foreign, [], []);
    NoneBeside();
    Over(pages', free, pageCount, meta, q, ts, foreign, [], []);
    WholeHeld(cfg, pages', free, pageCount, meta, foreign, Node(q, ts), h + 1);
  }

  lemma NoneBeside()
    ensures var none: seq<PageId> := []; none + none == []
  {
  }

  lemma InsertedSize(es: seq<Entry>, es': seq<Entry>, e: Entry)
    requires Inserted(es, es', e)
    ensures |es'| == |es| + 1 && Sorted(es')
  {
  }

  lemma HeldLeaf(pages: Pages, free: seq<PageId>, pageCount: nat, meta: PageId, t: Tree, others: multiset<PageId>,
                 before: seq<PageId>, after: seq<PageId>)
    requires t.Leaf? && Held(pages, free, pageCount, meta, [t], others, before, after)
    ensures IsLeaf(pages, t.page) && pages[t.page].entries == t.entries
    ensures Balanced(free, Bag(t), others, pageCount, meta)
  {
    OneEntry(t);
    assert Rep(pages, [t][0]);
  }

  // ---- Least keys ----

  /** Every leaf below holds an entry. */
  predicate NonemptyLeaves(t: Tree)
    decreases t
  {
    match t
    case Leaf(_, entries) => entries != []
    case Node(_, children) => children != [] && forall i :: 0 <= i < |children| ==> NonemptyLeaves(children[i])
  }

  lemma {:induction false} OkNonempty(cfg: Config, t: Tree, h: nat)
    requires ConfigOk(cfg) && Ok(cfg, t, h)
    ensures NonemptyLeaves(t)
    decreases t
  {
    if t.Node? {
      forall i | 0 <= i < |t.children| ensures NonemptyLeaves(t.children[i]) {
        OkNonempty(cfg, t.children[i], h - 1);
      }
    }
  }

  lemma {:induction false} NonemptyEntries(t: Tree)
    requires NonemptyLeaves(t)
    ensures Entries(t) != []
    decreases t
  {
    if t.Node? {
      NonemptyEntries(t.children[0]);
    }
  }

  lemma FirstChildMin(t: Tree)
    requires t.Node? && NonemptyLeaves(t)
    ensures Min(t.children[0]) == Min(t)
  {
    NonemptyEntries(t.children[0]);
    assert EntriesAll(t.children) == Entries(t.children[0]) + EntriesAll(t.children[1..]);
  }

  lemma AllNonemptyLeaves(cfg: Config, cs: seq<Tree>, k: nat, c: nat, gs: seq<Tree>, h: nat, all: seq<Tree>)
    requires ConfigOk(cfg) && k + 2 <= |cs| && (c == k || c == k + 1) && 0 < h
    requires forall i :: 0 <= i < |cs| ==> cs[i].Node? && Ok(cfg, cs[i], h)
    requires forall i :: 0 <= i < |gs| ==> Ok(cfg, gs[i], h - 1)
    requires all == if c == k then gs + cs[k + 1].children else cs[k].children + gs
    ensures forall i :: 0 <= i < |all| ==> NonemptyLeaves(all[i])
  {
    AllChildrenOk(cfg, cs, k, c, gs, h, all);
    AllOkNonempty(cfg, all, h - 1);
  }

  lemma AllOkNonempty(cfg: Config, ts: seq<Tree>, h: nat)
    requires ConfigOk(cfg) && forall i :: 0 <= i < |ts| ==> Ok(cfg, ts[i], h)
    ensures forall i :: 0 <= i < |ts| ==> NonemptyLeaves(ts[i])
  {
    hide Ok, NonemptyLeaves;
    forall i | 0 <= i < |ts| ensures NonemptyLeaves(ts[i]) {
      OkNonempty(cfg, ts[i], h);
    }
  }

  lemma ChildPages(ts: seq<Tree>, kids: seq<PageId>)
    requires kids == RootPages(ts)
    ensures forall i :: 0 <= i < |ts| ==> kids[i] == ts[i].page
  {
  }

  lemma UntouchedChain(a: Pages, b: Pages, c: Pages, d: Pages, others: multiset<PageId>, p: PageId, beside: seq<PageId>)
    requires Untouched(a, b, others + multiset{p}, beside) && Untouched(b, c, others + multiset{p}, beside)
    requires Untouched(c, d, others, beside)
    ensures Untouched(a, d, others, beside)
  {
  }

  // ---- Removal, seen from the parent ----

  lemma ParentShrunk(cfg: Config, t: Tree, h: nat, top: bool, key: Key, c: nat, ct: Tree, pending: bool)
    requires ConfigOk(cfg) && t.Node? && 0 < h && Shaped(cfg, t, h, top) && Sorted(Entries(t)) && c < |t.children|
    requires Shrunk(cfg, t.children[c], h - 1, false, key, ct, pending)
    ensures Removed(Entries(t), EntriesAll(Replaced(t.children, c, c + 1, [ct])), key)
    ensures forall i :: 0 <= i < |t.children| ==> Ok(cfg, t.children[i], h - 1)
    ensures 2 <= |t.children| && ct.page == t.children[c].page && (ct.Leaf? <==> t.children[c].Leaf?)
    ensures !pending ==>
              var ts := Replaced(t.children, c, c + 1, [ct]); forall i :: 0 <= i < |ts| ==> Ok(cfg, ts[i], h - 1)
    ensures !pending ==> RootPages(Replaced(t.children, c, c + 1, [ct])) == RootPages(t.children)
    ensures pending ==> JustLow(cfg, ct) && Low(cfg, ct, h - 1)
  {
    hide Removed, EntriesAll, Sorted;
    NodeParts(t);
    ChildRemoved(t.children, c, ct, key);
    if !pending {
      OkReplaced(cfg, t.children, c, c + 1, [ct], h - 1);
    }
  }

  lemma RebalancedTells(cfg: Config, cs: seq<Tree>, c: nat, t': Tree, h: nat, kids: seq<PageId>, merged: bool,
                        cs': seq<Tree>)
    requires Rebalanced(cfg, cs, c, t', h, kids, merged, cs')
    ensures c < |cs| && kids == RootPages(cs') && |cs'| == (if merged then |cs| - 1 else |cs|)
    ensures forall i :: 0 <= i < |cs'| ==> Ok(cfg, cs'[i], h)
    ensures EntriesAll(cs') == EntriesAll(Replaced(cs, c, c + 1, [t']))
  {
  }

  /** An unwritten leaf: its page, and so the whole run of children, is as it was. */
  lemma LeafUnwritten(pages0: Pages, pages: Pages, free: seq<PageId>, pageCount: nat, meta: PageId, cs: seq<Tree>,
                      c: nat,
                      ct: Tree, node: PageNode, others: multiset<PageId>, before: seq<PageId>, after: seq<PageId>)
    requires c < |cs| && node.LeafPage? && (ct.Leaf? <==> cs[c].Leaf?)
    requires (forall i :: 0 <= i < |cs| ==> Rep(pages0, cs[i]))
    requires Unwritten(pages, free, pageCount, meta, cs[c], ct, node, others + Rest(cs, c, c + 1),
                       before + LeafPagesAll(cs[..c]), LeafPagesAll(cs[c + 1..]) + after)
    requires SameNodes(pages0, pages, Rest(cs, c, c + 1))
    requires forall q :: q in before || q in after ==> q in others
    ensures Held(pages, free, pageCount, meta, cs, others, before, after)
    ensures ct.Leaf? && ct.entries == node.entries
  {
    hide Held, Rep, LeafPagesAll, Rest, Seps, RootPages;
    Unzoom(pages0, pages, free, pageCount, meta, cs, c, c + 1, [cs[c]], others, before, after);
    assert Replaced(cs, c, c + 1, [cs[c]]) == cs;
  }

  /** An unwritten inner node: its children stand in its place. */
  lemma InnerUnwritten(pages0: Pages, pages: Pages, free: seq<PageId>, pageCount: nat, meta: PageId, cs: seq<Tree>,
                       c: nat,
                       ct: Tree, node: PageNode, others: multiset<PageId>, before: seq<PageId>, after: seq<PageId>)
    requires c < |cs| && node.InnerPage? && (ct.Leaf? <==> cs[c].Leaf?)
    requires (forall i :: 0 <= i < |cs| ==> Rep(pages0, cs[i]))
    requires Unwritten(pages, free, pageCount, meta, cs[c], ct, node, others + Rest(cs, c, c + 1),
                       before + LeafPagesAll(cs[..c]), LeafPagesAll(cs[c + 1..]) + after)
    requires SameNodes(pages0, pages, Rest(cs, c, c + 1))
    requires forall q :: q in before || q in after ==> q in others
    ensures ct.Node? && node.children == RootPages(ct.children)
    ensures Held(pages, free, pageCount, meta, Replaced(cs, c, c + 1, ct.children), others + multiset{cs[c].page},
                 before, after)
  {
    hide Held, Rep, LeafPagesAll, BagAll, Seps, RootPages;
    var q := cs[c].page;
    assert others + Rest(cs, c, c + 1) + multiset{q} == others + multiset{q} + Rest(cs, c, c + 1);
    Unzoom(pages0, pages, free, pageCount, meta, cs, c, c + 1, ct.children, others + multiset{q}, before, after);
  }

  lemma AllLeaves(cfg: Config, cs: seq<Tree>, h: nat, c: nat)
    requires (forall i :: 0 <= i < |cs| ==> Ok(cfg, cs[i], h)) && c < |cs| && cs[c].Leaf?
    ensures h == 0 && forall i :: 0 <= i < |cs| ==> cs[i].Leaf?
  {
  }

  lemma AllInner(cfg: Config, cs: seq<Tree>, h: nat, c: nat, ct: Tree)
    requires (forall i :: 0 <= i < |cs| ==> Ok(cfg, cs[i], h)) && c < |cs| && cs[c].Node? && ct.Node? && Low(cfg, ct, h)
    ensures 0 < h && (forall i :: 0 <= i < |cs| ==> cs[i].Node?)
    ensures forall i :: 0 <= i < |ct.children| ==> Ok(cfg, ct.children[i], h - 1)
  {
  }

  // ---- Removal at the root ----

  lemma NoKeys(key: Key)
    ensures !HasKey([], key)
  {
  }

  /** Nothing is removed where the key is not. */
  lemma NoKey(es: seq<Entry>, key: Key)
    requires key !in ToMap(es)
    ensures ToMap(es) - {key} == ToMap(es)
  {
  }

  lemma ShrunkTells(cfg: Config, t: Tree, h: nat, key: Key, t': Tree, pending: bool)
    requires Shrunk(cfg, t, h, true, key, t', pending)
    ensures t'.page == t.page && (t'.Leaf? <==> t.Leaf?) && Removed(Entries(t), Entries(t'), key)
    ensures !pending ==> RootOk(cfg, t', h)
    ensures pending ==> Low(cfg, t', h)
  {
  }

  lemma RemovedSize(es: seq<Entry>, es': seq<Entry>, key: Key)
    requires Removed(es, es', key)
    ensures |es| > 0 && |es'| == |es| - 1 && Sorted(es')
  {
  }

  /** The last page of the tree goes to the free list. */
  lemma ReleaseLast(pages: Pages, free: seq<PageId>, pageCount: nat, meta: PageId, p: PageId, foreign: multiset<PageId>)
    requires Balanced(free, multiset{p}, foreign, pageCount, meta) && FreeList(pages, free)
    ensures var pages' := pages[p := FreePage(At(free, 0))];
            && Balanced([p] + free, multiset{}, foreign, pageCount, meta) && FreeList(pages', [p] + free)
            && Untouched(pages, pages', foreign, [])
    ensures 1 <= p < pageCount && p !in free
  {
    hide FreeList;
    OneUsed(free, pageCount, meta, p, foreign);
    InUse(free, pageCount, meta, multiset{p}, foreign, p);
    FreePush(pages, free, p);
  }

  lemma OkIsRootOk(cfg: Config, t: Tree, h: nat)
    requires ConfigOk(cfg) && Ok(cfg, t, h)
    ensures RootOk(cfg, t, h)
  {
  }

  lemma LowIsRootOk(cfg: Config, t: Tree, h: nat)
    requires ConfigOk(cfg) && Low(cfg, t, h) && t.Node? && 2 <= |t.children|
    ensures RootOk(cfg, t, h)
  {
  }

  // ---- Lookup and scans ----

  lemma NoLeaves(pages: Pages, ls: seq<PageId>)
    ensures Flat(pages, ls[..0]) == []
  {
  }

  lemma FlatNothing(pages: Pages, key: Key)
    ensures Below(Flat(pages, []), key) && Above(Flat(pages, []), key)
  {
  }

  lemma RepKind(pages: Pages, t: Tree)
    requires Rep(pages, t)
    ensures t.page in pages && (if t.Leaf? then pages[t.page].LeafPage? else pages[t.page].InnerPage?)
    ensures (t.Leaf? ==> pages[t.page].entries == t.entries)
  {
  }

  lemma RepInner(pages: Pages, t: Tree)
    requires Rep(pages, t) && t.Node?
    ensures t.children != [] && pages[t.page] == InnerPage(Seps(t.children), RootPages(t.children))
    ensures forall i :: 0 <= i < |t.children| ==> Rep(pages, t.children[i])
  {
  }

  lemma LeafOnly(t: Tree)
    ensures t.Leaf? ==> LeafPages(t) == [t.page] && Entries(t) == t.entries
  {
  }

  lemma LeavesAround(pages: Pages, cs: seq<Tree>, c: nat, before: seq<PageId>, after: seq<PageId>, key: Key)
    requires Routed(cs, c, key) && (forall i :: 0 <= i < |cs| ==> Rep(pages, cs[i]))
    requires Below(Flat(pages, before), key) && Above(Flat(pages, after), key)
    ensures Below(Flat(pages, before + LeafPagesAll(cs[..c])), key)
    ensures Above(Flat(pages, LeafPagesAll(cs[c + 1..]) + after), key)
    ensures before + LeafPagesAll(cs) + after ==
              (before + LeafPagesAll(cs[..c])) + LeafPages(cs[c]) + (LeafPagesAll(cs[c + 1..]) + after)
  {
    hide Flat, Rep, EntriesAll, LeafPagesAll, LeafPages, Below, Above;
    Focus(cs, c);
    FlatBelow(pages, before, cs[..c], key);
    FlatAbove(pages, cs[c + 1..], after, key);
    ZoomLeaves(before, LeafPagesAll(cs[..c]), LeafPages(cs[c]), LeafPagesAll(cs[c + 1..]), after);
  }

  lemma FlatBelow(pages: Pages, before: seq<PageId>, ts: seq<Tree>, key: Key)
    requires (forall i :: 0 <= i < |ts| ==> Rep(pages, ts[i])) && Below(Flat(pages, before), key)
    requires Below(EntriesAll(ts), key)
    ensures Below(Flat(pages, before + LeafPagesAll(ts)), key)
  {
    hide Flat, Rep, EntriesAll, LeafPagesAll;
    FlatTrees(pages, ts);
    FlatConcat(pages, before, LeafPagesAll(ts));
  }

  lemma FlatAbove(pages: Pages, ts: seq<Tree>, after: seq<PageId>, key: Key)
    requires (forall i :: 0 <= i < |ts| ==> Rep(pages, ts[i])) && Above(Flat(pages, after), key)
    requires Above(EntriesAll(ts), key)
    ensures Above(Flat(pages, LeafPagesAll(ts) + after), key)
  {
    hide Flat, Rep, EntriesAll, LeafPagesAll;
    FlatTrees(pages, ts);
    FlatConcat(pages, LeafPagesAll(ts), after);
  }

  lemma WholeFlat(cfg: Config, pages: Pages, free: seq<PageId>, pageCount: nat, meta: PageId, foreign: multiset<PageId>,
                  t: Tree, h: nat)
    requires Whole(cfg, pages, free, pageCount, meta, foreign, t, h)
    ensures Flat(pages, LeafPages(t)) == Entries(t) && Chain(pages, LeafPages(t))
  {
    hide Chain, Balanced, Rep;
    FlatTree(pages, t);
  }

  lemma LeafAt(cfg: Config, pages: Pages, free: seq<PageId>, pageCount: nat, meta: PageId, foreign: multiset<PageId>,
               t: Tree, h: nat, ls: seq<PageId>, i: nat)
    requires Whole(cfg, pages, free, pageCount, meta, foreign, t, h) && ls == LeafPages(t) && i < |ls|
    ensures IsLeaf(pages, ls[i]) && pages[ls[i]].next == At(ls, i + 1) && pages[ls[i]].prev == At(ls, i - 1)
    ensures forall k :: 0 <= k < i ==> ls[k] != ls[i]
  {
    WholeFlat(cfg, pages, free, pageCount, meta, foreign, t, h);
    assert Linked(pages, ls, i);
    ChainAllDistinct(pages, ls);
  }

  lemma LeafEntryIn(cfg: Config, pages: Pages, free: seq<PageId>, pageCount: nat, meta: PageId,
                    foreign: multiset<PageId>, t: Tree, h: nat,
                    before: seq<PageId>, p: PageId, after: seq<PageId>, i: nat)
    requires Whole(cfg, pages, free, pageCount, meta, foreign, t, h) && LeafPages(t) == before + [p] + after
    requires Sorted(Entries(t))
    requires IsLeaf(pages, p) && i < |pages[p].entries|
    ensures var e := pages[p].entries[i]; e.key in ToMap(Entries(t)) && ToMap(Entries(t))[e.key] == e.rid
  {
    hide Sorted, ToMap, Flat;
    WholeFlat(cfg, pages, free, pageCount, meta, foreign, t, h);
    FlatConcat(pages, before + [p], after);
    FlatConcat(pages, before, [p]);
    FlatOne(pages, p);
    var e := pages[p].entries[i];
    assert Entries(t)[|Flat(pages, before)| + i] == e;
    ToMapIs(Entries(t), e.key);
  }

  lemma EmptyInterval(es: seq<Entry>, lo: Key, hi: Key)
    requires es == [] || lo > hi
    ensures Between(es, lo, hi) == []
  {
    BetweenNone(es, lo, hi);
  }

  lemma WalkStart(cfg: Config, pages: Pages, free: seq<PageId>, pageCount: nat, meta: PageId, foreign: multiset<PageId>,
                  t: Tree, h: nat,
                  before: seq<PageId>, p: PageId, after: seq<PageId>, lo: Key, hi: Key)
    requires LeafPages(t) == before + [p] + after && Below(Flat(pages, before), lo)
    ensures Collected(pages, LeafPages(t), |before|, lo, hi, []) && At(LeafPages(t), |before|) == Some(p)
  {
    var ls := LeafPages(t);
    assert ls[..|before|] == before;
    BetweenNone(Flat(pages, before), lo, hi);
  }

  /** At leaf i of the walk: the links fit, the leaf is new, and behind the first leaf all keys are above. */
  lemma WalkStep(cfg: Config, pages: Pages, free: seq<PageId>, pageCount: nat, meta: PageId, foreign: multiset<PageId>,
                 t: Tree, h: nat,
                 before: seq<PageId>, p: PageId, after: seq<PageId>, i: nat, lo: Key)
    requires Whole(cfg, pages, free, pageCount, meta, foreign, t, h) && LeafPages(t) == before + [p] + after
    requires Above(Flat(pages, after), lo)
    requires |before| <= i < |LeafPages(t)| && Sorted(Entries(t))
    ensures var ls := LeafPages(t);
            && IsLeaf(pages, ls[i]) && pages[ls[i]].next == At(ls, i + 1) && pages[ls[i]].prev == At(ls, i - 1)
            && (forall k :: 0 <= k < i ==> ls[k] != ls[i]) && Sorted(pages[ls[i]].entries)
            && (i > |before| ==> forall k :: 0 <= k < |pages[ls[i]].entries| ==> lo <= pages[ls[i]].entries[k].key)
  {
    hide Whole, Flat;
    var ls := LeafPages(t);
    LeafAt(cfg, pages, free, pageCount, meta, foreign, t, h, ls, i);
    WholeFlat(cfg, pages, free, pageCount, meta, foreign, t, h);
    FlatAround(pages, ls, i);
    SortedParts(Flat(pages, ls[..i]) + EntriesAt(pages, ls[i]), Flat(pages, ls[i + 1..]));
    SortedParts(Flat(pages, ls[..i]), EntriesAt(pages, ls[i]));
    if i > |before| {
      var j := i - |before| - 1;
      FlatAround(pages, after, j);
      assert after[j] == ls[i];
      var es := EntriesAt(pages, after[j]);
      forall k | 0 <= k < |es| ensures lo <= es[k].key {
        assert Flat(pages, after)[|Flat(pages, after[..j])| + k] == es[k];
      }
    }
  }

  lemma FlatNext(pages: Pages, ls: seq<PageId>, i: nat)
    requires i < |ls|
    ensures Flat(pages, ls[..i + 1]) == Flat(pages, ls[..i]) + EntriesAt(pages, ls[i])
  {
    assert ls[..i + 1] == ls[..i] + [ls[i]];
    FlatConcat(pages, ls[..i], [ls[i]]);
    FlatOne(pages, ls[i]);
  }

  lemma WalkDone(cfg: Config, pages: Pages, free: seq<PageId>, pageCount: nat, meta: PageId, foreign: multiset<PageId>,
                 t: Tree, h: nat,
                 ls: seq<PageId>, i: nat, j: nat, lo: Key, hi: Key, found: seq<Entry>, taken: seq<Entry>)
    requires Whole(cfg, pages, free, pageCount, meta, foreign, t, h) && ls == LeafPages(t) && Sorted(Entries(t))
    requires i < |ls|
    requires Collected(pages, ls, i, lo, hi, found) && j < |EntriesAt(pages, ls[i])|
    requires hi < EntriesAt(pages, ls[i])[j].key
    requires taken == Between(EntriesAt(pages, ls[i])[..j], lo, hi)
    ensures found + taken == Between(Entries(t), lo, hi)
  {
    hide Whole, Flat, Sorted, Between;
    WholeFlat(cfg, pages, free, pageCount, meta, foreign, t, h);
    BetweenConcat(Flat(pages, ls[..i]), EntriesAt(pages, ls[i])[..j], lo, hi);
    CollectDone(pages, ls, i, j, lo, hi, found + taken);
  }

  lemma WalkEnd(cfg: Config, pages: Pages, free: seq<PageId>, pageCount: nat, meta: PageId, foreign: multiset<PageId>,
                t: Tree, h: nat, ls: seq<PageId>)
    requires Whole(cfg, pages, free, pageCount, meta, foreign, t, h) && ls == LeafPages(t)
    ensures Flat(pages, ls) == Entries(t)
  {
    WholeFlat(cfg, pages, free, pageCount, meta, foreign, t, h);
  }

  /** No key is below zero, so the search for zero ends in the first leaf. */
  lemma LeftmostLeaf(cfg: Config, pages: Pages, free: seq<PageId>, pageCount: nat, meta: PageId,
                     foreign: multiset<PageId>, t: Tree, h: nat,
                     before: seq<PageId>, p: PageId, after: seq<PageId>)
    requires ConfigOk(cfg) && Whole(cfg, pages, free, pageCount, meta, foreign, t, h)
    requires LeafPages(t) == before + [p] + after
    requires Below(Flat(pages, before), 0)
    ensures before == [] && At(LeafPages(t), 0) == Some(p)
  {
    RootNonempty(cfg, t, h);
    FirstLeafNonempty(pages, t);
    assert before != [] ==> before[0] == LeafPages(t)[0];
    if before != [] {
      FlatHead(pages, before);
      assert false;
    }
  }

  lemma FlatHead(pages: Pages, ls: seq<PageId>)
    requires ls != [] && EntriesAt(pages, ls[0]) != []
    ensures Flat(pages, ls) != [] && Flat(pages, ls)[0] == EntriesAt(pages, ls[0])[0]
  {
  }

  lemma RootNonempty(cfg: Config, t: Tree, h: nat)
    requires ConfigOk(cfg) && RootOk(cfg, t, h)
    ensures NonemptyLeaves(t)
  {
    if t.Node? {
      AllOkNonempty(cfg, t.children, h - 1);
    }
  }

  lemma {:induction false} FirstLeafNonempty(pages: Pages, t: Tree)
    requires Rep(pages, t) && NonemptyLeaves(t)
    ensures LeafPages(t) != [] && EntriesAt(pages, LeafPages(t)[0]) != []
    decreases t
  {
    if t.Node? {
      FirstLeafNonempty(pages, t.children[0]);
    }
  }

  // ---- Pages taken and released ----

  /** The free list lost pages at its head, and once it was empty the database grew. */
  ghost predicate Taken(free0: seq<PageId>, pageCount0: nat, free: seq<PageId>, pageCount: nat) {
    && |free| <= |free0| && free == free0[|free0| - |free|..] && pageCount0 <= pageCount
    && (pageCount0 < pageCount ==> free == [])
  }

  /** The free list gained pages at its head. */
  ghost predicate Released(free0: seq<PageId>, free: seq<PageId>) {
    |free0| <= |free| && free[|free| - |free0|..] == free0
  }

  lemma NoneTaken(free: seq<PageId>, pageCount: nat)
    ensures Taken(free, pageCount, free, pageCount)
  {
  }

  lemma TakenTwice(free0: seq<PageId>, pageCount0: nat, free1: seq<PageId>, pageCount1: nat, free2: seq<PageId>,
                   pageCount2: nat)
    requires Taken(free0, pageCount0, free1, pageCount1) && Taken(free1, pageCount1, free2, pageCount2)
    ensures Taken(free0, pageCount0, free2, pageCount2)
  {
  }

  lemma OneTaken(free: seq<PageId>, pageCount: nat)
    ensures free != [] ==> Taken(free, pageCount, free[1..], pageCount)
    ensures free == [] ==> Taken(free, pageCount, free, pageCount + 1)
  {
  }

  lemma NoneReleased(free: seq<PageId>)
    ensures Released(free, free)
  {
  }

  lemma ReleasedTwice(free0: seq<PageId>, free1: seq<PageId>, free2: seq<PageId>)
    requires Released(free0, free1) && Released(free1, free2)
    ensures Released(free0, free2)
  {
  }

  lemma {:induction false} DataPagesGrow(pageCount: nat, pageCount': nat, meta: PageId)
    requires pageCount <= pageCount'
    ensures DataPages(pageCount, meta) <= DataPages(pageCount', meta)
    decreases pageCount'
  {
    if pageCount < pageCount' {
      DataPagesGrow(pageCount, pageCount' - 1, meta);
    }
  }

  /** What the free list and the end of the database gave, the tree gained. */
  lemma MorePages(free0: seq<PageId>, pageCount0: nat, bag0: multiset<PageId>, free: seq<PageId>, pageCount: nat,
                  bag: multiset<PageId>,
                  others: multiset<PageId>, meta: PageId)
    requires Taken(free0, pageCount0, free, pageCount)
    requires Balanced(free0, bag0, others, pageCount0, meta) && Balanced(free, bag, others, pageCount, meta)
    ensures bag0 <= bag
  {
    hide DataPages;
    DataPagesGrow(pageCount0, pageCount, meta);
    var taken := free0[..|free0| - |free|];
    assert free0 == taken + free;
    BagGrows(multiset(taken), multiset(free), bag0, bag, others, DataPages(pageCount0, meta),
             DataPages(pageCount, meta));
  }

  /** What the free list gained, the tree lost: each page once. */
  lemma ReleasedPages(free0: seq<PageId>, bag0: multiset<PageId>, free: seq<PageId>, bag: multiset<PageId>,
                      others: multiset<PageId>, pageCount: nat, meta: PageId)
    requires Released(free0, free)
    requires Balanced(free0, bag0, others, pageCount, meta) && Balanced(free, bag, others, pageCount, meta)
    ensures |free0| <= |free| && bag0 == bag + multiset(free[..|free| - |free0|])
  {
    hide DataPages;
    var released := free[..|free| - |free0|];
    assert free == released + free0;
    BagShrinks(multiset(released), multiset(free0), bag0, bag, others);
  }

  lemma BagGrows(taken: multiset<PageId>, free: multiset<PageId>, bag0: multiset<PageId>, bag: multiset<PageId>,
                 others: multiset<PageId>, all0: multiset<PageId>, all: multiset<PageId>)
    requires taken + free + bag0 + others == all0 && free + bag + others == all && all0 <= all
    ensures bag0 <= bag
  {
    forall p ensures bag0[p] <= bag[p] {
      assert all0[p] == taken[p] + free[p] + bag0[p] + others[p];
      assert all[p] == free[p] + bag[p] + others[p];
    }
  }

  lemma BagShrinks(released: multiset<PageId>, free0: multiset<PageId>, bag0: multiset<PageId>, bag: multiset<PageId>,
                   others: multiset<PageId>)
    requires released + free0 + bag + others == free0 + bag0 + others
    ensures bag0 == bag + released
  {
    forall p ensures bag0[p] == (bag + released)[p] {
      assert (released + free0 + bag + others)[p] == released[p] + free0[p] + bag[p] + others[p];
      assert (free0 + bag0 + others)[p] == free0[p] + bag0[p] + others[p];
    }
  }

  lemma HeldBalanced(pages: Pages, free: seq<PageId>, pageCount: nat, meta: PageId, ts: seq<Tree>,
                     others: multiset<PageId>,
                     before: seq<PageId>, after: seq<PageId>)
    requires Held(pages, free, pageCount, meta, ts, others, before, after)
    ensures Balanced(free, BagAll(ts), others, pageCount, meta)
  {
  }

  lemma HeldFree(pages: Pages, free: seq<PageId>, pageCount: nat, meta: PageId, ts: seq<Tree>, others: multiset<PageId>,
                 before: seq<PageId>, after: seq<PageId>)
    requires Held(pages, free, pageCount, meta, ts, others, before, after)
    ensures FreeList(pages, free)
  {
  }

  lemma UnwrittenKind(pages: Pages, free: seq<PageId>, pageCount: nat, meta: PageId, t: Tree, t': Tree, node: PageNode,
                      others: multiset<PageId>, before: seq<PageId>, after: seq<PageId>)
    requires Unwritten(pages, free, pageCount, meta, t, t', node, others, before, after)
    ensures node.LeafPage? || node.InnerPage?
  {
    hide Held;
  }

  /** The pages of the child balance, written back or not. */
  lemma ChildBalanced(pages: Pages, free: seq<PageId>, pageCount: nat, meta: PageId, t: Tree, t': Tree,
                      pending: Option<PageNode>,
                      others: multiset<PageId>, before: seq<PageId>, after: seq<PageId>) returns (bag: multiset<PageId>)
    requires if pending.None? then Held(pages, free, pageCount, meta, [t'], others, before, after)
             else Unwritten(pages, free, pageCount, meta, t, t', pending.value, others, before, after)
    ensures Balanced(free, bag, others, pageCount, meta)
    ensures pending.Some? ==> pending.value.LeafPage? || pending.value.InnerPage?
  {
    hide Held;
    if pending.None? {
      HeldBalanced(pages, free, pageCount, meta, [t'], others, before, after);
      bag := BagAll([t']);
    } else if t'.Leaf? {
      HeldBalanced(pages, free, pageCount, meta, [t], others, before, after);
      bag := BagAll([t]);
    } else {
      HeldBalanced(pages, free, pageCount, meta, t'.children, others + multiset{t.page}, before, after);
      ParentBalanced(free, pageCount, meta, BagAll(t'.children), t.page, others);
      bag := multiset{t.page} + BagAll(t'.children);
    }
  }

  /** Away from the leaves beside it, an operation writes no page of others. */
  lemma ExactlyKept(pages: Pages, pages': Pages, others: multiset<PageId>)
    requires Untouched(pages, pages', others, [])
    ensures forall q :: q in others ==> SamePage(pages, pages', q)
  {
  }

  // ---- An empty tree ----

  lemma EmptyAllocates(pages: Pages, free: seq<PageId>, pageCount: nat, meta: PageId, others: multiset<PageId>)
    requires Balanced(free, multiset{}, others, pageCount, meta) && FreeList(pages, free)
    ensures free != [] ==> Balanced(free[1..], multiset{free[0]}, others, pageCount, meta) && FreeList(pages, free[1..])
    ensures free == [] ==> Balanced(free, multiset{pageCount}, others, pageCount + 1, meta)
  {
    hide FreeList;
    AllocateBalanced(free, multiset{}, others, pageCount, meta);
    if free != [] {
      FreeTail(pages, free);
      assert multiset{} + multiset{free[0]} == multiset{free[0]};
    } else {
      assert multiset{} + multiset{pageCount} == multiset{pageCount};
    }
  }

  lemma FirstWritten(pages: Pages, pages1: Pages, free: seq<PageId>, pageCount: nat, meta: PageId,
                     others: multiset<PageId>,
                     p: PageId, node: PageNode)
    requires Balanced(free, multiset{p}, others, pageCount, meta) && FreeList(pages, free)
    requires pages1 == pages[p := BlankPage]
    ensures Untouched(pages, pages1[p := node], others, []) && FreeList(pages1[p := node], free)
  {
    hide FreeList;
    OneUsed(free, pageCount, meta, p, others);
    FreeKept(pages, pages1[p := node], free);
  }

  // ---- Pages of other structures ----

  /** The trees of an index: one or none. */
  function Trees(tree: Option<Tree>): (ts: seq<Tree>) { if tree.Some? then [tree.value] else [] }

  /** The pages of an index, with its tree or without. */
  ghost predicate Kept(cfg: Config, pages: Pages, free: seq<PageId>, pageCount: nat, meta: PageId,
                       foreign: multiset<PageId>,
                       tree: Option<Tree>, h: nat) {
    match tree
    case None => Balanced(free, multiset{}, foreign, pageCount, meta) && FreeList(pages, free)
    case Some(t) => Whole(cfg, pages, free, pageCount, meta, foreign, t, h)
  }

  lemma KeptHeld(cfg: Config, pages: Pages, free: seq<PageId>, pageCount: nat, meta: PageId, foreign: multiset<PageId>,
                 tree: Option<Tree>, h: nat)
    ensures Kept(cfg, pages, free, pageCount, meta, foreign, tree, h)
       <==> (tree.Some? ==> RootOk(cfg, tree.value, h)) && Held(pages, free, pageCount, meta, Trees(tree), foreign, [],
                                                                [])
  {
    hide Balanced, FreeList, Rep, RootOk, Whole;
    if tree.Some? {
      WholeHeld(cfg, pages, free, pageCount, meta, foreign, tree.value, h);
    } else {
      NoneBeside();
    }
  }

  /** Another structure takes the head of the free list, or a new page. */
  lemma TakenByOther(cfg: Config, pages: Pages, free: seq<PageId>, pageCount: nat, meta: PageId,
                     foreign: multiset<PageId>,
                     tree: Option<Tree>, h: nat)
    requires Kept(cfg, pages, free, pageCount, meta, foreign, tree, h)
    ensures FreeList(pages, free)
    ensures free != [] ==>
              && Kept(cfg, pages[free[0] := BlankPage], free[1..], pageCount, meta, foreign + multiset{free[0]}, tree,
                      h)
              && free[0] !in foreign
    ensures free == [] ==>
              && Kept(cfg, pages[pageCount := BlankPage], free, pageCount + 1, meta, foreign + multiset{pageCount},
                      tree, h)
              && pageCount !in foreign
  {
    hide Kept, Held, Whole, RootOk;
    KeptHeld(cfg, pages, free, pageCount, meta, foreign, tree, h);
    HeldAllocate(pages, free, pageCount, meta, Trees(tree), foreign, [], []);
    if free != [] {
      HeldOnce(pages[free[0] := BlankPage], free[1..], pageCount, meta, Trees(tree), foreign, free[0], [], []);
      KeptHeld(cfg, pages[free[0] := BlankPage], free[1..], pageCount, meta, foreign + multiset{free[0]}, tree, h);
    } else {
      HeldOnce(pages[pageCount := BlankPage], free, pageCount + 1, meta, Trees(tree), foreign, pageCount, [], []);
      KeptHeld(cfg, pages[pageCount := BlankPage], free, pageCount + 1, meta, foreign + multiset{pageCount}, tree, h);
    }
  }

  lemma HeldOnce(pages: Pages, free: seq<PageId>, pageCount: nat, meta: PageId, ts: seq<Tree>, others: multiset<PageId>,
                 p: PageId,
                 before: seq<PageId>, after: seq<PageId>)
    requires Held(pages, free, pageCount, meta, ts, others + multiset{p}, before, after)
    ensures p !in others
  {
    hide DataPages, Chain, Rep, BagAll, LeafPagesAll, FreeList;
    NoneTwice(free, BagAll(ts), others + multiset{p}, pageCount, meta, p);
  }

  /** And gives a page back. */
  lemma GivenByOther(cfg: Config, pages: Pages, free: seq<PageId>, pageCount: nat, meta: PageId,
                     foreign: multiset<PageId>,
                     tree: Option<Tree>, h: nat, p: PageId)
    requires Kept(cfg, pages, free, pageCount, meta, foreign, tree, h) && p in foreign
    ensures FreeList(pages, free) && 1 <= p < pageCount && p !in free
    ensures Kept(cfg, pages[p := FreePage(At(free, 0))], [p] + free, pageCount, meta, foreign - multiset{p}, tree, h)
  {
    hide Kept, Held, Whole, RootOk, FreeList;
    KeptHeld(cfg, pages, free, pageCount, meta, foreign, tree, h);
    var rest := foreign - multiset{p};
    assert foreign == rest + multiset{p};
    HeldFree(pages, free, pageCount, meta, Trees(tree), foreign, [], []);
    HeldRelease(pages, free, pageCount, meta, Trees(tree), p, rest, [], []);
    KeptHeld(cfg, pages[p := FreePage(At(free, 0))], [p] + free, pageCount, meta, rest, tree, h);
  }

  // ---- Separators increase ----

  lemma MinsAscend(ts: seq<Tree>)
    requires Sorted(EntriesAll(ts)) && forall i :: 0 <= i < |ts| ==> NonemptyLeaves(ts[i])
    ensures forall i, j :: 0 <= i < j < |ts| ==> Min(ts[i]) < Min(ts[j])
  {
    hide EntriesAll, Sorted, Min, NonemptyLeaves, Entries;
    forall i | 0 <= i < |ts| ensures Entries(ts[i]) != [] {
      NonemptyEntries(ts[i]);
    }
    forall i, j | 0 <= i < j < |ts| ensures Min(ts[i]) < Min(ts[j]) {
      MinOrder(ts, i, j);
    }
  }

  lemma SortedHalves(gs: seq<Tree>, n: nat)
    requires n <= |gs| && Sorted(EntriesAll(gs))
    ensures Sorted(EntriesAll(gs[..n])) && Sorted(EntriesAll(gs[n..]))
  {
    hide EntriesAll, Sorted;
    HalvesJoin(gs, n);
    SortedParts(EntriesAll(gs[..n]), EntriesAll(gs[n..]));
  }

  /** The children of two neighbours are in order when the neighbours are. */
  lemma PairSorted(cs: seq<Tree>, k: nat, c: nat, p: PageId, gs: seq<Tree>, all: seq<Tree>)
    requires k + 2 <= |cs| && (c == k || c == k + 1) && cs[k].Node? && cs[k + 1].Node?
    requires Sorted(EntriesAll(Replaced(cs, c, c + 1, [Node(p, gs)])))
    requires all == if c == k then gs + cs[k + 1].children else cs[k].children + gs
    ensures Sorted(EntriesAll(all))
  {
    hide EntriesAll, Sorted, Entries;
    var rs := Replaced(cs, c, c + 1, [Node(p, gs)]);
    var l, r := if c == k then Node(p, gs) else cs[k], if c == k then cs[k + 1] else Node(p, gs);
    assert rs[k] == l && rs[k + 1] == r;
    MiddleSorted(rs, k, l, r);
    Pair(l, r);
    NodeParts(l);
    NodeParts(r);
    EntriesConcat(l.children, r.children);
  }

  lemma MiddleSorted(rs: seq<Tree>, k: nat, l: Tree, r: Tree)
    requires k + 2 <= |rs| && rs[k] == l && rs[k + 1] == r && Sorted(EntriesAll(rs))
    ensures Sorted(EntriesAll([l, r]))
  {
    hide EntriesAll, Sorted, Entries;
    assert rs[k..k + 2] == [l, r];
    Cut(rs, k, k + 2);
    SortedParts(EntriesAll(rs[..k]) + EntriesAll([l, r]), EntriesAll(rs[k + 2..]));
    SortedParts(EntriesAll(rs[..k]), EntriesAll([l, r]));
  }

  // ---- Inner siblings ----

  /** Child c of a run of inner nodes is left with one child too few. */
  ghost predicate Lacks(cfg: Config, cs: seq<Tree>, c: nat, gs: seq<Tree>, h: nat) {
    && ConfigOk(cfg) && c < |cs| && 2 <= |cs| && 0 < h && |gs| == MinKids(cfg) - 1
    && (forall i :: 0 <= i < |cs| ==> cs[i].Node? && Ok(cfg, cs[i], h))
    && (forall i :: 0 <= i < |gs| ==> Ok(cfg, gs[i], h - 1))
    && Sorted(EntriesAll(Replaced(cs, c, c + 1, [Node(cs[c].page, gs)])))
  }

  /** The children of the neighbours k and k + 1, one of which lacks a child. */
  ghost predicate PairOf(cs: seq<Tree>, k: nat, c: nat, gs: seq<Tree>, all: seq<Tree>) {
    && k + 2 <= |cs| && (c == k || c == k + 1) && cs[k].Node? && cs[k + 1].Node?
    && all == if c == k then gs + cs[k + 1].children else cs[k].children + gs
  }

  lemma OpenPair(cfg: Config, pages: Pages, free: seq<PageId>, pageCount: nat, meta: PageId,
                 cs: seq<Tree>, k: nat, c: nat, gs: seq<Tree>, h: nat, all: seq<Tree>,
                 others: multiset<PageId>, before: seq<PageId>, after: seq<PageId>)
    requires Lacks(cfg, cs, c, gs, h) && PairOf(cs, k, c, gs, all)
    requires Held(pages, free, pageCount, meta, Replaced(cs, c, c + 1, gs), others + multiset{cs[c].page}, before,
                  after)
    ensures Held(pages, free, pageCount, meta, cs[..k] + all + cs[k + 2..],
                 others + multiset{cs[k].page} + multiset{cs[k + 1].page}, before, after)
    ensures Sorted(EntriesAll(all)) && forall i :: 0 <= i < |all| ==> NonemptyLeaves(all[i])
  {
    hide Held, Sorted, EntriesAll, Ok, NonemptyLeaves;
    if c == k {
      OpenRight(pages, free, pageCount, meta, cs, c, gs, others, before, after);
    } else {
      OpenLeft(pages, free, pageCount, meta, cs, c, gs, others, before, after);
    }
    AllNonemptyLeaves(cfg, cs, k, c, gs, h, all);
    PairSorted(cs, k, c, cs[c].page, gs, all);
  }

  // ---- Height ----

  function Power(base: nat, e: nat): (p: nat) {
    if e == 0 then 1 else base * Power(base, e - 1)
  }

  lemma {:induction false} EntriesAtLeast(ts: seq<Tree>, n: nat)
    requires forall i :: 0 <= i < |ts| ==> |Entries(ts[i])| >= n
    ensures |EntriesAll(ts)| >= |ts| * n
  {
    hide Entries;
    if ts != [] {
      EntriesAtLeast(ts[1..], n);
      assert |ts| * n == n + |ts[1..]| * n;
    }
  }

  lemma MoreChildren(children: nat, least: nat, leaf: nat, power: nat)
    requires children >= least
    ensures children * (leaf * power) >= leaf * (least * power)
  {
    assert children * (leaf * power) >= least * (leaf * power);
    assert least * (leaf * power) == leaf * (least * power);
  }

  /** A subtree of height h below the root holds at least MinLeaf times MinKids to the h entries. */
  lemma {:induction false} LeastEntries(cfg: Config, t: Tree, h: nat)
    requires ConfigOk(cfg) && Ok(cfg, t, h)
    ensures |Entries(t)| >= MinLeaf(cfg) * Power(MinKids(cfg), h)
    decreases t
  {
    if t.Node? {
      var n := MinLeaf(cfg) * Power(MinKids(cfg), h - 1);
      forall i | 0 <= i < |t.children| ensures |Entries(t.children[i])| >= n {
        LeastEntries(cfg, t.children[i], h - 1);
      }
      EntriesAtLeast(t.children, n);
      MoreChildren(|t.children|, MinKids(cfg), MinLeaf(cfg), Power(MinKids(cfg), h - 1));
    }
  }

  /** A tree of height h holds at least twice what one child of its root does. */
  lemma RootEntries(cfg: Config, t: Tree, h: nat)
    requires ConfigOk(cfg) && RootOk(cfg, t, h) && h > 0
    ensures |Entries(t)| >= 2 * (MinLeaf(cfg) * Power(MinKids(cfg), h - 1))
  {
    hide Power, MinLeaf, MinKids, EntriesAll;
    var n := MinLeaf(cfg) * Power(MinKids(cfg), h - 1);
    forall i | 0 <= i < |t.children| ensures |Entries(t.children[i])| >= n {
      LeastEntries(cfg, t.children[i], h - 1);
    }
    EntriesAtLeast(t.children, n);
    Doubled(|t.children|, n);
  }

  lemma Doubled(children: nat, n: nat)
    requires children >= 2
    ensures children * n >= 2 * n
  {
  }
}
