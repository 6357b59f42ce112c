/** Rebalancing after a removal: what shifting and merging neighbours does to a run of subtrees. */
module TreeErase {
  import opened Options
  import opened TreeTheory
  import opened TreeOrder
  import opened TreeRuns

  // ---- Leaves ----

  lemma LeafShift(pages: Pages, free: seq<PageId>, pageCount: nat, meta: PageId, l: Tree, r: Tree,
                  others: multiset<PageId>, before: seq<PageId>, after: seq<PageId>,
                  left: seq<Entry>, right: seq<Entry>)
    requires l.Leaf? && r.Leaf? && Held(pages, free, pageCount, meta, [l, r], others, before, after)
    ensures IsLeaf(pages, l.page) && IsLeaf(pages, r.page) && l.page != r.page
    ensures var pages' := pages[l.page := pages[l.page].(entries := left)][r.page := pages[r.page].(entries := right)];
            && Held(pages', free, pageCount, meta, [Leaf(l.page, left), Leaf(r.page, right)], others, before, after)
            && Untouched(pages, pages', others, before + after)
  {
    hide DataPages, Chain, FreeList;
    assert Rep(pages, [l, r][0]) && Rep(pages, [l, r][1]);
    Pair(l, r);
    Pair(Leaf(l.page, left), Leaf(r.page, right));
    PairUsed(free, pageCount, meta, l.page, r.page, others);
    var ls := before + ([l.page] + [r.page]) + after;
    RewriteLeaf(pages, ls, l.page, left);
    var mid := pages[l.page := pages[l.page].(entries := left)];
    RewriteLeaf(mid, ls, r.page, right);
    FreeKept(pages, mid[r.page := mid[r.page].(entries := right)], free);
  }

  /** Two pages of a run are different, and neither free nor among the others. */
  lemma PairUsed(free: seq<PageId>, pageCount: nat, meta: PageId, p: PageId, q: PageId, others: multiset<PageId>)
    requires Balanced(free, multiset{p} + multiset{q}, others, pageCount, meta)
    ensures p != q && p !in free && q !in free && p !in others && q !in others
  {
    hide Balanced;
    NoneTwice(free, multiset{p} + multiset{q}, others, pageCount, meta, p);
    NoneTwice(free, multiset{p} + multiset{q}, others, pageCount, meta, q);
    assert p in free ==> multiset(free)[p] > 0;
    assert q in free ==> multiset(free)[q] > 0;
  }

  lemma LeafMerge(pages: Pages, free: seq<PageId>, pageCount: nat, meta: PageId, l: Tree, r: Tree,
                  others: multiset<PageId>, before: seq<PageId>, after: seq<PageId>, entries: seq<Entry>)
    requires l.Leaf? && r.Leaf? && Held(pages, free, pageCount, meta, [l, r], others, before, after)
    ensures IsLeaf(pages, l.page) && IsLeaf(pages, r.page) && l.page != r.page
    ensures var pages' := UnlinkNext(pages, l.page, r.page, entries);
            && Held(pages', free, pageCount, meta, [Leaf(l.page, entries)], others + multiset{r.page}, before, after)
            && Untouched(pages, pages', others, before + after)
    ensures pages[r.page].next.Some? ==>
              IsLeaf(pages, pages[r.page].next.value) && pages[pages[r.page].next.value].prev == Some(r.page)
  {
    hide DataPages, Chain, UnlinkNext, FreeList;
    assert Rep(pages, [l, r][0]) && Rep(pages, [l, r][1]);
    Pair(l, r);
    OneEntry(Leaf(l.page, entries));
    PairUsed(free, pageCount, meta, l.page, r.page, others);
    assert before + ([l.page] + [r.page]) + after == before + [l.page] + [r.page] + after;
    UnlinkNextOk(pages, before, l.page, r.page, after, entries);
    BackLink(pages, before + [l.page], r.page, after);
    NotFree(free, pageCount, meta, multiset{l.page} + multiset{r.page}, others, after);
    FreeKept(pages, UnlinkNext(pages, l.page, r.page, entries), free);
    assert multiset(free) + (multiset{l.page} + multiset{r.page}) + others
        == multiset(free) + multiset{l.page} + (others + multiset{r.page});
  }

  /** The leaf after a leaf links back to it. */
  lemma BackLink(pages: Pages, before: seq<PageId>, p: PageId, after: seq<PageId>)
    requires Chain(pages, before + [p] + after)
    ensures IsLeaf(pages, p)
    ensures pages[p].next.Some? ==> IsLeaf(pages, pages[p].next.value) && pages[pages[p].next.value].prev == Some(p)
  {
    var ls, k := before + [p] + after, |before|;
    assert ls[k] == p && Linked(pages, ls, k);
    if k + 1 < |ls| {
      assert Linked(pages, ls, k + 1);
    }
  }

  /** No leaf beside a run is free. */
  lemma NotFree(free: seq<PageId>, pageCount: nat, meta: PageId, bag: multiset<PageId>, others: multiset<PageId>,
                beside: seq<PageId>)
    requires Balanced(free, bag, others, pageCount, meta) && forall q :: q in beside ==> q in others
    ensures forall q :: q in beside ==> q !in free
  {
    hide Balanced;
    forall q | q in beside ensures q !in free {
      NoneTwice(free, bag, others, pageCount, meta, q);
      assert q in free ==> multiset(free)[q] > 0;
    }
  }

  // ---- Inner nodes ----

  lemma HeldRelease(pages: Pages, free: seq<PageId>, pageCount: nat, meta: PageId, ts: seq<Tree>, p: PageId,
                    others: multiset<PageId>, before: seq<PageId>, after: seq<PageId>)
    requires Held(pages, free, pageCount, meta, ts, others + multiset{p}, before, after)
    requires forall q :: q in before || q in after ==> q in others
    ensures 1 <= p < pageCount && p !in free && p !in others
    ensures Held(pages[p := FreePage(At(free, 0))], [p] + free, pageCount, meta, ts, others, before, after)
    ensures Untouched(pages, pages[p := FreePage(At(free, 0))], others, before + after)
  {
    hide DataPages, Chain, Rep, BagAll, LeafPagesAll, FreeList, Untouched;
    WriteInner(pages, free, pageCount, meta, p, FreePage(At(free, 0)), ts, others, before, after);
    NotUsed(free, pageCount, meta, BagAll(ts), others, p);
    InUse(free, pageCount, meta, BagAll(ts), others + multiset{p}, p);
    FreePush(pages, free, p);
    assert multiset([p] + free) + BagAll(ts) + others == multiset(free) + BagAll(ts) + (others + multiset{p});
  }

  /** Two pages divide a run of children between them. */
  lemma HalvesHeld(pages: Pages, free: seq<PageId>, pageCount: nat, meta: PageId, a: seq<Tree>, gs: seq<Tree>,
                   b: seq<Tree>, n: nat,
                   pl: PageId, pr: PageId, others: multiset<PageId>, before: seq<PageId>, after: seq<PageId>)
    requires 0 < n < |gs|
    requires Held(pages, free, pageCount, meta, a + gs + b, others + multiset{pl} + multiset{pr}, before, after)
    requires forall q :: q in before || q in after ==> q in others
    ensures var left := InnerPage(Seps(gs[..n]), RootPages(gs[..n]));
            var right := InnerPage(Seps(gs[n..]), RootPages(gs[n..]));
            var pages' := pages[pl := left][pr := right];
            && Held(pages', free, pageCount, meta, a + [Node(pl, gs[..n]), Node(pr, gs[n..])] + b, others, before,
                    after)
            && Untouched(pages, pages', others, before + after)
  {
    hide Held, Untouched, Seps, RootPages;
    var ts := a + gs + b;
    var nl, nr := InnerPage(Seps(gs[..n]), RootPages(gs[..n])), InnerPage(Seps(gs[n..]), RootPages(gs[n..]));
    OthersOrder(others, pl, pr);
    OthersFresh(pages, free, pageCount, meta, ts, others, pl, pr, before, after);
    WriteInner(pages, free, pageCount, meta, pl, nl, ts, others + multiset{pr}, before, after);
    var pages1 := pages[pl := nl];
    WriteInner(pages1, free, pageCount, meta, pr, nr, ts, others + multiset{pl}, before, after);
    var pages' := pages1[pr := nr];
    UntouchedBoth(pages, pages1, pages', others, pl, pr, before + after);
    var i := |a|;
    assert ts[i..i + n] == gs[..n];
    Close(pages', free, pageCount, meta, ts, i, i + n, pl, others + multiset{pr}, before, after);
    var ts1 := Replaced(ts, i, i + n, [Node(pl, gs[..n])]);
    assert ts1 == a + [Node(pl, gs[..n])] + gs[n..] + b;
    var j := i + 1;
    assert ts1[j..j + (|gs| - n)] == gs[n..];
    Close(pages', free, pageCount, meta, ts1, j, j + (|gs| - n), pr, others, before, after);
    assert Replaced(ts1, j, j + (|gs| - n), [Node(pr, gs[n..])]) == a + [Node(pl, gs[..n]), Node(pr, gs[n..])] + b;
  }

  /** One page takes the whole run, the other is no longer used. */
  lemma JoinedHeld(pages: Pages, free: seq<PageId>, pageCount: nat, meta: PageId, a: seq<Tree>, gs: seq<Tree>,
                   b: seq<Tree>,
                   pl: PageId, pr: PageId, others: multiset<PageId>, before: seq<PageId>, after: seq<PageId>)
    requires gs != []
    requires Held(pages, free, pageCount, meta, a + gs + b, others + multiset{pl} + multiset{pr}, before, after)
    requires forall q :: q in before || q in after ==> q in others
    ensures var pages' := pages[pl := InnerPage(Seps(gs), RootPages(gs))];
            && Held(pages', free, pageCount, meta, a + [Node(pl, gs)] + b, others + multiset{pr}, before, after)
            && Untouched(pages, pages', others, before + after)
  {
    hide Held, Untouched, Seps, RootPages;
    var ts := a + gs + b;
    var node := InnerPage(Seps(gs), RootPages(gs));
    OthersOrder(others, pl, pr);
    WriteInner(pages, free, pageCount, meta, pl, node, ts, others + multiset{pr}, before, after);
    var pages' := pages[pl := node];
    UntouchedLess(pages, pages', others, pr, before + after);
    var i := |a|;
    assert ts[i..i + |gs|] == gs;
    Close(pages', free, pageCount, meta, ts, i, i + |gs|, pl, others + multiset{pr}, before, after);
    assert Replaced(ts, i, i + |gs|, [Node(pl, gs)]) == a + [Node(pl, gs)] + b;
  }

  lemma OthersFresh(pages: Pages, free: seq<PageId>, pageCount: nat, meta: PageId, ts: seq<Tree>,
                    others: multiset<PageId>,
                    p: PageId, q: PageId, before: seq<PageId>, after: seq<PageId>)
    requires Held(pages, free, pageCount, meta, ts, others + multiset{p} + multiset{q}, before, after)
    ensures p != q
  {
    hide DataPages, Chain, Rep, BagAll, LeafPagesAll, FreeList;
    NoneTwice(free, BagAll(ts), others + multiset{p} + multiset{q}, pageCount, meta, p);
  }

  lemma UntouchedBoth(a: Pages, b: Pages, c: Pages, others: multiset<PageId>, p: PageId, q: PageId, beside: seq<PageId>)
    requires Untouched(a, b, others + multiset{q}, beside) && Untouched(b, c, others + multiset{p}, beside)
    ensures Untouched(a, c, others, beside)
  {
  }

  // ---- Removal ----

  /** One child short of the minimum, or an emptier root. */
  predicate Low(cfg: Config, t: Tree, h: nat) {
    match t
    case Leaf(_, entries) => h == 0 && |entries| < MinLeaf(cfg)
    case Node(_, children) =>
      && 0 < h && 1 <= |children| < MinKids(cfg)
      && forall i :: 0 <= i < |children| ==> Ok(cfg, children[i], h - 1)
  }

  predicate JustLow(cfg: Config, t: Tree) {
    if t.Leaf? then |t.entries| == MinLeaf(cfg) - 1 else |t.children| == MinKids(cfg) - 1
  }

  /** What a removal below a node leaves: a well-shaped subtree, or one still to be rebalanced. */
  ghost predicate Shrunk(cfg: Config, t: Tree, h: nat, top: bool, key: Key, t': Tree, pending: bool) {
    && t'.page == t.page && (t'.Leaf? <==> t.Leaf?) && Removed(Entries(t), Entries(t'), key)
    && (!pending ==> Shaped(cfg, t', h, top))
    && (pending ==> Low(cfg, t', h) && (!top ==> JustLow(cfg, t')))
  }

  /** The node of the shrunken subtree is known but not written: a leaf page still holds the removed
      entry, an inner page its old children. */
  ghost predicate Unwritten(pages: Pages, free: seq<PageId>, pageCount: nat, meta: PageId, t: Tree, t': Tree,
                            node: PageNode,
                            others: multiset<PageId>, before: seq<PageId>, after: seq<PageId>) {
    if t'.Leaf? then
      && t.Leaf? && node.LeafPage? && node.entries == t'.entries && IsLeaf(pages, t.page)
      && Held(pages, free, pageCount, meta, [t], others, before, after)
    else
      && t'.children != [] && node == InnerPage(Seps(t'.children), RootPages(t'.children))
      && Held(pages, free, pageCount, meta, t'.children, others + multiset{t.page}, before, after)
  }

  lemma LeafShrunk(cfg: Config, t: Tree, h: nat, top: bool, key: Key, i: nat, entries: seq<Entry>)
    requires ConfigOk(cfg) && t.Leaf? && Shaped(cfg, t, h, top) && Sorted(t.entries)
    requires i < |t.entries| && t.entries[i].key == key && entries == t.entries[..i] + t.entries[i + 1..]
    ensures Shrunk(cfg, t, h, top, key, Leaf(t.page, entries), |entries| < MinLeaf(cfg))
  {
    assert RemovedAt(t.entries, entries, i);
    SortedWithout(t.entries, entries, i);
  }

  /** A removal in a child is a removal in the node. */
  lemma ChildRemoved(cs: seq<Tree>, c: nat, t': Tree, key: Key)
    requires c < |cs| && Sorted(EntriesAll(cs)) && Removed(Entries(cs[c]), Entries(t'), key)
    ensures Removed(EntriesAll(cs), EntriesAll(Replaced(cs, c, c + 1, [t'])), key)
  {
    hide Removed, Sorted, EntriesAll, Entries;
    Focus(cs, c);
    Around(cs[..c], [t'], cs[c + 1..]);
    OneEntry(t');
    RemoveMiddle(EntriesAll(cs[..c]), Entries(cs[c]), Entries(t'), EntriesAll(cs[c + 1..]), key);
  }

  lemma OkReplaced(cfg: Config, ts: seq<Tree>, a: nat, b: nat, mid: seq<Tree>, h: nat)
    requires a <= b <= |ts| && (forall i :: 0 <= i < |ts| ==> Ok(cfg, ts[i], h))
    requires (forall i :: 0 <= i < |mid| ==> Ok(cfg, mid[i], h))
    ensures var ts' := Replaced(ts, a, b, mid); forall i :: 0 <= i < |ts'| ==> Ok(cfg, ts'[i], h)
  {
    hide Ok;
    var ts' := Replaced(ts, a, b, mid);
    forall i | 0 <= i < |ts'| ensures Ok(cfg, ts'[i], h) {
      if i < a {
        assert ts'[i] == ts[i];
      } else if i < a + |mid| {
        assert ts'[i] == mid[i - a];
      } else {
        assert ts'[i] == ts[i - a - |mid| + b];
      }
    }
  }

  /** The entries of a node whose child c holds t', seen from the pair of children at k. */
  lemma PairEntries(cs: seq<Tree>, k: nat, c: nat, t': Tree, mid: seq<Tree>)
    requires k + 2 <= |cs| && (c == k || c == k + 1)
    requires EntriesAll(mid) == if c == k then Entries(t') + Entries(cs[k + 1]) else Entries(cs[k]) + Entries(t')
    ensures EntriesAll(Replaced(cs, k, k + 2, mid)) == EntriesAll(Replaced(cs, c, c + 1, [t']))
  {
    hide EntriesAll, Entries;
    var x := if c == k then [t', cs[k + 1]] else [cs[k], t'];
    assert Replaced(cs, c, c + 1, [t']) == cs[..k] + x + cs[k + 2..];
    Around(cs[..k], x, cs[k + 2..]);
    Around(cs[..k], mid, cs[k + 2..]);
    Pair(x[0], x[1]);
  }

  lemma PairPages(cs: seq<Tree>, k: nat, mid: seq<Tree>)
    requires k + 2 <= |cs| && mid != [] && mid[0].page == cs[k].page && |mid| <= 2
    requires (|mid| == 2 ==> mid[1].page == cs[k + 1].page)
    ensures var ts := Replaced(cs, k, k + 2, mid);
            RootPages(ts) == if |mid| == 2 then RootPages(cs) else RootPages(cs)[..k + 1] + RootPages(cs)[k + 2..]
  {
  }

  lemma NodeShrunk(cfg: Config, t: Tree, h: nat, top: bool, key: Key, cs: seq<Tree>, merged: bool)
    requires ConfigOk(cfg) && t.Node? && 0 < h && Shaped(cfg, t, h, top)
    requires Removed(Entries(t), EntriesAll(cs), key) && (forall i :: 0 <= i < |cs| ==> Ok(cfg, cs[i], h - 1))
    requires |cs| == if merged then |t.children| - 1 else |t.children|
    ensures 1 <= |cs| && Shrunk(cfg, t, h, top, key, Node(t.page, cs), merged && |cs| < MinKids(cfg))
  {
    hide Removed;
  }

  /** The children list of a parent after its child c, now t', was rebalanced with a neighbour. */
  ghost predicate Rebalanced(cfg: Config, cs: seq<Tree>, c: nat, t': Tree, h: nat, kids: seq<PageId>, merged: bool,
                             cs': seq<Tree>)
  {
    && c < |cs| && kids == RootPages(cs') && |cs'| == (if merged then |cs| - 1 else |cs|)
    && (forall i :: 0 <= i < |cs'| ==> Ok(cfg, cs'[i], h))
    && EntriesAll(cs') == EntriesAll(Replaced(cs, c, c + 1, [t']))
  }

  lemma PairRebalanced(cfg: Config, cs: seq<Tree>, k: nat, c: nat, t': Tree, h: nat, mid: seq<Tree>)
    requires k + 2 <= |cs| && (c == k || c == k + 1) && (forall i :: 0 <= i < |cs| ==> Ok(cfg, cs[i], h))
    requires 1 <= |mid| <= 2 && mid[0].page == cs[k].page && (|mid| == 2 ==> mid[1].page == cs[k + 1].page)
    requires forall i :: 0 <= i < |mid| ==> Ok(cfg, mid[i], h)
    requires EntriesAll(mid) == if c == k then Entries(t') + Entries(cs[k + 1]) else Entries(cs[k]) + Entries(t')
    ensures |mid| == 2 ==> Rebalanced(cfg, cs, c, t', h, RootPages(cs), false, Replaced(cs, k, k + 2, mid))
    ensures |mid| == 1 ==>
              Rebalanced(cfg, cs, c, t', h, RootPages(cs)[..k + 1] + RootPages(cs)[k + 2..], true,
                         Replaced(cs, k, k + 2, mid))
  {
    hide EntriesAll, Entries, Ok, RootPages;
    PairEntries(cs, k, c, t', mid);
    PairPages(cs, k, mid);
    OkReplaced(cfg, cs, k, k + 2, mid, h);
  }

  /** Two leaves share the entries of a pair, one of them after a removal. */
  lemma LeafPairRebalanced(cfg: Config, cs: seq<Tree>, k: nat, c: nat, entries: seq<Entry>, left: seq<Entry>,
                           right: seq<Entry>)
    requires ConfigOk(cfg) && k + 2 <= |cs| && (c == k || c == k + 1)
    requires forall i :: 0 <= i < |cs| ==> cs[i].Leaf? && Ok(cfg, cs[i], 0)
    requires left + right == if c == k then entries + cs[k + 1].entries else cs[k].entries + entries
    requires MinLeaf(cfg) <= |left| <= cfg.leafMax && MinLeaf(cfg) <= |right| <= cfg.leafMax
    ensures var mid := [Leaf(cs[k].page, left), Leaf(cs[k + 1].page, right)];
            Rebalanced(cfg, cs, c, Leaf(cs[c].page, entries), 0, RootPages(cs), false, Replaced(cs, k, k + 2, mid))
  {
    var mid := [Leaf(cs[k].page, left), Leaf(cs[k + 1].page, right)];
    hide Rebalanced, EntriesAll, Replaced, RootPages;
    Pair(mid[0], mid[1]);
    PairRebalanced(cfg, cs, k, c, Leaf(cs[c].page, entries), 0, mid);
  }

  /** One leaf takes the entries of a pair. */
  lemma LeafOneRebalanced(cfg: Config, cs: seq<Tree>, k: nat, c: nat, entries: seq<Entry>, joined: seq<Entry>)
    requires ConfigOk(cfg) && k + 2 <= |cs| && (c == k || c == k + 1)
    requires forall i :: 0 <= i < |cs| ==> cs[i].Leaf? && Ok(cfg, cs[i], 0)
    requires joined == if c == k then entries + cs[k + 1].entries else cs[k].entries + entries
    requires MinLeaf(cfg) <= |joined| <= cfg.leafMax
    ensures var mid := [Leaf(cs[k].page, joined)];
            Rebalanced(cfg, cs, c, Leaf(cs[c].page, entries), 0, RootPages(cs)[..k + 1] + RootPages(cs)[k + 2..], true,
                       Replaced(cs, k, k + 2, mid))
  {
    var mid := [Leaf(cs[k].page, joined)];
    hide Rebalanced, EntriesAll, Replaced, RootPages;
    OneEntry(mid[0]);
    PairRebalanced(cfg, cs, k, c, Leaf(cs[c].page, entries), 0, mid);
  }

  // ---- Rebalancing inner nodes ----

  /** Child c of the run was opened: its children stand in its place. */
  lemma SiblingPage(pages: Pages, free: seq<PageId>, pageCount: nat, meta: PageId, cs: seq<Tree>, c: nat, gs: seq<Tree>,
                    i: nat,
                    others: multiset<PageId>, before: seq<PageId>, after: seq<PageId>)
    requires c < |cs| && i < |cs| && i != c && cs[i].Node?
    requires Held(pages, free, pageCount, meta, Replaced(cs, c, c + 1, gs), others, before, after)
    ensures cs[i].children != [] && cs[i].page in pages
    ensures pages[cs[i].page] == InnerPage(Seps(cs[i].children), RootPages(cs[i].children))
  {
    hide DataPages, Chain, BagAll, LeafPagesAll, FreeList;
    var xs := Replaced(cs, c, c + 1, gs);
    var j := if i < c then i else i - 1 + |gs|;
    assert xs[j] == cs[i];
    assert Rep(pages, xs[j]);
  }

  lemma OpenLeft(pages: Pages, free: seq<PageId>, pageCount: nat, meta: PageId, cs: seq<Tree>, c: nat, gs: seq<Tree>,
                 others: multiset<PageId>, before: seq<PageId>, after: seq<PageId>)
    requires 0 < c < |cs| && cs[c - 1].Node?
    requires Held(pages, free, pageCount, meta, Replaced(cs, c, c + 1, gs), others + multiset{cs[c].page}, before,
                  after)
    ensures Held(pages, free, pageCount, meta, cs[..c - 1] + (cs[c - 1].children + gs) + cs[c + 1..],
                 others + multiset{cs[c - 1].page} + multiset{cs[c].page}, before, after)
  {
    hide Held;
    var xs, l := Replaced(cs, c, c + 1, gs), cs[c - 1];
    assert xs[c - 1] == l;
    Open(pages, free, pageCount, meta, xs, c - 1, others + multiset{cs[c].page}, before, after);
    assert Replaced(xs, c - 1, c, l.children) == cs[..c - 1] + (l.children + gs) + cs[c + 1..];
    OthersOrder(others, l.page, cs[c].page);
  }

  lemma OpenRight(pages: Pages, free: seq<PageId>, pageCount: nat, meta: PageId, cs: seq<Tree>, c: nat, gs: seq<Tree>,
                  others: multiset<PageId>, before: seq<PageId>, after: seq<PageId>)
    requires c + 1 < |cs| && cs[c + 1].Node?
    requires Held(pages, free, pageCount, meta, Replaced(cs, c, c + 1, gs), others + multiset{cs[c].page}, before,
                  after)
    ensures Held(pages, free, pageCount, meta, cs[..c] + (gs + cs[c + 1].children) + cs[c + 2..],
                 others + multiset{cs[c].page} + multiset{cs[c + 1].page}, before, after)
  {
    hide Held;
    var xs, r, i := Replaced(cs, c, c + 1, gs), cs[c + 1], c + |gs|;
    assert xs[i] == r;
    Open(pages, free, pageCount, meta, xs, i, others + multiset{cs[c].page}, before, after);
    assert Replaced(xs, i, i + 1, r.children) == cs[..c] + (gs + r.children) + cs[c + 2..];
  }

  /** Two inner nodes share the children of a pair. */
  lemma InnerPairRebalanced(cfg: Config, cs: seq<Tree>, k: nat, c: nat, gs: seq<Tree>, h: nat, all: seq<Tree>, n: nat)
    requires ConfigOk(cfg) && k + 2 <= |cs| && (c == k || c == k + 1) && 0 < h
    requires forall i :: 0 <= i < |cs| ==> cs[i].Node? && Ok(cfg, cs[i], h)
    requires forall i :: 0 <= i < |gs| ==> Ok(cfg, gs[i], h - 1)
    requires all == (if c == k then gs + cs[k + 1].children else cs[k].children + gs) && n <= |all|
    requires MinKids(cfg) <= n <= cfg.innerMax + 1 && MinKids(cfg) <= |all| - n <= cfg.innerMax + 1
    ensures var mid := [Node(cs[k].page, all[..n]), Node(cs[k + 1].page, all[n..])];
            Rebalanced(cfg, cs, c, Node(cs[c].page, gs), h, RootPages(cs), false, Replaced(cs, k, k + 2, mid))
  {
    var mid := [Node(cs[k].page, all[..n]), Node(cs[k + 1].page, all[n..])];
    hide Rebalanced, EntriesAll, Replaced, RootPages;
    AllChildrenOk(cfg, cs, k, c, gs, h, all);
    Pair(mid[0], mid[1]);
    EntriesConcat(all[..n], all[n..]);
    assert all == all[..n] + all[n..];
    PairChildren(cs, k, c, gs, all);
    NodeParts(mid[0]);
    NodeParts(mid[1]);
    PairRebalanced(cfg, cs, k, c, Node(cs[c].page, gs), h, mid);
  }

  /** One inner node takes the children of a pair. */
  lemma InnerOneRebalanced(cfg: Config, cs: seq<Tree>, k: nat, c: nat, gs: seq<Tree>, h: nat, all: seq<Tree>)
    requires ConfigOk(cfg) && k + 2 <= |cs| && (c == k || c == k + 1) && 0 < h
    requires forall i :: 0 <= i < |cs| ==> cs[i].Node? && Ok(cfg, cs[i], h)
    requires forall i :: 0 <= i < |gs| ==> Ok(cfg, gs[i], h - 1)
    requires all == if c == k then gs + cs[k + 1].children else cs[k].children + gs
    requires MinKids(cfg) <= |all| <= cfg.innerMax + 1
    ensures var mid := [Node(cs[k].page, all)];
            Rebalanced(cfg, cs, c, Node(cs[c].page, gs), h, RootPages(cs)[..k + 1] + RootPages(cs)[k + 2..], true,
                       Replaced(cs, k, k + 2, mid))
  {
    var mid := [Node(cs[k].page, all)];
    hide Rebalanced, EntriesAll, Replaced, RootPages;
    AllChildrenOk(cfg, cs, k, c, gs, h, all);
    OneEntry(mid[0]);
    PairChildren(cs, k, c, gs, all);
    NodeParts(mid[0]);
    PairRebalanced(cfg, cs, k, c, Node(cs[c].page, gs), h, mid);
  }

  lemma AllChildrenOk(cfg: Config, cs: seq<Tree>, k: nat, c: nat, gs: seq<Tree>, h: nat, all: seq<Tree>)
    requires k + 2 <= |cs| && (c == k || c == k + 1) && 0 < h
    requires forall i :: 0 <= i < |cs| ==> cs[i].Node? && Ok(cfg, cs[i], h)
    requires forall i :: 0 <= i < |gs| ==> Ok(cfg, gs[i], h - 1)
    requires all == if c == k then gs + cs[k + 1].children else cs[k].children + gs
    ensures forall i :: 0 <= i < |all| ==> Ok(cfg, all[i], h - 1)
  {
    assert Ok(cfg, cs[k], h) && Ok(cfg, cs[k + 1], h);
  }

  lemma PairChildren(cs: seq<Tree>, k: nat, c: nat, gs: seq<Tree>, all: seq<Tree>)
    requires k + 2 <= |cs| && (c == k || c == k + 1) && cs[k].Node? && cs[k + 1].Node?
    requires all == if c == k then gs + cs[k + 1].children else cs[k].children + gs
    ensures var t := Node(cs[c].page, gs);
            EntriesAll(all) == if c == k then Entries(t) + Entries(cs[k + 1]) else Entries(cs[k]) + Entries(t)
  {
    NodeParts(Node(cs[c].page, gs));
    NodeParts(cs[k]);
    NodeParts(cs[k + 1]);
    EntriesConcat(gs, cs[k + 1].children);
    EntriesConcat(cs[k].children, gs);
  }

  lemma PagesConcat(a: seq<Tree>, b: seq<Tree>, n: nat)
    requires n <= |a + b|
    ensures RootPages((a + b)[..n]) == (RootPages(a) + RootPages(b))[..n]
    ensures RootPages((a + b)[n..]) == (RootPages(a) + RootPages(b))[n..]
    ensures RootPages(a + b) == RootPages(a) + RootPages(b)
    ensures |RootPages(a)| == |a| && |RootPages(b)| == |b|
  {
  }

  lemma KidsCount(cfg: Config, cs: seq<Tree>, h: nat)
    requires forall i :: 0 <= i < |cs| ==> cs[i].Node? && Ok(cfg, cs[i], h)
    ensures forall i :: 0 <= i < |cs| ==> MinKids(cfg) <= |cs[i].children| <= cfg.innerMax + 1
  {
  }
}
