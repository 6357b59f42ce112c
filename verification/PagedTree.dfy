/** The paged B+ tree: nodes are read from pages, edited and written back; pages come from and go to
    a free list that is linked through the free pages. */
module PagedTree {
  import opened Options
  import opened TreeTheory
  import opened TreeOrder
  import opened TreeRuns
  import opened TreeErase
  import opened TreeScan
  import opened TreeSteps

  class Index {
    const cfg: Config
    const meta: PageId
    var pages: Pages
    var freeRoot: Option<PageId>
    var pageCount: nat
    var root: Option<PageId>
    var count: nat
    /** The pages on the free list, and those that belong to other structures. */
    ghost var free: seq<PageId>
    ghost var foreign: multiset<PageId>
    ghost var tree: Option<Tree>
    ghost var height: nat

    /** The entries of the index, in key order. */
    ghost function Contents(): (r: seq<Entry>)
      reads this
    {
      if tree.Some? then Entries(tree.value) else []
    }

    /** The pages of the tree. */
    ghost function TreePages(): (r: multiset<PageId>)
      reads this
    {
      if tree.Some? then Bag(tree.value) else multiset{}
    }

    /** The header names the head of the free list. */
    ghost predicate Listed()
      reads this
    {
      freeRoot == At(free, 0)
    }

    ghost predicate Valid()
      reads this
    {
      && ConfigOk(cfg) && 1 <= meta && Listed()
      && Sorted(Contents()) && count == |Contents()|
      && root == (if tree.Some? then Some(tree.value.page) else None)
      && Kept(cfg, pages, free, pageCount, meta, foreign, tree, height)
    }

    /** Page conservation: every data page of the database is exactly once in the tree, on the free list, or
        with another structure, and no page outside the database or reserved is anywhere. */
    lemma EveryPageOnce(p: PageId)
      requires Valid()
      ensures multiset(free)[p] + TreePages()[p] + foreign[p] == if 1 <= p < pageCount && p != meta then 1 else 0
    {
      hide Rep, Chain, RootOk, FreeList, Sorted;
      DataPagesIs(pageCount, meta, p);
      assert (multiset(free) + TreePages() + foreign)[p] == multiset(free)[p] + TreePages()[p] + foreign[p];
    }

    /** Every leaf is at the same depth, and the tree is as low as the occupancy makes it: the number of
        entries grows by a factor with each level. */
    lemma HeightBound()
      requires Valid() && tree.Some? && height > 0
      ensures count >= 2 * (MinLeaf(cfg) * Power(MinKids(cfg), height - 1))
    {
      hide Rep, Chain, Sorted, FreeList, Balanced, Power, Entries;
      RootEntries(cfg, tree.value, height);
    }

    /** The pages of a valid index balance. */
    lemma Accounted()
      requires Valid()
      ensures Balanced(free, TreePages(), foreign, pageCount, meta) && FreeList(pages, free)
    {
      hide Rep, Chain, RootOk, Sorted;
    }

    /** A new, empty index among the pages of other structures. */
    constructor (config: Config, metadataPage: PageId, databasePages: nat, stored: Pages,
                 ghost freePages: seq<PageId>, freeHead: Option<PageId>, ghost others: multiset<PageId>)
      requires ConfigOk(config) && 1 <= metadataPage
      requires Balanced(freePages, multiset{}, others, databasePages, metadataPage)
      requires FreeList(stored, freePages) && freeHead == At(freePages, 0)
      ensures Valid() && cfg == config && meta == metadataPage && foreign == others && Contents() == []
    {
      cfg, meta, foreign := config, metadataPage, others;
      pages, free, freeRoot, pageCount := stored, freePages, freeHead, databasePages;
      root, count := None, 0;
      tree, height := None, 0;
    }

    // ---- Pages ----

    /** allocatePage: the head of the free list, else one page more; zeroed either way. */
    method Allocate() returns (p: PageId)
      requires Listed() && FreeList(pages, free)
      modifies this`pages, this`free, this`freeRoot, this`pageCount
      ensures Listed() && pages == old(pages)[p := BlankPage]
      ensures old(free) != [] ==> p == old(free)[0] && free == old(free)[1..] && pageCount == old(pageCount)
      ensures old(free) == [] ==> p == old(pageCount) && free == [] && pageCount == old(pageCount) + 1
    {
      if freeRoot == None {
        p, pageCount := pageCount, pageCount + 1;
      } else {
        FreeTail(pages, free);
        p := freeRoot.value;
        freeRoot := pages[p].nextFree;
        free := free[1..];
      }
      pages := pages[p := BlankPage];
    }

    /** freePageIds: a walk along the free list. The cycle check never fires. */
    method FreePageIds() returns (ids: seq<PageId>, corrupt: bool)
      requires Listed() && FreeList(pages, free)
      ensures !corrupt && ids == free
    {
      ids, corrupt := [], false;
      var current := freeRoot;
      while current.Some?
        invariant |ids| <= |free| && ids == free[..|ids|] && current == At(free, |ids|)
        decreases |free| - |ids|
      {
        var p := current.value;
        assert FreeAt(pages, free, |ids|);
        if p in ids {
          var k :| 0 <= k < |ids| && ids[k] == p;
          FreeDistinct(pages, free, k, |ids|);
          return [], true;
        }
        current := pages[p].nextFree;
        ids := ids + [p];
      }
    }

    /** releasePage: the page becomes the head of the free list; refused if it is no data page, pinned, or on
        the list already. The tree holds no guard on a page it releases. */
    method Release(p: PageId, pins: nat) returns (ok: bool)
      requires Listed() && FreeList(pages, free)
      modifies this`pages, this`free, this`freeRoot
      ensures Listed() && (ok <==> 1 <= p < pageCount && pins == 0 && p !in old(free))
      ensures ok ==> free == [p] + old(free) && pages == old(pages)[p := FreePage(At(old(free), 0))]
      ensures !ok ==> free == old(free) && pages == old(pages)
    {
      if p == 0 || p >= pageCount || pins != 0 {
        return false;
      }
      var ids, corrupt := FreePageIds();
      if p in ids {
        return false;
      }
      pages := pages[p := FreePage(freeRoot)];
      freeRoot, free := Some(p), [p] + free;
      ok := true;
    }

    /** Another structure of the database takes a page. */
    method AllocateForOther() returns (p: PageId)
      requires Valid()
      modifies this
      ensures Valid() && Contents() == old(Contents()) && foreign == old(foreign) + multiset{p} && p !in old(foreign)
      ensures tree == old(tree) && count == old(count)
    {
      hide Kept, Sorted, FreeList;
      TakenByOther(cfg, pages, free, pageCount, meta, foreign, tree, height);
      p := Allocate();
      foreign := foreign + multiset{p};
    }

    /** Another structure of the database gives a page back, unless it still pins the page. */
    method ReleaseForOther(p: PageId, pins: nat) returns (ok: bool)
      requires Valid() && p in foreign
      modifies this
      ensures Valid() && Contents() == old(Contents()) && tree == old(tree) && count == old(count)
      ensures ok <==> pins == 0
      ensures foreign == (if ok then old(foreign) - multiset{p} else old(foreign))
      ensures free == (if ok then [p] + old(free) else old(free))
    {
      hide Kept, Sorted, FreeList;
      GivenByOther(cfg, pages, free, pageCount, meta, foreign, tree, height, p);
      ok := Release(p, pins);
      if ok {
        foreign := foreign - multiset{p};
      }
    }

    /** First position whose key is not below the searched key. */
    method LowerBound(es: seq<Entry>, key: Key) returns (i: nat)
      requires Sorted(es)
      ensures i <= |es| && (forall j :: 0 <= j < i ==> es[j].key < key)
      ensures (forall j :: i <= j < |es| ==> key <= es[j].key)
    {
      i := 0;
      while i < |es| && es[i].key < key
        invariant i <= |es| && forall j :: 0 <= j < i ==> es[j].key < key
      {
        i := i + 1;
      }
    }

    /** First separator above the searched key: the child to follow. */
    method UpperBound(keys: seq<Key>, key: Key) returns (c: nat)
      requires forall i, j :: 0 <= i < j < |keys| ==> keys[i] < keys[j]
      ensures c <= |keys| && (forall j :: 0 <= j < c ==> keys[j] <= key)
      ensures (forall j :: c <= j < |keys| ==> key < keys[j])
    {
      c := 0;
      while c < |keys| && keys[c] <= key
        invariant c <= |keys| && forall j :: 0 <= j < c ==> keys[j] <= key
      {
        c := c + 1;
      }
    }

    // ---- Insertion ----

    /** Page q is a leaf whose back link names p. */
    predicate LinksBack(q: PageId, p: PageId)
      reads this`pages
    {
      q in pages && pages[q].LeafPage? && pages[q].prev == Some(p)
    }

    /** The page writes of splitLeaf. The check that the next leaf links back never fires. */
    method SplitPages(p: PageId, q: PageId, left: seq<Entry>, right: seq<Entry>) returns (corrupt: bool)
      requires IsLeaf(pages, p) && p != q
      requires pages[p].next.Some? ==>
                 && pages[p].next.value != q && IsLeaf(pages, pages[p].next.value)
                 && pages[pages[p].next.value].prev == Some(p)
      modifies this`pages
      ensures !corrupt && pages == LinkAfter(old(pages), p, q, left, right)
    {
      var leaf := pages[p];
      corrupt := false;
      if leaf.next.Some? && !LinksBack(leaf.next.value, p) {
        corrupt := true;
        return;
      }
      pages := pages[q := LeafPage(right, leaf.next, Some(p))];
      pages := pages[p := LeafPage(left, Some(q), leaf.prev)];
      if leaf.next.Some? {
        pages := pages[leaf.next.value := pages[leaf.next.value].(prev := Some(q))];
      }
    }

    /** The leaf case of insert, with splitLeaf. */
    method InsertLeaf(p: PageId, e: Entry, position: nat, ghost t: Tree, ghost top: bool,
                      ghost others: multiset<PageId>, ghost before: seq<PageId>, ghost after: seq<PageId>)
      returns (split: Option<Split>, ghost ts: seq<Tree>)
      requires ConfigOk(cfg) && t.Leaf? && t.page == p && Shaped(cfg, t, 0, top)
      requires Held(pages, free, pageCount, meta, [t], others, before, after) && Listed()
      requires position <= |t.entries| && Sorted(t.entries[..position] + [e] + t.entries[position..])
      modifies this`pages, this`free, this`freeRoot, this`pageCount
      ensures Grown(cfg, t, 0, top, e, ts, split) && Untouched(old(pages), pages, others, before + after)
      ensures Held(pages, free, pageCount, meta, ts, others, before, after)
      ensures Listed() && Taken(old(free), old(pageCount), free, pageCount)
    {
      hide Sorted, Held, Untouched, DataPages, LinkAfter, Grown, Shaped, Balanced, FreeList;
      HeldLeaf(pages, free, pageCount, meta, t, others, before, after);
      HeldMembers(pages, free, pageCount, meta, [t], others, before, after);
      var leaf := pages[p];
      var entries := leaf.entries[..position] + [e] + leaf.entries[position..];
      if |entries| <= cfg.leafMax {
        GrownLeaf(cfg, t, top, e, position, entries, p);
        LeafFits(pages, free, pageCount, meta, t, others, before, after, entries);
        pages := pages[p := leaf.(entries := entries)];
        split, ts := None, [Leaf(p, entries)];
      } else {
        var n := LeftSize(|entries|);
        HeldAllocate(pages, free, pageCount, meta, [t], others, before, after);
        var q := Allocate();
        ghost var pages1 := pages;
        GrownLeaf(cfg, t, top, e, position, entries, q);
        LeafSplits(pages, free, pageCount, meta, t, others, before, after, q, entries[..n], entries[n..]);
        var corrupt := SplitPages(p, q, entries[..n], entries[n..]);
        UntouchedTrans(old(pages), pages1, pages, others, before + after);
        split, ts := Some(Split(entries[n].key, q)), [Leaf(p, entries[..n]), Leaf(q, entries[n..])];
      }
    }

    /** splitInternal: the upper half of the children moves to a new page, the middle separator up. */
    method SplitInner(p: PageId, keys: seq<Key>, kids: seq<PageId>, n: nat, ghost t: Tree, ghost ts: seq<Tree>,
                      ghost others: multiset<PageId>, ghost before: seq<PageId>, ghost after: seq<PageId>)
      returns (split: Option<Split>, ghost result: seq<Tree>)
      requires 0 < n < |ts| && keys == Seps(ts) && kids == RootPages(ts)
      requires Held(pages, free, pageCount, meta, ts, others + multiset{p}, before, after) && Listed()
      requires forall q :: q in before || q in after ==> q in others
      modifies this`pages, this`free, this`freeRoot, this`pageCount
      ensures Listed() && Taken(old(free), old(pageCount), free, pageCount)
      ensures split.Some? && split == Some(Split(Min(ts[n]), split.value.right))
      ensures result == [Node(p, ts[..n]), Node(split.value.right, ts[n..])]
      ensures Untouched(old(pages), pages, others, before + after)
      ensures Held(pages, free, pageCount, meta, result, others, before, after)
    {
      hide Held, Untouched, Seps, RootPages, BagAll, LeafPagesAll, EntriesAll, FreeList;
      Counts(ts, keys, kids);
      SepsSplit(ts, n);
      HeldMembers(pages, free, pageCount, meta, ts, others + multiset{p}, before, after);
      HeldAllocate(pages, free, pageCount, meta, ts, others + multiset{p}, before, after);
      var q := Allocate();
      ghost var pages1 := pages;
      WriteInner(pages, free, pageCount, meta, q, InnerPage(keys[n..], kids[n..]), ts, others + multiset{p}, before,
                 after);
      pages := pages[q := InnerPage(keys[n..], kids[n..])];
      ghost var pages2 := pages;
      OthersOrder(others, p, q);
      HeldFresh(pages, free, pageCount, meta, ts, others, p, q, before, after);
      WriteInner(pages, free, pageCount, meta, p, InnerPage(keys[..n - 1], kids[..n]), ts, others + multiset{q}, before,
                 after);
      pages := pages[p := InnerPage(keys[..n - 1], kids[..n])];
      UntouchedTrans(old(pages), pages1, pages2, others + multiset{p}, before + after);
      UntouchedBoth(old(pages), pages2, pages, others, q, p, before + after);
      SplitRun(pages, free, pageCount, meta, ts, n, p, q, others, before, after);
      split, result := Some(Split(keys[n - 1], q)), [Node(p, ts[..n]), Node(q, ts[n..])];
    }

    /** The parent of a split child takes the separator and the new child; splitInternal if it overflows. */
    method InsertInner(p: PageId, c: nat, childSplit: Split, ghost t: Tree, ghost h: nat, ghost top: bool, e: Entry,
                       ghost ts: seq<Tree>,
                       ghost others: multiset<PageId>, ghost before: seq<PageId>, ghost after: seq<PageId>)
      returns (split: Option<Split>, ghost result: seq<Tree>)
      requires ConfigOk(cfg) && t.Node? && t.page == p && 0 < h && Shaped(cfg, t, h, top) && c < |t.children|
      requires p in pages && pages[p] == InnerPage(Seps(t.children), RootPages(t.children))
      requires |ts| == |t.children| + 1
      requires Seps(ts) == Seps(t.children)[..c] + [childSplit.separator] + Seps(t.children)[c..]
      requires RootPages(ts) == RootPages(t.children)[..c + 1] + [childSplit.right] + RootPages(t.children)[c + 1..]
      requires Inserted(Entries(t), EntriesAll(ts), e) && (forall i :: 0 <= i < |ts| ==> Ok(cfg, ts[i], h - 1))
      requires AllNonempty(ts)
      requires Held(pages, free, pageCount, meta, ts, others + multiset{p}, before, after) && Listed()
      requires forall q :: q in before || q in after ==> q in others
      modifies this`pages, this`free, this`freeRoot, this`pageCount
      ensures Grown(cfg, t, h, top, e, result, split) && Untouched(old(pages), pages, others, before + after)
      ensures Held(pages, free, pageCount, meta, result, others, before, after)
      ensures Listed() && Taken(old(free), old(pageCount), free, pageCount)
    {
      hide Inserted, Held, Untouched, Grown, Shaped, Ok, Seps, RootPages, EntriesAll, Entries;
      var inner := pages[p];
      Counts(t.children, inner.keys, inner.children);
      var keys := inner.keys[..c] + [childSplit.separator] + inner.keys[c..];
      var kids := inner.children[..c + 1] + [childSplit.right] + inner.children[c + 1..];
      Counts(ts, keys, kids);
      if |keys| <= cfg.innerMax {
        GrownInner(cfg, t, h, top, e, ts, p);
        WriteInner(pages, free, pageCount, meta, p, InnerPage(keys, kids), ts, others, before, after);
        pages := pages[p := InnerPage(keys, kids)];
        Over(pages, free, pageCount, meta, p, ts, others, before, after);
        split, result := None, [Node(p, ts)];
      } else {
        var n := LeftSize(|kids|);
        split, result := SplitInner(p, keys, kids, n, t, ts, others, before, after);
        GrownInner(cfg, t, h, top, e, ts, split.value.right);
      }
    }

    /** Back in the parent of the child that was inserted into. */
    method InsertParent(p: PageId, c: nat, childSplit: Option<Split>, ghost t: Tree, ghost h: nat, ghost top: bool,
                        e: Entry,
                        ghost mid: seq<Tree>, ghost pages0: Pages,
                        ghost others: multiset<PageId>, ghost before: seq<PageId>, ghost after: seq<PageId>)
      returns (split: Option<Split>, ghost ts: seq<Tree>)
      requires ConfigOk(cfg) && t.Node? && t.page == p && 0 < h && Shaped(cfg, t, h, top) && Sorted(Entries(t))
      requires c < |t.children| && Routed(t.children, c, e.key)
      requires Grown(cfg, t.children[c], h - 1, false, e, mid, childSplit)
      requires p in pages0 && pages0[p] == InnerPage(Seps(t.children), RootPages(t.children))
      requires forall i :: 0 <= i < |t.children| ==> Rep(pages0, t.children[i])
      requires forall q :: q in before || q in after ==> q in others
      requires Held(pages, free, pageCount, meta, mid, others + multiset{p} + Rest(t.children, c, c + 1),
                    before + LeafPagesAll(t.children[..c]), LeafPagesAll(t.children[c + 1..]) + after) && Listed()
      requires Untouched(pages0, pages, others + multiset{p} + Rest(t.children, c, c + 1),
                         (before + LeafPagesAll(t.children[..c])) + (LeafPagesAll(t.children[c + 1..]) + after))
      modifies this`pages, this`free, this`freeRoot, this`pageCount
      ensures Grown(cfg, t, h, top, e, ts, split) && Untouched(pages0, pages, others, before + after)
      ensures Held(pages, free, pageCount, meta, ts, others, before, after)
      ensures Listed() && Taken(old(free), old(pageCount), free, pageCount)
    {
      hide Sorted, Held, Untouched, Grown, Ok, Shaped, Seps, RootPages, EntriesAll, Routed, LeafPagesAll, Rep,
           Inserted, Rest, Balanced, BagAll,
           SameNodes, Taken;
      ghost var cs := Replaced(t.children, c, c + 1, mid);
      ShapedChildren(cfg, t, h, top);
      GrownChildren(cfg, t, h, top, e, c, mid, childSplit);
      GrownSize(cfg, t.children[c], h - 1, e, mid, childSplit);
      HeldBalanced(pages, free, pageCount, meta, mid, others + multiset{p} + Rest(t.children, c, c + 1),
                   before + LeafPagesAll(t.children[..c]), LeafPagesAll(t.children[c + 1..]) + after);
      UntouchedOut(pages0, pages, free, pageCount, meta, BagAll(mid), t.children, c, c + 1, others + multiset{p},
                   before, after);
      Unzoom(pages0, pages, free, pageCount, meta, t.children, c, c + 1, mid, others + multiset{p}, before, after);
      ParentKept(pages0, pages, p, others + multiset{p}, before + after);
      NoneTaken(free, pageCount);
      ghost var pages1 := pages;
      if childSplit.None? {
        assert mid == [mid[0]];
        SepsReplace(t.children, c, mid[0]);
        SamePages(t.children, c, mid[0]);
        UntouchedLess(pages0, pages, others, p, before + after);
        Over(pages, free, pageCount, meta, p, cs, others, before, after);
        GrownInner(cfg, t, h, top, e, cs, p);
        split, ts := None, [Node(p, cs)];
      } else {
        SepsInsert(t.children, c, mid[0], mid[1]);
        assert cs == t.children[..c] + [mid[0], mid[1]] + t.children[c + 1..];
        split, ts := InsertInner(p, c, childSplit.value, t, h, top, e, cs, others, before, after);
        UntouchedThen(pages0, pages1, pages, others, p, before + after);
      }
    }

    /** Insert below page p: follow the separators down, insert into the leaf, carry splits back up. */
    method InsertAt(p: PageId, e: Entry, ghost t: Tree, ghost h: nat, ghost top: bool,
                    ghost others: multiset<PageId>, ghost before: seq<PageId>, ghost after: seq<PageId>)
      returns (found: bool, split: Option<Split>, ghost ts: seq<Tree>)
      requires ConfigOk(cfg) && t.page == p && Shaped(cfg, t, h, top) && Sorted(Entries(t))
      requires Held(pages, free, pageCount, meta, [t], others, before, after) && Listed()
      modifies this`pages, this`free, this`freeRoot, this`pageCount
      ensures found == HasKey(Entries(t), e.key) && Listed() && Taken(old(free), old(pageCount), free, pageCount)
      ensures found ==> split == None && pages == old(pages) && free == old(free) && pageCount == old(pageCount)
      ensures !found ==> Grown(cfg, t, h, top, e, ts, split) && Untouched(old(pages), pages, others, before + after)
      ensures !found ==> Held(pages, free, pageCount, meta, ts, others, before, after)
      decreases h
    {
      hide Sorted, Held, Untouched, Grown, Ok, Seps, RootPages, EntriesAll, HasKey, Below, Above, LeafPagesAll, Rest,
           Taken;
      split, ts := None, [t];
      NoneTaken(free, pageCount);
      PageKind(pages, free, pageCount, meta, t, others, before, after);
      var node := pages[p];
      if node.LeafPage? {
        var position := LowerBound(node.entries, e.key);
        LeafHas(node.entries, e.key, position);
        LeafHeight(cfg, t, h, top);
        found := position < |node.entries| && node.entries[position].key == e.key;
        if !found {
          SortedInsert(node.entries, e, position);
          split, ts := InsertLeaf(p, e, position, t, top, others, before, after);
        }
      } else {
        Under(pages, free, pageCount, meta, t, others, before, after);
        NodeParts(t);
        ShapedChildren(cfg, t, h, top);
        SepsSorted(t.children);
        Counts(t.children, node.keys, node.children);
        var c := UpperBound(node.keys, e.key);
        Route(t.children, c, e.key);
        Zoom(pages, free, pageCount, meta, t.children, c, c + 1, others + multiset{p}, before, after);
        ChildPage(t.children, c);
        assert t.children[c..c + 1] == [t.children[c]];
        var childSplit: Option<Split>;
        ghost var mid;
        found, childSplit, mid :=
          InsertAt(node.children[c], e, t.children[c], h - 1, false, others + multiset{p} + Rest(t.children, c, c + 1),
                   before + LeafPagesAll(t.children[..c]), LeafPagesAll(t.children[c + 1..]) + after);
        if !found {
          HeldReps(old(pages), old(free), old(pageCount), meta, t.children, others + multiset{p}, before, after);
          ghost var free1, pageCount1 := free, pageCount;
          split, ts := InsertParent(p, c, childSplit, t, h, top, e, mid, old(pages), others, before, after);
          TakenTwice(old(free), old(pageCount), free1, pageCount1, free, pageCount);
        }
      }
    }

    /** Into an empty index: one leaf, which is the root. */
    method InsertFirst(e: Entry)
      requires ConfigOk(cfg) && tree == None && Listed()
      requires Kept(cfg, pages, free, pageCount, meta, foreign, tree, height)
      modifies this`pages, this`free, this`freeRoot, this`pageCount, this`root, this`tree, this`height
      ensures tree.Some? && root == Some(tree.value.page) && Inserted([], Entries(tree.value), e)
      ensures Listed() && Kept(cfg, pages, free, pageCount, meta, foreign, tree, height)
      ensures Untouched(old(pages), pages, foreign, []) && Taken(old(free), old(pageCount), free, pageCount)
    {
      hide Whole, Untouched, Balanced, FreeList, Taken, Inserted;
      EmptyAllocates(pages, free, pageCount, meta, foreign);
      var p := Allocate();
      ghost var pages1 := pages;
      pages := pages[p := LeafPage([e], None, None)];
      root := Some(p);
      FirstWritten(old(pages), pages1, free, pageCount, meta, foreign, p, LeafPage([e], None, None));
      FirstLeaf(cfg, pages, free, pageCount, meta, foreign, p, e);
      tree, height := Some(Leaf(p, [e])), 0;
      OneTaken(old(free), old(pageCount));
    }

    /** A split of the root puts a new root above both halves. */
    method RaiseRoot(split: Split, ghost ts: seq<Tree>)
      requires ConfigOk(cfg) && root.Some? && |ts| == 2 && Ok(cfg, ts[0], height) && Ok(cfg, ts[1], height)
      requires ts[0].page == root.value && ts[1].page == split.right && Seps(ts) == [split.separator]
      requires RootPages(ts) == [ts[0].page, ts[1].page]
      requires Held(pages, free, pageCount, meta, ts, foreign, [], []) && Listed()
      modifies this`pages, this`free, this`freeRoot, this`pageCount, this`root, this`tree, this`height
      ensures tree.Some? && root == Some(tree.value.page) && Entries(tree.value) == EntriesAll(ts)
      ensures Whole(cfg, pages, free, pageCount, meta, foreign, tree.value, height)
      ensures Untouched(old(pages), pages, foreign, [])
      ensures Listed() && Taken(old(free), old(pageCount), free, pageCount)
    {
      hide Held, Whole, Seps, RootPages, Ok, EntriesAll, FreeList, Untouched;
      HeldAllocate(pages, free, pageCount, meta, ts, foreign, [], []);
      NoneBeside();
      var q := Allocate();
      ghost var pages1 := pages;
      NewRoot(cfg, pages, free, pageCount, meta, foreign, q, ts, height);
      pages := pages[q := InnerPage([split.separator], [root.value, split.right])];
      UntouchedTrans(old(pages), pages1, pages, foreign, []);
      root := Some(q);
      tree, height := Some(Node(q, ts)), height + 1;
      NodeParts(Node(q, ts));
    }

    /** Into the tree: insert below the root, and raise a new root if the root split. */
    method InsertRoot(e: Entry) returns (inserted: bool)
      requires ConfigOk(cfg) && tree.Some? && root == Some(tree.value.page) && Sorted(Entries(tree.value)) && Listed()
      requires Kept(cfg, pages, free, pageCount, meta, foreign, tree, height)
      modifies this`pages, this`free, this`freeRoot, this`pageCount, this`root, this`tree, this`height
      ensures inserted == !HasKey(Entries(old(tree).value), e.key)
      ensures tree.Some? && root == Some(tree.value.page)
      ensures Listed() && Kept(cfg, pages, free, pageCount, meta, foreign, tree, height)
      ensures inserted ==> Inserted(Entries(old(tree).value), Entries(tree.value), e)
      ensures inserted ==>
                Untouched(old(pages), pages, foreign, []) && Taken(old(free), old(pageCount), free, pageCount)
      ensures !inserted ==>
                && pages == old(pages) && free == old(free) && pageCount == old(pageCount)
                && root == old(root) && tree == old(tree) && height == old(height)
    {
      hide Sorted, Whole, HasKey, Held, Grown, Untouched, Entries, Inserted, Taken, RootOk;
      ghost var t := tree.value;
      WholeHeld(cfg, pages, free, pageCount, meta, foreign, t, height);
      NoneBeside();
      var found, split;
      ghost var ts;
      found, split, ts := InsertAt(root.value, e, t, height, true, foreign, [], []);
      inserted := !found;
      if !found {
        GrownRoot(cfg, t, height, e, ts, split);
        if split.Some? {
          ghost var pages1, free1, pageCount1 := pages, free, pageCount;
          RaiseRoot(split.value, ts);
          UntouchedTrans(old(pages), pages1, pages, foreign, []);
          TakenTwice(old(free), old(pageCount), free1, pageCount1, free, pageCount);
        } else {
          assert ts == [ts[0]];
          WholeHeld(cfg, pages, free, pageCount, meta, foreign, ts[0], height);
          tree := Some(ts[0]);
        }
      }
    }

    /** Insert a key with its record, unless the key is there. Refused for an invalid record id, and when the
        entry count is at its greatest value. The pages it takes come from the head of the
        free list, then from behind the last page. */
    method Insert(key: Key, rid: RecordId) returns (inserted: bool, refused: bool)
      requires Valid()
      modifies this
      ensures refused <==> !RecordIdOk(rid) || old(count) == MAX_ENTRIES
      ensures Valid() && inserted == (!refused && key !in ToMap(old(Contents())))
      ensures ToMap(Contents()) == if inserted then ToMap(old(Contents()))[key := rid] else ToMap(old(Contents()))
      ensures !inserted ==>
                && pages == old(pages) && free == old(free) && pageCount == old(pageCount)
                && root == old(root) && count == old(count) && tree == old(tree)
      ensures foreign == old(foreign) && forall q :: q in foreign ==> SamePage(old(pages), pages, q)
      ensures Taken(old(free), old(pageCount), free, pageCount) && old(TreePages()) <= TreePages()
    {
      hide Sorted, Kept, ToMap, HasKey, Untouched, Balanced, Inserted, Taken, FreeList, Bag, Entries;
      ghost var es, used, pages0, free0, pageCount0 := Contents(), TreePages(), pages, free, pageCount;
      var e := Entry(key, rid);
      inserted, refused := false, !RecordIdOk(rid) || count == MAX_ENTRIES;
      if refused {
        NoneTaken(free, pageCount);
        return;
      }
      ToMapIs(es, key);
      Accounted();
      if root == None {
        inserted := true;
        InsertFirst(e);
      } else {
        inserted := InsertRoot(e);
      }
      if inserted {
        count := count + 1;
        InsertIsUpdate(es, Contents(), e);
        InsertedSize(es, Contents(), e);
        Accounted();
        MorePages(free0, pageCount0, used, free, pageCount, TreePages(), foreign, meta);
        ExactlyKept(pages0, pages, foreign);
      } else {
        NoneTaken(free, pageCount);
      }
    }

    // ---- Removal ----

    /** Least key below a page: down the first children to a leaf. */
    method SubtreeMinimum(p: PageId, ghost t: Tree) returns (key: Key)
      requires t.page == p && Rep(pages, t) && NonemptyLeaves(t)
      ensures key == Min(t)
    {
      var current := p;
      ghost var s := t;
      while pages[current].InnerPage?
        invariant s.page == current && Rep(pages, s) && NonemptyLeaves(s) && Min(s) == Min(t)
        decreases s
      {
        FirstChildMin(s);
        current := pages[current].children[0];
        s := s.children[0];
      }
      key := pages[current].entries[0].key;
    }

    /** rebuildInternalKeys: the separators are the least keys of all children but the first. The check that
        they increase never fires. */
    method RebuildKeys(kids: seq<PageId>, ghost ts: seq<Tree>) returns (keys: seq<Key>, corrupt: bool)
      requires ts != [] && kids == RootPages(ts) && Sorted(EntriesAll(ts))
      requires forall i :: 0 <= i < |ts| ==> Rep(pages, ts[i]) && NonemptyLeaves(ts[i])
      ensures !corrupt && keys == Seps(ts)
    {
      hide Sorted, EntriesAll, Rep, NonemptyLeaves;
      keys, corrupt := [], false;
      MinsAscend(ts);
      var i := 1;
      while i < |kids|
        invariant 1 <= i <= |kids| && |keys| == i - 1 && forall j :: 0 <= j < i - 1 ==> keys[j] == Min(ts[j + 1])
      {
        var key := SubtreeMinimum(kids[i], ts[i]);
        if keys != [] && keys[|keys| - 1] >= key {
          return [], true;
        }
        keys := keys + [key];
        i := i + 1;
      }
    }

    /** Move entries between two neighbouring leaves. */
    method ShiftPair(kids: seq<PageId>, k: nat, left: seq<Entry>, right: seq<Entry>, ghost cs: seq<Tree>,
                     ghost others: multiset<PageId>, ghost before: seq<PageId>, ghost after: seq<PageId>)
      returns (ghost cs': seq<Tree>)
      requires k + 2 <= |cs| && kids == RootPages(cs) && cs[k].Leaf? && cs[k + 1].Leaf?
      requires Held(pages, free, pageCount, meta, cs, others, before, after)
      modifies this`pages
      ensures cs' == Replaced(cs, k, k + 2, [Leaf(kids[k], left), Leaf(kids[k + 1], right)])
      ensures Held(pages, free, pageCount, meta, cs', others, before, after)
      ensures Untouched(old(pages), pages, others, before + after)
    {
      hide Held, Untouched, LeafPagesAll, Rest, Rep, SameNodes, Balanced, BagAll;
      HeldReps(pages, free, pageCount, meta, cs, others, before, after);
      HeldMembers(pages, free, pageCount, meta, cs, others, before, after);
      Zoom(pages, free, pageCount, meta, cs, k, k + 2, others, before, after);
      assert cs[k..k + 2] == [cs[k], cs[k + 1]];
      ghost var l, r := before + LeafPagesAll(cs[..k]), LeafPagesAll(cs[k + 2..]) + after;
      LeafShift(pages, free, pageCount, meta, cs[k], cs[k + 1], others + Rest(cs, k, k + 2), l, r, left, right);
      var leftPage, rightPage := pages[kids[k]], pages[kids[k + 1]];
      pages := pages[kids[k] := leftPage.(entries := left)];
      pages := pages[kids[k + 1] := rightPage.(entries := right)];
      cs' := Replaced(cs, k, k + 2, [Leaf(kids[k], left), Leaf(kids[k + 1], right)]);
      ghost var mid := [Leaf(kids[k], left), Leaf(kids[k + 1], right)];
      HeldBalanced(pages, free, pageCount, meta, mid, others + Rest(cs, k, k + 2), l, r);
      UntouchedOut(old(pages), pages, free, pageCount, meta, BagAll(mid), cs, k, k + 2, others, before, after);
      Unzoom(old(pages), pages, free, pageCount, meta, cs, k, k + 2, mid, others, before, after);
    }

    /** Merge two neighbouring leaves into the left one: entries, links, and the page of the right one. The
        check that the next leaf links back never fires, and the released page was not free. */
    method MergePair(kids: seq<PageId>, k: nat, entries: seq<Entry>, ghost cs: seq<Tree>,
                     ghost others: multiset<PageId>, ghost before: seq<PageId>, ghost after: seq<PageId>)
      returns (corrupt: bool, ghost cs': seq<Tree>)
      requires k + 2 <= |cs| && kids == RootPages(cs) && cs[k].Leaf? && cs[k + 1].Leaf?
      requires Held(pages, free, pageCount, meta, cs, others, before, after) && Listed()
      modifies this`pages, this`free, this`freeRoot
      ensures !corrupt && Listed() && Released(old(free), free)
      ensures cs' == Replaced(cs, k, k + 2, [Leaf(kids[k], entries)])
      ensures Held(pages, free, pageCount, meta, cs', others, before, after)
      ensures Untouched(old(pages), pages, others, before + after)
    {
      hide Held, Untouched, LeafPagesAll, Rest, Rep, SameNodes, Balanced, BagAll, FreeList;
      HeldReps(pages, free, pageCount, meta, cs, others, before, after);
      HeldMembers(pages, free, pageCount, meta, cs, others, before, after);
      Zoom(pages, free, pageCount, meta, cs, k, k + 2, others, before, after);
      assert cs[k..k + 2] == [cs[k], cs[k + 1]];
      ghost var l, r := before + LeafPagesAll(cs[..k]), LeafPagesAll(cs[k + 2..]) + after;
      HeldMembers(pages, free, pageCount, meta, [cs[k], cs[k + 1]], others + Rest(cs, k, k + 2), l, r);
      LeafMerge(pages, free, pageCount, meta, cs[k], cs[k + 1], others + Rest(cs, k, k + 2), l, r, entries);
      var left, right := pages[kids[k]], pages[kids[k + 1]];
      corrupt := false;
      cs' := Replaced(cs, k, k + 2, [Leaf(kids[k], entries)]);
      if right.next.Some? {
        if !LinksBack(right.next.value, kids[k + 1]) {
          corrupt := true;
          return;
        }
        pages := pages[right.next.value := pages[right.next.value].(prev := Some(kids[k]))];
      }
      pages := pages[kids[k] := LeafPage(entries, right.next, left.prev)];
      ghost var pages1 := pages;
      HeldRelease(pages, free, pageCount, meta, [Leaf(kids[k], entries)], kids[k + 1], others + Rest(cs, k, k + 2), l,
                  r);
      HeldFree(pages, free, pageCount, meta, [Leaf(kids[k], entries)],
               others + Rest(cs, k, k + 2) + multiset{kids[k + 1]}, l, r);
      var ok := Release(kids[k + 1], 0);
      UntouchedTrans(old(pages), pages1, pages, others + Rest(cs, k, k + 2), l + r);
      HeldBalanced(pages, free, pageCount, meta, [Leaf(kids[k], entries)], others + Rest(cs, k, k + 2), l, r);
      UntouchedOut(old(pages), pages, free, pageCount, meta, BagAll([Leaf(kids[k], entries)]), cs, k, k + 2, others,
                   before, after);
      Unzoom(old(pages), pages, free, pageCount, meta, cs, k, k + 2, [Leaf(kids[k], entries)], others, before, after);
    }

    /** rebalanceLeafAfterErase: borrow from the left, borrow from the right, merge to the left, merge
        with the right, in that order. */
    method RebalanceLeaf(kids: seq<PageId>, c: nat, entries: seq<Entry>, ghost cs: seq<Tree>,
                         ghost others: multiset<PageId>, ghost before: seq<PageId>, ghost after: seq<PageId>)
      returns (kids': seq<PageId>, merged: bool, ghost cs': seq<Tree>)
      requires ConfigOk(cfg) && c < |cs| && 2 <= |cs| && kids == RootPages(cs) && |entries| == MinLeaf(cfg) - 1
      requires forall i :: 0 <= i < |cs| ==> cs[i].Leaf? && Ok(cfg, cs[i], 0)
      requires Held(pages, free, pageCount, meta, cs, others, before, after) && Listed()
      modifies this`pages, this`free, this`freeRoot
      ensures Listed() && Released(old(free), free)
      ensures Rebalanced(cfg, cs, c, Leaf(kids[c], entries), 0, kids', merged, cs')
      ensures Held(pages, free, pageCount, meta, cs', others, before, after)
      ensures Untouched(old(pages), pages, others, before + after)
    {
      hide Held, Untouched, EntriesAll, Rebalanced, Replaced;
      HeldLeaves(pages, free, pageCount, meta, cs, others, before, after);
      ghost var t' := Leaf(kids[c], entries);
      if c > 0 && |pages[kids[c - 1]].entries| > MinLeaf(cfg) {
        var left := pages[kids[c - 1]].entries;
        var n := |left| - 1;
        LeafPairRebalanced(cfg, cs, c - 1, c, entries, left[..n], [left[n]] + entries);
        cs' := ShiftPair(kids, c - 1, left[..n], [left[n]] + entries, cs, others, before, after);
        kids', merged := kids, false;
      } else if c + 1 < |kids| && |pages[kids[c + 1]].entries| > MinLeaf(cfg) {
        var right := pages[kids[c + 1]].entries;
        LeafPairRebalanced(cfg, cs, c, c, entries, entries + [right[0]], right[1..]);
        cs' := ShiftPair(kids, c, entries + [right[0]], right[1..], cs, others, before, after);
        kids', merged := kids, false;
      } else if c > 0 {
        var left := pages[kids[c - 1]].entries;
        LeafOneRebalanced(cfg, cs, c - 1, c, entries, left + entries);
        var corrupt;
        corrupt, cs' := MergePair(kids, c - 1, left + entries, cs, others, before, after);
        kids', merged := kids[..c] + kids[c + 1..], true;
      } else {
        var right := pages[kids[1]].entries;
        LeafOneRebalanced(cfg, cs, 0, c, entries, entries + right);
        var corrupt;
        corrupt, cs' := MergePair(kids, 0, entries + right, cs, others, before, after);
        kids', merged := kids[..1] + kids[2..], true;
      }
    }

    /** Two pages divide a run of children; their separators are rebuilt. */
    method WriteHalves(pl: PageId, pr: PageId, left: seq<PageId>, right: seq<PageId>,
                       ghost a: seq<Tree>, ghost gs: seq<Tree>, ghost b: seq<Tree>, ghost n: nat,
                       ghost others: multiset<PageId>, ghost before: seq<PageId>, ghost after: seq<PageId>)
      requires 0 < n < |gs| && left == RootPages(gs[..n]) && right == RootPages(gs[n..]) && Sorted(EntriesAll(gs))
      requires forall i :: 0 <= i < |gs| ==> NonemptyLeaves(gs[i])
      requires Held(pages, free, pageCount, meta, a + gs + b, others + multiset{pl} + multiset{pr}, before, after)
      requires forall q :: q in before || q in after ==> q in others
      modifies this`pages
      ensures Held(pages, free, pageCount, meta, a + [Node(pl, gs[..n]), Node(pr, gs[n..])] + b, others, before, after)
      ensures Untouched(old(pages), pages, others, before + after)
    {
      hide Held, Untouched, Seps, RootPages, NonemptyLeaves, Rep, Sorted, EntriesAll;
      HeldReps(pages, free, pageCount, meta, a + gs + b, others + multiset{pl} + multiset{pr}, before, after);
      assert forall i :: 0 <= i < |gs| ==> gs[i] == (a + gs + b)[|a| + i];
      SortedHalves(gs, n);
      HalvesHeld(pages, free, pageCount, meta, a, gs, b, n, pl, pr, others, before, after);
      var leftKeys, badLeft := RebuildKeys(left, gs[..n]);
      var rightKeys, badRight := RebuildKeys(right, gs[n..]);
      pages := pages[pl := InnerPage(leftKeys, left)];
      pages := pages[pr := InnerPage(rightKeys, right)];
    }

    /** One page takes a run of children, the other is released. */
    method WriteJoined(pl: PageId, pr: PageId, kids: seq<PageId>, ghost a: seq<Tree>, ghost gs: seq<Tree>,
                       ghost b: seq<Tree>,
                       ghost others: multiset<PageId>, ghost before: seq<PageId>, ghost after: seq<PageId>)
      requires gs != [] && kids == RootPages(gs) && Sorted(EntriesAll(gs))
      requires forall i :: 0 <= i < |gs| ==> NonemptyLeaves(gs[i])
      requires Held(pages, free, pageCount, meta, a + gs + b, others + multiset{pl} + multiset{pr}, before, after)
      requires Listed()
      requires forall q :: q in before || q in after ==> q in others
      modifies this`pages, this`free, this`freeRoot
      ensures Listed() && Released(old(free), free)
      ensures Held(pages, free, pageCount, meta, a + [Node(pl, gs)] + b, others, before, after)
      ensures Untouched(old(pages), pages, others, before + after)
    {
      hide Held, Untouched, Seps, RootPages, NonemptyLeaves, Rep, Sorted, EntriesAll, FreeList;
      HeldReps(pages, free, pageCount, meta, a + gs + b, others + multiset{pl} + multiset{pr}, before, after);
      assert forall i :: 0 <= i < |gs| ==> gs[i] == (a + gs + b)[|a| + i];
      JoinedHeld(pages, free, pageCount, meta, a, gs, b, pl, pr, others, before, after);
      var keys, bad := RebuildKeys(kids, gs);
      pages := pages[pl := InnerPage(keys, kids)];
      ghost var pages1, ts := pages, a + [Node(pl, gs)] + b;
      HeldRelease(pages, free, pageCount, meta, ts, pr, others, before, after);
      HeldFree(pages, free, pageCount, meta, ts, others + multiset{pr}, before, after);
      var ok := Release(pr, 0);
      UntouchedTrans(old(pages), pages1, pages, others, before + after);
    }

    /** Two neighbouring inner nodes divide their children anew. */
    method ShareInner(kids: seq<PageId>, k: nat, left: seq<PageId>, right: seq<PageId>, ghost cs: seq<Tree>,
                      ghost c: nat,
                      ghost gs: seq<Tree>, ghost h: nat, ghost all: seq<Tree>,
                      ghost others: multiset<PageId>, ghost before: seq<PageId>, ghost after: seq<PageId>)
      returns (ghost cs': seq<Tree>)
      requires Lacks(cfg, cs, c, gs, h) && PairOf(cs, k, c, gs, all) && kids == RootPages(cs)
      requires |left| + |right| == |all| && left == RootPages(all[..|left|]) && right == RootPages(all[|left|..])
      requires MinKids(cfg) <= |left| <= cfg.innerMax + 1 && MinKids(cfg) <= |right| <= cfg.innerMax + 1
      requires Held(pages, free, pageCount, meta, Replaced(cs, c, c + 1, gs), others + multiset{cs[c].page}, before,
                    after)
      requires forall q :: q in before || q in after ==> q in others
      modifies this`pages
      ensures Rebalanced(cfg, cs, c, Node(cs[c].page, gs), h, kids, false, cs')
      ensures Held(pages, free, pageCount, meta, cs', others, before, after)
      ensures Untouched(old(pages), pages, others, before + after)
    {
      hide Held, Untouched, Rebalanced, EntriesAll, Seps, Ok, RootPages, Sorted, NonemptyLeaves;
      ChildPages(cs, kids);
      Counts(cs, [], kids);
      ghost var n := |left|;
      OpenPair(cfg, pages, free, pageCount, meta, cs, k, c, gs, h, all, others, before, after);
      InnerPairRebalanced(cfg, cs, k, c, gs, h, all, n);
      WriteHalves(kids[k], kids[k + 1], left, right, cs[..k], all, cs[k + 2..], n, others, before, after);
      cs' := Replaced(cs, k, k + 2, [Node(cs[k].page, all[..n]), Node(cs[k + 1].page, all[n..])]);
    }

    /** The left one of two neighbouring inner nodes takes all their children. */
    method JoinInner(kids: seq<PageId>, k: nat, joined: seq<PageId>, ghost cs: seq<Tree>, ghost c: nat,
                     ghost gs: seq<Tree>, ghost h: nat, ghost all: seq<Tree>,
                     ghost others: multiset<PageId>, ghost before: seq<PageId>, ghost after: seq<PageId>)
      returns (kids': seq<PageId>, ghost cs': seq<Tree>)
      requires Lacks(cfg, cs, c, gs, h) && PairOf(cs, k, c, gs, all) && kids == RootPages(cs)
      requires joined == RootPages(all) && MinKids(cfg) <= |all| <= cfg.innerMax + 1
      requires Held(pages, free, pageCount, meta, Replaced(cs, c, c + 1, gs), others + multiset{cs[c].page}, before,
                    after) && Listed()
      requires forall q :: q in before || q in after ==> q in others
      modifies this`pages, this`free, this`freeRoot
      ensures Listed() && Released(old(free), free)
      ensures Rebalanced(cfg, cs, c, Node(cs[c].page, gs), h, kids', true, cs')
      ensures Held(pages, free, pageCount, meta, cs', others, before, after)
      ensures Untouched(old(pages), pages, others, before + after)
    {
      hide Held, Untouched, Rebalanced, EntriesAll, Seps, Ok, RootPages, Sorted, NonemptyLeaves, Released;
      ChildPages(cs, kids);
      Counts(cs, [], kids);
      OpenPair(cfg, pages, free, pageCount, meta, cs, k, c, gs, h, all, others, before, after);
      InnerOneRebalanced(cfg, cs, k, c, gs, h, all);
      WriteJoined(kids[k], kids[k + 1], joined, cs[..k], all, cs[k + 2..], others, before, after);
      cs' := Replaced(cs, k, k + 2, [Node(cs[k].page, all)]);
      kids' := kids[..k + 1] + kids[k + 2..];
    }

    /** The sibling part of repairInternalAfterChildRemoval: borrow a child from the left, from the
        right, merge into the left sibling, or take in the right one. */
    method RebalanceInner(kids: seq<PageId>, c: nat, pend: seq<PageId>, ghost cs: seq<Tree>, ghost gs: seq<Tree>,
                          ghost h: nat,
                          ghost others: multiset<PageId>, ghost before: seq<PageId>, ghost after: seq<PageId>)
      returns (kids': seq<PageId>, merged: bool, ghost cs': seq<Tree>)
      requires Lacks(cfg, cs, c, gs, h) && kids == RootPages(cs) && pend == RootPages(gs)
      requires Held(pages, free, pageCount, meta, Replaced(cs, c, c + 1, gs), others + multiset{cs[c].page}, before,
                    after) && Listed()
      requires forall q :: q in before || q in after ==> q in others
      modifies this`pages, this`free, this`freeRoot
      ensures Listed() && Released(old(free), free)
      ensures Rebalanced(cfg, cs, c, Node(cs[c].page, gs), h, kids', merged, cs')
      ensures Held(pages, free, pageCount, meta, cs', others, before, after)
      ensures Untouched(old(pages), pages, others, before + after)
    {
      hide Held, Untouched, Rebalanced, EntriesAll, Seps, Ok, RootPages, Sorted, Released, Replaced;
      Counts(cs, [], kids);
      Counts(gs, [], pend);
      KidsCount(cfg, cs, h);
      ChildPages(cs, kids);
      NoneReleased(free);
      ghost var busy := others + multiset{cs[c].page};
      var leftKids: seq<PageId>, rightKids: seq<PageId> := [], [];
      if c > 0 {
        SiblingPage(pages, free, pageCount, meta, cs, c, gs, c - 1, busy, before, after);
        leftKids := pages[kids[c - 1]].children;
        Counts(cs[c - 1].children, [], leftKids);
        PagesConcat(cs[c - 1].children, gs, |leftKids| - 1);
      }
      if c + 1 < |kids| {
        SiblingPage(pages, free, pageCount, meta, cs, c, gs, c + 1, busy, before, after);
        rightKids := pages[kids[c + 1]].children;
        Counts(cs[c + 1].children, [], rightKids);
        PagesConcat(gs, cs[c + 1].children, |pend| + 1);
      }
      kids', merged := kids, false;
      if c > 0 && |leftKids| > MinKids(cfg) {
        var n := |leftKids| - 1;
        cs' := ShareInner(kids, c - 1, leftKids[..n], [leftKids[n]] + pend, cs, c, gs, h, cs[c - 1].children + gs,
                          others, before, after);
      } else if c + 1 < |kids| && |rightKids| > MinKids(cfg) {
        cs' := ShareInner(kids, c, pend + [rightKids[0]], rightKids[1..], cs, c, gs, h, gs + cs[c + 1].children, others,
                          before, after);
      } else if c > 0 {
        kids', cs' := JoinInner(kids, c - 1, leftKids + pend, cs, c, gs, h, cs[c - 1].children + gs, others, before,
                                after);
        merged := true;
      } else {
        kids', cs' := JoinInner(kids, 0, pend + rightKids, cs, 0, gs, h, gs + cs[1].children, others, before, after);
        merged := true;
      }
    }

    /** Back in the parent: rebuild the separators, and write the node unless it lost a child too many. */
    method FinishInner(p: PageId, kids: seq<PageId>, merged: bool, key: Key,
                       ghost t: Tree, ghost h: nat, ghost top: bool, ghost cs: seq<Tree>,
                       ghost others: multiset<PageId>, ghost before: seq<PageId>, ghost after: seq<PageId>)
      returns (pending: Option<PageNode>, ghost t': Tree)
      requires ConfigOk(cfg) && t.Node? && t.page == p && 0 < h && Shaped(cfg, t, h, top) && kids == RootPages(cs)
      requires Removed(Entries(t), EntriesAll(cs), key) && (forall i :: 0 <= i < |cs| ==> Ok(cfg, cs[i], h - 1))
      requires |cs| == if merged then |t.children| - 1 else |t.children|
      requires Held(pages, free, pageCount, meta, cs, others + multiset{p}, before, after)
      requires forall q :: q in before || q in after ==> q in others
      modifies this`pages
      ensures Shrunk(cfg, t, h, top, key, t', pending.Some?) && Untouched(old(pages), pages, others, before + after)
      ensures pending == None ==> Held(pages, free, pageCount, meta, [t'], others, before, after)
      ensures pending.Some? ==> Unwritten(pages, free, pageCount, meta, t, t', pending.value, others, before, after)
    {
      hide Held, Untouched, Shrunk, Shaped, Ok, Seps, RootPages, Removed, EntriesAll, Rep, NonemptyLeaves, Sorted;
      NodeShrunk(cfg, t, h, top, key, cs, merged);
      AllOkNonempty(cfg, cs, h - 1);
      HeldReps(pages, free, pageCount, meta, cs, others + multiset{p}, before, after);
      Counts(cs, [], kids);
      RemovedSize(Entries(t), EntriesAll(cs), key);
      var keys, bad := RebuildKeys(kids, cs);
      t' := Node(p, cs);
      if !merged || |kids| >= MinKids(cfg) {
        WriteInner(pages, free, pageCount, meta, p, InnerPage(keys, kids), cs, others, before, after);
        pages := pages[p := InnerPage(keys, kids)];
        Over(pages, free, pageCount, meta, p, cs, others, before, after);
        pending := None;
      } else {
        UntouchedRefl(pages, others, before + after);
        pending := Some(InnerPage(keys, kids));
      }
    }

    /** The child c gave up an entry; put the parent in order. */
    method EraseParent(p: PageId, kids: seq<PageId>, c: nat, childPending: Option<PageNode>, ghost t: Tree,
                       ghost h: nat, ghost top: bool,
                       key: Key, ghost ct: Tree, ghost pages0: Pages,
                       ghost others: multiset<PageId>, ghost before: seq<PageId>, ghost after: seq<PageId>)
      returns (pending: Option<PageNode>, ghost t': Tree)
      requires ConfigOk(cfg) && t.Node? && t.page == p && 0 < h && Shaped(cfg, t, h, top) && Sorted(Entries(t))
      requires c < |t.children| && kids == RootPages(t.children)
      requires Shrunk(cfg, t.children[c], h - 1, false, key, ct, childPending.Some?)
      requires forall i :: 0 <= i < |t.children| ==> Rep(pages0, t.children[i])
      requires forall q :: q in before || q in after ==> q in others
      requires Untouched(pages0, pages, others + multiset{p} + Rest(t.children, c, c + 1),
                         (before + LeafPagesAll(t.children[..c])) + (LeafPagesAll(t.children[c + 1..]) + after))
      requires Listed()
      requires var l, r := before + LeafPagesAll(t.children[..c]), LeafPagesAll(t.children[c + 1..]) + after;
               var rest := others + multiset{p} + Rest(t.children, c, c + 1);
               if childPending.None? then Held(pages, free, pageCount, meta, [ct], rest, l, r)
               else Unwritten(pages, free, pageCount, meta, t.children[c], ct, childPending.value, rest, l, r)
      modifies this`pages, this`free, this`freeRoot
      ensures Listed() && Released(old(free), free)
      ensures Shrunk(cfg, t, h, top, key, t', pending.Some?) && Untouched(pages0, pages, others, before + after)
      ensures pending == None ==> Held(pages, free, pageCount, meta, [t'], others, before, after)
      ensures pending.Some? ==> Unwritten(pages, free, pageCount, meta, t, t', pending.value, others, before, after)
    {
      hide Held, Untouched, Shrunk, Shaped, Ok, RootPages, Removed, EntriesAll, Rep, Rest, LeafPagesAll, Rebalanced,
           Sorted, Seps, Balanced,
           SameNodes, Released, Unwritten;
      ghost var cs := t.children;
      var kids', merged := kids, false;
      ghost var cs' := Replaced(cs, c, c + 1, [ct]);
      ghost var pages1 := pages;
      ParentShrunk(cfg, t, h, top, key, c, ct, childPending.Some?);
      ChildPages(cs, kids);
      Counts(cs, [], kids);
      ghost var rest := others + multiset{p} + Rest(cs, c, c + 1);
      ghost var l, r := before + LeafPagesAll(cs[..c]), LeafPagesAll(cs[c + 1..]) + after;
      ghost var bag := ChildBalanced(pages, free, pageCount, meta, cs[c], ct, childPending, rest, l, r);
      UntouchedOut(pages0, pages, free, pageCount, meta, bag, cs, c, c + 1, others + multiset{p}, before, after);
      NoneReleased(free);
      if childPending.None? {
        Unzoom(pages0, pages, free, pageCount, meta, cs, c, c + 1, [ct], others + multiset{p}, before, after);
        UntouchedRefl(pages, others + multiset{p}, before + after);
      } else if childPending.value.LeafPage? {
        LeafUnwritten(pages0, pages, free, pageCount, meta, cs, c, ct, childPending.value, others + multiset{p}, before,
                      after);
        AllLeaves(cfg, cs, h - 1, c);
        assert ct == Leaf(kids[c], childPending.value.entries);
        kids', merged, cs' := RebalanceLeaf(kids, c, childPending.value.entries, cs, others + multiset{p}, before,
                                            after);
        RebalancedTells(cfg, cs, c, ct, h - 1, kids', merged, cs');
      } else {
        InnerUnwritten(pages0, pages, free, pageCount, meta, cs, c, ct, childPending.value, others + multiset{p},
                       before, after);
        AllInner(cfg, cs, h - 1, c, ct);
        assert ct == Node(kids[c], ct.children);
        RemovedSize(Entries(t), EntriesAll(Replaced(cs, c, c + 1, [ct])), key);
        kids', merged, cs' := RebalanceInner(kids, c, childPending.value.children, cs, ct.children, h - 1,
                                             others + multiset{p}, before, after);
        RebalancedTells(cfg, cs, c, ct, h - 1, kids', merged, cs');
      }
      ghost var pages2 := pages;
      pending, t' := FinishInner(p, kids', merged, key, t, h, top, cs', others, before, after);
      UntouchedChain(pages0, pages1, pages2, pages, others, p, before + after);
    }

    /** Remove a key below page p. A node left too small is handed back unwritten. */
    method EraseAt(p: PageId, key: Key, ghost t: Tree, ghost h: nat, ghost top: bool,
                   ghost others: multiset<PageId>, ghost before: seq<PageId>, ghost after: seq<PageId>)
      returns (found: bool, pending: Option<PageNode>, ghost t': Tree)
      requires ConfigOk(cfg) && t.page == p && Shaped(cfg, t, h, top) && Sorted(Entries(t))
      requires Held(pages, free, pageCount, meta, [t], others, before, after) && Listed()
      modifies this`pages, this`free, this`freeRoot
      ensures found == HasKey(Entries(t), key) && Listed() && Released(old(free), free)
      ensures !found ==> pending == None && pages == old(pages) && free == old(free)
      ensures found ==>
                Shrunk(cfg, t, h, top, key, t', pending.Some?) && Untouched(old(pages), pages, others, before + after)
      ensures found && pending == None ==> Held(pages, free, pageCount, meta, [t'], others, before, after)
      ensures found && pending.Some? ==>
                Unwritten(pages, free, pageCount, meta, t, t', pending.value, others, before, after)
      decreases h
    {
      hide Sorted, Held, Untouched, Shrunk, Ok, Seps, RootPages, EntriesAll, HasKey, Below, Above, LeafPagesAll, Rest,
           Rep, Released;
      pending, t' := None, t;
      NoneReleased(free);
      PageKind(pages, free, pageCount, meta, t, others, before, after);
      var node := pages[p];
      if node.LeafPage? {
        var position := LowerBound(node.entries, key);
        LeafHas(node.entries, key, position);
        found := position < |node.entries| && node.entries[position].key == key;
        if found {
          var entries := node.entries[..position] + node.entries[position + 1..];
          LeafShrunk(cfg, t, h, top, key, position, entries);
          t' := Leaf(p, entries);
          if |entries| >= MinLeaf(cfg) {
            LeafFits(pages, free, pageCount, meta, t, others, before, after, entries);
            pages := pages[p := node.(entries := entries)];
          } else {
            UntouchedRefl(pages, others, before + after);
            pending := Some(node.(entries := entries));
          }
        }
      } else {
        Under(pages, free, pageCount, meta, t, others, before, after);
        NodeParts(t);
        ShapedChildren(cfg, t, h, top);
        SepsSorted(t.children);
        Counts(t.children, node.keys, node.children);
        var c := UpperBound(node.keys, key);
        Route(t.children, c, key);
        Zoom(pages, free, pageCount, meta, t.children, c, c + 1, others + multiset{p}, before, after);
        ChildPage(t.children, c);
        assert t.children[c..c + 1] == [t.children[c]];
        HeldReps(pages, free, pageCount, meta, t.children, others + multiset{p}, before, after);
        var childPending: Option<PageNode>;
        ghost var ct;
        found, childPending, ct :=
          EraseAt(node.children[c], key, t.children[c], h - 1, false, others + multiset{p} + Rest(t.children, c, c + 1),
                  before + LeafPagesAll(t.children[..c]), LeafPagesAll(t.children[c + 1..]) + after);
        if found {
          ghost var free1 := free;
          pending, t' := EraseParent(p, node.children, c, childPending, t, h, top, key, ct, old(pages), others, before,
                                     after);
          ReleasedTwice(old(free), free1, free);
        }
      }
    }

    /** A root leaf may hold any number of entries; without any it is released. */
    method EraseRootLeaf(node: PageNode, ghost t: Tree, ghost t': Tree)
      requires ConfigOk(cfg) && root == Some(t.page) && t'.page == t.page && node.LeafPage? && (t'.Leaf? <==> t.Leaf?)
      requires Low(cfg, t', height) && Unwritten(pages, free, pageCount, meta, t, t', node, foreign, [], []) && Listed()
      modifies this`pages, this`free, this`freeRoot, this`root, this`tree
      ensures Listed() && Released(old(free), free)
      ensures Contents() == Entries(t') && Untouched(old(pages), pages, foreign, [])
      ensures root == (if tree.Some? then Some(tree.value.page) else None)
      ensures Kept(cfg, pages, free, pageCount, meta, foreign, tree, height)
    {
      hide Whole, Held, Chain, FreeList, Balanced, Untouched;
      NoneBeside();
      if node.entries == [] {
        HeldLeaf(pages, free, pageCount, meta, t, foreign, [], []);
        HeldFree(pages, free, pageCount, meta, [t], foreign, [], []);
        ReleaseLast(pages, free, pageCount, meta, t.page, foreign);
        var ok := Release(root.value, 0);
        root, tree := None, None;
      } else {
        LeafFits(pages, free, pageCount, meta, t, foreign, [], [], node.entries);
        pages := pages[root.value := pages[root.value].(entries := node.entries)];
        WholeHeld(cfg, pages, free, pageCount, meta, foreign, t', height);
        tree := Some(t');
      }
    }

    /** A root with a single child gives way to it. */
    method EraseRootInner(node: PageNode, ghost t: Tree, ghost t': Tree)
      requires ConfigOk(cfg) && root == Some(t.page) && t'.page == t.page && node.InnerPage? && (t'.Leaf? <==> t.Leaf?)
      requires Low(cfg, t', height) && Unwritten(pages, free, pageCount, meta, t, t', node, foreign, [], []) && Listed()
      modifies this`pages, this`free, this`freeRoot, this`root, this`tree, this`height
      ensures Listed() && Released(old(free), free)
      ensures Contents() == Entries(t') && Untouched(old(pages), pages, foreign, [])
      ensures root == (if tree.Some? then Some(tree.value.page) else None)
      ensures Kept(cfg, pages, free, pageCount, meta, foreign, tree, height)
    {
      hide Whole, Held, Seps, RootPages, Ok, EntriesAll, FreeList, Untouched;
      NoneBeside();
      ghost var cs := t'.children;
      Counts(cs, node.keys, node.children);
      ChildPages(cs, node.children);
      NodeParts(t');
      if |node.children| == 1 {
        assert cs == [cs[0]];
        OneEntry(cs[0]);
        HeldRelease(pages, free, pageCount, meta, cs, t.page, foreign, [], []);
        HeldFree(pages, free, pageCount, meta, cs, foreign + multiset{t.page}, [], []);
        OkIsRootOk(cfg, cs[0], height - 1);
        var ok := Release(root.value, 0);
        root := Some(node.children[0]);
        tree, height := Some(cs[0]), height - 1;
        WholeHeld(cfg, pages, free, pageCount, meta, foreign, cs[0], height);
      } else {
        WriteInner(pages, free, pageCount, meta, t.page, node, cs, foreign, [], []);
        pages := pages[root.value := node];
        Over(pages, free, pageCount, meta, t.page, cs, foreign, [], []);
        LowIsRootOk(cfg, t', height);
        WholeHeld(cfg, pages, free, pageCount, meta, foreign, t', height);
        tree := Some(t');
      }
    }

    /** Remove below the root; a root left too small is written, replaced by its only child, or released. */
    method EraseRoot(key: Key) returns (erased: bool)
      requires ConfigOk(cfg) && tree.Some? && root == Some(tree.value.page) && Sorted(Entries(tree.value)) && Listed()
      requires Kept(cfg, pages, free, pageCount, meta, foreign, tree, height)
      modifies this`pages, this`free, this`freeRoot, this`root, this`tree, this`height
      ensures erased == HasKey(Entries(old(tree).value), key)
      ensures root == (if tree.Some? then Some(tree.value.page) else None)
      ensures Listed() && Kept(cfg, pages, free, pageCount, meta, foreign, tree, height)
      ensures erased ==> Removed(Entries(old(tree).value), Contents(), key)
      ensures erased ==> Untouched(old(pages), pages, foreign, []) && Released(old(free), free)
      ensures !erased ==>
                && pages == old(pages) && free == old(free) && root == old(root) && tree == old(tree)
                && height == old(height)
    {
      hide Sorted, Whole, HasKey, Held, Shrunk, Untouched, Entries, Removed, Released, RootOk, Unwritten, Low;
      ghost var t := tree.value;
      WholeHeld(cfg, pages, free, pageCount, meta, foreign, t, height);
      NoneBeside();
      var pending;
      ghost var t';
      erased, pending, t' := EraseAt(root.value, key, t, height, true, foreign, [], []);
      if erased {
        ShrunkTells(cfg, t, height, key, t', pending.Some?);
        ghost var pages1, free1 := pages, free;
        if pending.None? {
          WholeHeld(cfg, pages, free, pageCount, meta, foreign, t', height);
          tree := Some(t');
        } else {
          UnwrittenKind(pages, free, pageCount, meta, t, t', pending.value, foreign, [], []);
          if pending.value.LeafPage? {
            EraseRootLeaf(pending.value, t, t');
          } else {
            EraseRootInner(pending.value, t, t');
          }
          UntouchedTrans(old(pages), pages1, pages, foreign, []);
          ReleasedTwice(old(free), free1, free);
        }
      }
    }

    /** Remove a key with its record. The pages that leave the tree are exactly those put in front of the
        free list, each once. */
    method Erase(key: Key) returns (erased: bool)
      requires Valid()
      modifies this
      ensures Valid() && erased == (key in ToMap(old(Contents())))
      ensures ToMap(Contents()) == ToMap(old(Contents())) - {key}
      ensures !erased ==>
                && pages == old(pages) && free == old(free) && root == old(root) && count == old(count)
                && tree == old(tree)
      ensures pageCount == old(pageCount)
      ensures foreign == old(foreign) && forall q :: q in foreign ==> SamePage(old(pages), pages, q)
      ensures Released(old(free), free) && old(TreePages()) == TreePages() + multiset(free[..|free| - |old(free)|])
    {
      hide Sorted, Kept, ToMap, HasKey, Untouched, Balanced, Entries, Removed, FreeList, Released, Bag;
      ghost var es, used, pages0, free0 := Contents(), TreePages(), pages, free;
      ToMapIs(es, key);
      NoKeys(key);
      Accounted();
      erased := false;
      if root.Some? {
        erased := EraseRoot(key);
      }
      if erased {
        RemovedSize(es, Contents(), key);
        RemoveIsUpdate(es, Contents(), key);
        count := count - 1;
        ExactlyKept(pages0, pages, foreign);
      } else {
        NoKey(es, key);
        NoneReleased(free);
      }
      Accounted();
      ReleasedPages(free0, used, free, TreePages(), foreign, pageCount, meta);
    }

    // ---- Lookup and scans ----

    /** The leaf where the key is or would be, and where it stands in the leaf chain. */
    method FindLeaf(key: Key) returns (p: PageId, ghost before: seq<PageId>, ghost after: seq<PageId>)
      requires Valid() && tree.Some?
      ensures LeafPages(tree.value) == before + [p] + after && IsLeaf(pages, p)
      ensures Below(Flat(pages, before), key) && Above(Flat(pages, after), key) && Sorted(pages[p].entries)
      ensures HasKey(Contents(), key) <==> HasKey(pages[p].entries, key)
    {
      hide Sorted, Below, Above, HasKey, Flat, Rep, Ok, Chain, Balanced, Seps, RootPages, LeafPages, LeafPagesAll,
           Entries, EntriesAll, RootOk;
      p := root.value;
      ghost var s, h, top := tree.value, height, true;
      before, after := [], [];
      FlatNothing(pages, key);
      RepKind(pages, s);
      assert [] + LeafPages(s) + [] == LeafPages(s);
      while pages[p].InnerPage?
        invariant s.page == p && Rep(pages, s) && Shaped(cfg, s, h, top) && Sorted(Entries(s))
        invariant p in pages && (if s.Leaf? then pages[p].LeafPage? else pages[p].InnerPage?)
        invariant (s.Leaf? ==> pages[p].entries == s.entries)
        invariant LeafPages(tree.value) == before + LeafPages(s) + after
        invariant Below(Flat(pages, before), key) && Above(Flat(pages, after), key)
        invariant HasKey(Contents(), key) <==> HasKey(Entries(s), key)
        decreases h
      {
        var node := pages[p];
        ghost var cs := s.children;
        NodeParts(s);
        RepInner(pages, s);
        ShapedChildren(cfg, s, h, top);
        SepsSorted(cs);
        Counts(cs, node.keys, node.children);
        var c := UpperBound(node.keys, key);
        Route(cs, c, key);
        ChildPage(cs, c);
        LeavesAround(pages, cs, c, before, after, key);
        before, after := before + LeafPagesAll(cs[..c]), LeafPagesAll(cs[c + 1..]) + after;
        p := node.children[c];
        s, h, top := cs[c], h - 1, false;
        RepKind(pages, s);
      }
      LeafOnly(s);
    }

    method Find(key: Key) returns (result: Option<RecordId>)
      requires Valid()
      ensures result == if key in ToMap(Contents()) then Some(ToMap(Contents())[key]) else None
    {
      hide Sorted, Whole, HasKey, ToMap, Below, Above, Flat;
      ghost var es := Contents();
      ToMapIs(es, key);
      if root == None {
        NoKeys(key);
        return None;
      }
      var p, before, after := FindLeaf(key);
      var leaf := pages[p];
      var position := LowerBound(leaf.entries, key);
      LeafHas(leaf.entries, key, position);
      if position < |leaf.entries| && leaf.entries[position].key == key {
        LeafEntryIn(cfg, pages, free, pageCount, meta, foreign, tree.value, height, before, p, after, position);
        return Some(leaf.entries[position].rid);
      }
      return None;
    }

    /** The entries of one leaf up to the end of the interval. */
    method Take(es: seq<Entry>, start: nat, lo: Key, hi: Key) returns (taken: seq<Entry>, done: bool, ghost j: nat)
      requires start <= |es| && (forall k :: 0 <= k < start ==> es[k].key < lo)
      requires (forall k :: start <= k < |es| ==> lo <= es[k].key)
      ensures j <= |es| && taken == Between(es[..j], lo, hi)
      ensures if done then j < |es| && hi < es[j].key else j == |es|
    {
      taken, done, j := [], false, start;
      BetweenNone(es[..start], lo, hi);
      var i := start;
      while i < |es|
        invariant start <= i <= |es| && j == i && taken == Between(es[..i], lo, hi)
      {
        if es[i].key > hi {
          done := true;
          return;
        }
        assert es[..i + 1] == es[..i] + [es[i]];
        BetweenConcat(es[..i], [es[i]], lo, hi);
        BetweenOne(es[i], lo, hi);
        taken := taken + [es[i]];
        i, j := i + 1, j + 1;
      }
      assert es[..|es|] == es;
    }

    /** The entries with a key in the interval, by a walk along the leaf chain. The check of the back
        links and the cycle check never fire. */
    method RangeScan(lo: Key, hi: Key) returns (found: seq<Entry>, corrupt: bool)
      requires Valid()
      ensures !corrupt && found == Between(Contents(), lo, hi)
    {
      hide Sorted, Whole, HasKey, Below, Above, Flat, Between;
      found, corrupt := [], false;
      if root == None || lo > hi {
        EmptyInterval(Contents(), lo, hi);
        return;
      }
      var p, before, after := FindLeaf(lo);
      ghost var ls := LeafPages(tree.value);
      ghost var i := |before|;
      WalkStart(cfg, pages, free, pageCount, meta, foreign, tree.value, height, before, p, after, lo, hi);
      var current, expectedPrevious, firstLeaf := Some(p), None, true;
      var visited: set<PageId> := {};
      while current.Some?
        invariant |before| <= i <= |ls| && current == At(ls, i) && Collected(pages, ls, i, lo, hi, found)
        invariant firstLeaf <==> i == |before|
        invariant !firstLeaf ==> expectedPrevious == At(ls, i - 1)
        invariant forall q :: q in visited ==> exists k :: |before| <= k < i && ls[k] == q
        decreases |ls| - i
      {
        var q := current.value;
        WalkStep(cfg, pages, free, pageCount, meta, foreign, tree.value, height, before, p, after, i, lo);
        if q in visited {
          return [], true;
        }
        visited := visited + {q};
        var leaf := pages[q];
        if !firstLeaf && leaf.prev != expectedPrevious {
          return [], true;
        }
        var start := 0;
        if firstLeaf {
          start := LowerBound(leaf.entries, lo);
        }
        var taken, done, j := Take(leaf.entries, start, lo, hi);
        if done {
          WalkDone(cfg, pages, free, pageCount, meta, foreign, tree.value, height, ls, i, j, lo, hi, found, taken);
          return found + taken, false;
        }
        CollectLeaf(pages, ls, i, lo, hi, found);
        assert leaf.entries[..j] == leaf.entries;
        found := found + taken;
        firstLeaf := false;
        expectedPrevious := current;
        current := leaf.next;
        i := i + 1;
      }
      WalkEnd(cfg, pages, free, pageCount, meta, foreign, tree.value, height, ls);
      assert ls[..i] == ls;
    }

    /** All entries, leaf after leaf from the leftmost, with the entry count checked at the end. */
    method ScanAll() returns (found: seq<Entry>, corrupt: bool)
      requires Valid()
      ensures !corrupt && found == Contents()
    {
      hide Sorted, Whole, HasKey, Below, Above, Flat;
      found, corrupt := [], false;
      if root == None {
        return;
      }
      var p, before, after := FindLeaf(0);
      ghost var ls := LeafPages(tree.value);
      LeftmostLeaf(cfg, pages, free, pageCount, meta, foreign, tree.value, height, before, p, after);
      ghost var i: nat := 0;
      NoLeaves(pages, ls);
      var current, expectedPrevious := Some(p), None;
      var visited: set<PageId> := {};
      while current.Some?
        invariant i <= |ls| && current == At(ls, i) && expectedPrevious == At(ls, i - 1)
        invariant found == Flat(pages, ls[..i])
        invariant forall q :: q in visited ==> exists k :: 0 <= k < i && ls[k] == q
        decreases |ls| - i
      {
        var q := current.value;
        LeafAt(cfg, pages, free, pageCount, meta, foreign, tree.value, height, ls, i);
        if q in visited {
          return [], true;
        }
        visited := visited + {q};
        var leaf := pages[q];
        if leaf.prev != expectedPrevious {
          return [], true;
        }
        FlatNext(pages, ls, i);
        found := found + leaf.entries;
        expectedPrevious := current;
        current := leaf.next;
        i := i + 1;
      }
      WalkEnd(cfg, pages, free, pageCount, meta, foreign, tree.value, height, ls);
      assert ls[..i] == ls;
      if |found| != count {
        return [], true;
      }
    }
  }
}
