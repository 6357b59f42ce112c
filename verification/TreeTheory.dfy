/** The shape of the paged B+ tree: trees over pages, what a page map must hold to represent one,
    the leaf chain, and the page conservation law. */
module TreeTheory {
  import opened Options

  type PageId = nat
  type Key = nat

  datatype RecordId = RecordId(page: nat, slot: nat)

  const INVALID_PAGE_ID: nat := 4294967295
  const INVALID_SLOT_ID: nat := 65535
  const MAX_ENTRIES: nat := 18446744073709551615

  predicate RecordIdOk(rid: RecordId) {
    rid.page != INVALID_PAGE_ID && rid.page != 0 && rid.slot != INVALID_SLOT_ID
  }

  datatype Entry = Entry(key: Key, rid: RecordId)

  /** The logical capacities stored in the index metadata. */
  datatype Config = Config(leafMax: nat, innerMax: nat)

  predicate ConfigOk(cfg: Config) {
    3 <= cfg.leafMax && 3 <= cfg.innerMax
  }

  function MinLeaf(cfg: Config): (r: nat) { (cfg.leafMax + 1) / 2 }

  function MinKids(cfg: Config): (r: nat) { (cfg.innerMax + 2) / 2 }

  /** What a page stores: a node, a link of the free list, or zeros. */
  datatype PageNode =
    | LeafPage(entries: seq<Entry>, next: Option<PageId>, prev: Option<PageId>)
    | InnerPage(keys: seq<Key>, children: seq<PageId>)
    | FreePage(nextFree: Option<PageId>)
    | BlankPage

  type Pages = map<PageId, PageNode>

  /** The tree the pages stand for. Separators are not part of it: each is the least key to its right. */
  datatype Tree = Leaf(page: PageId, entries: seq<Entry>) | Node(page: PageId, children: seq<Tree>)

  // ---- What a tree holds ----

  function Entries(t: Tree): (r: seq<Entry>) {
    match t
    case Leaf(_, entries) => entries
    case Node(_, children) => EntriesAll(children)
  }

  function EntriesAll(ts: seq<Tree>): (r: seq<Entry>) {
    if ts == [] then [] else Entries(ts[0]) + EntriesAll(ts[1..])
  }

  /** Every page of the tree, counted as often as it occurs. */
  function Bag(t: Tree): (r: multiset<PageId>) {
    match t
    case Leaf(page, _) => multiset{page}
    case Node(page, children) => multiset{page} + BagAll(children)
  }

  function BagAll(ts: seq<Tree>): (r: multiset<PageId>) {
    if ts == [] then multiset{} else Bag(ts[0]) + BagAll(ts[1..])
  }

  function LeafPages(t: Tree): (r: seq<PageId>) {
    match t
    case Leaf(page, _) => [page]
    case Node(_, children) => LeafPagesAll(children)
  }

  function LeafPagesAll(ts: seq<Tree>): (r: seq<PageId>) {
    if ts == [] then [] else LeafPages(ts[0]) + LeafPagesAll(ts[1..])
  }

  function RootPages(ts: seq<Tree>): (r: seq<PageId>) {
    seq(|ts|, i requires 0 <= i < |ts| => ts[i].page)
  }

  /** The least key of a tree. */
  function Min(t: Tree): (r: Key) {
    if Entries(t) == [] then 0 else Entries(t)[0].key
  }

  /** The separators between children: the least key of every child but the first. */
  function Seps(ts: seq<Tree>): (r: seq<Key>)
    requires ts != []
  {
    seq(|ts| - 1, i requires 0 <= i < |ts| - 1 => Min(ts[i + 1]))
  }

  predicate Sorted(es: seq<Entry>) {
    forall i, j :: 0 <= i < j < |es| ==> es[i].key < es[j].key
  }

  // ---- Shape ----

  /** All leaves at the same depth, every node within its occupancy bounds. */
  predicate Ok(cfg: Config, t: Tree, h: nat)
    decreases t
  {
    match t
    case Leaf(_, entries) => h == 0 && MinLeaf(cfg) <= |entries| <= cfg.leafMax
    case Node(_, children) =>
      && 0 < h && MinKids(cfg) <= |children| <= cfg.innerMax + 1
      && forall i :: 0 <= i < |children| ==> Ok(cfg, children[i], h - 1)
  }

  /** The same for a root, which may be emptier. */
  predicate RootOk(cfg: Config, t: Tree, h: nat) {
    match t
    case Leaf(_, entries) => h == 0 && 1 <= |entries| <= cfg.leafMax
    case Node(_, children) =>
      && 0 < h && 2 <= |children| <= cfg.innerMax + 1
      && forall i :: 0 <= i < |children| ==> Ok(cfg, children[i], h - 1)
  }

  predicate Shaped(cfg: Config, t: Tree, h: nat, root: bool) {
    if root then RootOk(cfg, t, h) else Ok(cfg, t, h)
  }

  // ---- Representation ----

  /** The pages hold the tree, leaf links aside. */
  predicate Rep(pages: Pages, t: Tree)
    decreases t
  {
    t.page in pages
    && match t
       case Leaf(page, entries) => pages[page].LeafPage? && pages[page].entries == entries
       case Node(page, children) =>
         && children != []
         && pages[page] == InnerPage(Seps(children), RootPages(children))
         && forall i :: 0 <= i < |children| ==> Rep(pages, children[i])
  }

  function Core(n: PageNode): (r: PageNode) {
    if n.LeafPage? then LeafPage(n.entries, None, None) else n
  }

  /** The page still holds the same node, its sibling links aside. */
  predicate SameNode(pages: Pages, pages': Pages, p: PageId) {
    p in pages ==> p in pages' && Core(pages'[p]) == Core(pages[p])
  }

  /** The page is byte for byte as it was. */
  predicate SamePage(pages: Pages, pages': Pages, p: PageId) {
    p in pages ==> p in pages' && pages'[p] == pages[p]
  }

  // ---- The leaf chain ----

  function At(ls: seq<PageId>, i: int): (r: Option<PageId>) {
    if 0 <= i < |ls| then Some(ls[i]) else None
  }

  predicate IsLeaf(pages: Pages, p: PageId) {
    p in pages && pages[p].LeafPage?
  }

  function Next(pages: Pages, p: PageId): (r: Option<PageId>) {
    if IsLeaf(pages, p) then pages[p].next else None
  }

  function Prev(pages: Pages, p: PageId): (r: Option<PageId>) {
    if IsLeaf(pages, p) then pages[p].prev else None
  }

  /** Each leaf links to its neighbours in order. */
  predicate Linked(pages: Pages, ls: seq<PageId>, i: nat)
    requires i < |ls|
  {
    IsLeaf(pages, ls[i]) && Next(pages, ls[i]) == At(ls, i + 1) && Prev(pages, ls[i]) == At(ls, i - 1)
  }

  /** The page is a leaf with the same neighbours as before. */
  predicate SameLinks(pages: Pages, pages': Pages, p: PageId) {
    IsLeaf(pages', p) && Next(pages', p) == Next(pages, p) && Prev(pages', p) == Prev(pages, p)
  }

  predicate Chain(pages: Pages, ls: seq<PageId>) {
    forall i: nat :: i < |ls| ==> Linked(pages, ls, i)
  }

  // ---- Splitting sequences of trees ----

  lemma {:induction false} EntriesConcat(a: seq<Tree>, b: seq<Tree>)
    ensures EntriesAll(a + b) == EntriesAll(a) + EntriesAll(b)
  {
    hide Entries;
    if a == [] {
      assert a + b == b;
    } else {
      EntriesConcat(a[1..], b);
      assert (a + b)[1..] == a[1..] + b && (a + b)[0] == a[0];
      SeqAssoc(Entries(a[0]), EntriesAll(a[1..]), EntriesAll(b));
    }
  }

  lemma SeqAssoc<T>(x: seq<T>, y: seq<T>, z: seq<T>)
    ensures x + (y + z) == (x + y) + z
  {
  }

  lemma {:induction false} BagConcat(a: seq<Tree>, b: seq<Tree>)
    ensures BagAll(a + b) == BagAll(a) + BagAll(b)
  {
    hide Bag;
    if a == [] {
      assert a + b == b;
    } else {
      BagConcat(a[1..], b);
      assert (a + b)[1..] == a[1..] + b && (a + b)[0] == a[0];
      BagAssoc(Bag(a[0]), BagAll(a[1..]), BagAll(b));
    }
  }

  lemma BagAssoc(x: multiset<PageId>, y: multiset<PageId>, z: multiset<PageId>)
    ensures x + (y + z) == (x + y) + z
  {
  }

  lemma {:induction false} LeafPagesConcat(a: seq<Tree>, b: seq<Tree>)
    ensures LeafPagesAll(a + b) == LeafPagesAll(a) + LeafPagesAll(b)
  {
    hide LeafPages;
    if a == [] {
      assert a + b == b;
    } else {
      LeafPagesConcat(a[1..], b);
      assert (a + b)[1..] == a[1..] + b && (a + b)[0] == a[0];
      SeqAssoc(LeafPages(a[0]), LeafPagesAll(a[1..]), LeafPagesAll(b));
    }
  }

  lemma OneEntry(t: Tree)
    ensures EntriesAll([t]) == Entries(t) && BagAll([t]) == Bag(t) && LeafPagesAll([t]) == LeafPages(t)
  {
    assert [t][1..] == [];
  }

  /** A list of children with the middle ones replaced. */
  lemma Around(a: seq<Tree>, mid: seq<Tree>, b: seq<Tree>)
    ensures EntriesAll(a + mid + b) == EntriesAll(a) + EntriesAll(mid) + EntriesAll(b)
    ensures BagAll(a + mid + b) == BagAll(a) + BagAll(mid) + BagAll(b)
    ensures LeafPagesAll(a + mid + b) == LeafPagesAll(a) + LeafPagesAll(mid) + LeafPagesAll(b)
  {
    hide EntriesAll, BagAll, LeafPagesAll;
    EntriesConcat(a + mid, b);
    EntriesConcat(a, mid);
    BagConcat(a + mid, b);
    BagConcat(a, mid);
    LeafPagesConcat(a + mid, b);
    LeafPagesConcat(a, mid);
  }

  lemma Pair(s: Tree, t: Tree)
    ensures EntriesAll([s, t]) == Entries(s) + Entries(t)
    ensures BagAll([s, t]) == Bag(s) + Bag(t)
    ensures LeafPagesAll([s, t]) == LeafPages(s) + LeafPages(t)
  {
    assert [s, t] == [s] + [t];
    EntriesConcat([s], [t]);
    BagConcat([s], [t]);
    LeafPagesConcat([s], [t]);
    OneEntry(s);
    OneEntry(t);
  }

  lemma Focus(ts: seq<Tree>, c: nat)
    requires c < |ts|
    ensures ts == ts[..c] + [ts[c]] + ts[c + 1..]
    ensures EntriesAll(ts) == EntriesAll(ts[..c]) + Entries(ts[c]) + EntriesAll(ts[c + 1..])
    ensures BagAll(ts) == BagAll(ts[..c]) + Bag(ts[c]) + BagAll(ts[c + 1..])
    ensures LeafPagesAll(ts) == LeafPagesAll(ts[..c]) + LeafPages(ts[c]) + LeafPagesAll(ts[c + 1..])
  {
    hide Entries, EntriesAll, Bag, BagAll, LeafPages, LeafPagesAll;
    SliceAt(ts, c);
    FocusOn(ts[..c], ts[c], ts[c + 1..]);
  }

  lemma SliceAt<T>(ts: seq<T>, c: nat)
    requires c < |ts|
    ensures ts == ts[..c] + [ts[c]] + ts[c + 1..]
  {
  }

  lemma FocusOn(a: seq<Tree>, t: Tree, b: seq<Tree>)
    ensures EntriesAll(a + [t] + b) == EntriesAll(a) + Entries(t) + EntriesAll(b)
    ensures BagAll(a + [t] + b) == BagAll(a) + Bag(t) + BagAll(b)
    ensures LeafPagesAll(a + [t] + b) == LeafPagesAll(a) + LeafPages(t) + LeafPagesAll(b)
  {
    hide Entries, EntriesAll, Bag, BagAll, LeafPages, LeafPagesAll;
    Around(a, [t], b);
    OneEntry(t);
  }

  // ---- Nonempty subtrees ----

  lemma {:induction false} HasEntries(cfg: Config, t: Tree, h: nat)
    requires ConfigOk(cfg) && Ok(cfg, t, h)
    ensures Entries(t) != []
    decreases t
  {
    if t.Node? {
      HasEntries(cfg, t.children[0], h - 1);
    }
  }

  lemma {:induction false} MemberBag(ts: seq<Tree>, i: nat, p: PageId)
    requires i < |ts| && p in Bag(ts[i])
    ensures p in BagAll(ts)
  {
    Focus(ts, i);
  }

  /** The pages of a represented tree are all in the page map. */
  lemma {:induction false} RepPages(pages: Pages, t: Tree, p: PageId)
    requires Rep(pages, t) && p in Bag(t)
    ensures p in pages
    decreases t
  {
    if t.Node? && p != t.page {
      RepPagesAll(pages, t.children, p);
    }
  }

  lemma {:induction false} RepPagesAll(pages: Pages, ts: seq<Tree>, p: PageId)
    requires (forall i :: 0 <= i < |ts| ==> Rep(pages, ts[i])) && p in BagAll(ts)
    ensures p in pages
    decreases ts
  {
    if p in Bag(ts[0]) {
      RepPages(pages, ts[0], p);
    } else {
      RepPagesAll(pages, ts[1..], p);
    }
  }

  /** A tree stays represented as long as none of its own pages changes. */
  lemma {:induction false} RepFrame(pages: Pages, pages': Pages, t: Tree)
    requires Rep(pages, t) && forall p :: p in Bag(t) ==> SameNode(pages, pages', p)
    ensures Rep(pages', t)
    decreases t
  {
    assert t.page in Bag(t);
    if t.Node? {
      forall i | 0 <= i < |t.children| ensures Rep(pages', t.children[i]) {
        forall p | p in Bag(t.children[i]) ensures SameNode(pages, pages', p) {
          MemberBag(t.children, i, p);
        }
        RepFrame(pages, pages', t.children[i]);
      }
    }
  }

  lemma LeafPagesInBag(t: Tree, p: PageId)
    requires p in LeafPages(t)
    ensures p in Bag(t)
    decreases t
  {
    if t.Node? {
      LeafPagesInBagAll(t.children, p);
    }
  }

  lemma LeafPagesInBagAll(ts: seq<Tree>, p: PageId)
    requires p in LeafPagesAll(ts)
    ensures p in BagAll(ts)
    decreases ts
  {
    if p in LeafPages(ts[0]) {
      LeafPagesInBag(ts[0], p);
    } else {
      LeafPagesInBagAll(ts[1..], p);
    }
  }

  // ---- Chains ----

  /** A chain visits no leaf twice. */
  lemma {:induction false} ChainDistinct(pages: Pages, ls: seq<PageId>, i: nat, j: nat)
    requires Chain(pages, ls) && i < j < |ls|
    ensures ls[i] != ls[j]
    decreases |ls| - j
  {
    assert Linked(pages, ls, i) && Linked(pages, ls, j);
    if ls[i] == ls[j] {
      if j + 1 < |ls| {
        ChainDistinct(pages, ls, i + 1, j + 1);
      }
      assert false;
    }
  }

  /** Link a new leaf in behind position k. */
  lemma ChainInsert(pages: Pages, pages': Pages, ls: seq<PageId>, k: nat, q: PageId)
    requires Chain(pages, ls) && k < |ls|
    requires IsLeaf(pages', ls[k]) && Next(pages', ls[k]) == Some(q) && Prev(pages', ls[k]) == Prev(pages, ls[k])
    requires IsLeaf(pages', q) && Prev(pages', q) == Some(ls[k]) && Next(pages', q) == Next(pages, ls[k])
    requires k + 1 < |ls| ==>
               && IsLeaf(pages', ls[k + 1]) && Prev(pages', ls[k + 1]) == Some(q)
               && Next(pages', ls[k + 1]) == Next(pages, ls[k + 1])
    requires forall i: nat :: i < |ls| && i != k && i != k + 1 ==> SameLinks(pages, pages', ls[i])
    ensures Chain(pages', ls[..k + 1] + [q] + ls[k + 1..])
  {
    var ls' := ls[..k + 1] + [q] + ls[k + 1..];
    forall i: nat | i < |ls'| ensures Linked(pages', ls', i) {
      assert Linked(pages, ls, k);
      if i <= k {
        assert Linked(pages, ls, i);
      } else if i > k + 1 {
        assert ls'[i] == ls[i - 1] && Linked(pages, ls, i - 1);
      }
    }
  }

  /** Take the leaf behind position k out of the chain. */
  lemma ChainRemove(pages: Pages, pages': Pages, ls: seq<PageId>, k: nat)
    requires Chain(pages, ls) && k + 1 < |ls|
    requires IsLeaf(pages', ls[k]) && Next(pages', ls[k]) == Next(pages, ls[k + 1])
    requires Prev(pages', ls[k]) == Prev(pages, ls[k])
    requires k + 2 < |ls| ==>
               && IsLeaf(pages', ls[k + 2]) && Prev(pages', ls[k + 2]) == Some(ls[k])
               && Next(pages', ls[k + 2]) == Next(pages, ls[k + 2])
    requires forall i: nat :: i < |ls| && i != k && i != k + 1 && i != k + 2 ==> SameLinks(pages, pages', ls[i])
    ensures Chain(pages', ls[..k + 1] + ls[k + 2..])
  {
    var ls' := ls[..k + 1] + ls[k + 2..];
    forall i: nat | i < |ls'| ensures Linked(pages', ls', i) {
      assert Linked(pages, ls, k + 1);
      if i <= k {
        assert Linked(pages, ls, i);
      } else {
        assert ls'[i] == ls[i + 1] && Linked(pages, ls, i + 1);
      }
    }
  }

  /** Rewriting entries leaves the chain alone. */
  lemma ChainSame(pages: Pages, pages': Pages, ls: seq<PageId>)
    requires Chain(pages, ls) && forall i: nat :: i < |ls| ==> SameLinks(pages, pages', ls[i])
    ensures Chain(pages', ls)
  {
    forall i: nat | i < |ls| ensures Linked(pages', ls, i) {
      assert Linked(pages, ls, i);
    }
  }

  lemma ChainAllDistinct(pages: Pages, ls: seq<PageId>)
    requires Chain(pages, ls)
    ensures forall i, j :: 0 <= i < j < |ls| ==> ls[i] != ls[j]
  {
    forall i, j | 0 <= i < j < |ls| ensures ls[i] != ls[j] {
      ChainDistinct(pages, ls, i, j);
    }
  }

  /** The writes of a leaf split: new right leaf, shortened left leaf, back link of the old successor. */
  function LinkAfter(pages: Pages, p: PageId, q: PageId, left: seq<Entry>, right: seq<Entry>): (r: Pages)
    requires IsLeaf(pages, p)
  {
    var leaf := pages[p];
    var written := pages[q := LeafPage(right, leaf.next, Some(p))][p := LeafPage(left, Some(q), leaf.prev)];
    if leaf.next.Some? && IsLeaf(written, leaf.next.value)
    then written[leaf.next.value := written[leaf.next.value].(prev := Some(q))]
    else written
  }

  lemma LinkAfterOk(pages: Pages, before: seq<PageId>, p: PageId, after: seq<PageId>, q: PageId,
                    left: seq<Entry>, right: seq<Entry>)
    requires Chain(pages, before + [p] + after) && q !in before + [p] + after
    ensures IsLeaf(pages, p)
    ensures var pages' := LinkAfter(pages, p, q, left, right);
            && Chain(pages', before + [p] + [q] + after)
            && IsLeaf(pages', p) && pages'[p].entries == left && IsLeaf(pages', q) && pages'[q].entries == right
            && (forall x :: x != p && x != q ==> SameNode(pages, pages', x))
            && (forall x :: x != p && x != q && x !in after ==> SamePage(pages, pages', x))
  {
    var ls, k := before + [p] + after, |before|;
    assert ls[k] == p && Linked(pages, ls, k);
    ChainAllDistinct(pages, ls);
    if k + 1 < |ls| {
      assert Linked(pages, ls, k + 1);
    }
    var pages' := LinkAfter(pages, p, q, left, right);
    forall i: nat | i < |ls| && i != k && i != k + 1 ensures SameLinks(pages, pages', ls[i]) {
      assert Linked(pages, ls, i);
    }
    ChainInsert(pages, pages', ls, k, q);
    assert ls[..k + 1] + [q] + ls[k + 1..] == before + [p] + [q] + after;
  }

  /** The writes of a leaf merge: the left leaf takes the right one's entries and successor. */
  function UnlinkNext(pages: Pages, p: PageId, r: PageId, entries: seq<Entry>): (res: Pages)
    requires IsLeaf(pages, p) && IsLeaf(pages, r)
  {
    var next := pages[r].next;
    var relinked := if next.Some? && IsLeaf(pages, next.value)
                    then pages[next.value := pages[next.value].(prev := Some(p))] else pages;
    relinked[p := LeafPage(entries, next, pages[p].prev)]
  }

  lemma UnlinkNextOk(pages: Pages, before: seq<PageId>, p: PageId, r: PageId, after: seq<PageId>, entries: seq<Entry>)
    requires Chain(pages, before + [p] + [r] + after)
    ensures IsLeaf(pages, p) && IsLeaf(pages, r) && p != r
    ensures var pages' := UnlinkNext(pages, p, r, entries);
            && Chain(pages', before + [p] + after)
            && IsLeaf(pages', p) && pages'[p].entries == entries
            && (forall x :: x != p ==> SameNode(pages, pages', x))
            && (forall x :: x != p && x !in after ==> SamePage(pages, pages', x))
  {
    var ls, k := before + [p] + [r] + after, |before|;
    assert ls[k] == p && ls[k + 1] == r && Linked(pages, ls, k) && Linked(pages, ls, k + 1);
    ChainAllDistinct(pages, ls);
    if k + 2 < |ls| {
      assert Linked(pages, ls, k + 2);
    }
    var pages' := UnlinkNext(pages, p, r, entries);
    forall i: nat | i < |ls| && i != k && i != k + 1 && i != k + 2 ensures SameLinks(pages, pages', ls[i]) {
      assert Linked(pages, ls, i);
    }
    ChainRemove(pages, pages', ls, k);
    assert ls[..k + 1] + ls[k + 2..] == before + [p] + after;
  }

  /** Rewriting the entries of one leaf. */
  lemma RewriteLeaf(pages: Pages, ls: seq<PageId>, p: PageId, entries: seq<Entry>)
    requires Chain(pages, ls) && IsLeaf(pages, p)
    ensures var pages' := pages[p := pages[p].(entries := entries)];
            Chain(pages', ls) && forall x :: x != p ==> SameNode(pages, pages', x)
  {
    var pages' := pages[p := pages[p].(entries := entries)];
    forall i: nat | i < |ls| ensures SameLinks(pages, pages', ls[i]) {
      assert Linked(pages, ls, i);
    }
    ChainSame(pages, pages', ls);
  }
}
