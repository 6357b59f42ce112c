/** Sorted entries, separators, and what inserting or removing one entry does to a node. */
module TreeOrder {
  import opened TreeTheory

  // ---- One entry more, one entry less ----

  predicate InsertedAt(es: seq<Entry>, es': seq<Entry>, e: Entry, i: nat) {
    i <= |es| && es' == es[..i] + [e] + es[i..]
  }

  predicate RemovedAt(es: seq<Entry>, es': seq<Entry>, i: nat) {
    i < |es| && es' == es[..i] + es[i + 1..]
  }

  /** Sorted entries with one new entry in its place. */
  ghost predicate Inserted(es: seq<Entry>, es': seq<Entry>, e: Entry) {
    Sorted(es') && exists i: nat :: InsertedAt(es, es', e, i)
  }

  /** Sorted entries without the one of that key. */
  ghost predicate Removed(es: seq<Entry>, es': seq<Entry>, key: Key) {
    Sorted(es') && exists i: nat :: RemovedAt(es, es', i) && es[i].key == key
  }

  predicate HasKey(es: seq<Entry>, key: Key) {
    exists i :: 0 <= i < |es| && es[i].key == key
  }

  /** Every key below, every key above. */
  predicate Below(es: seq<Entry>, key: Key) {
    forall i :: 0 <= i < |es| ==> es[i].key < key
  }

  predicate Above(es: seq<Entry>, key: Key) {
    forall i :: 0 <= i < |es| ==> key < es[i].key
  }

  /** The mapping the entries stand for. */
  function ToMap(es: seq<Entry>): (r: map<Key, RecordId>) {
    if es == [] then map[] else ToMap(es[..|es| - 1])[es[|es| - 1].key := es[|es| - 1].rid]
  }

  lemma {:induction false} ToMapIs(es: seq<Entry>, key: Key)
    requires Sorted(es)
    ensures key in ToMap(es) <==> HasKey(es, key)
    ensures forall i :: 0 <= i < |es| ==> es[i].key in ToMap(es) && ToMap(es)[es[i].key] == es[i].rid
  {
    if es != [] {
      var front := es[..|es| - 1];
      ToMapIs(front, key);
      assert HasKey(es, key) <==> HasKey(front, key) || es[|es| - 1].key == key;
      forall i | 0 <= i < |es| ensures es[i].key in ToMap(es) && ToMap(es)[es[i].key] == es[i].rid {
        if i < |es| - 1 {
          assert front[i] == es[i];
        }
      }
    }
  }

  lemma InsertKey(es: seq<Entry>, es': seq<Entry>, e: Entry, i: nat, k: Key)
    requires InsertedAt(es, es', e, i)
    ensures HasKey(es', k) <==> HasKey(es, k) || k == e.key
  {
    assert es'[i] == e;
    if HasKey(es, k) {
      var j :| 0 <= j < |es| && es[j].key == k;
      assert es'[if j < i then j else j + 1] == es[j];
    }
    if HasKey(es', k) && k != e.key {
      var j :| 0 <= j < |es'| && es'[j].key == k;
      assert es[if j < i then j else j - 1] == es'[j];
    }
  }

  lemma InsertValue(es: seq<Entry>, es': seq<Entry>, e: Entry, i: nat, k: Key)
    requires InsertedAt(es, es', e, i) && Sorted(es) && Sorted(es') && HasKey(es, k)
    ensures k in ToMap(es) && k in ToMap(es') && ToMap(es')[k] == ToMap(es)[k] && k != e.key
  {
    hide ToMap;
    ToMapIs(es, k);
    ToMapIs(es', k);
    var j :| 0 <= j < |es| && es[j].key == k;
    var j' := if j < i then j else j + 1;
    assert es'[j'] == es[j] && es'[i] == e && j' != i;
  }

  /** Inserting an entry is a map update, removing one a map removal. */
  lemma InsertIsUpdate(es: seq<Entry>, es': seq<Entry>, e: Entry)
    requires Sorted(es) && Inserted(es, es', e)
    ensures ToMap(es') == ToMap(es)[e.key := e.rid] && e.key !in ToMap(es)
  {
    hide ToMap, Sorted, HasKey, InsertedAt;
    var i: nat :| InsertedAt(es, es', e, i);
    forall k ensures (k in ToMap(es) <==> HasKey(es, k)) && (k in ToMap(es') <==> HasKey(es', k)) {
      ToMapIs(es, k);
      ToMapIs(es', k);
    }
    forall k ensures HasKey(es', k) <==> HasKey(es, k) || k == e.key {
      InsertKey(es, es', e, i, k);
    }
    forall k | HasKey(es, k) ensures k != e.key && ToMap(es')[k] == ToMap(es)[k] {
      InsertValue(es, es', e, i, k);
    }
    InsertedValue(es, es', e, i);
  }

  lemma InsertedValue(es: seq<Entry>, es': seq<Entry>, e: Entry, i: nat)
    requires InsertedAt(es, es', e, i) && Sorted(es')
    ensures e.key in ToMap(es') && ToMap(es')[e.key] == e.rid
  {
    hide ToMap;
    ToMapIs(es', e.key);
    assert es'[i] == e;
  }

  lemma RemoveIsUpdate(es: seq<Entry>, es': seq<Entry>, key: Key)
    requires Sorted(es) && Removed(es, es', key)
    ensures key in ToMap(es) && ToMap(es') == ToMap(es) - {key}
  {
    hide ToMap, Sorted;
    var i: nat :| RemovedAt(es, es', i) && es[i].key == key;
    assert InsertedAt(es', es, es[i], i) by {
      assert es == es'[..i] + [es[i]] + es'[i..];
    }
    hide RemovedAt, InsertedAt;
    InsertIsUpdate(es', es, es[i]);
  }

  // ---- Neighbours ----

  lemma SortedJoin(a: seq<Entry>, b: seq<Entry>)
    requires Sorted(a) && Sorted(b) && (a != [] && b != [] ==> a[|a| - 1].key < b[0].key)
    ensures Sorted(a + b)
  {
    var s := a + b;
    forall i, j | 0 <= i < j < |s| ensures s[i].key < s[j].key {
      if i < |a| <= j {
        assert a[i].key <= a[|a| - 1].key;
        assert b[0].key <= b[j - |a|].key;
      }
    }
  }

  lemma SortedParts(a: seq<Entry>, b: seq<Entry>)
    requires Sorted(a + b)
    ensures Sorted(a) && Sorted(b)
    ensures forall i, j :: 0 <= i < |a| && 0 <= j < |b| ==> a[i].key < b[j].key
  {
    var s := a + b;
    forall i, j | 0 <= i < j < |a| ensures a[i].key < a[j].key {
      assert s[i] == a[i] && s[j] == a[j];
    }
    forall i, j | 0 <= i < j < |b| ensures b[i].key < b[j].key {
      assert s[|a| + i] == b[i] && s[|a| + j] == b[j];
    }
    forall i, j | 0 <= i < |a| && 0 <= j < |b| ensures a[i].key < b[j].key {
      assert s[i] == a[i] && s[|a| + j] == b[j];
    }
  }

  /** A change inside the middle part is the same change of the whole. */
  lemma InsertMiddle(a: seq<Entry>, m: seq<Entry>, m': seq<Entry>, b: seq<Entry>, e: Entry)
    requires Sorted(a + m + b) && Below(a, e.key) && Above(b, e.key) && Inserted(m, m', e)
    ensures Inserted(a + m + b, a + m' + b, e)
  {
    var i: nat :| InsertedAt(m, m', e, i);
    InsertMiddleSorted(a, m, m', b, e, i);
    hide Sorted, Below, Above;
    var es, es' := a + m + b, a + m' + b;
    assert es[..|a| + i] == a + m[..i];
    assert es[|a| + i..] == m[i..] + b;
    assert es' == (a + m[..i]) + [e] + (m[i..] + b);
    assert InsertedAt(es, es', e, |a| + i);
  }

  lemma InsertMiddleSorted(a: seq<Entry>, m: seq<Entry>, m': seq<Entry>, b: seq<Entry>, e: Entry, i: nat)
    requires Sorted(a + m + b) && Below(a, e.key) && Above(b, e.key) && Sorted(m') && InsertedAt(m, m', e, i)
    ensures Sorted(a + m' + b)
  {
    SortedParts(a + m, b);
    SortedParts(a, m);
    forall j, k | 0 <= j < |a| && 0 <= k < |m'| ensures a[j].key < m'[k].key {
      if k != i {
        assert m'[k] == m[if k < i then k else k - 1];
      }
    }
    forall j, k | 0 <= j < |m'| && 0 <= k < |b| ensures m'[j].key < b[k].key {
      if j != i {
        var at := if j < i then j else j - 1;
        assert m'[j] == m[at] == (a + m)[|a| + at];
      }
    }
    JoinAll(a, m', b);
  }

  lemma JoinAll(a: seq<Entry>, m: seq<Entry>, b: seq<Entry>)
    requires Sorted(a) && Sorted(m) && Sorted(b) && m != []
    requires forall j, k :: 0 <= j < |a| && 0 <= k < |m| ==> a[j].key < m[k].key
    requires forall j, k :: 0 <= j < |m| && 0 <= k < |b| ==> m[j].key < b[k].key
    ensures Sorted(a + m + b)
  {
    SortedJoin(a, m);
    assert (a + m)[|a| + |m| - 1] == m[|m| - 1];
    SortedJoin(a + m, b);
  }

  lemma RemoveMiddle(a: seq<Entry>, m: seq<Entry>, m': seq<Entry>, b: seq<Entry>, key: Key)
    requires Sorted(a + m + b) && Removed(m, m', key)
    ensures Removed(a + m + b, a + m' + b, key)
  {
    var i: nat :| RemovedAt(m, m', i) && m[i].key == key;
    var es, es' := a + m + b, a + m' + b;
    assert es' == es[..|a| + i] + es[|a| + i + 1..];
    assert es[|a| + i] == m[i];
    SortedWithout(es, es', |a| + i);
    assert RemovedAt(es, es', |a| + i);
  }

  lemma SortedWithout(es: seq<Entry>, es': seq<Entry>, i: nat)
    requires Sorted(es) && RemovedAt(es, es', i)
    ensures Sorted(es')
  {
    forall j, k | 0 <= j < k < |es'| ensures es'[j].key < es'[k].key {
      assert es'[j] == es[if j < i then j else j + 1] && es'[k] == es[if k < i then k else k + 1];
    }
  }

  // ---- Children in order ----

  predicate AllNonempty(ts: seq<Tree>) {
    forall i :: 0 <= i < |ts| ==> Entries(ts[i]) != []
  }

  /** The least key of a nonempty list of nonempty trees is that of the first. */
  lemma FirstKey(ts: seq<Tree>)
    requires ts != [] && AllNonempty(ts)
    ensures EntriesAll(ts) != [] && EntriesAll(ts)[0].key == Min(ts[0])
  {
  }

  /** Following the separators: everything to the left of the chosen child is below the key,
      everything to its right above. */
  lemma RouteSplits(ts: seq<Tree>, c: nat, key: Key)
    requires c < |ts| && AllNonempty(ts) && Sorted(EntriesAll(ts))
    requires forall i :: 0 <= i < c ==> Seps(ts)[i] <= key
    requires forall i :: c <= i < |ts| - 1 ==> key < Seps(ts)[i]
    ensures Below(EntriesAll(ts[..c]), key) && Above(EntriesAll(ts[c + 1..]), key)
    ensures 0 < c ==> Min(ts[c]) <= key
  {
    hide EntriesAll, Entries, Sorted, Below, Above, Seps, Min;
    Focus(ts, c);
    var a, m, b := EntriesAll(ts[..c]), Entries(ts[c]), EntriesAll(ts[c + 1..]);
    SortedParts(a + m, b);
    if 0 < c {
      SepAt(ts, c - 1);
      MinIs(ts[c]);
      BelowFirst(a, m, key);
    } else {
      NoTrees(ts[..c]);
      NothingBeside(key);
    }
    if c + 1 < |ts| {
      SepAt(ts, c);
      FirstKey(ts[c + 1..]);
      AboveFirst(b, key);
    } else {
      NoTrees(ts[c + 1..]);
      NothingBeside(key);
    }
  }

  lemma SepAt(ts: seq<Tree>, i: nat)
    requires i + 1 < |ts|
    ensures Seps(ts)[i] == Min(ts[i + 1])
  {
  }

  lemma MinIs(t: Tree)
    requires Entries(t) != []
    ensures Min(t) == Entries(t)[0].key
  {
  }

  /** Before a sequence that starts at or below the key, everything is below. */
  lemma BelowFirst(a: seq<Entry>, m: seq<Entry>, key: Key)
    requires Sorted(a + m) && m != [] && m[0].key <= key
    ensures Below(a, key)
  {
    forall i | 0 <= i < |a| ensures a[i].key < key {
      assert (a + m)[i] == a[i] && (a + m)[|a|] == m[0];
    }
  }

  lemma AboveFirst(b: seq<Entry>, key: Key)
    requires Sorted(b) && b != [] && key < b[0].key
    ensures Above(b, key)
  {
    FirstLeast(b);
  }

  lemma NothingBeside(key: Key)
    ensures Below([], key) && Above([], key)
  {
  }

  lemma NoTrees(ts: seq<Tree>)
    ensures ts == [] ==> EntriesAll(ts) == []
  {
  }

  lemma FirstLeast(es: seq<Entry>)
    requires Sorted(es) && es != []
    ensures forall i :: 0 <= i < |es| ==> es[0].key <= es[i].key
  {
  }

  /** A key in the node is in the child the separators lead to. */
  lemma RouteFinds(ts: seq<Tree>, c: nat, key: Key)
    requires c < |ts| && Below(EntriesAll(ts[..c]), key) && Above(EntriesAll(ts[c + 1..]), key)
    ensures HasKey(EntriesAll(ts), key) <==> HasKey(Entries(ts[c]), key)
  {
    hide Below, Above, HasKey, EntriesAll, Entries;
    Focus(ts, c);
    KeyInMiddle(EntriesAll(ts[..c]), Entries(ts[c]), EntriesAll(ts[c + 1..]), key);
  }

  lemma KeyInMiddle(a: seq<Entry>, m: seq<Entry>, b: seq<Entry>, key: Key)
    requires Below(a, key) && Above(b, key)
    ensures HasKey(a + m + b, key) <==> HasKey(m, key)
  {
    var es := a + m + b;
    if HasKey(m, key) {
      var i :| 0 <= i < |m| && m[i].key == key;
      assert es[|a| + i] == m[i];
    }
    if HasKey(es, key) {
      assert forall j :: 0 <= j < |a| ==> es[j] == a[j];
      assert forall j :: 0 <= j < |b| ==> es[|a| + |m| + j] == b[j];
      var i :| 0 <= i < |es| && es[i].key == key;
      assert m[i - |a|] == es[i];
    }
  }

  // ---- Separators ----

  /** Replacing a child by one or two keeps the other separators. */
  lemma SepsReplace(ts: seq<Tree>, c: nat, t: Tree)
    requires c < |ts| && (0 < c ==> Min(t) == Min(ts[c]))
    ensures Seps(ts[..c] + [t] + ts[c + 1..]) == Seps(ts)
    ensures RootPages(ts[..c] + [t] + ts[c + 1..]) == RootPages(ts)[c := t.page]
  {
    var ts' := ts[..c] + [t] + ts[c + 1..];
    forall i | 0 <= i < |ts| - 1 ensures Seps(ts')[i] == Seps(ts)[i] {
      if i + 1 != c {
        assert ts'[i + 1] == ts[i + 1];
      }
    }
  }

  /** Two children in the place of one, seen child by child. */
  lemma InsertAt<T>(ts: seq<T>, c: nat, t: T, r: T, i: nat)
    requires c < |ts| && i <= |ts|
    ensures var ts' := ts[..c] + [t, r] + ts[c + 1..];
            && |ts'| == |ts| + 1
            && ts'[i] == if i < c then ts[i] else if i == c then t else if i == c + 1 then r else ts[i - 1]
  {
  }

  lemma SepsInsert(ts: seq<Tree>, c: nat, t: Tree, r: Tree)
    requires c < |ts| && (0 < c ==> Min(t) == Min(ts[c])) && t.page == ts[c].page
    ensures var ts' := ts[..c] + [t, r] + ts[c + 1..];
            && Seps(ts') == Seps(ts)[..c] + [Min(r)] + Seps(ts)[c..]
            && RootPages(ts') == RootPages(ts)[..c + 1] + [r.page] + RootPages(ts)[c + 1..]
  {
    hide Min;
    var ts' := ts[..c] + [t, r] + ts[c + 1..];
    var keys := Seps(ts)[..c] + [Min(r)] + Seps(ts)[c..];
    var kids := RootPages(ts)[..c + 1] + [r.page] + RootPages(ts)[c + 1..];
    forall i: nat | i < |ts| ensures Seps(ts')[i] == keys[i] {
      InsertAt(ts, c, t, r, i + 1);
    }
    forall i: nat | i <= |ts| ensures RootPages(ts')[i] == kids[i] {
      InsertAt(ts, c, t, r, i);
    }
    assert |Seps(ts')| == |keys| && |RootPages(ts')| == |kids|;
  }

  lemma SepsSplit(ts: seq<Tree>, n: nat)
    requires 0 < n < |ts|
    ensures Seps(ts[..n]) == Seps(ts)[..n - 1] && Seps(ts[n..]) == Seps(ts)[n..] && Seps(ts)[n - 1] == Min(ts[n])
    ensures RootPages(ts[..n]) == RootPages(ts)[..n] && RootPages(ts[n..]) == RootPages(ts)[n..]
  {
  }
}
