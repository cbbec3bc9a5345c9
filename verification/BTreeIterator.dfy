/** The iterator of the secondary index, with insertions between its calls. */
module BTreeIterator {
  import opened Common
  import opened BTreeModel
  import opened BTreeLemmas
  import opened BTreeEffect
  import opened BTreeInner
  import opened BTreeNodes
  import opened BTree

  // ----- Where an iterator stands -----

  /** Leaf p is remembered with sequence number seqno; the entry last returned is in it or right of it. */
  ghost predicate PlacedAt(m: Mem, ids: seq<Addr>, p: nat, seqno: nat, index: int, e: Entry) {
    && p < |ids| && ids[p] < |m| && m[ids[p]].Leaf?
    && seqno <= m[ids[p]].seqno
    && (seqno == m[ids[p]].seqno ==> 0 <= index < |Entries(m[ids[p]])| && Entries(m[ids[p]])[index] == e)
    && e in Flat(m, ids[p..])
  }

  ghost predicate Placed(m: Mem, ids: seq<Addr>, n: Addr, seqno: nat, index: int, e: Entry) {
    exists p :: 0 <= p < |ids| && ids[p] == n && PlacedAt(m, ids, p, seqno, index, e)
  }

  // ----- Insertions leave the iterator placed -----

  lemma FlatSuffix(m: Mem, ids: seq<Addr>, p: nat, q: nat)
    requires p <= q < |ids|
    ensures Flat(m, ids[p..]) == Flat(m, ids[p..q]) + EntriesAt(m, ids[q]) + Flat(m, ids[q + 1..])
  {
    assert ids[p..] == ids[p..q] + [ids[q]] + ids[q + 1..];
    FlatParts(m, ids[p..q], [ids[q]], ids[q + 1..]);
    assert [ids[q]][1..] == [];
    assert Flat(m, [ids[q]]) == EntriesAt(m, ids[q]) + [];
  }

  lemma InsertsKeeps(s: seq<Entry>, k: nat, s': seq<Entry>, key: nat, v: Value, e: Entry)
    requires Inserts(s, k, s', key, v) && e in s
    ensures e in s'
  {
    var i :| 0 <= i < |s| && s[i] == e;
    assert s'[if i < k then i else i + 1] == e;
  }

  /** Leaves other than the one that took the entry keep their entries and numbers. */
  lemma OtherLeaf(m: Mem, m': Mem, l: Addr, sib: Option<Addr>, key: nat, v: Value, a: Addr)
    requires LeafStep(m, m', l, sib, key, v) && a < |m| && m[a].Leaf? && a != l
    ensures m'[a].Leaf? && m'[a].seqno == m[a].seqno && EntriesAt(m', a) == EntriesAt(m, a)
  {}

  ghost predicate AllLeaves(m: Mem, ids: seq<Addr>) {
    forall i :: 0 <= i < |ids| ==> ids[i] < |m| && m[ids[i]].Leaf?
  }

  lemma SliceLeaves(m: Mem, ids: seq<Addr>, i: nat, j: nat)
    requires AllLeaves(m, ids) && i <= j <= |ids|
    ensures AllLeaves(m, ids[i..j])
  {}

  lemma OtherLeaves(m: Mem, m': Mem, l: Addr, sib: Option<Addr>, key: nat, v: Value, ids: seq<Addr>)
    requires LeafStep(m, m', l, sib, key, v) && l !in ids && AllLeaves(m, ids)
    ensures Flat(m', ids) == Flat(m, ids)
  {
    hide LeafStep, Entries, EntriesAt;
    forall i | 0 <= i < |ids| ensures EntriesAt(m', ids[i]) == EntriesAt(m, ids[i]) {
      OtherLeaf(m, m', l, sib, key, v, ids[i]);
    }
    FlatFrame(m, m', ids);
  }

  /** The entries of the leaf that took a new one are still in it, or in the leaf split off. */
  lemma StepKeepsEntry(m: Mem, m': Mem, l: Addr, sib: Option<Addr>, key: nat, v: Value, e: Entry)
    requires LeafStep(m, m', l, sib, key, v) && e in Entries(m[l])
    ensures e in Entries(m'[l]) || (sib.Some? && sib.value < |m'| && e in Entries(m'[sib.value]))
  {
    hide Entries, Inserts;
    if sib.None? {
      var k :| Inserts(Entries(m[l]), k, Entries(m'[l]), key, v);
      InsertsKeeps(Entries(m[l]), k, Entries(m'[l]), key, v, e);
    } else {
      var k :| Inserts(Entries(m[l]), k, Entries(m'[l]) + Entries(m'[sib.value]), key, v);
      InsertsKeeps(Entries(m[l]), k, Entries(m'[l]) + Entries(m'[sib.value]), key, v, e);
    }
  }

  lemma NewIdsFrom(ids: seq<Addr>, q: nat, sib: Option<Addr>, p: nat)
    requires p <= q < |ids|
    ensures var ids' := NewIds(ids, q, sib);
            && q < |ids'| && ids'[p] == ids[p] && ids'[q] == ids[q] && ids'[p..q] == ids[p..q]
            && ids'[q + 1..] == (if sib.Some? then [sib.value] else []) + ids[q + 1..]
  {}

  lemma NewIdsAfter(ids: seq<Addr>, q: nat, sib: Option<Addr>, p: nat)
    requires q < p < |ids|
    ensures var ids' := NewIds(ids, q, sib);
            var p' := if sib.Some? then p + 1 else p;
            p' < |ids'| && ids'[p'] == ids[p] && ids'[p'..] == ids[p..]
  {}

  lemma NotInSlice(ids: seq<Addr>, q: nat, i: nat, j: nat)
    requires Distinct(ids) && q < |ids| && i <= j <= |ids| && (q < i || j <= q)
    ensures ids[q] !in ids[i..j]
  {
    forall x | i <= x < j ensures ids[x] != ids[q] {}
  }

  /** What was right of a leaf, or in it, stays there. */
  lemma SuffixKept(m: Mem, ids: seq<Addr>, m': Mem, key: nat, v: Value, q: nat, sib: Option<Addr>, p: nat, e: Entry)
    requires p <= q < |ids| && LeafStep(m, m', ids[q], sib, key, v) && Distinct(ids) && AllLeaves(m, ids)
    requires e in Flat(m, ids[p..])
    ensures p < |NewIds(ids, q, sib)| && e in Flat(m', NewIds(ids, q, sib)[p..])
  {
    hide Flat, Entries, LeafStep, NewIds, Distinct, AllLeaves;
    StepBounds(m, m', ids[q], sib, key, v);
    SliceLeaves(m, ids, p, q);
    SliceLeaves(m, ids, q + 1, |ids|);
    var l, ids' := ids[q], NewIds(ids, q, sib);
    NewIdsFrom(ids, q, sib, p);
    NotInSlice(ids, q, p, q);
    NotInSlice(ids, q, q + 1, |ids|);
    assert ids[q + 1..|ids|] == ids[q + 1..];
    FlatSuffix(m, ids, p, q);
    FlatSuffix(m', ids', p, q);
    OtherLeaves(m, m', l, sib, key, v, ids[p..q]);
    OtherLeaves(m, m', l, sib, key, v, ids[q + 1..]);
    TailFlat(m', sib, ids[q + 1..]);
    if e in Entries(m[l]) { StepKeepsEntry(m, m', l, sib, key, v, e); }
  }

  lemma StepBounds(m: Mem, m': Mem, l: Addr, sib: Option<Addr>, key: nat, v: Value)
    requires LeafStep(m, m', l, sib, key, v)
    ensures l < |m| <= |m'| && (sib.Some? ==> sib.value < |m'|)
  {}

  lemma TailFlat(m: Mem, sib: Option<Addr>, rest: seq<Addr>)
    requires sib.Some? ==> sib.value < |m|
    ensures Flat(m, (if sib.Some? then [sib.value] else []) + rest)
            == (if sib.Some? then Entries(m[sib.value]) else []) + Flat(m, rest)
  {
    if sib.Some? {
      FlatAppend(m, [sib.value], rest);
      FlatOne(m, sib.value);
    } else {
      EmptyLeft(rest);
      EmptyLeft(Flat(m, rest));
    }
  }

  /** An insertion anywhere leaves the iterator placed on the same entry. */
  lemma PlacedKept(m: Mem, ids: seq<Addr>, m': Mem, ids': seq<Addr>, key: nat, v: Value, q: nat, sib: Option<Addr>,
                   n: Addr, seqno: nat, index: int, e: Entry)
    requires Took(m, ids, m', ids', key, v, q, sib) && Chain(m, ids) && Distinct(ids)
    requires Placed(m, ids, n, seqno, index, e)
    ensures Placed(m', ids', n, seqno, index, e)
  {
    hide Flat, Entries, LeafStep, NewIds, GainsEntry, PlacedAt, Distinct;
    var p :| 0 <= p < |ids| && ids[p] == n && PlacedAt(m, ids, p, seqno, index, e);
    assert AllLeaves(m, ids) by {
      forall i | 0 <= i < |ids| ensures ids[i] < |m| && m[ids[i]].Leaf? { assert LinkedAt(m, ids, i); }
    }
    if p <= q {
      PlacedLeft(m, ids, m', key, v, q, sib, p, seqno, index, e);
    } else {
      PlacedRight(m, ids, m', key, v, q, sib, p, seqno, index, e);
    }
  }

  lemma PlacedLeft(m: Mem, ids: seq<Addr>, m': Mem, key: nat, v: Value, q: nat, sib: Option<Addr>,
                   p: nat, seqno: nat, index: int, e: Entry)
    requires p <= q < |ids| && LeafStep(m, m', ids[q], sib, key, v) && Distinct(ids) && AllLeaves(m, ids)
    requires PlacedAt(m, ids, p, seqno, index, e)
    ensures p < |NewIds(ids, q, sib)| && NewIds(ids, q, sib)[p] == ids[p]
    ensures PlacedAt(m', NewIds(ids, q, sib), p, seqno, index, e)
  {
    hide Flat, Entries, LeafStep, NewIds, Distinct, AllLeaves;
    LeafKept(m, ids, m', key, v, q, sib, p, seqno, index, e);
    NewIdsFrom(ids, q, sib, p);
    SuffixKept(m, ids, m', key, v, q, sib, p, e);
  }

  lemma PlacedRight(m: Mem, ids: seq<Addr>, m': Mem, key: nat, v: Value, q: nat, sib: Option<Addr>,
                    p: nat, seqno: nat, index: int, e: Entry)
    requires q < p < |ids| && LeafStep(m, m', ids[q], sib, key, v) && Distinct(ids) && AllLeaves(m, ids)
    requires PlacedAt(m, ids, p, seqno, index, e)
    ensures var p', ids' := if sib.Some? then p + 1 else p, NewIds(ids, q, sib);
            p' < |ids'| && ids'[p'] == ids[p] && PlacedAt(m', ids', p', seqno, index, e)
  {
    hide Flat, Entries, LeafStep, NewIds, Distinct, AllLeaves;
    LeafKept(m, ids, m', key, v, q, sib, p, seqno, index, e);
    SliceLeaves(m, ids, p, |ids|);
    NewIdsAfter(ids, q, sib, p);
    NotInSlice(ids, q, p, |ids|);
    assert ids[p..|ids|] == ids[p..];
    OtherLeaves(m, m', ids[q], sib, key, v, ids[p..]);
  }

  /** An unchanged sequence number means an unchanged leaf. */
  lemma LeafKept(m: Mem, ids: seq<Addr>, m': Mem, key: nat, v: Value, q: nat, sib: Option<Addr>,
                 p: nat, seqno: nat, index: int, e: Entry)
    requires q < |ids| && LeafStep(m, m', ids[q], sib, key, v) && Distinct(ids) && AllLeaves(m, ids)
    requires PlacedAt(m, ids, p, seqno, index, e)
    ensures ids[p] < |m'| && m'[ids[p]].Leaf? && seqno <= m'[ids[p]].seqno
    ensures seqno == m'[ids[p]].seqno ==> 0 <= index < |Entries(m'[ids[p]])| && Entries(m'[ids[p]])[index] == e
  {
    hide Flat;
    if p != q {
      OtherLeaf(m, m', ids[q], sib, key, v, ids[p]);
    }
  }

  // ----- Any number of insertions -----

  datatype Snap = Snap(m: Mem, ids: seq<Addr>)

  /** Nothing happened, or one key was inserted. */
  ghost predicate AtMostOneInsertion(a: Snap, b: Snap) {
    b == a || exists key, v, p, sib :: Took(a.m, a.ids, b.m, b.ids, key, v, p, sib)
  }

  /** However many keys are inserted between two calls, the iterator can still find its entry. */
  lemma {:induction false} PlacedThroughout(run: seq<Snap>, i: nat, n: Addr, seqno: nat, index: int, e: Entry)
    requires i < |run| && Placed(run[0].m, run[0].ids, n, seqno, index, e)
    requires forall j :: 0 <= j < |run| ==> Chain(run[j].m, run[j].ids) && Distinct(run[j].ids)
    requires forall j :: 0 <= j < |run| - 1 ==> AtMostOneInsertion(run[j], run[j + 1])
    ensures Placed(run[i].m, run[i].ids, n, seqno, index, e)
  {
    if i > 0 {
      hide Placed, Took, Chain, Distinct;
      PlacedThroughout(run, i - 1, n, seqno, index, e);
      var a, b := run[i - 1], run[i - 1 + 1];
      assert AtMostOneInsertion(a, b);
      if b != a {
        var key, v, p, sib :| Took(a.m, a.ids, b.m, b.ids, key, v, p, sib);
        PlacedKept(a.m, a.ids, b.m, b.ids, key, v, p, sib, n, seqno, index, e);
      }
    }
  }

  // ----- Leaves in order -----

  /** What the iterator relies on: linked, non-empty leaves with ascending entries. */
  ghost predicate Shelf(m: Mem, ids: seq<Addr>) {
    && Chain(m, ids) && Distinct(ids) && Sorted(Flat(m, ids))
    && (forall i :: 0 <= i < |ids| ==> LeafShape(m, ids[i]))
    && (|ids| > 1 ==> forall i :: 0 <= i < |ids| ==> EntriesAt(m, ids[i]) != [])
  }

  ghost predicate LeafShape(m: Mem, a: Addr) {
    a < |m| && m[a].Leaf? && m[a].num <= |m[a].keys| && m[a].num <= |m[a].vals| && 0 < |m[a].keys| && 0 < |m[a].vals|
  }

  lemma {:induction false} GoodLeaves(m: Mem, t: Tree, d: nat, lo: nat, hi: nat, top: bool, i: nat)
    requires Good(m, t, d, lo, hi, top) && i < |LeafIds(t)|
    ensures LeafShape(m, LeafIds(t)[i])
    ensures d > 0 || !top ==> EntriesAt(m, LeafIds(t)[i]) != []
    decreases d, 1, 0
  {
    if d > 0 {
      InnerShape(m, t, d - 1, lo, hi, top);
      RowLeaves(m, Keys(m, t), t.subs, d - 1, lo, hi, i);
    }
  }

  lemma {:induction false} RowLeaves(m: Mem, keys: seq<nat>, ts: seq<Tree>, d: nat, lo: nat, hi: nat, i: nat)
    requires Row(m, keys, ts, d, lo, hi) && i < |LeafIdsOf(ts)|
    ensures LeafShape(m, LeafIdsOf(ts)[i]) && EntriesAt(m, LeafIdsOf(ts)[i]) != []
    decreases d, 2, |ts|
  {
    var n := |LeafIds(ts[0])|;
    LeafIdsOfOne(ts[0]);
    if |ts| == 1 {
      assert ts == [ts[0]];
      GoodLeaves(m, ts[0], d, Sep(keys, lo, hi, 0), Sep(keys, lo, hi, 1), false, i);
    } else if i < n {
      GoodLeaves(m, ts[0], d, Sep(keys, lo, hi, 0), Sep(keys, lo, hi, 1), false, i);
    } else {
      RowTail(m, keys, ts, d, lo, hi);
      RowLeaves(m, keys[1..], ts[1..], d, keys[0], hi, i - n);
    }
  }

  lemma ValidShelf(m: Mem, t: Tree, d: nat)
    requires Good(m, t, d, 0, KEY_LIMIT, true) && Apart(t) && Chain(m, LeafIds(t))
    ensures Shelf(m, LeafIds(t))
  {
    GoodFlat(m, t, d, 0, KEY_LIMIT, true);
    LeafIdsDistinct(t);
    hide Good, Chain, LeafIds, Apart, LeafShape;
    forall i | 0 <= i < |LeafIds(t)|
      ensures LeafShape(m, LeafIds(t)[i]) && (d > 0 ==> EntriesAt(m, LeafIds(t)[i]) != [])
    {
      GoodLeaves(m, t, d, 0, KEY_LIMIT, true, i);
    }
    if d == 0 { LeafIsTip(m, t, 0, KEY_LIMIT, true); }
  }

  lemma SplitFlat(m: Mem, ids: seq<Addr>, q: nat)
    requires q < |ids|
    ensures Flat(m, ids) == Flat(m, ids[..q]) + EntriesAt(m, ids[q]) + Flat(m, ids[q + 1..])
    ensures Flat(m, ids[..q + 1]) == Flat(m, ids[..q]) + EntriesAt(m, ids[q])
  {
    FlatSuffix(m, ids, 0, q);
    assert ids[0..] == ids && ids[0..q] == ids[..q];
    assert ids[..q + 1] == ids[..q] + [ids[q]];
    FlatAppend(m, ids[..q], [ids[q]]);
    assert [ids[q]][1..] == [];
    assert Flat(m, [ids[q]]) == EntriesAt(m, ids[q]) + [];
  }

  // ----- Neighbours in key order -----

  ghost predicate AtMost(s: seq<Entry>, key: nat) {
    forall i :: 0 <= i < |s| ==> s[i].key <= key
  }

  ghost predicate AtLeast(s: seq<Entry>, key: nat) {
    forall i :: 0 <= i < |s| ==> key <= s[i].key
  }

  /** e is the entry with the least key above the given one. */
  ghost predicate LeastAbove(s: seq<Entry>, key: nat, e: Entry) {
    e in s && key < e.key && forall i :: 0 <= i < |s| && key < s[i].key ==> e.key <= s[i].key
  }

  /** e is the entry with the greatest key below the given one. */
  ghost predicate GreatestBelow(s: seq<Entry>, key: nat, e: Entry) {
    e in s && e.key < key && forall i :: 0 <= i < |s| && s[i].key < key ==> s[i].key <= e.key
  }

  /** e is the first entry at or after the given key. */
  ghost predicate FirstFrom(s: seq<Entry>, key: nat, e: Entry) {
    e in s && key <= e.key && forall i :: 0 <= i < |s| && key <= s[i].key ==> e.key <= s[i].key
  }

  lemma CutAbove(a: seq<Entry>, es: seq<Entry>, b: seq<Entry>, k: nat, key: nat)
    requires Sorted(a + es + b) && k < |es| && AtMost(a, key) && AtMost(es[..k], key) && key < es[k].key
    ensures LeastAbove(a + es + b, key, es[k])
  {
    var s := a + es + b;
    assert s[|a| + k] == es[k];
    forall i | 0 <= i < |a| + k ensures s[i].key <= key {
      assert i < |a| || s[i] == es[..k][i - |a|];
    }
  }

  lemma CutBelow(a: seq<Entry>, es: seq<Entry>, b: seq<Entry>, k: nat, key: nat)
    requires Sorted(a + es + b) && k < |es| && AtLeast(es[k + 1..], key) && AtLeast(b, key) && es[k].key < key
    ensures GreatestBelow(a + es + b, key, es[k])
  {
    var s := a + es + b;
    assert s[|a| + k] == es[k];
    forall i | |a| + k < i < |s| ensures key <= s[i].key {
      assert s[i] == if i < |a| + |es| then es[k + 1..][i - |a| - k - 1] else b[i - |a| - |es|];
    }
  }

  lemma CutFrom(a: seq<Entry>, es: seq<Entry>, b: seq<Entry>, k: nat, key: nat)
    requires Sorted(a + es + b) && k < |es| && Below(a, key) && Below(es[..k], key) && key <= es[k].key
    ensures FirstFrom(a + es + b, key, es[k])
  {
    var s := a + es + b;
    assert s[|a| + k] == es[k];
    forall i | 0 <= i < |a| + k ensures s[i].key < key {
      assert i < |a| || s[i] == es[..k][i - |a|];
    }
  }

  /** Everything left of a suffix that holds the key is below the key. */
  lemma BeforeSuffix(m: Mem, ids: seq<Addr>, p: nat, e: Entry)
    requires p <= |ids| && Sorted(Flat(m, ids)) && e in Flat(m, ids[p..])
    ensures Below(Flat(m, ids[..p]), e.key)
  {
    assert ids == ids[..p] + ids[p..];
    FlatAppend(m, ids[..p], ids[p..]);
    var a, b := Flat(m, ids[..p]), Flat(m, ids[p..]);
    var j :| 0 <= j < |b| && b[j] == e;
    forall i | 0 <= i < |a| ensures a[i].key < e.key {
      assert (a + b)[i] == a[i] && (a + b)[|a| + j] == e;
    }
  }

  lemma InLeafPlaced(m: Mem, ids: seq<Addr>, q: nat, k: nat)
    requires q < |ids| && ids[q] < |m| && m[ids[q]].Leaf? && k < |Entries(m[ids[q]])|
    ensures Placed(m, ids, ids[q], m[ids[q]].seqno, k, Entries(m[ids[q]])[k])
  {
    FlatSuffix(m, ids, q, q);
    assert PlacedAt(m, ids, q, m[ids[q]].seqno, k, Entries(m[ids[q]])[k]);
  }

  // ----- The iterator -----

  class Iterator {
    const tree: BPlusTree
    var node: Option<Addr>
    var seqno: nat
    var index: int
    var key: nat
    var value: Value

    constructor (t: BPlusTree)
      ensures tree == t && node == None
    {
      tree, node := t, None;
      seqno, index, key, value := 0, 0, 0, None;
    }

    predicate IsValid()
      reads this, tree
    {
      node.Some? && node.value < |tree.mem| && tree.mem[node.value].Leaf? && tree.mem[node.value].num > 0
    }

    /** Positioned on an entry: the one last returned is in the tree, and can be found again. */
    ghost predicate OnEntry()
      reads this, tree
    {
      node.Some? && Placed(tree.mem, tree.Leaves(), node.value, seqno, index, Entry(key, value))
    }

    /** The common end of the moves: load what slot `index` of the leaf holds. */
    method Load()
      requires node.Some? && node.value < |tree.mem| && tree.mem[node.value].Leaf?
      requires 0 <= index < |Entries(tree.mem[node.value])|
      modifies this`key, this`value, this`seqno
      ensures Entry(key, value) == Entries(tree.mem[node.value])[index] && seqno == tree.mem[node.value].seqno
    {
      var r := tree.mem[node.value];
      key, value, seqno := r.keys[index], r.vals[index], r.seqno;
    }

    /** The search of Next after the leaf has changed: right to the first key above. */
    method SkipForward(ghost q0: nat) returns (ghost q: nat)
      requires tree.Valid() && q0 < |tree.Leaves()| && node == Some(tree.Leaves()[q0])
      requires AtMost(Flat(tree.mem, tree.Leaves()[..q0]), key)
      modifies this`node, this`index
      ensures node.Some? ==> q < |tree.Leaves()| && node == Some(tree.Leaves()[q]) && 0 <= index
                             && Divides(tree.mem, tree.Leaves(), q, index, key)
      ensures node.None? ==> AtMost(tree.Contents(), key)
    {
      hide Good, Flat, Entries, Chain, Sorted, Distinct, Apart, AtMost;
      ghost var ids, m := tree.Leaves(), tree.mem;
      ValidShelf(m, tree.tree, tree.depth);
      q := q0;
      while node != None
        invariant node.Some? ==> q < |ids| && node == Some(ids[q]) && AtMost(Flat(m, ids[..q]), key)
        invariant node.None? ==> AtMost(Flat(m, ids), key)
        decreases |ids| - q, node.Some?
      {
        assert LeafShape(m, ids[q]);
        var r := tree.mem[node.value];
        var k := FindAbove(r, key);
        AboveInLeaf(m, ids, q, k, key);
        if k == r.num {
          StepRight(m, ids, q, key);
          node := r.right;
          q := q + 1;
          if node == None { return; }
        } else {
          index := k;
          return;
        }
      }
    }

    /** Next: the least key above the last one in the tree as it is now, or the end. */
    method Next() returns (b: bool)
      requires tree.Valid() && OnEntry()
      modifies this
      ensures node.Some? ==> OnEntry() && LeastAbove(tree.Contents(), old(key), Entry(key, value))
      ensures node.None? ==> AtMost(tree.Contents(), old(key))
      ensures b <==> tree.mem[old(node.value)].seqno == old(seqno)
    {
      hide Good, Flat, Entries, Chain, Sorted, Distinct, Apart, AtMost, LeastAbove;
      ghost var ids, m := tree.Leaves(), tree.mem;
      ValidShelf(m, tree.tree, tree.depth);
      ghost var q :| 0 <= q < |ids| && ids[q] == node.value && PlacedAt(m, ids, q, seqno, index, Entry(key, value));
      BeforeSuffix(m, ids, q, Entry(key, value));
      BelowAtMost(Flat(m, ids[..q]), key);
      b := true;
      if tree.mem[node.value].seqno != seqno {
        b := false;
        q := SkipForward(q);
        if node == None { return; }
      } else {
        AfterEntry(m, ids, q, index, Entry(key, value));
        index := index + 1;
      }
      EntryCount(m, ids, q);
      if index >= tree.mem[node.value].num {
        NextLeaf(m, ids, q, index - 1, Entry(key, value));
        node := tree.mem[node.value].right;
        q := q + 1;
        index := 0;
      }
      if node != None {
        DividesMeans(m, ids, q, index, key);
        Load();
        InLeafPlaced(m, ids, q, index);
      }
    }

    /** The search of Prev after the leaf has changed: right to the key itself. */
    method SkipToKey(ghost q0: nat) returns (ghost q: nat)
      requires tree.Valid() && q0 < |tree.Leaves()| && node == Some(tree.Leaves()[q0])
      requires Entry(key, value) in Flat(tree.mem, tree.Leaves()[q0..])
      modifies this`node, this`index
      ensures q < |tree.Leaves()| && node == Some(tree.Leaves()[q]) && 0 <= index
      ensures StandsAt(tree.mem, tree.Leaves(), q, index, key)
    {
      hide Good, Flat, Entries, Chain, Sorted, Distinct, Apart, StandsAt;
      ghost var ids, m := tree.Leaves(), tree.mem;
      ValidShelf(m, tree.tree, tree.depth);
      q := q0;
      while node != None
        invariant q < |ids| && node == Some(ids[q]) && Entry(key, value) in Flat(m, ids[q..])
        decreases |ids| - q
      {
        assert LeafShape(m, ids[q]);
        var r := tree.mem[node.value];
        var k := FindInLeaf(r, key);
        KeyInLeaf(m, ids, q, k, Entry(key, value));
        if k == r.num {
          node := r.right;
          q := q + 1;
        } else {
          index := k;
          return;
        }
      }
    }

    /** Prev: the greatest key below the last one in the tree as it is now, or the end. */
    method Prev() returns (b: bool)
      requires tree.Valid() && OnEntry()
      modifies this
      ensures node.Some? ==> OnEntry() && GreatestBelow(tree.Contents(), old(key), Entry(key, value))
      ensures node.None? ==> AtLeast(tree.Contents(), old(key))
      ensures b <==> tree.mem[old(node.value)].seqno == old(seqno)
    {
      hide Good, Flat, Entries, Chain, Sorted, Distinct, Apart, AtLeast, StandsAt, GreatestBelow;
      ghost var ids, m := tree.Leaves(), tree.mem;
      ValidShelf(m, tree.tree, tree.depth);
      ghost var q :| 0 <= q < |ids| && ids[q] == node.value && PlacedAt(m, ids, q, seqno, index, Entry(key, value));
      b := true;
      if tree.mem[node.value].seqno != seqno {
        b := false;
        q := SkipToKey(q);
      } else {
        AtEntry(m, ids, q, index, Entry(key, value));
      }
      StandsBefore(m, ids, q, index, key);
      index := index - 1;
      if index < 0 {
        node := tree.mem[node.value].left;
        q := if q > 0 then q - 1 else 0;
        if node != None {
          EntryCount(m, ids, q);
          index := tree.mem[node.value].num - 1;
        }
      }
      if node != None {
        EntryCount(m, ids, q);
        Load();
        InLeafPlaced(m, ids, q, index);
      }
    }

    /** Seek: the first key at or after the target. */
    method Seek(target: nat)
      requires tree.Valid() && target < KEY_LIMIT
      modifies this
      ensures node.Some? ==> OnEntry() && FirstFrom(tree.Contents(), target, Entry(key, value))
      ensures node.None? ==> Below(tree.Contents(), target)
    {
      hide Good, Flat, Entries, Chain, Sorted, Distinct, Apart, Below, Beyond, FirstFrom;
      ghost var ids, m := tree.Leaves(), tree.mem;
      ValidShelf(m, tree.tree, tree.depth);
      var l, p := tree.FindLeaf(target);
      ghost var q := p;
      EntryCount(m, ids, q);
      var r := tree.mem[l];
      var k := FindInLeaf(r, target);
      SeekInLeaf(m, ids, q, k, target);
      if k == r.num {
        node, index := r.right, 0;
        q := q + 1;
        if node == None { return; }
      } else {
        node, index := Some(l), k;
      }
      EntryCount(m, ids, q);
      Load();
      InLeafPlaced(m, ids, q, index);
    }

    /** SeekToFirst loads slot 0 of the leftmost leaf, whether or not it is in use. */
    method SeekToFirst()
      requires tree.Valid()
      modifies this
      ensures tree.Leaves() != [] && node == Some(tree.Leaves()[0]) && index == 0
      ensures LeafShape(tree.mem, tree.Leaves()[0]) && key == tree.mem[tree.Leaves()[0]].keys[0]
      ensures tree.Contents() != [] ==> IsValid() && OnEntry() && Entry(key, value) == tree.Contents()[0]
      ensures tree.Contents() == [] ==> !IsValid() && !OnEntry()
    {
      hide Good, Flat, Chain, Sorted, Distinct, Apart, LeafIds;
      ghost var ids, m := tree.Leaves(), tree.mem;
      ValidShelf(m, tree.tree, tree.depth);
      var min := tree.LeftmostLeaf();
      node, index := Some(min), 0;
      EntryCount(m, ids, 0);
      var r := tree.mem[min];
      key, value, seqno := r.keys[0], r.vals[0], r.seqno;
      FirstEntry(m, ids);
      if r.num > 0 {
        assert Entries(r)[0] == Entry(key, value);
        InLeafPlaced(m, ids, 0, 0);
      } else {
        NotPlaced(m, ids, min, seqno, 0, Entry(key, value));
      }
    }
  }

  // ----- The pieces of Next -----

  /** Entry k of leaf q is the first above the key. */
  ghost predicate Divides(m: Mem, ids: seq<Addr>, q: nat, k: nat, key: nat) {
    && q < |ids| && k < |EntriesAt(m, ids[q])|
    && AtMost(Flat(m, ids[..q]), key) && AtMost(EntriesAt(m, ids[q])[..k], key) && key < EntriesAt(m, ids[q])[k].key
  }

  lemma BelowAtMost(s: seq<Entry>, key: nat)
    requires Below(s, key)
    ensures AtMost(s, key)
  {}

  lemma EntryCount(m: Mem, ids: seq<Addr>, q: nat)
    requires Shelf(m, ids) && q < |ids|
    ensures LeafShape(m, ids[q]) && EntriesAt(m, ids[q]) == Entries(m[ids[q]]) && |EntriesAt(m, ids[q])| == m[ids[q]].num
  {
    assert LeafShape(m, ids[q]);
  }

  lemma AboveInLeaf(m: Mem, ids: seq<Addr>, q: nat, k: nat, key: nat)
    requires Shelf(m, ids) && q < |ids| && LeafShape(m, ids[q]) && AtMost(Flat(m, ids[..q]), key)
    requires var r := m[ids[q]];
             k <= r.num && (forall i :: 0 <= i < k ==> r.keys[i] <= key) && (k < r.num ==> key < r.keys[k])
    ensures k == m[ids[q]].num ==> AtMost(EntriesAt(m, ids[q]), key)
    ensures k < m[ids[q]].num ==> Divides(m, ids, q, k, key)
  {
    hide Flat;
    var e := EntriesAt(m, ids[q]);
    forall i | 0 <= i < k ensures e[i].key <= key {}
    if k < m[ids[q]].num { assert e[k].key == m[ids[q]].keys[k]; }
  }

  lemma StepRight(m: Mem, ids: seq<Addr>, q: nat, key: nat)
    requires Shelf(m, ids) && q < |ids| && AtMost(Flat(m, ids[..q]), key) && AtMost(EntriesAt(m, ids[q]), key)
    ensures AtMost(Flat(m, ids[..q + 1]), key)
    ensures LeafShape(m, ids[q]) && m[ids[q]].right == if q + 1 < |ids| then Some(ids[q + 1]) else None
    ensures q + 1 == |ids| ==> AtMost(Flat(m, ids), key)
  {
    assert LinkedAt(m, ids, q);
    hide Flat;
    SplitFlat(m, ids, q);
    if q + 1 == |ids| { assert ids[..q + 1] == ids; }
  }

  lemma DividesMeans(m: Mem, ids: seq<Addr>, q: nat, k: nat, key: nat)
    requires Shelf(m, ids) && Divides(m, ids, q, k, key)
    ensures k < |Entries(m[ids[q]])| && LeafShape(m, ids[q])
    ensures LeastAbove(Flat(m, ids), key, Entries(m[ids[q]])[k])
  {
    hide Flat, LeastAbove, AtMost, Sorted;
    EntryCount(m, ids, q);
    SplitFlat(m, ids, q);
    CutAbove(Flat(m, ids[..q]), EntriesAt(m, ids[q]), Flat(m, ids[q + 1..]), k, key);
  }

  lemma LeafSorted(m: Mem, ids: seq<Addr>, q: nat)
    requires Shelf(m, ids) && q < |ids|
    ensures Sorted(EntriesAt(m, ids[q]))
    ensures q + 1 < |ids| ==>
              var e, f := EntriesAt(m, ids[q]), EntriesAt(m, ids[q + 1]);
              e != [] && f != [] && e[|e| - 1].key < f[0].key
  {
    hide Flat, Entries, Chain, Distinct, LeafShape;
    SplitFlat(m, ids, q);
    var a, e, b := Flat(m, ids[..q]), EntriesAt(m, ids[q]), Flat(m, ids[q + 1..]);
    assert forall i :: 0 <= i < |e| ==> (a + e + b)[|a| + i] == e[i];
    if q + 1 < |ids| {
      FlatSuffix(m, ids, q + 1, q + 1);
      assert ids[q + 1..q + 1] == [];
      assert Flat(m, ids[q + 1..q + 1]) == [] by { EmptyFlat(m); }
      var f := EntriesAt(m, ids[q + 1]);
      assert b[0] == f[0];
      assert (a + e + b)[|a| + |e|] == b[0];
    }
  }

  lemma EmptyFlat(m: Mem)
    ensures Flat(m, []) == []
  {}

  lemma AfterEntry(m: Mem, ids: seq<Addr>, q: nat, i: nat, e: Entry)
    requires Shelf(m, ids) && q < |ids| && i < |EntriesAt(m, ids[q])| && EntriesAt(m, ids[q])[i] == e
    requires AtMost(Flat(m, ids[..q]), e.key)
    ensures i + 1 < |EntriesAt(m, ids[q])| ==> Divides(m, ids, q, i + 1, e.key)
  {
    hide Flat, Entries;
    LeafSorted(m, ids, q);
  }

  lemma NextLeaf(m: Mem, ids: seq<Addr>, q: nat, i: nat, e: Entry)
    requires Shelf(m, ids) && q < |ids| && i + 1 == |EntriesAt(m, ids[q])| && EntriesAt(m, ids[q])[i] == e
    requires AtMost(Flat(m, ids[..q]), e.key)
    ensures LeafShape(m, ids[q]) && m[ids[q]].right == if q + 1 < |ids| then Some(ids[q + 1]) else None
    ensures q + 1 < |ids| ==> Divides(m, ids, q + 1, 0, e.key)
    ensures q + 1 == |ids| ==> AtMost(Flat(m, ids), e.key)
  {
    hide Flat, Entries;
    LeafSorted(m, ids, q);
    StepRight(m, ids, q, e.key);
  }

  // ----- The pieces of Prev -----

  /** Slot k of leaf q is the first whose key is not below the given one. */
  ghost predicate StandsAt(m: Mem, ids: seq<Addr>, q: nat, k: nat, key: nat) {
    && q < |ids| && k <= |EntriesAt(m, ids[q])|
    && Below(Flat(m, ids[..q]), key) && Below(EntriesAt(m, ids[q])[..k], key)
    && AtLeast(EntriesAt(m, ids[q])[k..], key) && AtLeast(Flat(m, ids[q + 1..]), key)
  }

  lemma SidesOf(a: seq<Entry>, es: seq<Entry>, b: seq<Entry>, k: nat)
    requires Sorted(a + es + b) && k < |es|
    ensures Below(a, es[k].key) && Below(es[..k], es[k].key) && AtLeast(es[k..], es[k].key) && AtLeast(b, es[k].key)
  {
    var s := a + es + b;
    assert s[|a| + k] == es[k];
    forall i | 0 <= i < |a| ensures a[i].key < es[k].key { assert s[i] == a[i]; }
    forall i | 0 <= i < |es| ensures i < k ==> es[i].key < es[k].key { assert s[|a| + i] == es[i]; }
    forall i | 0 <= i < |es[k..]| ensures es[k].key <= es[k..][i].key { assert s[|a| + k + i] == es[k..][i]; }
    forall i | 0 <= i < |b| ensures es[k].key <= b[i].key { assert s[|a| + |es| + i] == b[i]; }
  }

  lemma AtEntry(m: Mem, ids: seq<Addr>, q: nat, k: nat, e: Entry)
    requires Shelf(m, ids) && q < |ids| && k < |EntriesAt(m, ids[q])| && EntriesAt(m, ids[q])[k] == e
    ensures StandsAt(m, ids, q, k, e.key)
  {
    hide Flat, Entries, Sorted;
    SplitFlat(m, ids, q);
    SidesOf(Flat(m, ids[..q]), EntriesAt(m, ids[q]), Flat(m, ids[q + 1..]), k);
  }

  lemma KeyInLeaf(m: Mem, ids: seq<Addr>, q: nat, k: nat, e: Entry)
    requires Shelf(m, ids) && q < |ids| && LeafShape(m, ids[q]) && e in Flat(m, ids[q..])
    requires var r := m[ids[q]];
             k <= r.num && (forall i :: 0 <= i < k ==> r.keys[i] < e.key) && (k < r.num ==> e.key <= r.keys[k])
    ensures k == m[ids[q]].num ==>
              q + 1 < |ids| && m[ids[q]].right == Some(ids[q + 1]) && e in Flat(m, ids[q + 1..])
    ensures k < m[ids[q]].num ==> StandsAt(m, ids, q, k, e.key)
  {
    assert LinkedAt(m, ids, q);
    var es := EntriesAt(m, ids[q]);
    assert forall i :: 0 <= i < |es| ==> es[i].key == m[ids[q]].keys[i];
    hide Flat, Entries, Chain;
    FlatSuffix(m, ids, q, q);
    assert ids[q..q] == [];
    EmptyFlat(m);
    var b := Flat(m, ids[q + 1..]);
    assert e in es || e in b;
    assert q + 1 == |ids| ==> ids[q + 1..] == [];
    if k == m[ids[q]].num {
      assert e !in es;
    } else {
      LeafSorted(m, ids, q);
      SplitFlat(m, ids, q);
      if e in es {
        var j :| 0 <= j < |es| && es[j] == e;
        assert j == k;
      } else {
        var j :| 0 <= j < |b| && b[j] == e;
        BetweenSlots(Flat(m, ids[..q]), es, b, k, j);
      }
      SidesOf(Flat(m, ids[..q]), es, b, k);
    }
  }

  /** Entries of a leaf come before entries right of it. */
  lemma BetweenSlots(a: seq<Entry>, es: seq<Entry>, b: seq<Entry>, k: nat, j: nat)
    requires Sorted(a + es + b) && k < |es| && j < |b|
    ensures es[k].key < b[j].key
  {
    var s := a + es + b;
    assert s[|a| + k] == es[k] && s[|a| + |es| + j] == b[j];
  }

  lemma StandsBefore(m: Mem, ids: seq<Addr>, q: nat, k: nat, key: nat)
    requires Shelf(m, ids) && StandsAt(m, ids, q, k, key)
    ensures LeafShape(m, ids[q]) && m[ids[q]].left == if q > 0 then Some(ids[q - 1]) else None
    ensures k <= |EntriesAt(m, ids[q])|
    ensures k > 0 ==> GreatestBelow(Flat(m, ids), key, EntriesAt(m, ids[q])[k - 1])
    ensures k == 0 && q > 0 ==>
              var es := EntriesAt(m, ids[q - 1]); es != [] && GreatestBelow(Flat(m, ids), key, es[|es| - 1])
    ensures k == 0 && q == 0 ==> AtLeast(Flat(m, ids), key)
  {
    assert LinkedAt(m, ids, q) && LeafShape(m, ids[q]);
    hide Flat, Entries, Chain, Sorted, GreatestBelow, LeafShape, LinkedAt;
    if k > 0 {
      SplitFlat(m, ids, q);
      var a, es, b := Flat(m, ids[..q]), EntriesAt(m, ids[q]), Flat(m, ids[q + 1..]);
      assert es[..k][k - 1] == es[k - 1];
      CutBelow(a, es, b, k - 1, key);
    } else if q > 0 {
      LeftOf(m, ids, q, key);
    } else {
      SplitFlat(m, ids, q);
      assert ids[..0] == [];
      EmptyFlat(m);
      assert EntriesAt(m, ids[q])[0..] == EntriesAt(m, ids[q]);
    }
  }

  lemma FromLeaf(m: Mem, ids: seq<Addr>, q: nat)
    requires q < |ids|
    ensures Flat(m, ids[q..]) == EntriesAt(m, ids[q]) + Flat(m, ids[q + 1..])
  {
    assert ids[q..][1..] == ids[q + 1..];
  }

  lemma LeftOf(m: Mem, ids: seq<Addr>, q: nat, key: nat)
    requires Shelf(m, ids) && 0 < q < |ids| && Below(Flat(m, ids[..q]), key)
    requires AtLeast(EntriesAt(m, ids[q])[0..], key) && AtLeast(Flat(m, ids[q + 1..]), key)
    ensures var es := EntriesAt(m, ids[q - 1]); es != [] && GreatestBelow(Flat(m, ids), key, es[|es| - 1])
  {
    hide Flat, Entries, Chain, Sorted, GreatestBelow, LeafShape;
    var p := q - 1;
    var es, a := EntriesAt(m, ids[p]), Flat(m, ids[..p]);
    SplitFlat(m, ids, p);
    FromLeaf(m, ids, q);
    assert EntriesAt(m, ids[q])[0..] == EntriesAt(m, ids[q]);
    assert AtLeast(Flat(m, ids[p + 1..]), key);
    assert Flat(m, ids[..p + 1])[|a| + |es| - 1] == es[|es| - 1];
    assert es[|es| - 1 + 1..] == [];
    CutBelow(a, es, Flat(m, ids[p + 1..]), |es| - 1, key);
  }

  // ----- The pieces of Seek -----

  lemma SeekInLeaf(m: Mem, ids: seq<Addr>, q: nat, k: nat, target: nat)
    requires Shelf(m, ids) && q < |ids| && LeafShape(m, ids[q])
    requires Below(Flat(m, ids[..q]), target) && Beyond(Flat(m, ids[q + 1..]), target)
    requires var r := m[ids[q]];
             k <= r.num && (forall i :: 0 <= i < k ==> r.keys[i] < target) && (k < r.num ==> target <= r.keys[k])
    ensures |EntriesAt(m, ids[q])| == m[ids[q]].num
    ensures k < m[ids[q]].num ==> FirstFrom(Flat(m, ids), target, EntriesAt(m, ids[q])[k])
    ensures k == m[ids[q]].num ==>
              m[ids[q]].right == (if q + 1 < |ids| then Some(ids[q + 1]) else None)
              && (if q + 1 < |ids| then EntriesAt(m, ids[q + 1]) != []
                                        && FirstFrom(Flat(m, ids), target, EntriesAt(m, ids[q + 1])[0])
                  else Below(Flat(m, ids), target))
  {
    assert LinkedAt(m, ids, q);
    var es := EntriesAt(m, ids[q]);
    assert forall i :: 0 <= i < |es| ==> es[i].key == m[ids[q]].keys[i];
    assert Below(es[..k], target);
    hide Flat, Entries, Chain, Sorted, FirstFrom, LeafShape, LinkedAt;
    if k < m[ids[q]].num {
      SplitFlat(m, ids, q);
      CutFrom(Flat(m, ids[..q]), es, Flat(m, ids[q + 1..]), k, target);
    } else {
      assert es[..k] == es;
      RightOf(m, ids, q, target);
    }
  }

  lemma RightOf(m: Mem, ids: seq<Addr>, q: nat, target: nat)
    requires Shelf(m, ids) && q < |ids| && Below(Flat(m, ids[..q]), target) && Below(EntriesAt(m, ids[q]), target)
    requires Beyond(Flat(m, ids[q + 1..]), target)
    ensures if q + 1 < |ids| then EntriesAt(m, ids[q + 1]) != []
                                  && FirstFrom(Flat(m, ids), target, EntriesAt(m, ids[q + 1])[0])
            else Below(Flat(m, ids), target)
  {
    hide Flat, Entries, Chain, Sorted, FirstFrom, LeafShape;
    SplitFlat(m, ids, q);
    assert Below(Flat(m, ids[..q + 1]), target);
    if q + 1 < |ids| {
      SplitFlat(m, ids, q + 1);
      FromLeaf(m, ids, q + 1);
      var fs := EntriesAt(m, ids[q + 1]);
      assert Flat(m, ids[q + 1..])[0] == fs[0];
      CutFrom(Flat(m, ids[..q + 1]), fs, Flat(m, ids[q + 1 + 1..]), 0, target);
    } else {
      assert ids[..q + 1] == ids;
    }
  }

  lemma NotPlaced(m: Mem, ids: seq<Addr>, n: Addr, seqno: nat, index: int, e: Entry)
    requires Flat(m, ids) == [] && |ids| == 1
    ensures !Placed(m, ids, n, seqno, index, e)
  {
    assert ids[0..] == ids;
  }

  lemma FirstEntry(m: Mem, ids: seq<Addr>)
    requires Shelf(m, ids)
    ensures Flat(m, ids) != [] <==> EntriesAt(m, ids[0]) != []
    ensures Flat(m, ids) != [] ==> Flat(m, ids)[0] == EntriesAt(m, ids[0])[0]
    ensures Flat(m, ids) == [] ==> |ids| == 1
  {
    if |ids| == 1 {
      assert ids[1..] == [];
    }
  }

  // ----- SeekToFirst on an empty tree -----

  /**
    On an empty tree SeekToFirst keeps pointing at the empty leaf.  Once another
    thread has inserted a key the iterator counts as valid, yet the key it
    reports is whatever the unused slot held.
  */
  method StaleAfterEmptySeek(junk: seq<nat>, inserted: nat, dummy: Value) returns (t: BPlusTree, it: Iterator)
    requires |junk| == SLOTS && inserted < KEY_LIMIT && junk[0] != inserted
    ensures it.tree == t && t.Valid() && it.IsValid()
    ensures it.key == junk[0] && !Has(t.Contents(), it.key)
  {
    hide Good, Chain, Apart, Flat, Took, LeafIds, Placed, ToMap, Sorted;
    t := new BPlusTree(junk);
    it := new Iterator(t);
    it.SeekToFirst();
    ghost var m := t.mem;
    assert !Has(t.Contents(), inserted);
    var val, found, p, sib := t.GetSec(inserted, dummy);
    FirstGain(m, t.mem, t.Leaves(), inserted, dummy, p, sib, junk[0]);
    ValidShelf(t.mem, t.tree, t.depth);
    FirstEntry(t.mem, t.Leaves());
    EntryCount(t.mem, t.Leaves(), 0);
  }

  lemma FirstGain(m: Mem, m': Mem, ids: seq<Addr>, key: nat, v: Value, p: nat, sib: Option<Addr>, other: nat)
    requires Took(m, [0], m', ids, key, v, p, sib) && Flat(m, [0]) == [] && other != key
    ensures ids != [] && ids[0] == 0 && Flat(m', ids) != [] && !Has(Flat(m', ids), other)
  {
    hide LeafStep;
    var k :| Inserts([], k, Flat(m', ids), key, v);
    assert Flat(m', ids) == [Entry(key, v)];
  }
}
