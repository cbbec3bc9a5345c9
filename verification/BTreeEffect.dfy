/** What an insertion does to the list of leaves and to their entries. */
module BTreeEffect {
  import opened Common
  import opened BTreeModel
  import opened BTreeLemmas

  /** Leaf number p of the list took the entry, and the entries of the list gained exactly it. */
  ghost predicate Took(m: Mem, ids: seq<Addr>, m': Mem, ids': seq<Addr>, key: nat, v: Value, p: nat, sib: Option<Addr>) {
    && p < |ids| && ids' == NewIds(ids, p, sib)
    && LeafStep(m, m', ids[p], sib, key, v)
    && GainsEntry(Flat(m, ids), Flat(m', ids'), key, v)
  }

  ghost predicate GainsEntry(s: seq<Entry>, s': seq<Entry>, key: nat, v: Value) {
    exists k :: Inserts(s, k, s', key, v)
  }

  lemma InsertsMiddle(a: seq<Entry>, e: seq<Entry>, b: seq<Entry>, k: nat, e': seq<Entry>, key: nat, v: Value)
    requires Inserts(e, k, e', key, v)
    requires forall i :: 0 <= i < |a| ==> a[i].key < key
    requires forall i :: 0 <= i < |b| ==> key < b[i].key
    ensures Inserts(a + e + b, |a| + k, a + e' + b, key, v)
  {
    var s := a + e + b;
    assert s[..|a| + k] == a + e[..k];
    assert s[|a| + k..] == e[k..] + b;
    assert a + e' + b == a + e[..k] + [Entry(key, v)] + (e[k..] + b);
  }

  /** A gain in the middle of a list is a gain of the list. */
  lemma GainsMiddle(a: seq<Entry>, e: seq<Entry>, b: seq<Entry>, e': seq<Entry>, key: nat, v: Value)
    requires GainsEntry(e, e', key, v)
    requires forall i :: 0 <= i < |a| ==> a[i].key < key
    requires forall i :: 0 <= i < |b| ==> key < b[i].key
    ensures GainsEntry(a + e + b, a + e' + b, key, v)
  {
    var k :| Inserts(e, k, e', key, v);
    InsertsMiddle(a, e, b, k, e', key, v);
  }

  // ----- Rows -----

  lemma NewRowParts(ts: seq<Tree>, k: nat, us: seq<Tree>)
    requires k < |ts|
    ensures LeafIdsOf(NewRow(ts, k, us)) == LeafIdsOf(ts[..k]) + LeafIdsOf(us) + LeafIdsOf(ts[k + 1..])
  {
    LeafIdsOfAppend(ts[..k] + us, ts[k + 1..]);
    LeafIdsOfAppend(ts[..k], us);
  }

  lemma RowParts(ts: seq<Tree>, k: nat)
    requires k < |ts|
    ensures LeafIdsOf(ts) == LeafIdsOf(ts[..k]) + LeafIds(ts[k]) + LeafIdsOf(ts[k + 1..])
  {
    hide LeafIdsOf, LeafIds;
    assert NewRow(ts, k, [ts[k]]) == ts;
    NewRowParts(ts, k, [ts[k]]);
    LeafIdsOfOne(ts[k]);
  }

  lemma FlatParts(m: Mem, a: seq<Addr>, b: seq<Addr>, c: seq<Addr>)
    ensures Flat(m, a + b + c) == Flat(m, a) + Flat(m, b) + Flat(m, c)
  {
    FlatAppend(m, a + b, c);
    FlatAppend(m, a, b);
  }

  /** In a row, everything left of the covering child is below the key, everything right of it above. */
  lemma RowSides(m: Mem, keys: seq<nat>, ts: seq<Tree>, d: nat, lo: nat, hi: nat, k: nat, key: nat)
    requires Row(m, keys, ts, d, lo, hi) && k < |ts|
    requires Sep(keys, lo, hi, k) <= key < Sep(keys, lo, hi, k + 1)
    ensures var a := Flat(m, LeafIdsOf(ts[..k])); forall i :: 0 <= i < |a| ==> a[i].key < key
    ensures var b := Flat(m, LeafIdsOf(ts[k + 1..])); forall i :: 0 <= i < |b| ==> key < b[i].key
  {
    hide Good;
    if k > 0 {
      RowCut(m, keys, ts, d, lo, hi, k - 1);
      RowFlat(m, keys[..k - 1], ts[..k], d, lo, keys[k - 1]);
    }
    if k < |keys| {
      RowCut(m, keys, ts, d, lo, hi, k);
      RowFlat(m, keys[k + 1..], ts[k + 1..], d, keys[k], hi);
    }
  }

  lemma RestFlat(m: Mem, m': Mem, ts: seq<Tree>, k: nat, rest: seq<Tree>, from: nat)
    requires ApartAll(ts) && k < |ts| && |m| <= |m'| && from + |rest| <= |ts| && rest == ts[from..from + |rest|]
    requires k < from || from + |rest| <= k
    requires forall i, b: Addr :: 0 <= i < |ts| && Owns(ts[i], b) ==> b < |m|
    requires forall a :: 0 <= a < |m| && !Owns(ts[k], a) ==> Alike(m[a], m'[a])
    ensures Flat(m', LeafIdsOf(rest)) == Flat(m, LeafIdsOf(rest))
  {
    hide Alike, Apart;
    var ids := LeafIdsOf(rest);
    OwnLeavesAll(rest);
    forall i | 0 <= i < |ids| ensures EntriesAt(m', ids[i]) == EntriesAt(m, ids[i]) {
      assert OneOwns(rest, ids[i]);
      var j :| 0 <= j < |rest| && Owns(rest[j], ids[i]);
      assert Owns(ts[from + j], ids[i]);
      if from + j < k { assert Disjoint(ts[from + j], ts[k]); } else { assert Disjoint(ts[k], ts[from + j]); }
      AlikeEntries(m, m', ids[i]);
    }
    FlatFrame(m, m', ids);
  }

  lemma NewIdsMiddle(a: seq<Addr>, e: seq<Addr>, b: seq<Addr>, p: nat, sib: Option<Addr>)
    requires p < |e|
    ensures |a| + p < |a + e + b| && (a + e + b)[|a| + p] == e[p]
    ensures NewIds(a + e + b, |a| + p, sib) == a + NewIds(e, p, sib) + b
  {
    var w := a + e + b;
    assert w[..|a| + p + 1] == a + e[..p + 1];
    assert w[|a| + p + 1..] == e[p + 1..] + b;
  }

  /** An entry taken by one child is taken by the row. */
  lemma RowTook(m: Mem, m': Mem, keys: seq<nat>, ts: seq<Tree>, d: nat, lo: nat, hi: nat, k: nat,
                us: seq<Tree>, key: nat, v: Value, p: nat, sib: Option<Addr>)
    requires Row(m, keys, ts, d, lo, hi) && k < |ts| && ApartAll(ts)
    requires Sep(keys, lo, hi, k) <= key < Sep(keys, lo, hi, k + 1)
    requires |m| <= |m'| && forall a :: 0 <= a < |m| && !Owns(ts[k], a) ==> Alike(m[a], m'[a])
    requires forall i, b: Addr :: 0 <= i < |ts| && Owns(ts[i], b) ==> b < |m|
    requires Took(m, LeafIds(ts[k]), m', LeafIdsOf(us), key, v, p, sib)
    ensures Took(m, LeafIdsOf(ts), m', LeafIdsOf(NewRow(ts, k, us)), key, v, |LeafIdsOf(ts[..k])| + p, sib)
  {
    hide Good, Row, Alike, LeafStep, GainsEntry, LeafIdsOf, LeafIds, Flat, NewRow, NewIds, ApartAll;
    var a, e, b, e' := LeafIdsOf(ts[..k]), LeafIds(ts[k]), LeafIdsOf(ts[k + 1..]), LeafIdsOf(us);
    RowParts(ts, k);
    NewRowParts(ts, k, us);
    NewIdsMiddle(a, e, b, p, sib);
    FlatParts(m, a, e, b);
    FlatParts(m', a, e', b);
    RestFlat(m, m', ts, k, ts[..k], 0);
    RestFlat(m, m', ts, k, ts[k + 1..], k + 1);
    RowSides(m, keys, ts, d, lo, hi, k, key);
    GainsMiddle(Flat(m, a), Flat(m, e), Flat(m, b), Flat(m', e'), key, v);
  }

  lemma SameAt(m: Mem, m': Mem, a: Addr)
    requires a < |m| <= |m'| && (m'[a] == m[a] || (m[a].Inner? && m'[a].Inner?))
    ensures EntriesAt(m', a) == EntriesAt(m, a)
  {}

  /** Later writes to inner nodes do not disturb what was taken. */
  lemma TookFrame(m: Mem, ids: seq<Addr>, m': Mem, m'': Mem, ids': seq<Addr>, key: nat, v: Value, p: nat,
                  sib: Option<Addr>)
    requires Took(m, ids, m', ids', key, v, p, sib) && |m'| <= |m''|
    requires forall a :: 0 <= a < |m'| ==> m''[a] == m'[a] || (m'[a].Inner? && m''[a].Inner?)
    requires forall i :: 0 <= i < |ids'| ==> ids'[i] < |m'|
    ensures Took(m, ids, m'', ids', key, v, p, sib)
  {
    hide Entries, Inserts;
    forall i | 0 <= i < |ids'| ensures EntriesAt(m'', ids'[i]) == EntriesAt(m', ids'[i]) {
      SameAt(m', m'', ids'[i]);
    }
    FlatFrame(m', m'', ids');
  }

  // ----- The whole tree -----

  /** The chain of leaves is relinked around a new leaf. */
  lemma ChainKept(m: Mem, ids: seq<Addr>, m': Mem, ids': seq<Addr>, key: nat, v: Value, p: nat, sib: Option<Addr>)
    requires Chain(m, ids) && Distinct(ids) && Took(m, ids, m', ids', key, v, p, sib)
    ensures Chain(m', ids')
  {
    hide Flat, GainsEntry, NewIds;
    assert |ids'| > 0 by { NewIdsNonEmpty(ids, p, sib); }
    forall i | 0 <= i < |ids'| ensures LinkedAt(m', ids', i) {
      ChainKeptAt(m, ids, m', ids', key, v, p, sib, i);
    }
  }

  lemma NewIdsNonEmpty(ids: seq<Addr>, p: nat, sib: Option<Addr>)
    requires p < |ids|
    ensures |NewIds(ids, p, sib)| > 0
  {}

  lemma NewIdsAt(ids: seq<Addr>, p: nat, n: Addr, i: nat)
    requires p < |ids| && i <= |ids|
    ensures |NewIds(ids, p, Some(n))| == |ids| + 1
    ensures NewIds(ids, p, Some(n))[i] == if i <= p then ids[i] else if i == p + 1 then n else ids[i - 1]
  {}

  lemma ChainKeptAt(m: Mem, ids: seq<Addr>, m': Mem, ids': seq<Addr>, key: nat, v: Value, p: nat, sib: Option<Addr>,
                    i: nat)
    requires Chain(m, ids) && Distinct(ids) && p < |ids| && ids' == NewIds(ids, p, sib) && i < |ids'|
    requires LeafStep(m, m', ids[p], sib, key, v)
    ensures LinkedAt(m', ids', i)
  {
    hide Entries, Inserts;
    var l := ids[p];
    assert LinkedAt(m, ids, p);
    if sib.None? {
      assert LinkedAt(m, ids, i) && (i == p || ids[i] != l);
    } else {
      hide NewIds;
      NewIdsAt(ids, p, sib.value, i);
      if i > 0 { NewIdsAt(ids, p, sib.value, i - 1); }
      if i < |ids| { NewIdsAt(ids, p, sib.value, i + 1); }
      if i > p + 1 {
        assert LinkedAt(m, ids, i - 1);
        assert l != ids[i - 1] && (i > p + 2 ==> ids[p + 1] != ids[i - 1]);
      } else if i < p {
        assert LinkedAt(m, ids, i);
        assert ids[i] != l && (p + 1 < |ids| ==> ids[i] != ids[p + 1]);
      }
    }
  }

  /** Gaining an entry is updating a map. */
  function ToMap(s: seq<Entry>): map<nat, Value> {
    if s == [] then map[] else ToMap(s[..|s| - 1])[s[|s| - 1].key := s[|s| - 1].val]
  }

  lemma {:induction false} ToMapHas(s: seq<Entry>, key: nat)
    requires Sorted(s)
    ensures key in ToMap(s) <==> Has(s, key)
    ensures forall i :: 0 <= i < |s| ==> s[i].key in ToMap(s) && ToMap(s)[s[i].key] == s[i].val
    decreases |s|
  {
    if s != [] {
      ToMapHas(s[..|s| - 1], key);
    }
  }

  lemma GainIsUpdate(s: seq<Entry>, s': seq<Entry>, key: nat, v: Value)
    requires Sorted(s) && GainsEntry(s, s', key, v)
    ensures Sorted(s') && !Has(s, key) && ToMap(s') == ToMap(s)[key := v]
  {
    var k :| Inserts(s, k, s', key, v);
    InsertedAt(s, k, s', key, v);
    hide ToMap, Inserts, Has, Sorted;
    var d := ToMap(s)[key := v];
    forall x ensures x in ToMap(s') <==> x in d {
      InsertedHas(s, k, s', key, v, x);
      ToMapHas(s, x);
      ToMapHas(s', x);
    }
    forall x | x in d ensures ToMap(s')[x] == d[x] {
      InsertedValue(s, k, s', key, v, x);
    }
  }

  lemma InsertedValue(s: seq<Entry>, k: nat, s': seq<Entry>, key: nat, v: Value, x: nat)
    requires Sorted(s) && Sorted(s') && Inserts(s, k, s', key, v) && x in ToMap(s)[key := v]
    ensures x in ToMap(s') && ToMap(s')[x] == ToMap(s)[key := v][x]
  {
    InsertedAt(s, k, s', key, v);
    hide ToMap, Inserts;
    ToMapHas(s, x);
    ToMapHas(s', x);
    if x == key {
      assert s'[k].key == x;
    } else {
      var i :| 0 <= i < |s| && s[i].key == x;
      assert s'[if i < k then i else i + 1] == s[i];
    }
  }

  lemma InsertedAt(s: seq<Entry>, k: nat, s': seq<Entry>, key: nat, v: Value)
    requires Sorted(s) && Inserts(s, k, s', key, v)
    ensures Sorted(s') && !Has(s, key) && |s'| == |s| + 1
    ensures forall i :: 0 <= i < |s'| ==> s'[i] == if i < k then s[i] else if i == k then Entry(key, v) else s[i - 1]
  {}

  lemma InsertedHas(s: seq<Entry>, k: nat, s': seq<Entry>, key: nat, v: Value, x: nat)
    requires Sorted(s) && Inserts(s, k, s', key, v)
    ensures Has(s', x) <==> x == key || Has(s, x)
  {
    InsertedAt(s, k, s', key, v);
    if Has(s, x) {
      var i :| 0 <= i < |s| && s[i].key == x;
      assert s'[if i < k then i else i + 1].key == x;
    }
    if Has(s', x) && x != key {
      var i :| 0 <= i < |s'| && s'[i].key == x;
      assert s[if i < k then i else i - 1].key == x;
    }
    assert s'[k].key == key;
  }
}
