/** Trees keep their shape under local changes; what the entries of a tree look like. */
module BTreeLemmas {
  import opened Common
  import opened BTreeModel

  // ----- Lists of leaves and their entries -----

  lemma {:induction false} LeafIdsOfAppend(a: seq<Tree>, b: seq<Tree>)
    ensures LeafIdsOf(a + b) == LeafIdsOf(a) + LeafIdsOf(b)
  {
    if a == [] {
      assert a + b == b;
    } else {
      LeafIdsOfAppend(a[1..], b);
      assert (a + b)[1..] == a[1..] + b;
    }
  }

  lemma LeafIdsOfOne(t: Tree)
    ensures LeafIdsOf([t]) == LeafIds(t)
  {
    assert [t][1..] == [];
  }

  lemma {:induction false} FlatAppend(m: Mem, a: seq<Addr>, b: seq<Addr>)
    ensures Flat(m, a + b) == Flat(m, a) + Flat(m, b)
  {
    hide EntriesAt;
    if a == [] {
      assert a + b == b;
    } else {
      FlatAppend(m, a[1..], b);
      assert (a + b)[1..] == a[1..] + b;
      Assoc(EntriesAt(m, a[0]), Flat(m, a[1..]), Flat(m, b));
    }
  }

  lemma {:induction false} FlatFrame(m: Mem, m': Mem, ids: seq<Addr>)
    requires forall i :: 0 <= i < |ids| ==> EntriesAt(m', ids[i]) == EntriesAt(m, ids[i])
    ensures Flat(m', ids) == Flat(m, ids)
  {
    if ids != [] {
      FlatFrame(m, m', ids[1..]);
    }
  }

  lemma AlikeEntries(m: Mem, m': Mem, a: Addr)
    requires a < |m| <= |m'| && Alike(m[a], m'[a])
    ensures EntriesAt(m', a) == EntriesAt(m, a)
  {}

  // ----- Ownership -----

  lemma {:induction false} OwnsLeaves(t: Tree)
    ensures forall i :: 0 <= i < |LeafIds(t)| ==> Owns(t, LeafIds(t)[i])
    decreases t, 0
  {
    if t.Node? {
      OwnLeavesAll(t.subs);
    }
  }

  lemma {:induction false} OwnLeavesAll(ts: seq<Tree>)
    ensures forall i :: 0 <= i < |LeafIdsOf(ts)| ==> OneOwns(ts, LeafIdsOf(ts)[i])
    decreases ts
  {
    if ts != [] {
      OwnsLeaves(ts[0]);
      OwnLeavesAll(ts[1..]);
      forall i | 0 <= i < |LeafIdsOf(ts)| ensures OneOwns(ts, LeafIdsOf(ts)[i]) {
        var n := |LeafIds(ts[0])|;
        if i < n {
          assert Owns(ts[0], LeafIdsOf(ts)[i]);
        } else {
          var a := LeafIdsOf(ts[1..])[i - n];
          assert OneOwns(ts[1..], a);
          var j :| 0 <= j < |ts[1..]| && Owns(ts[1..][j], a);
          assert Owns(ts[j + 1], a);
        }
      }
    }
  }

  lemma {:induction false} LeafIdsDistinct(t: Tree)
    requires Apart(t)
    ensures Distinct(LeafIds(t))
    decreases t, 0
  {
    if t.Node? {
      LeafIdsOfDistinct(t.subs);
    }
  }

  lemma {:induction false} LeafIdsOfDistinct(ts: seq<Tree>)
    requires ApartAll(ts)
    ensures Distinct(LeafIdsOf(ts))
    decreases ts
  {
    if ts != [] {
      var a, b := LeafIds(ts[0]), LeafIdsOf(ts[1..]);
      LeafIdsDistinct(ts[0]);
      LeafIdsOfDistinct(ts[1..]);
      OwnsLeaves(ts[0]);
      OwnLeavesAll(ts[1..]);
      forall i, j | 0 <= i < |a| && 0 <= j < |b| ensures a[i] != b[j] {
        assert OneOwns(ts[1..], b[j]);
        var k :| 0 <= k < |ts[1..]| && Owns(ts[1..][k], b[j]);
        assert Disjoint(ts[0], ts[k + 1]);
      }
    }
  }

  // ----- Frames -----

  lemma {:induction false} GoodFrame(m: Mem, m': Mem, t: Tree, d: nat, lo: nat, hi: nat, top: bool)
    requires Good(m, t, d, lo, hi, top) && |m| <= |m'|
    requires forall a :: 0 <= a < |m| && Owns(t, a) ==> Alike(m[a], m'[a])
    ensures Good(m', t, d, lo, hi, top)
    decreases d
  {
    assert Owns(t, t.id);
    if d > 0 {
      var keys := m[t.id].seps[..m[t.id].nseps];
      forall i | 0 <= i < |t.subs|
        ensures Good(m', t.subs[i], d - 1, Sep(keys, lo, hi, i), Sep(keys, lo, hi, i + 1), false)
      {
        forall a | 0 <= a < |m| && Owns(t.subs[i], a) ensures Alike(m[a], m'[a]) {
          assert OneOwns(t.subs, a);
        }
        GoodFrame(m, m', t.subs[i], d - 1, Sep(keys, lo, hi, i), Sep(keys, lo, hi, i + 1), false);
      }
    } else {
      assert Entries(m'[t.id]) == Entries(m[t.id]);
    }
  }

  lemma {:induction false} GoodOwns(m: Mem, t: Tree, d: nat, lo: nat, hi: nat, top: bool, a: Addr)
    requires Good(m, t, d, lo, hi, top) && Owns(t, a)
    ensures a < |m|
    decreases d
  {
    if a != t.id {
      var i :| 0 <= i < |t.subs| && Owns(t.subs[i], a);
      var keys := m[t.id].seps[..m[t.id].nseps];
      GoodOwns(m, t.subs[i], d - 1, Sep(keys, lo, hi, i), Sep(keys, lo, hi, i + 1), false, a);
    }
  }

  // ----- The entries of a good tree -----

  lemma JoinSorted(a: seq<Entry>, b: seq<Entry>, lo: nat, mid: nat, hi: nat)
    requires Sorted(a) && Sorted(b) && Within(a, lo, mid) && Within(b, mid, hi) && lo <= mid <= hi
    ensures Sorted(a + b) && Within(a + b, lo, hi)
  {}

  lemma {:induction false} GoodFlat(m: Mem, t: Tree, d: nat, lo: nat, hi: nat, top: bool)
    requires Good(m, t, d, lo, hi, top)
    ensures Sorted(Flat(m, LeafIds(t))) && Within(Flat(m, LeafIds(t)), lo, hi)
    decreases d, 1, 0
  {
    if d == 0 {
      assert [t.id][1..] == [];
      assert Flat(m, [t.id]) == Entries(m[t.id]) + [];
    } else {
      RowFlat(m, m[t.id].seps[..m[t.id].nseps], t.subs, d - 1, lo, hi);
    }
  }

  lemma {:induction false} RowFlat(m: Mem, keys: seq<nat>, ts: seq<Tree>, d: nat, lo: nat, hi: nat)
    requires Row(m, keys, ts, d, lo, hi)
    ensures lo < hi && Sorted(Flat(m, LeafIdsOf(ts))) && Within(Flat(m, LeafIdsOf(ts)), lo, hi)
    decreases d, 2, |ts|
  {
    GoodFlat(m, ts[0], d, Sep(keys, lo, hi, 0), Sep(keys, lo, hi, 1), false);
    FlatAppend(m, LeafIds(ts[0]), LeafIdsOf(ts[1..]));
    if |ts| == 1 {
      assert LeafIds(ts[0]) + [] == LeafIds(ts[0]);
    } else {
      RowTail(m, keys, ts, d, lo, hi);
      RowFlat(m, keys[1..], ts[1..], d, keys[0], hi);
      assert Sep(keys, lo, hi, 1) == keys[0];
      JoinSorted(Flat(m, LeafIds(ts[0])), Flat(m, LeafIdsOf(ts[1..])), lo, keys[0], hi);
    }
  }

  lemma RowTail(m: Mem, keys: seq<nat>, ts: seq<Tree>, d: nat, lo: nat, hi: nat)
    requires Row(m, keys, ts, d, lo, hi) && |ts| > 1
    ensures Row(m, keys[1..], ts[1..], d, keys[0], hi)
  {
    RowCut(m, keys, ts, d, lo, hi, 0);
  }

  /** A row falls into two at any of its keys. */
  lemma RowCut(m: Mem, keys: seq<nat>, ts: seq<Tree>, d: nat, lo: nat, hi: nat, c: nat)
    requires Row(m, keys, ts, d, lo, hi) && c < |keys|
    ensures lo < keys[c] < hi
    ensures Row(m, keys[..c], ts[..c + 1], d, lo, keys[c])
    ensures Row(m, keys[c + 1..], ts[c + 1..], d, keys[c], hi)
  {
    hide Good;
    var l, r := keys[..c], keys[c + 1..];
    SepIncreasing(m, keys, ts, d, lo, hi, 0, c + 1);
    SepIncreasing(m, keys, ts, d, lo, hi, c + 1, |keys| + 1);
    forall i | 0 <= i <= c + 1 ensures Sep(l, lo, keys[c], i) == Sep(keys, lo, hi, i) {}
    forall i | 0 <= i <= |keys| - c ensures Sep(r, keys[c], hi, i) == Sep(keys, lo, hi, i + c + 1) {}
    forall i | 0 <= i < |ts[c + 1..]|
      ensures Good(m, ts[c + 1..][i], d, Sep(r, keys[c], hi, i), Sep(r, keys[c], hi, i + 1), false)
    {
      assert Good(m, ts[i + c + 1], d, Sep(keys, lo, hi, i + c + 1), Sep(keys, lo, hi, i + c + 1 + 1), false);
    }
    forall i | 0 <= i <= |r| ensures Sep(r, keys[c], hi, i) < Sep(r, keys[c], hi, i + 1) {
      assert Sep(keys, lo, hi, i + c + 1) < Sep(keys, lo, hi, i + c + 1 + 1);
    }
  }

  lemma {:induction false} SepIncreasing(m: Mem, keys: seq<nat>, ts: seq<Tree>, d: nat, lo: nat, hi: nat, i: nat, j: nat)
    requires Row(m, keys, ts, d, lo, hi) && i < j <= |keys| + 1
    ensures Sep(keys, lo, hi, i) < Sep(keys, lo, hi, j)
    decreases j
  {
    hide Good;
    if i + 1 < j {
      SepIncreasing(m, keys, ts, d, lo, hi, i, j - 1);
      assert Sep(keys, lo, hi, j - 1) < Sep(keys, lo, hi, j - 1 + 1);
    }
  }

  // ----- One subtree of a row is replaced -----

  function NewRow(ts: seq<Tree>, k: nat, us: seq<Tree>): seq<Tree>
    requires k < |ts|
  {
    ts[..k] + us + ts[k + 1..]
  }

  function NewKeys(keys: seq<nat>, k: nat, us: seq<Tree>, mid: nat): seq<nat>
    requires k <= |keys|
  {
    if |us| == 1 then keys else keys[..k] + [mid] + keys[k..]
  }

  lemma NewSeps(keys: seq<nat>, k: nat, us: seq<Tree>, mid: nat, lo: nat, hi: nat, i: nat)
    requires k <= |keys| && 1 <= |us| <= 2 && i <= |keys| + |us|
    ensures Sep(NewKeys(keys, k, us, mid), lo, hi, i)
            == if |us| == 1 || i <= k then Sep(keys, lo, hi, i)
               else if i == k + 1 then mid else Sep(keys, lo, hi, i - 1)
  {}

  lemma RowReplaced(m: Mem, m': Mem, keys: seq<nat>, ts: seq<Tree>, d: nat, lo: nat, hi: nat, k: nat,
                    us: seq<Tree>, mid: nat)
    requires Row(m, keys, ts, d, lo, hi) && k < |ts| && ApartAll(ts)
    requires Became(m, ts[k], d, Sep(keys, lo, hi, k), Sep(keys, lo, hi, k + 1), false, m', us, mid)
    ensures Row(m', NewKeys(keys, k, us, mid), NewRow(ts, k, us), d, lo, hi)
  {
    hide Good;
    var keys', ts' := NewKeys(keys, k, us, mid), NewRow(ts, k, us);
    forall i | 0 <= i <= |keys'| ensures Sep(keys', lo, hi, i) < Sep(keys', lo, hi, i + 1) {
      NewSeps(keys, k, us, mid, lo, hi, i);
      NewSeps(keys, k, us, mid, lo, hi, i + 1);
      if i < k {
        assert Sep(keys, lo, hi, i) < Sep(keys, lo, hi, i + 1);
      } else if i >= k + |us| {
        var j := i - |us| + 1;
        assert Sep(keys, lo, hi, j) < Sep(keys, lo, hi, j + 1);
      }
    }
    forall i | 0 <= i < |ts'| ensures Good(m', ts'[i], d, Sep(keys', lo, hi, i), Sep(keys', lo, hi, i + 1), false) {
      NewSeps(keys, k, us, mid, lo, hi, i);
      NewSeps(keys, k, us, mid, lo, hi, i + 1);
      if i < k {
        SiblingKept(m, m', ts, d, k, i, us, mid, Sep(keys, lo, hi, i), Sep(keys, lo, hi, i + 1),
                    Sep(keys, lo, hi, k), Sep(keys, lo, hi, k + 1));
      } else if i >= k + |us| {
        var j := i - |us| + 1;
        SiblingKept(m, m', ts, d, k, j, us, mid, Sep(keys, lo, hi, j), Sep(keys, lo, hi, j + 1),
                    Sep(keys, lo, hi, k), Sep(keys, lo, hi, k + 1));
      }
    }
  }

  lemma SiblingKept(m: Mem, m': Mem, ts: seq<Tree>, d: nat, k: nat, i: nat, us: seq<Tree>, mid: nat,
                    lo: nat, hi: nat, lok: nat, hik: nat)
    requires ApartAll(ts) && k < |ts| && i < |ts| && i != k && Good(m, ts[i], d, lo, hi, false)
    requires Became(m, ts[k], d, lok, hik, false, m', us, mid)
    ensures Good(m', ts[i], d, lo, hi, false)
  {
    hide Good, Apart;
    assert Disjoint(ts[k], ts[i]) || Disjoint(ts[i], ts[k]);
    forall a | 0 <= a < |m| && Owns(ts[i], a) ensures Alike(m[a], m'[a]) {
      assert !Owns(ts[k], a);
    }
    GoodFrame(m, m', ts[i], d, lo, hi, false);
  }

  /** Whatever a row owns after a replacement it owned before, or is new. */
  lemma ReplacedOwns(m: Mem, m': Mem, ts: seq<Tree>, k: nat, us: seq<Tree>, a: Addr)
    requires k < |ts|
    requires forall i, b: Addr :: 0 <= i < |us| && Owns(us[i], b) ==> Owns(ts[k], b) || |m| <= b < |m'|
    requires OneOwns(NewRow(ts, k, us), a)
    ensures OneOwns(ts, a) || |m| <= a < |m'|
  {
    var ts' := NewRow(ts, k, us);
    var i :| 0 <= i < |ts'| && Owns(ts'[i], a);
    var o := Origin(k, |us|, i);
    assert Owns(ts[o], a) || |m| <= a < |m'| by {
      if k <= i < k + |us| {
        assert ts'[i] == us[i - k] && Owns(us[i - k], a);
      }
    }
  }

  /** The old position of the tree now at position i. */
  function Origin(k: nat, n: nat, i: nat): nat {
    if i < k then i else if i < k + n then k else i - n + 1
  }

  lemma NewRowAt(ts: seq<Tree>, k: nat, us: seq<Tree>, i: nat)
    requires k < |ts| && i < |NewRow(ts, k, us)|
    ensures NewRow(ts, k, us)[i] == if k <= i < k + |us| then us[i - k] else ts[Origin(k, |us|, i)]
  {}

  lemma ReplacedApart(m: Mem, m': Mem, ts: seq<Tree>, k: nat, us: seq<Tree>)
    requires k < |ts| && ApartAll(ts) && ApartAll(us)
    requires forall i, b: Addr :: 0 <= i < |us| && Owns(us[i], b) ==> Owns(ts[k], b) || |m| <= b < |m'|
    requires forall i, b: Addr :: 0 <= i < |ts| && Owns(ts[i], b) ==> b < |m|
    ensures ApartAll(NewRow(ts, k, us))
  {
    hide Owns, Apart, NewRow;
    var ts' := NewRow(ts, k, us);
    assert |ts'| == |ts| + |us| - 1 by { NewRowSize(ts, k, us); }
    forall i | 0 <= i < |ts'| ensures Apart(ts'[i]) {
      NewRowAt(ts, k, us, i);
    }
    forall i, j | 0 <= i < j < |ts'| ensures Disjoint(ts'[i], ts'[j]) {
      ReplacedDisjoint(m, m', ts, k, us, i, j);
    }
  }

  lemma NewRowSize(ts: seq<Tree>, k: nat, us: seq<Tree>)
    requires k < |ts|
    ensures |NewRow(ts, k, us)| == |ts| + |us| - 1
  {}

  lemma ReplacedDisjoint(m: Mem, m': Mem, ts: seq<Tree>, k: nat, us: seq<Tree>, i: nat, j: nat)
    requires k < |ts| && ApartAll(ts) && ApartAll(us) && i < j < |NewRow(ts, k, us)|
    requires forall i, b: Addr :: 0 <= i < |us| && Owns(us[i], b) ==> Owns(ts[k], b) || |m| <= b < |m'|
    requires forall i, b: Addr :: 0 <= i < |ts| && Owns(ts[i], b) ==> b < |m|
    ensures Disjoint(NewRow(ts, k, us)[i], NewRow(ts, k, us)[j])
  {
    hide Owns, Apart, NewRow;
    NewRowSize(ts, k, us);
    NewRowAt(ts, k, us, i);
    NewRowAt(ts, k, us, j);
    var i0, j0 := Origin(k, |us|, i), Origin(k, |us|, j);
    if i0 != j0 {
      assert Disjoint(ts[i0], ts[j0]);
    }
  }

  // ----- The node above the row is rewritten -----

  /** A node holding a good row is a good tree. */
  lemma RowIsGood(m: Mem, id: Addr, keys: seq<nat>, ts: seq<Tree>, d: nat, lo: nat, hi: nat, top: bool)
    requires id < |m| && Holds(m[id], keys, Ids(ts)) && Row(m, keys, ts, d, lo, hi)
    requires if top then 1 <= |keys| else HALF - 1 <= |keys|
    ensures Good(m, Node(id, ts), d + 1, lo, hi, top)
  {
    hide Row;
  }

  lemma RowFrame(m: Mem, m': Mem, keys: seq<nat>, ts: seq<Tree>, d: nat, lo: nat, hi: nat)
    requires Row(m, keys, ts, d, lo, hi) && |m| <= |m'|
    requires forall a :: 0 <= a < |m| && OneOwns(ts, a) ==> m'[a] == m[a]
    ensures Row(m', keys, ts, d, lo, hi)
  {
    hide Good;
    forall i | 0 <= i < |ts| ensures Good(m', ts[i], d, Sep(keys, lo, hi, i), Sep(keys, lo, hi, i + 1), false) {
      forall a | 0 <= a < |m| && Owns(ts[i], a) ensures Alike(m[a], m'[a]) {
        assert OneOwns(ts, a);
      }
      GoodFrame(m, m', ts[i], d, Sep(keys, lo, hi, i), Sep(keys, lo, hi, i + 1), false);
    }
  }
}
