/** From a rewritten row of children to a rewritten inner node. */
module BTreeInner {
  import opened Common
  import opened BTreeModel
  import opened BTreeLemmas
  import opened BTreeEffect

  /** Where a node with one key too many is cut: its key c goes up. */
  function CutAt(k: nat): nat { if k < HALF then HALF else HALF - 1 }

  /** Child k of node t became us; nothing above it has been written yet. */
  ghost predicate ChildDone(m: Mem, t: Tree, d: nat, lo: nat, hi: nat, top: bool, k: nat,
                            m1: Mem, us: seq<Tree>, mid: nat) {
    && Good(m, t, d + 1, lo, hi, top) && Apart(t) && k < |t.subs|
    && var keys := m[t.id].seps[..m[t.id].nseps];
    Became(m, t.subs[k], d, Sep(keys, lo, hi, k), Sep(keys, lo, hi, k + 1), false, m1, us, mid)
  }

  function Keys(m: Mem, t: Tree): seq<nat>
    requires t.id < |m| && m[t.id].Inner? && m[t.id].nseps <= |m[t.id].seps|
  {
    m[t.id].seps[..m[t.id].nseps]
  }

  lemma SubsBelow(m: Mem, t: Tree, d: nat, lo: nat, hi: nat, top: bool)
    requires Good(m, t, d + 1, lo, hi, top)
    ensures forall i, b: Addr :: 0 <= i < |t.subs| && Owns(t.subs[i], b) ==> b < |m|
  {
    forall i, b: Addr | 0 <= i < |t.subs| && Owns(t.subs[i], b) ensures b < |m| {
      assert OneOwns(t.subs, b);
      GoodOwns(m, t, d + 1, lo, hi, top, b);
    }
  }

  /** The new row, before the node above it is written. */
  lemma ChildRow(m: Mem, t: Tree, d: nat, lo: nat, hi: nat, top: bool, k: nat, m1: Mem, us: seq<Tree>, mid: nat)
    requires ChildDone(m, t, d, lo, hi, top, k, m1, us, mid)
    ensures Row(m1, NewKeys(Keys(m, t), k, us, mid), NewRow(t.subs, k, us), d, lo, hi)
    ensures ApartAll(NewRow(t.subs, k, us))
    ensures forall b: Addr :: OneOwns(NewRow(t.subs, k, us), b) ==> (OneOwns(t.subs, b) && b != t.id) || |m| <= b < |m1|
    ensures m1[t.id] == m[t.id]
  {
    SubsBelow(m, t, d, lo, hi, top);
    assert Row(m, Keys(m, t), t.subs, d, lo, hi);
    assert !Owns(t.subs[k], t.id) by { assert !OneOwns(t.subs, t.id); }
    hide Row, Good, Apart, NewRow, NewKeys;
    RowReplaced(m, m1, Keys(m, t), t.subs, d, lo, hi, k, us, mid);
    ReplacedApart(m, m1, t.subs, k, us);
    forall b: Addr | OneOwns(NewRow(t.subs, k, us), b) ensures (OneOwns(t.subs, b) && b != t.id) || |m| <= b < |m1| {
      ReplacedOwns(m, m1, t.subs, k, us, b);
    }
  }

  /** Rows and their owner after the node has been written. */
  ghost predicate Above(m: Mem, t: Tree, m': Mem, ts: seq<Tree>) {
    && |m| <= |m'| && ApartAll(ts)
    && (forall i, a: Addr :: 0 <= i < |ts| && Owns(ts[i], a) ==> Owns(t, a) || |m| <= a < |m'|)
    && (forall a :: 0 <= a < |m| && !Owns(t, a) ==> Alike(m[a], m'[a]))
  }

  lemma WroteAbove(m: Mem, t: Tree, k: nat, m1: Mem, m2: Mem)
    requires t.Node? && k < |t.subs| && |m| <= |m1| <= |m2|
    requires forall a :: 0 <= a < |m| && !Owns(t.subs[k], a) ==> Alike(m[a], m1[a])
    requires forall a :: 0 <= a < |m1| && a != t.id ==> m2[a] == m1[a]
    ensures forall a :: 0 <= a < |m| && !Owns(t, a) ==> Alike(m[a], m2[a])
  {
    forall a | 0 <= a < |m| && !Owns(t, a) ensures Alike(m[a], m2[a]) {
      assert !OneOwns(t.subs, a);
      assert !Owns(t.subs[k], a);
    }
  }

  // ----- No new child, or room for it -----

  lemma IdsReplaced(ts: seq<Tree>, k: nat, us: seq<Tree>)
    requires k < |ts| && 1 <= |us| <= 2 && us[0].id == ts[k].id
    ensures |us| == 1 ==> Ids(NewRow(ts, k, us)) == Ids(ts)
    ensures |us| == 2 ==> Ids(NewRow(ts, k, us)) == SeqIn(Ids(ts), k + 1, us[1].id)
  {}

  lemma RoomLeft(m: Mem, t: Tree, d: nat, lo: nat, hi: nat, top: bool, k: nat, m1: Mem, us: seq<Tree>, mid: nat, m2: Mem)
    requires ChildDone(m, t, d, lo, hi, top, k, m1, us, mid) && |m2| == |m1|
    requires forall a :: 0 <= a < |m1| && a != t.id ==> m2[a] == m1[a]
    requires Holds(m2[t.id], NewKeys(Keys(m, t), k, us, mid), Ids(NewRow(t.subs, k, us)))
    ensures Became(m, t, d + 1, lo, hi, top, m2, [Node(t.id, NewRow(t.subs, k, us))], mid)
  {
    var keys', ts' := NewKeys(Keys(m, t), k, us, mid), NewRow(t.subs, k, us);
    var t' := Node(t.id, ts');
    assert |keys'| >= |Keys(m, t)|;
    ChildRow(m, t, d, lo, hi, top, k, m1, us, mid);
    WroteAbove(m, t, k, m1, m2);
    hide Good, Row, NewRow, NewKeys, Became;
    RowFrame(m1, m2, keys', ts', d, lo, hi);
    RowIsGood(m2, t.id, keys', ts', d, lo, hi, top);
    OneTree(m, t, d, lo, hi, top, m1, m2, ts', mid);
  }

  lemma ApartOne(t: Tree)
    requires Apart(t)
    ensures ApartAll([t])
  {}

  lemma OneTree(m: Mem, t: Tree, d: nat, lo: nat, hi: nat, top: bool, m1: Mem, m2: Mem, ts: seq<Tree>, mid: nat)
    requires t.Node? && |m| <= |m1| <= |m2| && t.id < |m| && ApartAll(ts)
    requires Good(m2, Node(t.id, ts), d + 1, lo, hi, top)
    requires forall b: Addr :: OneOwns(ts, b) ==> (OneOwns(t.subs, b) && b != t.id) || |m| <= b < |m1|
    requires forall a :: 0 <= a < |m| && !Owns(t, a) ==> Alike(m[a], m2[a])
    ensures Became(m, t, d + 1, lo, hi, top, m2, [Node(t.id, ts)], mid)
  {
    hide Good, ApartAll;
    var us := [Node(t.id, ts)];
    assert ApartAll(us) by { ApartOne(us[0]); }
    forall i, a: Addr | 0 <= i < |us| && Owns(us[i], a) ensures Owns(t, a) || |m| <= a < |m2| {
      assert a == t.id || OneOwns(ts, a);
    }
  }

  // ----- The node is full -----

  lemma CutOwns(ts: seq<Tree>, c: nat, a: Addr)
    requires c < |ts|
    ensures OneOwns(ts, a) <==> OneOwns(ts[..c + 1], a) || OneOwns(ts[c + 1..], a)
  {
    if OneOwns(ts, a) {
      var i :| 0 <= i < |ts| && Owns(ts[i], a);
      if i <= c { assert Owns(ts[..c + 1][i], a); } else { assert Owns(ts[c + 1..][i - c - 1], a); }
    }
    if OneOwns(ts[c + 1..], a) {
      var i :| 0 <= i < |ts[c + 1..]| && Owns(ts[c + 1..][i], a);
      assert Owns(ts[i + c + 1], a);
    }
  }

  lemma CutApart(ts: seq<Tree>, c: nat, l: Addr, n: Addr)
    requires ApartAll(ts) && c < |ts| && l != n && !OneOwns(ts, l) && !OneOwns(ts, n)
    ensures ApartAll([Node(l, ts[..c + 1]), Node(n, ts[c + 1..])])
  {
    var a, b := Node(l, ts[..c + 1]), Node(n, ts[c + 1..]);
    CutOwns(ts, c, l);
    CutOwns(ts, c, n);
    assert Apart(a) && Apart(b);
    forall x | Owns(a, x) ensures !Owns(b, x) {
      CutOwns(ts, c, x);
      CutDisjoint(ts, c, x);
    }
  }

  lemma CutDisjoint(ts: seq<Tree>, c: nat, x: Addr)
    requires ApartAll(ts) && c < |ts|
    ensures OneOwns(ts[..c + 1], x) ==> !OneOwns(ts[c + 1..], x)
  {
    if OneOwns(ts[..c + 1], x) {
      var i :| 0 <= i < |ts[..c + 1]| && Owns(ts[..c + 1][i], x);
      var r := ts[c + 1..];
      forall j | 0 <= j < |r| ensures !Owns(r[j], x) {
        assert Disjoint(ts[i], ts[j + c + 1]);
      }
    }
  }

  lemma IdsCut(ts: seq<Tree>, c: nat)
    requires c < |ts|
    ensures Ids(ts[..c + 1]) == Ids(ts)[..c + 1] && Ids(ts[c + 1..]) == Ids(ts)[c + 1..]
  {}

  lemma NodeSplit(m: Mem, t: Tree, d: nat, lo: nat, hi: nat, top: bool, k: nat, m1: Mem, us: seq<Tree>, mid: nat,
                  m2: Mem, c: nat)
    requires ChildDone(m, t, d, lo, hi, top, k, m1, us, mid) && |m2| == |m1| + 1 && |us| == 2
    requires forall a :: 0 <= a < |m1| && a != t.id ==> m2[a] == m1[a]
    requires var keys', ids' := NewKeys(Keys(m, t), k, us, mid), Ids(NewRow(t.subs, k, us));
             && HALF - 1 <= c && |keys'| == 2 * HALF && c <= HALF && |ids'| == |keys'| + 1
             && Holds(m2[t.id], keys'[..c], ids'[..c + 1]) && Holds(m2[|m1|], keys'[c + 1..], ids'[c + 1..])
    ensures var ts := NewRow(t.subs, k, us);
            c < |ts| && Became(m, t, d + 1, lo, hi, top, m2, [Node(t.id, ts[..c + 1]), Node(|m1|, ts[c + 1..])],
                               NewKeys(Keys(m, t), k, us, mid)[c])
  {
    var keys', ts' := NewKeys(Keys(m, t), k, us, mid), NewRow(t.subs, k, us);
    ChildRow(m, t, d, lo, hi, top, k, m1, us, mid);
    WroteAbove(m, t, k, m1, m2);
    GoodIds(m1, keys', ts', d, lo, hi);
    hide Good, Row, NewRow, NewKeys, Became;
    RowFrame(m1, m2, keys', ts', d, lo, hi);
    assert |ts'| == |keys'| + 1 by { RowSize(m1, keys', ts', d, lo, hi); }
    IdsCut(ts', c);
    RowCut(m2, keys', ts', d, lo, hi, c);
    RowIsGood(m2, t.id, keys'[..c], ts'[..c + 1], d, lo, keys'[c], false);
    RowIsGood(m2, |m1|, keys'[c + 1..], ts'[c + 1..], d, keys'[c], hi, false);
    CutApart(ts', c, t.id, |m1|);
    TwoTrees(m, t, d, lo, hi, top, m1, m2, ts', c, keys'[c]);
  }

  lemma RowSize(m: Mem, keys: seq<nat>, ts: seq<Tree>, d: nat, lo: nat, hi: nat)
    requires Row(m, keys, ts, d, lo, hi)
    ensures |ts| == |keys| + 1
  {}

  /** A row owns only allocated nodes. */
  lemma GoodIds(m: Mem, keys: seq<nat>, ts: seq<Tree>, d: nat, lo: nat, hi: nat)
    requires Row(m, keys, ts, d, lo, hi)
    ensures forall a: Addr :: OneOwns(ts, a) ==> a < |m|
  {
    forall a: Addr | OneOwns(ts, a) ensures a < |m| {
      var i :| 0 <= i < |ts| && Owns(ts[i], a);
      GoodOwns(m, ts[i], d, Sep(keys, lo, hi, i), Sep(keys, lo, hi, i + 1), false, a);
    }
  }

  lemma TwoTrees(m: Mem, t: Tree, d: nat, lo: nat, hi: nat, top: bool, m1: Mem, m2: Mem, ts: seq<Tree>, c: nat, mid: nat)
    requires t.Node? && |m| <= |m1| && |m2| == |m1| + 1 && t.id < |m| && c < |ts| && lo < mid < hi
    requires ApartAll([Node(t.id, ts[..c + 1]), Node(|m1|, ts[c + 1..])])
    requires Good(m2, Node(t.id, ts[..c + 1]), d + 1, lo, mid, false)
    requires Good(m2, Node(|m1|, ts[c + 1..]), d + 1, mid, hi, false)
    requires forall b: Addr :: OneOwns(ts, b) ==> (OneOwns(t.subs, b) && b != t.id) || |m| <= b < |m1|
    requires forall a :: 0 <= a < |m| && !Owns(t, a) ==> Alike(m[a], m2[a])
    ensures Became(m, t, d + 1, lo, hi, top, m2, [Node(t.id, ts[..c + 1]), Node(|m1|, ts[c + 1..])], mid)
  {
    hide Good, ApartAll;
    var us := [Node(t.id, ts[..c + 1]), Node(|m1|, ts[c + 1..])];
    forall i, a: Addr | 0 <= i < |us| && Owns(us[i], a) ensures Owns(t, a) || |m| <= a < |m2| {
      CutOwns(ts, c, a);
    }
  }

  lemma CutLeafIds(ts: seq<Tree>, c: nat, l: Addr, n: Addr)
    requires c < |ts|
    ensures LeafIdsOf([Node(l, ts[..c + 1]), Node(n, ts[c + 1..])]) == LeafIdsOf(ts)
  {
    var a, b := Node(l, ts[..c + 1]), Node(n, ts[c + 1..]);
    LeafIdsOfAppend(ts[..c + 1], ts[c + 1..]);
    assert ts == ts[..c + 1] + ts[c + 1..];
    LeafIdsOfAppend([a], [b]);
    assert [a, b] == [a] + [b];
    LeafIdsOfOne(a);
    LeafIdsOfOne(b);
  }
}
