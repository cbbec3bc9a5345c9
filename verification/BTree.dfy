/** SecondIndexUint64BPlusTree: find-or-insert as the source runs it. */
module BTree {
  import opened Common
  import opened BTreeModel
  import opened BTreeLemmas
  import opened BTreeEffect
  import opened BTreeInner
  import opened BTreeNodes

  // ----- Facts about one leaf -----

  ghost predicate RightOk(m: Mem, l: Addr) {
    l < |m| && m[l].Leaf? && (m[l].right.Some? ==> m[l].right.value < |m| && m[l].right.value != l && m[m[l].right.value].Leaf?)
  }

  lemma TipOwns(l: Addr, a: Addr)
    ensures Owns(Tip(l), a) <==> a == l
  {}

  lemma {:induction false} FlatOne(m: Mem, l: Addr)
    requires l < |m|
    ensures Flat(m, [l]) == Entries(m[l])
  {
    assert [l][1..] == [];
  }

  lemma EntryKeys(r: Rec, k: nat, key: nat)
    requires r.Leaf? && r.num <= |r.keys| && r.num <= |r.vals| && k <= r.num && Sorted(Entries(r))
    requires (forall i :: 0 <= i < k ==> r.keys[i] < key) && (k < r.num ==> key <= r.keys[k])
    ensures |Entries(r)| == r.num
    ensures Has(Entries(r), key) <==> k < r.num && r.keys[k] == key
    ensures k < r.num && r.keys[k] == key ==> Has(Entries(r), key) && Entries(r)[k] == Entry(key, r.vals[k])
    ensures !(k < r.num && r.keys[k] == key) ==>
              && (forall i :: 0 <= i < k ==> Entries(r)[i].key < key)
              && (forall i :: k <= i < r.num ==> key < Entries(r)[i].key)
  {
    var e := Entries(r);
    forall i | 0 <= i < r.num ensures e[i].key == r.keys[i] {}
    if k < r.num {
      assert e[k].key == r.keys[k];
    }
  }

  lemma InsertedWithin(s: seq<Entry>, k: nat, s': seq<Entry>, key: nat, v: Value, lo: nat, hi: nat)
    requires Sorted(s) && Within(s, lo, hi) && lo <= key < hi && Inserts(s, k, s', key, v)
    ensures Sorted(s') && Within(s', lo, hi)
  {
    InsertedAt(s, k, s', key, v);
  }

  /** An unsplit leaf. */
  lemma TipTook(m: Mem, l: Addr, lo: nat, hi: nat, top: bool, m': Mem, key: nat, v: Value, k: nat)
    requires l < |m| && LeafOk(m[l], lo, hi) && (top || HALF - 1 <= m[l].num) && lo <= key < hi
    requires |m'| == |m| && m' == m[l := m'[l]]
    requires m'[l].Leaf? && |m'[l].keys| == SLOTS && |m'[l].vals| == SLOTS && m[l].num <= m'[l].num <= SLOTS
    requires m'[l].left == m[l].left && m'[l].right == m[l].right && m'[l].seqno == m[l].seqno + 1
    requires Inserts(Entries(m[l]), k, Entries(m'[l]), key, v)
    ensures Became(m, Tip(l), 0, lo, hi, top, m', [Tip(l)], 0)
    ensures Took(m, [l], m', [l], key, v, 0, None)
  {
    InsertedWithin(Entries(m[l]), k, Entries(m'[l]), key, v, lo, hi);
    assert Good(m', Tip(l), 0, lo, hi, top);
    assert LeafStep(m, m', l, None, key, v);
    GainsInLeaves(m, m', [l], [l], Entries(m[l]), Entries(m'[l]), k, key, v) by { FlatOne(m, l); FlatOne(m', l); }
    hide Entries, Inserts, LeafStep, LeafOk, GainsEntry, Good;
    TipAlone(m, l, lo, hi, top, m');
  }

  lemma GainsInLeaves(m: Mem, m': Mem, ids: seq<Addr>, ids': seq<Addr>, s: seq<Entry>, s': seq<Entry>, k: nat, key: nat,
                      v: Value)
    requires Flat(m, ids) == s && Flat(m', ids') == s' && Inserts(s, k, s', key, v)
    ensures GainsEntry(Flat(m, ids), Flat(m', ids'), key, v)
  {}

  lemma TipAlone(m: Mem, l: Addr, lo: nat, hi: nat, top: bool, m': Mem)
    requires l < |m| && |m'| == |m| && m' == m[l := m'[l]] && Good(m', Tip(l), 0, lo, hi, top)
    ensures Became(m, Tip(l), 0, lo, hi, top, m', [Tip(l)], 0)
  {
    hide Good;
    forall a: Addr ensures Owns(Tip(l), a) <==> a == l { TipOwns(l, a); }
    assert ApartAll([Tip(l)]);
  }

  /** A split leaf: the new leaf's first key divides the two. */
  lemma TipSplit(m: Mem, l: Addr, lo: nat, hi: nat, top: bool, m': Mem, key: nat, v: Value, k: nat)
    requires l < |m| && LeafOk(m[l], lo, hi) && lo <= key < hi && RightOk(m, l)
    requires |m'| == |m| + 1 && (forall a :: 0 <= a < |m| && a != l ==>
               m'[a] == if m[l].right == Some(a) then m[a].(left := Some(|m|)) else m[a])
    requires m'[l].Leaf? && |m'[l].keys| == SLOTS && |m'[l].vals| == SLOTS && HALF - 1 <= m'[l].num <= SLOTS
    requires m'[|m|].Leaf? && |m'[|m|].keys| == SLOTS && |m'[|m|].vals| == SLOTS && HALF - 1 <= m'[|m|].num <= SLOTS
    requires m'[l].left == m[l].left && m'[l].right == Some(|m|) && m'[l].seqno == m[l].seqno + 1
    requires m'[|m|].left == Some(l) && m'[|m|].right == m[l].right && m'[|m|].seqno == 0
    requires Inserts(Entries(m[l]), k, Entries(m'[l]) + Entries(m'[|m|]), key, v)
    ensures Became(m, Tip(l), 0, lo, hi, top, m', [Tip(l), Tip(|m|)], m'[|m|].keys[0])
    ensures Took(m, [l], m', [l, |m|], key, v, 0, Some(|m|))
  {
    var n := |m|;
    var e, f := Entries(m'[l]), Entries(m'[n]);
    InsertedWithin(Entries(m[l]), k, e + f, key, v, lo, hi);
    var mid := m'[n].keys[0];
    assert f[0].key == mid && |e| == m'[l].num && |f| == m'[n].num;
    SplitBounds(e, f, lo, hi);
    assert LeafOk(m'[l], lo, mid) && LeafOk(m'[n], mid, hi);
    assert Good(m', Tip(l), 0, lo, mid, false) && Good(m', Tip(n), 0, mid, hi, false);
    assert LeafStep(m, m', l, Some(n), key, v);
    assert Flat(m', [l, n]) == e + f by { FlatPair(m', l, n); }
    assert Flat(m, [l]) == Entries(m[l]) by { FlatOne(m, l); }
    GainsInLeaves(m, m', [l], [l, n], Entries(m[l]), e + f, k, key, v);
    assert NewIds([l], 0, Some(n)) == [l, n];
    hide Entries, Inserts, LeafStep, LeafOk, GainsEntry, Good, Flat;
    TipsApart(m, l, lo, hi, top, m', mid);
  }

  lemma FlatPair(m: Mem, l: Addr, n: Addr)
    requires l < |m| && n < |m|
    ensures Flat(m, [l, n]) == Entries(m[l]) + Entries(m[n])
  {
    hide Flat, Entries;
    FlatOne(m, l);
    FlatOne(m, n);
    assert [l, n] == [l] + [n];
    FlatAppend(m, [l], [n]);
  }

  lemma TipsApart(m: Mem, l: Addr, lo: nat, hi: nat, top: bool, m': Mem, mid: nat)
    requires l < |m| && |m'| == |m| + 1 && lo < mid < hi
    requires forall a :: 0 <= a < |m| && a != l ==> Alike(m[a], m'[a])
    requires Good(m', Tip(l), 0, lo, mid, false) && Good(m', Tip(|m|), 0, mid, hi, false)
    ensures Became(m, Tip(l), 0, lo, hi, top, m', [Tip(l), Tip(|m|)], mid)
  {
    hide Good;
    forall a: Addr ensures (Owns(Tip(l), a) <==> a == l) && (Owns(Tip(|m|), a) <==> a == |m|) {
      TipOwns(l, a);
      TipOwns(|m|, a);
    }
    assert ApartAll([Tip(l), Tip(|m|)]);
  }

  lemma SplitBounds(e: seq<Entry>, f: seq<Entry>, lo: nat, hi: nat)
    requires Sorted(e + f) && Within(e + f, lo, hi) && e != [] && f != []
    ensures Sorted(e) && Sorted(f) && Within(e, lo, f[0].key) && Within(f, f[0].key, hi) && lo < f[0].key < hi
  {
    var s := e + f;
    assert forall i :: 0 <= i < |e| ==> s[i] == e[i];
    assert forall i :: 0 <= i < |f| ==> s[|e| + i] == f[i];
    assert s[0].key < s[|e|].key;
  }

  lemma HalvesInsert(e: seq<Entry>, k: nat, x: Entry)
    requires |e| == SLOTS && k <= |e|
    ensures k < HALF ==> e[..HALF][..k] + [x] + e[..HALF][k..] + e[HALF..] == e[..k] + [x] + e[k..]
    ensures k >= HALF ==> e[..HALF] + (e[HALF..][..k - HALF] + [x] + e[HALF..][k - HALF..]) == e[..k] + [x] + e[k..]
  {
    if k < HALF {
      assert e[..HALF][k..] + e[HALF..] == e[k..];
      assert e[..HALF][..k] == e[..k];
    } else {
      assert e[..HALF] + e[HALF..][..k - HALF] == e[..k];
      assert e[HALF..][k - HALF..] == e[k..];
    }
  }

  lemma SameEntries(r: Rec, r': Rec)
    requires r.Leaf? && r'.Leaf? && r'.num == r.num && r'.keys == r.keys && r'.vals == r.vals
    ensures Entries(r') == Entries(r)
  {}

  /** A full leaf is halved, then the entry goes to its half. */
  method SplitAndPut(r: Rec, l: Addr, k: nat, key: nat, v: Value) returns (left: Rec, n: Rec)
    requires r.Leaf? && |r.keys| == SLOTS && |r.vals| == SLOTS && r.num == SLOTS && k <= SLOTS
    ensures left.Leaf? && |left.keys| == SLOTS && |left.vals| == SLOTS && HALF - 1 <= left.num <= SLOTS
    ensures n.Leaf? && |n.keys| == SLOTS && |n.vals| == SLOTS && HALF - 1 <= n.num <= SLOTS
    ensures left.left == r.left && left.seqno == r.seqno && n.left == Some(l) && n.right == r.right && n.seqno == 0
    ensures Entries(left) + Entries(n) == Entries(r)[..k] + [Entry(key, v)] + Entries(r)[k..]
  {
    left, n := SplitLeaf(r, l);
    HalvesInsert(Entries(r), k, Entry(key, v));
    if k >= HALF {
      n := PutInLeaf(n, k - HALF, key, v);
    } else {
      left := PutInLeaf(left, k, key, v);
    }
  }

  class BPlusTree {
    var mem: Mem
    var root: Addr
    var depth: nat
    ghost var tree: Tree

    ghost predicate Valid()
      reads this
    {
      && tree.id == root && Good(mem, tree, depth, 0, KEY_LIMIT, true) && Apart(tree)
      && Chain(mem, LeafIds(tree))
    }

    /** The leaves from left to right. */
    ghost function Leaves(): seq<Addr>
      reads this
    {
      LeafIds(tree)
    }

    /** The entries in key order. */
    ghost function Contents(): seq<Entry>
      reads this
    {
      Flat(mem, LeafIds(tree))
    }

    method LeafInsert(key: nat, l: Addr, dummy: Value, ghost lo: nat, ghost hi: nat, ghost top: bool)
      returns (sib: Option<Addr>, val: Value, found: bool, ghost us: seq<Tree>, ghost mid: nat)
      requires l < |mem| && LeafOk(mem[l], lo, hi) && (top || HALF - 1 <= mem[l].num) && lo <= key < hi
      requires RightOk(mem, l)
      modifies this`mem
      ensures found <==> Has(Entries(old(mem[l])), key)
      ensures found ==> mem == old(mem) && us == [Tip(l)] && Entry(key, val) in Entries(mem[l])
      ensures !found ==> val == dummy && Took(old(mem), [l], mem, LeafIdsOf(us), key, dummy, 0, sib)
      ensures Became(old(mem), Tip(l), 0, lo, hi, top, mem, us, mid)
      ensures sib == if |us| == 2 then Some(us[1].id) else None
      ensures |us| == 2 ==> us[1].id < |mem| && mem[us[1].id].Leaf? && |mem[us[1].id].keys| == SLOTS && mem[us[1].id].keys[0] == mid
    {
      hide Became, Took, Good, Entries, Sorted, Within;
      var leaf := mem[l];
      var k := FindInLeaf(leaf, key);
      EntryKeys(leaf, k, key);
      us, mid, sib := [Tip(l)], 0, None;
      if k < leaf.num && leaf.keys[k] == key {
        assert Good(mem, Tip(l), 0, lo, hi, top) by { LeafIsGood(mem, l, lo, hi, top); }
        TipAlone(mem, l, lo, hi, top, mem);
        return None, leaf.vals[k], true, us, mid;
      }
      found, val := false, dummy;
      if leaf.num == SLOTS {
        var left, n := SplitAndPut(leaf, l, k, key, dummy);
        sib := Some(|mem|);
        if leaf.right.Some? {
          mem := mem[leaf.right.value := mem[leaf.right.value].(left := sib)];
        }
        mem := mem[l := left.(right := sib, seqno := left.seqno + 1)] + [n];
        us, mid := [Tip(l), Tip(sib.value)], n.keys[0];
        SameEntries(left, left.(right := sib, seqno := left.seqno + 1));
        TipSplit(old(mem), l, lo, hi, top, mem, key, dummy, k);
      } else {
        leaf := PutInLeaf(leaf, k, key, dummy);
        mem := mem[l := leaf.(seqno := leaf.seqno + 1)];
        SameEntries(leaf, leaf.(seqno := leaf.seqno + 1));
        TipTook(old(mem), l, lo, hi, top, mem, key, dummy, k);
      }
      assert LeafIdsOf(us) == if |us| == 1 then [l] else [l, us[1].id] by { TipIds(us); }
    }

    /**
      A separator and a child are added after child k of an inner node; a full
      node is split first.  The probe decides which half the pair goes to.
    */
    method AddChild(a: Addr, k: nat, sep: nat, kid: Addr, probe: nat) returns (sib: Option<Addr>, upKey: nat)
      requires a < |mem| && mem[a].Inner? && |mem[a].seps| == SLOTS && |mem[a].kids| == SLOTS + 1
      requires k <= mem[a].nseps <= SLOTS
      requires mem[a].nseps == SLOTS ==> (probe >= mem[a].seps[HALF - 1] <==> k >= HALF)
      modifies this`mem
      ensures var r := old(mem[a]);
              var keys, kids := SeqIn(r.seps[..r.nseps], k, sep), SeqIn(r.kids[..r.nseps + 1], k + 1, kid);
              && |old(mem)| <= |mem| && (forall b :: 0 <= b < |old(mem)| && b != a ==> mem[b] == old(mem)[b])
              && (if r.nseps < SLOTS then
                    sib == None && |mem| == |old(mem)| && Holds(mem[a], keys, kids)
                  else
                    && sib == Some(|old(mem)|) && |mem| == |old(mem)| + 1
                    && Holds(mem[a], keys[..CutAt(k)], kids[..CutAt(k) + 1])
                    && Holds(mem[|old(mem)|], keys[CutAt(k) + 1..], kids[CutAt(k) + 1..])
                    && upKey == keys[CutAt(k)] && mem[a].seps[SLOTS - 1] == upKey)
    {
      var r := mem[a];
      sib, upKey := None, 0;
      if r.nseps == SLOTS {
        var l, n, up := SplitInner(r);
        upKey := up;
        CutFull(r, k, sep, kid);
        hide SeqIn;
        if probe >= upKey {
          n := PutInInner(n, if k >= HALF then k - HALF else 0, sep, kid);
        } else {
          l := PutInInner(l, k, sep, kid);
          assert l.seps[SLOTS - 1] == l.seps[HALF..][SLOTS - 1 - HALF];
        }
        sib := Some(|mem|);
        mem := mem[a := l] + [n];
      } else {
        r := PutInInner(r, k, sep, kid);
        mem := mem[a := r];
      }
    }

    /** InnerInsert up to its last test: the child takes the key, and the node takes a new child. */
    method Descend(key: nat, a: Addr, d: nat, dummy: Value, ghost t: Tree, ghost lo: nat, ghost hi: nat, ghost top: bool)
      returns (sib: Option<Addr>, val: Value, upKey: nat, found: bool, ghost us: seq<Tree>,
               ghost p: nat, ghost leafSib: Option<Addr>)
      requires 0 < d <= depth && Ready(mem, a, d, t, lo, hi, top) && lo <= key < hi
      modifies this`mem, this`root, this`depth
      ensures root == old(root) && depth == old(depth)
      ensures InsertDone(old(mem), t, d, lo, hi, top, mem, us, upKey, key, dummy, val, found, p, leafSib)
      ensures sib == if |us| == 2 then Some(us[1].id) else None
      ensures |us| == 2 ==> Stashed(mem, a, upKey)
      decreases d, 0
    {
      hide Became, Took, Good, Ready, InsertDone, RowDone, NewRow, SeqIn, LeafIdsOf;
      ghost var m := mem;
      ChildInner(mem, a, d, t, lo, hi, top);
      var k := FindChild(mem[a], key);
      ghost var keys := Keys(mem, t);
      ghost var kt := t.subs[k];
      ghost var klo, khi := Sep(keys, lo, hi, k), Sep(keys, lo, hi, k + 1);
      ChildReady(mem, a, d, t, lo, hi, top, k, key);
      var child := mem[a].kids[k];
      var kid: Option<Addr>;
      var sep, probe := 0, key;
      ghost var kus, kmid;
      if d == 1 {
        LeafReady(mem, child, kt, klo, khi);
        kid, val, found, kus, kmid := LeafInsert(key, child, dummy, klo, khi, false);
        p, leafSib := 0, kid;
        LeafDone(m, kt, klo, khi, mem, kus, kmid, key, dummy, val, found, leafSib);
        if kid.Some? {
          sep := mem[kid.value].keys[0];
          probe := sep;
        }
      } else {
        ghost var m1;
        kid, val, kmid, found, kus, p, leafSib, m1 := InnerInsert(key, child, d - 1, dummy, kt, klo, khi, false);
        if kid.Some? {
          sep := mem[child].seps[SLOTS - 1];
        }
      }
      upKey, sib := 0, None;
      ghost var m1, q := mem, p;
      ghost var row := NewRow(t.subs, k, kus);
      if found {
        us := [t];
        NotSplit(m, kt, d - 1, klo, khi, mem, kus, kmid, key, dummy, val, p, leafSib);
        FoundDone(m, a, d, t, lo, hi, top, k, key, dummy, val, kus, kmid, p, leafSib, mem);
      } else {
        ChildTook(m, a, d, t, lo, hi, top, k, key, dummy, val, kus, kmid, q, leafSib, m1);
        p := |LeafIdsOf(t.subs[..k])| + q;
        us := [Node(a, row)];
        if |kus| == 1 {
          NoNewChild(m, a, d, t, lo, hi, top, k, key, dummy, kus, kmid, p, leafSib, m1);
        }
      }
      if kid.Some? {
        ProbeSide(m, a, d, t, lo, hi, top, k, probe);
        var up;
        sib, up := AddChild(a, k, sep, kid.value, probe);
        if sib.None? {
          NewChildFits(m, a, d, t, lo, hi, top, k, key, dummy, kus, kmid, p, leafSib, m1, mem);
        } else {
          upKey := up;
          NewRowSize(t.subs, k, kus);
          us := [Node(a, row[..CutAt(k) + 1]), Node(|m1|, row[CutAt(k) + 1..])];
          NewChildSplits(m, a, d, t, lo, hi, top, k, key, dummy, kus, kmid, p, leafSib, m1, mem, upKey);
        }
      }
    }

    /** InnerInsert; at the root a new sibling gives the tree a new root. */
    method InnerInsert(key: nat, a: Addr, d: nat, dummy: Value, ghost t: Tree, ghost lo: nat, ghost hi: nat, ghost top: bool)
      returns (sib: Option<Addr>, val: Value, upKey: nat, found: bool, ghost us: seq<Tree>,
               ghost p: nat, ghost leafSib: Option<Addr>, ghost m1: Mem)
      requires 0 < d <= depth && Ready(mem, a, d, t, lo, hi, top) && lo <= key < hi && (d == depth ==> root == a)
      modifies this`mem, this`root, this`depth
      ensures InsertDone(old(mem), t, d, lo, hi, top, m1, us, upKey, key, dummy, val, found, p, leafSib)
      ensures sib == if |us| == 2 then Some(us[1].id) else None
      ensures |us| == 2 ==> Stashed(m1, a, upKey)
      ensures d < old(depth) || sib.None? ==> mem == m1 && root == old(root) && depth == old(depth)
      ensures d == old(depth) && sib.Some? ==>
                && |mem| == |m1| + 1 && mem[..|m1|] == m1 && root == |m1| && depth == old(depth) + 1
                && Holds(mem[|m1|], [upKey], [a, sib.value])
      decreases d, 1
    {
      sib, val, upKey, found, us, p, leafSib := Descend(key, a, d, dummy, t, lo, hi, top);
      m1 := mem;
      if d == depth && sib.Some? {
        var seps: seq<nat> := seq(SLOTS, _ => 0)[0 := upKey];
        var kids: seq<Addr> := seq(SLOTS + 1, _ => 0)[0 := root][1 := sib.value];
        var r := Inner(1, seps, kids);
        assert r.seps[..1] == [upKey] && r.kids[..2] == [a, sib.value];
        root := |mem|;
        mem := mem + [r];
        depth := depth + 1;
      }
    }

    /** The key buffer of the first leaf is not initialised; junk is what it happens to hold. */
    constructor (junk: seq<nat>)
      requires |junk| == SLOTS
      ensures Valid() && Contents() == [] && depth == 0
      ensures mem == [Leaf(0, junk, seq(SLOTS, _ => None), None, None, 0)] && Leaves() == [0]
    {
      var r := Leaf(0, junk, seq(SLOTS, _ => None), None, None, 0);
      mem, root, depth, tree := [r], 0, 0, Tip(0);
      new;
      FlatOne(mem, 0);
      assert LeafOk(mem[0], 0, KEY_LIMIT);
      assert LinkedAt(mem, [0], 0);
    }

    /** Get_sec: the node of the key; a key not yet present takes the prepared node. */
    method GetSec(key: nat, dummy: Value) returns (val: Value, found: bool, ghost p: nat, ghost sib: Option<Addr>)
      requires Valid() && key < KEY_LIMIT
      modifies this
      ensures Valid() && Sorted(Contents())
      ensures found <==> Has(old(Contents()), key)
      ensures found ==> mem == old(mem) && tree == old(tree) && Entry(key, val) in Contents()
      ensures !found ==> val == dummy && Took(old(mem), old(Leaves()), mem, Leaves(), key, dummy, p, sib)
      ensures ToMap(Contents()) == if found then ToMap(old(Contents())) else ToMap(old(Contents()))[key := dummy]
    {
      hide Became, Took, Good, Chain, InsertDone, Ready, Flat, Sorted, Has, ToMap, Apart, LeafIdsOf;
      ghost var m, t := mem, tree;
      RootReady(mem, tree, depth);
      GoodFlat(mem, tree, depth, 0, KEY_LIMIT, true);
      ghost var us, mid, m1;
      if depth == 0 {
        LeafTop(mem, tree);
        var newLeaf;
        newLeaf, val, found, us, mid := LeafInsert(key, root, dummy, 0, KEY_LIMIT, true);
        p, sib, m1 := 0, newLeaf, mem;
        LeafDoneTop(m, t, m1, us, mid, key, dummy, val, found, sib);
        if newLeaf.Some? {
          var seps: seq<nat> := seq(SLOTS, _ => 0)[0 := mem[newLeaf.value].keys[0]];
          var kids: seq<Addr> := seq(SLOTS + 1, _ => 0)[0 := root][1 := newLeaf.value];
          var r := Inner(1, seps, kids);
          assert r.seps[..1] == [mid] && r.kids[..2] == [t.id, newLeaf.value];
          depth := depth + 1;
          root := |mem|;
          mem := mem + [r];
        }
      } else {
        var newInner;
        newInner, val, mid, found, us, p, sib, m1 := InnerInsert(key, root, depth, dummy, tree, 0, KEY_LIMIT, true);
      }
      tree := if |us| == 1 then us[0] else Node(root, us);
      FoundOrNew(m, t, old(depth), m1, us, mid, key, dummy, val, found, p, sib);
      if |us| == 1 {
        TopKept(m, t, old(depth), m1, us, mid, key, dummy, val, found, p, sib);
      } else {
        TopRaised(m, t, old(depth), m1, us, mid, key, dummy, val, found, p, sib, mem);
      }
    }

    /** FindLeaf: the leaf that holds the key if any leaf does. */
    method FindLeaf(key: nat) returns (l: Addr, ghost p: nat)
      requires Valid() && key < KEY_LIMIT
      ensures p < |Leaves()| && Leaves()[p] == l
      ensures Below(Flat(mem, Leaves()[..p]), key) && Beyond(Flat(mem, Leaves()[p + 1..]), key)
    {
      hide Good, Flat, Chain, Apart, LeafIdsOf;
      l := root;
      var d := depth;
      ghost var t, top := tree, true;
      ghost var lo: nat, hi: nat := 0, KEY_LIMIT;
      ghost var pre, post := [], [];
      assert LeafIds(tree) == [] + LeafIds(tree) + [];
      assert Below(Flat(mem, []), key) && Beyond(Flat(mem, []), key) by { NoEntries(mem, key); }
      while d != 0
        invariant Good(mem, t, d, lo, hi, top) && l == t.id && lo <= key < hi
        invariant Leaves() == pre + LeafIds(t) + post
        invariant Below(Flat(mem, pre), key) && Beyond(Flat(mem, post), key)
        decreases d
      {
        InnerShape(mem, t, d - 1, lo, hi, top);
        var k := FindChild(mem[l], key);
        CoversKey(mem, t, d - 1, lo, hi, top, k, key, pre, post);
        pre, post := pre + LeafIdsOf(t.subs[..k]), LeafIdsOf(t.subs[k + 1..]) + post;
        lo, hi, top := Sep(Keys(mem, t), lo, hi, k), Sep(Keys(mem, t), lo, hi, k + 1), false;
        l := mem[l].kids[k];
        t := t.subs[k];
        d := d - 1;
      }
      p := |pre|;
      LeafIsTip(mem, t, lo, hi, top);
      assert Leaves()[..p] == pre && Leaves()[p + 1..] == post;
    }

    /** The walk of SeekToFirst along the first children. */
    method LeftmostLeaf() returns (min: Addr)
      requires Valid()
      ensures Leaves() != [] && min == Leaves()[0]
    {
      hide Good, Chain, Apart, LeafIdsOf;
      min := root;
      var d := depth;
      ghost var t, rest, top := tree, [], true;
      ghost var lo: nat, hi: nat := 0, KEY_LIMIT;
      assert LeafIds(tree) + [] == LeafIds(tree);
      while d > 0
        invariant Good(mem, t, d, lo, hi, top) && min == t.id && Leaves() == LeafIds(t) + rest
        decreases d
      {
        FirstChild(mem, t, d - 1, lo, hi, top);
        Assoc(LeafIds(t.subs[0]), LeafIdsOf(t.subs[1..]), rest);
        rest := LeafIdsOf(t.subs[1..]) + rest;
        lo, hi, top := Sep(Keys(mem, t), lo, hi, 0), Sep(Keys(mem, t), lo, hi, 1), false;
        min := mem[min].kids[0];
        t := t.subs[0];
        d := d - 1;
      }
      LeafIsTip(mem, t, lo, hi, top);
    }
  }

  /** What InnerInsert may rely on. */
  ghost predicate Ready(m: Mem, a: Addr, d: nat, t: Tree, lo: nat, hi: nat, top: bool) {
    t.id == a && Good(m, t, d, lo, hi, top) && Apart(t) && RightsOk(m, LeafIds(t))
  }

  ghost predicate RightsOk(m: Mem, ids: seq<Addr>) {
    forall i :: 0 <= i < |ids| ==> RightOk(m, ids[i])
  }

  /** What InnerInsert achieves. */
  ghost predicate InsertDone(m: Mem, t: Tree, d: nat, lo: nat, hi: nat, top: bool, m': Mem, us: seq<Tree>, mid: nat,
                             key: nat, dummy: Value, val: Value, found: bool, p: nat, leafSib: Option<Addr>) {
    && Became(m, t, d, lo, hi, top, m', us, mid)
    && (found ==> m' == m && us == [t] && Entry(key, val) in Flat(m, LeafIds(t)))
    && (!found ==> val == dummy && Took(m, LeafIds(t), m', LeafIdsOf(us), key, dummy, p, leafSib))
  }

  /** The separator a split node leaves for its parent in its last slot. */
  ghost predicate Stashed(m: Mem, a: Addr, key: nat) {
    a < |m| && m[a].Inner? && |m[a].seps| == SLOTS && m[a].seps[SLOTS - 1] == key
  }

  lemma CutLow<T>(s: seq<T>, k: nat, x: T, c: nat)
    requires k < c <= |s|
    ensures SeqIn(s, k, x)[..c] == SeqIn(s[..c - 1], k, x)
    ensures SeqIn(s, k, x)[c..] == s[c - 1..]
  {
    assert SeqIn(s, k, x)[k + 1..c] == s[k..c - 1] == s[..c - 1][k..];
  }

  lemma CutHigh<T>(s: seq<T>, k: nat, x: T, c: nat)
    requires c <= k <= |s|
    ensures SeqIn(s, k, x)[..c] == s[..c]
    ensures SeqIn(s, k, x)[c..] == SeqIn(s[c..], k - c, x)
  {
    assert s[c..][k - c..] == s[k..];
  }

  /** Cutting the widened node is the same as widening one half. */
  lemma CutFull(r: Rec, k: nat, sep: nat, kid: Addr)
    requires r.Inner? && |r.seps| == SLOTS && |r.kids| == SLOTS + 1 && r.nseps == SLOTS && k <= SLOTS
    ensures var keys, kids, c := SeqIn(r.seps[..SLOTS], k, sep), SeqIn(r.kids[..SLOTS + 1], k + 1, kid), CutAt(k);
            var l, n, lk, nk := r.seps[..HALF - 1], r.seps[HALF..], r.kids[..HALF], r.kids[HALF..];
            && keys[c] == r.seps[HALF - 1]
            && keys[..c] == (if k < HALF then SeqIn(l, k, sep) else l)
            && keys[c + 1..] == (if k < HALF then n else SeqIn(n, k - HALF, sep))
            && kids[..c + 1] == (if k < HALF then SeqIn(lk, k + 1, kid) else lk)
            && kids[c + 1..] == (if k < HALF then nk else SeqIn(nk, k - HALF + 1, kid))
  {
    var s, t := r.seps, r.kids;
    assert s[..SLOTS] == s && t[..SLOTS + 1] == t;
    if k < HALF {
      CutLow(s, k, sep, HALF);
      CutLow(t, k + 1, kid, HALF + 1);
      assert SeqIn(s, k, sep)[HALF + 1..] == SeqIn(s, k, sep)[HALF..][1..];
      assert s[HALF - 1..][1..] == s[HALF..];
    } else {
      CutHigh(s, k, sep, HALF);
      CutHigh(t, k + 1, kid, HALF);
      assert SeqIn(s, k, sep)[..HALF - 1] == SeqIn(s, k, sep)[..HALF][..HALF - 1];
      assert s[..HALF][..HALF - 1] == s[..HALF - 1];
    }
  }

  // ----- The pieces of FindLeaf -----

  ghost predicate Below(s: seq<Entry>, key: nat) {
    forall i :: 0 <= i < |s| ==> s[i].key < key
  }

  ghost predicate Beyond(s: seq<Entry>, key: nat) {
    forall i :: 0 <= i < |s| ==> key < s[i].key
  }

  lemma NoEntries(m: Mem, key: nat)
    ensures Below(Flat(m, []), key) && Beyond(Flat(m, []), key)
  {}

  lemma InnerShape(m: Mem, t: Tree, d: nat, lo: nat, hi: nat, top: bool)
    requires Good(m, t, d + 1, lo, hi, top)
    ensures t.Node? && t.id < |m| && Holds(m[t.id], Keys(m, t), Ids(t.subs)) && |t.subs| == m[t.id].nseps + 1
    ensures Row(m, Keys(m, t), t.subs, d, lo, hi)
  {}

  lemma LeafIsTip(m: Mem, t: Tree, lo: nat, hi: nat, top: bool)
    requires Good(m, t, 0, lo, hi, top)
    ensures t == Tip(t.id) && LeafIds(t) == [t.id]
  {}

  lemma CoversKey(m: Mem, t: Tree, d: nat, lo: nat, hi: nat, top: bool, k: nat, key: nat, pre: seq<Addr>, post: seq<Addr>)
    requires Good(m, t, d + 1, lo, hi, top) && lo <= key < hi && k < |t.subs| && m[t.id].nseps + 1 == |t.subs|
    requires (forall i :: 0 <= i < k ==> m[t.id].seps[i] <= key) && (k < m[t.id].nseps ==> key < m[t.id].seps[k])
    requires Below(Flat(m, pre), key) && Beyond(Flat(m, post), key)
    ensures k < |m[t.id].kids| && t.subs[k].id == m[t.id].kids[k] && k <= |Keys(m, t)|
    ensures Sep(Keys(m, t), lo, hi, k) <= key < Sep(Keys(m, t), lo, hi, k + 1)
    ensures Good(m, t.subs[k], d, Sep(Keys(m, t), lo, hi, k), Sep(Keys(m, t), lo, hi, k + 1), false)
    ensures var a, b := pre + LeafIdsOf(t.subs[..k]), LeafIdsOf(t.subs[k + 1..]) + post;
            && pre + LeafIds(t) + post == a + LeafIds(t.subs[k]) + b
            && Below(Flat(m, a), key) && Beyond(Flat(m, b), key)
  {
    InnerShape(m, t, d, lo, hi, top);
    assert Ids(t.subs)[k] == t.subs[k].id;
    assert Sep(Keys(m, t), lo, hi, k) <= key < Sep(Keys(m, t), lo, hi, k + 1);
    hide Good, Flat, LeafIdsOf;
    RowParts(t.subs, k);
    var x, y, z := LeafIdsOf(t.subs[..k]), LeafIds(t.subs[k]), LeafIdsOf(t.subs[k + 1..]);
    Regroup(pre, x, y, z, post);
    RowSides(m, Keys(m, t), t.subs, d, lo, hi, k, key);
    BelowBoth(m, pre, x, key);
    BeyondBoth(m, z, post, key);
  }

  lemma Regroup<T>(a: seq<T>, x: seq<T>, y: seq<T>, z: seq<T>, b: seq<T>)
    ensures a + (x + y + z) + b == (a + x) + y + (z + b)
  {}

  lemma BelowBoth(m: Mem, a: seq<Addr>, b: seq<Addr>, key: nat)
    requires Below(Flat(m, a), key) && Below(Flat(m, b), key)
    ensures Below(Flat(m, a + b), key)
  {
    hide Flat;
    FlatAppend(m, a, b);
  }

  lemma BeyondBoth(m: Mem, a: seq<Addr>, b: seq<Addr>, key: nat)
    requires Beyond(Flat(m, a), key) && Beyond(Flat(m, b), key)
    ensures Beyond(Flat(m, a + b), key)
  {
    hide Flat;
    FlatAppend(m, a, b);
  }

  lemma FirstChild(m: Mem, t: Tree, d: nat, lo: nat, hi: nat, top: bool)
    requires Good(m, t, d + 1, lo, hi, top)
    ensures t.Node? && t.subs != [] && t.id < |m| && m[t.id].Inner? && |m[t.id].kids| > 0 && m[t.id].nseps <= |m[t.id].seps|
    ensures m[t.id].kids[0] == t.subs[0].id && |Keys(m, t)| > 0
    ensures Good(m, t.subs[0], d, Sep(Keys(m, t), lo, hi, 0), Sep(Keys(m, t), lo, hi, 1), false)
    ensures LeafIds(t) == LeafIds(t.subs[0]) + LeafIdsOf(t.subs[1..])
  {
    InnerShape(m, t, d, lo, hi, top);
    assert Ids(t.subs)[0] == t.subs[0].id;
    assert Good(m, t.subs[0], d, Sep(Keys(m, t), lo, hi, 0), Sep(Keys(m, t), lo, hi, 0 + 1), false);
  }

  // ----- The pieces of GetSec -----

  lemma RootReady(m: Mem, t: Tree, d: nat)
    requires Good(m, t, d, 0, KEY_LIMIT, true) && Apart(t) && Chain(m, LeafIds(t))
    ensures Ready(m, t.id, d, t, 0, KEY_LIMIT, true) && Distinct(LeafIds(t))
  {
    hide Good;
    LeafIdsDistinct(t);
    var ids := LeafIds(t);
    forall i | 0 <= i < |ids| ensures RightOk(m, ids[i]) {
      assert LinkedAt(m, ids, i);
      if i + 1 < |ids| { assert LinkedAt(m, ids, i + 1); }
    }
  }

  lemma LeafTop(m: Mem, t: Tree)
    requires Ready(m, t.id, 0, t, 0, KEY_LIMIT, true)
    ensures t == Tip(t.id) && t.id < |m| && LeafOk(m[t.id], 0, KEY_LIMIT) && RightOk(m, t.id)
  {
    assert RightOk(m, LeafIds(t)[0]);
  }

  lemma LeafDoneTop(m: Mem, t: Tree, m': Mem, us: seq<Tree>, mid: nat, key: nat, dummy: Value, val: Value,
                    found: bool, sib: Option<Addr>)
    requires t.Tip? && t.id < |m| && Became(m, t, 0, 0, KEY_LIMIT, true, m', us, mid)
    requires found ==> m' == m && us == [t] && Entry(key, val) in Entries(m[t.id])
    requires !found ==> val == dummy && Took(m, [t.id], m', LeafIdsOf(us), key, dummy, 0, sib)
    ensures InsertDone(m, t, 0, 0, KEY_LIMIT, true, m', us, mid, key, dummy, val, found, 0, sib)
  {
    FlatOne(m, t.id);
  }

  lemma FoundOrNew(m: Mem, t: Tree, d: nat, m1: Mem, us: seq<Tree>, mid: nat, key: nat, dummy: Value, val: Value,
                   found: bool, p: nat, sib: Option<Addr>)
    requires InsertDone(m, t, d, 0, KEY_LIMIT, true, m1, us, mid, key, dummy, val, found, p, sib)
    requires Sorted(Flat(m, LeafIds(t)))
    ensures found <==> Has(Flat(m, LeafIds(t)), key)
    ensures 1 <= |us| <= 2 && us[0].id == t.id && (found ==> us == [t] && m1 == m)
    ensures Sorted(Flat(m1, LeafIdsOf(us)))
    ensures var s, s' := Flat(m, LeafIds(t)), Flat(m1, LeafIdsOf(us));
            ToMap(s') == if found then ToMap(s) else ToMap(s)[key := dummy]
  {
    hide Good, ApartAll, Owns, LeafStep;
    if found {
      LeafIdsOfOne(t);
    } else {
      GainIsUpdate(Flat(m, LeafIds(t)), Flat(m1, LeafIdsOf(us)), key, dummy);
    }
  }

  lemma ChainDone(m: Mem, t: Tree, d: nat, m1: Mem, us: seq<Tree>, mid: nat, key: nat, dummy: Value, val: Value,
                  found: bool, p: nat, sib: Option<Addr>)
    requires InsertDone(m, t, d, 0, KEY_LIMIT, true, m1, us, mid, key, dummy, val, found, p, sib)
    requires Chain(m, LeafIds(t)) && Distinct(LeafIds(t))
    ensures Chain(m1, LeafIdsOf(us))
  {
    hide Chain, Became, Took;
    if found {
      LeafIdsOfOne(t);
    } else {
      ChainKept(m, LeafIds(t), m1, LeafIdsOf(us), key, dummy, p, sib);
    }
  }

  lemma TopKept(m: Mem, t: Tree, d: nat, m1: Mem, us: seq<Tree>, mid: nat, key: nat, dummy: Value, val: Value,
                found: bool, p: nat, sib: Option<Addr>)
    requires InsertDone(m, t, d, 0, KEY_LIMIT, true, m1, us, mid, key, dummy, val, found, p, sib) && |us| == 1
    requires Chain(m, LeafIds(t)) && Distinct(LeafIds(t))
    ensures us[0].id == t.id && Good(m1, us[0], d, 0, KEY_LIMIT, true) && Apart(us[0]) && LeafIdsOf(us) == LeafIds(us[0])
    ensures Chain(m1, LeafIds(us[0]))
    ensures !found ==> val == dummy && Took(m, LeafIds(t), m1, LeafIds(us[0]), key, dummy, p, sib)
    ensures found ==> us[0] == t && m1 == m && Entry(key, val) in Flat(m, LeafIds(t))
  {
    hide Chain, Good, Took;
    ChainDone(m, t, d, m1, us, mid, key, dummy, val, found, p, sib);
    assert us == [us[0]];
    LeafIdsOfOne(us[0]);
  }

  lemma TopRaised(m: Mem, t: Tree, d: nat, m1: Mem, us: seq<Tree>, mid: nat, key: nat, dummy: Value, val: Value,
                  found: bool, p: nat, sib: Option<Addr>, m2: Mem)
    requires InsertDone(m, t, d, 0, KEY_LIMIT, true, m1, us, mid, key, dummy, val, found, p, sib) && |us| == 2
    requires Chain(m, LeafIds(t)) && Distinct(LeafIds(t))
    requires |m2| == |m1| + 1 && m2[..|m1|] == m1 && Holds(m2[|m1|], [mid], [t.id, us[1].id])
    ensures !found && val == dummy
    ensures Good(m2, Node(|m1|, us), d + 1, 0, KEY_LIMIT, true) && Apart(Node(|m1|, us))
    ensures Chain(m2, LeafIdsOf(us)) && Took(m, LeafIds(t), m2, LeafIdsOf(us), key, dummy, p, sib)
    ensures Flat(m2, LeafIdsOf(us)) == Flat(m1, LeafIdsOf(us))
  {
    RaisedParts(m, t, d, m1, us, mid, key, dummy, val, found, p, sib);
    forall a | 0 <= a < |m1| ensures m2[a] == m1[a] {
      assert m2[..|m1|][a] == m1[a];
    }
    ChainDone(m, t, d, m1, us, mid, key, dummy, val, found, p, sib);
    hide Row, Good, Chain, Took, InsertDone, Apart, LeafIdsOf, LeafIds;
    RaisedGood(m1, us, d, mid, m2, t.id);
    FlatFrame(m1, m2, LeafIdsOf(us));
    TookFrame(m, LeafIds(t), m1, m2, LeafIdsOf(us), key, dummy, p, sib);
    ChainFrame(m1, m2, LeafIdsOf(us));
  }

  lemma RaisedParts(m: Mem, t: Tree, d: nat, m1: Mem, us: seq<Tree>, mid: nat, key: nat, dummy: Value, val: Value,
                    found: bool, p: nat, sib: Option<Addr>)
    requires InsertDone(m, t, d, 0, KEY_LIMIT, true, m1, us, mid, key, dummy, val, found, p, sib) && |us| == 2
    ensures !found && val == dummy && Took(m, LeafIds(t), m1, LeafIdsOf(us), key, dummy, p, sib)
    ensures us[0].id == t.id && Row(m1, [mid], us, d, 0, KEY_LIMIT) && ApartAll(us)
    ensures forall i :: 0 <= i < |LeafIdsOf(us)| ==> LeafIdsOf(us)[i] < |m1|
  {
    hide Good, Took, Owns;
    PairRow(m1, us, d, mid);
    LeafIdsBelow(m1, [mid], us, d, 0, KEY_LIMIT);
  }

  lemma RaisedGood(m1: Mem, us: seq<Tree>, d: nat, mid: nat, m2: Mem, id: Addr)
    requires Row(m1, [mid], us, d, 0, KEY_LIMIT) && ApartAll(us) && |us| == 2 && us[0].id == id
    requires |m2| == |m1| + 1 && (forall a :: 0 <= a < |m1| ==> m2[a] == m1[a])
    requires Holds(m2[|m1|], [mid], [id, us[1].id])
    ensures Good(m2, Node(|m1|, us), d + 1, 0, KEY_LIMIT, true) && Apart(Node(|m1|, us))
  {
    GoodIds(m1, [mid], us, d, 0, KEY_LIMIT);
    hide Row, Good;
    RowFrame(m1, m2, [mid], us, d, 0, KEY_LIMIT);
    assert Ids(us) == [id, us[1].id];
    RowIsGood(m2, |m1|, [mid], us, d, 0, KEY_LIMIT, true);
  }

  lemma PairRow(m: Mem, us: seq<Tree>, d: nat, mid: nat)
    requires |us| == 2 && 0 < mid < KEY_LIMIT
    requires Good(m, us[0], d, 0, mid, false) && Good(m, us[1], d, mid, KEY_LIMIT, false)
    ensures Row(m, [mid], us, d, 0, KEY_LIMIT)
  {
    hide Good;
  }

  lemma ChainFrame(m: Mem, m': Mem, ids: seq<Addr>)
    requires Chain(m, ids) && |m| <= |m'| && forall a :: 0 <= a < |m| ==> m'[a] == m[a]
    ensures Chain(m', ids)
  {
    forall i | 0 <= i < |ids| ensures LinkedAt(m', ids, i) {
      assert LinkedAt(m, ids, i);
    }
  }

  // ----- The pieces of Descend -----

  lemma ChildInner(m: Mem, a: Addr, d: nat, t: Tree, lo: nat, hi: nat, top: bool)
    requires d > 0 && Ready(m, a, d, t, lo, hi, top)
    ensures t.Node? && t.id == a && a < |m| && Holds(m[a], Keys(m, t), Ids(t.subs)) && |t.subs| == m[a].nseps + 1
  {}

  lemma NodeParts(m: Mem, t: Tree, d: nat, lo: nat, hi: nat, top: bool)
    requires Good(m, t, d + 1, lo, hi, top) && Apart(t)
    ensures Row(m, Keys(m, t), t.subs, d, lo, hi) && ApartAll(t.subs)
  {}

  lemma ChildReady(m: Mem, a: Addr, d: nat, t: Tree, lo: nat, hi: nat, top: bool, k: nat, key: nat)
    requires d > 0 && Ready(m, a, d, t, lo, hi, top) && lo <= key < hi
    requires k <= m[a].nseps && (forall i :: 0 <= i < k ==> m[a].seps[i] <= key) && (k < m[a].nseps ==> key < m[a].seps[k])
    ensures k < |t.subs| && k <= |Keys(m, t)|
    ensures Sep(Keys(m, t), lo, hi, k) <= key < Sep(Keys(m, t), lo, hi, k + 1)
    ensures Ready(m, m[a].kids[k], d - 1, t.subs[k], Sep(Keys(m, t), lo, hi, k), Sep(Keys(m, t), lo, hi, k + 1), false)
  {
    assert Ids(t.subs)[k] == t.subs[k].id;
    NodeParts(m, t, d - 1, lo, hi, top);
    assert Good(m, t.subs[k], d - 1, Sep(Keys(m, t), lo, hi, k), Sep(Keys(m, t), lo, hi, k + 1), false);
    assert Apart(t.subs[k]);
    hide Good, Apart, LeafIdsOf;
    RowParts(t.subs, k);
    var ids, x, y := LeafIds(t), LeafIdsOf(t.subs[..k]), LeafIds(t.subs[k]);
    forall i | 0 <= i < |y| ensures RightOk(m, y[i]) {
      assert y[i] == ids[|x| + i];
      assert RightOk(m, ids[|x| + i]);
    }
  }

  lemma LeafReady(m: Mem, l: Addr, t: Tree, lo: nat, hi: nat)
    requires Ready(m, l, 0, t, lo, hi, false)
    ensures t == Tip(l) && l < |m| && LeafOk(m[l], lo, hi) && HALF - 1 <= m[l].num && RightOk(m, l)
  {
    assert RightOk(m, LeafIds(t)[0]);
  }

  lemma LeafDone(m: Mem, t: Tree, lo: nat, hi: nat, m': Mem, us: seq<Tree>, mid: nat, key: nat, dummy: Value, val: Value,
                 found: bool, sib: Option<Addr>)
    requires t.Tip? && t.id < |m| && Became(m, t, 0, lo, hi, false, m', us, mid)
    requires found ==> m' == m && us == [t] && Entry(key, val) in Entries(m[t.id])
    requires !found ==> val == dummy && Took(m, [t.id], m', LeafIdsOf(us), key, dummy, 0, sib)
    ensures InsertDone(m, t, 0, lo, hi, false, m', us, mid, key, dummy, val, found, 0, sib)
  {
    FlatOne(m, t.id);
  }

  lemma NotSplit(m: Mem, t: Tree, d: nat, lo: nat, hi: nat, m': Mem, us: seq<Tree>, mid: nat, key: nat, dummy: Value,
                 val: Value, p: nat, sib: Option<Addr>)
    requires InsertDone(m, t, d, lo, hi, false, m', us, mid, key, dummy, val, true, p, sib)
    ensures us == [t] && m' == m
  {}

  lemma SameBecame(m: Mem, t: Tree, d: nat, lo: nat, hi: nat, top: bool)
    requires Good(m, t, d, lo, hi, top) && Apart(t)
    ensures Became(m, t, d, lo, hi, top, m, [t], 0)
  {
    ApartOne(t);
  }

  lemma FoundDone(m: Mem, a: Addr, d: nat, t: Tree, lo: nat, hi: nat, top: bool, k: nat, key: nat, dummy: Value, val: Value,
                  kus: seq<Tree>, kmid: nat, p: nat, leafSib: Option<Addr>, m1: Mem)
    requires d > 0 && Ready(m, a, d, t, lo, hi, top) && k < |t.subs| && k <= |Keys(m, t)|
    requires InsertDone(m, t.subs[k], d - 1, Sep(Keys(m, t), lo, hi, k), Sep(Keys(m, t), lo, hi, k + 1), false, m1, kus,
                        kmid, key, dummy, val, true, p, leafSib)
    ensures InsertDone(m, t, d, lo, hi, top, m1, [t], 0, key, dummy, val, true, p, leafSib)
  {
    SameBecame(m, t, d, lo, hi, top);
    RowParts(t.subs, k);
    FlatParts(m, LeafIdsOf(t.subs[..k]), LeafIds(t.subs[k]), LeafIdsOf(t.subs[k + 1..]));
  }

  /** The node itself has not been written, and a new child starts between the bounds of child k. */
  ghost predicate NodeSame(m: Mem, t: Tree, lo: nat, hi: nat, k: nat, kus: seq<Tree>, kmid: nat, m1: Mem) {
    && t.Node? && k < |t.subs| && t.id < |m| <= |m1| && m1[t.id] == m[t.id] && 1 <= |kus| <= 2
    && m[t.id].Inner? && k <= m[t.id].nseps <= |m[t.id].seps|
    && (|kus| == 2 ==> Sep(Keys(m, t), lo, hi, k) < kmid < Sep(Keys(m, t), lo, hi, k + 1))
  }

  /** The row above has taken the entry, and its node is as it was. */
  ghost predicate RowDone(m: Mem, a: Addr, d: nat, t: Tree, lo: nat, hi: nat, top: bool, k: nat, key: nat, dummy: Value,
                          kus: seq<Tree>, kmid: nat, p: nat, leafSib: Option<Addr>, m1: Mem) {
    && d > 0 && t.id == a && ChildDone(m, t, d - 1, lo, hi, top, k, m1, kus, kmid)
    && NodeSame(m, t, lo, hi, k, kus, kmid, m1)
    && Took(m, LeafIds(t), m1, LeafIdsOf(NewRow(t.subs, k, kus)), key, dummy, p, leafSib)
    && (forall i :: 0 <= i < |LeafIdsOf(NewRow(t.subs, k, kus))| ==> LeafIdsOf(NewRow(t.subs, k, kus))[i] < |m1|)
  }

  lemma ChildTook(m: Mem, a: Addr, d: nat, t: Tree, lo: nat, hi: nat, top: bool, k: nat, key: nat, dummy: Value, val: Value,
                  kus: seq<Tree>, kmid: nat, p: nat, leafSib: Option<Addr>, m1: Mem)
    requires d > 0 && Ready(m, a, d, t, lo, hi, top) && k < |t.subs| && k <= |Keys(m, t)|
    requires Sep(Keys(m, t), lo, hi, k) <= key < Sep(Keys(m, t), lo, hi, k + 1)
    requires InsertDone(m, t.subs[k], d - 1, Sep(Keys(m, t), lo, hi, k), Sep(Keys(m, t), lo, hi, k + 1), false, m1, kus,
                        kmid, key, dummy, val, false, p, leafSib)
    ensures RowDone(m, a, d, t, lo, hi, top, k, key, dummy, kus, kmid, |LeafIdsOf(t.subs[..k])| + p, leafSib, m1)
    ensures NodeSame(m, t, lo, hi, k, kus, kmid, m1) && val == dummy
  {
    hide Ready, NewRow, LeafIdsOf, LeafIds, ChildDone, InsertDone, Took;
    ChildFacts(m, a, d, t, lo, hi, top, k, key, dummy, val, kus, kmid, p, leafSib, m1);
    ChildLeaves(m, t, d - 1, lo, hi, top, k, kus, kmid, m1);
    ChildRowTook(m, t, d - 1, lo, hi, top, k, key, dummy, kus, kmid, p, leafSib, m1);
  }

  lemma ChildFacts(m: Mem, a: Addr, d: nat, t: Tree, lo: nat, hi: nat, top: bool, k: nat, key: nat, dummy: Value, val: Value,
                   kus: seq<Tree>, kmid: nat, p: nat, leafSib: Option<Addr>, m1: Mem)
    requires d > 0 && Ready(m, a, d, t, lo, hi, top) && k < |t.subs| && k <= |Keys(m, t)|
    requires InsertDone(m, t.subs[k], d - 1, Sep(Keys(m, t), lo, hi, k), Sep(Keys(m, t), lo, hi, k + 1), false, m1, kus,
                        kmid, key, dummy, val, false, p, leafSib)
    ensures ChildDone(m, t, d - 1, lo, hi, top, k, m1, kus, kmid) && val == dummy
    ensures a == t.id && t.Node? && a < |m| <= |m1| && 1 <= |kus| <= 2
    ensures m[t.id].Inner? && k <= m[t.id].nseps <= |m[t.id].seps|
    ensures |kus| == 2 ==> Sep(Keys(m, t), lo, hi, k) < kmid < Sep(Keys(m, t), lo, hi, k + 1)
    ensures Took(m, LeafIds(t.subs[k]), m1, LeafIdsOf(kus), key, dummy, p, leafSib)
  {
    hide Took, LeafIdsOf, Owns, OneOwns;
  }

  lemma ChildLeaves(m: Mem, t: Tree, d: nat, lo: nat, hi: nat, top: bool, k: nat, kus: seq<Tree>, kmid: nat, m1: Mem)
    requires ChildDone(m, t, d, lo, hi, top, k, m1, kus, kmid)
    ensures m1[t.id] == m[t.id]
    ensures forall i :: 0 <= i < |LeafIdsOf(NewRow(t.subs, k, kus))| ==> LeafIdsOf(NewRow(t.subs, k, kus))[i] < |m1|
  {
    ChildRow(m, t, d, lo, hi, top, k, m1, kus, kmid);
    LeafIdsBelow(m1, NewKeys(Keys(m, t), k, kus, kmid), NewRow(t.subs, k, kus), d, lo, hi);
  }

  lemma ChildRowTook(m: Mem, t: Tree, d: nat, lo: nat, hi: nat, top: bool, k: nat, key: nat, dummy: Value,
                     kus: seq<Tree>, kmid: nat, p: nat, leafSib: Option<Addr>, m1: Mem)
    requires ChildDone(m, t, d, lo, hi, top, k, m1, kus, kmid)
    requires Sep(Keys(m, t), lo, hi, k) <= key < Sep(Keys(m, t), lo, hi, k + 1)
    requires Took(m, LeafIds(t.subs[k]), m1, LeafIdsOf(kus), key, dummy, p, leafSib)
    ensures Took(m, LeafIds(t), m1, LeafIdsOf(NewRow(t.subs, k, kus)), key, dummy, |LeafIdsOf(t.subs[..k])| + p, leafSib)
  {
    hide Good, Row, Apart, ApartAll, Took, NewRow, LeafIdsOf, Owns, Alike;
    InnerShape(m, t, d, lo, hi, top);
    NodeParts(m, t, d, lo, hi, top);
    SubsBelow(m, t, d, lo, hi, top);
    RowTook(m, m1, Keys(m, t), t.subs, d, lo, hi, k, kus, key, dummy, p, leafSib);
  }

  lemma LeafIdsBelow(m: Mem, keys: seq<nat>, ts: seq<Tree>, d: nat, lo: nat, hi: nat)
    requires Row(m, keys, ts, d, lo, hi)
    ensures forall i :: 0 <= i < |LeafIdsOf(ts)| ==> LeafIdsOf(ts)[i] < |m|
  {
    OwnLeavesAll(ts);
    GoodIds(m, keys, ts, d, lo, hi);
  }

  lemma NoNewChild(m: Mem, a: Addr, d: nat, t: Tree, lo: nat, hi: nat, top: bool, k: nat, key: nat, dummy: Value,
                   kus: seq<Tree>, kmid: nat, p: nat, leafSib: Option<Addr>, m1: Mem)
    requires RowDone(m, a, d, t, lo, hi, top, k, key, dummy, kus, kmid, p, leafSib, m1) && |kus| == 1
    ensures InsertDone(m, t, d, lo, hi, top, m1, [Node(a, NewRow(t.subs, k, kus))], 0, key, dummy, dummy, false, p, leafSib)
  {
    IdsReplaced(t.subs, k, kus);
    RoomLeft(m, t, d - 1, lo, hi, top, k, m1, kus, kmid, m1);
    LeafIdsOfOne(Node(a, NewRow(t.subs, k, kus)));
  }

  lemma NewChildFits(m: Mem, a: Addr, d: nat, t: Tree, lo: nat, hi: nat, top: bool, k: nat, key: nat, dummy: Value,
                     kus: seq<Tree>, kmid: nat, p: nat, leafSib: Option<Addr>, m1: Mem, m2: Mem)
    requires RowDone(m, a, d, t, lo, hi, top, k, key, dummy, kus, kmid, p, leafSib, m1) && |kus| == 2
    requires |m2| == |m1| && (forall b :: 0 <= b < |m1| && b != a ==> m2[b] == m1[b])
    requires k <= |Keys(m, t)| && k < |Ids(t.subs)|
    requires Holds(m2[a], SeqIn(Keys(m, t), k, kmid), SeqIn(Ids(t.subs), k + 1, kus[1].id))
    ensures InsertDone(m, t, d, lo, hi, top, m2, [Node(a, NewRow(t.subs, k, kus))], 0, key, dummy, dummy, false, p, leafSib)
  {
    IdsReplaced(t.subs, k, kus);
    RoomLeft(m, t, d - 1, lo, hi, top, k, m1, kus, kmid, m2);
    LeafIdsOfOne(Node(a, NewRow(t.subs, k, kus)));
    TookFrame(m, LeafIds(t), m1, m2, LeafIdsOf(NewRow(t.subs, k, kus)), key, dummy, p, leafSib);
  }

  lemma NewChildSplits(m: Mem, a: Addr, d: nat, t: Tree, lo: nat, hi: nat, top: bool, k: nat, key: nat, dummy: Value,
                       kus: seq<Tree>, kmid: nat, p: nat, leafSib: Option<Addr>, m1: Mem, m2: Mem, upKey: nat)
    requires RowDone(m, a, d, t, lo, hi, top, k, key, dummy, kus, kmid, p, leafSib, m1) && |kus| == 2
    requires |m2| == |m1| + 1 && (forall b :: 0 <= b < |m1| && b != a ==> m2[b] == m1[b])
    requires |Keys(m, t)| == SLOTS && k <= SLOTS && |Ids(t.subs)| == SLOTS + 1
    requires var keys, ids, c := SeqIn(Keys(m, t), k, kmid), SeqIn(Ids(t.subs), k + 1, kus[1].id), CutAt(k);
             Holds(m2[a], keys[..c], ids[..c + 1]) && Holds(m2[|m1|], keys[c + 1..], ids[c + 1..]) && upKey == keys[c]
    ensures var row, c := NewRow(t.subs, k, kus), CutAt(k);
            c < |row| && InsertDone(m, t, d, lo, hi, top, m2, [Node(a, row[..c + 1]), Node(|m1|, row[c + 1..])], upKey,
                                    key, dummy, dummy, false, p, leafSib)
  {
    hide Good, ChildDone, Took, Became, NewRow, NewKeys, SeqIn, LeafIdsOf, LeafIds, Keys;
    var row, c := NewRow(t.subs, k, kus), CutAt(k);
    NewRowSize(t.subs, k, kus);
    CutLeafIds(row, c, a, |m1|);
    SplitBecame(m, t, d - 1, lo, hi, top, k, kus, kmid, m1, m2, upKey);
    SplitKept(m1, m2, a);
    TookFrame(m, LeafIds(t), m1, m2, LeafIdsOf(row), key, dummy, p, leafSib);
  }

  lemma SplitKept(m1: Mem, m2: Mem, a: Addr)
    requires a < |m1| <= |m2| && (forall b :: 0 <= b < |m1| && b != a ==> m2[b] == m1[b])
    requires m1[a].Inner? && m2[a].Inner?
    ensures forall b :: 0 <= b < |m1| ==> m2[b] == m1[b] || (m1[b].Inner? && m2[b].Inner?)
  {}

  lemma SplitBecame(m: Mem, t: Tree, d: nat, lo: nat, hi: nat, top: bool, k: nat, kus: seq<Tree>, kmid: nat, m1: Mem,
                    m2: Mem, upKey: nat)
    requires ChildDone(m, t, d, lo, hi, top, k, m1, kus, kmid) && |kus| == 2
    requires |m2| == |m1| + 1 && (forall b :: 0 <= b < |m1| && b != t.id ==> m2[b] == m1[b])
    requires |Keys(m, t)| == SLOTS && k <= SLOTS && |Ids(t.subs)| == SLOTS + 1
    requires var keys, ids, c := SeqIn(Keys(m, t), k, kmid), SeqIn(Ids(t.subs), k + 1, kus[1].id), CutAt(k);
             Holds(m2[t.id], keys[..c], ids[..c + 1]) && Holds(m2[|m1|], keys[c + 1..], ids[c + 1..]) && upKey == keys[c]
    ensures var row, c := NewRow(t.subs, k, kus), CutAt(k);
            c < |row| && Became(m, t, d + 1, lo, hi, top, m2, [Node(t.id, row[..c + 1]), Node(|m1|, row[c + 1..])], upKey)
  {
    IdsReplaced(t.subs, k, kus);
    NewRowSize(t.subs, k, kus);
    assert NewKeys(Keys(m, t), k, kus, kmid) == SeqIn(Keys(m, t), k, kmid);
    hide Good, Became, NewRow, NewKeys, SeqIn, Keys, Holds;
    NodeSplit(m, t, d, lo, hi, top, k, m1, kus, kmid, m2, CutAt(k));
  }

  /** Both probes lie between the bounds of child k, so they pick the half that holds it. */
  lemma ProbeSide(m: Mem, a: Addr, d: nat, t: Tree, lo: nat, hi: nat, top: bool, k: nat, probe: nat)
    requires d > 0 && Ready(m, a, d, t, lo, hi, top) && k < |t.subs| && k <= |Keys(m, t)|
    requires Sep(Keys(m, t), lo, hi, k) <= probe < Sep(Keys(m, t), lo, hi, k + 1)
    ensures m[a].nseps == SLOTS ==> (probe >= m[a].seps[HALF - 1] <==> k >= HALF)
  {
    var keys := Keys(m, t);
    if m[a].nseps == SLOTS {
      assert Row(m, keys, t.subs, d - 1, lo, hi);
      if k > HALF {
        SepIncreasing(m, keys, t.subs, d - 1, lo, hi, HALF, k);
      } else if k + 1 < HALF {
        SepIncreasing(m, keys, t.subs, d - 1, lo, hi, k + 1, HALF);
      }
    }
  }

  lemma LeafIsGood(m: Mem, l: Addr, lo: nat, hi: nat, top: bool)
    requires l < |m| && LeafOk(m[l], lo, hi) && (top || HALF - 1 <= m[l].num)
    ensures Good(m, Tip(l), 0, lo, hi, top)
  {}

  lemma TipIds(us: seq<Tree>)
    requires 1 <= |us| <= 2 && forall i :: 0 <= i < |us| ==> us[i].Tip?
    ensures LeafIdsOf(us) == if |us| == 1 then [us[0].id] else [us[0].id, us[1].id]
  {
    LeafIdsOfOne(us[0]);
    if |us| == 1 {
      assert us == [us[0]];
    } else {
      LeafIdsOfOne(us[1]);
      assert us == [us[0]] + [us[1]];
      LeafIdsOfAppend([us[0]], [us[1]]);
    }
  }
}
