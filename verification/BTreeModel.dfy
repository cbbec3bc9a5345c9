/**
  The memory of the secondary index: leaf and inner nodes with their fixed-size
  buffers, and what makes a set of nodes a B+ tree.  A pointer is an index into
  the memory; nodes are never freed.
*/
module BTreeModel {
  import opened Common

  type Addr = nat

  /** A SecondNode pointer; None is NULL. */
  type Value = Option<nat>

  const SLOTS: nat := 15    // IIM and IIN
  const HALF: nat := 8      // (IIN + 1) / 2
  const KEY_LIMIT: nat := 0x1_0000_0000_0000_0000

  datatype Rec =
    | Leaf(num: nat, keys: seq<nat>, vals: seq<Value>, left: Option<Addr>, right: Option<Addr>, seqno: nat)
    | Inner(nseps: nat, seps: seq<nat>, kids: seq<Addr>)

  type Mem = seq<Rec>

  function SeqIn<T>(s: seq<T>, k: nat, x: T): seq<T>
    requires k <= |s|
  {
    s[..k] + [x] + s[k..]
  }

  // ----- Entries -----

  datatype Entry = Entry(key: nat, val: Value)

  function Entries(r: Rec): seq<Entry> {
    if r.Leaf? && r.num <= |r.keys| && r.num <= |r.vals|
    then seq(r.num, i requires 0 <= i < r.num => Entry(r.keys[i], r.vals[i])) else []
  }

  function EntriesAt(m: Mem, a: Addr): seq<Entry> {
    if a < |m| then Entries(m[a]) else []
  }

  /** The entries of a list of leaves, in order. */
  function Flat(m: Mem, ids: seq<Addr>): seq<Entry> {
    if ids == [] then [] else EntriesAt(m, ids[0]) + Flat(m, ids[1..])
  }

  ghost predicate Sorted(s: seq<Entry>) {
    forall i, j :: 0 <= i < j < |s| ==> s[i].key < s[j].key
  }

  ghost predicate Within(s: seq<Entry>, lo: nat, hi: nat) {
    forall i :: 0 <= i < |s| ==> lo <= s[i].key < hi
  }

  ghost predicate Has(s: seq<Entry>, key: nat) {
    exists i :: 0 <= i < |s| && s[i].key == key
  }

  /** s' is s with a new entry at its place k. */
  ghost predicate Inserts(s: seq<Entry>, k: nat, s': seq<Entry>, key: nat, v: Value) {
    && k <= |s|
    && (forall i :: 0 <= i < k ==> s[i].key < key)
    && (forall i :: k <= i < |s| ==> key < s[i].key)
    && s' == s[..k] + [Entry(key, v)] + s[k..]
  }

  // ----- Trees over a memory -----

  datatype Tree = Tip(id: Addr) | Node(id: Addr, subs: seq<Tree>)

  ghost predicate Owns(t: Tree, a: Addr) {
    a == t.id || (t.Node? && OneOwns(t.subs, a))
  }

  ghost predicate OneOwns(ts: seq<Tree>, a: Addr) {
    exists i :: 0 <= i < |ts| && Owns(ts[i], a)
  }

  /** No node is used twice. */
  ghost predicate Apart(t: Tree) {
    t.Node? ==> !OneOwns(t.subs, t.id) && ApartAll(t.subs)
  }

  ghost predicate ApartAll(ts: seq<Tree>) {
    && (forall i :: 0 <= i < |ts| ==> Apart(ts[i]))
    && (forall i, j :: 0 <= i < j < |ts| ==> Disjoint(ts[i], ts[j]))
  }

  ghost predicate Disjoint(t: Tree, u: Tree) {
    forall a :: Owns(t, a) ==> !Owns(u, a)
  }

  function LeafIds(t: Tree): seq<Addr> {
    match t
    case Tip(id) => [id]
    case Node(_, subs) => LeafIdsOf(subs)
  }

  function LeafIdsOf(ts: seq<Tree>): seq<Addr> {
    if ts == [] then [] else LeafIds(ts[0]) + LeafIdsOf(ts[1..])
  }

  function Ids(ts: seq<Tree>): seq<Addr> {
    seq(|ts|, i requires 0 <= i < |ts| => ts[i].id)
  }

  // ----- Well-formed trees -----

  /** The i-th bound of a row of subtrees: the row's ends and the keys between. */
  function Sep(keys: seq<nat>, lo: nat, hi: nat, i: nat): nat
    requires i <= |keys| + 1
  {
    if i == 0 then lo else if i == |keys| + 1 then hi else keys[i - 1]
  }

  ghost predicate LeafOk(r: Rec, lo: nat, hi: nat) {
    && r.Leaf? && |r.keys| == SLOTS && |r.vals| == SLOTS && r.num <= SLOTS
    && Sorted(Entries(r)) && Within(Entries(r), lo, hi)
  }

  /** The used part of an inner node is the given keys and children. */
  ghost predicate Holds(r: Rec, keys: seq<nat>, kids: seq<Addr>) {
    && r.Inner? && |r.seps| == SLOTS && |r.kids| == SLOTS + 1 && r.nseps <= SLOTS
    && keys == r.seps[..r.nseps] && kids == r.kids[..r.nseps + 1]
  }

  /** Subtrees of height d whose keys lie between the row's bounds. */
  ghost predicate Row(m: Mem, keys: seq<nat>, ts: seq<Tree>, d: nat, lo: nat, hi: nat)
    decreases d, 1
  {
    && |ts| == |keys| + 1
    && (forall i :: 0 <= i <= |keys| ==> Sep(keys, lo, hi, i) < Sep(keys, lo, hi, i + 1))
    && (forall i :: 0 <= i < |ts| ==> Good(m, ts[i], d, Sep(keys, lo, hi, i), Sep(keys, lo, hi, i + 1), false))
  }

  /** A B+ tree of height d with keys in [lo, hi); only the top may hold fewer than 7 keys. */
  ghost predicate Good(m: Mem, t: Tree, d: nat, lo: nat, hi: nat, top: bool)
    decreases d, 0
  {
    && t.id < |m|
    && var r := m[t.id];
    if d == 0 then
      t.Tip? && LeafOk(r, lo, hi) && (top || HALF - 1 <= r.num)
    else
      && t.Node? && r.Inner? && r.nseps <= |r.seps|
      && Holds(r, r.seps[..r.nseps], Ids(t.subs))
      && (if top then 1 <= r.nseps else HALF - 1 <= r.nseps)
      && Row(m, r.seps[..r.nseps], t.subs, d - 1, lo, hi)
  }

  ghost predicate LinkedAt(m: Mem, ids: seq<Addr>, i: nat)
    requires i < |ids|
  {
    && ids[i] < |m| && m[ids[i]].Leaf?
    && m[ids[i]].right == (if i + 1 < |ids| then Some(ids[i + 1]) else None)
    && m[ids[i]].left == (if i > 0 then Some(ids[i - 1]) else None)
  }

  /** The leaves are doubly linked in this order. */
  ghost predicate Chain(m: Mem, ids: seq<Addr>) {
    ids != [] && forall i :: 0 <= i < |ids| ==> LinkedAt(m, ids, i)
  }

  // ----- What an insertion does -----

  /** Equal but for the left link. */
  ghost predicate Alike(r: Rec, r': Rec) {
    r' == r || (r.Leaf? && r'.Leaf? && r'.(left := r.left) == r)
  }

  /** Subtree t became the one or two trees ts, split at mid. */
  ghost predicate Became(m: Mem, t: Tree, d: nat, lo: nat, hi: nat, top: bool, m': Mem, ts: seq<Tree>, mid: nat) {
    && |m| <= |m'| && 1 <= |ts| <= 2 && ts[0].id == t.id
    && (|ts| == 1 ==> Good(m', ts[0], d, lo, hi, top))
    && (|ts| == 2 ==>
          lo < mid < hi && Good(m', ts[0], d, lo, mid, false) && Good(m', ts[1], d, mid, hi, false))
    && ApartAll(ts)
    && (forall i, a: Addr :: 0 <= i < |ts| && Owns(ts[i], a) ==> Owns(t, a) || |m| <= a < |m'|)
    && (forall a :: 0 <= a < |m| && !Owns(t, a) ==> Alike(m[a], m'[a]))
  }

  /** Leaf l took the new entry; if it was full its upper part went to a new leaf right of it. */
  ghost predicate LeafStep(m: Mem, m': Mem, l: Addr, sib: Option<Addr>, key: nat, v: Value) {
    && l < |m| <= |m'| && m[l].Leaf? && m'[l].Leaf?
    && (forall a :: 0 <= a < |m| ==> m'[a].Leaf? == m[a].Leaf?)
    && m'[l].seqno == m[l].seqno + 1 && m'[l].left == m[l].left
    && match sib {
         case None =>
           && (exists k :: Inserts(Entries(m[l]), k, Entries(m'[l]), key, v))
           && m'[l].right == m[l].right
           && (forall a :: 0 <= a < |m| && m[a].Leaf? && a != l ==> m'[a] == m[a])
         case Some(n) =>
           && |m| <= n < |m'| && m'[n].Leaf?
           && (exists k :: Inserts(Entries(m[l]), k, Entries(m'[l]) + Entries(m'[n]), key, v))
           && Entries(m'[n]) != []
           && m'[l].right == Some(n) && m'[n].left == Some(l) && m'[n].right == m[l].right && m'[n].seqno == 0
           && (forall a :: 0 <= a < |m| && m[a].Leaf? && a != l ==>
                 m'[a] == if m[l].right == Some(a) then m[a].(left := Some(n)) else m[a])
       }
  }

  /** The list of leaves after leaf p took an entry. */
  function NewIds(ids: seq<Addr>, p: nat, sib: Option<Addr>): seq<Addr>
    requires p < |ids|
  {
    if sib.None? then ids else ids[..p + 1] + [sib.value] + ids[p + 1..]
  }
}
