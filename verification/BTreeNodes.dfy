/** The loops that work inside one node of the index. */
module BTreeNodes {
  import opened Common
  import opened BTreeModel

  /** The first position in a leaf whose key is not below the given one. */
  method FindInLeaf(r: Rec, key: nat) returns (k: nat)
    requires r.Leaf? && r.num <= |r.keys| && r.num <= |r.vals|
    ensures k <= r.num && (forall i :: 0 <= i < k ==> r.keys[i] < key) && (k < r.num ==> key <= r.keys[k])
  {
    k := 0;
    while k < r.num && r.keys[k] < key
      invariant k <= r.num && forall i :: 0 <= i < k ==> r.keys[i] < key
    {
      k := k + 1;
    }
  }

  /** The first position in a leaf whose key is above the given one. */
  method FindAbove(r: Rec, key: nat) returns (k: nat)
    requires r.Leaf? && r.num <= |r.keys|
    ensures k <= r.num && (forall i :: 0 <= i < k ==> r.keys[i] <= key) && (k < r.num ==> key < r.keys[k])
  {
    k := 0;
    while k < r.num && key >= r.keys[k]
      invariant k <= r.num && forall i :: 0 <= i < k ==> r.keys[i] <= key
    {
      k := k + 1;
    }
  }

  /** The child of an inner node that covers the key. */
  method FindChild(r: Rec, key: nat) returns (k: nat)
    requires r.Inner? && r.nseps <= |r.seps|
    ensures k <= r.nseps && (forall i :: 0 <= i < k ==> r.seps[i] <= key) && (k < r.nseps ==> key < r.seps[k])
  {
    k := 0;
    while k < r.nseps && key >= r.seps[k]
      invariant k <= r.nseps && forall i :: 0 <= i < k ==> r.seps[i] <= key
    {
      k := k + 1;
    }
  }

  /** Shifts the slots from k on up by one and fills slot k. */
  method OpenSlot<T>(b: seq<T>, num: nat, k: nat, x: T) returns (c: seq<T>)
    requires k <= num < |b|
    ensures |c| == |b| && c[..num + 1] == b[..k] + [x] + b[k..num] && c[num + 1..] == b[num + 1..]
  {
    c := b;
    var i := num;
    while i > k
      invariant k <= i <= num && |c| == |b|
      invariant forall j :: 0 <= j <= i ==> c[j] == b[j]
      invariant forall j :: i < j <= num ==> c[j] == b[j - 1]
      invariant c[num + 1..] == b[num + 1..]
    {
      c := c[i := c[i - 1]];
      i := i - 1;
    }
    c := c[k := x];
  }

  /** Copies n slots from position `from` of b to the front of c. */
  method CopySlots<T>(b: seq<T>, from: nat, n: nat, c: seq<T>) returns (c': seq<T>)
    requires from + n <= |b| && n <= |c|
    ensures |c'| == |c| && c'[..n] == b[from..from + n]
  {
    c' := c;
    var i := 0;
    while i < n
      invariant i <= n && |c'| == |c| && forall j :: 0 <= j < i ==> c'[j] == b[from + j]
    {
      c' := c'[i := b[from + i]];
      i := i + 1;
    }
  }

  /** The insertion part of LeafInsert. */
  method PutInLeaf(r: Rec, k: nat, key: nat, v: Value) returns (r': Rec)
    requires r.Leaf? && |r.keys| == SLOTS && |r.vals| == SLOTS && k <= r.num < SLOTS
    ensures r'.Leaf? && |r'.keys| == SLOTS && |r'.vals| == SLOTS && r'.num == r.num + 1
    ensures Entries(r') == Entries(r)[..k] + [Entry(key, v)] + Entries(r)[k..]
    ensures r'.left == r.left && r'.right == r.right && r'.seqno == r.seqno
  {
    var keys := OpenSlot(r.keys, r.num, k, key);
    var vals := OpenSlot(r.vals, r.num, k, v);
    r' := r.(keys := keys, vals := vals, num := r.num + 1);
    forall i | 0 <= i < r'.num
      ensures Entries(r')[i] == (Entries(r)[..k] + [Entry(key, v)] + Entries(r)[k..])[i]
    {
      assert keys[i] == keys[..r.num + 1][i] && vals[i] == vals[..r.num + 1][i];
    }
  }

  /** The splitting part of LeafInsert: the upper entries move to a new leaf. */
  method SplitLeaf(r: Rec, a: Addr) returns (l: Rec, n: Rec)
    requires r.Leaf? && |r.keys| == SLOTS && |r.vals| == SLOTS && r.num == SLOTS
    ensures l == r.(num := HALF)
    ensures n.Leaf? && |n.keys| == SLOTS && |n.vals| == SLOTS && n.num == SLOTS - HALF
    ensures Entries(l) == Entries(r)[..HALF] && Entries(n) == Entries(r)[HALF..]
    ensures n.left == Some(a) && n.right == r.right && n.seqno == 0
  {
    l := r.(num := HALF);
    var keys := CopySlots<nat>(r.keys, HALF, SLOTS - HALF, seq(SLOTS, _ => 0));
    var vals := CopySlots(r.vals, HALF, SLOTS - HALF, seq(SLOTS, _ => None));
    n := Leaf(SLOTS - HALF, keys, vals, Some(a), r.right, 0);
    forall i | 0 <= i < n.num ensures Entries(n)[i] == Entries(r)[HALF..][i] {
      assert keys[i] == keys[..SLOTS - HALF][i] && vals[i] == vals[..SLOTS - HALF][i];
    }
  }

  /** The insertion part of InnerInsert: a separator, and a child to its right. */
  method PutInInner(r: Rec, k: nat, key: nat, kid: Addr) returns (r': Rec)
    requires r.Inner? && |r.seps| == SLOTS && |r.kids| == SLOTS + 1 && k <= r.nseps < SLOTS
    ensures r'.Inner? && r'.nseps == r.nseps + 1
    ensures Holds(r', SeqIn(r.seps[..r.nseps], k, key), SeqIn(r.kids[..r.nseps + 1], k + 1, kid))
    ensures r'.seps[r.nseps + 1..] == r.seps[r.nseps + 1..]
  {
    var keys := OpenSlot(r.seps, r.nseps, k, key);
    var kids := OpenSlot(r.kids, r.nseps + 1, k + 1, kid);
    r' := Inner(r.nseps + 1, keys, kids);
    assert r.seps[..r.nseps][k..] == r.seps[k..r.nseps];
    assert r.kids[..r.nseps + 1][k + 1..] == r.kids[k + 1..r.nseps + 1];
  }

  /** The splitting part of InnerInsert: key 7 goes up and is left in the last slot. */
  method SplitInner(r: Rec) returns (l: Rec, n: Rec, upKey: nat)
    requires r.Inner? && |r.seps| == SLOTS && |r.kids| == SLOTS + 1 && r.nseps == SLOTS
    ensures Holds(l, r.seps[..HALF - 1], r.kids[..HALF]) && Holds(n, r.seps[HALF..], r.kids[HALF..])
    ensures upKey == r.seps[HALF - 1] && l.seps[SLOTS - 1] == upKey
  {
    var keys := CopySlots<nat>(r.seps, HALF, SLOTS - HALF, seq(SLOTS, _ => 0));
    var kids := CopySlots<Addr>(r.kids, HALF, SLOTS - HALF, seq(SLOTS + 1, _ => 0));
    kids := kids[SLOTS - HALF := r.kids[SLOTS]];
    n := Inner(SLOTS - HALF, keys, kids);
    upKey := r.seps[HALF - 1];
    l := r.(nseps := HALF - 1, seps := r.seps[SLOTS - 1 := upKey]);
    assert n.kids[..SLOTS - HALF] == r.kids[HALF..SLOTS];
    assert l.seps[..HALF - 1] == r.seps[..HALF - 1];
  }
}
