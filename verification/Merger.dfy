/** MergingIterator: any walk over the children is a walk over their sorted merge. */
module Merger {
  import opened Common

  /** Keys are only compared; every countable order embeds in the reals. */
  type Key = real

  /** A child iterator: a sorted list and a position, valid when it is an index. */
  datatype Child = Child(keys: seq<Key>, pos: int)
  {
    predicate IsValid() { 0 <= pos < |keys| }
  }

  ghost predicate Ascending(keys: seq<Key>) {
    forall i, j :: 0 <= i < j < |keys| ==> keys[i] < keys[j]
  }

  /** Seek of a child: the first key at or after the target. */
  method SeekChild(c: Child, target: Key) returns (r: Child)
    requires Ascending(c.keys)
    ensures r.keys == c.keys && 0 <= r.pos <= |c.keys|
    ensures (forall j :: 0 <= j < r.pos ==> c.keys[j] < target) && (forall j :: r.pos <= j < |c.keys| ==> target <= c.keys[j])
  {
    var i := 0;
    while i < |c.keys| && c.keys[i] < target
      invariant 0 <= i <= |c.keys| && forall j :: 0 <= j < i ==> c.keys[j] < target
    {
      i := i + 1;
    }
    r := c.(pos := i);
  }

  // ----- The merged sequence of keys -----

  ghost predicate HasKey(cs: seq<Child>, k: Key) {
    exists i :: 0 <= i < |cs| && k in cs[i].keys
  }

  ghost predicate ChildrenOk(cs: seq<Child>) {
    && (forall i :: 0 <= i < |cs| ==> Ascending(cs[i].keys))
    && (forall i, j, x :: 0 <= i < j < |cs| && x in cs[i].keys ==> x !in cs[j].keys)
  }

  ghost predicate SameKeys(a: seq<Child>, b: seq<Child>) {
    |a| == |b| && forall i :: 0 <= i < |a| ==> a[i].keys == b[i].keys
  }

  /** k is the least key that satisfies the bound: above b, or at or above it. */
  ghost predicate LeastFrom(cs: seq<Child>, b: Option<Key>, strict: bool, k: Key) {
    HasKey(cs, k) && Past(b, strict, k) && forall x :: HasKey(cs, x) && Past(b, strict, x) ==> k <= x
  }

  /** Past the bound; no bound holds nothing back. */
  predicate Past(b: Option<Key>, strict: bool, x: Key) { b.None? || b.value < x || (!strict && b.value == x) }

  predicate Under(b: Option<Key>, x: Key) { b.None? || x < b.value }

  ghost predicate GreatestBelow(cs: seq<Child>, b: Option<Key>, k: Key) {
    HasKey(cs, k) && Under(b, k) && forall x :: HasKey(cs, x) && Under(b, x) ==> x <= k
  }

  // ----- Positions of all children -----

  /** Child c stands at its first key past the bound. */
  ghost predicate StandsPast(c: Child, b: Option<Key>, strict: bool) {
    && 0 <= c.pos <= |c.keys|
    && (forall j :: 0 <= j < c.pos ==> !Past(b, strict, c.keys[j]))
    && (forall j :: c.pos <= j < |c.keys| ==> Past(b, strict, c.keys[j]))
  }

  /** Child c stands at its last key below the bound. */
  ghost predicate StandsBelow(c: Child, b: Option<Key>) {
    && -1 <= c.pos < |c.keys|
    && (forall j :: 0 <= j <= c.pos ==> Under(b, c.keys[j]))
    && (forall j :: c.pos < j < |c.keys| ==> !Under(b, c.keys[j]))
  }

  class MergingIterator {
    var children: seq<Child>
    var current: Option<nat>
    var forward: bool

    predicate IsValid()
      reads this
    {
      current.Some?
    }

    ghost predicate Inv()
      reads this
    {
      ChildrenOk(children) && (current.Some? ==> Placed(children, current.value, forward))
    }

    ghost function Key(): Key
      requires Inv() && IsValid()
      reads this
    {
      children[current.value].keys[children[current.value].pos]
    }

    constructor (cs: seq<Child>)
      requires ChildrenOk(cs)
      ensures Inv() && children == cs && !IsValid()
    {
      children, current, forward := cs, None, true;
    }

    /** The smallest key under any child; the direction is then forward. */
    method FindSmallest(ghost b: Option<Key>, ghost strict: bool)
      requires ChildrenOk(children) && forall i :: 0 <= i < |children| ==> StandsPast(children[i], b, strict)
      modifies this
      ensures forward && SameKeys(children, old(children)) && Inv()
      ensures IsValid() ==> LeastFrom(children, b, strict, Key())
      ensures !IsValid() ==> forall x :: HasKey(children, x) ==> !Past(b, strict, x)
    {
      var smallest: Option<nat> := None;
      var i := 0;
      while i < |children|
        invariant 0 <= i <= |children| && children == old(children)
        invariant smallest.None? ==> forall j :: 0 <= j < i ==> !children[j].IsValid()
        invariant smallest.Some? ==> smallest.value < i && children[smallest.value].IsValid()
        invariant smallest.Some? ==> forall j :: 0 <= j < i && children[j].IsValid() ==>
                    children[smallest.value].keys[children[smallest.value].pos] <= children[j].keys[children[j].pos]
      {
        var child := children[i];
        if child.IsValid() {
          if smallest.None? {
            smallest := Some(i);
          } else if child.keys[child.pos] < children[smallest.value].keys[children[smallest.value].pos] {
            smallest := Some(i);
          }
        }
        i := i + 1;
      }
      current, forward := smallest, true;
      if smallest.Some? {
        SmallestPlaced(children, smallest.value, b, strict);
      } else {
        NonePast(children, b, strict);
      }
    }

    /** The largest key under any child; the direction is then reverse. */
    method FindLargest(ghost b: Option<Key>)
      requires ChildrenOk(children) && forall i :: 0 <= i < |children| ==> StandsBelow(children[i], b)
      modifies this
      ensures !forward && SameKeys(children, old(children)) && Inv()
      ensures IsValid() ==> GreatestBelow(children, b, Key())
      ensures !IsValid() ==> forall x :: HasKey(children, x) ==> !Under(b, x)
    {
      var largest: Option<nat> := None;
      var i := |children|;
      while i > 0
        invariant 0 <= i <= |children| && children == old(children)
        invariant largest.None? ==> forall j :: i <= j < |children| ==> !children[j].IsValid()
        invariant largest.Some? ==> i <= largest.value < |children| && children[largest.value].IsValid()
        invariant largest.Some? ==> forall j :: i <= j < |children| && children[j].IsValid() ==>
                    children[j].keys[children[j].pos] <= children[largest.value].keys[children[largest.value].pos]
      {
        i := i - 1;
        var child := children[i];
        if child.IsValid() {
          if largest.None? {
            largest := Some(i);
          } else if child.keys[child.pos] > children[largest.value].keys[children[largest.value].pos] {
            largest := Some(i);
          }
        }
      }
      current, forward := largest, false;
      if largest.Some? {
        LargestPlaced(children, largest.value, b);
      } else {
        NoneBelow(children, b);
      }
    }

    method SeekToFirst()
      requires ChildrenOk(children)
      modifies this
      ensures Inv() && SameKeys(children, old(children))
      ensures IsValid() ==> LeastFrom(children, None, true, Key())
      ensures !IsValid() ==> forall x :: !HasKey(children, x)
    {
      var i := 0;
      while i < |children|
        invariant 0 <= i <= |children| == |old(children)|
        invariant forall j :: 0 <= j < |children| ==> children[j] == if j < i then old(children)[j].(pos := 0) else old(children)[j]
      {
        children := children[i := children[i].(pos := 0)];
        i := i + 1;
      }
      KeysKept(old(children), children);
      FindSmallest(None, true);
    }

    method SeekToLast()
      requires ChildrenOk(children)
      modifies this
      ensures Inv() && SameKeys(children, old(children))
      ensures IsValid() ==> GreatestBelow(children, None, Key())
      ensures !IsValid() ==> forall x :: !HasKey(children, x)
    {
      var i := 0;
      while i < |children|
        invariant 0 <= i <= |children| == |old(children)|
        invariant forall j :: 0 <= j < |children| ==>
                    children[j] == if j < i then old(children)[j].(pos := |old(children)[j].keys| - 1) else old(children)[j]
      {
        children := children[i := children[i].(pos := |children[i].keys| - 1)];
        i := i + 1;
      }
      KeysKept(old(children), children);
      FindLargest(None);
    }

    method Seek(target: Key)
      requires ChildrenOk(children)
      modifies this
      ensures Inv() && SameKeys(children, old(children))
      ensures IsValid() ==> LeastFrom(children, Some(target), false, Key())
      ensures !IsValid() ==> forall x :: HasKey(children, x) ==> x < target
    {
      var i := 0;
      while i < |children|
        invariant 0 <= i <= |children| && SameKeys(children, old(children)) && ChildrenOk(children)
        invariant forall j :: 0 <= j < i ==> StandsPast(children[j], Some(target), false)
      {
        var c := SeekChild(children[i], target);
        ghost var before := children;
        children := children[i := c];
        KeysKept(before, children);
        i := i + 1;
      }
      FindSmallest(Some(target), false);
    }

    /** Next: the next key of the merge, also right after moving backwards. */
    method Next()
      requires Inv() && IsValid()
      modifies this
      ensures Inv() && SameKeys(children, old(children))
      ensures IsValid() ==> LeastFrom(children, Some(old(Key())), true, Key())
      ensures !IsValid() ==> forall x :: HasKey(children, x) ==> x <= old(Key())
    {
      var cur := current.value;
      var k := children[cur].keys[children[cur].pos];
      if !forward {
        var i := 0;
        while i < |children|
          invariant 0 <= i <= |children| && SameKeys(children, old(children)) && ChildrenOk(children)
          invariant current == old(current) && children[cur] == old(children)[cur]
          invariant forall j :: 0 <= j < i && j != cur ==> StandsPast(children[j], Some(k), true)
        {
          if i != cur {
            var c := SeekChild(children[i], k);
            if c.IsValid() && c.keys[c.pos] == k { c := c.(pos := c.pos + 1); }
            assert StandsPast(c, Some(k), true) by { NotShared(children, cur, i, k); }
            ghost var before := children;
            children := children[i := c];
            KeysKept(before, children);
          }
          i := i + 1;
        }
        forward := true;
      }
      ghost var before := children;
      children := children[cur := children[cur].(pos := children[cur].pos + 1)];
      KeysKept(before, children);
      SteppedPast(children[cur], k);
      FindSmallest(Some(k), true);
    }

    /** Prev: the previous key of the merge, also right after moving forwards. */
    method Prev()
      requires Inv() && IsValid()
      modifies this
      ensures Inv() && SameKeys(children, old(children))
      ensures IsValid() ==> GreatestBelow(children, Some(old(Key())), Key())
      ensures !IsValid() ==> forall x :: HasKey(children, x) ==> old(Key()) <= x
    {
      var cur := current.value;
      var k := children[cur].keys[children[cur].pos];
      if forward {
        var i := 0;
        while i < |children|
          invariant 0 <= i <= |children| && SameKeys(children, old(children)) && ChildrenOk(children)
          invariant current == old(current) && children[cur] == old(children)[cur]
          invariant forall j :: 0 <= j < i && j != cur ==> StandsBelow(children[j], Some(k))
        {
          if i != cur {
            var c := SeekChild(children[i], k);
            if c.IsValid() {
              c := c.(pos := c.pos - 1);
            } else {
              c := c.(pos := |c.keys| - 1);
            }
            ghost var before := children;
            children := children[i := c];
            KeysKept(before, children);
          }
          i := i + 1;
        }
        forward := false;
      }
      ghost var before := children;
      children := children[cur := children[cur].(pos := children[cur].pos - 1)];
      KeysKept(before, children);
      SteppedBelow(children[cur], k);
      FindLargest(Some(k));
    }
  }

  /** Child c is under the current key; the others stand just past it, or just before it. */
  ghost predicate Placed(cs: seq<Child>, c: nat, forward: bool) {
    && c < |cs| && cs[c].IsValid()
    && var k := cs[c].keys[cs[c].pos];
       forall i :: 0 <= i < |cs| && i != c ==> if forward then StandsPast(cs[i], Some(k), true) else StandsBelow(cs[i], Some(k))
  }

  lemma SmallestPlaced(cs: seq<Child>, c: nat, b: Option<Key>, strict: bool)
    requires ChildrenOk(cs) && (forall i :: 0 <= i < |cs| ==> StandsPast(cs[i], b, strict))
    requires c < |cs| && cs[c].IsValid()
    requires forall j :: 0 <= j < |cs| && cs[j].IsValid() ==> cs[c].keys[cs[c].pos] <= cs[j].keys[cs[j].pos]
    ensures Placed(cs, c, true) && LeastFrom(cs, b, strict, cs[c].keys[cs[c].pos])
  {
    var k := cs[c].keys[cs[c].pos];
    assert k in cs[c].keys;
    forall i | 0 <= i < |cs| && i != c ensures StandsPast(cs[i], Some(k), true) {
      NotShared(cs, c, i, k);
      FromHere(cs[i], b, strict, k);
    }
    forall x | HasKey(cs, x) && Past(b, strict, x) ensures k <= x {
      var i :| 0 <= i < |cs| && x in cs[i].keys;
      FromHere(cs[i], b, strict, k);
      var j :| 0 <= j < |cs[i].keys| && cs[i].keys[j] == x;
    }
  }

  lemma NotShared(cs: seq<Child>, c: nat, i: nat, k: Key)
    requires ChildrenOk(cs) && c < |cs| && i < |cs| && i != c && k in cs[c].keys
    ensures k !in cs[i].keys
  {
    if i < c {
      forall x | x in cs[i].keys ensures x != k { assert x !in cs[c].keys; }
    }
  }

  /** A child's keys past the bound are at or after its current one. */
  lemma FromHere(c: Child, b: Option<Key>, strict: bool, k: Key)
    requires Ascending(c.keys) && StandsPast(c, b, strict) && Past(b, strict, k)
    requires c.IsValid() ==> k <= c.keys[c.pos]
    ensures forall j :: c.pos <= j < |c.keys| ==> k <= c.keys[j]
    ensures forall j :: 0 <= j < c.pos ==> c.keys[j] < k
  {
    forall j | c.pos <= j < |c.keys| ensures k <= c.keys[j] {
      if j > c.pos { assert c.keys[c.pos] < c.keys[j]; }
    }
  }

  lemma NonePast(cs: seq<Child>, b: Option<Key>, strict: bool)
    requires (forall i :: 0 <= i < |cs| ==> StandsPast(cs[i], b, strict)) && forall i :: 0 <= i < |cs| ==> !cs[i].IsValid()
    ensures forall x :: HasKey(cs, x) ==> !Past(b, strict, x)
  {
    forall x | HasKey(cs, x) ensures !Past(b, strict, x) {
      var i :| 0 <= i < |cs| && x in cs[i].keys;
      assert StandsPast(cs[i], b, strict);
    }
  }

  lemma LargestPlaced(cs: seq<Child>, c: nat, b: Option<Key>)
    requires ChildrenOk(cs) && (forall i :: 0 <= i < |cs| ==> StandsBelow(cs[i], b))
    requires c < |cs| && cs[c].IsValid()
    requires forall j :: 0 <= j < |cs| && cs[j].IsValid() ==> cs[j].keys[cs[j].pos] <= cs[c].keys[cs[c].pos]
    ensures Placed(cs, c, false) && GreatestBelow(cs, b, cs[c].keys[cs[c].pos])
  {
    var k := cs[c].keys[cs[c].pos];
    assert k in cs[c].keys;
    forall i | 0 <= i < |cs| && i != c ensures StandsBelow(cs[i], Some(k)) {
      NotShared(cs, c, i, k);
      UpToHere(cs[i], b, k);
    }
    forall x | HasKey(cs, x) && Under(b, x) ensures x <= k {
      var i :| 0 <= i < |cs| && x in cs[i].keys;
      UpToHere(cs[i], b, k);
      var j :| 0 <= j < |cs[i].keys| && cs[i].keys[j] == x;
    }
  }

  lemma UpToHere(c: Child, b: Option<Key>, k: Key)
    requires Ascending(c.keys) && StandsBelow(c, b) && Under(b, k)
    requires c.IsValid() ==> c.keys[c.pos] <= k
    ensures forall j :: 0 <= j <= c.pos ==> c.keys[j] <= k
    ensures forall j :: c.pos < j < |c.keys| ==> k < c.keys[j]
  {
    forall j | 0 <= j <= c.pos ensures c.keys[j] <= k {
      if j < c.pos { assert c.keys[j] < c.keys[c.pos]; }
    }
  }

  lemma NoneBelow(cs: seq<Child>, b: Option<Key>)
    requires (forall i :: 0 <= i < |cs| ==> StandsBelow(cs[i], b)) && forall i :: 0 <= i < |cs| ==> !cs[i].IsValid()
    ensures forall x :: HasKey(cs, x) ==> !Under(b, x)
  {
    forall x | HasKey(cs, x) ensures !Under(b, x) {
      var i :| 0 <= i < |cs| && x in cs[i].keys;
      assert StandsBelow(cs[i], b);
    }
  }

  lemma KeysKept(a: seq<Child>, b: seq<Child>)
    requires ChildrenOk(a) && SameKeys(a, b)
    ensures ChildrenOk(b) && forall x :: HasKey(a, x) <==> HasKey(b, x)
  {
    forall x ensures HasKey(a, x) <==> HasKey(b, x) {
      if HasKey(a, x) {
        var i :| 0 <= i < |a| && x in a[i].keys;
        assert x in b[i].keys;
      }
      if HasKey(b, x) {
        var i :| 0 <= i < |b| && x in b[i].keys;
        assert x in a[i].keys;
      }
    }
  }

  lemma SteppedPast(c: Child, k: Key)
    requires Ascending(c.keys) && 1 <= c.pos <= |c.keys| && c.keys[c.pos - 1] == k
    ensures StandsPast(c, Some(k), true)
  {
    forall j | c.pos <= j < |c.keys| ensures k < c.keys[j] { assert c.keys[c.pos - 1] < c.keys[j]; }
    forall j | 0 <= j < c.pos ensures c.keys[j] <= k { if j < c.pos - 1 { assert c.keys[j] < c.keys[c.pos - 1]; } }
  }

  lemma SteppedBelow(c: Child, k: Key)
    requires Ascending(c.keys) && -1 <= c.pos < |c.keys| - 1 && c.keys[c.pos + 1] == k
    ensures StandsBelow(c, Some(k))
  {
    forall j | c.pos < j < |c.keys| ensures k <= c.keys[j] { if j > c.pos + 1 { assert c.keys[c.pos + 1] < c.keys[j]; } }
    forall j | 0 <= j <= c.pos ensures c.keys[j] < k { assert c.keys[j] < c.keys[c.pos + 1]; }
  }

  // ----- As a cursor on one sorted sequence -----

  /** m lists the keys of all children in order. */
  ghost predicate IsMerge(cs: seq<Child>, m: seq<Key>) {
    Ascending(m) && forall x :: x in m <==> HasKey(cs, x)
  }

  /** Next and Prev move one place in the merge, and fall off only at its ends. */
  lemma MovesOnePlace(cs: seq<Child>, m: seq<Key>, p: nat, k: Key)
    requires IsMerge(cs, m) && p < |m|
    ensures LeastFrom(cs, Some(m[p]), true, k) <==> p + 1 < |m| && k == m[p + 1]
    ensures GreatestBelow(cs, Some(m[p]), k) <==> p > 0 && k == m[p - 1]
    ensures (forall x :: HasKey(cs, x) ==> x <= m[p]) <==> p + 1 == |m|
    ensures (forall x :: HasKey(cs, x) ==> m[p] <= x) <==> p == 0
  {
    if p + 1 < |m| { assert m[p + 1] in m && m[p] < m[p + 1]; }
    if p > 0 { assert m[p - 1] in m && m[p - 1] < m[p]; }
    forall x | HasKey(cs, x)
      ensures exists j :: 0 <= j < |m| && m[j] == x
    {
      assert x in m;
    }
  }

  datatype Move = ToFirst | ToLast | SeekTo(target: Key) | Forth | Back

  /** The place of the first key at or after the target. */
  function PlaceOf(m: seq<Key>, target: Key, from: nat): (p: Option<nat>)
    requires from <= |m|
    ensures p.Some? ==> from <= p.value < |m| && m[p.value] >= target
    ensures forall j :: from <= j < (if p.Some? then p.value else |m|) ==> m[j] < target
    decreases |m| - from
  {
    if from == |m| then None else if m[from] >= target then Some(from) else PlaceOf(m, target, from + 1)
  }

  /** A plain cursor on m; moving from no place leaves it there. */
  function Cursor(m: seq<Key>, p: Option<nat>, move: Move): Option<nat> {
    match move
    case ToFirst => if m == [] then None else Some(0)
    case ToLast => if m == [] then None else Some(|m| - 1)
    case SeekTo(t) => PlaceOf(m, t, 0)
    case Forth => if p.Some? && p.value + 1 < |m| then Some(p.value + 1) else None
    case Back => if p.Some? && 0 < p.value <= |m| then Some(p.value - 1) else None
  }

  function Cursors(m: seq<Key>, p: Option<nat>, moves: seq<Move>): Option<nat> {
    if moves == [] then p else Cursor(m, Cursors(m, p, moves[..|moves| - 1]), moves[|moves| - 1])
  }

  /** The iterator stands where the cursor does. */
  ghost predicate At(it: MergingIterator, m: seq<Key>, p: Option<nat>)
    reads it
  {
    && it.Inv() && IsMerge(it.children, m) && (it.IsValid() <==> p.Some?)
    && (p.Some? ==> p.value < |m| && it.Key() == m[p.value])
  }

  method Step(it: MergingIterator, ghost m: seq<Key>, ghost p: Option<nat>, move: Move)
    requires At(it, m, p)
    modifies it
    ensures At(it, m, Cursor(m, p, move))
  {
    hide IsMerge, ChildrenOk, SameKeys, LeastFrom, GreatestBelow, Placed, Ascending, PlaceOf, StandsPast, StandsBelow;
    ghost var cs := it.children;
    match move {
      case ToFirst =>
        it.SeekToFirst();
        MergeKept(cs, it.children, m);
        FirstPlace(it.children, m);
      case ToLast =>
        it.SeekToLast();
        MergeKept(cs, it.children, m);
        FirstPlace(it.children, m);
      case SeekTo(t) =>
        it.Seek(t);
        MergeKept(cs, it.children, m);
        SeekPlace(it.children, m, t);
      case Forth =>
        if it.IsValid() {
          it.Next();
          MergeKept(cs, it.children, m);
          MovesEach(it.children, m, p.value);
        }
      case Back =>
        if it.IsValid() {
          it.Prev();
          MergeKept(cs, it.children, m);
          MovesEach(it.children, m, p.value);
        }
    }
  }

  lemma MergeKept(a: seq<Child>, b: seq<Child>, m: seq<Key>)
    requires ChildrenOk(a) && SameKeys(b, a) && IsMerge(a, m)
    ensures IsMerge(b, m)
  {
    KeysKept(a, b);
  }

  /** Any run of moves is the same run of a cursor on the sorted merge. */
  method Walk(it: MergingIterator, ghost m: seq<Key>, ghost p: Option<nat>, moves: seq<Move>)
    requires At(it, m, p)
    modifies it
    ensures At(it, m, Cursors(m, p, moves))
  {
    var i := 0;
    while i < |moves|
      invariant 0 <= i <= |moves| && At(it, m, Cursors(m, p, moves[..i]))
    {
      assert moves[..i + 1][..i] == moves[..i];
      Step(it, m, Cursors(m, p, moves[..i]), moves[i]);
      i := i + 1;
    }
    assert moves[..i] == moves;
  }

  lemma MovesEach(cs: seq<Child>, m: seq<Key>, p: nat)
    requires IsMerge(cs, m) && p < |m|
    ensures forall k :: LeastFrom(cs, Some(m[p]), true, k) <==> p + 1 < |m| && k == m[p + 1]
    ensures forall k :: GreatestBelow(cs, Some(m[p]), k) <==> p > 0 && k == m[p - 1]
    ensures (forall x :: HasKey(cs, x) ==> x <= m[p]) <==> p + 1 == |m|
    ensures (forall x :: HasKey(cs, x) ==> m[p] <= x) <==> p == 0
  {
    forall k
      ensures LeastFrom(cs, Some(m[p]), true, k) <==> p + 1 < |m| && k == m[p + 1]
      ensures GreatestBelow(cs, Some(m[p]), k) <==> p > 0 && k == m[p - 1]
    {
      MovesOnePlace(cs, m, p, k);
    }
    MovesOnePlace(cs, m, p, m[p]);
  }

  lemma FirstPlace(cs: seq<Child>, m: seq<Key>)
    requires IsMerge(cs, m)
    ensures forall k :: LeastFrom(cs, None, true, k) ==> m != [] && k == m[0]
    ensures forall k :: GreatestBelow(cs, None, k) ==> m != [] && k == m[|m| - 1]
    ensures (forall x :: !HasKey(cs, x)) <==> m == []
  {
    if m != [] { assert m[0] in m && m[|m| - 1] in m; }
    forall x | HasKey(cs, x) ensures m != [] && m[0] <= x <= m[|m| - 1] {
      assert x in m;
      var j :| 0 <= j < |m| && m[j] == x;
    }
  }

  lemma SeekPlace(cs: seq<Child>, m: seq<Key>, t: Key)
    requires IsMerge(cs, m)
    ensures var p := PlaceOf(m, t, 0);
            && (forall k :: LeastFrom(cs, Some(t), false, k) ==> p.Some? && k == m[p.value])
            && ((forall x :: HasKey(cs, x) ==> x < t) <==> p.None?)
  {
    var p := PlaceOf(m, t, 0);
    if p.Some? { assert m[p.value] in m; }
    forall x | HasKey(cs, x)
      ensures if p.Some? then x >= t ==> x >= m[p.value] else x < t
    {
      assert x in m;
      var j :| 0 <= j < |m| && m[j] == x;
    }
  }
}
