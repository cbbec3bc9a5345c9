/** The callers of Get_sec and the node each thread keeps ready for the next insertion. */
module BTreeSession {
  import opened Common
  import opened BTreeModel
  import opened BTreeLemmas
  import opened BTreeEffect
  import opened BTree

  ghost predicate NoNulls(s: seq<Entry>) {
    forall i :: 0 <= i < |s| ==> s[i].val.Some?
  }

  lemma GainNoNulls(s: seq<Entry>, s': seq<Entry>, key: nat, v: Value)
    requires NoNulls(s) && GainsEntry(s, s', key, v)
    ensures NoNulls(s') <==> v.Some?
  {
    var k: nat :| Inserts(s, k, s', key, v);
    assert s'[k] == Entry(key, v);
    assert forall i :: 0 <= i < |s'| && i != k ==> s'[i] == if i < k then s[i] else s[i - 1];
  }

  /** Where `new SecondNode()` comes from: no address is handed out twice. */
  class Heap {
    var next: nat

    constructor ()
      ensures next == 0
    {
      next := 0;
    }

    method New() returns (p: nat)
      modifies this
      ensures old(next) <= p < next
    {
      p, next := next, next + 1;
    }
  }

  /** Different keys have different nodes, all of them handed out by now. */
  ghost predicate OneToOne(m: map<nat, Value>, limit: nat) {
    && (forall k :: k in m ==> m[k].Some? && m[k].value < limit)
    && (forall k, k' :: k in m && k' in m && m[k] == m[k'] ==> k == k')
  }

  /** A prepared node is nobody else's. */
  ghost predicate Unused(m: map<nat, Value>, v: Value, limit: nat) {
    v.Some? ==> v.value < limit && forall k :: k in m ==> m[k] != v
  }

  /** The threads' prepared nodes are apart from each other and from the tree. */
  ghost predicate Consistent(ss: seq<Session>, heap: Heap, m: map<nat, Value>)
    reads heap, ss
  {
    && OneToOne(m, heap.next)
    && (forall i :: 0 <= i < |ss| ==> ss[i].heap == heap && ss[i].dummyval.Some? && Unused(m, ss[i].dummyval, heap.next))
    && (forall i, j :: 0 <= i < j < |ss| ==> ss[i] != ss[j] && ss[i].dummyval != ss[j].dummyval)
  }

  /** The thread-local part of the index: dummyval_. */
  class Session {
    const heap: Heap
    var dummyval: Value

    /** ThreadLocalInit: a thread's first node is its own. */
    constructor (heap: Heap)
      modifies heap
      ensures this.heap == heap && dummyval.Some? && old(heap.next) <= dummyval.value < heap.next
    {
      this.heap := heap;
      var p := heap.New();
      dummyval := Some(p);
    }

    /**
      The index part of GetWithInsert: the prepared node is replaced by a new one
      after it was used.  A new key gets a node that no other key has.
    */
    method GetWithInsert(t: BPlusTree, key: nat, ghost ss: seq<Session>, ghost me: nat) returns (val: Value)
      requires t.Valid() && key < KEY_LIMIT && me < |ss| && ss[me] == this && Consistent(ss, heap, ToMap(t.Contents()))
      modifies this`dummyval, heap, t
      ensures t.Valid() && Consistent(ss, heap, ToMap(t.Contents()))
      ensures val.Some? && Entry(key, val) in t.Contents()
      ensures key in ToMap(t.Contents()) && ToMap(t.Contents())[key] == val
      ensures ToMap(t.Contents()) == if Has(old(t.Contents()), key) then ToMap(old(t.Contents()))
                                     else ToMap(old(t.Contents()))[key := val]
      ensures !Has(old(t.Contents()), key) ==> forall e :: e in old(t.Contents()) ==> e.val != val
    {
      hide Good, Chain, Apart, Flat, ToMap, Sorted;
      ghost var m, limit := ToMap(t.Contents()), heap.next;
      ContentsFacts(t, key);
      val := GetSecNode(t, key);
      ghost var m1 := ToMap(t.Contents());
      ContentsFacts(t, key);
      if dummyval == None {
        var p := heap.New();
        dummyval := Some(p);
      }
      assert Consistent(ss, heap, m1);
    }

    /**
      Get uses the same insertion but does not prepare another node.  The
      assertion that the value is not NULL therefore holds exactly when the key
      is present or the prepared node has not been used up.
    */
    method GetSecNode(t: BPlusTree, key: nat) returns (val: Value)
      requires t.Valid() && key < KEY_LIMIT && NoNulls(t.Contents())
      modifies this`dummyval, t
      ensures t.Valid() && Sorted(t.Contents()) && Entry(key, val) in t.Contents()
      ensures !Has(old(t.Contents()), key) ==> val == old(dummyval)
      ensures val.Some? <==> Has(old(t.Contents()), key) || old(dummyval).Some?
      ensures NoNulls(t.Contents()) <==> val.Some?
      ensures dummyval == if Has(old(t.Contents()), key) then old(dummyval) else None
      ensures ToMap(t.Contents()) == if Has(old(t.Contents()), key) then ToMap(old(t.Contents()))
                                     else ToMap(old(t.Contents()))[key := val]
    {
      hide Chain, Apart, Flat, LeafStep, ToMap, NoNulls;
      var v, found, p, sib := t.GetSec(key, dummyval);
      val := v;
      if found {
        PresentSet(t.Contents(), Entry(key, val));
      } else {
        GainNoNulls(old(t.Contents()), t.Contents(), key, dummyval);
        GainHas(old(t.Contents()), t.Contents(), key, dummyval);
        dummyval := None;
      }
    }
  }

  /** The tree's contents as a map. */
  lemma ContentsFacts(t: BPlusTree, key: nat)
    requires t.Valid()
    ensures Sorted(t.Contents())
    ensures Has(t.Contents(), key) <==> key in ToMap(t.Contents())
    ensures forall e :: e in t.Contents() ==> e.key in ToMap(t.Contents()) && ToMap(t.Contents())[e.key] == e.val
    ensures (forall k :: k in ToMap(t.Contents()) ==> ToMap(t.Contents())[k].Some?) ==> NoNulls(t.Contents())
  {
    GoodFlat(t.mem, t.tree, t.depth, 0, KEY_LIMIT, true);
    ToMapHas(t.Contents(), key);
  }

  lemma PresentSet(s: seq<Entry>, e: Entry)
    requires NoNulls(s) && e in s
    ensures e.val.Some?
  {}

  lemma GainHas(s: seq<Entry>, s': seq<Entry>, key: nat, v: Value)
    requires GainsEntry(s, s', key, v)
    ensures Entry(key, v) in s'
  {
    var k: nat :| Inserts(s, k, s', key, v);
    assert s'[k] == Entry(key, v);
  }

  /**
    Any calls by any threads, in any order: two of them return the same node
    exactly when they ask for the same key.
  */
  method Calls(t: BPlusTree, heap: Heap, ss: seq<Session>, calls: seq<(nat, nat)>) returns (vals: seq<Value>)
    requires t.Valid() && Consistent(ss, heap, ToMap(t.Contents()))
    requires forall i :: 0 <= i < |calls| ==> calls[i].0 < |ss| && calls[i].1 < KEY_LIMIT
    modifies t, heap, ss
    ensures t.Valid() && Consistent(ss, heap, ToMap(t.Contents())) && |vals| == |calls|
    ensures forall i, j :: 0 <= i < |calls| && 0 <= j < |calls| ==> (vals[i] == vals[j] <==> calls[i].1 == calls[j].1)
  {
    hide Good, Chain, Apart, Flat, ToMap, Has;
    vals := [];
    var n := 0;
    while n < |calls|
      invariant 0 <= n <= |calls| && |vals| == n && t.Valid() && Consistent(ss, heap, ToMap(t.Contents()))
      invariant forall i :: 0 <= i < n ==> Gives(ToMap(t.Contents()), calls[i].1, vals[i])
    {
      ghost var m := ToMap(t.Contents());
      ContentsFacts(t, calls[n].1);
      var v := ss[calls[n].0].GetWithInsert(t, calls[n].1, ss, calls[n].0);
      forall i | 0 <= i < n ensures Gives(ToMap(t.Contents()), calls[i].1, vals[i]) { assert Gives(m, calls[i].1, vals[i]); }
      vals := vals + [v];
      n := n + 1;
    }
  }

  ghost predicate Gives(m: map<nat, Value>, key: nat, v: Value) { key in m && m[key] == v }

  /** Two Gets of absent keys by one thread: the second stores a NULL node. */
  method SecondGetStoresNull(junk: seq<nat>) returns (t: BPlusTree, val: Value)
    requires |junk| == SLOTS
    ensures t.Valid() && val == None && Entry(2, None) in t.Contents()
  {
    hide Chain, Apart, Flat;
    t := new BPlusTree(junk);
    var heap := new Heap();
    var s := new Session(heap);
    var first := s.GetSecNode(t, 1);
    assert first.Some? && s.dummyval == None;
    assert !Has(t.Contents(), 2) by { OnlyOne(t.Contents(), first); }
    val := s.GetSecNode(t, 2);
  }

  lemma OnlyOne(s: seq<Entry>, v: Value)
    requires Sorted(s) && ToMap(s) == map[1 := v]
    ensures !Has(s, 2)
  {
    ToMapHas(s, 2);
  }
}
