/**
  The loops and objects behind the steps of the DBX machine, in the shape of the
  source: each method is proved against the function the machine uses.
*/
module DbxCode {
  import opened Common
  import opened DbxModel
  import opened DbxSteps

  // ----- rcu.h -----

  const ENDMASK: nat := 0x8000_0000_0000_0000
  const WORD: nat := 0x1_0000_0000_0000_0000

  /** RCU::State: one 64-bit counter whose top bit marks the end of a transaction. */
  class RcuState {
    var counter: nat

    ghost predicate Valid()
      reads this
    {
      counter < WORD
    }

    ghost function Abs(): Rcu
      reads this
    {
      Rcu(counter % ENDMASK, counter >= ENDMASK)
    }

    constructor ()
      ensures Valid() && Abs() == Rcu(0, true)
    {
      counter := ENDMASK;
    }

    /** The first statement: the number goes up, the end mark stays. */
    method Increment()
      requires Valid()
      modifies this
      ensures Valid()
      ensures old(Abs().n) + 1 < ENDMASK ==> Abs() == Rcu(old(Abs().n) + 1, old(Abs().ended))
    {
      counter := (counter + 1) % WORD;
    }

    /** The second statement: counter &= BEGMASK. */
    method ClearEnd()
      requires Valid()
      modifies this
      ensures Valid() && Abs() == Rcu(old(Abs().n), false)
    {
      counter := counter % ENDMASK;
    }

    method EndTX()
      requires Valid()
      modifies this
      ensures Valid() && Abs() == Rcu(old(Abs().n), true)
    {
      counter := if counter >= ENDMASK then counter else counter + ENDMASK;
    }

    /** The comparison against a masked copy is the machine's Safe. */
    method IsSafe(c: nat) returns (b: bool)
      requires Valid() && c < ENDMASK
      ensures b <==> Safe(Abs(), c)
    {
      b := counter > c;
    }
  }

  /** GetStatesCopy: every counter with its end mark removed. */
  method GetStatesCopy(states: seq<RcuState>) returns (cs: seq<nat>)
    requires forall i :: 0 <= i < |states| ==> states[i].Valid()
    ensures |cs| == |states| && forall i :: 0 <= i < |states| ==> cs[i] == states[i].Abs().n
  {
    cs := [];
    var i := 0;
    while i < |states|
      invariant 0 <= i <= |states| && |cs| == i
      invariant forall j :: 0 <= j < i ==> cs[j] == states[j].Abs().n
    {
      cs := cs + [states[i].counter % ENDMASK];
      i := i + 1;
    }
  }

  // ----- objpool.h, objpool.cc -----

  datatype Header = Header(sn: nat, objs: seq<nat>)

  /** Per-thread pool: GC lists by snapshot number, oldest first, and a free list. */
  class ObjPool {
    var gclists: seq<Header>
    var freelist: seq<nat>
    var freenum: int

    ghost predicate Valid()
      reads this
    {
      freenum == |freelist| && forall i :: 0 <= i < |gclists| ==> gclists[i].objs != []
    }

    constructor ()
      ensures Valid() && Queued(gclists) == [] && freelist == []
    {
      gclists, freelist, freenum := [], [], 0;
    }

    method AddGCObj(o: nat, sn: nat)
      requires Valid()
      requires gclists != [] ==> gclists[|gclists| - 1].sn <= sn
      modifies this
      ensures Valid() && freelist == old(freelist)
      ensures Queued(gclists) == [o] + old(Queued(gclists))
      ensures gclists != [] && gclists[|gclists| - 1].sn == sn
    {
      if gclists == [] || gclists[|gclists| - 1].sn != sn {
        gclists := gclists + [Header(sn, [o])];
      } else {
        var last := gclists[|gclists| - 1];
        gclists := gclists[..|gclists| - 1] + [Header(sn, [o] + last.objs)];
        assert gclists[..|gclists| - 1] == old(gclists)[..|gclists| - 1];
      }
      assert old(gclists) == [] || gclists[..|gclists| - 1] == old(gclists) || gclists[..|gclists| - 1] == old(gclists)[..|old(gclists)| - 1];
    }

    method GetFreeObj() returns (r: Option<nat>)
      requires Valid()
      modifies this
      ensures Valid() && gclists == old(gclists)
      ensures old(freelist) == [] ==> r == None && freelist == []
      ensures old(freelist) != [] ==> r == Some(old(freelist)[0]) && freelist == old(freelist)[1..]
    {
      if freenum == 0 { return None; }
      r := Some(freelist[0]);
      freelist, freenum := freelist[1..], freenum - 1;
    }

    /** Every queued object moves to the free list, the latest queued first. */
    method GC()
      requires Valid()
      modifies this
      ensures Valid() && gclists == []
      ensures freelist == old(Queued(gclists)) + old(freelist)
    {
      ghost var all := gclists;
      var n := 0;
      while gclists != []
        invariant Valid() && 0 <= n <= |all| && gclists == all[n..]
        invariant freelist == Queued(all[..n]) + old(freelist)
        decreases |gclists|
      {
        var cur := gclists[0];
        gclists := gclists[1..];
        freelist, freenum := cur.objs + freelist, freenum + |cur.objs|;
        assert all[..n + 1][..n] == all[..n];
        n := n + 1;
      }
      assert all[..n] == all;
    }
  }

  /** The queued objects, latest first. */
  function Queued(lists: seq<Header>): seq<nat> {
    if lists == [] then [] else lists[|lists| - 1].objs + Queued(lists[..|lists| - 1])
  }

  // ----- ReadSet::Validate, WriteSet::Lookup, WriteSet::CheckWriteSet -----

  const NO_CONFLICT := -1

  datatype RsSeqPair = RsSeqPair(e: RsEntry, lbl: int)

  /** The label of the first stale entry, or NO_CONFLICT. */
  method ValidateReads(nodes: seq<MemNode>, seqs: seq<RsSeqPair>) returns (r: int)
    requires forall i :: 0 <= i < |seqs| ==> seqs[i].e.node < |nodes| && seqs[i].lbl >= 0
    ensures r == NO_CONFLICT <==> Validate(nodes, seq(|seqs|, i requires 0 <= i < |seqs| => seqs[i].e))
    ensures r != NO_CONFLICT ==>
              exists i :: 0 <= i < |seqs| && r == seqs[i].lbl && nodes[seqs[i].e.node].seqno != seqs[i].e.seqno
                && forall j :: 0 <= j < i ==> nodes[seqs[j].e.node].seqno == seqs[j].e.seqno
  {
    ghost var rs := seq(|seqs|, i requires 0 <= i < |seqs| => seqs[i].e);
    var i := 0;
    while i < |seqs|
      invariant 0 <= i <= |seqs|
      invariant forall j :: 0 <= j < i ==> nodes[seqs[j].e.node].seqno == seqs[j].e.seqno
    {
      if seqs[i].e.seqno != nodes[seqs[i].e.node].seqno {
        assert rs[i] in rs;
        return seqs[i].lbl;
      }
      i := i + 1;
    }
    forall e | e in rs ensures nodes[e.node].seqno == e.seqno {
      var j :| 0 <= j < |rs| && rs[j] == e;
    }
    r := NO_CONFLICT;
  }

  /** The forward scan keeps the last match. */
  method LookupWrite(kvs: seq<WsEntry>, k: Key) returns (r: Option<Val>)
    ensures r == Lookup(kvs, k)
  {
    r := None;
    var i := 0;
    while i < |kvs|
      invariant 0 <= i <= |kvs|
      invariant r == Lookup(kvs[..i], k)
    {
      assert kvs[..i + 1][..i] == kvs[..i];
      if kvs[i].key == k { r := Some(kvs[i].val); }
      i := i + 1;
    }
    assert kvs[..i] == kvs;
  }

  method CheckWrites(nodes: seq<MemNode>, kvs: seq<WsEntry>) returns (ok: bool)
    requires forall e :: e in kvs ==> e.node < |nodes|
    ensures ok <==> CheckWriteSet(nodes, kvs)
  {
    var i := 0;
    while i < |kvs|
      invariant 0 <= i <= |kvs|
      invariant forall j :: 0 <= j < i ==> nodes[kvs[j].node].value != HaveRemoved
    {
      if nodes[kvs[i].node].value == HaveRemoved {
        assert kvs[i] in kvs;
        return false;
      }
      i := i + 1;
    }
    ok := true;
  }

  // ----- DBROTX::ScanMemNode -----

  /** Counters go down along the links the walk can follow. */
  ghost predicate Descending(vers: seq<OldVersion>, v: Option<VerId>, s: nat)
    decreases if v.Some? && v.value < |vers| then vers[v.value].counter + 1 else 0
  {
    v.Some? ==>
      && v.value < |vers|
      && (vers[v.value].counter > s && vers[v.value].next.Some? ==>
            && vers[v.value].next.value < |vers|
            && vers[vers[v.value].next.value].counter < vers[v.value].counter
            && Descending(vers, vers[v.value].next, s))
  }

  /** The pointer-chasing loop of the source computes the machine's ScanMemNode. */
  method ScanNode(c: Conc, n: NodeId, oldsnapshot: nat) returns (found: bool, val: Val)
    requires n < |c.nodes|
    requires c.nodes[n].counter > oldsnapshot ==> Descending(c.vers, c.nodes[n].prior, oldsnapshot)
    ensures found <==> ValidateValue(ScanMemNode(c, n, oldsnapshot))
    ensures found ==> val == ScanMemNode(c, n, oldsnapshot)
  {
    val := LogicalDelete;
    if c.nodes[n].counter <= oldsnapshot {
      if ValidateValue(c.nodes[n].value) { return true, c.nodes[n].value; }
      return false, LogicalDelete;
    }
    var v := c.nodes[n].prior;
    while v != None && c.vers[v.value].counter > oldsnapshot
      invariant Descending(c.vers, v, oldsnapshot)
      invariant Walk(c.vers, v, oldsnapshot) == ScanMemNode(c, n, oldsnapshot)
      decreases if v.Some? then c.vers[v.value].counter + 1 else 0
    {
      v := c.vers[v.value].next;
    }
    if v != None && ValidateValue(c.vers[v.value].value) { return true, c.vers[v.value].value; }
    found := false;
  }
}
