/**
  DBTX::End after a successful validation, as the source runs it: Write over the
  whole write set, then CollectOldVersions, then GCRMNodes.  The three loops
  together have the effect of the machine's entry-by-entry commit.
*/
module DbxCommitCode {
  import opened Common
  import opened DbxModel
  import opened DbxSteps

  /** A write-set slot; Write leaves in it what CollectOldVersions needs. */
  datatype Wskv = Wskv(key: Key, val: Val, node: NodeId, dummy: Option<VerId>)

  function Entry(kv: Wskv): WsEntry { WsEntry(kv.key, kv.val, kv.node) }

  function Entries(kvs: seq<Wskv>): seq<WsEntry> {
    seq(|kvs|, i requires 0 <= i < |kvs| => Entry(kvs[i]))
  }

  // ----- Specification: entries written one by one -----

  ghost predicate Fits(c: Conc, t: Tid, ws: seq<WsEntry>) {
    && t < |c.threads|
    && (forall i :: 0 <= i < |ws| ==> ws[i].node < |c.nodes|)
    && (forall i :: 0 <= i < |c.threads[t].freeVers| ==> c.threads[t].freeVers[i] < |c.vers|)
    && Distinct(c.threads[t].freeVers)
    && (forall n :: 0 <= n < |c.nodes| ==> c.nodes[n].counter <= c.snapshot)
  }

  lemma OneFits(c: Conc, t: Tid, e: WsEntry, ws: seq<WsEntry>)
    requires Fits(c, t, ws) && e.node < |c.nodes|
    ensures Fits(WriteOne(c, t, e), t, ws)
    ensures |WriteOne(c, t, e).nodes| == |c.nodes| && WriteOne(c, t, e).snapshot == c.snapshot
  {}

  function WriteMany(c: Conc, t: Tid, ws: seq<WsEntry>): (c': Conc)
    requires Fits(c, t, ws)
    ensures Fits(c', t, ws) && |c'.nodes| == |c.nodes| && c'.snapshot == c.snapshot
  {
    if |ws| == 0 then c
    else
      var c1 := WriteMany(c, t, ws[..|ws| - 1]);
      OneFits(c1, t, ws[|ws| - 1], ws);
      WriteOne(c1, t, ws[|ws| - 1])
  }

  /** What one entry adds to the thread's removal queue. */
  function Queues(nd: MemNode, e: WsEntry): seq<RmObj> {
    if e.val == LogicalDelete && nd.value != LogicalDelete then [RmObj(e.key, e.node, nd.seqno + 1)] else []
  }

  function NewId(c: Conc, t: Tid): VerId
    requires t < |c.threads|
  {
    if c.threads[t].freeVers == [] then |c.vers| else c.threads[t].freeVers[0]
  }

  /** WriteOne, field by field, when the node was already written since the last snapshot. */
  lemma OneOverwrites(c: Conc, t: Tid, e: WsEntry)
    requires Fits(c, t, []) && e.node < |c.nodes| && !(0 < c.nodes[e.node].counter < c.snapshot)
    ensures var c', th, nd := WriteOne(c, t, e), c.threads[t], c.nodes[e.node];
            && |c'.threads| == |c.threads| && c'.vers == c.vers
            && c'.nodes == c.nodes[e.node := nd.(counter := c.snapshot, value := e.val, seqno := nd.seqno + 1)]
            && c'.threads[t].freeVers == th.freeVers && c'.threads[t].gcVers == th.gcVers
            && c'.threads[t].gcVals == (if nd.value.At? then [nd.value.p] else []) + th.gcVals
            && c'.threads[t].rm == Queues(nd, e) + th.rm
  {
    EmptyLeft(c.threads[t].gcVals);
    EmptyLeft(c.threads[t].rm);
  }

  /** WriteOne, field by field, when the old contents may still be read. */
  lemma OnePushes(c: Conc, t: Tid, e: WsEntry)
    requires Fits(c, t, []) && e.node < |c.nodes| && 0 < c.nodes[e.node].counter < c.snapshot
    ensures var c', th, nd, id := WriteOne(c, t, e), c.threads[t], c.nodes[e.node], NewId(c, t);
            var dummy := OldVersion(nd.value, nd.counter, nd.prior);
            && |c'.threads| == |c.threads|
            && c'.nodes == c.nodes[e.node := nd.(counter := c.snapshot, value := e.val, seqno := nd.seqno + 1,
                                                 prior := Some(id))]
            && c'.vers == (if th.freeVers == [] then c.vers + [dummy] else c.vers[id := dummy])
            && c'.threads[t].freeVers == (if th.freeVers == [] then [] else th.freeVers[1..])
            && c'.threads[t].gcVers == [id] + th.gcVers
            && c'.threads[t].gcVals == (if nd.value.At? then [nd.value.p] else []) + th.gcVals
            && c'.threads[t].rm == Queues(nd, e) + th.rm
  {
    EmptyLeft(c.threads[t].gcVals);
    EmptyLeft(c.threads[t].rm);
  }

  /** The first entry may be written first. */
  lemma {:induction false} WriteManyFirst(c: Conc, t: Tid, e: WsEntry, ws: seq<WsEntry>)
    requires Fits(c, t, ws) && e.node < |c.nodes| && Fits(WriteOne(c, t, e), t, ws) && Fits(c, t, [e] + ws)
    ensures WriteMany(c, t, [e] + ws) == WriteMany(WriteOne(c, t, e), t, ws)
    decreases |ws|
  {
    hide WriteOne;
    if |ws| == 0 {
      assert [e] + ws == [e] && [e][..0] == [];
      assert WriteMany(c, t, []) == c;
    } else {
      var rest := ws[..|ws| - 1];
      assert ([e] + ws)[..|ws|] == [e] + rest;
      assert forall i :: 0 <= i < |[e] + rest| ==> ([e] + rest)[i] == ([e] + ws)[i];
      assert Fits(c, t, rest) && Fits(WriteOne(c, t, e), t, rest) && Fits(c, t, [e] + rest);
      WriteManyFirst(c, t, e, rest);
    }
  }

  // ----- What the slots hold after Write -----

  /** Buffers one slot retires: the replaced value, or the value in its old version. */
  function SlotVals(kv: Wskv, vers: seq<OldVersion>): seq<Ptr> {
    (if kv.dummy.Some? && kv.dummy.value < |vers| && ValidateValue(vers[kv.dummy.value].value)
     then [vers[kv.dummy.value].value.p] else [])
    + (if ValidateValue(kv.val) then [kv.val.p] else [])
  }

  function SlotVers(kv: Wskv): seq<VerId> {
    if kv.dummy.Some? then [kv.dummy.value] else []
  }

  lemma OverwrittenSlot(kv: Wskv, vers: seq<OldVersion>)
    requires kv.dummy == None
    ensures SlotVals(kv, vers) == (if kv.val.At? then [kv.val.p] else []) && SlotVers(kv) == []
  {}

  lemma PushedSlot(kv: Wskv, vers: seq<OldVersion>)
    requires kv.dummy.Some? && kv.dummy.value < |vers| && kv.val == LogicalDelete
    ensures var v := vers[kv.dummy.value].value;
            SlotVals(kv, vers) == (if v.At? then [v.p] else []) && SlotVers(kv) == [kv.dummy.value]
  {}

  /** All buffers retired by the slots, the last slot's first. */
  function RetiredVals(kvs: seq<Wskv>, vers: seq<OldVersion>): seq<Ptr> {
    if |kvs| == 0 then [] else SlotVals(kvs[|kvs| - 1], vers) + RetiredVals(kvs[..|kvs| - 1], vers)
  }

  function RetiredVers(kvs: seq<Wskv>): seq<VerId> {
    if |kvs| == 0 then [] else SlotVers(kvs[|kvs| - 1]) + RetiredVers(kvs[..|kvs| - 1])
  }

  function Reverse<T>(s: seq<T>): seq<T> {
    if |s| == 0 then [] else [s[|s| - 1]] + Reverse(s[..|s| - 1])
  }

  /** The slots' old versions are allocated and not up for reuse. */
  ghost predicate Settled(kvs: seq<Wskv>, vers: seq<OldVersion>, freeVers: seq<VerId>) {
    forall i :: 0 <= i < |kvs| && kvs[i].dummy.Some? ==>
      kvs[i].dummy.value < |vers| && kvs[i].dummy.value !in freeVers
  }

  lemma {:induction false} RetiredValsFrame(kvs: seq<Wskv>, vers: seq<OldVersion>, vers': seq<OldVersion>)
    requires |vers| <= |vers'|
    requires forall i :: 0 <= i < |kvs| && kvs[i].dummy.Some? ==>
               kvs[i].dummy.value < |vers| && vers'[kvs[i].dummy.value] == vers[kvs[i].dummy.value]
    ensures RetiredVals(kvs, vers') == RetiredVals(kvs, vers)
  {
    if |kvs| > 0 {
      RetiredValsFrame(kvs[..|kvs| - 1], vers, vers');
    }
  }

  lemma RetiredGrows(kvs: seq<Wskv>, kv: Wskv, vers: seq<OldVersion>, vals: seq<Ptr>, ids: seq<VerId>)
    ensures RetiredVals(kvs + [kv], vers) + vals == SlotVals(kv, vers) + (RetiredVals(kvs, vers) + vals)
    ensures RetiredVers(kvs + [kv]) + ids == SlotVers(kv) + (RetiredVers(kvs) + ids)
  {
    hide SlotVals, SlotVers;
    assert (kvs + [kv])[..|kvs|] == kvs;
    Assoc(SlotVals(kv, vers), RetiredVals(kvs, vers), vals);
    Assoc(SlotVers(kv), RetiredVers(kvs), ids);
  }

  lemma ReverseGrows<T>(s: seq<T>, x: T, rest: seq<T>)
    ensures Reverse(s + [x]) + rest == [x] + (Reverse(s) + rest)
  {
    assert (s + [x])[..|s|] == s;
  }

  /** The slots retire exactly what takes the queues vals and ids to vals' and ids'. */
  ghost predicate Accounted(kvs: seq<Wskv>, vers: seq<OldVersion>, freeVers: seq<VerId>,
                            vals: seq<Ptr>, ids: seq<VerId>, vals': seq<Ptr>, ids': seq<VerId>) {
    && Settled(kvs, vers, freeVers)
    && RetiredVals(kvs, vers) + vals == vals'
    && RetiredVers(kvs) + ids == ids'
  }

  lemma AccountNothing(vers: seq<OldVersion>, freeVers: seq<VerId>, vals: seq<Ptr>, ids: seq<VerId>)
    ensures Accounted([], vers, freeVers, vals, ids, vals, ids)
  {}

  lemma AccountOverwrite(kvs: seq<Wskv>, kv: Wskv, vers: seq<OldVersion>, freeVers: seq<VerId>,
                         vals: seq<Ptr>, ids: seq<VerId>, vals': seq<Ptr>, ids': seq<VerId>)
    requires Accounted(kvs, vers, freeVers, vals, ids, vals', ids') && kv.dummy == None
    ensures Accounted(kvs + [kv], vers, freeVers, vals, ids, (if kv.val.At? then [kv.val.p] else []) + vals', ids')
  {
    OverwrittenSlot(kv, vers);
    RetiredGrows(kvs, kv, vers, vals, ids);
    SettledGrows(kvs, kv, vers, freeVers);
    hide RetiredVals, RetiredVers, SlotVals, SlotVers, Settled;
  }

  lemma SettledGrows(kvs: seq<Wskv>, kv: Wskv, vers: seq<OldVersion>, freeVers: seq<VerId>)
    requires Settled(kvs, vers, freeVers)
    requires kv.dummy.Some? ==> kv.dummy.value < |vers| && kv.dummy.value !in freeVers
    ensures Settled(kvs + [kv], vers, freeVers)
  {}

  lemma AccountPush(kvs: seq<Wskv>, kv: Wskv, id: VerId, vers: seq<OldVersion>, vers': seq<OldVersion>,
                    free: seq<VerId>, free': seq<VerId>,
                    vals: seq<Ptr>, ids: seq<VerId>, vals': seq<Ptr>, ids': seq<VerId>)
    requires Accounted(kvs, vers, free, vals, ids, vals', ids') && kv.dummy == Some(id) && kv.val == LogicalDelete
    requires if free == [] then id == |vers| && free' == [] else id == free[0] && free' == free[1..]
    requires |vers| <= |vers'| && id < |vers'| && id !in free'
    requires forall v :: 0 <= v < |vers| && v != id ==> vers'[v] == vers[v]
    ensures Accounted(kvs + [kv], vers', free', vals, ids,
                      (if vers'[id].value.At? then [vers'[id].value.p] else []) + vals', [id] + ids')
  {
    SettledUnder(kvs, vers, vers', free, free', id);
    SettledGrows(kvs, kv, vers', free');
    PushedSlot(kv, vers');
    RetiredGrows(kvs, kv, vers', vals, ids);
    hide RetiredVals, RetiredVers, SlotVals, SlotVers, Settled;
  }

  /** Reusing a free version, or a new one, disturbs no slot. */
  lemma SettledUnder(kvs: seq<Wskv>, vers: seq<OldVersion>, vers': seq<OldVersion>,
                     free: seq<VerId>, free': seq<VerId>, id: VerId)
    requires Settled(kvs, vers, free) && |vers| <= |vers'|
    requires if free == [] then id == |vers| && free' == [] else id == free[0] && free' == free[1..]
    requires forall v :: 0 <= v < |vers| && v != id ==> vers'[v] == vers[v]
    ensures Settled(kvs, vers', free') && RetiredVals(kvs, vers') == RetiredVals(kvs, vers)
  {
    hide RetiredVals;
    RetiredValsFrame(kvs, vers, vers');
  }

  /** The memory DBTX::End works on: the shared nodes, and the thread's own sets and pools. */
  class TxEnd {
    var nodes: seq<MemNode>
    var vers: seq<OldVersion>
    var kvs: seq<Wskv>
    var queue: seq<RmObj>      // DELSet
    var freeVers: seq<VerId>
    var gcVers: seq<VerId>
    var gcVals: seq<Ptr>
    var rm: seq<RmObj>

    /** The object shows thread t of the machine state c. */
    ghost predicate Shows(c: Conc, t: Tid)
      reads this
    {
      && t < |c.threads|
      && nodes == c.nodes && vers == c.vers
      && freeVers == c.threads[t].freeVers && gcVers == c.threads[t].gcVers
      && gcVals == c.threads[t].gcVals && rm == c.threads[t].rm
    }

    /** Slots [..i] have been written; the rest of the commit is still to be collected. */
    ghost predicate Written(c: Conc, t: Tid, c': Conc, i: nat)
      reads this
      requires i <= |kvs| && t < |c.threads|
    {
      && t < |c'.threads|
      && nodes == c'.nodes && vers == c'.vers && freeVers == c'.threads[t].freeVers
      && Accounted(kvs[..i], vers, freeVers, c.threads[t].gcVals, c.threads[t].gcVers,
                   c'.threads[t].gcVals, c'.threads[t].gcVers)
      && Reverse(queue) + c.threads[t].rm == c'.threads[t].rm
    }

    /** One round of the loop in Write. */
    method WriteSlot(gcounter: nat, i: nat, ghost c: Conc, ghost t: Tid, ghost c1: Conc)
      requires i < |kvs| && kvs[i].dummy == None && kvs[i].node < |c1.nodes|
      requires Fits(c1, t, []) && gcounter == c1.snapshot
      requires t < |c.threads| && Written(c, t, c1, i)
      modifies this`nodes, this`vers, this`kvs, this`queue, this`freeVers
      ensures |kvs| == |old(kvs)| && (forall j :: i < j < |kvs| ==> kvs[j] == old(kvs)[j])
      ensures Written(c, t, WriteOne(c1, t, Entry(old(kvs[i]))), i + 1)
    {
      hide WriteOne, Reverse, Accounted, Queues;
      ghost var e, done, th, th1 := Entry(kvs[i]), kvs[..i], c.threads[t], c1.threads[t];
      var nd := nodes[kvs[i].node];
      var counter := if nd.counter == 0 then gcounter else nd.counter;
      assert nd == c1.nodes[e.node] && nd.counter <= gcounter;
      NoteDelete(i, th.rm);
      if counter == gcounter {
        OneOverwrites(c1, t, e);
        Overwrite(gcounter, i);
        AccountOverwrite(done, kvs[i], vers, freeVers, th.gcVals, th.gcVers, th1.gcVals, th1.gcVers);
      } else {
        OnePushes(c1, t, e);
        Push(gcounter, i);
        AccountPush(done, kvs[i], NewId(c1, t), c1.vers, vers, th1.freeVers, freeVers,
                    th.gcVals, th.gcVers, th1.gcVals, th1.gcVers);
      }
      assert kvs[..i + 1] == done + [kvs[i]];
    }

    /** A delete of a live row is noted in DELSet. */
    method NoteDelete(i: nat, ghost rest: seq<RmObj>)
      requires i < |kvs| && kvs[i].node < |nodes|
      modifies this`queue
      ensures Reverse(queue) + rest == Queues(nodes[kvs[i].node], Entry(kvs[i])) + (Reverse(old(queue)) + rest)
    {
      var nd := nodes[kvs[i].node];
      if kvs[i].val == LogicalDelete && nd.value != LogicalDelete {
        queue := queue + [RmObj(kvs[i].key, kvs[i].node, nd.seqno + 1)];
        ReverseGrows(old(queue), RmObj(kvs[i].key, kvs[i].node, nd.seqno + 1), rest);
      }
    }

    /** The node's counter is current: swap the value pointer with the slot. */
    method Overwrite(gcounter: nat, i: nat)
      requires i < |kvs| && kvs[i].node < |nodes|
      modifies this`nodes, this`kvs
      ensures nodes == old(nodes)[old(kvs)[i].node := old(nodes)[old(kvs)[i].node].(counter := gcounter,
                         value := old(kvs)[i].val, seqno := old(nodes)[old(kvs)[i].node].seqno + 1)]
      ensures kvs == old(kvs)[i := old(kvs)[i].(val := old(nodes)[old(kvs)[i].node].value)]
    {
      var kv := kvs[i];
      var nd := nodes[kv.node];
      kvs := kvs[i := kv.(val := nd.value)];
      nodes := nodes[kv.node := nd.(counter := gcounter, value := kv.val, seqno := nd.seqno + 1)];
    }

    /** The node's counter is old: its contents move to an old version first. */
    method Push(gcounter: nat, i: nat)
      requires i < |kvs| && kvs[i].node < |nodes| && Distinct(freeVers)
      requires forall j :: 0 <= j < |freeVers| ==> freeVers[j] < |vers|
      modifies this`nodes, this`kvs, this`vers, this`freeVers
      ensures var id := if old(freeVers) == [] then |old(vers)| else old(freeVers)[0];
              var nd := old(nodes)[old(kvs)[i].node];
              var dummy := OldVersion(nd.value, nd.counter, nd.prior);
              && nodes == old(nodes)[old(kvs)[i].node := nd.(counter := gcounter, value := old(kvs)[i].val,
                                                             seqno := nd.seqno + 1, prior := Some(id))]
              && kvs == old(kvs)[i := old(kvs)[i].(val := LogicalDelete, dummy := Some(id))]
              && vers == (if old(freeVers) == [] then old(vers) + [dummy] else old(vers)[id := dummy])
              && freeVers == (if old(freeVers) == [] then [] else old(freeVers)[1..])
              && id < |vers| && id !in freeVers && vers[id] == dummy
    {
      var kv := kvs[i];
      var nd := nodes[kv.node];
      var id := PushVersion(OldVersion(nd.value, nd.counter, nd.prior), freeVers);
      kvs := kvs[i := kv.(val := LogicalDelete, dummy := Some(id))];
      nodes := nodes[kv.node := nd.(counter := gcounter, value := kv.val, seqno := nd.seqno + 1, prior := Some(id))];
    }

    /** GetMemNode, filled: a free old-version node, or a new one. */
    method PushVersion(dummy: OldVersion, ghost free: seq<VerId>) returns (id: VerId)
      requires free == freeVers && Distinct(freeVers)
      requires forall i :: 0 <= i < |freeVers| ==> freeVers[i] < |vers|
      modifies this`vers, this`freeVers
      ensures id == (if free == [] then |old(vers)| else free[0])
      ensures vers == (if free == [] then old(vers) + [dummy] else old(vers)[id := dummy])
      ensures freeVers == (if free == [] then [] else free[1..])
      ensures id < |vers| && id !in freeVers && vers[id] == dummy
    {
      id := |vers|;
      if freeVers == [] {
        vers := vers + [dummy];
      } else {
        id := freeVers[0];
        freeVers := freeVers[1..];
        vers := vers[id := dummy];
      }
    }

    /** WriteSet::Write. */
    method Write(gcounter: nat, ghost c: Conc, ghost t: Tid)
      requires Shows(c, t) && queue == [] && gcounter == c.snapshot
      requires Fits(c, t, Entries(kvs)) && forall i :: 0 <= i < |kvs| ==> kvs[i].dummy == None
      modifies this`nodes, this`vers, this`kvs, this`queue, this`freeVers
      ensures Fits(c, t, Entries(old(kvs))) && Written(c, t, WriteMany(c, t, Entries(old(kvs))), |kvs|)
    {
      hide WriteOne, Accounted;
      AccountNothing(vers, freeVers, gcVals, gcVers);
      ghost var ws := Entries(kvs);
      ghost var c1 := c;
      var i := 0;
      assert ws[..0] == [] && kvs[..0] == [];
      while i < |kvs|
        invariant 0 <= i <= |kvs| == |ws|
        invariant forall j :: i <= j < |kvs| ==> kvs[j] == old(kvs)[j]
        invariant Fits(c, t, ws[..i]) && c1 == WriteMany(c, t, ws[..i]) && Written(c, t, c1, i)
      {
        assert kvs[i] == old(kvs)[i] && ws[i] == Entry(kvs[i]);
        assert ws[..i + 1][..i] == ws[..i] && ws[..i + 1][i] == ws[i];
        assert forall j :: 0 <= j < i + 1 ==> ws[..i + 1][j] == ws[j];
        WriteSlot(gcounter, i, c, t, c1);
        c1 := WriteOne(c1, t, ws[i]);
        assert c1 == WriteMany(c, t, ws[..i + 1]);
        i := i + 1;
      }
      assert ws[..i] == ws;
    }

    /** WriteSet::CollectOldVersions. */
    method CollectOldVersions()
      modifies this`gcVals, this`gcVers
      ensures gcVals == RetiredVals(kvs, vers) + old(gcVals)
      ensures gcVers == RetiredVers(kvs) + old(gcVers)
    {
      var i := 0;
      assert kvs[..0] == [];
      assert RetiredVals(kvs[..0], vers) == [] && RetiredVers(kvs[..0]) == [];
      hide RetiredVals, RetiredVers, SlotVals, SlotVers;
      while i < |kvs|
        invariant 0 <= i <= |kvs|
        invariant gcVals == RetiredVals(kvs[..i], vers) + old(gcVals)
        invariant gcVers == RetiredVers(kvs[..i]) + old(gcVers)
      {
        assert kvs[..i + 1] == kvs[..i] + [kvs[i]];
        RetiredGrows(kvs[..i], kvs[i], vers, old(gcVals), old(gcVers));
        Collect(i);
        i := i + 1;
      }
      assert kvs[..i] == kvs;
    }

    /** One round of CollectOldVersions. */
    method Collect(i: nat)
      requires i < |kvs|
      modifies this`gcVals, this`gcVers
      ensures gcVals == SlotVals(kvs[i], vers) + old(gcVals)
      ensures gcVers == SlotVers(kvs[i]) + old(gcVers)
    {
      if ValidateValue(kvs[i].val) { gcVals := [kvs[i].val.p] + gcVals; }
      if kvs[i].dummy.Some? {
        var id := kvs[i].dummy.value;
        gcVers := [id] + gcVers;
        if id < |vers| && ValidateValue(vers[id].value) { gcVals := [vers[id].value.p] + gcVals; }
      }
    }

    /** DELSet::GCRMNodes. */
    method GCRMNodes()
      modifies this`rm
      ensures rm == Reverse(queue) + old(rm)
    {
      var i := 0;
      assert queue[..0] == [];
      while i < |queue|
        invariant 0 <= i <= |queue|
        invariant rm == Reverse(queue[..i]) + old(rm)
      {
        assert queue[..i + 1] == queue[..i] + [queue[i]];
        ReverseGrows(queue[..i], queue[i], old(rm));
        rm := [queue[i]] + rm;
        i := i + 1;
      }
      assert queue[..i] == queue;
    }

    /** The commit of DBTX::End: afterwards the object shows the machine's next state. */
    method Publish(gcounter: nat, ghost c: Conc, ghost t: Tid)
      requires Shows(c, t) && queue == [] && gcounter == c.snapshot
      requires Fits(c, t, Entries(kvs)) && forall i :: 0 <= i < |kvs| ==> kvs[i].dummy == None
      modifies this
      ensures Shows(WriteMany(c, t, Entries(old(kvs))), t)
    {
      ghost var ws := Entries(kvs);
      Write(gcounter, c, t);
      assert kvs[..|kvs|] == kvs;
      CollectOldVersions();
      GCRMNodes();
    }
  }

  // ----- The machine's commit is this commit -----

  ghost function Popped(c: Conc, t: Tid): Conc
    requires t < |c.threads|
  {
    c.(threads := c.threads[t := c.threads[t].(ws := [])])
  }

  lemma OneIgnoresSet(c1: Conc, c2: Conc, t: Tid, e: WsEntry)
    requires Fits(c1, t, []) && Fits(c2, t, []) && e.node < |c1.nodes|
    requires Popped(c1, t) == Popped(c2, t)
    ensures |c2.nodes| == |c1.nodes|
    ensures |WriteOne(c1, t, e).threads| == |c1.threads| == |WriteOne(c2, t, e).threads|
    ensures Popped(WriteOne(c1, t, e), t) == Popped(WriteOne(c2, t, e), t)
  {
    assert Popped(c1, t).threads[t] == Popped(c2, t).threads[t];
    assert Popped(WriteOne(c1, t, e), t).threads == Popped(WriteOne(c2, t, e), t).threads by {
      forall u | 0 <= u < |c1.threads| && u != t ensures c1.threads[u] == c2.threads[u] {
        assert Popped(c1, t).threads[u] == Popped(c2, t).threads[u];
      }
    }
  }

  lemma {:induction false} ManyIgnoresSet(c1: Conc, c2: Conc, t: Tid, ws: seq<WsEntry>)
    requires Fits(c1, t, ws) && Fits(c2, t, ws) && Popped(c1, t) == Popped(c2, t)
    ensures Popped(WriteMany(c1, t, ws), t) == Popped(WriteMany(c2, t, ws), t)
  {
    hide WriteOne;
    if |ws| > 0 {
      var rest := ws[..|ws| - 1];
      ManyIgnoresSet(c1, c2, t, rest);
      OneIgnoresSet(WriteMany(c1, t, rest), WriteMany(c2, t, rest), t, ws[|ws| - 1]);
    }
  }

  lemma EmptyWrite(c: Conc, t: Tid)
    requires Fits(c, t, [])
    ensures WriteMany(c, t, []) == c
  {}

  lemma NextIsWriteOne(s: State, t: Tid)
    requires CanWrite(s, t) && s.c.threads[t].ws != []
    ensures var ws := s.c.threads[t].ws;
            WriteNext(s, t).c == WriteOne(s.c.(threads := s.c.threads[t := s.c.threads[t].(ws := ws[1..])]), t, ws[0])
  {
    hide WriteOne;
  }

  /** The machine pops entries while it writes; otherwise its commit is WriteMany. */
  lemma {:induction false} CommitIsWriteMany(s: State, t: Tid)
    requires CanWrite(s, t) && Fits(s.c, t, s.c.threads[t].ws)
    ensures |WriteAll(s, t).c.threads| == |s.c.threads|
    ensures WriteAll(s, t).c == Popped(WriteMany(s.c, t, s.c.threads[t].ws), t)
    decreases |s.c.threads[t].ws|
  {
    hide WriteOne, WriteNext, WriteMany;
    var ws := s.c.threads[t].ws;
    if ws == [] {
      assert WriteMany(s.c, t, ws) == s.c by { EmptyWrite(s.c, t); }
      assert s.c.threads == Popped(s.c, t).threads;
    } else {
      var e, rest := ws[0], ws[1..];
      assert ws == [e] + rest;
      var c0 := s.c.(threads := s.c.threads[t := s.c.threads[t].(ws := rest)]);
      var s1 := WriteNext(s, t);
      NextIsWriteOne(s, t);
      assert Popped(c0, t).threads == Popped(s.c, t).threads;
      OneFits(c0, t, e, rest);
      OneFits(s.c, t, e, rest);
      OneIgnoresSet(c0, s.c, t, e);
      CommitIsWriteMany(s1, t);
      ManyIgnoresSet(s1.c, WriteOne(s.c, t, e), t, rest);
      WriteManyFirst(s.c, t, e, rest);
    }
  }
}
