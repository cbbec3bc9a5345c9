/** Reclamation safety and delayed removal, over whole runs. */
module DbxReclaimTheorems {
  import opened Common
  import opened DbxModel
  import opened DbxSteps
  import opened DbxInvariant
  import opened DbxLocal
  import opened DbxReclaim
  import opened DbxCommit
  import opened DbxTheorems

  // ----- Values -----

  /**
    A buffer GetFreeObj may hand out is the value of no node, is what no snapshot
    reader's scan of any node returns, and is in no transaction's hands.
  */
  lemma FreeBuffersUnreachable(run: seq<State>, acts: seq<Step>, threads: nat, i: nat, t: Tid, p: Ptr)
    requires IsRun(run, acts, threads) && i < |run| && t < |run[i].c.threads|
    requires p in run[i].c.threads[t].freeVals
    ensures forall n :: 0 <= n < |run[i].c.nodes| ==> run[i].c.nodes[n].value != At(p)
    ensures forall u, n :: 0 <= u < |run[i].c.threads| && InRo(run[i].c.threads[u].pc) && 0 <= n < |run[i].c.nodes| ==>
              ScanMemNode(run[i].c, n, run[i].c.threads[u].oldsnapshot) != At(p)
    ensures forall u :: 0 <= u < |run[i].g.th| ==> p !in run[i].g.th[u].held
  {
    RunInv(run, acts, threads, i);
    var s := run[i];
    assert ThreadOk(s, t);
    forall n | 0 <= n < |s.c.nodes| ensures s.c.nodes[n].value != At(p) {
      assert NodeOk(s, n);
    }
    forall u | 0 <= u < |s.g.th| ensures p !in s.g.th[u].held {
      assert ThreadOk(s, u);
    }
    forall u, n | 0 <= u < |s.c.threads| && InRo(s.c.threads[u].pc) && 0 <= n < |s.c.nodes|
      ensures ScanMemNode(s.c, n, s.c.threads[u].oldsnapshot) != At(p)
    {
      ScanReadsSnapshot(s, u, n);
    }
  }

  /** Bytes behind a pointer given to a transaction stay as they were until it ends. */
  lemma HeldBytesStay(run: seq<State>, acts: seq<Step>, threads: nat, i: nat, t: Tid, p: Ptr)
    requires IsRun(run, acts, threads) && i < |run| && t < |run[i].g.th|
    requires p in run[i].g.th[t].held
    ensures p < |run[i].c.mem| && run[i].c.mem[p] == run[i].g.th[t].held[p]
  {
    RunInv(run, acts, threads, i);
    assert ThreadOk(run[i], t);
  }

  // ----- Old versions -----

  /** ScanMemNode's walk dereferences version x. */
  ghost predicate Visits(vers: seq<OldVersion>, v: Option<VerId>, s: nat, x: VerId)
    decreases if v.Some? && v.value < |vers| then vers[v.value].counter + 1 else 0
  {
    v.Some? && v.value < |vers| &&
    var e := vers[v.value];
    || v.value == x
    || (e.counter > s && e.next.Some? && e.next.value < |vers| && vers[e.next.value].counter < e.counter
        && Visits(vers, e.next, s, x))
  }

  lemma {:induction false} VisitedIsIntact(s: State, n: NodeId, snap: nat, j: nat, x: VerId)
    requires SharedOk(s) && n < |s.c.nodes| && j <= |s.g.nodes[n].hist|
    requires j > 0 ==> Above(s, n, j - 1) > snap
    requires forall i :: 0 <= i < |s.g.nodes[n].hist| && Above(s, n, i) > snap ==> VersionIntact(s, n, i)
    requires Visits(s.c.vers, LinkTo(s.g.nodes[n].hist, j), snap, x)
    ensures x < |s.g.ver| && s.g.ver[x].VRetired?
  {
    var hist := s.g.nodes[n].hist;
    assert PastOk(s, n, j - 1);
    if hist[j - 1].id != x {
      if j > 1 {
        assert PastOk(s, n, j - 2);
        assert Above(s, n, j - 2) == hist[j - 1].counter;
        VisitedIsIntact(s, n, snap, j - 1, x);
      }
    }
  }

  /** No read-only transaction's scan walks into an old-version node that may be reused. */
  lemma FreeVersionsUnreachable(run: seq<State>, acts: seq<Step>, threads: nat, i: nat, t: Tid, v: VerId,
                                u: Tid, n: NodeId)
    requires IsRun(run, acts, threads) && i < |run| && t < |run[i].c.threads| && u < |run[i].c.threads|
    requires v in run[i].c.threads[t].freeVers
    requires InRo(run[i].c.threads[u].pc) && n < |run[i].c.nodes|
    ensures run[i].c.nodes[n].counter > run[i].c.threads[u].oldsnapshot ==>
              !Visits(run[i].c.vers, run[i].c.nodes[n].prior, run[i].c.threads[u].oldsnapshot, v)
  {
    RunInv(run, acts, threads, i);
    var s := run[i];
    var snap := s.c.threads[u].oldsnapshot;
    assert ThreadOk(s, t) && ThreadOk(s, u) && NodeOk(s, n);
    if s.c.nodes[n].counter > snap && Visits(s.c.vers, s.c.nodes[n].prior, snap, v) {
      VisitedIsIntact(s, n, snap, |s.g.nodes[n].hist|, v);
    }
  }

  // ----- Sequence numbers -----

  /** Nodes are never dropped, keep their key, and count every change of themselves. */
  ghost predicate NodesMove(a: seq<MemNode>, b: seq<MemNode>) {
    && |a| <= |b|
    && forall n :: 0 <= n < |a| ==>
         && b[n].key == a[n].key && a[n].seqno <= b[n].seqno
         && (b[n].seqno == a[n].seqno ==> b[n] == a[n])
         && (a[n].value == HaveRemoved ==> b[n] == a[n])
  }

  lemma NodesMoveOn(a: seq<MemNode>, b: seq<MemNode>, c: seq<MemNode>)
    requires NodesMove(a, b) && NodesMove(b, c)
    ensures NodesMove(a, c)
  {}

  lemma WriteNextMoves(s: State, t: Tid)
    requires CanWrite(s, t) && s.c.threads[t].ws != []
    requires s.c.nodes[s.c.threads[t].ws[0].node].value != HaveRemoved
    ensures NodesMove(s.c.nodes, WriteNext(s, t).c.nodes)
  {}

  lemma {:induction false} WriteAllMoves(s: State, t: Tid)
    requires ReadyToWrite(s, t)
    ensures NodesMove(s.c.nodes, WriteAll(s, t).c.nodes)
    decreases |s.c.threads[t].ws|
  {
    hide Core, WriteNext, NodesMove;
    if s.c.threads[t].ws != [] {
      assert s.c.threads[t].ws[0] in s.c.threads[t].ws;
      WriteNextMoves(s, t);
      WriteNextStep(s, t);
      var s1 := WriteNext(s, t);
      WriteAllMoves(s1, t);
      NodesMoveOn(s.c.nodes, s1.c.nodes, WriteAll(s1, t).c.nodes);
    } else {
      NodesStay(s.c.nodes);
    }
  }

  lemma NodesStay(a: seq<MemNode>)
    ensures NodesMove(a, a)
  {}

  lemma StepMoves(s: State, a: Step)
    requires Inv(s) && Enabled(s, a)
    ensures NodesMove(s.c.nodes, Next(s, a).c.nodes)
  {
    if a.EndCommit? {
      SealedKeeps(s, a.t);
      WriteAllMoves(Sealed(s, a.t), a.t);
    } else if a.RemoveOne? {
      QueuedIsDeleted(s, a.t);
    } else if a.GetIndex? || a.AddIndex? {
    } else {
      NodesUntouched(s, a);
    }
  }

  lemma NodesUntouched(s: State, a: Step)
    requires Enabled(s, a) && !a.EndCommit? && !a.RemoveOne? && !a.GetIndex? && !a.AddIndex?
    ensures Next(s, a).c.nodes == s.c.nodes
  {}

  lemma {:induction false} RunMoves(run: seq<State>, acts: seq<Step>, threads: nat, i: nat, j: nat)
    requires IsRun(run, acts, threads) && i <= j < |run|
    ensures NodesMove(run[i].c.nodes, run[j].c.nodes)
  {
    hide NodesMove, Inv, Next, Enabled;
    if i == j {
      NodesStay(run[i].c.nodes);
    } else {
      RunMoves(run, acts, threads, i, j - 1);
      RunInv(run, acts, threads, j - 1);
      StepMoves(run[j - 1], acts[j - 1]);
      NodesMoveOn(run[i].c.nodes, run[j - 1].c.nodes, run[j].c.nodes);
    }
  }

  // ----- Delayed removal -----

  /** Step i takes node `o.node` out of the index. */
  ghost predicate Removes(run: seq<State>, acts: seq<Step>, i: nat, o: RmObj)
    requires i < |acts| && |run| == |acts| + 1
  {
    && Enabled(run[i], acts[i]) && acts[i].RemoveOne?
    && o == run[i].c.threads[acts[i].t].rm[0]
    && run[i].c.nodes[o.node].seqno == o.seqno
  }

  /** The row removed is deleted, in the index, and absent from the store. */
  lemma RemovesDeletedRow(run: seq<State>, acts: seq<Step>, threads: nat, i: nat, o: RmObj)
    requires IsRun(run, acts, threads) && i < |acts| && Removes(run, acts, i, o)
    ensures run[i].c.nodes[o.node].value == LogicalDelete
    ensures o.key in run[i].c.index && run[i].c.index[o.key] == o.node
    ensures o.key !in Replay(run[i].g.log)
    ensures o.node < |run[i].c.nodes| == |run[i + 1].c.nodes|
    ensures run[i + 1].c.index == run[i].c.index - {o.key} && run[i + 1].c.nodes[o.node].value == HaveRemoved
  {
    RunInv(run, acts, threads, i);
    QueuedIsDeleted(run[i], acts[i].t);
  }

  /** No node is removed twice. */
  lemma RemovedAtMostOnce(run: seq<State>, acts: seq<Step>, threads: nat, i: nat, j: nat, o: RmObj, p: RmObj)
    requires IsRun(run, acts, threads) && i < j < |acts|
    requires Removes(run, acts, i, o) && Removes(run, acts, j, p)
    ensures o.node != p.node
  {
    hide Next, Enabled;
    RemovesDeletedRow(run, acts, threads, i, o);
    RemovesDeletedRow(run, acts, threads, j, p);
    RunMoves(run, acts, threads, i + 1, j);
  }

  /** Only a commit of the same thread queues an object, and it had written that delete. */
  lemma QueuedByCommit(s: State, a: Step, t: Tid, o: RmObj)
    requires Inv(s) && Enabled(s, a) && t < |s.c.threads| == |Next(s, a).c.threads|
    requires o in Next(s, a).c.threads[t].rm && o !in s.c.threads[t].rm
    ensures a == EndCommit(t) && t < |s.g.th| && Write(o.key, None) in s.g.th[t].wlog
  {
    hide Inv, Next, Enabled;
    if a.EndCommit? {
      CommitQueues(s, a.t, t, o);
    } else {
      StepFrame(s, a);
    }
  }

  lemma CommitQueues(s: State, t: Tid, u: Tid, o: RmObj)
    requires Inv(s) && Enabled(s, EndCommit(t)) && u < |s.c.threads| == |Next(s, EndCommit(t)).c.threads|
    requires o in Next(s, EndCommit(t)).c.threads[u].rm && o !in s.c.threads[u].rm
    ensures u == t && t < |s.g.th| && Write(o.key, None) in s.g.th[t].wlog
  {
    hide WriteAll;
    SealedKeeps(s, t);
    WriteAllQueues(Sealed(s, t), t, u, o);
  }

  lemma WriteNextQueues(s: State, t: Tid, u: Tid, o: RmObj)
    requires CanWrite(s, t) && s.c.threads[t].ws != [] && u < |s.c.threads|
    requires EntryOk(s, t, s.c.threads[t].ws[0], s.g.th[t].wlog[0])
    requires o in WriteNext(s, t).c.threads[u].rm && o !in s.c.threads[u].rm
    ensures u == t && Write(o.key, None) == s.g.th[t].wlog[0]
  {}

  lemma {:induction false} WriteAllQueues(s: State, t: Tid, u: Tid, o: RmObj)
    requires ReadyToWrite(s, t) && u < |s.c.threads| == |WriteAll(s, t).c.threads|
    requires o in WriteAll(s, t).c.threads[u].rm && o !in s.c.threads[u].rm
    ensures u == t && Write(o.key, None) in s.g.th[t].wlog
    decreases |s.c.threads[t].ws|
  {
    if s.c.threads[t].ws != [] {
      HeadEntryOk(s, t);
      WriteAllQueuesNext(s, t, u, o);
    }
  }

  lemma HeadEntryOk(s: State, t: Tid)
    requires ReadyToWrite(s, t) && s.c.threads[t].ws != []
    ensures EntryOk(s, t, s.c.threads[t].ws[0], s.g.th[t].wlog[0])
  {
    assert ThreadOk(s, t);
  }

  lemma WriteAllQueuesNext(s: State, t: Tid, u: Tid, o: RmObj)
    requires ReadyToWrite(s, t) && s.c.threads[t].ws != [] && EntryOk(s, t, s.c.threads[t].ws[0], s.g.th[t].wlog[0])
    requires u < |s.c.threads| == |WriteAll(s, t).c.threads|
    requires o in WriteAll(s, t).c.threads[u].rm && o !in s.c.threads[u].rm
    ensures u == t && Write(o.key, None) in s.g.th[t].wlog
    decreases |s.c.threads[t].ws|, 0
  {
    hide Core, WriteNext, EntryOk;
    var s1 := WriteNext(s, t);
    WriteNextStep(s, t);
    WriteNextThreads(s, t);
    if o in s1.c.threads[u].rm {
      WriteNextQueues(s, t, u, o);
    } else {
      WriteAllQueues(s1, t, u, o);
    }
  }

  lemma WriteNextThreads(s: State, t: Tid)
    requires CanWrite(s, t) && s.c.threads[t].ws != []
    ensures |WriteNext(s, t).c.threads| == |s.c.threads|
  {}

  /**
    A physical removal comes after the delete that queued the row, with no write to
    the row in between: from the end of that commit to the removal the node is unchanged.
  */
  lemma {:induction false} RemovalFollowsItsDelete(run: seq<State>, acts: seq<Step>, threads: nat, i: nat, o: RmObj)
    returns (b: nat)
    requires IsRun(run, acts, threads) && i < |acts| && Removes(run, acts, i, o)
    ensures b < i && acts[b] == EndCommit(acts[i].t)
    ensures acts[i].t < |run[b].g.th| && Write(o.key, None) in run[b].g.th[acts[i].t].wlog
    ensures forall j :: b < j <= i ==> o.node < |run[j].c.nodes| && run[j].c.nodes[o.node] == run[i].c.nodes[o.node]
  {
    b := QueueingCommit(run, acts, threads, i, acts[i].t, o);
    forall j | b < j <= i ensures o.node < |run[j].c.nodes| && run[j].c.nodes[o.node] == run[i].c.nodes[o.node] {
      RunMoves(run, acts, threads, b + 1, j);
      RunMoves(run, acts, threads, j, i);
    }
  }

  lemma {:induction false} QueueingCommit(run: seq<State>, acts: seq<Step>, threads: nat, i: nat, t: Tid, o: RmObj)
    returns (b: nat)
    requires IsRun(run, acts, threads) && i < |run| && t < |run[i].c.threads| && o in run[i].c.threads[t].rm
    ensures b < i && acts[b] == EndCommit(t)
    ensures t < |run[b].g.th| && Write(o.key, None) in run[b].g.th[t].wlog
    ensures o.node < |run[b + 1].c.nodes| && o.seqno <= run[b + 1].c.nodes[o.node].seqno
  {
    hide Next, Enabled, Inv;
    ThreadCount(run, acts, threads, i);
    RunInv(run, acts, threads, i);
    QueueNotEmptyAtStart(run, acts, threads, i, t, o);
    ThreadCount(run, acts, threads, i - 1);
    RunInv(run, acts, threads, i - 1);
    if o in run[i - 1].c.threads[t].rm {
      b := QueueingCommit(run, acts, threads, i - 1, t, o);
    } else {
      QueuedByCommit(run[i - 1], acts[i - 1], t, o);
      b := i - 1;
      QueuedBounded(run[i], t, o);
    }
  }

  lemma QueueNotEmptyAtStart(run: seq<State>, acts: seq<Step>, threads: nat, i: nat, t: Tid, o: RmObj)
    requires IsRun(run, acts, threads) && i < |run| && t < |run[i].c.threads| && o in run[i].c.threads[t].rm
    ensures i > 0
  {}

  lemma QueuedBounded(s: State, t: Tid, o: RmObj)
    requires Inv(s) && t < |s.c.threads| && o in s.c.threads[t].rm
    ensures o.node < |s.c.nodes| && o.seqno <= s.c.nodes[o.node].seqno
  {
    assert ThreadOk(s, t);
    var j :| 0 <= j < |s.c.threads[t].rm| && s.c.threads[t].rm[j] == o;
    assert RmOk(s, s.c.threads[t].rm[j]);
  }
}
