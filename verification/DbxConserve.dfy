/** No buffer and no old-version node is lost: each is always in exactly one place. */
module DbxConserve {
  import opened Common
  import opened DbxModel
  import opened DbxSteps
  import opened DbxInvariant
  import opened DbxTheorems
  import opened DbxCommit
  import opened DbxReclaim
  import opened DbxCode

  // ----- Labels say where a thing is -----

  ghost predicate InWriteSet(ws: seq<WsEntry>, p: Ptr) {
    exists j :: 0 <= j < |ws| && ws[j].val == At(p)
  }

  ghost predicate BufferPlaced(s: State, p: Ptr)
    requires WfSizes(s) && p < |s.g.ptr|
  {
    match s.g.ptr[p]
    case Free(t) => t < |s.c.threads| && p in s.c.threads[t].freeVals
    case Pending(t) => t < |s.c.threads| && InWriteSet(s.c.threads[t].ws, p)
    case Current(n) => n < |s.c.nodes| && s.c.nodes[n].value == At(p)
    case Retired(t, _) => t < |s.c.threads| && p in s.c.threads[t].gcVals
    case Leaked => true
  }

  ghost predicate VersionPlaced(s: State, v: VerId)
    requires WfSizes(s) && v < |s.g.ver|
  {
    match s.g.ver[v]
    case VFree(t) => t < |s.c.threads| && v in s.c.threads[t].freeVers
    case VRetired(t, _, _) => t < |s.c.threads| && v in s.c.threads[t].gcVers
  }

  ghost predicate AllPlaced(s: State) {
    && WfSizes(s)
    && (forall p :: 0 <= p < |s.g.ptr| ==> BufferPlaced(s, p))
    && (forall v :: 0 <= v < |s.g.ver| ==> VersionPlaced(s, v))
  }

  // ----- Every step keeps them placed -----

  /** Lists, write sets, labels and buffers in nodes are as before. */
  ghost predicate Unmoved(s: State, s': State) {
    && WfSizes(s) && WfSizes(s') && s'.g.ptr == s.g.ptr && s'.g.ver == s.g.ver
    && |s'.c.threads| == |s.c.threads| && |s.c.nodes| <= |s'.c.nodes|
    && (forall n :: 0 <= n < |s.c.nodes| && s.c.nodes[n].value.At? ==> s'.c.nodes[n].value == s.c.nodes[n].value)
    && (forall t :: 0 <= t < |s.c.threads| ==> SameLists(s.c.threads[t], s'.c.threads[t]))
  }

  ghost predicate SameLists(a: Thread, b: Thread) {
    b.freeVals == a.freeVals && b.gcVals == a.gcVals && b.freeVers == a.freeVers && b.gcVers == a.gcVers && b.ws == a.ws
  }

  lemma UnmovedPlaced(s: State, s': State)
    requires AllPlaced(s) && Unmoved(s, s')
    ensures AllPlaced(s')
  {
    forall p | 0 <= p < |s'.g.ptr| ensures BufferPlaced(s', p) { assert BufferPlaced(s, p); }
    forall v | 0 <= v < |s'.g.ver| ensures VersionPlaced(s', v) { assert VersionPlaced(s, v); }
  }

  predicate Moves(a: Step) { a.AddInsert? || a.EndCommit? || a.EndAbort? || a.FreeAll? }

  lemma OthersUnmoved(s: State, a: Step)
    requires Enabled(s, a) && !Moves(a) && !a.RemoveOne? && !a.RcuEnd?
    ensures Unmoved(s, Next(s, a))
  {
    hide Unmoved, Next, Enabled;
    if a.RcuBeginInc? || a.RcuBeginClear? || a.GetOwn? || a.GetRegion? || a.GetFirstRead? || a.GetSecondRead? || a.AddCheck? {
      LocalUnmoved(s, a);
    } else if a.GetIndex? || a.AddIndex? {
      IndexUnmoved(s, a);
    } else if a.WaitStart? || a.WaitCopy? || a.WaitCheck? || a.RemoveDone? {
      WaitUnmoved(s, a);
    } else {
      ReaderUnmoved(s, a);
    }
  }

  lemma LocalUnmoved(s: State, a: Step)
    requires Enabled(s, a)
    requires a.RcuBeginInc? || a.RcuBeginClear? || a.GetOwn? || a.GetRegion? || a.GetFirstRead? || a.GetSecondRead? || a.AddCheck?
    ensures Unmoved(s, Next(s, a))
  {}

  lemma IndexUnmoved(s: State, a: Step)
    requires Enabled(s, a) && (a.GetIndex? || a.AddIndex?)
    ensures Unmoved(s, Next(s, a))
  {}

  lemma WaitUnmoved(s: State, a: Step)
    requires Enabled(s, a) && (a.WaitStart? || a.WaitCopy? || a.WaitCheck? || a.RemoveDone?)
    ensures Unmoved(s, Next(s, a))
  {}

  lemma ReaderUnmoved(s: State, a: Step)
    requires Enabled(s, a) && (a.RoSnapshot? || a.RoIndex? || a.RoScan? || a.RoEnd?)
    ensures Unmoved(s, Next(s, a))
  {}

  lemma RemoveUnmoved(s: State, t: Tid)
    requires Inv(s) && Enabled(s, RemoveOne(t))
    ensures Unmoved(s, Next(s, RemoveOne(t)))
  {
    QueuedIsDeleted(s, t);
    hide Inv, Core;
  }

  lemma EndUnmoved(s: State, t: Tid)
    requires Inv(s) && Enabled(s, RcuEnd(t))
    ensures Unmoved(s, Next(s, RcuEnd(t)))
  {
    assert s.c.threads[t].ws == [] by { assert ThreadOk(s, t); }
    hide Inv, Core;
  }

  lemma InsertPlaced(s: State, t: Tid)
    requires Inv(s) && AllPlaced(s) && Enabled(s, AddInsert(t))
    ensures AllPlaced(Next(s, AddInsert(t)))
  {
    assert Distinct(s.c.threads[t].freeVals) by { assert ThreadOk(s, t); }
    hide Inv, BufferPlaced;
    var s' := AddInserted(s, t);
    forall p | 0 <= p < |s'.g.ptr| ensures BufferPlaced(s', p) { InsertedBuffer(s, t, p); }
    forall v | 0 <= v < |s'.g.ver| ensures VersionPlaced(s', v) { assert VersionPlaced(s, v); }
  }

  lemma InsertedBuffer(s: State, t: Tid, p: Ptr)
    requires Enabled(s, AddInsert(t)) && Distinct(s.c.threads[t].freeVals)
    requires p < |s.g.ptr| ==> BufferPlaced(s, p)
    requires p < |AddInserted(s, t).g.ptr|
    ensures BufferPlaced(AddInserted(s, t), p)
  {
    var s', th := AddInserted(s, t), s.c.threads[t];
    var ws, ws' := th.ws, s'.c.threads[t].ws;
    assert ws'[|ws|].val.At? ==> InWriteSet(ws', ws'[|ws|].val.p);
    WriteSetGrows(ws, ws', p);
    HeadLeaves(th.freeVals, p);
  }

  lemma WriteSetGrows(ws: seq<WsEntry>, ws': seq<WsEntry>, p: Ptr)
    requires ws <= ws'
    ensures InWriteSet(ws, p) ==> InWriteSet(ws', p)
  {
    if InWriteSet(ws, p) {
      var j :| 0 <= j < |ws| && ws[j].val == At(p);
      assert ws'[j].val == At(p);
    }
  }

  lemma HeadLeaves(xs: seq<nat>, x: nat)
    ensures x in xs && x != xs[0] ==> x in xs[1..]
  {
    if x in xs && x != xs[0] {
      var j :| 0 <= j < |xs| && xs[j] == x;
      assert xs[1..][j - 1] == x;
    }
  }

  lemma FreedPlaced(s: State, t: Tid)
    requires AllPlaced(s) && Enabled(s, FreeAll(t))
    ensures AllPlaced(Next(s, FreeAll(t)))
  {
    var s' := Freed(s, t);
    forall p | 0 <= p < |s'.g.ptr| ensures BufferPlaced(s', p) { assert BufferPlaced(s, p); }
    forall v | 0 <= v < |s'.g.ver| ensures VersionPlaced(s', v) { assert VersionPlaced(s, v); }
  }

  lemma AbortedPlaced(s: State, t: Tid)
    requires AllPlaced(s) && Enabled(s, EndAbort(t))
    ensures AllPlaced(Next(s, EndAbort(t)))
  {
    var s' := Aborted(s, t);
    forall p | 0 <= p < |s'.g.ptr| ensures BufferPlaced(s', p) { assert BufferPlaced(s, p); }
    forall v | 0 <= v < |s'.g.ver| ensures VersionPlaced(s', v) { assert VersionPlaced(s, v); }
  }

  lemma WroteBuffer(s: State, s': State, t: Tid, e: WsEntry, id: VerId, p: Ptr)
    requires Wrote(s, s', t, e, id) && p < |s.g.ptr| && BufferPlaced(s, p)
    ensures BufferPlaced(s', p)
  {
    var th := s.c.threads[t];
    if s.g.ptr[p] == Pending(t) && e.val != At(p) {
      var j :| 0 <= j < |th.ws| && th.ws[j].val == At(p);
      assert s'.c.threads[t].ws[j - 1].val == At(p);
    }
  }

  lemma WroteVersion(s: State, s': State, t: Tid, e: WsEntry, id: VerId, v: VerId)
    requires Wrote(s, s', t, e, id) && v < |s'.g.ver| && (v < |s.g.ver| ==> VersionPlaced(s, v))
    ensures VersionPlaced(s', v)
  {
    var th := s.c.threads[t];
    HeadLeaves(th.freeVers, v);
  }

  lemma WriteNextPlaced(s: State, t: Tid)
    requires ReadyToWrite(s, t) && s.c.threads[t].ws != [] && AllPlaced(s)
    ensures AllPlaced(WriteNext(s, t))
  {
    var s', th := WriteNext(s, t), s.c.threads[t];
    var id := if th.freeVers == [] then |s.c.vers| else th.freeVers[0];
    NextWrites(s, t);
    hide Core, Wrote, WriteNext;
    assert WfSizes(s') && |s'.g.ptr| == |s.g.ptr| by { WroteSizes(s, s', t, th.ws[0], id); }
    forall p | 0 <= p < |s'.g.ptr| ensures BufferPlaced(s', p) { WroteBuffer(s, s', t, th.ws[0], id, p); }
    forall v | 0 <= v < |s'.g.ver| ensures VersionPlaced(s', v) { WroteVersion(s, s', t, th.ws[0], id, v); }
  }

  lemma WroteSizes(s: State, s': State, t: Tid, e: WsEntry, id: VerId)
    requires Wrote(s, s', t, e, id)
    ensures WfSizes(s') && |s'.g.ptr| == |s.g.ptr|
  {}

  lemma NextWrites(s: State, t: Tid)
    requires ReadyToWrite(s, t) && s.c.threads[t].ws != []
    ensures var th := s.c.threads[t];
            var id := if th.freeVers == [] then |s.c.vers| else th.freeVers[0];
            Wrote(s, WriteNext(s, t), t, th.ws[0], id)
  {
    assert ThreadOk(s, t) && NodeOk(s, s.c.threads[t].ws[0].node);
    hide Core, Wrote;
    WriteNextWrites(s, t);
  }

  lemma {:induction false} WriteAllPlaced(s: State, t: Tid)
    requires ReadyToWrite(s, t) && AllPlaced(s)
    ensures AllPlaced(WriteAll(s, t))
    decreases |s.c.threads[t].ws|
  {
    hide Core, WriteNext, AllPlaced;
    if s.c.threads[t].ws != [] {
      WriteNextPlaced(s, t);
      WriteNextStep(s, t);
      WriteAllPlaced(WriteNext(s, t), t);
    }
  }

  lemma CommittedPlaced(s: State, t: Tid)
    requires Inv(s) && AllPlaced(s) && Enabled(s, EndCommit(t))
    ensures AllPlaced(Next(s, EndCommit(t)))
  {
    SealedKeeps(s, t);
    var s0 := Sealed(s, t);
    hide Inv, Core, WriteAll;
    UnmovedPlaced(s, s0);
    WriteAllPlaced(s0, t);
    UnmovedPlaced(WriteAll(s0, t), Committed(s, t));
  }

  lemma StepPlaced(s: State, a: Step)
    requires Inv(s) && AllPlaced(s) && Enabled(s, a)
    ensures AllPlaced(Next(s, a))
  {
    hide Inv, AllPlaced, Unmoved, Next, Enabled;
    match a {
      case AddInsert(t) => InsertPlaced(s, t);
      case EndCommit(t) => CommittedPlaced(s, t);
      case EndAbort(t) => AbortedPlaced(s, t);
      case FreeAll(t) => FreedPlaced(s, t);
      case _ =>
        if a.RemoveOne? { RemoveUnmoved(s, a.t); } else if a.RcuEnd? { EndUnmoved(s, a.t); } else { OthersUnmoved(s, a); }
        UnmovedPlaced(s, Next(s, a));
    }
  }

  lemma {:induction false} RunPlaced(run: seq<State>, acts: seq<Step>, threads: nat, i: nat)
    requires IsRun(run, acts, threads) && i < |run|
    ensures AllPlaced(run[i])
  {
    hide Inv, Next, Enabled;
    if i > 0 {
      hide AllPlaced;
      RunPlaced(run, acts, threads, i - 1);
      RunInv(run, acts, threads, i - 1);
      StepPlaced(run[i - 1], acts[i - 1]);
    }
  }

  // ----- Conservation -----

  /** The labels are exact: a buffer is free, or queued, for the thread whose list holds it. */
  lemma ListsAreExact(run: seq<State>, acts: seq<Step>, threads: nat, i: nat, t: Tid, p: Ptr, v: VerId)
    requires IsRun(run, acts, threads) && i < |run| && t < |run[i].c.threads|
    ensures p in run[i].c.threads[t].freeVals <==> p < |run[i].g.ptr| && run[i].g.ptr[p] == Free(t)
    ensures p in run[i].c.threads[t].gcVals <==> p < |run[i].g.ptr| && run[i].g.ptr[p].Retired? && run[i].g.ptr[p].t == t
    ensures v in run[i].c.threads[t].freeVers <==> v < |run[i].g.ver| && run[i].g.ver[v] == VFree(t)
    ensures v in run[i].c.threads[t].gcVers <==> v < |run[i].g.ver| && run[i].g.ver[v].VRetired? && run[i].g.ver[v].t == t
  {
    RunInv(run, acts, threads, i);
    RunPlaced(run, acts, threads, i);
    var s := run[i];
    assert ThreadOk(s, t);
    hide Inv, IsRun;
    if p < |s.g.ptr| { assert BufferPlaced(s, p); }
    if v < |s.g.ver| { assert VersionPlaced(s, v); }
  }

  /** Somewhere in the program's memory the address of buffer p is still known. */
  ghost predicate Known(c: Conc, p: Ptr) {
    || (exists t :: 0 <= t < |c.threads| && KnownTo(c.threads[t], p))
    || (exists n :: 0 <= n < |c.nodes| && c.nodes[n].value == At(p))
  }

  ghost predicate KnownTo(th: Thread, p: Ptr) {
    p in th.freeVals || p in th.gcVals || InWriteSet(th.ws, p)
  }

  lemma PlacedIsKnown(s: State, p: Ptr)
    requires WfSizes(s) && p < |s.g.ptr| && BufferPlaced(s, p)
    ensures s.g.ptr[p] == Leaked || Known(s.c, p)
  {
    match s.g.ptr[p]
    case Free(t) => assert KnownTo(s.c.threads[t], p);
    case Pending(t) => assert KnownTo(s.c.threads[t], p);
    case Retired(t, _) => assert KnownTo(s.c.threads[t], p);
    case _ =>
  }

  lemma LeaksOnAbort(s: State, a: Step, p: Ptr)
    requires Inv(s) && AllPlaced(s) && Enabled(s, a)
    requires p < |Next(s, a).g.ptr| && Next(s, a).g.ptr[p] == Leaked && !(p < |s.g.ptr| && s.g.ptr[p] == Leaked)
    ensures a.EndAbort? && InWriteSet(s.c.threads[a.t].ws, p)
  {
    hide Inv, Enabled, Next;
    if a.EndCommit? {
      CommitLeaks(s, a.t, p);
    } else if a.EndAbort? {
      AbortLeaks(s, a.t, p);
    } else {
      OthersLeak(s, a, p);
    }
  }

  lemma CommitLeaks(s: State, t: Tid, p: Ptr)
    requires Inv(s) && Enabled(s, EndCommit(t)) && p < |Next(s, EndCommit(t)).g.ptr| && Next(s, EndCommit(t)).g.ptr[p] == Leaked
    ensures p < |s.g.ptr| && s.g.ptr[p] == Leaked
  {
    SealedKeeps(s, t);
    hide Inv, Core, WriteAll;
    WriteAllLeaks(Sealed(s, t), t, p);
  }

  lemma AbortLeaks(s: State, t: Tid, p: Ptr)
    requires AllPlaced(s) && Enabled(s, EndAbort(t)) && p < |Next(s, EndAbort(t)).g.ptr| && Next(s, EndAbort(t)).g.ptr[p] == Leaked
    ensures p < |s.g.ptr| && (s.g.ptr[p] == Leaked || InWriteSet(s.c.threads[t].ws, p))
  {
    assert BufferPlaced(s, p);
  }

  lemma OthersLeak(s: State, a: Step, p: Ptr)
    requires Enabled(s, a) && !a.EndCommit? && !a.EndAbort?
    requires p < |Next(s, a).g.ptr| && Next(s, a).g.ptr[p] == Leaked
    ensures p < |s.g.ptr| && s.g.ptr[p] == Leaked
  {}

  lemma {:induction false} WriteAllLeaks(s: State, t: Tid, p: Ptr)
    requires ReadyToWrite(s, t)
    ensures |WriteAll(s, t).g.ptr| == |s.g.ptr|
    ensures p < |s.g.ptr| && WriteAll(s, t).g.ptr[p] == Leaked ==> s.g.ptr[p] == Leaked
    decreases |s.c.threads[t].ws|
  {
    hide Core, WriteNext;
    if s.c.threads[t].ws != [] {
      WriteNextStep(s, t);
      WriteNextLeaks(s, t, p);
      WriteAllLeaks(WriteNext(s, t), t, p);
    }
  }

  lemma WriteNextLeaks(s: State, t: Tid, p: Ptr)
    requires CanWrite(s, t) && s.c.threads[t].ws != []
    ensures |WriteNext(s, t).g.ptr| == |s.g.ptr|
    ensures p < |s.g.ptr| && WriteNext(s, t).g.ptr[p] == Leaked ==> s.g.ptr[p] == Leaked
  {}

  /** A buffer is lost only with the write set of an aborted transaction. */
  lemma {:induction false} BuffersAreKept(run: seq<State>, acts: seq<Step>, threads: nat, i: nat, p: Ptr)
    requires IsRun(run, acts, threads) && i < |run| && p < |run[i].c.mem|
    ensures Known(run[i].c, p)
            || exists j :: 0 <= j < i && LostAt(run[j], acts[j], p)
  {
    RunPlaced(run, acts, threads, i);
    assert BufferPlaced(run[i], p);
    PlacedIsKnown(run[i], p);
    if run[i].g.ptr[p] == Leaked { LeakedLost(run, acts, threads, i, p); }
  }

  ghost predicate LostAt(s: State, a: Step, p: Ptr) {
    a.EndAbort? && a.t < |s.c.threads| && InWriteSet(s.c.threads[a.t].ws, p)
  }

  lemma {:induction false} LeakedLost(run: seq<State>, acts: seq<Step>, threads: nat, i: nat, p: Ptr)
    requires IsRun(run, acts, threads) && i < |run| && p < |run[i].g.ptr| && run[i].g.ptr[p] == Leaked
    ensures |run| == |acts| + 1
    ensures exists j :: 0 <= j < i && LostAt(run[j], acts[j], p)
  {
    hide Next, Enabled, Inv, AllPlaced, IsRun;
    NothingAtStart(run, acts, threads, i, p);
    StepOfRun(run, acts, threads, i - 1);
    var s, a := run[i - 1], acts[i - 1];
    if p < |s.g.ptr| && s.g.ptr[p] == Leaked {
      LeakedLost(run, acts, threads, i - 1, p);
    } else {
      RunInv(run, acts, threads, i - 1);
      RunPlaced(run, acts, threads, i - 1);
      LeaksOnAbort(s, a, p);
      assert LostAt(s, a, p);
    }
  }

  lemma StepOfRun(run: seq<State>, acts: seq<Step>, threads: nat, i: nat)
    requires IsRun(run, acts, threads) && i < |acts|
    ensures |run| == |acts| + 1 && Enabled(run[i], acts[i]) && run[i + 1] == Next(run[i], acts[i])
    ensures WfSizes(run[i]) && acts[i].t < |run[i].c.threads|
  {}

  lemma NothingAtStart(run: seq<State>, acts: seq<Step>, threads: nat, i: nat, p: Ptr)
    requires IsRun(run, acts, threads) && i < |run| && p < |run[i].g.ptr|
    ensures i > 0 && |run| == |acts| + 1
  {}

  /** Old-version nodes are never lost: each is free or queued for some thread. */
  lemma VersionsAreKept(run: seq<State>, acts: seq<Step>, threads: nat, i: nat, v: VerId)
    requires IsRun(run, acts, threads) && i < |run| && v < |run[i].c.vers|
    ensures exists t :: 0 <= t < |run[i].c.threads| && KnownVersion(run[i].c.threads[t], v)
  {
    RunPlaced(run, acts, threads, i);
    hide IsRun;
    var s := run[i];
    assert VersionPlaced(s, v);
    var t := s.g.ver[v].t;
    assert KnownVersion(s.c.threads[t], v);
  }

  ghost predicate KnownVersion(th: Thread, v: VerId) { v in th.freeVers || v in th.gcVers }

  /** After the grace period everything that was queued can be used again. */
  lemma QueuedBecomesFree(run: seq<State>, acts: seq<Step>, threads: nat, i: nat, p: Ptr, v: VerId)
    requires IsRun(run, acts, threads) && i < |acts| && acts[i].FreeAll?
    ensures acts[i].t < |run[i].c.threads| == |run[i + 1].c.threads|
    ensures var th, th' := run[i].c.threads[acts[i].t], run[i + 1].c.threads[acts[i].t];
            && th'.gcVals == [] && th'.gcVers == []
            && (p in th'.freeVals <==> p in th.gcVals || p in th.freeVals)
            && (v in th'.freeVers <==> v in th.gcVers || v in th.freeVers)
            && Distinct(th'.freeVals) && Distinct(th'.freeVers)
  {
    RunInv(run, acts, threads, i + 1);
    assert ThreadOk(run[i + 1], acts[i].t);
  }

  // ----- The pools of objpool.cc behind the machine's lists -----

  /** The pool object holds these lists. */
  ghost predicate Holds(pool: ObjPool, gc: seq<nat>, free: seq<nat>)
    reads pool
  {
    pool.Valid() && Queued(pool.gclists) == gc && pool.freelist == free
  }

  /** DBTables::GC after the grace period: OBJPool::GC on both pools is the machine's FreeAll. */
  method Reclaim(vals: ObjPool, vers: ObjPool, ghost s: State, ghost t: Tid)
    requires vals != vers && WfSizes(s) && t < |s.c.threads|
    requires Holds(vals, s.c.threads[t].gcVals, s.c.threads[t].freeVals)
    requires Holds(vers, s.c.threads[t].gcVers, s.c.threads[t].freeVers)
    modifies vals, vers
    ensures var th := Freed(s, t).c.threads[t];
            Holds(vals, th.gcVals, th.freeVals) && Holds(vers, th.gcVers, th.freeVers)
  {
    vals.GC();
    vers.GC();
  }

  /** GetEmptyValue: the machine's write takes the buffer the pool hands out, or a new one. */
  method TakeBuffer(vals: ObjPool, ghost s: State, ghost t: Tid) returns (p: Option<Ptr>)
    requires WfSizes(s) && t < |s.c.threads| && s.c.threads[t].pc.AddChecked? && s.c.threads[t].pc.w.Some?
    requires s.c.threads[t].freeVals == [] || s.c.threads[t].freeVals[0] < |s.c.mem|
    requires Holds(vals, s.c.threads[t].gcVals, s.c.threads[t].freeVals)
    modifies vals
    ensures var s' := AddInserted(s, t);
            && Holds(vals, s'.c.threads[t].gcVals, s'.c.threads[t].freeVals)
            && var ws := s'.c.threads[t].ws;
               |ws| > 0 && ws[|ws| - 1].val == At(if p.Some? then p.value else |s.c.mem|)
  {
    p := vals.GetFreeObj();
  }
}
