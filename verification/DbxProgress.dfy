/** What the protocol does not only allow but brings about. */
module DbxProgress {
  import opened Common
  import opened DbxModel
  import opened DbxSteps
  import opened DbxInvariant
  import opened DbxTheorems
  import opened DbxCommit
  import opened DbxReclaim
  import opened DbxReclaimTheorems
  import opened DbxConserve

  // ----- An undisturbed transaction commits -----

  /** Nothing thread t has read or means to write has changed since. */
  ghost predicate UpToDate(s: State, t: Tid) {
    && WfSizes(s) && t < |s.c.threads|
    && var th := s.c.threads[t];
    && (forall j :: 0 <= j < |th.rs| ==> th.rs[j].node < |s.c.nodes| && s.c.nodes[th.rs[j].node].seqno == th.rs[j].seqno)
    && (forall j :: 0 <= j < |th.ws| ==> Present(s.c.nodes, th.ws[j].node))
    && (th.pc.AddChecked? ==> Present(s.c.nodes, th.pc.n))
  }

  ghost predicate Present(nodes: seq<MemNode>, n: NodeId) {
    n < |nodes| && nodes[n].value != HaveRemoved
  }

  /** Steps by which another thread changes rows. */
  predicate Disturbs(a: Step, t: Tid) { (a.EndCommit? || a.RemoveOne?) && a.t != t }

  ghost predicate NodesKept(s: State, s': State) {
    |s.c.nodes| <= |s'.c.nodes| && forall n :: 0 <= n < |s.c.nodes| ==> s'.c.nodes[n] == s.c.nodes[n]
  }

  lemma QuietNodes(s: State, a: Step)
    requires Enabled(s, a) && !a.EndCommit? && !a.RemoveOne?
    ensures NodesKept(s, Next(s, a))
  {
    if !a.GetIndex? && !a.AddIndex? { NodesUntouched(s, a); }
  }

  lemma OthersKeepUpToDate(s: State, a: Step, t: Tid)
    requires Enabled(s, a) && UpToDate(s, t) && a.t != t && !Disturbs(a, t) && WfSizes(Next(s, a))
    ensures UpToDate(Next(s, a), t)
  {
    hide Enabled, Next;
    QuietNodes(s, a);
    StepFrame(s, a);
  }

  lemma OwnKeepsUpToDate(s: State, a: Step)
    requires Enabled(s, a) && UpToDate(s, a.t) && InRw(s.c.threads[a.t].pc) && !a.EndCommit? && WfSizes(Next(s, a))
    ensures UpToDate(Next(s, a), a.t)
  {
    hide UpToDate;
    if a.GetIndex? || a.AddIndex? {
      OwnLookup(s, a);
    } else if IsGet(a) {
      OwnGet(s, a);
    } else if a.EndAbort? {
      OwnAbort(s, a.t);
    } else {
      OwnAdd(s, a);
    }
  }

  lemma OwnLookup(s: State, a: Step)
    requires Enabled(s, a) && UpToDate(s, a.t) && (a.GetIndex? || a.AddIndex?) && WfSizes(Next(s, a))
    ensures UpToDate(Next(s, a), a.t)
  {}

  lemma OwnGet(s: State, a: Step)
    requires Enabled(s, a) && UpToDate(s, a.t) && IsGet(a) && !a.GetIndex? && WfSizes(Next(s, a))
    ensures UpToDate(Next(s, a), a.t)
  {
    match a {
      case GetOwn(t, k) =>
      case GetRegion(t) =>
      case GetFirstRead(t) =>
      case GetSecondRead(t) =>
    }
  }

  lemma OwnAdd(s: State, a: Step)
    requires Enabled(s, a) && UpToDate(s, a.t) && (a.AddCheck? || a.AddInsert?) && WfSizes(Next(s, a))
    ensures UpToDate(Next(s, a), a.t)
  {
    match a {
      case AddCheck(t) =>
      case AddInsert(t) =>
    }
  }

  lemma OwnAbort(s: State, t: Tid)
    requires Enabled(s, EndAbort(t)) && UpToDate(s, t) && WfSizes(Next(s, EndAbort(t)))
    ensures UpToDate(Next(s, EndAbort(t)), t)
  {}

  /** At its begin a transaction has read and written nothing. */
  lemma BeginsUpToDate(s: State, t: Tid)
    requires Inv(s) && Enabled(s, RcuBeginClear(t))
    ensures UpToDate(Next(s, RcuBeginClear(t)), t)
  {
    assert PcOk(s, t) by { assert ThreadOk(s, t); }
    hide Inv;
  }

  lemma {:induction false} StaysUpToDate(run: seq<State>, acts: seq<Step>, threads: nat, b: nat, i: nat, t: Tid)
    requires IsRun(run, acts, threads) && b < i < |run| && acts[b] == RcuBeginClear(t)
    requires forall j :: b < j < i ==> !Disturbs(acts[j], t) && t < |run[j].c.threads| && InRw(run[j].c.threads[t].pc) && acts[j] != EndCommit(t)
    ensures UpToDate(run[i], t)
  {
    hide Inv, Enabled, Next, UpToDate, IsRun;
    assert |run| == |acts| + 1 by { RunLength(run, acts, threads); }
    StepOfRun(run, acts, threads, i - 1);
    RunInv(run, acts, threads, i - 1);
    if i - 1 == b {
      BeginsUpToDate(run[b], t);
    } else {
      StaysUpToDate(run, acts, threads, b, i - 1, t);
      SizesAt(run, acts, threads, i);
      if acts[i - 1].t == t {
        OwnKeepsUpToDate(run[i - 1], acts[i - 1]);
      } else {
        OthersKeepUpToDate(run[i - 1], acts[i - 1], t);
      }
    }
  }

  lemma RunLength(run: seq<State>, acts: seq<Step>, threads: nat)
    requires IsRun(run, acts, threads)
    ensures |run| == |acts| + 1
  {}

  lemma SizesAt(run: seq<State>, acts: seq<Step>, threads: nat, i: nat)
    requires IsRun(run, acts, threads) && i < |run|
    ensures WfSizes(run[i])
  {
    RunInv(run, acts, threads, i);
  }

  /**
    If from its begin on no other thread has committed or removed a row, a
    transaction can commit whenever it is between two calls.
  */
  lemma UndisturbedCommits(run: seq<State>, acts: seq<Step>, threads: nat, b: nat, i: nat, t: Tid)
    requires IsRun(run, acts, threads) && b < i < |run| && acts[b] == RcuBeginClear(t)
    requires forall j :: b < j < i ==> !Disturbs(acts[j], t) && t < |run[j].c.threads| && InRw(run[j].c.threads[t].pc) && acts[j] != EndCommit(t)
    requires t < |run[i].c.threads| && run[i].c.threads[t].pc == Ready
    ensures Enabled(run[i], EndCommit(t))
  {
    hide Inv, IsRun;
    StaysUpToDate(run, acts, threads, b, i, t);
    RunInv(run, acts, threads, i);
    CanWriteNow(run[i], t);
    var s, th := run[i], run[i].c.threads[t];
    forall e | e in th.rs ensures e.node < |s.c.nodes| && s.c.nodes[e.node].seqno == e.seqno {
      var j :| 0 <= j < |th.rs| && th.rs[j] == e;
    }
    forall e | e in th.ws ensures e.node < |s.c.nodes| && s.c.nodes[e.node].value != HaveRemoved {
      var j :| 0 <= j < |th.ws| && th.ws[j] == e;
    }
  }

  lemma CanWriteNow(s: State, t: Tid)
    requires Inv(s) && t < |s.c.threads|
    ensures CanWrite(s, t)
  {
    var th := s.c.threads[t];
    assert ThreadOk(s, t);
    forall e | e in th.ws ensures e.node < |s.c.nodes| && (e.val.At? ==> e.val.p < |s.c.mem|) {
      var j :| 0 <= j < |th.ws| && th.ws[j] == e;
      assert EntryOk(s, t, th.ws[j], s.g.th[t].wlog[j]);
    }
    forall i | 0 <= i < |s.c.nodes| && s.c.nodes[i].value.At? ensures s.c.nodes[i].value.p < |s.c.mem| {
      assert NodeOk(s, i);
    }
  }

  // ----- A thread can move unless it waits for a running transaction -----

  /** Thread t spins in WaitForGracePeriod on thread u, which is in the transaction it was in when copied. */
  ghost predicate SpinsOn(s: State, t: Tid, u: Tid) {
    && t < |s.c.threads| && u < |s.c.threads| && u != t && s.c.threads[t].pc.Waiting?
    && |s.c.threads[t].pc.cs| == |s.c.threads| && s.c.threads[t].pc.checked == u
    && !s.c.threads[u].rcu.ended && s.c.threads[u].rcu.n == s.c.threads[t].pc.cs[u]
  }

  lemma CanMove(s: State, t: Tid) returns (a: Step)
    requires Inv(s) && t < |s.c.threads|
    ensures (a.t == t && Enabled(s, a)) || exists u :: SpinsOn(s, t, u)
  {
    hide Inv, Enabled;
    var pc := s.c.threads[t].pc;
    if pc.Waiting? {
      a := if |pc.cs| < |s.c.threads| then WaitCopy(t) else WaitCheck(t);
      WaiterMoves(s, t);
    } else if pc.Reclaiming? {
      a := if pc.job == Gc then FreeAll(t) else if s.c.threads[t].rm == [] then RemoveDone(t) else RemoveOne(t);
      ReclaimerMoves(s, t);
    } else {
      a := NextOf(pc, t);
      CallerMoves(s, t);
    }
  }

  /** A step that goes on with what the thread is doing. */
  function NextOf(pc: Pc, t: Tid): Step {
    match pc
    case Idle => RcuBeginInc(t, false)
    case Beginning(_) => RcuBeginClear(t)
    case Ready => EndAbort(t)
    case GetRetry(k) => GetIndex(t, k)
    case GetFound(_, _) => GetRegion(t)
    case GetAdded(_, _) => GetFirstRead(t)
    case GetChecked(_, _) => GetSecondRead(t)
    case AddRetry(k, w) => AddIndex(t, k, w)
    case AddFound(_, _, _) => AddCheck(t)
    case AddChecked(_, _, _) => AddInsert(t)
    case RoBegun => RoSnapshot(t)
    case RoReady => RoEnd(t)
    case RoFound(_, _) => RoScan(t)
    case Ending => RcuEnd(t)
    case Waiting(_, _, _) => WaitCheck(t)
    case Reclaiming(_) => RemoveDone(t)
  }

  lemma CallerMoves(s: State, t: Tid)
    requires Inv(s) && t < |s.c.threads| && !s.c.threads[t].pc.Waiting? && !s.c.threads[t].pc.Reclaiming?
    ensures Enabled(s, NextOf(s.c.threads[t].pc, t))
  {
    assert RwOk(s, t) && RoOk(s, t) && PoolsOk(s, t) by { assert ThreadOk(s, t); }
  }

  lemma WaiterMoves(s: State, t: Tid)
    requires Inv(s) && t < |s.c.threads| && s.c.threads[t].pc.Waiting?
    ensures var pc := s.c.threads[t].pc;
            if |pc.cs| < |s.c.threads| then Enabled(s, WaitCopy(t)) else Enabled(s, WaitCheck(t)) || SpinsOn(s, t, pc.checked)
  {
    assert WaitOk(s, t) by { assert ThreadOk(s, t); }
    hide Inv;
  }

  lemma ReclaimerMoves(s: State, t: Tid)
    requires Inv(s) && t < |s.c.threads| && s.c.threads[t].pc.Reclaiming?
    ensures var th := s.c.threads[t];
            Enabled(s, if th.pc.job == Gc then FreeAll(t) else if th.rm == [] then RemoveDone(t) else RemoveOne(t))
  {
    if s.c.threads[t].rm != [] { QueuedIsDeleted(s, t); }
  }
}
