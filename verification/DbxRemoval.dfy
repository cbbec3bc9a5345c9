/** Deletes are queued and queued rows are removed: nothing deleted stays without a reason. */
module DbxRemoval {
  import opened Common
  import opened DbxModel
  import opened DbxSteps
  import opened DbxInvariant
  import opened DbxTheorems
  import opened DbxCommit
  import opened DbxReclaim
  import opened DbxReclaimTheorems
  import opened DbxConserve
  import opened DbxProgress

  // ----- What a commit queues -----

  /** Thread t has queued node n as it stands now. */
  ghost predicate QueuedNow(c: Conc, t: Tid, n: NodeId)
    requires t < |c.threads| && n < |c.nodes|
  {
    Lists(c.threads[t].rm, n, c.nodes[n].seqno)
  }

  ghost predicate Lists(rm: seq<RmObj>, n: NodeId, seqno: nat) {
    exists j :: 0 <= j < |rm| && Names(rm[j], n, seqno)
  }

  predicate Names(o: RmObj, n: NodeId, seqno: nat) { o.node == n && o.seqno == seqno }

  /** The value of node n after part of a write set. */
  function ValueAfter(ws: seq<WsEntry>, n: NodeId, v: Val): Val {
    if ws == [] then v else if ws[|ws| - 1].node == n then ws[|ws| - 1].val else ValueAfter(ws[..|ws| - 1], n, v)
  }

  /** Whether n ends up queued, entry by entry. */
  function QueuedAfter(ws: seq<WsEntry>, n: NodeId, v: Val, queued: bool): bool {
    if ws == [] then queued
    else if ws[0].node == n then QueuedAfter(ws[1..], n, ws[0].val, ws[0].val == LogicalDelete && v != LogicalDelete)
    else QueuedAfter(ws[1..], n, v, queued)
  }

  lemma WroteQueued(s: State, s': State, t: Tid, e: WsEntry, id: VerId, n: NodeId)
    requires Wrote(s, s', t, e, id) && n < |s.c.nodes|
    requires forall j :: 0 <= j < |s.c.threads[t].rm| ==> RmOk(s, s.c.threads[t].rm[j])
    ensures n < |s'.c.nodes| && t < |s'.c.threads|
    ensures n == e.node ==>
              (QueuedNow(s'.c, t, n) <==> e.val == LogicalDelete && s.c.nodes[n].value != LogicalDelete)
              && s'.c.nodes[n].value == e.val
    ensures n != e.node ==> (QueuedNow(s'.c, t, n) <==> QueuedNow(s.c, t, n)) && s'.c.nodes[n].value == s.c.nodes[n].value
  {
    var rm, rm' := s.c.threads[t].rm, s'.c.threads[t].rm;
    var nd := s.c.nodes[e.node];
    var adds, o := e.val == LogicalDelete && nd.value != LogicalDelete, RmObj(e.key, e.node, nd.seqno + 1);
    assert rm' == if adds then [o] + rm else rm;
    assert s'.c.nodes[e.node].seqno == nd.seqno + 1 && (n != e.node ==> s'.c.nodes[n] == s.c.nodes[n]);
    hide Wrote, Lists;
    if n == e.node { ListsNew(rm, rm', o, adds); } else { ListsOther(rm, rm', o, adds, n, s.c.nodes[n].seqno); }
  }

  lemma ListsNew(rm: seq<RmObj>, rm': seq<RmObj>, o: RmObj, adds: bool)
    requires rm' == (if adds then [o] + rm else rm) && forall j :: 0 <= j < |rm| && rm[j].node == o.node ==> rm[j].seqno < o.seqno
    ensures Lists(rm', o.node, o.seqno) == adds
  {
    if adds { assert Names(rm'[0], o.node, o.seqno); }
  }

  lemma ListsOther(rm: seq<RmObj>, rm': seq<RmObj>, o: RmObj, adds: bool, n: NodeId, seqno: nat)
    requires rm' == (if adds then [o] + rm else rm) && o.node != n
    ensures Lists(rm', n, seqno) == Lists(rm, n, seqno)
  {
    if Lists(rm, n, seqno) {
      var j :| 0 <= j < |rm| && Names(rm[j], n, seqno);
      assert Names(rm'[if adds then j + 1 else j], n, seqno);
    }
    if Lists(rm', n, seqno) {
      var j :| 0 <= j < |rm'| && Names(rm'[j], n, seqno);
      assert Names(rm[if adds then j - 1 else j], n, seqno);
    }
  }

  lemma WriteNextQueued(s: State, t: Tid, n: NodeId)
    requires ReadyToWrite(s, t) && s.c.threads[t].ws != [] && n < |s.c.nodes|
    ensures var s', e := WriteNext(s, t), s.c.threads[t].ws[0];
            && n < |s'.c.nodes| && t < |s'.c.threads|
            && (n == e.node ==>
                  (QueuedNow(s'.c, t, n) <==> e.val == LogicalDelete && s.c.nodes[n].value != LogicalDelete)
                  && s'.c.nodes[n].value == e.val)
            && (n != e.node ==> (QueuedNow(s'.c, t, n) <==> QueuedNow(s.c, t, n)) && s'.c.nodes[n].value == s.c.nodes[n].value)
  {
    var th := s.c.threads[t];
    assert PoolsOk(s, t) by { assert ThreadOk(s, t); }
    NextWrites(s, t);
    hide Core, Wrote, WriteNext, QueuedNow;
    WroteQueued(s, WriteNext(s, t), t, th.ws[0], if th.freeVers == [] then |s.c.vers| else th.freeVers[0], n);
  }

  lemma {:induction false} WriteAllQueued(s: State, t: Tid, n: NodeId)
    requires ReadyToWrite(s, t) && n < |s.c.nodes|
    ensures n < |WriteAll(s, t).c.nodes| && t < |WriteAll(s, t).c.threads|
    ensures QueuedNow(WriteAll(s, t).c, t, n)
            == QueuedAfter(s.c.threads[t].ws, n, s.c.nodes[n].value, QueuedNow(s.c, t, n))
    decreases |s.c.threads[t].ws|
  {
    hide Core, WriteNext, QueuedNow;
    if s.c.threads[t].ws != [] {
      WriteNextQueued(s, t, n);
      WriteNextStep(s, t);
      WriteAllQueued(WriteNext(s, t), t, n);
    }
  }

  lemma {:induction false} QueuedAfterIs(pre: seq<WsEntry>, e: WsEntry, post: seq<WsEntry>, n: NodeId, v: Val, queued: bool)
    requires e.node == n && forall j :: 0 <= j < |post| ==> post[j].node != n
    ensures QueuedAfter(pre + [e] + post, n, v, queued) == (e.val == LogicalDelete && ValueAfter(pre, n, v) != LogicalDelete)
    decreases |pre| + |post|
  {
    var ws := pre + [e] + post;
    if pre == [] {
      assert ws[1..] == post;
      NotWritten(post, n, e.val, e.val == LogicalDelete && v != LogicalDelete);
    } else {
      var v' := if pre[0].node == n then pre[0].val else v;
      assert ws[1..] == pre[1..] + [e] + post;
      QueuedAfterIs(pre[1..], e, post, n, v', if pre[0].node == n then pre[0].val == LogicalDelete && v != LogicalDelete else queued);
      FirstFirst(pre, n, v);
    }
  }

  lemma {:induction false} NotWritten(ws: seq<WsEntry>, n: NodeId, v: Val, queued: bool)
    requires forall j :: 0 <= j < |ws| ==> ws[j].node != n
    ensures QueuedAfter(ws, n, v, queued) == queued
  {
    if ws != [] { NotWritten(ws[1..], n, v, queued); }
  }

  lemma {:induction false} FirstFirst(ws: seq<WsEntry>, n: NodeId, v: Val)
    requires ws != []
    ensures ValueAfter(ws, n, v) == ValueAfter(ws[1..], n, if ws[0].node == n then ws[0].val else v)
  {
    if |ws| > 1 {
      var front := ws[..|ws| - 1];
      FirstFirst(front, n, v);
      assert ws[1..][..|ws| - 2] == front[1..];
    }
  }

  /**
    A commit leaves row n queued for removal exactly when its last write to the
    row is a delete and finds the row live.  A second delete of the same row
    takes the row's number past the one that was queued.
  */
  lemma DeleteIsQueued(run: seq<State>, acts: seq<Step>, threads: nat, i: nat, n: NodeId,
                       pre: seq<WsEntry>, e: WsEntry, post: seq<WsEntry>)
    requires IsRun(run, acts, threads) && i < |acts| && acts[i].EndCommit? && n < |run[i].c.nodes|
    requires acts[i].t < |run[i].c.threads| && run[i].c.threads[acts[i].t].ws == pre + [e] + post
    requires e.node == n && forall j :: 0 <= j < |post| ==> post[j].node != n
    ensures n < |run[i + 1].c.nodes| && acts[i].t < |run[i + 1].c.threads|
    ensures QueuedNow(run[i + 1].c, acts[i].t, n)
            <==> e.val == LogicalDelete && ValueAfter(pre, n, run[i].c.nodes[n].value) != LogicalDelete
  {
    hide Inv, IsRun, Enabled, Next, QueuedNow, QueuedAfter, ValueAfter;
    RunLength(run, acts, threads);
    var s, t := run[i], acts[i].t;
    RunInv(run, acts, threads, i);
    StepOfRun(run, acts, threads, i);
    CommitQueued(s, t, n);
    QueuedAfterIs(pre, e, post, n, s.c.nodes[n].value, QueuedNow(s.c, t, n));
  }

  lemma CommitQueued(s: State, t: Tid, n: NodeId)
    requires Inv(s) && t < |s.c.threads| && Enabled(s, EndCommit(t)) && n < |s.c.nodes|
    ensures var s' := Next(s, EndCommit(t));
            && n < |s'.c.nodes| && t < |s'.c.threads|
            && QueuedNow(s'.c, t, n) == QueuedAfter(s.c.threads[t].ws, n, s.c.nodes[n].value, QueuedNow(s.c, t, n))
  {
    SealedKeeps(s, t);
    hide Inv, Core, WriteAll, QueuedNow, QueuedAfter;
    WriteAllQueued(Sealed(s, t), t, n);
    SameQueue(s.c, Sealed(s, t).c, t, n);
    SameQueue(WriteAll(Sealed(s, t), t).c, Committed(s, t).c, t, n);
  }

  lemma SameQueue(c: Conc, c': Conc, t: Tid, n: NodeId)
    requires t < |c.threads| == |c'.threads| && n < |c.nodes| && c'.nodes == c.nodes && c'.threads[t].rm == c.threads[t].rm
    ensures QueuedNow(c, t, n) == QueuedNow(c', t, n)
  {}

  // ----- A row that is deleted twice -----

  ghost predicate Mentions(ws: seq<WsEntry>, n: NodeId) {
    exists j :: 0 <= j < |ws| && ws[j].node == n
  }

  lemma WriteNextBumps(s: State, t: Tid, n: NodeId)
    requires CanWrite(s, t) && s.c.threads[t].ws != [] && n < |s.c.nodes| && s.c.nodes[s.c.threads[t].ws[0].node].counter <= s.c.snapshot
    ensures var s' := WriteNext(s, t);
            && |s'.c.nodes| == |s.c.nodes| && s'.c.snapshot == s.c.snapshot
            && s'.c.nodes[n].seqno == s.c.nodes[n].seqno + (if s.c.threads[t].ws[0].node == n then 1 else 0)
            && |s'.c.threads| == |s.c.threads| && forall u :: 0 <= u < |s.c.threads| && u != t ==> s'.c.threads[u] == s.c.threads[u]
  {}

  /** A commit raises the number of each row it writes and of no other, and leaves other threads alone. */
  lemma {:induction false} WriteAllBumps(s: State, t: Tid, n: NodeId)
    requires ReadyToWrite(s, t) && n < |s.c.nodes|
    ensures var s' := WriteAll(s, t);
            && |s'.c.nodes| == |s.c.nodes| && |s'.c.threads| == |s.c.threads|
            && (if Mentions(s.c.threads[t].ws, n) then s'.c.nodes[n].seqno > s.c.nodes[n].seqno else s'.c.nodes[n].seqno == s.c.nodes[n].seqno)
            && forall u :: 0 <= u < |s.c.threads| && u != t ==> s'.c.threads[u] == s.c.threads[u]
    decreases |s.c.threads[t].ws|
  {
    var ws := s.c.threads[t].ws;
    if ws != [] {
      assert NodeOk(s, ws[0].node);
      hide Core, WriteNext;
      WriteNextBumps(s, t, n);
      WriteNextStep(s, t);
      WriteAllBumps(WriteNext(s, t), t, n);
      FirstOrLater(ws, n);
    }
  }

  lemma FirstOrLater(ws: seq<WsEntry>, n: NodeId)
    requires ws != []
    ensures Mentions(ws, n) <==> ws[0].node == n || Mentions(ws[1..], n)
  {
    if Mentions(ws[1..], n) {
      var j :| 0 <= j < |ws[1..]| && ws[1..][j].node == n;
      assert ws[j + 1].node == n;
    }
    if Mentions(ws, n) && ws[0].node != n {
      var j :| 0 <= j < |ws| && ws[j].node == n;
      assert ws[1..][j - 1].node == n;
    }
  }

  /** No thread will remove row n as it stands now. */
  ghost predicate Stranded(c: Conc, n: NodeId) {
    n < |c.nodes| && forall t :: 0 <= t < |c.threads| ==> !QueuedNow(c, t, n)
  }

  lemma CommitBumps(s: State, t: Tid, n: NodeId)
    requires Inv(s) && t < |s.c.threads| && Enabled(s, EndCommit(t)) && n < |s.c.nodes|
    ensures var s' := Next(s, EndCommit(t));
            && |s'.c.nodes| == |s.c.nodes| && |s'.c.threads| == |s.c.threads|
            && (if Mentions(s.c.threads[t].ws, n) then s'.c.nodes[n].seqno > s.c.nodes[n].seqno else s'.c.nodes[n].seqno == s.c.nodes[n].seqno)
            && forall u :: 0 <= u < |s.c.threads| && u != t ==> s'.c.threads[u] == s.c.threads[u]
  {
    SealedKeeps(s, t);
    hide Inv, Core, WriteAll;
    WriteAllBumps(Sealed(s, t), t, n);
  }

  lemma OthersQueue(s: State, s': State, u: Tid, n: NodeId)
    requires Inv(s) && u < |s.c.threads| == |s'.c.threads| && n < |s.c.nodes| == |s'.c.nodes| && s'.c.threads[u] == s.c.threads[u]
    requires s'.c.nodes[n].seqno > s.c.nodes[n].seqno
    ensures !QueuedNow(s'.c, u, n)
  {
    assert PoolsOk(s, u) by { assert ThreadOk(s, u); }
    hide Inv;
    forall j | 0 <= j < |s.c.threads[u].rm| ensures !Names(s.c.threads[u].rm[j], n, s'.c.nodes[n].seqno) {
      assert RmOk(s, s.c.threads[u].rm[j]);
    }
  }

  /** The delete of a row that is already deleted takes the row off every queue. */
  lemma SecondDeleteStrands(run: seq<State>, acts: seq<Step>, threads: nat, i: nat, n: NodeId,
                            pre: seq<WsEntry>, e: WsEntry, post: seq<WsEntry>)
    requires IsRun(run, acts, threads) && i < |acts| && acts[i].EndCommit? && n < |run[i].c.nodes|
    requires acts[i].t < |run[i].c.threads| && run[i].c.threads[acts[i].t].ws == pre + [e] + post
    requires e.node == n && forall j :: 0 <= j < |post| ==> post[j].node != n
    requires e.val == LogicalDelete && ValueAfter(pre, n, run[i].c.nodes[n].value) == LogicalDelete
    ensures Stranded(run[i + 1].c, n)
  {
    hide Inv, IsRun, Enabled, Next, QueuedNow, ValueAfter;
    RunLength(run, acts, threads);
    RunInv(run, acts, threads, i);
    StepOfRun(run, acts, threads, i);
    DeleteIsQueued(run, acts, threads, i, n, pre, e, post);
    var s, t, s' := run[i], acts[i].t, run[i + 1];
    CommitBumps(s, t, n);
    assert Mentions(s.c.threads[t].ws, n) by { assert s.c.threads[t].ws[|pre|].node == n; }
    forall u | 0 <= u < |s'.c.threads| ensures !QueuedNow(s'.c, u, n) {
      if u != t { OthersQueue(s, s', u, n); }
    }
  }

  lemma StrandedStep(s: State, a: Step, n: NodeId)
    requires Inv(s) && Enabled(s, a) && a.t < |s.c.threads| && Stranded(s.c, n)
    requires n < |Next(s, a).c.nodes| && Next(s, a).c.nodes[n].seqno == s.c.nodes[n].seqno
    ensures Stranded(Next(s, a).c, n)
  {
    hide Inv, Enabled, Next, QueuedNow;
    var s' := Next(s, a);
    if a.EndCommit? {
      StrandedCommit(s, a.t, n);
    } else {
      StepFrame(s, a);
      forall t | 0 <= t < |s'.c.threads| ensures !QueuedNow(s'.c, t, n) {
        assert !QueuedNow(s.c, t, n);
        ShorterQueue(s.c, s'.c, t, n);
      }
    }
  }

  lemma StrandedCommit(s: State, t: Tid, n: NodeId)
    requires Inv(s) && t < |s.c.threads| && Enabled(s, EndCommit(t)) && Stranded(s.c, n)
    requires n < |Next(s, EndCommit(t)).c.nodes| && Next(s, EndCommit(t)).c.nodes[n].seqno == s.c.nodes[n].seqno
    ensures Stranded(Next(s, EndCommit(t)).c, n)
  {
    hide Inv, Enabled, Next, QueuedNow;
    var s', ws := Next(s, EndCommit(t)), s.c.threads[t].ws;
    CommitBumps(s, t, n);
    CommitQueued(s, t, n);
    assert !QueuedNow(s.c, t, n);
    assert forall j :: 0 <= j < |ws| ==> ws[j].node != n by { assert !Mentions(ws, n); }
    NotWritten(ws, n, s.c.nodes[n].value, false);
    forall u | 0 <= u < |s'.c.threads| ensures !QueuedNow(s'.c, u, n) {
      assert !QueuedNow(s.c, u, n);
      if u != t { ShorterQueue(s.c, s'.c, u, n); }
    }
  }

  lemma ShorterQueue(c: Conc, c': Conc, t: Tid, n: NodeId)
    requires t < |c.threads| == |c'.threads| && n < |c.nodes| && n < |c'.nodes| && c'.nodes[n].seqno == c.nodes[n].seqno
    requires c'.threads[t].rm == c.threads[t].rm || (c.threads[t].rm != [] && c'.threads[t].rm == c.threads[t].rm[1..])
    ensures QueuedNow(c', t, n) ==> QueuedNow(c, t, n)
  {
    var rm, rm' := c.threads[t].rm, c'.threads[t].rm;
    if QueuedNow(c', t, n) {
      var j :| 0 <= j < |rm'| && Names(rm'[j], n, c.nodes[n].seqno);
      assert Names(rm[if rm' == rm then j else j + 1], n, c.nodes[n].seqno);
    }
  }

  /** Such a row stays in the index, deleted, until some transaction writes it again. */
  lemma {:induction false} StrandedStays(run: seq<State>, acts: seq<Step>, threads: nat, b: nat, i: nat, n: NodeId)
    requires IsRun(run, acts, threads) && b <= i < |run| && Stranded(run[b].c, n)
    requires n < |run[i].c.nodes| && run[i].c.nodes[n].seqno == run[b].c.nodes[n].seqno
    ensures Stranded(run[i].c, n) && run[i].c.nodes[n] == run[b].c.nodes[n]
  {
    hide Inv, IsRun, Enabled, Next, Stranded;
    RunLength(run, acts, threads);
    assert n < |run[b].c.nodes| by { StrandedNode(run[b].c, n); }
    RunMoves(run, acts, threads, b, i);
    if b < i {
      RunMoves(run, acts, threads, b, i - 1);
      RunMoves(run, acts, threads, i - 1, i);
      StrandedStays(run, acts, threads, b, i - 1, n);
      RunInv(run, acts, threads, i - 1);
      StepOfRun(run, acts, threads, i - 1);
      StrandedStep(run[i - 1], acts[i - 1], n);
    }
  }

  lemma StrandedNode(c: Conc, n: NodeId)
    requires Stranded(c, n)
    ensures n < |c.nodes|
  {}

  // ----- What leaves the queue -----

  /** An object leaves a thread's queue only as its first one, in a RemoveOne step. */
  lemma LeavesByRemoval(s: State, a: Step, t: Tid, o: RmObj)
    requires Inv(s) && Enabled(s, a) && t < |s.c.threads| && o in s.c.threads[t].rm
    requires t < |Next(s, a).c.threads| && o !in Next(s, a).c.threads[t].rm
    ensures a == RemoveOne(t) && o == s.c.threads[t].rm[0]
  {
    hide Inv, Enabled, Next;
    if a.EndCommit? {
      CommitKeepsQueue(s, a.t, t, o);
    } else if a.RemoveOne? {
      StepFrame(s, a);
    } else {
      QueueKept(s, a);
    }
  }

  lemma QueueKept(s: State, a: Step)
    requires Enabled(s, a) && !a.EndCommit? && !a.RemoveOne?
    ensures |Next(s, a).c.threads| == |s.c.threads|
    ensures forall t :: 0 <= t < |s.c.threads| ==> Next(s, a).c.threads[t].rm == s.c.threads[t].rm
  {
    hide Enabled, Next;
    StepFrame(s, a);
    if IsGet(a) { GetKeepsQueue(s, a); } else if IsAdd(a) { AddKeepsQueue(s, a); } else { OtherKeepsQueue(s, a); }
  }

  lemma GetKeepsQueue(s: State, a: Step)
    requires Enabled(s, a) && IsGet(a) && a.t < |s.c.threads| == |Next(s, a).c.threads|
    ensures Next(s, a).c.threads[a.t].rm == s.c.threads[a.t].rm
  {}

  lemma AddKeepsQueue(s: State, a: Step)
    requires Enabled(s, a) && IsAdd(a) && a.t < |s.c.threads| == |Next(s, a).c.threads|
    ensures Next(s, a).c.threads[a.t].rm == s.c.threads[a.t].rm
  {}

  lemma OtherKeepsQueue(s: State, a: Step)
    requires Enabled(s, a) && !IsGet(a) && !IsAdd(a) && !a.EndCommit? && !a.RemoveOne? && a.t < |s.c.threads| == |Next(s, a).c.threads|
    ensures Next(s, a).c.threads[a.t].rm == s.c.threads[a.t].rm
  {}

  lemma CommitKeepsQueue(s: State, t: Tid, u: Tid, o: RmObj)
    requires Inv(s) && Enabled(s, EndCommit(t)) && u < |s.c.threads| && o in s.c.threads[u].rm
    ensures u < |Next(s, EndCommit(t)).c.threads| && o in Next(s, EndCommit(t)).c.threads[u].rm
  {
    SealedKeeps(s, t);
    hide Inv, Core, WriteAll;
    WriteAllKeepsQueue(Sealed(s, t), t, u, o);
  }

  lemma {:induction false} WriteAllKeepsQueue(s: State, t: Tid, u: Tid, o: RmObj)
    requires ReadyToWrite(s, t) && u < |s.c.threads| && o in s.c.threads[u].rm
    ensures u < |WriteAll(s, t).c.threads| && o in WriteAll(s, t).c.threads[u].rm
    decreases |s.c.threads[t].ws|
  {
    hide Core, WriteNext;
    if s.c.threads[t].ws != [] {
      WriteNextStep(s, t);
      WriteNextKeepsQueue(s, t, u, o);
      WriteAllKeepsQueue(WriteNext(s, t), t, u, o);
    }
  }

  lemma WriteNextKeepsQueue(s: State, t: Tid, u: Tid, o: RmObj)
    requires CanWrite(s, t) && s.c.threads[t].ws != [] && u < |s.c.threads| && o in s.c.threads[u].rm
    ensures u < |WriteNext(s, t).c.threads| && o in WriteNext(s, t).c.threads[u].rm
  {}

  /** Between a state that has o queued and a later one that has not, o came first in the queue and was handled. */
  lemma {:induction false} QueuedIsHandled(run: seq<State>, acts: seq<Step>, threads: nat, b: nat, i: nat, t: Tid, o: RmObj)
    returns (j: nat)
    requires IsRun(run, acts, threads) && b <= i < |run| && t < |run[b].c.threads| && o in run[b].c.threads[t].rm
    requires t < |run[i].c.threads| && o !in run[i].c.threads[t].rm
    ensures b <= j < i && |run| == |acts| + 1 && acts[j] == RemoveOne(t)
    ensures t < |run[j].c.threads| && |run[j].c.threads[t].rm| > 0 && run[j].c.threads[t].rm[0] == o
  {
    hide Inv, Enabled, Next, IsRun;
    RunLength(run, acts, threads);
    ThreadCount(run, acts, threads, i);
    ThreadCount(run, acts, threads, i - 1);
    StepOfRun(run, acts, threads, i - 1);
    if o in run[i - 1].c.threads[t].rm {
      RunInv(run, acts, threads, i - 1);
      LeavesByRemoval(run[i - 1], acts[i - 1], t, o);
      j := i - 1;
    } else {
      j := QueuedIsHandled(run, acts, threads, b, i - 1, t, o);
    }
  }

  /**
    A committed delete is carried out: once its thread's queue no longer holds
    it, the row has been taken out of the index, or had been written again by then.
  */
  lemma QueuedIsRemoved(run: seq<State>, acts: seq<Step>, threads: nat, b: nat, i: nat, t: Tid, o: RmObj)
    requires IsRun(run, acts, threads) && b <= i < |run| && t < |run[b].c.threads| && o in run[b].c.threads[t].rm
    requires t < |run[i].c.threads| && o !in run[i].c.threads[t].rm
    ensures exists j :: b <= j < i && (RemovedAt(run[j], run[j + 1], o) || MovedOn(run[j], o))
  {
    hide Inv, Enabled, Next, IsRun;
    var j := QueuedIsHandled(run, acts, threads, b, i, t, o);
    StepOfRun(run, acts, threads, j);
    RunInv(run, acts, threads, j);
    HandledNow(run[j], t);
  }

  /** The row goes out of the index, and its node says so. */
  ghost predicate RemovedAt(s: State, s': State, o: RmObj) {
    && o.node < |s.c.nodes| && o.node < |s'.c.nodes| && o.key in s.c.index && s.c.index[o.key] == o.node
    && s'.c.index == s.c.index - {o.key} && s'.c.nodes[o.node].value == HaveRemoved
  }

  /** The row has been written since it was queued. */
  ghost predicate MovedOn(s: State, o: RmObj) {
    o.node < |s.c.nodes| && s.c.nodes[o.node].seqno > o.seqno
  }

  lemma HandledNow(s: State, t: Tid)
    requires Inv(s) && t < |s.c.threads| && Enabled(s, RemoveOne(t))
    ensures var o := s.c.threads[t].rm[0];
            MovedOn(s, o) || RemovedAt(s, Next(s, RemoveOne(t)), o)
  {
    QueuedIsDeleted(s, t);
    assert RmOk(s, s.c.threads[t].rm[0]) by { assert PoolsOk(s, t) by { assert ThreadOk(s, t); } }
    hide Inv;
  }

  // ----- A clean-up that meets no transaction finishes -----

  /** The steps take s to s'. */
  ghost predicate Leads(s: State, acts: seq<Step>, s': State)
    decreases |acts|
  {
    if acts == [] then s' == s else Enabled(s, acts[0]) && Leads(Next(s, acts[0]), acts[1..], s')
  }

  lemma {:induction false} LeadsOn(s: State, acts: seq<Step>, s1: State, more: seq<Step>, s2: State)
    requires Leads(s, acts, s1) && Leads(s1, more, s2)
    ensures Leads(s, acts + more, s2)
    decreases |acts|
  {
    hide Enabled, Next;
    if acts == [] {
      assert acts + more == more;
    } else {
      LeadsOn(Next(s, acts[0]), acts[1..], s1, more, s2);
      assert (acts + more)[1..] == acts[1..] + more;
    }
  }

  lemma LeadsNowhere(s: State)
    ensures Leads(s, [], s)
  {}

  lemma LeadsFirst(s: State, a: Step, acts: seq<Step>, s': State)
    requires Enabled(s, a) && Leads(Next(s, a), acts, s')
    ensures Leads(s, [a] + acts, s')
  {
    assert ([a] + acts)[1..] == acts;
  }

  /** No other thread is in a transaction. */
  ghost predicate OthersOut(s: State, t: Tid) {
    forall u :: 0 <= u < |s.c.threads| && u != t ==> s.c.threads[u].rcu.ended
  }

  ghost function AtPc(s: State, t: Tid, pc: Pc): State
    requires WfSizes(s) && t < |s.c.threads|
  {
    Update(s, t, s.c.threads[t].(pc := pc), s.g.th[t])
  }

  lemma {:induction false} WaitFinishes(s: State, t: Tid) returns (acts: seq<Step>)
    requires Inv(s) && WfSizes(s) && t < |s.c.threads| && s.c.threads[t].pc.Waiting? && OthersOut(s, t)
    requires |s.c.threads[t].pc.cs| <= |s.c.threads| && s.c.threads[t].pc.checked < |s.c.threads|
    ensures Leads(s, acts, AtPc(s, t, Reclaiming(s.c.threads[t].pc.job)))
    decreases 2 * |s.c.threads| - |s.c.threads[t].pc.cs| - s.c.threads[t].pc.checked
  {
    hide Inv, Leads;
    WaiterMoves(s, t);
    var pc := s.c.threads[t].pc;
    var a := if |pc.cs| < |s.c.threads| then WaitCopy(t) else WaitCheck(t);
    var s1 := Next(s, a);
    WaitStepIs(s, t, a);
    StepInv(s, a);
    var pc1 := s1.c.threads[t].pc;
    AtPcTwice(s, t, pc1, Reclaiming(pc.job));
    var rest;
    if pc1.Waiting? {
      rest := WaitFinishes(s1, t);
    } else {
      rest := [];
      LeadsNowhere(s1);
    }
    LeadsFirst(s, a, rest, AtPc(s, t, Reclaiming(pc.job)));
    acts := [a] + rest;
  }

  /** A step of the wait only moves the thread's own place. */
  lemma WaitStepIs(s: State, t: Tid, a: Step)
    requires Enabled(s, a) && (a == WaitCopy(t) || a == WaitCheck(t)) && OthersOut(s, t)
    ensures var s', pc := Next(s, a), s.c.threads[t].pc;
            && WfSizes(s') && t < |s'.c.threads| == |s.c.threads| && OthersOut(s', t) && s' == AtPc(s, t, s'.c.threads[t].pc)
            && var pc' := s'.c.threads[t].pc;
               && (pc'.Waiting? ==> pc'.job == pc.job && |pc'.cs| + pc'.checked == |pc.cs| + pc.checked + 1
                                    && |pc'.cs| <= |s.c.threads| && (pc.checked < |s.c.threads| ==> pc'.checked < |s.c.threads|))
               && (!pc'.Waiting? ==> pc' == Reclaiming(pc.job))
  {}

  lemma AtPcTwice(s: State, t: Tid, pc: Pc, pc': Pc)
    requires WfSizes(s) && t < |s.c.threads|
    ensures WfSizes(AtPc(s, t, pc)) && t < |AtPc(s, t, pc).c.threads| && AtPc(AtPc(s, t, pc), t, pc') == AtPc(s, t, pc')
  {
    var a, b := AtPc(AtPc(s, t, pc), t, pc'), AtPc(s, t, pc');
    assert a.c.threads == b.c.threads && a.g.th == b.g.th;
  }

  /** Every object of the queue has been handled. */
  ghost predicate Carried(s: State, s': State, rm: seq<RmObj>) {
    forall j :: 0 <= j < |rm| ==> Settled(s, s', rm[j])
  }

  /** A queued row that was not written since is gone. */
  ghost predicate Settled(s: State, s': State, o: RmObj) {
    o.node < |s.c.nodes| && s.c.nodes[o.node].seqno == o.seqno ==>
      o.node < |s'.c.nodes| && s'.c.nodes[o.node].value == HaveRemoved && o.key !in s'.c.index
  }

  /** Rows only go away, and the thread's own lists other than the queue stay. */
  ghost predicate OnlyRemoves(s: State, s': State) {
    && |s'.c.nodes| == |s.c.nodes| && s'.c.index.Keys <= s.c.index.Keys
    && forall n :: 0 <= n < |s.c.nodes| ==> s'.c.nodes[n] == s.c.nodes[n] || (s'.c.nodes[n].value == HaveRemoved && s.c.nodes[n].key !in s'.c.index)
  }

  lemma {:induction false} RemovalFinishes(s: State, t: Tid) returns (acts: seq<Step>, s': State)
    requires Inv(s) && t < |s.c.threads| && s.c.threads[t].pc == Reclaiming(DelayRemove)
    ensures Leads(s, acts, s') && t < |s'.c.threads| && s'.c.threads[t].pc == Idle && s'.c.threads[t].rm == []
    ensures OnlyRemoves(s, s') && Carried(s, s', s.c.threads[t].rm)
    decreases |s.c.threads[t].rm|
  {
    hide Inv, Enabled, Next, OnlyRemoves, Carried, Leads;
    ReclaimerMoves(s, t);
    var rm := s.c.threads[t].rm;
    if rm == [] {
      s' := Next(s, RemoveDone(t));
      LeadsNowhere(s');
      LeadsFirst(s, RemoveDone(t), [], s');
      acts := [RemoveDone(t)] + [];
      QueueDone(s, t);
      NoneCarried(s, s', rm);
    } else {
      var s1 := Next(s, RemoveOne(t));
      StepInv(s, RemoveOne(t));
      RemoveOneIs(s, t);
      var rest;
      rest, s' := RemovalFinishes(s1, t);
      LeadsFirst(s, RemoveOne(t), rest, s');
      acts := [RemoveOne(t)] + rest;
      RemovesOn(s, s1, s');
      CarriedOn(s, s1, s', t);
    }
  }

  lemma NoneCarried(s: State, s': State, rm: seq<RmObj>)
    requires rm == []
    ensures Carried(s, s', rm)
  {}

  lemma QueueDone(s: State, t: Tid)
    requires Enabled(s, RemoveDone(t))
    ensures var s' := Next(s, RemoveDone(t));
            t < |s'.c.threads| && s'.c.threads[t].pc == Idle && s'.c.threads[t].rm == [] && OnlyRemoves(s, s')
  {}

  lemma RemoveOneIs(s: State, t: Tid)
    requires Inv(s) && Enabled(s, RemoveOne(t))
    ensures var s' := Next(s, RemoveOne(t));
            && t < |s'.c.threads| && s'.c.threads[t].pc == Reclaiming(DelayRemove) && s'.c.threads[t].rm == s.c.threads[t].rm[1..]
            && OnlyRemoves(s, s') && Settled(s, s', s.c.threads[t].rm[0])
  {
    HeadIs(s, t);
    hide Inv, Core, RmOk, IndexOk;
  }

  lemma HeadIs(s: State, t: Tid)
    requires Inv(s) && t < |s.c.threads| && s.c.threads[t].rm != []
    ensures var o := s.c.threads[t].rm[0];
            && o.node < |s.c.nodes| && s.c.nodes[o.node].key == o.key && (s.c.nodes[o.node].seqno == o.seqno ==> s.c.nodes[o.node].value == LogicalDelete)
  {
    QueuedIsDeleted(s, t);
    assert RmOk(s, s.c.threads[t].rm[0]) by { assert PoolsOk(s, t) by { assert ThreadOk(s, t); } }
  }

  lemma RemovesOn(s: State, s1: State, s2: State)
    requires OnlyRemoves(s, s1) && OnlyRemoves(s1, s2)
    ensures OnlyRemoves(s, s2)
  {}

  lemma CarriedOn(s: State, s1: State, s2: State, t: Tid)
    requires Inv(s) && t < |s.c.threads| && t < |s1.c.threads| && s.c.threads[t].rm != [] && s1.c.threads[t].rm == s.c.threads[t].rm[1..]
    requires OnlyRemoves(s, s1) && OnlyRemoves(s1, s2) && Settled(s, s1, s.c.threads[t].rm[0]) && Carried(s1, s2, s1.c.threads[t].rm)
    ensures Carried(s, s2, s.c.threads[t].rm)
  {
    var rm := s.c.threads[t].rm;
    assert forall j :: 0 <= j < |rm| ==> RmOk(s, rm[j]) by { assert PoolsOk(s, t) by { assert ThreadOk(s, t); } }
    hide Inv;
    forall j | 0 <= j < |rm| ensures Settled(s, s2, rm[j]) {
      if j > 0 { assert Settled(s1, s2, s1.c.threads[t].rm[j - 1]); }
    }
  }

  /**
    DelayRemove, started while no other thread is in a transaction, runs to its
    end by the thread's own steps: every row it had queued, and that nobody wrote
    since, is then out of the index.
  */
  lemma DelayRemoveRemoves(s: State, t: Tid) returns (acts: seq<Step>, s': State)
    requires Inv(s) && t < |s.c.threads| && s.c.threads[t].pc == Idle && OthersOut(s, t)
    ensures Leads(s, acts, s') && t < |s'.c.threads| && s'.c.threads[t].pc == Idle && s'.c.threads[t].rm == []
    ensures Carried(s, s', s.c.threads[t].rm)
  {
    hide Leads, Carried;
    var waits, s1 := GraceBegins(s, t, DelayRemove);
    var rest;
    rest, s' := RemovalFinishes(s1, t);
    LeadsOn(s, waits, s1, rest, s');
    acts := waits + rest;
    assert Carried(s, s', s.c.threads[t].rm) by { SameSettled(s, s1, s', s.c.threads[t].rm); }
  }

  lemma SameSettled(s: State, s1: State, s2: State, rm: seq<RmObj>)
    requires s1.c.nodes == s.c.nodes && Carried(s1, s2, rm)
    ensures Carried(s, s2, rm)
  {
    forall j | 0 <= j < |rm| ensures Settled(s, s2, rm[j]) { assert Settled(s1, s2, rm[j]); }
  }

  lemma GraceBegins(s: State, t: Tid, job: Job) returns (acts: seq<Step>, s': State)
    requires Inv(s) && t < |s.c.threads| && s.c.threads[t].pc == Idle && OthersOut(s, t)
    ensures Leads(s, acts, s') && Inv(s') && t < |s'.c.threads| && s'.c.nodes == s.c.nodes && s'.c.index == s.c.index
    ensures s'.c.threads[t] == s.c.threads[t].(pc := Reclaiming(job))
  {
    var a := WaitStart(t, job);
    assert WfSizes(s) && Enabled(s, a);
    hide Inv, Leads;
    var s0 := Next(s, a);
    StepInv(s, a);
    var rest := WaitFinishes(s0, t);
    s' := AtPc(s0, t, Reclaiming(job));
    LeadsFirst(s, a, rest, s');
    LeadsInv(s0, rest, s');
    acts := [a] + rest;
  }

  lemma {:induction false} LeadsInv(s: State, acts: seq<Step>, s': State)
    requires Inv(s) && Leads(s, acts, s')
    ensures Inv(s')
    decreases |acts|
  {
    hide Inv, Enabled, Next;
    if acts != [] {
      StepInv(s, acts[0]);
      LeadsInv(Next(s, acts[0]), acts[1..], s');
    }
  }

  /** Likewise GC: everything the thread had queued is then free. */
  lemma GcFrees(s: State, t: Tid) returns (acts: seq<Step>, s': State)
    requires Inv(s) && t < |s.c.threads| && s.c.threads[t].pc == Idle && OthersOut(s, t)
    ensures Leads(s, acts, s') && t < |s'.c.threads| && s'.c.threads[t].pc == Idle
    ensures s'.c.threads[t].freeVals == s.c.threads[t].gcVals + s.c.threads[t].freeVals && s'.c.threads[t].gcVals == []
    ensures s'.c.threads[t].freeVers == s.c.threads[t].gcVers + s.c.threads[t].freeVers && s'.c.threads[t].gcVers == []
  {
    var waits, s1 := GraceBegins(s, t, Gc);
    ReclaimerMoves(s1, t);
    hide Inv, Leads;
    s' := Next(s1, FreeAll(t));
    LeadsNowhere(s');
    LeadsFirst(s1, FreeAll(t), [], s');
    LeadsOn(s, waits, s1, [FreeAll(t)] + [], s');
    acts := waits + ([FreeAll(t)] + []);
  }
}
