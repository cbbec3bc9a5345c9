/** In every reachable state the loops of the source meet their preconditions. */
module DbxCodeTheorems {
  import opened Common
  import opened DbxModel
  import opened DbxSteps
  import opened DbxInvariant
  import opened DbxTheorems
  import opened DbxCommit
  import opened DbxCode
  import opened DbxCommitCode

  lemma {:induction false} ChainDescends(s: State, n: NodeId, snap: nat, j: nat)
    requires SharedOk(s) && n < |s.c.nodes| && j <= |s.g.nodes[n].hist|
    requires j > 0 ==> Above(s, n, j - 1) > snap
    requires forall i :: 0 <= i < |s.g.nodes[n].hist| && Above(s, n, i) > snap ==> VersionIntact(s, n, i)
    ensures Descending(s.c.vers, LinkTo(s.g.nodes[n].hist, j), snap)
  {
    var hist := s.g.nodes[n].hist;
    if j > 0 {
      assert PastOk(s, n, j - 1);
      if j > 1 && hist[j - 1].counter > snap {
        assert PastOk(s, n, j - 2);
        assert Above(s, n, j - 2) == hist[j - 1].counter;
        ChainDescends(s, n, snap, j - 1);
      }
    }
  }

  /** A snapshot reader's pointer chase is safe: it follows only live links, to ever smaller counters. */
  lemma ReadersChaseLiveLinks(run: seq<State>, acts: seq<Step>, threads: nat, i: nat, t: Tid, n: NodeId)
    requires IsRun(run, acts, threads) && i < |run| && t < |run[i].c.threads|
    requires InRo(run[i].c.threads[t].pc) && n < |run[i].c.nodes|
    ensures var snap := run[i].c.threads[t].oldsnapshot;
            run[i].c.nodes[n].counter > snap ==> Descending(run[i].c.vers, run[i].c.nodes[n].prior, snap)
  {
    RunInv(run, acts, threads, i);
    var s := run[i];
    var snap := s.c.threads[t].oldsnapshot;
    assert ThreadOk(s, t) && NodeOk(s, n);
    if s.c.nodes[n].counter > snap {
      ChainDescends(s, n, snap, |s.g.nodes[n].hist|);
    }
  }

  /** A committing thread meets the precondition of TxEnd.Publish, and what that publishes is the machine's next state. */
  lemma CommitRunsPublish(run: seq<State>, acts: seq<Step>, threads: nat, i: nat)
    requires IsRun(run, acts, threads) && i < |acts| && acts[i].EndCommit?
    ensures var c, t := run[i].c, acts[i].t;
            && Fits(c, t, c.threads[t].ws)
            && |run[i + 1].c.threads| == |c.threads|
            && run[i + 1].c.(threads := c.threads) == WriteMany(c, t, c.threads[t].ws).(threads := c.threads)
            && var th, th' := WriteMany(c, t, c.threads[t].ws).threads[t], run[i + 1].c.threads[t];
               && th'.freeVers == th.freeVers && th'.gcVers == th.gcVers
               && th'.gcVals == th.gcVals && th'.rm == th.rm
  {
    RunInv(run, acts, threads, i);
    var s, t := run[i], acts[i].t;
    assert ThreadOk(s, t);
    FitsAtCommit(s, t);
    CommitIsWriteMany(Sealed(s, t), t);
  }

  lemma FitsAtCommit(s: State, t: Tid)
    requires Core(s) && t < |s.c.threads|
    ensures Fits(s.c, t, s.c.threads[t].ws)
  {
    assert ThreadOk(s, t);
    forall j | 0 <= j < |s.c.threads[t].ws| ensures s.c.threads[t].ws[j].node < |s.c.nodes| {
      assert EntryOk(s, t, s.c.threads[t].ws[j], s.g.th[t].wlog[j]);
    }
    forall n | 0 <= n < |s.c.nodes| ensures s.c.nodes[n].counter <= s.c.snapshot {
      assert NodeOk(s, n);
    }
  }
}
